/** The two programs and the two-party system they make up: whatever runs of the
    programs the channels between them allow are a run of the system, and success
    is possible exactly when it should be. */
module Programs {
  import opened Bytes
  import opened Manifest
  import opened Files
  import opened Session
  import opened Paths
  import opened Handshake
  import opened Receiver
  import opened Sender
  import opened Protocol
  import opened Schedules
  import Comm
  import Net
  import Pake
  import Pipe

  // -------------------------------------------------- once the keys are agreed

  /** The outcome of both programs after the handshake, on channels that carried a
      prefix of what the other one sent. */
  ghost predicate Outcome(c: Setup, held: seq<bytes>, d: Dispatch, okS: bool, inboxS: seq<Packet>,
                          inboxR: seq<Packet>, now: map<string, Node>, dirs: set<string>,
                          files: seq<FileInfo>, contents: seq<bytes>, replies: Replies, okR: bool)
  {
    && |held| == |c.files|
    && Dispatched(inboxS, c.keyS, c.encode(c.files), held, d, okS)
    && Received(inboxR, c.keyS, c.decode, c.confirm, c.opts, c.base, c.dirs, now, dirs, files, contents, replies, okR)
    && inboxS <= RepliesAs(replies, c.keyS)
    && inboxR <= SentAs(d, c.keyS, c.encode(c.files))
  }

  /** The end of a run of the system that matches an outcome. */
  ghost predicate EndsAs(c: Setup, t: State, held: seq<bytes>, d: Dispatch, okS: bool, now: map<string, Node>,
                         dirs: set<string>, contents: seq<bytes>, replies: Replies, okR: bool)
  {
    && t.s == SDone(okS) && t.r.RDone? && (okR ==> t.r.ok)
    && t.fs == now && t.dirs == dirs && t.contents == contents && (okS ==> t.loaded == held)
    && t.sent == Ready(c).sent + SentAs(d, c.keyS, c.encode(c.files))
    && t.rsent == Ready(c).rsent + RepliesAs(replies, c.keyS)
  }

  /** The sender's part of a run in which the receiver has accepted. */
  lemma SentSoFar(c: Setup, held: seq<bytes>, d: Dispatch, inbox: seq<Packet>, ok: bool) returns (t: State)
    requires Proper(c) && CanOffer(c) && c.confirm(c.files)
    requires |held| == |c.files| && Dispatched(inbox, c.keyS, c.encode(c.files), held, d, ok) && !d.Unsent?
    ensures Reachable(c, t) && !t.s.SDone?
    ensures t == Accepting(c).(s := t.s, rtaken := t.rtaken, sent := t.sent, frames := t.frames, loaded := t.loaded)
    ensures t.sent == Ready(c).sent + SentAs(d, c.keyS, c.encode(c.files))
    ensures ok ==> t.s == SFinalIn && t.rtaken == 3 && t.loaded == held
  {
    hide Reachable, StreamFrames, Contents, DataFrames, SealAll, GoodChunks, Concat, CanOffer;
    if d.Offered? {
      OfferAccepted(c);
      t := Accepting(c);
    } else {
      FilesStream(c, d.whole);
      t := Streaming(c, d.whole, d.part);
      if d.part != [] { PartStreams(c, d.whole, d.part); }
      SealJoin(c.keyS, StreamFrames(d.whole), DataFrames(d.part));
      assert held[..|held|] == held;
    }
  }

  lemma SealJoin(key: Key, a: seq<bytes>, b: seq<bytes>)
    ensures SealAll(key, a + b) == SealAll(key, a) + SealAll(key, b)
  {}

  lemma AcceptIsNotReject()
    ensures ACCEPT != REJECT
  {
    assert ACCEPT[0] != REJECT[0];
  }

  /** The outcomes in which the receiver has not accepted. */
  lemma NotAccepted(c: Setup, held: seq<bytes>, d: Dispatch, okS: bool, inboxS: seq<Packet>,
                    inboxR: seq<Packet>, now: map<string, Node>, dirs: set<string>,
                    files: seq<FileInfo>, contents: seq<bytes>, replies: Replies, okR: bool) returns (t: State)
    requires Proper(c) && c.keyR(c.salt) == c.keyS && HellosFit(c, 3, 2)
    requires Outcome(c, held, d, okS, inboxS, inboxR, now, dirs, files, contents, replies, okR)
    requires replies.Silent? || replies.Declined?
    ensures Reachable(c, t) && EndsAs(c, t, held, d, okS, now, dirs, contents, replies, okR)
  {
    hide Reachable, Stored, Placed, JudgeAll, Opened, AllGood, Contents, HellosFit;
    AcceptIsNotReject();
    assert !d.Streamed?;
    if replies.Declined? {
      assert inboxR[0] == Sealed(c.keyS, c.encode(c.files)) && files == c.files;
      OfferDeclined(c);
      t := SenderEnds(c, Offering(c).(r := RDone(false), rsent := Ready(c).rsent + [Sealed(c.keyS, REJECT)], taken := 4, rfiles := c.files), false);
    } else {
      KeysConfirmed(c);
      if d.Offered? { OfferSent(c); }
      t := SenderEnds(c, if d.Unsent? then Ready(c) else Offering(c), false);
      t := ReceiverQuits(c, t);
    }
  }

  /** And those in which it has. */
  lemma WasAccepted(c: Setup, held: seq<bytes>, d: Dispatch, okS: bool, inboxS: seq<Packet>,
                    inboxR: seq<Packet>, now: map<string, Node>, dirs: set<string>,
                    files: seq<FileInfo>, contents: seq<bytes>, replies: Replies, okR: bool) returns (t: State)
    requires Proper(c) && c.keyR(c.salt) == c.keyS && HellosFit(c, 3, 2)
    requires Outcome(c, held, d, okS, inboxS, inboxR, now, dirs, files, contents, replies, okR)
    requires replies.Accepted? || replies.AcceptedThen?
    ensures Reachable(c, t) && EndsAs(c, t, held, d, okS, now, dirs, contents, replies, okR)
  {
    hide Reachable, JudgeAll, Opened, AllGood, Contents, Dests, Nodes, Publish, NoOverwrite, SafeJoin;
    hide StreamFrames, DataFrames, SealAll, HellosFit, AllRoom, DirsAfter;
    assert inboxR[0] == Sealed(c.keyS, c.encode(c.files)) && files == c.files;
    t := SentSoFar(c, held, d, inboxS, okS);
    assert inboxR[1..] <= t.sent[t.taken..];
    var k := |contents|;
    var n := FilesTaken(c, t, inboxR[1..], contents, k, now);
    assert contents[..k] == contents;
    t := ReceiverEnds(c, Taking(c, t, n, contents, k), contents, dirs, replies, okR);
    assert okS ==> t.rsent[3] == inboxS[1];
    t := SenderEnds(c, t, okS);
  }

  // ------------------------------------------------------------ from the codes

  /** A run of the sending program: how far its handshake got and with which key,
      and then what came of the offer. */
  datatype SenderRun = SenderRun(n: nat, key: Key, met: bool, d: Dispatch, ok: bool, inbox: seq<Packet>)

  ghost predicate SenderRan(c: Setup, keyFrom: bytes -> Option<Key>, held: seq<bytes>, a: SenderRun) {
    && |held| == |c.files|
    && MetAsA(a.inbox, c.shareS, c.salt, keyFrom, a.n, a.key, a.met)
    && (if a.met then Dispatched(a.inbox[2..], a.key, c.encode(c.files), held, a.d, a.ok) else a.d.Unsent? && !a.ok)
  }

  function SenderSent(c: Setup, a: SenderRun): seq<Packet>
    requires a.n <= 3
  {
    HelloA(c.shareS, c.salt, a.key)[..a.n] + SentAs(a.d, a.key, c.encode(c.files))
  }

  /** A run of the receiving program. */
  datatype ReceiverRun = ReceiverRun(
    n: nat, key: Key, met: bool, files: seq<FileInfo>, contents: seq<bytes>, replies: Replies, ok: bool,
    inbox: seq<Packet>, now: map<string, Node>, dirs: set<string>)

  ghost predicate ReceiverRan(c: Setup, keyFrom: (bytes, bytes) -> Option<Key>, b: ReceiverRun) {
    && MetAsB(b.inbox, c.shareR, keyFrom, b.n, b.key, b.met)
    && (if b.met then
          Received(b.inbox[3..], b.key, c.decode, c.confirm, c.opts, c.base, c.dirs, b.now, b.dirs, b.files, b.contents, b.replies, b.ok)
        else
          b.replies.Silent? && !b.ok && b.contents == [] && b.now == c.base && b.dirs == c.dirs)
  }

  function ReceiverSent(c: Setup, b: ReceiverRun): seq<Packet>
    requires b.n <= 2
  {
    HelloB(c.shareR, b.key)[..b.n] + RepliesAs(b.replies, b.key)
  }

  /** The sending program, from where it is connected to its peer. */
  method RunSender<P(!new)>(link: Link, s: Pake.Suite<P>, code: bytes, x: nat, salt: bytes, random: bool,
                            derive: (bytes, bytes) -> Key, files: seq<FileInfo>, sources: seq<Net.Source>, opens: seq<bool>,
                            encode: seq<FileInfo> -> bytes, meter: Meter, ghost c: Setup, ghost held: seq<bytes>)
    returns (ok: bool, ghost a: SenderRun)
    requires s.g.order > 0 && link.outbox == []
    requires |sources| == |files| == |opens| && Holds(sources, held, 0)
    requires forall i, j | 0 <= i < j < |sources| :: sources[i] != sources[j]
    requires c.files == files && c.encode == encode && c.salt == salt
    requires c.shareS == (s.marshal)(Pake.Share(s, Pake.RoleA, code, x))
    modifies link, meter, sources`pending
    ensures a.inbox == old(link.inbox) && a.ok == ok
    ensures SenderRan(c, KeyFromA(s, code, x, salt, derive), held, a) && link.outbox == SenderSent(c, a)
    ensures random && !link.broken ==> AsFarAsSent(c, KeyFromA(s, code, x, salt, derive), old(Readable(sources, opens)), a)
  {
    hide Dispatched, Explained, Pake.Share, KeyFromA, MetAsA, DoneAsA, HelloA, SentAs;
    ghost var inbox := link.inbox;
    var met, key;
    ghost var n;
    met, key, n := Handshake.Handshake(link, s, Pake.RoleA, code, x, salt, random, derive);
    HelloLength(c, KeyFromA(s, code, x, salt, derive), inbox, n, key, met);
    ok, a := false, SenderRun(n, key, met, Unsent, false, inbox);
    assert SentAs(Unsent, key, c.encode(c.files)) == [] by { NoStream(key, c.encode(c.files)); }
    if met {
      ghost var d;
      ok, d := Send(link, key, files, sources, opens, encode, meter, held);
      a := SenderRun(n, key, met, d, ok, inbox);
    }
  }

  lemma HelloLength(c: Setup, keyFrom: bytes -> Option<Key>, inbox: seq<Packet>, n: nat, key: Key, met: bool)
    requires MetAsA(inbox, c.shareS, c.salt, keyFrom, n, key, met)
    ensures n <= 3 == |HelloA(c.shareS, c.salt, key)| && (met ==> |inbox| >= 2)
  {}

  /** The receiving program, from where it is connected to its peer. */
  method RunReceiver<P(!new)>(link: Link, s: Pake.Suite<P>, code: bytes, y: nat, random: bool, derive: (bytes, bytes) -> Key,
                              fs: FileSystem, decode: bytes -> Option<seq<FileInfo>>, confirm: seq<FileInfo> -> bool,
                              explain: Failure -> bytes, opts: Options, meter: Meter, ghost c: Setup)
    returns (ok: bool, ghost b: ReceiverRun)
    requires s.g.order > 0 && link.outbox == [] && forall f :: explain(f) != ACCEPT
    requires c.decode == decode && c.confirm == confirm && c.opts == opts
    requires c.base == FilesOf(fs.nodes) && c.dirs == DirsOf(fs.nodes)
    requires c.shareR == (s.marshal)(Pake.Share(s, Pake.RoleB, code, y))
    modifies link, fs, meter
    ensures b.inbox == old(link.inbox) && b.ok == ok && b.now == FilesOf(fs.nodes) && b.dirs == DirsOf(fs.nodes)
    ensures ReceiverRan(c, KeyFromB(s, code, y, derive), b) && link.outbox == ReceiverSent(c, b)
    ensures random && !link.broken && !fs.failed ==> AsFarAsReceived(c, KeyFromB(s, code, y, derive), b)
  {
    hide Received, Excused, Pake.Share, KeyFromB, MetAsB, DoneAsB, HelloB, RepliesAs, FilesOf, DirsOf;
    ghost var inbox := link.inbox;
    var met, key;
    ghost var n;
    met, key, n := Handshake.Handshake(link, s, Pake.RoleB, code, y, [], random, derive);
    ProofLength(c, KeyFromB(s, code, y, derive), inbox, n, key, met);
    ok, b := false, ReceiverRun(n, key, met, [], [], Silent, false, inbox, c.base, c.dirs);
    assert RepliesAs(Silent, key) == [] by { SilentSends(key); }
    if met {
      ghost var files, contents, replies;
      ok, files, contents, replies := Receive(link, key, fs, decode, confirm, explain, opts, meter);
      b := ReceiverRun(n, key, met, files, contents, replies, ok, inbox, FilesOf(fs.nodes), DirsOf(fs.nodes));
    }
  }

  lemma ProofLength(c: Setup, keyFrom: (bytes, bytes) -> Option<Key>, inbox: seq<Packet>, n: nat, key: Key, met: bool)
    requires MetAsB(inbox, c.shareR, keyFrom, n, key, met)
    ensures n <= 2 == |HelloB(c.shareR, key)| && (met ==> |inbox| >= 3)
  {}

  lemma SilentSends(key: Key)
    ensures RepliesAs(Silent, key) == []
  {}

  /** The sending program went as far as what it was sent and its sources let it. */
  ghost predicate AsFarAsSent(c: Setup, keyFrom: bytes -> Option<Key>, readable: seq<bool>, a: SenderRun) {
    && DoneAsA(a.inbox, c.shareS, c.salt, keyFrom, a.n, a.key, a.met)
    && (a.met ==> |a.inbox| >= 2 && Explained(a.inbox[2..], a.key, c.encode(c.files), readable, a.d, a.ok))
  }

  /** The receiving program went as far as what it was sent and its files let it. */
  ghost predicate AsFarAsReceived(c: Setup, keyFrom: (bytes, bytes) -> Option<Key>, b: ReceiverRun) {
    && DoneAsB(b.inbox, c.shareR, keyFrom, b.n, b.key, b.met)
    && (b.met ==>
          && |b.inbox| >= 3
          && Excused(b.inbox[3..], b.key, c.decode, c.confirm, c.opts, c.base, c.dirs, b.files, b.contents, b.replies, b.ok))
  }

  /** Both programs ran, each reading a prefix of what the other one sent, and the
      keys of the system are those that the exchanged shares and salt lead to. */
  ghost predicate BothRan(c: Setup, keyFromS: bytes -> Option<Key>, keyFromR: (bytes, bytes) -> Option<Key>,
                          held: seq<bytes>, a: SenderRun, b: ReceiverRun)
  {
    && SenderRan(c, keyFromS, held, a) && ReceiverRan(c, keyFromR, b)
    && a.inbox <= ReceiverSent(c, b) && b.inbox <= SenderSent(c, a)
    && keyFromS(c.shareR) == Some(c.keyS) && keyFromR(c.shareS, c.salt) == Some(c.keyR(c.salt))
  }

  /** The end of a run of the system that matches what the programs did. */
  ghost predicate Matching(c: Setup, t: State, held: seq<bytes>, a: SenderRun, b: ReceiverRun)
    requires a.n <= 3 && b.n <= 2
  {
    && t.s == SDone(a.ok) && t.r.RDone? && (b.ok ==> t.r.ok)
    && t.fs == b.now && t.dirs == b.dirs && t.contents == b.contents && (a.ok ==> t.loaded == held)
    && t.sent == SenderSent(c, a) && t.rsent == ReceiverSent(c, b)
  }

  /** How far the handshakes can have got together, and with which keys. */
  lemma Meeting(c: Setup, keyFromS: bytes -> Option<Key>, keyFromR: (bytes, bytes) -> Option<Key>,
                held: seq<bytes>, a: SenderRun, b: ReceiverRun)
    requires BothRan(c, keyFromS, keyFromR, held, a, b)
    ensures CanMeet(a.n, b.n) && HellosFit(c, a.n, b.n)
    ensures HelloA(c.shareS, c.salt, a.key)[..a.n] == HelloA(c.shareS, c.salt, c.keyS)[..a.n]
    ensures HelloB(c.shareR, b.key)[..b.n] == HelloB(c.shareR, c.keyR(c.salt))[..b.n]
    ensures a.met || b.met ==> a.n == 3 && b.n == 2 && a.key == b.key == c.keyS == c.keyR(c.salt)
  {
    hide Dispatched, Received;
    var helloA, helloB := HelloA(c.shareS, c.salt, a.key), HelloB(c.shareR, b.key);
    if a.n >= 2 { assert a.inbox[0] == ReceiverSent(c, b)[0]; }
    if b.n >= 2 { assert b.inbox[0] == SenderSent(c, a)[0] && b.inbox[1] == SenderSent(c, a)[1]; }
    if a.met {
      assert |ReceiverSent(c, b)| >= 2 && b.n == 2;
      assert a.inbox[1] == ReceiverSent(c, b)[1] == helloB[1];
    }
    if b.met {
      assert |SenderSent(c, a)| >= 3 && a.n == 3;
      assert b.inbox[2] == SenderSent(c, a)[2] == helloA[2];
    }
    forall k | 0 <= k < a.n ensures Fits(HelloA(c.shareS, c.salt, c.keyS)[k]) {
      assert Fits(helloA[k]) && helloA[..a.n][k] == HelloA(c.shareS, c.salt, c.keyS)[..a.n][k];
    }
    forall k | 0 <= k < b.n ensures Fits(HelloB(c.shareR, c.keyR(c.salt))[k]) {
      assert Fits(helloB[k]) && helloB[..b.n][k] == HelloB(c.shareR, c.keyR(c.salt))[..b.n][k];
    }
  }

  /** At least one of them was not convinced: no file data was sent, nothing taken. */
  lemma NotConvinced(c: Setup, keyFromS: bytes -> Option<Key>, keyFromR: (bytes, bytes) -> Option<Key>,
                     held: seq<bytes>, a: SenderRun, b: ReceiverRun) returns (t: State)
    requires Proper(c) && BothRan(c, keyFromS, keyFromR, held, a, b) && !(a.met && b.met)
    ensures Reachable(c, t) && Matching(c, t, held, a, b)
  {
    hide Reachable, Stored, Placed, JudgeAll, Opened, AllGood, Contents, HellosFit, MetAsA, MetAsB;
    Meeting(c, keyFromS, keyFromR, held, a, b);
    Quiet(c, keyFromS, keyFromR, held, a, b);
    if a.met {
      SenderTrusts(c);
      t := Trusting(c);
      if a.d.Offered? {
        Then(c, t, SSend);
        t := Apply(c, t, SSend);
      }
    } else if b.met {
      ReceiverTrusts(c);
      t := Met(c, 3, 2).(r := ROfferIn, taken := 3);
    } else {
      Meets(c, a.n, b.n);
      t := Met(c, a.n, b.n);
    }
    t := SenderEnds(c, t, false);
    t := ReceiverQuits(c, t);
  }

  lemma Quiet(c: Setup, keyFromS: bytes -> Option<Key>, keyFromR: (bytes, bytes) -> Option<Key>,
              held: seq<bytes>, a: SenderRun, b: ReceiverRun)
    requires BothRan(c, keyFromS, keyFromR, held, a, b) && !(a.met && b.met)
    ensures b.replies.Silent? && b.contents == [] && b.now == c.base && b.dirs == c.dirs && !b.ok
    ensures !a.d.Streamed? && !a.ok && (a.d.Offered? ==> a.met && Fits(Sealed(a.key, c.encode(c.files))))
    ensures a.n <= 3 && b.n <= 2
  {
    hide Stored, Placed, JudgeAll, Opened, AllGood, Contents;
    Meeting(c, keyFromS, keyFromR, held, a, b);
    if a.met {
      assert |a.inbox| <= 2;
    } else if b.met {
      assert |b.inbox| <= 3;
    }
  }

  /** Every pair of runs of the two programs, from their codes on, over channels that
      may be cut anywhere, ends as a run of the system does: what is proved of its
      runs holds of the programs. */
  lemma ProgramsAreARun(c: Setup, keyFromS: bytes -> Option<Key>, keyFromR: (bytes, bytes) -> Option<Key>,
                        held: seq<bytes>, a: SenderRun, b: ReceiverRun)
    requires Proper(c) && BothRan(c, keyFromS, keyFromR, held, a, b)
    ensures exists t :: Reachable(c, t) && Matching(c, t, held, a, b)
  {
    hide Reachable, Dispatched, Received, Proper, HellosFit, MetAsA, MetAsB, Matching, EndsAs;
    var t;
    if a.met && b.met {
      t := BothMet(c, keyFromS, keyFromR, held, a, b);
    } else {
      t := NotConvinced(c, keyFromS, keyFromR, held, a, b);
    }
  }

  lemma BothMet(c: Setup, keyFromS: bytes -> Option<Key>, keyFromR: (bytes, bytes) -> Option<Key>,
                held: seq<bytes>, a: SenderRun, b: ReceiverRun) returns (t: State)
    requires Proper(c) && BothRan(c, keyFromS, keyFromR, held, a, b) && a.met && b.met
    ensures Reachable(c, t) && Matching(c, t, held, a, b)
  {
    hide Reachable, Dispatched, Received, Proper, HellosFit, SentAs, RepliesAs;
    Meeting(c, keyFromS, keyFromR, held, a, b);
    assert a.inbox[2..] <= RepliesAs(b.replies, c.keyS);
    assert b.inbox[3..] <= SentAs(a.d, c.keyS, c.encode(c.files));
    if b.replies.Silent? || b.replies.Declined? {
      t := NotAccepted(c, held, a.d, a.ok, a.inbox[2..], b.inbox[3..], b.now, b.dirs, b.files, b.contents, b.replies, b.ok);
    } else {
      t := WasAccepted(c, held, a.d, a.ok, a.inbox[2..], b.inbox[3..], b.now, b.dirs, b.files, b.contents, b.replies, b.ok);
    }
  }

  /** So, of the programs: if sending returned without an error, every entry of the
      offer is published with the bytes its source held, as announced. */
  lemma SendMeansReceived(c: Setup, keyFromS: bytes -> Option<Key>, keyFromR: (bytes, bytes) -> Option<Key>,
                          held: seq<bytes>, a: SenderRun, b: ReceiverRun)
    requires Proper(c) && BothRan(c, keyFromS, keyFromR, held, a, b) && a.ok
    ensures b.contents == held && |held| == |c.files|
    ensures forall j | 0 <= j < |c.files| :: Matches(held[j], c.files[j], c.opts.sha)
    ensures LastWins(c.base, b.now, Dests(c.opts.outDir, c.files), Nodes(held, c.files))
    ensures !c.opts.force ==> EachFresh(c.base, b.now, Dests(c.opts.outDir, c.files), Nodes(held, c.files))
  {
    hide Reachable, SenderRan, ReceiverRan, Proper, Matches, LastWins, EachFresh, SenderSent, ReceiverSent, Settled;
    ProgramsAreARun(c, keyFromS, keyFromR, held, a, b);
    assert |held| == |c.files| && a.n <= 3 && b.n <= 2 by { RunBounds(c, keyFromS, keyFromR, held, a, b); }
    var t :| Reachable(c, t) && Matching(c, t, held, a, b);
    EndToEnd(c, t);
  }

  lemma RunBounds(c: Setup, keyFromS: bytes -> Option<Key>, keyFromR: (bytes, bytes) -> Option<Key>,
                  held: seq<bytes>, a: SenderRun, b: ReceiverRun)
    requires BothRan(c, keyFromS, keyFromR, held, a, b)
    ensures |held| == |c.files| && a.n <= 3 && b.n <= 2
  {}

  // --------------------------------------------------- when success is possible

  function Cut(content: bytes): (chunks: seq<bytes>)
    ensures GoodChunks(chunks) && Concat(chunks) == content
    decreases |content|
  {
    if content == [] then []
    else if |content| <= CHUNK_SIZE then
      assert Concat([content]) == content + Concat([content][1..]);
      [content]
    else
      var rest := Cut(content[CHUNK_SIZE..]);
      assert ([content[..CHUNK_SIZE]] + rest)[1..] == rest;
      [content[..CHUNK_SIZE]] + rest
  }

  function CutAll(held: seq<bytes>): (whole: seq<seq<bytes>>)
    ensures AllGood(whole) && Contents(whole) == held
  {
    seq(|held|, i requires 0 <= i < |held| => Cut(held[i]))
  }

  /** What has to be true for an exchange to be able to succeed with the given
      contents: the keys agree, and nothing else is against it. */
  ghost predicate Feasible(c: Setup, held: seq<bytes>) {
    c.keyR(c.salt) == c.keyS && Allowed(c, held)
  }

  /** The offer and what precedes it fit messages, the receiver says yes, every name
      is accepted and every content is as announced, the destinations are free unless
      files may be overwritten, and neither they nor the files already there are in
      the way of each other. */
  ghost predicate Allowed(c: Setup, held: seq<bytes>) {
    var dests := Dests(c.opts.outDir, c.files);
    && AllFit(c) && c.confirm(c.files)
    && |held| == |c.files|
    && (forall j | 0 <= j < |held| ::
          Matches(held[j], c.files[j], c.opts.sha) && SafeJoin(c.opts.outDir, c.files[j].path).Some?)
    && (!c.opts.force ==> AllFree(c.base, dests))
    && Apart(c.base, c.dirs, dests)
  }

  ghost predicate AllFree(base: map<string, Node>, dests: seq<string>) {
    && (forall i, j | 0 <= i < j < |dests| :: dests[i] != dests[j])
    && (forall j | 0 <= j < |dests| :: dests[j] !in base)
  }

  lemma FreeMeansNoOverwrite(base: map<string, Node>, dests: seq<string>, nodes: seq<Node>)
    requires |dests| == |nodes| && AllFree(base, dests)
    ensures NoOverwrite(base, dests, nodes, |dests|)
  {
    hide Publish;
    forall j | 0 <= j < |dests| ensures dests[j] !in Publish(base, dests, nodes, j) {
      PublishedElsewhere(base, dests, nodes, j, dests[j]);
    }
  }

  lemma FeasibleIsStored(c: Setup, held: seq<bytes>)
    requires Feasible(c, held)
    ensures var dests, nodes := Dests(c.opts.outDir, c.files), Nodes(held, c.files);
            && Stored(c.base, Publish(c.base, dests, nodes, |held|), c.files, c.opts, held)
            && Placed(c.base, c.dirs, DirsAfter(c.dirs, dests, |held|), c.files, c.opts, held)
  {
    hide Publish, SafeJoin, AllFree, Dests, Nodes, AllFit, Apart, AllRoom, DirsAfter, NoOverwrite, Matches;
    var dests, nodes := Dests(c.opts.outDir, c.files), Nodes(held, c.files);
    RoomExactlyWhenApart(c.base, c.dirs, dests, nodes);
    if !c.opts.force { FreeMeansNoOverwrite(c.base, dests, nodes); }
  }

  lemma FeasibleSucceeds(c: Setup, held: seq<bytes>) returns (t: State)
    requires Proper(c) && Feasible(c, held)
    ensures Reachable(c, t) && t.s == SDone(true) && t.r == RDone(true) && t.loaded == held
  {
    hide Reachable, Stored, Placed, SafeJoin, JudgeAll, Opened, Contents, AllGood, StreamFrames, SealAll, Matches, Publish, Dests, Nodes;
    hide DirsAfter, Apart, AllFree;
    var d := Streamed(CutAll(held), []);
    var dests, nodes := Dests(c.opts.outDir, c.files), Nodes(held, c.files);
    FeasibleIsStored(c, held);
    NoStream(c.keyS, c.encode(c.files));
    var inboxS, inboxR := RepliesAs(AcceptedThen(ACCEPT), c.keyS), SentAs(d, c.keyS, c.encode(c.files));
    assert inboxR[1..] == SealAll(c.keyS, StreamFrames(d.whole));
    OpenedAll(c.keyS, StreamFrames(d.whole));
    StreamJudged(d.whole, c.files, c.opts.sha);
    assert held[..|held|] == held;
    FitMeansHellos(c);
    t := WasAccepted(c, held, d, true, inboxS, inboxR, Publish(c.base, dests, nodes, |held|), DirsAfter(c.dirs, dests, |held|),
                     c.files, held, AcceptedThen(ACCEPT), true);
  }

  lemma FitMeansHellos(c: Setup)
    requires AllFit(c)
    ensures HellosFit(c, 3, 2)
  {}

  /** An exchange can end in success with the given contents if and only if it is
      feasible: nothing but failures can then stand in its way, and nothing else
      lets it succeed. */
  lemma SuccessExactlyWhen(c: Setup, held: seq<bytes>)
    requires Proper(c)
    ensures Feasible(c, held) <==> exists t :: Reachable(c, t) && t.s == SDone(true) && t.loaded == held
  {
    if Feasible(c, held) {
      var t := FeasibleSucceeds(c, held);
    }
    if t :| Reachable(c, t) && t.s == SDone(true) && t.loaded == held {
      SuccessIsFeasible(c, t);
    }
  }

  lemma SuccessIsFeasible(c: Setup, t: State)
    requires Proper(c) && Reachable(c, t) && t.s == SDone(true)
    ensures Feasible(c, t.loaded)
  {
    hide Reachable, Matches, SafeJoin, LastWins, Dests, Nodes, Proper, AllFit, Apart, AllRoom, DirsAfter;
    if c.keyR(c.salt) != c.keyS { DifferentKeys(c, t); }
    EndToEnd(c, t);
    SuccessFits(c, t);
    RoomExactlyWhenApart(c.base, c.dirs, Dests(c.opts.outDir, c.files), Nodes(t.loaded, c.files));
  }

  // ------------------------------------------------------ what carries packets

  function Wired(wire: Packet -> bytes, ps: seq<Packet>): (ms: seq<bytes>)
    ensures |ms| == |ps|
  {
    seq(|ps|, i requires 0 <= i < |ps| => wire(ps[i]))
  }

  function Unwired(read: bytes -> Packet, ms: seq<bytes>): (ps: seq<Packet>)
    ensures |ps| == |ms|
  {
    seq(|ms|, i requires 0 <= i < |ms| => read(ms[i]))
  }

  /** The channels of the system are what the transports provide: packets sent as
      messages over one hop to the relay, which took some messages itself, and
      forwarded over the other, after messages of its own, arrive as a prefix of
      the packets sent, and as all of them when nothing was cut. */
  lemma PacketsArrive(wire: Packet -> bytes, read: bytes -> Packet, sent: seq<Packet>,
                      taken: seq<bytes>, told: seq<bytes>,
                      up: Pipe.Hop, arrived: bytes, forwarded: bytes, down: Pipe.Hop, received: bytes)
    requires forall i | 0 <= i < |sent| :: |wire(sent[i])| <= Comm.MAX_MESSAGE && read(wire(sent[i])) == sent[i]
    requires Comm.Sendable(told)
    requires Comm.Carried(up.ws, up.raw) <= Comm.EncodeMessages(taken + Wired(wire, sent))
    requires arrived <= up.raw && Comm.EncodeMessages(taken) + forwarded <= Comm.Carried(up.ws, arrived)
    requires Comm.Carried(down.ws, down.raw) <= Comm.EncodeMessages(told) + forwarded
    requires received <= down.raw
    ensures var got := Comm.Messages(Comm.Carried(down.ws, received));
            |got| >= |told| ==> got[..|told|] == told && Unwired(read, got[|told|..]) <= sent
    ensures (
      && Comm.EncodeMessages(taken) + forwarded == Comm.EncodeMessages(taken + Wired(wire, sent))
      && received == down.raw && Comm.Carried(down.ws, down.raw) == Comm.EncodeMessages(told) + forwarded
    ) ==>
      var got := Comm.Messages(Comm.Carried(down.ws, received));
      |got| == |told| + |sent| && Unwired(read, got[|told|..]) == sent
  {
    hide Comm.Messages, Comm.EncodeMessages, Comm.Carried, Wired, Unwired;
    WiredFits(wire, sent);
    Pipe.LayeredDelivery(taken, Wired(wire, sent), told, up, arrived, forwarded, down, received);
    ReadBack(wire, read, sent, told, Comm.Messages(Comm.Carried(down.ws, received)));
  }

  lemma WiredFits(wire: Packet -> bytes, sent: seq<Packet>)
    requires forall i | 0 <= i < |sent| :: |wire(sent[i])| <= Comm.MAX_MESSAGE
    ensures Comm.Sendable(Wired(wire, sent))
  {}

  lemma ReadBack(wire: Packet -> bytes, read: bytes -> Packet, sent: seq<Packet>, told: seq<bytes>, got: seq<bytes>)
    requires forall i | 0 <= i < |sent| :: read(wire(sent[i])) == sent[i]
    requires got <= told + Wired(wire, sent)
    ensures |got| >= |told| ==> got[..|told|] == told && Unwired(read, got[|told|..]) <= sent
    ensures got == told + Wired(wire, sent) ==>
      |got| == |told| + |sent| && Unwired(read, got[|told|..]) == sent
  {
    var ms := Wired(wire, sent);
    if |got| >= |told| {
      assert got[..|told|] == (told + ms)[..|told|] == told;
      assert got[|told|..] <= (told + ms)[|told|..] == ms;
    }
  }
}
