/** Ways to run the two-party system forward: from the start to where two programs
    that got that far have left it. */
module Schedules {
  import opened Bytes
  import opened Manifest
  import opened Files
  import opened Session
  import opened Paths
  import opened Receiver
  import opened Sender
  import opened Protocol
  import opened Handshake

  // ------------------------------------------------------------ longer runs

  lemma {:induction false} RunsThen(c: Setup, s: State, steps: seq<Step>, t: State, a: Step)
    requires Runs(c, s, steps, t) && Enabled(c, t, a)
    ensures Runs(c, s, steps + [a], Apply(c, t, a))
    decreases |steps|
  {
    hide Enabled, Apply;
    if steps == [] {
      assert [a][1..] == [];
    } else {
      assert (steps + [a])[1..] == steps[1..] + [a];
      RunsThen(c, Apply(c, s, steps[0]), steps[1..], t, a);
    }
  }

  lemma Then(c: Setup, t: State, a: Step)
    requires Reachable(c, t) && Enabled(c, t, a)
    ensures Reachable(c, Apply(c, t, a))
  {
    hide Enabled, Apply;
    var steps :| Runs(c, Start(c), steps, t);
    RunsThen(c, Start(c), steps, t, a);
  }

  // ----------------------------------------------------------- the handshake

  /** Where a side can stop: the sender only gets to its salt with the receiver's
      share, the receiver to its proof with the sender's salt. */
  predicate CanMeet(nS: nat, nR: nat) {
    nS <= 3 && nR <= 2 && (nS >= 2 ==> nR >= 1) && (nR >= 2 ==> nS >= 2)
  }

  /** The sender has sent nS packets and the receiver nR, and each has read what it
      had to read for that. */
  function Met(c: Setup, nS: nat, nR: nat): State
    requires CanMeet(nS, nR)
  {
    State(
      if nS == 0 then SShareOut else if nS == 1 then SShareIn else if nS == 2 then SConfirmOut else SConfirmIn,
      if nR == 0 then RShareOut else if nR == 1 then RShareIn else RConfirmIn,
      HelloA(c.shareS, c.salt, c.keyS)[..nS], if nR == 2 then 2 else 0,
      HelloB(c.shareR, c.keyR(c.salt))[..nR], if nS >= 2 then 1 else 0,
      if nR == 2 then c.keyR(c.salt) else [], [], [], [], c.base, c.dirs, [])
  }

  /** What was sent fits. */
  ghost predicate HellosFit(c: Setup, nS: nat, nR: nat) {
    FirstFit(HelloA(c.shareS, c.salt, c.keyS), nS) && FirstFit(HelloB(c.shareR, c.keyR(c.salt)), nR)
  }

  lemma StartReached(c: Setup)
    ensures Reachable(c, Start(c))
  {
    assert Runs(c, Start(c), [], Start(c));
  }

  lemma {:induction false} Meets(c: Setup, nS: nat, nR: nat)
    requires CanMeet(nS, nR) && HellosFit(c, nS, nR)
    ensures Reachable(c, Met(c, nS, nR))
    decreases nS + nR
  {
    hide Reachable;
    if nR == 2 {
      MetProof(c, nS);
    } else if nS >= 2 {
      MetSalt(c, nS);
    } else if nR == 1 {
      Meets(c, nS, 0);
      assert Fits(HelloB(c.shareR, c.keyR(c.salt))[0]);
      Then(c, Met(c, nS, 0), RSend(true, []));
      assert Apply(c, Met(c, nS, 0), RSend(true, [])) == Met(c, nS, 1);
    } else if nS == 1 {
      Meets(c, 0, 0);
      assert Fits(HelloA(c.shareS, c.salt, c.keyS)[0]);
      Then(c, Met(c, 0, 0), SSend);
      assert Apply(c, Met(c, 0, 0), SSend) == Met(c, 1, 0);
    } else {
      StartReached(c);
      assert Met(c, 0, 0) == Start(c);
    }
  }

  lemma {:induction false} MetSalt(c: Setup, nS: nat)
    requires 2 <= nS <= 3 && HellosFit(c, nS, 1)
    ensures Reachable(c, Met(c, nS, 1))
    decreases nS + 1, 0
  {
    hide Reachable;
    var hello := HelloA(c.shareS, c.salt, c.keyS);
    assert Fits(hello[nS - 1]);
    Meets(c, nS - 1, 1);
    var t := Met(c, nS - 1, 1);
    if nS == 2 {
      Then(c, t, SReceive);
      t := Apply(c, t, SReceive);
    }
    Then(c, t, SSend);
    t := Apply(c, t, SSend);
    assert hello[..nS - 1] + [hello[nS - 1]] == hello[..nS];
    assert t == Met(c, nS, 1);
  }

  lemma {:induction false} MetProof(c: Setup, nS: nat)
    requires 2 <= nS <= 3 && HellosFit(c, nS, 2)
    ensures Reachable(c, Met(c, nS, 2))
    decreases nS + 2, 0
  {
    hide Reachable;
    var hello := HelloB(c.shareR, c.keyR(c.salt));
    assert Fits(hello[1]);
    Meets(c, nS, 1);
    var t := Met(c, nS, 1);
    Then(c, t, RReceive);
    t := Apply(c, t, RReceive);
    Then(c, t, RReceive);
    t := Apply(c, t, RReceive);
    assert t.rkey == c.keyR(c.salt) && t.r == RConfirmOut;
    Then(c, t, RSend(true, []));
    t := Apply(c, t, RSend(true, []));
    assert hello[..1] + [hello[1]] == hello[..2];
    assert t == Met(c, nS, 2);
  }

  /** The sender has seen the proof of its own key. */
  function Trusting(c: Setup): State {
    Met(c, 3, 2).(s := SOfferOut, rtaken := 2)
  }

  /** Both sides hold the same key and have proved it. */
  function Ready(c: Setup): State {
    Trusting(c).(r := ROfferIn, taken := 3)
  }

  lemma SenderTrusts(c: Setup)
    requires c.keyR(c.salt) == c.keyS && HellosFit(c, 3, 2)
    ensures Reachable(c, Trusting(c))
  {
    hide Reachable;
    Meets(c, 3, 2);
    Then(c, Met(c, 3, 2), SReceive);
  }

  lemma ReceiverTrusts(c: Setup)
    requires c.keyR(c.salt) == c.keyS && HellosFit(c, 3, 2)
    ensures Reachable(c, Met(c, 3, 2).(r := ROfferIn, taken := 3))
  {
    hide Reachable;
    Meets(c, 3, 2);
    Then(c, Met(c, 3, 2), RReceive);
  }

  lemma KeysConfirmed(c: Setup)
    requires c.keyR(c.salt) == c.keyS && HellosFit(c, 3, 2)
    ensures Reachable(c, Ready(c))
  {
    hide Reachable;
    SenderTrusts(c);
    Then(c, Trusting(c), RReceive);
  }

  // ---------------------------------------------------------- the offer is out

  /** The keys agree, and the offer fits a message. */
  ghost predicate CanOffer(c: Setup) {
    c.keyR(c.salt) == c.keyS && HellosFit(c, 3, 2) && Fits(Sealed(c.keyS, c.encode(c.files)))
  }

  function Offering(c: Setup): State {
    Ready(c).(s := SAnswerIn, sent := Prologue(c))
  }

  function Accepting(c: Setup): State {
    Offering(c).(r := RNext(0), rsent := Ready(c).rsent + [Sealed(c.keyS, ACCEPT)], taken := 4, rfiles := c.files)
  }

  lemma OfferSent(c: Setup)
    requires CanOffer(c)
    ensures Reachable(c, Offering(c))
  {
    hide Reachable;
    KeysConfirmed(c);
    Then(c, Ready(c), SSend);
    assert Apply(c, Ready(c), SSend) == Offering(c);
  }

  lemma OfferTaken(c: Setup)
    requires Proper(c) && CanOffer(c)
    ensures Reachable(c, Offering(c).(r := RAnswerOut, taken := 4, rfiles := c.files))
  {
    hide Reachable;
    OfferSent(c);
    Then(c, Offering(c), RReceive);
  }

  lemma OfferAccepted(c: Setup)
    requires Proper(c) && CanOffer(c) && c.confirm(c.files)
    ensures Reachable(c, Accepting(c))
  {
    hide Reachable;
    OfferTaken(c);
    Then(c, Offering(c).(r := RAnswerOut, taken := 4, rfiles := c.files), RSend(true, []));
  }

  lemma OfferDeclined(c: Setup)
    requires Proper(c) && CanOffer(c) && !c.confirm(c.files)
    ensures Reachable(c, Offering(c).(r := RDone(false), rsent := Ready(c).rsent + [Sealed(c.keyS, REJECT)], taken := 4, rfiles := c.files))
  {
    hide Reachable;
    OfferTaken(c);
    Then(c, Offering(c).(r := RAnswerOut, taken := 4, rfiles := c.files), RDecline);
  }

  // ------------------------------------------------------- the sender streams

  /** The files in `whole` are out, and the chunks in `part` of the next one. */
  function Streaming(c: Setup, whole: seq<seq<bytes>>, part: seq<bytes>): State {
    var frames := StreamFrames(whole) + DataFrames(part);
    var more := |whole| < |c.files|;
    Accepting(c).(
      s := if more then SFile(|whole|) else SFinalIn, rtaken := 3,
      sent := Prologue(c) + SealAll(c.keyS, frames), frames := frames,
      loaded := Contents(whole) + if more then [Concat(part)] else [])
  }

  lemma StreamBegins(c: Setup)
    requires Proper(c) && CanOffer(c) && c.confirm(c.files)
    ensures Reachable(c, Streaming(c, [], []))
  {
    hide Reachable;
    OfferAccepted(c);
    Then(c, Accepting(c), SReceive);
    assert Prologue(c) + SealAll(c.keyS, [] + []) == Prologue(c);
    assert Contents([]) + [[]] == [[]];
  }

  lemma {:induction false} PartStreams(c: Setup, whole: seq<seq<bytes>>, part: seq<bytes>)
    requires |whole| < |c.files| && GoodChunks(part)
    requires Reachable(c, Streaming(c, whole, []))
    ensures Reachable(c, Streaming(c, whole, part))
    decreases |part|
  {
    hide Reachable, StreamFrames, Contents;
    if part != [] {
      var n := |part| - 1;
      var before, chunk := part[..n], part[n];
      assert part == before + [chunk];
      PartStreams(c, whole, before);
      ChunkStreams(c, whole, before, chunk);
    }
  }

  lemma ChunkStreams(c: Setup, whole: seq<seq<bytes>>, part: seq<bytes>, chunk: bytes)
    requires |whole| < |c.files| && 0 < |chunk| <= CHUNK_SIZE
    requires Reachable(c, Streaming(c, whole, part))
    ensures Reachable(c, Streaming(c, whole, part + [chunk]))
  {
    hide Reachable, StreamFrames, Contents, DataFrames, Concat, SealAll;
    var t, frame := Streaming(c, whole, part), DataFrame(chunk);
    var frames := StreamFrames(whole) + DataFrames(part);
    Then(c, t, SChunk(chunk));
    DataSnoc(part, chunk);
    SealSnoc(c.keyS, frames, frame);
    assert frames + [frame] == StreamFrames(whole) + DataFrames(part + [chunk]);
    assert Apply(c, t, SChunk(chunk)) == Streaming(c, whole, part + [chunk]);
  }

  lemma FileStreams(c: Setup, whole: seq<seq<bytes>>, chunks: seq<bytes>)
    requires |whole| < |c.files| && GoodChunks(chunks)
    requires Reachable(c, Streaming(c, whole, []))
    ensures Reachable(c, Streaming(c, whole + [chunks], []))
  {
    hide Reachable, StreamFrames, Contents, DataFrames, FileFrames, Concat, SealAll, GoodChunks;
    PartStreams(c, whole, chunks);
    var t := Streaming(c, whole, chunks);
    Then(c, t, SEof);
    var frames := StreamFrames(whole) + DataFrames(chunks);
    SealSnoc(c.keyS, frames, [FRAME_END]);
    FileFramesAre(chunks);
    StreamSnoc(c.keyS, whole, chunks);
    NothingSent(c.keyS);
    NoData();
    assert frames + [[FRAME_END]] == StreamFrames(whole + [chunks]) + DataFrames([]);
    assert Apply(c, t, SEof) == Streaming(c, whole + [chunks], []);
  }

  lemma NoData()
    ensures DataFrames([]) == [] && Concat([]) == []
  {}

  lemma {:induction false} FilesStream(c: Setup, whole: seq<seq<bytes>>)
    requires Proper(c) && CanOffer(c) && c.confirm(c.files)
    requires |whole| <= |c.files| && AllGood(whole)
    ensures Reachable(c, Streaming(c, whole, []))
    decreases |whole|
  {
    hide Reachable, Streaming, GoodChunks;
    if whole == [] {
      StreamBegins(c);
    } else {
      var n := |whole| - 1;
      assert whole == whole[..n] + [whole[n]];
      FilesStream(c, whole[..n]);
      FileStreams(c, whole[..n], whole[n]);
    }
  }

  // ------------------------------------------------------ the receiver takes

  /** A name no file has. */
  lemma FreshName(used: set<string>, dest: string) returns (tmp: string)
    ensures tmp !in used && tmp != dest
  {
    var m := LongerThanAll(used + {dest});
    tmp := seq(m, _ => 'x');
  }

  lemma LongerThanAll(used: set<string>) returns (m: nat)
    ensures forall x | x in used :: |x| < m
  {
    if used == {} {
      m := 0;
    } else {
      var x :| x in used;
      m := LongerThanAll(used - {x});
      m := if |x| < m then m else |x| + 1;
    }
  }

  /** Where file i of the offer has just been published. */
  function Stepped(c: Setup, t: State, n: nat, content: bytes, i: nat): State
    requires i < |c.files|
  {
    t.(taken := t.taken + n,
       r := if i + 1 < |c.files| then RNext(i + 1) else RFinalOut,
       fs := t.fs[Dests(c.opts.outDir, c.files)[i] := File(content, Perm(c.files[i].mode))],
       dirs := t.dirs + Parents(Dests(c.opts.outDir, c.files)[i]),
       contents := t.contents + [content])
  }

  /** The receiver takes the frames of one file up to its end frame. */
  lemma {:induction false} FrameByFrame(c: Setup, t: State, before: State, inbox: seq<Packet>,
                                        content: bytes, rest: seq<bytes>) returns (n: nat)
    requires Reachable(c, t) && t.r.RFile? && t.r.i < |c.files| && t.rkey == c.keyS && t.rfiles == c.files
    requires before == t.(r := before.r, taken := before.taken, fs := before.fs)
    requires before.taken <= t.taken <= |t.sent| && t.fs - {t.r.tmp} == before.fs
    requires Parents(Dests(c.opts.outDir, c.files)[t.r.i]) <= t.dirs && !Blocked(t, Dests(c.opts.outDir, c.files)[t.r.i])
    requires inbox <= t.sent[t.taken..]
    requires Judge(Opened(c.keyS, inbox), c.files[t.r.i], c.opts.sha, t.r.got) == Taken(content, rest)
    ensures n <= |inbox| && Opened(c.keyS, inbox[n..]) == rest
    ensures Reachable(c, Stepped(c, before, t.taken - before.taken + n, content, t.r.i))
    decreases |inbox|
  {
    hide Reachable, Matches, Perm, Dests, Parents, Standing;
    assert inbox != [];
    assert before.dirs + Parents(Dests(c.opts.outDir, c.files)[t.r.i]) == before.dirs;
    assert inbox[0] == t.sent[t.taken];
    Then(c, t, RFrame(true));
    var u := Apply(c, t, RFrame(true));
    if u.r.RFile? {
      assert inbox[1..] <= u.sent[u.taken..];
      assert u.fs - {u.r.tmp} == before.fs;
      n := FrameByFrame(c, u, before, inbox[1..], content, rest);
      n := n + 1;
    } else {
      n := 1;
    }
  }

  /** One whole file, from its temporary name to the destination. */
  lemma FileTaken(c: Setup, t: State, inbox: seq<Packet>, i: nat, content: bytes, rest: seq<bytes>) returns (n: nat)
    requires Reachable(c, t) && t.r == RNext(i) && i < |c.files| && t.rkey == c.keyS && t.rfiles == c.files
    requires t.taken <= |t.sent| && inbox <= t.sent[t.taken..]
    requires SafeJoin(c.opts.outDir, c.files[i].path).Some?
    requires var dest := Dests(c.opts.outDir, c.files)[i];
             && (!c.opts.force ==> dest !in t.fs)
             && Parents(dest) !! t.fs.Keys && dest !in t.dirs + Parents(dest) && !Standing(dest)
    requires Judge(Opened(c.keyS, inbox), c.files[i], c.opts.sha, []) == Taken(content, rest)
    ensures n <= |inbox| && Opened(c.keyS, inbox[n..]) == rest
    ensures Reachable(c, Stepped(c, t, n, content, i))
  {
    hide Reachable, SafeJoin, Judge, Opened, Dests, Perm, Parents, Standing;
    var dest := SafeJoin(c.opts.outDir, c.files[i].path).value;
    DestIs(c.opts.outDir, c.files, i, dest);
    var tmp := FreshName(t.fs.Keys + t.dirs + Parents(dest), dest);
    Then(c, t, RStart(dest, tmp));
    var u := Apply(c, t, RStart(dest, tmp));
    assert u.fs - {tmp} == t.fs;
    var before := t.(dirs := u.dirs);
    n := FrameByFrame(c, u, before, inbox, content, rest);
    assert (t.dirs + Parents(dest)) + Parents(dest) == t.dirs + Parents(dest);
    assert Stepped(c, before, n, content, i) == Stepped(c, t, n, content, i);
  }

  /** The first k files of the given contents are published. */
  ghost function Taking(c: Setup, t: State, n: nat, contents: seq<bytes>, k: nat): State
    requires k <= |contents| <= |c.files|
  {
    t.(taken := t.taken + n,
       r := if k < |c.files| then RNext(k) else RFinalOut,
       fs := Publish(c.base, Dests(c.opts.outDir, c.files), Nodes(contents, c.files), k),
       dirs := DirsAfter(c.dirs, Dests(c.opts.outDir, c.files), k),
       contents := contents[..k])
  }

  lemma {:induction false} FilesTaken(c: Setup, t: State, inbox: seq<Packet>, contents: seq<bytes>, k: nat,
                                      now: map<string, Node>) returns (n: nat)
    requires Proper(c) && Reachable(c, t) && t.r == RNext(0) && t.rkey == c.keyS && t.rfiles == c.files
    requires t.fs == c.base && t.dirs == c.dirs && t.contents == []
    requires t.taken <= |t.sent| && inbox <= t.sent[t.taken..]
    requires k <= |contents| && Stored(c.base, now, c.files, c.opts, contents)
    requires AllRoom(c.base, c.dirs, Dests(c.opts.outDir, c.files), Nodes(contents, c.files), |contents|)
    requires contents <= JudgeAll(Opened(c.keyS, inbox), c.files, c.opts.sha)
    ensures n <= |inbox| && contents[k..] <= JudgeAll(Opened(c.keyS, inbox[n..]), c.files[k..], c.opts.sha)
    ensures Reachable(c, Taking(c, t, n, contents, k))
    decreases k
  {
    hide Reachable, SafeJoin, JudgeAll, Opened, Dests, Nodes, NoOverwrite, AllRoom;
    if k == 0 {
      n := 0;
      assert inbox[0..] == inbox && c.files[0..] == c.files && contents[0..] == contents;
      assert Taking(c, t, 0, contents, 0) == t;
    } else {
      var m := FilesTaken(c, t, inbox, contents, k - 1, now);
      n := OneMoreTaken(c, t, inbox, contents, k - 1, now, m);
    }
  }

  lemma JudgedHead(frames: seq<bytes>, files: seq<FileInfo>, sha: Hash, contents: seq<bytes>, i: nat) returns (rest: seq<bytes>)
    requires i < |contents| <= |files| && contents[i..] <= JudgeAll(frames, files[i..], sha)
    ensures Judge(frames, files[i], sha, []) == Taken(contents[i], rest)
    ensures contents[i + 1..] <= JudgeAll(rest, files[i + 1..], sha)
  {
    hide Judge;
    var all := JudgeAll(frames, files[i..], sha);
    assert files[i..][0] == files[i] && files[i..][1..] == files[i + 1..];
    assert contents[i..][0] == contents[i] && contents[i..][1..] == contents[i + 1..];
    assert all != [];
    rest := Judge(frames, files[i], sha, []).rest;
    assert all[1..] == JudgeAll(rest, files[i + 1..], sha);
  }

  lemma OneMoreTaken(c: Setup, t: State, inbox: seq<Packet>, contents: seq<bytes>, i: nat,
                     now: map<string, Node>, m: nat) returns (n: nat)
    requires t.rkey == c.keyS && t.rfiles == c.files && t.taken <= |t.sent| && inbox <= t.sent[t.taken..]
    requires i < |contents| <= |c.files| && Stored(c.base, now, c.files, c.opts, contents) && m <= |inbox|
    requires AllRoom(c.base, c.dirs, Dests(c.opts.outDir, c.files), Nodes(contents, c.files), |contents|)
    requires contents[i..] <= JudgeAll(Opened(c.keyS, inbox[m..]), c.files[i..], c.opts.sha)
    requires Reachable(c, Taking(c, t, m, contents, i))
    ensures n <= |inbox| && contents[i + 1..] <= JudgeAll(Opened(c.keyS, inbox[n..]), c.files[i + 1..], c.opts.sha)
    ensures Reachable(c, Taking(c, t, n, contents, i + 1))
  {
    hide Reachable, SafeJoin, Judge, JudgeAll, Opened, Dests, Nodes, Perm, Stored, Publish, Stepped, Parents, Standing, AllRoom;
    RoomAt(c.base, c.dirs, Dests(c.opts.outDir, c.files), Nodes(contents, c.files), |contents|, i);
    StoredAt(c.base, now, c.files, c.opts, contents, i);
    var u, left := Taking(c, t, m, contents, i), inbox[m..];
    assert left <= u.sent[u.taken..];
    var rest := JudgedHead(Opened(c.keyS, left), c.files, c.opts.sha, contents, i);
    var more := FileTaken(c, u, left, i, contents[i], rest);
    n := m + more;
    assert left[more..] == inbox[n..];
    SteppedOn(c, t, m, more, contents, i);
  }

  lemma StoredAt(base: map<string, Node>, now: map<string, Node>, files: seq<FileInfo>, opts: Options, contents: seq<bytes>, i: nat)
    requires Stored(base, now, files, opts, contents) && i < |contents|
    ensures SafeJoin(opts.outDir, files[i].path).Some?
    ensures !opts.force ==> Dests(opts.outDir, files)[i] !in Publish(base, Dests(opts.outDir, files), Nodes(contents, files), i)
  {
    hide SafeJoin, Dests, Nodes, Publish;
  }

  lemma RoomAt(base: map<string, Node>, dirs: set<string>, dests: seq<string>, nodes: seq<Node>, k: nat, i: nat)
    requires i < k <= |dests| && k <= |nodes| && AllRoom(base, dirs, dests, nodes, k)
    ensures Parents(dests[i]) !! Publish(base, dests, nodes, i).Keys
    ensures dests[i] !in DirsAfter(dirs, dests, i) + Parents(dests[i]) && !Standing(dests[i])
  {
    hide Parents, Standing, Publish;
    assert HadRoom(base, dirs, dests, nodes, i);
  }

  lemma SteppedOn(c: Setup, t: State, m: nat, more: nat, contents: seq<bytes>, i: nat)
    requires i < |contents| <= |c.files|
    ensures Stepped(c, Taking(c, t, m, contents, i), more, contents[i], i) == Taking(c, t, m + more, contents, i + 1)
  {
    hide Dests, Nodes, Perm, Parents;
    assert contents[..i + 1] == contents[..i] + [contents[i]];
    NodeAt(contents, c.files, i);
  }

  lemma NodeAt(contents: seq<bytes>, files: seq<FileInfo>, i: nat)
    requires i < |contents| <= |files|
    ensures Nodes(contents, files)[i] == File(contents[i], Perm(files[i].mode))
  {}

  // ------------------------------------------------------------- both stop

  /** How a receiver that has accepted ends, given how far it got; `dirs` are those
      there then, with some of the directories above the file that failed. */
  lemma ReceiverEnds(c: Setup, t: State, contents: seq<bytes>, dirs: set<string>, replies: Replies, ok: bool) returns (u: State)
    requires Reachable(c, t) && t.rkey == c.keyS && t.rfiles == c.files && |contents| <= |c.files|
    requires t.r == if |contents| < |c.files| then RNext(|contents|) else RFinalOut
    requires t.dirs == DirsAfter(c.dirs, Dests(c.opts.outDir, c.files), |contents|)
    requires Placed(c.base, c.dirs, dirs, c.files, c.opts, contents)
    requires replies.Accepted? || replies.AcceptedThen?
    requires replies.AcceptedThen? ==>
      Fits(Sealed(c.keyS, replies.text)) && (replies.text == ACCEPT <==> |contents| == |c.files|)
    requires ok ==> replies == AcceptedThen(ACCEPT)
    ensures Reachable(c, u) && u.r.RDone? && (ok ==> u.r.ok)
    ensures u == t.(r := u.r, dirs := dirs, rsent := t.rsent + RepliesAs(replies, c.keyS)[1..])
  {
    hide Reachable, Dests, Nodes, Parents, AllRoom;
    u := t;
    if |contents| < |c.files| {
      var refuse := RRefuse(dirs - t.dirs);
      Then(c, u, refuse);
      u := Apply(c, u, refuse);
      assert t.dirs + (dirs - t.dirs) == dirs;
    }
    var end := if replies.Accepted? then RQuit else RSend(true, replies.text);
    Then(c, u, end);
    u := Apply(c, u, end);
  }

  /** How the sender ends. */
  lemma SenderEnds(c: Setup, t: State, ok: bool) returns (u: State)
    requires Reachable(c, t) && !t.s.SDone?
    requires ok ==> t.s == SFinalIn && t.rtaken < |t.rsent| && Open(c.keyS, t.rsent[t.rtaken]) == Some(ACCEPT)
    ensures Reachable(c, u) && u == t.(s := SDone(ok), rtaken := u.rtaken)
  {
    hide Reachable;
    var a := if ok then SReceive else SQuit;
    Then(c, t, a);
    u := Apply(c, t, a);
  }

  lemma ReceiverQuits(c: Setup, t: State) returns (u: State)
    requires Reachable(c, t) && !t.r.RDone? && !t.r.RFile?
    ensures Reachable(c, u) && u == t.(r := RDone(false))
  {
    hide Reachable;
    Then(c, t, RQuit);
    u := Apply(c, t, RQuit);
  }
}
