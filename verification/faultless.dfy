/** What the two programs come to when nothing fails by itself: they then succeed
    exactly when they should, and both of them or neither. */
module Faultless {
  import opened Bytes
  import opened Manifest
  import opened Files
  import opened Session
  import opened Paths
  import opened Handshake
  import opened Receiver
  import opened Sender
  import opened Protocol
  import opened Programs

  /** Everything sent arrived, and each program went as far as what it was sent, its
      sources and its files let it. `readable` tells of each source whether it can be
      opened and read to its end. */
  ghost predicate Undisturbed(c: Setup, keyFromS: bytes -> Option<Key>, keyFromR: (bytes, bytes) -> Option<Key>,
                              held: seq<bytes>, readable: seq<bool>, a: SenderRun, b: ReceiverRun)
  {
    && BothRan(c, keyFromS, keyFromR, held, a, b) && |readable| == |c.files|
    && a.inbox == ReceiverSent(c, b) && b.inbox == SenderSent(c, a)
    && AsFarAsSent(c, keyFromS, readable, a) && AsFarAsReceived(c, keyFromR, b)
  }

  ghost predicate All(readable: seq<bool>) {
    forall j | 0 <= j < |readable| :: readable[j]
  }

  // ------------------------------------------------------------ the handshake

  lemma Convinced(c: Setup, keyFromS: bytes -> Option<Key>, keyFromR: (bytes, bytes) -> Option<Key>,
                  held: seq<bytes>, readable: seq<bool>, a: SenderRun, b: ReceiverRun)
    requires Undisturbed(c, keyFromS, keyFromR, held, readable, a, b)
    requires c.keyR(c.salt) == c.keyS && AllFit(c)
    ensures a.met && b.met
  {
    hide Dispatched, Received, Explained, Excused, Fits;
    assert a.n >= 1 && b.n >= 1;
    assert a.inbox[0] == Plain(c.shareR);
    assert a.n == 3 && a.key == c.keyS;
    assert b.inbox[0] == Plain(c.shareS) && b.inbox[1] == Plain(c.salt) && b.inbox[2] == Sealed(a.key, SENDER_READY);
    assert b.n == 2 && b.key == c.keyR(c.salt);
    assert a.inbox[1] == Sealed(b.key, RECEIVER_READY);
  }

  /** One is convinced if and only if the other is, and they read what the other sent
      next. */
  lemma BothConvinced(c: Setup, keyFromS: bytes -> Option<Key>, keyFromR: (bytes, bytes) -> Option<Key>,
                      held: seq<bytes>, readable: seq<bool>, a: SenderRun, b: ReceiverRun)
    requires Undisturbed(c, keyFromS, keyFromR, held, readable, a, b)
    ensures a.met <==> b.met
    ensures a.met ==> |a.inbox| >= 2 && |b.inbox| >= 3
    ensures a.met ==> a.key == b.key == c.keyS == c.keyR(c.salt)
    ensures a.met ==> a.inbox[2..] == RepliesAs(b.replies, c.keyS)
    ensures a.met ==> b.inbox[3..] == SentAs(a.d, c.keyS, c.encode(c.files))
  {
    hide Dispatched, Received, Explained, Excused, Fits, RepliesAs, SentAs;
    Meeting(c, keyFromS, keyFromR, held, a, b);
    if a.met || b.met {
      assert a.inbox[1] == HelloB(c.shareR, b.key)[1];
      assert b.inbox[2] == HelloA(c.shareS, c.salt, a.key)[2];
      assert a.inbox[2..] == RepliesAs(b.replies, c.keyS);
      assert b.inbox[3..] == SentAs(a.d, c.keyS, c.encode(c.files));
    }
  }

  // ------------------------------------------------- a feasible one succeeds

  /** Feasible contents are hindered nowhere. */
  lemma NothingHinders(c: Setup, held: seq<bytes>, frames: seq<bytes>, contents: seq<bytes>)
    requires Feasible(c, held) && JudgeAll(frames, c.files, c.opts.sha) == held
    requires contents <= held && |contents| < |c.files|
    ensures !Hindered(c.base, c.dirs, frames, c.files, c.opts, contents)
  {
    hide Publish, SafeJoin, AllFree, Apart, AllFit, DirsAfter, NoOverwrite, Matches, JudgeAll, Parents, Standing;
    var i, ds, ns, all := |contents|, Dests(c.opts.outDir, c.files), Nodes(contents, c.files), Nodes(held, c.files);
    RoomExactlyWhenApart(c.base, c.dirs, ds, all);
    assert HadRoom(c.base, c.dirs, ds, all, i);
    PublishPrefix(c.base, ds, ns, all, i);
    if !c.opts.force {
      FreeMeansNoOverwrite(c.base, ds, all);
      NotYetThere(c.base, ds, all, i);
    }
  }

  lemma NotYetThere(base: map<string, Node>, ds: seq<string>, ns: seq<Node>, i: nat)
    requires i < |ds| == |ns| && NoOverwrite(base, ds, ns, |ds|)
    ensures ds[i] !in Publish(base, ds, ns, i)
  {}

  /** What a sender that read everything streams is taken whole. */
  lemma AllTaken(key: Key, whole: seq<seq<bytes>>, files: seq<FileInfo>, sha: Hash, held: seq<bytes>)
    requires |whole| == |files| == |held| && Contents(whole) == held
    requires forall j | 0 <= j < |held| :: Matches(held[j], files[j], sha)
    ensures JudgeAll(Opened(key, SealAll(key, StreamFrames(whole)) + SealAll(key, DataFrames([]))), files, sha) == held
  {
    hide JudgeAll, Opened, StreamFrames, Matches, SealAll, Contents;
    OpenedAll(key, StreamFrames(whole));
    StreamJudged(whole, files, sha);
    NothingSent(key);
    assert SealAll(key, StreamFrames(whole)) + SealAll(key, DataFrames([])) == SealAll(key, StreamFrames(whole));
  }

  /** The receiver has the offer and answers it. */
  lemma OfferAnswered(c: Setup, keyFromS: bytes -> Option<Key>, keyFromR: (bytes, bytes) -> Option<Key>,
                      held: seq<bytes>, readable: seq<bool>, a: SenderRun, b: ReceiverRun)
    requires Proper(c) && Undisturbed(c, keyFromS, keyFromR, held, readable, a, b)
    requires a.met && b.met && AllFit(c) && c.confirm(c.files)
    ensures b.files == c.files && (b.replies.Accepted? || b.replies.AcceptedThen?)
    ensures a.d.Streamed?
  {
    hide Stored, Placed, JudgeAll, Opened, Hindered, Fits, SealAll, StreamFrames, DataFrames, DoneAsA, DoneAsB, MetAsA, MetAsB;
    BothConvinced(c, keyFromS, keyFromR, held, readable, a, b);
    assert !a.d.Unsent?;
    assert b.inbox[3..][0] == Sealed(c.keyS, c.encode(c.files));
    assert b.files == c.files;
    assert a.inbox[2..][0] == Sealed(c.keyS, ACCEPT);
  }

  lemma Succeeds(c: Setup, keyFromS: bytes -> Option<Key>, keyFromR: (bytes, bytes) -> Option<Key>,
                 held: seq<bytes>, readable: seq<bool>, a: SenderRun, b: ReceiverRun)
    requires Proper(c) && Undisturbed(c, keyFromS, keyFromR, held, readable, a, b)
    requires Feasible(c, held) && All(readable)
    ensures a.ok && b.ok
  {
    hide Stored, Placed, JudgeAll, Opened, Hindered, Fits, SealAll, StreamFrames, DataFrames, Contents, Concat, AllGood, GoodChunks;
    hide DoneAsA, DoneAsB, MetAsA, MetAsB, AllFit, SafeJoin, Matches, AllFree, Apart, Dests, HelloA, HelloB;
    Convinced(c, keyFromS, keyFromR, held, readable, a, b);
    BothConvinced(c, keyFromS, keyFromR, held, readable, a, b);
    OfferAnswered(c, keyFromS, keyFromR, held, readable, a, b);
    assert |a.d.whole| == |held| && a.d.part == [];
    assert held[..|held|] == held;
    assert b.inbox[3..][1..] == SealAll(c.keyS, StreamFrames(a.d.whole)) + SealAll(c.keyS, DataFrames([]));
    AllTaken(c.keyS, a.d.whole, c.files, c.opts.sha, held);
    if |b.contents| < |c.files| { NothingHinders(c, held, Opened(c.keyS, b.inbox[3..][1..]), b.contents); }
    assert b.replies == AcceptedThen(ACCEPT);
    assert a.inbox[2..][1] == Sealed(c.keyS, ACCEPT);
  }

  // --------------------------------------------------------- both or neither

  /** How many end frames there are. */
  function Ends(frames: seq<bytes>): nat {
    if frames == [] then 0
    else Ends(frames[1..]) + if frames[0] != [] && frames[0][0] == FRAME_END then 1 else 0
  }

  lemma {:induction false} EndsJoin(x: seq<bytes>, y: seq<bytes>)
    ensures Ends(x + y) == Ends(x) + Ends(y)
  {
    if x == [] {
      assert x + y == y;
    } else {
      assert (x + y)[1..] == x[1..] + y;
      EndsJoin(x[1..], y);
    }
  }

  lemma {:induction false} NoEnds(chunks: seq<bytes>)
    ensures Ends(DataFrames(chunks)) == 0
  {
    if chunks != [] {
      assert DataFrames(chunks)[1..] == DataFrames(chunks[1..]);
      NoEnds(chunks[1..]);
    }
  }

  lemma {:induction false} EndsOfStream(whole: seq<seq<bytes>>)
    ensures Ends(StreamFrames(whole)) == |whole|
  {
    hide DataFrames;
    if whole != [] {
      var n := |whole| - 1;
      EndsOfStream(whole[..n]);
      EndsJoin(StreamFrames(whole[..n]), FileFrames(whole[n]));
      FileFramesAre(whole[n]);
      NoEnds(whole[n]);
      EndsJoin(DataFrames(whole[n]), [[FRAME_END]]);
      assert Ends([[FRAME_END]]) == 1;
    }
  }

  lemma {:induction false} JudgeTakesAnEnd(frames: seq<bytes>, info: FileInfo, sha: Hash, got: bytes)
    ensures var v := Judge(frames, info, sha, got); v.Taken? ==> Ends(v.rest) + 1 <= Ends(frames)
    decreases |frames|
  {
    hide Matches;
    if frames != [] {
      match OnFrame(got, frames[0], info.size)
      case More(more) => JudgeTakesAnEnd(frames[1..], info, sha, more);
      case End =>
      case Broken =>
    }
  }

  /** No more files are taken than were ended. */
  lemma {:induction false} TakenWereEnded(frames: seq<bytes>, files: seq<FileInfo>, sha: Hash)
    ensures |JudgeAll(frames, files, sha)| <= Ends(frames)
    decreases |files|
  {
    hide Judge, Ends;
    if files != [] {
      JudgeTakesAnEnd(frames, files[0], sha, []);
      match Judge(frames, files[0], sha, [])
      case Taken(_, rest) => TakenWereEnded(rest, files[1..], sha);
      case Refused =>
    }
  }

  lemma TakenWereSent(key: Key, whole: seq<seq<bytes>>, part: seq<bytes>, files: seq<FileInfo>, sha: Hash)
    ensures |JudgeAll(Opened(key, SealAll(key, StreamFrames(whole)) + SealAll(key, DataFrames(part))), files, sha)| <= |whole|
  {
    hide JudgeAll, Opened, StreamFrames, SealAll, DataFrames, Ends;
    var frames := StreamFrames(whole) + DataFrames(part);
    SealJoin(key, StreamFrames(whole), DataFrames(part));
    OpenedAll(key, frames);
    TakenWereEnded(frames, files, sha);
    EndsJoin(StreamFrames(whole), DataFrames(part));
    EndsOfStream(whole);
    NoEnds(part);
  }

  lemma ReceiverImpliesSender(c: Setup, keyFromS: bytes -> Option<Key>, keyFromR: (bytes, bytes) -> Option<Key>,
                              held: seq<bytes>, readable: seq<bool>, a: SenderRun, b: ReceiverRun)
    requires Proper(c) && Undisturbed(c, keyFromS, keyFromR, held, readable, a, b)
    requires b.ok
    ensures a.ok
  {
    hide Stored, Placed, JudgeAll, Opened, Hindered, Fits, SealAll, StreamFrames, DataFrames, Contents, Concat, AllGood, GoodChunks;
    hide DoneAsA, DoneAsB, MetAsA, MetAsB, HelloA, HelloB;
    BothConvinced(c, keyFromS, keyFromR, held, readable, a, b);
    assert b.replies == AcceptedThen(ACCEPT);
    assert b.inbox[3..][0] == Sealed(c.keyS, c.encode(c.files)) && b.files == c.files;
    assert a.inbox[2..][0] == Sealed(c.keyS, ACCEPT) && a.inbox[2..][1] == Sealed(c.keyS, ACCEPT);
    assert b.inbox[3..][1..] == SealAll(c.keyS, StreamFrames(a.d.whole)) + SealAll(c.keyS, DataFrames(a.d.part));
    TakenWereSent(c.keyS, a.d.whole, a.d.part, c.files, c.opts.sha);
  }

  /** If nothing fails by itself, the sending program succeeds exactly when the exchange
      is feasible and every source can be read to its end, and the receiving program
      succeeds exactly when the sending one does. */
  lemma SucceedExactlyWhen(c: Setup, keyFromS: bytes -> Option<Key>, keyFromR: (bytes, bytes) -> Option<Key>,
                           held: seq<bytes>, readable: seq<bool>, a: SenderRun, b: ReceiverRun)
    requires Proper(c) && Undisturbed(c, keyFromS, keyFromR, held, readable, a, b)
    ensures a.ok <==> Feasible(c, held) && All(readable)
    ensures b.ok <==> a.ok
  {
    hide Proper, Undisturbed, Feasible, All;
    if a.ok { SentWasFeasible(c, keyFromS, keyFromR, held, readable, a, b); }
    if b.ok { ReceiverImpliesSender(c, keyFromS, keyFromR, held, readable, a, b); }
    if Feasible(c, held) && All(readable) { Succeeds(c, keyFromS, keyFromR, held, readable, a, b); }
  }

  lemma SentWasFeasible(c: Setup, keyFromS: bytes -> Option<Key>, keyFromR: (bytes, bytes) -> Option<Key>,
                        held: seq<bytes>, readable: seq<bool>, a: SenderRun, b: ReceiverRun)
    requires Proper(c) && Undisturbed(c, keyFromS, keyFromR, held, readable, a, b) && a.ok
    ensures Feasible(c, held) && All(readable)
  {
    hide Proper, Reachable, Feasible, Received, Excused, DoneAsA, DoneAsB, MetAsA, MetAsB, ReceiverSent, SenderSent;
    hide Contents, AllGood, GoodChunks, Concat;
    ProgramsAreARun(c, keyFromS, keyFromR, held, a, b);
    RunBounds(c, keyFromS, keyFromR, held, a, b);
    var t :| Reachable(c, t) && Matching(c, t, held, a, b);
    SuccessIsFeasible(c, t);
  }

  /** Such runs there are: whatever is feasible can be had. */
  lemma FeasibleIsDone(c: Setup, keyFromS: bytes -> Option<Key>, keyFromR: (bytes, bytes) -> Option<Key>,
                       held: seq<bytes>, readable: seq<bool>) returns (a: SenderRun, b: ReceiverRun)
    requires Proper(c) && Feasible(c, held) && |readable| == |c.files| && All(readable)
    requires keyFromS(c.shareR) == Some(c.keyS) && keyFromR(c.shareS, c.salt) == Some(c.keyR(c.salt))
    ensures Undisturbed(c, keyFromS, keyFromR, held, readable, a, b) && a.ok && b.ok
  {
    hide Stored, Placed, SafeJoin, JudgeAll, Opened, Contents, AllGood, StreamFrames, SealAll, Matches, Publish, Dests, Nodes;
    hide DirsAfter, Apart, AllFree, Fits, Hindered;
    var key, d, dests, nodes := c.keyS, Streamed(CutAll(held), []), Dests(c.opts.outDir, c.files), Nodes(held, c.files);
    var replies := AcceptedThen(ACCEPT);
    FeasibleIsStored(c, held);
    NoStream(key, c.encode(c.files));
    OpenedAll(key, StreamFrames(d.whole));
    StreamJudged(d.whole, c.files, c.opts.sha);
    assert held[..|held|] == held;
    ProofsFit(key);
    AnswersFit(key);
    var fromS, fromR := SentAs(d, key, c.encode(c.files)), RepliesAs(replies, key);
    assert fromS[1..] == SealAll(key, StreamFrames(d.whole));
    a := SenderRun(3, key, true, d, true, HelloB(c.shareR, key) + fromR);
    b := ReceiverRun(2, key, true, c.files, held, replies, true, HelloA(c.shareS, c.salt, key) + fromS,
                     Publish(c.base, dests, nodes, |held|), DirsAfter(c.dirs, dests, |held|));
    assert a.inbox[2..] == fromR && b.inbox[3..] == fromS;
    assert HelloA(c.shareS, c.salt, key)[..3] == HelloA(c.shareS, c.salt, key);
    assert HelloB(c.shareR, key)[..2] == HelloB(c.shareR, key);
    assert c.files != [] && c.confirm(c.files);
  }
}
