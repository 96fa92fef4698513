/** Several goroutines on one WebSocket connection: data writers, a reader that
    answers pings, and callers of Close, interleaved arbitrarily around the write
    lock. The transport takes a frame in as many pieces as it likes, may fail
    inside one, and may be closed at any moment, also in the middle of a write. */
module WsWriters {
  import opened Bytes
  import opened WsFrame
  import WsConn

  type Id = nat

  /** The goroutine that reads. */
  const READER: Id := 0

  datatype Writer = Idle | Waiting(frame: Frame) | Writing(frame: Frame, done: nat)

  /** A past call of WriteFrame: begun under the lock, or refused for want of a
      mask key before anything was written. */
  datatype Call = Call(frame: Frame, begun: bool)

  /** Besides the program state: `asked` is the order in which goroutines called
      WriteFrame, `order` that in which frames were begun, `past` what became of
      each goroutine's calls, and the first `succeeded` frames of `order` are those
      whose write returned without an error. `coming` and `taken` are the peer's
      frames, still to be read and read. */
  datatype State = State(
    masked: bool,
    writers: map<Id, Writer>,
    holder: Option<Id>,
    open: bool,
    wire: bytes,
    asked: seq<(Id, Frame)>,
    order: seq<(Id, Frame)>,
    past: map<Id, seq<Call>>,
    succeeded: nat,
    coming: seq<Frame>,
    taken: seq<Frame>)

  datatype Step =
    | Ask(who: Id, frame: Frame)
    | Take(reply: Frame)
    | Lock(who: Id)
    | Refuse(who: Id)
    | Push(who: Id, count: nat)
    | Unlock(who: Id)
    | Fail(who: Id)
    | Shut(who: Id)

  /** Take consumes a frame of the peer's, and Ask calls with a data frame or with
      Close's frame, which Shut follows. Once the transport has failed or was
      closed, nothing can be pushed. */
  ghost predicate Enabled(s: State, a: Step) {
    match a
    case Ask(i, f) => At(s, i).Idle? && f.Readable() && (f.IsData() || f.IsClose())
    case Take(reply) =>
      && At(s, READER).Idle? && s.coming != []
      && (s.coming[0].IsPing() ==>
            reply.Readable() && reply.Opcode() == OP_PONG && reply.payload == s.coming[0].payload)
    case Lock(i) => At(s, i).Waiting? && s.holder.None?
    case Refuse(i) => At(s, i).Waiting? && s.holder.None? && s.masked
    case Push(i, k) => At(s, i).Writing? && s.open && k <= |Left(At(s, i))|
    case Unlock(i) => At(s, i).Writing? && Left(At(s, i)) == []
    case Fail(i) => At(s, i).Writing?
    case Shut(i) => At(s, i).Idle? && i in s.writers
  }

  function At(s: State, i: Id): Writer {
    if i in s.writers then s.writers[i] else Idle
  }

  /** What a writer has yet to push. */
  ghost function Left(w: Writer): bytes {
    if w.Writing? && w.frame.Valid() && w.done <= |EncodeFrame(w.frame)| then EncodeFrame(w.frame)[w.done..] else []
  }

  function Past(s: State, i: Id): seq<Call> {
    if i in s.past then s.past[i] else []
  }

  ghost function Apply(s: State, a: Step): State
    requires Enabled(s, a)
  {
    match a
    case Ask(i, f) => Called(s, i, f)
    case Take(reply) =>
      var t := s.(coming := s.coming[1..], taken := s.taken + [s.coming[0]]);
      if s.coming[0].IsPing() then Called(t, READER, reply) else t
    case Lock(i) =>
      var f := At(s, i).frame;
      s.(writers := s.writers[i := Writing(f, 0)], holder := Some(i), order := s.order + [(i, f)],
         past := s.past[i := Past(s, i) + [Call(f, true)]])
    case Refuse(i) =>
      s.(writers := s.writers[i := Idle], past := s.past[i := Past(s, i) + [Call(At(s, i).frame, false)]])
    case Push(i, k) =>
      var w := At(s, i);
      s.(writers := s.writers[i := Writing(w.frame, w.done + k)], wire := s.wire + Left(w)[..k])
    case Unlock(i) =>
      s.(writers := s.writers[i := Idle], holder := None, succeeded := s.succeeded + 1)
    case Fail(i) =>
      s.(writers := s.writers[i := Idle], holder := None, open := false)
    case Shut(i) =>
      s.(open := false)
  }

  function Called(s: State, i: Id, f: Frame): State {
    s.(writers := s.writers[i := Waiting(f)], asked := s.asked + [(i, f)])
  }

  ghost predicate Init(s: State) {
    && s.holder.None? && s.open && s.wire == [] && s.asked == [] && s.order == [] && s.taken == [] && s.succeeded == 0
    && s.past == map[] && forall i | i in s.writers :: s.writers[i].Idle?
  }

  /** The states visited by running the given steps from s. */
  ghost predicate Runs(s: State, steps: seq<Step>, t: State)
    decreases |steps|
  {
    if steps == [] then s == t
    else Enabled(s, steps[0]) && Runs(Apply(s, steps[0]), steps[1..], t)
  }

  // ------------------------------------------------------------------- views

  function Frames(log: seq<(Id, Frame)>): (fs: seq<Frame>)
    ensures |fs| == |log|
  {
    seq(|log|, i requires 0 <= i < |log| => log[i].1)
  }

  /** The frames of one goroutine, in log order. */
  function Of(log: seq<(Id, Frame)>, i: Id): seq<Frame> {
    if log == [] then []
    else
      var last := log[|log| - 1];
      Of(log[..|log| - 1], i) + if last.0 == i then [last.1] else []
  }

  function Asked(calls: seq<Call>): (fs: seq<Frame>)
    ensures |fs| == |calls|
  {
    seq(|calls|, i requires 0 <= i < |calls| => calls[i].frame)
  }

  function Begun(calls: seq<Call>): seq<Frame> {
    if calls == [] then []
    else
      var last := calls[|calls| - 1];
      Begun(calls[..|calls| - 1]) + if last.begun then [last.frame] else []
  }

  /** The payloads of the pongs in a list of frames. */
  function Pongs(fs: seq<Frame>): seq<bytes> {
    if fs == [] then [] else Pongs(fs[..|fs| - 1]) + Pong(fs[|fs| - 1])
  }

  function Pong(f: Frame): seq<bytes> {
    if f.Opcode() == OP_PONG then [f.payload] else []
  }

  lemma OfSnoc(log: seq<(Id, Frame)>, e: (Id, Frame), i: Id)
    ensures Of(log + [e], i) == Of(log, i) + if e.0 == i then [e.1] else []
    ensures Frames(log + [e]) == Frames(log) + [e.1]
  {
    assert (log + [e])[..|log|] == log;
  }

  lemma CallSnoc(calls: seq<Call>, c: Call)
    ensures Begun(calls + [c]) == Begun(calls) + if c.begun then [c.frame] else []
    ensures Asked(calls + [c]) == Asked(calls) + [c.frame]
  {
    assert (calls + [c])[..|calls|] == calls;
  }

  lemma PongsSnoc(fs: seq<Frame>, f: Frame)
    ensures Pongs(fs + [f]) == Pongs(fs) + Pong(f)
  {
    assert (fs + [f])[..|fs|] == fs;
  }

  // -------------------------------------------------------------- invariants

  /** Mutual exclusion: only the lock holder is writing. Only the reader sends
      pongs. */
  ghost predicate Exclusive(s: State) {
    && (s.holder.Some? ==> s.holder.value in s.writers)
    && forall i | i in s.writers ::
         && (s.writers[i].Writing? <==> s.holder == Some(i))
         && (!s.writers[i].Idle? ==> s.writers[i].frame.Readable() && (s.writers[i].frame.Opcode() == OP_PONG ==> i == READER))
         && (s.writers[i].Writing? ==> s.writers[i].done <= |EncodeFrame(s.writers[i].frame)|)
  }

  /** What the lock holder has yet to push. */
  ghost function Unsent(s: State): bytes {
    if s.holder.None? then [] else Left(At(s, s.holder.value))
  }

  /** The last frame begun is one the transport took, or can still take. */
  ghost predicate Alive(s: State) {
    s.open || (s.holder.Some? && At(s, s.holder.value).Writing? && At(s, s.holder.value).done > 0)
  }

  /** The wire is whole frames in lock order, the last possibly incomplete, and
      frames whose write succeeded are whole. */
  ghost predicate WireInv(s: State) {
    && AllReadable(Frames(s.order)) && s.succeeded <= |s.order|
    && EncodeAll(Frames(s.order)[..s.succeeded]) <= s.wire <= EncodeAll(Frames(s.order))
    && (Alive(s) ==>
          && s.wire + Unsent(s) == EncodeAll(Frames(s.order))
          && |s.order| == s.succeeded + if s.holder.Some? then 1 else 0)
  }

  /** One goroutine's calls are decided in the order it made them, and those not
      refused are begun in that order. */
  ghost predicate Orderly(s: State, i: Id) {
    && Of(s.asked, i) == Asked(Past(s, i)) + (if At(s, i).Waiting? then [At(s, i).frame] else [])
    && Of(s.order, i) == Begun(Past(s, i))
    && (!s.masked ==> Begun(Past(s, i)) == Asked(Past(s, i)))
  }

  ghost predicate ProgramOrder(s: State) {
    forall i :: Orderly(s, i)
  }

  /** Every ping read is one call of the reader's, and every pong one of those. */
  ghost predicate PingInv(s: State) {
    && Pongs(Of(s.asked, READER)) == PingPayloads(s.taken)
    && Pongs(Frames(s.order)) == Pongs(Of(s.order, READER))
  }

  ghost predicate Inv(s: State) {
    Exclusive(s) && WireInv(s) && ProgramOrder(s) && PingInv(s)
  }

  lemma StepKeepsLock(s: State, a: Step)
    requires Exclusive(s) && Enabled(s, a)
    ensures Exclusive(Apply(s, a))
  {
    hide EncodeFrame;
  }

  lemma StepKeepsOrder(s: State, a: Step, i: Id)
    requires Orderly(s, i) && Enabled(s, a)
    ensures Orderly(Apply(s, a), i)
  {
    match a
    case Ask(j, f) => CallKeepsOrder(s, j, f, i);
    case Take(reply) => TakeKeepsOrder(s, reply, i);
    case Lock(j) => DecisionKeepsOrder(s, a, i);
    case Refuse(j) => DecisionKeepsOrder(s, a, i);
    case _ => QuietKeepsOrder(s, a, i);
  }

  lemma CallKeepsOrder(s: State, j: Id, f: Frame, i: Id)
    requires Orderly(s, i) && At(s, j).Idle?
    ensures Orderly(Called(s, j, f), i)
  {
    hide Of, Begun, Asked;
    NothingMore();
    OfSnoc(s.asked, (j, f), i);
  }

  lemma TakeKeepsOrder(s: State, reply: Frame, i: Id)
    requires Orderly(s, i) && Enabled(s, Take(reply))
    ensures Orderly(Apply(s, Take(reply)), i)
  {
    hide Of, Begun, Asked;
    var t := s.(coming := s.coming[1..], taken := s.taken + [s.coming[0]]);
    assert Orderly(t, i);
    if s.coming[0].IsPing() { CallKeepsOrder(t, READER, reply, i); }
  }

  lemma DecisionKeepsOrder(s: State, a: Step, i: Id)
    requires Orderly(s, i) && Enabled(s, a) && (a.Lock? || a.Refuse?)
    ensures Orderly(Apply(s, a), i)
  {
    hide Of, Begun, Asked, Left;
    NothingMore();
    OfSnoc(s.order, (a.who, At(s, a.who).frame), i);
    CallSnoc(Past(s, a.who), Call(At(s, a.who).frame, a.Lock?));
  }

  lemma QuietKeepsOrder(s: State, a: Step, i: Id)
    requires Orderly(s, i) && Enabled(s, a) && (a.Push? || a.Unlock? || a.Fail? || a.Shut?)
    ensures Orderly(Apply(s, a), i)
  {
    hide Of, Begun, Asked, Left;
  }

  lemma StepKeepsPings(s: State, a: Step)
    requires Exclusive(s) && PingInv(s) && Enabled(s, a)
    ensures PingInv(Apply(s, a))
  {
    hide EncodeFrame, Of, Pongs, PingPayloads;
    NothingMore();
    match a
    case Ask(j, f) =>
      OfSnoc(s.asked, (j, f), READER);
      PongsSnoc(Of(s.asked, READER), f);
    case Take(reply) =>
      OfSnoc(s.asked, (READER, reply), READER);
      PongsSnoc(Of(s.asked, READER), reply);
      PingPayloadsSnoc(s.taken, s.coming[0]);
    case Lock(j) =>
      var f := At(s, j).frame;
      OfSnoc(s.order, (j, f), READER);
      PongsSnoc(Frames(s.order), f);
      PongsSnoc(Of(s.order, READER), f);
    case _ =>
  }

  lemma NothingMore()
    ensures forall fs: seq<Frame> :: fs + [] == fs
    ensures forall ps: seq<bytes> :: ps + [] == ps
  {}

  lemma StepKeepsWire(s: State, a: Step)
    requires Exclusive(s) && WireInv(s) && Enabled(s, a)
    ensures WireInv(Apply(s, a))
  {
    hide EncodeFrame, EncodeAll;
    match a
    case Lock(i) => LockKeepsWire(s, i);
    case Push(i, k) => PushKeepsWire(s, i, k);
    case Unlock(i) =>
      FrameNotEmpty(At(s, i).frame);
      assert s.wire + [] == s.wire;
      assert Frames(s.order)[..|s.order|] == Frames(s.order);
    case _ =>
  }

  lemma FrameNotEmpty(f: Frame)
    requires f.Valid()
    ensures EncodeFrame(f) != []
  {}

  lemma PushKeepsWire(s: State, i: Id, k: nat)
    requires Exclusive(s) && WireInv(s) && Enabled(s, Push(i, k))
    ensures WireInv(Apply(s, Push(i, k)))
  {
    hide EncodeFrame, EncodeAll;
    var left := Left(At(s, i));
    assert s.wire + left[..k] + left[k..] == s.wire + left;
  }

  lemma LockKeepsWire(s: State, i: Id)
    requires Exclusive(s) && WireInv(s) && Enabled(s, Lock(i))
    ensures WireInv(Apply(s, Lock(i)))
  {
    hide EncodeFrame, EncodeAll;
    var f, t := At(s, i).frame, Apply(s, Lock(i));
    OfSnoc(s.order, (i, f), i);
    EncodeAllSnoc(Frames(s.order), f);
    assert Frames(t.order)[..s.succeeded] == Frames(s.order)[..s.succeeded];
    assert s.wire + [] == s.wire;
  }

  lemma {:induction false} InvHolds(s: State, steps: seq<Step>, t: State)
    requires Inv(s) && Runs(s, steps, t)
    ensures Inv(t)
    decreases |steps|
  {
    hide Exclusive, WireInv, Orderly, PingInv;
    if steps != [] {
      var a := steps[0];
      StepKeepsLock(s, a);
      StepKeepsWire(s, a);
      StepKeepsPings(s, a);
      forall i ensures Orderly(Apply(s, a), i) { StepKeepsOrder(s, a, i); }
      InvHolds(Apply(s, a), steps[1..], t);
    }
  }

  lemma InvStarts(s: State)
    requires Init(s)
    ensures Inv(s)
  {
    assert Frames(s.order) == [] && Wires([]) == [];
    assert Frames(s.order)[..0] == [];
  }

  // ---------------------------------------------------------------- theorems

  /** However the goroutines interleave, and whenever the transport fails or is
      closed: the wire is whole frames in lock order, the last one possibly
      incomplete; the frames whose write succeeded are the first of them, and
      whole; and with nobody writing on a healthy transport, all are. So the peer
      reads at least what was written with success, and at most a prefix of the
      data begun. Each goroutine's frames keep its own order. */
  lemma WholeFrames(s: State, steps: seq<Step>, t: State)
    requires Init(s) && Runs(s, steps, t)
    ensures AllReadable(Frames(t.order)) && t.wire <= EncodeAll(Frames(t.order))
    ensures t.succeeded <= |t.order| && EncodeAll(Frames(t.order)[..t.succeeded]) <= t.wire
    ensures t.open && t.holder.None? ==> t.succeeded == |t.order| && t.wire == EncodeAll(Frames(t.order))
    ensures Data(Frames(t.order)[..t.succeeded]) <= Stream(t.wire) <= Data(Frames(t.order))
    ensures forall i :: Of(t.order, i) == Begun(Past(t, i)) && Asked(Past(t, i)) <= Of(t.asked, i)
  {
    hide EncodeFrame, Stream, Data, EncodeAll;
    InvStarts(s);
    InvHolds(s, steps, t);
    assert t.wire + [] == t.wire;
    TruncatedWire(Frames(t.order), t.wire);
    var sure := Frames(t.order)[..t.succeeded];
    TruncatedWire(sure, EncodeAll(sure));
    StreamMonotone(t.wire, EncodeAll(sure));
    forall i ensures Of(t.order, i) == Begun(Past(t, i)) && Asked(Past(t, i)) <= Of(t.asked, i) {
      assert Orderly(t, i);
    }
  }

  /** Every ping the reader has taken is one call with a pong of its payload, in
      ping order, the last perhaps still waiting for the lock; and the pongs begun
      are exactly those calls that were not refused, in that order. Where no mask
      key is needed none is refused: the pongs begun are the first of the pings
      taken, and all of them unless one is waiting. */
  lemma OnePongPerPing(s: State, steps: seq<Step>, t: State)
    requires Init(s) && Runs(s, steps, t)
    ensures Pongs(Of(t.asked, READER)) == PingPayloads(t.taken)
    ensures Of(t.asked, READER) == Asked(Past(t, READER)) + if At(t, READER).Waiting? then [At(t, READER).frame] else []
    ensures Pongs(Frames(t.order)) == Pongs(Begun(Past(t, READER)))
    ensures !s.masked ==> Pongs(Frames(t.order)) <= PingPayloads(t.taken)
    ensures !s.masked && !At(t, READER).Waiting? ==> Pongs(Frames(t.order)) == PingPayloads(t.taken)
  {
    InvStarts(s);
    InvHolds(s, steps, t);
    MaskedStays(s, steps, t);
    assert Orderly(t, READER);
    if At(t, READER).Waiting? {
      PongsSnoc(Asked(Past(t, READER)), At(t, READER).frame);
    } else {
      assert Asked(Past(t, READER)) + [] == Asked(Past(t, READER));
    }
  }

  lemma {:induction false} MaskedStays(s: State, steps: seq<Step>, t: State)
    requires Runs(s, steps, t)
    ensures s.masked == t.masked
    decreases |steps|
  {
    if steps != [] { MaskedStays(Apply(s, steps[0]), steps[1..], t); }
  }

  // ------------------------------------------------- the method as such steps

  lemma {:induction false} RunsThen(s: State, steps: seq<Step>, t: State, a: Step)
    requires Runs(s, steps, t) && Enabled(t, a)
    ensures Runs(s, steps + [a], Apply(t, a))
    decreases |steps|
  {
    hide Enabled, Apply;
    if steps == [] {
      assert [a][1..] == [];
    } else {
      assert (steps + [a])[1..] == steps[1..] + [a];
      RunsThen(Apply(s, steps[0]), steps[1..], t, a);
    }
  }

  ghost predicate Reaches(s: State, t: State) {
    exists steps :: Runs(s, steps, t)
  }

  lemma Then(s: State, t: State, a: Step)
    requires Reaches(s, t) && Enabled(t, a)
    ensures Reaches(s, Apply(t, a))
  {
    hide Enabled, Apply;
    var steps :| Runs(s, steps, t);
    RunsThen(s, steps, t, a);
  }

  /** A frame that is waiting leaves in part: the lock, what was pushed, the end. */
  lemma PartLeaves(s: State, u: State, i: Id, f: Frame, n: nat, whole: bool) returns (t: State)
    requires Reaches(s, u) && i in u.writers && u.writers[i] == Waiting(f) && u.holder.None? && f.Readable()
    requires n <= |EncodeFrame(f)| && (n > 0 ==> u.open) && (whole ==> n == |EncodeFrame(f)|)
    ensures Reaches(s, t) && At(t, i).Idle? && t.holder.None? && t.coming == u.coming && t.taken == u.taken
    ensures t.wire == u.wire + EncodeFrame(f)[..n] && t.open == (whole && u.open)
  {
    hide Reaches, EncodeFrame;
    Then(s, u, Lock(i));
    t := Apply(u, Lock(i));
    assert Left(At(t, i)) == EncodeFrame(f);
    if n > 0 {
      Then(s, t, Push(i, n));
      t := Apply(t, Push(i, n));
    }
    assert u.wire + EncodeFrame(f)[..0] == u.wire;
    var end := if whole then Unlock(i) else Fail(i);
    if whole { FrameNotEmpty(f); }
    Then(s, t, end);
    t := Apply(t, end);
  }

  lemma HereReached(s: State)
    ensures Reaches(s, s)
  {
    assert Runs(s, [], s);
  }

  /** The frame that one call of WriteFrame was about: the one it sent, the one it
      cut short, or, if it wrote nothing, one it would have sent. */
  ghost function FrameOf(a: WsConn.Wire, b: WsConn.Wire, opcode: nat, payload: bytes, masked: bool): (f: Frame)
    requires opcode in {OP_BINARY, OP_CLOSE, OP_PONG} && |payload| <= MAX_FRAME
    requires WsConn.Wrote(a, b, opcode, payload, masked) || WsConn.Failed(a, b, opcode, payload, masked)
    ensures f.Readable() && f.Opcode() == opcode && f.payload == payload
  {
    if WsConn.Wrote(a, b, opcode, payload, masked) then b.emitted[|a.emitted|]
    else if a.Open() && b.broken then b.cut.value
    else Frame(128 + opcode, None, WsConn.MinimalForm(|payload|), payload)
  }

  /** From the moment the frame waits, what WriteFrame does to the wire is a run. */
  lemma CallLeaves(s: State, u: State, i: Id, a: WsConn.Wire, b: WsConn.Wire, opcode: nat, payload: bytes) returns (t: State)
    requires opcode in {OP_BINARY, OP_CLOSE, OP_PONG} && |payload| <= MAX_FRAME
    requires WsConn.Framed(a) && u.wire == a.sent && u.open == a.Open()
    requires WsConn.Wrote(a, b, opcode, payload, u.masked) || WsConn.Failed(a, b, opcode, payload, u.masked)
    requires Reaches(s, u) && i in u.writers && u.holder.None?
    requires u.writers[i] == Waiting(FrameOf(a, b, opcode, payload, u.masked))
    ensures Reaches(s, t) && At(t, i).Idle? && t.holder.None? && t.coming == u.coming && t.taken == u.taken
    ensures t.wire == b.sent && t.open == b.Open()
  {
    hide Reaches, EncodeFrame, EncodeAll;
    var f := FrameOf(a, b, opcode, payload, u.masked);
    if WsConn.Wrote(a, b, opcode, payload, u.masked) {
      t := PartLeaves(s, u, i, f, |EncodeFrame(f)|, true);
    } else if a.Open() && b.broken {
      var n := |b.sent| - |a.sent|;
      assert b.sent == a.sent + EncodeFrame(f)[..n];
      t := PartLeaves(s, u, i, f, n, false);
    } else if a.Open() {
      Then(s, u, Refuse(i));
      t := Apply(u, Refuse(i));
    } else {
      t := PartLeaves(s, u, i, f, 0, false);
      assert u.wire + EncodeFrame(f)[..0] == u.wire;
    }
  }

  /** What WriteFrame does to the wire for a data or close frame, whether it succeeds
      or fails, is a run of steps by the goroutine that called it. */
  lemma WriteFrameIsARun(s: State, i: Id, a: WsConn.Wire, b: WsConn.Wire, opcode: nat, payload: bytes)
    requires i in s.writers && s.writers[i].Idle? && s.holder.None?
    requires WsConn.Framed(a) && s.wire == a.sent && s.open == a.Open()
    requires opcode in {OP_BINARY, OP_CLOSE} && |payload| <= MAX_FRAME
    requires WsConn.Wrote(a, b, opcode, payload, s.masked) || WsConn.Failed(a, b, opcode, payload, s.masked)
    ensures exists t :: Reaches(s, t) && t.wire == b.sent && t.open == b.Open() && At(t, i).Idle? && t.holder.None?
  {
    hide Reaches, EncodeFrame, EncodeAll, FrameOf, WsConn.Wrote, WsConn.Failed, WsConn.Framed;
    var ask := Ask(i, FrameOf(a, b, opcode, payload, s.masked));
    HereReached(s);
    Then(s, s, ask);
    var t := CallLeaves(s, Apply(s, ask), i, a, b, opcode, payload);
  }

  /** And what answering a ping does, from taking it to the end of its pong. */
  lemma AnswerPingIsARun(s: State, a: WsConn.Wire, b: WsConn.Wire)
    requires READER in s.writers && s.writers[READER].Idle? && s.holder.None?
    requires s.coming != [] && s.coming[0].IsPing() && |s.coming[0].payload| <= MAX_FRAME
    requires WsConn.Framed(a) && s.wire == a.sent && s.open == a.Open()
    requires WsConn.Wrote(a, b, OP_PONG, s.coming[0].payload, s.masked) || WsConn.Failed(a, b, OP_PONG, s.coming[0].payload, s.masked)
    ensures exists t ::
      && Reaches(s, t) && t.wire == b.sent && t.open == b.Open() && At(t, READER).Idle? && t.holder.None?
      && t.coming == s.coming[1..] && t.taken == s.taken + [s.coming[0]]
  {
    hide Reaches, EncodeFrame, EncodeAll, FrameOf, WsConn.Wrote, WsConn.Failed, WsConn.Framed;
    var payload := s.coming[0].payload;
    var take := Take(FrameOf(a, b, OP_PONG, payload, s.masked));
    HereReached(s);
    Then(s, s, take);
    var t := CallLeaves(s, Apply(s, take), READER, a, b, OP_PONG, payload);
  }
}
