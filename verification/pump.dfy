/** The relay's two copy loops running side by side over one pair of connections,
    at the level of the bytes each connection delivers and takes: every
    interleaving of arrivals, reads, writes, failures and closings. */
module Pump {
  import opened Bytes
  import Pipe

  datatype Side = A | B

  datatype Why = AtEof | ReadFailed | WriteFailed

  datatype Phase = Reading | Writing(chunk: bytes) | Ended(why: Why) | Gone(why: Why)

  /** One direction, named after its source: all that has come from it, whether it
      has said its last, how much of that was read, and what the other peer got. */
  datatype Way = Way(came: bytes, over: bool, read: nat, out: bytes, phase: Phase)

  datatype State = State(fromA: Way, fromB: Way, open: bool)

  datatype Step =
    | Arrive(d: Side, more: bytes)
    | SayLast(d: Side)
    | Read(d: Side, k: nat)
    | ReadEof(d: Side)
    | ReadFails(d: Side)
    | Write(d: Side)
    | WriteFails(d: Side, k: nat)
    | CloseBoth(d: Side)

  function From(s: State, d: Side): Way {
    if d == A then s.fromA else s.fromB
  }

  function With(s: State, d: Side, w: Way): State {
    if d == A then s.(fromA := w) else s.(fromB := w)
  }

  /** Reading can fail at any time, and so can writing, after any part. After the
      closing, nothing more is taken; what was buffered can still be read. */
  predicate CanMove(w: Way, open: bool, a: Step) {
    match a
    case Arrive(_, _) => !w.over
    case SayLast(_) => true
    case Read(_, k) => w.phase.Reading? && 0 < k <= Pipe.COPY_BUFFER && w.read + k <= |w.came|
    case ReadEof(_) => w.phase.Reading? && w.over && w.read == |w.came|
    case ReadFails(_) => w.phase.Reading?
    case Write(_) => w.phase.Writing? && open
    case WriteFails(_, k) => w.phase.Writing? && k <= |w.phase.chunk| && (open || k == 0)
    case CloseBoth(_) => w.phase.Ended?
  }

  function Move(w: Way, open: bool, a: Step): Way
    requires CanMove(w, open, a)
  {
    match a
    case Arrive(_, more) => w.(came := w.came + more)
    case SayLast(_) => w.(over := true)
    case Read(_, k) => w.(read := w.read + k, phase := Writing(w.came[w.read..w.read + k]))
    case ReadEof(_) => w.(phase := Ended(AtEof))
    case ReadFails(_) => w.(phase := Ended(ReadFailed))
    case Write(_) => w.(out := w.out + w.phase.chunk, phase := Reading)
    case WriteFails(_, k) => w.(out := w.out + w.phase.chunk[..k], phase := Ended(WriteFailed))
    case CloseBoth(_) => w.(phase := Gone(w.phase.why))
  }

  predicate Enabled(s: State, a: Step) {
    CanMove(From(s, a.d), s.open, a)
  }

  function Apply(s: State, a: Step): State
    requires Enabled(s, a)
  {
    With(s, a.d, Move(From(s, a.d), s.open, a)).(open := s.open && !a.CloseBoth?)
  }

  const FRESH: Way := Way([], false, 0, [], Reading)

  const START: State := State(FRESH, FRESH, true)

  ghost predicate Runs(s: State, steps: seq<Step>, t: State)
    decreases |steps|
  {
    if steps == [] then s == t
    else Enabled(s, steps[0]) && Runs(Apply(s, steps[0]), steps[1..], t)
  }

  ghost predicate Reaches(s: State, t: State) {
    exists steps :: Runs(s, steps, t)
  }

  ghost predicate Reachable(t: State) {
    Reaches(START, t)
  }

  // --------------------------------------------------------------- invariant

  /** What was read is what was delivered and what is being written. */
  ghost predicate InStep(w: Way) {
    && w.read <= |w.came|
    && match w.phase
       case Reading => w.out == w.came[..w.read]
       case Writing(chunk) => w.out + chunk == w.came[..w.read]
       case Ended(why) => w.out <= w.came && (why == AtEof ==> w.over && w.out == w.came)
       case Gone(why) => w.out <= w.came && (why == AtEof ==> w.over && w.out == w.came)
  }

  ghost predicate Inv(s: State) {
    InStep(s.fromA) && InStep(s.fromB) && (s.open <==> !s.fromA.phase.Gone? && !s.fromB.phase.Gone?)
  }

  lemma MoveKeeps(w: Way, open: bool, a: Step)
    requires InStep(w) && CanMove(w, open, a)
    ensures InStep(Move(w, open, a))
  {
    match a
    case Arrive(_, more) => assert (w.came + more)[..w.read] == w.came[..w.read];
    case Read(_, k) => assert w.came[..w.read] + w.came[w.read..w.read + k] == w.came[..w.read + k];
    case WriteFails(_, k) =>
      assert w.out + w.phase.chunk[..k] <= w.out + w.phase.chunk;
    case ReadEof(_) => assert w.came[..w.read] == w.came;
    case _ =>
  }

  lemma StepKeeps(s: State, a: Step)
    requires Inv(s) && Enabled(s, a)
    ensures Inv(Apply(s, a))
  {
    hide InStep;
    MoveKeeps(From(s, a.d), s.open, a);
  }

  lemma {:induction false} InvHolds(s: State, steps: seq<Step>, t: State)
    requires Inv(s) && Runs(s, steps, t)
    ensures Inv(t)
    decreases |steps|
  {
    hide Inv, Apply, Enabled;
    if steps != [] {
      StepKeeps(s, steps[0]);
      InvHolds(Apply(s, steps[0]), steps[1..], t);
    }
  }

  // ---------------------------------------------------------------- theorems

  /** In each direction the peer gets a prefix of what came, in every run; a
      direction that ended because its source did has delivered everything; and
      the connections are open exactly until the first of the two loops is over. */
  lemma Delivered(t: State, d: Side)
    requires Reachable(t)
    ensures From(t, d).out <= From(t, d).came
    ensures From(t, d).phase in {Ended(AtEof), Gone(AtEof)} ==> From(t, d).over && From(t, d).out == From(t, d).came
    ensures t.open <==> !t.fromA.phase.Gone? && !t.fromB.phase.Gone?
  {
    var steps :| Runs(START, steps, t);
    InvHolds(START, steps, t);
  }

  /** The loop that closes the connections cuts the other direction off where it
      is: from then on no run delivers another byte either way. */
  lemma {:induction false} NothingAfterClosing(s: State, steps: seq<Step>, t: State, d: Side)
    requires !s.open && Runs(s, steps, t)
    ensures !t.open && From(t, d).out == From(s, d).out
    decreases |steps|
  {
    if steps != [] {
      var u := Apply(s, steps[0]);
      assert From(u, d).out == From(s, d).out by {
        if steps[0].WriteFails? { assert From(s, steps[0].d).phase.chunk[..0] == []; }
      }
      NothingAfterClosing(u, steps[1..], t, d);
    }
  }

  lemma {:induction false} RunsThen(s: State, steps: seq<Step>, t: State, a: Step)
    requires Runs(s, steps, t) && Enabled(t, a)
    ensures Runs(s, steps + [a], Apply(t, a))
    decreases |steps|
  {
    if steps == [] {
      assert [a][1..] == [];
    } else {
      assert (steps + [a])[1..] == steps[1..] + [a];
      RunsThen(Apply(s, steps[0]), steps[1..], t, a);
    }
  }

  lemma Then(s: State, t: State, a: Step, u: State)
    requires Reaches(s, t) && Enabled(t, a) && Apply(t, a) == u
    ensures Reaches(s, u)
  {
    var steps :| Runs(s, steps, t);
    RunsThen(s, steps, t, a);
  }

  /** And what is in flight then is lost: a peer that has said all it had to say
      can find none of it delivered because the other peer was done first. */
  lemma OtherDirectionCut(sent: bytes)
    requires 0 < |sent| <= Pipe.COPY_BUFFER
    ensures exists t ::
      && Reachable(t) && t.fromA.phase == Gone(AtEof) && t.fromB.phase.Gone?
      && t.fromB.over && t.fromB.came == sent && t.fromB.out == []
  {
    hide Reaches;
    HereReached(START);
    assert [] + sent == sent && sent[0..0 + |sent|] == sent && [] + sent[..0] == [];
    var came := FRESH.(came := sent);
    var said := came.(over := true);
    var held := said.(read := |sent|, phase := Writing(sent));
    var silent := FRESH.(over := true);
    Then(START, START, Arrive(B, sent), State(FRESH, came, true));
    Then(START, State(FRESH, came, true), SayLast(B), State(FRESH, said, true));
    Then(START, State(FRESH, said, true), Read(B, |sent|), State(FRESH, held, true));
    Then(START, State(FRESH, held, true), SayLast(A), State(silent, held, true));
    Then(START, State(silent, held, true), ReadEof(A), State(silent.(phase := Ended(AtEof)), held, true));
    var done := silent.(phase := Gone(AtEof));
    Then(START, State(silent.(phase := Ended(AtEof)), held, true), CloseBoth(A), State(done, held, false));
    Then(START, State(done, held, false), WriteFails(B, 0), State(done, held.(phase := Ended(WriteFailed)), false));
    var lost := State(done, held.(phase := Gone(WriteFailed)), false);
    Then(START, State(done, held.(phase := Ended(WriteFailed)), false), CloseBoth(B), lost);
    assert Reachable(lost);
  }

  lemma HereReached(s: State)
    ensures Reaches(s, s)
  {
    assert Runs(s, [], s);
  }

  lemma {:induction false} NothingComesAfter(s: State, steps: seq<Step>, t: State, d: Side)
    requires From(s, d).over && Runs(s, steps, t)
    ensures From(t, d).came == From(s, d).came
    decreases |steps|
  {
    if steps != [] { NothingComesAfter(Apply(s, steps[0]), steps[1..], t, d); }
  }

  /** The exact condition: when one loop is about to close the connections, the
      other direction, whose source has said its last, is delivered in full in the
      end if and only if it has been by then. */
  lemma CompleteExactlyWhen(s: State, d: Side, e: Side, steps: seq<Step>, t: State)
    requires d != e && From(s, e).phase.Ended? && From(s, d).over
    requires Runs(Apply(s, CloseBoth(e)), steps, t)
    ensures From(t, d).out == From(t, d).came <==> From(s, d).out == From(s, d).came
  {
    var u := Apply(s, CloseBoth(e));
    NothingAfterClosing(u, steps, t, d);
    NothingComesAfter(u, steps, t, d);
  }

  // ------------------------------------------------ the method as such steps

  function Other(d: Side): Side {
    if d == A then B else A
  }

  lemma ChunkPasses(s: State, u: State, d: Side, chunk: bytes) returns (t: State)
    requires Reaches(s, u) && u.open && From(u, d).phase.Reading? && 0 < |chunk| <= Pipe.COPY_BUFFER
    requires From(u, d).read <= |From(u, d).came| && chunk <= From(u, d).came[From(u, d).read..]
    ensures Reaches(s, t) && t.open && From(t, Other(d)) == From(u, Other(d))
    ensures From(t, d) == From(u, d).(read := From(u, d).read + |chunk|, out := From(u, d).out + chunk)
  {
    hide Reaches;
    var w := From(u, d);
    assert w.came[w.read..w.read + |chunk|] == w.came[w.read..][..|chunk|] == chunk;
    var held := With(u, d, w.(read := w.read + |chunk|, phase := Writing(chunk)));
    Then(s, u, Read(d, |chunk|), held);
    t := With(u, d, w.(read := w.read + |chunk|, out := w.out + chunk));
    Then(s, held, Write(d), t);
  }

  /** Some bytes are read and written, chunk by chunk. */
  lemma {:induction false} ChunksPass(s: State, u: State, d: Side, more: bytes) returns (t: State)
    requires Reaches(s, u) && u.open && From(u, d).phase.Reading?
    requires From(u, d).read <= |From(u, d).came| && more <= From(u, d).came[From(u, d).read..]
    ensures Reaches(s, t) && t.open && From(t, Other(d)) == From(u, Other(d))
    ensures From(t, d) == From(u, d).(read := From(u, d).read + |more|, out := From(u, d).out + more)
    decreases |more|
  {
    hide Reaches;
    var w := From(u, d);
    if more == [] {
      t := u;
      assert w.out + more == w.out;
    } else {
      var k := if |more| < Pipe.COPY_BUFFER then |more| else Pipe.COPY_BUFFER;
      Halves(w.came, w.read, more, k, w.out);
      var passed := ChunkPasses(s, u, d, more[..k]);
      t := ChunksPass(s, passed, d, more[k..]);
    }
  }

  lemma Halves(came: bytes, read: nat, more: bytes, k: nat, out: bytes)
    requires read <= |came| && more <= came[read..] && k <= |more|
    ensures more[..k] <= came[read..] && read + k <= |came| && more[k..] <= came[read + k..]
    ensures out + more[..k] + more[k..] == out + more
  {
    assert came[read..][k..] == came[read + k..];
  }

  /** What one goroutine's copy and closing do, as the contract of CopyOnce has it,
      is a run of one direction: from `sent` to `now` delivered of what was due, and
      to the source's end if all of it was and the source is over. */
  lemma CopyOnceIsARun(s: State, d: Side, sent: bytes, due: bytes, now: bytes)
    requires s.open && From(s, d).phase.Reading? && InStep(From(s, d))
    requires From(s, d).out == sent && From(s, d).came[From(s, d).read..] == due
    requires sent <= now <= sent + due
    ensures exists t ::
      && Reaches(s, t) && !t.open && From(t, d).phase.Gone? && From(t, d).out == now
      && From(t, Other(d)) == From(s, Other(d))
      && (From(s, d).over && now == sent + due ==> From(t, d).phase == Gone(AtEof))
  {
    hide Reaches;
    var more := now[|sent|..];
    assert now == sent + more && more <= due;
    HereReached(s);
    var t := ChunksPass(s, s, d, more);
    var w := From(t, d);
    var end := if w.over && w.read == |w.came| then ReadEof(d) else ReadFails(d);
    var u := Apply(t, end);
    Then(s, t, end, u);
    Then(s, u, CloseBoth(d), Apply(u, CloseBoth(d)));
    assert Reaches(s, Apply(u, CloseBoth(d)));
  }
}
