/** The relay's rendezvous: one goroutine per connection, a room map under a
    mutex, and a timer per waiting connection that is never cancelled. */
module Relay {
  import opened Bytes

  type Id = nat
  type Room = string

  // ------------------------------------------------------ the lock sections

  /** What a named connection does under the lock: take the one waiting in the
      room, or wait there itself. */
  function Rendezvous(waiting: map<Room, Id>, room: Room, c: Id): (map<Room, Id>, Option<Id>) {
    if room in waiting then (waiting - {room}, Some(waiting[room]))
    else (waiting[room := c], None)
  }

  /** What a fired timer does under the lock. */
  function Expire(waiting: map<Room, Id>, room: Room, c: Id): (map<Room, Id>, bool) {
    if room in waiting && waiting[room] == c then (waiting - {room}, true)
    else (waiting, false)
  }

  class Server {
    var waiting: map<Room, Id>

    constructor ()
      ensures waiting == map[]
    {
      waiting := map[];
    }

    method Match(room: Room, c: Id) returns (partner: Option<Id>)
      modifies this
      ensures (waiting, partner) == Rendezvous(old(waiting), room, c)
      ensures partner.Some? <==> room in old(waiting)
      ensures forall r | r != room :: (r in waiting <==> r in old(waiting)) && (r in waiting ==> waiting[r] == old(waiting)[r])
    {
      if room in waiting {
        partner := Some(waiting[room]);
        waiting := waiting - {room};
      } else {
        partner := None;
        waiting := waiting[room := c];
      }
    }

    method TimedOut(room: Room, c: Id) returns (still: bool)
      modifies this
      ensures (waiting, still) == Expire(old(waiting), room, c)
      ensures !still ==> waiting == old(waiting)
      ensures still ==> room in old(waiting) && old(waiting)[room] == c && room !in waiting
    {
      still := room in waiting && waiting[room] == c;
      if still { waiting := waiting - {room}; }
    }
  }

  // ------------------------------------------------------ transition system

  /** Where the goroutine serving a connection is. */
  datatype Pc =
    | Hello                                // receiving the greeting
    | Naming                               // receiving the room name
    | Rejected                             // handshake failed, connection closed
    | Locking(room: Room)                  // about to take the lock
    | Arming(room: Room)                   // first in its room, timer not started yet
    | Parked(room: Room)                   // first in its room, goroutine gone
    | TellPartner(room: Room, mate: Id)    // sending "paired" to the partner
    | TellSelf(room: Room, mate: Id)       // sending "paired" to its own peer
    | Piping(room: Room, mate: Id)
    | Done(room: Room, mate: Id)           // both connections closed

  datatype Timer = Armed(room: Room) | Stale | Evicting | Evicted

  /** Besides the program state: the room each connection named, who was paired
      with whom and in which order, which connections a timer has closed, and who
      was sent "paired", in order. */
  datatype State = State(
    pcs: map<Id, Pc>,
    waiting: map<Room, Id>,
    timers: map<Id, Timer>,
    closed: set<Id>,
    named: map<Id, Room>,
    mates: map<Id, Id>,
    pairs: seq<(Id, Id)>,
    timedOut: set<Id>,
    told: seq<Id>)

  datatype Step =
    | Accept(c: Id)
    | Greet(c: Id)
    | Name(c: Id, room: Room)
    | Reject(c: Id)
    | Lock(c: Id)
    | Arm(c: Id)
    | Fire(c: Id)
    | Evict(c: Id)
    | PartnerTold(c: Id, ok: bool)
    | SelfTold(c: Id, ok: bool)
    | HangUp(c: Id)

  ghost predicate Enabled(s: State, a: Step) {
    match a
    case Accept(c) => c !in s.pcs
    case Greet(c) => c in s.pcs && s.pcs[c].Hello?
    case Name(c, room) => c in s.pcs && s.pcs[c].Naming? && room != ""
    case Reject(c) => c in s.pcs && (s.pcs[c].Hello? || s.pcs[c].Naming?)
    case Lock(c) => c in s.pcs && s.pcs[c].Locking?
    case Arm(c) => c in s.pcs && s.pcs[c].Arming?
    case Fire(c) => c in s.timers && s.timers[c].Armed?
    case Evict(c) => c in s.timers && s.timers[c].Evicting?
    case PartnerTold(c, _) => c in s.pcs && s.pcs[c].TellPartner?
    case SelfTold(c, _) => c in s.pcs && s.pcs[c].TellSelf?
    case HangUp(c) => c in s.pcs && s.pcs[c].Piping?
  }

  function At(s: State, c: Id, pc: Pc): State {
    s.(pcs := s.pcs[c := pc])
  }

  function CloseBoth(s: State, c: Id, room: Room, mate: Id): State {
    At(s, c, Done(room, mate)).(closed := s.closed + {c, mate})
  }

  function Apply(s: State, a: Step): State
    requires Enabled(s, a)
  {
    match a
    case Accept(c) => At(s, c, Hello)
    case Greet(c) => At(s, c, Naming)
    case Name(c, room) => At(s, c, Locking(room)).(named := s.named[c := room])
    case Reject(c) => At(s, c, Rejected).(closed := s.closed + {c})
    case Lock(c) =>
      var room := s.pcs[c].room;
      var (waiting, partner) := Rendezvous(s.waiting, room, c);
      if partner.Some? then
        var p := partner.value;
        At(s, c, TellPartner(room, p)).(waiting := waiting, mates := s.mates[c := p][p := c], pairs := s.pairs + [(p, c)])
      else
        At(s, c, Arming(room)).(waiting := waiting)
    case Arm(c) => At(s, c, Parked(s.pcs[c].room)).(timers := s.timers[c := Armed(s.pcs[c].room)])
    case Fire(c) =>
      var (waiting, still) := Expire(s.waiting, s.timers[c].room, c);
      s.(waiting := waiting, timers := s.timers[c := if still then Evicting else Stale])
    case Evict(c) =>
      s.(timers := s.timers[c := Evicted], closed := s.closed + {c}, timedOut := s.timedOut + {c})
    case PartnerTold(c, ok) =>
      var pc := s.pcs[c];
      if ok then At(s, c, TellSelf(pc.room, pc.mate)).(told := s.told + [pc.mate]) else CloseBoth(s, c, pc.room, pc.mate)
    case SelfTold(c, ok) =>
      var pc := s.pcs[c];
      if ok then At(s, c, Piping(pc.room, pc.mate)).(told := s.told + [c]) else CloseBoth(s, c, pc.room, pc.mate)
    case HangUp(c) => CloseBoth(s, c, s.pcs[c].room, s.pcs[c].mate)
  }

  const START := State(map[], map[], map[], {}, map[], map[], [], {}, [])

  /** t can be reached from s by these steps, in any interleaving of goroutines
      and timers. */
  ghost predicate Runs(s: State, steps: seq<Step>, t: State)
    decreases |steps|
  {
    if steps == [] then s == t
    else Enabled(s, steps[0]) && Runs(Apply(s, steps[0]), steps[1..], t)
  }

  // --------------------------------------------------------------- the fates

  ghost predicate Handshaking(s: State, c: Id) {
    c in s.pcs && (s.pcs[c].Hello? || s.pcs[c].Naming? || s.pcs[c].Locking?)
  }

  ghost predicate WaitsIn(s: State, c: Id, room: Room) {
    room in s.waiting && s.waiting[room] == c
  }

  ghost predicate Waits(s: State, c: Id) {
    exists room :: WaitsIn(s, c, room)
  }

  ghost predicate Paired(s: State, c: Id) {
    c in s.mates
  }

  ghost predicate TurnedAway(s: State, c: Id) {
    || (c in s.pcs && s.pcs[c].Rejected?)
    || (c in s.timers && (s.timers[c].Evicting? || s.timers[c].Evicted?))
  }

  // -------------------------------------------------------------- invariants

  /** The first to arrive in a room; its goroutine is done or nearly so. */
  ghost predicate First(s: State, p: Id, room: Room) {
    p in s.pcs && (s.pcs[p] == Arming(room) || s.pcs[p] == Parked(room))
  }

  /** What a goroutine's position says about its connection. */
  ghost predicate ConnInv(s: State, c: Id)
    requires c in s.pcs
  {
    match s.pcs[c]
    case Hello => c !in s.timers && c !in s.mates && c !in s.closed
    case Naming => c !in s.timers && c !in s.mates && c !in s.closed
    case Rejected => c !in s.timers && c !in s.mates
    case Locking(room) => c !in s.timers && c !in s.mates && c !in s.closed && c in s.named && s.named[c] == room
    case Arming(room) =>
      && c !in s.timers && c in s.named && s.named[c] == room
      && (WaitsIn(s, c, room) <==> c !in s.mates)
    case Parked(room) =>
      && c in s.timers && c in s.named && s.named[c] == room
      && (match s.timers[c]
          case Armed(r) => r == room && (WaitsIn(s, c, room) <==> c !in s.mates)
          case Stale => c in s.mates
          case _ => c !in s.mates && !WaitsIn(s, c, room))
    case TellPartner(room, p) => SecondOf(s, c, p, room)
    case TellSelf(room, p) => SecondOf(s, c, p, room)
    case Piping(room, p) => SecondOf(s, c, p, room)
    case Done(room, p) => SecondOf(s, c, p, room)
  }

  ghost predicate SecondOf(s: State, c: Id, p: Id, room: Room) {
    && c !in s.timers && c in s.named && s.named[c] == room
    && c in s.mates && s.mates[c] == p
    && First(s, p, room)
  }

  /** Whoever is in the map is parked in that room and still open. */
  ghost predicate WaitInv(s: State, r: Room)
    requires r in s.waiting
  {
    var c := s.waiting[r];
    && First(s, c, r)
    && c !in s.mates && c !in s.closed
  }

  ghost predicate MateInv(s: State, c: Id)
    requires c in s.mates
  {
    var d := s.mates[c];
    && c != d && c in s.pcs
    && d in s.mates && s.mates[d] == c
    && c in s.named && d in s.named && s.named[c] == s.named[d]
  }

  ghost predicate PairInv(s: State) {
    && (forall i | 0 <= i < |s.pairs| ::
          s.pairs[i].0 in s.mates && s.mates[s.pairs[i].0] == s.pairs[i].1
          && s.pairs[i].1 in s.mates && s.mates[s.pairs[i].1] == s.pairs[i].0)
    && (forall i, j | 0 <= i < j < |s.pairs| ::
          {s.pairs[i].0, s.pairs[i].1} !! {s.pairs[j].0, s.pairs[j].1})
  }

  ghost predicate TimerInv(s: State) {
    && (forall c | c in s.timers :: c in s.pcs && s.pcs[c].Parked?)
    && (forall c | c in s.timedOut :: c in s.timers && s.timers[c].Evicted?)
    && (forall c | c in s.timers && s.timers[c].Evicted? :: c in s.timedOut)
    && (forall c | c in s.closed :: c in s.pcs)
  }

  ghost predicate Inv(s: State) {
    && (forall c {:trigger ConnInv(s, c)} | c in s.pcs :: ConnInv(s, c))
    && (forall r {:trigger WaitInv(s, r)} | r in s.waiting :: WaitInv(s, r))
    && (forall c {:trigger MateInv(s, c)} | c in s.mates :: MateInv(s, c))
    && PairInv(s) && TimerInv(s)
  }

  lemma FirstStays(s: State, a: Step, p: Id, room: Room)
    requires Enabled(s, a) && First(s, p, room)
    ensures First(Apply(s, a), p, room)
  {}

  lemma MatesKnown(s: State)
    requires Inv(s)
    ensures forall c | c in s.mates :: c in s.pcs
  {
    hide ConnInv, WaitInv, PairInv, TimerInv;
    forall c | c in s.mates ensures c in s.pcs { assert MateInv(s, c); }
  }

  lemma ConnKept(s: State, a: Step, c: Id)
    requires Inv(s) && Enabled(s, a) && c in Apply(s, a).pcs
    ensures ConnInv(Apply(s, a), c)
  {
    hide PairInv;
    MatesKnown(s);
    if c in s.pcs && c == a.c {
      OwnConnKept(s, a);
    } else if c in s.pcs {
      OtherConnKept(s, a, c);
    }
  }

  lemma OwnConnKept(s: State, a: Step)
    requires Inv(s) && Enabled(s, a) && a.c in s.pcs
    ensures ConnInv(Apply(s, a), a.c)
  {
    hide PairInv, TimerInv;
    assert ConnInv(s, a.c);
    if a.Lock? && s.pcs[a.c].room in s.waiting {
      assert WaitInv(s, s.pcs[a.c].room);
    } else {
      forall p, r | First(s, p, r) ensures First(Apply(s, a), p, r) { FirstStays(s, a, p, r); }
    }
  }

  /** Nothing that a connection's invariant reads has changed. */
  ghost predicate Unmoved(s: State, t: State, c: Id)
    requires c in s.pcs
  {
    && c in t.pcs && t.pcs[c] == s.pcs[c]
    && (c in t.timers <==> c in s.timers) && (c in s.timers ==> t.timers[c] == s.timers[c])
    && (c in t.mates <==> c in s.mates) && (c in s.mates ==> t.mates[c] == s.mates[c])
    && (c in s.named ==> c in t.named && t.named[c] == s.named[c])
    && (c !in s.mates ==> c in s.closed || c !in t.closed)
    && (forall r :: WaitsIn(t, c, r) <==> WaitsIn(s, c, r))
    && (forall p, r | First(s, p, r) :: First(t, p, r))
  }

  lemma UnmovedKept(s: State, t: State, c: Id)
    requires c in s.pcs && ConnInv(s, c) && Unmoved(s, t, c)
    ensures ConnInv(t, c)
  {
  }

  lemma OthersUnmoved(s: State, a: Step, c: Id)
    requires Enabled(s, a) && c in s.pcs && c != a.c
    requires a.Lock? ==> !WaitsIn(s, c, s.pcs[a.c].room)
    requires c !in s.mates ==> c in s.closed || c !in Apply(s, a).closed
    ensures Unmoved(s, Apply(s, a), c)
  {
    var t := Apply(s, a);
    forall p, r | First(s, p, r) ensures First(t, p, r) { FirstStays(s, a, p, r); }
    forall r ensures WaitsIn(t, c, r) <==> WaitsIn(s, c, r) { WaitsOn(s, a, c, r); }
  }

  lemma WaitsOn(s: State, a: Step, c: Id, r: Room)
    requires Enabled(s, a) && c in s.pcs && c != a.c
    requires a.Lock? ==> !WaitsIn(s, c, s.pcs[a.c].room)
    ensures WaitsIn(Apply(s, a), c, r) <==> WaitsIn(s, c, r)
  {}

  /** A step of another connection either leaves this one alone or pairs with it. */
  lemma OtherConnKept(s: State, a: Step, c: Id)
    requires Inv(s) && Enabled(s, a) && c in s.pcs && c != a.c
    ensures ConnInv(Apply(s, a), c)
  {
    assert ConnInv(s, c);
    if a.Lock? && WaitsIn(s, c, s.pcs[a.c].room) {
      ConnTaken(s, a, c);
    } else {
      hide ConnInv, Apply;
      ClosesMates(s, a);
      OthersUnmoved(s, a, c);
      UnmovedKept(s, Apply(s, a), c);
    }
  }

  lemma ConnTaken(s: State, a: Step, c: Id)
    requires Inv(s) && Enabled(s, a) && c in s.pcs && c != a.c
    requires a.Lock? && WaitsIn(s, c, s.pcs[a.c].room)
    ensures ConnInv(Apply(s, a), c)
  {
    hide PairInv, TimerInv;
    assert ConnInv(s, c) && WaitInv(s, s.pcs[a.c].room);
  }

  /** A step closes its own connection, and its partner's. */
  lemma ClosesMates(s: State, a: Step)
    requires Inv(s) && Enabled(s, a)
    ensures forall c | c in Apply(s, a).closed && c !in s.closed :: c == a.c || c in s.mates
  {
    hide PairInv, TimerInv, WaitInv;
    if a.c in s.pcs { assert ConnInv(s, a.c); }
    if a.c in s.mates { assert MateInv(s, a.c); }
  }

  lemma WaitKept(s: State, a: Step, r: Room)
    requires Inv(s) && Enabled(s, a) && r in Apply(s, a).waiting
    ensures WaitInv(Apply(s, a), r)
  {
    hide PairInv, TimerInv;
    if r in s.waiting {
      var w := s.waiting[r];
      assert WaitInv(s, r) && ConnInv(s, w);
      FirstStays(s, a, w, r);
      if a.c != w {
        ClosesMates(s, a);
        hide ConnInv, MateInv, First;
        if a.Lock? && s.pcs[a.c].room in s.waiting { assert WaitInv(s, s.pcs[a.c].room); }
      }
    } else {
      assert ConnInv(s, a.c);
    }
  }

  lemma MateKept(s: State, a: Step, c: Id)
    requires Inv(s) && Enabled(s, a) && c in Apply(s, a).mates
    ensures MateInv(Apply(s, a), c)
  {
    hide PairInv, TimerInv;
    if c in s.mates { assert MateInv(s, c); }
    if a.Name? { assert ConnInv(s, a.c); }
    if a.Lock? {
      assert ConnInv(s, a.c);
      if s.pcs[a.c].room in s.waiting { NewMates(s, a); }
    }
  }

  lemma NewMates(s: State, a: Step)
    requires Inv(s) && Enabled(s, a) && a.Lock? && s.pcs[a.c].room in s.waiting
    ensures var r := s.pcs[a.c].room;
            var p := s.waiting[r];
            && p != a.c && p in s.pcs && p !in s.mates && a.c !in s.mates
            && p in s.named && a.c in s.named && s.named[p] == r == s.named[a.c]
  {
    hide PairInv, TimerInv;
    var r := s.pcs[a.c].room;
    assert ConnInv(s, a.c) && WaitInv(s, r) && ConnInv(s, s.waiting[r]);
  }

  lemma PairKept(s: State, a: Step)
    requires Inv(s) && Enabled(s, a)
    ensures PairInv(Apply(s, a))
  {
    if a.c in s.pcs { assert ConnInv(s, a.c); }
    if a.Lock? && s.pcs[a.c].room in s.waiting { assert WaitInv(s, s.pcs[a.c].room); }
  }

  lemma TimerKept(s: State, a: Step)
    requires Inv(s) && Enabled(s, a)
    ensures TimerInv(Apply(s, a))
  {
    hide PairInv;
    if a.c in s.pcs { assert ConnInv(s, a.c); }
    if a.c in s.mates { assert MateInv(s, a.c) && MateInv(s, s.mates[a.c]); }
  }

  lemma InvKept(s: State, a: Step)
    requires Inv(s) && Enabled(s, a)
    ensures Inv(Apply(s, a))
  {
    hide ConnInv, WaitInv, MateInv, PairInv, TimerInv;
    var t := Apply(s, a);
    forall c | c in t.pcs ensures ConnInv(t, c) { ConnKept(s, a, c); }
    forall r | r in t.waiting ensures WaitInv(t, r) { WaitKept(s, a, r); }
    forall c | c in t.mates ensures MateInv(t, c) { MateKept(s, a, c); }
    PairKept(s, a);
    TimerKept(s, a);
  }

  lemma {:induction false} InvHolds(s: State, steps: seq<Step>, t: State)
    requires Inv(s) && Runs(s, steps, t)
    ensures Inv(t)
    decreases |steps|
  {
    hide Inv;
    if steps != [] {
      InvKept(s, steps[0]);
      InvHolds(Apply(s, steps[0]), steps[1..], t);
    }
  }

  // ---------------------------------------------------------------- theorems

  ghost predicate Reachable(t: State) {
    exists steps :: Runs(START, steps, t)
  }

  lemma ReachableInv(t: State)
    requires Reachable(t)
    ensures Inv(t)
  {
    var steps :| Runs(START, steps, t);
    assert Inv(START);
    InvHolds(START, steps, t);
  }

  function Count(b: bool): nat {
    if b then 1 else 0
  }

  /** In every reachable state, whatever the interleaving, a connection is in
      exactly one of: handshaking, waiting, paired, turned away; and it waits in
      at most one room. */
  lemma OneFate(t: State, c: Id)
    requires Reachable(t) && c in t.pcs
    ensures Count(Handshaking(t, c)) + Count(Waits(t, c)) + Count(Paired(t, c)) + Count(TurnedAway(t, c)) == 1
    ensures forall r, r' | WaitsIn(t, c, r) && WaitsIn(t, c, r') :: r == r'
  {
    ReachableInv(t);
    hide PairInv, MateInv, TimerInv;
    assert ConnInv(t, c);
    forall r | WaitsIn(t, c, r) ensures First(t, c, r) && c !in t.mates { assert WaitInv(t, r); }
    if t.pcs[c].Arming? || t.pcs[c].Parked? {
      assert WaitsIn(t, c, t.pcs[c].room) || !Waits(t, c);
    }
  }

  /** Pairing joins two distinct connections that named the same room, is
      symmetric, and no connection is ever in two pairs. */
  lemma PairingIsSound(t: State)
    requires Reachable(t)
    ensures forall c | c in t.mates ::
      && t.mates[c] != c && t.mates[c] in t.mates && t.mates[t.mates[c]] == c
      && c in t.named && t.mates[c] in t.named && t.named[c] == t.named[t.mates[c]]
    ensures forall i | 0 <= i < |t.pairs| ::
      && t.pairs[i].0 in t.mates && t.mates[t.pairs[i].0] == t.pairs[i].1
      && t.pairs[i].1 in t.mates && t.mates[t.pairs[i].1] == t.pairs[i].0
    ensures forall i, j | 0 <= i < j < |t.pairs| ::
      {t.pairs[i].0, t.pairs[i].1} !! {t.pairs[j].0, t.pairs[j].1}
  {
    ReachableInv(t);
    hide ConnInv, WaitInv, TimerInv;
    forall c | c in t.mates ensures MateInv(t, c) { assert MateInv(t, c); }
  }

  /** Once paired, always paired, and with the same connection. */
  lemma {:induction false} PairedForGood(s: State, steps: seq<Step>, t: State, c: Id)
    requires Inv(s) && Runs(s, steps, t) && c in s.mates
    ensures c in t.mates && t.mates[c] == s.mates[c]
    decreases |steps|
  {
    hide Inv;
    if steps != [] {
      var a := steps[0];
      if a.Lock? && s.pcs[a.c].room in s.waiting { NewMates(s, a); }
      InvKept(s, a);
      PairedForGood(Apply(s, a), steps[1..], t, c);
    }
  }

  /** A fired timer touches nobody but its own connection, and that one only if
      it is still waiting in the room the timer was set for. The timer of a
      connection that found a partner changes nothing, however often the room
      has been reused since. */
  lemma TimerIsPrivate(s: State, c: Id)
    requires Reachable(s) && Enabled(s, Fire(c))
    ensures var t := Apply(s, Fire(c));
            && t.pcs == s.pcs && t.mates == s.mates && t.closed == s.closed
            && (forall d, r | d != c :: WaitsIn(t, d, r) <==> WaitsIn(s, d, r))
            && (c in s.mates ==> t == s.(timers := s.timers[c := Stale]))
            && (c !in s.mates ==> WaitsIn(s, c, s.timers[c].room) && !Waits(t, c) && t.timers[c] == Evicting)
  {
    ReachableInv(s);
    hide PairInv, MateInv;
    assert ConnInv(s, c);
    var t := Apply(s, Fire(c));
    forall r | WaitsIn(s, c, r) ensures r == s.timers[c].room && c !in s.mates { assert WaitInv(s, r); }
    forall d, r | d != c ensures WaitsIn(t, d, r) <==> WaitsIn(s, d, r) {}
    forall r ensures WaitsIn(t, c, r) ==> WaitsIn(s, c, r) && r != s.timers[c].room {}
  }

  /** No timer ever closes a connection that is paired, at any later time. */
  lemma PairedNeverTimedOut(s: State, steps: seq<Step>, t: State, c: Id)
    requires Reachable(s) && Runs(s, steps, t) && c in s.mates
    ensures c !in t.timedOut
  {
    ReachableInv(s);
    PairedForGood(s, steps, t, c);
    InvHolds(s, steps, t);
    assert MateInv(t, c) && ConnInv(t, c);
  }

  /** The goroutine of g is inside Send or Receive on connection c. */
  ghost predicate Using(s: State, g: Id, c: Id) {
    && g in s.pcs
    && match s.pcs[g]
       case Hello => c == g
       case Naming => c == g
       case TellPartner(_, p) => c == p
       case TellSelf(_, _) => c == g
       case _ => false
  }

  /** Although the waiter's "paired" is sent by its partner's goroutine, no two
      goroutines are ever inside Send or Receive on one connection, so its header
      scratch is never overwritten in the middle of a message. */
  lemma HeaderIsExclusive(t: State, c: Id, g: Id, g': Id)
    requires Reachable(t) && Using(t, g, c) && Using(t, g', c)
    ensures g == g'
  {
    ReachableInv(t);
    hide PairInv, WaitInv, TimerInv;
    assert ConnInv(t, g) && ConnInv(t, g');
    assert g in t.mates ==> MateInv(t, g);
    assert g' in t.mates ==> MateInv(t, g');
  }

  /** No two peers that named the same room are left apart: once both are past
      the lock and neither was turned away, at most one of them is unpaired. */
  lemma NobodyStranded(t: State, c: Id, d: Id)
    requires Reachable(t) && c in t.pcs && d in t.pcs && c != d
    requires c in t.named && d in t.named && t.named[c] == t.named[d]
    requires !Handshaking(t, c) && !Handshaking(t, d) && !TurnedAway(t, c) && !TurnedAway(t, d)
    ensures Paired(t, c) || Paired(t, d)
  {
    ReachableInv(t);
    hide PairInv, MateInv, WaitInv, TimerInv;
    assert ConnInv(t, c) && ConnInv(t, d);
  }

  // ------------------------------------------------- who is closed, who is told

  /** Its relaying is over, or never came about. */
  ghost predicate Over(s: State, c: Id) {
    c in s.pcs && s.pcs[c].Done?
  }

  /** Rejected, evicted, or one of a pair that is over. */
  ghost predicate Ended(s: State, c: Id) {
    || (c in s.pcs && s.pcs[c].Rejected?)
    || (c in s.timers && s.timers[c].Evicted?)
    || Over(s, c) || (c in s.mates && Over(s, s.mates[c]))
  }

  ghost predicate EndedInv(s: State) {
    forall c {:trigger c in s.closed} {:trigger Ended(s, c)} :: c in s.closed <==> Ended(s, c)
  }

  lemma EndedKept(s: State, a: Step, c: Id)
    requires Inv(s) && EndedInv(s) && Enabled(s, a)
    ensures c in Apply(s, a).closed <==> Ended(Apply(s, a), c)
  {
    hide Inv, ConnInv, MateInv, EndedInv, Apply;
    InvAt(s, a.c);
    InvAt(s, c);
    assert c in s.closed <==> Ended(s, c) by { EndedAt(s, c); }
    if a.Lock? {
      if s.pcs[a.c].room in s.waiting { NewMates(s, a); TakenIsFirst(s, a); }
      LockEnds(s, a, c);
    } else if a.PartnerTold? || a.SelfTold? || a.HangUp? {
      PairEnds(s, a, c);
    } else {
      OthersEnd(s, a, c);
    }
  }

  lemma LockEnds(s: State, a: Step, c: Id)
    requires Enabled(s, a) && a.Lock? && (c in s.closed <==> Ended(s, c))
    requires s.pcs[a.c].room in s.waiting ==> First(s, s.waiting[s.pcs[a.c].room], s.pcs[a.c].room)
    requires s.pcs[a.c].room in s.waiting ==> a.c !in s.mates && s.waiting[s.pcs[a.c].room] !in s.mates
    ensures c in Apply(s, a).closed <==> Ended(Apply(s, a), c)
  {}

  lemma PairEnds(s: State, a: Step, c: Id)
    requires Enabled(s, a) && (a.PartnerTold? || a.SelfTold? || a.HangUp?) && (c in s.closed <==> Ended(s, c))
    requires ConnInv(s, a.c) && (a.c in s.mates ==> MateInv(s, a.c)) && (c in s.mates ==> MateInv(s, c))
    ensures c in Apply(s, a).closed <==> Ended(Apply(s, a), c)
  {
    hide Ended, CloseBoth, At;
    var pc := s.pcs[a.c];
    if a.HangUp? || !a.ok {
      ClosingEnds(s, a.c, pc.room, pc.mate, c);
    } else {
      TellingEnds(s, a.c, if a.PartnerTold? then TellSelf(pc.room, pc.mate) else Piping(pc.room, pc.mate), Apply(s, a).told, c);
    }
  }

  lemma ClosingEnds(s: State, g: Id, room: Room, p: Id, c: Id)
    requires g in s.pcs && SecondOf(s, g, p, room) && MateInv(s, g) && (c in s.mates ==> MateInv(s, c))
    requires !s.pcs[g].Rejected? && (c in s.closed <==> Ended(s, c))
    ensures c in CloseBoth(s, g, room, p).closed <==> Ended(CloseBoth(s, g, room, p), c)
  {}

  lemma TellingEnds(s: State, g: Id, pc: Pc, told: seq<Id>, c: Id)
    requires g in s.pcs && !s.pcs[g].Rejected? && !s.pcs[g].Done? && !pc.Rejected? && !pc.Done?
    requires c in s.closed <==> Ended(s, c)
    ensures var t := At(s, g, pc).(told := told); c in t.closed <==> Ended(t, c)
  {}

  lemma OthersEnd(s: State, a: Step, c: Id)
    requires Enabled(s, a) && !a.Lock? && !a.PartnerTold? && !a.SelfTold? && !a.HangUp?
    requires c in s.closed <==> Ended(s, c)
    requires (a.c in s.pcs ==> ConnInv(s, a.c)) && (c in s.mates ==> MateInv(s, c))
    requires a.c in s.timers ==> a.c in s.pcs && s.pcs[a.c].Parked?
    ensures c in Apply(s, a).closed <==> Ended(Apply(s, a), c)
  {}

  lemma EndedAt(s: State, c: Id)
    requires EndedInv(s)
    ensures c in s.closed <==> Ended(s, c)
  {}

  lemma InvAt(s: State, c: Id)
    requires Inv(s)
    ensures c in s.pcs ==> ConnInv(s, c)
    ensures c in s.mates ==> MateInv(s, c)
    ensures c in s.timers ==> c in s.pcs && s.pcs[c].Parked?
  {
    hide ConnInv, MateInv, WaitInv, PairInv;
  }

  lemma TakenIsFirst(s: State, a: Step)
    requires Inv(s) && Enabled(s, a) && a.Lock? && s.pcs[a.c].room in s.waiting
    ensures First(s, s.waiting[s.pcs[a.c].room], s.pcs[a.c].room)
  {
    hide ConnInv, MateInv, PairInv, TimerInv;
    assert WaitInv(s, s.pcs[a.c].room);
  }

  lemma {:induction false} EndedHolds(s: State, steps: seq<Step>, t: State)
    requires Inv(s) && EndedInv(s) && Runs(s, steps, t)
    ensures EndedInv(t)
    decreases |steps|
  {
    hide Inv, Ended;
    if steps != [] {
      var u := Apply(s, steps[0]);
      InvKept(s, steps[0]);
      forall c ensures c in u.closed <==> Ended(u, c) { EndedKept(s, steps[0], c); }
      EndedHolds(u, steps[1..], t);
    }
  }

  /** In every reachable state the connections closed are exactly those rejected,
      those evicted, and both of each pair that is over: none is left open, and none is
      closed for another reason. */
  lemma ClosedExactlyWhen(t: State, c: Id)
    requires Reachable(t)
    ensures c in t.closed <==> Ended(t, c)
    ensures c in t.pcs && t.pcs[c].Done? ==> c in t.closed && t.pcs[c].mate in t.closed
  {
    var steps :| Runs(START, steps, t);
    EndedHolds(START, steps, t);
    ReachableInv(t);
    EndedAt(t, c);
    if c in t.pcs && t.pcs[c].Done? {
      InvAt(t, c);
      EndedAt(t, t.pcs[c].mate);
      assert MateInv(t, c);
    }
  }

  ghost predicate Before(ids: seq<Id>, c: Id, d: Id) {
    exists i, j :: 0 <= i < j < |ids| && ids[i] == c && ids[j] == d
  }

  /** What the goroutine of the second of a pair has told the two. */
  ghost predicate ToldBy(s: State, c: Id)
    requires c in s.pcs
  {
    match s.pcs[c]
    case TellPartner(_, p) => p !in s.told && c !in s.told
    case TellSelf(_, p) => p in s.told && c !in s.told
    case Piping(_, p) => Before(s.told, p, c)
    case Done(_, p) => c in s.told ==> Before(s.told, p, c)
    case _ => true
  }

  /** The second of a pair, whose goroutine serves both. */
  ghost predicate Serves(s: State, c: Id, p: Id) {
    && c in s.pcs
    && (s.pcs[c].TellPartner? || s.pcs[c].TellSelf? || s.pcs[c].Piping? || s.pcs[c].Done?)
    && s.pcs[c].mate == p
  }

  ghost predicate ToldInv(s: State) {
    && (forall k | 0 <= k < |s.pairs| :: Serves(s, s.pairs[k].1, s.pairs[k].0))
    && (forall i, j | 0 <= i < j < |s.told| :: s.told[i] != s.told[j])
    && (forall c | c in s.told :: c in s.mates)
    && (forall c {:trigger ToldBy(s, c)} | c in s.pcs :: ToldBy(s, c))
  }

  lemma BeforeMore(ids: seq<Id>, e: Id, c: Id, d: Id)
    ensures Before(ids, c, d) ==> Before(ids + [e], c, d)
    ensures c in ids && e == d ==> Before(ids + [e], c, d)
  {
    if i, j :| 0 <= i < j < |ids| && ids[i] == c && ids[j] == d {
      assert (ids + [e])[i] == c && (ids + [e])[j] == d;
    }
    if i :| 0 <= i < |ids| && ids[i] == c {
      assert (ids + [e])[i] == c && (ids + [e])[|ids|] == e;
    }
  }

  /** Who is sent "paired" in a step. */
  function Telling(s: State, a: Step): seq<Id>
    requires Enabled(s, a)
  {
    if a.PartnerTold? && a.ok then [s.pcs[a.c].mate] else if a.SelfTold? && a.ok then [a.c] else []
  }

  lemma Tells(s: State, a: Step)
    requires Enabled(s, a)
    ensures Apply(s, a).told == s.told + Telling(s, a)
    ensures forall c | c in s.mates :: c in Apply(s, a).mates
  {}

  lemma NewlyTold(s: State, a: Step)
    requires Inv(s) && Enabled(s, a) && Telling(s, a) != []
    requires a.c in s.pcs && ToldBy(s, a.c)
    ensures Telling(s, a)[0] !in s.told && Telling(s, a)[0] in s.mates
  {
    hide WaitInv, PairInv, TimerInv;
    InvAt(s, a.c);
  }

  lemma OwnTold(s: State, a: Step)
    requires Inv(s) && ToldInv(s) && Enabled(s, a) && a.c in Apply(s, a).pcs
    ensures ToldBy(Apply(s, a), a.c)
  {
    hide Inv, WaitInv, PairInv, TimerInv;
    InvAt(s, a.c);
    if a.c in s.pcs { assert ToldBy(s, a.c); }
    if a.PartnerTold? || a.SelfTold? { BeforeMore(s.told, a.c, s.pcs[a.c].mate, a.c); }
    if a.Lock? && s.pcs[a.c].room in s.waiting { NewMates(s, a); }
  }

  lemma OthersTold(s: State, a: Step, c: Id)
    requires Inv(s) && Enabled(s, a) && c in s.pcs && c != a.c && ToldBy(s, c)
    ensures ToldBy(Apply(s, a), c)
  {
    hide Inv, WaitInv, PairInv, TimerInv, Before;
    InvAt(s, a.c);
    InvAt(s, c);
    Tells(s, a);
    if Telling(s, a) != [] && (s.pcs[c].Piping? || s.pcs[c].Done?) {
      BeforeMore(s.told, Telling(s, a)[0], s.pcs[c].mate, c);
    }
  }

  lemma ToldKept(s: State, a: Step)
    requires Inv(s) && ToldInv(s) && Enabled(s, a)
    ensures ToldInv(Apply(s, a))
  {
    hide Inv, ToldBy, Apply, Serves;
    var t := Apply(s, a);
    Tells(s, a);
    if Telling(s, a) != [] {
      assert ToldBy(s, a.c);
      NewlyTold(s, a);
    }
    forall k | 0 <= k < |t.pairs| ensures Serves(t, t.pairs[k].1, t.pairs[k].0) { PairServed(s, a, k); }
    forall c | c in t.pcs ensures ToldBy(t, c) {
      if c == a.c { OwnTold(s, a); } else { OnlyItsOwn(s, a, c); OthersTold(s, a, c); }
    }
  }

  lemma PairServed(s: State, a: Step, k: nat)
    requires Enabled(s, a) && k < |Apply(s, a).pairs|
    requires k < |s.pairs| ==> Serves(s, s.pairs[k].1, s.pairs[k].0)
    ensures var t := Apply(s, a); Serves(t, t.pairs[k].1, t.pairs[k].0)
  {
    hide Apply, Serves;
    PairsGrow(s, a);
    if k < |s.pairs| { ServesOn(s, a, s.pairs[k].1, s.pairs[k].0); }
  }

  lemma PairsGrow(s: State, a: Step)
    requires Enabled(s, a)
    ensures var t := Apply(s, a);
            || t.pairs == s.pairs
            || exists p :: t.pairs == s.pairs + [(p, a.c)] && Serves(t, a.c, p)
  {
    if a.Lock? && s.pcs[a.c].room in s.waiting {
      var p := s.waiting[s.pcs[a.c].room];
      assert Apply(s, a).pairs == s.pairs + [(p, a.c)] && Serves(Apply(s, a), a.c, p);
    }
  }

  lemma ServesOn(s: State, a: Step, c: Id, p: Id)
    requires Enabled(s, a) && Serves(s, c, p)
    ensures Serves(Apply(s, a), c, p)
  {
    if c != a.c {
      hide Apply;
      OnlyItsOwn(s, a, c);
    }
  }

  lemma OnlyItsOwn(s: State, a: Step, c: Id)
    requires Enabled(s, a) && c != a.c
    ensures c in Apply(s, a).pcs <==> c in s.pcs
    ensures c in s.pcs ==> Apply(s, a).pcs[c] == s.pcs[c]
  {
    hide Apply;
    OwnMove(s, a);
    assert c in Apply(s, a).pcs - {a.c} <==> c in s.pcs - {a.c};
    assert c in s.pcs ==> (Apply(s, a).pcs - {a.c})[c] == (s.pcs - {a.c})[c];
  }

  lemma OwnMove(s: State, a: Step)
    requires Enabled(s, a)
    ensures Apply(s, a).pcs - {a.c} == s.pcs - {a.c}
  {
    hide Rendezvous, Expire;
    if a.PartnerTold? || a.SelfTold? || a.HangUp? {
      assert Apply(s, a).pcs == s.pcs[a.c := Apply(s, a).pcs[a.c]];
    } else if a.Fire? || a.Evict? {
      assert Apply(s, a).pcs == s.pcs;
    } else {
      assert Apply(s, a).pcs == s.pcs[a.c := Apply(s, a).pcs[a.c]];
    }
  }

  lemma {:induction false} ToldHolds(s: State, steps: seq<Step>, t: State)
    requires Inv(s) && ToldInv(s) && Runs(s, steps, t)
    ensures ToldInv(t)
    decreases |steps|
  {
    hide Inv, ToldInv;
    if steps != [] {
      InvKept(s, steps[0]);
      ToldKept(s, steps[0]);
      ToldHolds(Apply(s, steps[0]), steps[1..], t);
    }
  }

  /** "paired" is sent to paired connections only, at most once to each, to the one that
      waited first; and bytes are copied only between two that were both told. */
  lemma ToldInOrder(t: State)
    requires Reachable(t)
    ensures forall i, j | 0 <= i < j < |t.told| :: t.told[i] != t.told[j]
    ensures forall c | c in t.told :: Paired(t, c)
    ensures forall c | c in t.pcs && t.pcs[c].Piping? :: Before(t.told, t.pcs[c].mate, c)
    ensures forall k | 0 <= k < |t.pairs| && t.pairs[k].1 in t.told :: Before(t.told, t.pairs[k].0, t.pairs[k].1)
  {
    hide Before;
    var steps :| Runs(START, steps, t);
    ToldHolds(START, steps, t);
    forall c | c in t.pcs && t.pcs[c].Piping? ensures Before(t.told, t.pcs[c].mate, c) { assert ToldBy(t, c); }
    forall k | 0 <= k < |t.pairs| && t.pairs[k].1 in t.told ensures Before(t.told, t.pairs[k].0, t.pairs[k].1) {
      assert Serves(t, t.pairs[k].1, t.pairs[k].0) && ToldBy(t, t.pairs[k].1);
    }
  }

  // ------------------------------------------------------------ being served

  lemma {:induction false} RunsThen(s: State, steps: seq<Step>, t: State, a: Step)
    requires Runs(s, steps, t) && Enabled(t, a)
    ensures Runs(s, steps + [a], Apply(t, a))
    decreases |steps|
  {
    hide Enabled, Apply;
    if steps == [] {
      assert [a][1..] == [];
    } else {
      assert (steps + [a])[1..] == steps[1..] + [a];
      RunsThen(Apply(s, steps[0]), steps[1..], t, a);
    }
  }

  /** A newcomer that names a room gets to the lock whatever the others do. */
  lemma Arrives(s: State, c: Id, room: Room) returns (steps: seq<Step>, t: State)
    requires c !in s.pcs && room != ""
    ensures Runs(s, steps, t) && |steps| == 3 && forall i | 0 <= i < |steps| :: steps[i].c == c
    ensures t == s.(pcs := s.pcs[c := Locking(room)], named := s.named[c := room])
  {
    hide Runs;
    var u := Apply(s, Accept(c));
    StepsNone(s);
    RunsThen(s, [], s, Accept(c));
    RunsThen(s, [] + [Accept(c)], u, Greet(c));
    RunsThen(s, [] + [Accept(c)] + [Greet(c)], Apply(u, Greet(c)), Name(c, room));
    steps, t := [] + [Accept(c)] + [Greet(c)] + [Name(c, room)], Apply(Apply(u, Greet(c)), Name(c, room));
    assert s.pcs[c := Hello][c := Naming][c := Locking(room)] == s.pcs[c := Locking(room)];
  }

  lemma StepsNone(s: State)
    ensures Runs(s, [], s)
  {}

  /** If someone waits in its room, the newcomer can be paired with it, both be told,
      and their bytes be copied, by steps of its own goroutine alone. */
  lemma NewcomerIsPaired(s: State, c: Id, room: Room) returns (steps: seq<Step>, t: State)
    requires c !in s.pcs && room != "" && room in s.waiting
    ensures Runs(s, steps, t) && forall i | 0 <= i < |steps| :: steps[i].c == c
    ensures var p := s.waiting[room];
            && t.pcs == s.pcs[c := Piping(room, p)] && t.told == s.told + [p, c] && t.closed == s.closed
            && t.mates == s.mates[c := p][p := c] && t.waiting == s.waiting - {room}
  {
    hide Runs;
    var u;
    steps, u := Arrives(s, c, room);
    RunsThen(s, steps, u, Lock(c));
    var v := Apply(u, Lock(c));
    RunsThen(s, steps + [Lock(c)], v, PartnerTold(c, true));
    var w := Apply(v, PartnerTold(c, true));
    RunsThen(s, steps + [Lock(c)] + [PartnerTold(c, true)], w, SelfTold(c, true));
    steps, t := steps + [Lock(c)] + [PartnerTold(c, true)] + [SelfTold(c, true)], Apply(w, SelfTold(c, true));
  }

  /** If nobody does, it can wait there, and be evicted if nobody comes. */
  lemma NewcomerWaits(s: State, c: Id, room: Room) returns (steps: seq<Step>, t: State, later: seq<Step>, u: State)
    requires c !in s.pcs && room != "" && room !in s.waiting
    ensures Runs(s, steps, t) && (forall i | 0 <= i < |steps| :: steps[i].c == c)
    ensures WaitsIn(t, c, room) && c in t.timers && t.timers[c] == Armed(room) && t.closed == s.closed
    ensures Runs(t, later, u) && u.closed == s.closed + {c} && u.waiting == s.waiting && u.timedOut == s.timedOut + {c}
  {
    hide Runs;
    var v;
    steps, v := Arrives(s, c, room);
    RunsThen(s, steps, v, Lock(c));
    RunsThen(s, steps + [Lock(c)], Apply(v, Lock(c)), Arm(c));
    steps, t := steps + [Lock(c)] + [Arm(c)], Apply(Apply(v, Lock(c)), Arm(c));
    StepsNone(t);
    RunsThen(t, [], t, Fire(c));
    RunsThen(t, [] + [Fire(c)], Apply(t, Fire(c)), Evict(c));
    later, u := [] + [Fire(c)] + [Evict(c)], Apply(Apply(t, Fire(c)), Evict(c));
    assert s.waiting[room := c] - {room} == s.waiting;
  }
}
