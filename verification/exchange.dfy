/** The key agreement and the transfer together: what a right and a wrong code
    lead to. */
module Exchange {
  import opened Bytes
  import opened Session
  import Pake
  import opened Handshake
  import opened Receiver
  import opened Protocol
  import opened Programs
  import opened Faultless

  /** The exchange as the two programs set it up from their codes: shares on the
      wire, and keys derived from the session keys under the sender's salt. */
  ghost predicate FromCodes<P(!new)>(
      c: Setup, s: Pake.Suite<P>, codeS: bytes, x: nat, codeR: bytes, y: nat, derive: (bytes, bytes) -> Key)
    requires s.g.order > 0
  {
    && c.shareS == (s.marshal)(Pake.Share(s, Pake.RoleA, codeS, x))
    && c.shareR == (s.marshal)(Pake.Share(s, Pake.RoleB, codeR, y))
    && var a, b := Pake.KeyOf(s, Pake.RoleA, codeS, x, c.shareR), Pake.KeyOf(s, Pake.RoleB, codeR, y, c.shareS);
    && a.Some? && b.Some?
    && c.keyS == derive(a.value, c.salt)
    && c.keyR(c.salt) == derive(b.value, c.salt)
  }

  /** The same code gives both programs the same key. */
  lemma SameCode<P(!new)>(c: Setup, s: Pake.Suite<P>, code: bytes, x: nat, y: nat, derive: (bytes, bytes) -> Key)
    requires Pake.Sound(s) && FromCodes(c, s, code, x, code, y, derive)
    ensures c.keyR(c.salt) == c.keyS
  {
    hide Pake.KeyOf, Pake.Sound, Pake.Share;
    Pake.Agreement(s, code, x, y);
  }

  /** The scalars do not confuse the two codes. */
  ghost predicate Told<P(!new)>(s: Pake.Suite<P>, codeS: bytes, codeR: bytes)
    requires s.g.order > 0
  {
    codeS != codeR ==> Pake.PasswordScalar(s, codeS) != Pake.PasswordScalar(s, codeR)
  }

  /** The keys agree exactly when the codes are the same. */
  lemma OnlySameCode<P(!new)>(
      c: Setup, s: Pake.Suite<P>, codeS: bytes, x: nat, codeR: bytes, y: nat, derive: (bytes, bytes) -> Key)
    requires Pake.Sound(s) && FromCodes(c, s, codeS, x, codeR, y, derive)
    requires Pake.Injective(s.hash) && forall k, k' | derive(k, c.salt) == derive(k', c.salt) :: k == k'
    requires Told(s, codeS, codeR)
    ensures c.keyR(c.salt) == c.keyS <==> codeS == codeR
  {
    hide Pake.KeyOf, Pake.Share, Pake.PasswordScalar;
    if codeS == codeR {
      SameCode(c, s, codeS, x, y, derive);
    } else {
      Pake.Decodes(s, Pake.Share(s, Pake.RoleB, codeR, y));
      Pake.Decodes(s, Pake.Share(s, Pake.RoleA, codeS, x));
      Pake.WrongPasswordWrongKey(s, codeS, x, c.shareR, codeR, y, c.shareS);
    }
  }

  /** A mistyped code: in no run is the offer sent, a file or directory touched or success
      reported by either side, as long as the hashes involved do not collide. */
  lemma WrongCode<P(!new)>(
      c: Setup, s: Pake.Suite<P>, codeS: bytes, x: nat, codeR: bytes, y: nat, derive: (bytes, bytes) -> Key, t: State)
    requires Pake.Sound(s) && FromCodes(c, s, codeS, x, codeR, y, derive)
    requires Pake.Injective(s.hash) && forall k, k' | derive(k, c.salt) == derive(k', c.salt) :: k == k'
    requires codeS != codeR && Told(s, codeS, codeR)
    requires Proper(c) && Reachable(c, t)
    ensures t.fs == c.base && t.dirs == c.dirs && |t.sent| <= 3 && t.s != SDone(true) && t.r != RDone(true)
  {
    hide FromCodes, Told, Reachable, Proper;
    OnlySameCode(c, s, codeS, x, codeR, y, derive);
    DifferentKeys(c, t);
  }

  /** Both programs ran with their codes, each reading a prefix of what the other
      one sent. */
  ghost predicate RanWith<P(!new)>(
      c: Setup, s: Pake.Suite<P>, codeS: bytes, x: nat, codeR: bytes, y: nat, derive: (bytes, bytes) -> Key,
      held: seq<bytes>, a: SenderRun, b: ReceiverRun)
    requires s.g.order > 0
  {
    && FromCodes(c, s, codeS, x, codeR, y, derive)
    && SenderRan(c, KeyFromA(s, codeS, x, c.salt, derive), held, a)
    && ReceiverRan(c, KeyFromB(s, codeR, y, derive), b)
    && a.inbox <= ReceiverSent(c, b) && b.inbox <= SenderSent(c, a)
  }

  lemma RanAsPrograms<P(!new)>(
      c: Setup, s: Pake.Suite<P>, codeS: bytes, x: nat, codeR: bytes, y: nat, derive: (bytes, bytes) -> Key,
      held: seq<bytes>, a: SenderRun, b: ReceiverRun)
    requires s.g.order > 0 && RanWith(c, s, codeS, x, codeR, y, derive, held, a, b)
    ensures BothRan(c, KeyFromA(s, codeS, x, c.salt, derive), KeyFromB(s, codeR, y, derive), held, a, b)
  {
    hide Pake.KeyOf, Pake.Share, SenderRan, ReceiverRan;
  }

  /** Of the programs themselves: with a mistyped code neither is ever convinced,
      neither succeeds, and nothing is touched. */
  lemma WrongCodeStops<P(!new)>(
      c: Setup, s: Pake.Suite<P>, codeS: bytes, x: nat, codeR: bytes, y: nat, derive: (bytes, bytes) -> Key,
      held: seq<bytes>, a: SenderRun, b: ReceiverRun)
    requires Pake.Sound(s) && RanWith(c, s, codeS, x, codeR, y, derive, held, a, b)
    requires Pake.Injective(s.hash) && forall k, k' | derive(k, c.salt) == derive(k', c.salt) :: k == k'
    requires codeS != codeR && Told(s, codeS, codeR)
    ensures !a.met && !b.met && !a.ok && !b.ok && a.d.Unsent?
    ensures b.contents == [] && b.now == c.base && b.dirs == c.dirs
  {
    hide Pake.KeyOf, Pake.Share, Pake.PasswordScalar, SenderRan, ReceiverRan;
    RanAsPrograms(c, s, codeS, x, codeR, y, derive, held, a, b);
    OnlySameCode(c, s, codeS, x, codeR, y, derive);
    var keyA, keyB := KeyFromA(s, codeS, x, c.salt, derive), KeyFromB(s, codeR, y, derive);
    Meeting(c, keyA, keyB, held, a, b);
    Quiet(c, keyA, keyB, held, a, b);
  }

  /** And whatever the codes: if sending returned without an error, every entry of
      the offer is published with the bytes its source held. */
  lemma SentWithCode<P(!new)>(
      c: Setup, s: Pake.Suite<P>, codeS: bytes, x: nat, codeR: bytes, y: nat, derive: (bytes, bytes) -> Key,
      held: seq<bytes>, a: SenderRun, b: ReceiverRun)
    requires s.g.order > 0 && RanWith(c, s, codeS, x, codeR, y, derive, held, a, b)
    requires Proper(c) && a.ok
    ensures b.contents == held && |held| == |c.files|
    ensures LastWins(c.base, b.now, Dests(c.opts.outDir, c.files), Nodes(held, c.files))
    ensures !c.opts.force ==> EachFresh(c.base, b.now, Dests(c.opts.outDir, c.files), Nodes(held, c.files))
  {
    hide RanWith, BothRan, Proper, LastWins, EachFresh;
    RanAsPrograms(c, s, codeS, x, codeR, y, derive, held, a, b);
    SendMeansReceived(c, KeyFromA(s, codeS, x, c.salt, derive), KeyFromB(s, codeR, y, derive), held, a, b);
  }

  /** When nothing fails by itself, both programs succeed if the codes are the same,
      what is offered is allowed and every source can be read; and in no other case
      does either. */
  lemma CodesDecide<P(!new)>(
      c: Setup, s: Pake.Suite<P>, codeS: bytes, x: nat, codeR: bytes, y: nat, derive: (bytes, bytes) -> Key,
      held: seq<bytes>, readable: seq<bool>, a: SenderRun, b: ReceiverRun)
    requires Pake.Sound(s) && FromCodes(c, s, codeS, x, codeR, y, derive)
    requires Pake.Injective(s.hash) && forall k, k' | derive(k, c.salt) == derive(k', c.salt) :: k == k'
    requires Told(s, codeS, codeR)
    requires Proper(c)
    requires Undisturbed(c, KeyFromA(s, codeS, x, c.salt, derive), KeyFromB(s, codeR, y, derive), held, readable, a, b)
    ensures a.ok <==> codeS == codeR && Allowed(c, held) && All(readable)
    ensures b.ok <==> a.ok
  {
    hide FromCodes, Told, Proper, Undisturbed, All, Allowed;
    SucceedExactlyWhen(c, KeyFromA(s, codeS, x, c.salt, derive), KeyFromB(s, codeR, y, derive), held, readable, a, b);
    OnlySameCode(c, s, codeS, x, codeR, y, derive);
  }
}
