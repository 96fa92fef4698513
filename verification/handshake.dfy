/** The first part of both programs: the key agreement, the salt, and each side's
    proof that it holds the same key. */
module Handshake {
  import opened Bytes
  import opened Session
  import opened Receiver
  import Pake

  /** What the sender sends before its offer, and the receiver before its answer. */
  function HelloA(share: bytes, salt: bytes, key: Key): seq<Packet> {
    [Plain(share), Plain(salt), Sealed(key, SENDER_READY)]
  }

  function HelloB(share: bytes, key: Key): seq<Packet> {
    [Plain(share), Sealed(key, RECEIVER_READY)]
  }

  ghost predicate FirstFit(ps: seq<Packet>, n: nat) {
    n <= |ps| && forall k | 0 <= k < n :: Fits(ps[k])
  }

  /** What the sender's handshake comes to: n packets sent, its salt and its proof
      only after a share it could use; `met` when the peer proved the same key. */
  ghost predicate MetAsA(inbox: seq<Packet>, share: bytes, salt: bytes, keyFrom: bytes -> Option<Key>,
                         n: nat, key: Key, met: bool)
  {
    && FirstFit(HelloA(share, salt, key), n)
    && (n >= 2 ==> inbox != [] && inbox[0].Plain? && keyFrom(inbox[0].data) == Some(key))
    && (met ==> n == 3 && |inbox| >= 2 && Open(key, inbox[1]) == Some(RECEIVER_READY))
  }

  /** And the receiver's, whose key depends on the salt as well. */
  ghost predicate MetAsB(inbox: seq<Packet>, share: bytes, keyFrom: (bytes, bytes) -> Option<Key>,
                         n: nat, key: Key, met: bool)
  {
    && FirstFit(HelloB(share, key), n)
    && (n >= 2 ==>
          && |inbox| >= 2 && inbox[0].Plain? && inbox[1].Plain?
          && keyFrom(inbox[0].data, inbox[1].data) == Some(key))
    && (met ==> n == 2 && |inbox| >= 3 && Open(key, inbox[2]) == Some(SENDER_READY))
  }

  /** If nothing failed by itself, the sender's handshake went as far as the peer's
      share and proof let it. */
  ghost predicate DoneAsA(inbox: seq<Packet>, share: bytes, salt: bytes, keyFrom: bytes -> Option<Key>,
                          n: nat, key: Key, met: bool)
  {
    && (n >= 1 <==> Fits(Plain(share)))
    && (n >= 2 <==> n >= 1 && inbox != [] && inbox[0].Plain? && keyFrom(inbox[0].data).Some? && Fits(Plain(salt)))
    && (n >= 2 ==> n == 3 && keyFrom(inbox[0].data) == Some(key))
    && (met <==> n == 3 && |inbox| >= 2 && Open(key, inbox[1]) == Some(RECEIVER_READY))
  }

  /** And the receiver's, as far as the peer's share, salt and proof let it. */
  ghost predicate DoneAsB(inbox: seq<Packet>, share: bytes, keyFrom: (bytes, bytes) -> Option<Key>,
                          n: nat, key: Key, met: bool)
  {
    && (n >= 1 <==> Fits(Plain(share)))
    && (n >= 2 <==>
          && n >= 1 && |inbox| >= 2 && inbox[0].Plain? && inbox[1].Plain?
          && keyFrom(inbox[0].data, inbox[1].data).Some?)
    && (n >= 2 ==> n == 2 && keyFrom(inbox[0].data, inbox[1].data) == Some(key))
    && (met <==> n == 2 && |inbox| >= 3 && Open(key, inbox[2]) == Some(SENDER_READY))
  }

  /** The cipher's key from the session key, if there is one, and the salt. */
  function Derived(derive: (bytes, bytes) -> Key, session: Option<bytes>, salt: bytes): Option<Key> {
    match session
    case None => None
    case Some(k) => Some(derive(k, salt))
  }

  /** The key each program gets from what it is sent, as its handshake computes it. */
  function KeyFromA<P(!new)>(s: Pake.Suite<P>, code: bytes, x: nat, salt: bytes, derive: (bytes, bytes) -> Key): bytes -> Option<Key>
    requires s.g.order > 0
  {
    peer => Derived(derive, Pake.KeyOf(s, Pake.RoleA, code, x, peer), salt)
  }

  function KeyFromB<P(!new)>(s: Pake.Suite<P>, code: bytes, y: nat, derive: (bytes, bytes) -> Key): (bytes, bytes) -> Option<Key>
    requires s.g.order > 0
  {
    (peer, salt) => Derived(derive, Pake.KeyOf(s, Pake.RoleB, code, y, peer), salt)
  }

  /** Each side proves that it holds the key, and checks that the other does. */
  method ConfirmKeys(link: Link, key: Key, role: Pake.Role) returns (ok: bool)
    modifies link
    ensures link.broken || link.outbox != old(link.outbox)
    ensures old(link.broken) ==> link.broken
    ensures !link.broken ==> (
      var theirs := if role == Pake.RoleA then RECEIVER_READY else SENDER_READY;
      ok <==> old(link.inbox) != [] && Open(key, old(link.inbox)[0]) == Some(theirs))
    ensures var ours, theirs := if role == Pake.RoleA then SENDER_READY else RECEIVER_READY,
                                if role == Pake.RoleA then RECEIVER_READY else SENDER_READY;
            && (link.outbox == old(link.outbox) || link.outbox == old(link.outbox) + [Sealed(key, ours)])
            && (ok ==>
                  && link.outbox == old(link.outbox) + [Sealed(key, ours)]
                  && old(link.inbox) != [] && Open(key, old(link.inbox)[0]) == Some(theirs)
                  && link.inbox == old(link.inbox)[1..])
  {
    var ours, theirs := SENDER_READY, RECEIVER_READY;
    if role == Pake.RoleB { ours, theirs := RECEIVER_READY, SENDER_READY; }
    ProofsFit(key);
    ok := link.SendSealed(key, ours);
    if !ok { return false; }
    var got := link.ReceiveSealed(key);
    ok := got == Some(theirs);
  }

  lemma ProofsFit(key: Key)
    ensures Fits(Sealed(key, SENDER_READY)) && Fits(Sealed(key, RECEIVER_READY))
  {}

  /** Share out, peer's share in, and the session key the two give. `random` tells
      whether there is randomness to begin with. */
  method SwapShares<P(!new)>(link: Link, s: Pake.Suite<P>, role: Pake.Role, code: bytes, x: nat, random: bool)
    returns (session: Option<bytes>, ghost n: nat)
    requires s.g.order > 0
    modifies link
    ensures old(link.broken) ==> link.broken
    ensures var share, inbox := (s.marshal)(Pake.Share(s, role, code, x)), old(link.inbox);
            && n <= (if random then 1 else 0)
            && (n == 1 ==> Fits(Plain(share)))
            && link.outbox == old(link.outbox) + [Plain(share)][..n]
            && (!random ==> session.None? && link.broken == old(link.broken))
            && (session.Some? ==>
                  && n == 1 && inbox != [] && inbox[0].Plain? && link.inbox == inbox[1..]
                  && session == Pake.KeyOf(s, role, code, x, inbox[0].data))
            && (random && !link.broken ==>
                  && (n == 1 <==> Fits(Plain(share)))
                  && (session.Some? <==> n == 1 && inbox != [] && inbox[0].Plain?
                                         && Pake.KeyOf(s, role, code, x, inbox[0].data).Some?))
  {
    hide Pake.Share, Fits;
    session, n := None, 0;
    var p := new Pake.Pake(s, role, code, x);
    if !random { return; }
    var told := link.Send(Plain(p.Bytes()));
    if link.outbox != old(link.outbox) { n := 1; }
    if !told { return; }
    var peer := link.ReceivePlain();
    if peer.None? { return; }
    var good := p.Update(peer.value);
    if good { session := p.key; }
  }

  /** Shares swapped, salt out or in, then the confirmation. Both sides send their
      share before they read. */
  method Handshake<P(!new)>(link: Link, s: Pake.Suite<P>, role: Pake.Role, code: bytes, x: nat, ownSalt: bytes,
                            random: bool, derive: (bytes, bytes) -> Key) returns (ok: bool, key: Key, ghost n: nat)
    requires s.g.order > 0
    modifies link
    ensures old(link.broken) ==> link.broken
    ensures !random ==> n == 0 && !ok && link.broken == old(link.broken)
    ensures random && !link.broken ==> (
      var share := (s.marshal)(Pake.Share(s, role, code, x));
      if role == Pake.RoleA then DoneAsA(old(link.inbox), share, ownSalt, KeyFromA(s, code, x, ownSalt, derive), n, key, ok)
      else DoneAsB(old(link.inbox), share, KeyFromB(s, code, x, derive), n, key, ok))
    ensures var share := (s.marshal)(Pake.Share(s, role, code, x));
            if role == Pake.RoleA then
              && MetAsA(old(link.inbox), share, ownSalt, KeyFromA(s, code, x, ownSalt, derive), n, key, ok)
              && link.outbox == old(link.outbox) + HelloA(share, ownSalt, key)[..n]
              && (ok ==> link.inbox == old(link.inbox)[2..])
            else
              && MetAsB(old(link.inbox), share, KeyFromB(s, code, x, derive), n, key, ok)
              && link.outbox == old(link.outbox) + HelloB(share, key)[..n]
              && (ok ==> link.inbox == old(link.inbox)[3..])
  {
    hide Pake.KeyOf, Pake.Share, Fits;
    ok, key, n := false, [], 0;
    var session;
    session, n := SwapShares(link, s, role, code, x, random);
    if session.None? { return; }
    var salt := ownSalt;
    if role == Pake.RoleA {
      key := derive(session.value, salt);
      ghost var before := link.outbox;
      var told := link.Send(Plain(salt));
      if link.outbox != before { n := 2; }
      if !told { return; }
    } else {
      var given := link.ReceivePlain();
      if given.None? { return; }
      salt := given.value;
      key := derive(session.value, salt);
    }
    ProofsFit(key);
    ghost var before := link.outbox;
    ok := ConfirmKeys(link, key, role);
    if link.outbox != before { n := n + 1; }
  }
}
