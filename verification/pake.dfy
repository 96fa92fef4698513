/** SPAKE2 over an abstract group: both roles reach the same point and the same
    transcript, and the transcript determines what went into it. */
module Pake {
  import opened Bytes

  // ------------------------------------------------------------------ groups

  datatype Group<!P(!new)> = Group(zero: P, add: (P, P) -> P, base: P, order: nat)

  /** Scalar multiplication, as repeated addition. */
  function Mul<P(!new)>(g: Group<P>, k: nat, p: P): P {
    if k == 0 then g.zero else (g.add)(p, Mul(g, k - 1, p))
  }

  /** A commutative group in which `order` times every point is the identity. */
  ghost predicate Laws<P(!new)>(g: Group<P>) {
    && g.order > 0
    && (forall p :: (g.add)(g.zero, p) == p)
    && (forall p, q :: (g.add)(p, q) == (g.add)(q, p))
    && (forall p, q, r :: (g.add)((g.add)(p, q), r) == (g.add)(p, (g.add)(q, r)))
    && (forall p :: Mul(g, g.order, p) == g.zero)
  }

  lemma Associates<P(!new)>(g: Group<P>, p: P, q: P, r: P)
    requires Laws(g)
    ensures (g.add)((g.add)(p, q), r) == (g.add)(p, (g.add)(q, r))
  {}

  lemma Identity<P(!new)>(g: Group<P>, p: P)
    requires Laws(g)
    ensures (g.add)(g.zero, p) == p && (g.add)(p, g.zero) == p
    ensures Mul(g, g.order, p) == g.zero
  {}

  lemma {:induction false} MulAdd<P(!new)>(g: Group<P>, a: nat, b: nat, p: P)
    requires Laws(g)
    ensures Mul(g, a + b, p) == (g.add)(Mul(g, a, p), Mul(g, b, p))
  {
    hide Laws;
    if a == 0 {
      Identity(g, Mul(g, b, p));
    } else {
      MulAdd(g, a - 1, b, p);
      assert Mul(g, a + b, p) == (g.add)(p, Mul(g, a - 1 + b, p));
      Associates(g, p, Mul(g, a - 1, p), Mul(g, b, p));
    }
  }

  /** No times, once, and, by MulAdd, every further time once more. */
  lemma MulOnce<P(!new)>(g: Group<P>, p: P)
    requires Laws(g)
    ensures Mul(g, 0, p) == g.zero && Mul(g, 1, p) == p
  {
    assert Mul(g, 1, p) == (g.add)(p, Mul(g, 0, p));
    Identity(g, p);
  }

  lemma {:induction false} MulMul<P(!new)>(g: Group<P>, a: nat, b: nat, p: P)
    requires Laws(g)
    ensures Mul(g, a, Mul(g, b, p)) == Mul(g, a * b, p)
  {
    hide Laws;
    if a > 0 {
      MulMul(g, a - 1, b, p);
      Distribute(a, b);
      MulAdd(g, b, (a - 1) * b, p);
    }
  }

  lemma Distribute(a: nat, b: nat)
    requires a > 0
    ensures a * b == b + (a - 1) * b && (a - 1) * b >= 0
  {}

  // ---------------------------------------------------------------- protocol

  datatype Role = RoleA | RoleB

  function OtherRole(r: Role): Role {
    if r == RoleA then RoleB else RoleA
  }

  /** The group, the two mask points, the point encoding and the hash. */
  datatype Suite<!P(!new)> = Suite(
    g: Group<P>, m: P, n: P,
    marshal: P -> bytes,
    unmarshal: bytes -> Option<P>,
    hash: bytes -> bytes)

  ghost predicate Sound<P(!new)>(s: Suite<P>) {
    && Laws(s.g)
    && (forall p :: |(s.marshal)(p)| == 33 && (s.unmarshal)((s.marshal)(p)) == Some(p))
    && (forall b :: (s.unmarshal)(b).Some? ==> |b| == 33)
  }

  function BlindPoint<P(!new)>(s: Suite<P>, role: Role): P {
    if role == RoleA then s.m else s.n
  }

  /** What is hashed of a password: never the beginning of a session's transcript. */
  function PasswordInput(password: bytes): bytes {
    Text("croc-go pw|") + password
  }

  function PasswordScalar<P(!new)>(s: Suite<P>, password: bytes): (w: nat)
    requires s.g.order > 0
    ensures w < s.g.order
  {
    FromBE((s.hash)(PasswordInput(password))) % s.g.order
  }

  /** T = x*G + w*(M or N). */
  function Share<P(!new)>(s: Suite<P>, role: Role, password: bytes, x: nat): P
    requires s.g.order > 0
  {
    (s.g.add)(Mul(s.g, x, s.g.base), Mul(s.g, PasswordScalar(s, password), BlindPoint(s, role)))
  }

  /** The point a party reaches from its peer's share. */
  function Secret<P(!new)>(s: Suite<P>, role: Role, password: bytes, x: nat, peer: P): P
    requires s.g.order > 0
  {
    var negW := s.g.order - PasswordScalar(s, password);
    Mul(s.g, x, (s.g.add)(peer, Mul(s.g, negW, BlindPoint(s, OtherRole(role)))))
  }

  function Transcript<P(!new)>(s: Suite<P>, first: bytes, second: bytes, k: P, w: nat): bytes {
    Text("croc-go session key") + first + second + (s.marshal)(k) + MinimalBE(w)
  }

  /** The session key a party derives from its own share and its peer's message. */
  function KeyOf<P(!new)>(s: Suite<P>, role: Role, password: bytes, x: nat, peer: bytes): Option<bytes>
    requires s.g.order > 0
  {
    match (s.unmarshal)(peer)
    case None => None
    case Some(t) =>
      var own := (s.marshal)(Share(s, role, password, x));
      var (first, second) := if role == RoleB then (peer, own) else (own, peer);
      Some((s.hash)(Transcript(s, first, second, Secret(s, role, password, x, t), PasswordScalar(s, password))))
  }

  /** One party's state across the exchange. */
  class Pake<P(!new)> {
    const s: Suite<P>
    const role: Role
    const password: bytes
    const scalar: nat
    const msg: P
    var key: Option<bytes>

    constructor (s: Suite<P>, role: Role, password: bytes, x: nat)
      requires s.g.order > 0
      ensures this.s == s && this.role == role && this.password == password && scalar == x
      ensures msg == Share(s, role, password, x) && key == None
      ensures var w, mask := PasswordScalar(s, password), if role == RoleA then s.m else s.n;
              msg == (s.g.add)(Mul(s.g, x, s.g.base), Mul(s.g, w, mask))
    {
      this.s, this.role, this.password, scalar := s, role, password, x;
      var gx := Mul(s.g, x, s.g.base);
      var wx := Mul(s.g, PasswordScalar(s, password), BlindPoint(s, role));
      msg := (s.g.add)(gx, wx);
      key := None;
    }

    function Bytes(): bytes {
      (s.marshal)(msg)
    }

    /** Fails, and derives nothing, exactly when the peer's message is no point. */
    method Update(peer: bytes) returns (ok: bool)
      requires s.g.order > 0 && msg == Share(s, role, password, scalar)
      modifies this`key
      ensures ok <==> (s.unmarshal)(peer).Some?
      ensures key == if ok then KeyOf(s, role, password, scalar, peer) else old(key)
      ensures ok ==> key.Some?
    {
      var point := (s.unmarshal)(peer);
      if point.None? { return false; }
      var w := PasswordScalar(s, password);
      var mask := Mul(s.g, s.g.order - w, BlindPoint(s, OtherRole(role)));
      var k := Mul(s.g, scalar, (s.g.add)(point.value, mask));
      var first, second := Bytes(), peer;
      if role == RoleB { first, second := peer, Bytes(); }
      var h := Text("croc-go session key");
      h := h + first;
      h := h + second;
      h := h + (s.marshal)(k);
      h := h + MinimalBE(w);
      key := Some((s.hash)(h));
      return true;
    }
  }

  // ---------------------------------------------------------------- theorems

  /** Stripping the mask leaves the unblinded share, even when w is zero and the
      stripping multiplies by the full group order. */
  lemma MaskCancels<P(!new)>(s: Suite<P>, role: Role, password: bytes, x: nat)
    requires s.g.order > 0 && Laws(s.g)
    ensures var negW := s.g.order - PasswordScalar(s, password);
            (s.g.add)(Share(s, role, password, x), Mul(s.g, negW, BlindPoint(s, role))) == Mul(s.g, x, s.g.base)
  {
    hide Laws, Mul, PasswordScalar;
    var w, b, xG := PasswordScalar(s, password), BlindPoint(s, role), Mul(s.g, x, s.g.base);
    MulAdd(s.g, w, s.g.order - w, b);
    Associates(s.g, xG, Mul(s.g, w, b), Mul(s.g, s.g.order - w, b));
    Identity(s.g, b);
    Identity(s.g, xG);
  }

  /** Both roles reach xyG. */
  lemma SamePoint<P(!new)>(s: Suite<P>, password: bytes, x: nat, y: nat)
    requires s.g.order > 0 && Laws(s.g)
    ensures Secret(s, RoleA, password, x, Share(s, RoleB, password, y)) == Mul(s.g, x * y, s.g.base)
    ensures Secret(s, RoleB, password, y, Share(s, RoleA, password, x)) == Mul(s.g, x * y, s.g.base)
  {
    hide Laws, Mul, PasswordScalar, Share;
    MaskCancels(s, RoleB, password, y);
    MaskCancels(s, RoleA, password, x);
    MulMul(s.g, x, y, s.g.base);
    MulMul(s.g, y, x, s.g.base);
    assert x * y == y * x;
  }

  /** Two parties with one password and opposite roles derive the same key. */
  lemma Agreement<P(!new)>(s: Suite<P>, password: bytes, x: nat, y: nat)
    requires Sound(s)
    ensures var a := (s.marshal)(Share(s, RoleA, password, x));
            var b := (s.marshal)(Share(s, RoleB, password, y));
            && KeyOf(s, RoleA, password, x, b).Some?
            && KeyOf(s, RoleA, password, x, b) == KeyOf(s, RoleB, password, y, a)
  {
    hide Laws, Sound, Mul, PasswordScalar, Share, Secret, Transcript, KeyOf;
    SoundParts(s);
    SamePoint(s, password, x, y);
    KeyFromShare(s, RoleA, password, x, Share(s, RoleB, password, y));
    KeyFromShare(s, RoleB, password, y, Share(s, RoleA, password, x));
  }

  lemma SoundParts<P(!new)>(s: Suite<P>)
    requires Sound(s)
    ensures s.g.order > 0 && Laws(s.g)
  {}

  /** The key a party derives from a share its peer encoded. */
  lemma KeyFromShare<P(!new)>(s: Suite<P>, role: Role, password: bytes, x: nat, t: P)
    requires Sound(s)
    ensures var own, peer := (s.marshal)(Share(s, role, password, x)), (s.marshal)(t);
            var (first, second) := if role == RoleB then (peer, own) else (own, peer);
            KeyOf(s, role, password, x, peer)
              == Some((s.hash)(Transcript(s, first, second, Secret(s, role, password, x, t), PasswordScalar(s, password))))
  {
    hide Laws, Mul, PasswordScalar, Share, Secret, Transcript;
  }

  /** A password is hashed whole: two of them never go into the hash as one. */
  lemma PasswordInputInjective(p: bytes, q: bytes)
    ensures PasswordInput(p) == PasswordInput(q) ==> p == q
  {
    var front := Text("croc-go pw|");
    assert PasswordInput(p)[|front|..] == p && PasswordInput(q)[|front|..] == q;
  }

  /** Nor is it ever hashed as a transcript is. */
  lemma DomainsDiffer<P(!new)>(s: Suite<P>, password: bytes, first: bytes, second: bytes, k: P, w: nat)
    ensures PasswordInput(password) != Transcript(s, first, second, k, w)
  {
    var a, b := Text("croc-go pw|"), Text("croc-go session key");
    assert PasswordInput(password)[8] == a[8] == 'p' as int;
    assert Transcript(s, first, second, k, w)[8] == b[8] == 's' as int;
  }

  lemma Cut(a: bytes, b: bytes, a': bytes, b': bytes)
    requires a + b == a' + b' && |a| == |a'|
    ensures a == a' && b == b'
  {
    assert (a + b)[..|a|] == a && (a + b)[|a|..] == b;
    assert (a' + b')[..|a|] == a' && (a' + b')[|a|..] == b';
  }

  /** The hash input determines both shares, the point and the password scalar. */
  lemma TranscriptInjective<P(!new)>(
      s: Suite<P>, a: bytes, b: bytes, k: P, w: nat, a': bytes, b': bytes, k': P, w': nat)
    requires Sound(s) && |a| == |a'| == 33 && |b| == |b'| == 33
    requires Transcript(s, a, b, k, w) == Transcript(s, a', b', k', w')
    ensures a == a' && b == b' && k == k' && w == w'
  {
    var l, mk, mk' := Text("croc-go session key"), (s.marshal)(k), (s.marshal)(k');
    Cut(l + a + b + mk, MinimalBE(w), l + a' + b' + mk', MinimalBE(w'));
    Cut(l + a + b, mk, l + a' + b', mk');
    Cut(l + a, b, l + a', b');
    Cut(l, a, l, a');
    FromMinimalBE(w);
    FromMinimalBE(w');
    assert (s.unmarshal)(mk) == Some(k) && (s.unmarshal)(mk') == Some(k');
  }

  lemma Decodes<P(!new)>(s: Suite<P>, p: P)
    requires Sound(s)
    ensures (s.unmarshal)((s.marshal)(p)) == Some(p)
  {}

  ghost predicate Injective(hash: bytes -> bytes) {
    forall u, v | hash(u) == hash(v) :: u == v
  }

  /** Under a collision-free hash, parties whose password scalars differ never
      hold the same key, whatever shares they exchanged or points they reached. */
  lemma WrongPasswordWrongKey<P(!new)>(
      s: Suite<P>, password: bytes, x: nat, toA: bytes, password': bytes, y: nat, toB: bytes)
    requires Sound(s) && Injective(s.hash)
    requires PasswordScalar(s, password) != PasswordScalar(s, password')
    requires (s.unmarshal)(toA).Some? && (s.unmarshal)(toB).Some?
    ensures KeyOf(s, RoleA, password, x, toA) != KeyOf(s, RoleB, password', y, toB)
  {
    var own := (s.marshal)(Share(s, RoleA, password, x));
    var own' := (s.marshal)(Share(s, RoleB, password', y));
    var k := Secret(s, RoleA, password, x, (s.unmarshal)(toA).value);
    var k' := Secret(s, RoleB, password', y, (s.unmarshal)(toB).value);
    var w, w' := PasswordScalar(s, password), PasswordScalar(s, password');
    if Transcript(s, own, toA, k, w) == Transcript(s, toB, own', k', w') {
      TranscriptInjective(s, own, toA, k, w, toB, own', k', w');
    }
  }

  // ------------------------------------------------- the assumptions can hold

  /** The two-element group, with points padded to 33 bytes and no hashing. */
  function Toy(): Suite<bool> {
    Suite(Group(false, (p: bool, q: bool) => p != q, true, 2), true, false,
          (p: bool) => seq(33, i => if p then 1 else 0),
          (b: bytes) => if |b| == 33 then Some(b[0] == 1) else None,
          (b: bytes) => b)
  }

  /** A hash that collides nowhere and gives one input away by its last byte. */
  function Marks(b: bytes): bytes -> bytes {
    (u: bytes) => u + [if u == b then 1 else 0]
  }

  /** Any two different passwords get different scalars under some collision-free
      hash: nothing of a password is left out before it is hashed. */
  lemma PasswordsTold(p: bytes, q: bytes)
    requires p != q
    ensures var s := Toy().(hash := Marks(PasswordInput(p)));
            Sound(s) && Injective(s.hash) && PasswordScalar(s, p) != PasswordScalar(s, q)
  {
    hide Sound, Laws, Text;
    var s := Toy().(hash := Marks(PasswordInput(p)));
    SameGroup(s);
    PasswordInputInjective(p, q);
    LastBit(PasswordInput(p), 1);
    LastBit(PasswordInput(q), 0);
    forall u, v | s.hash(u) == s.hash(v) ensures u == v {
      assert s.hash(u)[..|s.hash(u)| - 1] == u && s.hash(v)[..|s.hash(v)| - 1] == v;
    }
  }

  lemma LastBit(u: bytes, d: byte)
    requires d < 2
    ensures FromBE(u + [d]) % 2 == d
  {
    assert (u + [d])[..|u|] == u;
  }

  lemma SameGroup(s: Suite<bool>)
    requires s == Toy().(hash := s.hash)
    ensures Sound(s)
  {
    ToyIsSound();
  }

  lemma ToyIsSound()
    ensures Sound(Toy()) && Injective(Toy().hash)
  {
    var g := Toy().g;
    forall p ensures Mul(g, g.order, p) == g.zero {
      assert Mul(g, 1, p) == (g.add)(p, Mul(g, 0, p)) == p;
      assert Mul(g, 2, p) == (g.add)(p, Mul(g, 1, p));
    }
  }
}
