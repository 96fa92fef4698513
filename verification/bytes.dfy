/** Bytes, byte strings and big-endian integers, as encoding/binary and
    math/big lay them out. */
module Bytes {
  type byte = x: int | 0 <= x < 256
  type bytes = seq<byte>

  datatype Option<+T> = None | Some(value: T)

  /** The bytes of an ASCII text. */
  function Text(s: string): (t: bytes)
    ensures |t| == |s| && forall i | 0 <= i < |s| && s[i] < 256 as char :: t[i] == s[i] as int
  {
    seq(|s|, i requires 0 <= i < |s| => s[i] as int % 256)
  }

  function Pow256(k: nat): (p: nat)
    ensures p >= 1
  {
    if k == 0 then 1 else 256 * Pow256(k - 1)
  }

  /** The k low-order bytes of n, most significant first. */
  function ToBE(n: nat, k: nat): (s: bytes)
    ensures |s| == k
  {
    if k == 0 then [] else ToBE(n / 256, k - 1) + [n % 256]
  }

  function FromBE(s: bytes): nat {
    if s == [] then 0 else FromBE(s[..|s| - 1]) * 256 + s[|s| - 1]
  }

  lemma {:induction false} FromToBE(n: nat, k: nat)
    requires n < Pow256(k)
    ensures FromBE(ToBE(n, k)) == n
  {
    if k > 0 {
      FromToBE(n / 256, k - 1);
      var s := ToBE(n, k);
      assert s[..k - 1] == ToBE(n / 256, k - 1);
    }
  }

  lemma {:induction false} ToFromBE(s: bytes)
    ensures ToBE(FromBE(s), |s|) == s
  {
    if s != [] {
      var n := |s| - 1;
      ToFromBE(s[..n]);
      assert FromBE(s) / 256 == FromBE(s[..n]) && FromBE(s) % 256 == s[n];
    }
  }

  lemma WidthBounds()
    ensures Pow256(2) == 0x1_0000 && Pow256(4) == 0x1_0000_0000
    ensures Pow256(8) == 0x1_0000_0000_0000_0000
  {
    assert Pow256(2) == 256 * Pow256(1);
    assert Pow256(4) == 256 * (256 * Pow256(2));
    assert Pow256(6) == 256 * (256 * Pow256(4));
    assert Pow256(8) == 256 * (256 * Pow256(6));
  }

  lemma ToBE2(n: nat)
    requires n < 0x1_0000
    ensures ToBE(n, 2) == [n / 256, n % 256]
  {
    assert ToBE(n / 256, 1) == ToBE(n / 256 / 256, 0) + [n / 256];
  }

  lemma Assoc(a: bytes, b: bytes, c: bytes)
    ensures (a + b) + c == a + (b + c)
  {}

  /** big.Int.Bytes: big-endian without leading zero bytes, empty for zero. */
  function MinimalBE(n: nat): bytes {
    if n == 0 then [] else MinimalBE(n / 256) + [n % 256]
  }

  lemma {:induction false} FromMinimalBE(n: nat)
    ensures FromBE(MinimalBE(n)) == n
  {
    if n > 0 {
      FromMinimalBE(n / 256);
      var s := MinimalBE(n);
      assert s[..|s| - 1] == MinimalBE(n / 256);
    }
  }

  /** There is no leading zero, so no shorter string stands for the number. */
  lemma {:induction false} MinimalBEIsShortest(n: nat)
    ensures MinimalBE(n) != [] ==> MinimalBE(n)[0] != 0
    ensures n > 0 ==> MinimalBE(n) != []
  {
    if n > 0 { MinimalBEIsShortest(n / 256); }
  }

  /** The low k bits of the exclusive or of a and b. */
  function XorBits(a: nat, b: nat, k: nat): (x: nat)
    ensures x < Pow2(k)
  {
    if k == 0 then 0 else (if a % 2 == b % 2 then 0 else 1) + 2 * XorBits(a / 2, b / 2, k - 1)
  }

  function Pow2(k: nat): (p: nat)
    ensures p > 0
  {
    if k == 0 then 1 else 2 * Pow2(k - 1)
  }

  function Xor(a: byte, b: byte): byte {
    assert Pow2(8) == 4 * Pow2(6);
    assert Pow2(6) == 4 * Pow2(4);
    XorBits(a, b, 8)
  }

  lemma Halves(bit: nat, half: nat)
    requires bit < 2
    ensures (bit + 2 * half) % 2 == bit && (bit + 2 * half) / 2 == half
  {}

  /** One bit and the rest. */
  lemma XorBitsStep(a: nat, b: nat, k: nat)
    requires k > 0
    ensures var x := XorBits(a, b, k);
            x % 2 == (if a % 2 == b % 2 then 0 else 1) && x / 2 == XorBits(a / 2, b / 2, k - 1)
  {
    Halves(if a % 2 == b % 2 then 0 else 1, XorBits(a / 2, b / 2, k - 1));
  }

  lemma {:induction false} XorBitsTwice(a: nat, b: nat, k: nat)
    requires a < Pow2(k)
    ensures XorBits(XorBits(a, b, k), b, k) == a
  {
    if k > 0 {
      XorBitsStep(a, b, k);
      XorBitsStep(XorBits(a, b, k), b, k);
      XorBitsTwice(a / 2, b / 2, k - 1);
    }
  }

  /** Bit i of a number, counted from the lowest. */
  function Bit(n: nat, i: nat): (b: nat)
    ensures b < 2
  {
    if i == 0 then n % 2 else Bit(n / 2, i - 1)
  }

  lemma {:induction false} XorBitsAt(a: nat, b: nat, k: nat, i: nat)
    requires i < k
    ensures Bit(XorBits(a, b, k), i) == (Bit(a, i) + Bit(b, i)) % 2
  {
    XorBitsStep(a, b, k);
    if i > 0 { XorBitsAt(a / 2, b / 2, k - 1, i - 1); }
  }

  /** Each bit is set exactly when one of the two is. */
  lemma XorIsBitwise(a: byte, b: byte, i: nat)
    requires i < 8
    ensures Bit(Xor(a, b), i) == (Bit(a, i) + Bit(b, i)) % 2
  {
    XorBitsAt(a, b, 8, i);
  }

  lemma LowHalf(n: nat, p: nat)
    requires p > 0
    ensures n % (2 * p) == 2 * ((n / 2) % p) + n % 2
  {
    var q, r := n / 2 / p, (n / 2) % p;
    assert n / 2 == p * q + r;
    assert n == 2 * (n / 2) + n % 2;
    assert n == (2 * p) * q + (2 * r + n % 2) by { assert 2 * (p * q) == (2 * p) * q; }
    Remainder(n, 2 * p, q, 2 * r + n % 2);
  }

  lemma Remainder(n: nat, m: nat, q: nat, r: nat)
    requires r < m && n == m * q + r
    ensures n % m == r
  {
    var d := q - n / m;
    assert m * q - m * (n / m) == m * d;
    assert n == m * (n / m) + n % m;
    if d != 0 {
      Multiple(m, d);
      assert false;
    }
  }

  lemma Multiple(m: int, d: int)
    requires m > 0 && d != 0
    ensures m * d >= m || m * d <= -m
  {
    if d > 0 { assert m * (d - 1) >= 0; } else { assert m * (-d - 1) >= 0; }
  }

  /** The remainder by a power of two keeps the low bits. */
  lemma {:induction false} LowBits(n: nat, k: nat, i: nat)
    requires i < k
    ensures Bit(n % Pow2(k), i) == Bit(n, i)
  {
    var low := (n / 2) % Pow2(k - 1);
    LowHalf(n, Pow2(k - 1));
    Halves(n % 2, low);
    if i > 0 { LowBits(n / 2, k - 1, i - 1); }
  }

  /** It is zero only when all of them are. */
  lemma {:induction false} NoLowBits(n: nat, k: nat)
    requires forall i | 0 <= i < k :: Bit(n, i) == 0
    ensures n % Pow2(k) == 0
  {
    if k > 0 {
      forall i | 0 <= i < k - 1 ensures Bit(n / 2, i) == 0 { assert Bit(n, i + 1) == 0; }
      NoLowBits(n / 2, k - 1);
      assert Bit(n, 0) == n % 2 == 0;
      LowHalf(n, Pow2(k - 1));
      assert n % (2 * Pow2(k - 1)) == 0;
    } else {
      assert n % 1 == 0;
    }
  }

  lemma {:induction false} ZeroBits(i: nat)
    ensures Bit(0, i) == 0
  {
    if i > 0 { ZeroBits(i - 1); }
  }

  /** Applying the same mask twice gives the byte back. */
  lemma XorTwice(a: byte, b: byte)
    ensures Xor(Xor(a, b), b) == a
  {
    assert Pow2(8) == 4 * Pow2(6);
    assert Pow2(6) == 4 * Pow2(4);
    XorBitsTwice(a, b, 8);
  }

  /** Concatenation of a list of byte strings. */
  function Concat(ps: seq<bytes>): bytes {
    if ps == [] then [] else ps[0] + Concat(ps[1..])
  }

  lemma {:induction false} ConcatAppend(ps: seq<bytes>, qs: seq<bytes>)
    ensures Concat(ps + qs) == Concat(ps) + Concat(qs)
  {
    if ps == [] {
      assert ps + qs == qs;
    } else {
      assert (ps + qs)[1..] == ps[1..] + qs;
      ConcatAppend(ps[1..], qs);
    }
  }

  lemma ConcatSnoc(ps: seq<bytes>, p: bytes)
    ensures Concat(ps + [p]) == Concat(ps) + p
  {
    ConcatAppend(ps, [p]);
    assert Concat([p]) == p + Concat([]);
  }
}
