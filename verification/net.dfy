/** The two ends of a byte transport under everything else: bytes that arrive,
    in whatever pieces, and bytes that are written out. */
module Net {
  import opened Bytes

  /** Why a read or write failed. `Fault` is any transport failure that is not
      a clean end of stream. */
  datatype Err = Eof | UnexpectedEof | Fault | WriteFault | Protocol

  type Result = Option<Err>

  type ReadErr = e: Err | e != WriteFault witness Eof

  /** The error of a read that had to be full and was not: an end of stream after
      some bytes is unexpected. */
  function CutOff(got: nat, end: Err): Err {
    if got > 0 && end == Eof then UnexpectedEof else end
  }

  /** Replacing p[lo..] by chunk, in the middle of a buffer. */
  function Splice(p: bytes, lo: nat, chunk: bytes): (r: bytes)
    requires lo + |chunk| <= |p|
    ensures |r| == |p| && r[lo..lo + |chunk|] == chunk
  {
    p[..lo] + chunk + p[lo + |chunk|..]
  }

  lemma SpliceNone(p: bytes, lo: nat)
    requires lo <= |p|
    ensures Splice(p, lo, []) == p
  {}

  /** A second piece right behind a first is one longer piece. */
  lemma SpliceMore(p: bytes, lo: nat, all: bytes, m: nat, k: nat)
    requires m + k <= |all| && lo + m + k <= |p|
    ensures all[m..][..k] == all[m..m + k] && all[m..][k..] == all[m + k..]
    ensures Splice(Splice(p, lo, all[..m]), lo + m, all[m..m + k]) == Splice(p, lo, all[..m + k])
  {
    assert all[..m] + all[m..m + k] == all[..m + k];
  }

  function Min(a: nat, b: nat): nat {
    if a < b then a else b
  }

  /** The receiving half of a connection: the bytes still to arrive, then an
      end condition that persists. A read may return fewer bytes than asked
      for, and may return the last bytes together with the end condition. */
  class Source {
    var pending: bytes
    var end: ReadErr

    constructor (arriving: bytes, end: ReadErr)
      ensures pending == arriving && this.end == end
    {
      pending, this.end := arriving, end;
    }

    method Read(p: array<byte>, lo: nat, hi: nat) returns (n: nat, err: Result)
      requires lo <= hi <= p.Length
      modifies this`pending, p
      ensures n <= hi - lo && n <= |old(pending)|
      ensures p[..] == Splice(old(p[..]), lo, old(pending)[..n])
      ensures pending == old(pending)[n..]
      ensures err.Some? ==> err.value == end && pending == []
      ensures lo < hi && err.None? ==> n > 0
    {
      var most := Min(hi - lo, |pending|);
      n := *;
      if !(0 < n <= most) { n := most; }
      ghost var before := p[..];
      forall i | 0 <= i < n { p[lo + i] := pending[i]; }
      assert p[..] == Splice(before, lo, pending[..n]);
      pending := pending[n..];
      var early: bool := *;
      err := if pending == [] && (n == 0 || early) then Some(end) else None;
    }

    /** io.ReadFull: read until the range is full, looping over short reads. */
    method ReadFull(p: array<byte>, lo: nat, hi: nat) returns (n: nat, err: Result)
      requires lo <= hi <= p.Length
      modifies this`pending, p
      ensures n == Min(hi - lo, |old(pending)|)
      ensures p[..] == Splice(old(p[..]), lo, old(pending)[..n])
      ensures pending == old(pending)[n..]
      ensures err.None? <==> n == hi - lo
      ensures err.Some? ==> pending == [] && err.value == CutOff(n, end) != WriteFault
    {
      hide Splice;
      n, err := 0, None;
      ghost var all, before := pending, p[..];
      assert p[..] == Splice(before, lo, all[..0]) by { SpliceNone(before, lo); }
      while n < hi - lo && err.None?
        invariant n <= hi - lo && n <= |all|
        invariant pending == all[n..]
        invariant p[..] == Splice(before, lo, all[..n])
        invariant err.Some? ==> pending == [] && err.value == end
        decreases hi - lo - n, err.None?
      {
        ghost var m := n;
        var k, e := Read(p, lo + n, hi);
        n, err := n + k, e;
        SpliceMore(before, lo, all, m, k);
      }
      if n == hi - lo {
        err := None;
      } else if n > 0 && err == Some(Eof) {
        err := Some(UnexpectedEof);
      }
    }

    /** Closed on this side: reading fails from now on, after what was already
        buffered. */
    method Close()
      modifies this
      ensures pending <= old(pending) && end == Fault
    {
      var buffered: nat := *;
      pending, end := pending[..Min(buffered, |pending|)], Fault;
    }
  }

  /** The sending half of a connection. A write either hands over everything or
      fails after some prefix of it. No write deadline is ever set, so what has
      failed once or was closed accepts nothing more. */
  class Sink {
    var sent: bytes
    /** Closed on this side. */
    var shut: bool
    /** A write has failed, for reasons of the transport's own. */
    var broken: bool

    constructor ()
      ensures sent == [] && Open() && !broken
    {
      sent, shut, broken := [], false, false;
    }

    predicate Open()
      reads this
    {
      !shut && !broken
    }

    method Write(b: bytes) returns (n: nat, err: Result)
      modifies this`sent, this`broken
      ensures n <= |b| && sent == old(sent) + b[..n]
      ensures err.None? ==> n == |b| && Open()
      ensures err.Some? ==> err.value == WriteFault && !Open()
      ensures !old(Open()) ==> err.Some? && n == 0 && broken == old(broken)
    {
      n := |b|;
      var fails: bool := *;
      if !Open() {
        n := 0;
      } else if fails {
        n := *;
        n := Min(n, |b|);
        broken := true;
      }
      err := if Open() then None else Some(WriteFault);
      sent := sent + b[..n];
    }

    method Close()
      modifies this`shut
      ensures shut
    {
      shut := true;
    }
  }
}
