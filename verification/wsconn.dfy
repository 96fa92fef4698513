/** The WebSocket connection: a frame decoder presented as a byte stream, and
    the frame writer. Every method is proved against the meaning of raw bytes
    given in WsFrame. */
module WsConn {
  import opened Bytes
  import opened Net
  import opened WsFrame

  /** The largest length a buffer can have. */
  const MAX_INT: nat := 0x7FFF_FFFF_FFFF_FFFF

  /** The shortest way to write a length. */
  function MinimalForm(n: nat): Form {
    if n < 126 then Short else if n <= 0xFFFF then Medium else Long
  }

  /** No other way of writing the length is shorter. */
  lemma MinimalIsShortest(f: Frame, g: Frame)
    requires f.Valid() && g.Valid() && |f.payload| == |g.payload| && f.mask.Some? == g.mask.Some?
    requires f.form == MinimalForm(|f.payload|)
    ensures |HeaderBytes(f)| <= |HeaderBytes(g)|
  {
    assert |LengthField(f)| <= |LengthField(g)|;
  }

  /** A frame as this implementation sends it: final, no reserved bits, minimal
      length, masked exactly when the connection is a client's. */
  ghost predicate Emitted(f: Frame, opcode: nat, payload: bytes, masked: bool) {
    && f.Valid()
    && f.first == 128 + opcode
    && f.payload == payload
    && f.form == MinimalForm(|payload|)
    && f.mask.Some? == masked
  }

  /** One pong per ping, with the same payload, in the same order. */
  ghost predicate Answers(fs: seq<Frame>, pings: seq<bytes>) {
    && |fs| == |pings|
    && forall i | 0 <= i < |fs| ::
         fs[i].Readable() && fs[i].Opcode() == OP_PONG && fs[i].payload == pings[i]
  }

  lemma AnswersAppend(a: seq<Frame>, b: seq<Frame>, c: seq<Frame>, p: seq<bytes>, q: seq<bytes>)
    requires a <= b <= c && Answers(b[|a|..], p) && Answers(c[|b|..], q)
    ensures Answers(c[|a|..], p + q)
  {
    assert c[|a|..] == b[|a|..] + c[|b|..];
  }

  /** The sending half: the bytes on the wire, whether it was closed or has failed,
      how often there was no mask key, every frame handed over whole, and the frame
      a failed write has cut short. */
  datatype Wire = Wire(sent: bytes, shut: bool, broken: bool, keyless: nat, emitted: seq<Frame>, cut: Option<Frame>) {
    predicate Open() { !shut && !broken }
  }

  /** The wire is whole frames, then possibly a part of one, with which the
      transport has died. */
  ghost predicate Framed(w: Wire) {
    && AllValid(w.emitted) && (w.broken <==> w.cut.Some?)
    && match w.cut
       case None => w.sent == EncodeAll(w.emitted)
       case Some(f) => f.Valid() && EncodeAll(w.emitted) <= w.sent <= EncodeAll(w.emitted) + EncodeFrame(f)
  }

  /** One more whole frame has gone out. */
  ghost predicate Wrote(a: Wire, b: Wire, opcode: nat, payload: bytes, masked: bool) {
    && a.Open() && |b.emitted| == |a.emitted| + 1 && a.emitted <= b.emitted
    && Emitted(b.emitted[|a.emitted|], opcode, payload, masked)
    && b == a.(sent := a.sent + EncodeFrame(b.emitted[|a.emitted|]), emitted := b.emitted)
  }

  /** Nothing has gone out, for want of a mask key or of a transport that still
      takes anything; or part of the frame, and then nothing ever will. */
  ghost predicate Failed(a: Wire, b: Wire, opcode: nat, payload: bytes, masked: bool) {
    if a.Open() && b.broken then
      && b == a.(sent := b.sent, broken := true, cut := b.cut)
      && b.cut.Some? && Emitted(b.cut.value, opcode, payload, masked)
      && a.sent <= b.sent <= a.sent + EncodeFrame(b.cut.value)
    else
      && b == a.(keyless := b.keyless) && a.keyless <= b.keyless
      && (a.Open() ==> masked && b.keyless > a.keyless)
  }

  /** Exactly these pings have been answered in full, in order; if `failed`, one
      more answer was tried and lost, as the transport takes nothing more or there
      was no mask key. */
  ghost predicate Answered(a: Wire, b: Wire, pings: seq<bytes>, failed: bool) {
    && a.emitted <= b.emitted && Answers(b.emitted[|a.emitted|..], pings)
    && a.sent <= b.sent && a.shut == b.shut && a.keyless <= b.keyless
    && (!a.Open() ==> b == a.(keyless := b.keyless))
    && (if b.broken == a.broken then b.cut == a.cut
        else
          && failed && a.Open() && b.cut.Some?
          && b.cut.value.Readable() && b.cut.value.Opcode() == OP_PONG)
    && (if failed then !b.Open() || b.keyless > a.keyless else b.keyless == a.keyless)
  }

  lemma NothingAnswered(w: Wire)
    ensures Answered(w, w, [], false)
  {
    assert w.emitted[|w.emitted|..] == [];
  }

  lemma PongAnswers(a: Wire, b: Wire, payload: bytes, masked: bool)
    requires |payload| <= MAX_FRAME
    ensures Wrote(a, b, OP_PONG, payload, masked) ==> Answered(a, b, [payload], false)
    ensures Failed(a, b, OP_PONG, payload, masked) ==> Answered(a, b, [], true)
  {
    hide EncodeFrame;
    assert a.emitted == b.emitted ==> b.emitted[|a.emitted|..] == [];
  }

  lemma AnsweredAppend(a: Wire, b: Wire, c: Wire, p: seq<bytes>, q: seq<bytes>, failed: bool)
    requires Answered(a, b, p, false) && Answered(b, c, q, failed)
    ensures Answered(a, c, p + q, failed)
  {
    hide Answers;
    AnswersAppend(a.emitted, b.emitted, c.emitted, p, q);
  }

  lemma NothingWritten(w: Wire, opcode: nat, payload: bytes, masked: bool)
    requires masked
    ensures Failed(w, w.(keyless := w.keyless + 1), opcode, payload, masked)
    ensures Framed(w) ==> Framed(w.(keyless := w.keyless + 1))
  {}

  lemma ShutFramed(w: Wire)
    ensures Framed(w) ==> Framed(w.(shut := true))
  {}

  /** The frame the writer builds for a payload. */
  ghost function Built(opcode: nat, payload: bytes, mask: Option<bytes>): (f: Frame)
    requires opcode < 16 && |payload| <= MAX_INT && (mask.Some? ==> |mask.value| == 4)
    ensures f.Valid() && Emitted(f, opcode, payload, mask.Some?)
    ensures f == Frame(128 + opcode, mask, MinimalForm(|payload|), payload)
  {
    Frame(128 + opcode, mask, MinimalForm(|payload|), payload)
  }

  lemma BuiltBytes(f: Frame, hdr: bytes, body: bytes)
    requires f.Valid() && hdr == [f.first] + LengthField(f) + KeyField(f)
    requires body == if f.mask.Some? then Mask(f.payload, f.mask.value, 0) else f.payload
    ensures hdr + body == EncodeFrame(f)
  {}

  /** A frame of which n bytes were accepted. */
  lemma FrameLeaves(a: Wire, b: Wire, f: Frame, n: nat)
    requires Framed(a) && f.Valid() && n <= |EncodeFrame(f)| && b.sent == a.sent + EncodeFrame(f)[..n]
    requires (a.Open() && b == a.(sent := a.sent + EncodeFrame(f), emitted := a.emitted + [f]))
      || (a.Open() && b == a.(sent := b.sent, broken := true, cut := Some(f)))
      || (!a.Open() && a == b)
    ensures Framed(b)
    ensures forall opcode, payload, masked | Emitted(f, opcode, payload, masked) ::
      if b.Open() then Wrote(a, b, opcode, payload, masked) else Failed(a, b, opcode, payload, masked)
  {
    hide EncodeFrame, EncodeAll, Emitted;
    EncodeAllSnoc(a.emitted, f);
  }

  lemma MoreAnswered(due: seq<bytes>, passed: seq<bytes>, more: seq<bytes>, left: seq<bytes>)
    requires due == passed + (more + left)
    ensures due == (passed + more) + left && (left == [] ==> due == passed + more)
  {}

  lemma OneUnanswered(due: seq<bytes>, passed: seq<bytes>, left: seq<bytes>)
    requires due == passed + left && left != []
    ensures passed <= due && |passed| < |due| && left[1..] == due[|passed| + 1..]
  {}

  /** What is still to be delivered when `rest` payload bytes of the current
      frame are outstanding in front of raw. */
  function Deliver(raw: bytes, rest: nat, rmask: bool, key: bytes, keyPos: nat): bytes
    requires |key| == 4
  {
    Unkeyed(Upto(raw, rest), rmask, key, keyPos) + Stream(Beyond(raw, rest))
  }

  lemma DeliverAtBoundary(raw: bytes, rmask: bool, key: bytes, keyPos: nat)
    requires |key| == 4
    ensures Deliver(raw, 0, rmask, key, keyPos) == Stream(raw) && Beyond(raw, 0) == raw
  {
    assert Beyond(raw, 0) == raw;
  }

  lemma DeliverNothing(rest: nat, rmask: bool, key: bytes, keyPos: nat)
    requires |key| == 4
    ensures Deliver([], rest, rmask, key, keyPos) == []
  {}

  lemma BeyondNothing(rest: nat)
    ensures Beyond([], rest) == []
  {}

  lemma FrontOf(all: bytes, front: bytes, back: bytes, n: nat)
    requires all == front + back && |front| == n
    ensures all[..n] == front && all[n..] == back
  {}

  lemma SpliceFront(p: bytes, lo: nat, x: bytes)
    requires lo + |x| <= |p|
    ensures Splice(p, lo, x)[lo..lo + |x|] == x
  {}

  lemma SpliceTwice(p: bytes, lo: nat, x: bytes, y: bytes)
    requires lo + |x| <= |p| && |x| == |y|
    ensures Splice(Splice(p, lo, x), lo, y) == Splice(p, lo, y)
  {}

  lemma DeliverUnmasked(raw: bytes, rest: nat, key: bytes, keyPos: nat, keyPos': nat)
    requires |key| == 4
    ensures Deliver(raw, rest, false, key, keyPos) == Deliver(raw, rest, false, key, keyPos')
  {}

  function Unkeyed(now: bytes, rmask: bool, key: bytes, keyPos: nat): (p: bytes)
    requires |key| == 4
    ensures |p| == |now|
  {
    if rmask then Mask(now, key, keyPos) else now
  }

  lemma UnkeyedSplit(p: bytes, q: bytes, rmask: bool, key: bytes, keyPos: nat)
    requires |key| == 4
    ensures Unkeyed(p + q, rmask, key, keyPos)
         == Unkeyed(p, rmask, key, keyPos) + Unkeyed(q, rmask, key, keyPos + |p|)
  {
    MaskSplit(p, q, key, keyPos);
  }

  lemma UptoSplit(raw: bytes, rest: nat, n: nat)
    requires n <= rest && n <= |raw|
    ensures Upto(raw, rest) == raw[..n] + Upto(raw[n..], rest - n)
    ensures Beyond(raw, rest) == Beyond(raw[n..], rest - n)
  {
    if rest < |raw| {
      assert raw[..rest] == raw[..n] + raw[n..][..rest - n];
      assert raw[rest..] == raw[n..][rest - n..];
    } else {
      assert raw == raw[..n] + raw[n..];
    }
  }

  lemma FrontStep(raw: bytes, rest: nat, rmask: bool, key: bytes, keyPos: nat, n: nat)
    requires |key| == 4 && n <= rest && n <= |raw|
    ensures Unkeyed(Upto(raw, rest), rmask, key, keyPos)
         == Unkeyed(raw[..n], rmask, key, keyPos) + Unkeyed(Upto(raw[n..], rest - n), rmask, key, keyPos + n)
  {
    hide Upto, Unkeyed;
    UptoSplit(raw, rest, n);
    UnkeyedSplit(raw[..n], Upto(raw[n..], rest - n), rmask, key, keyPos);
  }

  /** Reading n bytes of the current frame leaves exactly the rest to deliver. */
  lemma DeliverStep(raw: bytes, rest: nat, rmask: bool, key: bytes, keyPos: nat, n: nat)
    requires |key| == 4 && n <= rest && n <= |raw|
    ensures Deliver(raw, rest, rmask, key, keyPos)
         == Unkeyed(raw[..n], rmask, key, keyPos) + Deliver(raw[n..], rest - n, rmask, key, keyPos + n)
  {
    hide Stream;
    FrontStep(raw, rest, rmask, key, keyPos, n);
    UptoSplit(raw, rest, n);
  }

  /** Fewer bytes arriving only means less to deliver. */
  lemma DeliverMonotone(raw: bytes, less: bytes, rest: nat, rmask: bool, key: bytes, keyPos: nat)
    requires |key| == 4 && less <= raw
    ensures Deliver(less, rest, rmask, key, keyPos) <= Deliver(raw, rest, rmask, key, keyPos)
  {
    hide Stream;
    if |less| < rest {
      assert Upto(less, rest) == Upto(raw, rest)[..|less|];
      if rmask { MaskPrefix(Upto(raw, rest), |less|, key, keyPos); }
      StreamMonotone(Beyond(raw, rest), []);
      EmptyStream();
    } else {
      assert Upto(less, rest) == Upto(raw, rest) && Beyond(less, rest) <= Beyond(raw, rest);
      StreamMonotone(Beyond(raw, rest), Beyond(less, rest));
    }
  }

  lemma EmptyStream()
    ensures Stream([]) == []
  {}

  lemma NoFrame(raw: bytes)
    requires !ParseHeader(raw).Parsed?
    ensures Stream(raw) == [] && Pings(raw) == []
  {}

  /** The error for bytes that hold no header: none of the next field arrived, or
      only a part of it, before the end. */
  function HeaderEnd(raw: bytes, end: Err): Err {
    if |raw| < 2 then CutOff(|raw|, end) else
    var extra := ExtraLength(raw[1] % 128);
    if |raw| < 2 + extra then CutOff(|raw| - 2, end) else CutOff(|raw| - 2 - extra, end)
  }

  /** The error in which reading raw ends, once everything due is delivered. A
      payload of data that is cut off ends as the stream does. */
  function EndOf(raw: bytes, end: Err): Err
    decreases |raw|
  {
    match ParseHeader(raw)
    case Truncated => HeaderEnd(raw, end)
    case TooBig => Protocol
    case Parsed(h) =>
      var body := raw[h.size..];
      if h.opcode == OP_CLOSE then Eof
      else if h.opcode == OP_PING && |body| < h.length then CutOff(|body|, end)
      else if h.opcode in {OP_BINARY, OP_CONTINUATION, OP_PING, OP_PONG} then EndOf(Beyond(body, h.length), end)
      else Protocol
  }

  lemma EndOfFrame(raw: bytes, end: Err)
    requires ParseHeader(raw).Parsed?
    ensures var h := ParseHeader(raw).header;
            var body := raw[h.size..];
            EndOf(raw, end) ==
              if h.opcode == OP_CLOSE then Eof
              else if h.opcode == OP_PING && |body| < h.length then CutOff(|body|, end)
              else if h.opcode in {OP_BINARY, OP_CONTINUATION, OP_PING, OP_PONG} then EndOf(Beyond(body, h.length), end)
              else Protocol
  {}

  /** The header at the front of raw, field by field, and the error if a field is
      missing or the length too large. */
  lemma HeaderFields(raw: bytes, end: Err)
    ensures |raw| < 2 ==> !ParseHeader(raw).Parsed? && EndOf(raw, end) == CutOff(|raw|, end)
    ensures |raw| >= 2 ==>
      var code, masked := raw[1] % 128, raw[1] >= 128;
      var extra := ExtraLength(code);
      if |raw| - 2 < extra then !ParseHeader(raw).Parsed? && EndOf(raw, end) == CutOff(|raw| - 2, end)
      else
        var length := if extra == 0 then code else FromBE(raw[2..2 + extra]);
        if length > MAX_FRAME then !ParseHeader(raw).Parsed? && EndOf(raw, end) == Protocol
        else if masked && |raw| - 2 - extra < 4 then !ParseHeader(raw).Parsed? && EndOf(raw, end) == CutOff(|raw| - 2 - extra, end)
        else
          var size := 2 + extra + if masked then 4 else 0;
          ParseHeader(raw) == Parsed(Header(raw[0] % 16, masked, raw[2 + extra..size], length, size))
  {
    hide FromBE;
  }

  lemma EndOfNone(end: Err)
    ensures EndOf([], end) == end
  {}

  /** The first frame of raw, as the decoder acts on it. */
  lemma FrameMeaning(raw: bytes, key: bytes, keyPos: nat)
    requires ParseHeader(raw).Parsed? && |key| == 4
    requires var h := ParseHeader(raw).header; h.masked ==> key == h.key && keyPos == 0
    ensures var h := ParseHeader(raw).header;
            var body := raw[h.size..];
            var now := Unkeyed(Upto(body, h.length), h.masked, key, keyPos);
            if h.opcode == OP_BINARY || h.opcode == OP_CONTINUATION then
              && Stream(raw) == now + Stream(Beyond(body, h.length))
              && Pings(raw) == if h.length == 0 then Pings(body) else []
            else if h.opcode == OP_PING then
              && Stream(raw) == Stream(Beyond(body, h.length))
              && if h.length > |body| then Stream(raw) == [] && Pings(raw) == []
                 else
                   && Beyond(body, h.length) == body[h.length..]
                   && now == Unkeyed(body[..h.length], h.masked, key, 0)
                   && Pings(raw) == [now] + Pings(body[h.length..])
            else if h.opcode == OP_PONG then
              && Stream(raw) == Stream(Beyond(body, h.length))
              && Pings(raw) == Pings(Beyond(body, h.length))
            else Stream(raw) == [] && Pings(raw) == []
  {
    hide ParseHeader;
  }

  class Conn {
    const conn: Sink
    const br: Source
    const maskOut: bool
    const key: array<byte>
    var rmask: bool
    var rest: nat
    var keyPos: nat
    /** Every frame handed over whole, and the one a failed write cut short. */
    ghost var emitted: seq<Frame>
    ghost var cut: Option<Frame>
    /** How often there was no randomness for a mask key. */
    ghost var keyless: nat

    ghost function Sending(): Wire
      reads this, conn
    {
      Wire(conn.sent, conn.shut, conn.broken, keyless, emitted, cut)
    }

    ghost predicate Valid()
      reads this, conn
    {
      key.Length == 4 && rest <= MAX_FRAME && Framed(Sending())
    }

    /** The bytes that reading will still deliver before the first error. */
    ghost function Pending(): bytes
      reads this, br, key
      requires key.Length == 4
    {
      Deliver(br.pending, rest, rmask, key[..], keyPos)
    }

    /** The error that comes after the bytes that are due. */
    ghost function EndDue(): Err
      reads this, br
    {
      EndOf(Beyond(br.pending, rest), br.end)
    }

    /** The pings to be passed before the next byte of data. */
    ghost function PingsDue(): seq<bytes>
      reads this, br
    {
      if rest > 0 then [] else Pings(br.pending)
    }

    constructor (conn: Sink, br: Source, maskOut: bool)
      requires conn.sent == [] && !conn.broken
      ensures Valid() && this.conn == conn && this.br == br && this.maskOut == maskOut
      ensures fresh(key) && Sending() == Wire([], conn.shut, false, 0, [], None) && rest == 0
      ensures Pending() == Stream(br.pending)
    {
      this.conn, this.br, this.maskOut := conn, br, maskOut;
      key := new byte[4](_ => 0);
      rmask, rest, keyPos := false, 0, 0;
      emitted, cut, keyless := [], None, 0;
      new;
      DeliverAtBoundary(br.pending, rmask, key[..], keyPos);
    }

    /** Applies the running key in place to p[lo..hi]. */
    method Unmask(p: array<byte>, lo: nat, hi: nat)
      requires key.Length == 4 && lo <= hi <= p.Length && p != key
      modifies p, this`keyPos
      ensures p[..] == Splice(old(p[..]), lo, Mask(old(p[lo..hi]), key[..], old(keyPos)))
      ensures keyPos == old(keyPos) + (hi - lo)
    {
      var i := lo;
      ghost var before, m := p[..], Mask(p[lo..hi], key[..], keyPos);
      while i < hi
        invariant lo <= i <= hi && keyPos == old(keyPos) + (i - lo)
        invariant forall j | 0 <= j < p.Length :: p[j] == if lo <= j < i then m[j - lo] else before[j]
      {
        p[i] := Xor(p[i], key[keyPos % 4]);
        keyPos := keyPos + 1;
        i := i + 1;
      }
      assert p[..] == Splice(before, lo, m);
    }

    /** Reads and drops up to n bytes; a short stream is not reported. */
    method Discard(n: nat)
      modifies br`pending
      ensures br.pending == Beyond(old(br.pending), n)
    {
      if n > 0 {
        var scratch := new byte[n];
        var got, e := br.ReadFull(scratch, 0, n);
      }
    }

    /** The header up to the mask key: final bit and opcode, then the length
        in its shortest form under the mask flag. */
    method HeaderFor(opcode: nat, n: nat, ghost f: Frame) returns (hdr: bytes)
      requires opcode < 16 && n <= MAX_INT && f.Valid()
      requires f.first == 128 + opcode && |f.payload| == n && f.form == MinimalForm(n) && f.mask.Some? == maskOut
      ensures hdr == [f.first] + LengthField(f)
    {
      hdr := [128 + opcode];
      var maskBit := if maskOut then 128 else 0;
      if n < 126 {
        hdr := hdr + [maskBit + n];
      } else if n <= 0xFFFF {
        ToBE2(n);
        hdr := hdr + [maskBit + 126, n / 256, n % 256];
      } else {
        hdr := hdr + [maskBit + 127];
        hdr := hdr + ToBE(n, 8);
      }
    }

    /** A masked copy of payload[lo..hi], made in a fresh buffer. */
    static method MaskedCopy(payload: array<byte>, lo: nat, hi: nat, key: bytes) returns (body: bytes)
      requires lo <= hi <= payload.Length && |key| == 4
      ensures body == Mask(payload[lo..hi], key, 0)
    {
      var masked := new byte[hi - lo];
      var i := 0;
      while i < hi - lo
        invariant 0 <= i <= hi - lo
        invariant forall j | 0 <= j < i :: masked[j] == Xor(payload[lo + j], key[j % 4])
      {
        masked[i] := Xor(payload[lo + i], key[i % 4]);
        i := i + 1;
      }
      body := masked[..];
    }

    /** A key to mask a frame with, if there is randomness. */
    method FreshKey() returns (mask: Option<bytes>)
      modifies this`keyless
      ensures mask.Some? ==> |mask.value| == 4 && keyless == old(keyless)
      ensures mask.None? ==> keyless == old(keyless) + 1
    {
      var k: bytes := *;
      var works: bool := *;
      if works && |k| == 4 { return Some(k); }
      keyless := keyless + 1;
      return None;
    }

    /** One frame, written under the lock as a single transport write. The
        caller's payload buffer is not in the frame: it cannot change. */
    method WriteFrame(opcode: nat, payload: array<byte>, lo: nat, hi: nat) returns (err: Result)
      requires Valid() && lo <= hi <= payload.Length && hi - lo <= MAX_INT
      requires opcode in {OP_BINARY, OP_CLOSE, OP_PING, OP_PONG}
      modifies this`emitted, this`cut, this`keyless, conn`sent, conn`broken
      ensures Valid()
      ensures err.None? ==> Wrote(old(Sending()), Sending(), opcode, payload[lo..hi], maskOut)
      ensures err.Some? ==> err.value == WriteFault && Failed(old(Sending()), Sending(), opcode, payload[lo..hi], maskOut)
    {
      hide EncodeAll, Framed, Wrote, Failed, Emitted, EncodeFrame, LengthField, MinimalForm, Mask;
      var mask: Option<bytes> := None;
      if maskOut {
        mask := FreshKey();
        if mask.None? {
          NothingWritten(old(Sending()), opcode, payload[lo..hi], maskOut);
          return Some(WriteFault);
        }
      }
      ghost var f := Built(opcode, payload[lo..hi], mask);
      var hdr := HeaderFor(opcode, hi - lo, f);
      var body := payload[lo..hi];
      if maskOut {
        hdr := hdr + mask.value;
        body := MaskedCopy(payload, lo, hi, mask.value);
      }
      BuiltBytes(f, hdr, body);
      var n;
      n, err := conn.Write(hdr + body);
      if err.None? {
        emitted := emitted + [f];
      } else if old(conn.Open()) {
        cut := Some(f);
      }
      FrameLeaves(old(Sending()), Sending(), f, n);
    }

    /** A data frame per write. */
    method Write(p: array<byte>, lo: nat, hi: nat) returns (n: nat, err: Result)
      requires Valid() && lo <= hi <= p.Length && hi - lo <= MAX_INT
      modifies this`emitted, this`cut, this`keyless, conn`sent, conn`broken
      ensures Valid()
      ensures err.None? ==> n == hi - lo && Wrote(old(Sending()), Sending(), OP_BINARY, p[lo..hi], maskOut)
      ensures err.Some? ==>
        n == 0 && err.value == WriteFault && Failed(old(Sending()), Sending(), OP_BINARY, p[lo..hi], maskOut)
    {
      err := WriteFrame(OP_BINARY, p, lo, hi);
      n := if err.None? then hi - lo else 0;
    }

    /** The close frame, whether or not it gets out, then the transport. */
    method Close()
      requires Valid()
      modifies this`emitted, this`cut, this`keyless, conn, br
      ensures Valid() && conn.shut && br.end == Fault && Pending() <= old(Pending())
      ensures exists w: Wire ::
        && Sending() == w.(shut := true) && Framed(w)
        && (Wrote(old(Sending()), w, OP_CLOSE, [], maskOut) || Failed(old(Sending()), w, OP_CLOSE, [], maskOut))
    {
      hide Framed, Wrote, Failed, Deliver, Stream, Emitted;
      var nothing := new byte[0];
      var e := WriteFrame(OP_CLOSE, nothing, 0, 0);
      assert nothing[..] == [];
      ghost var w := Sending();
      conn.Close();
      ghost var raw := br.pending;
      br.Close();
      DeliverMonotone(raw, br.pending, rest, rmask, key[..], keyPos);
      ShutFramed(w);
      assert Sending() == w.(shut := true) && Framed(w);
    }

    /** The length of a frame, given its seven-bit code. */
    method ReadLength(code: nat) returns (err: Result, length: nat)
      requires code < 128
      modifies br`pending
      ensures err.Some? ==> |old(br.pending)| < ExtraLength(code)
      ensures err.Some? ==> err.value == CutOff(|old(br.pending)|, br.end) != WriteFault
      ensures err.None? ==> (
        && ExtraLength(code) <= |old(br.pending)|
        && br.pending == old(br.pending)[ExtraLength(code)..]
        && length == if ExtraLength(code) == 0 then code else FromBE(old(br.pending)[..ExtraLength(code)]))
    {
      ghost var raw := br.pending;
      err, length := None, code;
      var extra := if code == 126 then 2 else if code == 127 then 8 else 0;
      if extra > 0 {
        var ext := new byte[extra];
        var k, e := br.ReadFull(ext, 0, extra);
        assert e.None? ==> ext[..] == raw[..extra];
        err, length := e, FromBE(ext[..]);
      }
    }

    /** The header of the next frame: what was read is exactly what the bytes
        say, and an error means they do not hold a header within the limit. */
    method ReadHeader() returns (err: Result, opcode: nat, masked: bool, length: nat)
      requires key.Length == 4
      modifies this`rmask, this`keyPos, key, br`pending
      ensures err.Some? ==> !ParseHeader(old(br.pending)).Parsed?
      ensures err.Some? ==> err.value == EndOf(old(br.pending), br.end) != WriteFault
      ensures err.None? ==> (
        && ParseHeader(old(br.pending)).Parsed?
        && var h := ParseHeader(old(br.pending)).header;
        && br.pending == old(br.pending)[h.size..]
        && opcode == h.opcode && masked == h.masked == rmask && length == h.length
        && (masked ==> key[..] == h.key && keyPos == 0))
    {
      hide FromBE, EndOf, ParseHeader, CutOff;
      ghost var raw := br.pending;
      HeaderFields(raw, br.end);
      opcode, masked, length := 0, false, 0;
      var hdr := new byte[2];
      var k;
      k, err := br.ReadFull(hdr, 0, 2);
      if err.Some? { return; }
      assert hdr[..] == raw[..2];
      opcode, masked := hdr[0] % 16, hdr[1] >= 128;
      ghost var extra := ExtraLength(hdr[1] % 128);
      err, length := ReadLength(hdr[1] % 128);
      if err.Some? { return; }
      assert raw[2..][..extra] == raw[2..2 + extra];
      assert br.pending == raw[2 + extra..];
      if length > MAX_FRAME { err := Some(Protocol); return; }
      if masked {
        err := ReadKey();
        if err.Some? { return; }
        assert raw[2 + extra..][..4] == raw[2 + extra..2 + extra + 4];
      }
      rmask := masked;
    }

    /** The mask key of the frame, from which the running position restarts. */
    method ReadKey() returns (err: Result)
      requires key.Length == 4
      modifies this`keyPos, key, br`pending
      ensures err.Some? ==> |old(br.pending)| < 4 && err.value == CutOff(|old(br.pending)|, br.end) != WriteFault
      ensures err.None? ==> (
        && 4 <= |old(br.pending)| && br.pending == old(br.pending)[4..]
        && key[..] == old(br.pending)[..4] && keyPos == 0)
    {
      var k;
      k, err := br.ReadFull(key, 0, 4);
      if err.None? { keyPos := 0; }
    }

    /** Reads a ping's payload and sends it back unmasked. */
    method AnswerPing(masked: bool, length: nat) returns (err: Result, ghost payload: bytes)
      requires Valid() && length <= MAX_FRAME
      requires masked ==> keyPos == 0
      modifies this`keyPos, this`emitted, this`cut, this`keyless, br`pending, conn`sent, conn`broken
      ensures Valid()
      ensures err.None? || err.value == WriteFault ==> (
        && length <= |old(br.pending)| && br.pending == old(br.pending)[length..]
        && payload == Unkeyed(old(br.pending)[..length], masked, key[..], 0))
      ensures err.None? ==> Wrote(old(Sending()), Sending(), OP_PONG, payload, maskOut)
      ensures err == Some(WriteFault) ==> Failed(old(Sending()), Sending(), OP_PONG, payload, maskOut)
      ensures err.Some? && err.value != WriteFault ==>
        |old(br.pending)| < length && Sending() == old(Sending()) && err.value == CutOff(|old(br.pending)|, br.end)
      ensures Answered(old(Sending()), Sending(), if err.None? then [payload] else [], err == Some(WriteFault))
    {
      hide Framed, Wrote, Failed, Answered;
      ghost var body := br.pending;
      payload := [];
      NothingAnswered(Sending());
      var p := new byte[length];
      var k;
      k, err := br.ReadFull(p, 0, length);
      if err.Some? { return; }
      assert p[..] == body[..length];
      if masked { Unmask(p, 0, length); }
      payload := Unkeyed(body[..length], masked, key[..], 0);
      assert p[0..length] == p[..] == payload;
      err := WriteFrame(OP_PONG, p, 0, length);
      PongAnswers(old(Sending()), Sending(), payload, maskOut);
    }

    /** Reads one frame header and acts on it: data becomes the current frame, a
        ping is answered, a pong dropped, a close frame ends the stream. Nothing
        that was due for delivery is lost, not even when a pong cannot be
        written; `ponged` are the pings passed and answered. */
    method NextFrame() returns (err: Result, ghost ponged: seq<bytes>)
      requires Valid() && rest == 0
      modifies this`rmask, this`rest, this`keyPos, this`emitted, this`cut, this`keyless, key, br`pending, conn`sent, conn`broken
      ensures Valid()
      ensures Answered(old(Sending()), Sending(), ponged, err == Some(WriteFault))
      ensures err.None? || err.value == WriteFault ==>
        |br.pending| < |old(br.pending)| && Pending() == Stream(old(br.pending))
      ensures err.None? || err.value == WriteFault ==> EndDue() == EndOf(old(br.pending), br.end)
      ensures err.Some? && err.value != WriteFault ==> err.value == EndOf(old(br.pending), br.end)
      ensures err.None? ==> Pings(old(br.pending)) == ponged + PingsDue()
      ensures err == Some(WriteFault) ==> (
        && rest == 0 && ponged == [] && Pings(old(br.pending)) != []
        && Pings(br.pending) == Pings(old(br.pending))[1..])
      ensures err.Some? && err.value != WriteFault ==>
        Sending() == old(Sending()) && Stream(old(br.pending)) == [] && Pings(old(br.pending)) == [] == ponged
    {
      hide ParseHeader, Stream, Pings, Upto, Beyond, Unmasked, Framed, Wrote, Failed, Answered, EndOf, Unkeyed, CutOff;
      ghost var raw := br.pending;
      ponged := [];
      NothingAnswered(Sending());
      var opcode, masked, length;
      err, opcode, masked, length := ReadHeader();
      if err.Some? { NoFrame(raw); return; }
      FrameMeaning(raw, key[..], keyPos);
      EndOfFrame(raw, br.end);
      if opcode == OP_BINARY || opcode == OP_CONTINUATION {
        rest := length;
      } else if opcode == OP_CLOSE {
        Discard(length);
        err := Some(Eof);
      } else if opcode == OP_PING {
        ghost var payload;
        err, payload := AnswerPing(masked, length);
        if err.None? { ponged := [payload]; }
        DeliverAtBoundary(br.pending, rmask, key[..], keyPos);
      } else if opcode == OP_PONG {
        Discard(length);
        DeliverAtBoundary(br.pending, rmask, key[..], keyPos);
      } else {
        err := Some(Protocol);
      }
    }

    /** Moves to the next non-empty data frame, unless inside one already. */
    method Advance() returns (err: Result, ghost passed: seq<bytes>)
      requires Valid()
      modifies this`rmask, this`rest, this`keyPos, this`emitted, this`cut, this`keyless, key, br`pending, conn`sent, conn`broken
      ensures Valid()
      ensures err.None? || err.value == WriteFault ==> Pending() == old(Pending())
      ensures err.None? ==> rest > 0
      ensures err.None? || err.value == WriteFault ==> EndDue() == old(EndDue())
      ensures err.Some? && err.value != WriteFault ==> old(Pending()) == [] && err.value == old(EndDue())
      ensures Answered(old(Sending()), Sending(), passed, err == Some(WriteFault))
      ensures err != Some(WriteFault) ==> passed == old(PingsDue())
      ensures err == Some(WriteFault) ==> (
        && |passed| < |old(PingsDue())| && passed <= old(PingsDue())
        && PingsDue() == old(PingsDue())[|passed| + 1..])
    {
      hide Stream, Pings, Upto, Beyond, ParseHeader, Deliver, Answers, EncodeAll, Answered, Framed, EndOf;
      ghost var ending := EndDue();
      ghost var due, asked := Pending(), PingsDue();
      passed, err := [], None;
      NothingAnswered(Sending());
      while rest == 0
        invariant Valid() && Pending() == due && err.None? && EndDue() == ending
        invariant Answered(old(Sending()), Sending(), passed, false)
        invariant asked == passed + PingsDue()
        decreases |br.pending|
      {
        ghost var more;
        ghost var was := Sending();
        DeliverAtBoundary(br.pending, rmask, key[..], keyPos);
        ghost var left := PingsDue();
        err, more := NextFrame();
        if err == Some(WriteFault) {
          OneUnanswered(asked, passed, left);
        } else {
          MoreAnswered(asked, passed, more, if err.None? then PingsDue() else []);
        }
        AnsweredAppend(old(Sending()), was, Sending(), passed, more, err == Some(WriteFault));
        assert err == Some(WriteFault) ==> passed + more == passed;
        passed := passed + more;
        if err.Some? { return; }
      }
    }

    /** Reads from the current frame only. */
    method ReadFrame(p: array<byte>, lo: nat, hi: nat) returns (n: nat, err: Result)
      requires key.Length == 4 && lo <= hi <= p.Length && p != key && rest > 0
      modifies this`rest, this`keyPos, br`pending, p
      ensures n <= hi - lo && n <= |old(Pending())| && rest <= old(rest)
      ensures p[..] == Splice(old(p[..]), lo, old(Pending())[..n])
      ensures Pending() == old(Pending())[n..]
      ensures err.None? && lo < hi ==> n > 0
      ensures EndDue() == old(EndDue())
      ensures err.Some? ==> Pending() == [] && err.value == EndDue() != WriteFault
    {
      hide Stream, Upto, Beyond, Deliver, EndOf, Splice, Mask;
      ghost var raw, left, pos, before, due := br.pending, rest, keyPos, p[..], Pending();
      var m := Min(hi - lo, rest);
      n, err := br.Read(p, lo, lo + m);
      DeliverStep(raw, left, rmask, key[..], pos, n);
      FrontOf(due, Unkeyed(raw[..n], rmask, key[..], pos), Deliver(raw[n..], left - n, rmask, key[..], pos + n), n);
      SpliceFront(before, lo, raw[..n]);
      if rmask {
        assert p[lo..lo + n] == p[..][lo..lo + n] == raw[..n];
        Unmask(p, lo, lo + n);
        SpliceTwice(before, lo, raw[..n], Mask(raw[..n], key[..], pos));
      } else {
        DeliverUnmasked(br.pending, left - n, key[..], pos, pos + n);
      }
      UptoSplit(raw, left, n);
      rest := rest - n;
      if br.pending == [] {
        DeliverNothing(rest, rmask, key[..], keyPos);
        EndOfNone(br.end);
        BeyondNothing(rest);
      }
    }

    /** Fills the front of p[lo..hi] from the current frame, moving on to the
        next data frame when that is used up. What it returns is the front of
        what was due. An error means the stream has been delivered to its end;
        or that a pong could not be written: then that one ping goes unanswered,
        nothing else is lost, and reading can go on. */
    method Read(p: array<byte>, lo: nat, hi: nat) returns (n: nat, err: Result, ghost answered: seq<bytes>)
      requires Valid() && lo <= hi <= p.Length && p != key
      modifies this`rmask, this`rest, this`keyPos, this`emitted, this`cut, this`keyless, key, br`pending, conn`sent, conn`broken, p
      ensures Valid() && n <= hi - lo && n <= |old(Pending())|
      ensures p[..] == Splice(old(p[..]), lo, old(Pending())[..n])
      ensures err == Some(WriteFault) ==> n == 0
      ensures err.None? || err.value == WriteFault || n > 0 ==> Pending() == old(Pending())[n..]
      ensures err.None? && lo < hi ==> n > 0
      ensures err.None? || err.value == WriteFault || n > 0 ==> EndDue() == old(EndDue())
      ensures err.Some? && err.value != WriteFault ==> n == |old(Pending())| && err.value == old(EndDue())
      ensures Answered(old(Sending()), Sending(), answered, err == Some(WriteFault))
      ensures err != Some(WriteFault) ==> answered == old(PingsDue())
      ensures err == Some(WriteFault) ==> (
        && |answered| < |old(PingsDue())| && answered <= old(PingsDue())
        && PingsDue() == old(PingsDue())[|answered| + 1..])
    {
      hide Pings, Deliver, Answered, Framed, EndOf, Beyond;
      err, answered := Advance();
      if err.Some? { n := 0; return; }
      n, err := ReadFrame(p, lo, hi);
    }
  }
}
