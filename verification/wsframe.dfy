/** The WebSocket frame format as this transport reads and writes it
    (RFC 6455 sections 5.2 to 5.5): what a raw byte string means to the decoder,
    stated without reference to how the decoder reads it. */
module WsFrame {
  import opened Bytes

  const OP_CONTINUATION: nat := 0x0
  const OP_BINARY: nat := 0x2
  const OP_CLOSE: nat := 0x8
  const OP_PING: nat := 0x9
  const OP_PONG: nat := 0xA

  const MAX_FRAME: nat := 16 * 1024 * 1024

  // ---------------------------------------------------------------- masking

  /** XOR with the repeating key, whose running position starts at pos. */
  function Mask(p: bytes, key: bytes, pos: nat): (m: bytes)
    requires |key| == 4
    ensures |m| == |p|
  {
    seq(|p|, i requires 0 <= i < |p| => Xor(p[i], key[(pos + i) % 4]))
  }

  lemma MaskSplit(p: bytes, q: bytes, key: bytes, pos: nat)
    requires |key| == 4
    ensures Mask(p + q, key, pos) == Mask(p, key, pos) + Mask(q, key, pos + |p|)
  {
    forall i | |p| <= i < |p| + |q|
      ensures Mask(p + q, key, pos)[i] == Mask(q, key, pos + |p|)[i - |p|]
    {
      assert pos + |p| + (i - |p|) == pos + i;
    }
  }

  lemma MaskInvolution(p: bytes, key: bytes, pos: nat)
    requires |key| == 4
    ensures Mask(Mask(p, key, pos), key, pos) == p
  {
    forall i | 0 <= i < |p| ensures Mask(Mask(p, key, pos), key, pos)[i] == p[i] {
      XorTwice(p[i], key[(pos + i) % 4]);
    }
  }

  // ----------------------------------------------------------------- frames

  /** The three ways a length can be written. */
  datatype Form = Short | Medium | Long

  predicate Fits(form: Form, n: nat) {
    match form
    case Short => n < 126
    case Medium => n < 0x1_0000
    case Long => n < 0x1_0000_0000_0000_0000
  }

  /** One frame as a peer may send it: `first` carries FIN, the reserved bits
      and the opcode; the payload is the unmasked application data. */
  datatype Frame = Frame(first: byte, mask: Option<bytes>, form: Form, payload: bytes) {
    function Opcode(): nat { first % 16 }
    predicate IsData() { Opcode() == OP_BINARY || Opcode() == OP_CONTINUATION }
    predicate IsClose() { Opcode() == OP_CLOSE }
    predicate IsPing() { Opcode() == OP_PING }

    /** Can be written down at all. */
    ghost predicate Valid() {
      && Fits(form, |payload|)
      && (mask.Some? ==> |mask.value| == 4)
    }

    /** A frame the decoder is meant to handle. Non-minimal lengths, any
        FIN and reserved bits, and masks from either side are all allowed. */
    ghost predicate Readable() {
      && Valid()
      && |payload| <= MAX_FRAME
      && (IsData() || IsClose() || IsPing() || Opcode() == OP_PONG)
    }
  }

  ghost predicate AllValid(fs: seq<Frame>) {
    forall i | 0 <= i < |fs| :: fs[i].Valid()
  }

  ghost predicate AllReadable(fs: seq<Frame>) {
    forall i | 0 <= i < |fs| :: fs[i].Readable()
  }

  /** The seven-bit length (or its escape code) under the mask flag. */
  function LengthByte(len7: nat, masked: bool): (b: byte)
    requires len7 < 128
    ensures b == len7 + (if masked then 128 else 0)
  {
    if masked then len7 + 128 else len7
  }

  function LengthField(f: Frame): bytes
    requires Fits(f.form, |f.payload|)
  {
    match f.form
    case Short => [LengthByte(|f.payload|, f.mask.Some?)]
    case Medium => [LengthByte(126, f.mask.Some?)] + ToBE(|f.payload|, 2)
    case Long => [LengthByte(127, f.mask.Some?)] + ToBE(|f.payload|, 8)
  }

  function KeyField(f: Frame): bytes {
    if f.mask.Some? then f.mask.value else []
  }

  function Body(f: Frame): bytes
    requires f.mask.Some? ==> |f.mask.value| == 4
  {
    if f.mask.Some? then Mask(f.payload, f.mask.value, 0) else f.payload
  }

  function HeaderBytes(f: Frame): (s: bytes)
    requires Fits(f.form, |f.payload|)
    requires f.mask.Some? ==> |f.mask.value| == 4
    ensures 2 <= |s| <= 14
  {
    [f.first] + LengthField(f) + KeyField(f)
  }

  function EncodeFrame(f: Frame): bytes
    requires Fits(f.form, |f.payload|)
    requires f.mask.Some? ==> |f.mask.value| == 4
  {
    HeaderBytes(f) + Body(f)
  }

  function Wires(fs: seq<Frame>): (ws: seq<bytes>)
    requires AllValid(fs)
    ensures |ws| == |fs|
  {
    seq(|fs|, i requires 0 <= i < |fs| => EncodeFrame(fs[i]))
  }

  function EncodeAll(fs: seq<Frame>): bytes
    requires AllValid(fs)
  {
    Concat(Wires(fs))
  }

  lemma EncodeAllStep(fs: seq<Frame>)
    requires AllValid(fs) && fs != []
    ensures EncodeAll(fs) == EncodeFrame(fs[0]) + EncodeAll(fs[1..])
  {
    assert Wires(fs)[1..] == Wires(fs[1..]);
  }

  lemma EncodeAllSnoc(fs: seq<Frame>, f: Frame)
    requires AllValid(fs) && f.Valid()
    ensures AllValid(fs + [f])
    ensures EncodeAll(fs + [f]) == EncodeAll(fs) + EncodeFrame(f)
  {
    assert Wires(fs + [f]) == Wires(fs) + [EncodeFrame(f)];
    ConcatSnoc(Wires(fs), EncodeFrame(f));
  }

  // ---------------------------------------------------------- header parsing

  datatype Header = Header(opcode: nat, masked: bool, key: bytes, length: nat, size: nat)

  datatype Parse = Truncated | TooBig | Parsed(header: Header)

  /** How many extra length bytes the seven-bit length asks for. */
  function ExtraLength(len7: nat): nat {
    if len7 == 126 then 2 else if len7 == 127 then 8 else 0
  }

  /** The header at the front of raw. */
  function ParseHeader(raw: bytes): (p: Parse)
    ensures p.Parsed? ==> 2 <= p.header.size <= 14 && p.header.size <= |raw| && p.header.length <= MAX_FRAME
    ensures p.Parsed? ==> |p.header.key| == (if p.header.masked then 4 else 0)
  {
    if |raw| < 2 then Truncated else
    var len7 := raw[1] % 128;
    var masked := raw[1] >= 128;
    var extra := ExtraLength(len7);
    if |raw| < 2 + extra then Truncated else
    var length := if extra == 0 then len7 else FromBE(raw[2..2 + extra]);
    if length > MAX_FRAME then TooBig else
    var size := 2 + extra + (if masked then 4 else 0);
    if |raw| < size then Truncated else
    Parsed(Header(raw[0] % 16, masked, raw[2 + extra..size], length, size))
  }

  lemma LengthFieldShape(f: Frame)
    requires f.Valid()
    ensures var field := LengthField(f);
            var len7 := field[0] % 128;
            && (field[0] >= 128 <==> f.mask.Some?)
            && |field| == 1 + ExtraLength(len7)
            && |f.payload| == if ExtraLength(len7) == 0 then len7 else FromBE(field[1..])
  {
    WidthBounds();
    var n := |f.payload|;
    if f.form.Medium? {
      assert LengthField(f)[1..] == ToBE(n, 2);
      FromToBE(n, 2);
    } else if f.form.Long? {
      assert LengthField(f)[1..] == ToBE(n, 8);
      FromToBE(n, 8);
    }
  }

  /** Whatever length form and mask the writer chose, and whatever follows, the
      decoder recovers opcode, mask flag, key and length, and stops exactly at
      the payload. */
  lemma HeaderRoundTrip(f: Frame, tail: bytes)
    requires f.Readable()
    ensures ParseHeader(HeaderBytes(f) + tail)
         == Parsed(Header(f.Opcode(), f.mask.Some?, KeyField(f), |f.payload|, |HeaderBytes(f)|))
  {
    var raw := HeaderBytes(f) + tail;
    var field := LengthField(f);
    LengthFieldShape(f);
    assert raw[0] == f.first && raw[1] == field[0];
    assert raw[2..1 + |field|] == field[1..];
    assert raw[1 + |field|..|HeaderBytes(f)|] == KeyField(f);
  }

  // ------------------------------------------------- meaning of a raw stream

  /** The application bytes of a payload that starts with raw wire bytes. */
  function Unmasked(h: Header, body: bytes): (p: bytes)
    requires h.masked ==> |h.key| == 4
    ensures |p| == |body|
  {
    if h.masked then Mask(body, h.key, 0) else body
  }

  function Upto(s: bytes, n: nat): (r: bytes)
    ensures |r| == if n < |s| then n else |s|
  {
    if n < |s| then s[..n] else s
  }

  function Beyond(s: bytes, n: nat): (r: bytes)
    ensures |r| == if n < |s| then |s| - n else 0
  {
    if n < |s| then s[n..] else []
  }

  /** Everything a reader standing at a frame boundary will deliver from raw
      before its first error: the data payloads, up to a close frame, an
      unknown opcode, an oversized length or the end of the bytes. */
  function Stream(raw: bytes): bytes
    decreases |raw|
  {
    match ParseHeader(raw)
    case Parsed(h) =>
      var body := raw[h.size..];
      if h.opcode == OP_BINARY || h.opcode == OP_CONTINUATION then
        Unmasked(h, Upto(body, h.length)) + Stream(Beyond(body, h.length))
      else if h.opcode == OP_PING || h.opcode == OP_PONG then
        Stream(Beyond(body, h.length))
      else []
    case _ => []
  }

  /** The payloads of the pings passed on the way to the next byte of data. */
  function Pings(raw: bytes): seq<bytes>
    decreases |raw|
  {
    match ParseHeader(raw)
    case Parsed(h) =>
      var body := raw[h.size..];
      if h.opcode == OP_BINARY || h.opcode == OP_CONTINUATION then
        if h.length == 0 then Pings(body) else []
      else if h.opcode == OP_PING then
        if |body| < h.length then []
        else [Unmasked(h, body[..h.length])] + Pings(body[h.length..])
      else if h.opcode == OP_PONG then
        Pings(Beyond(body, h.length))
      else []
    case _ => []
  }

  // ------------------------------------------------------- reference meaning

  /** What a list of frames carries: the data payloads before the first close. */
  function Data(fs: seq<Frame>): bytes {
    if fs == [] || fs[0].IsClose() then []
    else if fs[0].IsData() then fs[0].payload + Data(fs[1..])
    else Data(fs[1..])
  }

  ghost predicate NoClose(fs: seq<Frame>) {
    forall i | 0 <= i < |fs| :: !fs[i].IsClose()
  }

  lemma {:induction false} DataAppend(fs: seq<Frame>, gs: seq<Frame>)
    requires NoClose(fs)
    ensures Data(fs + gs) == Data(fs) + Data(gs)
  {
    if fs == [] {
      assert fs + gs == gs;
    } else {
      assert (fs + gs)[1..] == fs[1..] + gs;
      DataAppend(fs[1..], gs);
    }
  }

  /** The start of an encoded frame, seen by the decoder. */
  lemma FrameRoundTrip(f: Frame, tail: bytes)
    requires f.Readable()
    ensures var raw := EncodeFrame(f) + tail;
            var p := ParseHeader(raw);
            && p == Parsed(Header(f.Opcode(), f.mask.Some?, KeyField(f), |f.payload|, |HeaderBytes(f)|))
            && var body := raw[p.header.size..];
            && Upto(body, |f.payload|) == Body(f)
            && Beyond(body, |f.payload|) == tail
            && Unmasked(p.header, Body(f)) == f.payload
  {
    hide HeaderBytes, ParseHeader, Mask;
    var raw := EncodeFrame(f) + tail;
    assert raw == HeaderBytes(f) + (Body(f) + tail);
    HeaderRoundTrip(f, Body(f) + tail);
    assert raw[|HeaderBytes(f)|..] == Body(f) + tail;
    if f.mask.Some? { MaskInvolution(f.payload, f.mask.value, 0); }
  }

  lemma StreamStep(f: Frame, tail: bytes)
    requires f.Readable()
    ensures Stream(EncodeFrame(f) + tail)
         == if f.IsData() then f.payload + Stream(tail) else if f.IsClose() then [] else Stream(tail)
  {
    FrameRoundTrip(f, tail);
  }

  lemma NoCloseStep(fs: seq<Frame>)
    requires fs != []
    ensures NoClose(fs) <==> !fs[0].IsClose() && NoClose(fs[1..])
  {
    if !fs[0].IsClose() && NoClose(fs[1..]) {
      forall i | 0 <= i < |fs| ensures !fs[i].IsClose() {
        if i > 0 { assert fs[i] == fs[1..][i - 1]; }
      }
    }
  }

  /** A wire made of any valid frames means the data payloads before the first
      close frame, followed, if there was none, by whatever the rest means. */
  lemma {:induction false} StreamOfFrames(fs: seq<Frame>, tail: bytes)
    requires AllReadable(fs)
    ensures Stream(EncodeAll(fs) + tail) == Data(fs) + if NoClose(fs) then Stream(tail) else []
  {
    if fs == [] {
      assert EncodeAll(fs) + tail == tail;
    } else {
      var f, later := fs[0], EncodeAll(fs[1..]);
      var after := if NoClose(fs[1..]) then Stream(tail) else [];
      EncodeAllStep(fs);
      Assoc(EncodeFrame(f), later, tail);
      StreamStep(f, later + tail);
      StreamOfFrames(fs[1..], tail);
      NoCloseStep(fs);
      assert Stream(later + tail) == Data(fs[1..]) + after;
      if f.IsData() {
        Assoc(f.payload, Data(fs[1..]), after);
      }
    }
  }

  /** The payloads of the pings in a list of frames. */
  function PingPayloads(fs: seq<Frame>): seq<bytes> {
    if fs == [] then [] else PingPayloads(fs[..|fs| - 1]) + PingPayload(fs[|fs| - 1])
  }

  function PingPayload(f: Frame): seq<bytes> {
    if f.IsPing() then [f.payload] else []
  }

  lemma PingPayloadsSnoc(fs: seq<Frame>, f: Frame)
    ensures PingPayloads(fs + [f]) == PingPayloads(fs) + PingPayload(f)
  {
    assert (fs + [f])[..|fs|] == fs;
  }

  /** Frames a reader passes without a byte of data to deliver. */
  ghost predicate Passed(fs: seq<Frame>) {
    forall i | 0 <= i < |fs| ::
      fs[i].IsPing() || fs[i].Opcode() == OP_PONG || (fs[i].IsData() && fs[i].payload == [])
  }

  lemma WholeBody(f: Frame, body: bytes)
    requires f.Valid() && Upto(body, |f.payload|) == Body(f)
    ensures |f.payload| <= |body| && body[..|f.payload|] == Body(f)
    ensures body[|f.payload|..] == Beyond(body, |f.payload|)
  {}

  lemma PingsStep(f: Frame, tail: bytes)
    requires f.Readable() && Passed([f])
    ensures Pings(EncodeFrame(f) + tail) == PingPayload(f) + Pings(tail)
  {
    hide ParseHeader, Unmasked, Body, HeaderBytes, EncodeFrame, Upto, Beyond;
    assert [f][0] == f;
    FrameRoundTrip(f, tail);
    var raw := EncodeFrame(f) + tail;
    WholeBody(f, raw[ParseHeader(raw).header.size..]);
  }

  /** The pings passed on the way to the next byte of data are those on the wire
      before it, each once, in order. */
  lemma {:induction false} PingsOfFrames(fs: seq<Frame>, tail: bytes)
    requires AllReadable(fs) && Passed(fs)
    ensures Pings(EncodeAll(fs) + tail) == PingPayloads(fs) + Pings(tail)
    decreases |fs|
  {
    hide EncodeFrame, Pings;
    if fs == [] {
      assert EncodeAll(fs) + tail == tail;
    } else {
      var n := |fs| - 1;
      var before, f := fs[..n], fs[n];
      assert fs == before + [f];
      EncodeAllSnoc(before, f);
      Assoc(EncodeAll(before), EncodeFrame(f), tail);
      PingsOfFrames(before, EncodeFrame(f) + tail);
      assert [f][0] == fs[n];
      PingsStep(f, tail);
    }
  }

  lemma MaskPrefix(p: bytes, n: nat, key: bytes, pos: nat)
    requires |key| == 4 && n <= |p|
    ensures Mask(p[..n], key, pos) == Mask(p, key, pos)[..n]
  {}

  /** Cutting the wire short anywhere only cuts the stream short: a prefix of
      the bytes, valid frames or not, never yields anything new. */
  lemma {:induction false} StreamMonotone(raw: bytes, cut: bytes)
    requires cut <= raw
    ensures Stream(cut) <= Stream(raw)
    decreases |raw|
  {
    hide ParseHeader, Mask;
    if ParseHeader(cut).Parsed? {
      HeaderOfPrefix(raw, cut);
      var h := ParseHeader(cut).header;
      var body, short := raw[h.size..], cut[h.size..];
      assert short <= body;
      PayloadOfPrefix(h, body, short);
      StreamMonotone(Beyond(body, h.length), Beyond(short, h.length));
    }
  }

  /** A shortened payload is delivered shortened, and then nothing follows. */
  lemma PayloadOfPrefix(h: Header, body: bytes, short: bytes)
    requires short <= body && (h.masked ==> |h.key| == 4)
    ensures Unmasked(h, Upto(short, h.length)) <= Unmasked(h, Upto(body, h.length))
    ensures Beyond(short, h.length) <= Beyond(body, h.length)
    ensures |short| < h.length ==> Beyond(short, h.length) == []
    ensures |short| >= h.length ==> Upto(short, h.length) == Upto(body, h.length)
  {
    if |short| < h.length {
      assert Upto(short, h.length) == Upto(body, h.length)[..|short|];
      if h.masked { MaskPrefix(Upto(body, h.length), |short|, h.key, 0); }
    } else {
      assert Upto(short, h.length) == Upto(body, h.length);
    }
  }

  lemma HeaderOfPrefix(raw: bytes, cut: bytes)
    requires cut <= raw && ParseHeader(cut).Parsed?
    ensures ParseHeader(raw) == ParseHeader(cut)
  {
    var extra := ExtraLength(raw[1] % 128);
    assert raw[2..2 + extra] == cut[2..2 + extra];
    var size := ParseHeader(cut).header.size;
    assert raw[2 + extra..size] == cut[2 + extra..size];
  }

  /** Whatever frames were sent and however much of them arrived, the reader can
      only ever see a prefix of the data payloads before the first close. */
  lemma TruncatedWire(fs: seq<Frame>, wire: bytes)
    requires AllReadable(fs) && wire <= EncodeAll(fs)
    ensures Stream(wire) <= Data(fs)
    ensures wire == EncodeAll(fs) ==> Stream(wire) == Data(fs)
  {
    assert EncodeAll(fs) + [] == EncodeAll(fs);
    StreamOfFrames(fs, []);
    StreamMonotone(EncodeAll(fs), wire);
  }

  // ----------------------------------------------------------- the RFC's frames

  /** The masked payload of section 5.7 of RFC 6455: "Hello" under its key. */
  lemma MaskedHello()
    ensures Mask([0x48, 0x65, 0x6c, 0x6c, 0x6f], [0x37, 0xfa, 0x21, 0x3d], 0) == [0x7f, 0x9f, 0x4d, 0x51, 0x58]
  {
    hide Xor;
    HelloBytes();
    var p: bytes, key: bytes := [0x48, 0x65, 0x6c, 0x6c, 0x6f], [0x37, 0xfa, 0x21, 0x3d];
    var m := Mask(p, key, 0);
    assert m[0] == Xor(p[0], key[0]) && m[1] == Xor(p[1], key[1]) && m[2] == Xor(p[2], key[2]);
    assert m[3] == Xor(p[3], key[3]) && m[4] == Xor(p[4], key[0]);
  }

  lemma HelloBytes()
    ensures Xor(0x48, 0x37) == 0x7f && Xor(0x65, 0xfa) == 0x9f && Xor(0x6c, 0x21) == 0x4d
    ensures Xor(0x6c, 0x3d) == 0x51 && Xor(0x6f, 0x37) == 0x58
  {
    hide Xor;
    ByteH();
    ByteE();
    BytesL();
    ByteO();
  }

  lemma ByteH()
    ensures Xor(0x48, 0x37) == 0x7f
  {
    assert XorBits(4, 3, 4) == 7;
  }

  lemma ByteE()
    ensures Xor(0x65, 0xfa) == 0x9f
  {
    assert XorBits(6, 15, 4) == 9;
  }

  lemma BytesL()
    ensures Xor(0x6c, 0x21) == 0x4d && Xor(0x6c, 0x3d) == 0x51
  {
    assert XorBits(6, 2, 4) == 4;
    assert XorBits(6, 3, 4) == 5;
  }

  lemma ByteO()
    ensures Xor(0x6f, 0x37) == 0x58
  {
    assert XorBits(6, 3, 4) == 5;
  }

  /** And its headers of unmasked binary frames of 256 bytes and of 64 KiB. */
  lemma LongHeaders(p: bytes)
    ensures |p| == 256 ==> HeaderBytes(Frame(0x82, None, Medium, p)) == [0x82, 0x7e, 0x01, 0x00]
    ensures |p| == 65536 ==> HeaderBytes(Frame(0x82, None, Long, p)) == [0x82, 0x7f, 0, 0, 0, 0, 0, 1, 0, 0]
  {
    ToBE2(256);
    SixtyFourKiB();
  }

  lemma SixtyFourKiB()
    ensures ToBE(65536, 8) == [0, 0, 0, 0, 0, 1, 0, 0]
  {
    assert ToBE(65536, 8) == ToBE(256, 7) + [0];
    assert ToBE(256, 7) == ToBE(1, 6) + [0];
    assert ToBE(1, 6) == ToBE(0, 5) + [1];
    assert ToBE(0, 5) == ToBE(0, 3) + [0, 0];
    assert ToBE(0, 3) == ToBE(0, 1) + [0, 0];
  }
}
