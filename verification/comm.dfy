/** Length-prefixed messages over a byte stream, on raw TCP or on a WebSocket. */
module Comm {
  import opened Bytes
  import opened Net
  import opened WsFrame
  import WsConn

  const MAX_MESSAGE: nat := 8 * 1024 * 1024

  // ------------------------------------------------------ what a stream holds

  datatype Next = Message(msg: bytes, rest: bytes) | TooLong | Cut

  /** The first message of a stream. */
  function NextMessage(s: bytes): (r: Next)
    ensures r.Message? ==> |r.rest| < |s|
  {
    if |s| < 4 then Cut else
    var n := FromBE(s[..4]);
    if n > MAX_MESSAGE then TooLong
    else if |s| - 4 < n then Cut
    else Message(s[4..4 + n], s[4 + n..])
  }

  /** Why a stream holds no next message: it announces one that is too long, or it
      ends, cleanly only if nothing of the next field has arrived. */
  function NoMessage(s: bytes, end: Err): Err {
    if |s| < 4 then CutOff(|s|, end)
    else if FromBE(s[..4]) > MAX_MESSAGE then Protocol
    else CutOff(|s| - 4, end)
  }

  /** What successive receives return until one fails. */
  function Messages(s: bytes): seq<bytes>
    decreases |s|
  {
    match NextMessage(s)
    case Message(m, rest) => [m] + Messages(rest)
    case _ => []
  }

  function EncodeMessage(m: bytes): bytes {
    ToBE(|m|, 4) + m
  }

  function EncodeMessages(ms: seq<bytes>): bytes {
    if ms == [] then [] else EncodeMessage(ms[0]) + EncodeMessages(ms[1..])
  }

  ghost predicate Sendable(ms: seq<bytes>) {
    forall i | 0 <= i < |ms| :: |ms[i]| <= MAX_MESSAGE
  }

  lemma NextOfEncoded(m: bytes, tail: bytes)
    requires |m| <= MAX_MESSAGE
    ensures NextMessage(EncodeMessage(m) + tail) == Message(m, tail)
  {
    var s := EncodeMessage(m) + tail;
    WidthBounds();
    FromToBE(|m|, 4);
    assert s[..4] == ToBE(|m|, 4);
    assert s[4..4 + |m|] == m;
    assert s[4 + |m|..] == tail;
  }

  lemma MessagesStep(s: bytes)
    requires NextMessage(s).Message?
    ensures Messages(s) == [NextMessage(s).msg] + Messages(NextMessage(s).rest)
  {}

  /** Message boundaries, including those of empty messages, survive. */
  lemma {:induction false} MessagesRoundTrip(ms: seq<bytes>, tail: bytes)
    requires Sendable(ms)
    ensures Messages(EncodeMessages(ms) + tail) == ms + Messages(tail)
  {
    hide EncodeMessage, NextMessage, Messages;
    if ms == [] {
      assert EncodeMessages(ms) + tail == tail;
    } else {
      var later := EncodeMessages(ms[1..]) + tail;
      Assoc(EncodeMessage(ms[0]), EncodeMessages(ms[1..]), tail);
      NextOfEncoded(ms[0], later);
      MessagesStep(EncodeMessage(ms[0]) + later);
      MessagesRoundTrip(ms[1..], tail);
      assert [ms[0]] + (ms[1..] + Messages(tail)) == ms + Messages(tail);
    }
  }

  lemma NextMonotone(s: bytes, cut: bytes)
    requires cut <= s && NextMessage(cut).Message?
    ensures NextMessage(s).Message? && NextMessage(s).msg == NextMessage(cut).msg
    ensures NextMessage(cut).rest <= NextMessage(s).rest
  {
    assert s[..4] == cut[..4];
    var n := FromBE(cut[..4]);
    assert s[4..4 + n] == cut[4..4 + n];
  }

  /** A truncated stream never yields a short, merged or invented message. */
  lemma {:induction false} MessagesMonotone(s: bytes, cut: bytes)
    requires cut <= s
    ensures Messages(cut) <= Messages(s)
    decreases |s|
  {
    if NextMessage(cut).Message? {
      NextMonotone(s, cut);
      MessagesMonotone(NextMessage(s).rest, NextMessage(cut).rest);
    }
  }

  // -------------------------------------------------------------- transports

  datatype Transport = Tcp(src: Source, dst: Sink) | Ws(conn: WsConn.Conn)

  ghost function Footprint(t: Transport): set<object> {
    match t
    case Tcp(src, dst) => {src, dst}
    case Ws(c) => {c, c.br, c.conn, c.key}
  }

  /** What goes out on a transport in use: frames every decoder reads, none of
      them a close frame while more can follow. */
  ghost predicate Speaking(w: WsConn.Wire) {
    && WsConn.Framed(w) && AllReadable(w.emitted)
    && (w.cut.Some? ==> w.cut.value.Readable() && NoClose(w.emitted))
    && (w.Open() ==> NoClose(w.emitted))
  }

  /** In use, or shut down since: writes may have failed. */
  ghost predicate Ready(t: Transport)
    reads Footprint(t)
  {
    t.Ws? ==> t.conn.Valid() && Speaking(t.conn.Sending())
  }

  /** The bytes that reading will still deliver. */
  ghost function Incoming(t: Transport): bytes
    reads Footprint(t)
    requires Ready(t)
  {
    match t
    case Tcp(src, _) => src.pending
    case Ws(c) => c.Pending()
  }

  /** The error that comes after those bytes. */
  ghost function EndComing(t: Transport): Err
    reads Footprint(t)
  {
    match t
    case Tcp(src, _) => src.end
    case Ws(c) => c.EndDue()
  }

  /** The transport takes more, as far as it has not been closed and has not failed. */
  ghost predicate Takes(t: Transport)
    reads Footprint(t)
  {
    match t
    case Tcp(_, dst) => dst.Open()
    case Ws(c) => c.conn.Open()
  }

  ghost predicate IsShut(t: Transport)
    reads Footprint(t)
  {
    match t
    case Tcp(_, dst) => dst.shut
    case Ws(c) => c.conn.shut
  }

  /** How often a frame could not be sent for want of a mask key. */
  ghost function Keyless(t: Transport): nat
    reads Footprint(t)
  {
    if t.Ws? then t.conn.keyless else 0
  }

  /** The bytes really written, raw, whole frames or not. */
  ghost function RawSent(t: Transport): bytes
    reads Footprint(t)
  {
    match t
    case Tcp(_, dst) => dst.sent
    case Ws(c) => c.conn.sent
  }

  /** What a reader of the same kind makes of raw bytes. */
  ghost function Carried(ws: bool, raw: bytes): bytes {
    if ws then Stream(raw) else raw
  }

  /** The bytes handed to the peer, as its reader will see them. */
  ghost function Outgoing(t: Transport): bytes
    reads Footprint(t)
  {
    Carried(t.Ws?, RawSent(t))
  }

  // ------------------------------------------ what frames do to the peer's view

  lemma WholeSeen(w: WsConn.Wire)
    requires Speaking(w) && w.cut.None?
    ensures Stream(w.sent) == Data(w.emitted)
  {
    hide Stream, Data, EncodeAll;
    TruncatedWire(w.emitted, w.sent);
  }

  /** After a frame that was cut short, the peer sees a part of it at most. */
  lemma CutSeen(w: WsConn.Wire)
    requires Speaking(w) && w.cut.Some?
    ensures Data(w.emitted) <= Stream(w.sent) <= Data(w.emitted) + Data([w.cut.value])
  {
    hide Stream, Data, EncodeAll, EncodeFrame;
    var all := w.emitted + [w.cut.value];
    EncodeAllSnoc(w.emitted, w.cut.value);
    assert AllReadable(all);
    TruncatedWire(all, w.sent);
    DataAppend(w.emitted, [w.cut.value]);
    TruncatedWire(w.emitted, EncodeAll(w.emitted));
    StreamMonotone(w.sent, EncodeAll(w.emitted));
  }

  lemma DataOfOne(f: Frame)
    ensures Data([f]) == if f.IsData() then f.payload else []
  {
    assert Data([f][1..]) == [];
  }

  /** Pongs, whole or cut short, are invisible to the peer's reader. */
  lemma PongsUnseen(a: WsConn.Wire, b: WsConn.Wire, pings: seq<bytes>, failed: bool)
    requires Speaking(a) && WsConn.Framed(b) && WsConn.Answered(a, b, pings, failed)
    ensures Speaking(b) && Stream(b.sent) == Stream(a.sent)
  {
    hide Stream, Data, EncodeAll, EncodeFrame, NoClose, AllReadable, WsConn.Answers;
    if a.Open() {
      PongsCarryNothing(a.emitted, b.emitted, pings);
      WholeSeen(a);
      if b.cut.None? {
        WholeSeen(b);
      } else {
        CutSeen(b);
        DataOfOne(b.cut.value);
      }
    }
  }

  /** A data frame shows its payload; one cut short, a part of it. */
  lemma WriteSeen(a: WsConn.Wire, b: WsConn.Wire, p: bytes, masked: bool)
    requires Speaking(a) && WsConn.Framed(b) && |p| <= MAX_FRAME
    ensures WsConn.Wrote(a, b, OP_BINARY, p, masked) ==> Speaking(b) && Stream(b.sent) == Stream(a.sent) + p
    ensures WsConn.Failed(a, b, OP_BINARY, p, masked) ==> Speaking(b) && Stream(a.sent) <= Stream(b.sent) <= Stream(a.sent) + p
  {
    hide Stream, Data, EncodeAll, EncodeFrame, NoClose, AllReadable;
    if WsConn.Wrote(a, b, OP_BINARY, p, masked) {
      DataOfWrite(a.emitted, b.emitted, p, masked);
      WholeSeen(a);
      WholeSeen(b);
    } else if WsConn.Failed(a, b, OP_BINARY, p, masked) && a.Open() && b.broken {
      WholeSeen(a);
      CutSeen(b);
      DataOfOne(b.cut.value);
    }
  }

  /** The close frame, whole or not, adds nothing to what the peer sees. */
  lemma CloseSeen(a: WsConn.Wire, b: WsConn.Wire, masked: bool)
    requires Speaking(a) && WsConn.Framed(b) && WsConn.Framed(b.(shut := true))
    requires WsConn.Wrote(a, b, OP_CLOSE, [], masked) || WsConn.Failed(a, b, OP_CLOSE, [], masked)
    ensures Speaking(b.(shut := true)) && Stream(b.sent) == Stream(a.sent)
  {
    hide Stream, Data, EncodeAll, EncodeFrame;
    if WsConn.Wrote(a, b, OP_CLOSE, [], masked) {
      var f := b.emitted[|a.emitted|];
      assert b.emitted == a.emitted + [f];
      DataAppend(a.emitted, [f]);
      DataOfOne(f);
      WholeSeen(a);
      WholeSeen(b.(shut := true));
    } else if a.Open() && b.broken {
      WholeSeen(a);
      CutSeen(b);
      DataOfOne(b.cut.value);
    }
  }

  lemma PongsCarryNothing(a: seq<Frame>, b: seq<Frame>, pings: seq<bytes>)
    requires a <= b && NoClose(a) && AllReadable(a) && WsConn.Answers(b[|a|..], pings)
    ensures NoClose(b) && AllReadable(b) && Data(b) == Data(a)
  {
    DataOfPongs(b[|a|..], pings);
    assert b == a + b[|a|..];
    DataAppend(a, b[|a|..]);
    forall i | 0 <= i < |b| ensures !b[i].IsClose() && b[i].Readable() {
      if i >= |a| { assert b[i] == b[|a|..][i - |a|]; }
    }
  }

  lemma {:induction false} DataOfPongs(fs: seq<Frame>, pings: seq<bytes>)
    requires WsConn.Answers(fs, pings)
    ensures Data(fs) == []
  {
    if fs != [] { DataOfPongs(fs[1..], pings[1..]); }
  }

  lemma DataOfWrite(a: seq<Frame>, b: seq<Frame>, p: bytes, masked: bool)
    requires a <= b && |b| == |a| + 1 && NoClose(a) && AllReadable(a)
    requires WsConn.Emitted(b[|a|], OP_BINARY, p, masked) && |p| <= MAX_FRAME
    ensures NoClose(b) && AllReadable(b) && Data(b) == Data(a) + p
  {
    var f := b[|a|];
    assert b == a + [f];
    DataAppend(a, [f]);
    DataOfOne(f);
  }

  // -------------------------------------------------------------- operations

  method Read(t: Transport, p: array<byte>, lo: nat, hi: nat) returns (n: nat, err: Result)
    requires Ready(t) && lo <= hi <= p.Length && p !in Footprint(t)
    modifies Footprint(t), p
    ensures Ready(t) && Outgoing(t) == old(Outgoing(t))
    ensures n <= hi - lo && n <= |old(Incoming(t))|
    ensures p[..] == Splice(old(p[..]), lo, old(Incoming(t))[..n])
    ensures err == Some(WriteFault) ==> n == 0
    ensures err.None? || err.value == WriteFault || n > 0 ==> Incoming(t) == old(Incoming(t))[n..]
    ensures err.None? && lo < hi ==> n > 0
    ensures err.None? || err.value == WriteFault || n > 0 ==> EndComing(t) == old(EndComing(t))
    ensures err.Some? && err.value != WriteFault ==> n == |old(Incoming(t))| && err.value == old(EndComing(t))
    ensures err == Some(WriteFault) ==> t.Ws? && (!Takes(t) || Keyless(t) > old(Keyless(t)))
    ensures IsShut(t) == old(IsShut(t)) && Keyless(t) >= old(Keyless(t))
  {
    hide Stream, WsConn.Deliver, WsConn.Answers, WsConn.Framed, Speaking, WsConn.EndOf, Beyond;
    match t
    case Tcp(src, dst) => n, err := src.Read(p, lo, hi);
    case Ws(c) =>
      ghost var before, answered := c.Sending(), [];
      n, err, answered := c.Read(p, lo, hi);
      PongsUnseen(before, c.Sending(), answered, err == Some(WriteFault));
  }

  method Write(t: Transport, p: array<byte>, lo: nat, hi: nat) returns (n: nat, err: Result)
    requires Ready(t) && lo <= hi <= p.Length && hi - lo <= MAX_FRAME && p !in Footprint(t)
    modifies Footprint(t)
    ensures Ready(t) && Incoming(t) == old(Incoming(t))
    ensures old(Outgoing(t)) <= Outgoing(t) <= old(Outgoing(t)) + p[lo..hi]
    ensures err.None? ==> n == hi - lo && Outgoing(t) == old(Outgoing(t)) + p[lo..hi]
    ensures err.Some? ==> err.value == WriteFault && n <= hi - lo
    ensures err.Some? ==> !Takes(t) || Keyless(t) > old(Keyless(t))
    ensures IsShut(t) == old(IsShut(t)) && Keyless(t) >= old(Keyless(t)) && EndComing(t) == old(EndComing(t))
    ensures p[..] == old(p[..])
  {
    hide Stream, WsConn.Deliver, WsConn.Emitted, WsConn.Framed, Speaking, EncodeFrame;
    match t
    case Tcp(src, dst) => n, err := dst.Write(p[lo..hi]);
    case Ws(c) =>
      ghost var before := c.Sending();
      n, err := c.Write(p, lo, hi);
      WriteSeen(before, c.Sending(), p[lo..hi], c.maskOut);
  }

  /** Shuts the transport down: the peer sees nothing new, and what had arrived
      here may be lost. */
  method Close(t: Transport)
    requires Ready(t)
    modifies Footprint(t)
    ensures Ready(t) && IsClosed(t) && Outgoing(t) == old(Outgoing(t))
    ensures Incoming(t) <= old(Incoming(t))
  {
    hide Stream, WsConn.Deliver, WsConn.Wrote, WsConn.Failed, WsConn.Framed, Speaking;
    match t
    case Tcp(src, dst) =>
      dst.Close();
      src.Close();
    case Ws(c) =>
      ghost var before := c.Sending();
      c.Close();
      ghost var w: WsConn.Wire :|
        && c.Sending() == w.(shut := true) && WsConn.Framed(w)
        && (WsConn.Wrote(before, w, OP_CLOSE, [], c.maskOut) || WsConn.Failed(before, w, OP_CLOSE, [], c.maskOut));
      CloseSeen(before, w, c.maskOut);
  }

  ghost predicate IsClosed(t: Transport)
    reads Footprint(t)
  {
    match t
    case Tcp(src, dst) => dst.shut && src.end == Fault
    case Ws(c) => c.conn.shut && c.br.end == Fault
  }

  /** io.ReadFull over a transport. An empty range reads nothing at all. */
  method ReadFull(t: Transport, p: array<byte>) returns (err: Result)
    requires Ready(t) && p !in Footprint(t)
    modifies Footprint(t), p
    ensures Ready(t) && Outgoing(t) == old(Outgoing(t))
    ensures err.None? ==> (
      && p.Length <= |old(Incoming(t))|
      && p[..] == old(Incoming(t))[..p.Length]
      && Incoming(t) == old(Incoming(t))[p.Length..])
    ensures err.None? ==> EndComing(t) == old(EndComing(t))
    ensures err.Some? && err.value != WriteFault ==>
      |old(Incoming(t))| < p.Length && err.value == CutOff(|old(Incoming(t))|, old(EndComing(t)))
    ensures err == Some(WriteFault) ==> t.Ws? && (!Takes(t) || Keyless(t) > old(Keyless(t)))
    ensures IsShut(t) == old(IsShut(t)) && Keyless(t) >= old(Keyless(t))
  {
    hide Incoming, Outgoing, Ready, EndComing, Takes, IsShut, Keyless;
    ghost var due := Incoming(t);
    var n := 0;
    err := None;
    while n < p.Length && err.None?
      invariant n <= p.Length && n <= |due| && p[..n] == due[..n]
      invariant Ready(t) && Outgoing(t) == old(Outgoing(t))
      invariant err.None? || err.value == WriteFault || n == p.Length ==> Incoming(t) == due[n..]
      invariant err.None? || err.value == WriteFault || n == p.Length ==> EndComing(t) == old(EndComing(t))
      invariant err.Some? && err.value != WriteFault ==> n == |due| && err.value == old(EndComing(t))
      invariant err == Some(WriteFault) ==> t.Ws? && (!Takes(t) || Keyless(t) > old(Keyless(t)))
      invariant err == Some(WriteFault) ==> n < p.Length
      invariant IsShut(t) == old(IsShut(t)) && Keyless(t) >= old(Keyless(t))
      decreases p.Length - n, err.None?
    {
      ghost var m, left, before := n, due[n..], p[..];
      var k, e := Read(t, p, n, p.Length);
      n, err := n + k, e;
      assert due[..n] == due[..m] + left[..k];
      assert p[..n] == before[..m] + left[..k];
      assert left[k..] == due[n..];
    }
    if n == p.Length {
      err := None;
    } else if err == Some(Eof) && n > 0 {
      err := Some(UnexpectedEof);
    }
  }

  /** A framed connection. */
  class Conn {
    const t: Transport
    const hdr: array<byte>

    ghost predicate Valid()
      reads Footprint(t)
    {
      hdr.Length == 4 && hdr !in Footprint(t) && Ready(t)
    }

    constructor (t: Transport)
      requires Ready(t)
      ensures Valid() && this.t == t && fresh(hdr)
    {
      this.t := t;
      hdr := new byte[4](_ => 0);
    }

    /** Length prefix, then body, as two transport writes. Success puts exactly
        one encoded message on the stream; failure, at most a part of it. */
    method Send(b: array<byte>) returns (err: Result)
      requires Valid() && b !in Footprint(t) && b != hdr
      modifies Footprint(t), hdr
      ensures Valid() && Incoming(t) == old(Incoming(t))
      ensures b.Length > MAX_MESSAGE ==> err == Some(Protocol) && Outgoing(t) == old(Outgoing(t))
      ensures err.None? ==> Outgoing(t) == old(Outgoing(t)) + EncodeMessage(b[..])
      ensures old(Outgoing(t)) <= Outgoing(t) <= old(Outgoing(t)) + EncodeMessage(b[..])
      ensures err.Some? ==> b.Length > MAX_MESSAGE || !Takes(t) || Keyless(t) > old(Keyless(t))
      ensures IsShut(t) == old(IsShut(t)) && Keyless(t) >= old(Keyless(t))
      ensures b[..] == old(b[..])
    {
      hide Incoming, Outgoing, Ready, EndComing, Takes, IsShut, Keyless;
      if b.Length > MAX_MESSAGE { return Some(Protocol); }
      ghost var sofar, msg := Outgoing(t), b[..];
      var prefix := ToBE(b.Length, 4);
      forall i | 0 <= i < 4 { hdr[i] := prefix[i]; }
      assert hdr[0..4] == prefix;
      var n;
      n, err := Write(t, hdr, 0, 4);
      assert sofar + prefix + msg == sofar + EncodeMessage(msg);
      if err.Some? { return; }
      assert b[0..b.Length] == msg;
      n, err := Write(t, b, 0, b.Length);
    }

    /** The next message of the stream, if it holds one within the limit. */
    method Receive() returns (msg: bytes, err: Result)
      requires Valid()
      modifies Footprint(t), hdr
      ensures Valid() && Outgoing(t) == old(Outgoing(t))
      ensures err.None? ==> NextMessage(old(Incoming(t))) == Message(msg, Incoming(t))
      ensures err.None? ==> EndComing(t) == old(EndComing(t))
      ensures err.Some? && err.value != WriteFault ==>
        !NextMessage(old(Incoming(t))).Message? && err.value == NoMessage(old(Incoming(t)), old(EndComing(t)))
      ensures err == Some(WriteFault) ==> t.Ws? && (!Takes(t) || Keyless(t) > old(Keyless(t)))
      ensures IsShut(t) == old(IsShut(t)) && Keyless(t) >= old(Keyless(t))
    {
      hide Incoming, Outgoing, Ready, EndComing, Takes, IsShut, Keyless;
      ghost var s := Incoming(t);
      msg := [];
      err := ReadFull(t, hdr);
      if err.Some? { return; }
      var n := FromBE(hdr[..]);
      if n > MAX_MESSAGE { err := Some(Protocol); return; }
      var buf := new byte[n];
      err := ReadFull(t, buf);
      if err.Some? { return; }
      msg := buf[..];
      assert s[4..][..n] == s[4..4 + n] && s[4..][n..] == s[4 + n..];
    }
  }
}
