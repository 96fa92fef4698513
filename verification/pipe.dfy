/** The relay's byte pump, and what it means for messages that cross it. */
module Pipe {
  import opened Bytes
  import opened Net
  import opened WsFrame
  import opened Comm
  import WsConn

  /** The buffer io.Copy uses. */
  const COPY_BUFFER: nat := 32 * 1024

  /** Why something could not be sent: the transport takes no more, or there was no
      mask key. */
  ghost predicate Lamed(t: Transport, before: nat)
    reads Footprint(t)
  {
    !Takes(t) || Keyless(t) > before
  }

  /** One round of the copy loop: a read, and a write of what was read. */
  method Forward(dst: Transport, src: Transport, buf: array<byte>) returns (nr: nat, er: Result, nw: nat, ew: Result)
    requires Ready(dst) && Ready(src) && Footprint(dst) !! Footprint(src)
    requires buf !in Footprint(dst) + Footprint(src) && 0 < buf.Length <= MAX_FRAME
    modifies Footprint(dst), Footprint(src), buf
    ensures Ready(dst) && Ready(src)
    ensures Incoming(dst) == old(Incoming(dst)) && Outgoing(src) == old(Outgoing(src))
    ensures nr <= |old(Incoming(src))|
    ensures nr == 0 ==> RawSent(dst) == old(RawSent(dst))
    ensures old(Outgoing(dst)) <= Outgoing(dst) <= old(Outgoing(dst)) + old(Incoming(src))[..nr]
    ensures ew.None? ==> Outgoing(dst) == old(Outgoing(dst)) + old(Incoming(src))[..nr]
    ensures er.None? || er.value == WriteFault ==> Incoming(src) == old(Incoming(src))[nr..]
    ensures er.None? ==> nr > 0
    ensures er.None? ==> EndComing(src) == old(EndComing(src))
    ensures er.Some? && er.value != WriteFault ==> nr == |old(Incoming(src))| && er.value == old(EndComing(src))
    ensures er == Some(WriteFault) ==> Lamed(src, old(Keyless(src)))
    ensures ew.Some? ==> Lamed(dst, old(Keyless(dst)))
    ensures IsShut(dst) == old(IsShut(dst)) && IsShut(src) == old(IsShut(src))
    ensures Keyless(dst) >= old(Keyless(dst)) && Keyless(src) >= old(Keyless(src))
    ensures ew.Some? ==> ew.value == WriteFault && nw <= nr
    ensures ew.None? ==> nw == nr
  {
    hide Incoming, Outgoing, Ready, EndComing, Takes, IsShut, Keyless;
    ghost var due := Incoming(src);
    nw, ew := 0, None;
    nr, er := Read(src, buf, 0, buf.Length);
    if nr > 0 {
      assert buf[0..nr] == due[..nr];
      nw, ew := Write(dst, buf, 0, nr);
    }
  }

  lemma OneMore(sent: bytes, due: bytes, w: nat, k: nat)
    requires w <= |due| && k <= |due| - w
    ensures sent + due[..w] + due[w..][..k] == sent + due[..w + k] <= sent + due
    ensures due[w..][k..] == due[w + k..]
  {}

  /** io.Copy: forward until the source ends or a write fails. The boundaries
      of reads and writes are arbitrary; the bytes are not. */
  method Copy(dst: Transport, src: Transport) returns (written: nat, err: Result)
    requires Ready(dst) && Ready(src) && Footprint(dst) !! Footprint(src)
    modifies Footprint(dst), Footprint(src)
    ensures Ready(dst) && Ready(src)
    ensures Incoming(dst) == old(Incoming(dst)) && Outgoing(src) == old(Outgoing(src))
    ensures old(Outgoing(dst)) <= Outgoing(dst) <= old(Outgoing(dst)) + old(Incoming(src))
    ensures err != Some(WriteFault) ==>
      written == |old(Incoming(src))| && Outgoing(dst) == old(Outgoing(dst)) + old(Incoming(src))
    ensures err != Some(WriteFault) ==> err == if old(EndComing(src)) == Eof then None else Some(old(EndComing(src)))
    ensures err == Some(WriteFault) ==> Lamed(dst, old(Keyless(dst))) || Lamed(src, old(Keyless(src)))
    ensures IsShut(dst) == old(IsShut(dst)) && IsShut(src) == old(IsShut(src))
  {
    hide Incoming, Outgoing, Ready, EndComing, Takes, IsShut, Keyless;
    var buf := new byte[COPY_BUFFER];
    ghost var sent, due := Outgoing(dst), Incoming(src);
    written, err := 0, None;
    var more := true;
    assert sent + due[..0] == sent;
    while more
      invariant written <= |due|
      invariant Ready(dst) && Ready(src)
      invariant Outgoing(src) == old(Outgoing(src)) && Incoming(dst) == old(Incoming(dst))
      invariant err != Some(WriteFault) ==> Outgoing(dst) == sent + due[..written]
      invariant more ==> err.None? && Incoming(src) == due[written..] && EndComing(src) == old(EndComing(src))
      invariant !more && err != Some(WriteFault) ==>
        err == if old(EndComing(src)) == Eof then None else Some(old(EndComing(src)))
      invariant err == Some(WriteFault) ==> Lamed(dst, old(Keyless(dst))) || Lamed(src, old(Keyless(src)))
      invariant IsShut(dst) == old(IsShut(dst)) && IsShut(src) == old(IsShut(src))
      invariant Keyless(dst) >= old(Keyless(dst)) && Keyless(src) >= old(Keyless(src))
      invariant sent <= Outgoing(dst) <= sent + due
      invariant !more && err != Some(WriteFault) ==> written == |due|
      decreases more, |due| - written
    {
      var nr, er, nw, ew := Forward(dst, src, buf);
      OneMore(sent, due, written, nr);
      written := written + nw;
      more := er.None? && ew.None?;
      err := if ew.Some? then ew else if er == Some(Eof) then None else er;
    }
  }

  /** One of pipe's two goroutines: a copy, and then both connections closed,
      whatever the reason. */
  method CopyOnce(dst: Transport, src: Transport) returns (ghost err: Result, ghost lamed: bool)
    requires Ready(dst) && Ready(src) && Footprint(dst) !! Footprint(src)
    modifies Footprint(dst), Footprint(src)
    ensures Ready(dst) && Ready(src) && IsClosed(dst) && IsClosed(src)
    ensures Incoming(dst) <= old(Incoming(dst)) && Outgoing(src) == old(Outgoing(src))
    ensures old(Outgoing(dst)) <= Outgoing(dst) <= old(Outgoing(dst)) + old(Incoming(src))
    ensures err != Some(WriteFault) ==> Outgoing(dst) == old(Outgoing(dst)) + old(Incoming(src))
    ensures err == Some(WriteFault) ==> lamed
  {
    hide Incoming, Outgoing, Ready, Takes, IsShut, Keyless;
    var written, e := Copy(dst, src);
    err, lamed := e, Lamed(dst, old(Keyless(dst))) || Lamed(src, old(Keyless(src)));
    Close(dst);
    Close(src);
  }

  // ------------------------------------------------------- layered delivery

  /** The contracts of Send, Receive and Copy speak of Outgoing and Incoming; a
      fresh peer connection reading any prefix of what a transport really wrote,
      even one whose last write failed inside a frame, has a prefix of exactly
      these bytes coming to it, and all of them once everything has arrived. */
  lemma PeerReads(t: Transport, peer: Transport, arrived: bytes)
    requires Ready(peer) && t.Ws? == peer.Ws? && arrived <= RawSent(t)
    requires match peer
             case Tcp(src, _) => src.pending == arrived
             case Ws(c) => c.rest == 0 && c.br.pending == arrived
    ensures Incoming(peer) == Carried(t.Ws?, arrived) <= Outgoing(t)
    ensures arrived == RawSent(t) ==> Incoming(peer) == Outgoing(t)
  {
    hide Stream, Speaking;
    match peer
    case Tcp(src, _) =>
    case Ws(c) =>
      WsConn.DeliverAtBoundary(c.br.pending, c.rmask, c.key[..], c.keyPos);
      StreamMonotone(RawSent(t), arrived);
  }

  lemma CutCarries(ws: bool, raw: bytes, arrived: bytes)
    requires arrived <= raw
    ensures Carried(ws, arrived) <= Carried(ws, raw)
  {
    if ws { StreamMonotone(raw, arrived); }
  }

  /** One hop of a connection: raw bytes put on a wire of one kind or the other. */
  datatype Hop = Hop(ws: bool, raw: bytes)

  /** A client sends some messages, of which the relay itself takes the first
      ones; the relay sends some of its own to the other client and then forwards
      what it reads. However the messages were chunked and framed on either hop,
      wherever a failing writer, the network or the relay cut either hop off: the
      receiver gets the relay's messages and then the first of those after the
      ones taken, each one whole, in order; and all of them when nothing was cut. */
  lemma LayeredDelivery(taken: seq<bytes>, ms: seq<bytes>, told: seq<bytes>,
                        up: Hop, arrived: bytes, forwarded: bytes, down: Hop, received: bytes)
    requires Sendable(ms) && Sendable(told)
    requires Carried(up.ws, up.raw) <= EncodeMessages(taken + ms)
    requires arrived <= up.raw && EncodeMessages(taken) + forwarded <= Carried(up.ws, arrived)
    requires Carried(down.ws, down.raw) <= EncodeMessages(told) + forwarded
    requires received <= down.raw
    ensures Messages(Carried(down.ws, received)) <= told + ms
    ensures (
      && EncodeMessages(taken) + forwarded == EncodeMessages(taken + ms)
      && received == down.raw && Carried(down.ws, down.raw) == EncodeMessages(told) + forwarded
    ) ==> Messages(Carried(down.ws, received)) == told + ms
  {
    hide Messages, EncodeMessages, Carried;
    CutCarries(up.ws, up.raw, arrived);
    CutCarries(down.ws, down.raw, received);
    EncodeAppend(taken, ms);
    EncodeAppend(told, ms);
    Behind(EncodeMessages(taken), forwarded, EncodeMessages(ms));
    assert EncodeMessages(told) + forwarded <= EncodeMessages(told + ms);
    AllMessages(told + ms);
    MessagesMonotone(EncodeMessages(told + ms), Carried(down.ws, received));
  }

  lemma Behind(a: bytes, b: bytes, c: bytes)
    requires a + b <= a + c
    ensures b <= c && (a + b == a + c ==> b == c)
  {
    assert (a + b)[|a|..] == b && (a + c)[|a|..] == c;
  }

  lemma {:induction false} EncodeAppend(ms: seq<bytes>, more: seq<bytes>)
    ensures EncodeMessages(ms + more) == EncodeMessages(ms) + EncodeMessages(more)
  {
    hide EncodeMessage;
    if ms == [] {
      assert ms + more == more;
    } else {
      assert (ms + more)[1..] == ms[1..] + more;
      EncodeAppend(ms[1..], more);
      Assoc(EncodeMessage(ms[0]), EncodeMessages(ms[1..]), EncodeMessages(more));
    }
  }

  lemma AllMessages(ms: seq<bytes>)
    requires Sendable(ms)
    ensures Messages(EncodeMessages(ms)) == ms
  {
    MessagesRoundTrip(ms, []);
    assert EncodeMessages(ms) + [] == EncodeMessages(ms);
  }
}
