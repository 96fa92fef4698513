/** What client and relay say to each other before the relay starts to copy: a greeting
    and a room, and in the end "paired". */
module Hello {
  import opened Bytes
  import opened Net
  import opened Comm
  import opened Pipe

  const GREETING: bytes := Text("fsi/1")
  const PAIRED: bytes := Text("paired")

  /** The room a stream names: a second message that is not empty, after the greeting. */
  function RoomNamed(s: bytes): Option<bytes> {
    match NextMessage(s)
    case Message(greeting, rest) =>
      if greeting != GREETING then None
      else (match NextMessage(rest)
            case Message(room, _) => if room == [] then None else Some(room)
            case _ => None)
    case _ => None
  }

  /** The relay's side: it learns the room that was named, unless a pong cannot be sent,
      and takes nothing that comes after it. */
  method Welcome(c: Conn) returns (room: Option<bytes>)
    requires c.Valid()
    modifies Footprint(c.t), c.hdr
    ensures c.Valid() && Outgoing(c.t) == old(Outgoing(c.t))
    ensures room.Some? ==> room == RoomNamed(old(Incoming(c.t)))
    ensures room.Some? ==> old(Incoming(c.t)) == EncodeMessages([GREETING, room.value]) + Incoming(c.t)
    ensures room.None? ==> RoomNamed(old(Incoming(c.t))).None? || Lamed(c.t, old(Keyless(c.t)))
  {
    hide Incoming, Outgoing, Ready, EndComing, Takes, IsShut, Keyless, NextMessage, EncodeMessages;
    ghost var s := Incoming(c.t);
    var greeting, err := c.Receive();
    if err.Some? || greeting != GREETING { return None; }
    ghost var rest := Incoming(c.t);
    var name;
    name, err := c.Receive();
    if err.Some? || name == [] { return None; }
    MessageEncoded(s);
    MessageEncoded(rest);
    TwoMessages(GREETING, name);
    room := Some(name);
  }

  /** The client's side: greeting and room go out, and "paired" must come back. A failure
      closes the connection, and `lamed` tells whether it could not be written to. */
  method Join(c: Conn, room: bytes) returns (ok: bool, ghost lamed: bool)
    requires c.Valid()
    modifies Footprint(c.t), c.hdr
    ensures c.Valid()
    ensures old(Outgoing(c.t)) <= Outgoing(c.t) <= old(Outgoing(c.t)) + EncodeMessages([GREETING, room])
    ensures ok ==> Outgoing(c.t) == old(Outgoing(c.t)) + EncodeMessages([GREETING, room])
    ensures ok ==> NextMessage(old(Incoming(c.t))) == Message(PAIRED, Incoming(c.t))
    ensures !ok ==> IsClosed(c.t)
    ensures !ok ==> (
      || |room| > MAX_MESSAGE || lamed
      || !NextMessage(old(Incoming(c.t))).Message? || NextMessage(old(Incoming(c.t))).msg != PAIRED)
  {
    hide Incoming, Outgoing, Ready, EndComing, Takes, IsShut, IsClosed, Keyless, NextMessage, EncodeMessages, EncodeMessage;
    ghost var sent := Outgoing(c.t);
    TwoMessages(GREETING, room);
    ok, lamed := Say(c, GREETING);
    if ok { ok, lamed := Say(c, room); }
    assert Outgoing(c.t) <= sent + EncodeMessages([GREETING, room]);
    if ok {
      ghost var before := Keyless(c.t);
      var reply, err := c.Receive();
      ok, lamed := err.None? && reply == PAIRED, Lamed(c.t, before);
    }
    if !ok { Close(c.t); }
  }

  /** SendString. */
  method Say(c: Conn, text: bytes) returns (ok: bool, ghost lamed: bool)
    requires c.Valid()
    modifies Footprint(c.t), c.hdr
    ensures c.Valid() && Incoming(c.t) == old(Incoming(c.t))
    ensures old(Outgoing(c.t)) <= Outgoing(c.t) <= old(Outgoing(c.t)) + EncodeMessage(text)
    ensures ok ==> Outgoing(c.t) == old(Outgoing(c.t)) + EncodeMessage(text)
    ensures !ok ==> |text| > MAX_MESSAGE || lamed
  {
    hide Incoming, Outgoing, Ready, EndComing, Takes, IsShut, Keyless, EncodeMessage;
    var b := new byte[|text|](i requires 0 <= i < |text| => text[i]);
    assert b[..] == text;
    var err := c.Send(b);
    ok, lamed := err.None?, Lamed(c.t, old(Keyless(c.t)));
  }

  /** The second of a pair tells both, the one that waited first. If either cannot be
      told, both connections are closed, and only then. */
  method TellPair(partner: Conn, c: Conn) returns (ok: bool, ghost lamed: bool)
    requires partner.Valid() && c.Valid() && Footprint(partner.t) !! Footprint(c.t)
    requires partner.hdr != c.hdr && partner.hdr !in Footprint(c.t) && c.hdr !in Footprint(partner.t)
    modifies Footprint(partner.t), Footprint(c.t), partner.hdr, c.hdr
    ensures partner.Valid() && c.Valid()
    ensures old(Outgoing(partner.t)) <= Outgoing(partner.t) <= old(Outgoing(partner.t)) + EncodeMessage(PAIRED)
    ensures old(Outgoing(c.t)) <= Outgoing(c.t) <= old(Outgoing(c.t)) + EncodeMessage(PAIRED)
    ensures Outgoing(c.t) != old(Outgoing(c.t)) ==> Outgoing(partner.t) == old(Outgoing(partner.t)) + EncodeMessage(PAIRED)
    ensures ok ==> Outgoing(partner.t) == old(Outgoing(partner.t)) + EncodeMessage(PAIRED)
    ensures ok ==> Outgoing(c.t) == old(Outgoing(c.t)) + EncodeMessage(PAIRED)
    ensures ok ==> Incoming(partner.t) == old(Incoming(partner.t)) && Incoming(c.t) == old(Incoming(c.t))
    ensures !ok ==> IsClosed(partner.t) && IsClosed(c.t) && lamed
  {
    hide Incoming, Outgoing, Ready, EndComing, Takes, IsShut, IsClosed, Keyless, EncodeMessage;
    assert |PAIRED| <= MAX_MESSAGE;
    ok, lamed := Say(partner, PAIRED);
    if ok { ok, lamed := Say(c, PAIRED); }
    if !ok {
      Close(partner.t);
      Close(c.t);
    }
  }

  lemma MessageEncoded(s: bytes)
    requires NextMessage(s).Message?
    ensures s == EncodeMessage(NextMessage(s).msg) + NextMessage(s).rest
    ensures |NextMessage(s).msg| <= MAX_MESSAGE
  {
    ToFromBE(s[..4]);
  }

  lemma TwoMessages(a: bytes, b: bytes)
    ensures EncodeMessages([a, b]) == EncodeMessage(a) + EncodeMessage(b)
  {
    hide EncodeMessage;
    assert [a, b][1..] == [b] && [b][1..] == [];
    assert EncodeMessages([b]) == EncodeMessage(b) + EncodeMessages([]) == EncodeMessage(b);
  }

  /** Exactly what a client sends to join a room names it, with anything after it. */
  lemma RoomNamedExactlyWhen(s: bytes, room: bytes)
    ensures RoomNamed(s) == Some(room) <==>
      room != [] && |room| <= MAX_MESSAGE && exists tail :: s == EncodeMessages([GREETING, room]) + tail
  {
    hide NextMessage, EncodeMessage, EncodeMessages;
    TwoMessages(GREETING, room);
    if tail :| room != [] && |room| <= MAX_MESSAGE && s == EncodeMessages([GREETING, room]) + tail {
      assert s == EncodeMessage(GREETING) + (EncodeMessage(room) + tail);
      NextOfEncoded(GREETING, EncodeMessage(room) + tail);
      NextOfEncoded(room, tail);
    }
    if RoomNamed(s) == Some(room) {
      var rest := NextMessage(s).rest;
      var tail := NextMessage(rest).rest;
      MessageEncoded(s);
      MessageEncoded(rest);
      assert s == EncodeMessages([GREETING, room]) + tail;
    }
  }
}
