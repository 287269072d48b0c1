/** The wire, written out as numbers: every packet byte by byte (sections 2.2 to 3.14 of MQTT 3.1.1). */
module Layout {
  import opened Bytes
  import opened Errors
  import opened Packets
  import opened ClientConfig
  import PB = PayloadBuffer
  import RL = RemainingLength

  // ---------------------------------------------------------------- numbers

  lemma ErrorNumbers()
    ensures E_NONE == 0 && E_MEM_OUT == 3
    ensures E_NET_SOCK == 4 && E_NET_CONN == 5 && E_NET_XFER == 6 && E_SESS_ACK == 7
  {
  }

  /** The largest length, the asserted bound, and the scratch bytes of the encoder. */
  lemma LengthLimits()
    ensures RL.MAX_REMAINING == 268435455 && RL.CHECKED_BOUND == 0xFFFFFF7F && RL.SCRATCH == 4
  {
  }

  lemma TypeNumbers()
    ensures CONNECT == 1 && CONNACK == 2 && PUBLISH == 3 && PUBACK == 4 && PUBREC == 5 && PUBREL == 6 && PUBCOMP == 7
    ensures SUBSCRIBE == 8 && SUBACK == 9 && UNSUBSCRIBE == 10 && UNSUBACK == 11
    ensures PINGREQ == 12 && PINGRESP == 13 && DISCONNECT == 14
  {
  }

  /** The length code of a number with the base-128 digits a, b, c, d, the least significant one first. */
  lemma LengthBytes(a: nat, b: nat, c: nat, d: nat)
    requires a < 128 && b < 128 && c < 128 && d < 128
    ensures RL.Encode(a) == [a]
    ensures b > 0 ==> RL.Encode(a + 128 * b) == [128 + a, b]
    ensures c > 0 ==> RL.Encode(a + 128 * b + 16384 * c) == [128 + a, 128 + b, c]
    ensures d > 0 ==> RL.Encode(a + 128 * b + 16384 * c + 2097152 * d) == [128 + a, 128 + b, 128 + c, d]
  {
    OneByte(a);
    OneByte(b);
    OneByte(c);
    OneByte(d);
    hide RL.Encode;
    MoreBytes(a, b);
    MoreBytes(a, b + 128 * c);
    MoreBytes(a, b + 128 * c + 16384 * d);
    MoreBytes(b, c);
    MoreBytes(b, c + 128 * d);
    MoreBytes(c, d);
  }

  lemma OneByte(n: nat)
    requires n < 128
    ensures RL.Encode(n) == [n]
  {
  }

  lemma MoreBytes(digit: nat, n: nat)
    requires digit < 128
    ensures n > 0 ==> RL.Encode(digit + 128 * n) == [128 + digit] + RL.Encode(n)
  {
    if n > 0 {
      RL.ReencodeStep(128 + digit, n);
    }
  }

  /** The decoders' error value is -1 in 32 bits. */
  lemma MalformedNumber(a: byte, b: byte, c: byte, d: byte)
    requires a >= 128 && b >= 128 && c >= 128 && d >= 128
    ensures RL.Decode([a, b, c, d]) == RL.Decoded(0xFFFFFFFF, 4)
  {
    RL.MalformedIff([a, b, c, d]);
  }

  /** The four fields of a control byte. */
  lemma ControlByte(f: CtlFlag, b: byte)
    ensures FlagByte(f) == 16 * f.kind + (if f.dup then 8 else 0) + 2 * f.qos + (if f.retain then 1 else 0)
    ensures FlagOf(b).kind == b / 16 && FlagOf(b).qos == b / 2 % 4
    ensures (FlagOf(b).dup <==> b / 8 % 2 == 1) && (FlagOf(b).retain <==> b % 2 == 1)
  {
  }

  // ---------------------------------------------------------------- packets

  /** The packets that carry nothing but an id. */
  lemma AckBytes(id: uint16)
    ensures Encode(Ack(PUBACK, id)) == [0x40, 2, id / 256, id % 256]
    ensures Encode(Ack(PUBREC, id)) == [0x50, 2, id / 256, id % 256]
    ensures Encode(Ack(PUBREL, id)) == [0x62, 2, id / 256, id % 256]
    ensures Encode(Ack(PUBCOMP, id)) == [0x70, 2, id / 256, id % 256]
    ensures Encode(Ack(UNSUBACK, id)) == [0xB0, 2, id / 256, id % 256]
  {
  }

  lemma BareBytes()
    ensures Encode(Bare(PINGREQ)) == [0xC0, 0]
    ensures Encode(Bare(PINGRESP)) == [0xD0, 0]
    ensures Encode(Bare(DISCONNECT)) == [0xE0, 0]
  {
  }

  lemma FrameBytes(h: CtlFlag, body: bytes)
    ensures Frame(h, body) == [FlagByte(h)] + (RL.Encode(|body|) + body)
  {
    hide FlagByte, RL.Encode;
    Assoc([FlagByte(h)], RL.Encode(|body|), body);
  }

  lemma FirstBytes()
    ensures FlagByte(FixedHeader(CONNECT)) == 0x10 && FlagByte(FixedHeader(SUBSCRIBE)) == 0x82
    ensures FlagByte(FixedHeader(SUBACK)) == 0x90 && FlagByte(FixedHeader(UNSUBSCRIBE)) == 0xA2
  {
  }

  lemma U16Bytes(n: uint16)
    ensures U16(n) == [n / 256, n % 256]
  {
  }

  /** The packets that carry an id and a payload. */
  lemma ListedBytes(id: uint16, content: bytes)
    ensures var rest := RL.Encode(2 + |content|) + ([id / 256, id % 256] + content);
            && Encode(Listed(SUBSCRIBE, id, content)) == [0x82] + rest
            && Encode(Listed(SUBACK, id, content)) == [0x90] + rest
            && Encode(Listed(UNSUBSCRIBE, id, content)) == [0xA2] + rest
  {
    hide RL.Encode, Frame, FlagByte, FixedHeader, U16;
    FirstBytes();
    U16Bytes(id);
    FrameBytes(FixedHeader(SUBSCRIBE), U16(id) + content);
    FrameBytes(FixedHeader(SUBACK), U16(id) + content);
    FrameBytes(FixedHeader(UNSUBSCRIBE), U16(id) + content);
  }

  /** Name and level of the protocol, flags, keep-alive, payload. */
  lemma ConnectBytes(flags: byte, keepAlive: uint16, content: bytes)
    ensures Encode(Connect(flags, keepAlive, content)) ==
            [0x10] + (RL.Encode(10 + |content|)
                      + ([0, 4, 77, 81, 84, 84, 4, flags, keepAlive / 256, keepAlive % 256] + content))
  {
    hide RL.Encode, Frame, FlagByte, FixedHeader, U16, PROTOCOL;
    FirstBytes();
    ConnectHead(flags, keepAlive);
    FrameBytes(FixedHeader(CONNECT), PROTOCOL + [flags] + U16(keepAlive) + content);
  }

  lemma ConnectHead(flags: byte, keepAlive: uint16)
    ensures PROTOCOL + [flags] + U16(keepAlive)
         == [0, 4, 77, 81, 84, 84, 4, flags, keepAlive / 256, keepAlive % 256]
  {
  }

  lemma PublishBytes(dup: bool, qos: twobit, retain: bool, topic: text, id: uint16, content: bytes)
    ensures var first := 0x30 + (if dup then 8 else 0) + 2 * qos + (if retain then 1 else 0);
            var number := if qos > 0 then [id / 256, id % 256] else [];
            var body := [|topic| / 256, |topic| % 256] + topic + number + content;
            Encode(Publish(dup, qos, retain, topic, id, content)) == [first] + RL.Encode(|body|) + body
  {
    hide RL.Encode;
  }

  /** The fields of the replies a client waits for. */
  lemma ReplyFields(x: byte, hi: byte, lo: byte, code: byte)
    ensures AckInBounds([x, 2, hi, lo])
    ensures ViewAck([x, 2, hi, lo]).vars == IdVars(256 * hi + lo)
    ensures ViewConnack([x, 2, hi, lo]).vars == ConnackVars(hi, lo)
    ensures ListedInBounds([x, 3, hi, lo, code])
    ensures ViewListed([x, 3, hi, lo, code]).vars == IdVars(256 * hi + lo)
    ensures ViewListed([x, 3, hi, lo, code]).content == [code]
  {
    assert [x, 2, hi, lo][1..] == [2, hi, lo] && [x, 3, hi, lo, code][1..] == [3, hi, lo, code];
    ShortLength(2, [2, hi, lo]);
    ShortLength(3, [3, hi, lo, code]);
  }

  lemma ShortLength(n: byte, b: bytes)
    requires n < 128 && b != [] && b[0] == n
    ensures RL.InBounds(b) && RL.Decode(b) == RL.Decoded(n, 1)
  {
    RL.SingleValue(b[..1]);
  }

  // ---------------------------------------------------------------- payload items

  /** What the payload writers append. */
  lemma ItemBytes(s: cstring, b: byte, r: bytes)
    ensures var n := |s| % 65536; PB.Emit(PB.Str(s)) == [n / 256, n % 256] + s[..n]
    ensures PB.Emit(PB.Byte(b)) == [b] && PB.Emit(PB.Raw(r)) == r
  {
  }

  // ---------------------------------------------------------------- CONNECT from a configuration

  lemma ConnectFlagBits(c: Config)
    ensures ConnectFlags(c) ==
            (if c.user.Some? then 128 else 0) + (if c.password.Some? then 64 else 0) + (if c.willRetain then 32 else 0)
            + 8 * c.willQos + (if c.willTopic.Some? && c.willMessage.Some? then 4 else 0)
            + (if c.cleanSession then 2 else 0)
  {
  }

  /** What a server is to learn from a CONNECT. */
  lemma InfoIs(c: Config)
    ensures var info := InfoOf(c);
            && info.clientId == c.clientId && info.user == c.user && info.password == c.password
            && (info.will.Some? <==> c.willTopic.Some? && c.willMessage.Some?)
            && (info.will.Some? ==> info.will.value == (c.willTopic.value, c.willMessage.value))
  {
  }

  function Prefixed(s: cstring): bytes {
    var n := |s| % 65536;
    [n / 256, n % 256] + s[..n]
  }

  function IfAny(s: Option<cstring>): bytes {
    if s.Some? then Prefixed(s.value) else []
  }

  /** The payload of CONNECT, if it fits 1012 bytes: client id, will topic and message if there are both, user name,
      password. */
  lemma ConnectPayload(c: Config)
    ensures var hasWill := c.willTopic.Some? && c.willMessage.Some?;
            var will := if hasWill then IfAny(c.willTopic) + IfAny(c.willMessage) else [];
            var all := Prefixed(c.clientId) + will + IfAny(c.user) + IfAny(c.password);
            |all| <= 1012 ==> ConnectContent(c) == all
  {
    var items := ConnectItems(c);
    PB.WritesAppend(CONNECT_CAPACITY, [], items);
    hide PB.WriteAll, PB.Emit, PB.EmitAll, Prefixed;
    var will := if HasWill(c) then [PB.Str(c.willTopic.value), PB.Str(c.willMessage.value)] else [];
    var first := [PB.Str(c.clientId)];
    EmitConcat(first + will + Optional(c.user), Optional(c.password));
    EmitConcat(first + will, Optional(c.user));
    EmitConcat(first, will);
    EmitOne(c.clientId);
    if HasWill(c) {
      EmitConcat([PB.Str(c.willTopic.value)], [PB.Str(c.willMessage.value)]);
      EmitOne(c.willTopic.value);
      EmitOne(c.willMessage.value);
      assert will == [PB.Str(c.willTopic.value)] + [PB.Str(c.willMessage.value)];
    }
    if c.user.Some? {
      EmitOne(c.user.value);
    }
    if c.password.Some? {
      EmitOne(c.password.value);
    }
    EmitNone();
    Assoc(PB.EmitAll(items), [], []);
  }

  lemma EmitNone()
    ensures PB.EmitAll([]) == []
  {
  }

  lemma EmitOne(s: cstring)
    ensures PB.EmitAll([PB.Str(s)]) == Prefixed(s)
  {
    hide PB.Emit;
    ItemBytes(s, 0, []);
    assert [PB.Str(s)][1..] == [];
    Assoc(Prefixed(s), [], []);
  }

  lemma {:induction false} EmitConcat(a: seq<PB.Item>, b: seq<PB.Item>)
    ensures PB.EmitAll(a + b) == PB.EmitAll(a) + PB.EmitAll(b)
  {
    hide PB.Emit;
    if a == [] {
      Assoc(b, [], []);
      Assoc(PB.EmitAll(b), [], []);
    } else {
      assert (a + b)[1..] == a[1..] + b;
      EmitConcat(a[1..], b);
      Assoc(PB.Emit(a[0]), PB.EmitAll(a[1..]), PB.EmitAll(b));
    }
  }

  /** The CONNECT of the default configuration. */
  lemma DefaultConnect()
    ensures Encode(ConnectPacket(DEFAULT_CONFIG)) ==
            [0x10, 29, 0, 4, 77, 81, 84, 84, 4, 2, 0, 32]
            + [0, 17, 115, 104, 121, 108, 111, 99, 107, 45, 97, 114, 99, 104, 108, 105, 110, 117, 120]
  {
    hide Encode, ConnectContent, ConnectFlags, RL.Encode, Prefixed, DEFAULT_CONFIG;
    DefaultPayload();
    ConnectBytes(2, 32, DefaultContent());
    OneByte(29);
    HeadOfDefault(DefaultContent());
  }

  lemma HeadOfDefault(content: bytes)
    ensures [0x10] + ([29] + ([0, 4, 77, 81, 84, 84, 4, 2, 0, 32] + content))
         == [0x10, 29, 0, 4, 77, 81, 84, 84, 4, 2, 0, 32] + content
  {
  }

  function DefaultContent(): bytes {
    [0, 17, 115, 104, 121, 108, 111, 99, 107, 45, 97, 114, 99, 104, 108, 105, 110, 117, 120]
  }

  lemma DefaultPayload()
    ensures ConnectContent(DEFAULT_CONFIG) == DefaultContent()
    ensures ConnectFlags(DEFAULT_CONFIG) == 2 && DEFAULT_CONFIG.keepAlive == 32
  {
    hide ConnectContent, ConnectFlags;
    ConnectFlagBits(DEFAULT_CONFIG);
    ConnectPayload(DEFAULT_CONFIG);
    var id := DEFAULT_CONFIG.clientId;
    assert |id| == 17;
    assert Prefixed(id) == [0, 17] + id;
  }
}
