/** Control packets: their wire form, and the pack and unpack functions. */
module Packets {
  import opened Bytes
  import RL = RemainingLength

  const CONNECT := 1
  const CONNACK := 2
  const PUBLISH := 3
  const PUBACK := 4
  const PUBREC := 5
  const PUBREL := 6
  const PUBCOMP := 7
  const SUBSCRIBE := 8
  const SUBACK := 9
  const UNSUBSCRIBE := 10
  const UNSUBACK := 11
  const PINGREQ := 12
  const PINGRESP := 13
  const DISCONNECT := 14

  // ---------------------------------------------------------------- the control byte

  type nibble = n: int | 0 <= n < 16
  type twobit = n: int | 0 <= n < 4

  datatype CtlFlag = CtlFlag(kind: nibble, dup: bool, qos: twobit, retain: bool)

  function Bit(b: bool): (n: nat)
    ensures n <= 1 && (b <==> n == 1)
  {
    if b then 1 else 0
  }

  function FlagByte(f: CtlFlag): byte {
    f.kind * 16 + Bit(f.dup) * 8 + f.qos * 2 + Bit(f.retain)
  }

  function FlagOf(b: byte): CtlFlag {
    CtlFlag(b / 16, b / 8 % 2 == 1, b / 2 % 4, b % 2 == 1)
  }

  /** The control byte and its four fields determine each other. */
  lemma FlagInverse(f: CtlFlag, b: byte)
    ensures FlagOf(FlagByte(f)) == f
    ensures FlagByte(FlagOf(b)) == b
  {
    Fields(f.kind, Bit(f.dup), f.qos, Bit(f.retain));
    Fields(b / 16, b / 8 % 2, b / 2 % 4, b % 2);
    Digits(b);
  }

  lemma Fields(kind: nat, dup: nat, qos: nat, retain: nat)
    requires dup <= 1 && qos <= 3 && retain <= 1
    ensures var x := kind * 16 + dup * 8 + qos * 2 + retain;
            x / 16 == kind && x / 8 % 2 == dup && x / 2 % 4 == qos && x % 2 == retain
  {
    var z := kind * 2 + dup;
    var y := z * 4 + qos;
    var x := y * 2 + retain;
    Halve(kind, dup);
    Quarter(z, qos);
    Halve(y, retain);
    DivDiv(x);
  }

  lemma Halve(q: nat, r: nat)
    requires r < 2
    ensures (q * 2 + r) / 2 == q && (q * 2 + r) % 2 == r
  {
  }

  lemma Quarter(q: nat, r: nat)
    requires r < 4
    ensures (q * 4 + r) / 4 == q && (q * 4 + r) % 4 == r
  {
  }

  lemma DivDiv(x: nat)
    ensures x / 8 == x / 2 / 4 && x / 16 == x / 8 / 2
  {
  }

  lemma Digits(b: byte)
    ensures b == b / 16 * 16 + b / 8 % 2 * 8 + b / 2 % 4 * 2 + b % 2
  {
    var x, y: nat := b / 8, b / 2;
    assert x == x / 2 * 2 + x % 2 && x / 2 == b / 16;
    assert y == y / 4 * 4 + y % 4 && y / 4 == x;
  }

  /** What the packer of the control byte asserts. */
  predicate FlagOk(f: CtlFlag) {
    0 < f.kind < 15 && f.qos <= 2
  }

  /** The control byte of every packet type but PUBLISH. */
  function FixedHeader(kind: nibble): CtlFlag {
    CtlFlag(kind, false, if kind in {PUBREL, SUBSCRIBE, UNSUBSCRIBE} then 1 else 0, false)
  }

  // ---------------------------------------------------------------- frames

  /** A control byte, the Remaining Length, and that many bytes. */
  function Frame(h: CtlFlag, body: bytes): (f: bytes)
    ensures |f| == 1 + |RL.Encode(|body|)| + |body|
  {
    [FlagByte(h)] + RL.Encode(|body|) + body
  }

  /** The fixed header lies within `b`. */
  predicate Opens(b: bytes) {
    b != [] && RL.InBounds(b[1..])
  }

  function HeaderLen(b: bytes): (n: nat)
    requires Opens(b)
    ensures n <= |b|
  {
    1 + RL.Decode(b[1..]).len
  }

  function Declared(b: bytes): nat
    requires Opens(b)
  {
    RL.Decode(b[1..]).value
  }

  function Rest(b: bytes): bytes
    requires Opens(b)
  {
    b[HeaderLen(b)..]
  }

  lemma FrameOpens(h: CtlFlag, body: bytes)
    requires |body| <= RL.MAX_REMAINING
    ensures var f := Frame(h, body);
            Opens(f) && FlagOf(f[0]) == h && Declared(f) == |body| && HeaderLen(f) == |f| - |body| && Rest(f) == body
  {
    var f, code := Frame(h, body), RL.Encode(|body|);
    RL.RoundTrip(|body|, body);
    assert f[1..] == code + body;
    FlagInverse(h, f[0]);
  }

  /** The length code is the shortest one and tells the truth. */
  predicate Tight(f: bytes)
    requires Opens(f)
  {
    Declared(f) == |Rest(f)| && HeaderLen(f) == 1 + |RL.Encode(|Rest(f)|)|
  }

  lemma TightRebuilds(f: bytes)
    requires Opens(f) && Tight(f)
    ensures RL.Encode(|Rest(f)|) == f[1..HeaderLen(f)]
  {
    var k := HeaderLen(f) - 1;
    var code := f[1..][..k];
    RL.MalformedIff(f[1..]);
    RL.EncodeFits(|Rest(f)|);
    RL.EncodeCorrect(|Rest(f)|);
    SameValue(code, RL.Encode(|Rest(f)|));
  }

  /** A frame is rebuilt from its parts exactly when its length code is the shortest one and tells the truth. */
  lemma FrameRebuildIff(f: bytes)
    requires Opens(f)
    ensures Frame(FlagOf(f[0]), Rest(f)) == f <==> Tight(f)
  {
    FlagInverse(FlagOf(f[0]), f[0]);
    if Tight(f) {
      TightRebuilds(f);
      hide Opens, HeaderLen, Declared, FlagOf, FlagByte, RL.Encode;
      assert f == [f[0]] + f[1..HeaderLen(f)] + f[HeaderLen(f)..];
    } else if |Rest(f)| <= RL.MAX_REMAINING {
      FrameOpens(FlagOf(f[0]), Rest(f));
    } else {
      RL.EncodeFits(|Rest(f)|); // a longer code than any header has
      assert HeaderLen(f) <= 1 + RL.SCRATCH;
      assert |f| == HeaderLen(f) + |Rest(f)|;
    }
  }

  lemma {:induction false} SameValue(a: bytes, b: bytes)
    requires |a| == |b| && RL.Complete(a) && RL.Complete(b) && RL.Value(a) == RL.Value(b)
    ensures a == b
  {
    if |a| > 1 {
      SameDigits(a[0], RL.Value(a[1..]), b[0], RL.Value(b[1..]));
      assert RL.Complete(a[1..]) && RL.Complete(b[1..]);
      SameValue(a[1..], b[1..]);
      assert a == [a[0]] + a[1..] && b == [b[0]] + b[1..];
    } else {
      assert RL.Value(a[1..]) == 0 && RL.Value(b[1..]) == 0;
    }
  }

  lemma SameDigits(a: byte, x: nat, b: byte, y: nat)
    requires a >= 128 && b >= 128 && a % 128 + 128 * x == b % 128 + 128 * y
    ensures a == b && x == y
  {
  }

  // ---------------------------------------------------------------- abstract packets

  datatype Packet =
    | Connect(flags: byte, keepAlive: uint16, content: bytes)
    | Publish(dup: bool, qos: twobit, retain: bool, topic: text, id: uint16, content: bytes)
    | Ack(kind: nibble, id: uint16)
    | Listed(kind: nibble, id: uint16, content: bytes)
    | Bare(kind: nibble)

  function HeaderOf(p: Packet): CtlFlag {
    match p
    case Connect(_, _, _) => FixedHeader(CONNECT)
    case Publish(dup, qos, retain, _, _, _) => CtlFlag(PUBLISH, dup, qos, retain)
    case Ack(kind, _) => FixedHeader(kind)
    case Listed(kind, _, _) => FixedHeader(kind)
    case Bare(kind) => FixedHeader(kind)
  }

  // The protocol name with its length, and the protocol level.
  const PROTOCOL: bytes := [0, 4, 77, 81, 84, 84, 4]

  function PublishBody(topic: text, qos: twobit, id: uint16, content: bytes): bytes {
    StrCode(topic) + (if qos > 0 then U16(id) else []) + content
  }

  /** Sections 3.1 to 3.14 of MQTT 3.1.1: variable header and payload. */
  function BodyOf(p: Packet): bytes {
    match p
    case Connect(flags, keepAlive, content) => PROTOCOL + [flags] + U16(keepAlive) + content
    case Publish(_, qos, _, topic, id, content) => PublishBody(topic, qos, id, content)
    case Ack(_, id) => U16(id)
    case Listed(_, id, content) => U16(id) + content
    case Bare(_) => []
  }

  function Encode(p: Packet): bytes {
    Frame(HeaderOf(p), BodyOf(p))
  }

  /** The packets that exist: types match shapes, lengths fit, payload-carrying packets carry one. */
  predicate WellFormed(p: Packet) {
    && (match p
        case Connect(_, _, content) => content != []
        case Publish(_, qos, _, topic, id, content) =>
          0 !in topic && qos <= 2 && (qos == 0 ==> id == 0) && content != []
        case Ack(kind, _) => PUBACK <= kind <= PUBCOMP || kind == UNSUBACK
        case Listed(kind, _, content) => SUBSCRIBE <= kind <= UNSUBSCRIBE && content != []
        case Bare(kind) => PINGREQ <= kind <= DISCONNECT)
    && |BodyOf(p)| <= RL.MAX_REMAINING
  }

  // ---------------------------------------------------------------- what the unpackers return

  datatype VarHeader =
    | NoVars
    | ConnectVars(flags: byte, keepAlive: uint16)
    | ConnackVars(sessionPresent: byte, code: byte)
    | PublishVars(topic: bytes, id: uint16)
    | IdVars(id: uint16)

  datatype View = View(hdr: CtlFlag, remaining: nat, vars: VarHeader, content: bytes)

  // Each predicate below says that the unpacker reads only within the buffer it is given,
  // and that a payload-carrying packet carries one.

  predicate PublishInBounds(b: bytes) {
    && Opens(b)
    && var r := Rest(b);
       |r| >= 2 && 2 + FromU16(r[0], r[1]) + (if FlagOf(b[0]).qos > 0 then 2 else 0) < |r|
  }

  function ViewPublish(b: bytes): View
    requires PublishInBounds(b)
  {
    var h, r := FlagOf(b[0]), Rest(b);
    var q := 2 + FromU16(r[0], r[1]);
    if h.qos > 0
    then View(h, Declared(b), PublishVars(r[2..q], FromU16(r[q], r[q + 1])), r[q + 2..])
    else View(h, Declared(b), PublishVars(r[2..q], 0), r[q..])
  }

  predicate ListedInBounds(b: bytes) {
    Opens(b) && |Rest(b)| > 2
  }

  function ViewListed(b: bytes): View
    requires ListedInBounds(b)
  {
    var r := Rest(b);
    View(FlagOf(b[0]), Declared(b), IdVars(FromU16(r[0], r[1])), r[2..])
  }

  predicate AckInBounds(b: bytes) {
    Opens(b) && |Rest(b)| >= 2
  }

  function ViewAck(b: bytes): View
    requires AckInBounds(b)
  {
    var r := Rest(b);
    View(FlagOf(b[0]), Declared(b), IdVars(FromU16(r[0], r[1])), [])
  }

  function ViewConnack(b: bytes): View
    requires AckInBounds(b)
  {
    var r := Rest(b);
    View(FlagOf(b[0]), Declared(b), ConnackVars(r[0], r[1]), [])
  }

  predicate ConnectInBounds(b: bytes) {
    Opens(b) && |Rest(b)| > 10
  }

  function ViewConnect(b: bytes): View
    requires ConnectInBounds(b)
  {
    var r := Rest(b);
    View(FlagOf(b[0]), Declared(b), ConnectVars(r[7], FromU16(r[8], r[9])), r[10..])
  }

  function ViewBare(b: bytes): View
    requires Opens(b)
  {
    View(FlagOf(b[0]), Declared(b), NoVars, [])
  }

  // ---------------------------------------------------------------- inversion

  predicate InBounds(b: bytes) {
    && Opens(b)
    && var kind := FlagOf(b[0]).kind;
       if kind == CONNECT then ConnectInBounds(b)
       else if kind == PUBLISH then PublishInBounds(b)
       else if SUBSCRIBE <= kind <= UNSUBSCRIBE then ListedInBounds(b)
       else if PINGREQ <= kind then true
       else AckInBounds(b)
  }

  /** Applies the unpacker of the type in the control byte. */
  function Unpack(b: bytes): Packet
    requires InBounds(b)
  {
    var h := FlagOf(b[0]);
    if h.kind == CONNECT then
      var v := ViewConnect(b);
      Connect(v.vars.flags, v.vars.keepAlive, v.content)
    else if h.kind == PUBLISH then
      var v := ViewPublish(b);
      Publish(h.dup, h.qos, h.retain, v.vars.topic, v.vars.id, v.content)
    else if SUBSCRIBE <= h.kind <= UNSUBSCRIBE then
      Listed(h.kind, ViewListed(b).vars.id, ViewListed(b).content)
    else if PINGREQ <= h.kind then
      Bare(h.kind)
    else
      Ack(h.kind, ViewAck(b).vars.id)
  }

  /** Unpacking a packed packet gives the packet back, for every packet of every type the client handles. */
  lemma RoundTrip(p: Packet)
    requires WellFormed(p)
    ensures InBounds(Encode(p)) && Unpack(Encode(p)) == p
  {
    if p.Publish? {
      PublishTrip(p);
    } else {
      OtherTrip(p);
    }
  }

  lemma PublishTrip(p: Packet)
    requires WellFormed(p) && p.Publish?
    ensures InBounds(Encode(p)) && Unpack(Encode(p)) == p
  {
    FrameOpens(HeaderOf(p), BodyOf(p));
    PublishBodySplits(p.topic, p.qos, p.id, p.content);
    hide Opens, HeaderLen, Declared, Rest, Frame, Encode, PublishBody;
  }

  lemma OtherTrip(p: Packet)
    requires WellFormed(p) && !p.Publish?
    ensures InBounds(Encode(p)) && Unpack(Encode(p)) == p
  {
    FrameOpens(HeaderOf(p), BodyOf(p));
    hide Opens, HeaderLen, Declared, Rest, Frame, Encode;
    match p
    case Connect(flags, keepAlive, content) =>
      assert BodyOf(p)[10..] == content;
    case Listed(_, id, content) =>
      assert BodyOf(p)[2..] == content;
    case _ =>
  }

  lemma PublishBodySplits(topic: text, qos: twobit, id: uint16, content: bytes)
    ensures var r, q := PublishBody(topic, qos, id, content), 2 + |topic|;
            && |r| == q + (if qos > 0 then 2 else 0) + |content|
            && FromU16(r[0], r[1]) == |topic|
            && r[2..q] == topic
            && (if qos > 0 then FromU16(r[q], r[q + 1]) == id && r[q + 2..] == content else r[q..] == content)
  {
    var r, q := PublishBody(topic, qos, id, content), 2 + |topic|;
    assert r[..2] == U16(|topic|);
    assert r[0] == r[..2][0] && r[1] == r[..2][1];
    if qos > 0 {
      assert r[q..q + 2] == U16(id);
      assert r[q] == r[q..q + 2][0] && r[q + 1] == r[q..q + 2][1];
    }
  }

  /** PUBLISH with whatever header, topic buffer and id the caller filled in: unpacking returns the header,
      the topic as a C string, the id only if QoS is above 0, the payload, and the number of bytes
      that follow the fixed header. */
  lemma PublishRoundTrip(h: CtlFlag, topic: bytes, id: uint16, content: bytes)
    requires |CStr(topic)| <= 0xFFFF && content != []
    requires |PublishBody(CStr(topic), h.qos, id, content)| <= RL.MAX_REMAINING
    ensures var f := Frame(h, PublishBody(CStr(topic), h.qos, id, content));
            && PublishInBounds(f)
            && var vars := PublishVars(CStr(topic), if h.qos > 0 then id else 0);
               ViewPublish(f) == View(h, |f| - HeaderLen(f), vars, content)
  {
    FrameOpens(h, PublishBody(CStr(topic), h.qos, id, content));
    PublishBodySplits(CStr(topic), h.qos, id, content);
  }

  /** What packing a view does. */
  function Repack(v: View): bytes
    requires v.vars.PublishVars? && |v.vars.topic| <= 0xFFFF
  {
    Frame(v.hdr, PublishBody(CStr(v.vars.topic), v.hdr.qos, v.vars.id, v.content))
  }

  /** The shortest length code, a declared length equal to the rest, and a topic without NUL. */
  predicate Canonical(f: bytes)
    requires PublishInBounds(f)
  {
    Tight(f) && 0 !in ViewPublish(f).vars.topic
  }

  /** Packing what was unpacked gives the same bytes exactly for canonical frames. The packer's own demand,
      that the length code fits its scratch bytes, bounds the frame. */
  lemma PublishReverseIff(f: bytes)
    requires PublishInBounds(f) && |Rest(f)| <= RL.MAX_REMAINING
    ensures Repack(ViewPublish(f)) == f <==> Canonical(f)
  {
    var v := ViewPublish(f);
    if 0 in v.vars.topic {
      NulIsLost(f);
    } else {
      ViewBody(f);
      CStrWhole(v.vars.topic);
      FrameRebuildIff(f);
      hide PublishInBounds, ViewPublish, Opens, Tight, Rest, FlagOf, Frame, PublishBody, CStr;
    }
  }

  /** The view of a frame has all of its body. */
  lemma ViewBody(f: bytes)
    requires PublishInBounds(f)
    ensures var v := ViewPublish(f);
            && v.hdr == FlagOf(f[0]) && v.vars.PublishVars? && |v.vars.topic| <= 0xFFFF
            && PublishBody(v.vars.topic, v.hdr.qos, v.vars.id, v.content) == Rest(f)
  {
    hide Declared, HeaderLen, Rest, FlagOf;
    PublishBodyRebuilds(Rest(f), FlagOf(f[0]).qos);
  }

  /** A topic that holds a NUL is not packed whole. */
  lemma NulIsLost(f: bytes)
    requires PublishInBounds(f) && |Rest(f)| <= RL.MAX_REMAINING && 0 in ViewPublish(f).vars.topic
    ensures Repack(ViewPublish(f)) != f
  {
    hide Opens, Declared, HeaderLen, Rest, FlagOf, Frame;
    var v := ViewPublish(f);
    var topic := v.vars.topic;
    CStrWhole(topic);
    ViewBody(f);
    PublishBodySplits(CStr(topic), v.hdr.qos, v.vars.id, v.content);
    PublishBodySplits(topic, v.hdr.qos, v.vars.id, v.content);
    FrameOpens(v.hdr, PublishBody(CStr(topic), v.hdr.qos, v.vars.id, v.content));
    hide PublishBody, PublishInBounds, ViewPublish, CStr;
  }

  lemma PublishBodyRebuilds(r: bytes, qos: twobit)
    requires |r| >= 2 && 2 + FromU16(r[0], r[1]) + (if qos > 0 then 2 else 0) <= |r|
    ensures var q := 2 + FromU16(r[0], r[1]);
            r == if qos > 0 then PublishBody(r[2..q], qos, FromU16(r[q], r[q + 1]), r[q + 2..])
                 else PublishBody(r[2..q], qos, 0, r[q..])
  {
    var q := 2 + FromU16(r[0], r[1]);
    U16Inverse(r[0], r[1]);
    if qos > 0 {
      U16Inverse(r[q], r[q + 1]);
      assert r == [r[0], r[1]] + r[2..q] + [r[q], r[q + 1]] + r[q + 2..];
    } else {
      assert r == [r[0], r[1]] + r[2..q] + [] + r[q..];
    }
  }

  predicate PublishFrame(f: bytes) {
    PublishInBounds(f) && FlagOf(f[0]).kind == PUBLISH && FlagOf(f[0]).qos <= 2 && Canonical(f)
  }

  /** The packet whose encoding a canonical publish frame is. */
  function PublishIn(f: bytes): Packet
    requires PublishInBounds(f)
  {
    var v := ViewPublish(f);
    Publish(v.hdr.dup, v.hdr.qos, v.hdr.retain, v.vars.topic, v.vars.id, v.content)
  }

  lemma CanonicalFits(f: bytes)
    requires PublishInBounds(f) && Canonical(f)
    ensures |Rest(f)| <= RL.MAX_REMAINING
  {
    RL.MalformedIff(f[1..]);
    RL.EncodeFits(|Rest(f)|);
    hide PublishInBounds, ViewPublish;
  }

  lemma CanonicalIsEncoding(f: bytes)
    requires PublishFrame(f)
    ensures PublishInBounds(f) && WellFormed(PublishIn(f)) && Encode(PublishIn(f)) == f
  {
    hide Frame, Rest, Declared, HeaderLen, Opens, FlagOf, PublishBody;
    CanonicalFits(f);
    PublishReverseIff(f);
    CStrWhole(ViewPublish(f).vars.topic);
    PublishBodyRebuilds(Rest(f), FlagOf(f[0]).qos);
  }

  lemma EncodingIsCanonical(p: Packet)
    requires p.Publish? && WellFormed(p)
    ensures PublishFrame(Encode(p))
  {
    RoundTrip(p);
    FrameOpens(HeaderOf(p), BodyOf(p));
    hide Frame, Opens, Declared, HeaderLen, Rest;
  }

  /** The image of the PUBLISH packer: a sequence of bytes is the encoding of a well-formed PUBLISH exactly when
      it is a canonical frame of type 3 with a QoS of at most 2. */
  lemma PublishImage(f: bytes)
    ensures (exists p: Packet :: p.Publish? && WellFormed(p) && Encode(p) == f) <==> PublishFrame(f)
  {
    hide WellFormed, Encode, PublishFrame;
    if PublishFrame(f) {
      CanonicalIsEncoding(f);
      assert PublishIn(f).Publish? && WellFormed(PublishIn(f)) && Encode(PublishIn(f)) == f;
    }
    forall p: Packet | p.Publish? && WellFormed(p) && Encode(p) == f
      ensures PublishFrame(f)
    {
      EncodingIsCanonical(p);
    }
  }

  // ---------------------------------------------------------------- the image of all packers

  /** What the body of a packet other than PUBLISH looks like, behind the length code. */
  predicate BodyFits(kind: nibble, r: bytes) {
    if kind == CONNECT then |r| > 10 && r[..7] == PROTOCOL
    else if PUBACK <= kind <= PUBCOMP || kind == UNSUBACK then |r| == 2
    else if SUBSCRIBE <= kind <= UNSUBSCRIBE then |r| > 2
    else PINGREQ <= kind <= DISCONNECT && r == []
  }

  /** A canonical publish frame, or the control byte of the type, the shortest true length code and a fitting body. */
  predicate PacketFrame(f: bytes) {
    || PublishFrame(f)
    || (&& Opens(f) && Tight(f) && |Rest(f)| <= RL.MAX_REMAINING
        && FlagOf(f[0]) == FixedHeader(FlagOf(f[0]).kind)
        && BodyFits(FlagOf(f[0]).kind, Rest(f)))
  }

  lemma TightFrame(h: CtlFlag, body: bytes)
    requires |body| <= RL.MAX_REMAINING
    ensures Opens(Frame(h, body)) && Tight(Frame(h, body))
  {
    FrameOpens(h, body);
  }

  lemma EncodingIsPacketFrame(p: Packet)
    requires WellFormed(p)
    ensures PacketFrame(Encode(p))
  {
    if p.Publish? {
      EncodingIsCanonical(p);
    } else {
      FrameOpens(HeaderOf(p), BodyOf(p));
      TightFrame(HeaderOf(p), BodyOf(p));
      hide Opens, Tight, Declared, HeaderLen, Rest, Frame, PublishFrame;
      assert p.Connect? ==> BodyOf(p)[..7] == PROTOCOL;
    }
  }

  /** Every body that fits is the body of what the unpacker makes of it. */
  lemma BodyRebuilds(f: bytes)
    requires PacketFrame(f) && !PublishFrame(f)
    ensures InBounds(f)
    ensures var p := Unpack(f); HeaderOf(p) == FlagOf(f[0]) && BodyOf(p) == Rest(f) && WellFormed(p)
  {
    var r, kind := Rest(f), FlagOf(f[0]).kind;
    hide Opens, Tight, Declared, HeaderLen, Rest, PublishFrame, FlagOf;
    if kind == CONNECT {
      U16Inverse(r[8], r[9]);
      assert r == r[..7] + [r[7]] + [r[8], r[9]] + r[10..];
    } else if |r| >= 2 {
      U16Inverse(r[0], r[1]);
      assert r == [r[0], r[1]] + r[2..];
    }
  }

  lemma PacketFrameIsEncoding(f: bytes)
    requires PacketFrame(f)
    ensures InBounds(f) && WellFormed(Unpack(f)) && Encode(Unpack(f)) == f
  {
    if PublishFrame(f) {
      CanonicalIsEncoding(f);
    } else {
      BodyRebuilds(f);
      FrameRebuildIff(f);
    }
    hide WellFormed, Opens, Tight, Rest, Frame, PublishFrame;
  }

  /** The image of all packers: a sequence of bytes is the encoding of a well-formed packet exactly when it is a
      packet frame; and then unpacking finds the packet. */
  lemma PacketImage(f: bytes)
    ensures (exists p: Packet :: WellFormed(p) && Encode(p) == f) <==> PacketFrame(f)
    ensures PacketFrame(f) ==> InBounds(f) && WellFormed(Unpack(f)) && Encode(Unpack(f)) == f
  {
    hide WellFormed, Encode, PacketFrame, Unpack;
    if PacketFrame(f) {
      PacketFrameIsEncoding(f);
    }
    forall p: Packet | WellFormed(p) && Encode(p) == f
      ensures PacketFrame(f)
    {
      EncodingIsPacketFrame(p);
    }
  }
}
