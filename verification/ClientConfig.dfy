/** The client's configuration, and the CONNECT packet that is built from it. */
module ClientConfig {
  import opened Bytes
  import opened PayloadBuffer
  import opened Packets
  import RL = RemainingLength

  type QoS = n: int | 0 <= n <= 2

  /** An absent string is a null pointer in the source; only the client id may not be absent. */
  datatype Config = Config(
    clientId: cstring,
    willTopic: Option<cstring>,
    willMessage: Option<cstring>,
    user: Option<cstring>,
    password: Option<cstring>,
    willQos: QoS,
    willRetain: bool,
    cleanSession: bool,
    keepAlive: uint16,
    qos: QoS) // the default for PUBLISH and SUBSCRIBE

  // The default client id, "shylock-archlinux".
  const DEFAULT_ID: bytes := [115, 104, 121, 108, 111, 99, 107, 45, 97, 114, 99, 104, 108, 105, 110, 117, 120]
  const DEFAULT_CONFIG := Config(DEFAULT_ID, None, None, None, None, 0, false, true, 32, 0)

  // What a 1024-byte packet leaves for the payload of CONNECT.
  const CONNECT_CAPACITY := 1012

  predicate HasWill(c: Config) {
    c.willTopic.Some? && c.willMessage.Some?
  }

  function ConnectFlags(c: Config): byte {
    Bit(c.user.Some?) * 128 + Bit(c.password.Some?) * 64 + Bit(c.willRetain) * 32
    + c.willQos * 8 + Bit(HasWill(c)) * 4 + Bit(c.cleanSession) * 2
  }

  function Optional(s: Option<cstring>): seq<Item> {
    if s.Some? then [Str(s.value)] else []
  }

  /** The strings of the payload, in the order of section 3.1.3 of MQTT 3.1.1. */
  function ConnectItems(c: Config): seq<Item> {
    [Str(c.clientId)]
    + (if HasWill(c) then [Str(c.willTopic.value), Str(c.willMessage.value)] else [])
    + Optional(c.user)
    + Optional(c.password)
  }

  /** The payload the client writes; a string that does not fit is left out without notice. */
  function ConnectContent(c: Config): bytes {
    WriteAll(CONNECT_CAPACITY, [], ConnectItems(c)).0
  }

  function ConnectPacket(c: Config): Packet {
    Connect(ConnectFlags(c), c.keepAlive, ConnectContent(c))
  }

  lemma {:induction false} WriteAllConcat(capacity: nat, content: bytes, a: seq<Item>, b: seq<Item>)
    ensures WriteAll(capacity, content, a + b).0 == WriteAll(capacity, WriteAll(capacity, content, a).0, b).0
    decreases |a|
  {
    if a == [] {
      assert a + b == b;
    } else {
      assert (a + b)[1..] == a[1..] + b;
      WriteAllConcat(capacity, Write(capacity, content, a[0]), a[1..], b);
    }
  }

  // ---------------------------------------------------------------- the reader of CONNECT

  /** What a server learns from a CONNECT payload. */
  datatype Info = Info(
    clientId: bytes,
    will: Option<(bytes, bytes)>,
    user: Option<bytes>,
    password: Option<bytes>)

  function InfoOf(c: Config): Info {
    Info(c.clientId,
         if HasWill(c) then Some((c.willTopic.value, c.willMessage.value)) else None,
         c.user, c.password)
  }

  function Strings(n: nat): (k: seq<Kind>)
    ensures |k| == n && forall i :: 0 <= i < n ==> k[i] == StringKind
  {
    seq(n, _ => StringKind)
  }

  function StringCount(flags: byte): nat {
    1 + 2 * (flags / 4 % 2) + flags / 128 + flags / 64 % 2
  }

  /** Hands the strings out in the order the flags dictate. */
  function InfoFrom(flags: byte, values: seq<bytes>): Info
    requires |values| == StringCount(flags)
  {
    var will, user, password := 2 * (flags / 4 % 2), flags / 128, flags / 64 % 2;
    Info(values[0],
         if will > 0 then Some((values[1], values[2])) else None,
         if user > 0 then Some(values[1 + will]) else None,
         if password > 0 then Some(values[1 + will + user]) else None)
  }

  /** Reads as many strings as the flags announce; they must end where the payload ends. */
  function ReadConnect(flags: byte, content: bytes): Option<Info> {
    match ReadAll(content, |content|, 0, Strings(StringCount(flags)), 0xFFFF)
    case ReadFailed => None
    case Reads(values, end) =>
      if end != |content| || |values| != StringCount(flags) then None else Some(InfoFrom(flags, values))
  }

  /** The room the strings take when each is written with its true length. */
  function RoomFor(values: seq<bytes>): nat {
    if values == [] then 0 else 2 + |values[0]| + RoomFor(values[1..])
  }

  // ---------------------------------------------------------------- properties

  lemma FlagsTell(c: Config)
    ensures var f := ConnectFlags(c);
            && f / 128 == Bit(c.user.Some?) && f / 64 % 2 == Bit(c.password.Some?)
            && f / 32 % 2 == Bit(c.willRetain) && f / 8 % 4 == c.willQos
            && f / 4 % 2 == Bit(HasWill(c)) && f / 2 % 2 == Bit(c.cleanSession) && f % 2 == 0
  {
    var user, password := Bit(c.user.Some?), Bit(c.password.Some?);
    FlagBits(user, password, Bit(c.willRetain), c.willQos, Bit(HasWill(c)), Bit(c.cleanSession));
  }

  lemma FlagBits(u: nat, p: nat, r: nat, q: nat, w: nat, s: nat)
    requires u <= 1 && p <= 1 && r <= 1 && q <= 2 && w <= 1 && s <= 1
    ensures var f := u * 128 + p * 64 + r * 32 + q * 8 + w * 4 + s * 2;
            && f / 128 == u && f / 64 % 2 == p && f / 32 % 2 == r && f / 8 % 4 == q
            && f / 4 % 2 == w && f / 2 % 2 == s && f % 2 == 0
  {
    var f := u * 128 + p * 64 + r * 32 + q * 8 + w * 4 + s * 2;
    assert f / 64 == 2 * u + p;
    assert f / 32 == 4 * u + 2 * p + r;
    assert f / 8 == 16 * u + 8 * p + 4 * r + q;
    assert f / 4 == 32 * u + 16 * p + 8 * r + 2 * q + w;
    assert f / 2 == 64 * u + 32 * p + 16 * r + 4 * q + 2 * w + s;
  }

  lemma {:induction false} StringsConsume(b: bytes, pos: nat, n: nat)
    ensures var r := ReadAll(b, |b|, pos, Strings(n), 0xFFFF);
            r.Reads? ==> |r.values| == n && r.end == pos + RoomFor(r.values) && (n > 0 ==> r.end <= |b|)
    decreases n
  {
    if n > 0 {
      assert Strings(n)[1..] == Strings(n - 1);
      var r := ReadAll(b, |b|, pos, Strings(n), 0xFFFF);
      if r.Reads? {
        var got := ReadStr(b, |b|, pos, 0xFFFF);
        StringsConsume(b, got.next, n - 1);
        assert r.values[1..] == ReadAll(b, |b|, got.next, Strings(n - 1), 0xFFFF).values;
      }
    }
  }

  predicate AllStrings(items: seq<Item>) {
    forall i :: 0 <= i < |items| ==> items[i].Str?
  }

  lemma {:induction false} RoomBounds(items: seq<Item>)
    requires AllStrings(items)
    ensures |EmitAll(items)| <= RoomFor(Values(items))
    ensures forall i :: 0 <= i < |items| ==> |items[i].s| + 2 <= RoomFor(Values(items))
  {
    if items != [] {
      RoomBounds(items[1..]);
      assert Values(items)[1..] == Values(items[1..]);
      forall i | 0 <= i < |items|
        ensures |items[i].s| + 2 <= RoomFor(Values(items))
      {
        if i > 0 {
          assert items[i] == items[1..][i - 1];
        }
      }
    }
  }

  lemma CountsAgree(c: Config)
    ensures |ConnectItems(c)| == StringCount(ConnectFlags(c))
  {
    FlagsTell(c);
  }

  /** The information and the strings determine each other. */
  lemma InfoTells(c: Config, values: seq<bytes>)
    requires |values| == StringCount(ConnectFlags(c))
    ensures |ConnectItems(c)| == |values|
    ensures InfoFrom(ConnectFlags(c), values) == InfoOf(c) <==> values == Values(ConnectItems(c))
  {
    FlagsTell(c);
    var v, items := Values(ConnectItems(c)), ConnectItems(c);
    var will, user := 2 * Bit(HasWill(c)), Bit(c.user.Some?);
    assert v[0] == c.clientId;
    assert HasWill(c) ==> v[1] == c.willTopic.value && v[2] == c.willMessage.value;
    assert c.user.Some? ==> v[1 + will] == c.user.value;
    assert c.password.Some? ==> v[1 + will + user] == c.password.value;
  }

  lemma ReadConnectIff(c: Config)
    ensures RoomFor(Values(ConnectItems(c))) <= CONNECT_CAPACITY
       <==> ReadConnect(ConnectFlags(c), ConnectContent(c)) == Some(InfoOf(c))
  {
    var flags, content, items := ConnectFlags(c), ConnectContent(c), ConnectItems(c);
    var n := StringCount(flags);
    WritesAppend(CONNECT_CAPACITY, [], items);
    StringsConsume(content, 0, n);
    CountsAgree(c);
    if RoomFor(Values(items)) <= CONNECT_CAPACITY {
      FittingReads(c);
      InfoTells(c, Values(items));
    } else {
      var r := ReadAll(content, |content|, 0, Strings(n), 0xFFFF);
      if r.Reads? {
        InfoTells(c, r.values);
      }
    }
  }

  lemma ItemsAreStrings(c: Config)
    ensures AllStrings(ConnectItems(c))
  {
    hide HasWill;
  }

  lemma FittingReads(c: Config)
    requires RoomFor(Values(ConnectItems(c))) <= CONNECT_CAPACITY
    ensures var content := ConnectContent(c);
            ReadAll(content, |content|, 0, Strings(|ConnectItems(c)|), 0xFFFF)
            == Reads(Values(ConnectItems(c)), |content|)
  {
    var items := ConnectItems(c);
    ItemsAreStrings(c);
    RoomBounds(items);
    WritesAppend(CONNECT_CAPACITY, [], items);
    RoomReadable(items);
    hide RoomFor, EmitAll, ReadAll, Readable, ConnectItems;
    assert ConnectContent(c) == [] + EmitAll(items);
    ReadBackIff([], items, [], 0xFFFF);
    Assoc(ConnectContent(c), [], []);
  }

  lemma RoomReadable(items: seq<Item>)
    requires AllStrings(items) && RoomFor(Values(items)) <= CONNECT_CAPACITY
    ensures Readable(items, 0xFFFF) && Kinds(items) == Strings(|items|)
  {
    RoomBounds(items);
    hide RoomFor;
  }

  /** The CONNECT packet tells the server exactly what was configured, each part present if and only if it was
      configured, precisely when the configured strings fit the payload buffer together. */
  lemma ConnectRoundTripIff(c: Config)
    ensures var f := Encode(ConnectPacket(c));
            && (RoomFor(Values(ConnectItems(c))) <= CONNECT_CAPACITY
                <==> && ConnectInBounds(f)
                     && ReadConnect(ViewConnect(f).vars.flags, ViewConnect(f).content) == Some(InfoOf(c)))
            && (ConnectInBounds(f) ==> ViewConnect(f).vars == ConnectVars(ConnectFlags(c), c.keepAlive))
  {
    var p := ConnectPacket(c);
    WritesAppend(CONNECT_CAPACITY, [], ConnectItems(c));
    ConnectView(p);
    ReadConnectIff(c);
    EmptyTellsNothing(p.flags);
  }

  lemma ConnectView(p: Packet)
    requires p.Connect? && |p.content| <= CONNECT_CAPACITY
    ensures var f := Encode(p);
            && (ConnectInBounds(f) <==> p.content != [])
            && (ConnectInBounds(f) ==>
                  var vars := ConnectVars(p.flags, p.keepAlive);
                  ViewConnect(f) == View(FixedHeader(CONNECT), |f| - HeaderLen(f), vars, p.content))
  {
    FrameOpens(HeaderOf(p), BodyOf(p));
    assert BodyOf(p)[10..] == p.content;
  }

  lemma EmptyTellsNothing(flags: byte)
    ensures ReadConnect(flags, []) == None
  {
    var kinds := Strings(StringCount(flags));
    assert ReadItem([], 0, 0, kinds[0], 0xFFFF) == OutOfBounds;
  }

  // ---------------------------------------------------------------- CONNECT without payload

  lemma {:induction false} NothingTakenIff(capacity: nat, items: seq<Item>)
    requires AllStrings(items)
    ensures WriteAll(capacity, [], items).0 == [] <==> forall i :: i in items ==> |Emit(i)| > capacity
  {
    if items != [] {
      HeadTail(items);
      NothingTakenIff(capacity, items[1..]);
      if Fits(capacity, [], items[0]) {
        WritesAppend(capacity, [] + Emit(items[0]), items[1..]);
      }
    }
  }

  /** The client sends a CONNECT without payload exactly when not one of the strings fits by itself; otherwise
      the CONNECT is whole, also if some of the strings are missing from it. */
  lemma ConnectWellFormedIff(c: Config)
    ensures WellFormed(ConnectPacket(c)) <==> ConnectContent(c) != []
    ensures ConnectContent(c) == [] <==> forall i :: i in ConnectItems(c) ==> |Emit(i)| > CONNECT_CAPACITY
  {
    WritesAppend(CONNECT_CAPACITY, [], ConnectItems(c));
    ItemsAreStrings(c);
    NothingTakenIff(CONNECT_CAPACITY, ConnectItems(c));
  }
}
