/** The topic filter list of SUBSCRIBE: written alternately as strings and bytes, packed, unpacked, read back. */
module Subscriptions {
  import opened Bytes
  import opened PayloadBuffer
  import opened Packets
  import Layout
  import RL = RemainingLength

  datatype Subscription = Subscription(filter: cstring, qos: byte)

  function ItemsOf(subs: seq<Subscription>): (items: seq<Item>)
    ensures |items| == 2 * |subs|
  {
    if subs == [] then [] else [Str(subs[0].filter), Byte(subs[0].qos)] + ItemsOf(subs[1..])
  }

  lemma {:induction false} ItemsReadable(subs: seq<Subscription>)
    ensures Readable(ItemsOf(subs), 0xFFFF) <==> forall s :: s in subs ==> |s.filter| <= 0xFFFF
  {
    if subs != [] {
      ItemsReadable(subs[1..]);
      var items := ItemsOf(subs);
      assert items[1..][1..] == ItemsOf(subs[1..]);
      ReadableSplit(items, 0xFFFF);
      ReadableSplit(items[1..], 0xFFFF);
      assert subs == [subs[0]] + subs[1..];
    }
  }

  /** For any list that the buffer has room for, the receiver reads the same filters and QoS bytes in order, to the
      end of the payload, exactly when no filter is longer than a length field can tell; the id survives too. */
  lemma SubscribeRoundTripIff(capacity: nat, id: uint16, subs: seq<Subscription>)
    requires subs != [] && 2 + capacity <= RL.MAX_REMAINING
    requires |EmitAll(ItemsOf(subs))| <= capacity
    ensures var items := ItemsOf(subs);
            var f := Encode(Listed(SUBSCRIBE, id, WriteAll(capacity, [], items).0));
            && f[0] == 0x82
            && ListedInBounds(f)
            && ViewListed(f).vars == IdVars(id)
            && var got := ViewListed(f).content;
               (ReadAll(got, |got|, 0, Kinds(items), 0xFFFF) == Reads(Values(items), |got|)
                <==> forall s :: s in subs ==> |s.filter| <= 0xFFFF)
  {
    var items := ItemsOf(subs);
    WritesAppend(capacity, [], items);
    ReadBackIff([], items, [], 0xFFFF);
    ItemsReadable(subs);
    var content := WriteAll(capacity, [], items).0;
    assert [] + EmitAll(items) == content;
    Assoc(content, [], []);
    var p := Listed(SUBSCRIBE, id, content);
    FrameOpens(HeaderOf(p), BodyOf(p));
    assert BodyOf(p)[2..] == content;
    assert |Emit(items[0])| > 0;
  }

  /** Section 3.8.3 of MQTT 3.1.1: each filter with its length in front and its QoS behind. */
  function FilterList(subs: seq<Subscription>): bytes {
    if subs == [] then []
    else
      var n := |subs[0].filter| % 65536;
      [n / 256, n % 256] + subs[0].filter[..n] + [subs[0].qos] + FilterList(subs[1..])
  }

  /** The payload written for a list of subscriptions, byte by byte. */
  lemma {:induction false} FilterListBytes(subs: seq<Subscription>)
    ensures EmitAll(ItemsOf(subs)) == FilterList(subs)
  {
    if subs != [] {
      hide Emit;
      FilterListBytes(subs[1..]);
      var items, rest := ItemsOf(subs), ItemsOf(subs[1..]);
      Layout.ItemBytes(subs[0].filter, subs[0].qos, []);
      assert items[1..][1..] == rest;
      Assoc(Emit(items[0]), [subs[0].qos], FilterList(subs[1..]));
    }
  }
}
