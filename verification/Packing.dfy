/** The pack and unpack functions as the source runs them: segments collected back to front, a running
    remaining length, one copy loop; and an offset that walks over the packet. */
module Packing {
  import opened Bytes
  import opened PayloadBuffer
  import opened Packets
  import RL = RemainingLength

  /** A packet's attributes: what the pack functions take and the unpack functions fill in. */
  datatype Attr = Attr(hdr: CtlFlag, remaining: nat, vars: VarHeader, payload: Payload?)

  ghost predicate Holds(p: Payload?)
    reads p
  {
    p != null ==> p.Valid()
  }

  ghost function ContentOf(p: Payload?): bytes
    requires Holds(p)
    reads p, if p == null then {} else {p.buf}
  {
    if p == null then [] else p.Contents()
  }

  /** The attributes show the view: same fields, and a payload of their own that holds the content, unread. */
  ghost predicate Shows(a: Attr, v: View)
    reads a.payload, if a.payload == null then {} else {a.payload.buf}
  {
    && a.hdr == v.hdr && a.remaining == v.remaining && a.vars == v.vars
    && (a.payload == null <==> v.content == [])
    && (a.payload != null ==>
          && a.payload.Valid() && a.payload.pos == 0
          && a.payload.buf.Length == a.payload.len == a.payload.lenValid
          && a.payload.buf[..] == v.content)
  }

  // ---------------------------------------------------------------- assembly

  /** The segments, last one first. */
  function Backwards(segs: seq<bytes>): bytes {
    if segs == [] then [] else segs[|segs| - 1] + Backwards(segs[..|segs| - 1])
  }

  /** The sum that the pack functions keep while they collect segments. */
  function TotalLen(segs: seq<bytes>): nat {
    if segs == [] then 0 else |segs[|segs| - 1]| + TotalLen(segs[..|segs| - 1])
  }

  lemma {:induction false} Accounting(segs: seq<bytes>)
    ensures |Backwards(segs)| == TotalLen(segs)
  {
    if segs != [] {
      Accounting(segs[..|segs| - 1]);
    }
  }

  lemma BackwardsAdd(segs: seq<bytes>, s: bytes)
    ensures Backwards(segs + [s]) == s + Backwards(segs)
    ensures TotalLen(segs + [s]) == |s| + TotalLen(segs)
  {
    assert (segs + [s])[..|segs|] == segs;
  }

  lemma BackwardsLast(segs: seq<bytes>, i: nat)
    requires i < |segs|
    ensures Backwards(segs[..i + 1]) == segs[i] + Backwards(segs[..i])
    ensures TotalLen(segs[..i + 1]) == |segs[i]| + TotalLen(segs[..i])
  {
    assert segs[..i + 1] == segs[..i] + [segs[i]];
    BackwardsAdd(segs[..i], segs[i]);
  }

  /** The copy loop. Its `total` must be the sum of the segment lengths; then the offset ends at `total`
      and the output is exactly the segments, last one first. */
  method Assemble(segs: seq<bytes>, total: nat) returns (out: array<byte>, offset: nat)
    requires total == TotalLen(segs)
    ensures fresh(out) && out[..] == Backwards(segs)
    ensures offset == total == out.Length
  {
    out := new byte[total];
    offset := 0;
    var i := |segs| - 1;
    Accounting(segs);
    assert segs[..i + 1] == segs;
    assert Backwards(segs[..0]) == [] && TotalLen(segs[..0]) == 0;
    hide Backwards, TotalLen;
    Assoc(Backwards(segs), [], []);
    while i >= 0
      invariant -1 <= i < |segs|
      invariant offset + TotalLen(segs[..i + 1]) == total
      invariant out[..offset] + Backwards(segs[..i + 1]) == Backwards(segs)
    {
      BackwardsLast(segs, i);
      Assoc(out[..offset], segs[i], Backwards(segs[..i]));
      Copy(out, offset, segs[i]);
      offset := offset + |segs[i]|;
      i := i - 1;
    }
    Assoc(out[..offset], [], []);
    assert out[..offset] == out[..];
  }

  /** The tail that all pack functions share: length code, control byte, copy loop. */
  method Finish(segs: seq<bytes>, remaining: nat, hdr: CtlFlag) returns (out: array<byte>)
    requires remaining == TotalLen(segs) <= RL.MAX_REMAINING && FlagOk(hdr)
    ensures fresh(out) && out[..] == Frame(hdr, Backwards(segs))
  {
    Accounting(segs);
    var code := RL.EncodeRemainingLen(remaining);
    BackwardsAdd(segs, code[..]);
    var all := segs + [code[..]];
    BackwardsAdd(all, [FlagByte(hdr)]);
    all := all + [[FlagByte(hdr)]];
    var end;
    out, end := Assemble(all, remaining + code.Length + 1);
    assert out[..] == [FlagByte(hdr)] + (code[..] + Backwards(segs));
  }

  /** The payload's contents as the first segment. */
  method PayloadSegment(p: Payload) returns (segs: seq<bytes>, remaining: nat)
    requires p.Valid()
    ensures segs == [p.Contents()] && remaining == |p.Contents()|
    ensures Backwards(segs) == p.Contents() && TotalLen(segs) == remaining
  {
    var buf := p.DeepToBuf();
    segs, remaining := [buf[..]], buf.Length;
    BackwardsAdd([], buf[..]);
    assert [] + [buf[..]] == [buf[..]];
  }

  method Add(segs: seq<bytes>, remaining: nat, s: bytes) returns (segs': seq<bytes>, remaining': nat)
    requires remaining == TotalLen(segs)
    ensures segs' == segs + [s] && remaining' == TotalLen(segs') == remaining + |s|
    ensures Backwards(segs') == s + Backwards(segs)
  {
    BackwardsAdd(segs, s);
    segs', remaining' := segs + [s], remaining + |s|;
  }

  // ---------------------------------------------------------------- pack

  method PackConnect(a: Attr) returns (out: array<byte>)
    requires a.vars.ConnectVars? && a.payload != null && a.payload.Valid()
    requires 10 + |a.payload.Contents()| <= RL.MAX_REMAINING
    requires a.vars.flags / 8 % 4 <= 2 && a.vars.flags % 2 == 0
    ensures fresh(out) && out[..] == Encode(Connect(a.vars.flags, a.vars.keepAlive, a.payload.Contents()))
  {
    var segs, remaining := PayloadSegment(a.payload);
    segs, remaining := Add(segs, remaining, U16(a.vars.keepAlive));
    segs, remaining := Add(segs, remaining, [a.vars.flags]);
    segs, remaining := Add(segs, remaining, [4]);
    segs, remaining := Add(segs, remaining, StrCode([77, 81, 84, 84]));
    assert Backwards(segs) == PROTOCOL + [a.vars.flags] + U16(a.vars.keepAlive) + a.payload.Contents();
    out := Finish(segs, remaining, FixedHeader(CONNECT));
  }

  method PackPublish(a: Attr) returns (out: array<byte>)
    requires a.vars.PublishVars? && Holds(a.payload) && FlagOk(a.hdr)
    requires |CStr(a.vars.topic)| <= 0xFFFF
    requires |PublishBody(CStr(a.vars.topic), a.hdr.qos, a.vars.id, ContentOf(a.payload))| <= RL.MAX_REMAINING
    ensures fresh(out)
    ensures out[..] == Frame(a.hdr, PublishBody(CStr(a.vars.topic), a.hdr.qos, a.vars.id, ContentOf(a.payload)))
  {
    ghost var content := ContentOf(a.payload);
    var segs: seq<bytes>, remaining: nat := [], 0;
    if a.payload != null {
      segs, remaining := PayloadSegment(a.payload);
    }
    assert Backwards(segs) == content;
    if 0 < a.hdr.qos {
      segs, remaining := Add(segs, remaining, U16(a.vars.id));
    }
    segs, remaining := Add(segs, remaining, StrCode(CStr(a.vars.topic)));
    assert Backwards(segs) == PublishBody(CStr(a.vars.topic), a.hdr.qos, a.vars.id, content);
    Accounting(segs);
    out := Finish(segs, remaining, a.hdr);
  }

  /** PUBACK, PUBREC, PUBREL, PUBCOMP and UNSUBACK; the control byte is the function's own. */
  method PackAck(kind: nibble, id: uint16) returns (out: array<byte>)
    requires PUBACK <= kind <= PUBCOMP || kind == UNSUBACK
    ensures fresh(out) && out[..] == Encode(Ack(kind, id))
    ensures out.Length == 4
  {
    var segs: seq<bytes>, remaining: nat := [], 0;
    segs, remaining := Add(segs, remaining, U16(id));
    assert Backwards(segs) == U16(id);
    out := Finish(segs, remaining, FixedHeader(kind));
    assert out.Length == |out[..]|;
  }

  /** SUBSCRIBE, SUBACK and UNSUBSCRIBE. */
  method PackListed(kind: nibble, id: uint16, payload: Payload) returns (out: array<byte>)
    requires SUBSCRIBE <= kind <= UNSUBSCRIBE && payload.Valid()
    requires 2 + |payload.Contents()| <= RL.MAX_REMAINING
    ensures fresh(out) && out[..] == Encode(Listed(kind, id, payload.Contents()))
  {
    var segs, remaining := PayloadSegment(payload);
    segs, remaining := Add(segs, remaining, U16(id));
    out := Finish(segs, remaining, FixedHeader(kind));
  }

  /** PINGREQ, PINGRESP and DISCONNECT. */
  method PackBare(kind: nibble) returns (out: array<byte>)
    requires PINGREQ <= kind <= DISCONNECT
    ensures fresh(out) && out[..] == Encode(Bare(kind))
  {
    out := Finish([], 0, FixedHeader(kind));
  }

  // ---------------------------------------------------------------- unpack

  /** The control byte and the length code; returns the offset behind them. */
  method UnpackFixed(buf: array<byte>) returns (hdr: CtlFlag, remaining: nat, offset: nat)
    requires Opens(buf[..])
    ensures hdr == FlagOf(buf[0]) && remaining == Declared(buf[..]) && offset == HeaderLen(buf[..])
    ensures buf[offset..] == Rest(buf[..])
  {
    assert buf[..][1..] == buf[1..];
    hdr := FlagOf(buf[0]);
    offset := 1;
    var k;
    remaining, k := RL.DecodeRemainingLen(buf, offset);
    offset := offset + k;
  }

  /** A fresh payload with the bytes from `offset` to the end. */
  method TakePayload(buf: array<byte>, offset: nat) returns (p: Payload)
    requires offset < buf.Length
    ensures fresh(p) && fresh(p.buf) && p.Valid() && p.pos == 0
    ensures p.buf.Length == p.len == p.lenValid && p.buf[..] == buf[offset..]
  {
    var q := NewPayload(buf.Length - offset);
    Copy(q.buf, 0, buf[offset..]);
    q.lenValid := buf.Length - offset;
    p := q;
    assert p.buf[..] == p.buf[0..buf.Length - offset];
  }

  lemma SliceOfRest(b: bytes, start: nat, i: nat, j: nat)
    requires start <= |b| && i <= j <= |b| - start
    ensures b[start..][i..j] == b[start + i..start + j]
    ensures b[start..][j..] == b[start + j..]
    ensures forall k :: i <= k < j ==> b[start..][k] == b[start + k]
  {
  }

  /** Takes the length-prefixed topic at the offset; `r` is what lies behind the fixed header. */
  method TakeTopic(buf: array<byte>, offset: nat, ghost r: bytes) returns (topic: bytes, next: nat)
    requires offset + |r| == buf.Length && buf[..][offset..] == r
    requires |r| >= 2 && 2 + FromU16(r[0], r[1]) <= |r|
    ensures var n := 2 + FromU16(r[0], r[1]);
            topic == r[2..n] && next == offset + n && buf[..][next..] == r[n..]
  {
    SliceOfRest(buf[..], offset, 0, 2);
    assert r[0] == buf[offset] && r[1] == buf[offset + 1];
    var n: nat := FromU16(buf[offset], buf[offset + 1]);
    SliceOfRest(buf[..], offset, 2, 2 + n);
    topic := buf[offset + 2..offset + 2 + n];
    assert topic == buf[..][offset + 2..offset + 2 + n];
    next := offset + 2 + n;
  }

  /** Takes the id that follows the topic if QoS is above 0. */
  method TakePublishId(buf: array<byte>, offset: nat, qos: twobit, ghost r: bytes) returns (id: uint16, next: nat)
    requires offset + |r| == buf.Length && buf[..][offset..] == r
    requires qos > 0 ==> |r| >= 2
    ensures if qos > 0 then id == FromU16(r[0], r[1]) && next == offset + 2 && buf[..][next..] == r[2..]
            else id == 0 && next == offset
  {
    id, next := 0, offset;
    if 0 < qos {
      SliceOfRest(buf[..], offset, 0, 2);
      assert r[0] == buf[offset] && r[1] == buf[offset + 1];
      id := FromU16(buf[offset], buf[offset + 1]);
      next := offset + 2;
    }
  }

  method UnpackPublish(buf: array<byte>) returns (a: Attr)
    requires PublishInBounds(buf[..])
    ensures Shows(a, ViewPublish(buf[..]))
    ensures a.payload != null && fresh(a.payload) && fresh(a.payload.buf)
  {
    ghost var b := buf[..];
    ghost var r := Rest(b);
    ghost var q := 2 + FromU16(r[0], r[1]);
    var hdr, remaining, offset := UnpackFixed(buf);
    hide Opens, HeaderLen, Declared, Rest, FlagOf, Shows;
    assert b[offset..] == buf[offset..];
    var topic, id;
    topic, offset := TakeTopic(buf, offset, r);
    id, offset := TakePublishId(buf, offset, hdr.qos, r[q..]);
    PublishParts(b, topic, id, b[offset..]);
    hide PublishInBounds, ViewPublish;
    assert b[offset..] == buf[offset..];
    a := FillPublish(buf, offset, hdr, remaining, topic, id);
  }

  /** The parts behind the fixed header make up the view. */
  lemma PublishParts(b: bytes, topic: bytes, id: uint16, content: bytes)
    requires PublishInBounds(b)
    requires var r := Rest(b);
             var q := 2 + FromU16(r[0], r[1]);
             && topic == r[2..q]
             && if FlagOf(b[0]).qos > 0 then id == FromU16(r[q..][0], r[q..][1]) && content == r[q..][2..]
                else id == 0 && content == r[q..]
    ensures ViewPublish(b) == View(FlagOf(b[0]), Declared(b), PublishVars(topic, id), content)
  {
    hide HeaderLen, Declared, Rest, FlagOf;
    var r := Rest(b);
    var q := 2 + FromU16(r[0], r[1]);
    if FlagOf(b[0]).qos > 0 {
      PayloadFollows(r, q);
    }
  }

  lemma PayloadFollows(r: bytes, q: nat)
    requires q + 2 <= |r|
    ensures r[q..][0] == r[q] && r[q..][1] == r[q + 1] && r[q..][2..] == r[q + 2..]
  {
  }

  method FillPublish(buf: array<byte>, offset: nat, hdr: CtlFlag, remaining: nat, topic: bytes, id: uint16)
    returns (a: Attr)
    requires offset < buf.Length
    ensures Shows(a, View(hdr, remaining, PublishVars(topic, id), buf[offset..]))
    ensures a.payload != null && fresh(a.payload) && fresh(a.payload.buf)
  {
    var payload := TakePayload(buf, offset);
    a := Attr(hdr, remaining, PublishVars(topic, id), payload);
  }

  method UnpackListed(buf: array<byte>) returns (a: Attr)
    requires ListedInBounds(buf[..])
    ensures Shows(a, ViewListed(buf[..]))
    ensures a.payload != null && fresh(a.payload) && fresh(a.payload.buf)
  {
    ghost var r := Rest(buf[..]);
    var hdr, remaining, offset := UnpackFixed(buf);
    assert forall i :: 0 <= i < |r| ==> r[i] == buf[offset + i];
    var id := FromU16(buf[offset], buf[offset + 1]);
    var payload := TakePayload(buf, offset + 2);
    a := Attr(hdr, remaining, IdVars(id), payload);
    assert buf[offset + 2..] == r[2..];
  }

  method UnpackConnect(buf: array<byte>) returns (a: Attr)
    requires ConnectInBounds(buf[..])
    ensures Shows(a, ViewConnect(buf[..]))
    ensures a.payload != null && fresh(a.payload) && fresh(a.payload.buf)
  {
    ghost var r := Rest(buf[..]);
    var hdr, remaining, offset := UnpackFixed(buf);
    assert forall i :: 0 <= i < |r| ==> r[i] == buf[offset + i];
    var flags := buf[offset + 7];
    var keepAlive := FromU16(buf[offset + 8], buf[offset + 9]);
    var payload := TakePayload(buf, offset + 10);
    a := Attr(hdr, remaining, ConnectVars(flags, keepAlive), payload);
    assert buf[offset + 10..] == r[10..];
  }

  method UnpackAck(buf: array<byte>) returns (a: Attr)
    requires AckInBounds(buf[..])
    ensures Shows(a, ViewAck(buf[..]))
  {
    ghost var r := Rest(buf[..]);
    var hdr, remaining, offset := UnpackFixed(buf);
    assert r[0] == buf[offset] && r[1] == buf[offset + 1];
    a := Attr(hdr, remaining, IdVars(FromU16(buf[offset], buf[offset + 1])), null);
  }

  method UnpackConnack(buf: array<byte>) returns (a: Attr)
    requires AckInBounds(buf[..])
    ensures Shows(a, ViewConnack(buf[..]))
  {
    ghost var r := Rest(buf[..]);
    var hdr, remaining, offset := UnpackFixed(buf);
    assert r[0] == buf[offset] && r[1] == buf[offset + 1];
    a := Attr(hdr, remaining, ConnackVars(buf[offset], buf[offset + 1]), null);
  }

  /** PINGREQ, PINGRESP and DISCONNECT. */
  method UnpackBare(buf: array<byte>) returns (a: Attr)
    requires Opens(buf[..])
    ensures Shows(a, ViewBare(buf[..]))
  {
    var hdr, remaining, offset := UnpackFixed(buf);
    a := Attr(hdr, remaining, NoVars, null);
  }
}
