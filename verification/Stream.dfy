/** A stream of packets needs no separators: the fixed headers tell where each packet ends. */
module Streams {
  import opened Bytes
  import opened Packets
  import RL = RemainingLength

  /** The length code ends within four bytes and declares exactly the bytes that follow. */
  predicate IsFrame(f: bytes) {
    Opens(f) && Declared(f) == |Rest(f)| <= RL.MAX_REMAINING
  }

  function Flatten(fs: seq<bytes>): bytes {
    if fs == [] then [] else fs[0] + Flatten(fs[1..])
  }

  /** Cuts a stream by control byte and decoded Remaining Length. */
  function Split(b: bytes): Option<seq<bytes>>
    decreases |b|
  {
    if b == [] then Some([])
    else if !Opens(b) || Declared(b) > |Rest(b)| || Declared(b) > RL.MAX_REMAINING then None
    else
      var n := HeaderLen(b) + Declared(b);
      match Split(b[n..])
      case None => None
      case Some(fs) => Some([b[..n]] + fs)
  }

  predicate AllWellFormed(ps: seq<Packet>) {
    forall i :: 0 <= i < |ps| ==> WellFormed(ps[i])
  }

  /** A CONNECT without payload, which the client does send; its reader refuses it. */
  predicate EmptyConnect(p: Packet) {
    p.Connect? && p.content == []
  }

  /** The packets that may go out. */
  predicate Sendable(p: Packet) {
    WellFormed(p) || EmptyConnect(p)
  }

  predicate AllSendable(ps: seq<Packet>) {
    forall i :: 0 <= i < |ps| ==> Sendable(ps[i])
  }

  function EncodeAll(ps: seq<Packet>): bytes {
    if ps == [] then [] else Encode(ps[0]) + EncodeAll(ps[1..])
  }

  /** Cuts the stream and unpacks every frame. */
  function Parse(b: bytes): Option<seq<Packet>>
    decreases |b|
  {
    if b == [] then Some([])
    else if !Opens(b) || Declared(b) > |Rest(b)| || Declared(b) > RL.MAX_REMAINING then None
    else
      var n := HeaderLen(b) + Declared(b);
      if !InBounds(b[..n]) then None
      else match Parse(b[n..])
        case None => None
        case Some(ps) => Some([Unpack(b[..n])] + ps)
  }

  lemma EncodeIsFrame(p: Packet)
    requires Sendable(p)
    ensures IsFrame(Encode(p))
  {
    FrameOpens(HeaderOf(p), BodyOf(p));
  }

  /** What follows a frame does not change where it ends. */
  lemma FrameEnds(f: bytes, more: bytes)
    requires IsFrame(f)
    ensures Opens(f + more) && Declared(f + more) == Declared(f) && HeaderLen(f + more) == HeaderLen(f)
    ensures HeaderLen(f) + Declared(f) == |f|
    ensures (f + more)[..|f|] == f && (f + more)[|f|..] == more
  {
    var k := HeaderLen(f) - 1;
    RL.MalformedIff(f[1..]);
    var code := f[1..][..k];
    RL.DecodeIgnoresRest(code, f[1..][k..]);
    RL.DecodeIgnoresRest(code, f[1..][k..] + more);
    assert f[1..] == code + f[1..][k..];
    assert (f + more)[1..] == code + (f[1..][k..] + more);
  }

  /** Splitting the concatenation of any list of frames gives exactly that list. */
  lemma {:induction false} SplitFlatten(fs: seq<bytes>)
    requires forall f :: f in fs ==> IsFrame(f)
    ensures Split(Flatten(fs)) == Some(fs)
  {
    if fs != [] {
      FrameEnds(fs[0], Flatten(fs[1..]));
      SplitFlatten(fs[1..]);
      HeadTail(fs);
    }
  }

  lemma FlattenCons(f: bytes, fs: seq<bytes>)
    ensures Flatten([f] + fs) == f + Flatten(fs)
  {
    assert ([f] + fs)[1..] == fs;
  }

  lemma SplitStep(b: bytes) returns (first: bytes, rest: bytes, fs: seq<bytes>)
    requires b != [] && Split(b).Some?
    ensures b == first + rest && |rest| < |b| && IsFrame(first)
    ensures Split(rest) == Some(fs) && Split(b) == Some([first] + fs)
  {
    var n := HeaderLen(b) + Declared(b);
    FirstIsFrame(b, n);
    first, rest := b[..n], b[n..];
    fs := Split(rest).value;
    hide IsFrame, RL.Decode, RL.InBounds;
  }

  /** A stream splits in no other way. */
  lemma {:induction false} SplitSound(b: bytes)
    requires Split(b).Some?
    ensures Flatten(Split(b).value) == b
    ensures forall f :: f in Split(b).value ==> IsFrame(f)
    decreases |b|
  {
    if b != [] {
      var first, rest, fs := SplitStep(b);
      hide Split, Flatten, IsFrame;
      SplitSound(rest);
      FlattenCons(first, fs);
    }
  }

  lemma FirstIsFrame(b: bytes, n: nat)
    requires Opens(b) && n == HeaderLen(b) + Declared(b) <= |b| && Declared(b) <= RL.MAX_REMAINING
    ensures IsFrame(b[..n])
  {
    var k := HeaderLen(b) - 1;
    RL.MalformedIff(b[1..]);
    var code := b[1..][..k];
    RL.DecodeIgnoresRest(code, b[1..][k..]);
    RL.DecodeIgnoresRest(code, b[1..n][k..]);
    assert b[1..] == code + b[1..][k..];
    assert b[..n][1..] == code + b[1..n][k..];
  }

  /** No frame is a proper prefix of another. */
  lemma PrefixFree(f: bytes, g: bytes)
    requires IsFrame(f) && IsFrame(g) && f <= g
    ensures f == g
  {
    FrameEnds(f, g[|f|..]);
    FrameEnds(g, []);
    assert g == f + g[|f|..];
    assert g == g + [];
  }

  lemma ParseFirst(p: Packet, more: bytes)
    requires Sendable(p)
    ensures Parse(Encode(p) + more) ==
            if EmptyConnect(p) then None
            else match Parse(more)
              case None => None
              case Some(ps) => Some([p] + ps)
  {
    EncodeIsFrame(p);
    FrameEnds(Encode(p), more);
    if EmptyConnect(p) {
      FrameOpens(HeaderOf(p), BodyOf(p));
    } else {
      RoundTrip(p);
    }
  }

  /** Parsing the concatenated encodings of packets recovers the packets, unless there is an empty CONNECT
      among them: then the stream is refused. */
  lemma {:induction false} ParseIff(ps: seq<Packet>)
    requires AllSendable(ps)
    ensures Parse(EncodeAll(ps)) == if AllWellFormed(ps) then Some(ps) else None
  {
    if ps != [] {
      hide Encode, WellFormed, Opens, InBounds, HeaderLen, Declared, Rest, Unpack;
      EmptyIsMalformed(ps[0]);
      ParseFirst(ps[0], EncodeAll(ps[1..]));
      ParseIff(ps[1..]);
      HeadTail(ps);
      WellFormedCons(ps);
      hide Parse, AllWellFormed, Sendable, EmptyConnect;
    }
  }

  lemma EmptyIsMalformed(p: Packet)
    requires Sendable(p)
    ensures WellFormed(p) <==> !EmptyConnect(p)
  {
  }

  lemma WellFormedCons(ps: seq<Packet>)
    requires ps != []
    ensures AllWellFormed(ps) <==> WellFormed(ps[0]) && AllWellFormed(ps[1..])
  {
    hide WellFormed;
    HeadTail(ps);
  }

  /** Parsing the concatenated encodings of any list of well-formed packets recovers the list. */
  lemma ParseEncodeAll(ps: seq<Packet>)
    requires AllWellFormed(ps)
    ensures Parse(EncodeAll(ps)) == Some(ps)
  {
    hide Parse, EncodeAll, WellFormed;
    ParseIff(ps);
  }

  // ---------------------------------------------------------------- the image of the stream

  function Encodings(ps: seq<Packet>): seq<bytes> {
    if ps == [] then [] else [Encode(ps[0])] + Encodings(ps[1..])
  }

  lemma {:induction false} EncodingsFlatten(ps: seq<Packet>)
    requires AllWellFormed(ps)
    ensures Flatten(Encodings(ps)) == EncodeAll(ps)
    ensures forall f :: f in Encodings(ps) ==> IsFrame(f) && PacketFrame(f)
  {
    hide WellFormed, Encode, IsFrame, PacketFrame;
    if ps != [] {
      EncodingsFlatten(ps[1..]);
      FlattenCons(Encode(ps[0]), Encodings(ps[1..]));
      EncodeIsFrame(ps[0]);
      EncodingIsPacketFrame(ps[0]);
    }
  }

  function Unpackings(fs: seq<bytes>): seq<Packet>
    requires forall f :: f in fs ==> InBounds(f)
  {
    if fs == [] then [] else [Unpack(fs[0])] + Unpackings(fs[1..])
  }

  lemma {:induction false} UnpackingsEncode(fs: seq<bytes>)
    requires forall f :: f in fs ==> PacketFrame(f)
    ensures forall f :: f in fs ==> InBounds(f)
    ensures AllWellFormed(Unpackings(fs)) && EncodeAll(Unpackings(fs)) == Flatten(fs)
  {
    hide WellFormed, Encode, InBounds, PacketFrame, Unpack;
    forall f | f in fs
      ensures InBounds(f) && WellFormed(Unpack(f)) && Encode(Unpack(f)) == f
    {
      PacketImage(f);
    }
    if fs != [] {
      UnpackingsEncode(fs[1..]);
      HeadTail(fs);
      assert Unpackings(fs)[1..] == Unpackings(fs[1..]);
    }
  }

  /** The image of the whole packing layer: a stream is the concatenated encodings of some well-formed packets
      exactly when it splits into packet frames; parsing it then finds those packets. */
  lemma StreamImage(b: bytes)
    ensures (exists ps :: AllWellFormed(ps) && EncodeAll(ps) == b)
       <==> Split(b).Some? && forall f :: f in Split(b).value ==> PacketFrame(f)
    ensures (exists ps :: AllWellFormed(ps) && EncodeAll(ps) == b)
        ==> Parse(b).Some? && EncodeAll(Parse(b).value) == b
  {
    hide AllWellFormed, EncodeAll, Split, Parse, PacketFrame, IsFrame, InBounds, Flatten, Encodings, Unpackings;
    if Split(b).Some? && forall f :: f in Split(b).value ==> PacketFrame(f) {
      SplitSound(b);
      UnpackingsEncode(Split(b).value);
      assert AllWellFormed(Unpackings(Split(b).value)) && EncodeAll(Unpackings(Split(b).value)) == b;
    }
    forall ps | AllWellFormed(ps) && EncodeAll(ps) == b
      ensures Split(b).Some? && (forall f :: f in Split(b).value ==> PacketFrame(f)) && Parse(b) == Some(ps)
    {
      EncodingsFlatten(ps);
      SplitFlatten(Encodings(ps));
      ParseEncodeAll(ps);
    }
  }
}
