/** The bounded payload buffer: a write end, a read cursor, and the items written and read through them. */
module PayloadBuffer {
  import opened Bytes
  import opened Errors

  // ---------------------------------------------------------------- writing, as a function of the contents

  datatype Item = Str(s: cstring) | Byte(b: byte) | Raw(r: bytes)

  /** Conversion to 16 bits. */
  function Narrow(n: nat): (m: uint16)
    ensures m <= n && (m == n <==> n <= 0xFFFF)
  {
    n % 0x1_0000
  }

  /** The bytes an item takes. The length of a string is narrowed to 16 bits, and so is the text copied. */
  function Emit(i: Item): (e: bytes)
    ensures i.Str? && |i.s| <= 0xFFFF ==> e == StrCode(i.s)
  {
    match i
    case Str(s) => StrCode(s[..Narrow(|s|)])
    case Byte(b) => [b]
    case Raw(r) => r
  }

  function EmitAll(items: seq<Item>): bytes {
    if items == [] then [] else Emit(items[0]) + EmitAll(items[1..])
  }

  predicate Fits(capacity: nat, content: bytes, i: Item) {
    |content| + |Emit(i)| <= capacity
  }

  function Write(capacity: nat, content: bytes, i: Item): bytes {
    if Fits(capacity, content, i) then content + Emit(i) else content
  }

  /** Writes the items in turn; also returns those that were taken. */
  function WriteAll(capacity: nat, content: bytes, items: seq<Item>): (bytes, seq<Item>)
    decreases |items|
  {
    if items == [] then (content, [])
    else
      var (end, taken) := WriteAll(capacity, Write(capacity, content, items[0]), items[1..]);
      (end, if Fits(capacity, content, items[0]) then [items[0]] + taken else taken)
  }

  // ---------------------------------------------------------------- reading, as a function of the buffer

  datatype ReadOutcome =
    | Got(value: bytes, next: nat)
    | Refused
    | OutOfBounds // the source would touch memory past the buffer

  function ReadStr(b: bytes, valid: nat, pos: nat, limit: nat): ReadOutcome {
    if pos + 2 > |b| then OutOfBounds
    else
      var n := FromU16(b[pos], b[pos + 1]);
      if n > limit || pos + n >= valid then Refused
      else if pos + 2 + n > |b| then OutOfBounds
      else Got(b[pos + 2..pos + 2 + n], pos + 2 + n)
  }

  function ReadOne(b: bytes, valid: nat, pos: nat): ReadOutcome
    requires valid <= |b|
  {
    if pos >= valid then Refused else Got([b[pos]], pos + 1)
  }

  /** Refuses a read that would end exactly at the end of the contents. */
  function ReadRaw(b: bytes, valid: nat, pos: nat, n: nat): ReadOutcome
    requires valid <= |b|
  {
    if n + pos >= valid then Refused else Got(b[pos..pos + n], pos + n)
  }

  datatype Kind = StringKind | ByteKind | RawKind(n: nat)

  function KindOf(i: Item): Kind {
    match i
    case Str(_) => StringKind
    case Byte(_) => ByteKind
    case Raw(r) => RawKind(|r|)
  }

  function ValueOf(i: Item): bytes {
    match i
    case Str(s) => s
    case Byte(b) => [b]
    case Raw(r) => r
  }

  function Kinds(items: seq<Item>): (k: seq<Kind>)
    ensures |k| == |items| && forall i :: 0 <= i < |items| ==> k[i] == KindOf(items[i])
  {
    seq(|items|, i requires 0 <= i < |items| => KindOf(items[i]))
  }

  function Values(items: seq<Item>): (v: seq<bytes>)
    ensures |v| == |items| && forall i :: 0 <= i < |items| ==> v[i] == ValueOf(items[i])
  {
    seq(|items|, i requires 0 <= i < |items| => ValueOf(items[i]))
  }

  function ReadItem(b: bytes, valid: nat, pos: nat, kind: Kind, limit: nat): ReadOutcome
    requires valid <= |b|
  {
    match kind
    case StringKind => ReadStr(b, valid, pos, limit)
    case ByteKind => ReadOne(b, valid, pos)
    case RawKind(n) => ReadRaw(b, valid, pos, n)
  }

  datatype Reads = Reads(values: seq<bytes>, end: nat) | ReadFailed

  /** Reads one item of each kind in turn, from a buffer whose first `valid` bytes are its contents. */
  function ReadAll(b: bytes, valid: nat, pos: nat, kinds: seq<Kind>, limit: nat): Reads
    requires valid <= |b|
    decreases |kinds|
  {
    if kinds == [] then Reads([], pos)
    else match ReadItem(b, valid, pos, kinds[0], limit)
      case Got(value, next) =>
        (match ReadAll(b, valid, next, kinds[1..], limit)
         case Reads(values, end) => Reads([value] + values, end)
         case ReadFailed => ReadFailed)
      case _ => ReadFailed
  }

  /** Strings are no longer than the reader allows, and the last item is not a run of raw bytes. */
  predicate Readable(items: seq<Item>, limit: nat) {
    && (forall i :: 0 <= i < |items| && items[i].Str? ==> |items[i].s| <= limit)
    && (items != [] ==> !items[|items| - 1].Raw?)
  }

  // ---------------------------------------------------------------- properties

  /** Any sequence of writes leaves the encodings of the taken items, in order, within the capacity;
      every item is taken exactly when all of them fit together. */
  lemma {:induction false} WritesAppend(capacity: nat, content: bytes, items: seq<Item>)
    requires |content| <= capacity
    ensures var (end, taken) := WriteAll(capacity, content, items);
            && end == content + EmitAll(taken)
            && |end| <= capacity
            && (taken == items <==> |content| + |EmitAll(items)| <= capacity)
            && |taken| <= |items|
    decreases |items|
  {
    if items != [] {
      WritesAppend(capacity, Write(capacity, content, items[0]), items[1..]);
      var (end, taken) := WriteAll(capacity, content, items);
      if Fits(capacity, content, items[0]) {
        var more := WriteAll(capacity, content + Emit(items[0]), items[1..]).1;
        assert taken == [items[0]] + more && taken[1..] == more;
        assert end == content + (Emit(items[0]) + EmitAll(more));
        assert items == [items[0]] + items[1..];
      }
    }
  }

  /** Reading the kinds that were written gives the items back and stops at the end of the contents, whatever
      the rest of the buffer holds, exactly when the items are readable. */
  lemma {:induction false} ReadBackIff(before: bytes, items: seq<Item>, slack: bytes, limit: nat)
    requires limit <= 0xFFFF
    ensures var c := before + EmitAll(items);
            (ReadAll(c + slack, |c|, |before|, Kinds(items), limit) == Reads(Values(items), |c|)
             <==> Readable(items, limit))
    decreases |items|
  {
    if items != [] {
      var c, i, rest := before + EmitAll(items), items[0], items[1..];
      var next := before + Emit(i);
      Assoc(before, Emit(i), EmitAll(rest));
      ReadBackIff(next, rest, slack, limit);
      ReadFirst(before, i, EmitAll(rest), slack, limit);
      ReadableSplit(items, limit);
      if rest != [] && Readable(rest, limit) {
        ReadableNonEmpty(rest, limit);
      }
      ReadOn(c + slack, |c|, |before|, items, limit);
      hide ReadAll, ReadItem, Emit, EmitAll, Readable, Values;
    }
  }

  /** Reading a list of items is reading the first and then the others. */
  lemma ReadOn(b: bytes, valid: nat, pos: nat, items: seq<Item>, limit: nat)
    requires items != [] && valid <= |b|
    ensures var got := ReadItem(b, valid, pos, KindOf(items[0]), limit);
            ReadAll(b, valid, pos, Kinds(items), limit) == Reads(Values(items), valid) <==>
            (&& got.Got? && got.value == ValueOf(items[0])
             && ReadAll(b, valid, got.next, Kinds(items[1..]), limit) == Reads(Values(items[1..]), valid))
  {
    hide ReadItem;
    var rest := items[1..];
    assert Kinds(items)[1..] == Kinds(rest);
    assert Values(items) == [ValueOf(items[0])] + Values(rest);
    var got := ReadItem(b, valid, pos, KindOf(items[0]), limit);
    if got.Got? {
      var tail := ReadAll(b, valid, got.next, Kinds(rest), limit);
      if tail.Reads? {
        assert ([got.value] + tail.values)[1..] == tail.values;
        assert ([got.value] + tail.values)[0] == got.value;
        assert Values(items)[1..] == Values(rest);
      }
    }
  }

  lemma ReadableSplit(items: seq<Item>, limit: nat)
    requires items != []
    ensures Readable(items, limit) <==>
              && (items[0].Str? ==> |items[0].s| <= limit)
              && Readable(items[1..], limit)
              && (items[1..] == [] ==> !items[0].Raw?)
  {
    var rest := items[1..];
    assert forall i :: 0 <= i < |rest| ==> rest[i] == items[i + 1];
    assert items == [items[0]] + rest;
  }

  lemma {:induction false} ReadableNonEmpty(items: seq<Item>, limit: nat)
    requires items != [] && Readable(items, limit)
    ensures EmitAll(items) != []
  {
    if |items| > 1 {
      ReadableSplit(items, limit);
      ReadableNonEmpty(items[1..], limit);
    }
  }

  /** What reading one item does at the place where it was written. */
  lemma ReadFirst(before: bytes, i: Item, rest: bytes, slack: bytes, limit: nat)
    requires limit <= 0xFFFF
    ensures var c, next := before + (Emit(i) + rest), before + Emit(i);
            var got := ReadItem(c + slack, |c|, |before|, KindOf(i), limit);
            match i
            case Str(s) =>
              && (|s| <= limit ==> got == Got(s, |next|))
              && (|s| > limit && got.Got? ==> got.value != s)
            case Byte(x) => got == Got([x], |next|)
            case Raw(r) => got == if rest == [] then Refused else Got(r, |next|)
  {
    var b := before + (Emit(i) + rest) + slack;
    var e := Emit(i);
    assert forall k :: 0 <= k < |e| ==> b[|before| + k] == e[k];
    match i
    case Str(s) =>
      var n := Narrow(|s|);
      assert e[0] == U16(n)[0] && e[1] == U16(n)[1] && e[2..] == s[..n];
      assert FromU16(b[|before|], b[|before| + 1]) == n;
      assert b[|before| + 2..|before| + 2 + n] == e[2..];
    case Byte(x) =>
    case Raw(r) =>
      assert b[|before|..|before| + |r|] == r;
  }

  /** Whatever is written into an empty buffer, the items that were taken are read back in order, from the buffer
      as it is or from a copy of its contents. */
  lemma QueueRoundTrip(capacity: nat, items: seq<Item>, slack: bytes, limit: nat)
    requires limit <= 0xFFFF
    ensures var (content, taken) := WriteAll(capacity, [], items);
            && |content| <= capacity
            && (ReadAll(content + slack, |content|, 0, Kinds(taken), limit) == Reads(Values(taken), |content|)
                <==> Readable(taken, limit))
  {
    WritesAppend(capacity, [], items);
    var (content, taken) := WriteAll(capacity, [], items);
    ReadBackIff([], taken, slack, limit);
    assert [] + EmitAll(taken) == content;
  }

  /** How far a read may go beyond what it is for. The cursor ends at most one byte behind the contents, and does
      so exactly when the text is one byte longer than the contents; and a destination of `limit` bytes has no
      room for the terminator exactly when the text has `limit` bytes. */
  lemma ReadStrEdges(b: bytes, valid: nat, pos: nat, limit: nat)
    ensures var got := ReadStr(b, valid, pos, limit);
            got.Got? ==>
              && got.next <= valid + 1
              && (got.next == valid + 1 <==> pos + 1 + |got.value| == valid)
              && |got.value| <= limit
              && (|got.value + [0]| > limit <==> |got.value| == limit)
    ensures ReadStr([0, 1, 7], 2, 0, 10) == Got([7], 3)
    ensures ReadStr([0, 1, 7], 3, 0, 1) == Got([7], 3)
  {
    assert [0, 1, 7][2..3] == [7];
  }

  lemma EmitStr(s: cstring)
    ensures var n := Narrow(|s|); Emit(Str(s)) == U16(n) + s[..n] && |Emit(Str(s))| == n + 2
  {
  }

  // ---------------------------------------------------------------- the buffer

  class Payload {
    const buf: array<byte>
    var len: nat
    var lenValid: nat
    var pos: nat

    ghost predicate Valid()
      reads this
    {
      lenValid <= len <= buf.Length
    }

    ghost function Contents(): bytes
      requires Valid()
      reads this, buf
    {
      buf[..lenValid]
    }

    constructor (n: nat)
      ensures Valid() && fresh(buf)
      ensures buf.Length == len == n && lenValid == 0 && pos == 0
    {
      len, lenValid, pos := n, 0, 0;
      buf := new byte[n];
    }

    /** Makes the contents the whole buffer, in place, which leaves no room to write anything more. */
    method ToBuf()
      requires Valid()
      modifies this`len
      ensures Valid() && buf[..len] == Contents() == old(Contents())
      ensures forall i: Item :: Fits(len, Contents(), i) ==> Emit(i) == []
    {
      len := lenValid;
    }

    method DeepToBuf() returns (b: array<byte>)
      requires Valid()
      ensures fresh(b) && b[..] == Contents()
    {
      b := new byte[lenValid];
      Copy(b, 0, buf[..lenValid]);
    }

    method WriteString(s: cstring) returns (r: int)
      requires Valid()
      modifies this`lenValid, buf
      ensures Valid() && Contents() == Write(len, old(Contents()), Str(s))
      ensures r == if Fits(len, old(Contents()), Str(s)) then |Emit(Str(s))| else -E_MEM_OUT
    {
      hide U16, FromU16, Emit;
      var n := Narrow(|s|);
      EmitStr(s);
      if n + 2 + lenValid > len {
        return -E_MEM_OUT;
      }
      Copy(buf, lenValid, U16(n));
      lenValid := lenValid + 2;
      Copy(buf, lenValid, s[..n]);
      lenValid := lenValid + n;
      r := n + 2;
      Assoc(old(Contents()), U16(n), s[..n]);
    }

    method WriteByte(x: byte) returns (r: int)
      requires Valid()
      modifies this`lenValid, buf
      ensures Valid() && Contents() == Write(len, old(Contents()), Byte(x))
      ensures r == if Fits(len, old(Contents()), Byte(x)) then 1 else -E_MEM_OUT
    {
      if len == lenValid {
        return -E_MEM_OUT;
      }
      buf[lenValid] := x;
      lenValid := lenValid + 1;
      r := 1;
      assert Contents() == old(Contents()) + [x];
    }

    method WriteBytes(xs: bytes) returns (r: int)
      requires Valid()
      modifies this`lenValid, buf
      ensures Valid() && Contents() == Write(len, old(Contents()), Raw(xs))
      ensures r == if Fits(len, old(Contents()), Raw(xs)) then |xs| else -E_MEM_OUT
    {
      if |xs| + lenValid > len {
        return -E_MEM_OUT;
      }
      Copy(buf, lenValid, xs);
      lenValid := lenValid + |xs|;
      r := |xs|;
    }

    method ReadString(dst: array<byte>, limit: uint16) returns (r: int)
      requires Valid() && dst != buf && limit > 0
      requires ReadStr(buf[..], lenValid, pos, limit) != OutOfBounds
      requires var got := ReadStr(buf[..], lenValid, pos, limit); got.Got? ==> |got.value| < dst.Length
      modifies this`pos, dst
      ensures match old(ReadStr(buf[..], lenValid, pos, limit))
              case Got(s, next) =>
                && pos == next && r == |s| + 2
                && dst[..] == s + [0] + old(dst[..])[|s| + 1..]
              case _ => pos == old(pos) && r == -E_MEM_OUT && dst[..] == old(dst[..])
    {
      var n := FromU16(buf[pos], buf[pos + 1]);
      if n > limit || pos + n >= lenValid {
        return -E_MEM_OUT;
      }
      Terminate(dst, buf[pos + 2..pos + 2 + n]);
      pos := pos + n + 2;
      r := n + 2;
    }

    /** Stores a C string with its terminator. */
    static method Terminate(dst: array<byte>, s: bytes)
      requires |s| < dst.Length
      modifies dst
      ensures dst[..] == s + [0] + old(dst[..])[|s| + 1..]
    {
      Copy(dst, 0, s);
      dst[|s|] := 0;
      assert dst[..] == dst[..|s|] + [0] + dst[|s| + 1..];
    }

    method ReadByte() returns (r: int, x: byte)
      requires Valid()
      modifies this`pos
      ensures match old(ReadOne(buf[..], lenValid, pos))
              case Got(v, next) => pos == next && r == 1 && v == [x]
              case _ => pos == old(pos) && r == -E_MEM_OUT && x == 0
    {
      x := 0;
      if pos >= lenValid {
        return -E_MEM_OUT, x;
      }
      x := buf[pos];
      pos := pos + 1;
      r := 1;
    }

    method ReadBytes(dst: array<byte>, n: nat) returns (r: int)
      requires Valid() && dst != buf
      requires ReadRaw(buf[..], lenValid, pos, n).Got? ==> n <= dst.Length
      modifies this`pos, dst
      ensures match old(ReadRaw(buf[..], lenValid, pos, n))
              case Got(v, next) => pos == next && r == E_NONE && dst[..] == v + old(dst[..])[n..]
              case _ => pos == old(pos) && r == -E_MEM_OUT && dst[..] == old(dst[..])
    {
      if n + pos >= lenValid {
        return -E_MEM_OUT;
      }
      Copy(dst, 0, buf[pos..pos + n]);
      pos := pos + n;
      r := E_NONE;
      assert dst[..] == dst[..n] + dst[n..];
    }
  }

  /** No buffer is made for an empty payload. */
  method NewPayload(n: nat) returns (p: Payload?)
    ensures n == 0 <==> p == null
    ensures p != null ==> fresh(p) && fresh(p.buf) && p.Valid()
    ensures p != null ==> p.buf.Length == p.len == n && p.lenValid == 0 && p.pos == 0
  {
    if n == 0 {
      return null;
    }
    p := new Payload(n);
  }
}
