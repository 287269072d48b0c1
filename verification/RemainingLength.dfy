/** The variable-length Remaining Length code (section 2.2.3 of MQTT 3.1.1). */
module RemainingLength {
  import opened Bytes

  // The largest length that four code bytes can carry.
  const MAX_REMAINING := 268435455
  // The bound that the length check of the source uses.
  const CHECKED_BOUND := 0xFFFFFF7F
  // What the decoders return instead of a length: -1 as a 32-bit number.
  const MALFORMED := 0xFFFFFFFF
  const SCRATCH := 4

  function Pow128(k: nat): (p: nat)
    ensures p >= 1
  {
    if k == 0 then 1 else 128 * Pow128(k - 1)
  }

  lemma Pow128Values()
    ensures Pow128(1) == 128 && Pow128(2) == 16384 && Pow128(3) == 2097152 && Pow128(4) == MAX_REMAINING + 1
  {
    assert Pow128(2) == 128 * Pow128(1);
    assert Pow128(3) == 128 * Pow128(2);
    assert Pow128(4) == 128 * Pow128(3);
  }

  /** Seven bits a byte, least significant first; every byte but the last carries the continuation bit. */
  function Encode(n: nat): (code: bytes)
    ensures |code| >= 1
  {
    if n < 128 then [n] else [n % 128 + 128] + Encode(n / 128)
  }

  /** The base-128 number that the low seven bits of the bytes form. */
  function Value(code: bytes): nat {
    if code == [] then 0 else code[0] % 128 + 128 * Value(code[1..])
  }

  /** Exactly the last byte lacks the continuation bit. */
  ghost predicate Complete(code: bytes) {
    && code != []
    && code[|code| - 1] < 128
    && forall i :: 0 <= i < |code| - 1 ==> code[i] >= 128
  }

  /** Where the code that starts `b` ends; one past the end if no byte of `b` ends it. */
  function CodeLen(b: bytes): (k: nat)
    ensures 1 <= k <= |b| + 1
    ensures k <= |b| ==> Complete(b[..k])
    ensures forall i :: 0 <= i < k - 1 ==> b[i] >= 128
  {
    if b == [] || b[0] < 128 then 1 else 1 + CodeLen(b[1..])
  }

  /** The decoder reads no byte outside `b`. */
  predicate InBounds(b: bytes) {
    |b| >= SCRATCH || CodeLen(b) <= |b|
  }

  datatype Decoded = Decoded(value: nat, len: nat)

  function Decode(b: bytes): (d: Decoded)
    requires InBounds(b)
    ensures d.len <= |b|
  {
    var k := CodeLen(b);
    if k <= SCRATCH then Decoded(Value(b[..k]), k) else Decoded(MALFORMED, SCRATCH)
  }

  // ---------------------------------------------------------------- properties

  lemma {:induction false} ValueAppend(code: bytes, b: byte)
    ensures Value(code + [b]) == Value(code) + b % 128 * Pow128(|code|)
  {
    if code == [] {
      assert code + [b] == [b];
      assert [b][1..] == [];
    } else {
      ValueAppend(code[1..], b);
      assert (code + [b])[1..] == code[1..] + [b];
      assert 128 * (b % 128 * Pow128(|code| - 1)) == b % 128 * (128 * Pow128(|code| - 1));
    }
  }

  lemma {:induction false} ValueBound(code: bytes)
    ensures Value(code) < Pow128(|code|)
  {
    if code != [] {
      ValueBound(code[1..]);
    }
  }

  /** A complete code is found whatever follows it. */
  lemma {:induction false} CodeLenPrefix(code: bytes, rest: bytes)
    requires Complete(code)
    ensures CodeLen(code + rest) == |code|
  {
    if |code| > 1 {
      assert Complete(code[1..]);
      assert (code + rest)[1..] == code[1..] + rest;
      CodeLenPrefix(code[1..], rest);
    }
  }

  /** The encoder is right: its code is complete and stands for the number, in the fewest possible bytes. */
  lemma {:induction false} EncodeCorrect(n: nat)
    ensures Complete(Encode(n)) && Value(Encode(n)) == n
    ensures n < Pow128(|Encode(n)|)
    ensures |Encode(n)| > 1 ==> Pow128(|Encode(n)| - 1) <= n
  {
    if n < 128 {
      assert Encode(n)[1..] == [];
    } else {
      var rest := Encode(n / 128);
      EncodeLong(n);
      EncodeCorrect(n / 128);
      hide Encode, Value, Complete;
      CompleteCons(n % 128 + 128, rest);
      PowStep(|rest|, n);
    }
  }

  lemma EncodeLong(n: nat)
    requires n >= 128
    ensures Encode(n) == [n % 128 + 128] + Encode(n / 128)
  {
  }

  /** One more digit scales the bounds of a number. */
  lemma PowStep(k: nat, n: nat)
    requires k > 0
    ensures n / 128 < Pow128(k) ==> n < Pow128(k + 1)
    ensures (if k > 1 then Pow128(k - 1) <= n / 128 else n >= 128) ==> Pow128(k) <= n
  {
    Scale(Pow128(k - 1), n);
    Scale(Pow128(k), n);
  }

  lemma Scale(p: nat, n: nat)
    ensures n / 128 < p <==> n < 128 * p
  {
  }

  lemma CompleteCons(b: byte, rest: bytes)
    requires b >= 128 && Complete(rest)
    ensures Complete([b] + rest)
    ensures Value([b] + rest) == b % 128 + 128 * Value(rest)
  {
    assert ([b] + rest)[1..] == rest;
  }

  lemma {:induction false} Pow128Monotone(i: nat, j: nat)
    requires i <= j
    ensures Pow128(i) <= Pow128(j)
  {
    if i < j {
      Pow128Monotone(i, j - 1);
    }
  }

  /** The code fits the four scratch bytes exactly when the length is at most 268435455. */
  lemma EncodeFits(n: nat)
    ensures |Encode(n)| <= SCRATCH <==> n <= MAX_REMAINING
  {
    EncodeCorrect(n);
    Pow128Values();
    if |Encode(n)| <= SCRATCH {
      Pow128Monotone(|Encode(n)|, SCRATCH);
    } else {
      Pow128Monotone(SCRATCH, |Encode(n)| - 1);
    }
  }

  /** The source's length check lets through a length that needs five bytes. */
  lemma CheckIsWeaker()
    ensures MAX_REMAINING + 1 <= CHECKED_BOUND && |Encode(MAX_REMAINING + 1)| > SCRATCH
  {
    EncodeFits(MAX_REMAINING + 1);
  }

  lemma DecodeIgnoresRest(code: bytes, rest: bytes)
    requires Complete(code) && |code| <= SCRATCH
    ensures InBounds(code + rest) && Decode(code + rest) == Decoded(Value(code), |code|)
  {
    CodeLenPrefix(code, rest);
    assert (code + rest)[..|code|] == code;
  }

  /** Decoding an encoded length gives it back and consumes its code, whatever follows. */
  lemma RoundTrip(n: nat, rest: bytes)
    requires n <= MAX_REMAINING
    ensures InBounds(Encode(n) + rest)
    ensures Decode(Encode(n) + rest) == Decoded(n, |Encode(n)|)
  {
    var code := Encode(n);
    EncodeCorrect(n);
    EncodeFits(n);
    DecodeIgnoresRest(code, rest);
  }

  lemma SplitValue(b: byte, x: nat)
    ensures (b % 128 + 128 * x) % 128 == b % 128 && (b % 128 + 128 * x) / 128 == x
  {
  }

  /** A complete code is what the encoder makes exactly when it has no padding byte at its end. */
  lemma {:induction false} ReencodeIff(code: bytes)
    requires Complete(code)
    ensures Encode(Value(code)) == code <==> |code| == 1 || code[|code| - 1] != 0
  {
    hide Encode, Value;
    ShortOne(code[0]);
    if |code| == 1 {
      SingleValue(code);
      assert code == [code[0]];
    } else {
      var b, rest := code[0], code[1..];
      CompleteTail(code);
      ReencodeIff(rest);
      CompleteCons(b, rest);
      hide Complete;
      if Value(rest) == 0 {
        ZeroPadded(rest);
      } else {
        ReencodeStep(b, Value(rest));
        SameTail(b, Encode(Value(rest)), rest);
        if |rest| == 1 {
          SingleValue(rest);
        }
      }
    }
  }

  lemma CompleteTail(code: bytes)
    requires Complete(code) && |code| > 1
    ensures Complete(code[1..]) && code[0] >= 128
    ensures code == [code[0]] + code[1..] && code[|code| - 1] == code[1..][|code| - 2]
  {
  }

  lemma ShortOne(b: byte)
    ensures |Encode(b % 128)| == 1 && (b < 128 ==> Encode(b) == [b] && b % 128 == b)
  {
  }

  lemma ReencodeStep(b: byte, x: nat)
    requires b >= 128 && x > 0
    ensures Encode(b % 128 + 128 * x) == [b] + Encode(x)
  {
    SplitValue(b, x);
    EncodeLong(b % 128 + 128 * x);
  }

  lemma SameTail(b: byte, s: bytes, t: bytes)
    ensures [b] + s == [b] + t <==> s == t
  {
    assert ([b] + s)[1..] == s && ([b] + t)[1..] == t;
  }

  lemma SingleValue(code: bytes)
    requires |code| == 1
    ensures Value(code) == code[0] % 128
  {
    assert code[1..] == [];
  }

  lemma {:induction false} ZeroPadded(code: bytes)
    requires Complete(code) && Value(code) == 0
    ensures code[|code| - 1] == 0
  {
    if |code| > 1 {
      assert Complete(code[1..]);
      ZeroPadded(code[1..]);
    }
  }

  /** The error value is never a length: it is returned exactly when four bytes do not end the code. */
  lemma MalformedIff(b: bytes)
    requires InBounds(b)
    ensures Decode(b).value == MALFORMED <==> CodeLen(b) > SCRATCH
    ensures Decode(b).value != MALFORMED ==> Decode(b).value <= MAX_REMAINING
  {
    var k := CodeLen(b);
    if k <= SCRATCH {
      ValueBound(b[..k]);
      Pow128Monotone(k, SCRATCH);
      Pow128Values();
    }
  }

  function Zeros(n: nat): (z: bytes)
    ensures |z| == n && forall i :: 0 <= i < n ==> z[i] == 0
  {
    seq(n, _ => 0)
  }

  /** What the second decoder returns: it works on a copy padded to four bytes. */
  function DecodeLow(code: bytes): nat
    requires |code| <= SCRATCH
  {
    Decode(code + Zeros(SCRATCH - |code|)).value
  }

  /** Bytes after the end of a code do not matter. */
  lemma PaddingIgnored(code: bytes, z: bytes)
    requires CodeLen(code) <= |code| && CodeLen(code) <= SCRATCH
    ensures InBounds(code + z) && Decode(code + z) == Decode(code)
  {
    var k := CodeLen(code);
    DecodeIgnoresRest(code[..k], code[k..]);
    DecodeIgnoresRest(code[..k], code[k..] + z);
    Rejoin(code, k, z);
  }

  /** The two decoders agree on every code that ends within its bytes, and both reject four continuation bytes. */
  lemma DecodersAgree(code: bytes)
    requires |code| <= SCRATCH && InBounds(code)
    ensures DecodeLow(code) == Decode(code).value
    ensures CodeLen(code) > SCRATCH ==> DecodeLow(code) == MALFORMED
  {
    MalformedIff(code);
    if |code| == SCRATCH {
      assert code + Zeros(0) == code;
    } else {
      PaddingIgnored(code, Zeros(SCRATCH - |code|));
    }
    hide Decode, CodeLen, Complete, Value;
  }

  // ---------------------------------------------------------------- the loops of the source

  lemma Pow128Step(m: nat, k: nat)
    requires m < Pow128(k)
    ensures m >= 128 ==> k > 1 && m / 128 < Pow128(k - 1)
  {
    if m >= 128 {
      assert k > 0 && Pow128(k) == 128 * Pow128(k - 1);
      assert Pow128(0) == 1;
    }
  }

  function CodeByte(m: nat): byte {
    if m / 128 > 0 then m % 128 + 128 else m % 128
  }

  lemma EncodeStep(m: nat)
    ensures Encode(m) == [CodeByte(m)] + if m / 128 > 0 then Encode(m / 128) else []
  {
  }

  /** Stores one code byte and returns what is left of the number. */
  method PutDigit(data: array<byte>, count: nat, m: nat) returns (m': nat)
    requires count < data.Length
    modifies data
    ensures m' == m / 128
    ensures data[..count + 1] == old(data[..count]) + [CodeByte(m)]
  {
    data[count] := m % 128;
    m' := m / 128;
    if 0 < m' {
      data[count] := data[count] + 128;
    }
  }

  method EncodeRemainingLen(n: nat) returns (code: array<byte>)
    requires n <= MAX_REMAINING
    ensures fresh(code) && code[..] == Encode(n)
  {
    var data := new byte[SCRATCH](_ => 0);
    var count: nat, m: nat, more := 0, n, true;
    Pow128Values();
    hide Pow128, Encode, CodeByte;
    while more
      invariant 0 <= count <= SCRATCH
      invariant more ==> count < SCRATCH && m < Pow128(SCRATCH - count) && data[..count] + Encode(m) == Encode(n)
      invariant !more ==> data[..count] == Encode(n)
      decreases more, SCRATCH - count
    {
      Pow128Step(m, SCRATCH - count);
      EncodeStep(m);
      Assoc(data[..count], [CodeByte(m)], if m / 128 > 0 then Encode(m / 128) else []);
      m := PutDigit(data, count, m);
      count := count + 1;
      more := 0 < m;
    }
    code := new byte[count];
    forall i | 0 <= i < count {
      code[i] := data[i];
    }
    assert code[..] == data[..count];
  }

  lemma EmptyValue()
    ensures forall code: bytes :: code == [] ==> Value(code) == 0
  {
  }

  method DecodeRemainingLen(buf: array<byte>, at: nat) returns (value: nat, lenBytes: nat)
    requires at <= buf.Length && InBounds(buf[at..])
    ensures Decoded(value, lenBytes) == Decode(buf[at..])
  {
    hide Value;
    ghost var b := buf[at..];
    var multiplier: nat, more := 1, true;
    value, lenBytes := 0, 0;
    Pow128Values();
    assert Value(b[..0]) == 0 by {
      EmptyValue();
    }
    while more
      invariant 0 <= lenBytes <= SCRATCH && lenBytes <= |b|
      invariant multiplier == Pow128(lenBytes) <= 0x1000_0000
      invariant value == Value(b[..lenBytes]) < Pow128(lenBytes)
      invariant forall i :: 0 <= i < lenBytes - 1 ==> b[i] >= 128
      invariant lenBytes == 0 ==> more
      invariant lenBytes > 0 ==> (more <==> b[lenBytes - 1] >= 128)
      decreases more, SCRATCH - lenBytes
    {
      if multiplier > 128 * 128 * 128 {
        value := MALFORMED;
        return;
      }
      ValueAppend(b[..lenBytes], b[lenBytes]);
      ValueBound(b[..lenBytes + 1]);
      assert b[..lenBytes] + [b[lenBytes]] == b[..lenBytes + 1];
      value := value + buf[at + lenBytes] % 128 * multiplier;
      multiplier := multiplier * 128;
      lenBytes := lenBytes + 1;
      more := buf[at + lenBytes - 1] >= 128;
    }
  }

  method DecodeRemainingLenLow(code: array<byte>) returns (value: nat)
    requires code.Length <= SCRATCH
    ensures value == DecodeLow(code[..])
  {
    var data := new byte[SCRATCH](_ => 0);
    forall i | 0 <= i < code.Length {
      data[i] := code[i];
    }
    assert data[0..] == code[..] + Zeros(SCRATCH - code.Length);
    var len;
    value, len := DecodeRemainingLen(data, 0);
  }
}
