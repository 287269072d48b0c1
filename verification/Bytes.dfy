/** Bytes, big-endian 16-bit numbers and C strings, as every other module uses them. */
module Bytes {

  datatype Option<+T> = None | Some(value: T)

  type byte = b: int | 0 <= b < 0x100
  type uint16 = n: int | 0 <= n < 0x1_0000
  type bytes = seq<byte>

  /** The characters of a C string before its terminator. */
  type cstring = s: bytes | 0 !in s

  /** What a length field of two bytes can announce. */
  type text = s: bytes | |s| <= 0xFFFF

  /** Big-endian bytes of a 16-bit number (section 1.5.2 of MQTT 3.1.1). */
  function U16(n: uint16): (b: bytes)
    ensures |b| == 2 && FromU16(b[0], b[1]) == n
  {
    [n / 256, n % 256]
  }

  function FromU16(hi: byte, lo: byte): uint16 {
    hi * 256 + lo
  }

  lemma U16Inverse(hi: byte, lo: byte)
    ensures U16(FromU16(hi, lo)) == [hi, lo]
  {
  }

  /** What `strlen` returns for a buffer holding `s` and then a terminator. */
  function Strlen(s: bytes): (n: nat)
    ensures n <= |s|
    ensures 0 !in s[..n]
    ensures n < |s| ==> s[n] == 0
  {
    if s == [] || s[0] == 0 then 0
    else
      var n := 1 + Strlen(s[1..]);
      assert s[..n] == [s[0]] + s[1..][..n - 1];
      n
  }

  /** The C string that a buffer holding `s` and then a terminator denotes. */
  function CStr(s: bytes): cstring {
    s[..Strlen(s)]
  }

  lemma CStrWhole(s: bytes)
    ensures CStr(s) == s <==> 0 !in s
  {
    if 0 !in s {
      assert Strlen(s) == |s|;
    }
  }

  /** A string with its two length bytes in front (section 1.5.3 of MQTT 3.1.1). */
  function StrCode(s: text): (b: bytes)
    ensures |b| == 2 + |s|
  {
    U16(|s|) + s
  }

  lemma Assoc<T>(a: seq<T>, b: seq<T>, c: seq<T>)
    ensures a + b + c == a + (b + c)
    ensures a + [] == a && [] + a == a
  {
  }

  lemma HeadTail<T>(s: seq<T>)
    requires s != []
    ensures s == [s[0]] + s[1..]
  {
  }

  lemma Rejoin(s: bytes, k: nat, more: bytes)
    requires k <= |s|
    ensures s[..k] + s[k..] == s
    ensures s[..k] + (s[k..] + more) == s + more
  {
  }

  /** `memcpy`: overwrites the bytes of `dst` from `at` on with `src` and leaves the others alone. */
  method Copy(dst: array<byte>, at: nat, src: bytes)
    requires at + |src| <= dst.Length
    modifies dst
    ensures dst[..at] == old(dst[..at])
    ensures dst[at..at + |src|] == src
    ensures dst[at + |src|..] == old(dst[at + |src|..])
    ensures dst[..at + |src|] == old(dst[..at]) + src
  {
    forall i | 0 <= i < |src| {
      dst[at + i] := src[i];
    }
    assert dst[..at + |src|] == dst[..at] + dst[at..at + |src|];
  }
}
