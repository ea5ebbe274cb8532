/**
 Bytes, the fixed-width integer types of the wire format, and big-endian integers.
 Writing takes any integer and truncates it to the width, as a conversion such as
 `uint16(int16(len))` does; reading yields the signed value.
 */
module Bytes {
  type byte = b: int | 0 <= b < 0x100
  type int16 = i: int | -0x8000 <= i < 0x8000
  type int32 = i: int | -0x8000_0000 <= i < 0x8000_0000
  type int64 = i: int | -0x8000_0000_0000_0000 <= i < 0x8000_0000_0000_0000
  type uint64 = i: int | 0 <= i < 0x1_0000_0000_0000_0000

  /** The name or address of a host, as its bytes. */
  type Host = seq<byte>

  const MAX_INT16 := 0x7FFF
  const MAX_INT32 := 0x7FFF_FFFF

  /** The conversions int64(x) and uint64(x) of a 64-bit word. */
  function ToInt64(u: int): int64 {
    (u + 0x8000_0000_0000_0000) % 0x1_0000_0000_0000_0000 - 0x8000_0000_0000_0000
  }

  function ToUint64(i: int): uint64 {
    i % 0x1_0000_0000_0000_0000
  }

  /** The unsigned value of the first two bytes. */
  function U16(s: seq<byte>): (u: int)
    requires |s| >= 2
    ensures 0 <= u < 0x1_0000
  {
    (s[0] as int) * 0x100 + s[1]
  }

  function Put16(i: int): (s: seq<byte>)
    ensures |s| == 2
  {
    var u := i % 0x1_0000;
    [u / 0x100, u % 0x100]
  }

  function Get16(s: seq<byte>): int16
    requires |s| >= 2
  {
    var u := U16(s);
    if u >= 0x8000 then u - 0x1_0000 else u
  }

  function Put32(i: int): (s: seq<byte>)
    ensures |s| == 4
  {
    var u := i % 0x1_0000_0000;
    Put16(u / 0x1_0000) + Put16(u % 0x1_0000)
  }

  function Get32(s: seq<byte>): int32
    requires |s| >= 4
  {
    var u := U16(s) * 0x1_0000 + U16(s[2..]);
    if u >= 0x8000_0000 then u - 0x1_0000_0000 else u
  }

  lemma Get16AfterPut16(i: int16, rest: seq<byte>)
    ensures Get16(Put16(i) + rest) == i
  {
  }

  lemma Put16AfterGet16(s: seq<byte>)
    requires |s| >= 2
    ensures Put16(Get16(s)) == s[..2]
  {
  }

  lemma U16AfterPut16(u: int, rest: seq<byte>)
    requires 0 <= u < 0x1_0000
    ensures U16(Put16(u) + rest) == u
  {
  }

  lemma Get32AfterPut32(i: int32, rest: seq<byte>)
    ensures Get32(Put32(i) + rest) == i
  {
    var u := i % 0x1_0000_0000;
    var hi, lo := Put16(u / 0x1_0000), Put16(u % 0x1_0000);
    assert Put32(i) + rest == hi + (lo + rest);
    assert (Put32(i) + rest)[2..] == lo + rest;
    U16AfterPut16(u / 0x1_0000, lo + rest);
    U16AfterPut16(u % 0x1_0000, rest);
  }

  lemma Put32AfterGet32(s: seq<byte>)
    requires |s| >= 4
    ensures Put32(Get32(s)) == s[..4]
  {
    var u := U16(s) * 0x1_0000 + U16(s[2..]);
    assert Get32(s) % 0x1_0000_0000 == u;
    assert u / 0x1_0000 == U16(s) && u % 0x1_0000 == U16(s[2..]);
    assert Put16(U16(s)) == s[..2] && Put16(U16(s[2..])) == s[2..4];
  }
}
