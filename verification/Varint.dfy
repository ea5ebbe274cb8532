/**
 Unsigned varints as Go's encoding/binary writes and reads them, which the wire format
 uses for tags, sizes and compact lengths.
 */
module Varint {
  import opened Bytes

  /** MaxVarintLen64: a 64-bit value takes at most ten groups of seven bits. */
  const MAX_VARINT_LEN: nat := 10

  /** binary.Uvarint's three outcomes; `n` counts the bytes it reports as read. */
  datatype Uvarint = NeedMore | Overflow(n: nat) | Done(value: nat, n: nat)

  function PutUvarint(u: nat): (s: seq<byte>)
    ensures |s| >= 1
  {
    if u < 0x80 then [u] else [u % 0x80 + 0x80] + PutUvarint(u / 0x80)
  }

  /** The bytes of `putVarint(in)`: an int64 is written as the uint64 with the same bits. */
  function PutVarint(i: int): (s: seq<byte>)
    ensures |s| >= 1
  {
    PutUvarint(ToUint64(i))
  }

  /** Reading when `i` bytes of the varint have been read already. */
  function ReadUvarint(s: seq<byte>, i: nat := 0): (r: Uvarint)
    requires i <= MAX_VARINT_LEN
    ensures !r.NeedMore? ==> 1 <= r.n <= |s|
    ensures r.Done? ==> i < MAX_VARINT_LEN && r.n <= MAX_VARINT_LEN - i && r.value < Limit(i)
    decreases |s|
  {
    if |s| == 0 then NeedMore
    else if i == MAX_VARINT_LEN then Overflow(1)
    else if s[0] < 0x80 then
      if i == MAX_VARINT_LEN - 1 && s[0] > 1 then Overflow(1) else
        LimitAtLeast(i);
        Done(s[0], 1)
    else
      match ReadUvarint(s[1..], i + 1)
      case NeedMore => NeedMore
      case Overflow(n) => Overflow(n + 1)
      case Done(v, n) => Done(s[0] - 0x80 + 0x80 * v, n + 1)
  }

  /** Values of a varint whose first `i` groups are already read lie below this bound. */
  function Limit(i: nat): nat
    requires i < MAX_VARINT_LEN
    decreases MAX_VARINT_LEN - i
  {
    if i == MAX_VARINT_LEN - 1 then 2 else 0x80 * Limit(i + 1)
  }

  lemma {:induction false} LimitAtLeast(i: nat)
    requires i < MAX_VARINT_LEN
    ensures Limit(i) >= if i == MAX_VARINT_LEN - 1 then 2 else 0x80
    decreases MAX_VARINT_LEN - i
  {
    if i < MAX_VARINT_LEN - 1 {
      LimitAtLeast(i + 1);
    }
  }

  lemma LimitIsWord()
    ensures Limit(0) == 0x1_0000_0000_0000_0000
  {
    assert Limit(9) == 2;
    assert Limit(8) == 0x80 * Limit(9);
    assert Limit(7) == 0x80 * Limit(8);
    assert Limit(6) == 0x80 * Limit(7);
    assert Limit(5) == 0x80 * Limit(6);
    assert Limit(4) == 0x80 * Limit(5);
    assert Limit(3) == 0x80 * Limit(4);
    assert Limit(2) == 0x80 * Limit(3);
    assert Limit(1) == 0x80 * Limit(2);
    assert Limit(0) == 0x80 * Limit(1);
  }

  lemma {:induction false} ReadAfterPutFrom(u: nat, rest: seq<byte>, i: nat)
    requires i < MAX_VARINT_LEN && u < Limit(i)
    ensures ReadUvarint(PutUvarint(u) + rest, i) == Done(u, |PutUvarint(u)|)
    decreases u
  {
    var s := PutUvarint(u) + rest;
    if u >= 0x80 {
      assert i < MAX_VARINT_LEN - 1;
      assert s[1..] == PutUvarint(u / 0x80) + rest;
      ReadAfterPutFrom(u / 0x80, rest, i + 1);
      assert u == u % 0x80 + 0x80 * (u / 0x80);
    }
  }

  /** What is written is read back, whatever follows it. */
  lemma ReadAfterPut(u: uint64, rest: seq<byte>)
    ensures ReadUvarint(PutUvarint(u) + rest) == Done(u, |PutUvarint(u)|)
  {
    LimitIsWord();
    ReadAfterPutFrom(u, rest, 0);
  }

  /** A varint without a redundant all-zero last group. */
  predicate Minimal(s: seq<byte>) {
    |s| <= 1 || s[|s| - 1] != 0
  }

  lemma {:induction false} ZeroEndsInZero(s: seq<byte>, i: nat)
    requires i <= MAX_VARINT_LEN
    requires var r := ReadUvarint(s, i); r.Done? && r.value == 0
    ensures s[ReadUvarint(s, i).n - 1] == 0
    decreases |s|
  {
    if s[0] >= 0x80 {
      ZeroEndsInZero(s[1..], i + 1);
    }
  }

  lemma SameTail(head: byte, a: seq<byte>, b: seq<byte>)
    ensures [head] + a == [head] + b <==> a == b
  {
    assert ([head] + a)[1..] == a && ([head] + b)[1..] == b;
  }

  lemma SplitGroup(group: nat, v: nat)
    requires group < 0x80
    ensures (group + 0x80 * v) / 0x80 == v && (group + 0x80 * v) % 0x80 == group
  {
  }

  /** Rewriting what was read never lengthens it, and reproduces it just when it was minimal. */
  lemma {:induction false} PutAfterReadFrom(s: seq<byte>, i: nat)
    requires i <= MAX_VARINT_LEN && ReadUvarint(s, i).Done?
    ensures var r := ReadUvarint(s, i);
            && |PutUvarint(r.value)| <= r.n
            && (PutUvarint(r.value) == s[..r.n] <==> Minimal(s[..r.n]))
    decreases |s|
  {
    var r := ReadUvarint(s, i);
    if s[0] >= 0x80 {
      var r' := ReadUvarint(s[1..], i + 1);
      PutAfterReadFrom(s[1..], i + 1);
      PutMore(s, i, r'.value, r'.n);
    }
  }

  lemma PutMore(s: seq<byte>, i: nat, v: nat, n: nat)
    requires i < MAX_VARINT_LEN && s != [] && s[0] >= 0x80 && ReadUvarint(s[1..], i + 1) == Done(v, n)
    requires |PutUvarint(v)| <= n && (PutUvarint(v) == s[1..][..n] <==> Minimal(s[1..][..n]))
    ensures ReadUvarint(s, i) == Done(s[0] - 0x80 + 0x80 * v, n + 1)
    ensures |PutUvarint(s[0] - 0x80 + 0x80 * v)| <= n + 1
    ensures PutUvarint(s[0] - 0x80 + 0x80 * v) == s[..n + 1] <==> Minimal(s[..n + 1])
  {
    assert ReadUvarint(s, i) == Done(s[0] - 0x80 + 0x80 * v, n + 1);
    hide ReadUvarint, PutUvarint;
    assert s[..n + 1] == [s[0]] + s[1..][..n];
    SplitGroup(s[0] - 0x80, v);
    assert s[..n + 1][n] == s[1..][..n][n - 1];
    if v == 0 {
      ZeroEndsInZero(s[1..], i + 1);
    } else {
      SameTail(s[0], PutUvarint(v), s[1..][..n]);
    }
  }

  lemma PutAfterRead(s: seq<byte>)
    requires ReadUvarint(s).Done?
    ensures var r := ReadUvarint(s);
            && r.value < 0x1_0000_0000_0000_0000
            && |PutUvarint(r.value)| <= r.n
            && (PutUvarint(r.value) == s[..r.n] <==> Minimal(s[..r.n]))
  {
    LimitIsWord();
    PutAfterReadFrom(s, 0);
  }

  lemma {:induction false} PutLength(u: nat, i: nat)
    requires i < MAX_VARINT_LEN && u < Limit(i)
    ensures |PutUvarint(u)| <= MAX_VARINT_LEN - i
    decreases u
  {
    if u >= 0x80 {
      assert i < MAX_VARINT_LEN - 1;
      PutLength(u / 0x80, i + 1);
    }
  }

  /** The groups still to come are worth `m` times their value on top of `x`. */
  ghost function Shifted(r: Uvarint, x: nat, m: nat, i: nat): Uvarint {
    match r
    case NeedMore => NeedMore
    case Overflow(n) => Overflow(n + i)
    case Done(v, n) => Done(x + m * v, n + i)
  }

  lemma ShiftGroup(r: Uvarint, x: nat, m: nat, i: nat, group: nat)
    ensures Shifted(match r case NeedMore => NeedMore
                            case Overflow(n) => Overflow(n + 1)
                            case Done(v, n) => Done(group + 0x80 * v, n + 1), x, m, i)
            == Shifted(r, x + group * m, m * 0x80, i + 1)
  {
    if r.Done? {
      assert m * (group + 0x80 * r.value) == group * m + (m * 0x80) * r.value;
    }
  }

  /** After `i` bytes of `all`, which gave `x`, the next group counts `m` times. */
  ghost predicate ReadSoFar(all: seq<byte>, x: nat, m: nat, i: nat) {
    i <= |all| && i <= MAX_VARINT_LEN && ReadUvarint(all) == Shifted(ReadUvarint(all[i..], i), x, m, i)
  }

  lemma ReadStarts(all: seq<byte>)
    ensures ReadSoFar(all, 0, 1, 0)
  {
    assert all[0..] == all;
  }

  /** What the byte at `i` means. */
  lemma ReadGroup(all: seq<byte>, x: nat, m: nat, i: nat)
    requires ReadSoFar(all, x, m, i)
    ensures i == |all| ==> ReadUvarint(all) == NeedMore
    ensures i < |all| && i == MAX_VARINT_LEN ==> ReadUvarint(all) == Overflow(i + 1)
    ensures i < |all| && i < MAX_VARINT_LEN && all[i] < 0x80 ==>
              ReadUvarint(all)
              == if i == MAX_VARINT_LEN - 1 && all[i] > 1 then Overflow(i + 1)
                 else Done(x + all[i] * m, i + 1)
    ensures i < |all| && i < MAX_VARINT_LEN && all[i] >= 0x80 ==>
              ReadSoFar(all, x + (all[i] - 0x80) * m, m * 0x80, i + 1)
  {
    hide ReadUvarint, Shifted;
    var rest := all[i..];
    if i == |all| || i == MAX_VARINT_LEN {
      NoGroup(rest, x, m, i);
    } else {
      assert rest[0] == all[i] && rest[1..] == all[i + 1..];
      if all[i] >= 0x80 {
        MoreGroups(rest, x, m, i);
      } else {
        LastGroup(rest, x, m, i);
      }
    }
  }

  lemma NoGroup(rest: seq<byte>, x: nat, m: nat, i: nat)
    requires i <= MAX_VARINT_LEN
    ensures rest == [] ==> Shifted(ReadUvarint(rest, i), x, m, i) == NeedMore
    ensures rest != [] && i == MAX_VARINT_LEN ==> Shifted(ReadUvarint(rest, i), x, m, i) == Overflow(i + 1)
  {
  }

  lemma LastGroup(rest: seq<byte>, x: nat, m: nat, i: nat)
    requires rest != [] && i < MAX_VARINT_LEN && rest[0] < 0x80
    ensures Shifted(ReadUvarint(rest, i), x, m, i)
            == if i == MAX_VARINT_LEN - 1 && rest[0] > 1 then Overflow(i + 1) else Done(x + rest[0] * m, i + 1)
  {
    assert m * rest[0] == rest[0] * m;
  }

  /** One group further, the value of the rest counts for 0x80 times as much. */
  lemma MoreGroups(rest: seq<byte>, x: nat, m: nat, i: nat)
    requires rest != [] && i < MAX_VARINT_LEN && rest[0] >= 0x80
    ensures Shifted(ReadUvarint(rest, i), x, m, i)
            == Shifted(ReadUvarint(rest[1..], i + 1), x + (rest[0] - 0x80) * m, m * 0x80, i + 1)
  {
    ShiftGroup(ReadUvarint(rest[1..], i + 1), x, m, i, rest[0] - 0x80);
  }
}
