/**
 The streaming reader that skips the tagged fields of a response header while keeping their
 bytes, and how it relates to the buffered decoder of the same fields (KIP-482).
 */
module HeaderTags {
  import opened Wrappers
  import opened Bytes
  import opened Varint
  import opened Schema
  import opened Streams

  /** How many bytes of stream `s` one field takes, if the reader gets past it. */
  function SkipTag(s: seq<byte>): (n: Option<nat>)
    ensures n.Some? ==> n.value <= |s|
  {
    var tag := ReadUvarint(s);
    if !tag.Done? then None
    else
      var size := ReadUvarint(s[tag.n..]);
      if !size.Done? then None
      else
        // io.CopyN copies nothing for a size that is negative as an int64
        var data := if ToInt64(size.value) < 0 then 0 else ToInt64(size.value);
        if data > |s| - tag.n - size.n then None else Some(tag.n + size.n + data)
  }

  function SkipTags(count: nat, s: seq<byte>): (n: Option<nat>)
    ensures n.Some? ==> n.value <= |s|
  {
    if count == 0 then Some(0)
    else
      var first := SkipTag(s);
      if first.None? then None else After(first.value, SkipTags(count - 1, s[first.value..]))
  }

  function After(n: nat, rest: Option<nat>): Option<nat> {
    if rest.None? then None else Some(n + rest.value)
  }

  /** The whole of MaybeRead for a header version that has tagged fields. */
  function SkipTagged(s: seq<byte>): (n: Option<nat>)
    ensures n.Some? ==> n.value <= |s|
  {
    var count := ReadUvarint(s);
    if !count.Done? then None
    else
      After(count.n, SkipTags(if ToInt64(count.value) < 0 then 0 else ToInt64(count.value), s[count.n..]))
  }

  // ---------------------------------------------------------------- against the decoder

  /** The size is a length, or the all-ones size that stands for null data. */
  ghost predicate PlainSize(s: seq<byte>)
    requires SkipTag(s).Some?
  {
    ToInt64(ReadUvarint(s[ReadUvarint(s).n..]).value) >= -1
  }

  ghost predicate PlainSizes(count: nat, s: seq<byte>)
    requires SkipTags(count, s).Some?
  {
    count == 0 || (PlainSize(s) && PlainSizes(count - 1, s[SkipTag(s).value..]))
  }

  ghost predicate Plain(s: seq<byte>)
    requires SkipTagged(s).Some?
  {
    var count := ReadUvarint(s);
    ToInt64(count.value) >= 0 && PlainSizes(ToInt64(count.value), s[count.n..])
  }

  lemma TagDecodedIsSkipped(s: seq<byte>)
    ensures DecodeTag(s).Ok? <==> SkipTag(s).Some? && PlainSize(s)
    ensures DecodeTag(s).Ok? ==> SkipTag(s) == Some(DecodeTag(s).n)
  {
    hide ReadUvarint, ToInt64;
  }

  lemma {:induction false} TagsDecodedAreSkipped(count: nat, s: seq<byte>)
    ensures DecodeTags(count, s).Ok? <==> SkipTags(count, s).Some? && PlainSizes(count, s)
    ensures DecodeTags(count, s).Ok? ==> SkipTags(count, s) == Some(DecodeTags(count, s).n)
  {
    hide DecodeTag, SkipTag, PlainSize;
    if count > 0 {
      TagDecodedIsSkipped(s);
      if SkipTag(s).Some? {
        TagsDecodedAreSkipped(count - 1, s[SkipTag(s).value..]);
      }
    }
  }

  /**
   The streaming reader refines the decoder: what the decoder accepts it accepts too, taking
   exactly the same bytes. It accepts more only where a count or a size is 2^63 or above
   and not the null size 2^64 - 1.
   */
  lemma StreamingRefinesDecoding(s: seq<byte>)
    ensures DecodeTagged(s).Ok? <==> SkipTagged(s).Some? && Plain(s)
    ensures DecodeTagged(s).Ok? ==> SkipTagged(s) == Some(DecodeTagged(s).n)
  {
    hide ToInt64, DecodeTags, SkipTags, PlainSizes;
    var count := ReadUvarint(s);
    if count.Done? && ToInt64(count.value) >= 0 {
      TagsDecodedAreSkipped(ToInt64(count.value), s[count.n..]);
    }
  }

  // ---------------------------------------------------------------- what follows does not matter

  lemma {:induction false} VarintPrefix(s: seq<byte>, rest: seq<byte>, i: nat)
    requires i <= MAX_VARINT_LEN && ReadUvarint(s, i).Done?
    ensures ReadUvarint(s + rest, i) == ReadUvarint(s, i)
    decreases |s|
  {
    if s[0] >= 0x80 {
      assert (s + rest)[1..] == s[1..] + rest;
      VarintPrefix(s[1..], rest, i + 1);
    }
  }

  lemma SkipTagPrefix(s: seq<byte>, rest: seq<byte>)
    requires SkipTag(s).Some?
    ensures SkipTag(s + rest) == SkipTag(s)
  {
    hide ReadUvarint, ToInt64;
    var tag := ReadUvarint(s);
    VarintPrefix(s, rest, 0);
    assert (s + rest)[tag.n..] == s[tag.n..] + rest;
    VarintPrefix(s[tag.n..], rest, 0);
  }

  lemma {:induction false} SkipTagsPrefix(count: nat, s: seq<byte>, rest: seq<byte>)
    requires SkipTags(count, s).Some?
    ensures SkipTags(count, s + rest) == SkipTags(count, s)
  {
    hide SkipTag;
    if count > 0 {
      var n := SkipTag(s).value;
      SkipTagPrefix(s, rest);
      assert (s + rest)[n..] == s[n..] + rest;
      SkipTagsPrefix(count - 1, s[n..], rest);
    }
  }

  lemma SkipTaggedPrefix(s: seq<byte>, rest: seq<byte>)
    requires SkipTagged(s).Some?
    ensures SkipTagged(s + rest) == SkipTagged(s)
  {
    hide ReadUvarint, ToInt64, SkipTags;
    var count := ReadUvarint(s);
    VarintPrefix(s, rest, 0);
    assert (s + rest)[count.n..] == s[count.n..] + rest;
    SkipTagsPrefix(if ToInt64(count.value) < 0 then 0 else ToInt64(count.value), s[count.n..], rest);
  }

  // ---------------------------------------------------------------- the reader itself

  lemma Advance(all: seq<byte>, i: nat, data: seq<byte>, pending: seq<byte>)
    requires i <= |all| && |data| == 1 && all[i..] == data + pending
    ensures i < |all| && all[i] == data[0] && pending == all[i + 1..] && all[i..][0] == data[0]
            && all[i..][1..] == pending
    ensures all[..i] + data == all[..i + 1]
  {
    assert all[i..][0] == data[0];
  }

  /** binary.ReadUvarint, one byte per read. `taken` is what the TeeReader recorded. */
  method ReadUvarintStream(src: Source) returns (r: Option<nat>, taken: seq<byte>)
    modifies src
    ensures taken + src.pending == old(src.pending)
    ensures r.Some? ==> ReadUvarint(old(src.pending)) == Done(r.value, |taken|)
    ensures old(src.Reliable()) ==> src.Reliable()
    ensures old(src.Reliable()) ==> (r.Some? <==> ReadUvarint(old(src.pending)).Done?)
  {
    hide ReadUvarint, ReadSoFar;
    ghost var all := src.pending;
    var x: nat, m: nat := 0, 1;
    taken := [];
    ReadStarts(all);
    for i := 0 to MAX_VARINT_LEN
      invariant i <= |all| && taken == all[..i] && src.pending == all[i..]
      invariant old(src.Reliable()) ==> src.Reliable()
      invariant ReadSoFar(all, x, m, i)
    {
      ReadGroup(all, x, m, i);
      var data, err := src.Read(1);
      taken := taken + data;
      if err.Some? || |data| != 1 {
        assert i < |all| ==> !old(src.Reliable());
        return None, taken;
      }
      Advance(all, i, data, src.pending);
      var b: int := data[0];
      if b < 0x80 {
        if i == MAX_VARINT_LEN - 1 && b > 1 {
          return None, taken;
        }
        return Some(x + b * m), taken;
      }
      x, m := x + (b - 0x80) * m, m * 0x80;
    }
    ReadGroup(all, x, m, MAX_VARINT_LEN);
    return None, taken;
  }

  /** io.CopyN to io.Discard: all of `n` bytes or an error; nothing when `n` is not positive. */
  method Discard(src: Source, n: int) returns (ok: bool, taken: seq<byte>)
    modifies src
    ensures taken + src.pending == old(src.pending)
    ensures ok ==> |taken| == if n < 0 then 0 else n
    ensures old(src.Reliable()) ==> src.Reliable()
    ensures old(src.Reliable()) ==> (ok <==> n <= |old(src.pending)|)
  {
    if n <= 0 {
      return true, [];
    }
    var data, err := ReadFull(src, n);
    return err.None?, data;
  }

  /** One round of MaybeRead's loop: tag, size, data. */
  method ReadTag(src: Source) returns (ok: bool, taken: seq<byte>)
    modifies src
    ensures taken + src.pending == old(src.pending)
    ensures ok ==> SkipTag(old(src.pending)) == Some(|taken|)
    ensures old(src.Reliable()) ==> src.Reliable()
    ensures old(src.Reliable()) ==> (ok <==> SkipTag(old(src.pending)).Some?)
  {
    hide ReadUvarint, ToInt64;
    ghost var s := src.pending;
    var tag, t := ReadUvarintStream(src);
    if tag.None? {
      return false, t;
    }
    assert src.pending == s[|t|..];
    var size, z := ReadUvarintStream(src);
    if size.None? {
      return false, t + z;
    }
    var done, data := Discard(src, ToInt64(size.value));
    return done, t + z + data;
  }

  method ReadTags(src: Source, count: int) returns (r: Option<seq<byte>>)
    modifies src
    ensures r.Some? ==>
              && SkipTags(if count < 0 then 0 else count, old(src.pending)) == Some(|r.value|)
              && r.value + src.pending == old(src.pending)
    ensures old(src.Reliable()) ==>
              && src.Reliable()
              && (r.Some? <==> SkipTags(if count < 0 then 0 else count, old(src.pending)).Some?)
  {
    hide SkipTag, SkipTags;
    ghost var all := src.pending;
    ghost var total: nat := if count < 0 then 0 else count;
    var buffer: seq<byte> := [];
    var i := 0;
    while i < count
      invariant i <= total && buffer + src.pending == all
      invariant old(src.Reliable()) ==> src.Reliable()
      invariant SkipTags(total, all) == After(|buffer|, SkipTags(total - i, src.pending))
    {
      ghost var s := src.pending;
      UnfoldSkipTags(total - i, s);
      var ok, field := ReadTag(src);
      if !ok {
        return None;
      }
      assert src.pending == s[|field|..];
      assert buffer + field + src.pending == buffer + (field + src.pending);
      buffer := buffer + field;
      i := i + 1;
    }
    NoTags(src.pending);
    r := Some(buffer);
  }

  /**
   ResponseHeaderTaggedFields.MaybeRead. On success it has taken exactly the tagged fields and
   returns their bytes verbatim; on a reliable stream it succeeds just when they are there.
   */
  method MaybeRead(src: Source, version: int) returns (r: Option<seq<byte>>)
    modifies src
    ensures version < 1 ==> r == Some([]) && src.pending == old(src.pending)
    ensures version >= 1 && r.Some? ==>
              && SkipTagged(old(src.pending)) == Some(|r.value|)
              && r.value + src.pending == old(src.pending)
    ensures version >= 1 && old(src.Reliable()) ==> (r.Some? <==> SkipTagged(old(src.pending)).Some?)
    ensures old(src.Reliable()) ==> src.Reliable()
  {
    hide ReadUvarint, ToInt64, SkipTags;
    if version < 1 {
      return Some([]);
    }
    ghost var all := src.pending;
    var num, head := ReadUvarintStream(src);
    if num.None? {
      return None;
    }
    assert src.pending == all[|head|..];
    var fields := ReadTags(src, ToInt64(num.value));
    if fields.None? {
      return None;
    }
    assert head + fields.value + src.pending == head + (fields.value + src.pending);
    r := Some(head + fields.value);
  }

  lemma UnfoldSkipTags(count: nat, s: seq<byte>)
    requires count > 0
    ensures var first := SkipTag(s);
            SkipTags(count, s)
            == if first.None? then None else After(first.value, SkipTags(count - 1, s[first.value..]))
  {
  }

  lemma NoTags(s: seq<byte>)
    ensures SkipTags(0, s) == Some(0)
  {
  }
}
