/**
 The decoder as the program runs it: a cursor moved over a buffer by every getter, and the
 schema tree walked with loops that append to the decoded values. Each method is proved to
 return what the function of the same name in Schema.dfy says, and to move the cursor by the
 number of bytes it says, on failure too; so the cursor only moves forward and never
 passes the end.
 */
module RealDecoding {
  import opened Wrappers
  import opened Bytes
  import opened Varint
  import opened Schema

  /** What a getter reports, together with how far it moved the cursor. */
  ghost function Moved<T>(r: Result<T, DecodeError>, n: nat): Dec<T> {
    if r.Success? then Ok(r.value, n) else Err(r.error, n)
  }

  /** binary.Uvarint: `n` is 0 when the buffer is too short, and negative on overflow. */
  method ReadUvarintLoop(buf: seq<byte>) returns (value: nat, n: int)
    ensures match ReadUvarint(buf)
            case NeedMore => value == 0 && n == 0
            case Overflow(k) => value == 0 && n == 0 - k as int
            case Done(v, k) => value == v && n == k
  {
    hide ReadUvarint, ReadSoFar;
    var x: nat, m: nat := 0, 1;
    ReadStarts(buf);
    for i := 0 to |buf|
      invariant i <= MAX_VARINT_LEN && ReadSoFar(buf, x, m, i)
    {
      ReadGroup(buf, x, m, i);
      var b: int := buf[i];
      if i == MAX_VARINT_LEN {
        return 0, -(i + 1);
      }
      if b < 0x80 {
        if i == MAX_VARINT_LEN - 1 && b > 1 {
          return 0, -(i + 1);
        }
        return x + b * m, i + 1;
      }
      x, m := x + (b - 0x80) * m, m * 0x80;
    }
    ReadGroup(buf, x, m, |buf|);
    return 0, 0;
  }

  /** A stretch of the buffer, seen from the cursor. */
  lemma Slice(raw: seq<byte>, off: nat, from: nat, to: nat)
    requires off + to <= |raw| && from <= to
    ensures raw[off..][from..to] == raw[off + from..off + to]
  {
  }

  class RealDecoder {
    const raw: seq<byte>
    var off: nat

    ghost predicate Valid()
      reads this
    {
      off <= |raw|
    }

    /** The bytes from the cursor on. */
    ghost function Rest(): seq<byte>
      requires Valid()
      reads this
    {
      raw[off..]
    }

    constructor (buf: seq<byte>)
      ensures Valid() && raw == buf && off == 0
    {
      raw, off := buf, 0;
    }

    method GetInt8() returns (r: Result<byte, DecodeError>)
      requires Valid()
      modifies this
      ensures Valid() && old(off) <= off
      ensures var s := old(Rest());
              if |s| < 1 then r == Failure(InsufficientData) && off == |raw|
              else r == Success(s[0]) && off == old(off) + 1
    {
      if |raw| - off < 1 {
        off := |raw|;
        return Failure(InsufficientData);
      }
      r := Success(raw[off]);
      off := off + 1;
    }

    method GetBool() returns (r: Result<bool, DecodeError>)
      requires Valid()
      modifies this
      ensures Valid() && old(off) <= off
      ensures Moved(r, off - old(off)) == Schema.GetBool(old(Rest()))
    {
      var b := GetInt8();
      match b
      case Failure(e) => r := Failure(e);
      case Success(v) =>
        if v == 0 {
          r := Success(false);
        } else if v != 1 {
          r := Failure(InvalidBool);
        } else {
          r := Success(true);
        }
    }

    method GetInt16() returns (r: Result<int16, DecodeError>)
      requires Valid()
      modifies this
      ensures Valid() && old(off) <= off
      ensures Moved(r, off - old(off)) == Schema.GetInt16(old(Rest()))
    {
      if |raw| - off < 2 {
        off := |raw|;
        return Failure(InsufficientData);
      }
      r := Success(Get16(raw[off..]));
      off := off + 2;
    }

    method GetInt32() returns (r: Result<int32, DecodeError>)
      requires Valid()
      modifies this
      ensures Valid() && old(off) <= off
      ensures Moved(r, off - old(off)) == Schema.GetInt32(old(Rest()))
    {
      if |raw| - off < 4 {
        off := |raw|;
        return Failure(InsufficientData);
      }
      r := Success(Get32(raw[off..]));
      off := off + 4;
    }

    method GetVarint() returns (r: Result<int64, DecodeError>)
      requires Valid()
      modifies this
      ensures Valid() && old(off) <= off
      ensures Moved(r, off - old(off)) == Schema.GetVarint(old(Rest()))
    {
      var value, n := ReadUvarintLoop(raw[off..]);
      if n == 0 {
        off := |raw|;
        return Failure(InsufficientData);
      }
      if n < 0 {
        off := off - n;
        return Failure(VarintOverflow);
      }
      off := off + n;
      r := Success(ToInt64(value));
    }

    method GetRawBytes(length: int) returns (r: Result<seq<byte>, DecodeError>)
      requires Valid()
      modifies this
      ensures Valid() && old(off) <= off
      ensures Moved(r, off - old(off)) == Schema.GetRawBytes(old(Rest()), length)
    {
      if length < 0 {
        return Failure(InvalidByteSliceLength);
      } else if length > |raw| - off {
        off := |raw|;
        return Failure(InsufficientData);
      }
      Slice(raw, off, 0, length);
      var start := off;
      off := off + length;
      r := Success(raw[start..off]);
    }

    method GetVarintBytes() returns (r: Result<Option<seq<byte>>, DecodeError>)
      requires Valid()
      modifies this
      ensures Valid() && old(off) <= off
      ensures Moved(r, off - old(off)) == Schema.GetVarintBytes(old(Rest()))
    {
      var l := GetVarint();
      if l.Failure? {
        return Failure(l.error);
      }
      if l.value == -1 {
        return Success(None);
      }
      var bytes := GetRawBytes(l.value);
      r := if bytes.Failure? then Failure(bytes.error) else Success(Some(bytes.value));
    }

    method GetUuid() returns (r: Result<Uuid16, DecodeError>)
      requires Valid()
      modifies this
      ensures Valid() && old(off) <= off
      ensures var d := Schema.GetRawBytes(old(Rest()), 16);
              && off == old(off) + d.n
              && r == if d.Ok? then Success(d.value) else Failure(d.error)
    {
      var bytes := GetRawBytes(16);
      r := if bytes.Failure? then Failure(bytes.error) else Success(bytes.value);
    }

    method GetStringLength() returns (r: Result<int, DecodeError>)
      requires Valid()
      modifies this
      ensures Valid() && old(off) <= off
      ensures Moved(r, off - old(off)) == Schema.GetStringLength(old(Rest()))
    {
      var l := GetInt16();
      if l.Failure? {
        return Failure(l.error);
      }
      if l.value < -1 {
        return Failure(InvalidStringLength);
      } else if l.value > |raw| - off {
        off := |raw|;
        return Failure(InsufficientData);
      }
      r := Success(l.value);
    }

    method GetString() returns (r: Result<seq<byte>, DecodeError>)
      requires Valid()
      modifies this
      ensures Valid() && old(off) <= off
      ensures Moved(r, off - old(off)) == Schema.GetString(old(Rest()))
    {
      var l := GetStringLength();
      if l.Failure? {
        return Failure(l.error);
      }
      if l.value == -1 {
        return Success([]);
      }
      Slice(raw, old(off), off - old(off), off - old(off) + l.value);
      r := Success(raw[off..off + l.value]);
      off := off + l.value;
    }

    method GetNullableString() returns (r: Result<Option<seq<byte>>, DecodeError>)
      requires Valid()
      modifies this
      ensures Valid() && old(off) <= off
      ensures Moved(r, off - old(off)) == Schema.GetNullableString(old(Rest()))
    {
      var l := GetStringLength();
      if l.Failure? {
        return Failure(l.error);
      }
      if l.value == -1 {
        return Success(None);
      }
      Slice(raw, old(off), off - old(off), off - old(off) + l.value);
      r := Success(Some(raw[off..off + l.value]));
      off := off + l.value;
    }

    method GetCompactLength() returns (r: Result<int, DecodeError>)
      requires Valid()
      modifies this
      ensures Valid() && old(off) <= off
      ensures Moved(r, off - old(off)) == Schema.GetCompactLength(old(Rest()))
    {
      var l := GetVarint();
      if l.Failure? {
        return Failure(l.error);
      }
      var length: int := l.value;
      var n := ToInt64(length - 1);
      if n < 0 {
        return Failure(InvalidCompactLength);
      } else if n > |raw| - off {
        off := |raw|;
        return Failure(InsufficientData);
      }
      r := Success(n);
    }

    method GetCompactNullableLength() returns (r: Result<int, DecodeError>)
      requires Valid()
      modifies this
      ensures Valid() && old(off) <= off
      ensures Moved(r, off - old(off)) == Schema.GetCompactNullableLength(old(Rest()))
    {
      var l := GetVarint();
      if l.Failure? {
        return Failure(l.error);
      }
      var length: int := l.value;
      var n := ToInt64(length - 1);
      if n < -1 {
        return Failure(InvalidCompactNullableLength);
      } else if n > |raw| - off {
        off := |raw|;
        return Failure(InsufficientData);
      }
      r := Success(n);
    }

    method GetCompactString() returns (r: Result<seq<byte>, DecodeError>)
      requires Valid()
      modifies this
      ensures Valid() && old(off) <= off
      ensures Moved(r, off - old(off)) == Schema.GetCompactString(old(Rest()))
    {
      var l := GetCompactLength();
      if l.Failure? {
        return Failure(l.error);
      }
      if l.value == 0 {
        assert old(Rest())[off - old(off)..off - old(off)] == [];
        return Success([]);
      }
      Slice(raw, old(off), off - old(off), off - old(off) + l.value);
      r := Success(raw[off..off + l.value]);
      off := off + l.value;
    }

    method GetCompactNullableString() returns (r: Result<Option<seq<byte>>, DecodeError>)
      requires Valid()
      modifies this
      ensures Valid() && old(off) <= off
      ensures Moved(r, off - old(off)) == Schema.GetCompactNullableString(old(Rest()))
    {
      var l := GetCompactNullableLength();
      if l.Failure? {
        return Failure(l.error);
      }
      if l.value < 0 {
        return Success(None);
      }
      Slice(raw, old(off), off - old(off), off - old(off) + l.value);
      r := Success(Some(raw[off..off + l.value]));
      off := off + l.value;
    }

    method GetArrayLength() returns (r: Result<int, DecodeError>)
      requires Valid()
      modifies this
      ensures Valid() && old(off) <= off
      ensures Moved(r, off - old(off)) == Schema.GetArrayLength(old(Rest()))
    {
      if |raw| - off < 4 {
        off := |raw|;
        return Failure(InsufficientData);
      }
      var n := Get32(raw[off..]);
      off := off + 4;
      if n > |raw| - off {
        off := |raw|;
        return Failure(InsufficientData);
      } else if n > MAX_ARRAY_LENGTH {
        return Failure(InvalidArrayLength);
      }
      r := Success(n);
    }
  }

  /** Puts the values read so far, with `n` bytes, in front of the rest. */
  ghost function Prepend<T>(first: seq<T>, n: nat, rest: Dec<seq<T>>): Dec<seq<T>> {
    if rest.Ok? then Ok(first + rest.value, n + rest.n) else Err(rest.error, n + rest.n)
  }

  lemma PrependNothing<T>(d: Dec<seq<T>>)
    ensures Prepend([], 0, d) == d
  {
    if d.Ok? {
      assert [] + d.value == d.value;
    }
  }

  lemma PrependToNothing<T>(first: seq<T>, n: nat)
    ensures Prepend(first, n, Ok([], 0)) == Ok(first, n)
  {
    assert first + [] == first;
  }

  lemma PrependCons<T>(first: seq<T>, n: nat, x: T, k: nat, rest: Dec<seq<T>>)
    ensures Prepend(first, n, Cons(x, k, rest)) == Prepend(first + [x], n + k, rest)
  {
    if rest.Ok? {
      assert first + ([x] + rest.value) == first + [x] + rest.value;
    }
  }

  lemma UnfoldElems(elem: Ty, count: nat, s: seq<byte>)
    requires count > 0
    ensures var e := Decode(elem, s);
            DecodeElems(elem, count, s)
            == if e.Err? then Err(e.error, e.n) else Cons(e.value, e.n, DecodeElems(elem, count - 1, s[e.n..]))
  {
  }

  lemma UnfoldFields(fields: seq<Field>, s: seq<byte>)
    requires fields != []
    ensures var v := Decode(fields[0].ty, s);
            DecodeFields(fields, s)
            == if v.Err? then Err(v.error, v.n) else Cons(v.value, v.n, DecodeFields(fields[1..], s[v.n..]))
  {
    hide Decode;
  }

  lemma NoFields(s: seq<byte>)
    ensures DecodeFields([], s) == Ok([], 0)
  {
  }

  lemma NoElems(elem: Ty, s: seq<byte>)
    ensures DecodeElems(elem, 0, s) == Ok([], 0)
  {
  }

  method DecodeTaggedField(pd: RealDecoder) returns (r: Result<RawTaggedField, DecodeError>)
    requires pd.Valid()
    modifies pd
    ensures pd.Valid() && old(pd.off) <= pd.off
    ensures Moved(r, pd.off - old(pd.off)) == DecodeTag(old(pd.Rest()))
  {
    hide Schema.GetVarint, Schema.GetVarintBytes;
    var tag := pd.GetVarint();
    if tag.Failure? {
      return Failure(tag.error);
    }
    var data := pd.GetVarintBytes();
    r := if data.Failure? then Failure(data.error) else Success(RawTaggedField(tag.value, data.value));
  }

  method DecodeTaggedFields(pd: RealDecoder) returns (r: Result<TagSlice, DecodeError>)
    requires pd.Valid()
    modifies pd
    ensures pd.Valid() && old(pd.off) <= pd.off
    ensures Moved(r, pd.off - old(pd.off)) == DecodeTagged(old(pd.Rest()))
  {
    hide Schema.GetVarint, DecodeTag;
    var count := pd.GetVarint();
    if count.Failure? {
      return Failure(count.error);
    }
    if count.value == 0 {
      return Success([]);
    }
    if count.value < 0 {
      return Failure(NegativeTaggedFields);
    }
    var result: seq<RawTaggedField> := [];
    ghost var start, total := pd.off, DecodeTags(count.value, pd.Rest());
    PrependNothing(total);
    for i := 0 to count.value
      invariant pd.Valid() && start <= pd.off && |result| == i
      invariant total == Prepend(result, pd.off - start, DecodeTags(count.value - i, pd.Rest()))
    {
      ghost var before := pd.off;
      var field := DecodeTaggedField(pd);
      if field.Failure? {
        return Failure(field.error);
      }
      PrependCons(result, before - start, field.value, pd.off - before, DecodeTags(count.value - i - 1, pd.Rest()));
      result := result + [field.value];
    }
    PrependToNothing(result, pd.off - start);
    r := Success(result);
  }

  method DecodeArrayElements(n: int, elem: Ty, pd: RealDecoder) returns (r: Result<seq<Value>, DecodeError>)
    requires pd.Valid()
    modifies pd
    ensures pd.Valid() && old(pd.off) <= pd.off
    ensures Moved(r, pd.off - old(pd.off)) == DecodeElems(elem, if n < 0 then 0 else n, old(pd.Rest()))
    decreases elem, 1
  {
    hide Decode, DecodeElems;
    var result: seq<Value> := [];
    var i := 0;
    ghost var count: nat := if n < 0 then 0 else n;
    ghost var start, total := pd.off, DecodeElems(elem, count, pd.Rest());
    PrependNothing(total);
    while i < n
      invariant pd.Valid() && start <= pd.off && i == |result| <= count
      invariant total == Prepend(result, pd.off - start, DecodeElems(elem, count - i, pd.Rest()))
    {
      ghost var before := pd.off;
      UnfoldElems(elem, count - i, pd.Rest());
      var e := DecodeNode(elem, pd);
      if e.Failure? {
        return Failure(e.error);
      }
      PrependCons(result, before - start, e.value, pd.off - before, DecodeElems(elem, count - i - 1, pd.Rest()));
      result := result + [e.value];
      i := i + 1;
    }
    assert DecodeElems(elem, 0, pd.Rest()) == Ok([], 0) by { NoElems(elem, pd.Rest()); }
    PrependToNothing(result, pd.off - start);
    r := Success(result);
  }

  method DecodeStruct(fields: seq<Field>, pd: RealDecoder) returns (r: Result<seq<Value>, DecodeError>)
    requires pd.Valid()
    modifies pd
    ensures pd.Valid() && old(pd.off) <= pd.off
    ensures Moved(r, pd.off - old(pd.off)) == DecodeFields(fields, old(pd.Rest()))
    decreases fields, 0
  {
    hide Decode, DecodeFields;
    var values: seq<Value> := [];
    ghost var start, total := pd.off, DecodeFields(fields, pd.Rest());
    assert fields[0..] == fields;
    PrependNothing(total);
    for i := 0 to |fields|
      invariant pd.Valid() && start <= pd.off
      invariant total == Prepend(values, pd.off - start, DecodeFields(fields[i..], pd.Rest()))
    {
      ghost var before := pd.off;
      assert fields[i..][0] == fields[i] && fields[i..][1..] == fields[i + 1..];
      UnfoldFields(fields[i..], pd.Rest());
      var v := DecodeNode(fields[i].ty, pd);
      if v.Failure? {
        return Failure(v.error);
      }
      PrependCons(values, before - start, v.value, pd.off - before, DecodeFields(fields[i + 1..], pd.Rest()));
      values := values + [v.value];
    }
    NoFields(pd.Rest());
    PrependToNothing(values, pd.off - start);
    r := Success(values);
  }

  /** The decode method of every schema node. */
  method DecodeNode(ty: Ty, pd: RealDecoder) returns (r: Result<Value, DecodeError>)
    requires pd.Valid()
    modifies pd
    ensures pd.Valid() && old(pd.off) <= pd.off
    ensures Moved(r, pd.off - old(pd.off)) == Decode(ty, old(pd.Rest()))
    decreases ty, 0
  {
    hide DecodeTagged, DecodeElems, DecodeFields, Schema.GetVarint, Schema.GetString, Schema.GetNullableString;
    hide Schema.GetCompactString, Schema.GetCompactNullableString, Schema.GetArrayLength, Schema.GetCompactLength;
    hide Schema.GetCompactNullableLength, Schema.GetBool, Schema.GetInt16, Schema.GetInt32;
    match ty
    case Bool => var d := pd.GetBool(); r := if d.Success? then Success(BoolV(d.value)) else Failure(d.error);
    case Int16 => var d := pd.GetInt16(); r := if d.Success? then Success(Int16V(d.value)) else Failure(d.error);
    case Int32 => var d := pd.GetInt32(); r := if d.Success? then Success(Int32V(d.value)) else Failure(d.error);
    case Str => var d := pd.GetString(); r := if d.Success? then Success(StrV(d.value)) else Failure(d.error);
    case NullableStr =>
      var d := pd.GetNullableString();
      r := if d.Success? then Success(StrPtr(d.value)) else Failure(d.error);
    case CompactStr =>
      var d := pd.GetCompactString();
      r := if d.Success? then Success(StrV(d.value)) else Failure(d.error);
    case CompactNullableStr =>
      var d := pd.GetCompactNullableString();
      r := if d.Success? then Success(StrPtr(d.value)) else Failure(d.error);
    case Uuid => var d := pd.GetUuid(); r := if d.Success? then Success(UuidV(d.value)) else Failure(d.error);
    case TaggedFields =>
      var d := DecodeTaggedFields(pd);
      r := if d.Success? then Success(TaggedV(d.value)) else Failure(d.error);
    case Array(elem) =>
      var n := pd.GetArrayLength();
      r := DecodeCountedNode(elem, n, pd);
    case CompactArray(elem) =>
      var n := pd.GetCompactLength();
      r := DecodeCountedNode(elem, n, pd);
    case CompactNullableArray(elem) =>
      var n := pd.GetCompactNullableLength();
      if n == Success(-1) {
        return Success(Nil);
      }
      r := DecodeCountedNode(elem, n, pd);
    case Struct(_, fields) =>
      var d := DecodeStruct(fields, pd);
      r := if d.Success? then Success(StructV(ty, d.value)) else Failure(d.error);
  }

  /** What the three array nodes do once the length is read. */
  method DecodeCountedNode(elem: Ty, n: Result<int, DecodeError>, pd: RealDecoder)
    returns (r: Result<Value, DecodeError>)
    requires pd.Valid()
    modifies pd
    ensures pd.Valid() && old(pd.off) <= pd.off
    ensures if n.Failure? then r == Failure(n.error) && pd.off == old(pd.off)
            else var d := DecodeElems(elem, if n.value < 0 then 0 else n.value, old(pd.Rest()));
                 && pd.off == old(pd.off) + d.n
                 && r == if d.Ok? then Success(ArrayV(d.value)) else Failure(d.error)
    decreases elem, 2
  {
    if n.Failure? {
      return Failure(n.error);
    }
    var d := DecodeArrayElements(n.value, elem, pd);
    r := if d.Success? then Success(ArrayV(d.value)) else Failure(d.error);
  }

  /** The driver: decode the whole buffer with a cursor, and insist on reaching its end. */
  method RunDecodeSchema(buf: Option<seq<byte>>, ty: Ty) returns (r: Result<Option<Value>, CodecError>)
    ensures r == DecodeSchema(buf, ty)
  {
    if buf.None? {
      return Success(None);
    }
    var helper := new RealDecoder(buf.value);
    assert helper.Rest() == buf.value;
    var v := DecodeNode(ty, helper);
    if v.Failure? {
      return Failure(DecodeFailed(v.error));
    }
    if helper.off != |buf.value| {
      return Failure(InvalidLength);
    }
    if !v.value.StructV? {
      return Failure(NotAStruct);
    }
    r := Success(Some(v.value));
  }
}
