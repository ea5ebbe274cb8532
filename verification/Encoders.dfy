/**
 The two encoding passes as the program runs them: one counts into a length, the other writes
 into a buffer allocated with that length. Each walks the schema tree; the first is proved
 equal to Measure, the second to Emit. The writing methods demand the room that indexing
 the buffer demands, so the driver, which calls them on a buffer of the measured length,
 proves that no write is out of range and that the buffer is filled exactly.
 */
module Encoding {
  import opened Wrappers
  import opened Bytes
  import opened Varint
  import opened Schema
  import opened SchemaTheorems

  /** binary.PutUvarint into `buf` at `start`. */
  method WriteUvarint(buf: array<byte>, start: nat, u: nat) returns (n: nat)
    requires start + |PutUvarint(u)| <= buf.Length
    modifies buf
    ensures n == |PutUvarint(u)|
    ensures buf[..start + n] == old(buf[..start]) + PutUvarint(u)
    ensures buf[start + n..] == old(buf[..])[start + n..]
  {
    var x := u;
    n := 0;
    while x >= 0x80
      invariant start + n + |PutUvarint(x)| <= buf.Length
      invariant n + |PutUvarint(x)| == |PutUvarint(u)|
      invariant buf[..start + n] + PutUvarint(x) == old(buf[..start]) + PutUvarint(u)
      invariant buf[start + n..] == old(buf[..])[start + n..]
    {
      ghost var before, done := x, buf[..start + n];
      buf[start + n] := x % 0x80 + 0x80;
      x, n := x / 0x80, n + 1;
      assert buf[..start + n] == done + [before % 0x80 + 0x80];
    }
    ghost var done := buf[..start + n];
    buf[start + n] := x;
    n := n + 1;
    assert buf[..start + n] == done + [x];
  }

  predicate IsString(ty: Ty) {
    ty.Str? || ty.NullableStr? || ty.CompactStr? || ty.CompactNullableStr?
  }

  class PrepEncoder {
    var length: nat

    constructor ()
      ensures length == 0
    {
      length := 0;
    }

    method PutVarint(i: int)
      modifies this
      ensures length == old(length) + |Varint.PutVarint(i)|
    {
      var buf := new byte[MAX_VARINT_LEN];
      LimitIsWord();
      PutLength(ToUint64(i), 0);
      var n := WriteUvarint(buf, 0, ToUint64(i));
      length := length + n;
    }

    method PutString(s: seq<byte>) returns (ok: bool)
      modifies this
      ensures Measurement(length, ok) == Plus(old(length), MeasureString(s))
    {
      length := length + 2;
      if |s| > MAX_INT16 {
        return false;
      }
      length := length + |s|;
      ok := true;
    }

    method PutCompactString(s: seq<byte>) returns (ok: bool)
      modifies this
      ensures Measurement(length, ok) == Plus(old(length), MeasureCompactString(s))
    {
      PutVarint(|s| + 1);
      if |s| > MAX_INT16 {
        return false;
      }
      length := length + |s|;
      ok := true;
    }

    method PutVarintBytes(data: Option<seq<byte>>) returns (ok: bool)
      modifies this
      ensures var n := old(length) + |Varint.PutVarint(if data.None? then -1 else |data.value|)|;
              Measurement(length, ok)
              == if data.None? then Measurement(n, true)
                 else if |data.value| > MAX_INT32 then Measurement(n, false)
                 else Measurement(n + |data.value|, true)
    {
      if data.None? {
        PutVarint(-1);
        return true;
      }
      PutVarint(|data.value|);
      if |data.value| > MAX_INT32 {
        return false;
      }
      length := length + |data.value|;
      ok := true;
    }

    method PutTag(t: RawTaggedField) returns (ok: bool)
      modifies this
      ensures Measurement(length, ok) == Plus(old(length), MeasureTag(t))
    {
      hide Varint.PutVarint;
      PutVarint(t.tag);
      ok := PutVarintBytes(t.data);
    }

    method PutTaggedFields(tags: TagSlice) returns (ok: bool)
      modifies this
      ensures Measurement(length, ok) == Plus(old(length), Plus(|Varint.PutVarint(|tags|)|, MeasureTags(tags)))
    {
      hide Varint.PutVarint, MeasureTag;
      PutVarint(|tags|);
      ghost var start := length;
      assert tags[0..] == tags;
      for i := 0 to |tags|
        invariant start <= length
        invariant MeasureTags(tags) == Plus(length - start, MeasureTags(tags[i..]))
      {
        assert tags[i..][0] == tags[i] && tags[i..][1..] == tags[i + 1..];
        var done := PutTag(tags[i]);
        if !done {
          return false;
        }
      }
      ok := true;
    }

    /** The encode methods of the four string types. */
    method EncodeString(ty: Ty, v: Value) returns (ok: bool)
      requires IsString(ty)
      modifies this
      ensures Measurement(length, ok) == Plus(old(length), Measure(ty, v))
    {
      hide Varint.PutVarint;
      match (ty, v)
      case (Str, StrV(s)) => ok := PutString(s);
      case (NullableStr, Nil) => length := length + 2; ok := false;
      case (NullableStr, StrPtr(None)) => length := length + 2; ok := true;
      case (NullableStr, StrPtr(Some(s))) => ok := PutString(s);
      case (CompactStr, StrV(s)) => ok := PutCompactString(s);
      case (CompactNullableStr, Nil) => length := length + 1; ok := false;
      case (CompactNullableStr, StrPtr(None)) => length := length + 1; ok := true;
      case (CompactNullableStr, StrPtr(Some(s))) => ok := PutCompactString(s);
      case _ => ok := false;
    }

    /** The encode method of every schema node, over this encoder. */
    method Encode(ty: Ty, v: Value) returns (ok: bool)
      modifies this
      ensures Measurement(length, ok) == Plus(old(length), Measure(ty, v))
      decreases ty, 0
    {
      hide Varint.PutVarint, MeasureElems, MeasureFields, MeasureTags;
      if IsString(ty) {
        ok := EncodeString(ty, v);
        return;
      }
      match (ty, v)
      case (Bool, BoolV(_)) => length := length + 1; ok := true;
      case (Int16, Int16V(_)) => length := length + 2; ok := true;
      case (Int32, Int32V(_)) => length := length + 4; ok := true;
      case (Uuid, UuidV(_)) => length := length + 16; ok := true;
      case (TaggedFields, TaggedV(tags)) => ok := PutTaggedFields(tags);
      case (Array(elem), ArrayV(vs)) =>
        if |vs| > MAX_INT32 {
          return false;
        }
        length := length + 4;
        ok := EncodeElems(elem, vs);
      case (CompactArray(elem), ArrayV(vs)) => ok := EncodeCompactArray(elem, vs);
      case (CompactNullableArray(_), Nil) => PutVarint(0); ok := true;
      case (CompactNullableArray(elem), ArrayV(vs)) => ok := EncodeCompactArray(elem, vs);
      case (Struct(_, fields), StructV(_, vs)) =>
        if |vs| != |fields| {
          return false;
        }
        ok := EncodeStruct(fields, vs);
      case _ => ok := false;
    }

    method EncodeCompactArray(elem: Ty, vs: seq<Value>) returns (ok: bool)
      modifies this
      ensures Measurement(length, ok) == Plus(old(length), Measure(CompactArray(elem), ArrayV(vs)))
      decreases elem, 2
    {
      hide Varint.PutVarint, MeasureElems;
      if |vs| > MAX_INT16 {
        return false;
      }
      PutVarint(|vs| + 1);
      ok := EncodeElems(elem, vs);
    }

    method EncodeElems(elem: Ty, vs: seq<Value>) returns (ok: bool)
      modifies this
      ensures Measurement(length, ok) == Plus(old(length), MeasureElems(elem, vs))
      decreases elem, 1
    {
      hide Measure;
      ghost var start := length;
      assert vs[0..] == vs;
      for i := 0 to |vs|
        invariant start <= length
        invariant MeasureElems(elem, vs) == Plus(length - start, MeasureElems(elem, vs[i..]))
      {
        assert vs[i..][0] == vs[i] && vs[i..][1..] == vs[i + 1..];
        var done := Encode(elem, vs[i]);
        if !done {
          return false;
        }
      }
      ok := true;
    }

    method EncodeStruct(fields: seq<Field>, vs: seq<Value>) returns (ok: bool)
      requires |fields| == |vs|
      modifies this
      ensures Measurement(length, ok) == Plus(old(length), MeasureFields(fields, vs))
      decreases fields, 0
    {
      hide Measure;
      ghost var start := length;
      assert vs[0..] == vs && fields[0..] == fields;
      for i := 0 to |vs|
        invariant start <= length
        invariant MeasureFields(fields, vs) == Plus(length - start, MeasureFields(fields[i..], vs[i..]))
      {
        assert vs[i..][0] == vs[i] && vs[i..][1..] == vs[i + 1..];
        assert fields[i..][0] == fields[i] && fields[i..][1..] == fields[i + 1..];
        var done := Encode(fields[i].ty, vs[i]);
        if !done {
          return false;
        }
      }
      ok := true;
    }
  }

  lemma ThenThen(a: seq<byte>, b: seq<byte>, e: Emission)
    ensures Then(a, Then(b, e)) == Then(a + b, e)
  {
    assert a + (b + e.bytes) == a + b + e.bytes;
  }

  lemma Assoc(a: seq<byte>, b: seq<byte>, c: seq<byte>)
    ensures a + b + c == a + (b + c)
  {
  }

  lemma ThenNothing(a: seq<byte>, ok: bool)
    ensures Then(a, Emission([], ok)) == Emission(a, ok)
    ensures Then([], Emission(a, ok)) == Emission(a, ok)
  {
    assert a + [] == a && [] + a == a;
  }

  /** The elements up to `i` gave `done`; this is what the next one adds. */
  lemma NextElem(elem: Ty, vs: seq<Value>, i: nat, done: seq<byte>)
    requires i < |vs| && EmitElems(elem, vs) == Then(done, EmitElems(elem, vs[i..]))
    ensures var e := Emit(elem, vs[i]);
            && |done| + |e.bytes| <= |EmitElems(elem, vs).bytes|
            && EmitElems(elem, vs)
               == if e.ok then Then(done + e.bytes, EmitElems(elem, vs[i + 1..])) else Emission(done + e.bytes, false)
  {
    hide Emit;
    assert vs[i..][0] == vs[i] && vs[i..][1..] == vs[i + 1..];
    ThenThen(done, Emit(elem, vs[i]).bytes, EmitElems(elem, vs[i + 1..]));
  }

  lemma NextField(fields: seq<Field>, vs: seq<Value>, i: nat, done: seq<byte>)
    requires |fields| == |vs| && i < |vs| && EmitFields(fields, vs) == Then(done, EmitFields(fields[i..], vs[i..]))
    ensures var e := Emit(fields[i].ty, vs[i]);
            && |done| + |e.bytes| <= |EmitFields(fields, vs).bytes|
            && EmitFields(fields, vs)
               == if e.ok then Then(done + e.bytes, EmitFields(fields[i + 1..], vs[i + 1..]))
                  else Emission(done + e.bytes, false)
  {
    hide Emit;
    assert vs[i..][0] == vs[i] && vs[i..][1..] == vs[i + 1..];
    assert fields[i..][0] == fields[i] && fields[i..][1..] == fields[i + 1..];
    ThenThen(done, Emit(fields[i].ty, vs[i]).bytes, EmitFields(fields[i + 1..], vs[i + 1..]));
  }

  class RealEncoder {
    const raw: array<byte>
    var off: nat

    ghost predicate Valid()
      reads this
    {
      off <= raw.Length
    }

    ghost function Written(): seq<byte>
      requires Valid()
      reads this, raw
    {
      raw[..off]
    }

    /** The write found room and appended exactly these bytes. */
    twostate predicate Appended(bytes: seq<byte>)
      requires old(Valid())
      reads this, raw
    {
      Valid() && Written() == old(Written()) + bytes
    }

    constructor (size: nat)
      ensures Valid() && fresh(raw) && raw.Length == size && off == 0
    {
      raw, off := new byte[size](_ => 0), 0;
    }

    method PutRawBytes(data: seq<byte>)
      requires Valid() && off + |data| <= raw.Length
      modifies this, raw
      ensures Appended(data)
    {
      forall i | 0 <= i < |data| {
        raw[off + i] := data[i];
      }
      off := off + |data|;
    }

    method PutInt16(i: int)
      requires Valid() && off + 2 <= raw.Length
      modifies this, raw
      ensures Appended(Put16(i))
    {
      var u := i % 0x1_0000;
      raw[off], raw[off + 1] := u / 0x100, u % 0x100;
      off := off + 2;
    }

    method PutInt32(i: int)
      requires Valid() && off + 4 <= raw.Length
      modifies this, raw
      ensures Appended(Put32(i))
    {
      PutRawBytes(Put32(i));
    }

    method PutVarint(i: int)
      requires Valid() && off + |Varint.PutVarint(i)| <= raw.Length
      modifies this, raw
      ensures Appended(Varint.PutVarint(i))
    {
      var n := WriteUvarint(raw, off, ToUint64(i));
      off := off + n;
    }

    method PutString(s: seq<byte>)
      requires Valid() && off + 2 + |s| <= raw.Length
      modifies this, raw
      ensures Appended(Put16(|s|) + s)
    {
      PutInt16(|s|);
      PutRawBytes(s);
    }

    method PutCompactString(s: seq<byte>)
      requires Valid() && off + |Varint.PutVarint(|s| + 1)| + |s| <= raw.Length
      modifies this, raw
      ensures Appended(Varint.PutVarint(|s| + 1) + s)
    {
      PutVarint(|s| + 1);
      PutRawBytes(s);
    }

    method PutTag(t: RawTaggedField)
      requires Valid() && off + |EmitTag(t)| <= raw.Length
      modifies this, raw
      ensures Appended(EmitTag(t))
    {
      hide Varint.PutVarint;
      PutVarint(t.tag);
      if t.data.None? {
        PutVarint(-1);
      } else {
        PutVarint(|t.data.value|);
        PutRawBytes(t.data.value);
      }
    }

    method PutTaggedFields(tags: TagSlice)
      requires Valid() && off + |Varint.PutVarint(|tags|) + EmitTags(tags)| <= raw.Length
      modifies this, raw
      ensures Appended(Varint.PutVarint(|tags|) + EmitTags(tags))
    {
      hide EmitTag, Varint.PutVarint;
      PutVarint(|tags|);
      ghost var done: seq<byte> := [];
      assert tags[0..] == tags && [] + EmitTags(tags) == EmitTags(tags);
      for i := 0 to |tags|
        invariant Valid() && off + |EmitTags(tags[i..])| <= raw.Length
        invariant Written() == old(Written()) + Varint.PutVarint(|tags|) + done
        invariant EmitTags(tags) == done + EmitTags(tags[i..])
      {
        assert tags[i..][0] == tags[i] && tags[i..][1..] == tags[i + 1..];
        PutTag(tags[i]);
        done := done + EmitTag(tags[i]);
      }
    }

    /** The encode methods of the four string types. */
    method EncodeString(ty: Ty, v: Value) returns (ok: bool)
      requires IsString(ty) && Valid() && off + |Emit(ty, v).bytes| <= raw.Length
      modifies this, raw
      ensures ok == Emit(ty, v).ok && Appended(Emit(ty, v).bytes)
    {
      hide Varint.PutVarint, Put16;
      match (ty, v)
      case (Str, StrV(s)) => PutString(s); ok := true;
      case (NullableStr, Nil) => PutInt16(-1); ok := false;
      case (NullableStr, StrPtr(None)) => PutInt16(-1); ok := true;
      case (NullableStr, StrPtr(Some(s))) => PutString(s); ok := true;
      case (CompactStr, StrV(s)) => PutCompactString(s); ok := true;
      case (CompactNullableStr, Nil) => PutVarint(0); ok := false;
      case (CompactNullableStr, StrPtr(None)) => PutVarint(0); ok := true;
      case (CompactNullableStr, StrPtr(Some(s))) => PutCompactString(s); ok := true;
      case _ => ok := false;
    }

    /** The encode method of every schema node, over this encoder. */
    method Encode(ty: Ty, v: Value) returns (ok: bool)
      requires Valid() && off + |Emit(ty, v).bytes| <= raw.Length
      modifies this, raw
      ensures ok == Emit(ty, v).ok && Appended(Emit(ty, v).bytes)
      decreases ty, 0
    {
      hide Varint.PutVarint, Put16, Put32, EmitElems, EmitFields, EmitTags;
      if IsString(ty) {
        ok := EncodeString(ty, v);
        return;
      }
      match (ty, v)
      case (Bool, BoolV(b)) => PutRawBytes([if b then 1 else 0]); ok := true;
      case (Int16, Int16V(i)) => PutInt16(i); ok := true;
      case (Int32, Int32V(i)) => PutInt32(i); ok := true;
      case (Uuid, UuidV(id)) => PutRawBytes(id); ok := true;
      case (TaggedFields, TaggedV(tags)) => PutTaggedFields(tags); ok := true;
      case (Array(elem), ArrayV(vs)) => ok := EncodeArray(elem, vs);
      case (CompactArray(elem), ArrayV(vs)) => ok := EncodeCompactArray(elem, vs);
      case (CompactNullableArray(_), Nil) => PutVarint(0); ok := true;
      case (CompactNullableArray(elem), ArrayV(vs)) => ok := EncodeCompactArray(elem, vs);
      case (Struct(_, fields), StructV(_, vs)) =>
        if |vs| != |fields| {
          return false;
        }
        ok := EncodeStruct(fields, vs);
      case _ => ok := false;
    }

    method EncodeArray(elem: Ty, vs: seq<Value>) returns (ok: bool)
      requires Valid() && off + |Then(Put32(|vs|), EmitElems(elem, vs)).bytes| <= raw.Length
      modifies this, raw
      ensures ok == EmitElems(elem, vs).ok && Appended(Then(Put32(|vs|), EmitElems(elem, vs)).bytes)
      decreases elem, 2
    {
      hide Put32, EmitElems;
      PutInt32(|vs|);
      ok := EncodeElems(elem, vs);
    }

    method EncodeCompactArray(elem: Ty, vs: seq<Value>) returns (ok: bool)
      requires Valid() && off + |Then(Varint.PutVarint(|vs| + 1), EmitElems(elem, vs)).bytes| <= raw.Length
      modifies this, raw
      ensures ok == EmitElems(elem, vs).ok && Appended(Then(Varint.PutVarint(|vs| + 1), EmitElems(elem, vs)).bytes)
      decreases elem, 2
    {
      hide Varint.PutVarint, EmitElems;
      PutVarint(|vs| + 1);
      ok := EncodeElems(elem, vs);
    }

    method EncodeElems(elem: Ty, vs: seq<Value>) returns (ok: bool)
      requires Valid() && off + |EmitElems(elem, vs).bytes| <= raw.Length
      modifies this, raw
      ensures ok == EmitElems(elem, vs).ok && Appended(EmitElems(elem, vs).bytes)
      decreases elem, 1
    {
      hide Emit, EmitElems;
      ghost var done: seq<byte> := [];
      assert vs[0..] == vs;
      ThenNothing(EmitElems(elem, vs).bytes, EmitElems(elem, vs).ok);
      for i := 0 to |vs|
        invariant Valid() && Written() == old(Written()) + done
        invariant EmitElems(elem, vs) == Then(done, EmitElems(elem, vs[i..]))
      {
        NextElem(elem, vs, i, done);
        assert off == |old(Written())| + |done|;
        var e := Encode(elem, vs[i]);
        Assoc(old(Written()), done, Emit(elem, vs[i]).bytes);
        done := done + Emit(elem, vs[i]).bytes;
        if !e {
          return false;
        }
      }
      assert vs[|vs|..] == [];
      NoElems(elem);
      ThenNothing(done, true);
      ok := true;
    }

    method EncodeStruct(fields: seq<Field>, vs: seq<Value>) returns (ok: bool)
      requires |fields| == |vs|
      requires Valid() && off + |EmitFields(fields, vs).bytes| <= raw.Length
      modifies this, raw
      ensures ok == EmitFields(fields, vs).ok && Appended(EmitFields(fields, vs).bytes)
      decreases fields, 0
    {
      hide Emit, EmitFields;
      ghost var done: seq<byte> := [];
      assert vs[0..] == vs && fields[0..] == fields;
      ThenNothing(EmitFields(fields, vs).bytes, EmitFields(fields, vs).ok);
      for i := 0 to |vs|
        invariant Valid() && Written() == old(Written()) + done
        invariant EmitFields(fields, vs) == Then(done, EmitFields(fields[i..], vs[i..]))
      {
        NextField(fields, vs, i, done);
        assert off == |old(Written())| + |done|;
        var e := Encode(fields[i].ty, vs[i]);
        Assoc(old(Written()), done, Emit(fields[i].ty, vs[i]).bytes);
        done := done + Emit(fields[i].ty, vs[i]).bytes;
        if !e {
          return false;
        }
      }
      assert vs[|vs|..] == [] && fields[|vs|..] == [];
      NoElems(Int16);
      ThenNothing(done, true);
      ok := true;
    }
  }

  lemma NoElems(elem: Ty)
    ensures EmitElems(elem, []) == EmitFields([], []) == Emission([], true)
  {
  }

  /** The two-pass driver: measure, check the size, allocate, write, hand out the buffer. */
  method RunEncodeSchema(v: Option<Value>, ty: Ty) returns (r: Result<Option<seq<byte>>, CodecError>)
    ensures r == EncodeSchema(v, ty)
  {
    hide Measure, Emit;
    if v.None? {
      return Success(None);
    }
    TwoPassAgreement(ty, v.value);
    var prep := new PrepEncoder();
    var measured := prep.Encode(ty, v.value);
    if !measured {
      return Failure(EncodeFailed);
    }
    if prep.length > MAX_REQUEST_SIZE {
      return Failure(InvalidRequestSize(prep.length));
    }
    var writer := new RealEncoder(prep.length);
    assert writer.Written() == [];
    var written := writer.Encode(ty, v.value);
    if !written {
      return Failure(EncodeFailed);
    }
    assert writer.off == writer.raw.Length && writer.raw[..] == writer.Written();
    r := Success(Some(writer.raw[..]));
  }
}
