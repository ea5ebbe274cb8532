/**
 What the codec of Schema.dfy guarantees for every schema tree: the two encoding passes
 agree, a decoded encoding is the original value just when the decoder's length checks let
 it be, and re-encoding what was decoded is the shortest form of the input.
 */
module SchemaTheorems {
  import opened Wrappers
  import opened Bytes
  import opened Varint
  import opened Schema

  // ---------------------------------------------------------------- dynamic types and limits

  /** The value has the dynamic types that decoding at `ty` produces. */
  ghost predicate Typed(ty: Ty, v: Value)
    decreases ty
  {
    match ty
    case Bool => v.BoolV?
    case Int16 => v.Int16V?
    case Int32 => v.Int32V?
    case Str | CompactStr => v.StrV?
    case NullableStr | CompactNullableStr => v.StrPtr?
    case Uuid => v.UuidV?
    case TaggedFields => v.TaggedV?
    case Array(elem) => v.ArrayV? && forall i | 0 <= i < |v.elems| :: Typed(elem, v.elems[i])
    case CompactArray(elem) => v.ArrayV? && forall i | 0 <= i < |v.elems| :: Typed(elem, v.elems[i])
    case CompactNullableArray(elem) =>
      v.Nil? || (v.ArrayV? && forall i | 0 <= i < |v.elems| :: Typed(elem, v.elems[i]))
    case Struct(_, fields) =>
      && v.StructV? && v.schema == ty && |v.values| == |fields|
      && forall i | 0 <= i < |fields| :: Typed(fields[i].ty, v.values[i])
  }

  /** The encoder's limits: strings and compact arrays of 32767, arrays and tag data of 2^31 - 1. */
  ghost predicate WithinEncodeLimits(ty: Ty, v: Value)
    decreases ty
  {
    match (ty, v)
    case (Str, StrV(s)) => |s| <= MAX_INT16
    case (CompactStr, StrV(s)) => |s| <= MAX_INT16
    case (NullableStr, StrPtr(Some(s))) => |s| <= MAX_INT16
    case (CompactNullableStr, StrPtr(Some(s))) => |s| <= MAX_INT16
    case (TaggedFields, TaggedV(tags)) =>
      forall t | t in tags && t.data.Some? :: |t.data.value| <= MAX_INT32
    case (Array(elem), ArrayV(vs)) =>
      |vs| <= MAX_INT32 && forall i | 0 <= i < |vs| :: WithinEncodeLimits(elem, vs[i])
    case (CompactArray(elem), ArrayV(vs)) =>
      |vs| <= MAX_INT16 && forall i | 0 <= i < |vs| :: WithinEncodeLimits(elem, vs[i])
    case (CompactNullableArray(elem), ArrayV(vs)) =>
      |vs| <= MAX_INT16 && forall i | 0 <= i < |vs| :: WithinEncodeLimits(elem, vs[i])
    case (Struct(_, fields), StructV(_, vs)) =>
      |vs| == |fields| ==> forall i | 0 <= i < |fields| :: WithinEncodeLimits(fields[i].ty, vs[i])
    case _ => true
  }

  // ---------------------------------------------------------------- two-pass agreement

  /** The measuring pass succeeds just when the writing pass would and every limit is kept. */
  lemma {:induction false} TwoPassAgreement(ty: Ty, v: Value)
    ensures Measure(ty, v).ok <==> Emit(ty, v).ok && WithinEncodeLimits(ty, v)
    ensures Measure(ty, v).ok ==> Measure(ty, v).n == |Emit(ty, v).bytes|
    decreases ty, 0
  {
    match (ty, v)
    case (TaggedFields, TaggedV(tags)) => TagsAgree(tags);
    case (Array(elem), ArrayV(vs)) => ElemsAgree(elem, vs);
    case (CompactArray(elem), ArrayV(vs)) => ElemsAgree(elem, vs);
    case (CompactNullableArray(elem), ArrayV(vs)) => ElemsAgree(elem, vs);
    case (Struct(_, fields), StructV(_, vs)) =>
      if |vs| == |fields| { FieldsAgree(fields, vs); }
    case _ =>
  }

  lemma {:induction false} TagsAgree(tags: seq<RawTaggedField>)
    ensures MeasureTags(tags).ok <==> forall t | t in tags && t.data.Some? :: |t.data.value| <= MAX_INT32
    ensures MeasureTags(tags).ok ==> MeasureTags(tags).n == |EmitTags(tags)|
  {
    if tags != [] {
      TagsAgree(tags[1..]);
      assert forall t :: t in tags <==> t == tags[0] || t in tags[1..];
    }
  }

  lemma {:induction false} ElemsAgree(elem: Ty, vs: seq<Value>)
    ensures MeasureElems(elem, vs).ok
            <==> EmitElems(elem, vs).ok && forall i | 0 <= i < |vs| :: WithinEncodeLimits(elem, vs[i])
    ensures MeasureElems(elem, vs).ok ==> MeasureElems(elem, vs).n == |EmitElems(elem, vs).bytes|
    decreases elem, 1 + |vs|
  {
    if vs != [] {
      TwoPassAgreement(elem, vs[0]);
      ElemsAgree(elem, vs[1..]);
      assert forall i | 0 < i < |vs| :: vs[i] == vs[1..][i - 1];
    }
  }

  lemma {:induction false} FieldsAgree(fields: seq<Field>, vs: seq<Value>)
    requires |fields| == |vs|
    ensures MeasureFields(fields, vs).ok
            <==> EmitFields(fields, vs).ok && forall i | 0 <= i < |fields| :: WithinEncodeLimits(fields[i].ty, vs[i])
    ensures MeasureFields(fields, vs).ok ==> MeasureFields(fields, vs).n == |EmitFields(fields, vs).bytes|
    decreases fields, 0
  {
    if fields != [] {
      TwoPassAgreement(fields[0].ty, vs[0]);
      FieldsAgree(fields[1..], vs[1..]);
      assert forall i | 0 < i < |fields| :: fields[i] == fields[1..][i - 1] && vs[i] == vs[1..][i - 1];
    }
  }

  // ---------------------------------------------------------------- round trip

  /**
   The decoder's length checks on the encoding of `v` when `after` more bytes follow it: an
   array may not have more elements than bytes that remain, and a plain array not more
   than 131070. Only arrays of zero-width elements can fail the first check.
   */
  ghost predicate Fits(ty: Ty, v: Value, after: nat)
    decreases ty, 0
  {
    match (ty, v)
    case (Array(elem), ArrayV(vs)) =>
      && |vs| <= |EmitElems(elem, vs).bytes| + after && |vs| <= MAX_ARRAY_LENGTH
      && FitsElems(elem, vs, after)
    case (CompactArray(elem), ArrayV(vs)) =>
      |vs| <= |EmitElems(elem, vs).bytes| + after && FitsElems(elem, vs, after)
    case (CompactNullableArray(elem), ArrayV(vs)) =>
      |vs| <= |EmitElems(elem, vs).bytes| + after && FitsElems(elem, vs, after)
    case (Struct(_, fields), StructV(_, vs)) => |vs| == |fields| && FitsFields(fields, vs, after)
    case _ => true
  }

  ghost predicate FitsElems(elem: Ty, vs: seq<Value>, after: nat)
    decreases elem, 1 + |vs|
  {
    vs == [] || (Fits(elem, vs[0], |EmitElems(elem, vs[1..]).bytes| + after) && FitsElems(elem, vs[1..], after))
  }

  ghost predicate FitsFields(fields: seq<Field>, vs: seq<Value>, after: nat)
    requires |fields| == |vs|
    decreases fields, 0
  {
    fields == []
    || (Fits(fields[0].ty, vs[0], |EmitFields(fields[1..], vs[1..]).bytes| + after)
        && FitsFields(fields[1..], vs[1..], after))
  }

  lemma WordOfInt64(i: int64)
    ensures ToInt64(ToUint64(i)) == i
  {
  }

  lemma VarintReadBack(i: int64, rest: seq<byte>)
    ensures GetVarint(PutVarint(i) + rest) == Ok(i, |PutVarint(i)|)
    ensures (PutVarint(i) + rest)[|PutVarint(i)|..] == rest
  {
    ReadAfterPut(ToUint64(i), rest);
    WordOfInt64(i);
  }

  lemma StringReadBack(s: seq<byte>, rest: seq<byte>)
    requires |s| <= MAX_INT16
    ensures GetString(Put16(|s|) + s + rest) == Ok(s, 2 + |s|)
    ensures GetNullableString(Put16(|s|) + s + rest) == Ok(Some(s), 2 + |s|)
  {
    assert Put16(|s|) + s + rest == Put16(|s|) + (s + rest);
    Get16AfterPut16(|s|, s + rest);
  }

  /** A compact length is read back, or refused when fewer bytes than that remain. */
  lemma CompactLengthReadBack(k: nat, rest: seq<byte>)
    requires k <= MAX_INT32
    ensures var s := PutVarint(k + 1) + rest;
            var n := |PutVarint(k + 1)|;
            && s[n..] == rest
            && GetCompactLength(s) == (if k <= |rest| then Ok(k, n) else Err(InsufficientData, |s|))
            && GetCompactNullableLength(s) == (if k <= |rest| then Ok(k, n) else Err(InsufficientData, |s|))
  {
    hide PutVarint, GetVarint;
    VarintReadBack(k + 1, rest);
  }

  lemma ArrayLengthReadBack(k: nat, rest: seq<byte>)
    requires k <= MAX_INT32
    ensures var s := Put32(k) + rest;
            && s[4..] == rest
            && var d := GetArrayLength(s);
               if k <= |rest| && k <= MAX_ARRAY_LENGTH then d == Ok(k, 4) else d.Err?
  {
    hide Put32, Get32;
    Get32AfterPut32(k, rest);
  }

  lemma CompactStringReadBack(s: seq<byte>, rest: seq<byte>)
    requires |s| <= MAX_INT16
    ensures GetCompactString(PutVarint(|s| + 1) + s + rest) == Ok(s, |PutVarint(|s| + 1)| + |s|)
    ensures GetCompactNullableString(PutVarint(|s| + 1) + s + rest) == Ok(Some(s), |PutVarint(|s| + 1)| + |s|)
  {
    var head := PutVarint(|s| + 1);
    assert head + s + rest == head + (s + rest);
    CompactLengthReadBack(|s|, s + rest);
    assert (head + s + rest)[|head|..|head| + |s|] == s;
  }

  lemma VarintBytesReadBack(data: Option<seq<byte>>, rest: seq<byte>)
    requires data.Some? ==> |data.value| <= MAX_INT32
    ensures GetVarintBytes(PutVarintBytes(data) + rest) == Ok(data, |PutVarintBytes(data)|)
  {
    match data
    case None => VarintReadBack(-1, rest);
    case Some(bytes) =>
      assert PutVarintBytes(data) + rest == PutVarint(|bytes|) + (bytes + rest);
      VarintReadBack(|bytes|, bytes + rest);
      assert (bytes + rest)[..|bytes|] == bytes;
  }

  lemma TagReadBack(t: RawTaggedField, rest: seq<byte>)
    requires t.data.Some? ==> |t.data.value| <= MAX_INT32
    ensures DecodeTag(EmitTag(t) + rest) == Ok(t, |EmitTag(t)|)
  {
    hide PutVarint, GetVarint, GetVarintBytes, PutVarintBytes;
    assert EmitTag(t) + rest == PutVarint(t.tag) + (PutVarintBytes(t.data) + rest);
    VarintReadBack(t.tag, PutVarintBytes(t.data) + rest);
    VarintBytesReadBack(t.data, rest);
  }

  lemma {:induction false} TagsReadBack(tags: seq<RawTaggedField>, rest: seq<byte>)
    requires forall t | t in tags && t.data.Some? :: |t.data.value| <= MAX_INT32
    ensures DecodeTags(|tags|, EmitTags(tags) + rest) == Ok(tags, |EmitTags(tags)|)
  {
    hide DecodeTag, EmitTag;
    if tags != [] {
      var s := EmitTags(tags) + rest;
      assert s == EmitTag(tags[0]) + (EmitTags(tags[1..]) + rest);
      TagReadBack(tags[0], EmitTags(tags[1..]) + rest);
      assert s[|EmitTag(tags[0])|..] == EmitTags(tags[1..]) + rest;
      TagsReadBack(tags[1..], rest);
      assert [tags[0]] + tags[1..] == tags;
    }
  }

  /** The elements of an array read back, as the induction hypothesis of the round trip gives it. */
  ghost predicate ElemsReadBack(elem: Ty, vs: seq<Value>, rest: seq<byte>) {
    var d := DecodeElems(elem, |vs|, EmitElems(elem, vs).bytes + rest);
    if FitsElems(elem, vs, |rest|) then d == Ok(vs, |EmitElems(elem, vs).bytes|) else d.Err?
  }

  lemma ArrayReadBack(elem: Ty, vs: seq<Value>, rest: seq<byte>)
    requires |vs| <= MAX_INT32 && ElemsReadBack(elem, vs, rest)
    ensures var bytes := Put32(|vs|) + EmitElems(elem, vs).bytes;
            var d := DecodeCounted(elem, GetArrayLength(bytes + rest), bytes + rest);
            if |vs| <= |EmitElems(elem, vs).bytes| + |rest| && |vs| <= MAX_ARRAY_LENGTH && FitsElems(elem, vs, |rest|)
            then d == Ok(ArrayV(vs), |bytes|) else d.Err?
  {
    hide EmitElems, DecodeElems, FitsElems, GetArrayLength, Put32;
    var tail := EmitElems(elem, vs).bytes + rest;
    assert Put32(|vs|) + EmitElems(elem, vs).bytes + rest == Put32(|vs|) + tail;
    ArrayLengthReadBack(|vs|, tail);
  }

  lemma CompactArrayReadBack(elem: Ty, vs: seq<Value>, rest: seq<byte>)
    requires |vs| <= MAX_INT16 && ElemsReadBack(elem, vs, rest)
    ensures var bytes := PutVarint(|vs| + 1) + EmitElems(elem, vs).bytes;
            var l := GetCompactNullableLength(bytes + rest);
            var d := DecodeCounted(elem, l, bytes + rest);
            && l == GetCompactLength(bytes + rest)
            && (l.Ok? ==> l.value == |vs|)
            && if |vs| <= |EmitElems(elem, vs).bytes| + |rest| && FitsElems(elem, vs, |rest|)
               then d == Ok(ArrayV(vs), |bytes|) else d.Err?
  {
    hide EmitElems, DecodeElems, FitsElems, GetCompactLength, GetCompactNullableLength, PutVarint;
    var tail := EmitElems(elem, vs).bytes + rest;
    assert PutVarint(|vs| + 1) + EmitElems(elem, vs).bytes + rest == PutVarint(|vs| + 1) + tail;
    CompactLengthReadBack(|vs|, tail);
  }

  /**
   Decoding an encoding, with anything after it, returns the value and consumes exactly its
   bytes, or fails; it succeeds just when the decoder's length checks are met.
   */
  lemma {:induction false} RoundTrip(ty: Ty, v: Value, rest: seq<byte>)
    requires Typed(ty, v) && Measure(ty, v).ok
    ensures var bytes := Emit(ty, v).bytes;
            var d := Decode(ty, bytes + rest);
            if Fits(ty, v, |rest|) then d == Ok(v, |bytes|) else d.Err?
    decreases ty, 0
  {
    hide PutVarint, Put16, Put32, Get16, Get32, GetVarint, GetCompactLength, GetCompactNullableLength, GetArrayLength,
         GetString, GetNullableString, GetCompactString, GetCompactNullableString, DecodeCounted,
         EmitElems, EmitFields, EmitTags, DecodeTags, FitsElems, FitsFields, DecodeElems, DecodeFields,
         MeasureElems, MeasureFields, MeasureTags;
    match (ty, v)
    case (Bool, BoolV(_)) =>
    case (Int16, Int16V(i)) => Get16AfterPut16(i, rest);
    case (Int32, Int32V(i)) => Get32AfterPut32(i, rest);
    case (Str, StrV(s)) => StringReadBack(s, rest);
    case (NullableStr, StrPtr(None)) => NullStringReadBack(rest);
    case (NullableStr, StrPtr(Some(s))) => StringReadBack(s, rest);
    case (CompactStr, StrV(s)) => CompactStringReadBack(s, rest);
    case (CompactNullableStr, StrPtr(None)) => NullReadBack(rest);
    case (CompactNullableStr, StrPtr(Some(s))) => CompactStringReadBack(s, rest);
    case (Uuid, UuidV(id)) => assert (id + rest)[..16] == id;
    case (TaggedFields, TaggedV(tags)) => TaggedReadBack(tags, rest);
    case (Array(elem), ArrayV(vs)) =>
      ElemsRoundTrip(elem, vs, rest);
      ArrayReadBack(elem, vs, rest);
    case (CompactArray(elem), ArrayV(vs)) =>
      ElemsRoundTrip(elem, vs, rest);
      CompactArrayReadBack(elem, vs, rest);
    case (CompactNullableArray(_), Nil) => NullReadBack(rest);
    case (CompactNullableArray(elem), ArrayV(vs)) =>
      ElemsRoundTrip(elem, vs, rest);
      CompactArrayReadBack(elem, vs, rest);
    case (Struct(_, fields), StructV(_, vs)) => FieldsRoundTrip(fields, vs, rest);
  }

  lemma NullStringReadBack(rest: seq<byte>)
    ensures GetNullableString(Put16(-1) + rest) == Ok(None, 2)
  {
    hide Put16, Get16;
    Get16AfterPut16(-1, rest);
  }

  lemma NullReadBack(rest: seq<byte>)
    ensures GetCompactNullableLength(PutVarint(0) + rest) == Ok(-1, |PutVarint(0)|)
    ensures GetCompactNullableString(PutVarint(0) + rest) == Ok(None, |PutVarint(0)|)
  {
    hide PutVarint, GetVarint;
    VarintReadBack(0, rest);
  }

  lemma TaggedReadBack(tags: TagSlice, rest: seq<byte>)
    requires MeasureTags(tags).ok
    ensures var bytes := PutVarint(|tags|) + EmitTags(tags);
            DecodeTagged(bytes + rest) == Ok(tags, |bytes|)
  {
    hide PutVarint, GetVarint, EmitTags, DecodeTags, MeasureTags;
    var tail := EmitTags(tags) + rest;
    assert PutVarint(|tags|) + EmitTags(tags) + rest == PutVarint(|tags|) + tail;
    VarintReadBack(|tags|, tail);
    TagsAgree(tags);
    TagsReadBack(tags, rest);
  }

  /** Two pieces in front of the rest, as a decoder meets them. */
  lemma HeadThenTail(head: seq<byte>, tail: seq<byte>, rest: seq<byte>)
    ensures (head + tail) + rest == head + (tail + rest)
    ensures ((head + tail) + rest)[|head|..] == tail + rest
  {
  }

  lemma {:induction false} ElemsRoundTrip(elem: Ty, vs: seq<Value>, rest: seq<byte>)
    requires forall i | 0 <= i < |vs| :: Typed(elem, vs[i])
    requires MeasureElems(elem, vs).ok
    ensures ElemsReadBack(elem, vs, rest)
    decreases elem, 1 + |vs|
  {
    hide Decode, Emit, Measure, Fits, Typed;
    if vs != [] {
      assert forall i | 0 <= i < |vs[1..]| :: vs[1..][i] == vs[i + 1];
      TwoPassAgreement(elem, vs[0]);
      RoundTrip(elem, vs[0], EmitElems(elem, vs[1..]).bytes + rest);
      ElemsRoundTrip(elem, vs[1..], rest);
      ElemReadBack(elem, vs, rest);
    }
  }

  lemma ElemReadBack(elem: Ty, vs: seq<Value>, rest: seq<byte>)
    requires vs != [] && Emit(elem, vs[0]).ok && ElemsReadBack(elem, vs[1..], rest)
    requires var bytes, tail := Emit(elem, vs[0]).bytes, EmitElems(elem, vs[1..]).bytes + rest;
             var d := Decode(elem, bytes + tail);
             if Fits(elem, vs[0], |tail|) then d == Ok(vs[0], |bytes|) else d.Err?
    ensures ElemsReadBack(elem, vs, rest)
  {
    hide Decode, Emit, Fits;
    HeadThenTail(Emit(elem, vs[0]).bytes, EmitElems(elem, vs[1..]).bytes, rest);
    assert [vs[0]] + vs[1..] == vs;
  }

  /** The fields of a struct read back. */
  ghost predicate FieldsReadBack(fields: seq<Field>, vs: seq<Value>, rest: seq<byte>)
    requires |vs| == |fields|
  {
    var d := DecodeFields(fields, EmitFields(fields, vs).bytes + rest);
    if FitsFields(fields, vs, |rest|) then d == Ok(vs, |EmitFields(fields, vs).bytes|) else d.Err?
  }

  lemma {:induction false} FieldsRoundTrip(fields: seq<Field>, vs: seq<Value>, rest: seq<byte>)
    requires |vs| == |fields| && forall i | 0 <= i < |fields| :: Typed(fields[i].ty, vs[i])
    requires MeasureFields(fields, vs).ok
    ensures FieldsReadBack(fields, vs, rest)
    decreases fields, 0
  {
    hide Decode, Emit, Measure, Fits, Typed;
    if fields != [] {
      assert forall i | 0 <= i < |vs[1..]| :: vs[1..][i] == vs[i + 1] && fields[1..][i] == fields[i + 1];
      TwoPassAgreement(fields[0].ty, vs[0]);
      RoundTrip(fields[0].ty, vs[0], EmitFields(fields[1..], vs[1..]).bytes + rest);
      FieldsRoundTrip(fields[1..], vs[1..], rest);
      FieldReadBack(fields, vs, rest);
    }
  }

  lemma FieldReadBack(fields: seq<Field>, vs: seq<Value>, rest: seq<byte>)
    requires fields != [] && |vs| == |fields|
    requires Emit(fields[0].ty, vs[0]).ok && FieldsReadBack(fields[1..], vs[1..], rest)
    requires var bytes, tail := Emit(fields[0].ty, vs[0]).bytes, EmitFields(fields[1..], vs[1..]).bytes + rest;
             var d := Decode(fields[0].ty, bytes + tail);
             if Fits(fields[0].ty, vs[0], |tail|) then d == Ok(vs[0], |bytes|) else d.Err?
    ensures FieldsReadBack(fields, vs, rest)
  {
    hide Decode, Emit, Fits;
    HeadThenTail(Emit(fields[0].ty, vs[0]).bytes, EmitFields(fields[1..], vs[1..]).bytes, rest);
    assert [vs[0]] + vs[1..] == vs;
  }

  // ---------------------------------------------------------------- schemas with wide elements

  /** Every value of the type takes at least one byte. */
  predicate Wide(ty: Ty) {
    match ty
    case Struct(_, fields) => exists i | 0 <= i < |fields| :: Wide(fields[i].ty)
    case _ => true
  }

  /** No array of the schema has elements that may take no bytes, as in every Kafka schema. */
  predicate WideElements(ty: Ty) {
    match ty
    case Array(elem) => Wide(elem) && WideElements(elem)
    case CompactArray(elem) => Wide(elem) && WideElements(elem)
    case CompactNullableArray(elem) => Wide(elem) && WideElements(elem)
    case Struct(_, fields) => forall i | 0 <= i < |fields| :: WideElements(fields[i].ty)
    case _ => true
  }

  /** The decoder's limit on plain arrays, met by every value it returns. */
  ghost predicate WithinArrayLimit(ty: Ty, v: Value)
    decreases ty
  {
    match (ty, v)
    case (Array(elem), ArrayV(vs)) =>
      |vs| <= MAX_ARRAY_LENGTH && forall i | 0 <= i < |vs| :: WithinArrayLimit(elem, vs[i])
    case (CompactArray(elem), ArrayV(vs)) => forall i | 0 <= i < |vs| :: WithinArrayLimit(elem, vs[i])
    case (CompactNullableArray(elem), ArrayV(vs)) => forall i | 0 <= i < |vs| :: WithinArrayLimit(elem, vs[i])
    case (Struct(_, fields), StructV(_, vs)) =>
      |vs| == |fields| ==> forall i | 0 <= i < |fields| :: WithinArrayLimit(fields[i].ty, vs[i])
    case _ => true
  }

  lemma {:induction false} WideEmission(ty: Ty, v: Value)
    requires Wide(ty) && Emit(ty, v).ok
    ensures |Emit(ty, v).bytes| >= 1
    decreases ty, 0
  {
    match (ty, v)
    case (Struct(_, fields), StructV(_, vs)) =>
      var i :| 0 <= i < |fields| && Wide(fields[i].ty);
      WideFields(fields, vs, i);
    case _ =>
  }

  lemma {:induction false} WideFields(fields: seq<Field>, vs: seq<Value>, i: nat)
    requires |fields| == |vs| && EmitFields(fields, vs).ok
    requires i < |fields| && Wide(fields[i].ty)
    ensures |EmitFields(fields, vs).bytes| >= 1
    decreases fields, 0
  {
    if i == 0 {
      WideEmission(fields[0].ty, vs[0]);
    } else {
      assert fields[1..][i - 1] == fields[i];
      WideFields(fields[1..], vs[1..], i - 1);
    }
  }

  lemma {:induction false} WideElems(elem: Ty, vs: seq<Value>)
    requires Wide(elem) && EmitElems(elem, vs).ok
    ensures |vs| <= |EmitElems(elem, vs).bytes|
  {
    if vs != [] {
      WideEmission(elem, vs[0]);
      WideElems(elem, vs[1..]);
    }
  }

  /** Over such a schema every length check is met, whatever follows the encoding. */
  lemma {:induction false} WideFits(ty: Ty, v: Value, after: nat)
    requires WideElements(ty) && WithinArrayLimit(ty, v) && Emit(ty, v).ok
    ensures Fits(ty, v, after)
    decreases ty, 0
  {
    match (ty, v)
    case (Array(elem), ArrayV(vs)) => WideElems(elem, vs); WideElemsFit(elem, vs, after);
    case (CompactArray(elem), ArrayV(vs)) => WideElems(elem, vs); WideElemsFit(elem, vs, after);
    case (CompactNullableArray(elem), ArrayV(vs)) => WideElems(elem, vs); WideElemsFit(elem, vs, after);
    case (Struct(_, fields), StructV(_, vs)) => WideFieldsFit(fields, vs, after);
    case _ =>
  }

  lemma {:induction false} WideElemsFit(elem: Ty, vs: seq<Value>, after: nat)
    requires WideElements(elem) && EmitElems(elem, vs).ok
    requires forall i | 0 <= i < |vs| :: WithinArrayLimit(elem, vs[i])
    ensures FitsElems(elem, vs, after)
    decreases elem, 1 + |vs|
  {
    if vs != [] {
      WideFits(elem, vs[0], |EmitElems(elem, vs[1..]).bytes| + after);
      WideElemsFit(elem, vs[1..], after);
    }
  }

  lemma {:induction false} WideFieldsFit(fields: seq<Field>, vs: seq<Value>, after: nat)
    requires |fields| == |vs| && EmitFields(fields, vs).ok
    requires forall i | 0 <= i < |fields| :: WideElements(fields[i].ty) && WithinArrayLimit(fields[i].ty, vs[i])
    ensures FitsFields(fields, vs, after)
    decreases fields, 0
  {
    if fields != [] {
      WideFits(fields[0].ty, vs[0], |EmitFields(fields[1..], vs[1..]).bytes| + after);
      WideFieldsFit(fields[1..], vs[1..], after);
    }
  }

  /** Decoding an encoded struct gives it back just when its arrays pass the decoder's checks. */
  lemma SchemaRoundTrip(ty: Ty, v: Value, bytes: seq<byte>)
    requires Typed(ty, v) && v.StructV?
    requires EncodeSchema(Some(v), ty) == Success(Some(bytes))
    ensures DecodeSchema(Some(bytes), ty) == Success(Some(v)) <==> Fits(ty, v, 0)
    ensures WideElements(ty) && WithinArrayLimit(ty, v) ==> DecodeSchema(Some(bytes), ty) == Success(Some(v))
  {
    hide Typed, Measure, Emit, Decode, Fits, WideElements, WithinArrayLimit;
    TwoPassAgreement(ty, v);
    RoundTrip(ty, v, []);
    assert bytes + [] == bytes;
    if WideElements(ty) && WithinArrayLimit(ty, v) {
      WideFits(ty, v, 0);
    }
  }

  const ZERO_WIDTH_ARRAY := Struct("response", [Field("items", Array(Struct("item", [])))])

  /** With zero-width elements the check is real: one empty element is encoded and then refused. */
  lemma ZeroWidthElementsAreRefused()
    ensures var v := StructV(ZERO_WIDTH_ARRAY, [ArrayV([StructV(Struct("item", []), [])])]);
            && Typed(ZERO_WIDTH_ARRAY, v)
            && EncodeSchema(Some(v), ZERO_WIDTH_ARRAY) == Success(Some([0, 0, 0, 1]))
            && DecodeSchema(Some([0, 0, 0, 1]), ZERO_WIDTH_ARRAY) == Failure(DecodeFailed(InsufficientData))
  {
    var item := Struct("item", []);
    var v := StructV(ZERO_WIDTH_ARRAY, [ArrayV([StructV(item, [])])]);
    assert Typed(item, StructV(item, []));
    ZeroWidthEncodes();
    ZeroWidthDecodes();
  }

  lemma ZeroWidthEncodes()
    ensures var v := StructV(ZERO_WIDTH_ARRAY, [ArrayV([StructV(Struct("item", []), [])])]);
            Measure(ZERO_WIDTH_ARRAY, v) == Measurement(4, true)
              && Emit(ZERO_WIDTH_ARRAY, v) == Emission([0, 0, 0, 1], true)
  {
    var item := Struct("item", []);
    var e := StructV(item, []);
    var fields := [Field("items", Array(item))];
    assert Emit(item, e) == Emission([], true) && Measure(item, e) == Measurement(0, true);
    assert EmitElems(item, [e]) == Emission([], true) && MeasureElems(item, [e]) == Measurement(0, true);
    assert Put32(1) == [0, 0, 0, 1];
    assert Emit(Array(item), ArrayV([e])).bytes == [0, 0, 0, 1];
    assert EmitFields(fields, [ArrayV([e])]).bytes == [0, 0, 0, 1];
    assert Measure(Array(item), ArrayV([e])) == Measurement(4, true);
    assert MeasureFields(fields, [ArrayV([e])]) == Measurement(4, true);
  }

  lemma ZeroWidthDecodes()
    ensures Decode(ZERO_WIDTH_ARRAY, [0, 0, 0, 1]) == Err(InsufficientData, 4)
  {
    var item := Struct("item", []);
    var fields := [Field("items", Array(item))];
    assert GetArrayLength([0, 0, 0, 1]) == Err(InsufficientData, 4);
    assert Decode(Array(item), [0, 0, 0, 1]) == Err(InsufficientData, 4);
    assert DecodeFields(fields, [0, 0, 0, 1]) == Err(InsufficientData, 4);
  }

  // ---------------------------------------------------------------- canonical form

  /** The tagged fields use minimal varints throughout. */
  ghost predicate CanonicalTags(count: nat, s: seq<byte>) {
    count == 0
    || (DecodeTag(s).Ok? && CanonicalTag(s) && CanonicalTags(count - 1, s[DecodeTag(s).n..]))
  }

  ghost predicate CanonicalTag(s: seq<byte>)
    requires DecodeTag(s).Ok?
  {
    var tag := GetVarint(s);
    var rest := s[tag.n..];
    Minimal(s[..tag.n]) && Minimal(rest[..GetVarint(rest).n])
  }

  /**
   The accepted input `s` spells its value the way the encoder does: minimal varints, no
   negative array length, no length -1 on a string that cannot be null.
   */
  ghost predicate Canonical(ty: Ty, s: seq<byte>)
    requires Decode(ty, s).Ok?
    decreases ty, 0
  {
    match ty
    case Str => Get16(s) != -1
    case CompactStr | CompactNullableStr => Minimal(s[..GetVarint(s).n])
    case TaggedFields =>
      var count := GetVarint(s);
      Minimal(s[..count.n]) && CanonicalTags(count.value, s[count.n..])
    case Array(elem) =>
      assert DecodeCounted(elem, GetArrayLength(s), s).Ok?;
      Get32(s) >= 0 && CanonicalElems(elem, Get32(s), s[4..])
    case CompactArray(elem) =>
      assert DecodeCounted(elem, GetCompactLength(s), s).Ok?;
      var l := GetCompactLength(s);
      Minimal(s[..l.n]) && CanonicalElems(elem, l.value, s[l.n..])
    case CompactNullableArray(elem) =>
      var l := GetCompactNullableLength(s);
      assert Decode(ty, s) == if l.Ok? && l.value == -1 then Ok(Nil, l.n) else DecodeCounted(elem, l, s);
      Minimal(s[..l.n]) && (l.value == -1 || CanonicalElems(elem, l.value, s[l.n..]))
    case Struct(_, fields) => CanonicalFields(fields, s)
    case _ => true
  }

  ghost predicate CanonicalElems(elem: Ty, count: nat, s: seq<byte>)
    requires DecodeElems(elem, count, s).Ok?
    decreases elem, 1 + count
  {
    count == 0
    || (Canonical(elem, s) && CanonicalElems(elem, count - 1, s[Decode(elem, s).n..]))
  }

  ghost predicate CanonicalFields(fields: seq<Field>, s: seq<byte>)
    requires DecodeFields(fields, s).Ok?
    decreases fields, 0
  {
    fields == []
    || (Canonical(fields[0].ty, s) && CanonicalFields(fields[1..], s[Decode(fields[0].ty, s).n..]))
  }

  /** `out` is what re-encoding yields for `s`: never longer, and the same just when canonical. */
  ghost predicate Normalises(out: seq<byte>, s: seq<byte>, canonical: bool) {
    |out| <= |s| && (out == s <==> canonical)
  }

  lemma NormalisesTwo(o1: seq<byte>, s1: seq<byte>, c1: bool, o2: seq<byte>, s2: seq<byte>, c2: bool)
    requires Normalises(o1, s1, c1) && Normalises(o2, s2, c2)
    ensures Normalises(o1 + o2, s1 + s2, c1 && c2)
  {
    if o1 + o2 == s1 + s2 {
      assert |o1| == |s1|;
      assert (o1 + o2)[..|o1|] == o1 && (s1 + s2)[..|s1|] == s1;
      assert (o1 + o2)[|o1|..] == o2 && (s1 + s2)[|s1|..] == s2;
    }
  }

  /** The same over consecutive parts of one input. */
  lemma NormalisesSplit(o1: seq<byte>, n1: nat, c1: bool, o2: seq<byte>, n2: nat, c2: bool, s: seq<byte>)
    requires n1 + n2 <= |s|
    requires Normalises(o1, s[..n1], c1) && Normalises(o2, s[n1..][..n2], c2)
    ensures Normalises(o1 + o2, s[..n1 + n2], c1 && c2)
  {
    assert s[..n1 + n2] == s[..n1] + s[n1..][..n2];
    NormalisesTwo(o1, s[..n1], c1, o2, s[n1..][..n2], c2);
  }

  lemma WordOfUint64(u: uint64)
    ensures ToUint64(ToInt64(u)) == u
    ensures ToUint64(ToInt64(ToInt64(u) - 1) + 1) == u
  {
  }

  lemma VarintNormalises(s: seq<byte>)
    requires GetVarint(s).Ok?
    ensures var d := GetVarint(s); Normalises(PutVarint(d.value), s[..d.n], Minimal(s[..d.n]))
  {
    PutAfterRead(s);
    WordOfUint64(ReadUvarint(s).value);
  }

  lemma CompactLengthNormalises(s: seq<byte>)
    requires GetCompactNullableLength(s).Ok?
    ensures var d := GetCompactNullableLength(s);
            && d.n == GetVarint(s).n
            && Normalises(PutVarint(d.value + 1), s[..d.n], Minimal(s[..d.n]))
  {
    PutAfterRead(s);
    WordOfUint64(ReadUvarint(s).value);
  }

  lemma ArrayLengthNormalises(s: seq<byte>)
    requires |s| >= 4
    ensures var k := Get32(s); Normalises(Put32(if k < 0 then 0 else k), s[..4], k >= 0)
  {
    hide Put32, Get32;
    Put32AfterGet32(s);
    if Put32(0) == s[..4] {
      Get32AfterPut32(0, s[4..]);
      assert s[..4] + s[4..] == s;
    }
  }

  lemma TagNormalises(s: seq<byte>)
    requires DecodeTag(s).Ok?
    ensures var d := DecodeTag(s); Normalises(EmitTag(d.value), s[..d.n], CanonicalTag(s))
  {
    hide GetVarint, PutVarint;
    var tag := GetVarint(s);
    var rest := s[tag.n..];
    var size := GetVarint(rest);
    VarintNormalises(s);
    VarintNormalises(rest);
    var d := GetVarintBytes(rest);
    if size.value == -1 {
      NormalisesSplit(PutVarint(tag.value), tag.n, Minimal(s[..tag.n]), PutVarint(-1), size.n, Minimal(rest[..size.n]),
                      s);
    } else {
      var data := d.value.value;
      assert rest[size.n..][..size.value] == data;
      NormalisesSplit(PutVarint(size.value), size.n, Minimal(rest[..size.n]), data, |data|, true, rest);
      NormalisesSplit(PutVarint(tag.value), tag.n, Minimal(s[..tag.n]),
                      PutVarint(size.value) + data, d.n, Minimal(rest[..size.n]), s);
    }
  }

  lemma {:induction false} TagsNormalise(count: nat, s: seq<byte>)
    requires DecodeTags(count, s).Ok?
    ensures var d := DecodeTags(count, s); Normalises(EmitTags(d.value), s[..d.n], CanonicalTags(count, s))
  {
    hide DecodeTag, EmitTag, CanonicalTag;
    if count > 0 {
      var t := DecodeTag(s);
      var d := DecodeTags(count - 1, s[t.n..]);
      TagNormalises(s);
      TagsNormalise(count - 1, s[t.n..]);
      NormalisesSplit(EmitTag(t.value), t.n, CanonicalTag(s), EmitTags(d.value), d.n,
                      CanonicalTags(count - 1, s[t.n..]), s);
      assert ([t.value] + d.value)[1..] == d.value;
    }
  }

  /** The nullable readers accept whatever the plain ones accept, with the same outcome. */
  lemma NullableReadersAgree(s: seq<byte>)
    ensures GetString(s).Ok? <==> GetNullableString(s).Ok?
    ensures GetCompactLength(s).Ok? ==> GetCompactNullableLength(s) == GetCompactLength(s)
    ensures var d := GetCompactString(s); d.Ok? ==> GetCompactNullableString(s) == Ok(Some(d.value), d.n)
    ensures GetString(s).Ok? ==> GetNullableString(s).n == GetString(s).n
    ensures GetCompactNullableString(s).Ok? ==> GetVarint(s).n <= |s|
  {
    hide GetVarint, Get16;
  }

  lemma StringNormalises(s: seq<byte>)
    requires GetString(s).Ok?
    ensures var d := GetString(s); Normalises(Put16(|d.value|) + d.value, s[..d.n], Get16(s) != -1)
    ensures var d := GetNullableString(s);
            && d.Ok?
            && (d.value == None ==> Put16(-1) == s[..d.n])
            && (d.value.Some? ==> Put16(|d.value.value|) + d.value.value == s[..d.n])
  {
    hide Put16, Get16;
    Put16AfterGet16(s);
    var k := Get16(s);
    if k == -1 {
      assert Get16(Put16(0) + []) == 0 by { Get16AfterPut16(0, []); }
      assert Put16(0) + [] == Put16(0) && s[..2] + s[2..] == s;
      if Put16(0) == s[..2] { Get16AfterPut16(0, s[2..]); }
    } else {
      assert s[..2 + k] == s[..2] + s[2..2 + k];
    }
  }

  lemma CompactStringNormalises(s: seq<byte>)
    requires GetCompactNullableString(s).Ok?
    ensures var d := GetCompactNullableString(s);
            var bytes := if d.value.None? then PutVarint(0) else PutVarint(|d.value.value| + 1) + d.value.value;
            Normalises(bytes, s[..d.n], Minimal(s[..GetVarint(s).n]))
    ensures GetCompactString(s).Ok? ==> GetCompactNullableString(s).value == Some(GetCompactString(s).value)
  {
    hide PutVarint, GetVarint;
    CompactLengthNormalises(s);
    var l := GetCompactNullableLength(s);
    if l.value >= 0 {
      var v := s[l.n..l.n + l.value];
      assert s[l.n..][..l.value] == v;
      NormalisesSplit(PutVarint(l.value + 1), l.n, Minimal(s[..l.n]), v, l.value, true, s);
    }
  }

  lemma TaggedNormalises(s: seq<byte>)
    requires DecodeTagged(s).Ok?
    ensures var d := DecodeTagged(s);
            var count := GetVarint(s);
            Normalises(PutVarint(|d.value|) + EmitTags(d.value), s[..d.n],
                       Minimal(s[..count.n]) && CanonicalTags(count.value, s[count.n..]))
  {
    hide GetVarint, PutVarint, EmitTags, DecodeTags, CanonicalTags;
    var count := GetVarint(s);
    var d := DecodeTags(count.value, s[count.n..]);
    VarintNormalises(s);
    TagsNormalise(count.value, s[count.n..]);
    NormalisesSplit(PutVarint(count.value), count.n, Minimal(s[..count.n]),
                    EmitTags(d.value), d.n, CanonicalTags(count.value, s[count.n..]), s);
  }

  lemma ArrayNormalises(elem: Ty, count: nat, s: seq<byte>)
    requires |s| >= 4 && count == if Get32(s) < 0 then 0 else Get32(s)
    requires DecodeElems(elem, count, s[4..]).Ok? && ElemsNormal(elem, count, s[4..])
    ensures var d := DecodeElems(elem, count, s[4..]);
            && (Get32(s) < 0 ==> d == Ok([], 0))
            && Normalises(Put32(count) + EmitElems(elem, d.value).bytes, s[..4 + d.n],
                          Get32(s) >= 0 && CanonicalElems(elem, count, s[4..]))
  {
    hide Get32, Put32, EmitElems, CanonicalElems;
    ArrayLengthNormalises(s);
    CountedNormalises(elem, Put32(count), 4, Get32(s) >= 0, count, s);
  }

  lemma CompactArrayNormalises(elem: Ty, count: nat, s: seq<byte>)
    requires var l := GetCompactNullableLength(s); l.Ok? && l.value == count
    requires var rest := s[GetCompactNullableLength(s).n..];
             DecodeElems(elem, count, rest).Ok? && ElemsNormal(elem, count, rest)
    ensures var l := GetCompactNullableLength(s);
            var d := DecodeElems(elem, count, s[l.n..]);
            && l == GetCompactLength(s)
            && Normalises(PutVarint(count + 1) + EmitElems(elem, d.value).bytes, s[..l.n + d.n],
                          Minimal(s[..l.n]) && CanonicalElems(elem, count, s[l.n..]))
  {
    hide GetVarint, PutVarint, EmitElems, DecodeElems, CanonicalElems;
    var l := GetCompactNullableLength(s);
    CompactLengthNormalises(s);
    CountedNormalises(elem, PutVarint(count + 1), l.n, Minimal(s[..l.n]), count, s);
  }

  lemma CountedNormalises(elem: Ty, head: seq<byte>, n: nat, c: bool, count: nat, s: seq<byte>)
    requires n <= |s| && Normalises(head, s[..n], c)
    requires DecodeElems(elem, count, s[n..]).Ok? && ElemsNormal(elem, count, s[n..])
    ensures var d := DecodeElems(elem, count, s[n..]);
            Normalises(head + EmitElems(elem, d.value).bytes, s[..n + d.n], c && CanonicalElems(elem, count, s[n..]))
  {
    hide DecodeElems, EmitElems, CanonicalElems;
    var d := DecodeElems(elem, count, s[n..]);
    NormalisesSplit(head, n, c, EmitElems(elem, d.value).bytes, d.n, CanonicalElems(elem, count, s[n..]), s);
  }

  ghost predicate ElemsNormal(elem: Ty, count: nat, s: seq<byte>)
    requires DecodeElems(elem, count, s).Ok?
  {
    var d := DecodeElems(elem, count, s);
    Normalises(EmitElems(elem, d.value).bytes, s[..d.n], CanonicalElems(elem, count, s))
  }

  /** What decoding returns has the right dynamic types and keeps the decoder's array limit. */
  lemma {:induction false} DecodedIsTyped(ty: Ty, s: seq<byte>)
    requires Decode(ty, s).Ok?
    ensures var v := Decode(ty, s).value; Typed(ty, v) && WithinArrayLimit(ty, v) && Emit(ty, v).ok
    decreases ty, 0
  {
    hide GetVarint, Get16, Get32, Put16, Put32, PutVarint, DecodeTagged, EmitTags,
         GetString, GetNullableString, GetCompactString, GetCompactNullableString;
    match ty
    case Array(elem) => ElemsAreTyped(elem, |Decode(ty, s).value.elems|, s[GetArrayLength(s).n..]);
    case CompactArray(elem) => ElemsAreTyped(elem, |Decode(ty, s).value.elems|, s[GetCompactLength(s).n..]);
    case CompactNullableArray(elem) =>
      var l := GetCompactNullableLength(s);
      if l.value != -1 { ElemsAreTyped(elem, l.value, s[l.n..]); }
    case Struct(_, fields) => FieldsAreTyped(fields, s);
    case _ =>
  }

  lemma {:induction false} ElemsAreTyped(elem: Ty, count: nat, s: seq<byte>)
    requires DecodeElems(elem, count, s).Ok?
    ensures var vs := DecodeElems(elem, count, s).value;
            && (forall i | 0 <= i < |vs| :: Typed(elem, vs[i]) && WithinArrayLimit(elem, vs[i]))
            && EmitElems(elem, vs).ok
    decreases elem, 1 + count
  {
    hide Decode, Emit, Typed, WithinArrayLimit;
    if count > 0 {
      var e := Decode(elem, s);
      DecodedIsTyped(elem, s);
      ElemsAreTyped(elem, count - 1, s[e.n..]);
      var rest := DecodeElems(elem, count - 1, s[e.n..]).value;
      assert ([e.value] + rest)[1..] == rest;
    }
  }

  lemma {:induction false} FieldsAreTyped(fields: seq<Field>, s: seq<byte>)
    requires DecodeFields(fields, s).Ok?
    ensures var vs := DecodeFields(fields, s).value;
            && (forall i | 0 <= i < |fields| :: Typed(fields[i].ty, vs[i]) && WithinArrayLimit(fields[i].ty, vs[i]))
            && EmitFields(fields, vs).ok
    decreases fields, 0
  {
    hide Decode, Emit, Typed, WithinArrayLimit;
    if fields != [] {
      var v := Decode(fields[0].ty, s);
      DecodedIsTyped(fields[0].ty, s);
      FieldsAreTyped(fields[1..], s[v.n..]);
      var rest := DecodeFields(fields[1..], s[v.n..]).value;
      assert ([v.value] + rest)[1..] == rest;
      assert forall i | 0 < i < |fields| :: fields[i] == fields[1..][i - 1] && ([v.value] + rest)[i] == rest[i - 1];
    }
  }

  lemma LeafCanonicalForm(ty: Ty, s: seq<byte>)
    requires !ty.Array? && !ty.CompactArray? && !ty.CompactNullableArray? && !ty.Struct?
    requires Decode(ty, s).Ok?
    ensures var d := Decode(ty, s); Normalises(Emit(ty, d.value).bytes, s[..d.n], Canonical(ty, s))
  {
    hide GetVarint, Get16, Get32, Put16, Put32, PutVarint, EmitTags, DecodeTags, CanonicalTags,
         GetString, GetNullableString, GetCompactString, GetCompactNullableString;
    match ty
    case Int16 => Put16AfterGet16(s);
    case Int32 => Put32AfterGet32(s);
    case Str | NullableStr => NullableReadersAgree(s); StringNormalises(s);
    case CompactStr | CompactNullableStr => NullableReadersAgree(s); CompactStringNormalises(s);
    case TaggedFields => TaggedNormalises(s);
    case _ =>
  }

  /**
   Re-encoding what was decoded never lengthens it, and gives the input back just when the
   input was canonical.
   */
  lemma {:induction false} CanonicalForm(ty: Ty, s: seq<byte>)
    requires Decode(ty, s).Ok?
    ensures var d := Decode(ty, s); Normalises(Emit(ty, d.value).bytes, s[..d.n], Canonical(ty, s))
    decreases ty, 0
  {
    hide GetVarint, Get16, Get32, Put16, Put32, PutVarint, EmitTags, DecodeTags, CanonicalTags,
         GetCompactLength, GetCompactNullableLength, GetString, GetNullableString, GetCompactString,
         GetCompactNullableString, EmitElems, DecodeElems, CanonicalElems, EmitFields, DecodeFields, CanonicalFields;
    hide Normalises, Minimal;
    match ty
    case Array(elem) =>
      var count: nat := if Get32(s) < 0 then 0 else Get32(s);
      ElemsNormalise(elem, count, s[4..]);
      ArrayNormalises(elem, count, s);
    case CompactArray(elem) =>
      var l := GetCompactLength(s);
      NullableReadersAgree(s);
      ElemsNormalise(elem, l.value, s[l.n..]);
      CompactArrayNormalises(elem, l.value, s);
    case CompactNullableArray(elem) =>
      var l := GetCompactNullableLength(s);
      CompactLengthNormalises(s);
      if l.value != -1 {
        ElemsNormalise(elem, l.value, s[l.n..]);
        CompactArrayNormalises(elem, l.value, s);
      }
    case Struct(_, fields) => FieldsNormalise(fields, s);
    case _ => LeafCanonicalForm(ty, s);
  }

  lemma {:induction false} ElemsNormalise(elem: Ty, count: nat, s: seq<byte>)
    requires DecodeElems(elem, count, s).Ok?
    ensures ElemsNormal(elem, count, s)
    decreases elem, 1 + count
  {
    hide Decode, Emit, Canonical;
    if count > 0 {
      var e := Decode(elem, s);
      var d := DecodeElems(elem, count - 1, s[e.n..]);
      DecodedIsTyped(elem, s);
      CanonicalForm(elem, s);
      ElemsNormalise(elem, count - 1, s[e.n..]);
      NormalisesSplit(Emit(elem, e.value).bytes, e.n, Canonical(elem, s),
                      EmitElems(elem, d.value).bytes, d.n, CanonicalElems(elem, count - 1, s[e.n..]), s);
      assert ([e.value] + d.value)[1..] == d.value;
    }
  }

  lemma {:induction false} FieldsNormalise(fields: seq<Field>, s: seq<byte>)
    requires DecodeFields(fields, s).Ok?
    ensures var d := DecodeFields(fields, s);
            Normalises(EmitFields(fields, d.value).bytes, s[..d.n], CanonicalFields(fields, s))
    decreases fields, 0
  {
    hide Decode, Emit, Canonical;
    if fields != [] {
      var v := Decode(fields[0].ty, s);
      var d := DecodeFields(fields[1..], s[v.n..]);
      DecodedIsTyped(fields[0].ty, s);
      CanonicalForm(fields[0].ty, s);
      FieldsNormalise(fields[1..], s[v.n..]);
      NormalisesSplit(Emit(fields[0].ty, v.value).bytes, v.n, Canonical(fields[0].ty, s),
                      EmitFields(fields[1..], d.value).bytes, d.n, CanonicalFields(fields[1..], s[v.n..]), s);
      assert ([v.value] + d.value)[1..] == d.value;
    }
  }

  /**
   Whatever the decoder accepts and the encoder re-emits comes out no longer, decodes to the
   same struct just when the decoder's length checks are still met, and is the input itself
   just when the input was canonical.
   */
  lemma SchemaCanonicalForm(ty: Ty, buf: seq<byte>, v: Value, out: seq<byte>)
    requires DecodeSchema(Some(buf), ty) == Success(Some(v))
    requires EncodeSchema(Some(v), ty) == Success(Some(out))
    ensures |out| <= |buf| && (out == buf <==> Canonical(ty, buf))
    ensures DecodeSchema(Some(out), ty) == Success(Some(v)) <==> Fits(ty, v, 0)
    ensures WideElements(ty) ==> DecodeSchema(Some(out), ty) == Success(Some(v))
  {
    hide Typed, Measure, Emit, Decode, Fits, WideElements, WithinArrayLimit, Canonical;
    DecodedIsTyped(ty, buf);
    CanonicalForm(ty, buf);
    assert buf[..|buf|] == buf;
    SchemaRoundTrip(ty, v, out);
  }

  /** So passing a response through unchanged a second time changes nothing more. */
  lemma IdentityRewritingIsIdempotent(ty: Ty, buf: seq<byte>, v: Value, out: seq<byte>)
    requires WideElements(ty)
    requires DecodeSchema(Some(buf), ty) == Success(Some(v))
    requires EncodeSchema(Some(v), ty) == Success(Some(out))
    ensures DecodeSchema(Some(out), ty) == Success(Some(v))
    ensures Decode(ty, out).Ok? && Canonical(ty, out)
  {
    hide Typed, Measure, Emit, Decode, Fits, WideElements, WithinArrayLimit, Canonical;
    SchemaCanonicalForm(ty, buf, v, out);
    SchemaCanonicalForm(ty, out, v, out);
  }
}
