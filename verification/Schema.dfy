/**
 The schema tree of the Kafka response codec: what its decoder reads, what its measuring
 pass counts and what its writing pass emits, each as a function. The classes in
 RealDecoder.dfy and Encoders.dfy do the same work by moving a cursor and are proved
 equal to these functions.
 */
module Schema {
  import opened Wrappers
  import opened Bytes
  import opened Varint

  datatype Ty =
    | Bool | Int16 | Int32 | Str | NullableStr | CompactStr | CompactNullableStr | Uuid
    | TaggedFields
    | Array(elem: Ty)
    | CompactArray(elem: Ty)
    | CompactNullableArray(elem: Ty)
    | Struct(name: string, fields: seq<Field>)

  datatype Field = Field(name: string, ty: Ty)

  type Uuid16 = s: seq<byte> | |s| == 16 witness seq(16, _ => 0)

  datatype RawTaggedField = RawTaggedField(tag: int64, data: Option<seq<byte>>)

  /** A slice has fewer than 2^63 elements. */
  type TagSlice = tags: seq<RawTaggedField> | |tags| < 0x8000_0000_0000_0000

  /** An interface{} value. `Nil` is the untyped nil; `StrPtr(None)` is a nil *string. */
  datatype Value =
    | Nil
    | BoolV(b: bool)
    | Int16V(i16: int16)
    | Int32V(i32: int32)
    | StrV(s: seq<byte>)
    | StrPtr(p: Option<seq<byte>>)
    | UuidV(id: Uuid16)
    | TaggedV(tags: TagSlice)
    | ArrayV(elems: seq<Value>)
    | StructV(schema: Ty, values: seq<Value>)

  // ---------------------------------------------------------------- decoding

  datatype DecodeError =
    | InsufficientData | VarintOverflow | InvalidBool | InvalidByteSliceLength
    | InvalidArrayLength | InvalidStringLength | InvalidCompactLength
    | InvalidCompactNullableLength | NegativeTaggedFields

  /** The outcome of a getter, and by how much it moved the cursor even when it failed. */
  datatype Dec<+T> = Ok(value: T, n: nat) | Err(error: DecodeError, n: nat)

  /** Getters are given the bytes from the cursor on. */
  function GetBool(s: seq<byte>): (d: Dec<bool>)
    ensures d.n <= |s|
  {
    if |s| < 1 then Err(InsufficientData, |s|)
    else if s[0] == 0 then Ok(false, 1)
    else if s[0] != 1 then Err(InvalidBool, 1)
    else Ok(true, 1)
  }

  function GetInt16(s: seq<byte>): (d: Dec<int16>)
    ensures d.n <= |s|
  {
    if |s| < 2 then Err(InsufficientData, |s|) else Ok(Get16(s), 2)
  }

  function GetInt32(s: seq<byte>): (d: Dec<int32>)
    ensures d.n <= |s|
  {
    if |s| < 4 then Err(InsufficientData, |s|) else Ok(Get32(s), 4)
  }

  function GetVarint(s: seq<byte>): (d: Dec<int64>)
    ensures d.n <= |s| && (d.Ok? ==> d.n >= 1)
  {
    match ReadUvarint(s)
    case NeedMore => Err(InsufficientData, |s|)
    case Overflow(n) => Err(VarintOverflow, n)
    case Done(u, n) => Ok(ToInt64(u), n)
  }

  function GetRawBytes(s: seq<byte>, length: int): (d: Dec<seq<byte>>)
    ensures d.n <= |s|
  {
    if length < 0 then Err(InvalidByteSliceLength, 0)
    else if length > |s| then Err(InsufficientData, |s|)
    else Ok(s[..length], length)
  }

  function GetVarintBytes(s: seq<byte>): (d: Dec<Option<seq<byte>>>)
    ensures d.n <= |s|
  {
    var l := GetVarint(s);
    if l.Err? then Err(l.error, l.n)
    else if l.value == -1 then Ok(None, l.n)
    else
      var d := GetRawBytes(s[l.n..], l.value);
      if d.Err? then Err(d.error, l.n + d.n) else Ok(Some(d.value), l.n + d.n)
  }

  function GetStringLength(s: seq<byte>): (d: Dec<int>)
    ensures d.n <= |s|
    ensures d.Ok? ==> -1 <= d.value <= |s| - d.n
  {
    var l := GetInt16(s);
    if l.Err? then Err(l.error, l.n)
    else if l.value < -1 then Err(InvalidStringLength, l.n)
    else if l.value > |s| - l.n then Err(InsufficientData, |s|)
    else Ok(l.value, l.n)
  }

  function GetString(s: seq<byte>): (d: Dec<seq<byte>>)
    ensures d.n <= |s|
  {
    var l := GetStringLength(s);
    if l.Err? then Err(l.error, l.n)
    else if l.value == -1 then Ok([], l.n)
    else Ok(s[l.n..l.n + l.value], l.n + l.value)
  }

  function GetNullableString(s: seq<byte>): (d: Dec<Option<seq<byte>>>)
    ensures d.n <= |s|
  {
    var l := GetStringLength(s);
    if l.Err? then Err(l.error, l.n)
    else if l.value == -1 then Ok(None, l.n)
    else Ok(Some(s[l.n..l.n + l.value]), l.n + l.value)
  }

  /** int(length - 1): the subtraction wraps around at the least int64. */
  function GetCompactLength(s: seq<byte>): (d: Dec<int>)
    ensures d.n <= |s|
    ensures d.Ok? ==> 0 <= d.value <= |s| - d.n && d.n >= 1
  {
    var l := GetVarint(s);
    if l.Err? then Err(l.error, l.n)
    else
      var k := ToInt64(l.value - 1);
      if k < 0 then Err(InvalidCompactLength, l.n)
      else if k > |s| - l.n then Err(InsufficientData, |s|)
      else Ok(k, l.n)
  }

  function GetCompactNullableLength(s: seq<byte>): (d: Dec<int>)
    ensures d.n <= |s|
    ensures d.Ok? ==> -1 <= d.value <= |s| - d.n && d.n >= 1
  {
    var l := GetVarint(s);
    if l.Err? then Err(l.error, l.n)
    else
      var k := ToInt64(l.value - 1);
      if k < -1 then Err(InvalidCompactNullableLength, l.n)
      else if k > |s| - l.n then Err(InsufficientData, |s|)
      else Ok(k, l.n)
  }

  function GetCompactString(s: seq<byte>): (d: Dec<seq<byte>>)
    ensures d.n <= |s|
  {
    var l := GetCompactLength(s);
    if l.Err? then Err(l.error, l.n)
    else Ok(s[l.n..l.n + l.value], l.n + l.value)
  }

  function GetCompactNullableString(s: seq<byte>): (d: Dec<Option<seq<byte>>>)
    ensures d.n <= |s|
  {
    var l := GetCompactNullableLength(s);
    if l.Err? then Err(l.error, l.n)
    else if l.value < 0 then Ok(None, l.n)
    else Ok(Some(s[l.n..l.n + l.value]), l.n + l.value)
  }

  /** 2 * math.MaxUint16 */
  const MAX_ARRAY_LENGTH := 131070

  function GetArrayLength(s: seq<byte>): (d: Dec<int>)
    ensures d.n <= |s|
    ensures d.Ok? ==> d.n == 4 && d.value <= |s| - 4 && d.value <= MAX_ARRAY_LENGTH
  {
    var l := GetInt32(s);
    if l.Err? then Err(l.error, l.n)
    else if l.value > |s| - 4 then Err(InsufficientData, |s|)
    else if l.value > MAX_ARRAY_LENGTH then Err(InvalidArrayLength, 4)
    else Ok(l.value, 4)
  }

  /** Puts a first element, read with `n` bytes, in front of the rest. */
  function Cons<T>(first: T, n: nat, rest: Dec<seq<T>>): Dec<seq<T>> {
    if rest.Ok? then Ok([first] + rest.value, n + rest.n) else Err(rest.error, n + rest.n)
  }

  function DecodeTag(s: seq<byte>): (d: Dec<RawTaggedField>)
    ensures d.n <= |s|
  {
    var tag := GetVarint(s);
    if tag.Err? then Err(tag.error, tag.n)
    else
      var data := GetVarintBytes(s[tag.n..]);
      if data.Err? then Err(data.error, tag.n + data.n)
      else Ok(RawTaggedField(tag.value, data.value), tag.n + data.n)
  }

  function DecodeTags(count: nat, s: seq<byte>): (d: Dec<seq<RawTaggedField>>)
    ensures d.n <= |s|
    ensures d.Ok? ==> |d.value| == count
  {
    if count == 0 then Ok([], 0)
    else
      var t := DecodeTag(s);
      if t.Err? then Err(t.error, t.n) else Cons(t.value, t.n, DecodeTags(count - 1, s[t.n..]))
  }

  function DecodeTagged(s: seq<byte>): (d: Dec<TagSlice>)
    ensures d.n <= |s|
  {
    var count := GetVarint(s);
    if count.Err? then Err(count.error, count.n)
    else if count.value < 0 then Err(NegativeTaggedFields, count.n)
    else
      var d := DecodeTags(count.value, s[count.n..]);
      if d.Err? then Err(d.error, count.n + d.n) else Ok(d.value, count.n + d.n)
  }

  /** Turns a getter's outcome into the interface{} value the schema node returns. */
  function Wrap<T>(d: Dec<T>, f: T -> Value): Dec<Value> {
    if d.Ok? then Ok(f(d.value), d.n) else Err(d.error, d.n)
  }

  /** Decoding at any node of a schema tree; the cursor never passes the end of the input. */
  function Decode(ty: Ty, s: seq<byte>): (d: Dec<Value>)
    ensures d.n <= |s|
    decreases ty, 0
  {
    match ty
    case Bool => Wrap(GetBool(s), b => BoolV(b))
    case Int16 => Wrap(GetInt16(s), i => Int16V(i))
    case Int32 => Wrap(GetInt32(s), i => Int32V(i))
    case Str => Wrap(GetString(s), v => StrV(v))
    case NullableStr => Wrap(GetNullableString(s), p => StrPtr(p))
    case CompactStr => Wrap(GetCompactString(s), v => StrV(v))
    case CompactNullableStr => Wrap(GetCompactNullableString(s), p => StrPtr(p))
    case Uuid =>
      var d := GetRawBytes(s, 16);
      if d.Err? then Err(d.error, d.n) else Ok(UuidV(d.value), d.n)
    case TaggedFields =>
      var d := DecodeTagged(s);
      if d.Err? then Err(d.error, d.n) else Ok(TaggedV(d.value), d.n)
    case Array(elem) => DecodeCounted(elem, GetArrayLength(s), s)
    case CompactArray(elem) => DecodeCounted(elem, GetCompactLength(s), s)
    case CompactNullableArray(elem) =>
      var l := GetCompactNullableLength(s);
      if l.Ok? && l.value == -1 then Ok(Nil, l.n) else DecodeCounted(elem, l, s)
    case Struct(_, fields) => Wrap(DecodeFields(fields, s), values => StructV(ty, values))
  }

  /** The elements after a length that was read; a negative length is taken as no elements. */
  function DecodeCounted(elem: Ty, l: Dec<int>, s: seq<byte>): (d: Dec<Value>)
    requires l.n <= |s| && (l.Ok? ==> l.value <= |s|)
    ensures d.n <= |s|
    decreases elem, |s| + 2
  {
    if l.Err? then Err(l.error, l.n)
    else
      var count: nat := if l.value < 0 then 0 else l.value;
      var d := DecodeElems(elem, count, s[l.n..]);
      if d.Err? then Err(d.error, l.n + d.n) else Ok(ArrayV(d.value), l.n + d.n)
  }

  function DecodeElems(elem: Ty, count: nat, s: seq<byte>): (d: Dec<seq<Value>>)
    ensures d.n <= |s|
    ensures d.Ok? ==> |d.value| == count
    decreases elem, 1 + count
  {
    if count == 0 then Ok([], 0)
    else
      var e := Decode(elem, s);
      if e.Err? then Err(e.error, e.n) else Cons(e.value, e.n, DecodeElems(elem, count - 1, s[e.n..]))
  }

  function DecodeFields(fields: seq<Field>, s: seq<byte>): (d: Dec<seq<Value>>)
    ensures d.n <= |s|
    ensures d.Ok? ==> |d.value| == |fields|
    decreases fields, 0
  {
    if fields == [] then Ok([], 0)
    else
      var v := Decode(fields[0].ty, s);
      if v.Err? then Err(v.error, v.n) else Cons(v.value, v.n, DecodeFields(fields[1..], s[v.n..]))
  }

  // ---------------------------------------------------------------- measuring

  /** What the measuring pass has added to its length when it finishes or fails. */
  datatype Measurement = Measurement(n: nat, ok: bool)

  function Plus(n: nat, m: Measurement): Measurement {
    Measurement(n + m.n, m.ok)
  }

  function MeasureString(s: seq<byte>): Measurement {
    if |s| > MAX_INT16 then Measurement(2, false) else Measurement(2 + |s|, true)
  }

  function MeasureCompactString(s: seq<byte>): Measurement {
    var n := |PutVarint(|s| + 1)|;
    if |s| > MAX_INT16 then Measurement(n, false) else Measurement(n + |s|, true)
  }

  function MeasureTag(t: RawTaggedField): Measurement {
    var n := |PutVarint(t.tag)|;
    match t.data
    case None => Measurement(n + |PutVarint(-1)|, true)
    case Some(data) =>
      var n := n + |PutVarint(|data|)|;
      if |data| > MAX_INT32 then Measurement(n, false) else Measurement(n + |data|, true)
  }

  function MeasureTags(tags: seq<RawTaggedField>): Measurement {
    if tags == [] then Measurement(0, true)
    else
      var m := MeasureTag(tags[0]);
      if !m.ok then m else Plus(m.n, MeasureTags(tags[1..]))
  }

  /** The measuring pass over a value of any dynamic type. */
  function Measure(ty: Ty, v: Value): Measurement
    decreases ty, 0
  {
    match (ty, v)
    case (Bool, BoolV(_)) => Measurement(1, true)
    case (Int16, Int16V(_)) => Measurement(2, true)
    case (Int32, Int32V(_)) => Measurement(4, true)
    case (Str, StrV(s)) => MeasureString(s)
    case (NullableStr, Nil) => Measurement(2, false)
    case (NullableStr, StrPtr(None)) => Measurement(2, true)
    case (NullableStr, StrPtr(Some(s))) => MeasureString(s)
    case (CompactStr, StrV(s)) => MeasureCompactString(s)
    case (CompactNullableStr, Nil) => Measurement(1, false)
    case (CompactNullableStr, StrPtr(None)) => Measurement(1, true)
    case (CompactNullableStr, StrPtr(Some(s))) => MeasureCompactString(s)
    case (Uuid, UuidV(_)) => Measurement(16, true)
    case (TaggedFields, TaggedV(tags)) => Plus(|PutVarint(|tags|)|, MeasureTags(tags))
    case (Array(elem), ArrayV(vs)) =>
      if |vs| > MAX_INT32 then Measurement(0, false) else Plus(4, MeasureElems(elem, vs))
    case (CompactArray(elem), ArrayV(vs)) =>
      if |vs| > MAX_INT16 then Measurement(0, false)
      else Plus(|PutVarint(|vs| + 1)|, MeasureElems(elem, vs))
    case (CompactNullableArray(_), Nil) => Measurement(|PutVarint(0)|, true)
    case (CompactNullableArray(elem), ArrayV(vs)) =>
      if |vs| > MAX_INT16 then Measurement(0, false)
      else Plus(|PutVarint(|vs| + 1)|, MeasureElems(elem, vs))
    case (Struct(_, fields), StructV(_, vs)) =>
      if |vs| != |fields| then Measurement(0, false) else MeasureFields(fields, vs)
    case _ => Measurement(0, false)
  }

  function MeasureElems(elem: Ty, vs: seq<Value>): Measurement
    decreases elem, 1 + |vs|
  {
    if vs == [] then Measurement(0, true)
    else
      var m := Measure(elem, vs[0]);
      if !m.ok then m else Plus(m.n, MeasureElems(elem, vs[1..]))
  }

  function MeasureFields(fields: seq<Field>, vs: seq<Value>): Measurement
    requires |fields| == |vs|
    decreases fields, 0
  {
    if fields == [] then Measurement(0, true)
    else
      var m := Measure(fields[0].ty, vs[0]);
      if !m.ok then m else Plus(m.n, MeasureFields(fields[1..], vs[1..]))
  }

  // ---------------------------------------------------------------- writing

  /** The bytes the writing pass has written when it finishes or fails. */
  datatype Emission = Emission(bytes: seq<byte>, ok: bool)

  function Then(bytes: seq<byte>, e: Emission): Emission {
    Emission(bytes + e.bytes, e.ok)
  }

  function PutVarintBytes(data: Option<seq<byte>>): seq<byte> {
    match data
    case None => PutVarint(-1)
    case Some(bytes) => PutVarint(|bytes|) + bytes
  }

  function EmitTag(t: RawTaggedField): seq<byte> {
    PutVarint(t.tag) + PutVarintBytes(t.data)
  }

  function EmitTags(tags: seq<RawTaggedField>): seq<byte> {
    if tags == [] then [] else EmitTag(tags[0]) + EmitTags(tags[1..])
  }

  /** The writing pass: it checks dynamic types but no limits, and truncates lengths. */
  function Emit(ty: Ty, v: Value): Emission
    decreases ty, 0
  {
    match (ty, v)
    case (Bool, BoolV(b)) => Emission([if b then 1 else 0], true)
    case (Int16, Int16V(i)) => Emission(Put16(i), true)
    case (Int32, Int32V(i)) => Emission(Put32(i), true)
    case (Str, StrV(s)) => Emission(Put16(|s|) + s, true)
    case (NullableStr, Nil) => Emission(Put16(-1), false)
    case (NullableStr, StrPtr(None)) => Emission(Put16(-1), true)
    case (NullableStr, StrPtr(Some(s))) => Emission(Put16(|s|) + s, true)
    case (CompactStr, StrV(s)) => Emission(PutVarint(|s| + 1) + s, true)
    case (CompactNullableStr, Nil) => Emission(PutVarint(0), false)
    case (CompactNullableStr, StrPtr(None)) => Emission(PutVarint(0), true)
    case (CompactNullableStr, StrPtr(Some(s))) => Emission(PutVarint(|s| + 1) + s, true)
    case (Uuid, UuidV(id)) => Emission(id, true)
    case (TaggedFields, TaggedV(tags)) => Emission(PutVarint(|tags|) + EmitTags(tags), true)
    case (Array(elem), ArrayV(vs)) => Then(Put32(|vs|), EmitElems(elem, vs))
    case (CompactArray(elem), ArrayV(vs)) => Then(PutVarint(|vs| + 1), EmitElems(elem, vs))
    case (CompactNullableArray(_), Nil) => Emission(PutVarint(0), true)
    case (CompactNullableArray(elem), ArrayV(vs)) => Then(PutVarint(|vs| + 1), EmitElems(elem, vs))
    case (Struct(_, fields), StructV(_, vs)) =>
      if |vs| != |fields| then Emission([], false) else EmitFields(fields, vs)
    case _ => Emission([], false)
  }

  function EmitElems(elem: Ty, vs: seq<Value>): Emission
    decreases elem, 1 + |vs|
  {
    if vs == [] then Emission([], true)
    else
      var e := Emit(elem, vs[0]);
      if !e.ok then e else Then(e.bytes, EmitElems(elem, vs[1..]))
  }

  function EmitFields(fields: seq<Field>, vs: seq<Value>): Emission
    requires |fields| == |vs|
    decreases fields, 0
  {
    if fields == [] then Emission([], true)
    else
      var e := Emit(fields[0].ty, vs[0]);
      if !e.ok then e else Then(e.bytes, EmitFields(fields[1..], vs[1..]))
  }

  // ---------------------------------------------------------------- drivers

  /** MaxRequestSize */
  const MAX_REQUEST_SIZE := 100 * 1024 * 1024

  datatype CodecError =
    | DecodeFailed(error: DecodeError) | InvalidLength | NotAStruct | EncodeFailed
    | InvalidRequestSize(n: nat)

  /** DecodeSchema; `None` stands for a nil buffer and for a nil struct. */
  function DecodeSchema(buf: Option<seq<byte>>, ty: Ty): Result<Option<Value>, CodecError> {
    if buf.None? then Success(None)
    else
      var d := Decode(ty, buf.value);
      if d.Err? then Failure(DecodeFailed(d.error))
      else if d.n != |buf.value| then Failure(InvalidLength)
      else if !d.value.StructV? then Failure(NotAStruct)
      else Success(Some(d.value))
  }

  /** EncodeSchema: measure, check the size, then write into a buffer of that size. */
  function EncodeSchema(v: Option<Value>, ty: Ty): Result<Option<seq<byte>>, CodecError> {
    if v.None? then Success(None)
    else
      var m := Measure(ty, v.value);
      if !m.ok then Failure(EncodeFailed)
      else if m.n > MAX_REQUEST_SIZE then Failure(InvalidRequestSize(m.n))
      else Success(Some(Emit(ty, v.value).bytes))
  }
}
