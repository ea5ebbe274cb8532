/** What the decoder refuses, number by number and length by length, and which values the encoder refuses. */
module Refusals {
  import opened Wrappers
  import opened Bytes
  import opened Varint
  import opened Schema

  // ---------------------------------------------------------------- numbers

  /** Numbers of a fixed width need their bytes; a boolean is 0 or 1. */
  lemma FixedWidths(s: seq<byte>)
    ensures Decode(Int16, s).Ok? <==> |s| >= 2
    ensures Decode(Int32, s).Ok? <==> |s| >= 4
    ensures Decode(Uuid, s).Ok? <==> |s| >= 16
    ensures Decode(Bool, s).Ok? <==> |s| >= 1 && s[0] <= 1
    ensures Decode(Bool, s).Ok? ==> Decode(Bool, s).value == BoolV(s[0] == 1)
  {
    hide Get16, Get32;
  }

  /** The varint in `s` ends with byte `k`: it is the first without the high bit. */
  predicate EndsAt(s: seq<byte>, k: nat) {
    k < |s| && s[k] <= 127 && forall j | 0 <= j < k :: s[j] >= 128
  }

  lemma {:induction false} VarintFrom(s: seq<byte>, i: nat, k: nat)
    requires i <= 9 && EndsAt(s, k)
    ensures ReadUvarint(s, i).Done? <==> i + k <= 8 || (i + k == 9 && s[k] <= 1)
    ensures ReadUvarint(s, i).Done? ==> ReadUvarint(s, i).n == k + 1
  {
    if k > 0 && i < 9 {
      assert EndsAt(s[1..], k - 1);
      VarintFrom(s[1..], i + 1, k - 1);
    }
  }

  lemma {:induction false} UnendedFrom(s: seq<byte>, i: nat)
    requires i <= 9 && forall j | 0 <= j < |s| :: s[j] >= 128
    ensures !ReadUvarint(s, i).Done?
  {
    if s != [] && i < 9 {
      UnendedFrom(s[1..], i + 1);
    }
  }

  /** A varint has at most ten bytes and 64 bits. */
  lemma VarintsEnd(s: seq<byte>)
    ensures forall k: nat | EndsAt(s, k) :: GetVarint(s).Ok? <==> k <= 8 || (k == 9 && s[k] <= 1)
    ensures forall k: nat | EndsAt(s, k) && GetVarint(s).Ok? :: GetVarint(s).n == k + 1
    ensures (forall j | 0 <= j < |s| :: s[j] >= 128) ==> !GetVarint(s).Ok?
  {
    hide ReadUvarint;
    forall k: nat | EndsAt(s, k)
      ensures ReadUvarint(s).Done? <==> k <= 8 || (k == 9 && s[k] <= 1)
      ensures ReadUvarint(s).Done? ==> ReadUvarint(s).n == k + 1
    {
      VarintFrom(s, 0, k);
    }
    if forall j | 0 <= j < |s| :: s[j] >= 128 {
      UnendedFrom(s, 0);
    }
  }

  // ---------------------------------------------------------------- lengths

  /** Lengths of 16 bits: -1 stands for null, and what is counted must be there. */
  lemma StringLengths(n: int16, rest: seq<byte>)
    ensures Decode(Str, Put16(n) + rest).Ok? <==> -1 <= n <= |rest|
    ensures Decode(NullableStr, Put16(n) + rest).Ok? <==> -1 <= n <= |rest|
  {
    hide Put16, Get16;
    Get16AfterPut16(n, rest);
    StringLength(Put16(n) + rest);
    hide GetStringLength;
  }

  lemma StringLength(s: seq<byte>)
    requires |s| >= 2
    ensures GetStringLength(s).Ok? <==> -1 <= Get16(s) <= |s| - 2
  {
    hide Get16;
  }

  /** Compact lengths are one more than the length; 0 is null where that is allowed. */
  lemma CompactLengths(u: uint64, rest: seq<byte>)
    requires |rest| < 0x7FFF_FFFF_FFFF_FFFF
    ensures var s := PutUvarint(u) + rest;
            && (Decode(CompactStr, s).Ok? <==> 1 <= u <= |rest| + 1)
            && (Decode(CompactNullableStr, s).Ok? <==> u <= |rest| + 1)
            && (u == 0 ==> Decode(CompactNullableStr, s) == Ok(StrPtr(None), |PutUvarint(u)|))
            && (GetCompactLength(s).Ok? <==> 1 <= u <= |rest| + 1)
            && (GetCompactNullableLength(s).Ok? <==> u <= |rest| + 1)
  {
    hide PutUvarint, ReadUvarint;
    ReadAfterPut(u, rest);
  }

  /** Data of tagged fields has its own length, and so do the fields together; none may be negative. */
  lemma TagLengths(u: uint64, rest: seq<byte>)
    requires |rest| < 0x7FFF_FFFF_FFFF_FFFF
    ensures var s := PutUvarint(u) + rest;
            && (GetVarintBytes(s).Ok? <==> u <= |rest| || u == 0xFFFF_FFFF_FFFF_FFFF)
            && (u == 0xFFFF_FFFF_FFFF_FFFF ==> GetVarintBytes(s) == Ok(None, |PutUvarint(u)|))
            && (u >= 0x8000_0000_0000_0000 ==> !Decode(TaggedFields, s).Ok?)
            && (u == 0 ==> Decode(TaggedFields, s) == Ok(TaggedV([]), |PutUvarint(u)|))
  {
    hide PutUvarint, ReadUvarint;
    ReadAfterPut(u, rest);
    assert DecodeTags(0, (PutUvarint(u) + rest)[|PutUvarint(u)|..]) == Ok([], 0);
  }

  // ---------------------------------------------------------------- messages

  /** A message with anything behind it is refused; no message at all gives no struct, and no struct no message. */
  lemma WholeMessages(ty: Ty, s: seq<byte>)
    ensures Decode(ty, s).Ok? && Decode(ty, s).n < |s| ==> DecodeSchema(Some(s), ty) == Failure(InvalidLength)
    ensures Decode(ty, s).Err? ==> DecodeSchema(Some(s), ty).Failure?
    ensures DecodeSchema(None, ty) == Success(None) && EncodeSchema(None, ty) == Success(None)
  {
    hide Decode, Measure, Emit;
  }

  // ---------------------------------------------------------------- values

  predicate IsArray(ty: Ty) {
    ty.Array? || ty.CompactArray? || ty.CompactNullableArray?
  }

  /** `v` has the form that schema `ty` asks for. The encoder does not look at the schema that a struct carries. */
  ghost predicate Fits(ty: Ty, v: Value)
    decreases ty
  {
    match v
    case Nil => ty.CompactNullableArray?
    case BoolV(_) => ty.Bool?
    case Int16V(_) => ty.Int16?
    case Int32V(_) => ty.Int32?
    case StrV(_) => ty.Str? || ty.CompactStr?
    case StrPtr(_) => ty.NullableStr? || ty.CompactNullableStr?
    case UuidV(_) => ty.Uuid?
    case TaggedV(_) => ty.TaggedFields?
    case ArrayV(vs) =>
      && IsArray(ty)
      && forall i | 0 <= i < |vs| :: Fits(ty.elem, vs[i])
    case StructV(_, vs) =>
      && ty.Struct? && |ty.fields| == |vs|
      && forall i | 0 <= i < |vs| :: Fits(ty.fields[i].ty, vs[i])
  }

  lemma FittingLeaf(ty: Ty, v: Value)
    requires !(v.ArrayV? && IsArray(ty)) && !(v.StructV? && ty.Struct?)
    ensures Emit(ty, v).ok <==> Fits(ty, v)
  {
    hide PutVarint, Put16, Put32, EmitTags, EmitElems, EmitFields;
  }

  lemma FittingArray(ty: Ty, vs: seq<Value>)
    requires IsArray(ty)
    ensures Emit(ty, ArrayV(vs)).ok <==> EmitElems(ty.elem, vs).ok
  {
    hide PutVarint, Put32, EmitElems;
  }

  /** Exactly those are encoded. */
  lemma {:induction false} OnlyFittingValues(ty: Ty, v: Value)
    ensures Emit(ty, v).ok <==> Fits(ty, v)
    decreases ty, 0
  {
    hide Emit;
    if v.ArrayV? && IsArray(ty) {
      FittingArray(ty, v.elems);
      FittingElements(ty.elem, v.elems);
    } else if v.StructV? && ty.Struct? {
      FittingStruct(ty, v);
      if |ty.fields| == |v.values| {
        FittingFields(ty.fields, v.values);
      }
    } else {
      FittingLeaf(ty, v);
    }
  }

  lemma FittingStruct(ty: Ty, v: Value)
    requires ty.Struct? && v.StructV?
    ensures Emit(ty, v).ok <==> |v.values| == |ty.fields| && EmitFields(ty.fields, v.values).ok
  {
    hide EmitFields;
  }

  lemma {:induction false} FittingElements(elem: Ty, vs: seq<Value>)
    ensures EmitElems(elem, vs).ok <==> forall i | 0 <= i < |vs| :: Fits(elem, vs[i])
    decreases elem, 1 + |vs|
  {
    hide Emit, Fits;
    if vs != [] {
      OnlyFittingValues(elem, vs[0]);
      FittingElements(elem, vs[1..]);
      assert vs == [vs[0]] + vs[1..];
    }
  }

  lemma {:induction false} FittingFields(fields: seq<Field>, vs: seq<Value>)
    requires |fields| == |vs|
    ensures EmitFields(fields, vs).ok <==> forall i | 0 <= i < |vs| :: Fits(fields[i].ty, vs[i])
    decreases fields, 0
  {
    hide Emit, Fits;
    if fields != [] {
      OnlyFittingValues(fields[0].ty, vs[0]);
      FittingFields(fields[1..], vs[1..]);
      assert vs == [vs[0]] + vs[1..] && fields == [fields[0]] + fields[1..];
    }
  }
}
