/** The limits of the codec and of the handlers, as numbers, and what it makes of lengths that mean nothing. */
module Limits {
  import opened Wrappers
  import opened Bytes
  import opened Schema
  import opened SchemaTheorems
  import Processor

  /** Plain arrays are read up to 131070 elements, and no further than the input may hold; -1 and less is empty. */
  lemma ArrayLengths(elem: Ty, n: int32, rest: seq<byte>)
    ensures n >= 0 ==> (GetArrayLength(Put32(n) + rest).Ok? <==> n <= |rest| && n <= 131070)
    ensures n < 0 ==> Decode(Array(elem), Put32(n) + rest) == Ok(ArrayV([]), 4)
  {
    hide Put32, Get32, Decode;
    var s := Put32(n) + rest;
    Get32AfterPut32(n, rest);
    if n < 0 {
      EmptyArray(elem, s);
    }
  }

  lemma EmptyArray(elem: Ty, s: seq<byte>)
    requires |s| >= 4 && Get32(s) < 0
    ensures Decode(Array(elem), s) == Ok(ArrayV([]), 4)
  {
    hide Get32;
    assert DecodeElems(elem, 0, s[4..]) == Ok([], 0);
  }

  /** A string of length -1 is read as the empty one where null is not allowed. */
  lemma NullStringIsEmpty(rest: seq<byte>)
    ensures Decode(Str, Put16(-1) + rest) == Ok(StrV([]), 2)
    ensures Decode(NullableStr, Put16(-1) + rest) == Ok(StrPtr(None), 2)
  {
    hide Put16, Get16;
    Get16AfterPut16(-1, rest);
  }

  /** Strings are written up to 32767 bytes, of either kind. */
  lemma StringsAreWritten(s: seq<byte>)
    ensures Measure(Str, StrV(s)).ok <==> |s| <= 32767
    ensures Measure(CompactStr, StrV(s)).ok <==> |s| <= 32767
    ensures Measure(NullableStr, StrPtr(Some(s))).ok <==> |s| <= 32767
    ensures Measure(CompactNullableStr, StrPtr(Some(s))).ok <==> |s| <= 32767
  {
  }

  /** Compact arrays are written up to 32767 elements, if those can be written. */
  lemma CompactArraysAreWritten(elem: Ty, vs: seq<Value>)
    ensures Measure(CompactArray(elem), ArrayV(vs)).ok <==> |vs| <= 32767 && MeasureElems(elem, vs).ok
    ensures Measure(CompactNullableArray(elem), ArrayV(vs)).ok <==> |vs| <= 32767 && MeasureElems(elem, vs).ok
  {
    hide MeasureElems;
  }

  /** Messages are written up to 100 MiB. */
  lemma MessagesAreWritten(ty: Ty, v: Value)
    ensures var out := EncodeSchema(Some(v), ty);
            out == if !Emit(ty, v).ok || !WithinEncodeLimits(ty, v) then Failure(EncodeFailed)
                   else if |Emit(ty, v).bytes| > 104857600 then Failure(InvalidRequestSize(|Emit(ty, v).bytes|))
                   else Success(Some(Emit(ty, v).bytes))
  {
    hide Measure, Emit, WithinEncodeLimits;
    TwoPassAgreement(ty, v);
  }

  /** A raw token is taken up to 100 MiB, and for what its length field says, unsigned. */
  lemma RawTokens(n: int32, rest: seq<byte>)
    ensures var head := Processor.ParseRawHead(Put32(n) + rest);
            && (head.Some? <==> n <= 104857600)
            && (head.Some? ==>
                  head.value.r.bytes == Put32(n) && head.value.left == if n < 0 then n + 4294967296 else n)
  {
    hide Put32, Get32;
    Get32AfterPut32(n, rest);
    assert (Put32(n) + rest)[..4] == Put32(n);
  }
}
