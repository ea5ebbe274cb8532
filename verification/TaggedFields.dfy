/**
 The holder of tagged fields in flexible messages: its decode assigns what the schema node
 decodes, its encode drives either encoder with what it holds.
 */
module TaggedFieldsHolder {
  import opened Wrappers
  import Varint
  import opened Schema
  import opened SchemaTheorems
  import opened RealDecoding
  import opened Encoding

  class TaggedFields {
    var values: TagSlice

    constructor ()
      ensures values == []
    {
      values := [];
    }

    /** On an error the fields held before stay. */
    method Decode(pd: RealDecoder) returns (err: Option<DecodeError>)
      requires pd.Valid()
      modifies this, pd
      ensures pd.Valid()
      ensures var d := DecodeTagged(old(pd.Rest()));
              && pd.off == old(pd.off) + d.n
              && (err.None? <==> d.Ok?)
              && values == if d.Ok? then d.value else old(values)
    {
      hide DecodeTagged;
      var r := DecodeTaggedFields(pd);
      if r.Failure? {
        return Some(r.error);
      }
      values := r.value;
      return None;
    }

    method Measure(pe: PrepEncoder) returns (ok: bool)
      modifies pe
      ensures Measurement(pe.length, ok)
              == Plus(old(pe.length), Plus(|Varint.PutVarint(|values|)|, MeasureTags(values)))
    {
      ok := pe.PutTaggedFields(values);
    }

    method Write(re: RealEncoder)
      requires re.Valid() && re.off + |Varint.PutVarint(|values|) + EmitTags(values)| <= re.raw.Length
      modifies re, re.raw
      ensures re.Valid() && re.Written() == old(re.Written()) + (Varint.PutVarint(|values|) + EmitTags(values))
    {
      re.PutTaggedFields(values);
    }
  }

  /** Both passes of Encode, and Decode of the bytes into another holder: it then holds the same. */
  method EncodeAndDecode(from: TaggedFields, to: TaggedFields) returns (ok: bool)
    requires from != to
    modifies to
    ensures ok <==> && MeasureTags(from.values).ok
                    && |Varint.PutVarint(|from.values|)| + MeasureTags(from.values).n <= MAX_REQUEST_SIZE
    ensures ok ==> to.values == from.values
  {
    hide MeasureTags, EmitTags, DecodeTagged, Varint.PutVarint;
    var prep := new PrepEncoder();
    ok := from.Measure(prep);
    if !ok || prep.length > MAX_REQUEST_SIZE {
      return false;
    }
    TagsAgree(from.values);
    TaggedReadBack(from.values, []);
    ghost var bytes := Varint.PutVarint(|from.values|) + EmitTags(from.values);
    assert bytes + [] == bytes;
    var writer := new RealEncoder(prep.length);
    assert writer.Written() == [];
    from.Write(writer);
    assert writer.raw[..] == writer.Written() == bytes;
    var reader := new RealDecoder(writer.raw[..]);
    assert reader.Rest() == bytes;
    var err := to.Decode(reader);
    return err.None? && reader.off == |reader.raw|;
  }
}
