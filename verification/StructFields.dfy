/**
 Access to the fields of a struct by name, and what the rewriter refuses: structs that lack what it
 asks for, or hold something else there. The schemas of the protocol give no such structs.
 */
module StructFields {
  import opened Wrappers
  import opened Schema
  import opened Responses

  /** Values of one reflect.Kind. */
  predicate SameKind(v: Value, w: Value) {
    || (v.Nil? && w.Nil?) || (v.BoolV? && w.BoolV?) || (v.Int16V? && w.Int16V?) || (v.Int32V? && w.Int32V?)
    || (v.StrV? && w.StrV?) || (v.UuidV? && w.UuidV?)
    || ((v.StrPtr? || v.StructV?) && (w.StrPtr? || w.StructV?))
    || ((v.TaggedV? || v.ArrayV?) && (w.TaggedV? || w.ArrayV?))
  }

  predicate HasName(v: Value, name: string)
    requires v.StructV?
  {
    v.schema.Struct? && exists f | f in v.schema.fields :: f.name == name
  }

  /**
   A field is found under its name. `Replace` gives it a new value exactly if the old one is there and
   of the same kind, and leaves the other fields alone.
   */
  lemma ReplacesOneField(v: Value, k: nat, value: Value)
    requires v.StructV? && v.schema.Struct? && DistinctNames(v.schema.fields) && k < |v.schema.fields|
    ensures var name := v.schema.fields[k].name;
            var r := Replace(v, name, value);
            && Get(v, name) == (if k < |v.values| then v.values[k] else Nil)
            && (r.Success? <==> k < |v.values| && !value.Nil? && SameKind(v.values[k], value))
            && (value.Nil? ==> r == Failure(NewValueNil))
            && (r.Success? ==>
                  && r.value.StructV? && r.value.schema == v.schema && |r.value.values| == |v.values|
                  && forall i | 0 <= i < |v.values| ::
                       r.value.values[i] == if i == k then value else v.values[i])
  {
    var name := v.schema.fields[k].name;
    assert IndexOf(v.schema.fields, name) == k;
  }

  /** Other names stand for nothing. */
  lemma UnknownNames(v: Value, name: string, value: Value)
    requires v.StructV? && !HasName(v, name)
    ensures Get(v, name) == Nil && Replace(v, name, value).Failure?
  {
    assert FieldIndex(v, name) == -1;
  }

  /** No struct, no mapping, or a struct without the fields to rewrite: each is an error, and nothing is passed on. */
  lemma UnusableStructsAreRefused(kind: ResponseKind, v: Value, fn: Mapper)
    requires v.StructV?
    ensures Rewrite(kind, None, Some(fn)).Failure? && Rewrite(kind, Some(v), None).Failure?
    ensures kind == Metadata && !HasName(v, "brokers") ==> Rewrite(kind, Some(v), Some(fn)).Failure?
    ensures kind == FindCoordinator && !HasName(v, "coordinators") && !HasName(v, "coordinator") ==>
              Rewrite(kind, Some(v), Some(fn)).Failure?
    ensures !HasName(v, "host") || !HasName(v, "port") || !HasName(v, "node_id") ==> RewriteAddress(v, fn).Failure?
  {
    hide Get, Replace;
    UnknownName(v, "brokers");
    UnknownName(v, "coordinators");
    UnknownName(v, "coordinator");
    UnknownName(v, "host");
    UnknownName(v, "port");
    UnknownName(v, "node_id");
  }

  lemma UnknownName(v: Value, name: string)
    requires v.StructV?
    ensures !HasName(v, name) ==> Get(v, name) == Nil
  {
    if !HasName(v, name) {
      UnknownNames(v, name, Nil);
    }
  }

  /** An element that is no struct, or has one of these fields of another type, is an error too. */
  lemma {:induction false} UnusableElementsAreRefused(kind: ResponseKind, vs: seq<Value>, i: nat, fn: Mapper)
    requires i < |vs|
    requires !vs[i].StructV?
             || (kind == FindCoordinator && !Get(vs[i], "coordinator").StructV?)
             || (kind == Metadata && !(&& Get(vs[i], "host").StrV? && Get(vs[i], "port").Int32V?
                                       && Get(vs[i], "node_id").Int32V?))
    ensures RewriteElements(kind, vs, fn).Failure?
  {
    hide Get, Replace;
    if i > 0 {
      UnusableElementsAreRefused(kind, vs[1..], i - 1, fn);
    }
  }
}
