/**
 What rewriting a Metadata or FindCoordinator response guarantees: the bytes that come out
 decode to the struct that came in, with nothing changed but the host and port of each
 broker that has an address, which are those of the mapping.
 */
module ResponseTheorems {
  import opened Wrappers
  import opened Bytes
  import opened Schema
  import opened SchemaTheorems
  import opened Responses

  // ---------------------------------------------------------------- shapes of the schemas

  /** A struct with a host, a port and a node id of the types the rewriter asserts. */
  predicate AddressTy(ty: Ty) {
    && ty.Struct?
    && var h, p, n := IndexOf(ty.fields, HOST), IndexOf(ty.fields, PORT), IndexOf(ty.fields, NODE_ID);
       && h >= 0 && p >= 0 && n >= 0
       && (ty.fields[h].ty.Str? || ty.fields[h].ty.CompactStr?)
       && ty.fields[p].ty.Int32? && ty.fields[n].ty.Int32?
  }

  predicate CoordinatorTy(ty: Ty) {
    && ty.Struct?
    && var i := IndexOf(ty.fields, COORDINATOR);
       i >= 0 && AddressTy(ty.fields[i].ty)
  }

  predicate MetadataTy(ty: Ty) {
    && ty.Struct?
    && var i := IndexOf(ty.fields, BROKERS);
       && i >= 0 && (ty.fields[i].ty.Array? || ty.fields[i].ty.CompactArray?) && AddressTy(ty.fields[i].ty.elem)
  }

  predicate FindCoordinatorTy(ty: Ty) {
    && ty.Struct?
    && var i := IndexOf(ty.fields, COORDINATORS);
       if i == -1 then CoordinatorTy(ty)
       else (ty.fields[i].ty.Array? || ty.fields[i].ty.CompactArray?) && CoordinatorTy(ty.fields[i].ty.elem)
  }

  predicate ShapeOf(kind: ResponseKind, ty: Ty) {
    && WideElements(ty)
    && if kind == Metadata then MetadataTy(ty) else FindCoordinatorTy(ty)
  }

  lemma AddressFirst(ty: Ty)
    requires ty.Struct? && |ty.fields| >= 3
    requires ty.fields[0] == Field(NODE_ID, Int32) && ty.fields[2] == Field(PORT, Int32)
    requires ty.fields[1] == Field(HOST, Str) || ty.fields[1] == Field(HOST, CompactStr)
    ensures AddressTy(ty)
  {
    assert HOST[0] != PORT[0];
    assert IndexOf(ty.fields, NODE_ID) == 0 && IndexOf(ty.fields, HOST) == 1;
    assert IndexOf(ty.fields[1..], PORT) == 1;
  }

  lemma BrokerShapes()
    ensures AddressTy(MetadataBrokerV0()) && AddressTy(MetadataBrokerV1()) && AddressTy(MetadataBrokerSchema9())
  {
    hide AddressTy;
    AddressFirst(MetadataBrokerV0());
    AddressFirst(MetadataBrokerV1());
    AddressFirst(MetadataBrokerSchema9());
  }

  lemma CoordinatorBrokerShapes()
    ensures AddressTy(FindCoordinatorBrokerV0()) && AddressTy(FindCoordinatorBrokerSchema9())
  {
    hide AddressTy;
    AddressFirst(FindCoordinatorBrokerV0());
    AddressFirst(FindCoordinatorBrokerSchema9());
  }

  lemma CoordinatorShape()
    ensures CoordinatorTy(FindCoordinatorCoordinatorsSchema4())
  {
    CoordinatorBrokerShapes();
    hide FindCoordinatorBrokerSchema9;
    assert IndexOf(FindCoordinatorCoordinatorsSchema4().fields, COORDINATOR) == 1;
  }

  lemma BrokersWide()
    ensures WideElements(MetadataBrokerV0()) && Wide(MetadataBrokerV0())
    ensures WideElements(MetadataBrokerV1()) && Wide(MetadataBrokerV1())
    ensures WideElements(MetadataBrokerSchema9()) && Wide(MetadataBrokerSchema9())
  {
    assert Wide(MetadataBrokerV0().fields[0].ty);
    assert Wide(MetadataBrokerV1().fields[0].ty);
    assert Wide(MetadataBrokerSchema9().fields[0].ty);
  }

  lemma CoordinatorsWide()
    ensures WideElements(FindCoordinatorBrokerV0()) && WideElements(FindCoordinatorBrokerSchema9())
    ensures WideElements(FindCoordinatorCoordinatorsSchema4()) && Wide(FindCoordinatorCoordinatorsSchema4())
  {
    assert Wide(FindCoordinatorCoordinatorsSchema4().fields[0].ty);
  }

  lemma PartitionsWide(version: nat)
    ensures WideElements(PartitionMetadata(version)) && Wide(PartitionMetadata(version))
  {
    assert Wide(PartitionMetadata(version).fields[0].ty);
  }

  lemma TopicsWide(version: nat)
    ensures WideElements(TopicMetadata(version)) && Wide(TopicMetadata(version))
  {
    hide PartitionMetadata, WideElements;
    PartitionsWide(version);
    ArrayWide(PartitionMetadata(version));
    LeavesWide();
    StructWide(TopicMetadata(version).name, TopicMetadata(version).fields);
    assert Wide(TopicMetadata(version).fields[0].ty);
  }

  lemma ArrayWide(elem: Ty)
    requires WideElements(elem) && Wide(elem)
    ensures WideElements(Array(elem)) && WideElements(CompactArray(elem))
  {
  }

  lemma LeavesWide()
    ensures WideElements(Int16) && WideElements(Int32) && WideElements(TaggedFields)
    ensures WideElements(NullableStr) && WideElements(CompactNullableStr)
    ensures WideElements(Str) && WideElements(CompactStr) && WideElements(Bool) && WideElements(Uuid)
  {
  }

  lemma StructWide(name: string, fields: seq<Field>)
    requires forall i | 0 <= i < |fields| :: WideElements(fields[i].ty)
    ensures WideElements(Struct(name, fields))
  {
  }

  lemma MetadataWide(version: nat)
    requires version < METADATA_VERSIONS
    ensures WideElements(MetadataSchema(version))
  {
    hide PartitionMetadata, TopicMetadata, MetadataBrokerV0, MetadataBrokerV1;
    hide MetadataBrokerSchema9, WideElements, Wide;
    TopicsWide(version);
    BrokersWide();
    ArrayWide(MetadataBrokerV0());
    ArrayWide(MetadataBrokerV1());
    ArrayWide(MetadataBrokerSchema9());
    ArrayWide(TopicMetadata(version));
    LeavesWide();
    StructWide("metadata_response", MetadataFields(version));
  }

  lemma FindCoordinatorWide(version: nat)
    requires version < FIND_COORDINATOR_VERSIONS
    ensures WideElements(FindCoordinatorSchema(version))
  {
    hide FindCoordinatorBrokerV0, FindCoordinatorBrokerSchema9, FindCoordinatorCoordinatorsSchema4, WideElements, Wide;
    CoordinatorsWide();
    ArrayWide(FindCoordinatorCoordinatorsSchema4());
    LeavesWide();
    StructWide("find_coordinator_response", FindCoordinatorFields(version));
  }

  /** All 14 Metadata versions have the shape the rewriter relies on. */
  lemma MetadataShapes(version: nat)
    requires version < METADATA_VERSIONS
    ensures ShapeOf(Metadata, MetadataSchema(version))
  {
    hide TopicMetadata, MetadataBrokerV0, MetadataBrokerV1, MetadataBrokerSchema9, WideElements, AddressTy;
    MetadataWide(version);
    BrokerShapes();
    BrokersIndex(version);
  }

  lemma BrokersIndex(version: nat)
    requires version < METADATA_VERSIONS
    ensures IndexOf(MetadataFields(version), BROKERS) == if version <= 2 then 0 else 1
  {
    hide TopicMetadata, MetadataBrokerV0, MetadataBrokerV1, MetadataBrokerSchema9;
  }

  lemma FindCoordinatorIndices(version: nat)
    requires version < FIND_COORDINATOR_VERSIONS
    ensures IndexOf(FindCoordinatorFields(version), COORDINATORS) == if version <= 3 then -1 else 1
    ensures version <= 3 ==> IndexOf(FindCoordinatorFields(version), COORDINATOR) == if version == 0 then 1 else 3
  {
    hide FindCoordinatorBrokerV0, FindCoordinatorBrokerSchema9, FindCoordinatorCoordinatorsSchema4;
    if version == 0 {
    } else if version <= 2 {
    } else if version == 3 {
    } else {
    }
  }

  /** So have all 7 FindCoordinator versions. */
  lemma FindCoordinatorShapes(version: nat)
    requires version < FIND_COORDINATOR_VERSIONS
    ensures ShapeOf(FindCoordinator, FindCoordinatorSchema(version))
  {
    hide FindCoordinatorBrokerV0, FindCoordinatorBrokerSchema9, FindCoordinatorCoordinatorsSchema4;
    hide WideElements, AddressTy;
    FindCoordinatorWide(version);
    CoordinatorBrokerShapes();
    CoordinatorShape();
    FindCoordinatorIndices(version);
  }

  // ---------------------------------------------------------------- which responses are rewritten

  /** Metadata up to version 13 and FindCoordinator up to version 6. */
  predicate Supported(apiKey: int, apiVersion: int) {
    (apiKey == 3 && 0 <= apiVersion <= 13) || (apiKey == 10 && 0 <= apiVersion <= 6)
  }

  function ModifierFor(apiKey: int, apiVersion: int): Modifier
    requires Supported(apiKey, apiVersion)
  {
    if apiKey == 3 then Modifier(Metadata, MetadataSchema(apiVersion))
    else Modifier(FindCoordinator, FindCoordinatorSchema(apiVersion))
  }

  /** These and no others; other versions of the two are refused, other keys left alone. */
  lemma ModifierIsChosen(apiKey: int16, apiVersion: int16)
    ensures ResponseModifier(apiKey, apiVersion)
            == if Supported(apiKey, apiVersion) then Success(Some(ModifierFor(apiKey, apiVersion)))
               else if apiKey == 3 || apiKey == 10 then Failure(())
               else Success(None)
  {
  }

  // ---------------------------------------------------------------- names in the schemas

  /** No struct anywhere in the schema declares a field twice, so NewSchema builds it without a panic. */
  predicate Builds(ty: Ty) {
    match ty
    case Array(elem) => Builds(elem)
    case CompactArray(elem) => Builds(elem)
    case CompactNullableArray(elem) => Builds(elem)
    case Struct(_, fields) => DistinctNames(fields) && forall i | 0 <= i < |fields| :: Builds(fields[i].ty)
    case _ => true
  }

  lemma StructBuilds(name: string, fields: seq<Field>)
    requires DistinctNames(fields) && forall i | 0 <= i < |fields| :: Builds(fields[i].ty)
    ensures Builds(Struct(name, fields))
  {
  }

  lemma ArrayBuilds(elem: Ty)
    requires Builds(elem)
    ensures Builds(Array(elem)) && Builds(CompactArray(elem))
  {
  }

  lemma LeavesBuild()
    ensures Builds(Bool) && Builds(Int16) && Builds(Int32) && Builds(Uuid) && Builds(TaggedFields)
    ensures Builds(Str) && Builds(NullableStr) && Builds(CompactStr) && Builds(CompactNullableStr)
  {
  }

  lemma PartitionNamesDistinct(version: nat)
    ensures DistinctNames(PartitionMetadata(version).fields)
  {
    if version <= 4 {
    } else if version <= 6 {
    } else if version <= 8 {
    } else {
    }
  }

  lemma PartitionBuilds(version: nat)
    ensures Builds(PartitionMetadata(version))
  {
    hide Builds, DistinctNames;
    PartitionNamesDistinct(version);
    LeavesBuild();
    ArrayBuilds(Int32);
    StructBuilds(PartitionMetadata(version).name, PartitionMetadata(version).fields);
  }

  lemma TopicNamesDistinct(version: nat)
    ensures DistinctNames(TopicMetadata(version).fields)
  {
    hide PartitionMetadata;
    if version == 0 {
    } else if version <= 7 {
    } else if version == 8 {
    } else if version == 9 {
    } else {
    }
  }

  lemma TopicBuilds(version: nat)
    ensures Builds(TopicMetadata(version))
  {
    hide PartitionMetadata, Builds, DistinctNames;
    TopicNamesDistinct(version);
    LeavesBuild();
    PartitionBuilds(version);
    ArrayBuilds(PartitionMetadata(version));
    StructBuilds(TopicMetadata(version).name, TopicMetadata(version).fields);
  }

  lemma MetadataBrokersBuild()
    ensures Builds(MetadataBrokerV0()) && Builds(MetadataBrokerV1()) && Builds(MetadataBrokerSchema9())
  {
    assert HOST[0] != PORT[0] && "rack"[0] != PORT[0] && "rack"[0] != HOST[0];
    LeavesBuild();
  }

  lemma CoordinatorsBuild()
    ensures Builds(FindCoordinatorBrokerV0()) && Builds(FindCoordinatorBrokerSchema9())
    ensures Builds(FindCoordinatorCoordinatorsSchema4())
  {
    assert HOST[0] != PORT[0];
    LeavesBuild();
    hide FindCoordinatorBrokerSchema9;
    assert DistinctNames(FindCoordinatorCoordinatorsSchema4().fields);
  }

  lemma MetadataNamesDistinct(version: nat)
    requires version < METADATA_VERSIONS
    ensures DistinctNames(MetadataFields(version))
  {
    hide TopicMetadata, MetadataBrokerV0, MetadataBrokerV1, MetadataBrokerSchema9;
    assert "cluster_id"[1] != "error_code"[1];
  }

  lemma MetadataBuilds(version: nat)
    requires version < METADATA_VERSIONS
    ensures Builds(MetadataSchema(version))
  {
    hide TopicMetadata, MetadataBrokerV0, MetadataBrokerV1, MetadataBrokerSchema9, Builds, DistinctNames;
    MetadataNamesDistinct(version);
    LeavesBuild();
    TopicBuilds(version);
    MetadataBrokersBuild();
    ArrayBuilds(TopicMetadata(version));
    ArrayBuilds(MetadataBrokerV0());
    ArrayBuilds(MetadataBrokerV1());
    ArrayBuilds(MetadataBrokerSchema9());
    StructBuilds("metadata_response", MetadataFields(version));
  }

  lemma FindCoordinatorNamesDistinct(version: nat)
    requires version < FIND_COORDINATOR_VERSIONS
    ensures DistinctNames(FindCoordinatorFields(version))
  {
    hide FindCoordinatorBrokerV0, FindCoordinatorBrokerSchema9, FindCoordinatorCoordinatorsSchema4;
  }

  lemma FindCoordinatorBuilds(version: nat)
    requires version < FIND_COORDINATOR_VERSIONS
    ensures Builds(FindCoordinatorSchema(version))
  {
    hide FindCoordinatorBrokerV0, FindCoordinatorBrokerSchema9, FindCoordinatorCoordinatorsSchema4;
    hide Builds, DistinctNames;
    FindCoordinatorNamesDistinct(version);
    LeavesBuild();
    CoordinatorsBuild();
    ArrayBuilds(FindCoordinatorCoordinatorsSchema4());
    StructBuilds("find_coordinator_response", FindCoordinatorFields(version));
  }

  /** Each of the 21 schemas, down to the last nested struct. */
  lemma SchemasBuild(apiKey: int16, apiVersion: int16)
    requires Supported(apiKey, apiVersion)
    ensures Builds(ModifierFor(apiKey, apiVersion).ty)
  {
    hide MetadataSchema, FindCoordinatorSchema, Builds;
    if apiKey == 3 {
      MetadataBuilds(apiVersion);
    } else {
      FindCoordinatorBuilds(apiVersion);
    }
  }

  // ---------------------------------------------------------------- what rewriting changes

  ghost predicate HasAddress(b: Value) {
    && b.StructV?
    && Get(b, HOST).StrV? && Get(b, PORT).Int32V? && Get(b, NODE_ID).Int32V?
  }

  /** A broker without an address, such as a coordinator that is not available, is left alone. */
  ghost predicate Eligible(b: Value)
    requires HasAddress(b)
  {
    Get(b, HOST).s != [] || Get(b, PORT).i32 > 0
  }

  ghost function Mapped(b: Value, fn: Mapper): Result<(Host, int32), ()>
    requires HasAddress(b)
  {
    fn(Get(b, HOST).s, Get(b, PORT).i32, Get(b, NODE_ID).i32)
  }

  ghost predicate AddressMapped(b: Value, fn: Mapper) {
    HasAddress(b) && (Eligible(b) ==> Mapped(b, fn).Success?)
  }

  ghost predicate CoordinatorMapped(c: Value, fn: Mapper) {
    c.StructV? && AddressMapped(Get(c, COORDINATOR), fn)
  }

  lemma AddressIsStruct(b: Value)
    requires HasAddress(b)
    ensures b.StructV?
  {
  }

  /** `w` is `v` with nothing changed but, possibly, the named fields. */
  ghost predicate SameExcept(v: Value, w: Value, names: set<string>) {
    && v.StructV? && w.StructV? && w.schema == v.schema && |w.values| == |v.values|
    && forall i | 0 <= i < |v.values| && w.values[i] != v.values[i] ::
         exists name | name in names :: i == FieldIndex(v, name)
  }

  /** `c` is broker `b` under its advertised address. */
  ghost predicate Readdressed(b: Value, c: Value, fn: Mapper) {
    && HasAddress(b)
    && SameExcept(b, c, {HOST, PORT})
    && if Eligible(b)
       then
         && Mapped(b, fn).Success?
         && Get(c, HOST) == StrV(Mapped(b, fn).value.0) && Get(c, PORT) == Int32V(Mapped(b, fn).value.1)
       else c == b
  }

  ghost predicate CoordinatorReaddressed(v: Value, w: Value, fn: Mapper) {
    SameExcept(v, w, {COORDINATOR}) && Readdressed(Get(v, COORDINATOR), Get(w, COORDINATOR), fn)
  }

  /** The whole of what a rewritten response may differ in. */
  ghost predicate ResponseReaddressed(kind: ResponseKind, v: Value, w: Value, fn: Mapper) {
    && v.StructV? && w.StructV?
    && if kind == Metadata then
         && SameExcept(v, w, {BROKERS})
         && var bs, cs := Get(v, BROKERS), Get(w, BROKERS);
            && bs.ArrayV? && cs.ArrayV? && |bs.elems| == |cs.elems|
            && forall i | 0 <= i < |bs.elems| :: Readdressed(bs.elems[i], cs.elems[i], fn)
       else if FieldIndex(v, COORDINATORS) == -1 then CoordinatorReaddressed(v, w, fn)
       else
         && SameExcept(v, w, {COORDINATORS})
         && var bs, cs := Get(v, COORDINATORS), Get(w, COORDINATORS);
            && bs.ArrayV? && cs.ArrayV? && |bs.elems| == |cs.elems|
            && forall i | 0 <= i < |bs.elems| :: CoordinatorReaddressed(bs.elems[i], cs.elems[i], fn)
  }

  ghost predicate Wellformed(ty: Ty, v: Value) {
    Typed(ty, v) && WithinArrayLimit(ty, v)
  }

  lemma PutKeeps(ty: Ty, v: Value, name: string, x: Value)
    requires ty.Struct? && Wellformed(ty, v)
    requires IndexOf(ty.fields, name) >= 0 && Wellformed(ty.fields[IndexOf(ty.fields, name)].ty, x)
    ensures var w := Put(v, name, x);
            && Wellformed(ty, w) && w.StructV? && Get(w, name) == x && SameExcept(v, w, {name})
            && w.values == v.values[IndexOf(ty.fields, name) := x]
  {
    hide IndexOf;
  }

  lemma FieldWellformed(ty: Ty, v: Value, name: string)
    requires ty.Struct? && Wellformed(ty, v) && IndexOf(ty.fields, name) >= 0
    ensures Wellformed(ty.fields[IndexOf(ty.fields, name)].ty, Get(v, name))
    ensures FieldIndex(v, name) == IndexOf(ty.fields, name) < |v.values|
  {
    hide IndexOf;
  }

  lemma AddressTyped(ty: Ty, b: Value)
    requires AddressTy(ty) && Wellformed(ty, b)
    ensures HasAddress(b)
    ensures var h, p, n := FieldIndex(b, HOST), FieldIndex(b, PORT), FieldIndex(b, NODE_ID);
            && 0 <= h < |b.values| && 0 <= p < |b.values| && 0 <= n < |b.values|
            && h != p && h != n && p != n
            && Get(b, HOST) == b.values[h] && Get(b, PORT) == b.values[p] && Get(b, NODE_ID) == b.values[n]
  {
    hide IndexOf;
    assert HOST[0] != PORT[0] && |NODE_ID| != |HOST|;
    FieldWellformed(ty, b, HOST);
    FieldWellformed(ty, b, PORT);
    FieldWellformed(ty, b, NODE_ID);
  }

  /** Rewriting one broker fails only with the mapping, and changes just its address. */
  lemma AddressRewritten(ty: Ty, b: Value, fn: Mapper)
    requires AddressTy(ty) && Wellformed(ty, b)
    ensures HasAddress(b)
    ensures RewriteAddress(b, fn).Success? <==> AddressMapped(b, fn)
    ensures var r := RewriteAddress(b, fn);
            r.Success? ==> Readdressed(b, r.value, fn) && Wellformed(ty, r.value)
  {
    hide IndexOf, RewriteAddress, Addressed;
    AddressTyped(ty, b);
    RewritingIsAddressing(ty, b, fn);
    if Eligible(b) && Mapped(b, fn).Success? {
      AddressedKeeps(ty, b, Mapped(b, fn).value);
    }
  }

  lemma AddressedKeeps(ty: Ty, b: Value, to: (Host, int32))
    requires AddressTy(ty) && Wellformed(ty, b)
    ensures HasAddress(b) && SameExcept(b, Addressed(b, to), {HOST, PORT}) && Wellformed(ty, Addressed(b, to))
    ensures Get(Addressed(b, to), HOST) == StrV(to.0) && Get(Addressed(b, to), PORT) == Int32V(to.1)
  {
    hide IndexOf;
    AddressTyped(ty, b);
    PutKeeps(ty, b, HOST, StrV(to.0));
    PutKeeps(ty, Put(b, HOST, StrV(to.0)), PORT, Int32V(to.1));
  }

  lemma {:induction false} AddressesRewritten(ty: Ty, vs: seq<Value>, fn: Mapper)
    requires AddressTy(ty) && forall i | 0 <= i < |vs| :: Wellformed(ty, vs[i])
    ensures forall i | 0 <= i < |vs| :: HasAddress(vs[i])
    ensures var r := RewriteAddresses(vs, fn);
            && (r.Success? <==> forall i | 0 <= i < |vs| :: AddressMapped(vs[i], fn))
            && (r.Success? ==>
                  && |r.value| == |vs|
                  && forall i | 0 <= i < |vs| :: Readdressed(vs[i], r.value[i], fn) && Wellformed(ty, r.value[i]))
  {
    hide AddressTy, Wellformed, RewriteAddress, Readdressed, AddressMapped, HasAddress;
    if vs != [] {
      AddressRewritten(ty, vs[0], fn);
      AddressIsStruct(vs[0]);
      assert forall i | 0 <= i < |vs[1..]| :: vs[1..][i] == vs[i + 1];
      AddressesRewritten(ty, vs[1..], fn);
      assert forall i | 0 < i < |vs| :: vs[i] == vs[1..][i - 1];
    }
  }

  /** Every address the rewriter looks at has a mapping. */
  ghost predicate AllMapped(kind: ResponseKind, v: Value, fn: Mapper) {
    && v.StructV?
    && if kind == Metadata then
         var b := Get(v, BROKERS);
         b.ArrayV? && forall i | 0 <= i < |b.elems| :: AddressMapped(b.elems[i], fn)
       else if FieldIndex(v, COORDINATORS) == -1 then CoordinatorMapped(v, fn)
       else
         var c := Get(v, COORDINATORS);
         c.ArrayV? && forall i | 0 <= i < |c.elems| :: CoordinatorMapped(c.elems[i], fn)
  }

  lemma CoordinatorRewritten(ty: Ty, v: Value, fn: Mapper)
    requires CoordinatorTy(ty) && Wellformed(ty, v)
    ensures v.StructV?
    ensures RewriteCoordinator(v, fn).Success? <==> CoordinatorMapped(v, fn)
    ensures var r := RewriteCoordinator(v, fn);
            r.Success? ==> r.value.StructV? && CoordinatorReaddressed(v, r.value, fn) && Wellformed(ty, r.value)
  {
    hide IndexOf, Readdressed, RewriteAddress, AddressTy, AddressMapped;
    FieldWellformed(ty, v, COORDINATOR);
    var at := ty.fields[IndexOf(ty.fields, COORDINATOR)].ty;
    var c := Get(v, COORDINATOR);
    AddressRewritten(at, c, fn);
    var r := RewriteAddress(c, fn);
    if r.Success? {
      PutKeeps(ty, v, COORDINATOR, r.value);
    }
  }

  lemma {:induction false} CoordinatorsRewritten(ty: Ty, vs: seq<Value>, fn: Mapper)
    requires CoordinatorTy(ty) && forall i | 0 <= i < |vs| :: Wellformed(ty, vs[i])
    ensures var r := RewriteCoordinators(vs, fn);
            && (r.Success? <==> forall i | 0 <= i < |vs| :: CoordinatorMapped(vs[i], fn))
            && (r.Success? ==>
                  && |r.value| == |vs|
                  && forall i | 0 <= i < |vs| ::
                     CoordinatorReaddressed(vs[i], r.value[i], fn) && Wellformed(ty, r.value[i]))
  {
    hide CoordinatorTy, Wellformed, RewriteCoordinator, CoordinatorReaddressed, CoordinatorMapped;
    if vs != [] {
      CoordinatorRewritten(ty, vs[0], fn);
      assert forall i | 0 <= i < |vs[1..]| :: vs[1..][i] == vs[i + 1];
      CoordinatorsRewritten(ty, vs[1..], fn);
      assert forall i | 0 < i < |vs| :: vs[i] == vs[1..][i - 1];
    }
  }

  lemma ElementsWellformed(ty: Ty, v: Value)
    requires (ty.Array? || ty.CompactArray?) && Wellformed(ty, v)
    ensures v.ArrayV? && forall i | 0 <= i < |v.elems| :: Wellformed(ty.elem, v.elems[i])
  {
  }

  lemma SameLengthWellformed(ty: Ty, v: Value, ws: seq<Value>)
    requires (ty.Array? || ty.CompactArray?) && Wellformed(ty, v) && v.ArrayV?
    requires |ws| == |v.elems| && forall i | 0 <= i < |ws| :: Wellformed(ty.elem, ws[i])
    ensures Wellformed(ty, ArrayV(ws))
  {
  }

  lemma StructWellformed(ty: Ty, v: Value)
    requires ty.Struct? && Wellformed(ty, v)
    ensures v.StructV? && v.schema == ty
  {
  }

  lemma MetadataRewritten(ty: Ty, v: Value, fn: Mapper)
    requires MetadataTy(ty) && Wellformed(ty, v)
    ensures v.StructV?
    ensures RewriteMetadata(v, fn).Success? <==> AllMapped(Metadata, v, fn)
    ensures var r := RewriteMetadata(v, fn);
            r.Success? ==> ResponseReaddressed(Metadata, v, r.value, fn) && Wellformed(ty, r.value)
  {
    hide IndexOf, Readdressed, RewriteAddresses, AddressTy, AddressMapped, HasAddress, Wellformed, SameExcept, Put;
    StructWellformed(ty, v);
    FieldWellformed(ty, v, BROKERS);
    var at := ty.fields[IndexOf(ty.fields, BROKERS)].ty;
    ElementsWellformed(at, Get(v, BROKERS));
    AddressesRewritten(at.elem, Get(v, BROKERS).elems, fn);
    var r := RewriteAddresses(Get(v, BROKERS).elems, fn);
    if r.Success? {
      SameLengthWellformed(at, Get(v, BROKERS), r.value);
      PutKeeps(ty, v, BROKERS, ArrayV(r.value));
    }
  }

  lemma FindCoordinatorRewritten(ty: Ty, v: Value, fn: Mapper)
    requires FindCoordinatorTy(ty) && Wellformed(ty, v)
    ensures v.StructV?
    ensures RewriteFindCoordinator(v, fn).Success? <==> AllMapped(FindCoordinator, v, fn)
    ensures var r := RewriteFindCoordinator(v, fn);
            r.Success? ==> ResponseReaddressed(FindCoordinator, v, r.value, fn) && Wellformed(ty, r.value)
  {
    hide IndexOf, CoordinatorReaddressed, CoordinatorMapped, CoordinatorTy, RewriteCoordinator;
    hide RewriteCoordinators, Wellformed, SameExcept, Put;
    StructWellformed(ty, v);
    if IndexOf(ty.fields, COORDINATORS) == -1 {
      CoordinatorRewritten(ty, v, fn);
    } else {
      FieldWellformed(ty, v, COORDINATORS);
      var at := ty.fields[IndexOf(ty.fields, COORDINATORS)].ty;
      ElementsWellformed(at, Get(v, COORDINATORS));
      CoordinatorsRewritten(at.elem, Get(v, COORDINATORS).elems, fn);
      var r := RewriteCoordinators(Get(v, COORDINATORS).elems, fn);
      if r.Success? {
        SameLengthWellformed(at, Get(v, COORDINATORS), r.value);
        PutKeeps(ty, v, COORDINATORS, ArrayV(r.value));
      }
    }
  }

  /** Rewriting a decoded response fails just when some address has no mapping. */
  lemma ResponseRewritten(kind: ResponseKind, ty: Ty, v: Value, fn: Mapper)
    requires ShapeOf(kind, ty) && Wellformed(ty, v)
    ensures v.StructV?
    ensures Rewrite(kind, Some(v), Some(fn)).Success? <==> AllMapped(kind, v, fn)
    ensures var r := Rewrite(kind, Some(v), Some(fn));
            r.Success? ==> ResponseReaddressed(kind, v, r.value, fn) && Wellformed(ty, r.value)
  {
    if kind == Metadata {
      MetadataRewritten(ty, v, fn);
    } else {
      FindCoordinatorRewritten(ty, v, fn);
    }
  }

  lemma DecodedIsWellformed(ty: Ty, buf: seq<byte>)
    requires DecodeSchema(Some(buf), ty).Success?
    ensures var v := DecodeSchema(Some(buf), ty).value; v.Some? && v.value.StructV? && Wellformed(ty, v.value)
  {
    hide Typed, Decode;
    DecodedIsTyped(ty, buf);
  }

  lemma EncodedDecodes(ty: Ty, v: Value)
    requires WideElements(ty) && Wellformed(ty, v) && v.StructV?
    requires EncodeSchema(Some(v), ty).Success?
    ensures var out := EncodeSchema(Some(v), ty).value;
            out.Some? && DecodeSchema(out, ty) == Success(Some(v))
  {
    hide Typed, Decode, Measure, Emit;
    SchemaRoundTrip(ty, v, EncodeSchema(Some(v), ty).value.value);
  }

  /** The modifier chosen for a key and version has a schema of the shape rewriting relies on. */
  lemma ModifierShape(apiKey: int16, apiVersion: int16)
    requires Supported(apiKey, apiVersion)
    ensures var m := ModifierFor(apiKey, apiVersion); ShapeOf(m.kind, m.ty)
  {
    hide ShapeOf, MetadataSchema, FindCoordinatorSchema;
    if apiKey == 3 {
      MetadataShapes(apiVersion);
    } else {
      FindCoordinatorShapes(apiVersion);
    }
  }

  /** `Apply` on a decoded response, when its rewriting can be encoded. */
  lemma RewrittenEncoding(kind: ResponseKind, ty: Ty, v: Value, fn: Mapper)
    requires ShapeOf(kind, ty) && Wellformed(ty, v) && v.StructV?
    requires Rewrite(kind, Some(v), Some(fn)).Success?
    requires EncodeSchema(Some(Rewrite(kind, Some(v), Some(fn)).value), ty).Success?
    ensures var w := Rewrite(kind, Some(v), Some(fn)).value;
            var out := EncodeSchema(Some(w), ty).value;
            && ResponseReaddressed(kind, v, w, fn) && Wellformed(ty, w)
            && out.Some? && DecodeSchema(out, ty) == Success(Some(w))
  {
    hide EncodeSchema, DecodeSchema, Rewrite, AllMapped, Wellformed;
    ResponseRewritten(kind, ty, v, fn);
    EncodedDecodes(ty, Rewrite(kind, Some(v), Some(fn)).value);
  }

  /** The rewritten struct is within the encoder's limits. */
  ghost predicate RewriteEncodes(m: Modifier, v: Value, fn: Mapper)
    requires v.StructV?
  {
    var w := Rewrite(m.kind, Some(v), Some(fn));
    w.Success? && EncodeSchema(Some(w.value), m.ty).Success?
  }

  /**
   For every supported version and every response: the rewritten bytes decode to the struct
   the broker sent with only the advertised addresses put in; and rewriting succeeds just
   when the response decodes, every address has a mapping and the result can be encoded.
   */
  lemma RewritingPreservesMeaning(apiKey: int16, apiVersion: int16, resp: seq<byte>, fn: Mapper)
    requires Supported(apiKey, apiVersion)
    ensures ResponseModifier(apiKey, apiVersion) == Success(Some(ModifierFor(apiKey, apiVersion)))
    ensures var m := ModifierFor(apiKey, apiVersion);
            var decoded := DecodeSchema(Some(resp), m.ty);
            var out := Apply(m.kind, m.ty, Some(resp), Some(fn));
            && (out.Success? <==>
                  && decoded.Success? && AllMapped(m.kind, decoded.value.value, fn)
                  && RewriteEncodes(m, decoded.value.value, fn))
            && (out.Success? ==>
                  && out.value.Some?
                  && var again := DecodeSchema(out.value, m.ty);
                     && again.Success? && again.value.Some?
                     && ResponseReaddressed(m.kind, decoded.value.value, again.value.value, fn))
  {
    hide ShapeOf, EncodeSchema, DecodeSchema, Rewrite, AllMapped, ResponseReaddressed, Wellformed, ModifierFor;
    var m := ModifierFor(apiKey, apiVersion);
    ModifierIsChosen(apiKey, apiVersion);
    ModifierShape(apiKey, apiVersion);
    var decoded := DecodeSchema(Some(resp), m.ty);
    if decoded.Success? {
      DecodedIsWellformed(m.ty, resp);
      var v := decoded.value.value;
      ResponseRewritten(m.kind, m.ty, v, fn);
      if RewriteEncodes(m, v, fn) {
        RewrittenEncoding(m.kind, m.ty, v, fn);
      }
    }
  }

  // ---------------------------------------------------------------- lists of brokers or coordinators

  lemma {:induction false} ElementByElement(kind: ResponseKind, vs: seq<Value>, ws: seq<Value>, fn: Mapper)
    requires |ws| == |vs|
    requires forall i | 0 <= i < |vs| :: vs[i].StructV? && RewriteElement(kind, vs[i], fn) == Success(ws[i])
    ensures RewriteElements(kind, vs, fn) == Success(ws)
  {
    hide RewriteAddress, RewriteCoordinator;
    if vs != [] {
      assert forall i | 0 <= i < |vs[1..]| :: vs[1..][i] == vs[i + 1] && ws[1..][i] == ws[i + 1];
      ElementByElement(kind, vs[1..], ws[1..], fn);
      assert ws == [ws[0]] + ws[1..];
    }
  }

  /** A list with an address that has no mapping is refused. */
  lemma {:induction false} ElementRefused(kind: ResponseKind, vs: seq<Value>, fn: Mapper, i: nat)
    requires i < |vs| && forall j | 0 <= j < |vs| :: vs[j].StructV?
    requires forall j | 0 <= j < |vs| ::
               RewriteElement(kind, vs[j], fn).Failure? ==> RewriteElement(kind, vs[j], fn) == Failure(MappingFailed)
    requires RewriteElement(kind, vs[i], fn).Failure?
    ensures RewriteElements(kind, vs, fn) == Failure(MappingFailed)
  {
    hide RewriteAddress, RewriteCoordinator;
    if i > 0 {
      assert forall j | 0 <= j < |vs[1..]| :: vs[1..][j] == vs[j + 1];
      ElementRefused(kind, vs[1..], fn, i - 1);
    }
  }

  // ---------------------------------------------------------------- rewriting twice

  /** Mapping by `f` and then by `g`. */
  function Compose(f: Mapper, g: Mapper): Mapper {
    (host: Host, port: int32, id: int32) =>
      var to := f(host, port, id);
      if to.Failure? then Failure(()) else g(to.value.0, to.value.1, id)
  }

  predicate Blank(to: (Host, int32)) {
    to.0 == [] && to.1 <= 0
  }

  /** Where `f` takes the address of `b` away, a second rewriting skips it; `g` must then change nothing. */
  ghost predicate BlankStays(b: Value, f: Mapper, g: Mapper) {
    HasAddress(b) && Eligible(b) && Mapped(b, f).Success? && Blank(Mapped(b, f).value) ==>
      g(Mapped(b, f).value.0, Mapped(b, f).value.1, Get(b, NODE_ID).i32) == Mapped(b, f)
  }

  ghost predicate CoordinatorBlankStays(c: Value, f: Mapper, g: Mapper) {
    c.StructV? ==> BlankStays(Get(c, COORDINATOR), f, g)
  }

  /** `BlankStays` of every broker or coordinator in the response. */
  ghost predicate BlanksStay(kind: ResponseKind, v: Value, f: Mapper, g: Mapper)
    requires v.StructV?
  {
    if kind == Metadata then
      var b := Get(v, BROKERS);
      b.ArrayV? ==> forall i | 0 <= i < |b.elems| :: BlankStays(b.elems[i], f, g)
    else if FieldIndex(v, COORDINATORS) == -1 then CoordinatorBlankStays(v, f, g)
    else
      var c := Get(v, COORDINATORS);
      c.ArrayV? ==> forall i | 0 <= i < |c.elems| :: CoordinatorBlankStays(c.elems[i], f, g)
  }

  /**
   `twice` and `once` agree just when `stays` holds or the second rewriting fails; then the
   mapping has failed in both.
   */
  ghost predicate Composes<T(!new)>(twice: Result<T, ModifyError>, once: Result<T, ModifyError>, stays: bool) {
    && (twice == once <==> (twice.Success? ==> stays))
    && (twice.Failure? ==> twice.error == MappingFailed)
    && (once.Failure? ==> once.error == MappingFailed)
  }

  /** Broker `b` with another host and port. */
  ghost function Addressed(b: Value, to: (Host, int32)): Value
    requires b.StructV?
  {
    Put(Put(b, HOST, StrV(to.0)), PORT, Int32V(to.1))
  }

  lemma AddressedTwice(ty: Ty, b: Value, to: (Host, int32), to': (Host, int32))
    requires AddressTy(ty) && Wellformed(ty, b)
    ensures var c := Addressed(b, to);
            && Wellformed(ty, c) && HasAddress(c)
            && Get(c, HOST) == StrV(to.0) && Get(c, PORT) == Int32V(to.1) && Get(c, NODE_ID) == Get(b, NODE_ID)
            && Addressed(c, to') == Addressed(b, to')
  {
    hide IndexOf;
    AddressTyped(ty, b);
    PutKeeps(ty, b, HOST, StrV(to.0));
    PutKeeps(ty, Put(b, HOST, StrV(to.0)), PORT, Int32V(to.1));
    AddressTyped(ty, Addressed(b, to));
    assert Addressed(Addressed(b, to), to').values == Addressed(b, to').values;
  }

  lemma RewritingIsAddressing(ty: Ty, b: Value, fn: Mapper)
    requires AddressTy(ty) && Wellformed(ty, b)
    ensures HasAddress(b)
    ensures RewriteAddress(b, fn)
            == if !Eligible(b) then Success(b)
               else if Mapped(b, fn).Failure? then Failure(MappingFailed)
               else Success(Addressed(b, Mapped(b, fn).value))
  {
    hide IndexOf;
    AddressTyped(ty, b);
    if Eligible(b) && Mapped(b, fn).Success? {
      var to := Mapped(b, fn).value;
      PutKeeps(ty, b, HOST, StrV(to.0));
      AddressTyped(ty, Put(b, HOST, StrV(to.0)));
      assert b.values[FieldIndex(b, HOST) := Get(b, HOST)] == b.values;
      assert Put(b, HOST, StrV(to.0)).values[FieldIndex(b, PORT) := Get(b, PORT)] == Put(b, HOST, StrV(to.0)).values;
    }
  }

  /** For one broker, rewriting twice is rewriting by the composition just when its blank address stays. */
  lemma AddressRewrittenTwice(ty: Ty, b: Value, f: Mapper, g: Mapper)
    requires AddressTy(ty) && Wellformed(ty, b) && RewriteAddress(b, f).Success?
    ensures var c := RewriteAddress(b, f).value;
            && Wellformed(ty, c) && c.StructV?
            && (RewriteAddress(c, g) == RewriteAddress(b, Compose(f, g)) <==> BlankStays(b, f, g))
            && (!BlankStays(b, f, g) ==> RewriteAddress(c, g).Success?)
            && Composes(RewriteAddress(c, g), RewriteAddress(b, Compose(f, g)), BlankStays(b, f, g))
  {
    hide AddressTy, Wellformed, RewriteAddress, Addressed, Get;
    RewritingIsAddressing(ty, b, f);
    RewritingIsAddressing(ty, b, Compose(f, g));
    if Eligible(b) {
      var to := Mapped(b, f).value;
      var c := Addressed(b, to);
      AddressedTwice(ty, b, to, to);
      RewritingIsAddressing(ty, c, g);
      var second := Mapped(b, Compose(f, g));
      if second.Success? {
        AddressedTwice(ty, b, to, second.value);
        AddressedTwice(ty, b, second.value, to);
      }
    } else {
      RewritingIsAddressing(ty, b, g);
    }
  }

  ghost function Cons(first: Result<Value, ModifyError>, rest: Result<seq<Value>, ModifyError>)
    : Result<seq<Value>, ModifyError>
  {
    if first.Failure? then Failure(first.error)
    else if rest.Failure? then rest
    else Success([first.value] + rest.value)
  }

  lemma FirstComposes(twice: Result<Value, ModifyError>, once: Result<Value, ModifyError>, stays: bool,
                      twices: Result<seq<Value>, ModifyError>, onces: Result<seq<Value>, ModifyError>, allStay: bool)
    requires Composes(twice, once, stays) && Composes(twices, onces, allStay)
    requires !stays ==> twice.Success?
    ensures Composes(Cons(twice, twices), Cons(once, onces), stays && allStay)
  {
    if twice.Success? && twices.Success? && once.Success? && onces.Success? {
      assert ([twice.value] + twices.value)[0] == twice.value && ([twice.value] + twices.value)[1..] == twices.value;
      assert ([once.value] + onces.value)[0] == once.value && ([once.value] + onces.value)[1..] == onces.value;
    }
  }

  lemma {:induction false} AddressesRewrittenTwice(ty: Ty, vs: seq<Value>, f: Mapper, g: Mapper)
    requires AddressTy(ty) && forall i | 0 <= i < |vs| :: Wellformed(ty, vs[i])
    requires RewriteAddresses(vs, f).Success?
    ensures Composes(RewriteAddresses(RewriteAddresses(vs, f).value, g), RewriteAddresses(vs, Compose(f, g)),
                     forall i | 0 <= i < |vs| :: BlankStays(vs[i], f, g))
  {
    hide AddressTy, Wellformed, Compose, BlankStays, RewriteAddress;
    if vs != [] {
      AddressRewrittenTwice(ty, vs[0], f, g);
      assert forall i | 0 <= i < |vs[1..]| :: vs[1..][i] == vs[i + 1];
      AddressesRewrittenTwice(ty, vs[1..], f, g);
      assert forall i | 0 < i < |vs| :: vs[i] == vs[1..][i - 1];
      var c, cs := RewriteAddress(vs[0], f).value, RewriteAddresses(vs[1..], f).value;
      assert ([c] + cs)[1..] == cs;
      FirstComposes(RewriteAddress(c, g), RewriteAddress(vs[0], Compose(f, g)), BlankStays(vs[0], f, g),
                    RewriteAddresses(cs, g), RewriteAddresses(vs[1..], Compose(f, g)),
                    forall i | 0 <= i < |vs[1..]| :: BlankStays(vs[1..][i], f, g));
    }
  }

  lemma CoordinatorRewrittenTwice(ty: Ty, v: Value, f: Mapper, g: Mapper)
    requires CoordinatorTy(ty) && Wellformed(ty, v) && RewriteCoordinator(v, f).Success?
    ensures var w := RewriteCoordinator(v, f).value;
            && w.StructV?
            && (RewriteCoordinator(w, g) == RewriteCoordinator(v, Compose(f, g)) <==> CoordinatorBlankStays(v, f, g))
            && (!CoordinatorBlankStays(v, f, g) ==> RewriteCoordinator(w, g).Success?)
            && Composes(RewriteCoordinator(w, g), RewriteCoordinator(v, Compose(f, g)), CoordinatorBlankStays(v, f, g))
  {
    hide IndexOf, RewriteAddress, AddressTy, Wellformed, Compose, BlankStays;
    StructWellformed(ty, v);
    FieldWellformed(ty, v, COORDINATOR);
    var at := ty.fields[IndexOf(ty.fields, COORDINATOR)].ty;
    var c := Get(v, COORDINATOR);
    AddressRewrittenTwice(at, c, f, g);
    var c' := RewriteAddress(c, f).value;
    PutKeeps(ty, v, COORDINATOR, c');
    PutIs(v, COORDINATOR, c');
  }

  lemma {:induction false} CoordinatorsRewrittenTwice(ty: Ty, vs: seq<Value>, f: Mapper, g: Mapper)
    requires CoordinatorTy(ty) && forall i | 0 <= i < |vs| :: Wellformed(ty, vs[i])
    requires RewriteCoordinators(vs, f).Success?
    ensures Composes(RewriteCoordinators(RewriteCoordinators(vs, f).value, g), RewriteCoordinators(vs, Compose(f, g)),
                     forall i | 0 <= i < |vs| :: CoordinatorBlankStays(vs[i], f, g))
  {
    hide RewriteCoordinator, CoordinatorTy, Wellformed, Compose, CoordinatorBlankStays;
    if vs != [] {
      CoordinatorRewrittenTwice(ty, vs[0], f, g);
      assert forall i | 0 <= i < |vs[1..]| :: vs[1..][i] == vs[i + 1];
      CoordinatorsRewrittenTwice(ty, vs[1..], f, g);
      assert forall i | 0 < i < |vs| :: vs[i] == vs[1..][i - 1];
      var c, cs := RewriteCoordinator(vs[0], f).value, RewriteCoordinators(vs[1..], f).value;
      assert ([c] + cs)[1..] == cs;
      FirstComposes(RewriteCoordinator(c, g), RewriteCoordinator(vs[0], Compose(f, g)),
                    CoordinatorBlankStays(vs[0], f, g),
                    RewriteCoordinators(cs, g), RewriteCoordinators(vs[1..], Compose(f, g)),
                    forall i | 0 <= i < |vs[1..]| :: CoordinatorBlankStays(vs[1..][i], f, g));
    }
  }

  /** In a field that is there, the last value put counts, and different values make different structs. */
  lemma PutIs(v: Value, name: string, x: Value)
    requires v.StructV? && 0 <= FieldIndex(v, name) < |v.values|
    ensures Put(v, name, x).StructV? && Get(Put(v, name, x), name) == x
    ensures forall y :: Put(Put(v, name, x), name, y) == Put(v, name, y)
    ensures forall y, z :: Put(v, name, y) == Put(v, name, z) <==> y == z
  {
    var i := FieldIndex(v, name);
    forall y ensures Put(Put(v, name, x), name, y) == Put(v, name, y) {
      assert v.values[i := x][i := y] == v.values[i := y];
    }
    forall y, z ensures Put(v, name, y) == Put(v, name, z) <==> y == z {
      assert v.values[i := y][i] == y && v.values[i := z][i] == z;
    }
  }

  lemma ResponseRewrittenTwice(kind: ResponseKind, ty: Ty, v: Value, f: Mapper, g: Mapper)
    requires ShapeOf(kind, ty) && Wellformed(ty, v) && v.StructV?
    requires Rewrite(kind, Some(v), Some(f)).Success?
    ensures var w := Rewrite(kind, Some(v), Some(f)).value;
            && w.StructV?
            && Composes(Rewrite(kind, Some(w), Some(g)), Rewrite(kind, Some(v), Some(Compose(f, g))),
                        BlanksStay(kind, v, f, g))
  {
    hide IndexOf, RewriteCoordinator, RewriteCoordinators, RewriteAddresses, CoordinatorTy, AddressTy;
    hide Wellformed, Compose, WideElements, BlankStays, CoordinatorBlankStays, Put;
    StructWellformed(ty, v);
    if kind == FindCoordinator && IndexOf(ty.fields, COORDINATORS) == -1 {
      CoordinatorRewrittenTwice(ty, v, f, g);
      RewrittenKeepsSchema(v, f);
    } else {
      var name := if kind == Metadata then BROKERS else COORDINATORS;
      var at := ty.fields[IndexOf(ty.fields, name)].ty;
      FieldWellformed(ty, v, name);
      ElementsWellformed(at, Get(v, name));
      var elems := Get(v, name).elems;
      if kind == Metadata {
        AddressesRewrittenTwice(at.elem, elems, f, g);
        PutIs(v, name, ArrayV(RewriteAddresses(elems, f).value));
      } else {
        CoordinatorsRewrittenTwice(at.elem, elems, f, g);
        PutIs(v, name, ArrayV(RewriteCoordinators(elems, f).value));
      }
    }
  }

  lemma RewrittenKeepsSchema(v: Value, fn: Mapper)
    requires v.StructV? && RewriteCoordinator(v, fn).Success?
    ensures RewriteCoordinator(v, fn).value.StructV? && RewriteCoordinator(v, fn).value.schema == v.schema
    ensures |RewriteCoordinator(v, fn).value.values| == |v.values|
  {
  }

  /**
   Rewriting a rewritten response, from bytes to bytes. It is rewriting the original by the
   composed mapping when each broker of the response that `f` leaves without an address is left
   so by `g`; and only then, if the second rewriting succeeds. When `g` has no mapping for one of
   the new addresses, both ways fail alike.
   */
  lemma RewritingComposes(apiKey: int16, apiVersion: int16, resp: seq<byte>, f: Mapper, g: Mapper)
    requires Supported(apiKey, apiVersion)
    requires var m := ModifierFor(apiKey, apiVersion);
             Apply(m.kind, m.ty, Some(resp), Some(f)).Success?
    ensures var m := ModifierFor(apiKey, apiVersion);
            var decoded := DecodeSchema(Some(resp), m.ty);
            && decoded.Success? && decoded.value.Some? && decoded.value.value.StructV?
            && var twice := Apply(m.kind, m.ty, Apply(m.kind, m.ty, Some(resp), Some(f)).value, Some(g));
               var once := Apply(m.kind, m.ty, Some(resp), Some(Compose(f, g)));
               && (BlanksStay(m.kind, decoded.value.value, f, g) ==> twice == once)
               && (twice.Success? && twice == once ==> BlanksStay(m.kind, decoded.value.value, f, g))
               && (twice.Failure? && twice.error.ModifyFailed? ==> twice == once)
  {
    hide ShapeOf, EncodeSchema, DecodeSchema, Rewrite, AllMapped, ResponseReaddressed, Wellformed, ModifierFor;
    hide Compose, BlanksStay;
    var m := ModifierFor(apiKey, apiVersion);
    ModifierShape(apiKey, apiVersion);
    DecodedIsWellformed(m.ty, resp);
    var v := DecodeSchema(Some(resp), m.ty).value.value;
    RewrittenEncoding(m.kind, m.ty, v, f);
    ResponseRewrittenTwice(m.kind, m.ty, v, f, g);
    var w := Rewrite(m.kind, Some(v), Some(f)).value;
    ResponseRewritten(m.kind, m.ty, w, g);
    ResponseRewritten(m.kind, m.ty, v, Compose(f, g));
    var twice, once := Rewrite(m.kind, Some(w), Some(g)), Rewrite(m.kind, Some(v), Some(Compose(f, g)));
    if twice.Success? && EncodeSchema(Some(twice.value), m.ty).Success? {
      RewrittenEncoding(m.kind, m.ty, w, g);
      if once.Success? && EncodeSchema(Some(once.value), m.ty).Success? {
        RewrittenEncoding(m.kind, m.ty, v, Compose(f, g));
      }
    }
  }

  /** Without that condition it can fail: a blank address is not mapped again. */
  lemma BlankMappingDoesNotCompose(ty: Ty, b: Value, f: Mapper, g: Mapper, to: (Host, int32))
    requires AddressTy(ty) && Wellformed(ty, b) && HasAddress(b) && Eligible(b)
    requires Mapped(b, f) == Success(([], 0)) && to != ([], 0)
    requires g([], 0, Get(b, NODE_ID).i32) == Success(to)
    ensures RewriteAddress(b, f).Success? && RewriteAddress(b, f).value.StructV?
    ensures RewriteAddress(RewriteAddress(b, f).value, g) != RewriteAddress(b, Compose(f, g))
  {
    hide AddressTy, Wellformed, RewriteAddress, Get;
    RewritingIsAddressing(ty, b, f);
    AddressRewrittenTwice(ty, b, f, g);
  }
}
