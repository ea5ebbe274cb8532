/**
 The response schemas that carry broker addresses, and the rewriting of those addresses.
 The source changes decoded structs in place through pointers; here a struct is a value, and
 rewriting yields the changed struct.
 */
module Responses {
  import opened Wrappers
  import opened Bytes
  import opened Schema

  const BROKERS := "brokers"
  const HOST := "host"
  const PORT := "port"
  const NODE_ID := "node_id"
  const COORDINATOR := "coordinator"
  const COORDINATORS := "coordinators"

  // ---------------------------------------------------------------- schemas

  predicate DistinctNames(fields: seq<Field>) {
    forall i, j | 0 <= i < j < |fields| :: fields[i].name != fields[j].name
  }

  function MetadataBrokerV0(): Ty {
    Struct("metadata_broker_v0", [Field(NODE_ID, Int32), Field(HOST, Str), Field(PORT, Int32)])
  }

  function MetadataBrokerV1(): Ty {
    Struct("metadata_broker_v1",
           [Field(NODE_ID, Int32), Field(HOST, Str), Field(PORT, Int32), Field("rack", NullableStr)])
  }

  function MetadataBrokerSchema9(): Ty {
    Struct("metadata_broker_schema9",
           [Field(NODE_ID, Int32), Field(HOST, CompactStr), Field(PORT, Int32), Field("rack", CompactNullableStr),
            Field("broker_tagged_fields", TaggedFields)])
  }

  function PartitionMetadata(version: nat): Ty {
    if version <= 4 then
      Struct("partition_metadata_v0",
             [Field("error_code", Int16), Field("partition", Int32), Field("leader", Int32),
              Field("replicas", Array(Int32)), Field("isr", Array(Int32))])
    else if version <= 6 then
      Struct("partition_metadata_v2",
             [Field("error_code", Int16), Field("partition", Int32), Field("leader", Int32),
              Field("replicas", Array(Int32)), Field("isr", Array(Int32)), Field("offline_replicas", Array(Int32))])
    else if version <= 8 then
      Struct("partition_metadata_v7",
             [Field("error_code", Int16), Field("partition", Int32), Field("leader", Int32),
              Field("leader_epoch", Int32), Field("replicas", Array(Int32)), Field("isr", Array(Int32)),
              Field("offline_replicas", Array(Int32))])
    else
      Struct("partition_metadata_schema9",
             [Field("error_code", Int16), Field("partition", Int32), Field("leader", Int32),
              Field("leader_epoch", Int32), Field("replicas", CompactArray(Int32)), Field("isr", CompactArray(Int32)),
              Field("offline_replicas", CompactArray(Int32)),
              Field("partition_metadata_tagged_fields", TaggedFields)])
  }

  function TopicMetadata(version: nat): Ty {
    var partitions := PartitionMetadata(version);
    if version == 0 then
      Struct("topic_metadata_v0",
             [Field("error_code", Int16), Field("topic", Str), Field("partition_metadata", Array(partitions))])
    else if version <= 7 then
      Struct(if version <= 4 then "topic_metadata_v1"
             else if version <= 6 then "topic_metadata_v2"
             else "topic_metadata_v7",
             [Field("error_code", Int16), Field("topic", Str), Field("is_internal", Bool),
              Field("partition_metadata", Array(partitions))])
    else if version == 8 then
      Struct("topic_metadata_v8",
             [Field("error_code", Int16), Field("name", Str), Field("is_internal", Bool),
              Field("partition_metadata", Array(partitions)), Field("topic_authorized_operations", Int32)])
    else if version == 9 then
      Struct("topic_metadata_schema9",
             [Field("error_code", Int16), Field("name", CompactStr), Field("is_internal", Bool),
              Field("partition_metadata", CompactArray(partitions)), Field("topic_authorized_operations", Int32),
              Field("topic_metadata_tagged_fields", TaggedFields)])
    else
      Struct(if version <= 11 then "topic_metadata_schema10" else "topic_metadata_schema12",
             [Field("error_code", Int16), Field("name", if version <= 11 then CompactStr else CompactNullableStr),
              Field("topic_id", Uuid), Field("is_internal", Bool),
              Field("partition_metadata", CompactArray(partitions)), Field("topic_authorized_operations", Int32),
              Field("topic_metadata_tagged_fields", TaggedFields)])
  }

  const METADATA_VERSIONS := 14

  function MetadataFields(version: nat): seq<Field>
    requires version < METADATA_VERSIONS
  {
    var topics := TopicMetadata(version);
    if version == 0 then
      [Field(BROKERS, Array(MetadataBrokerV0())), Field("topic_metadata", Array(topics))]
    else if version == 1 then
      [Field(BROKERS, Array(MetadataBrokerV1())), Field("controller_id", Int32), Field("topic_metadata", Array(topics))]
    else if version == 2 then
      [Field(BROKERS, Array(MetadataBrokerV1())), Field("cluster_id", NullableStr), Field("controller_id", Int32),
       Field("topic_metadata", Array(topics))]
    else if version <= 7 then
      [Field("throttle_time_ms", Int32), Field(BROKERS, Array(MetadataBrokerV1())), Field("cluster_id", NullableStr),
       Field("controller_id", Int32), Field("topic_metadata", Array(topics))]
    else if version == 8 then
      [Field("throttle_time_ms", Int32), Field(BROKERS, Array(MetadataBrokerV1())), Field("cluster_id", NullableStr),
       Field("controller_id", Int32), Field("topic_metadata", Array(topics)),
       Field("cluster_authorized_operations", Int32)]
    else
      [Field("throttle_time_ms", Int32), Field(BROKERS, CompactArray(MetadataBrokerSchema9())),
       Field("cluster_id", CompactNullableStr), Field("controller_id", Int32),
       Field("topic_metadata", CompactArray(topics))]
      + (if version <= 10 then [Field("cluster_authorized_operations", Int32)]
         else if version == 13 then [Field("error_code", Int16)]
         else [])
      + [Field("response_tagged_fields", TaggedFields)]
  }

  function MetadataSchema(version: nat): Ty
    requires version < METADATA_VERSIONS
  {
    Struct("metadata_response", MetadataFields(version))
  }

  function FindCoordinatorBrokerV0(): Ty {
    Struct("find_coordinator_broker_v0", [Field(NODE_ID, Int32), Field(HOST, Str), Field(PORT, Int32)])
  }

  function FindCoordinatorBrokerSchema9(): Ty {
    Struct("find_coordinator_broker_schema9", [Field(NODE_ID, Int32), Field(HOST, CompactStr), Field(PORT, Int32)])
  }

  function FindCoordinatorCoordinatorsSchema4(): Ty {
    Struct("find_coordinator_coordinators_schema4",
           [Field("key", CompactStr), Field(COORDINATOR, FindCoordinatorBrokerSchema9()), Field("error_code", Int16),
            Field("error_message", CompactNullableStr), Field("coordinators_tagged_fields", TaggedFields)])
  }

  const FIND_COORDINATOR_VERSIONS := 7

  function FindCoordinatorFields(version: nat): seq<Field>
    requires version < FIND_COORDINATOR_VERSIONS
  {
    if version == 0 then
      [Field("error_code", Int16), Field(COORDINATOR, FindCoordinatorBrokerV0())]
    else if version <= 2 then
      [Field("throttle_time_ms", Int32), Field("error_code", Int16), Field("error_message", NullableStr),
       Field(COORDINATOR, FindCoordinatorBrokerV0())]
    else if version == 3 then
      [Field("throttle_time_ms", Int32), Field("error_code", Int16), Field("error_message", CompactNullableStr),
       Field(COORDINATOR, FindCoordinatorBrokerSchema9()), Field("response_tagged_fields", TaggedFields)]
    else
      [Field("throttle_time_ms", Int32), Field(COORDINATORS, CompactArray(FindCoordinatorCoordinatorsSchema4())),
       Field("response_tagged_fields", TaggedFields)]
  }

  function FindCoordinatorSchema(version: nat): Ty
    requires version < FIND_COORDINATOR_VERSIONS
  {
    Struct("find_coordinator_response", FindCoordinatorFields(version))
  }

  // ---------------------------------------------------------------- structs

  /** The index fieldsByName gives, or -1; NewSchema makes names distinct. */
  function IndexOf(fields: seq<Field>, name: string): (i: int)
    ensures -1 <= i < |fields|
    ensures i >= 0 ==> fields[i].name == name
    ensures i == -1 ==> forall f | f in fields :: f.name != name
  {
    if fields == [] then -1
    else if fields[0].name == name then 0
    else
      var i := IndexOf(fields[1..], name);
      if i == -1 then -1 else i + 1
  }

  function FieldIndex(v: Value, name: string): (i: int)
    requires v.StructV?
    ensures -1 <= i
  {
    if v.schema.Struct? then IndexOf(v.schema.fields, name) else -1
  }

  /** Struct.Get: nil for a name that is missing or beyond the values. */
  function Get(v: Value, name: string): Value
    requires v.StructV?
  {
    var i := FieldIndex(v, name);
    if i == -1 || i >= |v.values| then Nil else v.values[i]
  }

  datatype Kind = Invalid | BoolK | Int16K | Int32K | StringK | PtrK | ArrayK | SliceK

  /** reflect.TypeOf(v).Kind() */
  function KindOf(v: Value): Kind {
    match v
    case Nil => Invalid
    case BoolV(_) => BoolK
    case Int16V(_) => Int16K
    case Int32V(_) => Int32K
    case StrV(_) => StringK
    case StrPtr(_) | StructV(_, _) => PtrK
    case UuidV(_) => ArrayK
    case TaggedV(_) | ArrayV(_) => SliceK
  }

  datatype ModifyError =
    | NoStruct | NoMapper | BrokersNotFound | HostNotFound | PortNotFound | NodeIdNotFound
    | CoordinatorsNotFound | CoordinatorNotFound | NewValueNil | NameNotFound | IndexBeyondValues
    | OldValueNil | KindsDiffer | MappingFailed | Panicked

  function Replace(v: Value, name: string, value: Value): Result<Value, ModifyError>
    requires v.StructV?
  {
    var i := FieldIndex(v, name);
    if value.Nil? then Failure(NewValueNil)
    else if i == -1 then Failure(NameNotFound)
    else if i >= |v.values| then Failure(IndexBeyondValues)
    else if v.values[i].Nil? then Failure(OldValueNil)
    else if KindOf(v.values[i]) != KindOf(value) then Failure(KindsDiffer)
    else Success(StructV(v.schema, v.values[i := value]))
  }

  /** What a change made through the reference held in the named field does to the struct. */
  function Put(v: Value, name: string, value: Value): Value
    requires v.StructV?
  {
    var i := FieldIndex(v, name);
    if i == -1 || i >= |v.values| then v else StructV(v.schema, v.values[i := value])
  }

  // ---------------------------------------------------------------- rewriting

  /** NetAddressMappingFunc: host, port and broker id to the address to advertise. */
  type Mapper = (Host, int32, int32) -> Result<(Host, int32), ()>

  /** One broker or coordinator: its host and port replaced by the mapping, unless it has neither. */
  function RewriteAddress(b: Value, fn: Mapper): Result<Value, ModifyError>
    requires b.StructV?
  {
    var host, port, id := Get(b, HOST), Get(b, PORT), Get(b, NODE_ID);
    if !host.StrV? then Failure(HostNotFound)
    else if !port.Int32V? then Failure(PortNotFound)
    else if !id.Int32V? then Failure(NodeIdNotFound)
    else if host.s == [] && port.i32 <= 0 then Success(b)
    else
      var to := fn(host.s, port.i32, id.i32);
      if to.Failure? then Failure(MappingFailed)
      else
        var hosted := if host.s != to.value.0 then Replace(b, HOST, StrV(to.value.0)) else Success(b);
        if hosted.Failure? || port.i32 == to.value.1 then hosted
        else Replace(hosted.value, PORT, Int32V(to.value.1))
  }

  function RewriteCoordinator(v: Value, fn: Mapper): Result<Value, ModifyError>
    requires v.StructV?
  {
    var c := Get(v, COORDINATOR);
    if !c.StructV? then Failure(CoordinatorNotFound)
    else
      var c' := RewriteAddress(c, fn);
      if c'.Failure? then c' else Success(Put(v, COORDINATOR, c'.value))
  }

  /** The loop over the brokers; an element that is no struct makes the type assertion panic. */
  function RewriteAddresses(vs: seq<Value>, fn: Mapper): Result<seq<Value>, ModifyError> {
    if vs == [] then Success([])
    else if !vs[0].StructV? then Failure(Panicked)
    else
      var first := RewriteAddress(vs[0], fn);
      if first.Failure? then Failure(first.error)
      else
        var rest := RewriteAddresses(vs[1..], fn);
        if rest.Failure? then rest else Success([first.value] + rest.value)
  }

  function RewriteCoordinators(vs: seq<Value>, fn: Mapper): Result<seq<Value>, ModifyError> {
    if vs == [] then Success([])
    else if !vs[0].StructV? then Failure(Panicked)
    else
      var first := RewriteCoordinator(vs[0], fn);
      if first.Failure? then Failure(first.error)
      else
        var rest := RewriteCoordinators(vs[1..], fn);
        if rest.Failure? then rest else Success([first.value] + rest.value)
  }

  function RewriteMetadata(v: Value, fn: Mapper): Result<Value, ModifyError>
    requires v.StructV?
  {
    var brokers := Get(v, BROKERS);
    if !brokers.ArrayV? then Failure(BrokersNotFound)
    else
      var all := RewriteAddresses(brokers.elems, fn);
      if all.Failure? then Failure(all.error) else Success(Put(v, BROKERS, ArrayV(all.value)))
  }

  function RewriteFindCoordinator(v: Value, fn: Mapper): Result<Value, ModifyError>
    requires v.StructV?
  {
    var coordinators := Get(v, COORDINATORS);
    if coordinators.Nil? then RewriteCoordinator(v, fn)
    else if !coordinators.ArrayV? then Failure(CoordinatorsNotFound)
    else
      var all := RewriteCoordinators(coordinators.elems, fn);
      if all.Failure? then Failure(all.error) else Success(Put(v, COORDINATORS, ArrayV(all.value)))
  }

  datatype ResponseKind = Metadata | FindCoordinator

  function RewriteElement(kind: ResponseKind, e: Value, fn: Mapper): Result<Value, ModifyError>
    requires e.StructV?
  {
    if kind == Metadata then RewriteAddress(e, fn) else RewriteCoordinator(e, fn)
  }

  function RewriteElements(kind: ResponseKind, vs: seq<Value>, fn: Mapper): Result<seq<Value>, ModifyError> {
    if kind == Metadata then RewriteAddresses(vs, fn) else RewriteCoordinators(vs, fn)
  }

  /** modifyMetadataResponse and modifyFindCoordinatorResponse, with their checks for nil. */
  function Rewrite(kind: ResponseKind, decoded: Option<Value>, fn: Option<Mapper>): Result<Value, ModifyError>
    requires decoded.Some? ==> decoded.value.StructV?
  {
    if decoded.None? then Failure(NoStruct)
    else if fn.None? then Failure(NoMapper)
    else if kind == Metadata then RewriteMetadata(decoded.value, fn.value)
    else RewriteFindCoordinator(decoded.value, fn.value)
  }

  datatype ApplyError = CodecFailed(codec: CodecError) | ModifyFailed(reason: ModifyError)

  /** responseModifier.Apply: decode, rewrite, encode. */
  function Apply(kind: ResponseKind, ty: Ty, resp: Option<seq<byte>>, fn: Option<Mapper>)
    : Result<Option<seq<byte>>, ApplyError>
  {
    var decoded := DecodeSchema(resp, ty);
    if decoded.Failure? then Failure(CodecFailed(decoded.error))
    else
      var rewritten := Rewrite(kind, decoded.value, fn);
      if rewritten.Failure? then Failure(ModifyFailed(rewritten.error))
      else
        var bytes := EncodeSchema(Some(rewritten.value), ty);
        if bytes.Failure? then Failure(CodecFailed(bytes.error)) else Success(bytes.value)
  }

  datatype Modifier = Modifier(kind: ResponseKind, ty: Ty)

  const API_KEY_METADATA := 3
  const API_KEY_FIND_COORDINATOR := 10

  /** GetResponseModifier: none for other keys, an error for a version without a schema. */
  function ResponseModifier(apiKey: int16, apiVersion: int16): Result<Option<Modifier>, ()> {
    if apiKey == API_KEY_METADATA then
      if apiVersion < 0 || apiVersion >= METADATA_VERSIONS then Failure(())
      else Success(Some(Modifier(Metadata, MetadataSchema(apiVersion))))
    else if apiKey == API_KEY_FIND_COORDINATOR then
      if apiVersion < 0 || apiVersion >= FIND_COORDINATOR_VERSIONS then Failure(())
      else Success(Some(Modifier(FindCoordinator, FindCoordinatorSchema(apiVersion))))
    else Success(None)
  }

  // ---------------------------------------------------------------- the loops

  method ModifyMetadataResponse(v: Value, fn: Mapper) returns (r: Result<Value, ModifyError>)
    requires v.StructV?
    ensures r == RewriteMetadata(v, fn)
  {
    hide RewriteAddress;
    var brokers := Get(v, BROKERS);
    if !brokers.ArrayV? {
      return Failure(BrokersNotFound);
    }
    var elems := brokers.elems;
    var done: seq<Value> := [];
    assert elems[0..] == elems;
    OntoNothing(RewriteAddresses(elems, fn));
    for i := 0 to |elems|
      invariant RewriteAddresses(elems, fn) == Onto(done, RewriteAddresses(elems[i..], fn))
    {
      assert elems[i..][0] == elems[i] && elems[i..][1..] == elems[i + 1..];
      if !elems[i].StructV? {
        return Failure(Panicked);
      }
      var b := RewriteAddress(elems[i], fn);
      if b.Failure? {
        return Failure(b.error);
      }
      OntoOne(done, b.value, RewriteAddresses(elems[i + 1..], fn));
      done := done + [b.value];
    }
    assert done + [] == done;
    r := Success(Put(v, BROKERS, ArrayV(done)));
  }

  method ModifyFindCoordinatorResponse(v: Value, fn: Mapper) returns (r: Result<Value, ModifyError>)
    requires v.StructV?
    ensures r == RewriteFindCoordinator(v, fn)
  {
    hide RewriteCoordinator;
    var coordinators := Get(v, COORDINATORS);
    if coordinators.Nil? {
      r := RewriteCoordinator(v, fn);
      return;
    }
    if !coordinators.ArrayV? {
      return Failure(CoordinatorsNotFound);
    }
    var elems := coordinators.elems;
    var done: seq<Value> := [];
    assert elems[0..] == elems;
    OntoNothing(RewriteCoordinators(elems, fn));
    for i := 0 to |elems|
      invariant RewriteCoordinators(elems, fn) == Onto(done, RewriteCoordinators(elems[i..], fn))
    {
      assert elems[i..][0] == elems[i] && elems[i..][1..] == elems[i + 1..];
      if !elems[i].StructV? {
        return Failure(Panicked);
      }
      var c := RewriteCoordinator(elems[i], fn);
      if c.Failure? {
        return Failure(c.error);
      }
      OntoOne(done, c.value, RewriteCoordinators(elems[i + 1..], fn));
      done := done + [c.value];
    }
    assert done + [] == done;
    r := Success(Put(v, COORDINATORS, ArrayV(done)));
  }

  ghost function Onto(done: seq<Value>, rest: Result<seq<Value>, ModifyError>): Result<seq<Value>, ModifyError> {
    if rest.Failure? then rest else Success(done + rest.value)
  }

  lemma OntoNothing(rest: Result<seq<Value>, ModifyError>)
    ensures Onto([], rest) == rest
  {
    if rest.Success? {
      assert [] + rest.value == rest.value;
    }
  }

  lemma OntoOne(done: seq<Value>, x: Value, rest: Result<seq<Value>, ModifyError>)
    ensures rest.Success? ==> done + ([x] + rest.value) == done + [x] + rest.value
  {
  }
}
