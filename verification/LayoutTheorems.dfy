/**
 The codec and the rewriter meet the protocol: the schemas read and write Metadata and
 FindCoordinator responses as they are laid out, and rewriting a response puts the mapped addresses
 in place and leaves every other byte as it was.
 */
module LayoutTheorems {
  import opened Wrappers
  import opened Bytes
  import opened Varint
  import opened Schema
  import opened SchemaTheorems
  import opened Responses
  import opened ResponseTheorems
  import K = KafkaLayout

  // ---------------------------------------------------------------- the parts of a message

  lemma LowDigit(x: nat, d: byte)
    ensures (x * 256 + d) / 256 == x && (x * 256 + d) % 256 == d
  {
  }

  /** The bytes of a 32-bit word. */
  lemma Digits(u: nat) returns (a: byte, b: byte, c: byte, d: byte)
    requires u < 4294967296
    ensures u / 16777216 == a && u / 65536 % 256 == b && u / 256 % 256 == c && u % 256 == d
    ensures u / 65536 == a * 256 + b && u % 65536 == c * 256 + d
  {
    a, b, c, d := u / 65536 / 256, u / 65536 % 256, u % 65536 / 256, u % 256;
    var hi: nat, lo: nat := u / 65536, u % 65536;
    assert u / 256 == hi * 256 + c;
    LowDigit(hi, c);
  }

  /** As the protocol has them. */
  lemma NumbersAreBigEndian(i: int16, j: int32)
    ensures Put16(i) == K.I16(i)
    ensures Put32(j) == K.I32(j)
  {
    hide Put32, K.I32;
    WordIsBigEndian(j);
    var u := if i < 0 then i + 65536 else i;
    assert u == i % 0x1_0000;
  }

  lemma WordIsBigEndian(j: int32)
    ensures Put32(j) == K.I32(j)
  {
    var u := if j < 0 then j + 4294967296 else j;
    var a, b, c, d := Digits(u);
    Put32Halves(j, u, a, b, c, d);
    assert K.I32(j) == [a, b, c, d];
  }

  lemma Put32Halves(j: int32, u: nat, a: byte, b: byte, c: byte, d: byte)
    requires u == (if j < 0 then j + 4294967296 else j)
    requires u / 65536 == a * 256 + b && u % 65536 == c * 256 + d
    ensures Put32(j) == [a, b, c, d]
  {
    hide Put16;
    assert u == j % 0x1_0000_0000;
    Put16Digits(a, b);
    Put16Digits(c, d);
    assert [a, b] + [c, d] == [a, b, c, d];
  }

  lemma Put16Digits(a: byte, b: byte)
    ensures Put16(a * 256 + b) == [a, b]
  {
    LowDigit(a, b);
  }

  lemma {:induction false} VarintsAreGroupsOfSeven(u: nat)
    ensures PutUvarint(u) == K.Uvarint(u)
    ensures u < 0x1_0000_0000_0000_0000 ==> PutVarint(u) == K.Uvarint(u)
  {
    if u >= 0x80 {
      VarintsAreGroupsOfSeven(u / 0x80);
    }
  }

  /** `v` is a value of type `ty` that is written as `bytes`, within all limits. */
  ghost predicate Encodes(ty: Ty, v: Value, bytes: seq<byte>) {
    Wellformed(ty, v) && WithinEncodeLimits(ty, v) && Emit(ty, v) == Emission(bytes, true)
  }

  lemma NumbersEncode(i: int16, j: int32)
    ensures Encodes(Int16, Int16V(i), K.I16(i))
    ensures Encodes(Int32, Int32V(j), K.I32(j))
  {
    hide K.I16, K.I32, Put16, Put32;
    NumbersAreBigEndian(i, j);
  }

  lemma ScalarsEncode(b: bool, id: K.TopicId)
    ensures Encodes(Bool, BoolV(b), [if b then 1 else 0])
    ensures Encodes(Uuid, UuidV(id), id)
  {
  }

  function TextTy(flexible: bool): Ty {
    if flexible then CompactStr else Str
  }

  function MaybeTy(flexible: bool): Ty {
    if flexible then CompactNullableStr else NullableStr
  }

  function ArrayTy(flexible: bool, elem: Ty): Ty {
    if flexible then CompactArray(elem) else Array(elem)
  }

  lemma TextEncodes(flexible: bool, s: K.Text)
    requires K.FitsText(s)
    ensures Encodes(TextTy(flexible), StrV(s), K.TextBytes(flexible, s))
    ensures Encodes(MaybeTy(flexible), StrPtr(Some(s)), K.TextBytes(flexible, s))
  {
    hide K.I16, K.I32, Put16, Put32, K.Uvarint, PutVarint;
    NumbersAreBigEndian(|s|, 0);
    VarintsAreGroupsOfSeven(|s| + 1);
  }

  lemma MaybeEncodes(flexible: bool, s: Option<K.Text>)
    requires K.FitsMaybe(s)
    ensures Encodes(MaybeTy(flexible), StrPtr(s), K.MaybeBytes(flexible, s))
  {
    match s
    case None => VarintsAreGroupsOfSeven(0);
    case Some(text) => TextEncodes(flexible, text);
  }

  function Raw(tags: seq<K.Tag>): TagSlice
    requires K.FitTags(tags)
  {
    seq(|tags|, i requires 0 <= i < |tags| => RawTaggedField(tags[i].tag, Some(tags[i].data)))
  }

  lemma {:induction false} TagsEmit(tags: seq<K.Tag>)
    requires K.FitTags(tags)
    ensures EmitTags(Raw(tags)) == K.Concat(K.TagList(tags))
  {
    hide K.Uvarint, PutVarint, K.TagBytes, EmitTag;
    if tags != [] {
      TagEmits(tags[0]);
      assert Raw(tags)[1..] == Raw(tags[1..]) && K.TagList(tags)[1..] == K.TagList(tags[1..]);
      TagsEmit(tags[1..]);
    }
  }

  lemma TagEmits(t: K.Tag)
    requires K.FitsTag(t)
    ensures EmitTag(RawTaggedField(t.tag, Some(t.data))) == K.TagBytes(t)
  {
    hide K.Uvarint, PutVarint;
    VarintsAreGroupsOfSeven(t.tag);
    VarintsAreGroupsOfSeven(|t.data|);
  }

  lemma TagsEncode(tags: seq<K.Tag>)
    requires K.FitTags(tags)
    ensures Encodes(TaggedFields, TaggedV(Raw(tags)), K.TagsBytes(tags))
  {
    hide K.Uvarint, PutVarint, EmitTags, K.Concat, K.TagList;
    VarintsAreGroupsOfSeven(|tags|);
    TagsEmit(tags);
  }

  lemma {:induction false} ElemsEncode(elem: Ty, vs: seq<Value>, list: seq<seq<byte>>)
    requires |vs| == |list| && forall i | 0 <= i < |vs| :: Encodes(elem, vs[i], list[i])
    ensures EmitElems(elem, vs) == Emission(K.Concat(list), true)
  {
    hide Emit, Wellformed, WithinEncodeLimits;
    if vs != [] {
      assert Encodes(elem, vs[0], list[0]);
      ElemsEncode(elem, vs[1..], list[1..]);
    }
  }

  lemma ArrayFits(flexible: bool, elem: Ty, vs: seq<Value>)
    requires forall i | 0 <= i < |vs| :: Wellformed(elem, vs[i]) && WithinEncodeLimits(elem, vs[i])
    requires K.FitsArray(flexible, |vs|)
    ensures Wellformed(ArrayTy(flexible, elem), ArrayV(vs)) && WithinEncodeLimits(ArrayTy(flexible, elem), ArrayV(vs))
  {
    if flexible {
      assert ArrayTy(true, elem) == CompactArray(elem);
    } else {
      assert ArrayTy(false, elem) == Array(elem);
    }
  }

  lemma ArrayEmits(flexible: bool, elem: Ty, vs: seq<Value>, list: seq<seq<byte>>)
    requires |vs| == |list| && EmitElems(elem, vs) == Emission(K.Concat(list), true)
    requires K.FitsArray(flexible, |vs|)
    ensures Emit(ArrayTy(flexible, elem), ArrayV(vs)) == Emission(K.ArrayBytes(flexible, list), true)
  {
    hide K.I32, Put32, K.Uvarint, PutVarint, EmitElems, K.Concat;
    NumbersAreBigEndian(0, |vs|);
    VarintsAreGroupsOfSeven(|vs| + 1);
  }

  lemma ArrayEncodes(flexible: bool, elem: Ty, vs: seq<Value>, list: seq<seq<byte>>)
    requires |vs| == |list| && forall i | 0 <= i < |vs| :: Encodes(elem, vs[i], list[i])
    requires K.FitsArray(flexible, |vs|)
    ensures Encodes(ArrayTy(flexible, elem), ArrayV(vs), K.ArrayBytes(flexible, list))
  {
    hide Emit, Wellformed, WithinEncodeLimits, K.ArrayBytes;
    assert forall i | 0 <= i < |vs| :: Encodes(elem, vs[i], list[i]);
    ArrayFits(flexible, elem, vs);
    ElemsEncode(elem, vs, list);
    ArrayEmits(flexible, elem, vs, list);
  }

  lemma IntsEncode(flexible: bool, ns: seq<int32>)
    requires K.FitsArray(flexible, |ns|)
    ensures Encodes(ArrayTy(flexible, Int32), ArrayV(IntValues(ns)), K.Ints(flexible, ns))
  {
    hide Encodes, K.I32;
    forall i | 0 <= i < |ns|
      ensures Encodes(Int32, IntValues(ns)[i], K.I32(ns[i]))
    {
      NumbersEncode(0, ns[i]);
    }
    ArrayEncodes(flexible, Int32, IntValues(ns), K.IntList(ns));
  }

  function IntValues(ns: seq<int32>): (vs: seq<Value>)
    ensures |vs| == |ns|
  {
    seq(|ns|, i requires 0 <= i < |ns| => Int32V(ns[i]))
  }

  // ---------------------------------------------------------------- structs

  /** The values of the fields are written as `bytes`. */
  ghost predicate FieldsEncode(fields: seq<Field>, vs: seq<Value>, bytes: seq<byte>) {
    && |fields| == |vs| && EmitFields(fields, vs) == Emission(bytes, true)
    && forall i | 0 <= i < |fields| :: Wellformed(fields[i].ty, vs[i]) && WithinEncodeLimits(fields[i].ty, vs[i])
  }

  lemma NoFields()
    ensures FieldsEncode([], [], [])
  {
  }

  /** A field that is there or not, before the others. */
  lemma Before(there: bool, f: Field, v: Value, b: seq<byte>, fields: seq<Field>, vs: seq<Value>, bytes: seq<byte>)
    returns (fields': seq<Field>, vs': seq<Value>, bytes': seq<byte>)
    requires there ==> Encodes(f.ty, v, b)
    requires FieldsEncode(fields, vs, bytes)
    ensures fields' == (if there then [f] else []) + fields
    ensures vs' == (if there then [v] else []) + vs
    ensures bytes' == (if there then b else []) + bytes
    ensures FieldsEncode(fields', vs', bytes')
  {
    hide Emit, Wellformed, WithinEncodeLimits;
    fields', vs' := (if there then [f] else []) + fields, (if there then [v] else []) + vs;
    bytes' := (if there then b else []) + bytes;
    if there {
      assert fields'[1..] == fields && vs'[1..] == vs;
    } else {
      assert fields' == fields && vs' == vs && bytes' == bytes;
    }
  }

  lemma StructEncodes(ty: Ty, vs: seq<Value>, bytes: seq<byte>)
    requires ty.Struct? && FieldsEncode(ty.fields, vs, bytes)
    ensures Encodes(ty, StructV(ty, vs), bytes)
  {
  }

  // ---------------------------------------------------------------- Metadata

  function BrokerTy(version: nat): Ty {
    if version == 0 then MetadataBrokerV0() else if version <= 8 then MetadataBrokerV1() else MetadataBrokerSchema9()
  }

  /** A node and what follows it in its struct. */
  function NodeFirst(n: K.Node, rest: seq<Value>): seq<Value> {
    [Int32V(n.id)] + ([StrV(n.host)] + ([Int32V(n.port)] + rest))
  }

  function BrokerValue(version: nat, b: K.Broker): Value
    requires K.FitTags(b.tags)
  {
    StructV(BrokerTy(version),
            NodeFirst(b.node, (if version >= 1 then [StrPtr(b.rack)] else [])
                              + ((if version >= 9 then [TaggedV(Raw(b.tags))] else []) + [])))
  }

  lemma BrokerFields(version: nat)
    ensures BrokerTy(version).Struct?
    ensures BrokerTy(version).fields
            == [Field(NODE_ID, Int32)]
               + ([Field(HOST, TextTy(version >= 9))]
                  + ([Field(PORT, Int32)]
                     + ((if version >= 1 then [Field("rack", MaybeTy(version >= 9))] else [])
                        + ((if version >= 9 then [Field("broker_tagged_fields", TaggedFields)] else []) + []))))
  {
    if version == 0 {
    } else if version <= 8 {
    } else {
    }
  }

  lemma BrokerEncodes(version: nat, b: K.Broker)
    requires K.FitsBroker(b)
    ensures Encodes(BrokerTy(version), BrokerValue(version, b), K.BrokerBytes(version, b))
  {
    hide Encodes, FieldsEncode, Raw, BrokerTy, K.I32, K.TextBytes, K.MaybeBytes, K.TagsBytes;
    var flexible := version >= 9;
    NumbersEncode(0, b.node.id);
    NumbersEncode(0, b.node.port);
    TextEncodes(flexible, b.node.host);
    MaybeEncodes(flexible, b.rack);
    TagsEncode(b.tags);
    NoFields();
    var fs, vs, bs := Before(flexible, Field("broker_tagged_fields", TaggedFields), TaggedV(Raw(b.tags)),
                             K.TagsBytes(b.tags), [], [], []);
    assert K.TagsBytes(b.tags) + [] == K.TagsBytes(b.tags);
    fs, vs, bs := Before(version >= 1, Field("rack", MaybeTy(flexible)), StrPtr(b.rack),
                         K.MaybeBytes(flexible, b.rack), fs, vs, bs);
    ghost var tail := bs;
    fs, vs, bs := Before(true, Field(PORT, Int32), Int32V(b.node.port), K.I32(b.node.port), fs, vs, bs);
    fs, vs, bs := Before(true, Field(HOST, TextTy(flexible)), StrV(b.node.host), K.TextBytes(flexible, b.node.host),
                         fs, vs, bs);
    fs, vs, bs := Before(true, Field(NODE_ID, Int32), Int32V(b.node.id), K.I32(b.node.id), fs, vs, bs);
    Regroup(K.I32(b.node.id), K.TextBytes(flexible, b.node.host), K.I32(b.node.port), tail);
    BrokerFields(version);
    StructEncodes(BrokerTy(version), vs, bs);
  }

  lemma Regroup(a: seq<byte>, b: seq<byte>, c: seq<byte>, d: seq<byte>)
    ensures a + (b + (c + d)) == a + (b + c) + d
  {
  }

  function PartitionValue(version: nat, p: K.Partition): Value
    requires K.FitsPartition(version, p)
  {
    StructV(PartitionMetadata(version),
            [Int16V(p.error)]
            + ([Int32V(p.index)]
               + ([Int32V(p.leader)]
                  + ((if version >= 7 then [Int32V(p.leaderEpoch)] else [])
                     + ([ArrayV(IntValues(p.replicas))]
                        + ([ArrayV(IntValues(p.isr))]
                           + ((if version >= 5 then [ArrayV(IntValues(p.offline))] else [])
                              + ((if version >= 9 then [TaggedV(Raw(p.tags))] else []) + []))))))))
  }

  lemma PartitionFields(version: nat)
    ensures PartitionMetadata(version).Struct?
    ensures var ints := ArrayTy(version >= 9, Int32);
            var tags := Field("partition_metadata_tagged_fields", TaggedFields);
            PartitionMetadata(version).fields
            == [Field("error_code", Int16)]
               + ([Field("partition", Int32)]
                  + ([Field("leader", Int32)]
                     + ((if version >= 7 then [Field("leader_epoch", Int32)] else [])
                        + ([Field("replicas", ints)]
                           + ([Field("isr", ints)]
                              + ((if version >= 5 then [Field("offline_replicas", ints)] else [])
                                 + ((if version >= 9 then [tags] else []) + [])))))))
  {
    if version <= 4 {
    } else if version <= 6 {
    } else if version <= 8 {
    } else {
    }
  }

  lemma PartitionEncodes(version: nat, p: K.Partition)
    requires K.FitsPartition(version, p)
    ensures Encodes(PartitionMetadata(version), PartitionValue(version, p), K.PartitionBytes(version, p))
  {
    hide Encodes, FieldsEncode, Raw, IntValues, PartitionMetadata, K.I16, K.I32, K.Ints, K.TagsBytes;
    var flexible := version >= 9;
    NumbersEncode(p.error, p.index);
    NumbersEncode(0, p.leader);
    NumbersEncode(0, p.leaderEpoch);
    IntsEncode(flexible, p.replicas);
    IntsEncode(flexible, p.isr);
    IntsEncode(flexible, p.offline);
    TagsEncode(p.tags);
    NoFields();
    var ints := ArrayTy(flexible, Int32);
    var fs, vs, bs := Before(flexible, Field("partition_metadata_tagged_fields", TaggedFields), TaggedV(Raw(p.tags)),
                             K.TagsBytes(p.tags), [], [], []);
    assert K.TagsBytes(p.tags) + [] == K.TagsBytes(p.tags);
    fs, vs, bs := Before(version >= 5, Field("offline_replicas", ints), ArrayV(IntValues(p.offline)),
                         K.Ints(flexible, p.offline), fs, vs, bs);
    fs, vs, bs := Before(true, Field("isr", ints), ArrayV(IntValues(p.isr)), K.Ints(flexible, p.isr), fs, vs, bs);
    fs, vs, bs := Before(true, Field("replicas", ints), ArrayV(IntValues(p.replicas)), K.Ints(flexible, p.replicas),
                         fs, vs, bs);
    fs, vs, bs := Before(version >= 7, Field("leader_epoch", Int32), Int32V(p.leaderEpoch), K.I32(p.leaderEpoch),
                         fs, vs, bs);
    fs, vs, bs := Before(true, Field("leader", Int32), Int32V(p.leader), K.I32(p.leader), fs, vs, bs);
    fs, vs, bs := Before(true, Field("partition", Int32), Int32V(p.index), K.I32(p.index), fs, vs, bs);
    fs, vs, bs := Before(true, Field("error_code", Int16), Int16V(p.error), K.I16(p.error), fs, vs, bs);
    PartitionFields(version);
    StructEncodes(PartitionMetadata(version), vs, bs);
  }

  function PartitionValues(version: nat, ps: seq<K.Partition>): (vs: seq<Value>)
    requires forall i | 0 <= i < |ps| :: K.FitsPartition(version, ps[i])
    ensures |vs| == |ps|
  {
    seq(|ps|, i requires 0 <= i < |ps| => PartitionValue(version, ps[i]))
  }

  lemma PartitionsEncode(version: nat, ps: seq<K.Partition>)
    requires K.FitsArray(version >= 9, |ps|) && forall i | 0 <= i < |ps| :: K.FitsPartition(version, ps[i])
    ensures Encodes(ArrayTy(version >= 9, PartitionMetadata(version)), ArrayV(PartitionValues(version, ps)),
                    K.ArrayBytes(version >= 9, K.PartitionList(version, ps)))
  {
    hide Encodes, PartitionMetadata, PartitionValue, K.PartitionBytes, K.ArrayBytes;
    var vs, list := PartitionValues(version, ps), K.PartitionList(version, ps);
    forall i | 0 <= i < |ps|
      ensures Encodes(PartitionMetadata(version), vs[i], list[i])
    {
      PartitionEncodes(version, ps[i]);
    }
    ArrayEncodes(version >= 9, PartitionMetadata(version), vs, list);
  }

  /** Up to version 11 a topic has a name. */
  function NameValue(version: nat, t: K.Topic): Value
    requires K.FitsTopic(version, t)
  {
    if version <= 11 then StrV(t.name.value) else StrPtr(t.name)
  }

  function NameField(version: nat): Field {
    Field(if version <= 7 then "topic" else "name",
          if version <= 8 then Str else if version <= 11 then CompactStr else CompactNullableStr)
  }

  lemma NameEncodes(version: nat, t: K.Topic)
    requires K.FitsTopic(version, t)
    ensures Encodes(NameField(version).ty, NameValue(version, t), K.MaybeBytes(version >= 9, t.name))
  {
    hide Encodes;
    if version <= 11 {
      TextEncodes(version >= 9, t.name.value);
    } else {
      MaybeEncodes(true, t.name);
    }
  }

  function TopicValue(version: nat, t: K.Topic): Value
    requires K.FitsTopic(version, t)
  {
    StructV(TopicMetadata(version),
            [Int16V(t.error)]
            + ([NameValue(version, t)]
               + ((if version >= 10 then [UuidV(t.id)] else [])
                  + ((if version >= 1 then [BoolV(t.internal)] else [])
                     + ([ArrayV(PartitionValues(version, t.partitions))]
                        + ((if version >= 8 then [Int32V(t.operations)] else [])
                           + ((if version >= 9 then [TaggedV(Raw(t.tags))] else []) + [])))))))
  }

  lemma TopicFields(version: nat)
    ensures TopicMetadata(version).Struct?
    ensures var partitions := Field("partition_metadata", ArrayTy(version >= 9, PartitionMetadata(version)));
            var operations := Field("topic_authorized_operations", Int32);
            var tags := Field("topic_metadata_tagged_fields", TaggedFields);
            TopicMetadata(version).fields
            == [Field("error_code", Int16)]
               + ([NameField(version)]
                  + ((if version >= 10 then [Field("topic_id", Uuid)] else [])
                     + ((if version >= 1 then [Field("is_internal", Bool)] else [])
                        + ([partitions]
                           + ((if version >= 8 then [operations] else [])
                              + ((if version >= 9 then [tags] else []) + []))))))
  {
    hide PartitionMetadata;
    if version == 0 {
    } else if version <= 7 {
    } else if version == 8 {
    } else {
      FlexibleTopicFields(version);
    }
  }

  lemma FlexibleTopicFields(version: nat)
    requires version >= 9
    ensures TopicMetadata(version).fields
            == [Field("error_code", Int16)]
               + ([NameField(version)]
                  + ((if version >= 10 then [Field("topic_id", Uuid)] else [])
                     + ([Field("is_internal", Bool)]
                        + ([Field("partition_metadata", CompactArray(PartitionMetadata(version)))]
                           + ([Field("topic_authorized_operations", Int32)]
                              + ([Field("topic_metadata_tagged_fields", TaggedFields)] + []))))))
  {
    hide PartitionMetadata;
    if version == 9 {
    } else {
    }
  }

  lemma TopicEncodes(version: nat, t: K.Topic)
    requires K.FitsTopic(version, t)
    ensures Encodes(TopicMetadata(version), TopicValue(version, t), K.TopicBytes(version, t))
  {
    hide Encodes, FieldsEncode, Raw, TopicMetadata, PartitionMetadata, PartitionValues, NameField, NameValue;
    hide K.I16, K.I32, K.MaybeBytes, K.ArrayBytes, K.PartitionList, K.TagsBytes;
    var flexible := version >= 9;
    NumbersEncode(t.error, t.operations);
    ScalarsEncode(t.internal, t.id);
    NameEncodes(version, t);
    PartitionsEncode(version, t.partitions);
    TagsEncode(t.tags);
    NoFields();
    var fs, vs, bs := Before(flexible, Field("topic_metadata_tagged_fields", TaggedFields), TaggedV(Raw(t.tags)),
                             K.TagsBytes(t.tags), [], [], []);
    assert K.TagsBytes(t.tags) + [] == K.TagsBytes(t.tags);
    fs, vs, bs := Before(version >= 8, Field("topic_authorized_operations", Int32), Int32V(t.operations),
                         K.I32(t.operations), fs, vs, bs);
    fs, vs, bs := Before(true, Field("partition_metadata", ArrayTy(flexible, PartitionMetadata(version))),
                         ArrayV(PartitionValues(version, t.partitions)),
                         K.ArrayBytes(flexible, K.PartitionList(version, t.partitions)), fs, vs, bs);
    fs, vs, bs := Before(version >= 1, Field("is_internal", Bool), BoolV(t.internal),
                         [if t.internal then 1 else 0], fs, vs, bs);
    fs, vs, bs := Before(version >= 10, Field("topic_id", Uuid), UuidV(t.id), t.id, fs, vs, bs);
    fs, vs, bs := Before(true, NameField(version), NameValue(version, t), K.MaybeBytes(flexible, t.name), fs, vs, bs);
    fs, vs, bs := Before(true, Field("error_code", Int16), Int16V(t.error), K.I16(t.error), fs, vs, bs);
    TopicFields(version);
    StructEncodes(TopicMetadata(version), vs, bs);
  }

  function TopicValues(version: nat, ts: seq<K.Topic>): (vs: seq<Value>)
    requires forall i | 0 <= i < |ts| :: K.FitsTopic(version, ts[i])
    ensures |vs| == |ts|
  {
    seq(|ts|, i requires 0 <= i < |ts| => TopicValue(version, ts[i]))
  }

  lemma TopicsEncode(version: nat, ts: seq<K.Topic>)
    requires K.FitsArray(version >= 9, |ts|) && forall i | 0 <= i < |ts| :: K.FitsTopic(version, ts[i])
    ensures Encodes(ArrayTy(version >= 9, TopicMetadata(version)), ArrayV(TopicValues(version, ts)),
                    K.ArrayBytes(version >= 9, K.TopicList(version, ts)))
  {
    hide Encodes, TopicMetadata, TopicValue, K.TopicBytes, K.ArrayBytes;
    var vs, list := TopicValues(version, ts), K.TopicList(version, ts);
    forall i | 0 <= i < |ts|
      ensures Encodes(TopicMetadata(version), vs[i], list[i])
    {
      TopicEncodes(version, ts[i]);
    }
    ArrayEncodes(version >= 9, TopicMetadata(version), vs, list);
  }

  function BrokerValues(version: nat, bs: seq<K.Broker>): (vs: seq<Value>)
    requires forall i | 0 <= i < |bs| :: K.FitsBroker(bs[i])
    ensures |vs| == |bs|
  {
    seq(|bs|, i requires 0 <= i < |bs| => assert K.FitsBroker(bs[i]); BrokerValue(version, bs[i]))
  }

  lemma BrokersEncode(version: nat, bs: seq<K.Broker>)
    requires K.FitsArray(version >= 9, |bs|) && forall i | 0 <= i < |bs| :: K.FitsBroker(bs[i])
    ensures Encodes(ArrayTy(version >= 9, BrokerTy(version)), ArrayV(BrokerValues(version, bs)),
                    K.ArrayBytes(version >= 9, K.BrokerList(version, bs)))
  {
    hide Encodes, BrokerTy, BrokerValue, K.BrokerBytes, K.ArrayBytes;
    var vs, list := BrokerValues(version, bs), K.BrokerList(version, bs);
    forall i | 0 <= i < |bs|
      ensures Encodes(BrokerTy(version), vs[i], list[i])
    {
      BrokerEncodes(version, bs[i]);
    }
    ArrayEncodes(version >= 9, BrokerTy(version), vs, list);
  }

  function MetadataValue(version: nat, m: K.Metadata): Value
    requires version <= 13 && K.FitsMetadata(version, m)
  {
    StructV(MetadataSchema(version),
            (if version >= 3 then [Int32V(m.throttle)] else [])
            + ([ArrayV(BrokerValues(version, m.brokers))]
               + ((if version >= 2 then [StrPtr(m.cluster)] else [])
                  + ((if version >= 1 then [Int32V(m.controller)] else [])
                     + ([ArrayV(TopicValues(version, m.topics))]
                        + ((if 8 <= version <= 10 then [Int32V(m.operations)] else [])
                           + ((if version == 13 then [Int16V(m.error)] else [])
                              + ((if version >= 9 then [TaggedV(Raw(m.tags))] else []) + []))))))))
  }

  lemma MetadataFieldsAre(version: nat)
    requires version <= 13
    ensures var brokers := Field(BROKERS, ArrayTy(version >= 9, BrokerTy(version)));
            var topics := Field("topic_metadata", ArrayTy(version >= 9, TopicMetadata(version)));
            var operations := Field("cluster_authorized_operations", Int32);
            MetadataFields(version)
            == (if version >= 3 then [Field("throttle_time_ms", Int32)] else [])
               + ([brokers]
                  + ((if version >= 2 then [Field("cluster_id", MaybeTy(version >= 9))] else [])
                     + ((if version >= 1 then [Field("controller_id", Int32)] else [])
                        + ([topics]
                           + ((if 8 <= version <= 10 then [operations] else [])
                              + ((if version == 13 then [Field("error_code", Int16)] else [])
                                 + ((if version >= 9 then [Field("response_tagged_fields", TaggedFields)] else [])
                                    + [])))))))
  {
    hide TopicMetadata, MetadataBrokerV0, MetadataBrokerV1, MetadataBrokerSchema9;
    if version == 0 {
    } else if version == 1 {
    } else if version == 2 {
    } else if version <= 7 {
    } else if version == 8 {
    } else {
      FlexibleFieldsAre(version);
    }
  }

  lemma FlexibleFieldsAre(version: nat)
    requires 9 <= version <= 13
    ensures MetadataFields(version)
            == [Field("throttle_time_ms", Int32)]
               + ([Field(BROKERS, CompactArray(MetadataBrokerSchema9()))]
                  + ([Field("cluster_id", CompactNullableStr)]
                     + ([Field("controller_id", Int32)]
                        + ([Field("topic_metadata", CompactArray(TopicMetadata(version)))]
                           + ((if version <= 10 then [Field("cluster_authorized_operations", Int32)] else [])
                              + ((if version == 13 then [Field("error_code", Int16)] else [])
                                 + ([Field("response_tagged_fields", TaggedFields)] + [])))))))
  {
    hide TopicMetadata, MetadataBrokerSchema9;
    if version <= 10 {
    } else if version <= 12 {
    } else {
    }
  }

  /** The schema of each Metadata version writes a response as the protocol lays it out. */
  lemma MetadataEncodes(version: nat, m: K.Metadata)
    requires version <= 13 && K.FitsMetadata(version, m)
    ensures Encodes(MetadataSchema(version), MetadataValue(version, m), K.MetadataBytes(version, m))
  {
    hide Encodes, FieldsEncode, Raw, MetadataFields, TopicMetadata, TopicValues, BrokerTy, BrokerValues;
    hide K.I16, K.I32, K.MaybeBytes, K.ArrayBytes, K.BrokerList, K.TopicList, K.TagsBytes;
    var flexible := version >= 9;
    NumbersEncode(m.error, m.throttle);
    NumbersEncode(m.error, m.controller);
    NumbersEncode(m.error, m.operations);
    BrokersEncode(version, m.brokers);
    TopicsEncode(version, m.topics);
    MaybeEncodes(flexible, m.cluster);
    TagsEncode(m.tags);
    NoFields();
    var fs, vs, bs := Before(flexible, Field("response_tagged_fields", TaggedFields), TaggedV(Raw(m.tags)),
                             K.TagsBytes(m.tags), [], [], []);
    assert K.TagsBytes(m.tags) + [] == K.TagsBytes(m.tags);
    fs, vs, bs := Before(version == 13, Field("error_code", Int16), Int16V(m.error), K.I16(m.error), fs, vs, bs);
    fs, vs, bs := Before(8 <= version <= 10, Field("cluster_authorized_operations", Int32), Int32V(m.operations),
                         K.I32(m.operations), fs, vs, bs);
    fs, vs, bs := Before(true, Field("topic_metadata", ArrayTy(flexible, TopicMetadata(version))),
                         ArrayV(TopicValues(version, m.topics)),
                         K.ArrayBytes(flexible, K.TopicList(version, m.topics)), fs, vs, bs);
    fs, vs, bs := Before(version >= 1, Field("controller_id", Int32), Int32V(m.controller), K.I32(m.controller),
                         fs, vs, bs);
    fs, vs, bs := Before(version >= 2, Field("cluster_id", MaybeTy(flexible)), StrPtr(m.cluster),
                         K.MaybeBytes(flexible, m.cluster), fs, vs, bs);
    fs, vs, bs := Before(true, Field(BROKERS, ArrayTy(flexible, BrokerTy(version))),
                         ArrayV(BrokerValues(version, m.brokers)),
                         K.ArrayBytes(flexible, K.BrokerList(version, m.brokers)), fs, vs, bs);
    fs, vs, bs := Before(version >= 3, Field("throttle_time_ms", Int32), Int32V(m.throttle), K.I32(m.throttle),
                         fs, vs, bs);
    MetadataFieldsAre(version);
    StructEncodes(MetadataSchema(version), vs, bs);
  }

  // ---------------------------------------------------------------- FindCoordinator

  function NodeTy(flexible: bool): Ty {
    if flexible then FindCoordinatorBrokerSchema9() else FindCoordinatorBrokerV0()
  }

  function NodeValue(flexible: bool, n: K.Node): Value {
    StructV(NodeTy(flexible), NodeFirst(n, []))
  }

  lemma NodeEncodes(flexible: bool, n: K.Node)
    requires K.FitsNode(n)
    ensures Encodes(NodeTy(flexible), NodeValue(flexible, n), K.NodeBytes(flexible, n))
  {
    hide Encodes, FieldsEncode, K.I32, K.TextBytes;
    NumbersEncode(0, n.id);
    NumbersEncode(0, n.port);
    TextEncodes(flexible, n.host);
    NoFields();
    var fs, vs, bs := Before(true, Field(PORT, Int32), Int32V(n.port), K.I32(n.port), [], [], []);
    assert K.I32(n.port) + [] == K.I32(n.port);
    fs, vs, bs := Before(true, Field(HOST, TextTy(flexible)), StrV(n.host), K.TextBytes(flexible, n.host), fs, vs, bs);
    fs, vs, bs := Before(true, Field(NODE_ID, Int32), Int32V(n.id), K.I32(n.id), fs, vs, bs);
    assert NodeTy(flexible).fields == fs;
    StructEncodes(NodeTy(flexible), vs, bs);
  }

  function CoordinatorValue(c: K.Coordinator): Value
    requires K.FitsCoordinator(c)
  {
    StructV(FindCoordinatorCoordinatorsSchema4(),
            [StrV(c.key)]
            + ([NodeValue(true, c.node)]
               + ([Int16V(c.error)] + ([StrPtr(c.message)] + ([TaggedV(Raw(c.tags))] + [])))))
  }

  lemma CoordinatorEncodes(c: K.Coordinator)
    requires K.FitsCoordinator(c)
    ensures Encodes(FindCoordinatorCoordinatorsSchema4(), CoordinatorValue(c), K.CoordinatorBytes(c))
  {
    hide Encodes, FieldsEncode, Raw, NodeTy, NodeValue, K.I16, K.TextBytes, K.MaybeBytes, K.NodeBytes, K.TagsBytes;
    NumbersEncode(c.error, 0);
    TextEncodes(true, c.key);
    MaybeEncodes(true, c.message);
    NodeEncodes(true, c.node);
    TagsEncode(c.tags);
    NoFields();
    var fs, vs, bs := Before(true, Field("coordinators_tagged_fields", TaggedFields), TaggedV(Raw(c.tags)),
                             K.TagsBytes(c.tags), [], [], []);
    assert K.TagsBytes(c.tags) + [] == K.TagsBytes(c.tags);
    fs, vs, bs := Before(true, Field("error_message", CompactNullableStr), StrPtr(c.message),
                         K.MaybeBytes(true, c.message), fs, vs, bs);
    fs, vs, bs := Before(true, Field("error_code", Int16), Int16V(c.error), K.I16(c.error), fs, vs, bs);
    fs, vs, bs := Before(true, Field(COORDINATOR, NodeTy(true)), NodeValue(true, c.node), K.NodeBytes(true, c.node),
                         fs, vs, bs);
    fs, vs, bs := Before(true, Field("key", CompactStr), StrV(c.key), K.TextBytes(true, c.key), fs, vs, bs);
    CoordinatorFields(fs);
    StructEncodes(FindCoordinatorCoordinatorsSchema4(), vs, bs);
  }

  lemma CoordinatorFields(fs: seq<Field>)
    requires fs == [Field("key", CompactStr)]
                   + ([Field(COORDINATOR, NodeTy(true))]
                      + ([Field("error_code", Int16)]
                         + ([Field("error_message", CompactNullableStr)]
                            + ([Field("coordinators_tagged_fields", TaggedFields)] + []))))
    ensures FindCoordinatorCoordinatorsSchema4().fields == fs
  {
    hide FindCoordinatorBrokerSchema9;
  }

  function CoordinatorValues(cs: seq<K.Coordinator>): (vs: seq<Value>)
    requires forall i | 0 <= i < |cs| :: K.FitsCoordinator(cs[i])
    ensures |vs| == |cs|
  {
    seq(|cs|, i requires 0 <= i < |cs| => CoordinatorValue(cs[i]))
  }

  lemma CoordinatorListEncodes(cs: seq<K.Coordinator>)
    requires K.FitsArray(true, |cs|) && forall i | 0 <= i < |cs| :: K.FitsCoordinator(cs[i])
    ensures Encodes(CompactArray(FindCoordinatorCoordinatorsSchema4()), ArrayV(CoordinatorValues(cs)),
                    K.ArrayBytes(true, K.CoordinatorList(cs)))
  {
    hide Encodes, FindCoordinatorCoordinatorsSchema4, CoordinatorValue, K.CoordinatorBytes, K.ArrayBytes;
    var vs, list := CoordinatorValues(cs), K.CoordinatorList(cs);
    forall i | 0 <= i < |cs|
      ensures Encodes(FindCoordinatorCoordinatorsSchema4(), vs[i], list[i])
    {
      CoordinatorEncodes(cs[i]);
    }
    ArrayEncodes(true, FindCoordinatorCoordinatorsSchema4(), vs, list);
  }

  function CoordinatorsValue(version: nat, m: K.Coordinators): Value
    requires version <= 6 && K.FitsCoordinators(m)
  {
    StructV(FindCoordinatorSchema(version),
            (if version >= 1 then [Int32V(m.throttle)] else [])
            + ((if version <= 3 then [Int16V(m.error)] else [])
               + ((if 1 <= version <= 3 then [StrPtr(m.message)] else [])
                  + ((if version <= 3 then [NodeValue(version >= 3, m.node)] else [])
                     + ((if version >= 4 then [ArrayV(CoordinatorValues(m.list))] else [])
                        + ((if version >= 3 then [TaggedV(Raw(m.tags))] else []) + []))))))
  }

  lemma CoordinatorsFieldsAre(version: nat)
    requires version <= 6
    ensures var list := Field(COORDINATORS, CompactArray(FindCoordinatorCoordinatorsSchema4()));
            FindCoordinatorFields(version)
            == (if version >= 1 then [Field("throttle_time_ms", Int32)] else [])
               + ((if version <= 3 then [Field("error_code", Int16)] else [])
                  + ((if 1 <= version <= 3 then [Field("error_message", MaybeTy(version >= 3))] else [])
                     + ((if version <= 3 then [Field(COORDINATOR, NodeTy(version >= 3))] else [])
                        + ((if version >= 4 then [list] else [])
                           + ((if version >= 3 then [Field("response_tagged_fields", TaggedFields)] else []) + [])))))
  {
    hide FindCoordinatorBrokerV0, FindCoordinatorBrokerSchema9, FindCoordinatorCoordinatorsSchema4;
    if version == 0 {
    } else if version <= 2 {
    } else if version == 3 {
    } else {
    }
  }

  /** So do the schemas of the FindCoordinator versions. */
  lemma CoordinatorsEncode(version: nat, m: K.Coordinators)
    requires version <= 6 && K.FitsCoordinators(m)
    ensures Encodes(FindCoordinatorSchema(version), CoordinatorsValue(version, m), K.CoordinatorsBytes(version, m))
  {
    hide Encodes, FieldsEncode, Raw, FindCoordinatorFields, FindCoordinatorCoordinatorsSchema4, NodeTy, NodeValue;
    hide CoordinatorValues, K.I16, K.I32, K.MaybeBytes, K.ArrayBytes, K.NodeBytes, K.CoordinatorList, K.TagsBytes;
    var flexible := version >= 3;
    NumbersEncode(m.error, m.throttle);
    MaybeEncodes(flexible, m.message);
    NodeEncodes(flexible, m.node);
    CoordinatorListEncodes(m.list);
    TagsEncode(m.tags);
    NoFields();
    var fs, vs, bs := Before(flexible, Field("response_tagged_fields", TaggedFields), TaggedV(Raw(m.tags)),
                             K.TagsBytes(m.tags), [], [], []);
    ghost var tail := if flexible then K.TagsBytes(m.tags) else [];
    assert tail + [] == tail;
    fs, vs, bs := Before(version >= 4, Field(COORDINATORS, CompactArray(FindCoordinatorCoordinatorsSchema4())),
                         ArrayV(CoordinatorValues(m.list)), K.ArrayBytes(true, K.CoordinatorList(m.list)), fs, vs, bs);
    fs, vs, bs := Before(version <= 3, Field(COORDINATOR, NodeTy(flexible)), NodeValue(flexible, m.node),
                         K.NodeBytes(flexible, m.node), fs, vs, bs);
    fs, vs, bs := Before(1 <= version <= 3, Field("error_message", MaybeTy(flexible)), StrPtr(m.message),
                         K.MaybeBytes(flexible, m.message), fs, vs, bs);
    fs, vs, bs := Before(version <= 3, Field("error_code", Int16), Int16V(m.error), K.I16(m.error), fs, vs, bs);
    fs, vs, bs := Before(version >= 1, Field("throttle_time_ms", Int32), Int32V(m.throttle), K.I32(m.throttle),
                         fs, vs, bs);
    CoordinatorsFieldsAre(version);
    if version <= 3 {
      Regroup3(K.I16(m.error), if version >= 1 then K.MaybeBytes(flexible, m.message) else [],
               K.NodeBytes(flexible, m.node), tail);
    } else {
      DropEmpty(K.ArrayBytes(true, K.CoordinatorList(m.list)) + tail);
    }
    StructEncodes(FindCoordinatorSchema(version), vs, bs);
  }

  lemma Regroup3(a: seq<byte>, b: seq<byte>, c: seq<byte>, d: seq<byte>)
    ensures a + (b + (c + ([] + d))) == a + (b + c) + d
  {
  }

  lemma DropEmpty(d: seq<byte>)
    ensures [] + ([] + ([] + d)) == d
  {
  }

  // ---------------------------------------------------------------- reading and writing whole messages

  /** What is laid out as `v` is decoded as `v`, and written so again; the limit is 100 MiB. */
  lemma BothWays(ty: Ty, v: Value, bytes: seq<byte>)
    requires Encodes(ty, v, bytes) && v.StructV? && WideElements(ty)
    ensures EncodeSchema(Some(v), ty)
            == if |bytes| <= 104857600 then Success(Some(bytes)) else Failure(InvalidRequestSize(|bytes|))
    ensures |bytes| <= 104857600 ==> DecodeSchema(Some(bytes), ty) == Success(Some(v))
  {
    hide Emit, Measure, Wellformed, WithinEncodeLimits, WideElements, DecodeSchema;
    TwoPassAgreement(ty, v);
    if |bytes| <= 104857600 {
      EncodedDecodes(ty, v);
    }
  }

  /** Every Metadata response of every version is read, field by field, as the protocol lays it out. */
  lemma MetadataIsRead(version: nat, m: K.Metadata)
    requires version <= 13 && K.FitsMetadata(version, m) && |K.MetadataBytes(version, m)| <= 104857600
    ensures DecodeSchema(Some(K.MetadataBytes(version, m)), MetadataSchema(version))
            == Success(Some(MetadataValue(version, m)))
    ensures EncodeSchema(Some(MetadataValue(version, m)), MetadataSchema(version))
            == Success(Some(K.MetadataBytes(version, m)))
  {
    hide Encodes, WideElements, MetadataTy, DecodeSchema, EncodeSchema, K.MetadataBytes;
    MetadataEncodes(version, m);
    MetadataShapes(version);
    BothWays(MetadataSchema(version), MetadataValue(version, m), K.MetadataBytes(version, m));
  }

  lemma CoordinatorsAreRead(version: nat, m: K.Coordinators)
    requires version <= 6 && K.FitsCoordinators(m) && |K.CoordinatorsBytes(version, m)| <= 104857600
    ensures DecodeSchema(Some(K.CoordinatorsBytes(version, m)), FindCoordinatorSchema(version))
            == Success(Some(CoordinatorsValue(version, m)))
    ensures EncodeSchema(Some(CoordinatorsValue(version, m)), FindCoordinatorSchema(version))
            == Success(Some(K.CoordinatorsBytes(version, m)))
  {
    hide Encodes, WideElements, FindCoordinatorTy, DecodeSchema, EncodeSchema, K.CoordinatorsBytes;
    CoordinatorsEncode(version, m);
    FindCoordinatorShapes(version);
    BothWays(FindCoordinatorSchema(version), CoordinatorsValue(version, m), K.CoordinatorsBytes(version, m));
  }

  // ---------------------------------------------------------------- addresses in a message

  /** A node with neither host nor port stays as it is; any other gets the mapped address, if there is one. */
  function MappedNode(n: K.Node, fn: Mapper): Option<K.Node> {
    if n.host == [] && n.port <= 0 then Some(n)
    else
      match fn(n.host, n.port, n.id)
      case Failure(_) => None
      case Success(to) => Some(n.(host := to.0, port := to.1))
  }

  predicate NodesMapped(ns: seq<K.Node>, fn: Mapper) {
    forall i | 0 <= i < |ns| :: MappedNode(ns[i], fn).Some?
  }

  predicate NodeFields(ty: Ty) {
    && ty.Struct? && |ty.fields| >= 3
    && ty.fields[0].name == NODE_ID && ty.fields[1].name == HOST && ty.fields[2].name == PORT
  }

  lemma NodeRewritten(ty: Ty, n: K.Node, rest: seq<Value>, fn: Mapper)
    requires NodeFields(ty)
    ensures var to := MappedNode(n, fn);
            RewriteAddress(StructV(ty, NodeFirst(n, rest)), fn)
            == if to.None? then Failure(MappingFailed) else Success(StructV(ty, NodeFirst(to.value, rest)))
  {
    var v := StructV(ty, NodeFirst(n, rest));
    assert HOST[0] != PORT[0] && |NODE_ID| != |HOST|;
    assert IndexOf(ty.fields[1..], HOST) == 0;
    assert IndexOf(ty.fields[1..][1..], PORT) == 0 && IndexOf(ty.fields[1..], PORT) == 1;
    assert FieldIndex(v, NODE_ID) == 0 && FieldIndex(v, HOST) == 1 && FieldIndex(v, PORT) == 2;
    hide IndexOf;
    var to := MappedNode(n, fn);
    if to.Some? {
      var t := to.value;
      assert NodeFirst(n, rest)[1 := StrV(t.host)] == NodeFirst(n.(host := t.host), rest);
      assert NodeFirst(n.(host := t.host), rest)[2 := Int32V(t.port)] == NodeFirst(t, rest);
      assert NodeFirst(n, rest)[2 := Int32V(t.port)] == NodeFirst(n.(port := t.port), rest);
    }
  }

  function BrokerNodes(bs: seq<K.Broker>): (ns: seq<K.Node>)
    ensures |ns| == |bs|
  {
    seq(|bs|, i requires 0 <= i < |bs| => bs[i].node)
  }

  /** The brokers under their new addresses. */
  function Readdressed(bs: seq<K.Broker>, fn: Mapper): (cs: seq<K.Broker>)
    requires NodesMapped(BrokerNodes(bs), fn)
    ensures |cs| == |bs|
  {
    seq(|bs|, i requires 0 <= i < |bs| => bs[i].(node := MappedNode(BrokerNodes(bs)[i], fn).value))
  }

  lemma BrokerRewritten(version: nat, b: K.Broker, fn: Mapper)
    requires K.FitTags(b.tags)
    ensures BrokerValue(version, b).StructV?
    ensures var to := MappedNode(b.node, fn);
            RewriteAddress(BrokerValue(version, b), fn)
            == if to.None? then Failure(MappingFailed) else Success(BrokerValue(version, b.(node := to.value)))
  {
    hide Raw, RewriteAddress, NodeFirst;
    BrokerFields(version);
    NodeRewritten(BrokerTy(version), b.node, (if version >= 1 then [StrPtr(b.rack)] else [])
                                             + ((if version >= 9 then [TaggedV(Raw(b.tags))] else []) + []), fn);
  }

  lemma BrokersRewritten(version: nat, bs: seq<K.Broker>, fn: Mapper)
    requires forall i | 0 <= i < |bs| :: K.FitsBroker(bs[i])
    requires NodesMapped(BrokerNodes(bs), fn) && forall i | 0 <= i < |bs| :: K.FitsBroker(Readdressed(bs, fn)[i])
    ensures RewriteAddresses(BrokerValues(version, bs), fn) == Success(BrokerValues(version, Readdressed(bs, fn)))
  {
    hide BrokerValue, RewriteAddress, K.FitsBroker, MappedNode;
    var vs, cs := BrokerValues(version, bs), Readdressed(bs, fn);
    forall i | 0 <= i < |bs|
      ensures vs[i].StructV? && RewriteAddress(vs[i], fn) == Success(BrokerValues(version, cs)[i])
    {
      FitsAreTagged(bs[i]);
      BrokerRewritten(version, bs[i], fn);
      assert MappedNode(BrokerNodes(bs)[i], fn).Some?;
    }
    ElementByElement(ResponseKind.Metadata, vs, BrokerValues(version, cs), fn);
  }

  lemma BrokersRefused(version: nat, bs: seq<K.Broker>, fn: Mapper)
    requires forall i | 0 <= i < |bs| :: K.FitsBroker(bs[i])
    requires !NodesMapped(BrokerNodes(bs), fn)
    ensures RewriteAddresses(BrokerValues(version, bs), fn) == Failure(MappingFailed)
  {
    hide BrokerValue, RewriteAddress, K.FitsBroker, MappedNode;
    var vs := BrokerValues(version, bs);
    forall i | 0 <= i < |bs|
      ensures vs[i].StructV?
      ensures RewriteAddress(vs[i], fn) == Failure(MappingFailed) || RewriteAddress(vs[i], fn).Success?
      ensures RewriteAddress(vs[i], fn).Failure? <==> MappedNode(BrokerNodes(bs)[i], fn).None?
    {
      FitsAreTagged(bs[i]);
      BrokerRewritten(version, bs[i], fn);
    }
    var i :| 0 <= i < |bs| && MappedNode(BrokerNodes(bs)[i], fn).None?;
    ElementRefused(ResponseKind.Metadata, vs, fn, i);
  }

  lemma FitsAreTagged(b: K.Broker)
    requires K.FitsBroker(b)
    ensures K.FitTags(b.tags)
  {
  }

  lemma BrokersPut(version: nat, m: K.Metadata, cs: seq<K.Broker>)
    requires version <= 13 && K.FitsMetadata(version, m) && K.FitsMetadata(version, m.(brokers := cs))
    ensures FieldIndex(MetadataValue(version, m), BROKERS) == if version <= 2 then 0 else 1
    ensures Get(MetadataValue(version, m), BROKERS) == ArrayV(BrokerValues(version, m.brokers))
    ensures Put(MetadataValue(version, m), BROKERS, ArrayV(BrokerValues(version, cs)))
            == MetadataValue(version, m.(brokers := cs))
  {
    hide MetadataFields, IndexOf, BrokerValues, TopicValues, Raw, K.FitsBroker, K.FitsTopic;
    BrokersIndex(version);
    var v, w := MetadataValue(version, m), MetadataValue(version, m.(brokers := cs));
    assert v.values[FieldIndex(v, BROKERS) := ArrayV(BrokerValues(version, cs))] == w.values;
  }

  /** The response with the mapped addresses in place. */
  function ReaddressedMetadata(m: K.Metadata, fn: Mapper): K.Metadata
    requires NodesMapped(BrokerNodes(m.brokers), fn)
  {
    m.(brokers := Readdressed(m.brokers, fn))
  }

  /**
   Rewriting a Metadata response of any version, from bytes to bytes: the bytes of the response
   become those of the response with the mapped addresses in place; and it is refused when an
   address has no mapping, or when the result is longer than 100 MiB.
   */
  lemma MetadataIsRewritten(version: nat, m: K.Metadata, fn: Mapper)
    requires version <= 13 && K.FitsMetadata(version, m) && |K.MetadataBytes(version, m)| <= 104857600
    ensures var applied := Apply(ResponseKind.Metadata, MetadataSchema(version), Some(K.MetadataBytes(version, m)),
                                 Some(fn));
            if !NodesMapped(BrokerNodes(m.brokers), fn) then applied == Failure(ModifyFailed(MappingFailed))
            else
              var m' := ReaddressedMetadata(m, fn);
              K.FitsMetadata(version, m') ==>
                var bytes := K.MetadataBytes(version, m');
                applied == if |bytes| <= 104857600 then Success(Some(bytes))
                           else Failure(CodecFailed(InvalidRequestSize(|bytes|)))
  {
    hide MetadataValue, MetadataSchema, DecodeSchema, EncodeSchema, RewriteAddresses, BrokerValues, K.MetadataBytes;
    hide Encodes, WideElements, NodesMapped, Readdressed, MetadataTy;
    MetadataIsRead(version, m);
    BrokersPut(version, m, m.brokers);
    MetadataIsStruct(version, m);
    if !NodesMapped(BrokerNodes(m.brokers), fn) {
      BrokersRefused(version, m.brokers, fn);
    } else {
      var m' := ReaddressedMetadata(m, fn);
      if K.FitsMetadata(version, m') {
        BrokersRewritten(version, m.brokers, fn);
        BrokersPut(version, m, m'.brokers);
        MetadataEncodes(version, m');
        MetadataShapes(version);
        MetadataIsStruct(version, m');
        BothWays(MetadataSchema(version), MetadataValue(version, m'), K.MetadataBytes(version, m'));
      }
    }
  }

  lemma MetadataIsStruct(version: nat, m: K.Metadata)
    requires version <= 13 && K.FitsMetadata(version, m)
    ensures MetadataValue(version, m).StructV?
  {
  }

  // ---------------------------------------------------------------- addresses of coordinators

  function CoordinatorNodes(version: nat, m: K.Coordinators): seq<K.Node> {
    if version <= 3 then [m.node] else seq(|m.list|, i requires 0 <= i < |m.list| => m.list[i].node)
  }

  function ReaddressedCoordinators(version: nat, m: K.Coordinators, fn: Mapper): K.Coordinators
    requires NodesMapped(CoordinatorNodes(version, m), fn)
  {
    var ns := CoordinatorNodes(version, m);
    if version <= 3 then m.(node := MappedNode(ns[0], fn).value)
    else
      m.(list := seq(|m.list|, i requires 0 <= i < |m.list| => m.list[i].(node := MappedNode(ns[i], fn).value)))
  }

  lemma NodeValueRewritten(flexible: bool, n: K.Node, fn: Mapper)
    ensures var to := MappedNode(n, fn);
            RewriteAddress(NodeValue(flexible, n), fn)
            == if to.None? then Failure(MappingFailed) else Success(NodeValue(flexible, to.value))
  {
    hide RewriteAddress, NodeFirst;
    NodeRewritten(NodeTy(flexible), n, [], fn);
  }

  lemma CoordinatorRewrittenTo(c: K.Coordinator, fn: Mapper)
    requires K.FitsCoordinator(c)
    ensures var to := MappedNode(c.node, fn);
            RewriteCoordinator(CoordinatorValue(c), fn)
            == if to.None? then Failure(MappingFailed)
               else Success(StructV(FindCoordinatorCoordinatorsSchema4(),
                                    CoordinatorValue(c).values[1 := NodeValue(true, to.value)]))
  {
    var v := CoordinatorValue(c);
    CoordinatorAt(v);
    hide IndexOf, RewriteAddress, NodeValue, FindCoordinatorCoordinatorsSchema4, Raw;
    NodeValueRewritten(true, c.node, fn);
    assert NodeValue(true, c.node).StructV? by {
      NodeIsStruct(true, c.node);
    }
  }

  lemma NodeIsStruct(flexible: bool, n: K.Node)
    ensures NodeValue(flexible, n).StructV?
  {
  }

  lemma CoordinatorAt(v: Value)
    requires v.StructV? && v.schema == FindCoordinatorCoordinatorsSchema4()
    ensures FieldIndex(v, COORDINATOR) == 1
  {
    hide FindCoordinatorBrokerSchema9;
  }

  lemma CoordinatorPut(c: K.Coordinator, n: K.Node)
    requires K.FitsCoordinator(c) && K.FitsCoordinator(c.(node := n))
    ensures StructV(FindCoordinatorCoordinatorsSchema4(), CoordinatorValue(c).values[1 := NodeValue(true, n)])
            == CoordinatorValue(c.(node := n))
  {
    hide FindCoordinatorCoordinatorsSchema4, NodeValue, Raw;
    assert CoordinatorValue(c).values[1 := NodeValue(true, n)] == CoordinatorValue(c.(node := n)).values;
  }

  lemma CoordinatorListRewritten(m: K.Coordinators, fn: Mapper)
    requires K.FitsCoordinators(m)
    ensures var ns := CoordinatorNodes(4, m);
            if !NodesMapped(ns, fn) then RewriteCoordinators(CoordinatorValues(m.list), fn) == Failure(MappingFailed)
            else
              var m' := ReaddressedCoordinators(4, m, fn);
              K.FitsCoordinators(m') ==>
                RewriteCoordinators(CoordinatorValues(m.list), fn) == Success(CoordinatorValues(m'.list))
  {
    hide CoordinatorValue, RewriteCoordinator, NodeValue, K.FitsCoordinator, MappedNode;
    hide FindCoordinatorCoordinatorsSchema4;
    var vs, ns := CoordinatorValues(m.list), CoordinatorNodes(4, m);
    forall i | 0 <= i < |vs|
      ensures vs[i].StructV? && |vs[i].values| == 5
      ensures RewriteCoordinator(vs[i], fn)
              == if MappedNode(ns[i], fn).None? then Failure(MappingFailed)
                 else Success(StructV(FindCoordinatorCoordinatorsSchema4(),
                                      vs[i].values[1 := NodeValue(true, MappedNode(ns[i], fn).value)]))
    {
      CoordinatorIsStruct(m.list[i]);
      CoordinatorRewrittenTo(m.list[i], fn);
    }
    if !NodesMapped(ns, fn) {
      var i :| 0 <= i < |ns| && MappedNode(ns[i], fn).None?;
      ElementRefused(FindCoordinator, vs, fn, i);
    } else if K.FitsCoordinators(ReaddressedCoordinators(4, m, fn)) {
      var m' := ReaddressedCoordinators(4, m, fn);
      forall i | 0 <= i < |vs|
        ensures RewriteCoordinator(vs[i], fn) == Success(CoordinatorValues(m'.list)[i])
      {
        CoordinatorPut(m.list[i], m'.list[i].node);
      }
      ElementByElement(FindCoordinator, vs, CoordinatorValues(m'.list), fn);
    }
  }

  lemma CoordinatorIsStruct(c: K.Coordinator)
    requires K.FitsCoordinator(c)
    ensures CoordinatorValue(c).StructV? && |CoordinatorValue(c).values| == 5
  {
  }

  lemma CoordinatorsPut(version: nat, m: K.Coordinators, m': K.Coordinators)
    requires version <= 6 && K.FitsCoordinators(m) && K.FitsCoordinators(m')
    requires if version <= 3 then m' == m.(node := m'.node) else m' == m.(list := m'.list)
    ensures var v, w := CoordinatorsValue(version, m), CoordinatorsValue(version, m');
            if version <= 3 then
              && Get(v, COORDINATORS) == Nil && Get(v, COORDINATOR) == NodeValue(version >= 3, m.node)
              && Put(v, COORDINATOR, NodeValue(version >= 3, m'.node)) == w
            else
              && Get(v, COORDINATORS) == ArrayV(CoordinatorValues(m.list))
              && Put(v, COORDINATORS, ArrayV(CoordinatorValues(m'.list))) == w
  {
    hide FindCoordinatorFields, IndexOf, CoordinatorValues, NodeValue, Raw, K.FitsCoordinator;
    FindCoordinatorIndices(version);
    var v, w := CoordinatorsValue(version, m), CoordinatorsValue(version, m');
    if version <= 3 {
      assert v.values[FieldIndex(v, COORDINATOR) := NodeValue(version >= 3, m'.node)] == w.values;
    } else {
      assert v.values[FieldIndex(v, COORDINATORS) := ArrayV(CoordinatorValues(m'.list))] == w.values;
    }
  }

  lemma CoordinatorsRewrittenTo(version: nat, m: K.Coordinators, fn: Mapper)
    requires version <= 6 && K.FitsCoordinators(m)
    ensures var r := Rewrite(FindCoordinator, Some(CoordinatorsValue(version, m)), Some(fn));
            if !NodesMapped(CoordinatorNodes(version, m), fn) then r == Failure(MappingFailed)
            else
              var m' := ReaddressedCoordinators(version, m, fn);
              K.FitsCoordinators(m') ==> r == Success(CoordinatorsValue(version, m'))
  {
    hide CoordinatorsValue, CoordinatorValues, NodeValue, RewriteAddress, RewriteCoordinators, Get, Put, MappedNode;
    hide K.FitsCoordinators;
    CoordinatorsPut(version, m, m);
    CoordinatorsIsStruct(version, m);
    var ns := CoordinatorNodes(version, m);
    if version <= 3 {
      NodeValueRewritten(version >= 3, m.node, fn);
      NodeIsStruct(version >= 3, m.node);
      assert NodesMapped(ns, fn) <==> MappedNode(ns[0], fn).Some?;
    } else {
      CoordinatorListRewritten(m, fn);
    }
    if NodesMapped(ns, fn) && K.FitsCoordinators(ReaddressedCoordinators(version, m, fn)) {
      CoordinatorsPut(version, m, ReaddressedCoordinators(version, m, fn));
    }
  }

  lemma CoordinatorsIsStruct(version: nat, m: K.Coordinators)
    requires version <= 6 && K.FitsCoordinators(m)
    ensures CoordinatorsValue(version, m).StructV?
  {
  }

  /** The same for FindCoordinator responses of any version, with one coordinator or a list. */
  lemma CoordinatorsAreRewritten(version: nat, m: K.Coordinators, fn: Mapper)
    requires version <= 6 && K.FitsCoordinators(m) && |K.CoordinatorsBytes(version, m)| <= 104857600
    ensures var applied := Apply(FindCoordinator, FindCoordinatorSchema(version), Some(K.CoordinatorsBytes(version, m)),
                                 Some(fn));
            if !NodesMapped(CoordinatorNodes(version, m), fn) then applied == Failure(ModifyFailed(MappingFailed))
            else
              var m' := ReaddressedCoordinators(version, m, fn);
              K.FitsCoordinators(m') ==>
                var bytes := K.CoordinatorsBytes(version, m');
                applied == if |bytes| <= 104857600 then Success(Some(bytes))
                           else Failure(CodecFailed(InvalidRequestSize(|bytes|)))
  {
    hide CoordinatorsValue, FindCoordinatorSchema, DecodeSchema, EncodeSchema, Rewrite, K.CoordinatorsBytes;
    hide Encodes, WideElements, NodesMapped, ReaddressedCoordinators, FindCoordinatorTy, K.FitsCoordinators;
    CoordinatorsAreRead(version, m);
    CoordinatorsIsStruct(version, m);
    CoordinatorsRewrittenTo(version, m, fn);
    if NodesMapped(CoordinatorNodes(version, m), fn) {
      var m' := ReaddressedCoordinators(version, m, fn);
      if K.FitsCoordinators(m') {
        CoordinatorsEncode(version, m');
        FindCoordinatorShapes(version);
        CoordinatorsIsStruct(version, m');
        BothWays(FindCoordinatorSchema(version), CoordinatorsValue(version, m'), K.CoordinatorsBytes(version, m'));
      }
    }
  }
}
