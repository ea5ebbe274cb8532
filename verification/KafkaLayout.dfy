/**
 Kafka messages as the protocol lays them out, field by field and byte by byte, for all versions of
 the Metadata and FindCoordinator responses. Numbers are big-endian; from Metadata version 9 and
 FindCoordinator version 3 on lengths are varints and one more than the length, and structs end
 with tagged fields. Nothing here is shared with the codec.
 */
module KafkaLayout {
  import opened Wrappers
  import opened Bytes

  // ---------------------------------------------------------------- numbers, strings and arrays

  function I16(i: int16): (s: seq<byte>)
    ensures |s| == 2
  {
    var u := if i < 0 then i + 65536 else i;
    [u / 256, u % 256]
  }

  function I32(i: int32): (s: seq<byte>)
    ensures |s| == 4
  {
    var u := if i < 0 then i + 4294967296 else i;
    [u / 16777216, u / 65536 % 256, u / 256 % 256, u % 256]
  }

  /** Seven bits in each byte, the lowest first; the high bit says that another byte follows. */
  function Uvarint(u: nat): (s: seq<byte>) {
    if u <= 127 then [u] else [128 + u % 128] + Uvarint(u / 128)
  }

  type Text = seq<byte>

  predicate FitsText(s: Text) {
    |s| <= 32767
  }

  predicate FitsMaybe(s: Option<Text>) {
    s.Some? ==> FitsText(s.value)
  }

  function TextBytes(flexible: bool, s: Text): seq<byte>
    requires FitsText(s)
  {
    (if flexible then Uvarint(|s| + 1) else I16(|s|)) + s
  }

  function MaybeBytes(flexible: bool, s: Option<Text>): seq<byte>
    requires FitsMaybe(s)
  {
    match s
    case None => if flexible then [0] else [255, 255]
    case Some(text) => TextBytes(flexible, text)
  }

  /** The array limit of the proxy's decoder, and the one of its encoder for compact arrays. */
  predicate FitsArray(flexible: bool, n: nat) {
    n <= if flexible then 32767 else 131070
  }

  function Concat(parts: seq<seq<byte>>): seq<byte> {
    if parts == [] then [] else parts[0] + Concat(parts[1..])
  }

  function ArrayBytes(flexible: bool, elems: seq<seq<byte>>): seq<byte>
    requires FitsArray(flexible, |elems|)
  {
    (if flexible then Uvarint(|elems| + 1) else I32(|elems|)) + Concat(elems)
  }

  function Ints(flexible: bool, ns: seq<int32>): seq<byte>
    requires FitsArray(flexible, |ns|)
  {
    ArrayBytes(flexible, IntList(ns))
  }

  function IntList(ns: seq<int32>): (list: seq<seq<byte>>)
    ensures |list| == |ns|
  {
    seq(|ns|, i requires 0 <= i < |ns| => I32(ns[i]))
  }

  /** KIP-482 */
  datatype Tag = Tag(tag: nat, data: seq<byte>)

  predicate FitsTag(t: Tag) {
    t.tag < 0x8000_0000_0000_0000 && |t.data| <= 2147483647
  }

  predicate FitTags(tags: seq<Tag>) {
    |tags| < 0x8000_0000_0000_0000 && forall i | 0 <= i < |tags| :: FitsTag(tags[i])
  }

  function TagBytes(t: Tag): seq<byte> {
    Uvarint(t.tag) + (Uvarint(|t.data|) + t.data)
  }

  function TagsBytes(tags: seq<Tag>): seq<byte> {
    Uvarint(|tags|) + Concat(TagList(tags))
  }

  function TagList(tags: seq<Tag>): (list: seq<seq<byte>>)
    ensures |list| == |tags|
  {
    seq(|tags|, i requires 0 <= i < |tags| => TagBytes(tags[i]))
  }

  // ---------------------------------------------------------------- Metadata

  /** What names a broker in either response. */
  datatype Node = Node(id: int32, host: Host, port: int32)

  datatype Broker = Broker(node: Node, rack: Option<Text>, tags: seq<Tag>)

  datatype Partition = Partition(error: int16, index: int32, leader: int32, leaderEpoch: int32,
                                 replicas: seq<int32>, isr: seq<int32>, offline: seq<int32>, tags: seq<Tag>)

  type TopicId = s: seq<byte> | |s| == 16 witness seq(16, _ => 0)

  datatype Topic = Topic(error: int16, name: Option<Text>, id: TopicId, internal: bool,
                         partitions: seq<Partition>, operations: int32, tags: seq<Tag>)

  datatype Metadata = Metadata(throttle: int32, brokers: seq<Broker>, cluster: Option<Text>, controller: int32,
                               topics: seq<Topic>, operations: int32, error: int16, tags: seq<Tag>)

  predicate FitsNode(n: Node) {
    FitsText(n.host)
  }

  predicate FitsBroker(b: Broker) {
    FitsNode(b.node) && FitsMaybe(b.rack) && FitTags(b.tags)
  }

  predicate FitsPartition(version: nat, p: Partition) {
    && FitsArray(version >= 9, |p.replicas|) && FitsArray(version >= 9, |p.isr|) && FitsArray(version >= 9, |p.offline|)
    && FitTags(p.tags)
  }

  /** Only version 12 allows a topic without a name. */
  predicate FitsTopic(version: nat, t: Topic) {
    && FitsMaybe(t.name) && (version <= 11 ==> t.name.Some?)
    && FitsArray(version >= 9, |t.partitions|) && FitTags(t.tags)
    && forall i | 0 <= i < |t.partitions| :: FitsPartition(version, t.partitions[i])
  }

  predicate FitsMetadata(version: nat, m: Metadata) {
    && FitsArray(version >= 9, |m.brokers|) && FitsArray(version >= 9, |m.topics|) && FitsMaybe(m.cluster)
    && FitTags(m.tags)
    && (forall i | 0 <= i < |m.brokers| :: FitsBroker(m.brokers[i]))
    && (forall i | 0 <= i < |m.topics| :: FitsTopic(version, m.topics[i]))
  }

  function NodeBytes(flexible: bool, n: Node): seq<byte>
    requires FitsNode(n)
  {
    I32(n.id) + (TextBytes(flexible, n.host) + I32(n.port))
  }

  function BrokerBytes(version: nat, b: Broker): seq<byte>
    requires FitsBroker(b)
  {
    var flexible := version >= 9;
    NodeBytes(flexible, b.node)
    + ((if version >= 1 then MaybeBytes(flexible, b.rack) else [])
       + (if flexible then TagsBytes(b.tags) else []))
  }

  function PartitionBytes(version: nat, p: Partition): seq<byte>
    requires FitsPartition(version, p)
  {
    var flexible := version >= 9;
    I16(p.error)
    + (I32(p.index)
       + (I32(p.leader)
          + ((if version >= 7 then I32(p.leaderEpoch) else [])
             + (Ints(flexible, p.replicas)
                + (Ints(flexible, p.isr)
                   + ((if version >= 5 then Ints(flexible, p.offline) else [])
                      + (if flexible then TagsBytes(p.tags) else [])))))))
  }

  function PartitionList(version: nat, xs: seq<Partition>): (list: seq<seq<byte>>)
    requires forall i | 0 <= i < |xs| :: FitsPartition(version, xs[i])
    ensures |list| == |xs|
  {
    seq(|xs|, i requires 0 <= i < |xs| => PartitionBytes(version, xs[i]))
  }

  function TopicBytes(version: nat, t: Topic): seq<byte>
    requires FitsTopic(version, t)
  {
    var flexible := version >= 9;
    I16(t.error)
    + (MaybeBytes(flexible, t.name)
       + ((if version >= 10 then t.id else [])
          + ((if version >= 1 then [if t.internal then 1 else 0] else [])
             + (ArrayBytes(flexible, PartitionList(version, t.partitions))
                + ((if version >= 8 then I32(t.operations) else [])
                   + (if flexible then TagsBytes(t.tags) else []))))))
  }

  function BrokerList(version: nat, xs: seq<Broker>): (list: seq<seq<byte>>)
    requires forall i | 0 <= i < |xs| :: FitsBroker(xs[i])
    ensures |list| == |xs|
  {
    seq(|xs|, i requires 0 <= i < |xs| => BrokerBytes(version, xs[i]))
  }

  function TopicList(version: nat, xs: seq<Topic>): (list: seq<seq<byte>>)
    requires forall i | 0 <= i < |xs| :: FitsTopic(version, xs[i])
    ensures |list| == |xs|
  {
    seq(|xs|, i requires 0 <= i < |xs| => TopicBytes(version, xs[i]))
  }

  function MetadataBytes(version: nat, m: Metadata): seq<byte>
    requires FitsMetadata(version, m)
  {
    var flexible := version >= 9;
    (if version >= 3 then I32(m.throttle) else [])
    + (ArrayBytes(flexible, BrokerList(version, m.brokers))
       + ((if version >= 2 then MaybeBytes(flexible, m.cluster) else [])
          + ((if version >= 1 then I32(m.controller) else [])
             + (ArrayBytes(flexible, TopicList(version, m.topics))
                + ((if 8 <= version <= 10 then I32(m.operations) else [])
                   + ((if version == 13 then I16(m.error) else [])
                      + (if flexible then TagsBytes(m.tags) else [])))))))
  }

  // ---------------------------------------------------------------- FindCoordinator

  datatype Coordinator = Coordinator(key: Text, node: Node, error: int16, message: Option<Text>, tags: seq<Tag>)

  /** Up to version 3 there is one coordinator, later a list of them. */
  datatype Coordinators = Coordinators(throttle: int32, error: int16, message: Option<Text>, node: Node,
                                       list: seq<Coordinator>, tags: seq<Tag>)

  predicate FitsCoordinator(c: Coordinator) {
    FitsText(c.key) && FitsNode(c.node) && FitsMaybe(c.message) && FitTags(c.tags)
  }

  predicate FitsCoordinators(m: Coordinators) {
    && FitsMaybe(m.message) && FitsNode(m.node) && FitTags(m.tags) && FitsArray(true, |m.list|)
    && forall i | 0 <= i < |m.list| :: FitsCoordinator(m.list[i])
  }

  function CoordinatorBytes(c: Coordinator): seq<byte>
    requires FitsCoordinator(c)
  {
    TextBytes(true, c.key)
    + (NodeBytes(true, c.node) + (I16(c.error) + (MaybeBytes(true, c.message) + TagsBytes(c.tags))))
  }

  function CoordinatorList(xs: seq<Coordinator>): (list: seq<seq<byte>>)
    requires forall i | 0 <= i < |xs| :: FitsCoordinator(xs[i])
    ensures |list| == |xs|
  {
    seq(|xs|, i requires 0 <= i < |xs| => CoordinatorBytes(xs[i]))
  }

  function CoordinatorsBytes(version: nat, m: Coordinators): seq<byte>
    requires FitsCoordinators(m)
  {
    var flexible := version >= 3;
    (if version >= 1 then I32(m.throttle) else [])
    + ((if version <= 3 then
          I16(m.error)
          + ((if version >= 1 then MaybeBytes(flexible, m.message) else [])
             + NodeBytes(flexible, m.node))
        else
          ArrayBytes(true, CoordinatorList(m.list)))
       + (if flexible then TagsBytes(m.tags) else []))
  }

  // ---------------------------------------------------------------- frames

  /** A response behind its length and the correlation id of its request. */
  function ResponseFrame(corr: int32, tags: Option<seq<Tag>>, body: seq<byte>): seq<byte>
    requires 4 + |HeaderTags(tags)| + |body| <= 2147483647
  {
    I32(4 + |HeaderTags(tags)| + |body|) + (I32(corr) + (HeaderTags(tags) + body))
  }

  /** Response header version 1 has tagged fields, version 0 has none. */
  function HeaderTags(tags: Option<seq<Tag>>): seq<byte> {
    if tags.Some? then TagsBytes(tags.value) else []
  }
}
