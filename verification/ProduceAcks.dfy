/**
 Whether a Produce request will be answered: what the proxy's peek into it says, and what the
 broker, which reads the request as the protocol lays it out, does.
 */
module ProduceAcks {
  import opened Wrappers
  import opened Bytes
  import opened Varint
  import opened HeaderTags

  const API_KEY_PRODUCE := 0

  /** The length of a nullable string at the start of `s`. */
  function SkipNullableString(s: seq<byte>): (n: Option<nat>)
    ensures n.Some? ==> n.value <= |s|
  {
    if |s| < 2 || Get16(s) < -1 then None
    else if Get16(s) <= 0 then Some(2)
    else if |s| < 2 + Get16(s) then None
    else Some(2 + Get16(s))
  }

  datatype Peek = Peek(acks: int, n: nat)

  /** RequestAcksReader on what follows key and version: correlation id, client id, and so on. */
  function PeekAcks(version: int, s: seq<byte>): (p: Option<Peek>)
    ensures p.Some? ==> p.value.n <= |s|
  {
    if |s| < 4 then None
    else
      var client := SkipNullableString(s[4..]);
      if client.None? then None
      else
        var at := 4 + client.value;
        var txn := if 0 <= version <= 2 then Some(0) else SkipNullableString(s[at..]);
        if txn.None? || |s| < at + txn.value + 2 then None
        else Some(Peek(Get16(s[at + txn.value..]), at + txn.value + 2))
  }

  /** Whether the proxy will expect a reply, and how many bytes it has read to tell. */
  function PeekExpects(version: int, s: seq<byte>): Option<bool> {
    var p := PeekAcks(version, s);
    if p.None? then None else Some(p.value.acks != 0)
  }

  lemma SkipIsLocal(s: seq<byte>, t: seq<byte>)
    requires SkipNullableString(s).Some?
    requires var n := SkipNullableString(s).value; n <= |t| && t[..n] == s[..n]
    ensures SkipNullableString(t) == SkipNullableString(s)
  {
    var n := SkipNullableString(s).value;
    assert s[0] == s[..n][0] && s[1] == s[..n][1] && t[0] == t[..n][0] && t[1] == t[..n][1];
  }

  /** The peek depends on the bytes it reads and on no others. */
  lemma PeekIsLocal(version: int, s: seq<byte>, t: seq<byte>)
    requires PeekAcks(version, s).Some?
    requires var n := PeekAcks(version, s).value.n; n <= |t| && t[..n] == s[..n]
    ensures PeekAcks(version, t) == PeekAcks(version, s)
  {
    hide Get16, SkipNullableString;
    var n := PeekAcks(version, s).value.n;
    var client := SkipNullableString(s[4..]).value;
    SameMiddle(s, t, n, 4, client);
    SkipIsLocal(s[4..], t[4..]);
    var at := 4 + client;
    if !(0 <= version <= 2) {
      SameMiddle(s, t, n, at, SkipNullableString(s[at..]).value);
      SkipIsLocal(s[at..], t[at..]);
    }
    SameMiddle(s, t, n, n - 2, 2);
    assert s[n - 2..] == s[n - 2..][..2] + s[n..] && t[n - 2..] == t[n - 2..][..2] + t[n..];
    Get16Of(s[n - 2..][..2], s[n..]);
    Get16Of(t[n - 2..][..2], t[n..]);
  }

  lemma SameMiddle(s: seq<byte>, t: seq<byte>, n: nat, k: nat, m: nat)
    requires k + m <= n <= |s| && n <= |t| && s[..n] == t[..n]
    ensures s[k..][..m] == t[k..][..m]
  {
    assert s[k..][..m] == s[..n][k..k + m] && t[k..][..m] == t[..n][k..k + m];
  }

  lemma Get16Of(a: seq<byte>, rest: seq<byte>)
    requires |a| >= 2
    ensures Get16(a + rest) == Get16(a)
  {
  }

  // ---------------------------------------------------------------- the broker's reading

  function SkipCompactNullableString(s: seq<byte>): (n: Option<nat>)
    ensures n.Some? ==> n.value <= |s|
  {
    match ReadUvarint(s)
    case Done(u, n) => if u == 0 then Some(n) else if |s| < n + u - 1 then None else Some(n + u - 1)
    case _ => None
  }

  /**
   The acks field as the Kafka protocol places it: from version 9 on the header ends with tagged
   fields and the transactional id is a compact string.
   */
  function BrokerAcks(version: int, s: seq<byte>): Option<int> {
    if version < 9 then
      var p := PeekAcks(version, s);
      if p.None? then None else Some(p.value.acks)
    else if |s| < 4 then None
    else
      var client := SkipNullableString(s[4..]);
      if client.None? then None
      else
        var s := s[4 + client.value..];
        var tags := SkipTagged(s);
        if tags.None? then None
        else
          var s := s[tags.value..];
          var txn := SkipCompactNullableString(s);
          if txn.None? || |s| < txn.value + 2 then None else Some(Get16(s[txn.value..]))
  }

  /** A Produce request with acks 0, and one the broker can not read, is not answered. */
  predicate BrokerReplies(key: int, version: int, s: seq<byte>) {
    key == API_KEY_PRODUCE ==> BrokerAcks(version, s).Some? && BrokerAcks(version, s).value != 0
  }

  function PutNullableString(x: Option<seq<byte>>): seq<byte> {
    match x
    case None => Put16(-1)
    case Some(s) => Put16(|s|) + s
  }

  function PutCompactNullableString(x: Option<seq<byte>>): seq<byte> {
    match x
    case None => PutUvarint(0)
    case Some(s) => PutUvarint(|s| + 1) + s
  }

  ghost predicate Short(x: Option<seq<byte>>) {
    x.Some? ==> |x.value| <= MAX_INT16
  }

  lemma SkipWritten(x: Option<seq<byte>>, rest: seq<byte>)
    requires Short(x)
    ensures SkipNullableString(PutNullableString(x) + rest) == Some(|PutNullableString(x)|)
    ensures (PutNullableString(x) + rest)[|PutNullableString(x)|..] == rest
  {
    hide Put16, Get16;
    match x
    case None => Get16AfterPut16(-1, rest);
    case Some(s) =>
      assert PutNullableString(x) + rest == Put16(|s|) + (s + rest);
      Get16AfterPut16(|s|, s + rest);
  }

  /** A Produce request after its key and version, for header version 1 (up to version 8). */
  function ProduceBody(version: int, corr: int, client: Option<seq<byte>>, txn: Option<seq<byte>>, acks: int16,
                       rest: seq<byte>): seq<byte> {
    Put32(corr) + (PutNullableString(client)
                   + ((if version <= 2 then [] else PutNullableString(txn)) + (Put16(acks) + rest)))
  }

  /** Up to version 8 the peek, like the broker, reads the acks field itself. */
  lemma AcksAreSeen(version: int, corr: int, client: Option<seq<byte>>, txn: Option<seq<byte>>, acks: int16,
                    rest: seq<byte>)
    requires 0 <= version <= 8 && Short(client) && Short(txn)
    ensures var s := ProduceBody(version, corr, client, txn, acks, rest);
            BrokerAcks(version, s) == Some(acks) && PeekExpects(version, s) == Some(acks != 0)
  {
    hide Put16, Put32, Get16, PutNullableString, SkipNullableString, PeekAcks;
    var s := ProduceBody(version, corr, client, txn, acks, rest);
    var tail := Put16(acks) + rest;
    var middle := if version <= 2 then [] else PutNullableString(txn);
    SkipWritten(client, middle + tail);
    SkipWritten(txn, tail);
    Get16AfterPut16(acks, rest);
    ThreeParts(Put32(corr), PutNullableString(client), middle, tail);
    PeekIs(version, s, 4 + |PutNullableString(client)|, |middle|, acks);
  }

  lemma ThreeParts(a: seq<byte>, b: seq<byte>, c: seq<byte>, d: seq<byte>)
    ensures var s := a + (b + (c + d));
            s[|a|..] == b + (c + d) && s[|a| + |b|..] == c + d && s[|a| + |b| + |c|..] == d
  {
  }

  lemma PeekIs(version: int, s: seq<byte>, at: nat, n: nat, acks: int)
    requires 4 <= at && at + n + 2 <= |s| && SkipNullableString(s[4..]) == Some(at - 4)
    requires if 0 <= version <= 2 then n == 0 else SkipNullableString(s[at..]) == Some(n)
    requires Get16(s[at + n..]) == acks
    ensures PeekAcks(version, s) == Some(Peek(acks, at + n + 2))
  {
    hide Get16, SkipNullableString;
  }

  /**
   From version 9 on: header version 2 with its tagged fields, `[0]` if there are none, and a
   compact transactional id.
   */
  function FlexibleTail(tags: seq<byte>, txn: Option<seq<byte>>, acks: int16, timeout: int32,
                        rest: seq<byte>): seq<byte> {
    tags + PutCompactNullableString(txn) + Put16(acks) + Put32(timeout) + rest
  }

  function FlexibleBody(corr: int, client: Option<seq<byte>>, tags: seq<byte>, txn: Option<seq<byte>>,
                        acks: int16, timeout: int32, rest: seq<byte>): seq<byte> {
    Put32(corr) + (PutNullableString(client) + FlexibleTail(tags, txn, acks, timeout, rest))
  }

  ghost predicate IsTags(tags: seq<byte>) {
    SkipTagged(tags) == Some(|tags|)
  }

  lemma CompactWritten(x: Option<seq<byte>>, rest: seq<byte>)
    requires x.Some? ==> |x.value| <= MAX_INT32
    ensures SkipCompactNullableString(PutCompactNullableString(x) + rest) == Some(|PutCompactNullableString(x)|)
    ensures (PutCompactNullableString(x) + rest)[|PutCompactNullableString(x)|..] == rest
  {
    hide PutUvarint, ReadUvarint;
    match x
    case None => ReadAfterPut(0, rest);
    case Some(s) =>
      assert PutCompactNullableString(x) + rest == PutUvarint(|s| + 1) + (s + rest);
      ReadAfterPut(|s| + 1, s + rest);
  }

  lemma InFront(a: seq<byte>, b: seq<byte>)
    ensures (a + b)[|a|..] == b
  {
  }

  lemma TagsWritten(tags: seq<byte>, rest: seq<byte>)
    requires IsTags(tags)
    ensures SkipTagged(tags + rest) == Some(|tags|) && (tags + rest)[|tags|..] == rest
  {
    hide SkipTagged;
    SkipTaggedPrefix(tags, rest);
  }

  /** The broker reads the acks field, whatever stands before it. */
  lemma BrokerReadsAcks(version: int, corr: int, client: Option<seq<byte>>, tags: seq<byte>, txn: Option<seq<byte>>,
                        acks: int16, timeout: int32, rest: seq<byte>)
    requires version >= 9 && Short(client) && IsTags(tags) && (txn.Some? ==> |txn.value| <= MAX_INT32)
    ensures BrokerAcks(version, FlexibleBody(corr, client, tags, txn, acks, timeout, rest)) == Some(acks)
  {
    hide Put16, Put32, Get16, PutNullableString;
    hide PutCompactNullableString, SkipNullableString, SkipCompactNullableString;
    hide SkipTagged, IsTags;
    var a, t := Put16(acks), Put32(timeout);
    var v := PutCompactNullableString(txn);
    var after := a + (t + rest);
    TailPieces(tags, v, a, t, rest);
    Get16AfterPut16(acks, t + rest);
    CompactWritten(txn, after);
    TagsWritten(tags, v + after);
    SkipWritten(client, tags + (v + after));
    InFront(Put32(corr), PutNullableString(client) + (tags + (v + after)));
    TwoInFront(Put32(corr), PutNullableString(client), tags + (v + after));
  }

  lemma TailPieces(tags: seq<byte>, v: seq<byte>, a: seq<byte>, t: seq<byte>, rest: seq<byte>)
    ensures tags + v + a + t + rest == tags + (v + (a + (t + rest)))
  {
  }

  lemma TwoInFront(a: seq<byte>, b: seq<byte>, c: seq<byte>)
    ensures (a + (b + c))[|a| + |b|..] == c
  {
  }

  /** The length the peek takes for an id of `n` bytes: the first byte of the varint of `n` + 1. */
  function SeenLength(n: nat): (b: nat)
    ensures 1 <= b <= 0xFF
    ensures n >= 255 ==> b < n && 0x80 <= b
    ensures n <= 254 ==> b == n + 1
  {
    if n < 0x7F then n + 1 else (n + 1) % 0x80 + 0x80
  }

  /** The other bytes of that varint. */
  function HighBytes(n: nat): nat {
    if n < 0x7F then 0 else |PutUvarint((n + 1) / 0x80)|
  }

  lemma HighBytesBound(n: nat)
    requires n <= MAX_INT32
    ensures HighBytes(n) <= 9
    ensures 0x7F <= n ==> 1 <= HighBytes(n)
    ensures 0x7F <= n <= 254 ==> HighBytes(n) == 1
  {
    if n >= 0x7F {
      PutLength((n + 1) / 0x80, 1);
    }
  }

  /** The two bytes the peek takes for acks. */
  function SeenAcks(txn: Option<seq<byte>>, acks: int16, timeout: int32): (byte, byte)
    requires txn.Some? ==> |txn.value| <= MAX_INT32
  {
    var a, t := Put16(acks), Put32(timeout);
    match txn
    case None => (a[0], a[1])
    case Some(id) =>
      HighBytesBound(|id|);
      if |id| <= 126 then (a[1], t[0])
      else if |id| <= 254 then (a[0], a[1])
      else var k := SeenLength(|id|) - HighBytes(|id|); (id[k], id[k + 1])
  }

  /** A string that starts with the bytes 0 and `n`. */
  lemma SkipHead(n: nat, head: seq<byte>, x: seq<byte>)
    requires |head| == 2 && head[0] == 0 && head[1] == n <= |x|
    ensures SkipNullableString(head + x) == Some(2 + n) && (head + x)[2 + n..] == x[n..]
  {
  }

  lemma Regroup(z: seq<byte>, low: seq<byte>, high: seq<byte>, id: seq<byte>, after: seq<byte>)
    ensures z + (low + high + id) + after == (z + low) + (high + id + after)
  {
  }

  lemma CompactSeen(n: nat, low: seq<byte>, high: seq<byte>, id: seq<byte>, after: seq<byte>)
    requires |low| == 1 && low[0] == n <= |high| + |id| + |after|
    ensures var tail := [0] + (low + high + id) + after;
            SkipNullableString(tail) == Some(2 + n) && tail[2 + n..] == (high + id + after)[n..]
  {
    var z: seq<byte> := [0];
    SkipHead(n, z + low, high + id + after);
    Regroup(z, low, high, id, after);
  }

  /** The first byte of the varint, and the others. */
  lemma VarintOfLength(n: nat) returns (low: seq<byte>, high: seq<byte>)
    ensures PutUvarint(n + 1) == low + high && |low| == 1 && low[0] == SeenLength(n) && |high| == HighBytes(n)
  {
    low := [SeenLength(n)];
    high := if n < 0x7F then [] else PutUvarint((n + 1) / 0x80);
  }

  /** The peek finds `SeenAcks` behind what it takes for the transactional id. */
  ghost predicate Peeks(tail: seq<byte>, seen: (byte, byte)) {
    var n := SkipNullableString(tail);
    n.Some? && n.value + 2 <= |tail| && (tail[n.value..][0], tail[n.value..][1]) == seen
  }

  lemma PeeksAt(tail: seq<byte>, n: nat, x: seq<byte>, seen: (byte, byte))
    requires SkipNullableString(tail) == Some(n) && n <= |tail| && tail[n..] == x && |x| >= 2 && seen == (x[0], x[1])
    ensures Peeks(tail, seen)
  {
    hide SkipNullableString;
  }

  lemma SeenIsThere(id: seq<byte>, acks: int16, timeout: int32, high: seq<byte>, after: seq<byte>)
    requires |id| <= MAX_INT32 && |high| == HighBytes(|id|) && |after| >= 3
    requires after[..2] == Put16(acks) && after[2] == Put32(timeout)[0]
    ensures var x, b := high + id + after, SeenLength(|id|);
            |x| >= b + 2 && (x[b], x[b + 1]) == SeenAcks(Some(id), acks, timeout)
  {
    hide SeenLength, Put16, Put32;
    HighBytesBound(|id|);
    assert after[0] == after[..2][0] && after[1] == after[..2][1];
  }

  lemma RegroupTail(z: seq<byte>, v: seq<byte>, a: seq<byte>, t: seq<byte>, rest: seq<byte>)
    ensures z + v + a + t + rest == z + v + (a + t + rest)
    ensures |a| == 2 && |t| >= 1 ==> (a + t + rest)[..2] == a && (a + t + rest)[2] == t[0]
  {
  }

  lemma FlexibleTailSeen(txn: Option<seq<byte>>, acks: int16, timeout: int32, rest: seq<byte>)
    requires txn.Some? ==> |txn.value| <= MAX_INT32
    ensures Peeks(FlexibleTail([0], txn, acks, timeout, rest), SeenAcks(txn, acks, timeout))
  {
    hide SeenLength, HighBytes, PutUvarint, SkipNullableString, Put16, Put32, Peeks, SeenAcks;
    var a, t := Put16(acks), Put32(timeout);
    var after := a + t + rest;
    match txn
    case None => NoIdSeen(acks, timeout, rest);
    case Some(id) =>
      var low, high := VarintOfLength(|id|);
      RegroupTail([0], low + high + id, a, t, rest);
      SeenIsThere(id, acks, timeout, high, after);
      IdSeen(SeenLength(|id|), low, high, id, after, SeenAcks(txn, acks, timeout));
  }

  lemma IdSeen(n: nat, low: seq<byte>, high: seq<byte>, id: seq<byte>, after: seq<byte>, seen: (byte, byte))
    requires |low| == 1 && low[0] == n && n + 2 <= |high| + |id| + |after|
    requires var x := high + id + after; seen == (x[n], x[n + 1])
    ensures Peeks([0] + (low + high + id) + after, seen)
  {
    hide SkipNullableString, Peeks;
    CompactSeen(n, low, high, id, after);
    PeeksAt([0] + (low + high + id) + after, 2 + n, (high + id + after)[n..], seen);
  }

  lemma NoIdSeen(acks: int16, timeout: int32, rest: seq<byte>)
    ensures Peeks(FlexibleTail([0], None, acks, timeout, rest), SeenAcks(None, acks, timeout))
  {
    hide PutUvarint, SkipNullableString, Put16, Put32, Peeks;
    ShortVarint(0);
    var a, t := Put16(acks), Put32(timeout);
    RegroupTail([0], [0], a, t, rest);
    var after := a + t + rest;
    SkipHead(0, [0] + [0], after);
    PeeksAt([0] + [0] + after, 2, after, SeenAcks(None, acks, timeout));
  }

  lemma ShortVarint(u: nat)
    requires u < 0x80
    ensures PutUvarint(u) == [u]
  {
  }

  /** What the peek finds in a flexible Produce request that has its tail behind the client id. */
  lemma PeekOfTail(version: int, corr: int, client: Option<seq<byte>>, tail: seq<byte>)
    requires version >= 9 && Short(client)
    ensures var n := SkipNullableString(tail);
            PeekExpects(version, Put32(corr) + (PutNullableString(client) + tail))
            == if n.None? || |tail| < n.value + 2 then None
              else Some((tail[n.value..][0], tail[n.value..][1]) != (0, 0))
  {
    hide Put32, PutNullableString, SkipNullableString;
    var s := Put32(corr) + (PutNullableString(client) + tail);
    SkipWritten(client, tail);
    InFront(Put32(corr), PutNullableString(client) + tail);
    TwoInFront(Put32(corr), PutNullableString(client), tail);
    var at := 4 + |PutNullableString(client)|;
    var n := SkipNullableString(tail);
    if n.Some? && n.value + 2 <= |tail| {
      assert s[at + n.value..] == s[at..][n.value..];
    }
  }

  /** What the peek makes of a flexible Produce request without header tags, for every id that fits a frame. */
  lemma FlexibleAcksSeen(version: int, corr: int, client: Option<seq<byte>>, txn: Option<seq<byte>>,
                         acks: int16, timeout: int32, rest: seq<byte>)
    requires version >= 9 && Short(client) && (txn.Some? ==> |txn.value| <= MAX_INT32)
    ensures PeekExpects(version, FlexibleBody(corr, client, [0], txn, acks, timeout, rest))
            == Some(SeenAcks(txn, acks, timeout) != (0, 0))
  {
    hide Put16, Put32, PutNullableString, FlexibleTail, SkipNullableString, SeenAcks, PeekExpects;
    FlexibleTailSeen(txn, acks, timeout, rest);
    PeekOfTail(version, corr, client, FlexibleTail([0], txn, acks, timeout, rest));
  }

  /** With header tags their first two bytes are taken for the length of the id. */
  lemma FlexibleAcksSeenBehindTags(version: int, corr: int, client: Option<seq<byte>>, tags: seq<byte>,
                                   txn: Option<seq<byte>>, acks: int16, timeout: int32, rest: seq<byte>)
    requires version >= 9 && Short(client) && IsTags(tags) && tags != [0]
    ensures |tags| >= 2
    ensures var tail := FlexibleTail(tags, txn, acks, timeout, rest);
            var n := if Get16(tags) <= 0 then 2 else 2 + Get16(tags);
            PeekExpects(version, FlexibleBody(corr, client, tags, txn, acks, timeout, rest))
            == if Get16(tags) < -1 || |tail| < n + 2 then None else Some((tail[n], tail[n + 1]) != (0, 0))
  {
    hide Put16, Put32, PutNullableString, PutCompactNullableString, SkipTagged, PeekExpects;
    SomeTags(tags);
    var tail := FlexibleTail(tags, txn, acks, timeout, rest);
    assert tail[0] == tags[0] && tail[1] == tags[1];
    PeekOfTail(version, corr, client, tail);
  }

  lemma SomeTags(tags: seq<byte>)
    requires IsTags(tags) && tags != [0]
    ensures |tags| >= 2
  {
  }

  /**
   The id is null or has 127 to 254 bytes; or it has at most 126 bytes and the low byte of acks or
   the top byte of the timeout tells; or it is longer and two of its own bytes happen to tell.
   */
  predicate PeekFits(txn: Option<seq<byte>>, acks: int16, timeout: int32)
    requires txn.Some? ==> |txn.value| <= MAX_INT32
  {
    if txn.None? || 127 <= |txn.value| <= 254 then true
    else if |txn.value| <= 126 then acks != 0 <==> acks % 0x100 != 0 || !(0 <= timeout < 0x100_0000)
    else
      HighBytesBound(|txn.value|);
      var k := SeenLength(|txn.value|) - HighBytes(|txn.value|);
      acks != 0 <==> (txn.value[k], txn.value[k + 1]) != (0, 0)
  }

  /** Without header tags the proxy expects what the broker does just under that condition. */
  lemma FlexibleAcksPeekIsRightWhen(version: int, corr: int, client: Option<seq<byte>>, txn: Option<seq<byte>>,
                                    acks: int16, timeout: int32, rest: seq<byte>)
    requires version >= 9 && Short(client) && (txn.Some? ==> |txn.value| <= MAX_INT32)
    ensures var s := FlexibleBody(corr, client, [0], txn, acks, timeout, rest);
            PeekFits(txn, acks, timeout)
            <==> PeekExpects(version, s) == Some(BrokerReplies(API_KEY_PRODUCE, version, s))
  {
    hide FlexibleBody, PeekExpects, BrokerAcks, SeenAcks, SeenLength, HighBytes, IsTags;
    NoTags();
    BrokerReadsAcks(version, corr, client, [0], txn, acks, timeout, rest);
    FlexibleAcksSeen(version, corr, client, txn, acks, timeout, rest);
    SeenAcksTell(txn, acks, timeout);
    if txn.Some? {
      HighBytesBound(|txn.value|);
    }
  }

  lemma NoTags()
    ensures IsTags([0])
  {
  }

  /** So it can be wrong: no reply comes to acks 0, yet the top byte of a long timeout makes the proxy wait for one. */
  lemma FlexibleAcksPeekCanBeWrong(corr: int, client: Option<seq<byte>>, rest: seq<byte>)
    requires Short(client)
    ensures var s := FlexibleBody(corr, client, [0], Some([0x61]), 0, 0x100_0000, rest);
            PeekExpects(9, s) == Some(true) && !BrokerReplies(API_KEY_PRODUCE, 9, s)
  {
    hide FlexibleBody, PeekExpects, BrokerAcks, IsTags;
    NoTags();
    BrokerReadsAcks(9, corr, client, [0], Some([0x61]), 0, 0x100_0000, rest);
    FlexibleAcksSeen(9, corr, client, Some([0x61]), 0, 0x100_0000, rest);
  }

  lemma SeenAcksTell(txn: Option<seq<byte>>, acks: int16, timeout: int32)
    requires txn.Some? ==> |txn.value| <= MAX_INT32
    ensures txn.None? || 127 <= |txn.value| <= 254 ==> (SeenAcks(txn, acks, timeout) != (0, 0) <==> acks != 0)
    ensures txn.Some? && |txn.value| <= 126 ==>
              (SeenAcks(txn, acks, timeout) != (0, 0) <==> acks % 0x100 != 0 || !(0 <= timeout < 0x100_0000))
    ensures txn.Some? && |txn.value| >= 255 ==>
              var k := SeenLength(|txn.value|) - HighBytes(|txn.value|);
              0 <= k < |txn.value| - 1 && SeenAcks(txn, acks, timeout) == (txn.value[k], txn.value[k + 1])
  {
    hide Put16, Put32, HighBytes, SeenLength;
    AcksBytes(acks);
    TopByte(timeout);
    if txn.Some? {
      HighBytesBound(|txn.value|);
    }
  }

  lemma AcksBytes(acks: int16)
    ensures Put16(acks)[1] == acks % 0x100
    ensures (Put16(acks)[0], Put16(acks)[1]) == (0, 0) <==> acks == 0
  {
  }

  lemma TopByte(i: int32)
    ensures Put32(i)[0] == 0 <==> 0 <= i < 0x100_0000
  {
  }
}
