/**
 The listener table: which local listener stands for which broker address. Dynamic listeners are
 added when the proxy first hears of a broker; with deterministic ports the listener of a broker
 is moved to the broker's new address.
 */
module Listeners {
  import opened Wrappers
  import opened Bytes
  import opened Ports

  /** A host and port joined, or some text that is no such pair. */
  datatype Address = HostPort(host: Host, port: int) | Text(text: Host)

  const UNKNOWN_BROKER_ID := -1

  function Int32(i: int): int32 {
    (i + 0x8000_0000) % 0x1_0000_0000 - 0x8000_0000
  }

  function SplitHostPort(a: Address): Option<(Host, int32)> {
    match a
    case HostPort(host, port) => Some((host, Int32(port)))
    case Text(_) => None
  }

  datatype Server = Server(brokerAddress: Address, listenerAddress: Address, advertisedAddress: Address)

  /** The fields of a ListenerConfig. */
  datatype Entry = Entry(brokerAddress: Address, listenerAddress: Address, advertisedAddress: Address, brokerID: int)

  /** The fields of Listeners that never change. */
  datatype Options = Options(
    defaultListenerIP: Host,
    hasDynamicAdvertisedListener: bool,
    deterministicListeners: bool,
    disableDynamicListeners: bool,
    dynamicSequentialMinPort: uint16,
    dynamicSequentialMaxPorts: uint16)

  datatype Table = Table(entries: map<Address, Entry>, counter: uint64)

  /** What the operating system and the template say during one call: the port bound, and the text for a broker id. */
  datatype Environment = Environment(listen: Address -> Option<uint16>, template: int -> Option<Address>)

  datatype MappingError = InvalidBrokerAddress | NotFound | NegativeBrokerId | PortFailure(error: PortError)
                        | ListenFailure | TemplateFailure | SplitFailure

  type Answer = Result<(Host, int32), MappingError>

  // ---------------------------------------------------------------- what the calls do

  /** SplitHostPort of an advertised address, as an answer. */
  function Advertise(a: Address): Answer {
    var hp := SplitHostPort(a);
    if hp.None? then Failure(SplitFailure) else Success(hp.value)
  }

  function DynamicAdvertised(opts: Options, env: Environment, brokerID: int, port: int): Option<(Host, int)> {
    if !opts.hasDynamicAdvertisedListener then Some((opts.defaultListenerIP, port))
    else
      match env.template(brokerID)
      case None => None
      case Some(HostPort(host, p)) => Some((host, p))
      case Some(Text(text)) => Some((text, port))
  }

  predicate HasId(m: map<Address, Entry>, id: int) {
    exists a :: a in m && m[a].brokerID == id
  }

  /** findListenerConfig */
  ghost function Find(m: map<Address, Entry>, id: int): (a: Address)
    requires HasId(m, id)
    ensures a in m && m[a].brokerID == id
  {
    var a :| a in m && m[a].brokerID == id;
    a
  }

  function Rename(m: map<Address, Entry>, from: Address, to: Address): map<Address, Entry>
    requires from in m
  {
    (m - {from})[to := m[from].(brokerAddress := to)]
  }

  /** Binds a listener at `requested` and enters it for `broker`. */
  function Open(opts: Options, env: Environment, t: Table, broker: Address, id: int, requested: Address)
    : (Table, Answer)
  {
    match env.listen(requested)
    case None => (t, Failure(ListenFailure))
    case Some(port) =>
      var adv := DynamicAdvertised(opts, env, id, port);
      if adv.None? then (t, Failure(TemplateFailure))
      else
        var e := Entry(broker, HostPort(opts.defaultListenerIP, port), HostPort(adv.value.0, adv.value.1), id);
        (t.(entries := t.entries[broker := e]), Success((adv.value.0, Int32(adv.value.1))))
  }

  ghost function ListenDynamic(opts: Options, env: Environment, t: Table, broker: Address, id: int): (Table, Answer) {
    if broker in t.entries then (t, Advertise(t.entries[broker].advertisedAddress))
    else if opts.deterministicListeners then
      if id < 0 then (t, Failure(NegativeBrokerId))
      else
        var port := NextDynamicPort(opts.dynamicSequentialMinPort, opts.dynamicSequentialMaxPorts, id % TWO_64);
        if port.Failure? then (t, Failure(PortFailure(port.error)))
        else if HasId(t.entries, id) then
          var found := Find(t.entries, id);
          (t.(entries := Rename(t.entries, found, broker)), Advertise(t.entries[found].advertisedAddress))
        else Open(opts, env, t, broker, id, HostPort(opts.defaultListenerIP, port.value))
    else if opts.dynamicSequentialMinPort == 0 then Open(opts, env, t, broker, id, HostPort(opts.defaultListenerIP, 0))
    else
      var port := NextDynamicPort(opts.dynamicSequentialMinPort, opts.dynamicSequentialMaxPorts, t.counter);
      if port.Failure? then (t, Failure(PortFailure(port.error)))
      else
        Open(opts, env, t.(counter := (t.counter + 1) % TWO_64), broker, id,
             HostPort(opts.defaultListenerIP, port.value))
  }

  /** GetNetAddressMapping */
  ghost function Lookup(opts: Options, env: Environment, t: Table, host: Host, port: int, id: int): (Table, Answer) {
    var broker := HostPort(host, port);
    if host == [] || port <= 0 then (t, Failure(InvalidBrokerAddress))
    else if broker in t.entries then (t, Advertise(t.entries[broker].advertisedAddress))
    else if !opts.disableDynamicListeners then ListenDynamic(opts, env, t, broker, id)
    else (t, Failure(NotFound))
  }

  /**
   GetNetAddressMapping as it takes its locks: it looks the address up in the table `first`; if it
   is not there, other calls may come in until it holds the write lock and finds the table `later`.
   */
  ghost function LookupInTwo(opts: Options, env: Environment, first: Table, later: Table,
                             host: Host, port: int, id: int)
    : (Table, Answer)
  {
    var broker := HostPort(host, port);
    if host == [] || port <= 0 then (later, Failure(InvalidBrokerAddress))
    else if broker in first.entries then (later, Advertise(first.entries[broker].advertisedAddress))
    else if !opts.disableDynamicListeners then ListenDynamic(opts, env, later, broker, id)
    else (later, Failure(NotFound))
  }

  /** Whatever comes in between, it is the whole call at one of the two moments. */
  lemma LookupIsAtomic(opts: Options, env: Environment, first: Table, later: Table, host: Host, port: int, id: int)
    ensures var (u, answer) := LookupInTwo(opts, env, first, later, host, port, id);
            || (u, answer) == Lookup(opts, env, later, host, port, id)
            || (u == later && Lookup(opts, env, first, host, port, id) == (first, answer))
  {
    hide Advertise;
  }

  datatype Call = Call(env: Environment, host: Host, port: int, id: int)

  /** The table after a sequence of calls. */
  ghost function After(opts: Options, t: Table, calls: seq<Call>): Table
    decreases |calls|
  {
    if calls == [] then t
    else
      var c := calls[|calls| - 1];
      Lookup(opts, c.env, After(opts, t, calls[..|calls| - 1]), c.host, c.port, c.id).0
  }

  lemma AfterLast(opts: Options, t: Table, calls: seq<Call>, n: nat)
    requires |calls| == n + 1
    ensures After(opts, t, calls) ==
            Lookup(opts, calls[n].env, After(opts, t, calls[..n]), calls[n].host, calls[n].port, calls[n].id).0
  {
    hide Lookup;
  }

  // ---------------------------------------------------------------- routing

  /** Keys are the current broker addresses, and with deterministic ports a broker has one listener. */
  ghost predicate Routing(opts: Options, m: map<Address, Entry>) {
    && (forall a :: a in m ==> m[a].brokerAddress == a)
    && (opts.deterministicListeners ==>
          forall a, b :: a in m && b in m && m[a].brokerID == m[b].brokerID >= 0 ==> a == b)
  }

  lemma ListenKeepsRouting(opts: Options, env: Environment, t: Table, broker: Address, id: int)
    requires Routing(opts, t.entries)
    ensures Routing(opts, ListenDynamic(opts, env, t, broker, id).0.entries)
  {
    hide NextDynamicPort, Advertise, DynamicAdvertised;
  }

  /** Over all sequences of calls the table stays one in which every key leads to its own broker. */
  lemma {:induction false} RoutingKept(opts: Options, t: Table, calls: seq<Call>)
    requires Routing(opts, t.entries)
    ensures Routing(opts, After(opts, t, calls).entries)
    decreases |calls|
  {
    hide Routing, ListenDynamic;
    if calls != [] {
      var before := calls[..|calls| - 1];
      var c := calls[|calls| - 1];
      RoutingKept(opts, t, before);
      ListenKeepsRouting(opts, c.env, After(opts, t, before), HostPort(c.host, c.port), c.id);
    }
  }

  /** A successful answer for an address is the advertised address of a listener that targets it now. */
  lemma AnswersTarget(opts: Options, t: Table, calls: seq<Call>, c: Call)
    requires Routing(opts, t.entries)
    ensures var (u, answer) := Lookup(opts, c.env, After(opts, t, calls), c.host, c.port, c.id);
            answer.Success? ==>
              var broker := HostPort(c.host, c.port);
              && broker in u.entries && u.entries[broker].brokerAddress == broker
              && SplitHostPort(u.entries[broker].advertisedAddress) == Some(answer.value)
  {
    hide NextDynamicPort, DynamicAdvertised, Int32;
    RoutingKept(opts, t, calls);
  }

  /** Whatever is asked, listeners of the configuration keep their place. */
  lemma {:induction false} ConfiguredListenersStay(opts: Options, t: Table, calls: seq<Call>, a: Address)
    requires a in t.entries && t.entries[a].brokerID < 0
    ensures a in After(opts, t, calls).entries && After(opts, t, calls).entries[a] == t.entries[a]
    decreases |calls|
  {
    hide NextDynamicPort, Advertise, DynamicAdvertised;
    if calls != [] {
      ConfiguredListenersStay(opts, t, calls[..|calls| - 1], a);
    }
  }

  /** Without deterministic ports no listener ever moves. */
  lemma {:induction false} ListenersStay(opts: Options, t: Table, calls: seq<Call>, a: Address)
    requires !opts.deterministicListeners && a in t.entries
    ensures a in After(opts, t, calls).entries && After(opts, t, calls).entries[a] == t.entries[a]
    decreases |calls|
  {
    hide NextDynamicPort, Advertise, DynamicAdvertised;
    if calls != [] {
      ListenersStay(opts, t, calls[..|calls| - 1], a);
    }
  }

  /** Some listener of broker `id` is advertised as `adv`. */
  ghost predicate Serves(m: map<Address, Entry>, id: int, adv: Address) {
    exists a :: a in m && m[a].brokerID == id && m[a].advertisedAddress == adv
  }

  lemma ListenKeepsServing(opts: Options, env: Environment, t: Table, broker: Address, id: int, served: int,
                           adv: Address)
    requires Serves(t.entries, served, adv) && (opts.deterministicListeners ==> Routing(opts, t.entries))
    ensures Serves(ListenDynamic(opts, env, t, broker, id).0.entries, served, adv)
  {
    hide NextDynamicPort, Advertise, DynamicAdvertised;
    var a :| a in t.entries && t.entries[a].brokerID == served && t.entries[a].advertisedAddress == adv;
    var m := ListenDynamic(opts, env, t, broker, id).0.entries;
    if a in m {
      assert m[a] == t.entries[a];
    } else {
      assert m[broker] == t.entries[a].(brokerAddress := broker);
    }
  }

  lemma {:induction false} ServingKept(opts: Options, t: Table, calls: seq<Call>, served: int, adv: Address)
    requires Routing(opts, t.entries) && Serves(t.entries, served, adv)
    ensures Serves(After(opts, t, calls).entries, served, adv)
    decreases |calls|
  {
    hide Routing, Serves, ListenDynamic;
    if calls != [] {
      var before := calls[..|calls| - 1];
      var c := calls[|calls| - 1];
      RoutingKept(opts, t, before);
      ServingKept(opts, t, before, served, adv);
      ListenKeepsServing(opts, c.env, After(opts, t, before), HostPort(c.host, c.port), c.id, served, adv);
    }
  }

  /**
   With deterministic ports a broker keeps its advertised address for good: wherever it has moved
   and whatever was asked in between, its dynamic listener answers as it did at first.
   */
  lemma BrokersKeepTheirAddress(opts: Options, t: Table, calls: seq<Call>, a: Address, c: Call)
    requires opts.deterministicListeners && Routing(opts, t.entries)
    requires a in t.entries && t.entries[a].brokerID == c.id >= 0
    requires var now := After(opts, t, calls);
             HostPort(c.host, c.port) in now.entries ==> now.entries[HostPort(c.host, c.port)].brokerID == c.id
    ensures var answer := Lookup(opts, c.env, After(opts, t, calls), c.host, c.port, c.id).1;
            answer.Success? ==> SplitHostPort(t.entries[a].advertisedAddress) == Some(answer.value)
  {
    hide NextDynamicPort, DynamicAdvertised, Int32;
    RoutingKept(opts, t, calls);
    ServingKept(opts, t, calls, c.id, t.entries[a].advertisedAddress);
    var m := After(opts, t, calls).entries;
    var b :| b in m && m[b].brokerID == c.id && m[b].advertisedAddress == t.entries[a].advertisedAddress;
    assert HasId(m, c.id) && Find(m, c.id) == b;
  }

  /** Once the sequential range is used up to the top of the port numbers, no new listener is ever opened. */
  lemma {:induction false} OverflowIsForGood(opts: Options, t: Table, calls: seq<Call>)
    requires !opts.deterministicListeners && opts.dynamicSequentialMinPort > 0
    requires NextDynamicPort(opts.dynamicSequentialMinPort, opts.dynamicSequentialMaxPorts, t.counter).Failure?
    ensures After(opts, t, calls) == t
    decreases |calls|
  {
    hide NextDynamicPort;
    if calls != [] {
      OverflowIsForGood(opts, t, calls[..|calls| - 1]);
    }
  }

  // ---------------------------------------------------------------- the configured listeners

  function FromServer(s: Server): Entry {
    Entry(s.brokerAddress, s.listenerAddress, s.advertisedAddress, UNKNOWN_BROKER_ID)
  }

  /** The bootstrap servers; one configured twice must be configured the same. */
  function Bootstrap(servers: seq<Server>): Option<map<Address, Entry>> {
    if servers == [] then Some(map[])
    else
      var before, v := Bootstrap(servers[..|servers| - 1]), servers[|servers| - 1];
      if before.None? then None
      else if v.brokerAddress in before.value then
        if before.value[v.brokerAddress] == FromServer(v) then before else None
      else Some(before.value[v.brokerAddress := FromServer(v)])
  }

  /** The external servers; only the listener address is compared when one is configured twice. */
  function External(servers: seq<Server>): Option<map<Address, Server>> {
    if servers == [] then Some(map[])
    else
      var before, v := External(servers[..|servers| - 1]), servers[|servers| - 1];
      if before.None? then None
      else if v.brokerAddress in before.value then
        if before.value[v.brokerAddress].listenerAddress == v.listenerAddress then before else None
      else if v.listenerAddress != v.advertisedAddress then None
      else Some(before.value[v.brokerAddress := v])
  }

  ghost predicate Mergeable(b: map<Address, Entry>, x: map<Address, Server>) {
    forall a :: a in x && a in b ==> b[a].advertisedAddress == x[a].advertisedAddress
  }

  function Merged(b: map<Address, Entry>, x: map<Address, Server>): map<Address, Entry> {
    map a | a in b.Keys + x.Keys :: if a in b then b[a] else FromServer(x[a])
  }

  /** getBrokerToListenerConfig */
  ghost function Configured(bootstrap: seq<Server>, external: seq<Server>): Option<map<Address, Entry>> {
    var b, x := Bootstrap(bootstrap), External(external);
    if b.None? || x.None? || !Mergeable(b.value, x.value) then None else Some(Merged(b.value, x.value))
  }

  lemma {:induction false} BootstrapTable(servers: seq<Server>)
    requires Bootstrap(servers).Some?
    ensures forall i :: 0 <= i < |servers| ==>
                servers[i].brokerAddress in Bootstrap(servers).value
                && Bootstrap(servers).value[servers[i].brokerAddress] == FromServer(servers[i])
    ensures forall a :: a in Bootstrap(servers).value ==>
              exists i :: 0 <= i < |servers| && servers[i].brokerAddress == a
  {
    if servers != [] {
      var before := servers[..|servers| - 1];
      BootstrapTable(before);
      forall i | 0 <= i < |servers|
        ensures servers[i].brokerAddress in Bootstrap(servers).value
        ensures Bootstrap(servers).value[servers[i].brokerAddress] == FromServer(servers[i])
      {
        if i < |before| {
          assert servers[i] == before[i];
        }
      }
      forall a | a in Bootstrap(servers).value
        ensures exists i :: 0 <= i < |servers| && servers[i].brokerAddress == a
      {
        if a in Bootstrap(before).value {
          var i :| 0 <= i < |before| && before[i].brokerAddress == a;
          assert servers[i].brokerAddress == a;
        } else {
          assert servers[|servers| - 1].brokerAddress == a;
        }
      }
    }
  }

  ghost predicate Consistent(servers: seq<Server>) {
    forall i, j :: 0 <= i < j < |servers| && servers[i].brokerAddress == servers[j].brokerAddress ==>
      servers[i] == servers[j]
  }

  /** Bootstrap servers are accepted exactly when those for the same broker are the same. */
  lemma {:induction false} BootstrapAccepts(servers: seq<Server>)
    ensures Bootstrap(servers).Some? <==> Consistent(servers)
  {
    if servers != [] {
      var before, v := servers[..|servers| - 1], servers[|servers| - 1];
      BootstrapAccepts(before);
      if Bootstrap(before).None? {
        var i, j :| 0 <= i < j < |before| && before[i].brokerAddress == before[j].brokerAddress
          && before[i] != before[j];
        assert servers[i] == before[i] && servers[j] == before[j];
      } else {
        BootstrapTable(before);
        LastConsistent(servers);
      }
    }
  }

  lemma LastConsistent(servers: seq<Server>)
    requires servers != []
    requires Bootstrap(servers[..|servers| - 1]).Some? && Consistent(servers[..|servers| - 1])
    ensures Bootstrap(servers).Some? <==> Consistent(servers)
  {
    hide Consistent;
    var before, v := servers[..|servers| - 1], servers[|servers| - 1];
    var m := Bootstrap(before).value;
    assert servers == before + [v];
    BootstrapTable(before);
    if v.brokerAddress in m && m[v.brokerAddress] != FromServer(v) {
      var i :| 0 <= i < |before| && before[i].brokerAddress == v.brokerAddress;
      LastDisagrees(before, v, i);
    } else {
      LastAgrees(before, v, m);
    }
  }

  lemma LastDisagrees(before: seq<Server>, v: Server, i: nat)
    requires i < |before| && before[i].brokerAddress == v.brokerAddress && FromServer(before[i]) != FromServer(v)
    ensures !Consistent(before + [v])
  {
    var all := before + [v];
    assert all[i] == before[i] && all[|before|] == v;
  }

  lemma LastAgrees(before: seq<Server>, v: Server, m: map<Address, Entry>)
    requires Consistent(before) && (v.brokerAddress in m ==> m[v.brokerAddress] == FromServer(v))
    requires forall i :: 0 <= i < |before| ==>
               before[i].brokerAddress in m && m[before[i].brokerAddress] == FromServer(before[i])
    ensures Consistent(before + [v])
  {
  }

  lemma {:induction false} ExternalAdvertised(servers: seq<Server>)
    requires External(servers).Some?
    ensures forall i :: 0 <= i < |servers| ==>
                servers[i].brokerAddress in External(servers).value
                && External(servers).value[servers[i].brokerAddress].advertisedAddress == servers[i].listenerAddress
    ensures forall a :: a in External(servers).value ==>
                External(servers).value[a].brokerAddress == a
                && External(servers).value[a].listenerAddress == External(servers).value[a].advertisedAddress
  {
    if servers != [] {
      var before := servers[..|servers| - 1];
      ExternalAdvertised(before);
      forall i | 0 <= i < |servers|
        ensures servers[i].brokerAddress in External(servers).value
                && External(servers).value[servers[i].brokerAddress].advertisedAddress == servers[i].listenerAddress
      {
        if i < |before| {
          assert servers[i] == before[i];
        }
      }
    }
  }

  /** The first external server for a broker is advertised as it listens, and later ones listen there too. */
  ghost predicate ExternalConsistent(servers: seq<Server>) {
    && (forall i :: 0 <= i < |servers| && FirstFor(servers, i) ==>
          servers[i].listenerAddress == servers[i].advertisedAddress)
    && (forall i, j :: 0 <= i < j < |servers| && servers[i].brokerAddress == servers[j].brokerAddress ==>
          servers[i].listenerAddress == servers[j].listenerAddress)
  }

  predicate FirstFor(servers: seq<Server>, i: nat)
    requires i < |servers|
  {
    forall j :: 0 <= j < i ==> servers[j].brokerAddress != servers[i].brokerAddress
  }

  lemma {:induction false} ExternalKnown(servers: seq<Server>, a: Address) returns (i: nat)
    requires External(servers).Some? && a in External(servers).value
    ensures i < |servers| && servers[i].brokerAddress == a
  {
    var n := |servers| - 1;
    if a in External(servers[..n]).value {
      i := ExternalKnown(servers[..n], a);
    } else {
      i := n;
    }
  }

  /** What the last server adds to that. */
  ghost predicate LastFits(before: seq<Server>, v: Server) {
    && ((forall i :: 0 <= i < |before| ==> before[i].brokerAddress != v.brokerAddress) ==>
          v.listenerAddress == v.advertisedAddress)
    && (forall i :: 0 <= i < |before| && before[i].brokerAddress == v.brokerAddress ==>
          before[i].listenerAddress == v.listenerAddress)
  }

  lemma ConsistentShorter(before: seq<Server>, v: Server)
    requires ExternalConsistent(before + [v])
    ensures ExternalConsistent(before) && LastFits(before, v)
  {
    var all := before + [v];
    assert all[|before|] == v && forall i :: 0 <= i < |before| ==> all[i] == before[i];
    forall i | 0 <= i < |before| && FirstFor(before, i)
      ensures before[i].listenerAddress == before[i].advertisedAddress
    {
      assert FirstFor(all, i);
    }
    if forall i :: 0 <= i < |before| ==> before[i].brokerAddress != v.brokerAddress {
      assert FirstFor(all, |before|);
    }
  }

  lemma ConsistentLonger(before: seq<Server>, v: Server)
    requires ExternalConsistent(before) && LastFits(before, v)
    ensures ExternalConsistent(before + [v])
  {
    var all := before + [v];
    assert all[|before|] == v && forall i :: 0 <= i < |before| ==> all[i] == before[i];
    forall i | 0 <= i < |all| && FirstFor(all, i)
      ensures all[i].listenerAddress == all[i].advertisedAddress
    {
      if i < |before| {
        assert FirstFor(before, i);
      }
    }
  }

  /** External servers are accepted exactly when that is so. */
  lemma {:induction false} ExternalAccepts(servers: seq<Server>)
    ensures External(servers).Some? <==> ExternalConsistent(servers)
  {
    hide ExternalConsistent, LastFits;
    if servers == [] {
      NoServers();
    } else {
      var before, v := servers[..|servers| - 1], servers[|servers| - 1];
      assert servers == before + [v];
      ExternalAccepts(before);
      if External(before).Some? {
        ExternalLast(before, v);
      }
      if ExternalConsistent(servers) {
        ConsistentShorter(before, v);
      } else if ExternalConsistent(before) && LastFits(before, v) {
        ConsistentLonger(before, v);
      }
    }
  }

  lemma NoServers()
    ensures ExternalConsistent([])
  {
  }

  lemma ExternalLast(before: seq<Server>, v: Server)
    requires External(before).Some?
    ensures External(before + [v]).Some? <==> LastFits(before, v)
  {
    ExternalAdvertised(before);
    var all := before + [v];
    assert all[..|all| - 1] == before && all[|all| - 1] == v;
    if v.brokerAddress in External(before).value {
      var i := ExternalKnown(before, v.brokerAddress);
      assert before[i].brokerAddress == v.brokerAddress;
    }
  }

  /** The whole configuration is accepted just when each part is and no broker is advertised in two ways. */
  lemma ConfigurationAccepts(bootstrap: seq<Server>, external: seq<Server>)
    ensures Configured(bootstrap, external).Some?
            <==> && Consistent(bootstrap) && ExternalConsistent(external)
                 && forall i, j :: 0 <= i < |bootstrap| && 0 <= j < |external|
                                   && bootstrap[i].brokerAddress == external[j].brokerAddress ==>
                      bootstrap[i].advertisedAddress == external[j].listenerAddress
  {
    hide Bootstrap, External, Consistent, ExternalConsistent;
    BootstrapAccepts(bootstrap);
    ExternalAccepts(external);
    if Bootstrap(bootstrap).Some? && External(external).Some? {
      var b, x := Bootstrap(bootstrap).value, External(external).value;
      BootstrapTable(bootstrap);
      ExternalAdvertised(external);
      forall a | a in x && a in b
        ensures exists i, j :: 0 <= i < |bootstrap| && 0 <= j < |external| && bootstrap[i].brokerAddress == a
                               && external[j].brokerAddress == a
      {
        var j := ExternalKnown(external, a);
        var i :| 0 <= i < |bootstrap| && bootstrap[i].brokerAddress == a;
        assert external[j].brokerAddress == a;
      }
    }
  }

  /**
   The configured table routes, none of its listeners belongs to a known broker id, and every
   server of the configuration is reached through the address the configuration gives it.
   */
  lemma ConfiguredTable(opts: Options, bootstrap: seq<Server>, external: seq<Server>)
    requires Configured(bootstrap, external).Some?
    ensures var m := Configured(bootstrap, external).value;
            && Routing(opts, m)
            && (forall a :: a in m ==> m[a].brokerID == UNKNOWN_BROKER_ID)
            && (forall i :: 0 <= i < |bootstrap| ==>
                  bootstrap[i].brokerAddress in m && m[bootstrap[i].brokerAddress] == FromServer(bootstrap[i]))
            && (forall i :: 0 <= i < |external| ==>
                  external[i].brokerAddress in m
                    && m[external[i].brokerAddress].advertisedAddress == external[i].listenerAddress)
  {
    hide Bootstrap, External;
    BootstrapTable(bootstrap);
    ExternalAdvertised(external);
    var b := Bootstrap(bootstrap).value;
    forall a | a in b
      ensures b[a].brokerAddress == a && b[a].brokerID == UNKNOWN_BROKER_ID
    {
      var i :| 0 <= i < |bootstrap| && bootstrap[i].brokerAddress == a;
      assert b[bootstrap[i].brokerAddress] == FromServer(bootstrap[i]);
    }
  }
}
