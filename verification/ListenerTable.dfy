/**
 The listener table as the objects it is made of: a map from broker addresses to shared config
 objects, which is extended, and in which an object moves to another key when its broker does.
 */
module ListenerObjects {
  import opened Wrappers
  import opened Bytes
  import opened Ports
  import opened Listeners

  class ListenerConfig {
    var brokerAddress: Address
    var listenerAddress: Address
    var advertisedAddress: Address
    const brokerID: int

    constructor (broker: Address, listener: Address, advertised: Address, id: int)
      ensures AsEntry() == Entry(broker, listener, advertised, id)
    {
      brokerAddress, listenerAddress, advertisedAddress, brokerID := broker, listener, advertised, id;
    }

    ghost function AsEntry(): Entry
      reads this
    {
      Entry(brokerAddress, listenerAddress, advertisedAddress, brokerID)
    }

    method SetBrokerAddress(address: Address)
      modifies this`brokerAddress
      ensures AsEntry() == old(AsEntry()).(brokerAddress := address)
    {
      brokerAddress := address;
    }
  }

  ghost function EntriesOf(m: map<Address, ListenerConfig>): map<Address, Entry>
    reads m.Values
  {
    map a | a in m :: m[a].AsEntry()
  }

  method FromListenerConfig(s: Server) returns (cfg: ListenerConfig)
    ensures fresh(cfg) && cfg.AsEntry() == FromServer(s)
  {
    cfg := new ListenerConfig(s.brokerAddress, s.listenerAddress, s.advertisedAddress, UNKNOWN_BROKER_ID);
  }

  /** getBrokerToListenerConfig, its three loops. */
  method GetBrokerToListenerConfig(bootstrap: seq<Server>, external: seq<Server>)
    returns (r: Option<map<Address, ListenerConfig>>)
    ensures r.None? <==> Configured(bootstrap, external).None?
    ensures r.Some? ==> EntriesOf(r.value) == Configured(bootstrap, external).value
    ensures r.Some? ==> forall a :: a in r.value ==> fresh(r.value[a])
  {
    hide Bootstrap, External;
    var m := BootstrapServers(bootstrap);
    if m.None? {
      return None;
    }
    var x := ExternalServers(external);
    if x.None? {
      return None;
    }
    r := MergeServers(m.value, x.value);
  }

  method BootstrapServers(bootstrap: seq<Server>) returns (r: Option<map<Address, ListenerConfig>>)
    ensures r.None? <==> Bootstrap(bootstrap).None?
    ensures r.Some? ==> EntriesOf(r.value) == Bootstrap(bootstrap).value
    ensures r.Some? ==> forall a :: a in r.value ==> fresh(r.value[a])
  {
    var m: map<Address, ListenerConfig> := map[];
    for i := 0 to |bootstrap|
      invariant forall a :: a in m ==> fresh(m[a])
      invariant Bootstrap(bootstrap[..i]) == Some(EntriesOf(m))
    {
      var v := bootstrap[i];
      assert bootstrap[..i + 1][..i] == bootstrap[..i];
      if v.brokerAddress in m {
        var lc := m[v.brokerAddress];
        assert lc.AsEntry() == EntriesOf(m)[v.brokerAddress];
        BootstrapTable(bootstrap[..i]);
        if lc.listenerAddress != v.listenerAddress || lc.advertisedAddress != v.advertisedAddress {
          BootstrapRefuses(bootstrap, i + 1);
          return None;
        }
      } else {
        var cfg := FromListenerConfig(v);
        ghost var before := EntriesOf(m);
        m := m[v.brokerAddress := cfg];
        assert EntriesOf(m) == before[v.brokerAddress := FromServer(v)];
      }
    }
    assert bootstrap[..|bootstrap|] == bootstrap;
    return Some(m);
  }

  lemma {:induction false} BootstrapRefuses(servers: seq<Server>, n: nat)
    requires n <= |servers| && Bootstrap(servers[..n]).None?
    ensures Bootstrap(servers).None?
  {
    if n < |servers| {
      assert servers[..|servers| - 1][..n] == servers[..n];
      BootstrapRefuses(servers[..|servers| - 1], n);
    } else {
      assert servers[..n] == servers;
    }
  }

  lemma {:induction false} ExternalRefuses(servers: seq<Server>, n: nat)
    requires n <= |servers| && External(servers[..n]).None?
    ensures External(servers).None?
  {
    if n < |servers| {
      assert servers[..|servers| - 1][..n] == servers[..n];
      ExternalRefuses(servers[..|servers| - 1], n);
    } else {
      assert servers[..n] == servers;
    }
  }

  method ExternalServers(external: seq<Server>) returns (r: Option<map<Address, Server>>)
    ensures r == External(external)
  {
    var x: map<Address, Server> := map[];
    for i := 0 to |external|
      invariant External(external[..i]) == Some(x)
    {
      var v := external[i];
      assert external[..i + 1][..i] == external[..i];
      if v.brokerAddress in x {
        if x[v.brokerAddress].listenerAddress != v.listenerAddress {
          ExternalRefuses(external, i + 1);
          return None;
        }
      } else {
        if v.listenerAddress != v.advertisedAddress {
          ExternalRefuses(external, i + 1);
          return None;
        }
        x := x[v.brokerAddress := v];
      }
    }
    assert external[..|external|] == external;
    return Some(x);
  }

  method MergeServers(b: map<Address, ListenerConfig>, x: map<Address, Server>)
    returns (r: Option<map<Address, ListenerConfig>>)
    ensures r.None? <==> !Mergeable(EntriesOf(b), x)
    ensures r.Some? ==> EntriesOf(r.value) == Merged(EntriesOf(b), x)
    ensures r.Some? ==> forall a :: a in r.value ==> (a in b && r.value[a] == b[a]) || fresh(r.value[a])
  {
    var m := b;
    var todo := x.Keys;
    ghost var entries := EntriesOf(b);
    while todo != {}
      invariant todo <= x.Keys
      invariant forall a :: a in m ==> (a in b && m[a] == b[a]) || fresh(m[a])
      invariant EntriesOf(b) == entries
      invariant EntriesOf(m) == Merged(entries, Done(x, todo))
      invariant Mergeable(entries, Done(x, todo))
      decreases |todo|
    {
      var a :| a in todo;
      ghost var before := EntriesOf(m);
      MergeMore(entries, x, todo, a);
      todo := todo - {a};
      if a in b {
        assert entries[a] == b[a].AsEntry();
        if b[a].advertisedAddress != x[a].advertisedAddress {
          return None;
        }
      } else {
        var cfg := FromListenerConfig(x[a]);
        m := m[a := cfg];
        assert EntriesOf(m) == before[a := FromServer(x[a])];
      }
    }
    assert Done(x, {}) == x;
    return Some(m);
  }

  ghost function Done(x: map<Address, Server>, todo: set<Address>): map<Address, Server> {
    map a | a in x && a !in todo :: x[a]
  }

  lemma MergeMore(b: map<Address, Entry>, x: map<Address, Server>, todo: set<Address>, a: Address)
    requires a in todo && a in x && Mergeable(b, Done(x, todo))
    ensures a in b ==> Merged(b, Done(x, todo - {a})) == Merged(b, Done(x, todo))
    ensures a in b ==> (b[a].advertisedAddress == x[a].advertisedAddress <==> Mergeable(b, Done(x, todo - {a})))
    ensures a in b && b[a].advertisedAddress != x[a].advertisedAddress ==> !Mergeable(b, x)
    ensures a !in b ==> Merged(b, Done(x, todo - {a})) == Merged(b, Done(x, todo))[a := FromServer(x[a])]
    ensures a !in b ==> Mergeable(b, Done(x, todo - {a}))
  {
    assert Done(x, todo - {a})[a] == x[a];
  }

  class ListenerTable {
    const opts: Options
    var counter: uint64
    var brokerToListenerConfig: map<Address, ListenerConfig>

    ghost function View(): Table
      reads this, brokerToListenerConfig.Values
    {
      Table(EntriesOf(brokerToListenerConfig), counter)
    }

    ghost predicate Valid()
      reads this, brokerToListenerConfig.Values
    {
      Routing(opts, View().entries)
    }

    constructor (opts: Options, configs: map<Address, ListenerConfig>)
      ensures this.opts == opts && counter == 0 && brokerToListenerConfig == configs
    {
      this.opts, counter, brokerToListenerConfig := opts, 0, configs;
    }

    /** No config object stands under two addresses. */
    lemma NoSharing(a: Address, b: Address)
      requires Valid() && a in brokerToListenerConfig && b in brokerToListenerConfig
      requires brokerToListenerConfig[a] == brokerToListenerConfig[b]
      ensures a == b
    {
      assert View().entries[a].brokerAddress == a && View().entries[b].brokerAddress == b;
    }

    method FindListenerConfig(id: int) returns (cfg: ListenerConfig?)
      requires Valid()
      ensures cfg == null <==> !HasId(View().entries, id)
      ensures cfg != null ==>
                var a := cfg.brokerAddress;
                a in brokerToListenerConfig && brokerToListenerConfig[a] == cfg && cfg.brokerID == id
      ensures cfg != null && opts.deterministicListeners && id >= 0 ==> cfg.brokerAddress == Find(View().entries, id)
    {
      var todo := brokerToListenerConfig.Keys;
      while todo != {}
        invariant todo <= brokerToListenerConfig.Keys
        invariant forall a :: a in brokerToListenerConfig && a !in todo ==> brokerToListenerConfig[a].brokerID != id
        decreases |todo|
      {
        var a :| a in todo;
        if brokerToListenerConfig[a].brokerID == id {
          assert View().entries[a].brokerID == id && View().entries[a].brokerAddress == a;
          return brokerToListenerConfig[a];
        }
        todo := todo - {a};
      }
      return null;
    }

    /** delete, SetBrokerAddress and insert. */
    method Move(cfg: ListenerConfig, to: Address)
      requires Valid() && to !in brokerToListenerConfig
      requires cfg.brokerAddress in brokerToListenerConfig && brokerToListenerConfig[cfg.brokerAddress] == cfg
      modifies this`brokerToListenerConfig, cfg`brokerAddress
      ensures View() == old(View()).(entries := Rename(old(View().entries), old(cfg.brokerAddress), to))
      ensures brokerToListenerConfig == (old(brokerToListenerConfig) - {old(cfg.brokerAddress)})[to := cfg]
    {
      ghost var before := View().entries;
      var current := cfg.brokerAddress;
      forall a | a in brokerToListenerConfig && a != current
        ensures brokerToListenerConfig[a] != cfg
      {
        assert before[a].brokerAddress == a && before[current].brokerAddress == current;
      }
      brokerToListenerConfig := brokerToListenerConfig - {current};
      cfg.SetBrokerAddress(to);
      brokerToListenerConfig := brokerToListenerConfig[to := cfg];
      assert View().entries == Rename(before, current, to);
    }

    /** Binds a listener and enters it; the rest of ListenDynamicInstance for a new broker. */
    method Bind(env: Environment, broker: Address, id: int, requested: Address) returns (answer: Answer)
      requires Valid() && broker !in brokerToListenerConfig
      modifies this`brokerToListenerConfig
      ensures (View(), answer) == Open(opts, env, old(View()), broker, id, requested)
      ensures brokerToListenerConfig == old(brokerToListenerConfig)
              || (broker in brokerToListenerConfig && fresh(brokerToListenerConfig[broker])
                  && brokerToListenerConfig == old(brokerToListenerConfig)[broker := brokerToListenerConfig[broker]])
    {
      var cfg := new ListenerConfig(broker, requested, Text([]), id);
      var bound := env.listen(requested);
      if bound.None? {
        return Failure(ListenFailure);
      }
      var advertised := DynamicAdvertised(opts, env, cfg.brokerID, bound.value);
      if advertised.None? {
        return Failure(TemplateFailure);
      }
      cfg.advertisedAddress := HostPort(advertised.value.0, advertised.value.1);
      cfg.listenerAddress := HostPort(opts.defaultListenerIP, bound.value);
      ghost var before := View().entries;
      brokerToListenerConfig := brokerToListenerConfig[broker := cfg];
      assert View().entries == before[broker := cfg.AsEntry()];
      return Success((advertised.value.0, Int32(advertised.value.1)));
    }

    method ListenDynamicInstance(env: Environment, broker: Address, id: int) returns (answer: Answer)
      requires Valid()
      modifies this, brokerToListenerConfig.Values
      ensures (View(), answer) == ListenDynamic(opts, env, old(View()), broker, id)
      ensures Valid()
      ensures forall a :: a in old(brokerToListenerConfig) && old(brokerToListenerConfig[a].brokerID) < 0 ==>
                  a in brokerToListenerConfig && brokerToListenerConfig[a] == old(brokerToListenerConfig[a])
      ensures forall a :: a in brokerToListenerConfig ==>
                  brokerToListenerConfig[a] in old(brokerToListenerConfig.Values) || fresh(brokerToListenerConfig[a])
    {
      ListenKeepsRouting(opts, env, View(), broker, id);
      if broker in brokerToListenerConfig { // double check
        return Advertise(brokerToListenerConfig[broker].advertisedAddress);
      }
      var requested: Address;
      if opts.deterministicListeners {
        if id < 0 {
          return Failure(NegativeBrokerId);
        }
        var port := NextDynamicPort(opts.dynamicSequentialMinPort, opts.dynamicSequentialMaxPorts, id % TWO_64);
        if port.Failure? {
          return Failure(PortFailure(port.error));
        }
        requested := HostPort(opts.defaultListenerIP, port.value);
        var cfg := FindListenerConfig(id);
        if cfg != null {
          if cfg.brokerAddress != broker {
            Move(cfg, broker);
          }
          return Advertise(cfg.advertisedAddress);
        }
      } else if opts.dynamicSequentialMinPort == 0 {
        requested := HostPort(opts.defaultListenerIP, 0);
      } else {
        var port := NextDynamicPort(opts.dynamicSequentialMinPort, opts.dynamicSequentialMaxPorts, counter);
        if port.Failure? {
          return Failure(PortFailure(port.error));
        }
        requested := HostPort(opts.defaultListenerIP, port.value);
        counter := (counter + 1) % TWO_64;
      }
      answer := Bind(env, broker, id, requested);
    }

    method GetNetAddressMapping(env: Environment, host: Host, port: int, id: int) returns (answer: Answer)
      requires Valid()
      modifies this, brokerToListenerConfig.Values
      ensures (View(), answer) == Lookup(opts, env, old(View()), host, port, id)
      ensures Valid()
      ensures forall a :: a in old(brokerToListenerConfig) && old(brokerToListenerConfig[a].brokerID) < 0 ==>
                  a in brokerToListenerConfig && brokerToListenerConfig[a] == old(brokerToListenerConfig[a])
      ensures forall a :: a in brokerToListenerConfig ==>
                  brokerToListenerConfig[a] in old(brokerToListenerConfig.Values) || fresh(brokerToListenerConfig[a])
    {
      if host == [] || port <= 0 {
        return Failure(InvalidBrokerAddress);
      }
      var broker := HostPort(host, port);
      if broker in brokerToListenerConfig {
        return Advertise(brokerToListenerConfig[broker].advertisedAddress);
      }
      if !opts.disableDynamicListeners {
        answer := ListenDynamicInstance(env, broker, id);
        return;
      }
      return Failure(NotFound);
    }
  }
}
