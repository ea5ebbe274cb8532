/** Responses for which the listener table goes wrong. */
module TakenListeners {
  import opened Wrappers
  import opened Bytes
  import opened Schema
  import opened Responses
  import opened ResponseTheorems
  import opened Ports
  import opened Listeners
  import opened RewrittenListeners

  /** The first version of a broker, in either kind of response. */
  predicate PlainBrokerTy(ty: Ty) {
    ty.Struct? && ty.fields == [Field(NODE_ID, Ty.Int32), Field(HOST, Str), Field(PORT, Ty.Int32)]
  }

  function Broker(ty: Ty, id: int32, host: Host, port: int32): Value {
    StructV(ty, [Int32V(id), StrV(host), Int32V(port)])
  }

  lemma BrokerRewritten(ty: Ty, id: int32, host: Host, port: int32, fn: Mapper)
    requires PlainBrokerTy(ty) && host != []
    ensures var b := Broker(ty, id, host, port);
            && HasAddress(b) && Eligible(b)
            && Get(b, HOST).s == host && Get(b, PORT).i32 == port && Get(b, NODE_ID).i32 == id
            && (fn(host, port, id).Success? ==>
                  RewriteAddress(b, fn)
                    == Success(Broker(ty, id, fn(host, port, id).value.0, fn(host, port, id).value.1)))
  {
    var b := Broker(ty, id, host, port);
    assert HOST[0] != PORT[0] && |NODE_ID| != |HOST|;
    assert FieldIndex(b, NODE_ID) == 0 && FieldIndex(b, HOST) == 1 && FieldIndex(b, PORT) == 2;
    hide IndexOf;
    if fn(host, port, id).Success? {
      var to := fn(host, port, id).value;
      assert b.values[1 := StrV(to.0)] == [Int32V(id), StrV(to.0), Int32V(port)];
      assert [Int32V(id), StrV(to.0), Int32V(port)][2 := Int32V(to.1)] == [Int32V(id), StrV(to.0), Int32V(to.1)];
      assert b.values[2 := Int32V(to.1)] == [Int32V(id), StrV(host), Int32V(to.1)];
    }
  }

  /** The loop goes over one broker more. */
  lemma ThenBroker(opts: Options, env: nat -> Environment, t: Table, vs: seq<Value>, id: int32, host: Host, port: int32)
    requires host != []
    requires var (u, done) := RewriteEach(Metadata, opts, env, t, vs);
             done.Success? && Lookup(opts, env(|vs|), u, host, port, id).1.Success?
    ensures var (u, done) := RewriteEach(Metadata, opts, env, t, vs);
            var (u', answer) := Lookup(opts, env(|vs|), u, host, port, id);
            RewriteEach(Metadata, opts, env, t, vs + [Broker(MetadataBrokerV0(), id, host, port)])
            == (u', Success(done.value + [Broker(MetadataBrokerV0(), id, answer.value.0, answer.value.1)]))
  {
    hide RewriteAddress, Get, Broker, Lookup;
    var (u, done) := RewriteEach(Metadata, opts, env, t, vs);
    BrokerRewritten(MetadataBrokerV0(), id, host, port, MapperOf(opts, env(|vs|), u));
    assert (vs + [Broker(MetadataBrokerV0(), id, host, port)])[..|vs|] == vs;
  }

  /** A broker id known under address `from` is asked for under another one. */
  lemma ListenerFollows(opts: Options, env: Environment, t: Table, from: Address, host: Host, port: int, id: int)
    requires opts.deterministicListeners && !opts.disableDynamicListeners && Routing(opts, t.entries)
    requires NextDynamicPort(opts.dynamicSequentialMinPort, opts.dynamicSequentialMaxPorts, id % TWO_64).Success?
    requires host != [] && port > 0 && id >= 0 && HostPort(host, port) !in t.entries
    requires from in t.entries && t.entries[from].brokerID == id
    ensures Lookup(opts, env, t, host, port, id)
            == (t.(entries := Rename(t.entries, from, HostPort(host, port))),
                Advertise(t.entries[from].advertisedAddress))
  {
    hide NextDynamicPort, Advertise;
    assert HasId(t.entries, id) && Find(t.entries, id) == from;
  }

  lemma LostIsTaken(kind: ResponseKind, opts: Options, env: nat -> Environment, t: Table, vs: seq<Value>, i: nat)
    requires Routing(opts, t.entries) && RewriteEach(kind, opts, env, t, vs).1.Success?
    requires i < |vs|
    requires var c := CallFor(env(i), BrokerIn(kind, vs[i]));
             Asks(c) && Asked(c) !in RewriteEach(kind, opts, env, t, vs).0.entries
    ensures !NoneTaken(opts, t, Calls(kind, env, vs))
  {
    hide RewriteEach, Routing, NoneTaken, Answered, After, CallFor, RewriteElement;
    var calls := Calls(kind, env, vs);
    EachRewritten(kind, opts, env, t, vs);
    AnswersHold(opts, t, calls);
    assert !Holds(opts, t, calls, i);
  }

  /**
   With deterministic ports the advertised addresses may be wrong. A broker has come back under
   the address `from` that another one had, and the other has moved to `to`: the first is given the
   listener of the second, which then follows the second. The client finds both brokers behind the
   one listener, and it stands for the second.
   */
  lemma TakenListenerMisleads(opts: Options, env: nat -> Environment, t: Table, first: int32, from: (Host, int32),
                              second: int32, to: (Host, int32))
    requires opts.deterministicListeners && !opts.disableDynamicListeners && Routing(opts, t.entries)
    requires second >= 0
    requires NextDynamicPort(opts.dynamicSequentialMinPort, opts.dynamicSequentialMaxPorts, second % TWO_64).Success?
    requires from.0 != [] && from.1 > 0 && to.0 != [] && to.1 > 0 && HostPort(to.0, to.1) !in t.entries
    requires HostPort(from.0, from.1) in t.entries && t.entries[HostPort(from.0, from.1)].brokerID == second
    requires Advertise(t.entries[HostPort(from.0, from.1)].advertisedAddress).Success?
    ensures var a, b := HostPort(from.0, from.1), HostPort(to.0, to.1);
            var adv := Advertise(t.entries[a].advertisedAddress).value;
            var bs := [Broker(MetadataBrokerV0(), first, from.0, from.1),
                       Broker(MetadataBrokerV0(), second, to.0, to.1)];
            var (u, r) := RewriteEach(Metadata, opts, env, t, bs);
            && r == Success([Broker(MetadataBrokerV0(), first, adv.0, adv.1),
                             Broker(MetadataBrokerV0(), second, adv.0, adv.1)])
            && a !in u.entries && b in u.entries && u.entries[b] == t.entries[a].(brokerAddress := b)
            && !NoneTaken(opts, t, Calls(Metadata, env, bs))
  {
    hide Broker, Get, ListenDynamic, Advertise, NextDynamicPort, Routing, NoneTaken, Calls;
    var b, c := Broker(MetadataBrokerV0(), first, from.0, from.1), Broker(MetadataBrokerV0(), second, to.0, to.1);
    BrokerRewritten(MetadataBrokerV0(), first, from.0, from.1, MapperOf(opts, env(0), t));
    assert Asks(CallFor(env(0), b)) && Asked(CallFor(env(0), b)) == HostPort(from.0, from.1);
    assert RewriteEach(Metadata, opts, env, t, []) == (t, Success([]));
    hide RewriteEach, CallFor;
    ThenBroker(opts, env, t, [], first, from.0, from.1);
    assert [] + [b] == [b] && [b] + [c] == [b, c];
    ListenerFollows(opts, env(1), t, HostPort(from.0, from.1), to.0, to.1, second);
    ThenBroker(opts, env, t, [b], second, to.0, to.1);
    var adv := Advertise(t.entries[HostPort(from.0, from.1)].advertisedAddress).value;
    var b', c' := Broker(MetadataBrokerV0(), first, adv.0, adv.1), Broker(MetadataBrokerV0(), second, adv.0, adv.1);
    assert [] + [b'] == [b'] && [b'] + [c'] == [b', c'];
    LostIsTaken(Metadata, opts, env, t, [b, c], 0);
  }
}
