/**
 The rewriter's loop over brokers or coordinators, with the listener table as the object it is: the
 callback of the loop looks addresses up in it, adds to it and moves what is in it.
 */
module AskingLoop {
  import opened Wrappers
  import opened Schema
  import opened Responses
  import opened Listeners
  import opened ListenerObjects
  import opened RewrittenListeners

  /** modifyBroker, with the table behind its callback. */
  method ModifyBroker(table: ListenerTable, env: Environment, b: Value) returns (r: Result<Value, ModifyError>)
    requires table.Valid() && b.StructV?
    modifies table, table.brokerToListenerConfig.Values
    ensures r == RewriteAddress(b, MapperOf(table.opts, env, old(table.View())))
    ensures var c := CallFor(env, b);
            table.View() == Lookup(table.opts, env, old(table.View()), c.host, c.port, c.id).0
    ensures table.Valid()
    ensures forall a :: a in table.brokerToListenerConfig ==>
                table.brokerToListenerConfig[a] in old(table.brokerToListenerConfig.Values)
                || fresh(table.brokerToListenerConfig[a])
  {
    hide ListenDynamic, Advertise, Get;
    var host, port, id := Get(b, HOST), Get(b, PORT), Get(b, NODE_ID);
    if !host.StrV? {
      return Failure(HostNotFound);
    }
    if !port.Int32V? {
      return Failure(PortNotFound);
    }
    if !id.Int32V? {
      return Failure(NodeIdNotFound);
    }
    if host.s == [] && port.i32 <= 0 {
      return Success(b);
    }
    var to := table.GetNetAddressMapping(env, host.s, port.i32, id.i32);
    if to.Failure? {
      return Failure(MappingFailed);
    }
    r := Success(b);
    if host.s != to.value.0 {
      r := Replace(b, HOST, StrV(to.value.0));
      if r.Failure? {
        return;
      }
    }
    if port.i32 != to.value.1 {
      r := Replace(r.value, PORT, Int32V(to.value.1));
    }
  }

  method ModifyElement(kind: ResponseKind, table: ListenerTable, env: Environment, e: Value)
    returns (r: Result<Value, ModifyError>)
    requires table.Valid() && e.StructV?
    modifies table, table.brokerToListenerConfig.Values
    ensures r == RewriteElement(kind, e, MapperOf(table.opts, env, old(table.View())))
    ensures var c := CallFor(env, BrokerIn(kind, e));
            table.View() == Lookup(table.opts, env, old(table.View()), c.host, c.port, c.id).0
    ensures table.Valid()
    ensures forall a :: a in table.brokerToListenerConfig ==>
                table.brokerToListenerConfig[a] in old(table.brokerToListenerConfig.Values)
                || fresh(table.brokerToListenerConfig[a])
  {
    hide ListenDynamic, RewriteAddress, Get;
    if kind == Metadata {
      r := ModifyBroker(table, env, e);
      return;
    }
    var coordinator := Get(e, COORDINATOR);
    if !coordinator.StructV? {
      return Failure(CoordinatorNotFound);
    }
    r := ModifyBroker(table, env, coordinator);
    if r.Success? {
      r := Success(Put(e, COORDINATOR, r.value));
    }
  }

  /** The loops of modifyMetadataResponse and modifyFindCoordinatorResponse. */
  method ModifyElements(kind: ResponseKind, table: ListenerTable, env: nat -> Environment, vs: seq<Value>)
    returns (r: Result<seq<Value>, ModifyError>)
    requires table.Valid()
    modifies table, table.brokerToListenerConfig.Values
    ensures (table.View(), r) == RewriteEach(kind, table.opts, env, old(table.View()), vs)
    ensures table.Valid()
  {
    hide Lookup, RewriteElement, CallFor, BrokerIn, MapperOf, RewriteEach;
    var done: seq<Value> := [];
    ghost var before := table.View();
    EachStep(kind, table.opts, env, before, []);
    for i := 0 to |vs|
      invariant table.Valid()
      invariant RewriteEach(kind, table.opts, env, before, vs[..i]) == (table.View(), Success(done))
      invariant forall a :: a in table.brokerToListenerConfig ==>
                    table.brokerToListenerConfig[a] in old(table.brokerToListenerConfig.Values)
                    || fresh(table.brokerToListenerConfig[a])
    {
      assert vs[..i + 1][..i] == vs[..i];
      EachStep(kind, table.opts, env, before, vs[..i + 1]);
      if !vs[i].StructV? {
        EachEnds(kind, table.opts, env, before, vs, i + 1);
        return Failure(Panicked);
      }
      var e := ModifyElement(kind, table, env(i), vs[i]);
      if e.Failure? {
        EachEnds(kind, table.opts, env, before, vs, i + 1);
        return Failure(e.error);
      }
      done := done + [e.value];
    }
    assert vs[..|vs|] == vs;
    r := Success(done);
  }

  /** One round of the loop. */
  lemma EachStep(kind: ResponseKind, opts: Options, env: nat -> Environment, t: Table, vs: seq<Value>)
    ensures RewriteEach(kind, opts, env, t, vs)
            == if vs == [] then (t, Success([]))
               else
                 var n := |vs| - 1;
                 var (u, done) := RewriteEach(kind, opts, env, t, vs[..n]);
                 if done.Failure? then (u, done)
                 else if !vs[n].StructV? then (u, Failure(Panicked))
                 else
                   var c := CallFor(env(n), BrokerIn(kind, vs[n]));
                   var e := RewriteElement(kind, vs[n], MapperOf(opts, env(n), u));
                   (Lookup(opts, env(n), u, c.host, c.port, c.id).0,
                    if e.Failure? then Failure(e.error) else Success(done.value + [e.value]))
  {
    hide Lookup, RewriteElement, BrokerIn, MapperOf, Get;
  }

  /** Behind a failure nothing happens any more. */
  lemma {:induction false} EachEnds(kind: ResponseKind, opts: Options, env: nat -> Environment, t: Table,
                                    vs: seq<Value>, n: nat)
    requires n <= |vs| && RewriteEach(kind, opts, env, t, vs[..n]).1.Failure?
    ensures RewriteEach(kind, opts, env, t, vs) == RewriteEach(kind, opts, env, t, vs[..n])
    decreases |vs|
  {
    hide Lookup, RewriteElement, BrokerIn, MapperOf, CallFor;
    if n < |vs| {
      assert vs[..|vs| - 1][..n] == vs[..n];
      EachEnds(kind, opts, env, t, vs[..|vs| - 1], n);
    } else {
      assert vs[..n] == vs;
    }
  }
}
