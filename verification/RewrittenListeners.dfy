/**
 The rewriter and the listener table together. The callback that maps an address changes the
 table: a broker met for the first time gets a listener, and with deterministic ports a listener
 may be taken from the address it had. So the table is passed along the loop over the brokers, and
 what matters is the table at its end: the client gets the addresses then.
 */
module RewrittenListeners {
  import opened Wrappers
  import opened Bytes
  import opened Schema
  import opened Responses
  import opened ResponseTheorems
  import opened Ports
  import opened Listeners

  // ---------------------------------------------------------------- answers that last

  function Asked(c: Call): Address {
    HostPort(c.host, c.port)
  }

  /** A broker without host and port is left alone, as if it had not been there. */
  predicate Asks(c: Call) {
    c.host != [] || c.port > 0
  }

  /** What the table says to call `i`, asked after those before it. */
  ghost function AnswerTo(opts: Options, t: Table, calls: seq<Call>, i: nat): Answer
    requires i < |calls|
  {
    var c := calls[i];
    Lookup(opts, c.env, After(opts, t, calls[..i]), c.host, c.port, c.id).1
  }

  ghost predicate Answered(opts: Options, t: Table, calls: seq<Call>) {
    forall i | 0 <= i < |calls| && Asks(calls[i]) :: AnswerTo(opts, t, calls, i).Success?
  }

  /** The listener that answered call `i`. */
  ghost function Given(opts: Options, t: Table, calls: seq<Call>, i: nat): Option<Entry>
    requires i < |calls|
  {
    var m := After(opts, t, calls[..i + 1]).entries;
    if Asked(calls[i]) in m then Some(m[Asked(calls[i])]) else None
  }

  /** After all the calls that listener still stands for the address it was given out for. */
  ghost predicate Holds(opts: Options, t: Table, calls: seq<Call>, i: nat)
    requires i < |calls|
  {
    var m := After(opts, t, calls).entries;
    Asked(calls[i]) in m && Given(opts, t, calls, i) == Some(m[Asked(calls[i])])
  }

  ghost predicate AllHold(opts: Options, t: Table, calls: seq<Call>) {
    forall i | 0 <= i < |calls| && Asks(calls[i]) :: Holds(opts, t, calls, i)
  }

  /** The call finds its broker id under another address, `a`, and takes the listener from there. */
  ghost predicate TakesFrom(opts: Options, t: Table, c: Call, a: Address) {
    opts.deterministicListeners && Asks(c) && Asked(c) !in t.entries && a in t.entries && t.entries[a].brokerID == c.id
  }

  /** No call takes a listener from an address that an earlier call asked for. */
  ghost predicate NoneTaken(opts: Options, t: Table, calls: seq<Call>) {
    forall i, j | 0 <= i < j < |calls| && Asks(calls[i]) ::
      !TakesFrom(opts, After(opts, t, calls[..j]), calls[j], Asked(calls[i]))
  }

  /** No listener is given out for two addresses. */
  ghost predicate OneAddressEach(opts: Options, t: Table, calls: seq<Call>) {
    forall i, j | 0 <= i < j < |calls| && Asks(calls[i]) && Asks(calls[j]) ::
      var a, b := Given(opts, t, calls, i), Given(opts, t, calls, j);
      a.Some? && b.Some? && a.value.brokerID == b.value.brokerID >= 0 ==> Asked(calls[i]) == Asked(calls[j])
  }

  /** An entry survives a successful call just when the call does not take it. */
  lemma EntryKept(opts: Options, t: Table, c: Call, a: Address)
    requires Routing(opts, t.entries) && a in t.entries
    requires Asks(c) ==> Lookup(opts, c.env, t, c.host, c.port, c.id).1.Success?
    ensures var m := Lookup(opts, c.env, t, c.host, c.port, c.id).0.entries;
            if TakesFrom(opts, t, c, a) then a !in m else a in m && m[a] == t.entries[a]
  {
    hide NextDynamicPort, Advertise, DynamicAdvertised;
  }

  lemma AnswerEntered(opts: Options, t: Table, c: Call)
    requires Routing(opts, t.entries)
    requires Lookup(opts, c.env, t, c.host, c.port, c.id).1.Success?
    ensures var (u, answer) := Lookup(opts, c.env, t, c.host, c.port, c.id);
            && Asked(c) in u.entries
            && Advertise(u.entries[Asked(c)].advertisedAddress) == answer
            && (opts.deterministicListeners && Asked(c) !in t.entries ==> u.entries[Asked(c)].brokerID == c.id >= 0)
  {
    hide NextDynamicPort, DynamicAdvertised, Listeners.Int32;
  }

  /** What holds of earlier calls does not depend on later ones. */
  lemma Earlier(opts: Options, t: Table, calls: seq<Call>, n: nat)
    requires n <= |calls|
    ensures forall i | 0 <= i <= n :: calls[..n][..i] == calls[..i]
    ensures forall i | 0 <= i < n :: Given(opts, t, calls[..n], i) == Given(opts, t, calls, i)
    ensures Answered(opts, t, calls) ==> Answered(opts, t, calls[..n])
    ensures NoneTaken(opts, t, calls) ==> NoneTaken(opts, t, calls[..n])
    ensures OneAddressEach(opts, t, calls) ==> OneAddressEach(opts, t, calls[..n])
  {
    hide After, Lookup;
    assert forall i | 0 <= i <= n :: calls[..n][..i] == calls[..i];
  }

  lemma {:induction false} UntakenHold(opts: Options, t: Table, calls: seq<Call>)
    requires Routing(opts, t.entries) && Answered(opts, t, calls) && NoneTaken(opts, t, calls)
    ensures AllHold(opts, t, calls)
    decreases |calls|
  {
    hide Routing, Lookup, TakesFrom, After, Answered, AllHold;
    if calls != [] {
      var n := |calls| - 1;
      var now := After(opts, t, calls[..n]);
      Earlier(opts, t, calls, n);
      UntakenHold(opts, t, calls[..n]);
      RoutingKept(opts, t, calls[..n]);
      AfterLast(opts, t, calls, n);
      assert calls[..n + 1] == calls;
      if Asks(calls[n]) {
        AnsweredAt(opts, t, calls, n);
      }
      forall i | 0 <= i < |calls| && Asks(calls[i])
        ensures Holds(opts, t, calls, i)
      {
        if i < n {
          assert calls[..n][i] == calls[i];
          HoldsAt(opts, t, calls[..n], i);
          EntryKept(opts, now, calls[n], Asked(calls[i]));
        } else {
          AnswerEntered(opts, now, calls[n]);
        }
      }
      HoldAll(opts, t, calls);
    } else {
      HoldAll(opts, t, calls);
    }
  }

  lemma HoldAll(opts: Options, t: Table, calls: seq<Call>)
    requires forall i | 0 <= i < |calls| && Asks(calls[i]) :: Holds(opts, t, calls, i)
    ensures AllHold(opts, t, calls)
  {
  }

  lemma HeldApart(opts: Options, t: Table, calls: seq<Call>)
    requires opts.deterministicListeners && Routing(opts, t.entries) && AllHold(opts, t, calls)
    ensures OneAddressEach(opts, t, calls)
  {
    hide After, Given;
    RoutingKept(opts, t, calls);
    forall i, j | 0 <= i < j < |calls| && Asks(calls[i]) && Asks(calls[j])
      ensures var a, b := Given(opts, t, calls, i), Given(opts, t, calls, j);
              a.Some? && b.Some? && a.value.brokerID == b.value.brokerID >= 0 ==> Asked(calls[i]) == Asked(calls[j])
    {
      assert Holds(opts, t, calls, i) && Holds(opts, t, calls, j);
    }
  }

  lemma LastTakesNothing(opts: Options, t: Table, calls: seq<Call>, i: nat)
    requires i < |calls| - 1 && Asks(calls[i])
    requires Routing(opts, t.entries) && Answered(opts, t, calls) && OneAddressEach(opts, t, calls)
    requires Holds(opts, t, calls[..|calls| - 1], i)
    ensures !TakesFrom(opts, After(opts, t, calls[..|calls| - 1]), calls[|calls| - 1], Asked(calls[i]))
  {
    hide Routing, Lookup, After, Answered;
    var n := |calls| - 1;
    var now := After(opts, t, calls[..n]);
    Earlier(opts, t, calls, n);
    RoutingKept(opts, t, calls[..n]);
    AfterLast(opts, t, calls, n);
    assert calls[..n + 1] == calls;
    if opts.deterministicListeners && Asks(calls[n]) && Asked(calls[n]) !in now.entries {
      AnsweredAt(opts, t, calls, n);
      AnswerEntered(opts, now, calls[n]);
      assert Given(opts, t, calls, n).Some? && Given(opts, t, calls, n).value.brokerID == calls[n].id;
    }
  }

  lemma {:induction false} ApartUntaken(opts: Options, t: Table, calls: seq<Call>)
    requires Routing(opts, t.entries) && Answered(opts, t, calls) && OneAddressEach(opts, t, calls)
    ensures NoneTaken(opts, t, calls)
    decreases |calls|
  {
    hide Routing, Answered, OneAddressEach, After, TakesFrom, Holds;
    if calls != [] {
      var n := |calls| - 1;
      Earlier(opts, t, calls, n);
      ApartUntaken(opts, t, calls[..n]);
      UntakenHold(opts, t, calls[..n]);
      forall i, j | 0 <= i < j < |calls| && Asks(calls[i])
        ensures !TakesFrom(opts, After(opts, t, calls[..j]), calls[j], Asked(calls[i]))
      {
        assert calls[..n][i] == calls[i];
        if j < n {
          assert calls[..n][j] == calls[j] && calls[..n][..j] == calls[..j];
        } else {
          LastTakesNothing(opts, t, calls, i);
        }
      }
    }
  }

  /**
   All answers of a sequence of calls still hold at its end just when none of the calls took a
   listener from an address asked before. Without deterministic ports that is always so.
   */
  lemma AnswersHold(opts: Options, t: Table, calls: seq<Call>)
    requires Routing(opts, t.entries) && Answered(opts, t, calls)
    ensures AllHold(opts, t, calls) <==> NoneTaken(opts, t, calls)
    ensures !opts.deterministicListeners ==> AllHold(opts, t, calls)
  {
    hide Routing, Answered, AllHold, OneAddressEach;
    if NoneTaken(opts, t, calls) {
      UntakenHold(opts, t, calls);
    } else if AllHold(opts, t, calls) {
      HeldApart(opts, t, calls);
      ApartUntaken(opts, t, calls);
    }
  }

  // ---------------------------------------------------------------- the loop over the brokers

  /** What the callback says with the table as it is. */
  ghost function MapperOf(opts: Options, env: Environment, t: Table): Mapper {
    (host: Host, port: int32, id: int32) =>
      var answer := Lookup(opts, env, t, host, port, id).1;
      if answer.Success? then Success(answer.value) else Failure(())
  }

  /** An element of the list in the response: a broker, or a struct with one inside. */
  function BrokerIn(kind: ResponseKind, e: Value): Value {
    if kind == FindCoordinator && e.StructV? then Get(e, COORDINATOR) else e
  }

  /** The call for broker `b`; one that asks for nothing when `b` has no such fields. */
  ghost function CallFor(env: Environment, b: Value): Call {
    if HasAddress(b) then Call(env, Get(b, HOST).s, Get(b, PORT).i32, Get(b, NODE_ID).i32) else Call(env, [], 0, 0)
  }

  ghost function Calls(kind: ResponseKind, env: nat -> Environment, vs: seq<Value>): (calls: seq<Call>)
    ensures |calls| == |vs|
  {
    seq(|vs|, i requires 0 <= i < |vs| => CallFor(env(i), BrokerIn(kind, vs[i])))
  }

  /** The loop with the callback that asks the table; the table is left as the last call made it. */
  ghost function RewriteEach(kind: ResponseKind, opts: Options, env: nat -> Environment, t: Table, vs: seq<Value>)
    : (r: (Table, Result<seq<Value>, ModifyError>))
    ensures r.1.Success? ==> |r.1.value| == |vs|
    decreases |vs|
  {
    if vs == [] then (t, Success([]))
    else
      var n := |vs| - 1;
      var (u, done) := RewriteEach(kind, opts, env, t, vs[..n]);
      if done.Failure? then (u, done)
      else if !vs[n].StructV? then (u, Failure(Panicked))
      else
        var c := CallFor(env(n), BrokerIn(kind, vs[n]));
        var e := RewriteElement(kind, vs[n], MapperOf(opts, env(n), u));
        (Lookup(opts, c.env, u, c.host, c.port, c.id).0,
         if e.Failure? then Failure(e.error) else Success(done.value + [e.value]))
  }

  /** The list the rewriter goes through; a single coordinator is a list of one. */
  ghost function Elements(kind: ResponseKind, v: Value): seq<Value>
    requires v.StructV?
  {
    var list := Get(v, if kind == Metadata then BROKERS else COORDINATORS);
    if list.ArrayV? then list.elems else if kind == FindCoordinator then [v] else []
  }

  /** `Rewrite` with the callback that asks the table. */
  ghost function RewriteAsking(kind: ResponseKind, opts: Options, env: nat -> Environment, t: Table, v: Value)
    : (Table, Result<Value, ModifyError>)
    requires v.StructV?
  {
    var name := if kind == Metadata then BROKERS else COORDINATORS;
    var list := Get(v, name);
    if list.ArrayV? then
      var (u, all) := RewriteEach(kind, opts, env, t, list.elems);
      (u, if all.Failure? then Failure(all.error) else Success(Put(v, name, ArrayV(all.value))))
    else if kind == Metadata then (t, Failure(BrokersNotFound))
    else if !list.Nil? then (t, Failure(CoordinatorsNotFound))
    else
      var (u, one) := RewriteEach(kind, opts, env, t, [v]);
      (u, if one.Failure? then Failure(one.error) else Success(one.value[0]))
  }

  /** `Apply` with the callback that asks the table. */
  ghost function ApplyAsking(m: Modifier, opts: Options, env: nat -> Environment, t: Table, resp: seq<byte>)
    : (Table, Result<Option<seq<byte>>, ApplyError>)
  {
    var decoded := DecodeSchema(Some(resp), m.ty);
    if decoded.Failure? then (t, Failure(CodecFailed(decoded.error)))
    else if decoded.value.None? then (t, Failure(ModifyFailed(NoStruct)))
    else
      var (u, rewritten) := RewriteAsking(m.kind, opts, env, t, decoded.value.value);
      if rewritten.Failure? then (u, Failure(ModifyFailed(rewritten.error)))
      else
        var bytes := EncodeSchema(Some(rewritten.value), m.ty);
        (u, if bytes.Failure? then Failure(CodecFailed(bytes.error)) else Success(bytes.value))
  }

  lemma ElementAsks(kind: ResponseKind, e: Value, fn: Mapper)
    requires e.StructV? && RewriteElement(kind, e, fn).Success?
    ensures var b := BrokerIn(kind, e); HasAddress(b) && (Eligible(b) ==> Mapped(b, fn).Success?)
  {
  }

  lemma ElementAnswered(kind: ResponseKind, opts: Options, env: Environment, t: Table, e: Value)
    requires e.StructV? && RewriteElement(kind, e, MapperOf(opts, env, t)).Success?
    ensures var c := CallFor(env, BrokerIn(kind, e));
            Asks(c) ==> Lookup(opts, c.env, t, c.host, c.port, c.id).1.Success?
  {
    hide Lookup, RewriteElement, BrokerIn, Get;
    ElementAsks(kind, e, MapperOf(opts, env, t));
  }

  /** A successful loop has had every call answered, each by the table the calls before had left. */
  lemma {:induction false} EachRewritten(kind: ResponseKind, opts: Options, env: nat -> Environment, t: Table,
                                         vs: seq<Value>)
    requires RewriteEach(kind, opts, env, t, vs).1.Success?
    ensures var (u, r) := RewriteEach(kind, opts, env, t, vs);
            var calls := Calls(kind, env, vs);
            && u == After(opts, t, calls) && Answered(opts, t, calls)
            && forall i | 0 <= i < |vs| ::
                 && vs[i].StructV?
                 && RewriteElement(kind, vs[i], MapperOf(opts, env(i), After(opts, t, calls[..i])))
                    == Success(r.value[i])
    decreases |vs|
  {
    hide Lookup, RewriteElement, BrokerIn, CallFor, MapperOf, Asks, Answered, After, Calls;
    if vs == [] {
      NoCalls(opts, t);
      assert Calls(kind, env, vs) == [];
    } else {
      var n := |vs| - 1;
      EachRewritten(kind, opts, env, t, vs[..n]);
      var calls := Calls(kind, env, vs);
      Earlier(opts, t, calls, n);
      CallsPrefix(kind, env, vs, n);
      ElementAnswered(kind, opts, env(n), After(opts, t, calls[..n]), vs[n]);
      OneMore(opts, t, calls, n);
      AfterLast(opts, t, calls, n);
      var ws := RewriteEach(kind, opts, env, t, vs).1.value;
      forall i | 0 <= i < |vs|
        ensures vs[i].StructV?
        ensures RewriteElement(kind, vs[i], MapperOf(opts, env(i), After(opts, t, calls[..i]))) == Success(ws[i])
      {
        if i < n {
          assert vs[..n][i] == vs[i] && calls[..n][..i] == calls[..i];
        }
      }
    }
  }

  lemma CallsPrefix(kind: ResponseKind, env: nat -> Environment, vs: seq<Value>, n: nat)
    requires n < |vs|
    ensures Calls(kind, env, vs[..n]) == Calls(kind, env, vs)[..n]
    ensures Calls(kind, env, vs)[n] == CallFor(env(n), BrokerIn(kind, vs[n]))
  {
    hide CallFor, BrokerIn;
  }

  lemma NoCalls(opts: Options, t: Table)
    ensures After(opts, t, []) == t && Answered(opts, t, [])
  {
  }

  lemma OneMore(opts: Options, t: Table, calls: seq<Call>, n: nat)
    requires |calls| == n + 1 && Answered(opts, t, calls[..n])
    requires Asks(calls[n]) ==> AnswerTo(opts, t, calls, n).Success?
    ensures Answered(opts, t, calls)
  {
    hide After, Lookup, Asks;
    assert forall i | 0 <= i <= n :: calls[..n][..i] == calls[..i];
    forall i | 0 <= i < |calls| && Asks(calls[i])
      ensures AnswerTo(opts, t, calls, i).Success?
    {
      if i < n {
        assert calls[..n][i] == calls[i];
        assert AnswerTo(opts, t, calls[..n], i).Success?;
      }
    }
  }

  lemma ElementByAnswer(kind: ResponseKind, e: Value, f: Mapper, g: Mapper)
    requires e.StructV? && RewriteElement(kind, e, f).Success?
    requires var b := BrokerIn(kind, e); HasAddress(b) && Eligible(b) ==> Mapped(b, f) == Mapped(b, g)
    ensures RewriteElement(kind, e, f) == RewriteElement(kind, e, g)
  {
  }

  lemma AnsweredAt(opts: Options, t: Table, calls: seq<Call>, i: nat)
    requires Answered(opts, t, calls) && i < |calls| && Asks(calls[i])
    ensures AnswerTo(opts, t, calls, i).Success?
  {
  }

  lemma HoldsAt(opts: Options, t: Table, calls: seq<Call>, i: nat)
    requires AllHold(opts, t, calls) && i < |calls| && Asks(calls[i])
    ensures Holds(opts, t, calls, i)
  {
  }

  /** A listener that still holds answers at the end as it did before. */
  lemma AnswersLater(opts: Options, env: Environment, t: Table, calls: seq<Call>, i: nat)
    requires Routing(opts, t.entries) && Answered(opts, t, calls) && AllHold(opts, t, calls)
    requires i < |calls| && Asks(calls[i])
    ensures var c := calls[i];
            var (u, answer) := Lookup(opts, env, After(opts, t, calls), c.host, c.port, c.id);
            answer.Success? && answer == AnswerTo(opts, t, calls, i)
  {
    hide ListenDynamic, Advertise, After, Answered, AllHold, Routing;
    RoutingKept(opts, t, calls[..i]);
    HoldsAt(opts, t, calls, i);
    AnsweredAt(opts, t, calls, i);
    assert calls[..i + 1][..i] == calls[..i] && calls[..i + 1][i] == calls[i];
    AfterLast(opts, t, calls[..i + 1], i);
    AnswerEntered(opts, After(opts, t, calls[..i]), calls[i]);
  }

  /** When all answers hold, the loop has done what the rewriter does with the table that results. */
  lemma EachAsOfTheEnd(kind: ResponseKind, opts: Options, env: nat -> Environment, t: Table, vs: seq<Value>,
                       e: Environment)
    requires Routing(opts, t.entries)
    requires RewriteEach(kind, opts, env, t, vs).1.Success?
    requires NoneTaken(opts, t, Calls(kind, env, vs))
    ensures var (u, r) := RewriteEach(kind, opts, env, t, vs);
            RewriteElements(kind, vs, MapperOf(opts, e, u)) == r
  {
    hide Lookup, RewriteElement, RewriteEach, BrokerIn, Answered, NoneTaken, AllHold, Get, RewriteElements;
    var (u, r) := RewriteEach(kind, opts, env, t, vs);
    var calls := Calls(kind, env, vs);
    EachRewritten(kind, opts, env, t, vs);
    AnswersHold(opts, t, calls);
    forall i | 0 <= i < |vs|
      ensures RewriteElement(kind, vs[i], MapperOf(opts, e, u)) == Success(r.value[i])
    {
      var f := MapperOf(opts, env(i), After(opts, t, calls[..i]));
      ElementAsks(kind, vs[i], f);
      if Asks(calls[i]) {
        AnswersLater(opts, e, t, calls, i);
      }
      ElementByAnswer(kind, vs[i], f, MapperOf(opts, e, u));
    }
    ElementByElement(kind, vs, r.value, MapperOf(opts, e, u));
  }

  // ---------------------------------------------------------------- whole responses

  lemma AskingAsOfTheEnd(kind: ResponseKind, opts: Options, env: nat -> Environment, t: Table, v: Value, e: Environment)
    requires v.StructV? && Routing(opts, t.entries)
    requires RewriteAsking(kind, opts, env, t, v).1.Success?
    ensures var (u, r) := RewriteAsking(kind, opts, env, t, v);
            var calls := Calls(kind, env, Elements(kind, v));
            && u == After(opts, t, calls) && Answered(opts, t, calls)
            && (NoneTaken(opts, t, calls) ==> Rewrite(kind, Some(v), Some(MapperOf(opts, e, u))) == r)
  {
    hide RewriteEach, Answered, NoneTaken, MapperOf, Calls, After, RewriteAddress, RewriteCoordinator, Routing;
    var vs := Elements(kind, v);
    EachRewritten(kind, opts, env, t, vs);
    if NoneTaken(opts, t, Calls(kind, env, vs)) {
      EachAsOfTheEnd(kind, opts, env, t, vs, e);
    }
  }

  /**
   A response rewritten while the table changes under it. Every call is answered; all the answers
   still hold in the table that results just when no listener was taken from an address of this
   very response; and then the bytes are what the rewriter makes of the response with that table.
   */
  lemma RewrittenWhileAsking(apiKey: int16, apiVersion: int16, resp: seq<byte>, opts: Options, env: nat -> Environment,
                             t: Table)
    requires Supported(apiKey, apiVersion)
    requires Routing(opts, t.entries)
    ensures var m := ModifierFor(apiKey, apiVersion);
            var decoded := DecodeSchema(Some(resp), m.ty);
            var (u, out) := ApplyAsking(m, opts, env, t, resp);
            out.Success? ==>
              && decoded.Success? && decoded.value.Some?
              && var calls := Calls(m.kind, env, Elements(m.kind, decoded.value.value));
                 && u == After(opts, t, calls) && Answered(opts, t, calls) && Routing(opts, u.entries)
                 && (AllHold(opts, t, calls) <==> NoneTaken(opts, t, calls))
                 && (!opts.deterministicListeners ==> NoneTaken(opts, t, calls))
                 && (NoneTaken(opts, t, calls) ==>
                       forall e :: out == Apply(m.kind, m.ty, Some(resp), Some(MapperOf(opts, e, u))))
  {
    hide ModifierFor, DecodeSchema, EncodeSchema, RewriteAsking, Rewrite, Routing, Answered, AllHold, NoneTaken;
    hide MapperOf, Calls, After, Elements;
    var m := ModifierFor(apiKey, apiVersion);
    var decoded := DecodeSchema(Some(resp), m.ty);
    var (u, out) := ApplyAsking(m, opts, env, t, resp);
    if out.Success? {
      DecodedIsWellformed(m.ty, resp);
      var v := decoded.value.value;
      var calls := Calls(m.kind, env, Elements(m.kind, v));
      forall e
        ensures u == After(opts, t, calls) && Answered(opts, t, calls)
        ensures NoneTaken(opts, t, calls) ==> out == Apply(m.kind, m.ty, Some(resp), Some(MapperOf(opts, e, u)))
      {
        AskingAsOfTheEnd(m.kind, opts, env, t, v, e);
      }
      AskingAsOfTheEnd(m.kind, opts, env, t, v, env(0));
      RoutingKept(opts, t, calls);
      AnswersHold(opts, t, calls);
    }
  }

  /** In table `u`, `c` is `b` under the advertised address of the listener that stands for `b`. */
  ghost predicate Advertised(u: Table, b: Value, c: Value) {
    && HasAddress(b) && HasAddress(c)
    && if !Eligible(b) then c == b
       else
         var a := HostPort(Get(b, HOST).s, Get(b, PORT).i32);
         && a in u.entries && u.entries[a].brokerAddress == a
         && Advertise(u.entries[a].advertisedAddress) == Success((Get(c, HOST).s, Get(c, PORT).i32))
  }

  lemma ReaddressedIsAdvertised(opts: Options, e: Environment, u: Table, b: Value, c: Value)
    requires Routing(opts, u.entries) && Readdressed(b, c, MapperOf(opts, e, u))
    requires Eligible(b) ==> HostPort(Get(b, HOST).s, Get(b, PORT).i32) in u.entries
    requires HasAddress(c)
    ensures Advertised(u, b, c)
  {
    hide Advertise, ListenDynamic, SameExcept, Get;
  }

  lemma ElementsReaddressed(kind: ResponseKind, v: Value, w: Value, fn: Mapper)
    requires ResponseReaddressed(kind, v, w, fn)
    ensures |Elements(kind, v)| == |Elements(kind, w)|
    ensures forall i | 0 <= i < |Elements(kind, v)| ::
              Readdressed(BrokerIn(kind, Elements(kind, v)[i]), BrokerIn(kind, Elements(kind, w)[i]), fn)
  {
    hide Readdressed;
  }

  lemma BothHaveAddress(b: Value, c: Value, fn: Mapper)
    requires Readdressed(b, c, fn)
    ensures HasAddress(b) && HasAddress(c)
  {
  }

  lemma EligibleAsks(env: Environment, b: Value)
    requires HasAddress(b) && Eligible(b)
    ensures Asks(CallFor(env, b)) && Asked(CallFor(env, b)) == HostPort(Get(b, HOST).s, Get(b, PORT).i32)
  {
  }

  /**
   End to end: what the client decodes has, for every broker with an address, the advertised
   address of the listener that stands for this broker in the table as the rewriting left it.
   */
  lemma ClientMeetsListeners(apiKey: int16, apiVersion: int16, resp: seq<byte>, opts: Options, env: nat -> Environment,
                             t: Table)
    requires Supported(apiKey, apiVersion)
    requires Routing(opts, t.entries)
    requires ApplyAsking(ModifierFor(apiKey, apiVersion), opts, env, t, resp).1.Success?
    ensures var m := ModifierFor(apiKey, apiVersion);
            var decoded := DecodeSchema(Some(resp), m.ty);
            var (u, out) := ApplyAsking(m, opts, env, t, resp);
            var again := DecodeSchema(out.value, m.ty);
            && decoded.Success? && decoded.value.Some?
            && var bs := Elements(m.kind, decoded.value.value);
               NoneTaken(opts, t, Calls(m.kind, env, bs)) ==>
                 && again.Success? && again.value.Some?
                 && var cs := Elements(m.kind, again.value.value);
                    && |cs| == |bs|
                    && forall i | 0 <= i < |bs| :: Advertised(u, BrokerIn(m.kind, bs[i]), BrokerIn(m.kind, cs[i]))
  {
    hide ModifierFor, DecodeSchema, Apply, ApplyAsking, Routing, Answered, NoneTaken, MapperOf;
    hide AllMapped, RewriteEncodes, ResponseReaddressed, Readdressed, Elements, BrokerIn;
    hide After, Advertised, Get, CallFor, Asks;
    RewrittenWhileAsking(apiKey, apiVersion, resp, opts, env, t);
    var m := ModifierFor(apiKey, apiVersion);
    var (u, out) := ApplyAsking(m, opts, env, t, resp);
    DecodedIsWellformed(m.ty, resp);
    var v := DecodeSchema(Some(resp), m.ty).value.value;
    var bs := Elements(m.kind, v);
    var calls := Calls(m.kind, env, bs);
    if NoneTaken(opts, t, calls) {
      var fn := MapperOf(opts, env(0), u);
      RewritingPreservesMeaning(apiKey, apiVersion, resp, fn);
      DecodedIsWellformed(m.ty, out.value.value);
      var w := DecodeSchema(out.value, m.ty).value.value;
      ElementsReaddressed(m.kind, v, w, fn);
      forall i | 0 <= i < |bs|
        ensures Advertised(u, BrokerIn(m.kind, bs[i]), BrokerIn(m.kind, Elements(m.kind, w)[i]))
      {
        var b, c := BrokerIn(m.kind, bs[i]), BrokerIn(m.kind, Elements(m.kind, w)[i]);
        BothHaveAddress(b, c, fn);
        if Eligible(b) {
          EligibleAsks(env(i), b);
          assert Asks(calls[i]) && Asked(calls[i]) == HostPort(Get(b, HOST).s, Get(b, PORT).i32);
          assert Holds(opts, t, calls, i);
        }
        ReaddressedIsAdvertised(opts, env(0), u, b, c);
      }
    }
  }
}
