/**
 Which ports the listener table asks the operating system for, over any sequence of calls, and what a
 broker met for the first time is answered. The port asked for is observed from outside: it is the
 one that must be free for the call not to fail.
 */
module ListenerPorts {
  import opened Wrappers
  import opened Bytes
  import opened Ports
  import opened Listeners

  /** The call is for an address that the table does not have, so a listener is wanted for it. */
  predicate WantsListener(opts: Options, t: Table, c: Call) {
    c.host != [] && c.port > 0 && HostPort(c.host, c.port) !in t.entries && !opts.disableDynamicListeners
  }

  /** A host on which one port is free, at the address that listeners are opened on. */
  function OnlyFree(opts: Options, port: uint16): Environment {
    Environment(a => if a == HostPort(opts.defaultListenerIP, port) then Some(port) else None, _ => None)
  }

  /** With that port free, and no other, the call gets as far as having bound a listener. */
  ghost predicate AsksFor(opts: Options, t: Table, c: Call, port: uint16) {
    Lookup(opts, OnlyFree(opts, port), t, c.host, c.port, c.id).1 != Failure(ListenFailure)
  }

  // ---------------------------------------------------------------- sequential ports

  predicate Sequential(opts: Options) {
    !opts.deterministicListeners && opts.dynamicSequentialMinPort > 0 && opts.dynamicSequentialMaxPorts > 0
  }

  /** A listener is wanted, and the port that is next is one. */
  predicate TakesPort(opts: Options, t: Table, c: Call)
    requires Sequential(opts)
  {
    && WantsListener(opts, t, c)
    && opts.dynamicSequentialMinPort + t.counter % opts.dynamicSequentialMaxPorts <= 65535
  }

  /** How many of the calls have taken a port. */
  ghost function Taken(opts: Options, t: Table, calls: seq<Call>): nat
    requires Sequential(opts)
    decreases |calls|
  {
    if calls == [] then 0
    else
      var n := |calls| - 1;
      Taken(opts, t, calls[..n]) + if TakesPort(opts, After(opts, t, calls[..n]), calls[n]) then 1 else 0
  }

  lemma SequentialCall(opts: Options, t: Table, c: Call, port: uint16)
    requires Sequential(opts)
    ensures Lookup(opts, c.env, t, c.host, c.port, c.id).0.counter
            == if TakesPort(opts, t, c) then (t.counter + 1) % 0x1_0000_0000_0000_0000 else t.counter
    ensures TakesPort(opts, t, c) ==>
              (AsksFor(opts, t, c, port)
               <==> port == opts.dynamicSequentialMinPort + t.counter % opts.dynamicSequentialMaxPorts)
  {
    hide Advertise, DynamicAdvertised;
    PortsStayInRange(opts.dynamicSequentialMinPort, opts.dynamicSequentialMaxPorts, t.counter);
    hide NextDynamicPort;
  }

  /** If call `i` takes a port, it asks for the one that the calls before have left next, and no other. */
  ghost predicate AsksInTurn(opts: Options, t: Table, calls: seq<Call>, i: nat)
    requires i < |calls| && Sequential(opts)
  {
    var before := After(opts, t, calls[..i]);
    TakesPort(opts, before, calls[i]) ==>
      forall port: uint16 ::
        AsksFor(opts, before, calls[i], port)
        <==> port == opts.dynamicSequentialMinPort
                     + (t.counter + Taken(opts, t, calls[..i])) % 0x1_0000_0000_0000_0000
                       % opts.dynamicSequentialMaxPorts
  }

  lemma AskedEarlier(opts: Options, t: Table, calls: seq<Call>, n: nat, i: nat)
    requires i < n <= |calls| && Sequential(opts) && AsksInTurn(opts, t, calls[..n], i)
    ensures AsksInTurn(opts, t, calls, i)
  {
    hide AsksFor, TakesPort, After, Taken;
    assert calls[..n][i] == calls[i] && calls[..n][..i] == calls[..i];
  }

  lemma AskedLast(opts: Options, t: Table, calls: seq<Call>, n: nat)
    requires |calls| == n + 1 && Sequential(opts)
    requires After(opts, t, calls[..n]).counter
             == (t.counter + Taken(opts, t, calls[..n])) % 0x1_0000_0000_0000_0000
    ensures AsksInTurn(opts, t, calls, n)
  {
    hide AsksFor, TakesPort, After, Taken;
    forall port: uint16 | TakesPort(opts, After(opts, t, calls[..n]), calls[n])
      ensures AsksFor(opts, After(opts, t, calls[..n]), calls[n], port)
              <==> port == opts.dynamicSequentialMinPort
                           + After(opts, t, calls[..n]).counter % opts.dynamicSequentialMaxPorts
    {
      SequentialCall(opts, After(opts, t, calls[..n]), calls[n], port);
    }
  }

  lemma CountedLast(opts: Options, t: Table, calls: seq<Call>, n: nat)
    requires |calls| == n + 1 && Sequential(opts)
    requires After(opts, t, calls[..n]).counter
             == (t.counter + Taken(opts, t, calls[..n])) % 0x1_0000_0000_0000_0000
    ensures After(opts, t, calls).counter == (t.counter + Taken(opts, t, calls)) % 0x1_0000_0000_0000_0000
  {
    hide Lookup, AsksFor, TakesPort, After;
    var k := Taken(opts, t, calls[..n]);
    AfterLast(opts, t, calls, n);
    SequentialCall(opts, After(opts, t, calls[..n]), calls[n], 0);
    WrappedSum(t.counter, k);
  }

  /**
   Over every sequence of calls the counter goes up with each port that is taken, also when it then
   cannot be bound; and a call that takes one asks for the port that is next.
   */
  lemma {:induction false} PortsInTurn(opts: Options, t: Table, calls: seq<Call>)
    requires Sequential(opts)
    ensures After(opts, t, calls).counter == (t.counter + Taken(opts, t, calls)) % 0x1_0000_0000_0000_0000
    ensures forall i | 0 <= i < |calls| :: AsksInTurn(opts, t, calls, i)
    decreases |calls|
  {
    hide Lookup, AsksFor, TakesPort, After, AsksInTurn, Taken;
    if calls == [] {
      NothingTaken(opts, t);
    } else {
      var n := |calls| - 1;
      PortsInTurn(opts, t, calls[..n]);
      CountedLast(opts, t, calls, n);
      AskedLast(opts, t, calls, n);
      forall i | 0 <= i < |calls|
        ensures AsksInTurn(opts, t, calls, i)
      {
        if i < n {
          AskedEarlier(opts, t, calls, n, i);
        }
      }
    }
  }

  lemma NothingTaken(opts: Options, t: Table)
    requires Sequential(opts)
    ensures After(opts, t, []) == t && Taken(opts, t, []) == 0
  {
  }

  lemma WrappedSum(c: uint64, k: nat)
    ensures ((c + k) % 0x1_0000_0000_0000_0000 + 1) % 0x1_0000_0000_0000_0000 == (c + (k + 1)) % 0x1_0000_0000_0000_0000
  {
  }

  /** The ports that the calls ask for, in turn. */
  ghost function PortsAsked(opts: Options, t: Table, calls: seq<Call>): (ports: seq<int>)
    requires Sequential(opts)
    decreases |calls|
  {
    if calls == [] then []
    else
      var n := |calls| - 1;
      var u := After(opts, t, calls[..n]);
      PortsAsked(opts, t, calls[..n])
      + if TakesPort(opts, u, calls[n]) then
          [if exists p: uint16 :: AsksFor(opts, u, calls[n], p) then
             var p: uint16 :| AsksFor(opts, u, calls[n], p); p
           else -1]
        else []
  }

  lemma {:induction false} PortsAskedAre(opts: Options, t: Table, calls: seq<Call>)
    requires Sequential(opts)
    ensures |PortsAsked(opts, t, calls)| == Taken(opts, t, calls)
    ensures forall i :: 0 <= i < |PortsAsked(opts, t, calls)| ==>
              PortsAsked(opts, t, calls)[i]
              == opts.dynamicSequentialMinPort
                 + (t.counter + i) % 0x1_0000_0000_0000_0000 % opts.dynamicSequentialMaxPorts
    decreases |calls|
  {
    hide Lookup, AsksFor, TakesPort, After;
    if calls != [] {
      var n := |calls| - 1;
      var u := After(opts, t, calls[..n]);
      PortsAskedAre(opts, t, calls[..n]);
      PortsInTurn(opts, t, calls[..n]);
      if TakesPort(opts, u, calls[n]) {
        NextPort(opts, u, calls[n]);
      }
    }
  }

  lemma NextPort(opts: Options, t: Table, c: Call)
    requires Sequential(opts) && TakesPort(opts, t, c)
    ensures exists p: uint16 :: AsksFor(opts, t, c, p)
    ensures forall p: uint16 | AsksFor(opts, t, c, p) ::
              p == opts.dynamicSequentialMinPort + t.counter % opts.dynamicSequentialMaxPorts
  {
    hide AsksFor;
    var next: uint16 := opts.dynamicSequentialMinPort + t.counter % opts.dynamicSequentialMaxPorts;
    SequentialCall(opts, t, c, next);
    forall p: uint16 | AsksFor(opts, t, c, p)
      ensures p == next
    {
      SequentialCall(opts, t, c, p);
    }
  }

  /**
   So as many listeners in a row as there are ports ask for each port of the range once, exactly when
   the counter does not wrap among them or its 2^64 values are a multiple of the range.
   */
  lemma ListenersGoRoundTheRange(opts: Options, t: Table, calls: seq<Call>)
    requires Sequential(opts) && Taken(opts, t, calls) == opts.dynamicSequentialMaxPorts
    requires opts.dynamicSequentialMinPort + opts.dynamicSequentialMaxPorts <= 65536
    ensures var min, max := opts.dynamicSequentialMinPort, opts.dynamicSequentialMaxPorts;
            multiset(PortsAsked(opts, t, calls)) == multiset(Range(min, max))
            <==> t.counter + max <= 0x1_0000_0000_0000_0000 || 0x1_0000_0000_0000_0000 % max == 0
  {
    hide PortsAsked, Range, Taken;
    PortsAskedAre(opts, t, calls);
    var min, max := opts.dynamicSequentialMinPort, opts.dynamicSequentialMaxPorts;
    assert PortsAsked(opts, t, calls) == PortsFrom(min, max, t.counter, max);
    ConsecutivePortsAreAPermutation(min, max, t.counter);
  }

  // ---------------------------------------------------------------- the other ways to a port

  /** With deterministic ports the port depends on the broker id alone. */
  lemma DeterministicCall(opts: Options, t: Table, c: Call, port: uint16)
    requires opts.deterministicListeners && WantsListener(opts, t, c) && 0 <= c.id < 0x1_0000_0000_0000_0000
    requires !HasId(t.entries, c.id) && opts.dynamicSequentialMaxPorts > 0
    requires opts.dynamicSequentialMinPort + c.id % opts.dynamicSequentialMaxPorts <= 65535
    ensures AsksFor(opts, t, c, port)
            <==> port == opts.dynamicSequentialMinPort + c.id % opts.dynamicSequentialMaxPorts
    ensures Lookup(opts, c.env, t, c.host, c.port, c.id).0.counter == t.counter
  {
    hide Advertise, DynamicAdvertised;
    PortsStayInRange(opts.dynamicSequentialMinPort, opts.dynamicSequentialMaxPorts, c.id);
    assert c.id % TWO_64 == c.id;
    hide NextDynamicPort;
  }

  /** Without a first port the operating system chooses. */
  lemma EphemeralCall(opts: Options, t: Table, c: Call, port: uint16)
    requires !opts.deterministicListeners && opts.dynamicSequentialMinPort == 0 && WantsListener(opts, t, c)
    ensures AsksFor(opts, t, c, port) <==> port == 0
    ensures Lookup(opts, c.env, t, c.host, c.port, c.id).0.counter == t.counter
  {
    hide Advertise, DynamicAdvertised, NextDynamicPort;
  }

  /**
   An address that the table has is answered with its advertised address, if that is a host and a port,
   the port cut to 32 bits.
   */
  lemma KnownAddressesAreAnswered(opts: Options, t: Table, c: Call)
    requires c.host != [] && c.port > 0 && HostPort(c.host, c.port) in t.entries
    ensures var (u, answer) := Lookup(opts, c.env, t, c.host, c.port, c.id);
            && u == t
            && match t.entries[HostPort(c.host, c.port)].advertisedAddress
               case HostPort(host, p) =>
                 answer.Success? && answer.value.0 == host && (answer.value.1 - p) % 0x1_0000_0000 == 0
               case Text(_) => answer == Failure(SplitFailure)
  {
  }

  /** Without a port to ask for, the call fails before anything else happens, with either kind of port. */
  lemma NoPortIsRefused(opts: Options, t: Table, c: Call)
    requires WantsListener(opts, t, c)
    requires if opts.deterministicListeners then 0 <= c.id < 0x1_0000_0000_0000_0000
             else opts.dynamicSequentialMinPort > 0
    ensures var min, max := opts.dynamicSequentialMinPort, opts.dynamicSequentialMaxPorts;
            var offset := if opts.deterministicListeners then c.id else t.counter;
            max == 0 || min + offset % max > 65535 ==>
              var (u, answer) := Lookup(opts, c.env, t, c.host, c.port, c.id);
              u == t && answer.Failure? && answer.error.PortFailure?
  {
    hide Advertise, DynamicAdvertised;
    if opts.dynamicSequentialMaxPorts > 0 {
      var offset := if opts.deterministicListeners then c.id else t.counter;
      assert offset % TWO_64 == offset;
      PortsStayInRange(opts.dynamicSequentialMinPort, opts.dynamicSequentialMaxPorts, offset);
    }
  }

  /** Calls that open nothing, and leave the table as it is. */
  lemma RefusedCalls(opts: Options, t: Table, c: Call)
    ensures c.host == [] || c.port <= 0 ==>
              Lookup(opts, c.env, t, c.host, c.port, c.id) == (t, Failure(InvalidBrokerAddress))
    ensures c.host != [] && c.port > 0 && HostPort(c.host, c.port) !in t.entries && opts.disableDynamicListeners ==>
              Lookup(opts, c.env, t, c.host, c.port, c.id) == (t, Failure(NotFound))
    ensures WantsListener(opts, t, c) && opts.deterministicListeners && c.id < 0 ==>
              Lookup(opts, c.env, t, c.host, c.port, c.id) == (t, Failure(NegativeBrokerId))
  {
    hide NextDynamicPort, DynamicAdvertised;
  }

  /**
   A listener that could be bound, on port `bound`, is entered for the broker and its advertised
   address answered: its own address, or what the template makes of the broker id, whose port, if it
   names none, is the one bound. A template that fails leaves the table without the listener.
   */
  lemma NewListenerIsAdvertised(opts: Options, t: Table, c: Call, port: uint16, bound: uint16)
    requires WantsListener(opts, t, c) && forall p: uint16 :: AsksFor(opts, t, c, p) <==> p == port
    requires opts.deterministicListeners ==> c.id >= 0 && !HasId(t.entries, c.id)
    requires c.env.listen(HostPort(opts.defaultListenerIP, port)) == Some(bound)
    ensures var (u, answer) := Lookup(opts, c.env, t, c.host, c.port, c.id);
            var a, ip := HostPort(c.host, c.port), opts.defaultListenerIP;
            if !opts.hasDynamicAdvertisedListener then
              && answer == Success((ip, bound))
              && u.entries == t.entries[a := Entry(a, HostPort(ip, bound), HostPort(ip, bound), c.id)]
            else
              match c.env.template(c.id)
              case None => answer == Failure(TemplateFailure) && u.entries == t.entries
              case Some(HostPort(host, p)) =>
                && answer.Success? && answer.value.0 == host && (answer.value.1 - p) % 0x1_0000_0000 == 0
                && u.entries == t.entries[a := Entry(a, HostPort(ip, bound), HostPort(host, p), c.id)]
              case Some(Text(text)) =>
                && answer == Success((text, bound))
                && u.entries == t.entries[a := Entry(a, HostPort(ip, bound), HostPort(text, bound), c.id)]
  {
    hide NextDynamicPort, Advertise;
    assert AsksFor(opts, t, c, port) && !AsksFor(opts, t, c, (port + 1) % 0x1_0000);
  }

  /** And one that could not be bound is not entered. */
  lemma UnboundListenerIsNot(opts: Options, t: Table, c: Call, port: uint16)
    requires WantsListener(opts, t, c) && forall p: uint16 :: AsksFor(opts, t, c, p) <==> p == port
    requires opts.deterministicListeners ==> c.id >= 0 && !HasId(t.entries, c.id)
    requires c.env.listen(HostPort(opts.defaultListenerIP, port)).None?
    ensures var (u, answer) := Lookup(opts, c.env, t, c.host, c.port, c.id);
            answer == Failure(ListenFailure) && u.entries == t.entries
  {
    hide NextDynamicPort, Advertise, DynamicAdvertised;
    assert AsksFor(opts, t, c, port) && !AsksFor(opts, t, c, (port + 1) % 0x1_0000);
  }
}
