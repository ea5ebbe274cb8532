/**
 The object that the two loops of a connection share, and the methods that work on it: the
 channels newProcessor makes, what puts handlers and markers into them, and runReauth. Each
 method is one or more steps of the state machine, taken without anything in between.
 */
module Loops {
  import opened Wrappers
  import opened Bytes
  import opened AuthState
  import opened SaslReauth
  import Streams
  import opened Processor
  import opened BrokerStream

  datatype PutResult = Done | Waits | Full

  /** Both requests of an exchange can be built. */
  predicate CanBuild(cfg: Config, token: Option<seq<byte>>) {
    BuildReauthHandshake(cfg.clientId).Some? && BuildReauthAuthenticate(cfg.clientId, token).Some?
  }

  /** Both channels have room for its two replies. */
  predicate RoomForExchange(cfg: Config, s: State) {
    |s.markers| + 2 <= MarkerCapacity(cfg) && |s.handlers| + 2 <= HandlerCapacity(cfg)
  }

  /** No renewal is due, or nothing but the connection can make it fail. */
  predicate CanRenew(cfg: Config, s: State, token: Option<seq<byte>>) {
    cfg.reauthEnabled && NeedsReauth(s.auth, s.now) ==> CanBuild(cfg, token) && RoomForExchange(cfg, s)
  }

  class Connection {
    const cfg: Config
    const auth: ConnectionAuthState
    var openRequests: seq<Marker>
    var nextRequestHandlers: seq<RequestHandler>
    var nextResponseHandlers: seq<ResponseHandler>

    /** The objects stand for the state `s`. */
    ghost predicate Is(s: State)
      reads this, auth
    {
      openRequests == s.markers && nextRequestHandlers == s.tokens && nextResponseHandlers == s.handlers
        && auth.State() == s.auth
    }

    /** newProcessor: both handler channels start with a default handler. */
    constructor (cfg: Config, now: int)
      ensures this.cfg == cfg && fresh(auth)
      ensures Is(Init(cfg, now))
    {
      this.cfg := cfg;
      auth := new ConnectionAuthState(cfg.sessionLifetimeMs, now);
      openRequests, nextRequestHandlers, nextResponseHandlers := [], [DefaultRequestHandler], [DefaultResponseHandler];
    }

    /** The top of requestsLoop: give up on a stuck exchange, or take the turn. */
    method BeginIteration(now: int, ghost s: State)
      returns (h: Option<RequestHandler>, ghost steps: seq<Step>, ghost t: State)
      requires Is(s) && s.req.Top? && s.now == now
      modifies this`nextRequestHandlers
      ensures Run(cfg, s, steps) == Some(t) && Is(t)
      ensures match h
              case None => t.req.RequestStopped?
              case Some(DefaultRequestHandler) => t.req == Reading(NextReadDeadline(s.auth))
              case Some(SaslAuthV0RequestHandler) => t.req == ReadingRaw
      ensures h.None? <==> InFlightExpired(s.auth, now) || s.tokens == []
    {
      hide Run, Do;
      Nowhere(cfg, s);
      ghost var u := DoCheckExpired(s).value;
      steps := Next(cfg, s, [], s, CheckExpired, u);
      var expired := auth.Expired(now);
      if expired {
        return None, steps, u;
      }
      t := DoTakeRequestHandler(u).value;
      steps := Next(cfg, s, steps, u, TakeRequestHandler, t);
      if nextRequestHandlers == [] {
        return None, steps, t;
      }
      h := Some(nextRequestHandlers[0]);
      nextRequestHandlers := nextRequestHandlers[1..];
    }

    /** sendRequestKeyVersion; a full channel is waited for. */
    method SendRequestKeyVersion(m: Marker, ghost s: State) returns (sent: bool)
      requires Is(s) && s.req.HaveHead? && m == MarkerOf(s.req.r)
      modifies this`openRequests
      ensures sent <==> DoPushRequestMarker(cfg, s).Some?
      ensures sent ==> Is(DoPushRequestMarker(cfg, s).value)
      ensures !sent ==> Is(s)
    {
      if |openRequests| >= MarkerCapacity(cfg) {
        return false;
      }
      openRequests := openRequests + [m];
      return true;
    }

    /** receiveRequestKeyVersion; an empty channel is waited for. */
    method ReceiveRequestKeyVersion(ghost s: State) returns (m: Option<Marker>)
      requires Is(s) && s.resp.HaveHeader?
      modifies this`openRequests
      ensures m.Some? <==> DoPopMarker(cfg, s).Some?
      ensures m.Some? ==> var t := DoPopMarker(cfg, s).value; Is(t) && t.resp == AfterHeader(cfg, m.value, Current(s))
      ensures m.None? ==> Is(s)
    {
      hide AfterHeader;
      if openRequests == [] {
        return None;
      }
      m := Some(openRequests[0]);
      openRequests := openRequests[1..];
    }

    /** getNextResponseHandler; an empty channel is waited for. */
    method GetNextResponseHandler(ghost s: State) returns (h: Option<ResponseHandler>)
      requires Is(s) && s.resp.TakeHandler?
      modifies this`nextResponseHandlers
      ensures h.Some? <==> DoTakeResponseHandler(s).Some?
      ensures h.Some? ==> var t := DoTakeResponseHandler(s).value; Is(t) && t.resp == AwaitReply(h.value)
      ensures h.None? ==> Is(s)
    {
      if nextResponseHandlers == [] {
        return None;
      }
      h := Some(nextResponseHandlers[0]);
      nextResponseHandlers := nextResponseHandlers[1..];
    }

    method PutNextRequestHandler(h: RequestHandler) returns (ok: bool)
      modifies this`nextRequestHandlers
      ensures ok <==> old(nextRequestHandlers) == []
      ensures nextRequestHandlers == if ok then [h] else old(nextRequestHandlers)
    {
      if |nextRequestHandlers| >= 1 {
        return false;
      }
      nextRequestHandlers := nextRequestHandlers + [h];
      return true;
    }

    /** The turn first; a full response-handler channel is waited for. */
    method PutNextHandlers(ghost s: State, r: Request) returns (result: PutResult)
      requires Is(s) && s.req == Sent(r) && r.wantsReply
      modifies this`nextRequestHandlers, this`nextResponseHandlers
      ensures result.Waits? <==> DoPushNextHandlers(cfg, s).None?
      ensures !result.Waits? ==>
                var t := DoPushNextHandlers(cfg, s).value; Is(t) && (result.Done? <==> t.req == Top)
      ensures result.Waits? ==>
                && nextRequestHandlers == [NextRequestHandler(r)] && nextResponseHandlers == old(nextResponseHandlers)
                && |nextResponseHandlers| >= HandlerCapacity(cfg)
    {
      var ok := PutNextRequestHandler(NextRequestHandler(r));
      if !ok {
        return Full;
      }
      if |nextResponseHandlers| >= HandlerCapacity(cfg) {
        return Waits;
      }
      nextResponseHandlers := nextResponseHandlers + [HandlerAfter(r)];
      return Done;
    }

    method EnqueueReauthMarker(leg: nat, ghost s: State) returns (ok: bool, ghost steps: seq<Step>, ghost t: State)
      requires Is(s) && s.req == PushMarker(leg) && leg <= 1
      modifies this`openRequests, this`nextResponseHandlers
      ensures Run(cfg, s, steps) == Some(t) && Is(t) && t.wire == s.wire && t.cut == s.cut
      ensures if ok then t.req == if leg == 0 then PushMarker(1) else PutToken else t.req.RequestStopped?
      ensures ok <==> |s.markers| < MarkerCapacity(cfg) && |s.handlers| < HandlerCapacity(cfg)
      ensures ok ==> t.markers == s.markers + [ReauthMarker(leg)]
                     && t.handlers == s.handlers + [DefaultResponseHandler]
    {
      hide Run, Do;
      ghost var u := DoPushReauthMarker(cfg, s).value;
      Nowhere(cfg, s);
      steps := Next(cfg, s, [], s, PushReauthMarker, u);
      t := u;
      if |openRequests| >= MarkerCapacity(cfg) {
        return false, steps, t;
      }
      openRequests := openRequests + [ReauthMarker(leg)];
      t := DoPushReauthHandler(cfg, u).value;
      steps := Next(cfg, s, steps, u, PushReauthHandler, t);
      if |nextResponseHandlers| >= HandlerCapacity(cfg) {
        return false, steps, t;
      }
      nextResponseHandlers := nextResponseHandlers + [DefaultResponseHandler];
      return true, steps, t;
    }

    method EnqueueReauthResponse(ghost s: State) returns (ok: bool, ghost steps: seq<Step>, ghost t: State)
      requires Is(s) && s.req == PushMarker(0)
      modifies this`openRequests, this`nextResponseHandlers
      ensures Run(cfg, s, steps) == Some(t) && Is(t) && t.wire == s.wire && t.cut == s.cut
      ensures if ok then t.req == PutToken else t.req.RequestStopped?
      ensures ok <==> RoomForExchange(cfg, s)
      ensures ok ==> t.markers == s.markers + [ReauthMarker(0)] + [ReauthMarker(1)]
                     && t.handlers == s.handlers + [DefaultResponseHandler] + [DefaultResponseHandler]
    {
      hide Run, Do;
      ok, steps, t := EnqueueReauthMarker(0, s);
      if ok {
        ghost var more, u;
        ok, more, u := EnqueueReauthMarker(1, t);
        RunOn(cfg, s, steps, t, more, u);
        steps, t := steps + more, u;
      }
    }

    /** Both requests are built before anything is written, and written back to back. */
    method WriteExchange(dst: Streams.Sink, token: Option<seq<byte>>, ghost s: State)
      returns (ok: bool, ghost steps: seq<Step>, ghost t: State)
      requires s.req.ReauthBuild? && s.cut.None? && dst.received == BytesOf(s.wire)
      modifies dst
      ensures Run(cfg, s, steps) == Some(t)
      ensures t.markers == s.markers && t.tokens == s.tokens && t.handlers == s.handlers && t.auth == s.auth
      ensures if ok then t.req == ReauthMark(s.req.at) && t.cut.None? else t.req.RequestStopped?
      ensures dst.received == BytesOf(Received(t))
      ensures old(dst.Reliable()) ==> (ok <==> CanBuild(cfg, token))
    {
      hide BuildReauthHandshake, BuildReauthAuthenticate, DoRequestFails, Run, Do, BytesOf;
      Nowhere(cfg, s);
      var handshake := BuildReauthHandshakeRequest(cfg.clientId);
      var authenticate := BuildReauthRequest(cfg.clientId, token);
      ghost var u := DoWriteHandshake(cfg, s, token).value;
      if handshake.None? || authenticate.None? {
        steps := Next(cfg, s, [], s, WriteHandshake(token), u);
        return false, steps, u;
      }
      var err := dst.WriteAll(handshake.value);
      if err.Some? {
        ghost var put := |dst.received| - |old(dst.received)|;
        HandshakeCut(cfg, s, put);
        t := DoRequestFails(cfg, s, put).value;
        steps := Next(cfg, s, [], s, RequestFails(put), t);
        OneMore(s.wire, Part(HandshakeRequest(handshake.value), put));
        return false, steps, t;
      }
      steps := Next(cfg, s, [], s, WriteHandshake(token), u);
      OneMore(s.wire, HandshakeRequest(handshake.value));
      label Handshaken:
      err := dst.WriteAll(authenticate.value);
      if err.Some? {
        ghost var put := |dst.received| - |old@Handshaken(dst.received)|;
        AuthenticateCut(cfg, u, put);
        t := DoRequestFails(cfg, u, put).value;
        steps := Next(cfg, s, steps, u, RequestFails(put), t);
        OneMore(u.wire, Part(AuthenticateRequest(authenticate.value), put));
        return false, steps, t;
      }
      t := DoWriteAuthenticate(u).value;
      steps := Next(cfg, s, steps, u, WriteAuthenticate, t);
      OneMore(u.wire, AuthenticateRequest(authenticate.value));
      return true, steps, t;
    }

    /** MarkInFlight before the markers, so that no second attempt can start. */
    method MarkAndEnqueue(now: int, ghost s: State) returns (ok: bool, ghost steps: seq<Step>, ghost t: State)
      requires Is(s) && s.req == ReauthMark(now)
      modifies this`openRequests, this`nextResponseHandlers, auth
      ensures Run(cfg, s, steps) == Some(t) && Is(t) && t.wire == s.wire && t.cut == s.cut
      ensures if ok then t.req == PutToken else t.req.RequestStopped?
      ensures ok <==> RoomForExchange(cfg, s)
    {
      hide Run, Do, MarkInFlight;
      ghost var u := DoMarkReauth(s).value;
      Nowhere(cfg, s);
      steps := Next(cfg, s, [], s, MarkReauth, u);
      auth.Mark(now);
      ghost var more;
      ok, more, t := EnqueueReauthResponse(u);
      RunOn(cfg, s, steps, u, more, t);
      steps := steps + more;
    }

    /**
     runReauth takes a state of the machine to one that the machine reaches by its own steps, and
     what has been written is what that state says the broker received.
     */
    method RunReauth(dst: Streams.Sink, now: int, token: Option<seq<byte>>, ghost s: State)
      returns (ok: bool, ghost steps: seq<Step>, ghost t: State)
      requires Is(s) && s.req.ReauthDue? && s.now == now && s.cut.None? && dst.received == BytesOf(s.wire)
      modifies this`openRequests, this`nextResponseHandlers, auth, dst
      ensures Run(cfg, s, steps) == Some(t) && Is(t)
      ensures if ok then t.req == PutToken && t.cut.None? else t.req.RequestStopped?
      ensures t.tokens == s.tokens && dst.received == BytesOf(Received(t))
      ensures old(dst.Reliable()) ==> (ok <==> CanRenew(cfg, s, token))
    {
      hide Run, Do, BytesOf, MarkInFlight, NeedsReauth, BuildReauthHandshake, BuildReauthAuthenticate;
      ghost var u := DoCheckReauth(cfg, s).value;
      Nowhere(cfg, s);
      steps := Next(cfg, s, [], s, CheckReauth, u);
      var needed := auth.NeedsReauthNow(now);
      if !cfg.reauthEnabled || !needed {
        return true, steps, u;
      }
      ghost var more;
      ok, more, t := WriteExchange(dst, token, u);
      RunOn(cfg, s, steps, u, more, t);
      steps := steps + more;
      if !ok {
        return;
      }
      u := t;
      ok, more, t := MarkAndEnqueue(now, u);
      RunOn(cfg, s, steps, u, more, t);
      steps := steps + more;
    }

    /** What the default handler does after a read timeout: renew the session if due, and take the turn again. */
    method HandleReadTimeout(dst: Streams.Sink, now: int, token: Option<seq<byte>>, ghost s: State)
      returns (ok: bool, ghost steps: seq<Step>, ghost t: State)
      requires Is(s) && s.req.TimedOut? && s.tokens == [] && s.now == now && s.cut.None?
               && dst.received == BytesOf(s.wire)
      modifies this, auth, dst
      ensures Run(cfg, s, steps) == Some(t) && Is(t)
      ensures if ok then t.req.Top? && t.tokens == [DefaultRequestHandler] else t.req.RequestStopped?
      ensures dst.received == BytesOf(Received(t))
      ensures old(dst.Reliable()) ==> (ok <==> CanRenew(cfg, s, token))
    {
      hide Run, Do, BytesOf, NeedsReauth, BuildReauthHandshake, BuildReauthAuthenticate;
      Nowhere(cfg, s);
      ghost var u := DoCheckTimeout(s).value;
      steps := Next(cfg, s, [], s, CheckTimeout, u);
      var due := auth.NeedsReauthNow(now);
      if due {
        ghost var more;
        ok, more, t := RunReauth(dst, now, token, u);
        RunOn(cfg, s, steps, u, more, t);
        steps, u := steps + more, t;
        if !ok {
          return;
        }
      }
      ok := PutNextRequestHandler(DefaultRequestHandler);
      t := DoPutRequestToken(u).value;
      steps := Next(cfg, s, steps, u, PutRequestToken, t);
    }

    /** consumeReauthResponse, once the frame of the proxy's own reply has been read. */
    method ConsumeReauthResponse(reply: seq<byte>, now: int, ghost s: State) returns (ok: bool, ghost t: State)
      requires Is(s) && s.resp.Consuming? && s.now == now && reply == Current(s) && |reply| >= 8
      modifies auth
      ensures DoConsumeReply(s) == Some(t) && Is(t)
      ensures if ok then t.resp == TakeHandler else t.resp.ResponseStopped?
    {
      hide HandshakeOutcome, AuthenticateOutcome, Get32;
      t := DoConsumeReply(s).value;
      var payload := reply[8..];
      if Get32(reply[4..]) == REAUTH_HANDSHAKE_CORRELATION_ID {
        return HandshakeOutcome(payload).Accepted?, t;
      }
      var outcome := AuthenticateOutcome(payload);
      if !outcome.Accepted? {
        return false, t;
      }
      auth.Complete(outcome.lifetimeMs, now);
      return true, t;
    }
  }

  /** A write that fails leaves its part of the request behind. */
  lemma HandshakeCut(cfg: Config, s: State, put: nat)
    requires s.req.ReauthBuild? && BuildReauthHandshake(cfg.clientId).Some?
    ensures var part := Part(HandshakeRequest(BuildReauthHandshake(cfg.clientId).value), put);
            DoRequestFails(cfg, s, put) == Some(s.(req := RequestStopped, cut := Some(part)))
  {
    hide BuildReauthHandshake;
  }

  lemma AuthenticateCut(cfg: Config, s: State, put: nat)
    requires s.req.ReauthAuthenticate?
    ensures var part := Part(AuthenticateRequest(s.req.bytes), put);
            DoRequestFails(cfg, s, put) == Some(s.(req := RequestStopped, cut := Some(part)))
  {
    hide BuildReauthHandshake;
  }

  lemma OneMore(w: seq<Request>, r: Request)
    ensures BytesOf(w + [r]) == BytesOf(w) + r.bytes
  {
    assert (w + [r])[..|w|] == w;
  }

  /** One more step of the request loop at the end of a run. */
  lemma Next(cfg: Config, s: State, steps: seq<Step>, t: State, step: Step, u: State) returns (more: seq<Step>)
    requires Run(cfg, s, steps) == Some(t)
    requires match step
             case CheckExpired => DoCheckExpired(t) == Some(u)
             case TakeRequestHandler => DoTakeRequestHandler(t) == Some(u)
             case CheckTimeout => DoCheckTimeout(t) == Some(u)
             case PutRequestToken => DoPutRequestToken(t) == Some(u)
             case CheckReauth => DoCheckReauth(cfg, t) == Some(u)
             case WriteHandshake(token) => DoWriteHandshake(cfg, t, token) == Some(u)
             case WriteAuthenticate => DoWriteAuthenticate(t) == Some(u)
             case MarkReauth => DoMarkReauth(t) == Some(u)
             case PushReauthMarker => DoPushReauthMarker(cfg, t) == Some(u)
             case PushReauthHandler => DoPushReauthHandler(cfg, t) == Some(u)
             case RequestFails(partial) => DoRequestFails(cfg, t, partial) == Some(u)
             case _ => false
    ensures Run(cfg, s, more) == Some(u) && more == steps + [step]
  {
    hide DoCheckExpired, DoTakeRequestHandler, DoCheckTimeout, DoPutRequestToken, DoCheckReauth, DoWriteHandshake;
    hide DoWriteAuthenticate, DoMarkReauth, DoPushReauthMarker, DoPushReauthHandler, DoRequestFails;
    more := RunMore(cfg, s, steps, t, step, u);
  }

  lemma Nowhere(cfg: Config, s: State)
    ensures Run(cfg, s, []) == Some(s)
  {
    hide Do;
  }

  /** Two runs in a row. */
  lemma {:induction false} RunOn(cfg: Config, s: State, first: seq<Step>, t: State, more: seq<Step>, u: State)
    requires Run(cfg, s, first) == Some(t) && Run(cfg, t, more) == Some(u)
    ensures Run(cfg, s, first + more) == Some(u)
    decreases |more|
  {
    hide Do;
    Nowhere(cfg, s);
    if more == [] {
      assert first + more == first;
    } else {
      var v := Run(cfg, t, more[..|more| - 1]).value;
      RunOn(cfg, s, first, t, more[..|more| - 1], v);
      assert (first + more)[..|first + more| - 1] == first + more[..|more| - 1];
    }
  }
}
