/**
 What every step of either loop keeps: the shape of the traffic on the wire, the pairing of
 markers and handlers with it, and the progress of the response loop through the replies.
 */
module ProcessorInvariants {
  import opened Wrappers
  import opened Bytes
  import opened AuthState
  import opened SaslReauth
  import ProduceAcks
  import ResponseFrames
  import opened Processor
  import opened WireHistory

  // ---------------------------------------------------------------- the invariants

  /** `r` is something that a request handler, or runReauth, sends. */
  predicate Sendable(r: Request) {
    && (r.kind == Raw ==> r.origin == Client && r.wantsReply)
    && (!r.wantsReply ==> r.key == ProduceAcks.API_KEY_PRODUCE)
    && (r.origin == Proxy ==> r == HandshakeRequest(r.bytes) || r == AuthenticateRequest(r.bytes))
  }

  /** A SASL v0 handshake is the last request, so a raw token must follow. */
  predicate AwaitsRaw(e: seq<Request>) {
    e != [] && IsV0Handshake(e[|e| - 1])
  }

  /** Raw tokens are exactly what follows SASL v0 handshakes. */
  predicate WellFormed(w: seq<Request>) {
    w == [] || (
      var before, r := w[..|w| - 1], w[|w| - 1];
      && WellFormed(before)
      && Sendable(r)
      && (r.kind == Raw <==> AwaitsRaw(Replying(before))))
  }

  predicate EndsWith(w: seq<Request>, r: Request) {
    w != [] && w[|w| - 1] == r
  }

  /** The wire ends with a whole exchange of the proxy. */
  predicate EndsInExchange(w: seq<Request>) {
    && |w| >= 2
    && w[|w| - 2] == HandshakeRequest(w[|w| - 2].bytes)
    && w[|w| - 1] == AuthenticateRequest(w[|w| - 1].bytes)
  }

  predicate TurnsRight(s: State) {
    match s.req
    case RequestStopped => true
    case Top | Begin =>
      s.tokens == [if AwaitsRaw(Replying(s.wire)) then SaslAuthV0RequestHandler else DefaultRequestHandler]
    case _ => s.tokens == []
  }

  predicate PlaceRight(s: State) {
    match s.req
    case RequestStopped | Top | Begin => true
    case ReadingRaw => AwaitsRaw(Replying(s.wire))
    case HaveHead(r, _) =>
      !AwaitsRaw(Replying(s.wire)) && Sendable(r) && r.origin == Client && r.kind == Framed && r.wantsReply
    case Sending(r, sent, _) =>
      sent <= |r.bytes| && Sendable(r) && r.origin == Client && (r.kind == Raw <==> AwaitsRaw(Replying(s.wire)))
    case Sent(r) => EndsWith(s.wire, r) && r.origin == Client && (!r.wantsReply ==> !AwaitsRaw(Replying(s.wire)))
    case ReauthAuthenticate(_, _) => s.wire != [] && EndsWith(s.wire, HandshakeRequest(s.wire[|s.wire| - 1].bytes))
    case ReauthMark(_) => EndsInExchange(s.wire)
    case PushMarker(leg) => leg <= 1 && EndsInExchange(s.wire)
    case PushHandler(leg) => leg <= 1 && EndsInExchange(s.wire)
    case _ => !AwaitsRaw(Replying(s.wire))
  }

  predicate Shape(s: State) {
    WellFormed(s.wire) && TurnsRight(s) && PlaceRight(s)
  }

  /** The marker of a request is pushed before the request is sent. */
  function EarlyMarkers(req: RequestPc): seq<Marker> {
    if req.Sending? && req.r.wantsReply && req.r.kind == Framed then [MarkerOf(req.r)] else []
  }

  /** Markers and handlers still to be pushed for requests that are on the wire. */
  function PendingMarkers(req: RequestPc): nat {
    match req
    case ReauthAuthenticate(_, _) => 1
    case ReauthMark(_) => 2
    case PushMarker(leg) => if leg == 0 then 2 else 1
    case PushHandler(leg) => if leg == 0 then 1 else 0
    case _ => 0
  }

  function PendingHandlers(req: RequestPc): nat {
    match req
    case ReauthAuthenticate(_, _) => 1
    case ReauthMark(_) => 2
    case PushMarker(leg) => if leg == 0 then 2 else 1
    case PushHandler(leg) => if leg == 0 then 2 else 1
    case Sent(r) => if r.wantsReply then 1 else 0
    case _ => 0
  }

  /** `q` holds what stands in `all` from `start` on, as far as that goes. */
  ghost predicate Window<T(!new)>(q: seq<T>, start: nat, all: seq<T>) {
    forall i :: 0 <= i < |q| && start + i < |all| ==> q[i] == all[start + i]
  }

  /** The handler queue is one ahead of the replies to expect, the marker queue in step with the framed ones. */
  ghost predicate HandlersPaired(s: State) {
    var e := Replying(s.wire);
    && Window(s.handlers, s.taken, HandlersOf(e))
    && s.taken + |s.handlers| <= |e| + 1
    && (!s.req.RequestStopped? ==> s.taken + |s.handlers| + PendingHandlers(s.req) == |e| + 1)
  }

  ghost predicate MarkersPaired(s: State) {
    var m := MarkersOf(Replying(s.wire));
    && Window(s.markers, s.popped, m + EarlyMarkers(s.req))
    && s.popped <= |m|
    && s.popped + |s.markers| <= |m| + 1
    && (!s.req.RequestStopped? ==> s.popped + |s.markers| + PendingMarkers(s.req) == |m| + |EarlyMarkers(s.req)|)
  }

  /** The broker answers in order, just what the proxy expects to be answered. */
  ghost predicate Answered(cfg: Config, s: State) {
    && s.served <= |s.wire|
    && |s.replies| == |Replying(s.wire[..s.served])| <= |Replying(s.wire)|
    && forall i :: 0 <= i < |s.replies| ==> CanReply(cfg, Replying(s.wire)[i], s.replies[i])
  }

  /** Framed replies among the first `n`. */
  function FramedBefore(e: seq<Request>, n: nat): nat
    requires n <= |e|
  {
    |MarkersOf(e[..n])|
  }

  /** Where the response loop stands among the replies. */
  predicate Progress(s: State) {
    var e := Replying(s.wire);
    && s.handled <= s.read <= |s.replies| <= |e|
    && s.read <= s.handled + 1
    && s.popped + RawCount(e[..s.read]) <= s.taken
    && match s.resp
       case TakeHandler => s.taken == s.read == s.handled && s.popped == FramedBefore(e, s.read)
       case AwaitReply(h) =>
         s.taken == s.read + 1 && s.read == s.handled && s.popped == FramedBefore(e, s.read)
           && h == HandlersOf(e)[s.read]
       case HaveHeader =>
         s.taken == s.read == s.handled + 1 && s.popped == FramedBefore(e, s.handled) && e[s.handled].kind == Framed
       case Consuming =>
         && s.taken == s.read == s.handled + 1 && s.popped == FramedBefore(e, s.read)
         && e[s.handled].kind == Framed && IsProxyReauthResponse(MarkerOf(e[s.handled]), e[s.handled].corr)
       case Writing(_) => s.taken == s.read == s.handled + 1 && s.popped == FramedBefore(e, s.read)
       case ResponseStopped => true
       case Desynchronised => false
  }

  ghost predicate Inv(cfg: Config, s: State) {
    Shape(s) && HandlersPaired(s) && MarkersPaired(s) && Answered(cfg, s) && Progress(s)
  }

  // ---------------------------------------------------------------- requests

  lemma ParsedHead(cfg: Config, s: seq<byte>)
    ensures var a := ParseHead(cfg, s);
            a.Some? ==> Sendable(a.value.r) && a.value.r.origin == Client && a.value.r.kind == Framed
    ensures var a := ParseRawHead(s);
            a.Some? ==> Sendable(a.value.r) && a.value.r.origin == Client && a.value.r.kind == Raw
  {
    hide ProduceAcks.PeekAcks, Get16, Get32;
  }

  lemma LastReplying(w: seq<Request>)
    requires w != []
    ensures var r := w[|w| - 1];
            Replying(w) == if r.wantsReply then Replying(w[..|w| - 1]) + [r] else Replying(w[..|w| - 1])
  {
  }

  lemma WireGrows(w: seq<Request>, r: Request)
    requires WellFormed(w) && Sendable(r) && (r.kind == Raw <==> AwaitsRaw(Replying(w)))
    ensures WellFormed(w + [r])
    ensures AwaitsRaw(Replying(w + [r])) <==> IsV0Handshake(r)
  {
    MoreWire(w, r);
    assert (w + [r])[..|w|] == w;
    if !r.wantsReply {
      assert r.kind == Framed && !AwaitsRaw(Replying(w));
    }
  }

  /** One more request on the wire, with the request loop going on as `Shape` demands. */
  lemma SentShape(s: State, r: Request, t: State)
    requires Shape(s) && Sendable(r) && (r.kind == Raw <==> AwaitsRaw(Replying(s.wire)))
    requires t.wire == s.wire + [r] && t.tokens == s.tokens == []
    requires match t.req
             case Sent(q) => q == r && r.origin == Client
             case ReauthAuthenticate(_, _) => r == HandshakeRequest(r.bytes)
             case ReauthMark(_) => s.req.ReauthAuthenticate? && r == AuthenticateRequest(r.bytes)
             case _ => false
    ensures Shape(t)
  {
    hide Replying, WellFormed;
    WireGrows(s.wire, r);
  }

  // ---------------------------------------------------------------- the shape, whatever the broker does

  lemma TurnShape(cfg: Config, s: State, t: State)
    requires Shape(s)
    requires DoCheckExpired(s) == Some(t) || DoTakeRequestHandler(s) == Some(t) || DoPutRequestToken(s) == Some(t)
             || DoCheckTimeout(s) == Some(t) || DoCheckReauth(cfg, s) == Some(t) || DoMarkReauth(s) == Some(t)
    ensures Shape(t)
  {
    hide Replying, WellFormed, NextReadDeadline, InFlightExpired, NeedsReauth, MarkInFlight;
    assert s.tokens != [] ==> |s.tokens[1..]| == |s.tokens| - 1;
  }

  lemma ReadingShape(cfg: Config, s: State, n: nat, t: State)
    requires Shape(s)
    requires DoReadHead(cfg, s) == Some(t) || DoReadRawHead(s) == Some(t) || DoReadTimeout(s, n) == Some(t)
             || DoReadBody(s, n) == Some(t)
    ensures Shape(t)
  {
    hide Replying, WellFormed, ParseHead, ParseRawHead;
    ParsedHead(cfg, s.unread);
  }

  lemma FailingShape(cfg: Config, s: State, partial: nat, t: State)
    requires Shape(s) && DoRequestFails(cfg, s, partial) == Some(t)
    ensures Shape(t)
  {
    hide Replying, WellFormed, BuildReauthHandshake;
  }

  lemma PushingShape(cfg: Config, s: State, t: State)
    requires Shape(s)
    requires DoPushRequestMarker(cfg, s) == Some(t) || DoPushNextHandlers(cfg, s) == Some(t)
             || DoPushReauthMarker(cfg, s) == Some(t) || DoPushReauthHandler(cfg, s) == Some(t)
    ensures Shape(t)
  {
    hide Replying, WellFormed;
    if s.wire != [] {
      LastReplying(s.wire);
    }
  }

  lemma SendPartShape(s: State, k: nat, t: State)
    requires Shape(s) && DoSendPart(s, k) == Some(t)
    ensures Shape(t)
  {
    hide Replying, WellFormed;
    if t.req.Sent? {
      SentShape(s, Complete(s.req.r), t);
    }
  }

  lemma WritingShape(cfg: Config, s: State, token: Option<seq<byte>>, t: State)
    requires Shape(s) && (DoWriteHandshake(cfg, s, token) == Some(t) || DoWriteAuthenticate(s) == Some(t))
    ensures Shape(t)
  {
    hide Replying, WellFormed, BuildReauthHandshake, BuildReauthAuthenticate;
    if s.wire != [] {
      LastReplying(s.wire);
    }
    if t.req.ReauthAuthenticate? {
      SentShape(s, HandshakeRequest(BuildReauthHandshake(cfg.clientId).value), t);
    } else if t.req.ReauthMark? {
      SentShape(s, AuthenticateRequest(s.req.bytes), t);
    }
  }

  lemma SameShape(s: State, t: State)
    requires Shape(s) && t.wire == s.wire && t.req == s.req && t.tokens == s.tokens
    ensures Shape(t)
  {
    hide Replying, WellFormed;
  }

  lemma ResponseShape(cfg: Config, s: State, reply: seq<byte>, k: nat, t: State)
    requires Shape(s)
    requires DoServe(cfg, s, reply) == Some(t) || DoTakeResponseHandler(s) == Some(t) || DoReadReply(s) == Some(t)
             || DoPopMarker(cfg, s) == Some(t) || DoConsumeReply(s) == Some(t) || DoWritePart(s, k) == Some(t)
             || DoResponseFails(s) == Some(t)
    ensures Shape(t)
  {
    hide Shape, AfterHeader, CanReply, Answers, HandshakeOutcome, AuthenticateOutcome, Get32;
    SameShape(s, t);
  }

  lemma StepShape(cfg: Config, s: State, step: Step, t: State)
    requires Shape(s) && Do(cfg, s, step) == Some(t)
    ensures Shape(t)
  {
    hide Shape, DoServe, DoCheckExpired, DoTakeRequestHandler, DoReadHead, DoReadRawHead, DoReadTimeout, DoReadBody;
    hide DoPushRequestMarker, DoSendPart, DoPushNextHandlers, DoCheckTimeout, DoCheckReauth, DoWriteHandshake;
    hide DoWriteAuthenticate, DoMarkReauth, DoPushReauthMarker, DoPushReauthHandler, DoPutRequestToken, DoRequestFails;
    hide DoTakeResponseHandler, DoReadReply, DoPopMarker, DoConsumeReply, DoWritePart, DoResponseFails;
    match step
    case Tick(_) => SameShape(s, t);
    case ClientSends(_) => SameShape(s, t);
    case BrokerServes(reply) => ResponseShape(cfg, s, reply, 0, t);
    case CheckExpired => TurnShape(cfg, s, t);
    case TakeRequestHandler => TurnShape(cfg, s, t);
    case PutRequestToken => TurnShape(cfg, s, t);
    case CheckTimeout => TurnShape(cfg, s, t);
    case CheckReauth => TurnShape(cfg, s, t);
    case MarkReauth => TurnShape(cfg, s, t);
    case ReadHead => ReadingShape(cfg, s, 0, t);
    case ReadRawHead => ReadingShape(cfg, s, 0, t);
    case ReadTimeout(partial) => ReadingShape(cfg, s, partial, t);
    case ReadBody(k) => ReadingShape(cfg, s, k, t);
    case PushRequestMarker => PushingShape(cfg, s, t);
    case PushNextHandlers => PushingShape(cfg, s, t);
    case PushReauthMarker => PushingShape(cfg, s, t);
    case PushReauthHandler => PushingShape(cfg, s, t);
    case SendPart(k) => SendPartShape(s, k, t);
    case WriteHandshake(token) => WritingShape(cfg, s, token, t);
    case WriteAuthenticate => WritingShape(cfg, s, None, t);
    case RequestFails(partial) => FailingShape(cfg, s, partial, t);
    case TakeResponseHandler => ResponseShape(cfg, s, [], 0, t);
    case ReadReply => ResponseShape(cfg, s, [], 0, t);
    case PopMarker => ResponseShape(cfg, s, [], 0, t);
    case ConsumeReply => ResponseShape(cfg, s, [], 0, t);
    case WritePart(k) => ResponseShape(cfg, s, [], k, t);
    case ResponseFails => ResponseShape(cfg, s, [], 0, t);
  }

  /** Every state of every run has the shape, also with a broker that the proxy misjudges. */
  lemma {:induction false} RunShape(cfg: Config, now: int, steps: seq<Step>, s: State)
    requires Run(cfg, Init(cfg, now), steps) == Some(s)
    ensures Shape(s)
    decreases |steps|
  {
    hide Do;
    if steps != [] {
      hide Shape;
      var before := Run(cfg, Init(cfg, now), steps[..|steps| - 1]).value;
      RunShape(cfg, now, steps[..|steps| - 1], before);
      StepShape(cfg, before, steps[|steps| - 1], s);
    }
  }

  // ---------------------------------------------------------------- steps that move the request loop only

  predicate SameTraffic(s: State, t: State) {
    && t.wire == s.wire && t.served == s.served && t.replies == s.replies
    && t.handlers == s.handlers && t.markers == s.markers
    && t.resp == s.resp && t.taken == s.taken && t.popped == s.popped && t.read == s.read && t.handled == s.handled
  }

  lemma QuietKeeps(cfg: Config, s: State, t: State)
    requires Inv(cfg, s) && Shape(t) && SameTraffic(s, t)
    requires t.req.RequestStopped? || (!s.req.RequestStopped? && PendingMarkers(t.req) == PendingMarkers(s.req)
             && PendingHandlers(t.req) == PendingHandlers(s.req) && EarlyMarkers(t.req) == EarlyMarkers(s.req))
    ensures Inv(cfg, t)
  {
    hide Replying, MarkersOf, HandlersOf, Shape, CanReply, RawCount;
  }

  lemma WaitingKeeps(cfg: Config, s: State, t: State)
    requires Inv(cfg, s) && Shape(t)
    requires DoCheckExpired(s) == Some(t) || DoTakeRequestHandler(s) == Some(t) || DoPutRequestToken(s) == Some(t)
             || DoCheckTimeout(s) == Some(t) || DoCheckReauth(cfg, s) == Some(t) || DoMarkReauth(s) == Some(t)
    ensures Inv(cfg, t)
  {
    hide Inv, Shape, NextReadDeadline, InFlightExpired, NeedsReauth, MarkInFlight;
    QuietKeeps(cfg, s, t);
  }

  lemma ReadingKeeps(cfg: Config, s: State, n: nat, t: State)
    requires Inv(cfg, s) && Shape(t)
    requires DoReadHead(cfg, s) == Some(t) || DoReadRawHead(s) == Some(t) || DoReadTimeout(s, n) == Some(t)
             || DoReadBody(s, n) == Some(t)
    ensures Inv(cfg, t)
  {
    hide Inv, Shape, ParseHead, ParseRawHead;
    ParsedHead(cfg, s.unread);
    QuietKeeps(cfg, s, t);
  }

  lemma FailingKeeps(cfg: Config, s: State, partial: nat, t: State)
    requires Inv(cfg, s) && Shape(t) && DoRequestFails(cfg, s, partial) == Some(t)
    ensures Inv(cfg, t)
  {
    hide Inv, Shape, BuildReauthHandshake;
    QuietKeeps(cfg, s, t);
  }

  // ---------------------------------------------------------------- steps that push

  lemma Pushed<T(!new)>(q: seq<T>, start: nat, all: seq<T>, x: T)
    requires Window(q, start, all) && (start + |q| < |all| ==> all[start + |q|] == x)
    ensures Window(q + [x], start, all)
  {
  }

  lemma Extended<T(!new)>(q: seq<T>, start: nat, all: seq<T>, more: seq<T>)
    requires Window(q, start, all) && start + |q| <= |all|
    ensures Window(q, start, all + more)
  {
  }

  lemma PushRequestMarkerKeeps(cfg: Config, s: State, t: State)
    requires Inv(cfg, s) && Shape(t) && DoPushRequestMarker(cfg, s) == Some(t)
    ensures Inv(cfg, t)
  {
    hide Replying, WellFormed, MarkersOf, HandlersOf, Answered, Progress, Window;
    var m, x := MarkersOf(Replying(s.wire)), MarkerOf(s.req.r);
    assert m + EarlyMarkers(s.req) == m;
    Extended(s.markers, s.popped, m, [x]);
    Pushed(s.markers, s.popped, m + [x], x);
    SameProgress(cfg, s, t);
  }

  /** What a step that leaves the broker and the response loop alone does not touch. */
  lemma SameProgress(cfg: Config, s: State, t: State)
    requires Answered(cfg, s) && Progress(s)
    requires t.wire == s.wire && t.served == s.served && t.replies == s.replies
    requires t.resp == s.resp && t.taken == s.taken && t.popped == s.popped && t.read == s.read
             && t.handled == s.handled
    ensures Answered(cfg, t) && Progress(t)
  {
    hide Replying, MarkersOf, HandlersOf, CanReply, RawCount;
  }

  lemma PushNextHandlersKeeps(cfg: Config, s: State, t: State)
    requires Inv(cfg, s) && Shape(t) && DoPushNextHandlers(cfg, s) == Some(t)
    ensures Inv(cfg, t)
  {
    hide Replying, WellFormed, MarkersOf, HandlersOf, Answered, Progress, Window;
    LastReplying(s.wire);
    var e := Replying(s.wire);
    if s.req.r.wantsReply {
      HandlerAt(e, |e|);
      Pushed(s.handlers, s.taken, HandlersOf(e), HandlerAfter(s.req.r));
    }
    SameProgress(cfg, s, t);
  }

  /** The last two requests of an exchange, among those that are answered. */
  lemma ExchangeEnd(w: seq<Request>)
    requires EndsInExchange(w)
    ensures var e := Replying(w);
            && |e| >= 2 && e[|e| - 2] == w[|w| - 2] && e[|e| - 1] == w[|w| - 1]
            && MarkersOf(e) == MarkersOf(e[..|e| - 2]) + [ReauthMarker(0), ReauthMarker(1)]
            && HandlersOf(e)[|e| - 1] == HandlersOf(e)[|e|] == DefaultResponseHandler
  {
    hide Replying;
    LastReplying(w);
    LastReplying(w[..|w| - 1]);
    var e := Replying(w);
    assert w[..|w| - 1][..|w| - 2] == w[..|w| - 2];
    assert e[..|e| - 1][..|e| - 2] == e[..|e| - 2];
    HandlerAt(e, |e| - 1);
    HandlerAt(e, |e|);
    assert e[..|e| - 1] == e[..|e| - 2] + [e[|e| - 2]];
    assert e == e[..|e| - 1] + [e[|e| - 1]];
    MoreExpected(e[..|e| - 2], e[|e| - 2]);
    MoreExpected(e[..|e| - 1], e[|e| - 1]);
  }

  lemma PushReauthMarkerKeeps(cfg: Config, s: State, t: State)
    requires Inv(cfg, s) && Shape(t) && DoPushReauthMarker(cfg, s) == Some(t)
    ensures Inv(cfg, t)
  {
    hide Replying, WellFormed, MarkersOf, HandlersOf, Answered, Progress, Window;
    ExchangeEnd(s.wire);
    var m := MarkersOf(Replying(s.wire));
    assert m + EarlyMarkers(s.req) == m == m + EarlyMarkers(t.req);
    if t.req.PushHandler? {
      Pushed(s.markers, s.popped, m, ReauthMarker(s.req.leg));
    }
    SameProgress(cfg, s, t);
  }

  lemma PushReauthHandlerKeeps(cfg: Config, s: State, t: State)
    requires Inv(cfg, s) && Shape(t) && DoPushReauthHandler(cfg, s) == Some(t)
    ensures Inv(cfg, t)
  {
    hide Replying, WellFormed, MarkersOf, HandlersOf, Answered, Progress, Window;
    ExchangeEnd(s.wire);
    var e := Replying(s.wire);
    if !t.req.RequestStopped? {
      Pushed(s.handlers, s.taken, HandlersOf(e), DefaultResponseHandler);
    }
    SameProgress(cfg, s, t);
  }

  // ---------------------------------------------------------------- steps that put a request on the wire

  /** One more request on the wire does not disturb the replies under way. */
  lemma SentProgress(cfg: Config, s: State, r: Request, t: State)
    requires Answered(cfg, s) && Progress(s)
    requires t.wire == s.wire + [r] && t.served == s.served && t.replies == s.replies
    requires t.resp == s.resp && t.taken == s.taken && t.popped == s.popped && t.read == s.read
             && t.handled == s.handled
    ensures Answered(cfg, t) && Progress(t)
  {
    hide Replying, MarkersOf, HandlersOf, CanReply, RawCount;
    MoreWire(s.wire, r);
    var e, f := Replying(s.wire), Replying(t.wire);
    assert t.wire[..s.served] == s.wire[..s.served];
    assert f[..s.read] == e[..s.read] && f[..s.handled] == e[..s.handled];
    MoreExpected(e, r);
  }

  lemma SentPairing(s: State, r: Request, t: State)
    requires HandlersPaired(s) && MarkersPaired(s) && !s.req.RequestStopped? && !t.req.RequestStopped?
    requires t.wire == s.wire + [r] && t.handlers == s.handlers && t.markers == s.markers
    requires t.taken == s.taken && t.popped == s.popped && EarlyMarkers(t.req) == []
    requires r.kind == Framed && r.wantsReply ==>
               EarlyMarkers(s.req) == [MarkerOf(r)]
                 || (EarlyMarkers(s.req) == [] && PendingMarkers(t.req) == PendingMarkers(s.req) + 1)
    requires !(r.kind == Framed && r.wantsReply) ==> EarlyMarkers(s.req) == []
    requires EarlyMarkers(s.req) == [MarkerOf(r)] || !(r.kind == Framed && r.wantsReply) ==>
               PendingMarkers(t.req) == PendingMarkers(s.req)
    requires PendingHandlers(t.req) == PendingHandlers(s.req) + if r.wantsReply then 1 else 0
    ensures HandlersPaired(t) && MarkersPaired(t)
  {
    hide Replying, MarkersOf, HandlersOf, Window;
    MoreWire(s.wire, r);
    var e := Replying(s.wire);
    var m := MarkersOf(e);
    MoreExpected(e, r);
    if r.wantsReply {
      Extended(s.handlers, s.taken, HandlersOf(e), [HandlerAfter(r)]);
    }
    assert m + [] == m;
    assert MarkersOf(Replying(t.wire)) + [] == MarkersOf(Replying(t.wire));
    if r.kind == Framed && r.wantsReply && EarlyMarkers(s.req) == [] {
      Extended(s.markers, s.popped, m, [MarkerOf(r)]);
    }
  }

  lemma SendPartKeeps(cfg: Config, s: State, k: nat, t: State)
    requires Inv(cfg, s) && Shape(t) && DoSendPart(s, k) == Some(t)
    ensures Inv(cfg, t)
  {
    hide Replying, WellFormed, HandlersPaired, MarkersPaired, Answered, Progress;
    if t.req.Sent? {
      SentPairing(s, Complete(s.req.r), t);
      SentProgress(cfg, s, Complete(s.req.r), t);
    } else {
      QuietKeeps(cfg, s, t);
    }
  }

  lemma WriteHandshakeKeeps(cfg: Config, s: State, token: Option<seq<byte>>, t: State)
    requires Inv(cfg, s) && Shape(t) && DoWriteHandshake(cfg, s, token) == Some(t)
    ensures Inv(cfg, t)
  {
    hide Replying, WellFormed, BuildReauthHandshake, BuildReauthAuthenticate;
    hide HandlersPaired, MarkersPaired, Answered, Progress;
    if t.req.ReauthAuthenticate? {
      var r := HandshakeRequest(BuildReauthHandshake(cfg.clientId).value);
      SentPairing(s, r, t);
      SentProgress(cfg, s, r, t);
    } else {
      QuietKeeps(cfg, s, t);
    }
  }

  lemma WriteAuthenticateKeeps(cfg: Config, s: State, t: State)
    requires Inv(cfg, s) && Shape(t) && DoWriteAuthenticate(s) == Some(t)
    ensures Inv(cfg, t)
  {
    hide Replying, WellFormed, HandlersPaired, MarkersPaired, Answered, Progress;
    var r := AuthenticateRequest(s.req.bytes);
    SentPairing(s, r, t);
    SentProgress(cfg, s, r, t);
  }

  // ---------------------------------------------------------------- steps of the broker

  lemma ServeKeeps(cfg: Config, s: State, reply: seq<byte>, t: State)
    requires Inv(cfg, s) && PeeksRight(s.wire) && DoServe(cfg, s, reply) == Some(t)
    ensures Inv(cfg, t)
  {
    hide Replying, MarkersOf, HandlersOf, RawCount, CanReply, Answers, Shape, HandlersPaired, MarkersPaired;
    var r := s.wire[s.served];
    assert s.wire[..s.served + 1] == s.wire[..s.served] + [r];
    MoreWire(s.wire[..s.served], r);
    ReplyingPrefix(s.wire, s.served + 1);
    SameSides(s, t);
  }

  lemma SameSides(s: State, t: State)
    requires Shape(s) && HandlersPaired(s)
    requires t.wire == s.wire && t.req == s.req && t.tokens == s.tokens && t.handlers == s.handlers
             && t.taken == s.taken
    ensures Shape(t) && HandlersPaired(t)
    ensures MarkersPaired(s) && t.markers == s.markers && t.popped == s.popped ==> MarkersPaired(t)
  {
    hide Replying, WellFormed, MarkersOf, HandlersOf, Window;
  }

  // ---------------------------------------------------------------- steps of the response loop

  lemma Taken<T(!new)>(q: seq<T>, start: nat, all: seq<T>)
    requires Window(q, start, all) && q != []
    ensures Window(q[1..], start + 1, all)
  {
    forall i | 0 <= i < |q[1..]| && start + 1 + i < |all|
      ensures q[1..][i] == all[start + 1 + i]
    {
      assert q[i + 1] == all[start + (i + 1)];
    }
  }

  lemma TakeResponseHandlerKeeps(cfg: Config, s: State, t: State)
    requires Inv(cfg, s) && DoTakeResponseHandler(s) == Some(t)
    ensures Inv(cfg, t)
  {
    hide Replying, WellFormed, MarkersOf, HandlersOf, CanReply, RawCount;
    assert s.handlers[0] == HandlersOf(Replying(s.wire))[s.taken + 0];
    Taken(s.handlers, s.taken, HandlersOf(Replying(s.wire)));
  }

  /** The handler that was taken fits the reply, whatever kind that is. */
  lemma HandlerFits(cfg: Config, s: State)
    requires Inv(cfg, s) && s.read < |s.replies|
    ensures var e := Replying(s.wire);
            HandlersOf(e)[s.read] == SaslAuthV0ResponseHandler <==> e[s.read].kind == Raw
    ensures var e := Replying(s.wire);
            |s.replies[s.read]| >= 8 <==> e[s.read].kind == Framed
    ensures Replying(s.wire)[s.read].kind == Raw ==> |s.replies[s.read]| == 4
  {
    hide Replying, MarkersOf, HandlersOf, RawCount;
    hide HandlersPaired, MarkersPaired, Progress, ResponseFrames.HeaderTagsLength;
    var e := Replying(s.wire);
    HandlerAt(e, s.read);
    WellFormedExpected(s.wire, s.read);
    assert CanReply(cfg, e[s.read], s.replies[s.read]);
  }

  lemma {:induction false} WellFormedExpected(w: seq<Request>, i: nat)
    requires WellFormed(w) && i < |Replying(w)|
    ensures Replying(w)[i].kind == Raw <==> i > 0 && IsV0Handshake(Replying(w)[i - 1])
    ensures Sendable(Replying(w)[i]) && Replying(w)[i].wantsReply
  {
    if i < |Replying(w[..|w| - 1])| {
      WellFormedExpected(w[..|w| - 1], i);
    }
  }

  lemma ReadReplyKeeps(cfg: Config, s: State, t: State)
    requires Inv(cfg, s) && DoReadReply(s) == Some(t)
    ensures Inv(cfg, t)
  {
    hide Replying, MarkersOf, HandlersOf, CanReply, RawCount, HandlersPaired, MarkersPaired, Shape, CanReply;
    HandlerFits(cfg, s);
    MarkerAt(Replying(s.wire), s.read);
    SameSides(s, t);
  }

  /** The marker that is popped belongs to the request that the frame answers. */
  lemma MarkerFits(cfg: Config, s: State)
    requires Inv(cfg, s) && s.resp.HaveHeader? && s.markers != []
    ensures var r := Replying(s.wire)[s.handled];
            && r.kind == Framed && s.markers[0] == MarkerOf(r) && Current(s) == s.replies[s.handled]
            && CanReply(cfg, r, Current(s))
    ensures s.popped < |MarkersOf(Replying(s.wire))|
    ensures s.popped + 1 == FramedBefore(Replying(s.wire), s.read)
  {
    hide Replying, MarkersOf, HandlersOf, CanReply, RawCount, HandlersPaired, Shape, CanReply;
    MarkerAt(Replying(s.wire), s.handled);
    assert s.markers[0] == (MarkersOf(Replying(s.wire)) + EarlyMarkers(s.req))[s.popped + 0];
  }

  lemma PopMarkerKeeps(cfg: Config, s: State, t: State)
    requires Inv(cfg, s) && DoPopMarker(cfg, s) == Some(t)
    ensures Inv(cfg, t)
  {
    hide Replying, Shape, HandlersPaired, MarkersOf, HandlersOf, RawCount, Forwarding, ResponseFrames.HeaderTagsLength;
    MarkerFits(cfg, s);
    SameSides(s, t);
    Taken(s.markers, s.popped, MarkersOf(Replying(s.wire)) + EarlyMarkers(s.req));
  }

  lemma FinishingKeeps(cfg: Config, s: State, k: nat, t: State)
    requires Inv(cfg, s)
    requires DoConsumeReply(s) == Some(t) || DoWritePart(s, k) == Some(t) || DoResponseFails(s) == Some(t)
    ensures Inv(cfg, t)
  {
    hide Replying, MarkersOf, HandlersOf, RawCount, CanReply, Shape, HandlersPaired, MarkersPaired;
    hide HandshakeOutcome, AuthenticateOutcome, CompleteReauth, Get32;
    SameSides(s, t);
  }

  // ---------------------------------------------------------------- runs

  lemma InitHolds(cfg: Config, now: int)
    ensures Inv(cfg, Init(cfg, now))
  {
  }

  lemma StepKeeps(cfg: Config, s: State, step: Step, t: State)
    requires Inv(cfg, s) && PeeksRight(s.wire) && Do(cfg, s, step) == Some(t)
    ensures Inv(cfg, t)
  {
    hide Inv, Shape, PeeksRight;
    hide DoServe, DoCheckExpired, DoTakeRequestHandler, DoReadHead, DoReadRawHead, DoReadTimeout, DoReadBody;
    hide DoPushRequestMarker, DoSendPart, DoPushNextHandlers, DoCheckTimeout, DoCheckReauth, DoWriteHandshake;
    hide DoWriteAuthenticate, DoMarkReauth, DoPushReauthMarker, DoPushReauthHandler, DoPutRequestToken, DoRequestFails;
    hide DoTakeResponseHandler, DoReadReply, DoPopMarker, DoConsumeReply, DoWritePart, DoResponseFails;
    ShapeOfInv(cfg, s);
    StepShape(cfg, s, step, t);
    match step
    case Tick(_) => QuietInv(cfg, s, t);
    case ClientSends(_) => QuietInv(cfg, s, t);
    case BrokerServes(reply) => ServeKeeps(cfg, s, reply, t);
    case CheckExpired => WaitingKeeps(cfg, s, t);
    case TakeRequestHandler => WaitingKeeps(cfg, s, t);
    case PutRequestToken => WaitingKeeps(cfg, s, t);
    case ReadHead => ReadingKeeps(cfg, s, 0, t);
    case ReadRawHead => ReadingKeeps(cfg, s, 0, t);
    case ReadBody(k) => ReadingKeeps(cfg, s, k, t);
    case ReadTimeout(partial) => ReadingKeeps(cfg, s, partial, t);
    case PushRequestMarker => PushRequestMarkerKeeps(cfg, s, t);
    case SendPart(k) => SendPartKeeps(cfg, s, k, t);
    case PushNextHandlers => PushNextHandlersKeeps(cfg, s, t);
    case CheckTimeout => WaitingKeeps(cfg, s, t);
    case CheckReauth => WaitingKeeps(cfg, s, t);
    case MarkReauth => WaitingKeeps(cfg, s, t);
    case WriteHandshake(token) => WriteHandshakeKeeps(cfg, s, token, t);
    case WriteAuthenticate => WriteAuthenticateKeeps(cfg, s, t);
    case PushReauthMarker => PushReauthMarkerKeeps(cfg, s, t);
    case PushReauthHandler => PushReauthHandlerKeeps(cfg, s, t);
    case RequestFails(partial) => FailingKeeps(cfg, s, partial, t);
    case TakeResponseHandler => TakeResponseHandlerKeeps(cfg, s, t);
    case ReadReply => ReadReplyKeeps(cfg, s, t);
    case PopMarker => PopMarkerKeeps(cfg, s, t);
    case ConsumeReply => FinishingKeeps(cfg, s, 0, t);
    case WritePart(k) => FinishingKeeps(cfg, s, k, t);
    case ResponseFails => FinishingKeeps(cfg, s, 0, t);
  }

  lemma QuietInv(cfg: Config, s: State, t: State)
    requires Inv(cfg, s) && SameTraffic(s, t) && t.req == s.req && t.tokens == s.tokens
    ensures Inv(cfg, t)
  {
    hide Replying, WellFormed, MarkersOf, HandlersOf, RawCount, CanReply, Window;
  }

  lemma ShapeOfInv(cfg: Config, s: State)
    requires Inv(cfg, s)
    ensures Shape(s)
  {
    hide Shape;
  }

  /** Requests are only ever added to the wire. */
  lemma WireOnlyGrows(cfg: Config, s: State, step: Step, t: State)
    requires Do(cfg, s, step) == Some(t)
    ensures t.wire == s.wire || (t.wire != [] && t.wire[..|t.wire| - 1] == s.wire)
  {
    hide ParseHead, ParseRawHead, BuildReauthHandshake, BuildReauthAuthenticate, AfterHeader, HandshakeOutcome;
    hide AuthenticateOutcome, CanReply, Answers, Get32, CompleteReauth, NeedsReauth, InFlightExpired, NextReadDeadline;
    hide MarkInFlight, Complete;
  }

  lemma PeeksRightBefore(w: seq<Request>, v: seq<Request>)
    requires PeeksRight(v) && (v == w || (v != [] && v[..|v| - 1] == w))
    ensures PeeksRight(w)
  {
    hide Answers;
  }

  /** Every state of every run in which the proxy judges the broker rightly satisfies the invariants. */
  lemma {:induction false} RunKeeps(cfg: Config, now: int, steps: seq<Step>, s: State)
    requires Run(cfg, Init(cfg, now), steps) == Some(s) && PeeksRight(s.wire)
    ensures Inv(cfg, s)
    decreases |steps|
  {
    hide Inv, Do, PeeksRight;
    if steps == [] {
      InitHolds(cfg, now);
    } else {
      var before := Run(cfg, Init(cfg, now), steps[..|steps| - 1]).value;
      WireOnlyGrows(cfg, before, steps[|steps| - 1], s);
      PeeksRightBefore(before.wire, s.wire);
      RunKeeps(cfg, now, steps[..|steps| - 1], before);
      StepKeeps(cfg, before, steps[|steps| - 1], s);
    }
  }
}
