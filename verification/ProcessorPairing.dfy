/**
 Consequences of the invariants. There is one turn, and the handler channel has room whenever it
 holds one raw SASL handler at most, in every run. Where the proxy expects the replies that the
 broker gives, markers and handlers fit the replies they are used for, and the two loops never
 fall out of step.
 */
module ProcessorPairing {
  import opened Wrappers
  import opened Bytes
  import opened Processor
  import opened SaslReauth
  import opened AuthState
  import opened WireHistory
  import opened ProcessorInvariants

  /** The request loop is between two requests. */
  predicate AtBoundary(req: RequestPc) {
    req.Top? || req.Begin? || req.Reading? || req.ReadingRaw? || req.TimedOut? || req.ReauthDue? || req.ReauthBuild?
      || req.PutToken?
  }

  lemma WindowIsSuffix<T(!new)>(q: seq<T>, start: nat, all: seq<T>)
    requires Window(q, start, all) && start + |q| == |all|
    ensures q == all[start..]
  {
  }

  /**
   Between requests the marker queue is the markers of the framed requests whose marker has not
   been popped, in wire order, and one handler more than replies has been pushed, each one of
   the kind its reply needs.
   */
  lemma QueuesFollowTheWire(cfg: Config, now: int, steps: seq<Step>, s: State)
    requires Run(cfg, Init(cfg, now), steps) == Some(s) && PeeksRight(s.wire)
    requires AtBoundary(s.req)
    ensures s.popped <= |MarkersOf(Replying(s.wire))| && s.taken <= |Replying(s.wire)| + 1
    ensures s.markers == MarkersOf(Replying(s.wire))[s.popped..]
    ensures s.handlers == HandlersOf(Replying(s.wire))[s.taken..]
    ensures s.taken + |s.handlers| == |Replying(s.wire)| + 1
  {
    hide Replying, WellFormed, MarkersOf, HandlersOf, RawCount, CanReply, Do, Window, PeeksRight;
    RunKeeps(cfg, now, steps, s);
    var e := Replying(s.wire);
    assert MarkersOf(e) + EarlyMarkers(s.req) == MarkersOf(e);
    WindowIsSuffix(s.markers, s.popped, MarkersOf(e));
    WindowIsSuffix(s.handlers, s.taken, HandlersOf(e));
  }

  /** The handler taken for a reply is the raw one exactly when the reply is raw, and no loop is ever confused. */
  lemma HandlersFitReplies(cfg: Config, now: int, steps: seq<Step>, s: State)
    requires Run(cfg, Init(cfg, now), steps) == Some(s) && PeeksRight(s.wire)
    ensures !s.resp.Desynchronised?
    ensures s.resp.AwaitReply? ==>
              var e := Replying(s.wire);
              && s.read <= |e|
              && (s.read < |e| ==> (s.resp.h == SaslAuthV0ResponseHandler <==> e[s.read].kind == Raw))
  {
    hide Replying, MarkersOf, HandlersOf, RawCount, CanReply, Do, PeeksRight;
    RunKeeps(cfg, now, steps, s);
    var e := Replying(s.wire);
    if s.resp.AwaitReply? && s.read < |e| {
      HandlerAt(e, s.read);
      WellFormedExpected(s.wire, s.read);
    }
  }

  /** The marker popped for a frame is that of the request the frame answers. */
  lemma MarkersFitReplies(cfg: Config, now: int, steps: seq<Step>, s: State)
    requires Run(cfg, Init(cfg, now), steps) == Some(s) && PeeksRight(s.wire)
    requires s.resp.HaveHeader? && s.markers != []
    ensures s.handled < |Replying(s.wire)| && s.handled < |s.replies|
    ensures s.markers[0] == MarkerOf(Replying(s.wire)[s.handled])
    ensures Current(s) == s.replies[s.handled] && CanReply(cfg, Replying(s.wire)[s.handled], Current(s))
  {
    hide Replying, MarkersOf, HandlersOf, RawCount, CanReply, Do, WellFormed, Window, PeeksRight;
    RunKeeps(cfg, now, steps, s);
    MarkerFits(cfg, s);
  }

  /** At the top of each iteration there is exactly one turn, and it is of the right kind. */
  lemma OneTurn(cfg: Config, now: int, steps: seq<Step>, s: State)
    requires Run(cfg, Init(cfg, now), steps) == Some(s)
    ensures |s.tokens| <= 1 || s.req.RequestStopped?
    ensures s.req.Top? || s.req.Begin? ==>
              |s.tokens| == 1 && (s.tokens[0] == SaslAuthV0RequestHandler <==> AwaitsRaw(Replying(s.wire)))
  {
    hide Replying, WellFormed, Do;
    RunShape(cfg, now, steps, s);
  }

  // ---------------------------------------------------------------- capacity

  function RawHandlers(h: seq<ResponseHandler>): (n: nat)
    ensures n <= |h|
  {
    if h == [] then 0
    else RawHandlers(h[1..]) + if h[0] == SaslAuthV0ResponseHandler then 1 else 0
  }

  lemma {:induction false} MoreHandlers(h: seq<ResponseHandler>, x: ResponseHandler)
    ensures RawHandlers(h + [x]) == RawHandlers(h) + if x == SaslAuthV0ResponseHandler then 1 else 0
  {
    if h == [] {
      assert h + [x] == [x];
    } else {
      MoreHandlers(h[1..], x);
      assert (h + [x])[1..] == h[1..] + [x];
    }
  }

  /** How many default handlers the queue must be ahead of the markers. */
  function Ahead(s: State): int {
    match s.req
    case Sending(r, _, _) => if r.wantsReply then 0 else 1
    case Sent(r) => if r.wantsReply then 0 else 1
    case PushHandler(_) => 0
    case ReadingRaw => 0
    case Top | Begin => if AwaitsRaw(Replying(s.wire)) then 0 else 1
    case _ => 1
  }

  /** A default handler has been taken and its marker has not. */
  function Busy(resp: ResponsePc): int {
    if resp == AwaitReply(DefaultResponseHandler) || resp.HaveHeader? then 1 else 0
  }

  predicate InStep(s: State) {
    var lag := |s.markers| + Ahead(s) - (|s.handlers| - RawHandlers(s.handlers));
    !s.req.RequestStopped? ==>
      0 <= lag <= 1 && (s.resp.ResponseStopped? || s.resp.Desynchronised? || lag == Busy(s.resp))
  }

  lemma SameStep(s: State, t: State)
    requires InStep(s) && t.markers == s.markers && t.handlers == s.handlers
    requires t.req.RequestStopped? || (!s.req.RequestStopped? && Ahead(t) == Ahead(s))
    requires t.resp == s.resp || t.resp.ResponseStopped? || t.resp.Desynchronised?
             || (!s.resp.ResponseStopped? && !s.resp.Desynchronised? && Busy(t.resp) == Busy(s.resp))
    ensures InStep(t)
  {
    hide RawHandlers;
  }

  lemma TurnsInStep(cfg: Config, s: State, t: State)
    requires Shape(s) && InStep(s)
    requires DoCheckExpired(s) == Some(t) || DoTakeRequestHandler(s) == Some(t) || DoPutRequestToken(s) == Some(t)
             || DoCheckTimeout(s) == Some(t) || DoCheckReauth(cfg, s) == Some(t) || DoMarkReauth(s) == Some(t)
    ensures InStep(t)
  {
    hide InStep, Replying, WellFormed, NextReadDeadline, InFlightExpired, NeedsReauth, MarkInFlight;
    SameStep(s, t);
  }

  lemma ReadsInStep(cfg: Config, s: State, n: nat, t: State)
    requires InStep(s)
    requires DoReadHead(cfg, s) == Some(t) || DoReadRawHead(s) == Some(t) || DoReadTimeout(s, n) == Some(t)
             || DoReadBody(s, n) == Some(t) || DoRequestFails(cfg, s, n) == Some(t)
    ensures InStep(t)
  {
    hide InStep, Replying, ParseHead, ParseRawHead, BuildReauthHandshake;
    ParsedHead(cfg, s.unread);
    RawHeadExpects(s.unread);
    SameStep(s, t);
  }

  lemma RawHeadExpects(s: seq<byte>)
    ensures ParseRawHead(s).Some? ==> ParseRawHead(s).value.r.wantsReply
  {
  }

  lemma WritesInStep(cfg: Config, s: State, k: nat, token: Option<seq<byte>>, t: State)
    requires InStep(s)
    requires DoSendPart(s, k) == Some(t) || DoWriteHandshake(cfg, s, token) == Some(t)
             || DoWriteAuthenticate(s) == Some(t)
    ensures InStep(t)
  {
    hide InStep, Replying, BuildReauthHandshake, BuildReauthAuthenticate;
    SameStep(s, t);
  }

  lemma PushesInStep(cfg: Config, s: State, t: State)
    requires Shape(s) && InStep(s)
    requires DoPushRequestMarker(cfg, s) == Some(t) || DoPushNextHandlers(cfg, s) == Some(t)
             || DoPushReauthMarker(cfg, s) == Some(t) || DoPushReauthHandler(cfg, s) == Some(t)
    ensures InStep(t)
  {
    hide Replying, WellFormed, RawHandlers;
    if s.wire != [] {
      LastReplying(s.wire);
    }
    if |t.handlers| > |s.handlers| {
      MoreHandlers(s.handlers, t.handlers[|s.handlers|]);
    }
  }

  lemma TakesInStep(cfg: Config, s: State, t: State)
    requires InStep(s)
    requires DoTakeResponseHandler(s) == Some(t) || DoReadReply(s) == Some(t) || DoPopMarker(cfg, s) == Some(t)
    ensures InStep(t)
  {
    hide Replying, Forwarding, Get32, IsProxyReauthResponse;
  }

  lemma ResponsesInStep(cfg: Config, s: State, reply: seq<byte>, k: nat, t: State)
    requires InStep(s)
    requires DoServe(cfg, s, reply) == Some(t) || DoConsumeReply(s) == Some(t) || DoWritePart(s, k) == Some(t)
             || DoResponseFails(s) == Some(t)
    ensures InStep(t)
  {
    hide InStep, Replying, CanReply, Answers, HandshakeOutcome, AuthenticateOutcome, Get32;
    SameStep(s, t);
  }

  lemma StepsInStep(cfg: Config, s: State, step: Step, t: State)
    requires Shape(s) && InStep(s) && Do(cfg, s, step) == Some(t)
    ensures InStep(t)
  {
    hide Shape, InStep, DoServe, DoCheckExpired, DoTakeRequestHandler;
    hide DoReadHead, DoReadRawHead, DoReadTimeout, DoReadBody;
    hide DoPushRequestMarker, DoSendPart, DoPushNextHandlers, DoCheckTimeout, DoCheckReauth, DoWriteHandshake;
    hide DoWriteAuthenticate, DoMarkReauth, DoPushReauthMarker, DoPushReauthHandler, DoPutRequestToken, DoRequestFails;
    hide DoTakeResponseHandler, DoReadReply, DoPopMarker, DoConsumeReply, DoWritePart, DoResponseFails;
    match step
    case Tick(_) => SameStep(s, t);
    case ClientSends(_) => SameStep(s, t);
    case BrokerServes(reply) => ResponsesInStep(cfg, s, reply, 0, t);
    case CheckExpired => TurnsInStep(cfg, s, t);
    case TakeRequestHandler => TurnsInStep(cfg, s, t);
    case PutRequestToken => TurnsInStep(cfg, s, t);
    case CheckTimeout => TurnsInStep(cfg, s, t);
    case CheckReauth => TurnsInStep(cfg, s, t);
    case MarkReauth => TurnsInStep(cfg, s, t);
    case ReadHead => ReadsInStep(cfg, s, 0, t);
    case ReadRawHead => ReadsInStep(cfg, s, 0, t);
    case ReadTimeout(partial) => ReadsInStep(cfg, s, partial, t);
    case ReadBody(k) => ReadsInStep(cfg, s, k, t);
    case RequestFails(partial) => ReadsInStep(cfg, s, partial, t);
    case PushRequestMarker => PushesInStep(cfg, s, t);
    case PushNextHandlers => PushesInStep(cfg, s, t);
    case PushReauthMarker => PushesInStep(cfg, s, t);
    case PushReauthHandler => PushesInStep(cfg, s, t);
    case SendPart(k) => WritesInStep(cfg, s, k, None, t);
    case WriteHandshake(token) => WritesInStep(cfg, s, 0, token, t);
    case WriteAuthenticate => WritesInStep(cfg, s, 0, None, t);
    case TakeResponseHandler => TakesInStep(cfg, s, t);
    case ReadReply => TakesInStep(cfg, s, t);
    case PopMarker => TakesInStep(cfg, s, t);
    case ConsumeReply => ResponsesInStep(cfg, s, [], 0, t);
    case WritePart(k) => ResponsesInStep(cfg, s, [], k, t);
    case ResponseFails => ResponsesInStep(cfg, s, [], 0, t);
  }

  lemma {:induction false} RunInStep(cfg: Config, now: int, steps: seq<Step>, s: State)
    requires Run(cfg, Init(cfg, now), steps) == Some(s)
    ensures InStep(s)
    decreases |steps|
  {
    hide Do, Shape;
    if steps != [] {
      hide InStep;
      var before := Run(cfg, Init(cfg, now), steps[..|steps| - 1]).value;
      RunShape(cfg, now, steps[..|steps| - 1], before);
      RunInStep(cfg, now, steps[..|steps| - 1], before);
      StepsInStep(cfg, before, steps[|steps| - 1], s);
    }
  }

  /** The places where a response handler is pushed. */
  predicate PushesHandler(req: RequestPc) {
    req.PushHandler? || (req.Sent? && req.r.wantsReply)
  }

  /**
   Where a handler is pushed, the queue holds as many default handlers as there are markers, or
   one less while the response loop has taken the handler and not yet the marker of a reply.
   */
  lemma HandlerBacklog(cfg: Config, now: int, steps: seq<Step>, s: State)
    requires Run(cfg, Init(cfg, now), steps) == Some(s)
    requires PushesHandler(s.req)
    ensures |s.handlers| <= |s.markers| + RawHandlers(s.handlers)
    ensures !s.resp.ResponseStopped? && !s.resp.Desynchronised? ==>
              |s.handlers| + Busy(s.resp) == |s.markers| + RawHandlers(s.handlers)
  {
    hide Replying, Do, RawHandlers;
    RunInStep(cfg, now, steps, s);
  }

  /** As many open requests as configured, 16 at least, and two handlers more. */
  predicate WithinChannels(cfg: Config, s: State) {
    var open := if cfg.maxOpenRequests < 16 then 16 else cfg.maxOpenRequests;
    |s.markers| <= open && |s.handlers| <= open + 2
  }

  lemma ChannelsPushed(cfg: Config, s: State, t: State)
    requires WithinChannels(cfg, s)
    requires DoPushRequestMarker(cfg, s) == Some(t) || DoPushNextHandlers(cfg, s) == Some(t)
             || DoPushReauthMarker(cfg, s) == Some(t) || DoPushReauthHandler(cfg, s) == Some(t)
    ensures WithinChannels(cfg, t)
  {
  }

  lemma ChannelsKept(cfg: Config, s: State, step: Step, t: State)
    requires WithinChannels(cfg, s) && Do(cfg, s, step) == Some(t)
    ensures WithinChannels(cfg, t)
  {
    hide ParseHead, ParseRawHead, BuildReauthHandshake, BuildReauthAuthenticate, AfterHeader, HandshakeOutcome;
    hide AuthenticateOutcome, CanReply, Answers, Complete, CompleteReauth, NeedsReauth, InFlightExpired, MarkInFlight;
    hide DoPushRequestMarker, DoPushNextHandlers, DoPushReauthMarker, DoPushReauthHandler, WithinChannels, Part;
    match step
    case PushRequestMarker => ChannelsPushed(cfg, s, t);
    case PushNextHandlers => ChannelsPushed(cfg, s, t);
    case PushReauthMarker => ChannelsPushed(cfg, s, t);
    case PushReauthHandler => ChannelsPushed(cfg, s, t);
    case _ => ChannelsShrink(cfg, s, t);
  }

  lemma ChannelsShrink(cfg: Config, s: State, t: State)
    requires WithinChannels(cfg, s) && |t.markers| <= |s.markers| && |t.handlers| <= |s.handlers|
    ensures WithinChannels(cfg, t)
  {
  }

  /** The channels never hold more than what they were made for. */
  lemma {:induction false} ChannelsBounded(cfg: Config, now: int, steps: seq<Step>, s: State)
    requires Run(cfg, Init(cfg, now), steps) == Some(s)
    ensures WithinChannels(cfg, s)
    decreases |steps|
  {
    hide Do;
    if steps != [] {
      hide WithinChannels;
      var before := Run(cfg, Init(cfg, now), steps[..|steps| - 1]).value;
      ChannelsBounded(cfg, now, steps[..|steps| - 1], before);
      ChannelsKept(cfg, before, steps[|steps| - 1], s);
    }
  }

  /**
   With at most one raw SASL handler waiting, the handler that follows a marker that was pushed
   finds room: the branches for a full handler channel are not taken.
   */
  lemma HandlersAlwaysFit(cfg: Config, now: int, steps: seq<Step>, s: State)
    requires Run(cfg, Init(cfg, now), steps) == Some(s)
    requires PushesHandler(s.req) && RawHandlers(s.handlers) <= 1
    ensures |s.handlers| < (if cfg.maxOpenRequests < 16 then 16 else cfg.maxOpenRequests) + 2
    ensures s.req.Sent? ==> DoPushNextHandlers(cfg, s).Some? && DoPushNextHandlers(cfg, s).value.req == Top
    ensures s.req.PushHandler? ==>
              DoPushReauthHandler(cfg, s).Some? && !DoPushReauthHandler(cfg, s).value.req.RequestStopped?
  {
    hide Replying, WellFormed, Do, RawHandlers;
    HandlerBacklog(cfg, now, steps, s);
    ChannelsBounded(cfg, now, steps, s);
    RunShape(cfg, now, steps, s);
  }
}
