/**
 Runs that do happen: a session renewed from beginning to end, and a broker that stays silent
 where the proxy waits for a reply.
 */
module SampleRuns {
  import opened Wrappers
  import opened Bytes
  import opened AuthState
  import opened ProduceAcks
  import opened Varint
  import RequestFrames
  import ResponseFrames
  import opened SaslReauth
  import opened SaslReplies
  import opened Processor
  import opened WireHistory
  import opened Exchanges
  import opened ReauthTiming

  ghost predicate Reaches(cfg: Config, s0: State, steps: seq<Step>, s: State) {
    Run(cfg, s0, steps) == Some(s) && TimelyRun(cfg, s0, steps, 0)
  }

  /** One more step of a run in time. */
  lemma Go(cfg: Config, s0: State, before: seq<Step>, s: State, step: Step, t: State) returns (steps: seq<Step>)
    requires Reaches(cfg, s0, before, s) && Do(cfg, s, step) == Some(t) && Timely(s, step, 0)
    ensures Reaches(cfg, s0, steps, t) && steps == before + [step]
  {
    hide Do, Timely;
    steps := before + [step];
    assert steps[..|steps| - 1] == before;
  }

  /** One more step of the request loop, the client or the clock. */
  lemma GoRequest(cfg: Config, s0: State, before: seq<Step>, s: State, step: Step, t: State) returns (steps: seq<Step>)
    requires Reaches(cfg, s0, before, s) && Timely(s, step, 0)
    requires match step
             case Tick(d) => t == s.(now := s.now + d)
             case ClientSends(bytes) => t == s.(unread := s.unread + bytes)
             case CheckExpired => DoCheckExpired(s) == Some(t)
             case TakeRequestHandler => DoTakeRequestHandler(s) == Some(t)
             case ReadHead => DoReadHead(cfg, s) == Some(t)
             case ReadTimeout(partial) => DoReadTimeout(s, partial) == Some(t)
             case _ => false
    ensures Reaches(cfg, s0, steps, t) && steps == before + [step]
  {
    hide Timely, Reaches, DoCheckExpired, DoTakeRequestHandler, DoReadHead, DoReadTimeout;
    steps := Go(cfg, s0, before, s, step, t);
  }

  lemma GoSend(cfg: Config, s0: State, before: seq<Step>, s: State, step: Step, t: State) returns (steps: seq<Step>)
    requires Reaches(cfg, s0, before, s)
    requires match step
             case PushRequestMarker => DoPushRequestMarker(cfg, s) == Some(t)
             case ReadBody(k) => DoReadBody(s, k) == Some(t)
             case SendPart(k) => DoSendPart(s, k) == Some(t)
             case PushNextHandlers => DoPushNextHandlers(cfg, s) == Some(t)
             case _ => false
    ensures Reaches(cfg, s0, steps, t) && steps == before + [step]
  {
    hide Reaches, DoPushRequestMarker, DoReadBody, DoSendPart, DoPushNextHandlers;
    steps := Go(cfg, s0, before, s, step, t);
  }

  /** One more step of a renewal. */
  lemma GoReauth(cfg: Config, s0: State, before: seq<Step>, s: State, step: Step, t: State) returns (steps: seq<Step>)
    requires Reaches(cfg, s0, before, s)
    requires match step
             case CheckTimeout => DoCheckTimeout(s) == Some(t)
             case CheckReauth => DoCheckReauth(cfg, s) == Some(t)
             case WriteHandshake(token) => DoWriteHandshake(cfg, s, token) == Some(t)
             case WriteAuthenticate => DoWriteAuthenticate(s) == Some(t)
             case MarkReauth => DoMarkReauth(s) == Some(t)
             case _ => false
    ensures Reaches(cfg, s0, steps, t) && steps == before + [step]
  {
    hide Reaches, DoCheckTimeout, DoCheckReauth, DoWriteHandshake, DoWriteAuthenticate, DoMarkReauth;
    steps := Go(cfg, s0, before, s, step, t);
  }

  lemma GoQueue(cfg: Config, s0: State, before: seq<Step>, s: State, step: Step, t: State) returns (steps: seq<Step>)
    requires Reaches(cfg, s0, before, s)
    requires match step
             case PushReauthMarker => DoPushReauthMarker(cfg, s) == Some(t)
             case PushReauthHandler => DoPushReauthHandler(cfg, s) == Some(t)
             case PutRequestToken => DoPutRequestToken(s) == Some(t)
             case _ => false
    ensures Reaches(cfg, s0, steps, t) && steps == before + [step]
  {
    hide Reaches, DoPushReauthMarker, DoPushReauthHandler, DoPutRequestToken;
    steps := Go(cfg, s0, before, s, step, t);
  }

  /** One more step of the response loop or the broker. */
  lemma GoResponse(cfg: Config, s0: State, before: seq<Step>, s: State, step: Step, t: State) returns (steps: seq<Step>)
    requires Reaches(cfg, s0, before, s)
    requires match step
             case BrokerServes(reply) => DoServe(cfg, s, reply) == Some(t)
             case TakeResponseHandler => DoTakeResponseHandler(s) == Some(t)
             case ReadReply => DoReadReply(s) == Some(t)
             case PopMarker => DoPopMarker(cfg, s) == Some(t)
             case ConsumeReply => DoConsumeReply(s) == Some(t)
             case _ => false
    ensures Reaches(cfg, s0, steps, t) && steps == before + [step]
  {
    hide Reaches, DoServe, DoTakeResponseHandler, DoReadReply, DoPopMarker, DoConsumeReply;
    steps := Go(cfg, s0, before, s, step, t);
  }

  lemma Here(cfg: Config, s: State)
    ensures Reaches(cfg, s, [], s)
  {
    hide Do;
  }

  function ReplyFrame(corr: int, payload: seq<byte>): seq<byte> {
    Put32(|payload| + 4) + (Put32(corr) + payload)
  }

  lemma ReplyFrameIs(corr: int32, payload: seq<byte>)
    requires |payload| <= MAX_INT32 - 4
    ensures var f := ReplyFrame(corr, payload);
            |f| == Get32(f) + 4 == |payload| + 8 && Get32(f[4..]) == corr && f[8..] == payload
  {
    hide Put32, Get32;
    var f := ReplyFrame(corr, payload);
    Get32AfterPut32(|payload| + 4, Put32(corr) + payload);
    Get32AfterPut32(corr, payload);
    assert f[4..] == Put32(corr) + payload && f[8..] == payload;
  }

  // ---------------------------------------------------------------- a renewal

  /** An idle connection comes to the point where a renewal starts, exactly when that is due. */
  lemma AttemptStarts(cfg: Config, now: int) returns (steps: seq<Step>, s: State)
    requires cfg.sessionLifetimeMs > 0 && cfg.reauthEnabled
    ensures Reaches(cfg, Init(cfg, now), steps, s)
    ensures var at := now + Scale(cfg.sessionLifetimeMs * MILLISECOND);
            s == Init(cfg, now).(now := at, req := ReauthBuild(at), tokens := [])
    ensures Starting(s.req) && Scheduled(s.auth) && s.auth.sessionLifetime == cfg.sessionLifetimeMs * MILLISECOND
  {
    hide Reaches;
    var wait := Scale(cfg.sessionLifetimeMs * MILLISECOND);
    var s0 := Init(cfg, now);
    Here(cfg, s0);
    var s1 := s0.(req := Begin);
    steps := GoRequest(cfg, s0, [], s0, CheckExpired, s1);
    var s2 := s1.(tokens := s1.tokens[1..], req := Reading(Some(now + wait)));
    steps := GoRequest(cfg, s0, steps, s1, TakeRequestHandler, s2);
    var s3 := s2.(now := now + wait);
    steps := GoRequest(cfg, s0, steps, s2, Tick(wait), s3);
    var s4 := s3.(req := TimedOut);
    NothingConsumed(s3);
    steps := GoRequest(cfg, s0, steps, s3, ReadTimeout(0), s4);
    var s5 := s4.(req := ReauthDue);
    steps := GoReauth(cfg, s0, steps, s4, CheckTimeout, s5);
    s := s5.(req := ReauthBuild(now + wait));
    steps := GoReauth(cfg, s0, steps, s5, CheckReauth, s);
  }

  lemma NothingConsumed(s: State)
    ensures Consume(s, 0) == s
  {
    assert s.unread[0..] == s.unread && s.consumed + s.unread[..0] == s.consumed;
  }

  /** The two requests of a renewal. */
  function Exchange(cfg: Config, token: seq<byte>): seq<Request>
    requires BuildReauthHandshake(cfg.clientId).Some? && BuildReauthAuthenticate(cfg.clientId, Some(token)).Some?
  {
    [HandshakeRequest(BuildReauthHandshake(cfg.clientId).value),
     AuthenticateRequest(BuildReauthAuthenticate(cfg.clientId, Some(token)).value)]
  }

  /** Both requests are written, and the attempt is marked. */
  lemma RenewalIsWritten(cfg: Config, now: int, token: seq<byte>) returns (steps: seq<Step>, s: State)
    requires cfg.sessionLifetimeMs > 0 && cfg.reauthEnabled
    requires BuildReauthHandshake(cfg.clientId).Some? && BuildReauthAuthenticate(cfg.clientId, Some(token)).Some?
    ensures Reaches(cfg, Init(cfg, now), steps, s)
    ensures var s0, at := Init(cfg, now), now + Scale(cfg.sessionLifetimeMs * MILLISECOND);
            s == s0.(now := at, auth := MarkInFlight(s0.auth, at),
                     wire := Exchange(cfg, token), tokens := [], req := PushMarker(0))
  {
    hide Reaches, BuildReauthHandshake, BuildReauthAuthenticate, MarkInFlight;
    var s0, at := Init(cfg, now), now + Scale(cfg.sessionLifetimeMs * MILLISECOND);
    var e := Exchange(cfg, token);
    var a;
    steps, a := AttemptStarts(cfg, now);
    var s1 := a.(wire := a.wire + [e[0]], req := ReauthAuthenticate(at, e[1].bytes));
    steps := GoReauth(cfg, s0, steps, a, WriteHandshake(Some(token)), s1);
    var s2 := s1.(wire := s1.wire + [e[1]], req := ReauthMark(at));
    steps := GoReauth(cfg, s0, steps, s1, WriteAuthenticate, s2);
    s := s2.(auth := MarkInFlight(s2.auth, at), req := PushMarker(0));
    steps := GoReauth(cfg, s0, steps, s2, MarkReauth, s);
    assert s.wire == e;
  }

  /** The marker and the handler of one leg are queued. */
  lemma LegIsQueued(cfg: Config, s0: State, before: seq<Step>, s: State, leg: nat) returns (steps: seq<Step>, t: State)
    requires Reaches(cfg, s0, before, s) && s.req == PushMarker(leg)
    requires |s.markers| < MarkerCapacity(cfg) && |s.handlers| < HandlerCapacity(cfg)
    ensures Reaches(cfg, s0, steps, t)
    ensures t == s.(markers := s.markers + [ReauthMarker(leg)], handlers := s.handlers + [DefaultResponseHandler],
                    req := if leg == 0 then PushMarker(1) else PutToken)
  {
    hide Reaches, ReauthMarker;
    var u := s.(markers := s.markers + [ReauthMarker(leg)], req := PushHandler(leg));
    steps := GoQueue(cfg, s0, before, s, PushReauthMarker, u);
    t := u.(handlers := u.handlers + [DefaultResponseHandler], req := if leg == 0 then PushMarker(1) else PutToken);
    steps := GoQueue(cfg, s0, steps, u, PushReauthHandler, t);
  }

  /** Both legs are queued, and the request loop goes on. */
  lemma RenewalIsSent(cfg: Config, now: int, token: seq<byte>) returns (steps: seq<Step>, s: State)
    requires cfg.sessionLifetimeMs > 0 && cfg.reauthEnabled
    requires BuildReauthHandshake(cfg.clientId).Some? && BuildReauthAuthenticate(cfg.clientId, Some(token)).Some?
    ensures Reaches(cfg, Init(cfg, now), steps, s)
    ensures var s0, at := Init(cfg, now), now + Scale(cfg.sessionLifetimeMs * MILLISECOND);
            s == s0.(now := at, auth := MarkInFlight(s0.auth, at), wire := Exchange(cfg, token),
                     markers := [ReauthMarker(0), ReauthMarker(1)],
                     handlers := [DefaultResponseHandler, DefaultResponseHandler, DefaultResponseHandler])
  {
    hide Reaches, Exchange, BuildReauthHandshake, BuildReauthAuthenticate, ReauthMarker, MarkInFlight;
    var s0 := Init(cfg, now);
    var a, b, c;
    steps, a := RenewalIsWritten(cfg, now, token);
    steps, b := LegIsQueued(cfg, s0, steps, a, 0);
    steps, c := LegIsQueued(cfg, s0, steps, b, 1);
    s := c.(tokens := [DefaultRequestHandler], req := Top);
    steps := GoQueue(cfg, s0, steps, c, PutRequestToken, s);
    assert s.markers == [ReauthMarker(0), ReauthMarker(1)];
    assert s.handlers == [DefaultResponseHandler, DefaultResponseHandler, DefaultResponseHandler];
  }

  /** The broker's two answers. */
  function TwoAnswers(lifetimeMs: int64): seq<seq<byte>> {
    [ReplyFrame(REAUTH_HANDSHAKE_CORRELATION_ID, HandshakeReply(0, [])),
     ReplyFrame(REAUTH_CORRELATION_ID, AuthenticateReply(0, None, None, lifetimeMs))]
  }

  /** What the response loop takes for one of them from the queues. */
  lemma OwnReplyIsRead(cfg: Config, s0: State, before: seq<Step>, s: State, corr: int32, payload: seq<byte>)
    returns (steps: seq<Step>, t: State)
    requires Reaches(cfg, s0, before, s) && |payload| <= MAX_INT32 - 4
    requires s.resp == TakeHandler && s.handlers != [] && s.handlers[0] == DefaultResponseHandler && s.markers != []
    requires s.read < |s.replies| && s.replies[s.read] == ReplyFrame(corr, payload)
    requires IsProxyReauthResponse(s.markers[0], corr)
    ensures Reaches(cfg, s0, steps, t)
    ensures t == s.(handlers := s.handlers[1..], markers := s.markers[1..],
                    taken := s.taken + 1, popped := s.popped + 1, read := s.read + 1, resp := Consuming)
    ensures Current(t) == ReplyFrame(corr, payload)
  {
    hide Reaches, Get32, Forwarding, ReplyFrame, IsProxyReauthResponse;
    ReplyFrameIs(corr, payload);
    var s2;
    steps, s2 := ReplyIsRead(cfg, s0, before, s);
    t := s2.(markers := s.markers[1..], popped := s.popped + 1, resp := Consuming);
    steps := GoResponse(cfg, s0, steps, s2, PopMarker, t);
  }

  /** The broker answers both requests. */
  lemma RenewalIsAnswered(cfg: Config, now: int, token: seq<byte>, lifetimeMs: int64)
    returns (steps: seq<Step>, s: State)
    requires cfg.sessionLifetimeMs > 0 && cfg.reauthEnabled
    requires BuildReauthHandshake(cfg.clientId).Some? && BuildReauthAuthenticate(cfg.clientId, Some(token)).Some?
    ensures Reaches(cfg, Init(cfg, now), steps, s)
    ensures var s0, at := Init(cfg, now), now + Scale(cfg.sessionLifetimeMs * MILLISECOND);
            s == s0.(now := at, auth := MarkInFlight(s0.auth, at), wire := Exchange(cfg, token),
                     markers := [ReauthMarker(0), ReauthMarker(1)],
                     handlers := [DefaultResponseHandler, DefaultResponseHandler, DefaultResponseHandler],
                     served := 2, replies := TwoAnswers(lifetimeMs))
  {
    hide Reaches, BuildReauthHandshake, BuildReauthAuthenticate, ReplyFrame;
    hide Get32, MarkInFlight, HandshakeReply, AuthenticateReply;
    var s0, r := Init(cfg, now), TwoAnswers(lifetimeMs);
    AnswersAreShort(lifetimeMs);
    ReplyFrameIs(REAUTH_HANDSHAKE_CORRELATION_ID, HandshakeReply(0, []));
    ReplyFrameIs(REAUTH_CORRELATION_ID, AuthenticateReply(0, None, None, lifetimeMs));
    ExchangeIsFair(cfg, token);
    var a;
    steps, a := RenewalIsSent(cfg, now, token);
    var b := a.(served := 1, replies := a.replies + [r[0]]);
    steps := GoResponse(cfg, s0, steps, a, BrokerServes(r[0]), b);
    s := b.(served := 2, replies := b.replies + [r[1]]);
    steps := GoResponse(cfg, s0, steps, b, BrokerServes(r[1]), s);
    assert s.replies == r;
  }

  /** And the whole of it: both replies are consumed, and the session runs on for the new lifetime. */
  lemma RenewalCompletes(cfg: Config, now: int, token: seq<byte>, lifetimeMs: int64)
    returns (steps: seq<Step>, s: State)
    requires cfg.sessionLifetimeMs > 0 && cfg.reauthEnabled && lifetimeMs > 0
    requires BuildReauthHandshake(cfg.clientId).Some? && BuildReauthAuthenticate(cfg.clientId, Some(token)).Some?
    ensures Reaches(cfg, Init(cfg, now), steps, s)
    ensures s.wire == Exchange(cfg, token) && s.handled == |s.replies| == 2 && s.clientOut == []
    ensures s.resp == TakeHandler && s.markers == [] && s.handlers == [DefaultResponseHandler]
    ensures !s.auth.inFlight && Scheduled(s.auth) && Expiry(s.auth) == s.now + lifetimeMs * MILLISECOND
    ensures PeeksRight(s.wire) && AvoidsReserved(Replying(s.wire))
  {
    hide Reaches, BuildReauthHandshake, BuildReauthAuthenticate, ReplyFrame;
    hide Get32, HandshakeOutcome, AuthenticateOutcome;
    hide HandshakeReply, AuthenticateReply, Exchange, PeeksRight, AvoidsReserved;
    var s0 := Init(cfg, now);
    var hs, au := HandshakeReply(0, []), AuthenticateReply(0, None, None, lifetimeMs);
    AnswersAreShort(lifetimeMs);
    ReplyFrameIs(REAUTH_HANDSHAKE_CORRELATION_ID, hs);
    ReplyFrameIs(REAUTH_CORRELATION_ID, au);
    HandshakeReplyUnderstood(0, [], []);
    AuthenticateReplyUnderstood(0, None, None, lifetimeMs, []);
    assert hs + [] == hs && au + [] == au;
    var a, b, c;
    steps, a := RenewalIsAnswered(cfg, now, token, lifetimeMs);
    steps, b := OwnReplyIsRead(cfg, s0, steps, a, REAUTH_HANDSHAKE_CORRELATION_ID, hs);
    var d := b.(resp := TakeHandler, handled := 1);
    steps := GoResponse(cfg, s0, steps, b, ConsumeReply, d);
    steps, c := OwnReplyIsRead(cfg, s0, steps, d, REAUTH_CORRELATION_ID, au);
    s := c.(auth := CompleteReauth(c.auth, lifetimeMs, c.now), resp := TakeHandler, handled := 2);
    steps := GoResponse(cfg, s0, steps, c, ConsumeReply, s);
    ExchangeIsFair(cfg, token);
  }

  lemma AnswersAreShort(lifetimeMs: int64)
    ensures |HandshakeReply(0, [])| == 6 && |AuthenticateReply(0, None, None, lifetimeMs)| == 16
  {
    hide Put16, Put32, Put64;
  }

  lemma ExchangeIsFair(cfg: Config, token: seq<byte>)
    requires BuildReauthHandshake(cfg.clientId).Some? && BuildReauthAuthenticate(cfg.clientId, Some(token)).Some?
    ensures var e := Exchange(cfg, token);
            PeeksRight(e) && AvoidsReserved(Replying(e)) && Answers(e[0]) && Answers(e[1])
  {
    hide BuildReauthHandshake, BuildReauthAuthenticate, PeeksRight, AvoidsReserved, Replying, Answers;
    FairPair(BuildReauthHandshake(cfg.clientId).value, BuildReauthAuthenticate(cfg.clientId, Some(token)).value);
  }

  lemma FairPair(h: seq<byte>, a: seq<byte>)
    ensures var e := [HandshakeRequest(h), AuthenticateRequest(a)];
            PeeksRight(e) && AvoidsReserved(Replying(e)) && Answers(e[0]) && Answers(e[1])
  {
    hide Replying;
    var x, y := HandshakeRequest(h), AuthenticateRequest(a);
    MoreWire([], x);
    MoreWire([x], y);
    NoneExpected();
    assert [] + [x] == [x] && [x] + [y] == [x, y];
  }

  lemma NoneExpected()
    ensures Replying([]) == []
  {
  }

  // ---------------------------------------------------------------- a silent broker

  /** A whole frame of a client that asks for a reply, as the proxy sees it. */
  ghost predicate IsRequestFrame(cfg: Config, f: seq<byte>) {
    var a := ParseHead(cfg, f);
    a.Some? && a.value.r.wantsReply && 0 < a.value.left == |f| - |a.value.r.bytes|
  }

  /** That frame as the request it becomes. */
  function RequestOf(cfg: Config, f: seq<byte>): Request {
    var a := ParseHead(cfg, f);
    if a.None? then Request(Client, Framed, 0, 0, 0, false, f) else Complete(a.value.r.(bytes := f))
  }

  /** The state of an idle connection after the request has been sent and handed on. */
  function Passed(s: State, r: Request): State {
    s.(consumed := s.consumed + r.bytes, wire := s.wire + [r], markers := s.markers + [MarkerOf(r)],
       handlers := s.handlers + [HandlerAfter(r)], tokens := [NextRequestHandler(r)])
  }

  predicate Idle(cfg: Config, s: State) {
    && s.unread == [] && s.req == Top && s.tokens == [DefaultRequestHandler] && !s.auth.inFlight
    && |s.markers| < MarkerCapacity(cfg) && |s.handlers| < HandlerCapacity(cfg)
  }

  lemma HeadIsRead(cfg: Config, s0: State, before: seq<Step>, s: State, f: seq<byte>)
    returns (steps: seq<Step>, t: State)
    requires Reaches(cfg, s0, before, s) && Idle(cfg, s) && IsRequestFrame(cfg, f)
    ensures Reaches(cfg, s0, steps, t)
    ensures var a := ParseHead(cfg, f).value;
            t == s.(unread := f[|a.r.bytes|..], consumed := s.consumed + f[..|a.r.bytes|], tokens := [],
                    req := HaveHead(a.r, a.left))
  {
    hide Reaches, ParseHead, NextReadDeadline;
    var a := ParseHead(cfg, f).value;
    var s1 := s.(unread := s.unread + f);
    steps := GoRequest(cfg, s0, before, s, ClientSends(f), s1);
    assert s1.unread == f;
    var s2 := s1.(req := Begin);
    steps := GoRequest(cfg, s0, steps, s1, CheckExpired, s2);
    var s3 := s2.(tokens := s2.tokens[1..], req := Reading(NextReadDeadline(s2.auth)));
    steps := GoRequest(cfg, s0, steps, s2, TakeRequestHandler, s3);
    t := Consume(s3, |a.r.bytes|).(req := HaveHead(a.r, a.left));
    steps := GoRequest(cfg, s0, steps, s3, ReadHead, t);
    assert t.tokens == [];
  }

  lemma BodyIsSent(cfg: Config, s0: State, before: seq<Step>, s: State, r: Request, left: nat, f: seq<byte>)
    returns (steps: seq<Step>, t: State)
    requires Reaches(cfg, s0, before, s) && s.req == HaveHead(r, left) && |s.markers| < MarkerCapacity(cfg)
    requires left > 0 && |s.unread| == left && r.bytes + s.unread == f
    ensures Reaches(cfg, s0, steps, t)
    ensures var q := Complete(r.(bytes := f));
            t == s.(unread := [], consumed := s.consumed + s.unread, markers := s.markers + [MarkerOf(r)],
                    wire := s.wire + [q], req := Sent(q))
  {
    hide Reaches, Complete;
    var q := r.(bytes := r.bytes + s.unread[..left]);
    assert s.unread[..left] == s.unread;
    var s1 := s.(markers := s.markers + [MarkerOf(r)], req := Sending(r, 0, left));
    steps := GoSend(cfg, s0, before, s, PushRequestMarker, s1);
    var s2 := Consume(s1, left).(req := Sending(q, 0, 0));
    steps := GoSend(cfg, s0, steps, s1, ReadBody(left), s2);
    t := s2.(wire := s2.wire + [Complete(q)], req := Sent(Complete(q)));
    steps := GoSend(cfg, s0, steps, s2, SendPart(|f|), t);
    assert t.unread == [];
  }

  lemma RequestPasses(cfg: Config, s0: State, before: seq<Step>, s: State, f: seq<byte>)
    returns (steps: seq<Step>, t: State)
    requires Reaches(cfg, s0, before, s) && Idle(cfg, s) && IsRequestFrame(cfg, f)
    ensures Reaches(cfg, s0, steps, t) && t == Passed(s, RequestOf(cfg, f))
  {
    hide Reaches, ParseHead, Complete, NextRequestHandler, HandlerAfter;
    var a, r := ParseHead(cfg, f).value, RequestOf(cfg, f);
    var n := |a.r.bytes|;
    assert a.r.bytes == f[..n] && f[..n] + f[n..] == f;
    var s1, s2;
    steps, s1 := HeadIsRead(cfg, s0, before, s, f);
    steps, s2 := BodyIsSent(cfg, s0, steps, s1, a.r, a.left, f);
    CompleteKeeps(a.r.(bytes := f));
    t := s2.(tokens := [NextRequestHandler(r)], handlers := s2.handlers + [HandlerAfter(r)], req := Top);
    steps := GoSend(cfg, s0, steps, s2, PushNextHandlers, t);
    assert s.consumed + f[..n] + f[n..] == s.consumed + f;
  }

  lemma CompleteKeeps(r: Request)
    ensures var q := Complete(r);
            MarkerOf(q) == MarkerOf(r) && q.wantsReply == r.wantsReply && q.bytes == r.bytes && q.kind == r.kind
  {
  }

  /** Two requests that ask for a reply, one after the other. */
  lemma TwoRequestsPass(cfg: Config, now: int, f: seq<byte>, g: seq<byte>) returns (steps: seq<Step>, s: State)
    requires IsRequestFrame(cfg, f) && !IsV0Handshake(RequestOf(cfg, f)) && IsRequestFrame(cfg, g)
    ensures Reaches(cfg, Init(cfg, now), steps, s)
    ensures var s0, p, q := Init(cfg, now), RequestOf(cfg, f), RequestOf(cfg, g);
            s == s0.(consumed := s.consumed, wire := [p, q], markers := [MarkerOf(p), MarkerOf(q)], tokens := s.tokens,
                     handlers := [DefaultResponseHandler, DefaultResponseHandler, HandlerAfter(q)])
  {
    hide Reaches, IsRequestFrame, RequestOf, IsV0Handshake;
    var s0, a := Init(cfg, now), Init(cfg, now);
    Here(cfg, s0);
    steps, a := RequestPasses(cfg, s0, [], s0, f);
    steps, s := RequestPasses(cfg, s0, steps, a, g);
    assert s.wire == [RequestOf(cfg, f), RequestOf(cfg, g)];
    assert s.markers == [MarkerOf(RequestOf(cfg, f)), MarkerOf(RequestOf(cfg, g))];
    assert s.handlers == [DefaultResponseHandler, DefaultResponseHandler, HandlerAfter(RequestOf(cfg, g))];
  }

  /**
   Where the proxy expects a reply that the broker does not give, the reply to the next request
   is read with the handler and the marker of the request that was not answered.
   */
  lemma SilenceMispairs(cfg: Config, now: int, f: seq<byte>, g: seq<byte>, reply: seq<byte>)
    returns (steps: seq<Step>, s: State)
    requires IsRequestFrame(cfg, f) && !Answers(RequestOf(cfg, f)) && !IsV0Handshake(RequestOf(cfg, f))
    requires IsRequestFrame(cfg, g) && Answers(RequestOf(cfg, g)) && CanReply(cfg, RequestOf(cfg, g), reply)
    ensures Reaches(cfg, Init(cfg, now), steps, s)
    ensures s.wire == [RequestOf(cfg, f), RequestOf(cfg, g)] && !PeeksRight(s.wire)
    ensures s.resp.HaveHeader? && Current(s) == reply
    ensures s.markers == [MarkerOf(RequestOf(cfg, f)), MarkerOf(RequestOf(cfg, g))]
  {
    FrameExpects(cfg, f);
    FrameExpects(cfg, g);
    LongReply(cfg, RequestOf(cfg, g), reply);
    hide Reaches, IsRequestFrame, CanReply, Answers, RequestOf, HandlerAfter, PeeksRight;
    var s0, b := Init(cfg, now), Init(cfg, now);
    steps, b := TwoRequestsPass(cfg, now, f, g);
    steps, b := SecondIsAnswered(cfg, s0, steps, b, reply);
    steps, s := ReplyIsRead(cfg, s0, steps, b);
    NotRight(s.wire, 0);
  }

  lemma NotRight(w: seq<Request>, i: nat)
    requires i < |w| && w[i].wantsReply && !Answers(w[i])
    ensures !PeeksRight(w)
  {
  }

  lemma SecondIsAnswered(cfg: Config, s0: State, before: seq<Step>, s: State, reply: seq<byte>)
    returns (steps: seq<Step>, t: State)
    requires Reaches(cfg, s0, before, s) && |s.wire| == 2 && s.served == 0 && s.replies == []
    requires !Answers(s.wire[0]) && Answers(s.wire[1]) && CanReply(cfg, s.wire[1], reply)
    ensures Reaches(cfg, s0, steps, t) && t == s.(served := 2, replies := [reply])
  {
    hide Reaches, CanReply, Answers;
    var u := s.(served := 1);
    steps := GoResponse(cfg, s0, before, s, BrokerServes([]), u);
    t := u.(served := 2, replies := u.replies + [reply]);
    steps := GoResponse(cfg, s0, steps, u, BrokerServes(reply), t);
    assert t.replies == [reply];
  }

  lemma ReplyIsRead(cfg: Config, s0: State, before: seq<Step>, s: State) returns (steps: seq<Step>, t: State)
    requires Reaches(cfg, s0, before, s) && s.resp == TakeHandler && s.read < |s.replies| && |s.replies[s.read]| >= 8
    requires s.handlers != [] && s.handlers[0] == DefaultResponseHandler
    ensures Reaches(cfg, s0, steps, t)
    ensures t == s.(handlers := s.handlers[1..], taken := s.taken + 1, read := s.read + 1, resp := HaveHeader)
  {
    hide Reaches;
    var u := s.(handlers := s.handlers[1..], taken := s.taken + 1, resp := AwaitReply(s.handlers[0]));
    steps := GoResponse(cfg, s0, before, s, TakeResponseHandler, u);
    t := u.(read := s.read + 1, resp := HaveHeader);
    steps := GoResponse(cfg, s0, steps, u, ReadReply, t);
  }

  lemma FrameExpects(cfg: Config, f: seq<byte>)
    requires IsRequestFrame(cfg, f)
    ensures RequestOf(cfg, f).kind == Framed && RequestOf(cfg, f).wantsReply
  {
  }

  lemma LongReply(cfg: Config, r: Request, reply: seq<byte>)
    requires r.kind == Framed && CanReply(cfg, r, reply)
    ensures |reply| >= 8
  {
    hide ResponseFrames.HeaderTagsLength, Get32;
  }

  /** A Produce request of version 9 with acks 0, to which no reply comes, and a Metadata request. */
  function SilentProduce(): seq<byte> {
    RequestFrames.RequestFrame(API_KEY_PRODUCE, 9, FlexibleBody(1, None, [0], Some([0x61]), 0, 0x100_0000, []))
  }

  function MetadataRequest(): seq<byte> {
    RequestFrames.RequestFrame(3, 0, Put32(2) + (Put16(-1) + Put32(0)))
  }

  lemma SilentProduceIsExpected(cfg: Config)
    requires !cfg.requests.acks0Disabled && API_KEY_PRODUCE !in cfg.requests.forbidden
    ensures var f := SilentProduce();
            IsRequestFrame(cfg, f) && !Answers(RequestOf(cfg, f))
              && MarkerOf(RequestOf(cfg, f)) == Marker(API_KEY_PRODUCE, 9)
  {
    hide PeekAcks, BrokerAcks, FlexibleBody, RequestFrames.RequestFrame, Get32;
    var body := FlexibleBody(1, None, [0], Some([0x61]), 0, 0x100_0000, []);
    BodyLength();
    FlexibleAcksPeekCanBeWrong(1, None, []);
    RequestFrames.HeadOfFrame(cfg.requests, API_KEY_PRODUCE, 9, body);
    PeekedPart(body);
  }

  lemma BodyLength()
    ensures |FlexibleBody(1, None, [0], Some([0x61]), 0, 0x100_0000, [])| == 15
  {
    hide Put16, Put32;
    assert PutUvarint(2) == [2];
  }

  lemma PeekedPart(body: seq<byte>)
    requires body == FlexibleBody(1, None, [0], Some([0x61]), 0, 0x100_0000, [])
    ensures PeekAcks(9, body).Some? ==> PeekAcks(9, body).value.n < |body|
  {
  }

  lemma MetadataIsExpected(cfg: Config)
    requires 3 !in cfg.requests.forbidden
    ensures var g := MetadataRequest();
            && IsRequestFrame(cfg, g) && Answers(RequestOf(cfg, g))
            && MarkerOf(RequestOf(cfg, g)) == Marker(3, 0) && RequestOf(cfg, g).corr == 2
  {
    hide RequestFrames.RequestFrame, Get32, Put16, Put32;
    var body := Put32(2) + (Put16(-1) + Put32(0));
    RequestFrames.HeadOfFrame(cfg.requests, 3, 0, body);
    Get32AfterPut32(2, Put16(-1) + Put32(0));
  }

  /** It happens to a Metadata reply, which is then not rewritten: its marker is that of the Produce request. */
  lemma MetadataReplyIsMispaired(cfg: Config, now: int) returns (steps: seq<Step>, s: State)
    requires !cfg.requests.acks0Disabled && API_KEY_PRODUCE !in cfg.requests.forbidden && 3 !in cfg.requests.forbidden
    ensures Reaches(cfg, Init(cfg, now), steps, s)
    ensures |s.wire| == 2 && s.wire[1].key == 3 && s.resp.HaveHeader? && CanReply(cfg, s.wire[1], Current(s))
    ensures |s.markers| == 2 && s.markers[0] == Marker(API_KEY_PRODUCE, 9)
  {
    hide Reaches, IsRequestFrame, RequestOf, Answers, SilentProduce, MetadataRequest, PeeksRight;
    var f, g, reply := SilentProduce(), MetadataRequest(), ReplyFrame(2, [0]);
    SilentProduceIsExpected(cfg);
    MetadataIsExpected(cfg);
    FrameExpects(cfg, g);
    ReplyFits(cfg, RequestOf(cfg, g), reply);
    steps, s := SilenceMispairs(cfg, now, f, g, reply);
    assert MarkerOf(s.wire[1]) == Marker(3, 0);
  }

  lemma ReplyFits(cfg: Config, r: Request, reply: seq<byte>)
    requires r.kind == Framed && r.corr == 2 && reply == ReplyFrame(2, [0])
    ensures CanReply(cfg, r, reply)
  {
    hide Get32, ReplyFrame;
    ReplyFrameIs(2, [0]);
    NoTags();
  }
}
