/**
 The proxy's own replies are swallowed and everybody else's forwarded, and at most one renewal
 is under way: in every run in which the proxy expects the replies that the broker gives, and no
 client request carries a reserved correlation id on a SASL key.
 */
module Exchanges {
  import opened Wrappers
  import opened Bytes
  import opened AuthState
  import opened SaslReauth
  import ResponseFrames
  import ResponseTheorems
  import Schema
  import opened Responses
  import opened Processor
  import opened WireHistory
  import opened ProcessorInvariants

  /** No framed request of the client could be mistaken for the proxy's own. */
  predicate AvoidsReserved(e: seq<Request>) {
    forall i :: 0 <= i < |e| && e[i].origin == Client && e[i].kind == Framed ==>
      !IsProxyReauthResponse(MarkerOf(e[i]), e[i].corr)
  }

  // ---------------------------------------------------------------- what the client is due

  /** What the client gets for one reply; nothing for the proxy's own. */
  function DueFor(cfg: Config, r: Request, reply: seq<byte>): seq<byte> {
    if r.origin == Proxy then []
    else if r.kind == Raw then reply
    else
      var out := Forwarding(cfg, MarkerOf(r), reply);
      if out.None? then [] else out.value
  }

  /** What the client gets for the first `n` replies. */
  function Due(cfg: Config, e: seq<Request>, replies: seq<seq<byte>>, n: nat): seq<byte>
    requires n <= |e| && n <= |replies|
  {
    if n == 0 then [] else Due(cfg, e, replies, n - 1) + DueFor(cfg, e[n - 1], replies[n - 1])
  }

  lemma {:induction false} DueExtends(cfg: Config, e: seq<Request>, f: seq<Request>, replies: seq<seq<byte>>,
                                      more: seq<seq<byte>>, n: nat)
    requires n <= |e| && n <= |replies| && e <= f && replies <= more
    ensures Due(cfg, e, replies, n) == Due(cfg, f, more, n)
  {
    hide DueFor;
    if n > 0 {
      DueExtends(cfg, e, f, replies, more, n - 1);
      assert e[n - 1] == f[n - 1] && replies[n - 1] == more[n - 1];
    }
  }

  lemma {:induction false} DueGrows(cfg: Config, e: seq<Request>, replies: seq<seq<byte>>, n: nat, m: nat)
    requires n <= m <= |e| && m <= |replies|
    ensures Due(cfg, e, replies, n) <= Due(cfg, e, replies, m)
  {
    hide DueFor;
    if n < m {
      DueGrows(cfg, e, replies, n, m - 1);
    }
  }

  // ---------------------------------------------------------------- the invariants

  /** Exchanges marked in flight: all authenticates sent, but for the one sent and not yet marked. */
  function Marked(s: State): int {
    AuthCount(Replying(s.wire)) - if s.req.ReauthMark? then 1 else 0
  }

  function Completed(s: State): nat
    requires s.handled <= |Replying(s.wire)|
  {
    AuthCount(Replying(s.wire)[..s.handled])
  }

  predicate AuthRight(s: State)
    requires s.handled <= |Replying(s.wire)|
  {
    && Completed(s) <= Marked(s) <= Completed(s) + 1
    && (s.auth.inFlight <==> Marked(s) == Completed(s) + 1)
    && (s.req.ReauthBuild? || s.req.ReauthAuthenticate? || s.req.ReauthMark? ==> !s.auth.inFlight)
  }

  predicate OutputRight(cfg: Config, s: State)
    requires s.handled <= s.read <= |Replying(s.wire)| && s.read <= |s.replies|
  {
    var e := Replying(s.wire);
    match s.resp
    case Writing(rest) =>
      && s.handled < |e| && e[s.handled].origin == Client
      && s.clientOut + rest == Due(cfg, e, s.replies, s.read)
    case ResponseStopped => s.clientOut <= Due(cfg, e, s.replies, s.read)
    case _ => s.clientOut == Due(cfg, e, s.replies, s.handled)
  }

  ghost predicate ExchangeInv(cfg: Config, s: State) {
    Inv(cfg, s) && AuthRight(s) && OutputRight(cfg, s)
  }

  // ---------------------------------------------------------------- steps of the request loop and the broker

  /** runReauth has found that a renewal is due and has not marked it. */
  predicate Starting(req: RequestPc) {
    req.ReauthBuild? || req.ReauthAuthenticate? || req.ReauthMark?
  }

  predicate SameReplies(s: State, t: State) {
    && t.replies == s.replies && t.clientOut == s.clientOut
    && t.resp == s.resp && t.read == s.read && t.handled == s.handled
  }

  lemma QuietExchange(cfg: Config, s: State, t: State)
    requires ExchangeInv(cfg, s) && Inv(cfg, t) && SameReplies(s, t) && t.wire == s.wire && t.auth == s.auth
    requires t.req.ReauthMark? == s.req.ReauthMark?
    requires Starting(t.req) ==> Starting(s.req) || !s.auth.inFlight
    ensures ExchangeInv(cfg, t)
  {
    hide Inv, Replying, AuthCount, Due;
    Bounds(cfg, s);
    Bounds(cfg, t);
  }

  /** The bounds that the other invariants rest on. */
  lemma Bounds(cfg: Config, s: State)
    requires Inv(cfg, s)
    ensures s.handled <= s.read <= |s.replies| <= |Replying(s.wire)|
    ensures s.read <= s.handled + 1
  {
    hide Replying, MarkersOf, RawCount, Shape, HandlersPaired, MarkersPaired, Answered;
  }

  lemma GrowingExchange(cfg: Config, s: State, r: Request, t: State)
    requires ExchangeInv(cfg, s) && Inv(cfg, t) && SameReplies(s, t) && t.wire == s.wire + [r] && t.auth == s.auth
    requires !s.req.ReauthMark? && (IsProxyAuthenticate(r) && r.wantsReply <==> t.req.ReauthMark?)
    requires Starting(t.req) ==> Starting(s.req)
    ensures ExchangeInv(cfg, t)
  {
    hide Inv, Replying, AuthCount, Due;
    Bounds(cfg, s);
    MoreWire(s.wire, r);
    var e, f := Replying(s.wire), Replying(t.wire);
    MoreExpected(e, r);
    assert f[..s.handled] == e[..s.handled];
    DueExtends(cfg, e, f, s.replies, s.replies, s.handled);
    DueExtends(cfg, e, f, s.replies, s.replies, s.read);
  }

  lemma ServingExchange(cfg: Config, s: State, reply: seq<byte>, t: State)
    requires ExchangeInv(cfg, s) && Inv(cfg, t) && DoServe(cfg, s, reply) == Some(t)
    ensures ExchangeInv(cfg, t)
  {
    hide Inv, Replying, AuthCount, Due, CanReply, Answers;
    Bounds(cfg, s);
    Bounds(cfg, t);
    var e := Replying(s.wire);
    DueExtends(cfg, e, e, s.replies, t.replies, s.handled);
    DueExtends(cfg, e, e, s.replies, t.replies, s.read);
  }

  lemma WritingExchange(cfg: Config, s: State, token: Option<seq<byte>>, k: nat, t: State)
    requires ExchangeInv(cfg, s) && Inv(cfg, t)
    requires DoSendPart(s, k) == Some(t) || DoWriteHandshake(cfg, s, token) == Some(t)
             || DoWriteAuthenticate(s) == Some(t)
    ensures ExchangeInv(cfg, t)
  {
    hide ExchangeInv, AuthRight, OutputRight, BuildReauthHandshake, BuildReauthAuthenticate;
    hide Replying, WellFormed, HandlersPaired, MarkersPaired, Answered, Progress;
    assert Inv(cfg, s) by {
      hide Inv;
      Parts(cfg, s);
    }
    if t.wire == s.wire {
      QuietExchange(cfg, s, t);
    } else {
      GrowingExchange(cfg, s, t.wire[|s.wire|], t);
    }
  }

  lemma Parts(cfg: Config, s: State)
    requires ExchangeInv(cfg, s)
    ensures Inv(cfg, s) && AuthRight(s) && OutputRight(cfg, s)
  {
    hide Inv, AuthRight, OutputRight;
  }

  lemma MarkingExchange(cfg: Config, s: State, t: State)
    requires ExchangeInv(cfg, s) && Inv(cfg, t) && DoMarkReauth(s) == Some(t)
    ensures ExchangeInv(cfg, t)
  {
    hide Inv, Replying, AuthCount, Due;
    Bounds(cfg, s);
  }

  lemma RequestExchange(cfg: Config, s: State, partial: nat, t: State)
    requires ExchangeInv(cfg, s) && Inv(cfg, t)
    requires DoCheckExpired(s) == Some(t) || DoTakeRequestHandler(s) == Some(t) || DoReadHead(cfg, s) == Some(t)
             || DoReadRawHead(s) == Some(t) || DoReadTimeout(s, partial) == Some(t) || DoReadBody(s, partial) == Some(t)
             || DoRequestFails(cfg, s, partial) == Some(t)
    ensures ExchangeInv(cfg, t)
  {
    hide ExchangeInv, Inv, ParseHead, ParseRawHead, BuildReauthHandshake, InFlightExpired, NextReadDeadline;
    QuietExchange(cfg, s, t);
  }

  lemma PushingExchange(cfg: Config, s: State, t: State)
    requires ExchangeInv(cfg, s) && Inv(cfg, t)
    requires DoPushRequestMarker(cfg, s) == Some(t) || DoPushNextHandlers(cfg, s) == Some(t)
             || DoPutRequestToken(s) == Some(t)
             || DoPushReauthMarker(cfg, s) == Some(t) || DoPushReauthHandler(cfg, s) == Some(t)
    ensures ExchangeInv(cfg, t)
  {
    hide ExchangeInv, Inv, ReauthMarker;
    QuietExchange(cfg, s, t);
  }

  lemma DecidingExchange(cfg: Config, s: State, t: State)
    requires ExchangeInv(cfg, s) && Inv(cfg, t) && (DoCheckTimeout(s) == Some(t) || DoCheckReauth(cfg, s) == Some(t))
    ensures ExchangeInv(cfg, t)
  {
    hide ExchangeInv, Inv;
    QuietExchange(cfg, s, t);
  }

  // ---------------------------------------------------------------- steps of the response loop

  lemma WaitingForReply(cfg: Config, s: State, t: State)
    requires ExchangeInv(cfg, s) && Inv(cfg, t)
    requires DoTakeResponseHandler(s) == Some(t) || DoReadReply(s) == Some(t)
    ensures ExchangeInv(cfg, t)
  {
    hide Inv, Replying, AuthCount, DueFor;
    Bounds(cfg, s);
    Bounds(cfg, t);
    if t.resp.Writing? {
      RawIsClients(cfg, s);
    }
    NotDesynchronised(cfg, t);
  }

  lemma NotDesynchronised(cfg: Config, s: State)
    requires Inv(cfg, s)
    ensures !s.resp.Desynchronised?
  {
    hide Replying, MarkersOf, RawCount, Shape, HandlersPaired, MarkersPaired, Answered;
  }

  lemma RawIsClients(cfg: Config, s: State)
    requires Inv(cfg, s) && s.resp.AwaitReply? && s.read < |s.replies| && s.resp.h == SaslAuthV0ResponseHandler
    ensures s.read == s.handled && s.handled < |Replying(s.wire)|
    ensures var r := Replying(s.wire)[s.handled];
            r.origin == Client && DueFor(cfg, r, s.replies[s.handled]) == s.replies[s.handled]
  {
    hide Replying, MarkersOf, HandlersOf, RawCount, HandlersPaired, MarkersPaired, WellFormed, Answered;
    assert s.read == s.handled && s.read < |Replying(s.wire)|;
    HandlerFits(cfg, s);
    WellFormedExpected(s.wire, s.read);
  }

  /** Whose reply it is decides what becomes of it. */
  lemma Classified(cfg: Config, s: State, t: State)
    requires Inv(cfg, s) && DoPopMarker(cfg, s) == Some(t)
    requires AvoidsReserved(Replying(s.wire))
    ensures s.handled < |Replying(s.wire)| && s.handled < |s.replies| && s.read == s.handled + 1
    ensures var r, reply := Replying(s.wire)[s.handled], s.replies[s.handled];
            && (t.resp.Consuming? <==> r.origin == Proxy)
            && (t.resp.Writing? ==> r.origin == Client && t.resp.rest == DueFor(cfg, r, reply))
  {
    hide Replying, MarkersOf, HandlersOf, RawCount, HandlersPaired, MarkersPaired, WellFormed, Answered, Forwarding;
    hide ResponseFrames.HeaderTagsLength;
    MarkerFits(cfg, s);
    WellFormedExpected(s.wire, s.handled);
  }

  lemma PoppingExchange(cfg: Config, s: State, t: State)
    requires ExchangeInv(cfg, s) && Inv(cfg, t) && DoPopMarker(cfg, s) == Some(t)
    requires AvoidsReserved(Replying(s.wire))
    ensures ExchangeInv(cfg, t)
  {
    hide Inv, Replying, AuthCount, DueFor, AfterHeader, AvoidsReserved;
    Bounds(cfg, s);
    Classified(cfg, s, t);
    NotDesynchronised(cfg, t);
  }

  /**
   When both requests are written but the exchange is not marked yet, the response loop is still
   busy with something before it: their markers are not in the queue.
   */
  lemma BehindTheExchange(cfg: Config, s: State)
    requires Inv(cfg, s) && s.req.ReauthMark? && s.resp.Consuming?
    ensures s.read <= |Replying(s.wire)| - 2
    ensures AuthCount(Replying(s.wire)[..s.read]) < AuthCount(Replying(s.wire))
  {
    hide Replying, MarkersOf, HandlersOf, RawCount, AuthCount, HandlersPaired, WellFormed, Answered, Window;
    var e := Replying(s.wire);
    ExchangeEnd(s.wire);
    LastFramed(e, |e| - 2, s.handled);
    var n := |e| - 2;
    ExpectedPrefix(e[..n], s.read);
    assert e[..n][..s.read] == e[..s.read];
    MarkerAt(e, n);
    MarkerAt(e, n + 1);
    assert e[..n + 2] == e;
  }

  /** A framed request with no more framed ones up to it than stand before `n` stands before `n`. */
  lemma LastFramed(e: seq<Request>, n: nat, i: nat)
    requires n <= |e| && i < |e| && e[i].kind == Framed
    requires FramedBefore(e, i + 1) <= FramedBefore(e, n)
    ensures i < n
  {
    hide MarkersOf, HandlersOf, RawCount, AuthCount;
    if i >= n {
      ExpectedPrefix(e[..i], n);
      assert e[..i][..n] == e[..n];
      MarkerAt(e, i);
      assert false;
    }
  }

  /** What is being consumed is one of the proxy's own, and if an authenticate, one that has been marked. */
  lemma ConsumedIsMarked(cfg: Config, s: State)
    requires Inv(cfg, s) && s.resp.Consuming? && AvoidsReserved(Replying(s.wire))
    ensures s.read == s.handled + 1 && s.read <= |Replying(s.wire)| && s.read <= |s.replies|
    ensures var r := Replying(s.wire)[s.handled];
            && r.origin == Proxy && Current(s) == s.replies[s.handled] && |Current(s)| >= 8
            && (Get32(Current(s)[4..]) == REAUTH_HANDSHAKE_CORRELATION_ID <==> !IsProxyAuthenticate(r))
    ensures AuthCount(Replying(s.wire)[..s.read]) <= Marked(s)
  {
    hide Replying, MarkersOf, HandlersOf, RawCount, AuthCount, HandlersPaired, MarkersPaired, WellFormed;
    hide ResponseFrames.HeaderTagsLength, Get32;
    var e := Replying(s.wire);
    WellFormedExpected(s.wire, s.handled);
    assert CanReply(cfg, e[s.handled], s.replies[s.handled]);
    if s.req.ReauthMark? {
      BehindTheExchange(cfg, s);
    } else {
      ExpectedPrefix(e, s.read);
    }
  }

  lemma ConsumingExchange(cfg: Config, s: State, t: State)
    requires ExchangeInv(cfg, s) && Inv(cfg, t) && DoConsumeReply(s) == Some(t)
    requires AvoidsReserved(Replying(s.wire))
    ensures ExchangeInv(cfg, t)
  {
    hide Inv, Replying, AuthCount, Due, HandshakeOutcome, AuthenticateOutcome, Get32, AvoidsReserved;
    Bounds(cfg, s);
    ConsumedIsMarked(cfg, s);
    MarkerAt(Replying(s.wire), s.handled);
    NothingDue(cfg, Replying(s.wire), s.replies, s.handled);
  }

  lemma NothingDue(cfg: Config, e: seq<Request>, replies: seq<seq<byte>>, n: nat)
    requires n < |e| && n < |replies| && e[n].origin == Proxy
    ensures Due(cfg, e, replies, n + 1) == Due(cfg, e, replies, n)
  {
    assert Due(cfg, e, replies, n) + [] == Due(cfg, e, replies, n);
  }

  lemma DeliveringExchange(cfg: Config, s: State, k: nat, t: State)
    requires ExchangeInv(cfg, s) && Inv(cfg, t) && DoWritePart(s, k) == Some(t)
    ensures ExchangeInv(cfg, t)
  {
    hide Inv, Replying, AuthCount, Due;
    Bounds(cfg, s);
    Bounds(cfg, t);
    var rest := s.resp.rest;
    if k == |rest| {
      WritingIsNext(cfg, s);
      MarkerAt(Replying(s.wire), s.handled);
    } else {
      assert s.clientOut + rest == (s.clientOut + rest[..k]) + rest[k..];
    }
  }

  lemma WritingIsNext(cfg: Config, s: State)
    requires Inv(cfg, s) && s.resp.Writing?
    ensures s.read == s.handled + 1
  {
    hide Replying, MarkersOf, RawCount, Shape, HandlersPaired, MarkersPaired, Answered;
  }

  lemma StoppingExchange(cfg: Config, s: State, t: State)
    requires ExchangeInv(cfg, s) && Inv(cfg, t) && DoResponseFails(s) == Some(t)
    ensures ExchangeInv(cfg, t)
  {
    hide Inv, Replying, AuthCount, Due;
    Bounds(cfg, s);
    DueGrows(cfg, Replying(s.wire), s.replies, s.handled, s.read);
  }

  // ---------------------------------------------------------------- runs

  lemma StepExchange(cfg: Config, s: State, step: Step, t: State)
    requires ExchangeInv(cfg, s) && Inv(cfg, t) && Do(cfg, s, step) == Some(t)
    requires AvoidsReserved(Replying(s.wire))
    ensures ExchangeInv(cfg, t)
  {
    hide ExchangeInv, Inv, AvoidsReserved, DoServe, DoCheckExpired;
    hide DoTakeRequestHandler, DoReadHead, DoReadRawHead, DoReadTimeout, DoReadBody;
    hide DoPushRequestMarker, DoSendPart, DoPushNextHandlers, DoCheckTimeout, DoCheckReauth, DoWriteHandshake;
    hide DoWriteAuthenticate, DoMarkReauth, DoPushReauthMarker, DoPushReauthHandler, DoPutRequestToken, DoRequestFails;
    hide DoTakeResponseHandler, DoReadReply, DoPopMarker, DoConsumeReply, DoWritePart, DoResponseFails;
    match step
    case Tick(_) => QuietExchange(cfg, s, t);
    case ClientSends(_) => QuietExchange(cfg, s, t);
    case BrokerServes(reply) => ServingExchange(cfg, s, reply, t);
    case CheckExpired => RequestExchange(cfg, s, 0, t);
    case TakeRequestHandler => RequestExchange(cfg, s, 0, t);
    case ReadHead => RequestExchange(cfg, s, 0, t);
    case ReadRawHead => RequestExchange(cfg, s, 0, t);
    case ReadBody(k) => RequestExchange(cfg, s, k, t);
    case ReadTimeout(partial) => RequestExchange(cfg, s, partial, t);
    case RequestFails(partial) => RequestExchange(cfg, s, partial, t);
    case PushRequestMarker => PushingExchange(cfg, s, t);
    case PushNextHandlers => PushingExchange(cfg, s, t);
    case PutRequestToken => PushingExchange(cfg, s, t);
    case PushReauthMarker => PushingExchange(cfg, s, t);
    case PushReauthHandler => PushingExchange(cfg, s, t);
    case CheckTimeout => DecidingExchange(cfg, s, t);
    case CheckReauth => DecidingExchange(cfg, s, t);
    case SendPart(k) => WritingExchange(cfg, s, None, k, t);
    case WriteHandshake(token) => WritingExchange(cfg, s, token, 0, t);
    case WriteAuthenticate => WritingExchange(cfg, s, None, 0, t);
    case MarkReauth => MarkingExchange(cfg, s, t);
    case TakeResponseHandler => WaitingForReply(cfg, s, t);
    case ReadReply => WaitingForReply(cfg, s, t);
    case PopMarker => PoppingExchange(cfg, s, t);
    case ConsumeReply => ConsumingExchange(cfg, s, t);
    case WritePart(k) => DeliveringExchange(cfg, s, k, t);
    case ResponseFails => StoppingExchange(cfg, s, t);
  }

  lemma AvoidingPrefix(e: seq<Request>, f: seq<Request>)
    requires e <= f && AvoidsReserved(f)
    ensures AvoidsReserved(e)
  {
    forall i | 0 <= i < |e| && e[i].origin == Client && e[i].kind == Framed
      ensures !IsProxyReauthResponse(MarkerOf(e[i]), e[i].corr)
    {
      assert e[i] == f[i];
    }
  }

  lemma {:induction false} RunExchange(cfg: Config, now: int, steps: seq<Step>, s: State)
    requires Run(cfg, Init(cfg, now), steps) == Some(s)
    requires AvoidsReserved(Replying(s.wire)) && PeeksRight(s.wire)
    ensures ExchangeInv(cfg, s)
    decreases |steps|
  {
    hide Do, Inv, PeeksRight;
    RunKeeps(cfg, now, steps, s);
    if steps != [] {
      hide ExchangeInv, Replying, AvoidsReserved;
      var before := Run(cfg, Init(cfg, now), steps[..|steps| - 1]).value;
      WireOnlyGrows(cfg, before, steps[|steps| - 1], s);
      if s.wire != [] {
        LastReplying(s.wire);
      }
      AvoidingPrefix(Replying(before.wire), Replying(s.wire));
      PeeksRightBefore(before.wire, s.wire);
      RunExchange(cfg, now, steps[..|steps| - 1], before);
      StepExchange(cfg, before, steps[|steps| - 1], s);
    }
  }

  // ---------------------------------------------------------------- theorems

  /**
   In every interleaving the bytes sent to the client are a prefix of the forwarded replies to
   its own requests, in request order; no byte of a reply to the proxy appears among them.
   */
  lemma ClientGetsItsReplies(cfg: Config, now: int, steps: seq<Step>, s: State)
    requires Run(cfg, Init(cfg, now), steps) == Some(s)
    requires AvoidsReserved(Replying(s.wire)) && PeeksRight(s.wire)
    ensures s.handled <= |s.replies| <= |Replying(s.wire)|
    ensures s.clientOut <= Due(cfg, Replying(s.wire), s.replies, |s.replies|)
    ensures s.resp.TakeHandler? ==> s.clientOut == Due(cfg, Replying(s.wire), s.replies, s.handled)
  {
    hide Do, Inv, Replying, Due, AuthRight;
    RunExchange(cfg, now, steps, s);
    Bounds(cfg, s);
    NotDesynchronised(cfg, s);
    DueGrows(cfg, Replying(s.wire), s.replies, s.handled, |s.replies|);
    DueGrows(cfg, Replying(s.wire), s.replies, s.read, |s.replies|);
  }

  /** A forwarded reply is a frame that answers the client's request: it carries its correlation id. */
  lemma ForwardedReplyAnswers(cfg: Config, r: Request, reply: seq<byte>)
    requires r.origin == Client && r.kind == Framed && CanReply(cfg, r, reply)
    requires Forwarding(cfg, MarkerOf(r), reply).Some?
    ensures var out := DueFor(cfg, r, reply);
            |out| >= 8 && |out| == Get32(out) + 4 && Get32(out[4..]) == r.corr
  {
    hide Get32, ResponseFrames.HeaderTagsLength, ResponseFrames.ForwardFrame;
    var ctx := ContextOf(cfg, MarkerOf(r));
    TagsKnown(ctx, reply);
    ResponseFrames.ForwardedFrameIsAligned(ctx, reply);
    SameCorrelationId(reply, DueFor(cfg, r, reply),
                      8 + ResponseFrames.HeaderTagsLength(ctx.headerVersion, reply[8..]).value);
  }

  lemma TagsKnown(ctx: ResponseFrames.Context, s: seq<byte>)
    requires ResponseFrames.ForwardFrame(ctx, s).Some?
    ensures |s| >= 8 && ResponseFrames.HeaderTagsLength(ctx.headerVersion, s[8..]).Some?
    ensures 8 + ResponseFrames.HeaderTagsLength(ctx.headerVersion, s[8..]).value <= |s|
  {
    hide Get32, Put32, Apply, ResponseFrames.HeaderTagsLength;
  }

  lemma SameCorrelationId(a: seq<byte>, b: seq<byte>, at: nat)
    requires 8 <= at <= |a| && at <= |b| && a[4..at] == b[4..at]
    ensures Get32(a[4..]) == Get32(b[4..])
  {
    hide Get32;
    assert a[4..] == a[4..at] + a[at..] && b[4..] == b[4..at] + b[at..];
    ResponseFrames.Get32Prefix(a[4..at], a[at..]);
    ResponseFrames.Get32Prefix(b[4..at], b[at..]);
  }

  /**
   And what it says is what the broker said: behind the header the client decodes the broker's
   struct, with nothing changed but the addresses, which are those of the mapping.
   */
  lemma RewrittenReplyMeans(cfg: Config, r: Request, reply: seq<byte>, fn: Mapper)
    requires r.origin == Client && r.kind == Framed && CanReply(cfg, r, reply) && cfg.fn == Some(fn)
    requires ResponseTheorems.Supported(r.key, r.version) && Forwarding(cfg, MarkerOf(r), reply).Some?
    ensures var ctx := ContextOf(cfg, MarkerOf(r));
            var at := 8 + ResponseFrames.HeaderTagsLength(ctx.headerVersion, reply[8..]).value;
            var m, out := ResponseTheorems.ModifierFor(r.key, r.version), DueFor(cfg, r, reply);
            && at <= |reply| && at <= |out| && out[4..at] == reply[4..at]
            && var v, w := Schema.DecodeSchema(Some(reply[at..]), m.ty), Schema.DecodeSchema(Some(out[at..]), m.ty);
               && v.Success? && v.value.Some? && w.Success? && w.value.Some?
               && ResponseTheorems.ResponseReaddressed(m.kind, v.value.value, w.value.value, fn)
  {
    hide Get32, Put32, Apply, ResponseModifier, ResponseFrames.HeaderTagsLength, Schema.Decode;
    hide ResponseTheorems.ResponseReaddressed, ResponseTheorems.AllMapped, ResponseTheorems.RewriteEncodes;
    hide ResponseTheorems.ModifierFor;
    var ctx := ContextOf(cfg, MarkerOf(r));
    var at := 8 + ResponseFrames.HeaderTagsLength(ctx.headerVersion, reply[8..]).value;
    var m := ResponseTheorems.ModifierFor(r.key, r.version);
    ResponseTheorems.ModifierIsChosen(r.key, r.version);
    assert reply[at..Get32(reply) + 4] == reply[at..];
    ResponseTheorems.RewritingPreservesMeaning(r.key, r.version, reply[at..], fn);
    var b := Apply(m.kind, m.ty, Some(reply[at..]), cfg.fn).value.value;
    BodyBehind(Put32(|b| + 4 + at - 8), reply[4..at], b);
  }

  lemma BodyBehind(a: seq<byte>, b: seq<byte>, c: seq<byte>)
    ensures (a + b + c)[|a| + |b|..] == c && (a + b + c)[|a|..|a| + |b|] == b
  {
  }

  /**
   At most one exchange is outstanding in any state; but for the moment between writing the
   authenticate and marking it, one is in flight exactly when its reply is not fully consumed.
   */
  lemma OneExchangeAtATime(cfg: Config, now: int, steps: seq<Step>, s: State)
    requires Run(cfg, Init(cfg, now), steps) == Some(s)
    requires AvoidsReserved(Replying(s.wire)) && PeeksRight(s.wire)
    ensures s.handled <= |Replying(s.wire)|
    ensures var sent, answered := AuthCount(Replying(s.wire)), AuthCount(Replying(s.wire)[..s.handled]);
            && answered <= sent <= answered + 1
            && (!s.req.ReauthMark? ==> (s.auth.inFlight <==> sent == answered + 1))
            && (Starting(s.req) ==> !s.auth.inFlight)
  {
    hide Do, Inv, Replying, AuthCount, OutputRight;
    RunExchange(cfg, now, steps, s);
    Bounds(cfg, s);
  }

  /** An exchange is never completed before it is marked, however early the broker replies. */
  lemma MarkedBeforeCompleted(cfg: Config, now: int, steps: seq<Step>, s: State, t: State)
    requires Run(cfg, Init(cfg, now), steps) == Some(s)
    requires AvoidsReserved(Replying(s.wire)) && PeeksRight(s.wire)
    requires DoConsumeReply(s) == Some(t) && t.auth != s.auth
    ensures s.auth.inFlight && !t.auth.inFlight && !Starting(s.req)
  {
    hide Do, Inv, Replying, AuthCount, OutputRight, AvoidsReserved, HandshakeOutcome, AuthenticateOutcome, Get32;
    RunExchange(cfg, now, steps, s);
    Bounds(cfg, s);
    ConsumedIsMarked(cfg, s);
    MarkerAt(Replying(s.wire), s.handled);
  }

  /**
   Without that assumption: whichever request a frame answers, its reply is swallowed exactly when
   the request's key and correlation id are the reserved ones.
   */
  lemma SwallowedIffReserved(cfg: Config, now: int, steps: seq<Step>, s: State, t: State)
    requires Run(cfg, Init(cfg, now), steps) == Some(s) && PeeksRight(s.wire) && DoPopMarker(cfg, s) == Some(t)
    ensures s.handled < |Replying(s.wire)|
    ensures var r := Replying(s.wire)[s.handled];
            t.resp.Consuming? <==> (r.key == 17 && r.corr == 2147483645) || (r.key == 36 && r.corr == 2147483646)
    ensures Replying(s.wire)[s.handled].origin == Proxy ==> t.resp.Consuming?
  {
    hide Do, Replying, MarkersOf, HandlersOf, RawCount, HandlersPaired, MarkersPaired, WellFormed, Answered, Forwarding;
    hide ResponseFrames.HeaderTagsLength;
    RunKeeps(cfg, now, steps, s);
    MarkerFits(cfg, s);
    WellFormedExpected(s.wire, s.handled);
  }
}
