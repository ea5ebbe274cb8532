/**
 What the broker receives in every run: the client's own stream with the proxy's exchanges
 inserted between requests, each a handshake directly followed by an authenticate.
 */
module BrokerStream {
  import opened Wrappers
  import opened Bytes
  import opened SaslReauth
  import opened Processor
  import opened WireHistory
  import opened ProcessorInvariants
  import opened ProcessorPairing

  // ---------------------------------------------------------------- the broker's SASL state (KIP-368)

  /** `Armed` between the proxy's handshake and its authenticate; `Violated` once either comes out of place. */
  datatype Phase = Ready | Armed | Violated

  function Accept(p: Phase, r: Request): Phase {
    match p
    case Violated => Violated
    case Armed => if IsProxyAuthenticate(r) then Ready else Violated
    case Ready => if r.origin == Client then Ready else if IsProxyAuthenticate(r) then Violated else Armed
  }

  function PhaseAfter(w: seq<Request>): Phase {
    if w == [] then Ready else Accept(PhaseAfter(w[..|w| - 1]), w[|w| - 1])
  }

  // ---------------------------------------------------------------- bytes

  function BytesOf(w: seq<Request>): seq<byte> {
    if w == [] then [] else BytesOf(w[..|w| - 1]) + w[|w| - 1].bytes
  }

  /** The requests that are not the proxy's own. */
  function Erased(w: seq<Request>): seq<Request> {
    if w == [] then []
    else if w[|w| - 1].origin == Client then Erased(w[..|w| - 1]) + [w[|w| - 1]]
    else Erased(w[..|w| - 1])
  }

  /** All that has been written to the broker, the last request possibly in part. */
  function Received(s: State): seq<Request> {
    if s.cut.Some? then s.wire + [s.cut.value]
    else if s.req.Sending? then s.wire + [Part(s.req.r, s.req.sent)]
    else s.wire
  }

  function ClientSent(steps: seq<Step>): seq<byte> {
    if steps == [] then []
    else
      var last := steps[|steps| - 1];
      ClientSent(steps[..|steps| - 1]) + if last.ClientSends? then last.bytes else []
  }

  /** Header bytes thrown away by read timeouts. */
  function Lost(steps: seq<Step>): nat {
    if steps == [] then 0
    else
      var last := steps[|steps| - 1];
      Lost(steps[..|steps| - 1]) + if last.ReadTimeout? then last.partial else 0
  }

  lemma MoreReceived(w: seq<Request>, r: Request)
    ensures PhaseAfter(w + [r]) == Accept(PhaseAfter(w), r)
    ensures BytesOf(Erased(w + [r])) == BytesOf(Erased(w)) + if r.origin == Client then r.bytes else []
  {
    assert (w + [r])[..|w|] == w;
    if r.origin == Client {
      assert (Erased(w) + [r])[..|Erased(w)|] == Erased(w);
    }
  }

  // ---------------------------------------------------------------- the invariant

  /** What has been read from the client and is not on the wire yet. */
  function InHand(req: RequestPc): seq<byte> {
    match req
    case HaveHead(r, _) => r.bytes
    case Sending(r, _, _) => r.bytes
    case _ => []
  }

  predicate PhaseRight(s: State) {
    && (!s.req.RequestStopped? ==>
        s.cut.None? && PhaseAfter(s.wire) == if s.req.ReauthAuthenticate? then Armed else Ready)
    && PhaseAfter(s.wire) != Violated
    && PhaseAfter(Received(s)) != Violated
  }

  predicate BytesRight(s: State, sent: seq<byte>, lost: nat) {
    && s.consumed + s.unread == sent
    && (!s.req.RequestStopped? ==>
          && |s.consumed| == |BytesOf(Erased(s.wire))| + |InHand(s.req)| + lost
          && (lost == 0 ==> s.consumed == BytesOf(Erased(s.wire)) + InHand(s.req)))
    && (lost == 0 ==> BytesOf(Erased(Received(s))) <= s.consumed)
  }

  predicate StreamInv(s: State, sent: seq<byte>, lost: nat) {
    PhaseRight(s) && BytesRight(s, sent, lost)
  }

  lemma QuietStream(s: State, t: State, sent: seq<byte>, lost: nat)
    requires StreamInv(s, sent, lost)
    requires t.wire == s.wire && t.consumed == s.consumed && t.unread == s.unread && t.cut == s.cut
    requires t.req == s.req
             || (!s.req.RequestStopped? && InHand(t.req) == InHand(s.req) && !t.req.Sending? && !s.req.Sending?
                                && t.req.ReauthAuthenticate? == s.req.ReauthAuthenticate?)
             || (!s.req.RequestStopped? && !s.req.Sending? && t.req.RequestStopped?)
    ensures StreamInv(t, sent, lost)
  {
    hide PhaseAfter, BytesOf, Erased, Accept;
  }

  lemma HeadsStream(cfg: Config, s: State, t: State, sent: seq<byte>, lost: nat)
    requires StreamInv(s, sent, lost)
    requires DoReadHead(cfg, s) == Some(t) || DoReadRawHead(s) == Some(t)
    ensures StreamInv(t, sent, lost)
  {
    hide PhaseAfter, BytesOf, Erased, ParseHead, ParseRawHead;
    ParsedHead(cfg, s.unread);
    var r := if s.req.ReadingRaw? then ParseRawHead(s.unread).value.r else ParseHead(cfg, s.unread).value.r;
    Consumed(s.consumed, s.unread, |r.bytes|);
    MoreReceived(s.wire, Part(r, 0));
    assert BytesOf(Erased(s.wire)) + [] == BytesOf(Erased(s.wire));
    assert s.consumed + [] == s.consumed;
  }

  lemma Consumed(a: seq<byte>, b: seq<byte>, n: nat)
    requires n <= |b|
    ensures (a + b[..n]) + b[n..] == a + b
  {
  }

  lemma BodyStream(s: State, k: nat, t: State, sent: seq<byte>, lost: nat)
    requires Shape(s) && StreamInv(s, sent, lost) && DoReadBody(s, k) == Some(t)
    ensures StreamInv(t, sent, lost)
  {
    hide PhaseAfter, BytesOf, Erased, Replying, WellFormed;
    var r, q := s.req.r, t.req.r;
    Consumed(s.consumed, s.unread, k);
    assert q.bytes[..s.req.sent] == r.bytes[..s.req.sent];
    MoreReceived(s.wire, Part(r, s.req.sent));
    MoreReceived(s.wire, Part(q, s.req.sent));
    Assoc(BytesOf(Erased(s.wire)), r.bytes, s.unread[..k]);
  }

  lemma Assoc<T>(a: seq<T>, b: seq<T>, c: seq<T>)
    ensures (a + b) + c == a + (b + c)
  {
  }

  lemma TimeoutStream(s: State, partial: nat, t: State, sent: seq<byte>, lost: nat)
    requires StreamInv(s, sent, lost) && DoReadTimeout(s, partial) == Some(t)
    ensures StreamInv(t, sent, lost + partial)
  {
    hide PhaseAfter, BytesOf, Erased;
    Consumed(s.consumed, s.unread, partial);
    if lost + partial == 0 {
      assert s.consumed + s.unread[..partial] == s.consumed;
    }
  }

  lemma SendsStream(s: State, k: nat, t: State, sent: seq<byte>, lost: nat)
    requires Shape(s) && StreamInv(s, sent, lost) && DoSendPart(s, k) == Some(t)
    ensures StreamInv(t, sent, lost)
  {
    hide PhaseAfter, BytesOf, Erased, Replying, WellFormed;
    var r := s.req.r;
    MoreReceived(s.wire, Complete(r));
    MoreReceived(s.wire, Part(r, s.req.sent + k));
    if t.req.Sent? {
      assert BytesOf(Erased(s.wire)) + r.bytes + [] == BytesOf(Erased(s.wire)) + r.bytes;
    } else {
      PrefixAfter(BytesOf(Erased(s.wire)), r.bytes, s.req.sent + k);
    }
  }

  lemma PrefixAfter<T>(a: seq<T>, b: seq<T>, n: nat)
    requires n <= |b|
    ensures a + b[..n] <= a + b
  {
  }

  lemma PushesStream(cfg: Config, s: State, t: State, sent: seq<byte>, lost: nat)
    requires Shape(s) && StreamInv(s, sent, lost) && DoPushRequestMarker(cfg, s) == Some(t)
    ensures StreamInv(t, sent, lost)
  {
    hide PhaseAfter, BytesOf, Erased, Replying, WellFormed;
    MoreReceived(s.wire, Part(s.req.r, 0));
    assert BytesOf(Erased(s.wire)) + [] == BytesOf(Erased(s.wire));
  }

  lemma ReauthStream(cfg: Config, s: State, token: Option<seq<byte>>, t: State, sent: seq<byte>, lost: nat)
    requires StreamInv(s, sent, lost)
    requires DoWriteHandshake(cfg, s, token) == Some(t) || DoWriteAuthenticate(s) == Some(t)
    ensures StreamInv(t, sent, lost)
  {
    hide PhaseAfter, BytesOf, Erased, BuildReauthHandshake, BuildReauthAuthenticate;
    if t.wire != s.wire {
      var r := if s.req.ReauthBuild?
               then HandshakeRequest(BuildReauthHandshake(cfg.clientId).value)
               else AuthenticateRequest(s.req.bytes);
      MoreReceived(s.wire, r);
      assert BytesOf(Erased(s.wire)) + [] == BytesOf(Erased(s.wire));
    } else {
      QuietStream(s, t, sent, lost);
    }
  }

  lemma FailsStream(cfg: Config, s: State, partial: nat, t: State, sent: seq<byte>, lost: nat)
    requires Shape(s) && StreamInv(s, sent, lost) && DoRequestFails(cfg, s, partial) == Some(t)
    ensures StreamInv(t, sent, lost)
  {
    hide PhaseAfter, BytesOf, Erased, BuildReauthHandshake, Replying, WellFormed;
    var before := BytesOf(Erased(s.wire));
    if t.cut.Some? {
      MoreReceived(s.wire, t.cut.value);
      assert before + [] == before;
      if s.req.Sending? {
        PrefixAfter(before, s.req.r.bytes, s.req.sent);
      }
    } else if s.req.Reading? || s.req.ReadingRaw? {
      Consumed(s.consumed, s.unread, partial);
      PrefixAfter(s.consumed, s.unread, partial);
    } else {
      QuietStream(s, t, sent, lost);
    }
  }

  lemma StreamStep(cfg: Config, s: State, step: Step, t: State, sent: seq<byte>, lost: nat)
    requires Shape(s) && StreamInv(s, sent, lost) && Do(cfg, s, step) == Some(t)
    ensures StreamInv(t, sent + (if step.ClientSends? then step.bytes else []),
                      lost + (if step.ReadTimeout? then step.partial else 0))
  {
    hide Shape, PhaseAfter, BytesOf, Erased;
    hide DoServe, DoCheckExpired, DoTakeRequestHandler, DoReadHead, DoReadRawHead, DoReadTimeout, DoReadBody;
    hide DoPushRequestMarker, DoSendPart, DoPushNextHandlers, DoCheckTimeout, DoCheckReauth, DoWriteHandshake;
    hide DoWriteAuthenticate, DoMarkReauth, DoPushReauthMarker, DoPushReauthHandler, DoPutRequestToken, DoRequestFails;
    hide DoTakeResponseHandler, DoReadReply, DoPopMarker, DoConsumeReply, DoWritePart, DoResponseFails;
    assert sent + [] == sent;
    match step
    case ClientSends(bytes) => Assoc(s.consumed, s.unread, bytes);
    case ReadHead => HeadsStream(cfg, s, t, sent, lost);
    case ReadRawHead => HeadsStream(cfg, s, t, sent, lost);
    case ReadBody(k) => BodyStream(s, k, t, sent, lost);
    case ReadTimeout(partial) => TimeoutStream(s, partial, t, sent, lost);
    case PushRequestMarker => PushesStream(cfg, s, t, sent, lost);
    case SendPart(k) => SendsStream(s, k, t, sent, lost);
    case WriteHandshake(token) => ReauthStream(cfg, s, token, t, sent, lost);
    case WriteAuthenticate => ReauthStream(cfg, s, None, t, sent, lost);
    case RequestFails(partial) => FailsStream(cfg, s, partial, t, sent, lost);
    case Tick(_) =>
    case BrokerServes(reply) => BrokerElsewhere(cfg, s, reply, t, sent, lost);
    case WritePart(k) => ResponsesElsewhere(cfg, s, k, t, sent, lost);
    case TakeResponseHandler => ResponsesElsewhere(cfg, s, 0, t, sent, lost);
    case ReadReply => ResponsesElsewhere(cfg, s, 0, t, sent, lost);
    case PopMarker => ResponsesElsewhere(cfg, s, 0, t, sent, lost);
    case ConsumeReply => ResponsesElsewhere(cfg, s, 0, t, sent, lost);
    case ResponseFails => ResponsesElsewhere(cfg, s, 0, t, sent, lost);
    case _ => RequestsElsewhere(cfg, s, t, sent, lost);
  }

  lemma BrokerElsewhere(cfg: Config, s: State, reply: seq<byte>, t: State, sent: seq<byte>, lost: nat)
    requires StreamInv(s, sent, lost) && DoServe(cfg, s, reply) == Some(t)
    ensures StreamInv(t, sent, lost)
  {
    hide StreamInv, CanReply, Answers;
    QuietStream(s, t, sent, lost);
  }

  lemma ResponsesElsewhere(cfg: Config, s: State, k: nat, t: State, sent: seq<byte>, lost: nat)
    requires StreamInv(s, sent, lost)
    requires DoTakeResponseHandler(s) == Some(t) || DoReadReply(s) == Some(t) || DoPopMarker(cfg, s) == Some(t)
             || DoConsumeReply(s) == Some(t) || DoWritePart(s, k) == Some(t) || DoResponseFails(s) == Some(t)
    ensures StreamInv(t, sent, lost)
  {
    hide StreamInv, AfterHeader, HandshakeOutcome, AuthenticateOutcome, Get32;
    QuietStream(s, t, sent, lost);
  }

  /** The steps of the request loop that neither read from the client nor write to the broker. */
  lemma RequestsElsewhere(cfg: Config, s: State, t: State, sent: seq<byte>, lost: nat)
    requires StreamInv(s, sent, lost)
    requires DoCheckExpired(s) == Some(t) || DoTakeRequestHandler(s) == Some(t) || DoPushNextHandlers(cfg, s) == Some(t)
             || DoCheckTimeout(s) == Some(t) || DoCheckReauth(cfg, s) == Some(t) || DoMarkReauth(s) == Some(t)
             || DoPushReauthMarker(cfg, s) == Some(t) || DoPushReauthHandler(cfg, s) == Some(t)
                || DoPutRequestToken(s) == Some(t)
    ensures StreamInv(t, sent, lost)
  {
    hide StreamInv, AuthState.NeedsReauth, AuthState.MarkInFlight;
    hide AuthState.InFlightExpired, AuthState.NextReadDeadline;
    QuietStream(s, t, sent, lost);
  }

  lemma {:induction false} StreamRuns(cfg: Config, now: int, steps: seq<Step>, s: State)
    requires Run(cfg, Init(cfg, now), steps) == Some(s)
    ensures StreamInv(s, ClientSent(steps), Lost(steps))
    decreases |steps|
  {
    hide Do, Shape;
    if steps != [] {
      hide StreamInv;
      var before := Run(cfg, Init(cfg, now), steps[..|steps| - 1]).value;
      StreamRuns(cfg, now, steps[..|steps| - 1], before);
      RunShape(cfg, now, steps[..|steps| - 1], before);
      StreamStep(cfg, before, steps[|steps| - 1], s, ClientSent(steps[..|steps| - 1]), Lost(steps[..|steps| - 1]));
    }
  }

  // ---------------------------------------------------------------- theorems

  /**
   In every run the broker sees the proxy's handshake directly followed by its authenticate,
   with no client request between them, and never an authenticate alone, even in a write that
   fails half-way.
   */
  lemma ExchangesAreWhole(cfg: Config, now: int, steps: seq<Step>, s: State)
    requires Run(cfg, Init(cfg, now), steps) == Some(s)
    ensures PhaseAfter(Received(s)) != Violated
    ensures AtBoundary(s.req) ==> PhaseAfter(Received(s)) == Ready && Received(s) == s.wire
  {
    hide Do, PhaseAfter, BytesRight;
    StreamRuns(cfg, now, steps, s);
  }

  /** With the proxy's requests erased, what the broker has received is what the client has sent, as far as it goes. */
  lemma ErasingGivesClientStream(cfg: Config, now: int, steps: seq<Step>, s: State)
    requires Run(cfg, Init(cfg, now), steps) == Some(s)
    requires Lost(steps) == 0
    ensures BytesOf(Erased(Received(s))) <= ClientSent(steps)
  {
    hide Do, PhaseRight, BytesOf, Erased, ClientSent, Lost;
    StreamRuns(cfg, now, steps, s);
    assert s.consumed <= ClientSent(steps);
  }

  /** Between requests nothing is missing exactly when no read timeout threw away part of a header. */
  lemma NothingMissingIffNothingLost(cfg: Config, now: int, steps: seq<Step>, s: State)
    requires Run(cfg, Init(cfg, now), steps) == Some(s)
    requires AtBoundary(s.req)
    ensures BytesOf(Erased(s.wire)) + s.unread == ClientSent(steps) <==> Lost(steps) == 0
  {
    hide Do, PhaseRight, BytesOf, Erased, ClientSent, Lost;
    StreamRuns(cfg, now, steps, s);
    var client := BytesOf(Erased(s.wire));
    assert client + [] == client;
    assert |s.consumed| == |client| + Lost(steps);
  }

  /**
   It can happen: a client slow enough to send only a part of a header before the session is due loses
   that part, of up to seven bytes.
   */
  lemma HeaderBytesCanBeLost(cfg: Config, now: int, head: seq<byte>) returns (steps: seq<Step>, s: State)
    requires cfg.sessionLifetimeMs > 0 && 1 <= |head| <= 7
    ensures Run(cfg, Init(cfg, now), steps) == Some(s)
    ensures AtBoundary(s.req) && ClientSent(steps) == head && s.wire == [] && s.unread == []
    ensures BytesOf(Erased(s.wire)) + s.unread != ClientSent(steps)
  {
    hide Lost, ClientSent, Run, ParseHead, BytesOf, Erased;
    Start(cfg, now);
    var wait := AuthState.Scale(cfg.sessionLifetimeMs * AuthState.MILLISECOND);
    var s0 := Init(cfg, now);
    var s1 := s0.(unread := s0.unread + head);
    var steps1 := RunMore(cfg, s0, [], s0, ClientSends(head), s1);
    var s2 := s1.(req := Begin);
    var steps2 := RunMore(cfg, s0, steps1, s1, CheckExpired, s2);
    var s3 := s2.(tokens := s2.tokens[1..], req := Reading(Some(now + wait)));
    var steps3 := RunMore(cfg, s0, steps2, s2, TakeRequestHandler, s3);
    var s4 := s3.(now := now + wait);
    var steps4 := RunMore(cfg, s0, steps3, s3, Tick(wait), s4);
    s := s4.(unread := s4.unread[|head|..], consumed := s4.consumed + s4.unread[..|head|], req := TimedOut);
    steps := RunMore(cfg, s0, steps4, s4, ReadTimeout(|head|), s);
    assert [] + head + [] + [] + [] + [] == head;
    NothingMissingIffNothingLost(cfg, now, steps, s);
  }

  lemma Start(cfg: Config, now: int)
    ensures Run(cfg, Init(cfg, now), []) == Some(Init(cfg, now)) && ClientSent([]) == [] && Lost([]) == 0
  {
    hide Do;
  }

  lemma RunMore(cfg: Config, s0: State, before: seq<Step>, s: State, step: Step, t: State) returns (steps: seq<Step>)
    requires Run(cfg, s0, before) == Some(s) && Do(cfg, s, step) == Some(t)
    ensures Run(cfg, s0, steps) == Some(t) && steps == before + [step]
    ensures Lost(steps) == Lost(before) + if step.ReadTimeout? then step.partial else 0
    ensures ClientSent(steps) == ClientSent(before) + if step.ClientSends? then step.bytes else []
  {
    hide Do;
    steps := before + [step];
    assert steps[..|before|] == before;
  }
}
