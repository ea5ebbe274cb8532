/**
 What the loops owe each other and the client. Whatever the response loop is done with it has
 understood: after a reply that cannot be forwarded, or that refuses a renewal, nothing more goes to
 the client. And the two loops never wait for one another in a circle: when neither can take a step
 but by failing, every reply has been delivered.
 */
module Delivery {
  import opened Wrappers
  import opened Bytes
  import opened AuthState
  import opened SaslReauth
  import opened Processor
  import opened WireHistory
  import opened ProcessorInvariants
  import opened Exchanges
  import ResponseFrames

  // ---------------------------------------------------------------- replies that were understood

  /** A client's reply can be forwarded, and one to the proxy accepts its request. */
  predicate Understood(cfg: Config, r: Request, reply: seq<byte>) {
    if r.origin == Client then r.kind == Framed ==> Forwarding(cfg, MarkerOf(r), reply).Some?
    else
      && |reply| >= 8
      && (if r.key == 17 then HandshakeOutcome(reply[8..]) else AuthenticateOutcome(reply[8..])).Accepted?
  }

  predicate UnderstoodBefore(cfg: Config, e: seq<Request>, replies: seq<seq<byte>>, n: nat)
    requires n <= |e| && n <= |replies|
  {
    forall i | 0 <= i < n :: Understood(cfg, e[i], replies[i])
  }

  predicate UnderstandingInv(cfg: Config, s: State) {
    var e := Replying(s.wire);
    && s.handled <= |e| && s.handled <= |s.replies| && UnderstoodBefore(cfg, e, s.replies, s.handled)
    && (s.resp.Writing? ==>
          s.handled < |e| && s.handled < |s.replies| && Understood(cfg, e[s.handled], s.replies[s.handled]))
  }

  /** The steps that are not the response loop's. */
  predicate Elsewhere(step: Step) {
    !step.TakeResponseHandler? && !step.ReadReply? && !step.PopMarker? && !step.ConsumeReply? && !step.WritePart?
    && !step.ResponseFails?
  }

  lemma OtherSide(cfg: Config, s: State, step: Step, t: State)
    requires Elsewhere(step) && Do(cfg, s, step) == Some(t)
    ensures t.resp == s.resp && t.handled == s.handled && s.replies <= t.replies
  {
    hide Do;
    if InRenewal(step) {
      RenewalSide(cfg, s, step, t);
    } else {
      RequestSide(cfg, s, step, t);
    }
  }

  predicate InRenewal(step: Step) {
    step.CheckTimeout? || step.CheckReauth? || step.WriteHandshake? || step.WriteAuthenticate? || step.MarkReauth?
    || step.PushReauthMarker? || step.PushReauthHandler? || step.PutRequestToken? || step.RequestFails?
  }

  lemma RenewalSide(cfg: Config, s: State, step: Step, t: State)
    requires InRenewal(step) && Do(cfg, s, step) == Some(t)
    ensures t.resp == s.resp && t.handled == s.handled && s.replies <= t.replies
  {
    hide DoWriteHandshake, DoRequestFails, DoCheckTimeout, DoCheckReauth, DoWriteAuthenticate, DoMarkReauth;
    hide DoPushReauthMarker, DoPushReauthHandler, DoPutRequestToken;
    match step
    case RequestFails(partial) => FailingSide(cfg, s, partial, t);
    case WriteHandshake(token) => BuildingSide(cfg, s, token, t);
    case _ => PushingSide(cfg, s, t);
  }

  lemma PushingSide(cfg: Config, s: State, t: State)
    requires DoCheckTimeout(s) == Some(t) || DoCheckReauth(cfg, s) == Some(t) || DoWriteAuthenticate(s) == Some(t)
             || DoMarkReauth(s) == Some(t) || DoPushReauthMarker(cfg, s) == Some(t)
             || DoPushReauthHandler(cfg, s) == Some(t) || DoPutRequestToken(s) == Some(t)
    ensures t.resp == s.resp && t.handled == s.handled && t.replies == s.replies
  {
    hide NeedsReauth, MarkInFlight;
  }

  lemma FailingSide(cfg: Config, s: State, partial: nat, t: State)
    requires DoRequestFails(cfg, s, partial) == Some(t)
    ensures t.resp == s.resp && t.handled == s.handled && t.replies == s.replies
  {
    hide BuildReauthHandshake, Part;
  }

  lemma BuildingSide(cfg: Config, s: State, token: Option<seq<byte>>, t: State)
    requires DoWriteHandshake(cfg, s, token) == Some(t)
    ensures t.resp == s.resp && t.handled == s.handled && t.replies == s.replies
  {
    hide BuildReauthHandshake, BuildReauthAuthenticate;
  }

  lemma RequestSide(cfg: Config, s: State, step: Step, t: State)
    requires Elsewhere(step) && !InRenewal(step) && Do(cfg, s, step) == Some(t)
    ensures t.resp == s.resp && t.handled == s.handled && s.replies <= t.replies
  {
    hide ParseHead, ParseRawHead, InFlightExpired, NextReadDeadline, CanReply, Answers, Complete, DoWriteHandshake;
    hide DoRequestFails;
  }

  lemma StillUnderstood(cfg: Config, s: State, t: State)
    requires UnderstandingInv(cfg, s)
    requires t.handled == s.handled && s.replies <= t.replies && Replying(s.wire) <= Replying(t.wire)
    requires t.resp.Writing? ==> s.resp.Writing?
    ensures UnderstandingInv(cfg, t)
  {
    hide Understood, Replying;
    var e, f := Replying(s.wire), Replying(t.wire);
    assert forall i | 0 <= i < |e| :: f[i] == e[i];
    assert forall i | 0 <= i < |s.replies| :: t.replies[i] == s.replies[i];
  }

  lemma ReadingUnderstood(cfg: Config, s: State, t: State)
    requires UnderstandingInv(cfg, s) && Inv(cfg, s) && Inv(cfg, t) && DoReadReply(s) == Some(t)
    ensures UnderstandingInv(cfg, t)
  {
    hide Understood, Replying, Inv, DueFor;
    Bounds(cfg, s);
    NotDesynchronised(cfg, t);
    if t.resp.Writing? {
      RawIsClients(cfg, s);
      RawIsRaw(cfg, s);
      RawUnderstood(cfg, Replying(s.wire)[s.handled], s.replies[s.handled]);
    }
  }

  lemma RawUnderstood(cfg: Config, r: Request, reply: seq<byte>)
    requires r.origin == Client && r.kind == Raw
    ensures Understood(cfg, r, reply)
  {
  }

  lemma RawIsRaw(cfg: Config, s: State)
    requires Inv(cfg, s) && s.resp.AwaitReply? && s.read < |s.replies| && s.resp.h == SaslAuthV0ResponseHandler
    ensures s.read < |Replying(s.wire)| && Replying(s.wire)[s.read].kind == Raw
  {
    hide Replying, MarkersOf, HandlersOf, RawCount, HandlersPaired, MarkersPaired, WellFormed, Answered;
    assert s.read < |Replying(s.wire)|;
    HandlerFits(cfg, s);
  }

  lemma PoppingUnderstood(cfg: Config, s: State, t: State)
    requires UnderstandingInv(cfg, s) && Inv(cfg, s) && DoPopMarker(cfg, s) == Some(t)
    requires AvoidsReserved(Replying(s.wire))
    ensures UnderstandingInv(cfg, t)
  {
    hide Replying, Inv, Forwarding, AvoidsReserved, HandshakeOutcome, AuthenticateOutcome;
    hide ResponseFrames.HeaderTagsLength, CanReply;
    Classified(cfg, s, t);
    MarkerFits(cfg, s);
  }

  lemma ConsumingUnderstood(cfg: Config, s: State, t: State)
    requires UnderstandingInv(cfg, s) && Inv(cfg, s) && DoConsumeReply(s) == Some(t)
    requires AvoidsReserved(Replying(s.wire))
    ensures UnderstandingInv(cfg, t)
  {
    hide Replying, Inv, Forwarding, AvoidsReserved, HandshakeOutcome, AuthenticateOutcome, Get32, AuthCount;
    ConsumedIsMarked(cfg, s);
    ProxyKeys(cfg, s);
  }

  lemma ProxyKeys(cfg: Config, s: State)
    requires Inv(cfg, s) && s.handled < |Replying(s.wire)|
    ensures var r := Replying(s.wire)[s.handled]; r.origin == Proxy ==> r.key == 17 || r.key == 36
  {
    hide Replying, MarkersOf, HandlersOf, RawCount, HandlersPaired, MarkersPaired, WellFormed, Answered, Progress;
    WellFormedExpected(s.wire, s.handled);
  }

  lemma WritingUnderstood(cfg: Config, s: State, k: nat, t: State)
    requires UnderstandingInv(cfg, s) && DoWritePart(s, k) == Some(t)
    ensures UnderstandingInv(cfg, t)
  {
    hide Understood, Replying;
  }

  lemma QuietUnderstood(cfg: Config, s: State, t: State)
    requires UnderstandingInv(cfg, s) && (DoTakeResponseHandler(s) == Some(t) || DoResponseFails(s) == Some(t))
    ensures UnderstandingInv(cfg, t)
  {
    hide UnderstandingInv, Replying;
    StillUnderstood(cfg, s, t);
  }

  lemma StepUnderstood(cfg: Config, s: State, step: Step, t: State)
    requires UnderstandingInv(cfg, s) && Inv(cfg, s) && Inv(cfg, t) && Do(cfg, s, step) == Some(t)
    requires AvoidsReserved(Replying(s.wire)) && Replying(s.wire) <= Replying(t.wire)
    ensures UnderstandingInv(cfg, t)
  {
    hide UnderstandingInv, Inv, AvoidsReserved, Replying, DoPopMarker, DoConsumeReply, DoReadReply, DoWritePart;
    hide DoTakeResponseHandler, DoResponseFails, DoServe, DoCheckExpired, DoTakeRequestHandler, DoReadHead;
    hide DoReadRawHead, DoReadTimeout, DoReadBody, DoPushRequestMarker, DoSendPart, DoPushNextHandlers, DoCheckTimeout;
    hide DoCheckReauth, DoWriteHandshake, DoWriteAuthenticate, DoMarkReauth, DoPushReauthMarker, DoPushReauthHandler;
    hide DoPutRequestToken, DoRequestFails;
    match step
    case ReadReply => ReadingUnderstood(cfg, s, t);
    case PopMarker => PoppingUnderstood(cfg, s, t);
    case ConsumeReply => ConsumingUnderstood(cfg, s, t);
    case WritePart(k) => WritingUnderstood(cfg, s, k, t);
    case TakeResponseHandler => QuietUnderstood(cfg, s, t);
    case ResponseFails => QuietUnderstood(cfg, s, t);
    case _ =>
      hide Do;
      OtherSide(cfg, s, step, t);
      StillUnderstood(cfg, s, t);
  }

  /**
   In every run each reply that the response loop is done with was understood: a client's could be
   forwarded, and the proxy's accepted the renewal. The loop does not get past one that is not.
   */
  lemma {:induction false} HandledIsUnderstood(cfg: Config, now: int, steps: seq<Step>, s: State)
    requires Run(cfg, Init(cfg, now), steps) == Some(s)
    requires AvoidsReserved(Replying(s.wire)) && PeeksRight(s.wire)
    ensures UnderstandingInv(cfg, s)
    decreases |steps|
  {
    hide Do, Inv, PeeksRight, Understood;
    RunKeeps(cfg, now, steps, s);
    if steps != [] {
      hide UnderstandingInv, Replying, AvoidsReserved;
      var before := Run(cfg, Init(cfg, now), steps[..|steps| - 1]).value;
      WireOnlyGrows(cfg, before, steps[|steps| - 1], s);
      if s.wire != [] {
        LastReplying(s.wire);
      }
      AvoidingPrefix(Replying(before.wire), Replying(s.wire));
      PeeksRightBefore(before.wire, s.wire);
      HandledIsUnderstood(cfg, now, steps[..|steps| - 1], before);
      RunKeeps(cfg, now, steps[..|steps| - 1], before);
      StepUnderstood(cfg, before, steps[|steps| - 1], s);
    }
  }

  lemma NothingForMisunderstood(cfg: Config, r: Request, reply: seq<byte>)
    requires !Understood(cfg, r, reply)
    ensures DueFor(cfg, r, reply) == []
  {
    hide Forwarding, HandshakeOutcome, AuthenticateOutcome;
  }

  /**
   So a reply that refuses a renewal, or one that cannot be forwarded, is the last that matters: the
   client never gets more than what it was due before it.
   */
  lemma RefusalIsTheEnd(cfg: Config, now: int, steps: seq<Step>, s: State, i: nat)
    requires Run(cfg, Init(cfg, now), steps) == Some(s)
    requires AvoidsReserved(Replying(s.wire)) && PeeksRight(s.wire)
    requires i < |s.replies| && i < |Replying(s.wire)| && !Understood(cfg, Replying(s.wire)[i], s.replies[i])
    ensures s.handled <= i && s.clientOut <= Due(cfg, Replying(s.wire), s.replies, i)
  {
    hide Do, Inv, Replying, Due, AuthRight, PeeksRight, AvoidsReserved, Understood;
    HandledIsUnderstood(cfg, now, steps, s);
    RunExchange(cfg, now, steps, s);
    Bounds(cfg, s);
    NotDesynchronised(cfg, s);
    var e := Replying(s.wire);
    DueGrows(cfg, e, s.replies, s.handled, i);
    if s.read <= i {
      DueGrows(cfg, e, s.replies, s.read, i);
    } else {
      NothingForMisunderstood(cfg, e[i], s.replies[i]);
      EmptyDue(cfg, e, s.replies, i);
    }
    if s.resp.Writing? {
      WritingIsNext(cfg, s);
    }
  }

  lemma EmptyDue(cfg: Config, e: seq<Request>, replies: seq<seq<byte>>, i: nat)
    requires i < |e| && i < |replies| && DueFor(cfg, e[i], replies[i]) == []
    ensures Due(cfg, e, replies, i + 1) == Due(cfg, e, replies, i)
  {
    hide DueFor;
    assert Due(cfg, e, replies, i) + [] == Due(cfg, e, replies, i);
  }

  // ---------------------------------------------------------------- when a step can be taken

  /** The steps of the two loops, but for their failures. */
  predicate OfTheLoops(step: Step) {
    !step.Tick? && !step.ClientSends? && !step.BrokerServes? && !step.RequestFails? && !step.ResponseFails?
  }

  ghost predicate Stuck(cfg: Config, s: State) {
    forall step :: OfTheLoops(step) ==> Do(cfg, s, step).None?
  }

  /** How many requests may be open: as configured, but at least 16. */
  function Open(cfg: Config): nat {
    if cfg.maxOpenRequests < 16 then 16 else cfg.maxOpenRequests
  }

  /** Where the request loop may have to wait, and for what. */
  predicate RequestWaits(cfg: Config, s: State) {
    match s.req
    case Reading(deadline) => ParseHead(cfg, s.unread).None? && (deadline.Some? ==> s.now < deadline.value)
    case ReadingRaw => ParseRawHead(s.unread).None?
    case HaveHead(_, _) => |s.markers| >= Open(cfg)
    case Sending(r, sent, left) => sent >= |r.bytes| && (left <= 0 || s.unread == [])
    case Sent(r) => r.wantsReply && s.tokens == [] && |s.handlers| >= Open(cfg) + 2
    case RequestStopped => true
    case _ => false
  }

  /** And the response loop. */
  predicate ResponseWaits(s: State) {
    match s.resp
    case TakeHandler => s.handlers == []
    case AwaitReply(_) => s.read >= |s.replies|
    case HaveHeader => s.markers == []
    case Consuming => |Current(s)| < 8
    case Writing(_) => false
    case ResponseStopped | Desynchronised => true
  }

  /** Otherwise it can go on. */
  lemma RequestCanGoOn(cfg: Config, s: State) returns (step: Step)
    requires !RequestWaits(cfg, s)
    ensures OfTheLoops(step) && Do(cfg, s, step).Some?
  {
    match s.req
    case Top => step := TopCanGoOn(cfg, s);
    case Begin => step := TopCanGoOn(cfg, s);
    case Reading(_) => step := ReadingCanGoOn(cfg, s);
    case ReadingRaw => step := ReadingCanGoOn(cfg, s);
    case HaveHead(_, _) => step := SendingCanGoOn(cfg, s);
    case Sending(_, _, _) => step := SendingCanGoOn(cfg, s);
    case Sent(_) => step := SendingCanGoOn(cfg, s);
    case TimedOut => step := TopCanGoOn(cfg, s);
    case ReauthDue => step := TopCanGoOn(cfg, s);
    case ReauthBuild(_) => step := RenewalCanGoOn(cfg, s);
    case ReauthAuthenticate(_, _) => step := RenewalCanGoOn(cfg, s);
    case ReauthMark(_) => step := RenewalCanGoOn(cfg, s);
    case PushMarker(_) => step := RenewalCanGoOn(cfg, s);
    case PushHandler(_) => step := RenewalCanGoOn(cfg, s);
    case PutToken => step := TopCanGoOn(cfg, s);
    case RequestStopped => step := CheckExpired;
  }

  lemma TopCanGoOn(cfg: Config, s: State) returns (step: Step)
    requires s.req.Top? || s.req.Begin? || s.req.TimedOut? || s.req.ReauthDue? || s.req.PutToken?
    ensures OfTheLoops(step) && Do(cfg, s, step).Some?
  {
    hide NeedsReauth, InFlightExpired, NextReadDeadline;
    step := if s.req.Top? then CheckExpired else if s.req.Begin? then TakeRequestHandler
            else if s.req.TimedOut? then CheckTimeout else if s.req.ReauthDue? then CheckReauth else PutRequestToken;
  }

  lemma ReadingCanGoOn(cfg: Config, s: State) returns (step: Step)
    requires (s.req.Reading? || s.req.ReadingRaw?) && !RequestWaits(cfg, s)
    ensures OfTheLoops(step) && Do(cfg, s, step).Some?
  {
    hide ParseHead, ParseRawHead;
    step := if s.req.ReadingRaw? then ReadRawHead
            else if ParseHead(cfg, s.unread).Some? then ReadHead else ReadTimeout(0);
  }

  lemma SendingCanGoOn(cfg: Config, s: State) returns (step: Step)
    requires (s.req.HaveHead? || s.req.Sending? || s.req.Sent?) && !RequestWaits(cfg, s)
    ensures OfTheLoops(step) && Do(cfg, s, step).Some?
  {
    hide Do;
    match s.req
    case HaveHead(_, _) => step := PushingCanGoOn(cfg, s);
    case Sending(_, _, _) => step := PartsCanGoOn(cfg, s);
    case Sent(_) => step := PushingCanGoOn(cfg, s);
  }

  lemma PushingCanGoOn(cfg: Config, s: State) returns (step: Step)
    requires (s.req.HaveHead? || s.req.Sent?) && !RequestWaits(cfg, s)
    ensures OfTheLoops(step) && Do(cfg, s, step).Some?
  {
    step := if s.req.HaveHead? then PushRequestMarker else PushNextHandlers;
  }

  lemma PartsCanGoOn(cfg: Config, s: State) returns (step: Step)
    requires s.req.Sending? && !RequestWaits(cfg, s)
    ensures OfTheLoops(step) && Do(cfg, s, step).Some?
  {
    hide Complete;
    step := if s.req.sent < |s.req.r.bytes| then SendPart(|s.req.r.bytes| - s.req.sent) else ReadBody(1);
  }

  lemma RenewalCanGoOn(cfg: Config, s: State) returns (step: Step)
    requires s.req.ReauthBuild? || s.req.ReauthAuthenticate? || s.req.ReauthMark? || s.req.PushMarker?
             || s.req.PushHandler?
    ensures OfTheLoops(step) && Do(cfg, s, step).Some?
  {
    hide BuildReauthHandshake, BuildReauthAuthenticate, MarkInFlight;
    step := match s.req
            case ReauthBuild(_) => WriteHandshake(None)
            case ReauthAuthenticate(_, _) => WriteAuthenticate
            case ReauthMark(_) => MarkReauth
            case PushMarker(_) => PushReauthMarker
            case PushHandler(_) => PushReauthHandler;
  }

  lemma ResponseCanGoOn(cfg: Config, s: State) returns (step: Step)
    requires !ResponseWaits(s)
    ensures OfTheLoops(step) && Do(cfg, s, step).Some?
  {
    hide HandshakeOutcome, AuthenticateOutcome, CompleteReauth, AfterHeader, Get32;
    match s.resp
    case TakeHandler => step := TakeResponseHandler;
    case AwaitReply(_) => step := ReadReply;
    case HaveHeader => step := PopMarker;
    case Consuming => step := ConsumeReply;
    case Writing(rest) => step := WritePart(|rest|);
    case ResponseStopped => step := PopMarker;
    case Desynchronised => step := PopMarker;
  }

  /** Neither loop waits for anything else. */
  lemma LoopsWaitFor(cfg: Config, s: State)
    requires Stuck(cfg, s)
    ensures RequestWaits(cfg, s) && ResponseWaits(s)
  {
    hide Do, RequestWaits, ResponseWaits;
    if !RequestWaits(cfg, s) {
      var step := RequestCanGoOn(cfg, s);
    }
    if !ResponseWaits(s) {
      var step := ResponseCanGoOn(cfg, s);
    }
  }

  // ---------------------------------------------------------------- no circle of waiting

  /** The response loop waits for the broker alone, and then everything that was expected has come. */
  lemma ResponsesAreDone(cfg: Config, s: State)
    requires Inv(cfg, s) && s.served == |s.wire| && !s.req.RequestStopped? && !s.resp.ResponseStopped?
    requires RequestWaits(cfg, s) && ResponseWaits(s)
    ensures s.resp.AwaitReply? && s.handled == s.read == |s.replies| == |Replying(s.wire)|
  {
    hide Replying, MarkersOf, HandlersOf, RawCount, CanReply, WellFormed, ParseHead, ParseRawHead, Window;
    hide ResponseFrames.HeaderTagsLength;
    var e := Replying(s.wire);
    assert s.wire[..|s.wire|] == s.wire;
    match s.resp
    case AwaitReply(_) =>
    case TakeHandler =>
    case HaveHeader => MarkerAt(e, s.handled);
    case Consuming =>
      assert CanReply(cfg, e[s.handled], s.replies[s.handled]);
      FramedReplies(cfg, e[s.handled], s.replies[s.handled]);
    case Desynchronised =>
    case Writing(_) =>
  }

  lemma FramedReplies(cfg: Config, r: Request, reply: seq<byte>)
    requires r.kind == Framed && CanReply(cfg, r, reply)
    ensures |reply| >= 8
  {
    hide Get32, ResponseFrames.HeaderTagsLength;
  }

  lemma RequestsAreDone(cfg: Config, s: State)
    requires Inv(cfg, s) && s.resp.AwaitReply? && s.read == |Replying(s.wire)|
    requires RequestWaits(cfg, s) && !s.req.RequestStopped?
    ensures s.req.Reading? || s.req.ReadingRaw? || s.req.Sending?
  {
    hide Replying, HandlersOf, RawCount, CanReply, WellFormed, ParseHead, ParseRawHead, Window, Answered;
    hide ResponseFrames.HeaderTagsLength;
    var e := Replying(s.wire);
    assert e[..|e|] == e;
  }

  /**
   The loops never block each other. When the broker has answered all there is on the wire, both
   loops are still there, and neither can take a step but by failing, then the client has got every
   reply it is due, and the request loop waits for the client's bytes, or for the time of a renewal.
   */
  lemma NothingIsLeft(cfg: Config, now: int, steps: seq<Step>, s: State)
    requires Run(cfg, Init(cfg, now), steps) == Some(s)
    requires AvoidsReserved(Replying(s.wire)) && PeeksRight(s.wire)
    requires s.served == |s.wire| && !s.req.RequestStopped? && !s.resp.ResponseStopped? && Stuck(cfg, s)
    ensures s.handled == |s.replies| == |Replying(s.wire)|
    ensures s.clientOut == Due(cfg, Replying(s.wire), s.replies, |s.replies|)
    ensures match s.req
            case Reading(deadline) => ParseHead(cfg, s.unread).None? && (deadline.Some? ==> s.now < deadline.value)
            case ReadingRaw => ParseRawHead(s.unread).None?
            case Sending(r, sent, left) => sent >= |r.bytes| && (left <= 0 || s.unread == [])
            case _ => false
  {
    hide Do, Inv, Replying, Due, AuthRight, PeeksRight, AvoidsReserved, Stuck, ParseHead, ParseRawHead;
    RunKeeps(cfg, now, steps, s);
    RunExchange(cfg, now, steps, s);
    LoopsWaitFor(cfg, s);
    ResponsesAreDone(cfg, s);
    RequestsAreDone(cfg, s);
  }

  // ---------------------------------------------------------------- renewals are not forced on anybody

  predicate Renewing(req: RequestPc) {
    req.ReauthBuild? || req.ReauthAuthenticate? || req.ReauthMark? || req.PushMarker? || req.PushHandler?
  }

  predicate AllClients(w: seq<Request>) {
    forall i | 0 <= i < |w| :: w[i].origin == Client
  }

  predicate ClientsOnly(s: State) {
    && !Renewing(s.req) && AllClients(s.wire)
    && match s.req
       case HaveHead(r, _) => r.origin == Client
       case Sending(r, _, _) => r.origin == Client
       case _ => true
  }

  lemma ClientsStep(cfg: Config, s: State, step: Step, t: State)
    requires !cfg.reauthEnabled && ClientsOnly(s) && Do(cfg, s, step) == Some(t)
    ensures ClientsOnly(t)
  {
    hide AllClients, ParseHead, ParseRawHead, NeedsReauth, InFlightExpired, NextReadDeadline, CanReply, Answers;
    hide BuildReauthHandshake, BuildReauthAuthenticate, AfterHeader, HandshakeOutcome, AuthenticateOutcome, Complete;
    hide CompleteReauth, Part;
    match step
    case SendPart(k) => ClientFinishes(cfg, s, k, t);
    case ReadHead => ClientHeads(cfg, s, t);
    case ReadRawHead => ClientHeads(cfg, s, t);
    case _ =>
  }

  lemma ClientHeads(cfg: Config, s: State, t: State)
    requires ClientsOnly(s) && (DoReadHead(cfg, s) == Some(t) || DoReadRawHead(s) == Some(t))
    ensures ClientsOnly(t)
  {
    hide AllClients;
    ParsedHead(cfg, s.unread);
    hide ParseHead, ParseRawHead;
  }

  lemma ClientFinishes(cfg: Config, s: State, k: nat, t: State)
    requires ClientsOnly(s) && DoSendPart(s, k) == Some(t)
    ensures ClientsOnly(t)
  {
  }

  /** With renewals switched off the proxy never sends a request of its own. */
  lemma {:induction false} NoRenewalUnlessEnabled(cfg: Config, now: int, steps: seq<Step>, s: State)
    requires Run(cfg, Init(cfg, now), steps) == Some(s) && !cfg.reauthEnabled
    ensures AllClients(s.wire) && !Renewing(s.req)
    ensures ClientsOnly(s)
    decreases |steps|
  {
    hide Do;
    if steps != [] {
      hide ClientsOnly, AllClients;
      var before := Run(cfg, Init(cfg, now), steps[..|steps| - 1]).value;
      NoRenewalUnlessEnabled(cfg, now, steps[..|steps| - 1], before);
      ClientsStep(cfg, before, steps[|steps| - 1], s);
      SurelyClients(s);
    }
  }

  lemma SurelyClients(s: State)
    requires ClientsOnly(s)
    ensures AllClients(s.wire) && !Renewing(s.req)
  {
  }
}
