/**
 Why a connection ends. Besides the failures of reads, writes and waits, which may come at any time,
 there are few reasons for either loop to stop, and a loop that has one does.
 */
module Endings {
  import opened Wrappers
  import opened Bytes
  import opened AuthState
  import opened SaslReauth
  import opened Processor
  import opened WireHistory
  import opened ProcessorInvariants
  import opened Exchanges
  import opened Delivery
  import ResponseFrames

  // ---------------------------------------------------------------- the request loop

  /**
   An exchange has not been answered in time, its requests cannot be built, or its replies find no
   room in the channels.
   */
  predicate EndsRequests(cfg: Config, s: State, step: Step) {
    match step
    case RequestFails(_) => true
    case CheckExpired =>
      s.auth.inFlight && s.auth.inFlightDeadline.Some? && s.now > s.auth.inFlightDeadline.value
    case WriteHandshake(token) =>
      token.None? || |cfg.clientId| > 32767 || 14 + |cfg.clientId| + |token.value| > 104857600
    case PushReauthMarker => |s.markers| >= Open(cfg)
    case PushReauthHandler => |s.handlers| >= Open(cfg) + 2
    case _ => false
  }

  /** In every run the request loop is stopped by a step exactly if it is one of those. */
  lemma RequestLoopEnds(cfg: Config, now: int, steps: seq<Step>, s: State, step: Step, t: State)
    requires Run(cfg, Init(cfg, now), steps) == Some(s) && Do(cfg, s, step) == Some(t)
    requires !s.req.RequestStopped?
    ensures t.req.RequestStopped? <==> EndsRequests(cfg, s, step)
  {
    hide Run, Do, WellFormed, PlaceRight, EndsRequests;
    RunShape(cfg, now, steps, s);
    if step.RequestFails? || step.CheckExpired? || step.WriteHandshake? {
      EndsOrFails(cfg, s, step, t);
    } else if InRenewal(step) {
      EndsInRenewal(cfg, s, step, t);
    } else if Elsewhere(step) {
      EndsByTurn(cfg, s, step, t);
    } else {
      OtherLoop(cfg, s, step, t);
    }
  }

  lemma EndsOrFails(cfg: Config, s: State, step: Step, t: State)
    requires step.RequestFails? || step.CheckExpired? || step.WriteHandshake?
    requires Do(cfg, s, step) == Some(t)
    ensures t.req.RequestStopped? <==> EndsRequests(cfg, s, step)
  {
    hide Put16, Put32, Part;
  }

  lemma EndsInRenewal(cfg: Config, s: State, step: Step, t: State)
    requires InRenewal(step) && !step.RequestFails? && !step.WriteHandshake?
    requires Do(cfg, s, step) == Some(t) && TurnsRight(s) && !s.req.RequestStopped?
    ensures t.req.RequestStopped? <==> EndsRequests(cfg, s, step)
  {
    if step.PushReauthMarker? || step.PushReauthHandler? {
      EndsByChannel(cfg, s, step, t);
    } else {
      hide DoWriteHandshake, DoRequestFails, DoCheckTimeout, DoCheckReauth, DoWriteAuthenticate, DoMarkReauth;
      hide DoPushReauthMarker, DoPushReauthHandler, DoPutRequestToken, TurnsRight;
      Renews(cfg, s, t);
    }
  }

  lemma EndsByChannel(cfg: Config, s: State, step: Step, t: State)
    requires step.PushReauthMarker? || step.PushReauthHandler?
    requires Do(cfg, s, step) == Some(t)
    ensures t.req.RequestStopped? <==> EndsRequests(cfg, s, step)
  {
  }

  lemma Renews(cfg: Config, s: State, t: State)
    requires TurnsRight(s)
    requires DoCheckTimeout(s) == Some(t) || DoCheckReauth(cfg, s) == Some(t) || DoWriteAuthenticate(s) == Some(t)
             || DoMarkReauth(s) == Some(t) || DoPutRequestToken(s) == Some(t)
    ensures !t.req.RequestStopped?
  {
    hide NeedsReauth, MarkInFlight, Replying;
  }

  lemma EndsByTurn(cfg: Config, s: State, step: Step, t: State)
    requires Elsewhere(step) && !InRenewal(step) && !step.CheckExpired?
    requires Do(cfg, s, step) == Some(t) && TurnsRight(s) && !s.req.RequestStopped?
    ensures t.req.RequestStopped? <==> EndsRequests(cfg, s, step)
  {
    hide ParseHead, ParseRawHead, CanReply, Answers, Complete, NextReadDeadline, Replying;
  }

  lemma OtherLoop(cfg: Config, s: State, step: Step, t: State)
    requires !Elsewhere(step) && Do(cfg, s, step) == Some(t)
    ensures t.req == s.req && !EndsRequests(cfg, s, step)
  {
    hide AfterHeader, HandshakeOutcome, AuthenticateOutcome, CompleteReauth, Get32;
  }

  // ---------------------------------------------------------------- the response loop

  /**
   A client's reply cannot be forwarded, or the proxy's own refuses the renewal. It is the reply after
   those that the loop is done with.
   */
  predicate EndsResponses(cfg: Config, s: State, step: Step) {
    var e := Replying(s.wire);
    || step.ResponseFails?
    || (&& (step.PopMarker? || step.ConsumeReply?)
        && s.handled < |e| && s.handled < |s.replies|
        && e[s.handled].origin == (if step.PopMarker? then Client else Proxy)
        && !Understood(cfg, e[s.handled], s.replies[s.handled]))
  }

  lemma ResponseLoopEnds(cfg: Config, now: int, steps: seq<Step>, s: State, step: Step, t: State)
    requires Run(cfg, Init(cfg, now), steps) == Some(s) && Do(cfg, s, step) == Some(t)
    requires AvoidsReserved(Replying(s.wire)) && PeeksRight(s.wire)
    requires !s.resp.ResponseStopped?
    ensures t.resp.ResponseStopped? <==> EndsResponses(cfg, s, step)
  {
    hide Run, Do, Inv, Replying, AvoidsReserved, PeeksRight, Understood;
    RunKeeps(cfg, now, steps, s);
    if step.PopMarker? {
      PoppingEnds(cfg, s, step, t);
    } else if step.ConsumeReply? {
      ConsumingEnds(cfg, s, step, t);
    } else if Elsewhere(step) {
      OtherSide(cfg, s, step, t);
    } else {
      QuietlyGoesOn(cfg, s, step, t);
    }
  }

  lemma PoppingEnds(cfg: Config, s: State, step: Step, t: State)
    requires step.PopMarker? && Inv(cfg, s) && Do(cfg, s, step) == Some(t) && AvoidsReserved(Replying(s.wire))
    ensures t.resp.ResponseStopped? <==> EndsResponses(cfg, s, step)
  {
    hide Replying, Inv, Forwarding, AvoidsReserved, HandshakeOutcome, AuthenticateOutcome;
    hide ResponseFrames.HeaderTagsLength;
    Classified(cfg, s, t);
    MarkerFits(cfg, s);
  }

  lemma ConsumingEnds(cfg: Config, s: State, step: Step, t: State)
    requires step.ConsumeReply? && Inv(cfg, s) && Do(cfg, s, step) == Some(t) && AvoidsReserved(Replying(s.wire))
    ensures t.resp.ResponseStopped? <==> EndsResponses(cfg, s, step)
  {
    hide Replying, Inv, Forwarding, AvoidsReserved, HandshakeOutcome, AuthenticateOutcome, Get32, AuthCount;
    ConsumedIsMarked(cfg, s);
    ProxyKeys(cfg, s);
  }

  lemma QuietlyGoesOn(cfg: Config, s: State, step: Step, t: State)
    requires !Elsewhere(step) && !step.PopMarker? && !step.ConsumeReply? && Do(cfg, s, step) == Some(t)
    ensures t.resp.ResponseStopped? <==> step.ResponseFails?
  {
    hide DoPopMarker, DoConsumeReply;
  }
}
