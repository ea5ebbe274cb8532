/**
 When renewals happen, on an ideal clock: time passes only while the request loop waits for the
 header of a request, and the loop wakes at most `eps` after its read deadline. `eps` is zero
 for a loop that wakes exactly then.
 */
module ReauthTiming {
  import opened Wrappers
  import opened Bytes
  import opened AuthState
  import opened SaslReauth
  import opened Processor
  import opened WireHistory
  import opened ProcessorInvariants
  import opened Exchanges

  predicate Timely(s: State, step: Step, eps: nat) {
    step.Tick? ==>
      || s.req.RequestStopped?
      || (s.req.Reading? && (s.req.deadline.Some? ==> s.now + step.d <= s.req.deadline.value + eps))
  }

  predicate TimelyRun(cfg: Config, s: State, steps: seq<Step>, eps: nat)
    decreases |steps|
  {
    steps == [] || (
      var before := steps[..|steps| - 1];
      && TimelyRun(cfg, s, before, eps)
      && Run(cfg, s, before).Some?
      && Timely(Run(cfg, s, before).value, steps[|steps| - 1], eps))
  }

  /** When the next attempt must have started: it is due, and the one before is given up. */
  function Latest(a: Auth): int
    requires a.reauthAt.Some?
  {
    if a.inFlightStartedAt.Some? && a.inFlightStartedAt.value + 30_000_000_000 > a.reauthAt.value
    then a.inFlightStartedAt.value + 30_000_000_000
    else a.reauthAt.value
  }

  /** The end of the session that `reauthAt` was computed for. */
  function Expiry(a: Auth): int
    requires a.reauthAt.Some?
  {
    a.reauthAt.value - Scale(a.sessionLifetime) + a.sessionLifetime
  }

  /** The schedule comes from a lifetime advertised after the last attempt, or at the start. */
  predicate Scheduled(a: Auth) {
    a.reauthAt.Some? && (a.inFlightStartedAt.Some? ==> a.inFlightStartedAt.value < a.reauthAt.value)
  }

  predicate ScheduleRight(a: Auth, now: int) {
    && (a.inFlight ==>
        a.inFlightStartedAt.Some? && a.inFlightDeadline == Some(a.inFlightStartedAt.value + CUSHION) && !Scheduled(a))
    && (a.inFlightStartedAt.Some? ==> a.reauthAt.Some? && a.inFlightStartedAt.value <= now)
    && (a.reauthAt.Some? ==> a.sessionLifetime > 0)
    && (Scheduled(a) && a.inFlightStartedAt.Some? ==>
        a.inFlightStartedAt.value <= a.reauthAt.value - Scale(a.sessionLifetime))
  }

  predicate InTime(s: State, eps: nat) {
    && (s.auth.reauthAt.Some? ==> s.now <= Latest(s.auth) + eps)
    && (s.auth.inFlight && s.auth.inFlightStartedAt.Some? ==> s.now <= s.auth.inFlightStartedAt.value + CUSHION + eps)
    && (s.req.Reading? && s.auth.reauthAt.Some? ==> s.req.deadline.Some? && s.req.deadline.value <= Latest(s.auth))
    && (s.req.Reading? && s.auth.inFlight ==> s.req.deadline == s.auth.inFlightDeadline)
    && (Starting(s.req) ==> s.req.at == s.now && s.auth.reauthAt.Some? && s.auth.reauthAt.value <= s.now)
  }

  predicate TimeInv(s: State, eps: nat) {
    ScheduleRight(s.auth, s.now) && (!s.req.RequestStopped? ==> InTime(s, eps))
  }

  // ---------------------------------------------------------------- steps

  lemma QuietTime(s: State, t: State, eps: nat)
    requires TimeInv(s, eps) && t.now == s.now && t.auth == s.auth
    requires t.req == s.req || (!s.req.RequestStopped? && !t.req.Reading?
                                && (Starting(t.req) ==> Starting(s.req) && t.req.at == s.req.at))
    ensures TimeInv(t, eps)
  {
  }

  lemma TickTime(s: State, d: nat, t: State, eps: nat)
    requires TimeInv(s, eps) && Timely(s, Tick(d), eps) && t == s.(now := s.now + d)
    ensures TimeInv(t, eps)
  {
  }

  lemma WaitTime(s: State, t: State, eps: nat)
    requires TimeInv(s, eps) && DoTakeRequestHandler(s) == Some(t)
    ensures TimeInv(t, eps)
  {
  }

  lemma CheckTime(cfg: Config, s: State, t: State, eps: nat)
    requires TimeInv(s, eps) && (DoCheckReauth(cfg, s) == Some(t) || DoCheckTimeout(s) == Some(t))
    ensures TimeInv(t, eps)
  {
  }

  lemma MarkTime(s: State, t: State, eps: nat)
    requires TimeInv(s, eps) && !s.auth.inFlight && DoMarkReauth(s) == Some(t)
    ensures TimeInv(t, eps)
  {
  }

  lemma CompleteTime(s: State, t: State, eps: nat)
    requires TimeInv(s, eps) && DoConsumeReply(s) == Some(t)
    requires t.auth != s.auth ==> s.auth.inFlight && !Starting(s.req)
    ensures TimeInv(t, eps)
  {
    hide HandshakeOutcome, AuthenticateOutcome, Get32;
  }

  lemma RequestTime(cfg: Config, s: State, token: Option<seq<byte>>, n: nat, t: State, eps: nat)
    requires TimeInv(s, eps)
    requires DoCheckExpired(s) == Some(t) || DoReadHead(cfg, s) == Some(t) || DoReadRawHead(s) == Some(t)
             || DoReadTimeout(s, n) == Some(t) || DoReadBody(s, n) == Some(t) || DoRequestFails(cfg, s, n) == Some(t)
                || DoSendPart(s, n) == Some(t)
             || DoWriteHandshake(cfg, s, token) == Some(t) || DoWriteAuthenticate(s) == Some(t)
    ensures TimeInv(t, eps)
  {
    hide TimeInv, ParseHead, ParseRawHead, BuildReauthHandshake, BuildReauthAuthenticate;
    QuietTime(s, t, eps);
  }

  lemma PushTime(cfg: Config, s: State, t: State, eps: nat)
    requires TimeInv(s, eps)
    requires DoPushRequestMarker(cfg, s) == Some(t) || DoPushNextHandlers(cfg, s) == Some(t)
             || DoPutRequestToken(s) == Some(t)
             || DoPushReauthMarker(cfg, s) == Some(t) || DoPushReauthHandler(cfg, s) == Some(t)
    ensures TimeInv(t, eps)
  {
    hide TimeInv, ReauthMarker;
    QuietTime(s, t, eps);
  }

  lemma ResponseTime(cfg: Config, s: State, reply: seq<byte>, k: nat, t: State, eps: nat)
    requires TimeInv(s, eps)
    requires DoServe(cfg, s, reply) == Some(t) || DoTakeResponseHandler(s) == Some(t) || DoReadReply(s) == Some(t)
             || DoPopMarker(cfg, s) == Some(t) || DoWritePart(s, k) == Some(t) || DoResponseFails(s) == Some(t)
    ensures TimeInv(t, eps)
  {
    hide TimeInv, AfterHeader, CanReply, Answers;
    QuietTime(s, t, eps);
  }

  lemma StepTime(cfg: Config, now: int, steps: seq<Step>, s: State, step: Step, t: State, eps: nat)
    requires Run(cfg, Init(cfg, now), steps) == Some(s) && AvoidsReserved(Replying(s.wire)) && PeeksRight(s.wire)
    requires TimeInv(s, eps) && Timely(s, step, eps) && Do(cfg, s, step) == Some(t)
    ensures TimeInv(t, eps)
  {
    hide TimeInv, Timely, Run, AvoidsReserved, PeeksRight, DoServe;
    hide DoCheckExpired, DoTakeRequestHandler, DoReadHead, DoReadRawHead, DoReadTimeout, DoReadBody;
    hide DoPushRequestMarker, DoSendPart, DoPushNextHandlers, DoCheckTimeout, DoCheckReauth, DoWriteHandshake;
    hide DoWriteAuthenticate, DoMarkReauth, DoPushReauthMarker, DoPushReauthHandler, DoPutRequestToken, DoRequestFails;
    hide DoTakeResponseHandler, DoReadReply, DoPopMarker, DoConsumeReply, DoWritePart, DoResponseFails;
    match step
    case Tick(d) => TickTime(s, d, t, eps);
    case ClientSends(_) => QuietTime(s, t, eps);
    case BrokerServes(reply) => ResponseTime(cfg, s, reply, 0, t, eps);
    case CheckExpired => RequestTime(cfg, s, None, 0, t, eps);
    case TakeRequestHandler => WaitTime(s, t, eps);
    case ReadHead => RequestTime(cfg, s, None, 0, t, eps);
    case ReadRawHead => RequestTime(cfg, s, None, 0, t, eps);
    case ReadBody(k) => RequestTime(cfg, s, None, k, t, eps);
    case ReadTimeout(partial) => RequestTime(cfg, s, None, partial, t, eps);
    case RequestFails(partial) => RequestTime(cfg, s, None, partial, t, eps);
    case PushRequestMarker => PushTime(cfg, s, t, eps);
    case PushNextHandlers => PushTime(cfg, s, t, eps);
    case PutRequestToken => PushTime(cfg, s, t, eps);
    case PushReauthMarker => PushTime(cfg, s, t, eps);
    case PushReauthHandler => PushTime(cfg, s, t, eps);
    case CheckTimeout => CheckTime(cfg, s, t, eps);
    case CheckReauth => CheckTime(cfg, s, t, eps);
    case SendPart(k) => RequestTime(cfg, s, None, k, t, eps);
    case WriteHandshake(token) => RequestTime(cfg, s, token, 0, t, eps);
    case WriteAuthenticate => RequestTime(cfg, s, None, 0, t, eps);
    case MarkReauth => NotInFlight(cfg, now, steps, s, t); MarkTime(s, t, eps);
    case TakeResponseHandler => ResponseTime(cfg, s, [], 0, t, eps);
    case ReadReply => ResponseTime(cfg, s, [], 0, t, eps);
    case PopMarker => ResponseTime(cfg, s, [], 0, t, eps);
    case WritePart(k) => ResponseTime(cfg, s, [], k, t, eps);
    case ResponseFails => ResponseTime(cfg, s, [], 0, t, eps);
    case ConsumeReply =>
      if t.auth != s.auth {
        MarkedBeforeCompleted(cfg, now, steps, s, t);
      }
      CompleteTime(s, t, eps);
  }

  lemma NotInFlight(cfg: Config, now: int, steps: seq<Step>, s: State, t: State)
    requires Run(cfg, Init(cfg, now), steps) == Some(s) && AvoidsReserved(Replying(s.wire)) && PeeksRight(s.wire)
    requires DoMarkReauth(s) == Some(t)
    ensures !s.auth.inFlight
  {
    hide Do, AvoidsReserved, Replying, PeeksRight;
    OneExchangeAtATime(cfg, now, steps, s);
  }

  lemma InitInTime(cfg: Config, now: int, eps: nat)
    ensures TimeInv(Init(cfg, now), eps)
  {
  }

  lemma {:induction false} RunTime(cfg: Config, now: int, steps: seq<Step>, s: State, eps: nat)
    requires Run(cfg, Init(cfg, now), steps) == Some(s) && TimelyRun(cfg, Init(cfg, now), steps, eps)
    requires AvoidsReserved(Replying(s.wire)) && PeeksRight(s.wire)
    ensures TimeInv(s, eps)
    decreases |steps|
  {
    hide Do, TimeInv, AvoidsReserved, Replying, Timely, PeeksRight;
    if steps == [] {
      InitInTime(cfg, now, eps);
    } else {
      var before := Run(cfg, Init(cfg, now), steps[..|steps| - 1]).value;
      WireOnlyGrows(cfg, before, steps[|steps| - 1], s);
      if s.wire != [] {
        LastReplying(s.wire);
      }
      AvoidingPrefix(Replying(before.wire), Replying(s.wire));
      PeeksRightBefore(before.wire, s.wire);
      RunTime(cfg, now, steps[..|steps| - 1], before, eps);
      StepTime(cfg, now, steps[..|steps| - 1], before, steps[|steps| - 1], s, eps);
    }
  }

  // ---------------------------------------------------------------- theorems

  /**
   An attempt starts when it is due, and no later than that or 30 s after the attempt before,
   whichever comes last.
   */
  lemma AttemptsStartInTime(cfg: Config, now: int, steps: seq<Step>, s: State, eps: nat)
    requires Run(cfg, Init(cfg, now), steps) == Some(s) && TimelyRun(cfg, Init(cfg, now), steps, eps)
    requires AvoidsReserved(Replying(s.wire)) && PeeksRight(s.wire)
    requires Starting(s.req)
    ensures s.auth.reauthAt.Some? && s.auth.reauthAt.value <= s.req.at <= Latest(s.auth) + eps
  {
    hide Do, TimelyRun, AvoidsReserved, Replying, PeeksRight;
    RunTime(cfg, now, steps, s, eps);
  }

  /** A loop that still runs has not missed an attempt. */
  lemma NeverLate(cfg: Config, now: int, steps: seq<Step>, s: State, eps: nat)
    requires Run(cfg, Init(cfg, now), steps) == Some(s) && TimelyRun(cfg, Init(cfg, now), steps, eps)
    requires AvoidsReserved(Replying(s.wire)) && PeeksRight(s.wire)
    requires s.auth.reauthAt.Some? && !s.req.RequestStopped?
    ensures s.now <= Latest(s.auth) + eps
  {
    hide Do, TimelyRun, AvoidsReserved, Replying, PeeksRight;
    RunTime(cfg, now, steps, s, eps);
  }

  /** `Expiry` is the end of the session that the broker advertised. */
  lemma ExpiryIsAdvertised(a: Auth, sessionLifetimeMs: int, now: int)
    requires sessionLifetimeMs > 0
    ensures Expiry(CompleteReauth(a, sessionLifetimeMs, now)) == now + sessionLifetimeMs * 1_000_000
    ensures Expiry(NewAuth(sessionLifetimeMs, now)) == now + sessionLifetimeMs * 1_000_000
  {
  }

  /** For every advertised lifetime of at least 30 s the attempt starts before the session has expired. */
  lemma AttemptsStartBeforeExpiry(cfg: Config, now: int, steps: seq<Step>, s: State, eps: nat)
    requires Run(cfg, Init(cfg, now), steps) == Some(s) && TimelyRun(cfg, Init(cfg, now), steps, eps)
    requires AvoidsReserved(Replying(s.wire)) && PeeksRight(s.wire)
    requires Scheduled(s.auth) && s.auth.sessionLifetime >= 30_000_000_000 + eps && s.auth.sessionLifetime >= 5 * eps
    ensures !s.req.RequestStopped? ==> s.now <= Expiry(s.auth)
    ensures Starting(s.req) ==> s.req.at <= Expiry(s.auth)
    ensures Starting(s.req) && s.auth.sessionLifetime > 30_000_000_000 + eps && s.auth.sessionLifetime > 5 * eps ==>
              s.req.at < Expiry(s.auth)
  {
    hide Do, TimelyRun, AvoidsReserved, Replying, PeeksRight;
    RunTime(cfg, now, steps, s, eps);
    var l := s.auth.sessionLifetime;
    assert Scale(l) <= l - l / 5 && l / 5 >= eps;
  }

  /**
   An unanswered exchange ends the loop: it does not run on past the 30 s, the check at the top
   of an iteration stops it exactly when they are over, and no second attempt is sent before.
   */
  lemma StuckExchangeEndsTheLoop(cfg: Config, now: int, steps: seq<Step>, s: State, eps: nat)
    requires Run(cfg, Init(cfg, now), steps) == Some(s) && TimelyRun(cfg, Init(cfg, now), steps, eps)
    requires AvoidsReserved(Replying(s.wire)) && PeeksRight(s.wire)
    requires s.auth.inFlight
    ensures s.auth.inFlightStartedAt.Some? && !Starting(s.req)
    ensures !s.req.RequestStopped? ==> s.now <= s.auth.inFlightStartedAt.value + 30_000_000_000 + eps
    ensures s.req.Top? ==>
              (DoCheckExpired(s).value.req.RequestStopped? <==> s.now > s.auth.inFlightStartedAt.value + 30_000_000_000)
  {
    hide Do, TimelyRun, AvoidsReserved, Replying, AuthCount, PeeksRight;
    RunTime(cfg, now, steps, s, eps);
    OneExchangeAtATime(cfg, now, steps, s);
  }

  // ---------------------------------------------------------------- where attempts come from

  /** At that time, somewhere in the run, the request loop found a renewal due and began it. */
  ghost predicate BegunAt(cfg: Config, s0: State, steps: seq<Step>, at: int) {
    exists k | 0 <= k < |steps| ::
      && steps[k] == CheckReauth && Run(cfg, s0, steps[..k]).Some?
      && var b := Run(cfg, s0, steps[..k]).value;
         b.req.ReauthDue? && b.now == at && cfg.reauthEnabled && NeedsReauth(b.auth, at)
  }

  lemma BegunBefore(cfg: Config, s0: State, steps: seq<Step>, at: int)
    requires steps != [] && BegunAt(cfg, s0, steps[..|steps| - 1], at)
    ensures BegunAt(cfg, s0, steps, at)
  {
    hide Run, NeedsReauth;
    var n := |steps| - 1;
    var k :| 0 <= k < n && steps[..n][k] == CheckReauth && Run(cfg, s0, steps[..n][..k]).Some?
             && var b := Run(cfg, s0, steps[..n][..k]).value;
                b.req.ReauthDue? && b.now == at && cfg.reauthEnabled && NeedsReauth(b.auth, at);
    assert steps[..n][..k] == steps[..k] && steps[k] == CheckReauth;
  }

  lemma BeginsNow(cfg: Config, s0: State, steps: seq<Step>, s: State, t: State)
    requires steps != [] && steps[|steps| - 1] == CheckReauth && Run(cfg, s0, steps[..|steps| - 1]) == Some(s)
    requires DoCheckReauth(cfg, s) == Some(t) && Starting(t.req)
    ensures t.req.at == s.now && BegunAt(cfg, s0, steps, s.now)
  {
    hide Run, NeedsReauth;
    assert steps[|steps| - 1] == CheckReauth;
  }

  predicate SameAttempt(s: State, t: State) {
    && t.auth.inFlightStartedAt == s.auth.inFlightStartedAt
    && (t.auth.inFlight ==> s.auth.inFlight && t.auth.inFlightDeadline == s.auth.inFlightDeadline)
    && (Starting(t.req) ==> Starting(s.req) && t.req.at == s.req.at)
  }

  lemma RequestAttempt(cfg: Config, s: State, step: Step, t: State)
    requires step.CheckExpired? || step.TakeRequestHandler? || step.ReadHead? || step.ReadRawHead? || step.ReadTimeout?
             || step.PushRequestMarker? || step.ReadBody? || step.SendPart? || step.PushNextHandlers?
    requires Do(cfg, s, step) == Some(t)
    ensures SameAttempt(s, t)
  {
    hide ParseHead, ParseRawHead, InFlightExpired, NextReadDeadline, Complete;
  }

  lemma RenewalAttempt(cfg: Config, s: State, step: Step, t: State)
    requires step.CheckTimeout? || step.PushReauthMarker? || step.PushReauthHandler? || step.PutRequestToken?
    requires Do(cfg, s, step) == Some(t)
    ensures SameAttempt(s, t)
  {
    hide NeedsReauth, ReauthMarker;
  }

  lemma WrittenAttempt(cfg: Config, s: State, step: Step, t: State)
    requires step.WriteHandshake? || step.WriteAuthenticate? || step.RequestFails?
    requires Do(cfg, s, step) == Some(t)
    ensures SameAttempt(s, t)
  {
    hide BuildReauthHandshake, BuildReauthAuthenticate, Part;
  }

  lemma OtherAttempt(cfg: Config, s: State, step: Step, t: State)
    requires step.Tick? || step.ClientSends? || step.BrokerServes? || step.TakeResponseHandler? || step.ReadReply?
             || step.PopMarker? || step.ConsumeReply? || step.WritePart? || step.ResponseFails?
    requires Do(cfg, s, step) == Some(t)
    ensures SameAttempt(s, t)
  {
    hide Answers, CanReply, AfterHeader, HandshakeOutcome, AuthenticateOutcome, Get32;
  }

  lemma MarkedAttempt(s: State, t: State)
    requires DoMarkReauth(s) == Some(t)
    ensures Starting(s.req) && !Starting(t.req)
    ensures t.auth.inFlightStartedAt == Some(s.req.at)
    ensures t.auth.inFlightDeadline == Some(s.req.at + 30_000_000_000)
  {
  }

  lemma EachAttempt(cfg: Config, s: State, step: Step, t: State)
    requires !step.CheckReauth? && !step.MarkReauth? && Do(cfg, s, step) == Some(t)
    ensures SameAttempt(s, t)
  {
    hide SameAttempt, Do;
    match step
    case CheckTimeout => RenewalAttempt(cfg, s, step, t);
    case PushReauthMarker => RenewalAttempt(cfg, s, step, t);
    case PushReauthHandler => RenewalAttempt(cfg, s, step, t);
    case PutRequestToken => RenewalAttempt(cfg, s, step, t);
    case WriteHandshake(_) => WrittenAttempt(cfg, s, step, t);
    case WriteAuthenticate => WrittenAttempt(cfg, s, step, t);
    case RequestFails(_) => WrittenAttempt(cfg, s, step, t);
    case _ =>
      if step.Tick? || step.ClientSends? || step.BrokerServes? || step.TakeResponseHandler? || step.ReadReply?
         || step.PopMarker? || step.ConsumeReply? || step.WritePart? || step.ResponseFails? {
        OtherAttempt(cfg, s, step, t);
      } else {
        RequestAttempt(cfg, s, step, t);
      }
  }

  ghost predicate AttemptsBegun(cfg: Config, s0: State, steps: seq<Step>, s: State) {
    && (Starting(s.req) ==> BegunAt(cfg, s0, steps, s.req.at))
    && (s.auth.inFlightStartedAt.Some? ==> BegunAt(cfg, s0, steps, s.auth.inFlightStartedAt.value))
    && (s.auth.inFlight ==>
          s.auth.inFlightStartedAt.Some?
          && s.auth.inFlightDeadline == Some(s.auth.inFlightStartedAt.value + 30_000_000_000))
  }

  lemma StillBegun(cfg: Config, s0: State, steps: seq<Step>, s: State, t: State)
    requires steps != [] && AttemptsBegun(cfg, s0, steps[..|steps| - 1], s) && SameAttempt(s, t)
    ensures AttemptsBegun(cfg, s0, steps, t)
  {
    hide BegunAt;
    if Starting(t.req) {
      BegunBefore(cfg, s0, steps, t.req.at);
    }
    if t.auth.inFlightStartedAt.Some? {
      BegunBefore(cfg, s0, steps, t.auth.inFlightStartedAt.value);
    }
  }

  lemma StartedOrNot(cfg: Config, s0: State, steps: seq<Step>, s: State, t: State)
    requires steps != [] && AttemptsBegun(cfg, s0, steps[..|steps| - 1], s)
    requires steps[|steps| - 1] == CheckReauth && Run(cfg, s0, steps[..|steps| - 1]) == Some(s)
    requires DoCheckReauth(cfg, s) == Some(t)
    ensures AttemptsBegun(cfg, s0, steps, t)
  {
    hide BegunAt, Run, NeedsReauth;
    if s.auth.inFlightStartedAt.Some? {
      BegunBefore(cfg, s0, steps, s.auth.inFlightStartedAt.value);
    }
    if Starting(t.req) {
      BeginsNow(cfg, s0, steps, s, t);
    }
  }

  lemma MarkedBegun(cfg: Config, s0: State, steps: seq<Step>, s: State, t: State)
    requires steps != [] && AttemptsBegun(cfg, s0, steps[..|steps| - 1], s) && DoMarkReauth(s) == Some(t)
    ensures AttemptsBegun(cfg, s0, steps, t)
  {
    hide BegunAt, DoMarkReauth;
    MarkedAttempt(s, t);
    BegunBefore(cfg, s0, steps, s.req.at);
  }

  /**
   In every run, on any clock: the attempt under way, and the one last marked, began when a renewal
   was due, and the 30 s of an exchange in flight count from then, however long it took to send.
   */
  lemma {:induction false} AttemptsBeginWhenDue(cfg: Config, now: int, steps: seq<Step>, s: State)
    requires Run(cfg, Init(cfg, now), steps) == Some(s)
    ensures AttemptsBegun(cfg, Init(cfg, now), steps, s)
    decreases |steps|
  {
    hide AttemptsBegun;
    if steps == [] {
      NoneBegun(cfg, now);
    } else {
      var step, before := steps[|steps| - 1], Run(cfg, Init(cfg, now), steps[..|steps| - 1]).value;
      AttemptsBeginWhenDue(cfg, now, steps[..|steps| - 1], before);
      match step
      case CheckReauth => StartedOrNot(cfg, Init(cfg, now), steps, before, s);
      case MarkReauth => MarkedBegun(cfg, Init(cfg, now), steps, before, s);
      case _ =>
        hide Do;
        EachAttempt(cfg, before, step, s);
        StillBegun(cfg, Init(cfg, now), steps, before, s);
    }
  }

  lemma NoneBegun(cfg: Config, now: int)
    ensures AttemptsBegun(cfg, Init(cfg, now), [], Init(cfg, now))
  {
  }
}
