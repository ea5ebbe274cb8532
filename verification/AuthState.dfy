/**
 The authentication state of one broker connection: when the SASL session must be renewed, and
 whether a renewal is under way. The class is what the two loops share, each method being one
 critical section; the functions say what it does. Times are nanoseconds on one clock, and
 `None` is the zero time.
 */
module AuthState {
  import opened Wrappers

  const MILLISECOND := 1_000_000
  const SECOND := 1_000_000_000

  /** reauthInflightCushion */
  const CUSHION := 30 * SECOND

  datatype Auth = Auth(
    reauthAt: Option<int>,
    inFlight: bool,
    inFlightDeadline: Option<int>,
    inFlightStartedAt: Option<int>,
    sessionLifetime: int)

  /** Four fifths of the session lifetime, but at least a second. */
  function Scale(lifetime: int): int {
    var scaled := lifetime * 4 / 5;
    if scaled < SECOND then SECOND else scaled
  }

  function NewAuth(sessionLifetimeMs: int, now: int): Auth {
    if sessionLifetimeMs > 0 then
      var lifetime := sessionLifetimeMs * MILLISECOND;
      Auth(Some(now + Scale(lifetime)), false, None, None, lifetime)
    else Auth(None, false, None, None, 0)
  }

  predicate NeedsReauth(a: Auth, now: int) {
    a.reauthAt.Some? && !a.inFlight && now >= a.reauthAt.value
  }

  function NextReadDeadline(a: Auth): Option<int> {
    if a.inFlight then a.inFlightDeadline else a.reauthAt
  }

  function MarkInFlight(a: Auth, now: int): Auth {
    a.(inFlight := true, inFlightDeadline := Some(now + CUSHION), inFlightStartedAt := Some(now))
  }

  /** The start time is kept, whatever the comments at the call say. */
  function CompleteReauth(a: Auth, sessionLifetimeMs: int, now: int): Auth {
    var done := a.(inFlight := false, inFlightDeadline := None);
    if sessionLifetimeMs > 0 then
      var lifetime := sessionLifetimeMs * MILLISECOND;
      done.(sessionLifetime := lifetime, reauthAt := Some(now + Scale(lifetime)))
    else done
  }

  predicate InFlightExpired(a: Auth, now: int) {
    a.inFlight && a.inFlightDeadline.Some? && now > a.inFlightDeadline.value
  }

  class ConnectionAuthState {
    var reauthAt: Option<int>
    var inFlight: bool
    var inFlightDeadline: Option<int>
    var inFlightStartedAt: Option<int>
    var sessionLifetime: int

    ghost function State(): Auth
      reads this
    {
      Auth(reauthAt, inFlight, inFlightDeadline, inFlightStartedAt, sessionLifetime)
    }

    constructor (sessionLifetimeMs: int, now: int)
      ensures State() == NewAuth(sessionLifetimeMs, now)
    {
      reauthAt, inFlight, inFlightDeadline, inFlightStartedAt, sessionLifetime := None, false, None, None, 0;
      new;
      if sessionLifetimeMs > 0 {
        sessionLifetime := sessionLifetimeMs * MILLISECOND;
        reauthAt := Some(now + Scale(sessionLifetime));
      }
    }

    method NeedsReauthNow(now: int) returns (needed: bool)
      ensures needed == NeedsReauth(State(), now)
    {
      if reauthAt.None? || inFlight {
        return false;
      }
      return !(now < reauthAt.value);
    }

    method ReadDeadline() returns (deadline: Option<int>)
      ensures deadline == NextReadDeadline(State())
    {
      if inFlight {
        return inFlightDeadline;
      }
      return reauthAt;
    }

    method Mark(now: int)
      modifies this
      ensures State() == MarkInFlight(old(State()), now)
    {
      inFlight := true;
      inFlightDeadline := Some(now + CUSHION);
      inFlightStartedAt := Some(now);
    }

    method Complete(sessionLifetimeMs: int, now: int)
      modifies this
      ensures State() == CompleteReauth(old(State()), sessionLifetimeMs, now)
    {
      inFlight := false;
      inFlightDeadline := None;
      if sessionLifetimeMs > 0 {
        sessionLifetime := sessionLifetimeMs * MILLISECOND;
        reauthAt := Some(now + Scale(sessionLifetime));
      }
    }

    method Expired(now: int) returns (expired: bool)
      ensures expired == InFlightExpired(State(), now)
    {
      return inFlight && inFlightDeadline.Some? && now > inFlightDeadline.value;
    }
  }

  // ---------------------------------------------------------------- what the operations promise

  /**
   After an advertised lifetime the next renewal is due in a second at the earliest, and within
   the session exactly if that lasts a second; from 1.25 s on a fifth of the session is left.
   */
  lemma ScheduledBeforeExpiry(a: Auth, sessionLifetimeMs: int, now: int)
    requires sessionLifetimeMs > 0
    ensures var b, expiry := CompleteReauth(a, sessionLifetimeMs, now), now + sessionLifetimeMs * 1_000_000;
            && !b.inFlight && b.reauthAt.Some?
            && b.reauthAt.value >= now + 1_000_000_000
            && (b.reauthAt.value <= expiry <==> sessionLifetimeMs >= 1000)
            && (sessionLifetimeMs >= 1250 ==> expiry - b.reauthAt.value == sessionLifetimeMs * 1_000_000 / 5)
            && (forall t :: NeedsReauth(b, t) <==> t >= b.reauthAt.value)
  {
    var lifetime := sessionLifetimeMs * MILLISECOND;
    assert lifetime == 5 * (sessionLifetimeMs * 200_000);
    assert lifetime * 4 / 5 == 4 * (sessionLifetimeMs * 200_000);
  }

  /** While a renewal is in flight none is due; it expires only after the cushion. */
  lemma InFlightSuppresses(a: Auth, now: int, t: int)
    ensures var b := MarkInFlight(a, now);
            && !NeedsReauth(b, t)
            && (InFlightExpired(b, t) <==> t > now + 30_000_000_000)
            && NextReadDeadline(b) == Some(now + 30_000_000_000)
  {
  }

  /** A renewal answered without a lifetime leaves the schedule as it was before it started. */
  lemma NonPositiveKeepsSchedule(a: Auth, now: int, done: int, sessionLifetimeMs: int)
    requires sessionLifetimeMs <= 0 && !a.inFlight
    ensures var b := CompleteReauth(MarkInFlight(a, now), sessionLifetimeMs, done);
            NextReadDeadline(b) == NextReadDeadline(a) && forall t :: NeedsReauth(b, t) <==> NeedsReauth(a, t)
  {
  }
}
