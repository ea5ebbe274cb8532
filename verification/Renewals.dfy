/**
 A renewal as the two sides of it see it: what the broker reads in the proxy's two requests, and what
 each possible reply does to the connection.
 */
module Renewals {
  import opened Wrappers
  import opened Bytes
  import opened Schema
  import opened SchemaTheorems
  import opened ProduceAcks
  import opened SaslReauth
  import opened SaslReplies
  import opened AuthState
  import opened Processor
  import opened ProcessorInvariants
  import ResponseFrames

  // ---------------------------------------------------------------- what the broker reads

  lemma RequestParts(key: int16, version: int16, corr: int32, client: seq<byte>, body: seq<byte>)
    requires |client| <= 32767 && 10 + |client| + |body| <= 104857600
    ensures var built := BuildRequest(key, version, corr, client, body);
            && built.Some?
            && var f := built.value;
               && |f| == 14 + |client| + |body| && Get32(f) == |f| - 4
               && Get16(f[4..]) == key && Get16(f[6..]) == version && Get32(f[8..]) == corr
               && GetString(f[12..]) == Ok(client, 2 + |client|)
               && f[14 + |client|..] == body
  {
    hide Get16, Get32, Put16, Put32, GetString;
    BuiltRequestIsFrame(key, version, corr, client, body);
    var f := BuildRequest(key, version, corr, client, body).value;
    assert f[12..] == Put16(|client|) + client + body;
    StringReadBack(client, body);
  }

  /**
   The broker reads in the handshake: key 17, version 1, the reserved correlation id, the client id,
   and the mechanism OAUTHBEARER with nothing behind it.
   */
  lemma BrokerReadsHandshake(client: seq<byte>)
    ensures BuildReauthHandshake(client).Some? <==> |client| <= 32767
    ensures |client| <= 32767 ==>
              var f := BuildReauthHandshake(client).value;
              && |f| == 27 + |client| && Get32(f) == |f| - 4
              && Get16(f[4..]) == 17 && Get16(f[6..]) == 1 && Get32(f[8..]) == 2147483645
              && GetString(f[12..]) == Ok(client, 2 + |client|)
              && GetString(f[14 + |client|..]) == Ok([79, 65, 85, 84, 72, 66, 69, 65, 82, 69, 82], 13)
  {
    hide Get16, Get32, Put16, Put32, GetString;
    if |client| <= 32767 {
      RequestParts(17, 1, 2147483645, client, Put16(11) + MECHANISM);
      assert Put16(11) + MECHANISM + [] == Put16(11) + MECHANISM;
      StringReadBack(MECHANISM, []);
    }
  }

  /**
   And in the authenticate: key 36, version 1, its reserved correlation id, the client id, and the
   token as SASL bytes with nothing behind them. It is built for every token that fits.
   */
  lemma BrokerReadsAuthenticate(client: seq<byte>, token: Option<seq<byte>>)
    ensures BuildReauthAuthenticate(client, token).Some?
            <==> token.Some? && |client| <= 32767 && 14 + |client| + |token.value| <= 104857600
    ensures BuildReauthAuthenticate(client, token).Some? ==>
              var f := BuildReauthAuthenticate(client, token).value;
              && |f| == 18 + |client| + |token.value| && Get32(f) == |f| - 4
              && Get16(f[4..]) == 36 && Get16(f[6..]) == 1 && Get32(f[8..]) == 2147483646
              && GetString(f[12..]) == Ok(client, 2 + |client|)
              && GetBytes(f[14 + |client|..]) == Ok(token, 4 + |token.value|)
  {
    hide Get16, Get32, Put16, Put32, GetString, GetBytes;
    if token.Some? && |client| <= 32767 && 14 + |client| + |token.value| <= 104857600 {
      var body := Put32(|token.value|) + token.value;
      RequestParts(36, 1, 2147483646, client, body);
      assert PutNullableBytes(token) == body && body + [] == body;
      BytesReadBack(token, []);
    }
  }

  // ---------------------------------------------------------------- what a reply does

  /** A session renewed now, for so many milliseconds; none of them leaves the schedule as it was. */
  function Renewed(a: Auth, lifetimeMs: int, now: int): Auth {
    var done := a.(inFlight := false, inFlightDeadline := None);
    if lifetimeMs <= 0 then done
    else
      var lifetime := lifetimeMs * 1_000_000;
      var wait := lifetime * 4 / 5;
      done.(sessionLifetime := lifetime, reauthAt := Some(now + if wait < 1_000_000_000 then 1_000_000_000 else wait))
  }

  /**
   The reply to the proxy's authenticate: with error 0 and nothing behind it the session is renewed
   for the lifetime in it, and the response loop goes on; with any other error, or with trailing
   bytes, the loop stops and the session is as it was.
   */
  lemma AuthenticateReplyIsConsumed(s: State, kerr: int16, msg: Option<seq<byte>>, auth: Option<seq<byte>>,
                                    lifetimeMs: int64, extra: seq<byte>)
    requires s.resp.Consuming? && |Current(s)| >= 8 && Get32(Current(s)[4..]) == 2147483646
    requires Short(msg) && (auth.Some? ==> |auth.value| <= 2147483647)
    requires Current(s)[8..] == AuthenticateReply(kerr, msg, auth, lifetimeMs) + extra
    ensures DoConsumeReply(s)
            == Some(if kerr == 0 && extra == [] then
                      s.(auth := Renewed(s.auth, lifetimeMs, s.now), resp := TakeHandler, handled := s.handled + 1)
                    else s.(resp := ResponseStopped))
  {
    hide AuthenticateReply, AuthenticateOutcome, HandshakeOutcome, Get32;
    AuthenticateReplyUnderstood(kerr, msg, auth, lifetimeMs, extra);
  }

  /** The reply to its handshake: with error 0 the loop goes on, else it stops; the session is as it was. */
  lemma HandshakeReplyIsConsumed(s: State, kerr: int16, mechanisms: seq<seq<byte>>, extra: seq<byte>)
    requires s.resp.Consuming? && |Current(s)| >= 8 && Get32(Current(s)[4..]) == 2147483645
    requires |mechanisms| <= 131070 && forall i :: 0 <= i < |mechanisms| ==> |mechanisms[i]| <= 32767
    requires Current(s)[8..] == HandshakeReply(kerr, mechanisms) + extra
    ensures DoConsumeReply(s)
            == Some(if kerr == 0 && extra == [] then s.(resp := TakeHandler, handled := s.handled + 1)
                    else s.(resp := ResponseStopped))
  {
    hide HandshakeReply, AuthenticateOutcome, HandshakeOutcome, Get32;
    HandshakeReplyUnderstood(kerr, mechanisms, extra);
  }

  // ---------------------------------------------------------------- nothing else renews a session

  lemma MessageRead(s: seq<byte>)
    requires GetNullableString(s).Ok?
    ensures var d := GetNullableString(s); Short(d.value) && s[..d.n] == PutNullableString(d.value)
  {
    hide Get16, Put16;
    Put16AfterGet16(s);
  }

  lemma BytesRead(s: seq<byte>)
    requires GetBytes(s).Ok?
    ensures var d := GetBytes(s);
            (d.value.Some? ==> |d.value.value| <= MAX_INT32) && s[..d.n] == PutNullableBytes(d.value)
  {
    hide Get32, Put32;
    Put32AfterGet32(s);
  }

  lemma Int64Read(s: seq<byte>)
    requires GetInt64(s).Ok?
    ensures GetInt64(s).n == 8 && -0x8000_0000_0000_0000 <= GetInt64(s).value < 0x8000_0000_0000_0000
    ensures s[..8] == Put64(GetInt64(s).value)
  {
    hide U16, Put16, Put32;
    var hi, lo := U16(s) * 0x1_0000 + U16(s[2..]), U16(s[4..]) * 0x1_0000 + U16(s[6..]);
    var u := hi * 0x1_0000_0000 + lo;
    assert u == ((U16(s) * 0x1_0000 + U16(s[2..])) * 0x1_0000 + U16(s[4..])) * 0x1_0000 + U16(s[6..]);
    assert ToUint64(ToInt64(u)) == u;
    assert u / 0x1_0000_0000 == hi && u % 0x1_0000_0000 == lo;
    assert s[4..][2..] == s[6..];
    Word(s);
    Word(s[4..]);
    assert s[..8] == s[..4] + s[4..][..4];
  }

  lemma Word(s: seq<byte>)
    requires |s| >= 4
    ensures Put32(U16(s) * 0x1_0000 + U16(s[2..])) == s[..4]
  {
    hide Put32;
    Put32AfterGet32(s);
    SameWord(Get32(s), U16(s) * 0x1_0000 + U16(s[2..]));
  }

  lemma SameWord(i: int, u: int)
    requires i == u || i == u - 0x1_0000_0000
    ensures Put32(i) == Put32(u)
  {
    hide Put16;
    assert i % 0x1_0000_0000 == u % 0x1_0000_0000;
  }

  /** What renews the session is a reply with error 0, to the last byte. */
  lemma OnlyRepliesWithoutErrorRenew(payload: seq<byte>)
    returns (msg: Option<seq<byte>>, auth: Option<seq<byte>>, lifetimeMs: int64)
    requires AuthenticateOutcome(payload).Accepted?
    ensures Short(msg) && (auth.Some? ==> |auth.value| <= 2147483647)
    ensures payload == AuthenticateReply(0, msg, auth, lifetimeMs)
    ensures AuthenticateOutcome(payload) == Accepted(lifetimeMs)
  {
    hide Get16, Put16, GetNullableString, GetBytes, GetInt64, PutNullableString, PutNullableBytes, Put64;
    Put16AfterGet16(payload);
    var s := payload[2..];
    var m := GetNullableString(s);
    MessageRead(s);
    var t := s[m.n..];
    var a := GetBytes(t);
    BytesRead(t);
    var u := t[a.n..];
    Int64Read(u);
    msg, auth, lifetimeMs := m.value, a.value, GetInt64(u).value;
    assert u == u[..8] && t == t[..a.n] + u && s == s[..m.n] + t && payload == payload[..2] + s;
  }

  lemma StringLocal(s: seq<byte>, rest: seq<byte>)
    requires GetString(s).Ok?
    ensures GetString(s + rest) == GetString(s)
  {
    hide Get16;
    Get16Of(s, rest);
    var d := GetString(s);
    assert (s + rest)[2..d.n] == s[2..d.n];
  }

  lemma {:induction false} StringsLocal(count: nat, s: seq<byte>, rest: seq<byte>)
    requires GetStrings(count, s).Ok?
    ensures GetStrings(count, s + rest) == GetStrings(count, s)
  {
    hide GetString;
    if count > 0 {
      var n := GetString(s).n;
      StringLocal(s, rest);
      assert (s + rest)[n..] == s[n..] + rest;
      StringsLocal(count - 1, s[n..], rest);
    }
  }

  /** A handshake reply that is accepted has error 0, and ends where it must: nothing longer is accepted. */
  lemma AcceptedHandshakesEnd(payload: seq<byte>, more: seq<byte>)
    requires HandshakeOutcome(payload).Accepted?
    ensures |payload| >= 6 && Get16(payload) == 0 && HandshakeOutcome(payload) == Accepted(0)
    ensures more != [] ==> HandshakeOutcome(payload + more).Undecodable?
  {
    hide Get16, Get32, GetStrings;
    Get16Of(payload, more);
    var s := payload[2..];
    assert (payload + more)[2..] == s + more;
    ResponseFrames.Get32Prefix(s, more);
    var l := GetArrayLength(s);
    assert (s + more)[4..] == s[4..] + more;
    if l.value >= 0 {
      StringsLocal(l.value, s[4..], more);
    }
  }

  /** So no reply that was cut short, to either request, lets the exchange go on. */
  lemma CutRepliesAreRefused(payload: seq<byte>, more: seq<byte>)
    requires more != []
    ensures !HandshakeOutcome(payload + more).Undecodable? ==> !HandshakeOutcome(payload).Accepted?
    ensures !AuthenticateOutcome(payload + more).Undecodable? ==> !AuthenticateOutcome(payload).Accepted?
  {
    hide HandshakeOutcome, AuthenticateOutcome;
    if HandshakeOutcome(payload).Accepted? {
      AcceptedHandshakesEnd(payload, more);
    }
    if AuthenticateOutcome(payload).Accepted? {
      var msg, auth, lifetimeMs := OnlyRepliesWithoutErrorRenew(payload);
      AuthenticateReplyUnderstood(0, msg, auth, lifetimeMs, more);
    }
  }

  // ---------------------------------------------------------------- both requests or none

  /**
   When either request cannot be built nothing is written, and the request loop ends; otherwise the
   handshake is written first, with the authenticate at hand.
   */
  lemma BuiltBeforeWritten(cfg: Config, s: State, token: Option<seq<byte>>)
    requires s.req.ReauthBuild?
    ensures if token.Some? && |cfg.clientId| <= 32767 && 14 + |cfg.clientId| + |token.value| <= 104857600 then
              var handshake, authenticate := BuildReauthHandshake(cfg.clientId).value,
                                             BuildReauthAuthenticate(cfg.clientId, token).value;
              DoWriteHandshake(cfg, s, token)
              == Some(s.(wire := s.wire + [ProxyRequest(17, 1, 2147483645, handshake)],
                         req := ReauthAuthenticate(s.req.at, authenticate)))
            else DoWriteHandshake(cfg, s, token) == Some(s.(req := RequestStopped))
  {
    hide BuildReauthHandshake, BuildReauthAuthenticate, Get16, Get32, GetString, GetBytes;
    BrokerReadsHandshake(cfg.clientId);
    BrokerReadsAuthenticate(cfg.clientId, token);
  }

  predicate EndsWithHandshake(w: seq<Request>) {
    w != [] && w[|w| - 1].origin == Proxy && w[|w| - 1].key == 17
  }

  /** The authenticate is about to be written, or its write has failed. */
  predicate Followed(s: State) {
    EndsWithHandshake(s.wire) ==>
      || s.req.ReauthAuthenticate?
      || (s.req.RequestStopped? && s.cut.Some? && s.cut.value.origin == Proxy && s.cut.value.key == 36)
  }

  lemma SameFollowed(s: State, t: State)
    requires Followed(s) && t.wire == s.wire && t.cut == s.cut
    requires t.req == s.req || (!s.req.RequestStopped? && !s.req.ReauthAuthenticate?)
    ensures Followed(t)
  {
  }

  lemma WritingFollowed(cfg: Config, s: State, step: Step, t: State)
    requires Followed(s) && Do(cfg, s, step) == Some(t)
    requires step.SendPart? || step.WriteHandshake? || step.WriteAuthenticate? || step.RequestFails?
    requires s.req.Sending? ==> s.req.r.origin == Client
    ensures Followed(t)
  {
    hide BuildReauthHandshake, BuildReauthAuthenticate;
  }

  lemma RenewingFollowed(cfg: Config, s: State, step: Step, t: State)
    requires Followed(s) && Do(cfg, s, step) == Some(t)
    requires step.CheckTimeout? || step.CheckReauth? || step.MarkReauth? || step.PushReauthMarker?
             || step.PushReauthHandler? || step.PutRequestToken?
    ensures Followed(t)
  {
    hide Followed, NeedsReauth, MarkInFlight, ReauthMarker;
    SameFollowed(s, t);
  }

  lemma ReadingFollowed(cfg: Config, s: State, step: Step, t: State)
    requires Followed(s) && Do(cfg, s, step) == Some(t)
    requires step.CheckExpired? || step.TakeRequestHandler? || step.ReadHead? || step.ReadRawHead? || step.ReadTimeout?
             || step.PushRequestMarker? || step.ReadBody? || step.PushNextHandlers?
    ensures Followed(t)
  {
    hide Followed, ParseHead, ParseRawHead, InFlightExpired, NextReadDeadline;
    SameFollowed(s, t);
  }

  lemma OthersFollowed(cfg: Config, s: State, step: Step, t: State)
    requires Followed(s) && Do(cfg, s, step) == Some(t)
    requires step.Tick? || step.ClientSends? || step.BrokerServes? || step.TakeResponseHandler? || step.ReadReply?
             || step.PopMarker? || step.ConsumeReply? || step.WritePart? || step.ResponseFails?
    ensures Followed(t)
  {
    hide Followed, Answers, CanReply, AfterHeader, HandshakeOutcome, AuthenticateOutcome, CompleteReauth, Get32;
    SameFollowed(s, t);
  }

  lemma StepFollowed(cfg: Config, s: State, step: Step, t: State)
    requires Followed(s) && Do(cfg, s, step) == Some(t) && (s.req.Sending? ==> s.req.r.origin == Client)
    ensures Followed(t)
  {
    hide Do, Followed;
    match step
    case SendPart(_) => WritingFollowed(cfg, s, step, t);
    case WriteHandshake(_) => WritingFollowed(cfg, s, step, t);
    case WriteAuthenticate => WritingFollowed(cfg, s, step, t);
    case RequestFails(_) => WritingFollowed(cfg, s, step, t);
    case CheckTimeout => RenewingFollowed(cfg, s, step, t);
    case CheckReauth => RenewingFollowed(cfg, s, step, t);
    case MarkReauth => RenewingFollowed(cfg, s, step, t);
    case PushReauthMarker => RenewingFollowed(cfg, s, step, t);
    case PushReauthHandler => RenewingFollowed(cfg, s, step, t);
    case PutRequestToken => RenewingFollowed(cfg, s, step, t);
    case _ =>
      if step.Tick? || step.ClientSends? || step.BrokerServes? || step.TakeResponseHandler? || step.ReadReply?
         || step.PopMarker? || step.ConsumeReply? || step.WritePart? || step.ResponseFails? {
        OthersFollowed(cfg, s, step, t);
      } else {
        ReadingFollowed(cfg, s, step, t);
      }
  }

  /** In every run the broker is left with a handshake alone only by a failed write of the authenticate. */
  lemma {:induction false} HandshakesAreFollowed(cfg: Config, now: int, steps: seq<Step>, s: State)
    requires Run(cfg, Init(cfg, now), steps) == Some(s)
    ensures Followed(s)
    decreases |steps|
  {
    hide Do, WellFormed, TurnsRight;
    if steps != [] {
      hide Followed;
      var before := Run(cfg, Init(cfg, now), steps[..|steps| - 1]).value;
      HandshakesAreFollowed(cfg, now, steps[..|steps| - 1], before);
      RunShape(cfg, now, steps[..|steps| - 1], before);
      StepFollowed(cfg, before, steps[|steps| - 1], s);
    }
  }
}
