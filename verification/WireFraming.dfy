/**
 What stands on the wire is whole frames, each with the header that the proxy acted on. So the
 peek into each Produce request is known, and with it when the proxy expects just the replies
 that the broker gives.
 */
module WireFraming {
  import opened Wrappers
  import opened Bytes
  import AuthState
  import opened ProduceAcks
  import RequestFrames
  import ResponseFrames
  import opened SaslReauth
  import opened Processor
  import opened WireHistory
  import opened ProcessorInvariants

  /** The header of a request says what the proxy takes the request for. */
  predicate HeaderFits(r: Request) {
    if r.kind == Raw then |r.bytes| >= 4
    else |r.bytes| >= 8 && Get16(r.bytes[4..]) == r.key && Get16(r.bytes[6..]) == r.version
  }

  /** The length of the frame that the first bytes of a request announce. */
  function FrameLength(r: Request): int
    requires HeaderFits(r)
  {
    4 + if r.kind == Raw then Get32(r.bytes) % 0x1_0000_0000 else Get32(r.bytes)
  }

  /** The bytes of a request are one frame with a fitting header. */
  predicate IsFramed(r: Request) {
    HeaderFits(r) && |r.bytes| == FrameLength(r)
      && (r.kind == Framed && |r.bytes| >= 12 ==> Get32(r.bytes[8..]) == r.corr)
  }

  /** What has arrived of a request and what is left make up its frame. */
  predicate Arriving(r: Request, left: int) {
    HeaderFits(r) && |r.bytes| + left == FrameLength(r)
  }

  /** A client's request is what its head says; that includes whether the proxy expects a reply. */
  predicate AsPeeked(cfg: Config, r: Request) {
    r.origin == Client && r.kind == Framed ==>
      var h := RequestFrames.HeadOf(cfg.requests, r.bytes);
      h.Some? && h.value.key == r.key && h.value.version == r.version && h.value.wantsReply == r.wantsReply
  }

  predicate FramingInv(cfg: Config, s: State) {
    && (forall i :: 0 <= i < |s.wire| ==> IsFramed(s.wire[i]) && AsPeeked(cfg, s.wire[i]))
    && match s.req
       case HaveHead(r, left) => Arriving(r, left) && AsPeeked(cfg, r)
       case Sending(r, _, left) => Arriving(r, left) && AsPeeked(cfg, r)
       case ReauthAuthenticate(_, bytes) => IsFramed(AuthenticateRequest(bytes))
       case _ => true
  }

  lemma Get16Prefix(s: seq<byte>, rest: seq<byte>)
    requires |s| >= 2
    ensures Get16(s + rest) == Get16(s)
  {
  }

  /** More bytes of a request leave its header as it is. */
  lemma HeaderStays(r: Request, more: seq<byte>)
    requires HeaderFits(r)
    ensures var q := r.(bytes := r.bytes + more); HeaderFits(q) && FrameLength(q) == FrameLength(r)
  {
    hide Get16, Get32;
    ResponseFrames.Get32Prefix(r.bytes, more);
    if r.kind == Framed {
      assert (r.bytes + more)[4..] == r.bytes[4..] + more && (r.bytes + more)[6..] == r.bytes[6..] + more;
      Get16Prefix(r.bytes[4..], more);
      Get16Prefix(r.bytes[6..], more);
    }
  }

  lemma HeadArrives(cfg: Config, s: seq<byte>)
    ensures var a := ParseHead(cfg, s); a.Some? ==> Arriving(a.value.r, a.value.left) && AsPeeked(cfg, a.value.r)
    ensures var a := ParseRawHead(s); a.Some? ==> Arriving(a.value.r, a.value.left) && AsPeeked(cfg, a.value.r)
  {
    hide Get32, Get16, RequestFrames.MustReply;
    var a, b := ParseHead(cfg, s), ParseRawHead(s);
    if a.Some? {
      var n := |a.value.r.bytes|;
      assert s == s[..n] + s[n..];
      assert s[4..] == s[..n][4..] + s[n..] && s[6..] == s[..n][6..] + s[n..];
      ResponseFrames.Get32Prefix(s[..n], s[n..]);
      Get16Prefix(s[..n][4..], s[n..]);
      Get16Prefix(s[..n][6..], s[n..]);
      RequestFrames.HeadIsLocal(cfg.requests, s, s[..n]);
    }
    if b.Some? {
      assert s == s[..4] + s[4..];
      ResponseFrames.Get32Prefix(s[..4], s[4..]);
    }
  }

  lemma BodyArrives(cfg: Config, r: Request, left: int, more: seq<byte>)
    requires Arriving(r, left) && AsPeeked(cfg, r)
    ensures var q := r.(bytes := r.bytes + more); Arriving(q, left - |more|) && AsPeeked(cfg, q)
  {
    hide HeaderFits, FrameLength, RequestFrames.HeadOf;
    HeaderStays(r, more);
    if r.origin == Client && r.kind == Framed {
      RequestFrames.HeadIsLocal(cfg.requests, r.bytes, r.bytes + more);
    }
  }

  lemma ArrivedIsFramed(cfg: Config, r: Request)
    requires Arriving(r, 0) && AsPeeked(cfg, r)
    ensures IsFramed(Complete(r)) && AsPeeked(cfg, Complete(r))
  {
    hide Get16, Get32, RequestFrames.HeadOf;
  }

  lemma BuiltIsFramed(cfg: Config, token: Option<seq<byte>>)
    ensures BuildReauthHandshake(cfg.clientId).Some? ==>
              IsFramed(HandshakeRequest(BuildReauthHandshake(cfg.clientId).value))
    ensures BuildReauthAuthenticate(cfg.clientId, token).Some? ==>
              IsFramed(AuthenticateRequest(BuildReauthAuthenticate(cfg.clientId, token).value))
  {
    hide BuildRequest, Get16, Get32, Put16, Put32;
    var body := Put16(|MECHANISM|) + MECHANISM;
    if BuildReauthHandshake(cfg.clientId).Some? {
      BuiltRequestIsFrame(API_KEY_SASL_HANDSHAKE, SASL_HANDSHAKE_VERSION, REAUTH_HANDSHAKE_CORRELATION_ID, cfg.clientId,
                          body);
    }
    if BuildReauthAuthenticate(cfg.clientId, token).Some? {
      BuiltRequestIsFrame(API_KEY_SASL_AUTHENTICATE, SASL_AUTHENTICATE_VERSION, REAUTH_CORRELATION_ID, cfg.clientId,
                          Put32(|token.value|) + token.value);
    }
  }

  lemma SameFraming(cfg: Config, s: State, t: State)
    requires FramingInv(cfg, s) && t.wire == s.wire
    requires t.req == s.req || (!t.req.HaveHead? && !t.req.Sending? && !t.req.ReauthAuthenticate?)
    ensures FramingInv(cfg, t)
  {
    hide IsFramed, AsPeeked, Arriving, AuthenticateRequest;
  }

  lemma ReadsFramed(cfg: Config, s: State, k: nat, t: State)
    requires FramingInv(cfg, s)
    requires DoReadHead(cfg, s) == Some(t) || DoReadRawHead(s) == Some(t) || DoReadBody(s, k) == Some(t)
             || DoPushRequestMarker(cfg, s) == Some(t)
    ensures FramingInv(cfg, t)
  {
    hide IsFramed, AsPeeked, Arriving, ParseHead, ParseRawHead, AuthenticateRequest;
    HeadArrives(cfg, s.unread);
    if s.req.Sending? {
      BodyArrives(cfg, s.req.r, s.req.left, s.unread[..k]);
    }
  }

  lemma WritesFramed(cfg: Config, s: State, k: nat, token: Option<seq<byte>>, t: State)
    requires FramingInv(cfg, s)
    requires DoSendPart(s, k) == Some(t) || DoWriteHandshake(cfg, s, token) == Some(t)
             || DoWriteAuthenticate(s) == Some(t)
    ensures FramingInv(cfg, t)
  {
    hide IsFramed, AsPeeked, Arriving, Complete;
    hide BuildReauthHandshake, BuildReauthAuthenticate, HandshakeRequest, AuthenticateRequest;
    BuiltIsFramed(cfg, token);
    ProxyIsPeeked(cfg);
    if s.req.Sending? && s.req.left == 0 {
      ArrivedIsFramed(cfg, s.req.r);
    }
  }

  lemma ProxyIsPeeked(cfg: Config)
    ensures forall bytes :: AsPeeked(cfg, HandshakeRequest(bytes)) && AsPeeked(cfg, AuthenticateRequest(bytes))
  {
  }

  lemma FramingStep(cfg: Config, s: State, step: Step, t: State)
    requires FramingInv(cfg, s) && Do(cfg, s, step) == Some(t)
    ensures FramingInv(cfg, t)
  {
    hide FramingInv, DoReadHead, DoReadRawHead, DoReadBody;
    hide DoPushRequestMarker, DoSendPart, DoWriteHandshake, DoWriteAuthenticate;
    hide AfterHeader, CanReply, Answers, BuildReauthHandshake, HandshakeOutcome, AuthenticateOutcome, Get32;
    hide AuthState.NeedsReauth, AuthState.MarkInFlight, AuthState.CompleteReauth, AuthState.InFlightExpired;
    hide AuthState.NextReadDeadline;
    match step
    case ReadHead => ReadsFramed(cfg, s, 0, t);
    case ReadRawHead => ReadsFramed(cfg, s, 0, t);
    case ReadBody(k) => ReadsFramed(cfg, s, k, t);
    case PushRequestMarker => ReadsFramed(cfg, s, 0, t);
    case SendPart(k) => WritesFramed(cfg, s, k, None, t);
    case WriteHandshake(token) => WritesFramed(cfg, s, 0, token, t);
    case WriteAuthenticate => WritesFramed(cfg, s, 0, None, t);
    case _ => SameFraming(cfg, s, t);
  }

  /**
   Everything on the wire is whole frames, and each header is the one the proxy acted on; so is
   the peek behind it.
   */
  lemma {:induction false} WireIsFramed(cfg: Config, now: int, steps: seq<Step>, s: State)
    requires Run(cfg, Init(cfg, now), steps) == Some(s)
    ensures forall i :: 0 <= i < |s.wire| ==> IsFramed(s.wire[i]) && AsPeeked(cfg, s.wire[i])
    ensures FramingInv(cfg, s)
    decreases |steps|
  {
    hide Do, IsFramed, AsPeeked;
    if steps != [] {
      var before := Run(cfg, Init(cfg, now), steps[..|steps| - 1]).value;
      WireIsFramed(cfg, now, steps[..|steps| - 1], before);
      FramingStep(cfg, before, steps[|steps| - 1], s);
    }
  }

  /**
   Whose turn it is, by the bytes on the wire: at the top of an iteration the SASL v0 handler exactly
   when the last request that is to be answered is a SaslHandshake (key 17) of version 0.
   */
  lemma TurnByBytes(cfg: Config, now: int, steps: seq<Step>, s: State)
    requires Run(cfg, Init(cfg, now), steps) == Some(s) && (s.req.Top? || s.req.Begin?)
    ensures |s.tokens| == 1
    ensures s.tokens[0] == SaslAuthV0RequestHandler
            <==> Replying(s.wire) != []
                 && var r := Replying(s.wire)[|Replying(s.wire)| - 1];
                    r.kind == Framed && |r.bytes| >= 8 && Get16(r.bytes[4..]) == 17 && Get16(r.bytes[6..]) == 0
  {
    hide Do, WellFormed, IsFramed, Get16, Get32;
    RunShape(cfg, now, steps, s);
    WireIsFramed(cfg, now, steps, s);
    var e := Replying(s.wire);
    if e != [] {
      var i := ExpectedOnWire(s.wire, |e| - 1);
      if e[|e| - 1].kind == Framed {
        FramedHeader(e[|e| - 1]);
      }
    }
  }

  lemma FramedHeader(r: Request)
    requires IsFramed(r) && r.kind == Framed
    ensures |r.bytes| >= 8 && Get16(r.bytes[4..]) == r.key && Get16(r.bytes[6..]) == r.version
  {
    hide Get16, Get32;
  }

  lemma {:induction false} ExpectedOnWire(w: seq<Request>, i: nat) returns (j: nat)
    requires i < |Replying(w)|
    ensures j < |w| && w[j] == Replying(w)[i]
  {
    var before := Replying(w[..|w| - 1]);
    if i < |before| {
      j := ExpectedOnWire(w[..|w| - 1], i);
    } else {
      j := |w| - 1;
    }
  }

  // ---------------------------------------------------------------- when the proxy expects the right replies

  predicate IsProduce(r: Request) {
    r.origin == Client && r.kind == Framed && r.key == 0
  }

  /** The peek into a whole request that was sent. */
  lemma PeekedRequest(cfg: Config, r: Request)
    requires IsProduce(r) && AsPeeked(cfg, r)
    ensures |r.bytes| >= 8
    ensures if cfg.requests.acks0Disabled then r.wantsReply
            else PeekExpects(r.version, r.bytes[8..]) == Some(r.wantsReply)
  {
    hide Get16, Get32, PeekAcks;
  }

  /** Only Produce requests count: the proxy expects what the broker does just if it does for them. */
  lemma OnlyProduceMatters(cfg: Config, now: int, steps: seq<Step>, s: State)
    requires Run(cfg, Init(cfg, now), steps) == Some(s)
    ensures PeeksRight(s.wire) <==>
            forall i :: 0 <= i < |s.wire| && IsProduce(s.wire[i]) ==>
              (Answers(s.wire[i]) <==> s.wire[i].wantsReply)
  {
    hide Do, Shape, BrokerReplies, RequestFrames.HeadOf;
    WireIsFramed(cfg, now, steps, s);
    RunShape(cfg, now, steps, s);
    ShapeIsSendable(s);
  }

  lemma ShapeIsSendable(s: State)
    requires Shape(s)
    ensures forall i :: 0 <= i < |s.wire| ==> Sendable(s.wire[i])
  {
    forall i | 0 <= i < |s.wire|
      ensures Sendable(s.wire[i])
    {
      WireIsSendable(s.wire, i);
    }
  }

  lemma {:induction false} WireIsSendable(w: seq<Request>, i: nat)
    requires WellFormed(w) && i < |w|
    ensures Sendable(w[i])
  {
    if i < |w| - 1 {
      WireIsSendable(w[..|w| - 1], i);
    }
  }

  /** With Produce requests up to version 8 it always does. */
  lemma OldProduceIsExpectedRight(cfg: Config, now: int, steps: seq<Step>, s: State)
    requires Run(cfg, Init(cfg, now), steps) == Some(s) && !cfg.requests.acks0Disabled
    requires forall i :: 0 <= i < |s.wire| && IsProduce(s.wire[i]) ==> s.wire[i].version < 9
    ensures PeeksRight(s.wire)
  {
    hide Do, PeekAcks, RequestFrames.HeadOf, PeeksRight;
    OnlyProduceMatters(cfg, now, steps, s);
    WireIsFramed(cfg, now, steps, s);
    forall i | 0 <= i < |s.wire| && IsProduce(s.wire[i])
      ensures Answers(s.wire[i]) <==> s.wire[i].wantsReply
    {
      PeekedRequest(cfg, s.wire[i]);
    }
  }

  /** With acks 0 disabled it does just if no client asks for it. */
  lemma DisabledAcks0(cfg: Config, now: int, steps: seq<Step>, s: State)
    requires Run(cfg, Init(cfg, now), steps) == Some(s) && cfg.requests.acks0Disabled
    ensures PeeksRight(s.wire) <==>
            forall i :: 0 <= i < |s.wire| && IsProduce(s.wire[i]) ==>
              Answers(s.wire[i])
  {
    hide Do, RequestFrames.HeadOf, PeeksRight, Answers;
    OnlyProduceMatters(cfg, now, steps, s);
    WireIsFramed(cfg, now, steps, s);
    forall i | 0 <= i < |s.wire| && IsProduce(s.wire[i])
      ensures s.wire[i].wantsReply
    {
      PeekedRequest(cfg, s.wire[i]);
    }
  }

  /**
   A Produce request of version 9 or later without header tags: the proxy expects what the broker
   does just under the condition on id, acks and timeout.
   */
  lemma FlexibleProduceIsExpectedRight(cfg: Config, r: Request, corr: int, client: Option<seq<byte>>,
                                       txn: Option<seq<byte>>, acks: int16, timeout: int32, rest: seq<byte>)
    requires IsProduce(r) && AsPeeked(cfg, r) && !cfg.requests.acks0Disabled && r.version >= 9
    requires Short(client) && (txn.Some? ==> |txn.value| <= MAX_INT32)
    requires |r.bytes| >= 8 && r.bytes[8..] == FlexibleBody(corr, client, [0], txn, acks, timeout, rest)
    ensures (Answers(r) <==> r.wantsReply) <==> PeekFits(txn, acks, timeout)
  {
    hide FlexibleBody, BrokerReplies, PeekExpects, PeekFits, AsPeeked;
    PeekedRequest(cfg, r);
    FlexibleAcksPeekIsRightWhen(r.version, corr, client, txn, acks, timeout, rest);
  }
}
