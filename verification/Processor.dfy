/**
 One proxied connection as a state machine. The request loop and the response loop share two
 bounded FIFO channels and the authentication state; each step below is one operation of one
 of them (a channel operation, a critical section, a read or a write), or a step of the
 client, the broker or the clock. A run is any list of steps, so the loops interleave
 arbitrarily. `Do` gives the state after a step, or `None` when the step is not enabled.
 */
module Processor {
  import opened Wrappers
  import opened Bytes
  import opened Responses
  import opened ResponseFrames
  import opened ProduceAcks
  import opened RequestFrames
  import opened SaslReauth
  import opened AuthState

  datatype Origin = Client | Proxy

  /** Framed requests have headers; Raw is the token that follows a SaslHandshake v0. */
  datatype Kind = Framed | Raw

  /** `wantsReply` is what the proxy expects. */
  datatype Request = Request(
    origin: Origin,
    kind: Kind,
    key: int,
    version: int,
    corr: int,
    wantsReply: bool,
    bytes: seq<byte>)

  /** RequestKeyVersion, as it is kept in openRequestsChannel. */
  datatype Marker = Marker(key: int, version: int)

  datatype RequestHandler = DefaultRequestHandler | SaslAuthV0RequestHandler
  datatype ResponseHandler = DefaultResponseHandler | SaslAuthV0ResponseHandler

  /** Everything that is fixed for a connection; `headerVersion` is ResponseHeaderVersion. */
  datatype Config = Config(
    maxOpenRequests: int,
    sessionLifetimeMs: int,
    reauthEnabled: bool,
    clientId: seq<byte>,
    requests: RequestFrames.Config,
    headerVersion: Marker -> int,
    fn: Option<Mapper>)

  const MIN_OPEN_REQUESTS := 16

  function MarkerCapacity(cfg: Config): nat {
    if cfg.maxOpenRequests < MIN_OPEN_REQUESTS then MIN_OPEN_REQUESTS else cfg.maxOpenRequests
  }

  function HandlerCapacity(cfg: Config): nat {
    MarkerCapacity(cfg) + 2
  }

  // ---------------------------------------------------------------- requests

  predicate IsV0Handshake(r: Request) {
    r.kind == Framed && r.key == API_KEY_SASL_HANDSHAKE && r.version == 0
  }

  /** The response handler pushed once `r` is sent; it serves the reply after that to `r`. */
  function HandlerAfter(r: Request): ResponseHandler {
    if IsV0Handshake(r) then SaslAuthV0ResponseHandler else DefaultResponseHandler
  }

  function NextRequestHandler(r: Request): RequestHandler {
    if IsV0Handshake(r) then SaslAuthV0RequestHandler else DefaultRequestHandler
  }

  function MarkerOf(r: Request): Marker {
    Marker(r.key, r.version)
  }

  /** A request of which the first bytes have been read; `left` bytes are to follow. */
  datatype Arrival = Arrival(r: Request, left: int)

  /**
   What DefaultRequestHandler reads before it acts. A request that is shorter than its own peek has
   less than nothing left and can not be sent to the end.
   */
  function ParseHead(cfg: Config, s: seq<byte>): (a: Option<Arrival>)
    ensures a.Some? ==> 8 <= |a.value.r.bytes| && a.value.r.bytes <= s
  {
    var h := HeadOf(cfg.requests, s);
    if h.None? then None
    else
      var r := Request(Client, Framed, h.value.key, h.value.version, 0, h.value.wantsReply, s[..8 + h.value.peeked]);
      Some(Arrival(r, h.value.length - 4 - h.value.peeked))
  }

  /** copySaslAuthRequest; the size is bounded as a signed int32 and copied as an unsigned one. */
  function ParseRawHead(s: seq<byte>): (a: Option<Arrival>)
    ensures a.Some? ==> 4 == |a.value.r.bytes| && a.value.r.bytes <= s
  {
    if |s| < 4 || Get32(s) > MAX_RESPONSE_SIZE then None
    else Some(Arrival(Request(Client, Raw, 0, 0, 0, true, s[..4]), Get32(s) % 0x1_0000_0000))
  }

  /** The request once all its bytes are there, with the correlation id they hold. */
  function Complete(r: Request): Request {
    if r.kind == Framed && |r.bytes| >= 12 then r.(corr := Get32(r.bytes[8..])) else r
  }

  /** Whether the broker answers; only a Produce request may go without a reply. */
  predicate Answers(r: Request) {
    r.origin == Client && r.kind == Framed && r.key == API_KEY_PRODUCE ==>
      |r.bytes| >= 8 && BrokerReplies(r.key, r.version, r.bytes[8..])
  }

  function ProxyRequest(key: int, version: int, corr: int, bytes: seq<byte>): Request {
    Request(Proxy, Framed, key, version, corr, true, bytes)
  }

  function HandshakeRequest(bytes: seq<byte>): Request {
    ProxyRequest(API_KEY_SASL_HANDSHAKE, SASL_HANDSHAKE_VERSION, REAUTH_HANDSHAKE_CORRELATION_ID, bytes)
  }

  function AuthenticateRequest(bytes: seq<byte>): Request {
    ProxyRequest(API_KEY_SASL_AUTHENTICATE, SASL_AUTHENTICATE_VERSION, REAUTH_CORRELATION_ID, bytes)
  }

  /** isProxyReauthResponse */
  predicate IsProxyReauthResponse(m: Marker, corr: int) {
    || (m.key == API_KEY_SASL_HANDSHAKE && corr == REAUTH_HANDSHAKE_CORRELATION_ID)
    || (m.key == API_KEY_SASL_AUTHENTICATE && corr == REAUTH_CORRELATION_ID)
  }

  // ---------------------------------------------------------------- replies

  function ContextOf(cfg: Config, m: Marker): Context {
    Context(cfg.headerVersion(m),
            if -0x8000 <= m.key < 0x8000 && -0x8000 <= m.version < 0x8000
            then ResponseModifier(m.key, m.version)
            else Failure(()),
            cfg.fn)
  }

  /** What the client is sent for a framed reply. */
  function Forwarding(cfg: Config, m: Marker, reply: seq<byte>): Option<seq<byte>> {
    var f := ForwardFrame(ContextOf(cfg, m), reply);
    if f.None? then None else Some(f.value.out)
  }

  /**
   What an in-order broker may answer to `r`: one frame with the correlation id of `r`, whose
   header tagged fields end within it; and nothing but a zero length to a raw token.
   */
  predicate CanReply(cfg: Config, r: Request, reply: seq<byte>) {
    if r.kind == Raw then reply == Put32(0)
    else
      && |reply| >= 8 && |reply| == Get32(reply) + 4 && Get32(reply[4..]) == r.corr
      && (cfg.headerVersion(MarkerOf(r)) >= 1 && r.origin == Client ==> HeaderTagsLength(1, reply[8..]).Some?)
  }

  // ---------------------------------------------------------------- states

  /** Where the request loop is. `at` is the time a re-auth attempt started. */
  datatype RequestPc =
    | Top                                   // about to check for an expired exchange
    | Begin                                 // about to take the request handler
    | Reading(deadline: Option<int>)        // blocked on the client, default handler
    | ReadingRaw                            // blocked on the client, SASL v0 handler
    | TimedOut                              // the read deadline passed
    | ReauthDue                             // inside runReauth, about to check again
    | ReauthBuild(at: int)
    | ReauthAuthenticate(at: int, bytes: seq<byte>) // handshake written, authenticate built
    | ReauthMark(at: int)                   // both requests written
    | PushMarker(leg: nat)                  // leg 0 is the handshake, leg 1 the authenticate
    | PushHandler(leg: nat)
    | PutToken                              // about to hand the turn to the default handler again
    | HaveHead(r: Request, left: int)       // about to push the marker
    | Sending(r: Request, sent: nat, left: int) // bytes read so far, how many of them are sent, bytes to follow
    | Sent(r: Request)                      // about to push the next handlers
    | RequestStopped

  datatype ResponsePc =
    | TakeHandler
    | AwaitReply(h: ResponseHandler)
    | HaveHeader                            // header read, about to pop the marker
    | Consuming                             // reading the rest of the proxy's own reply
    | Writing(rest: seq<byte>)              // forwarding to the client
    | ResponseStopped
    | Desynchronised                        // a handler met a reply of the other kind

  /**
   `wire` holds the requests completely sent, `cut` the part of one that a failed write left.
   `taken`, `popped`, `read` and `handled` count handlers taken, markers popped, replies of
   which reading began, and replies done with.
   */
  datatype State = State(
    now: int,
    // client
    unread: seq<byte>, consumed: seq<byte>, clientOut: seq<byte>,
    // request loop
    req: RequestPc, tokens: seq<RequestHandler>, cut: Option<Request>,
    // shared
    markers: seq<Marker>, handlers: seq<ResponseHandler>, auth: Auth,
    // broker
    wire: seq<Request>, served: nat, replies: seq<seq<byte>>,
    // response loop
    resp: ResponsePc, taken: nat, popped: nat, read: nat, handled: nat)

  function Init(cfg: Config, now: int): State {
    State(now, [], [], [], Top, [DefaultRequestHandler], None, [], [DefaultResponseHandler],
          NewAuth(cfg.sessionLifetimeMs, now), [], 0, [], TakeHandler, 0, 0, 0, 0)
  }

  // ---------------------------------------------------------------- steps

  datatype Step =
    | Tick(d: nat)
    | ClientSends(bytes: seq<byte>)
    | BrokerServes(reply: seq<byte>)
    // request loop
    | CheckExpired | TakeRequestHandler
    | ReadHead | ReadRawHead | ReadTimeout(partial: nat)
    | PushRequestMarker | ReadBody(k: nat) | SendPart(k: nat) | PushNextHandlers
    | CheckTimeout | CheckReauth | WriteHandshake(token: Option<seq<byte>>) | WriteAuthenticate | MarkReauth
    | PushReauthMarker | PushReauthHandler | PutRequestToken
    | RequestFails(partial: nat)
    // response loop
    | TakeResponseHandler | ReadReply | PopMarker | ConsumeReply | WritePart(k: nat)
    | ResponseFails

  function Do(cfg: Config, s: State, step: Step): Option<State> {
    match step
    case Tick(d) => Some(s.(now := s.now + d))
    case ClientSends(bytes) => Some(s.(unread := s.unread + bytes))
    case BrokerServes(reply) => DoServe(cfg, s, reply)
    case CheckExpired => DoCheckExpired(s)
    case TakeRequestHandler => DoTakeRequestHandler(s)
    case ReadHead => DoReadHead(cfg, s)
    case ReadRawHead => DoReadRawHead(s)
    case ReadTimeout(partial) => DoReadTimeout(s, partial)
    case PushRequestMarker => DoPushRequestMarker(cfg, s)
    case ReadBody(k) => DoReadBody(s, k)
    case SendPart(k) => DoSendPart(s, k)
    case PushNextHandlers => DoPushNextHandlers(cfg, s)
    case CheckTimeout => DoCheckTimeout(s)
    case CheckReauth => DoCheckReauth(cfg, s)
    case WriteHandshake(token) => DoWriteHandshake(cfg, s, token)
    case WriteAuthenticate => DoWriteAuthenticate(s)
    case MarkReauth => DoMarkReauth(s)
    case PushReauthMarker => DoPushReauthMarker(cfg, s)
    case PushReauthHandler => DoPushReauthHandler(cfg, s)
    case PutRequestToken => DoPutRequestToken(s)
    case RequestFails(partial) => DoRequestFails(cfg, s, partial)
    case TakeResponseHandler => DoTakeResponseHandler(s)
    case ReadReply => DoReadReply(s)
    case PopMarker => DoPopMarker(cfg, s)
    case ConsumeReply => DoConsumeReply(s)
    case WritePart(k) => DoWritePart(s, k)
    case ResponseFails => DoResponseFails(s)
  }

  /** The broker takes the next request on the wire, and answers it if it is to be answered. */
  function DoServe(cfg: Config, s: State, reply: seq<byte>): Option<State> {
    if s.served >= |s.wire| then None
    else if !Answers(s.wire[s.served]) then Some(s.(served := s.served + 1))
    else if !CanReply(cfg, s.wire[s.served], reply) then None
    else Some(s.(served := s.served + 1, replies := s.replies + [reply]))
  }

  // ---------------------------------------------------------------- the request loop

  function DoCheckExpired(s: State): Option<State> {
    if !s.req.Top? then None
    else Some(s.(req := if InFlightExpired(s.auth, s.now) then RequestStopped else Begin))
  }

  function DoTakeRequestHandler(s: State): Option<State> {
    if !s.req.Begin? then None
    else if s.tokens == [] then Some(s.(req := RequestStopped))
    else
      Some(s.(tokens := s.tokens[1..],
              req := if s.tokens[0] == DefaultRequestHandler then Reading(NextReadDeadline(s.auth)) else ReadingRaw))
  }

  /** Without a marker to push the handler goes on to write. */
  function DoReadHead(cfg: Config, s: State): Option<State> {
    var a := ParseHead(cfg, s.unread);
    if !s.req.Reading? || a.None? then None
    else
      var r, left := a.value.r, a.value.left;
      Some(Consume(s, |r.bytes|).(req := if r.wantsReply then HaveHead(r, left) else Sending(r, 0, left)))
  }

  function DoReadRawHead(s: State): Option<State> {
    var a := ParseRawHead(s.unread);
    if !s.req.ReadingRaw? || a.None? then None
    else Some(Consume(s, |a.value.r.bytes|).(req := Sending(a.value.r, 0, a.value.left)))
  }

  /** Any part of the rest of a request that has arrived. */
  function DoReadBody(s: State, k: nat): Option<State> {
    if !s.req.Sending? || k == 0 || k > s.req.left || k > |s.unread| then None
    else
      var r := s.req.r.(bytes := s.req.r.bytes + s.unread[..k]);
      Some(Consume(s, k).(req := Sending(r, s.req.sent, s.req.left - k)))
  }

  function Consume(s: State, n: nat): State
    requires n <= |s.unread|
  {
    s.(unread := s.unread[n..], consumed := s.consumed + s.unread[..n])
  }

  /** The bytes of a header read in part are lost. */
  function DoReadTimeout(s: State, partial: nat): Option<State> {
    if !s.req.Reading? || s.req.deadline.None? || s.now < s.req.deadline.value then None
    else if partial >= 8 || partial > |s.unread| then None
    else Some(Consume(s, partial).(req := TimedOut))
  }

  /** On a full channel the push waits, and fails after a while: RequestFails. */
  function DoPushRequestMarker(cfg: Config, s: State): Option<State> {
    if !s.req.HaveHead? || |s.markers| >= MarkerCapacity(cfg) then None
    else Some(s.(markers := s.markers + [MarkerOf(s.req.r)], req := Sending(s.req.r, 0, s.req.left)))
  }

  /** Any part of what has been read; the last one completes the request. */
  function DoSendPart(s: State, k: nat): Option<State> {
    if !s.req.Sending? || k == 0 || s.req.sent + k > |s.req.r.bytes| then None
    else if s.req.sent + k == |s.req.r.bytes| && s.req.left == 0 then
      Some(s.(wire := s.wire + [Complete(s.req.r)], req := Sent(Complete(s.req.r))))
    else Some(s.(req := Sending(s.req.r, s.req.sent + k, s.req.left)))
  }

  /** putNextHandlers, or putNextRequestHandler alone when no reply is expected. */
  function DoPushNextHandlers(cfg: Config, s: State): Option<State> {
    if !s.req.Sent? then None
    else
      var r := s.req.r;
      if |s.tokens| >= 1 then Some(s.(req := RequestStopped))
      else if !r.wantsReply then Some(s.(tokens := [DefaultRequestHandler], req := Top))
      else if |s.handlers| >= HandlerCapacity(cfg) then None // waits, and fails after a while: RequestFails
      else Some(s.(tokens := [NextRequestHandler(r)], handlers := s.handlers + [HandlerAfter(r)], req := Top))
  }

  /** After a read timeout: renew the session if that is due, then wait for the client again. */
  function DoCheckTimeout(s: State): Option<State> {
    if !s.req.TimedOut? then None
    else Some(s.(req := if NeedsReauth(s.auth, s.now) then ReauthDue else PutToken))
  }

  /** runReauth looks again, as another critical section. */
  function DoCheckReauth(cfg: Config, s: State): Option<State> {
    if !s.req.ReauthDue? then None
    else Some(s.(req := if cfg.reauthEnabled && NeedsReauth(s.auth, s.now) then ReauthBuild(s.now) else PutToken))
  }

  /** Both requests are built before the first is written. */
  function DoWriteHandshake(cfg: Config, s: State, token: Option<seq<byte>>): Option<State> {
    if !s.req.ReauthBuild? then None
    else
      var handshake := BuildReauthHandshake(cfg.clientId);
      var authenticate := BuildReauthAuthenticate(cfg.clientId, token);
      if handshake.None? || authenticate.None? then Some(s.(req := RequestStopped))
      else Some(s.(wire := s.wire + [HandshakeRequest(handshake.value)],
                   req := ReauthAuthenticate(s.req.at, authenticate.value)))
  }

  function DoWriteAuthenticate(s: State): Option<State> {
    if !s.req.ReauthAuthenticate? then None
    else Some(s.(wire := s.wire + [AuthenticateRequest(s.req.bytes)], req := ReauthMark(s.req.at)))
  }

  function DoMarkReauth(s: State): Option<State> {
    if !s.req.ReauthMark? then None
    else Some(s.(auth := MarkInFlight(s.auth, s.req.at), req := PushMarker(0)))
  }

  function ReauthMarker(leg: nat): Marker {
    if leg == 0 then Marker(API_KEY_SASL_HANDSHAKE, SASL_HANDSHAKE_VERSION)
    else Marker(API_KEY_SASL_AUTHENTICATE, SASL_AUTHENTICATE_VERSION)
  }

  /** Here a full channel is an error at once. */
  function DoPushReauthMarker(cfg: Config, s: State): Option<State> {
    if !s.req.PushMarker? then None
    else if |s.markers| >= MarkerCapacity(cfg) then Some(s.(req := RequestStopped))
    else Some(s.(markers := s.markers + [ReauthMarker(s.req.leg)], req := PushHandler(s.req.leg)))
  }

  function DoPushReauthHandler(cfg: Config, s: State): Option<State> {
    if !s.req.PushHandler? then None
    else if |s.handlers| >= HandlerCapacity(cfg) then Some(s.(req := RequestStopped))
    else Some(s.(handlers := s.handlers + [DefaultResponseHandler],
                 req := if s.req.leg == 0 then PushMarker(1) else PutToken))
  }

  function DoPutRequestToken(s: State): Option<State> {
    if !s.req.PutToken? then None
    else if |s.tokens| >= 1 then Some(s.(req := RequestStopped))
    else Some(s.(tokens := [DefaultRequestHandler], req := Top))
  }

  /** Any read or write may fail; a write may leave part of a request on the wire. */
  function DoRequestFails(cfg: Config, s: State, partial: nat): Option<State> {
    var stopped := s.(req := RequestStopped);
    match s.req
    case RequestStopped | ReauthMark(_) => None // nothing to fail there
    case Sending(r, sent, _) => Some(stopped.(cut := Some(Part(r, sent))))
    case Reading(_) | ReadingRaw =>
      // a head that did not come, or is refused, is not sent
      if partial > |s.unread| then None else Some(Consume(s, partial).(req := RequestStopped))
    case ReauthBuild(_) =>
      var handshake := BuildReauthHandshake(cfg.clientId);
      Some(if handshake.None? then stopped else stopped.(cut := Some(Part(HandshakeRequest(handshake.value), partial))))
    case ReauthAuthenticate(_, bytes) => Some(stopped.(cut := Some(Part(AuthenticateRequest(bytes), partial))))
    case _ => Some(stopped)
  }

  /** The first `n` bytes of a request. */
  function Part(r: Request, n: nat): Request {
    if n <= |r.bytes| then r.(bytes := r.bytes[..n]) else r
  }

  // ---------------------------------------------------------------- the response loop

  /** Reading of the reply with index `read - 1` has begun in the later states. */
  function Current(s: State): seq<byte> {
    if 1 <= s.read <= |s.replies| then s.replies[s.read - 1] else []
  }

  /** On an empty channel the loop waits, and fails after a while: ResponseFails. */
  function DoTakeResponseHandler(s: State): Option<State> {
    if !s.resp.TakeHandler? || s.handlers == [] then None
    else Some(s.(handlers := s.handlers[1..], taken := s.taken + 1, resp := AwaitReply(s.handlers[0])))
  }

  /** A raw reply is four bytes, less than the header of a framed one. */
  function DoReadReply(s: State): Option<State> {
    if !s.resp.AwaitReply? || s.read >= |s.replies| then None
    else
      var reply := s.replies[s.read];
      Some(s.(read := s.read + 1,
              resp := if s.resp.h == DefaultResponseHandler then if |reply| >= 8 then HaveHeader else Desynchronised
                      else if |reply| == 4 then Writing(reply) else Desynchronised))
  }

  /** On an empty channel the loop waits, and fails after a while: ResponseFails. */
  function DoPopMarker(cfg: Config, s: State): Option<State> {
    if !s.resp.HaveHeader? || s.markers == [] then None
    else Some(s.(markers := s.markers[1..], popped := s.popped + 1, resp := AfterHeader(cfg, s.markers[0], Current(s))))
  }

  function AfterHeader(cfg: Config, m: Marker, reply: seq<byte>): ResponsePc {
    if |reply| < 8 then Desynchronised
    else if IsProxyReauthResponse(m, Get32(reply[4..])) then Consuming
    else
      var out := Forwarding(cfg, m, reply);
      if out.None? then ResponseStopped else Writing(out.value)
  }

  /** consumeReauthResponse */
  function DoConsumeReply(s: State): Option<State> {
    var reply := Current(s);
    if !s.resp.Consuming? || |reply| < 8 then None
    else
      var payload := reply[8..];
      var isHandshake := Get32(reply[4..]) == REAUTH_HANDSHAKE_CORRELATION_ID;
      var outcome := if isHandshake then HandshakeOutcome(payload) else AuthenticateOutcome(payload);
      if !outcome.Accepted? then Some(s.(resp := ResponseStopped))
      else Some(s.(auth := if isHandshake then s.auth else CompleteReauth(s.auth, outcome.lifetimeMs, s.now),
                   resp := TakeHandler, handled := s.handled + 1))
  }

  function DoWritePart(s: State, k: nat): Option<State> {
    if !s.resp.Writing? || k > |s.resp.rest| || (k == 0 && s.resp.rest != []) then None
    else if k == |s.resp.rest| then
      Some(s.(clientOut := s.clientOut + s.resp.rest, resp := TakeHandler, handled := s.handled + 1))
    else Some(s.(clientOut := s.clientOut + s.resp.rest[..k], resp := Writing(s.resp.rest[k..])))
  }

  function DoResponseFails(s: State): Option<State> {
    if s.resp.ResponseStopped? then None else Some(s.(resp := ResponseStopped))
  }

  /** The state after a whole run, if every step of it was enabled. */
  function Run(cfg: Config, s: State, steps: seq<Step>): Option<State>
    decreases |steps|
  {
    if steps == [] then Some(s)
    else
      var before := Run(cfg, s, steps[..|steps| - 1]);
      if before.None? then None else Do(cfg, before.value, steps[|steps| - 1])
  }
}
