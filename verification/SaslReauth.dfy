/**
 The bytes of the proxy's own re-authentication exchange (KIP-368): the two requests it builds
 and what it reads from the two replies.
 */
module SaslReauth {
  import opened Wrappers
  import opened Bytes
  import opened Schema

  const API_KEY_SASL_HANDSHAKE := 17
  const API_KEY_SASL_AUTHENTICATE := 36
  const SASL_HANDSHAKE_VERSION := 1
  const SASL_AUTHENTICATE_VERSION := 1

  /** Reserved correlation ids, at the top of the int32 range. */
  const REAUTH_CORRELATION_ID := 0x7FFF_FFFE
  const REAUTH_HANDSHAKE_CORRELATION_ID := 0x7FFF_FFFD

  const MECHANISM: seq<byte> := [0x4F, 0x41, 0x55, 0x54, 0x48, 0x42, 0x45, 0x41, 0x52, 0x45, 0x52] // OAUTHBEARER

  /** Request.encode behind a length prefix; fails on an oversized client id or request. */
  function BuildRequest(key: int, version: int, corr: int, clientId: seq<byte>, body: seq<byte>): Option<seq<byte>> {
    var req := Put16(key) + Put16(version) + Put32(corr) + (Put16(|clientId|) + clientId + body);
    if |clientId| > MAX_INT16 || |req| > MAX_REQUEST_SIZE then None else Some(Put32(|req|) + req)
  }

  function BuildReauthHandshake(clientId: seq<byte>): Option<seq<byte>> {
    BuildRequest(API_KEY_SASL_HANDSHAKE, SASL_HANDSHAKE_VERSION, REAUTH_HANDSHAKE_CORRELATION_ID, clientId,
                 Put16(|MECHANISM|) + MECHANISM)
  }

  /** No token means that fetching it failed. */
  function BuildReauthAuthenticate(clientId: seq<byte>, token: Option<seq<byte>>): Option<seq<byte>> {
    if token.None? || |token.value| > MAX_INT32 then None
    else
      BuildRequest(API_KEY_SASL_AUTHENTICATE, SASL_AUTHENTICATE_VERSION, REAUTH_CORRELATION_ID, clientId,
                   Put32(|token.value|) + token.value)
  }

  /** Allocates a buffer, writes the length prefix and copies the request behind it. */
  method Prefixed(req: seq<byte>) returns (out: seq<byte>)
    ensures out == Put32(|req|) + req
  {
    var buf := new byte[4 + |req|];
    var prefix := Put32(|req|);
    for i := 0 to 4
      invariant buf[..i] == prefix[..i]
    {
      buf[i] := prefix[i];
    }
    for i := 0 to |req|
      invariant buf[..4] == prefix && buf[4..4 + i] == req[..i]
    {
      buf[4 + i] := req[i];
    }
    assert buf[..] == buf[..4] + buf[4..4 + |req|];
    out := buf[..];
  }

  method BuildReauthHandshakeRequest(clientId: seq<byte>) returns (out: Option<seq<byte>>)
    ensures out == BuildReauthHandshake(clientId)
  {
    out := EncodeRequest(API_KEY_SASL_HANDSHAKE, SASL_HANDSHAKE_VERSION, REAUTH_HANDSHAKE_CORRELATION_ID, clientId,
                         Put16(|MECHANISM|) + MECHANISM);
  }

  method BuildReauthRequest(clientId: seq<byte>, token: Option<seq<byte>>) returns (out: Option<seq<byte>>)
    ensures out == BuildReauthAuthenticate(clientId, token)
  {
    if token.None? || |token.value| > MAX_INT32 {
      return None;
    }
    out := EncodeRequest(API_KEY_SASL_AUTHENTICATE, SASL_AUTHENTICATE_VERSION, REAUTH_CORRELATION_ID, clientId,
                         Put32(|token.value|) + token.value);
  }

  method EncodeRequest(key: int, version: int, corr: int, clientId: seq<byte>, body: seq<byte>)
    returns (out: Option<seq<byte>>)
    ensures out == BuildRequest(key, version, corr, clientId, body)
  {
    if |clientId| > MAX_INT16 {
      return None;
    }
    var req := Put16(key) + Put16(version) + Put32(corr) + (Put16(|clientId|) + clientId + body);
    if |req| > MAX_REQUEST_SIZE {
      return None;
    }
    var framed := Prefixed(req);
    out := Some(framed);
  }

  /** A built request is one frame, and its header says what it was built with. */
  lemma BuiltRequestIsFrame(key: int16, version: int16, corr: int32, clientId: seq<byte>, body: seq<byte>)
    requires BuildRequest(key, version, corr, clientId, body).Some?
    ensures var f := BuildRequest(key, version, corr, clientId, body).value;
            && |f| >= 12 && |f| == Get32(f) + 4
            && Get16(f[4..]) == key && Get16(f[6..]) == version && Get32(f[8..]) == corr
  {
    hide Get16, Get32, Put16, Put32;
    var rest := Put16(|clientId|) + clientId + body;
    var req := Put16(key) + Put16(version) + Put32(corr) + rest;
    var f := Put32(|req|) + req;
    Get32AfterPut32(|req|, req);
    assert f[4..] == Put16(key) + (Put16(version) + Put32(corr) + rest);
    Get16AfterPut16(key, Put16(version) + Put32(corr) + rest);
    assert f[6..] == Put16(version) + (Put32(corr) + rest);
    Get16AfterPut16(version, Put32(corr) + rest);
    assert f[8..] == Put32(corr) + rest;
    Get32AfterPut32(corr, rest);
  }

  // ---------------------------------------------------------------- replies

  datatype Outcome = Accepted(lifetimeMs: int) | Rejected | Undecodable

  function GetInt64(s: seq<byte>): Dec<int> {
    if |s| < 8 then Err(InsufficientData, |s|)
    else Ok(ToInt64(((U16(s) * 0x1_0000 + U16(s[2..])) * 0x1_0000 + U16(s[4..])) * 0x1_0000 + U16(s[6..])), 8)
  }

  function GetBytes(s: seq<byte>): (d: Dec<Option<seq<byte>>>)
    ensures d.n <= |s|
  {
    var l := GetInt32(s);
    if l.Err? then Err(l.error, l.n)
    else if l.value == -1 then Ok(None, l.n)
    else
      var d := GetRawBytes(s[l.n..], l.value);
      if d.Err? then Err(d.error, l.n + d.n) else Ok(Some(d.value), l.n + d.n)
  }

  function GetStrings(count: nat, s: seq<byte>): (d: Dec<seq<seq<byte>>>)
    ensures d.n <= |s|
  {
    if count == 0 then Ok([], 0)
    else
      var first := GetString(s);
      if first.Err? then Err(first.error, first.n)
      else Cons(first.value, first.n, GetStrings(count - 1, s[first.n..]))
  }

  function GetStringArray(s: seq<byte>): (d: Dec<Option<seq<seq<byte>>>>)
    ensures d.n <= |s|
  {
    var l := GetArrayLength(s);
    if l.Err? then Err(l.error, l.n)
    else if l.value == -1 then Ok(None, l.n)
    else if l.value < -1 then Err(InvalidArrayLength, l.n)
    else
      var d := GetStrings(l.value, s[l.n..]);
      if d.Err? then Err(d.error, l.n + d.n) else Ok(Some(d.value), l.n + d.n)
  }

  /** completeReauthHandshake on the reply's payload. */
  function HandshakeOutcome(payload: seq<byte>): Outcome {
    var kerr := GetInt16(payload);
    if kerr.Err? then Undecodable
    else
      var mechanisms := GetStringArray(payload[kerr.n..]);
      if mechanisms.Err? || kerr.n + mechanisms.n != |payload| then Undecodable
      else if kerr.value != 0 then Rejected
      else Accepted(0)
  }

  /** consumeReauthResponse on the payload of a SaslAuthenticate v1 reply. */
  function AuthenticateOutcome(payload: seq<byte>): Outcome {
    var kerr := GetInt16(payload);
    if kerr.Err? then Undecodable
    else
      var s := payload[kerr.n..];
      var msg := GetNullableString(s);
      if msg.Err? then Undecodable
      else
        var s := s[msg.n..];
        var auth := GetBytes(s);
        if auth.Err? then Undecodable
        else
          var lifetime := GetInt64(s[auth.n..]);
          if lifetime.Err? || kerr.n + msg.n + auth.n + lifetime.n != |payload| then Undecodable
          else if kerr.value != 0 then Rejected
          else Accepted(lifetime.value)
  }
}
