/**
 The broker's replies to the proxy's two requests, as the Kafka protocol lays them out, and
 what the proxy makes of them.
 */
module SaslReplies {
  import opened Wrappers
  import opened Bytes
  import opened Schema
  import opened SchemaTheorems
  import opened ProduceAcks
  import opened SaslReauth

  function Put64(i: int): (s: seq<byte>)
    ensures |s| == 8
  {
    var u := ToUint64(i);
    Put32(u / 0x1_0000_0000) + Put32(u % 0x1_0000_0000)
  }

  function PutNullableBytes(x: Option<seq<byte>>): seq<byte> {
    match x
    case None => Put32(-1)
    case Some(b) => Put32(|b|) + b
  }

  function PutStrings(ss: seq<seq<byte>>): seq<byte> {
    if ss == [] then [] else Put16(|ss[0]|) + ss[0] + PutStrings(ss[1..])
  }

  /** The payload of a SaslHandshake reply. */
  function HandshakeReply(kerr: int16, mechanisms: seq<seq<byte>>): seq<byte> {
    Put16(kerr) + (Put32(|mechanisms|) + PutStrings(mechanisms))
  }

  /** The payload of a SaslAuthenticate v1 reply. */
  function AuthenticateReply(kerr: int16, msg: Option<seq<byte>>, auth: Option<seq<byte>>,
                             lifetimeMs: int64): seq<byte> {
    Put16(kerr) + (PutNullableString(msg) + (PutNullableBytes(auth) + Put64(lifetimeMs)))
  }

  // ---------------------------------------------------------------- reading them back

  lemma U32AfterPut32(u: int, rest: seq<byte>)
    requires 0 <= u < 0x1_0000_0000
    ensures var s := Put32(u) + rest; U16(s) * 0x1_0000 + U16(s[2..]) == u && s[4..] == rest
  {
    hide Put16, U16;
    var s := Put32(u) + rest;
    var hi, lo := Put16(u / 0x1_0000), Put16(u % 0x1_0000);
    assert s == hi + (lo + rest);
    assert s[2..] == lo + rest;
    U16AfterPut16(u / 0x1_0000, lo + rest);
    U16AfterPut16(u % 0x1_0000, rest);
  }

  lemma Int64ReadBack(i: int64, rest: seq<byte>)
    ensures GetInt64(Put64(i) + rest) == Ok(i, 8)
  {
    hide Put32, U16;
    var u := ToUint64(i);
    var hi, lo := u / 0x1_0000_0000, u % 0x1_0000_0000;
    var s := Put64(i) + rest;
    assert s == Put32(hi) + (Put32(lo) + rest);
    U32AfterPut32(hi, Put32(lo) + rest);
    U32AfterPut32(lo, rest);
    assert s[4..][2..] == s[6..];
    WordOfInt64(i);
  }

  lemma BytesReadBack(x: Option<seq<byte>>, rest: seq<byte>)
    requires x.Some? ==> |x.value| <= MAX_INT32
    ensures GetBytes(PutNullableBytes(x) + rest) == Ok(x, |PutNullableBytes(x)|)
    ensures (PutNullableBytes(x) + rest)[|PutNullableBytes(x)|..] == rest
  {
    hide Put32, Get32;
    match x
    case None => Get32AfterPut32(-1, rest);
    case Some(b) =>
      assert PutNullableBytes(x) + rest == Put32(|b|) + (b + rest);
      Get32AfterPut32(|b|, b + rest);
  }

  lemma MessageReadBack(x: Option<seq<byte>>, rest: seq<byte>)
    requires Short(x)
    ensures GetNullableString(PutNullableString(x) + rest) == Ok(x, |PutNullableString(x)|)
    ensures (PutNullableString(x) + rest)[|PutNullableString(x)|..] == rest
  {
    match x
    case None => NullStringReadBack(rest);
    case Some(s) => StringReadBack(s, rest);
  }

  /** Pieces in front of the rest. */
  lemma FourPieces(a: seq<byte>, b: seq<byte>, c: seq<byte>, d: seq<byte>, extra: seq<byte>)
    ensures var s := a + (b + (c + d)) + extra;
            && s == a + (b + (c + (d + extra))) && s[|a|..] == b + (c + (d + extra))
            && s[|a|..][|b|..] == c + (d + extra) && s[|a|..][|b|..][|c|..] == d + extra
  {
  }

  /** Exactly the reply with error 0 and nothing after it renews the session, for the lifetime in it. */
  lemma AuthenticateReplyUnderstood(kerr: int16, msg: Option<seq<byte>>, auth: Option<seq<byte>>, lifetimeMs: int64,
                                    extra: seq<byte>)
    requires Short(msg) && (auth.Some? ==> |auth.value| <= MAX_INT32)
    ensures AuthenticateOutcome(AuthenticateReply(kerr, msg, auth, lifetimeMs) + extra)
            == if extra != [] then Undecodable else if kerr != 0 then Rejected else Accepted(lifetimeMs)
  {
    hide Put16, Put32, Put64, Get16, PutNullableString, PutNullableBytes, GetNullableString, GetBytes, GetInt64;
    FourPieces(Put16(kerr), PutNullableString(msg), PutNullableBytes(auth), Put64(lifetimeMs), extra);
    var last := Put64(lifetimeMs) + extra;
    Get16AfterPut16(kerr, PutNullableString(msg) + (PutNullableBytes(auth) + last));
    MessageReadBack(msg, PutNullableBytes(auth) + last);
    BytesReadBack(auth, last);
    Int64ReadBack(lifetimeMs, extra);
  }

  lemma {:induction false} StringsReadBack(ss: seq<seq<byte>>, rest: seq<byte>)
    requires forall i :: 0 <= i < |ss| ==> |ss[i]| <= MAX_INT16
    ensures GetStrings(|ss|, PutStrings(ss) + rest) == Ok(ss, |PutStrings(ss)|)
    ensures |PutStrings(ss)| >= 2 * |ss|
  {
    hide Put16, GetString;
    if ss != [] {
      var head, tail := Put16(|ss[0]|) + ss[0], PutStrings(ss[1..]);
      HeadThenTail(head, tail, rest);
      StringReadBack(ss[0], tail + rest);
      StringsReadBack(ss[1..], rest);
      assert [ss[0]] + ss[1..] == ss;
    }
  }

  lemma StringArrayReadBack(ss: seq<seq<byte>>, rest: seq<byte>)
    requires |ss| <= MAX_ARRAY_LENGTH && forall i :: 0 <= i < |ss| ==> |ss[i]| <= MAX_INT16
    ensures GetStringArray(Put32(|ss|) + (PutStrings(ss) + rest)) == Ok(Some(ss), 4 + |PutStrings(ss)|)
  {
    hide Put32, PutStrings, GetStrings, GetArrayLength;
    StringsReadBack(ss, rest);
    ArrayLengthReadBack(|ss|, PutStrings(ss) + rest);
  }

  /** Exactly the reply with error 0 and nothing after it lets the exchange go on. */
  lemma HandshakeReplyUnderstood(kerr: int16, mechanisms: seq<seq<byte>>, extra: seq<byte>)
    requires |mechanisms| <= MAX_ARRAY_LENGTH && forall i :: 0 <= i < |mechanisms| ==> |mechanisms[i]| <= MAX_INT16
    ensures HandshakeOutcome(HandshakeReply(kerr, mechanisms) + extra)
            == if extra != [] then Undecodable else if kerr != 0 then Rejected else Accepted(0)
  {
    hide Put16, Put32, Get16, PutStrings, GetStringArray;
    FourPieces(Put16(kerr), Put32(|mechanisms|), PutStrings(mechanisms), [], extra);
    var s := HandshakeReply(kerr, mechanisms) + extra;
    assert PutStrings(mechanisms) + [] == PutStrings(mechanisms) && [] + extra == extra;
    Get16AfterPut16(kerr, Put32(|mechanisms|) + (PutStrings(mechanisms) + extra));
    StringArrayReadBack(mechanisms, extra);
  }
}
