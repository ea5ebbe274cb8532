/**
 Forwarding one client request: what DefaultRequestHandler does with a frame, including the
 peek into a Produce request that decides whether the broker will reply at all.
 */
module RequestFrames {
  import opened Wrappers
  import opened Bytes
  import opened Streams
  import opened ResponseFrames
  import opened ProduceAcks

  const MAX_REQUEST_API_KEY := 20000

  datatype Config = Config(acks0Disabled: bool, forbidden: set<int>)

  /** mustReply: whether a reply is expected, and how many bytes were read to tell. */
  function MustReply(cfg: Config, key: int, version: int, s: seq<byte>): (r: Option<(bool, nat)>)
    ensures r.Some? ==> r.value.1 <= |s|
  {
    if key != API_KEY_PRODUCE || cfg.acks0Disabled then Some((true, 0))
    else
      var p := PeekAcks(version, s);
      if p.None? then None else Some((p.value.acks != 0, p.value.n))
  }

  // ---------------------------------------------------------------- forwarding

  /** What the header, and for a Produce request the peek behind it, tell. */
  datatype RequestHead = RequestHead(length: int, key: int, version: int, wantsReply: bool, peeked: nat)

  function HeadOf(cfg: Config, s: seq<byte>): (h: Option<RequestHead>)
    ensures h.Some? ==> 8 + h.value.peeked <= |s| && h.value.length > 4
  {
    if |s| < 8 || Get32(s) <= 4 then None
    else
      var length, key, version := Get32(s), Get16(s[4..]), Get16(s[6..]);
      if key < 0 || key > MAX_REQUEST_API_KEY || key in cfg.forbidden then None
      else
        var r := MustReply(cfg, key, version, s[8..]);
        if r.None? then None else Some(RequestHead(length, key, version, r.value.0, r.value.1))
  }

  /** It depends on the bytes read for it and on no others. */
  lemma HeadIsLocal(cfg: Config, s: seq<byte>, t: seq<byte>)
    requires HeadOf(cfg, s).Some?
    requires var n := 8 + HeadOf(cfg, s).value.peeked; |t| >= n && t[..n] == s[..n]
    ensures HeadOf(cfg, t) == HeadOf(cfg, s)
  {
    hide Get16, Get32, PeekAcks;
    var n := 8 + HeadOf(cfg, s).value.peeked;
    SameStart(s, t, n, 0);
    SameStart(s, t, n, 4);
    SameStart(s, t, n, 6);
    if PeekAcks(Get16(s[6..]), s[8..]).Some? && PeekAcks(Get16(s[6..]), s[8..]).value.n == n - 8 {
      assert s[8..][..n - 8] == s[..n][8..] && t[8..][..n - 8] == t[..n][8..];
      PeekIsLocal(Get16(s[6..]), s[8..], t[8..]);
    }
  }

  lemma SameStart(s: seq<byte>, t: seq<byte>, n: nat, k: nat)
    requires k + 2 <= n <= |s| && n <= |t| && s[..n] == t[..n]
    ensures Get16(s[k..]) == Get16(t[k..])
    ensures k + 4 <= n ==> Get32(s[k..]) == Get32(t[k..])
    ensures k == 0 ==> s[0..] == s && t[0..] == t
  {
    assert forall i | 0 <= i < n :: s[i] == s[..n][i] && t[i] == t[..n][i];
  }

  function RequestFrame(key: int, version: int, body: seq<byte>): seq<byte> {
    Put32(|body| + 4) + (Put16(key) + (Put16(version) + body))
  }

  /**
   What the head of a frame says: nothing for a key that is negative, above 20000 or forbidden; that a
   reply is expected, for any key but 0; for a Produce request what the peek says.
   */
  lemma HeadOfFrame(cfg: Config, key: int16, version: int16, body: seq<byte>)
    requires 0 < |body| <= 2147483643
    ensures var f := RequestFrame(key, version, body);
            && |f| == |body| + 8 && f[8..] == body
            && HeadOf(cfg, f)
               == if key < 0 || key > 20000 || key in cfg.forbidden then None
                  else if key != 0 || cfg.acks0Disabled then Some(RequestHead(|body| + 4, key, version, true, 0))
                  else
                    match PeekAcks(version, body)
                    case None => None
                    case Some(p) => Some(RequestHead(|body| + 4, key, version, p.acks != 0, p.n))
  {
    hide Put16, Put32, Get16, Get32, PeekAcks;
    var f := RequestFrame(key, version, body);
    Get32AfterPut32(|body| + 4, Put16(key) + (Put16(version) + body));
    Get16AfterPut16(key, Put16(version) + body);
    Get16AfterPut16(version, body);
    assert f[4..] == Put16(key) + (Put16(version) + body) && f[6..] == Put16(version) + body && f[8..] == body;
  }

  datatype ForwardedRequest = ForwardedRequest(key: int, version: int, wantsReply: bool, peeked: nat, n: nat)

  /** The outcome for a client stream that starts with `s`, when every read and write succeeds. */
  function ForwardRequest(cfg: Config, s: seq<byte>): (f: Option<ForwardedRequest>)
    ensures f.Some? ==> 8 <= f.value.n <= |s|
  {
    var h := HeadOf(cfg, s);
    if h.None? || h.value.length < 4 + h.value.peeked || |s| < h.value.length + 4 then None
    else Some(ForwardedRequest(h.value.key, h.value.version, h.value.wantsReply, h.value.peeked, h.value.length + 4))
  }

  /**
   A frame is forwarded whole, whatever follows it, just when its key is allowed; a Produce request
   must also be long enough for the peek.
   */
  lemma FrameIsForwarded(cfg: Config, key: int16, version: int16, body: seq<byte>, rest: seq<byte>)
    requires 0 < |body| <= 2147483643
    requires key == 0 && !cfg.acks0Disabled ==> PeekAcks(version, body).Some?
    ensures var f := RequestFrame(key, version, body);
            var r := ForwardRequest(cfg, f + rest);
            && (r.Some? <==> 0 <= key <= 20000 && key !in cfg.forbidden)
            && (r.Some? ==>
                  && r.value.n == |f| && r.value.key == key && r.value.version == version
                  && (key != 0 || cfg.acks0Disabled ==> r.value.wantsReply)
                  && (key == 0 && !cfg.acks0Disabled ==>
                        (r.value.wantsReply <==> PeekAcks(version, body).value.acks != 0)))
  {
    hide HeadOf, PeekAcks, RequestFrame;
    var f := RequestFrame(key, version, body);
    HeadOfFrame(cfg, key, version, body);
    if HeadOf(cfg, f).Some? {
      var n := 8 + HeadOf(cfg, f).value.peeked;
      assert (f + rest)[..n] == f[..n];
      HeadIsLocal(cfg, f, f + rest);
    } else {
      RefusedHead(cfg, key, version, body, rest);
    }
  }

  lemma RefusedHead(cfg: Config, key: int16, version: int16, body: seq<byte>, rest: seq<byte>)
    requires 0 < |body| <= 2147483643 && (key < 0 || key > 20000 || key in cfg.forbidden)
    ensures HeadOf(cfg, RequestFrame(key, version, body) + rest).None?
  {
    hide Put16, Put32, Get16, Get32, PeekAcks;
    var s := RequestFrame(key, version, body) + rest;
    var more := body + rest;
    assert s == Put32(|body| + 4) + (Put16(key) + (Put16(version) + more));
    Get32AfterPut32(|body| + 4, Put16(key) + (Put16(version) + more));
    assert s[4..] == Put16(key) + (Put16(version) + more);
    Get16AfterPut16(key, Put16(version) + more);
  }

  method ReadNullableString(src: Source) returns (ok: bool, taken: seq<byte>)
    modifies src
    ensures taken + src.pending == old(src.pending)
    ensures ok ==> SkipNullableString(old(src.pending)) == Some(|taken|)
    ensures old(src.Reliable()) ==> src.Reliable() && (ok <==> SkipNullableString(old(src.pending)).Some?)
  {
    var l, err := ReadFull(src, 2);
    if err.Some? {
      return false, l;
    }
    assert old(src.pending)[..2] == l;
    assert Get16(old(src.pending)) == Get16(l);
    var length := Get16(l);
    if length < -1 {
      return false, l;
    }
    if length > 0 {
      var data, e := ReadFull(src, length);
      return e.None?, l + data;
    }
    return true, l;
  }

  /** Versions 0 to 2 have none. */
  method ReadTransactionalId(src: Source, version: int) returns (ok: bool, taken: seq<byte>)
    modifies src
    ensures taken + src.pending == old(src.pending)
    ensures ok ==> (if 0 <= version <= 2 then Some(0) else SkipNullableString(old(src.pending))) == Some(|taken|)
    ensures old(src.Reliable()) ==>
              src.Reliable() && (ok <==> 0 <= version <= 2 || SkipNullableString(old(src.pending)).Some?)
  {
    if 0 <= version <= 2 {
      return true, [];
    }
    ok, taken := ReadNullableString(src);
  }

  /** The reads of RequestAcksReader, through a TeeReader that records them. */
  method ReadAcks(src: Source, version: int) returns (p: Option<Peek>, taken: seq<byte>)
    modifies src
    ensures taken + src.pending == old(src.pending)
    ensures p.Some? ==> PeekAcks(version, old(src.pending)) == p && p.value.n == |taken|
    ensures old(src.Reliable()) ==> src.Reliable() && (p.Some? <==> PeekAcks(version, old(src.pending)).Some?)
  {
    hide Get16, SkipNullableString;
    ghost var s := src.pending;
    var err;
    taken, err := ReadFull(src, 4);
    if err.Some? {
      return None, taken;
    }
    Further(s, [], taken, src.pending);
    var ok, more := ReadNullableString(src);
    Further(s, taken, more, src.pending);
    taken := taken + more;
    if !ok {
      return None, taken;
    }
    ok, more := ReadTransactionalId(src, version);
    Further(s, taken, more, src.pending);
    taken := taken + more;
    if !ok {
      return None, taken;
    }
    more, err := ReadFull(src, 2);
    Further(s, taken, more, src.pending);
    if err.Some? {
      return None, taken + more;
    }
    Get16Of(more, src.pending);
    return Some(Peek(Get16(more), |taken| + 2)), taken + more;
  }

  lemma Further(s: seq<byte>, taken: seq<byte>, more: seq<byte>, rest: seq<byte>)
    requires s == taken + (more + rest)
    ensures s == taken + more + rest && s[|taken|..] == more + rest && s[|taken + more|..] == rest
  {
  }

  /** The header and the peek: what is read before anything is written. */
  method ReadHead(src: Source, cfg: Config) returns (ok: bool, length: int, key: int, version: int, wantsReply: bool,
                                                     header: seq<byte>, peeked: seq<byte>)
    modifies src
    ensures header + peeked + src.pending == old(src.pending)
    ensures ok ==>
              var s := old(src.pending);
              |header| == 8 && HeadOf(cfg, s) == Some(RequestHead(length, key, version, wantsReply, |peeked|))
    ensures old(src.Reliable()) ==> src.Reliable() && (ok <==> HeadOf(cfg, old(src.pending)).Some?)
  {
    hide Get16, Get32, PeekAcks;
    ghost var s := src.pending;
    var err;
    header, err := ReadFull(src, 8);
    ok, length, key, version, wantsReply, peeked := false, 0, 0, 0, true, [];
    if err.Some? {
      return;
    }
    assert src.pending == s[8..];
    Get32Prefix(header, s[8..]);
    Get16Of(header[4..], s[8..]);
    Get16Of(header[6..], s[8..]);
    assert s[4..] == header[4..] + s[8..] && s[6..] == header[6..] + s[8..];
    length, key, version := Get32(header), Get16(header[4..]), Get16(header[6..]);
    if length <= 4 || key < 0 || key > MAX_REQUEST_API_KEY || key in cfg.forbidden {
      return;
    }
    if key == API_KEY_PRODUCE && !cfg.acks0Disabled {
      var p, taken := ReadAcks(src, version);
      peeked := taken;
      assert header + (peeked + src.pending) == s;
      if p.None? {
        return;
      }
      wantsReply := p.value.acks != 0;
    }
    ok := true;
  }

  /**
   DefaultRequestHandler.handleRequest from the header on. On success exactly one frame went
   to the broker, byte for byte; on failure what went is a prefix of what was read. On reliable
   connections it succeeds just when the frame is there and can be forwarded.
   */
  method HandleRequest(dst: Sink, src: Source, cfg: Config, bufLen: nat) returns (r: Option<ForwardedRequest>)
    requires bufLen >= 1
    modifies dst, src
    ensures r.Some? ==>
              && ForwardRequest(cfg, old(src.pending)) == r
              && src.pending == old(src.pending)[r.value.n..]
              && dst.received == old(dst.received) + old(src.pending)[..r.value.n]
    ensures Sent(old(dst.received), dst.received, old(src.pending))
    ensures old(src.Reliable()) && old(dst.Reliable()) ==> r == ForwardRequest(cfg, old(src.pending))
  {
    hide HeadOf;
    ghost var s := src.pending;
    var ok, length, key, version, wantsReply, header, peeked := ReadHead(src, cfg);
    if !ok {
      return None;
    }
    var size := length - (4 + |peeked|);
    Boundary(s, header + peeked, src.pending, size);
    ok := PassOn(dst, src, header, peeked, size, bufLen);
    r := if ok then Some(ForwardedRequest(key, version, wantsReply, |peeked|, length + 4)) else None;
  }

  lemma Boundary(s: seq<byte>, a: seq<byte>, rest: seq<byte>, k: int)
    requires s == a + rest
    ensures 0 <= k <= |rest| ==> s[|a| + k..] == rest[k..] && s[..|a| + k] == a + rest[..k]
  {
  }
}
