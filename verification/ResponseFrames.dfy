/**
 Forwarding one broker response: what DefaultResponseHandler does with a frame that is not the
 reply to a request of the proxy's own. A stream of responses has no end, so each frame must
 consume exactly its own bytes and leave the stream at the next frame.
 */
module ResponseFrames {
  import opened Wrappers
  import opened Bytes
  import opened Schema
  import opened Responses
  import opened Streams
  import opened HeaderTags
  import SchemaTheorems
  import Varint

  /** MaxResponseSize */
  const MAX_RESPONSE_SIZE := 100 * 1024 * 1024

  /** How many bytes are consumed and what is sent to the client. */
  datatype Forwarded = Forwarded(n: nat, out: seq<byte>)

  /** What the handler is given besides the streams; a negative header version is an unknown key. */
  datatype Context = Context(headerVersion: int, modifier: Result<Option<Modifier>, ()>, fn: Option<Mapper>)

  function HeaderTagsLength(headerVersion: int, s: seq<byte>): (n: Option<nat>)
    ensures n.Some? ==> n.value <= |s|
  {
    if headerVersion < 1 then Some(0) else SkipTagged(s)
  }

  /** The outcome on a stream that starts with `s`, when every read and write succeeds. */
  function ForwardFrame(ctx: Context, s: seq<byte>): (f: Option<Forwarded>)
    ensures f.Some? ==> f.value.n <= |s|
  {
    if |s| < 8 || Get32(s) <= 4 || ctx.headerVersion < 0 then None
    else
      var tags := HeaderTagsLength(ctx.headerVersion, s[8..]);
      if tags.None? || ctx.modifier.Failure? then None
      else
        var length := Get32(s);
        var body := length - 4 - tags.value;
        if body < 0 || length + 4 > |s| then None
        else if ctx.modifier.value.None? then Some(Forwarded(length + 4, s[..length + 4]))
        else if length > MAX_RESPONSE_SIZE then None
        else
          var m := ctx.modifier.value.value;
          var modified := Apply(m.kind, m.ty, Some(s[8 + tags.value..length + 4]), ctx.fn);
          if modified.Failure? || modified.value.None? then None
          else
            var b := modified.value.value;
            Some(Forwarded(length + 4, Put32(|b| + 4 + tags.value) + s[4..8 + tags.value] + b))
  }

  // ---------------------------------------------------------------- alignment

  /** A whole frame: a length prefix and as many bytes as it says. */
  ghost predicate IsFrame(f: seq<byte>) {
    |f| >= 8 && Get32(f) > 4 && |f| == Get32(f) + 4
  }

  lemma Get32Prefix(s: seq<byte>, rest: seq<byte>)
    requires |s| >= 4
    ensures Get32(s + rest) == Get32(s)
  {
    assert (s + rest)[2..][..2] == s[2..][..2];
  }

  lemma EncodedLength(kind: ResponseKind, ty: Ty, resp: Option<seq<byte>>, fn: Option<Mapper>)
    requires var r := Apply(kind, ty, resp, fn); r.Success? && r.value.Some?
    ensures |Apply(kind, ty, resp, fn).value.value| <= MAX_REQUEST_SIZE
  {
    hide Decode, Rewrite, Measure, Emit;
    var decoded := DecodeSchema(resp, ty);
    var w := Rewrite(kind, decoded.value, fn).value;
    SchemaTheorems.TwoPassAgreement(ty, w);
  }

  /**
   A forwarded response consumes exactly Length + 4 bytes, and what is emitted is a frame whose
   length field matches its content, with the same correlation id and the same header
   tagged-field bytes. Without a modifier it is the same bytes.
   */
  lemma ForwardedFrameIsAligned(ctx: Context, s: seq<byte>)
    requires ForwardFrame(ctx, s).Some?
    ensures var f := ForwardFrame(ctx, s).value;
            var tags := HeaderTagsLength(ctx.headerVersion, s[8..]).value;
            && f.n == Get32(s) + 4
            && |f.out| >= 8 + tags && |f.out| == Get32(f.out) + 4
            && f.out[4..8 + tags] == s[4..8 + tags]
            && (ctx.modifier.value.None? ==> f.out == s[..f.n])
  {
    hide HeaderTagsLength, Apply, Get32, Put32;
    var f := ForwardFrame(ctx, s).value;
    var tags := HeaderTagsLength(ctx.headerVersion, s[8..]).value;
    if ctx.modifier.value.None? {
      Get32Prefix(s[..f.n], s[f.n..]);
      assert s[..f.n] + s[f.n..] == s;
    } else {
      var m := ctx.modifier.value.value;
      EncodedLength(m.kind, m.ty, Some(s[8 + tags..f.n]), ctx.fn);
      var b := Apply(m.kind, m.ty, Some(s[8 + tags..f.n]), ctx.fn).value.value;
      assert f.out == Put32(|b| + 4 + tags) + (s[4..8 + tags] + b);
      Get32AfterPut32(|b| + 4 + tags, s[4..8 + tags] + b);
    }
  }

  /** What follows a frame on the stream has no influence on how it is forwarded. */
  lemma ForwardingIsLocal(ctx: Context, f: seq<byte>, rest: seq<byte>)
    requires IsFrame(f)
    ensures ForwardFrame(ctx, f + rest) == ForwardFrame(ctx, f)
    ensures ForwardFrame(ctx, f).Some? ==> ForwardFrame(ctx, f).value.n == |f|
  {
    hide Apply, Get32, Put32, SkipTagged;
    var s := f + rest;
    Get32Prefix(f, rest);
    assert s[8..] == f[8..] + rest;
    if ctx.headerVersion >= 1 && SkipTagged(f[8..]).Some? {
      SkipTaggedPrefix(f[8..], rest);
    }
    if ctx.headerVersion >= 1 && SkipTagged(f[8..]).None? && SkipTagged(s[8..]).Some?
      && 8 + SkipTagged(s[8..]).value <= |f| {
      SkippedIsPrefix(f[8..], rest);
    }
    var tags := HeaderTagsLength(ctx.headerVersion, s[8..]);
    if tags.Some? && 8 + tags.value <= |f| {
      assert s[8 + tags.value..|f|] == f[8 + tags.value..|f|];
      assert s[4..8 + tags.value] == f[4..8 + tags.value];
      assert s[..|f|] == f[..|f|];
    }
  }

  lemma {:induction false} VarintWithin(s: seq<byte>, rest: seq<byte>, i: nat)
    requires i <= Varint.MAX_VARINT_LEN && Varint.ReadUvarint(s + rest, i).Done?
    requires Varint.ReadUvarint(s + rest, i).n <= |s|
    ensures Varint.ReadUvarint(s, i) == Varint.ReadUvarint(s + rest, i)
    decreases |s|
  {
    if s[0] >= 0x80 {
      assert (s + rest)[1..] == s[1..] + rest;
      VarintWithin(s[1..], rest, i + 1);
    }
  }

  lemma SkipTagWithin(s: seq<byte>, rest: seq<byte>)
    requires SkipTag(s + rest).Some? && SkipTag(s + rest).value <= |s|
    ensures SkipTag(s) == SkipTag(s + rest)
  {
    hide Varint.ReadUvarint, ToInt64;
    var tag := Varint.ReadUvarint(s + rest);
    VarintWithin(s, rest, 0);
    assert (s + rest)[tag.n..] == s[tag.n..] + rest;
    VarintWithin(s[tag.n..], rest, 0);
  }

  lemma {:induction false} SkipTagsWithin(count: nat, s: seq<byte>, rest: seq<byte>)
    requires SkipTags(count, s + rest).Some? && SkipTags(count, s + rest).value <= |s|
    ensures SkipTags(count, s) == SkipTags(count, s + rest)
  {
    hide SkipTag;
    if count > 0 {
      var n := SkipTag(s + rest).value;
      SkipTagWithin(s, rest);
      assert (s + rest)[n..] == s[n..] + rest;
      SkipTagsWithin(count - 1, s[n..], rest);
    }
  }

  /** Tagged fields that end within `s` are those `s` has by itself. */
  lemma SkippedIsPrefix(s: seq<byte>, rest: seq<byte>)
    requires SkipTagged(s + rest).Some? && SkipTagged(s + rest).value <= |s|
    ensures SkipTagged(s) == SkipTagged(s + rest)
  {
    hide Varint.ReadUvarint, ToInt64, SkipTags;
    var count := Varint.ReadUvarint(s + rest);
    VarintWithin(s, rest, 0);
    assert (s + rest)[count.n..] == s[count.n..] + rest;
    SkipTagsWithin(if ToInt64(count.value) < 0 then 0 else ToInt64(count.value), s[count.n..], rest);
  }

  function Concat(fs: seq<seq<byte>>): seq<byte> {
    if fs == [] then [] else fs[0] + Concat(fs[1..])
  }

  /** Forwarding response after response, as long as it succeeds and bytes remain. */
  function ForwardStream(ctxs: seq<Context>, s: seq<byte>): Option<Forwarded> {
    if ctxs == [] then Some(Forwarded(0, []))
    else
      var f := ForwardFrame(ctxs[0], s);
      if f.None? then None
      else
        var rest := ForwardStream(ctxs[1..], s[f.value.n..]);
        if rest.None? then None else Some(Forwarded(f.value.n + rest.value.n, f.value.out + rest.value.out))
  }

  function ForwardEach(ctxs: seq<Context>, fs: seq<seq<byte>>): seq<byte>
    requires |ctxs| == |fs| && forall i | 0 <= i < |fs| :: ForwardFrame(ctxs[i], fs[i]).Some?
  {
    if fs == [] then [] else ForwardFrame(ctxs[0], fs[0]).value.out + ForwardEach(ctxs[1..], fs[1..])
  }

  /** So over any number of responses the stream is cut at the frame boundaries and nowhere else. */
  lemma {:induction false} StreamIsForwardedFrameByFrame(ctxs: seq<Context>, fs: seq<seq<byte>>, tail: seq<byte>)
    requires |ctxs| == |fs|
    requires forall i | 0 <= i < |fs| :: IsFrame(fs[i]) && ForwardFrame(ctxs[i], fs[i]).Some?
    ensures ForwardStream(ctxs, Concat(fs) + tail) == Some(Forwarded(|Concat(fs)|, ForwardEach(ctxs, fs)))
  {
    hide ForwardFrame, IsFrame;
    if fs != [] {
      var rest := Concat(fs[1..]) + tail;
      assert Concat(fs) + tail == fs[0] + rest;
      ForwardingIsLocal(ctxs[0], fs[0], rest);
      assert (fs[0] + rest)[|fs[0]|..] == rest;
      StreamIsForwardedFrameByFrame(ctxs[1..], fs[1..], tail);
    }
  }

  // ---------------------------------------------------------------- raw SASL v0 replies

  /** copySaslAuthResponse takes and sends the four length bytes, and no payload. */
  function ForwardRawReply(s: seq<byte>): Option<Forwarded> {
    if |s| < 4 then None else Some(Forwarded(4, s[..4]))
  }

  /** So the stream stays aligned after a raw reply just when the reply is empty. */
  lemma RawReplyAlignment(payload: seq<byte>, rest: seq<byte>)
    requires |payload| <= MAX_INT32
    ensures var s := Put32(|payload|) + payload + rest;
            var f := ForwardRawReply(s);
            && f.Some?
            && (s[f.value.n..] == rest <==> payload == [])
            && (f.value.out == Put32(|payload|) + payload <==> payload == [])
  {
    var s := Put32(|payload|) + payload + rest;
    assert s[4..] == payload + rest && s[..4] == Put32(|payload|);
    if payload == [] {
      assert Put32(0) + payload == Put32(0) && payload + rest == rest;
    } else {
      assert |payload + rest| > |rest|;
      assert |Put32(|payload|) + payload| > 4;
    }
  }

  method CopySaslAuthResponse(dst: Sink, src: Source) returns (ok: bool)
    modifies dst, src
    ensures var f := ForwardRawReply(old(src.pending));
            && (ok ==>
                  && f.Some? && src.pending == old(src.pending)[f.value.n..]
                  && dst.received == old(dst.received) + f.value.out)
            && (f.Some? ==> Sent(old(dst.received), dst.received, f.value.out))
    ensures old(src.Reliable()) && old(dst.Reliable()) ==> (ok <==> ForwardRawReply(old(src.pending)).Some?)
  {
    var header, err := ReadFull(src, 4);
    if err.Some? {
      return false;
    }
    assert header == old(src.pending)[..4];
    assert src.pending == old(src.pending)[4..];
    var werr := dst.WriteAll(header);
    return werr.None?;
  }

  /** The sink got some prefix of `out`. */
  ghost predicate Sent(before: seq<byte>, after: seq<byte>, out: seq<byte>) {
    var put := |after| - |before|;
    0 <= put <= |out| && after == before + out[..put]
  }

  lemma SentMore(before: seq<byte>, mid: seq<byte>, after: seq<byte>, a: seq<byte>, b: seq<byte>, out: seq<byte>)
    requires mid == before + a && a + b <= out && Sent(mid, after, b)
    ensures Sent(before, after, out)
  {
    var put := |after| - |mid|;
    assert after == before + (a + b[..put]);
    assert out[..|a| + put] == (a + b)[..|a| + put] == a + b[..put];
  }

  // ---------------------------------------------------------------- the handler

  /**
   DefaultResponseHandler.handleResponse for a response that is to be forwarded, once its
   marker has told the context. On success it has forwarded exactly one frame; when it fails
   on a well-formed one, the client has received a prefix of that frame and nothing else. On
   reliable connections it succeeds just when the frame is one that can be forwarded.
   */
  method HandleResponse(dst: Sink, src: Source, ctx: Context, bufLen: nat) returns (ok: bool)
    requires bufLen >= 1
    modifies dst, src
    ensures var f := ForwardFrame(ctx, old(src.pending));
            && (ok ==>
                  && f.Some? && src.pending == old(src.pending)[f.value.n..]
                  && dst.received == old(dst.received) + f.value.out)
            && (f.Some? ==> Sent(old(dst.received), dst.received, f.value.out))
    ensures old(src.Reliable()) && old(dst.Reliable()) ==> (ok <==> ForwardFrame(ctx, old(src.pending)).Some?)
  {
    hide Get32, Put32, SkipTagged, Apply;
    ghost var s := src.pending;
    var header, err := ReadFull(src, 8);
    if err.Some? {
      return false;
    }
    assert header == s[..8] && src.pending == s[8..];
    Get32Prefix(header, s[8..]);
    assert header + s[8..] == s;
    var length := Get32(header);
    if length <= 4 || ctx.headerVersion < 0 {
      return false;
    }
    var tags := MaybeRead(src, ctx.headerVersion);
    if tags.None? {
      return false;
    }
    var n := |tags.value|;
    assert HeaderTagsLength(ctx.headerVersion, s[8..]) == Some(n);
    assert src.pending == s[8 + n..] && tags.value == s[8..8 + n];
    if ctx.modifier.Failure? {
      return false;
    }
    if ctx.modifier.value.Some? {
      ok := HandleModified(dst, src, ctx, s, n, header, tags.value);
    } else {
      ok := HandlePassThrough(dst, src, ctx, s, n, header, tags.value, bufLen);
    }
  }

  method HandlePassThrough(dst: Sink, src: Source, ctx: Context, ghost s: seq<byte>, n: nat,
                           header: seq<byte>, tags: seq<byte>, bufLen: nat) returns (ok: bool)
    requires bufLen >= 1 && ctx.modifier == Success(None) && ctx.headerVersion >= 0
    requires |s| >= 8 + n && header == s[..8] && tags == s[8..8 + n] && src.pending == s[8 + n..]
    requires Get32(header) == Get32(s) > 4 && HeaderTagsLength(ctx.headerVersion, s[8..]) == Some(n)
    modifies dst, src
    ensures var f := ForwardFrame(ctx, s);
            && (ok ==> f.Some? && src.pending == s[f.value.n..] && dst.received == old(dst.received) + f.value.out)
            && (f.Some? ==> Sent(old(dst.received), dst.received, f.value.out))
    ensures old(src.Reliable()) && old(dst.Reliable()) ==> (ok <==> ForwardFrame(ctx, s).Some?)
  {
    hide Get32, ForwardFrame, HeaderTagsLength;
    PassedThrough(ctx, s, n);
    InFront(header, tags, src.pending, s, Get32(s) - (4 + n));
    ok := PassOn(dst, src, header, tags, Get32(header) - (4 + n), bufLen);
  }

  /** A frame without a modifier is forwarded just when it is there and its tags end within it. */
  lemma PassedThrough(ctx: Context, s: seq<byte>, n: nat)
    requires ctx.modifier == Success(None) && ctx.headerVersion >= 0 && |s| >= 8 + n && Get32(s) > 4
    requires HeaderTagsLength(ctx.headerVersion, s[8..]) == Some(n)
    ensures ForwardFrame(ctx, s)
            == if n <= Get32(s) - 4 <= |s| - 8 then Some(Forwarded(Get32(s) + 4, s[..Get32(s) + 4])) else None
  {
    hide Get32, HeaderTagsLength;
  }

  lemma InFront(a: seq<byte>, b: seq<byte>, rest: seq<byte>, s: seq<byte>, n: int)
    requires |s| >= |a| + |b| && a == s[..|a|] && b == s[|a|..|a| + |b|] && rest == s[|a| + |b|..]
    ensures s == a + b + rest
    ensures 0 <= n <= |rest| ==> s[..|a| + |b| + n] == a + b + rest[..n] && s[|a| + |b| + n..] == rest[n..]
  {
  }

  /**
   What both handlers do with a frame they do not change: write what they have read of it, and copy
   the `size` bytes that are left.
   */
  method PassOn(dst: Sink, src: Source, first: seq<byte>, second: seq<byte>, size: int, bufLen: nat)
    returns (ok: bool)
    requires bufLen >= 1
    modifies dst, src
    ensures var rest := old(src.pending);
            && Sent(old(dst.received), dst.received, first + second + rest)
            && (0 <= size <= |rest| ==> Sent(old(dst.received), dst.received, first + second + rest[..size]))
            && (ok ==>
                  && 0 <= size <= |rest| && src.pending == rest[size..]
                  && dst.received == old(dst.received) + (first + second + rest[..size]))
    ensures old(src.Reliable()) && old(dst.Reliable()) ==> (ok <==> 0 <= size <= |old(src.pending)|)
  {
    hide Sent;
    ghost var before, rest := dst.received, src.pending;
    var werr := dst.WriteAll(first);
    SentPart(before, before, dst.received, [], first, second, rest, size);
    if werr.Some? {
      return false;
    }
    ghost var mid := dst.received;
    werr := dst.WriteAll(second);
    SentPart(before, mid, dst.received, first, second, [], rest, size);
    if werr.Some? {
      return false;
    }
    mid := dst.received;
    var readErr, cerr := MyCopyN(dst, src, size, bufLen);
    assert mid == before + (first + second);
    CopiedPart(before, mid, dst.received, first + second, rest, size);
    return cerr.None?;
  }

  /** Behind `a` some part of `b` went out. */
  lemma SentPart(before: seq<byte>, mid: seq<byte>, after: seq<byte>, a: seq<byte>, b: seq<byte>, c: seq<byte>,
                 rest: seq<byte>, size: int)
    requires mid == before + a
    requires var put := |after| - |mid|; 0 <= put <= |b| && after == mid + b[..put]
    ensures Sent(before, after, a + b + c + rest)
    ensures 0 <= size <= |rest| ==> Sent(before, after, a + b + c + rest[..size])
    ensures [] + b == b && b + [] == b && a + b + [] == a + b
  {
    assert a + b <= a + b + c + rest;
    SentMore(before, mid, after, a, b, a + b + c + rest);
    if 0 <= size <= |rest| {
      assert a + b <= a + b + c + rest[..size];
      SentMore(before, mid, after, a, b, a + b + c + rest[..size]);
    }
  }

  /** Behind `a` some part of `rest` went out, and no more than `size` bytes of it. */
  lemma CopiedPart(before: seq<byte>, mid: seq<byte>, after: seq<byte>, a: seq<byte>, rest: seq<byte>, size: int)
    requires mid == before + a
    requires var put := |after| - |mid|;
             0 <= put <= |rest| && put <= (if size < 0 then 0 else size) && after == mid + rest[..put]
    ensures Sent(before, after, a + rest)
    ensures 0 <= size <= |rest| ==> Sent(before, after, a + rest[..size])
    ensures |after| - |mid| == size ==> after == before + (a + rest[..size])
  {
    SentMore(before, mid, after, a, rest, a + rest);
    if 0 <= size <= |rest| {
      assert rest[..size][..|after| - |mid|] == rest[..|after| - |mid|];
      SentMore(before, mid, after, a, rest[..size], a + rest[..size]);
    }
  }

  /** The new length in front of the rest of the header, and the tagged fields behind. */
  lemma NewHeader(length: seq<byte>, header: seq<byte>, tags: seq<byte>, s: seq<byte>, n: nat)
    requires |s| >= 8 + n && header == s[..8] && tags == s[8..8 + n]
    ensures length + s[4..8 + n] == length + header[4..8] + tags
  {
    assert s[4..8 + n] == header[4..8] + tags;
  }

  method HandleModified(dst: Sink, src: Source, ctx: Context, ghost s: seq<byte>, n: nat,
                        header: seq<byte>, tags: seq<byte>) returns (ok: bool)
    requires ctx.modifier.Success? && ctx.modifier.value.Some? && ctx.headerVersion >= 0
    requires |s| >= 8 + n && header == s[..8] && tags == s[8..8 + n] && src.pending == s[8 + n..]
    requires Get32(header) == Get32(s) > 4 && HeaderTagsLength(ctx.headerVersion, s[8..]) == Some(n)
    modifies dst, src
    ensures var f := ForwardFrame(ctx, s);
            && (ok ==> f.Some? && src.pending == s[f.value.n..] && dst.received == old(dst.received) + f.value.out)
            && (f.Some? ==> Sent(old(dst.received), dst.received, f.value.out))
    ensures old(src.Reliable()) && old(dst.Reliable()) ==> (ok <==> ForwardFrame(ctx, s).Some?)
  {
    hide Get32, Put32, HeaderTagsLength, Apply;
    var length := Get32(header);
    if length > MAX_RESPONSE_SIZE || length - (4 + n) < 0 {
      return false;
    }
    var resp, err := ReadFull(src, length - (4 + n));
    if err.Some? {
      return false;
    }
    assert resp == s[8 + n..length + 4] && src.pending == s[length + 4..];
    var m := ctx.modifier.value.value;
    var modified := Apply(m.kind, m.ty, Some(resp), ctx.fn);
    if modified.Failure? || modified.value.None? {
      return false;
    }
    var b := modified.value.value;
    var newHeader := Put32(|b| + 4 + n) + header[4..8];
    NewHeader(Put32(|b| + 4 + n), header, tags, s, n);
    ok := WriteThree(dst, newHeader, tags, b);
  }

  /** Three writes, each after the one before has succeeded. */
  method WriteThree(dst: Sink, a: seq<byte>, b: seq<byte>, c: seq<byte>) returns (ok: bool)
    modifies dst
    ensures Sent(old(dst.received), dst.received, a + b + c)
    ensures ok ==> dst.received == old(dst.received) + (a + b + c)
    ensures old(dst.Reliable()) ==> ok
  {
    ghost var before := dst.received;
    var werr := dst.WriteAll(a);
    SentMore(before, before, dst.received, [], a, a + b + c);
    if werr.Some? {
      return false;
    }
    ghost var mid := dst.received;
    werr := dst.WriteAll(b);
    SentMore(before, mid, dst.received, a, b, a + b + c);
    if werr.Some? {
      return false;
    }
    mid := dst.received;
    werr := dst.WriteAll(c);
    assert mid == before + (a + b);
    SentMore(before, mid, dst.received, a + b, c, a + b + c);
    return werr.None?;
  }
}
