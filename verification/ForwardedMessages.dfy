/**
 What the client is sent for a reply, said on the messages of the protocol: for every API key and
 version, which frames are forwarded, and with which bytes.
 */
module ForwardedMessages {
  import opened Wrappers
  import opened Bytes
  import opened Schema
  import opened SchemaTheorems
  import opened Responses
  import opened ResponseTheorems
  import opened HeaderTags
  import opened ResponseFrames
  import opened LayoutTheorems
  import K = KafkaLayout
  import P = Processor

  // ---------------------------------------------------------------- frames

  lemma HeaderTagsAreSkipped(tags: seq<K.Tag>, rest: seq<byte>)
    requires K.FitTags(tags)
    ensures SkipTagged(K.TagsBytes(tags) + rest) == Some(|K.TagsBytes(tags)|)
  {
    hide K.TagsBytes, Raw, SkipTagged, DecodeTagged, MeasureTags, EmitTags, Wellformed;
    TagsEncode(tags);
    TwoPassAgreement(TaggedFields, TaggedV(Raw(tags)));
    TaggedReadBack(Raw(tags), rest);
    StreamingRefinesDecoding(K.TagsBytes(tags) + rest);
  }

  /** The header of a response to a request whose response header version is 0 or at least 1. */
  predicate HeaderFits(headerVersion: int, tags: Option<seq<K.Tag>>) {
    && headerVersion >= 0 && (tags.Some? <==> headerVersion >= 1)
    && (tags.Some? ==> K.FitTags(tags.value))
  }

  /** A frame has more than a correlation id, and its length is an int32. */
  predicate FrameFits(tags: Option<seq<K.Tag>>, body: seq<byte>) {
    4 < 4 + |K.HeaderTags(tags)| + |body| <= 2147483647
  }

  lemma FrameParts(corr: int32, tags: Option<seq<K.Tag>>, body: seq<byte>)
    requires FrameFits(tags, body)
    ensures var f, t := K.ResponseFrame(corr, tags, body), K.HeaderTags(tags);
            && |f| == 8 + |t| + |body| && Get32(f) == 4 + |t| + |body|
            && f[4..8 + |t|] == Put32(corr) + t && f[8..] == t + body && f[8 + |t|..] == body
            && f == Put32(4 + |t| + |body|) + (Put32(corr) + t) + body
  {
    hide Get32, Put32, K.I32, K.HeaderTags;
    var t := K.HeaderTags(tags);
    NumbersAreBigEndian(0, corr);
    NumbersAreBigEndian(0, 4 + |t| + |body|);
    Get32AfterPut32(4 + |t| + |body|, Put32(corr) + (t + body));
  }

  lemma TagsAreThere(headerVersion: int, tags: Option<seq<K.Tag>>, body: seq<byte>)
    requires HeaderFits(headerVersion, tags)
    ensures HeaderTagsLength(headerVersion, K.HeaderTags(tags) + body) == Some(|K.HeaderTags(tags)|)
  {
    hide SkipTagged, K.TagsBytes;
    if tags.Some? {
      HeaderTagsAreSkipped(tags.value, body);
    }
  }

  /**
   A frame that follows the protocol is forwarded as it is when there is no modifier; with one, its
   header goes with the modified body behind it, unless the frame is over 100 MiB or the
   modification fails.
   */
  lemma FrameIsForwarded(ctx: Context, corr: int32, tags: Option<seq<K.Tag>>, body: seq<byte>)
    requires HeaderFits(ctx.headerVersion, tags) && FrameFits(tags, body)
    ensures var f := K.ResponseFrame(corr, tags, body);
            ctx.modifier == Success(None) ==> ForwardFrame(ctx, f) == Some(Forwarded(|f|, f))
    ensures ctx.modifier.Failure? ==> ForwardFrame(ctx, K.ResponseFrame(corr, tags, body)).None?
    ensures ctx.modifier.Success? && ctx.modifier.value.Some? ==>
              var f, m := K.ResponseFrame(corr, tags, body), ctx.modifier.value.value;
              var applied := Apply(m.kind, m.ty, Some(body), ctx.fn);
              if |f| - 4 > 104857600 || applied.Failure? || applied.value.None? then ForwardFrame(ctx, f).None?
              else
                && |applied.value.value| <= 104857600
                && ForwardFrame(ctx, f) == Some(Forwarded(|f|, K.ResponseFrame(corr, tags, applied.value.value)))
  {
    hide Get32, Put32, K.I32, K.ResponseFrame, K.HeaderTags, Apply, HeaderTagsLength;
    var f, t := K.ResponseFrame(corr, tags, body), K.HeaderTags(tags);
    FrameParts(corr, tags, body);
    TagsAreThere(ctx.headerVersion, tags, body);
    assert f[..|f|] == f && f[8 + |t|..|f|] == body;
    if ctx.modifier.Success? && ctx.modifier.value.Some? && |f| - 4 <= 104857600 {
      var m := ctx.modifier.value.value;
      var applied := Apply(m.kind, m.ty, Some(body), ctx.fn);
      if applied.Success? && applied.value.Some? {
        EncodedLength(m.kind, m.ty, Some(body), ctx.fn);
        NewFrame(corr, tags, applied.value.value);
      }
    }
  }

  lemma NewFrame(corr: int32, tags: Option<seq<K.Tag>>, b: seq<byte>)
    requires 4 + |K.HeaderTags(tags)| + |b| <= 2147483647
    ensures K.ResponseFrame(corr, tags, b)
            == Put32(|b| + 4 + |K.HeaderTags(tags)|) + (Put32(corr) + K.HeaderTags(tags)) + b
  {
    hide Put32, K.I32, K.HeaderTags;
    NumbersAreBigEndian(0, corr);
    NumbersAreBigEndian(0, |b| + 4 + |K.HeaderTags(tags)|);
  }

  // ---------------------------------------------------------------- by API key and version

  /** A reply to any request but Metadata and FindCoordinator is forwarded unchanged. */
  lemma OtherRepliesAreUnchanged(cfg: P.Config, key: int16, version: int16, corr: int32, tags: Option<seq<K.Tag>>,
                                 body: seq<byte>)
    requires key != 3 && key != 10
    requires HeaderFits(cfg.headerVersion(P.Marker(key, version)), tags) && FrameFits(tags, body)
    ensures P.Forwarding(cfg, P.Marker(key, version), K.ResponseFrame(corr, tags, body))
            == Some(K.ResponseFrame(corr, tags, body))
  {
    hide K.ResponseFrame, ForwardFrame, K.HeaderTags;
    ModifierIsChosen(key, version);
    FrameIsForwarded(P.ContextOf(cfg, P.Marker(key, version)), corr, tags, body);
  }

  /** A reply to a Metadata or FindCoordinator request of a version without a schema is not forwarded. */
  lemma UnknownVersionsAreRefused(cfg: P.Config, key: int16, version: int16, reply: seq<byte>)
    requires (key == 3 && !(0 <= version <= 13)) || (key == 10 && !(0 <= version <= 6))
    ensures P.Forwarding(cfg, P.Marker(key, version), reply).None?
  {
    hide Get32, Put32, HeaderTagsLength, Apply;
    ModifierIsChosen(key, version);
  }

  /** Without a mapping function such replies are not forwarded at all. */
  lemma UnmappedRepliesAreRefused(cfg: P.Config, key: int16, version: int16, reply: seq<byte>)
    requires (key == 3 || key == 10) && cfg.fn.None?
    ensures P.Forwarding(cfg, P.Marker(key, version), reply).None?
  {
    hide Get32, Put32, HeaderTagsLength, DecodeSchema, EncodeSchema, MetadataSchema, FindCoordinatorSchema;
    ModifierIsChosen(key, version);
  }

  /** The bytes that go to the client for a Metadata response. */
  lemma MetadataIsForwarded(cfg: P.Config, fn: Mapper, version: nat, corr: int32, tags: Option<seq<K.Tag>>,
                            m: K.Metadata)
    requires version <= 13 && K.FitsMetadata(version, m) && cfg.fn == Some(fn)
    requires HeaderFits(cfg.headerVersion(P.Marker(3, version)), tags)
    requires FrameFits(tags, K.MetadataBytes(version, m))
    ensures var f := K.ResponseFrame(corr, tags, K.MetadataBytes(version, m));
            var out := P.Forwarding(cfg, P.Marker(3, version), f);
            if |f| - 4 > 104857600 || !NodesMapped(BrokerNodes(m.brokers), fn) then out.None?
            else
              var m' := ReaddressedMetadata(m, fn);
              K.FitsMetadata(version, m') ==>
                var bytes := K.MetadataBytes(version, m');
                out == if |bytes| <= 104857600 then Some(K.ResponseFrame(corr, tags, bytes)) else None
  {
    hide K.ResponseFrame, ForwardFrame, K.HeaderTags, K.MetadataBytes, K.FitsMetadata, MetadataSchema, Apply;
    hide ReaddressedMetadata, NodesMapped;
    var bytes := K.MetadataBytes(version, m);
    ModifierIsChosen(3, version);
    FrameParts(corr, tags, bytes);
    FrameIsForwarded(P.ContextOf(cfg, P.Marker(3, version)), corr, tags, bytes);
    if |K.ResponseFrame(corr, tags, bytes)| - 4 <= 104857600 {
      MetadataIsRewritten(version, m, fn);
    }
  }

  lemma CoordinatorsAreForwarded(cfg: P.Config, fn: Mapper, version: nat, corr: int32, tags: Option<seq<K.Tag>>,
                                 m: K.Coordinators)
    requires version <= 6 && K.FitsCoordinators(m) && cfg.fn == Some(fn)
    requires HeaderFits(cfg.headerVersion(P.Marker(10, version)), tags)
    requires FrameFits(tags, K.CoordinatorsBytes(version, m))
    ensures var f := K.ResponseFrame(corr, tags, K.CoordinatorsBytes(version, m));
            var out := P.Forwarding(cfg, P.Marker(10, version), f);
            if |f| - 4 > 104857600 || !NodesMapped(CoordinatorNodes(version, m), fn) then out.None?
            else
              var m' := ReaddressedCoordinators(version, m, fn);
              K.FitsCoordinators(m') ==>
                var bytes := K.CoordinatorsBytes(version, m');
                out == if |bytes| <= 104857600 then Some(K.ResponseFrame(corr, tags, bytes)) else None
  {
    hide K.ResponseFrame, ForwardFrame, K.HeaderTags, K.CoordinatorsBytes, K.FitsCoordinators, FindCoordinatorSchema;
    hide Apply, ReaddressedCoordinators, CoordinatorNodes, NodesMapped;
    var bytes := K.CoordinatorsBytes(version, m);
    ModifierIsChosen(10, version);
    FrameParts(corr, tags, bytes);
    FrameIsForwarded(P.ContextOf(cfg, P.Marker(10, version)), corr, tags, bytes);
    if |K.ResponseFrame(corr, tags, bytes)| - 4 <= 104857600 {
      CoordinatorsAreRewritten(version, m, fn);
    }
  }

  // ---------------------------------------------------------------- what the broker may answer

  /** In a run the broker may answer a framed request with any frame that has its correlation id. */
  lemma AnyAnswerIsPossible(cfg: P.Config, s: P.State, tags: Option<seq<K.Tag>>, body: seq<byte>)
    requires s.served < |s.wire| && s.wire[s.served].kind == P.Framed && P.Answers(s.wire[s.served])
    requires -0x8000_0000 <= s.wire[s.served].corr < 0x8000_0000
    requires HeaderFits(cfg.headerVersion(P.MarkerOf(s.wire[s.served])), tags) && FrameFits(tags, body)
    ensures var reply := K.ResponseFrame(s.wire[s.served].corr, tags, body);
            P.Do(cfg, s, P.BrokerServes(reply)) == Some(s.(served := s.served + 1, replies := s.replies + [reply]))
  {
    hide Get32, Put32, K.ResponseFrame, K.HeaderTags, HeaderTagsLength, P.Answers;
    var corr, t := s.wire[s.served].corr, K.HeaderTags(tags);
    var f := K.ResponseFrame(corr, tags, body);
    FrameParts(corr, tags, body);
    TagsAreThere(cfg.headerVersion(P.MarkerOf(s.wire[s.served])), tags, body);
    assert f[4..] == Put32(corr) + (t + body);
    Get32AfterPut32(corr, t + body);
    HigherVersionsToo(cfg.headerVersion(P.MarkerOf(s.wire[s.served])), t + body);
  }

  lemma HigherVersionsToo(headerVersion: int, s: seq<byte>)
    ensures headerVersion >= 1 ==> HeaderTagsLength(1, s) == HeaderTagsLength(headerVersion, s)
  {
    hide SkipTagged;
  }

  /** And a raw token with the empty reply. */
  lemma TokenIsAnswered(cfg: P.Config, s: P.State)
    requires s.served < |s.wire| && s.wire[s.served].kind == P.Raw
    ensures P.Do(cfg, s, P.BrokerServes([0, 0, 0, 0]))
            == Some(s.(served := s.served + 1, replies := s.replies + [[0, 0, 0, 0]]))
  {
  }
}
