/** The media engine (mediaengine.go): the registry of codecs a peer connection
    supports, the helpers that build the default codecs, and the three lookups
    over the registry. */
module Media {
  import opened Errors
  import opened Primitives
  import opened RtpTypes
  import opened Sdp
  import opened SdpProperties
  import opened CodecParams

  // ===========================================================================
  // Codecs

  /** RTCRtpCodecType: audio (1) or video (2). */
  datatype CodecType = Audio | Video

  /** RTCRtpCodecType.String */
  function KindString(t: CodecType): (s: string)
    ensures s != [] && '/' !in s
  {
    match t
    case Audio => "audio"
    case Video => "video"
  }

  /** Distinct kinds have distinct names, so a mime type tells its kind. */
  lemma KindStringInjective(t: CodecType, u: CodecType)
    ensures KindString(t) == KindString(u) <==> t == u
  {
    if t != u {
      assert KindString(t)[0] != KindString(u)[0];
    }
  }

  /** The payloader attached to a codec, as an opaque tag; VP9 has none. */
  datatype Payloader = G722Payloader | OpusPayloader | VP8Payloader | H264Payloader | NoPayloader

  /** RTCRtpCodecCapability */
  datatype CodecCapability = CodecCapability(mimeType: string, clockRate: uint32, channels: uint32, sdpFmtpLine: string)

  /** RTCRtpCodec: a capability together with the kind, the name, the payload
      type and the payloader. */
  datatype Codec = Codec(capability: CodecCapability, kind: CodecType, name: string, payloadType: uint8, payloader: Payloader)

  const DefaultPayloadTypeG722: uint8 := 9
  const DefaultPayloadTypeOpus: uint8 := 111
  const DefaultPayloadTypeVP8: uint8 := 96
  const DefaultPayloadTypeVP9: uint8 := 98
  const DefaultPayloadTypeH264: uint8 := 100

  const G722: string := "G722"
  const Opus: string := "opus"
  const VP8: string := "VP8"
  const VP9: string := "VP9"
  const H264: string := "H264"

  /** NewRTCRtpCodec: the mime type is the kind's name, '/', the codec name. */
  function NewCodec(kind: CodecType, name: string, clockRate: uint32, channels: uint32, fmtp: string,
                    payloadType: uint8, payloader: Payloader): (c: Codec)
    ensures c.capability.mimeType == KindString(kind) + "/" + name
  {
    Codec(CodecCapability(KindString(kind) + "/" + name, clockRate, channels, fmtp), kind, name, payloadType, payloader)
  }

  /** The mime type splits back into the kind's name and the codec name. */
  lemma MimeTypeSplits(kind: CodecType, name: string, clockRate: uint32, channels: uint32, fmtp: string,
                       payloadType: uint8, payloader: Payloader)
    requires '/' !in name
    ensures Split(NewCodec(kind, name, clockRate, channels, fmtp, payloadType, payloader).capability.mimeType, '/')
         == [KindString(kind), name]
  {
    SplitTwo(KindString(kind), name, '/');
  }

  /** NewRTCRtpG722Codec: audio, no channel count, no fmtp line. */
  function NewG722Codec(payloadType: uint8, clockRate: uint32): (c: Codec)
    ensures c.kind == Audio && c.name == G722 && c.capability.mimeType == KindString(Audio) + "/" + G722
    ensures c.payloadType == payloadType && c.capability.clockRate == clockRate
    ensures c.capability.channels == 0 && c.capability.sdpFmtpLine == ""
  {
    NewCodec(Audio, G722, clockRate, 0, "", payloadType, G722Payloader)
  }

  /** NewRTCRtpOpusCodec: audio, with the caller's channel count and a fixed fmtp line. */
  function NewOpusCodec(payloadType: uint8, clockRate: uint32, channels: uint32): (c: Codec)
    ensures c.kind == Audio && c.name == Opus && c.capability.mimeType == KindString(Audio) + "/" + Opus
    ensures c.payloadType == payloadType && c.capability.clockRate == clockRate
    ensures c.capability.channels == channels && c.capability.sdpFmtpLine == "minptime=10;useinbandfec=1"
  {
    NewCodec(Audio, Opus, clockRate, channels, "minptime=10;useinbandfec=1", payloadType, OpusPayloader)
  }

  /** NewRTCRtpVP8Codec: video, no channel count, no fmtp line. */
  function NewVP8Codec(payloadType: uint8, clockRate: uint32): (c: Codec)
    ensures c.kind == Video && c.name == VP8 && c.capability.mimeType == KindString(Video) + "/" + VP8
    ensures c.payloadType == payloadType && c.capability.clockRate == clockRate
    ensures c.capability.channels == 0 && c.capability.sdpFmtpLine == ""
  {
    NewCodec(Video, VP8, clockRate, 0, "", payloadType, VP8Payloader)
  }

  /** NewRTCRtpVP9Codec: video, no channel count, no fmtp line, and no payloader. */
  function NewVP9Codec(payloadType: uint8, clockRate: uint32): (c: Codec)
    ensures c.kind == Video && c.name == VP9 && c.capability.mimeType == KindString(Video) + "/" + VP9
    ensures c.payloadType == payloadType && c.capability.clockRate == clockRate
    ensures c.capability.channels == 0 && c.capability.sdpFmtpLine == "" && c.payloader == NoPayloader
  {
    NewCodec(Video, VP9, clockRate, 0, "", payloadType, NoPayloader)
  }

  /** NewRTCRtpH264Codec: video, no channel count, a fixed fmtp line. */
  function NewH264Codec(payloadType: uint8, clockRate: uint32): (c: Codec)
    ensures c.kind == Video && c.name == H264 && c.capability.mimeType == KindString(Video) + "/" + H264
    ensures c.payloadType == payloadType && c.capability.clockRate == clockRate
    ensures c.capability.channels == 0
    ensures c.capability.sdpFmtpLine == "level-asymmetry-allowed=1;packetization-mode=1;profile-level-id=42001f"
  {
    NewCodec(Video, H264, clockRate, 0, "level-asymmetry-allowed=1;packetization-mode=1;profile-level-id=42001f",
      payloadType, H264Payloader)
  }

  /** The codecs RegisterDefaultCodecs registers, in registration order. */
  function DefaultCodecs(): (r: seq<Codec>)
    ensures |r| == 5
    ensures forall i, j | 0 <= i < j < |r| :: r[i].payloadType != r[j].payloadType
  {
    [ NewOpusCodec(DefaultPayloadTypeOpus, 48000, 2),
      NewG722Codec(DefaultPayloadTypeG722, 8000),
      NewVP8Codec(DefaultPayloadTypeVP8, 90000),
      NewH264Codec(DefaultPayloadTypeH264, 90000),
      NewVP9Codec(DefaultPayloadTypeVP9, 90000) ]
  }

  /** Two audio codecs then three video codecs, all video at 90000 Hz. */
  lemma DefaultCodecsKinds()
    ensures |DefaultCodecs()| == 5
    ensures forall i | 0 <= i < 2 :: DefaultCodecs()[i].kind == Audio
    ensures forall i | 2 <= i < 5 :: DefaultCodecs()[i].kind == Video && DefaultCodecs()[i].capability.clockRate == 90000
  {
  }

  /** The default payload types are 111, 9, 96, 100 and 98, in that order. */
  lemma DefaultPayloadTypes()
    ensures seq(|DefaultCodecs()|, i requires 0 <= i < |DefaultCodecs()| => DefaultCodecs()[i].payloadType)
         == [111, 9, 96, 100, 98]
  {
  }

  /** Names, clock rates, channel counts and fmtp lines of the defaults. */
  lemma DefaultCodecsParameters()
    ensures DefaultCodecs()[0].name == "opus" && DefaultCodecs()[0].capability.clockRate == 48000
    ensures DefaultCodecs()[0].capability.channels == 2
    ensures DefaultCodecs()[0].capability.sdpFmtpLine == "minptime=10;useinbandfec=1"
    ensures DefaultCodecs()[1].name == "G722" && DefaultCodecs()[1].capability.clockRate == 8000
    ensures DefaultCodecs()[2].name == "VP8" && DefaultCodecs()[2].capability.sdpFmtpLine == ""
    ensures DefaultCodecs()[3].name == "H264"
    ensures DefaultCodecs()[3].capability.sdpFmtpLine
         == "level-asymmetry-allowed=1;packetization-mode=1;profile-level-id=42001f"
    ensures DefaultCodecs()[4].name == "VP9" && DefaultCodecs()[4].payloader == NoPayloader
  {
  }

  /** The default Opus codec has mime type "audio/opus". */
  lemma DefaultOpusMimeType()
    ensures DefaultCodecs()[0].capability.mimeType == "audio/opus"
  {
  }

  /** Each default codec is found by its own payload type. */
  lemma DefaultCodecsFound(i: int)
    requires 0 <= i < |DefaultCodecs()|
    ensures Lookup(DefaultCodecs(), DefaultCodecs()[i].payloadType) == Ok(DefaultCodecs()[i])
  {
    var cs := DefaultCodecs();
    var pts: seq<uint8> := [111, 9, 96, 100, 98];
    assert forall k | 0 <= k < 5 :: cs[k].payloadType == pts[k];
    LookupFirst(cs, i);
  }

  // ===========================================================================
  // Lookups, as functions of the registry

  /** The first registered codec with the payload type (getCodec). */
  function Lookup(codecs: seq<Codec>, payloadType: uint8): (r: Result<Codec>)
    ensures r.Ok? ==> exists i | 0 <= i < |codecs| :: codecs[i] == r.value && r.value.payloadType == payloadType
                        && forall j | 0 <= j < i :: codecs[j].payloadType != payloadType
    ensures r.Err? <==> forall i | 0 <= i < |codecs| :: codecs[i].payloadType != payloadType
    ensures r.Err? ==> r.error == CodecNotFound
  {
    if codecs == [] then Err(CodecNotFound)
    else if codecs[0].payloadType == payloadType then Ok(codecs[0])
    else
      assert forall i | 1 <= i < |codecs| :: codecs[1..][i - 1] == codecs[i];
      var r := Lookup(codecs[1..], payloadType);
      if r.Ok? then
        var i :| 0 <= i < |codecs[1..]| && codecs[1..][i] == r.value && r.value.payloadType == payloadType
                 && forall j | 0 <= j < i :: codecs[1..][j].payloadType != payloadType;
        assert codecs[i + 1] == r.value;
        r
      else r
  }

  /** Registering a codec makes it findable by its payload type unless an
      earlier codec already has that type, and leaves every other answer as
      it was. */
  lemma RegisterThenLookup(codecs: seq<Codec>, codec: Codec, payloadType: uint8)
    ensures Lookup(codecs, payloadType).Ok? ==> Lookup(codecs + [codec], payloadType) == Lookup(codecs, payloadType)
    ensures Lookup(codecs, payloadType).Err? && codec.payloadType == payloadType
            ==> Lookup(codecs + [codec], payloadType) == Ok(codec)
    ensures Lookup(codecs, payloadType).Err? && codec.payloadType != payloadType
            ==> Lookup(codecs + [codec], payloadType) == Err(CodecNotFound)
  {
    var all := codecs + [codec];
    assert forall i | 0 <= i < |codecs| :: all[i] == codecs[i];
    if Lookup(codecs, payloadType).Ok? {
      var r := Lookup(codecs, payloadType).value;
      var i :| 0 <= i < |codecs| && codecs[i] == r && r.payloadType == payloadType
               && forall j | 0 <= j < i :: codecs[j].payloadType != payloadType;
      LookupFirst(all, i);
    } else {
      assert all[|codecs|] == codec;
      if codec.payloadType == payloadType {
        LookupFirst(all, |codecs|);
      }
    }
  }

  /** The answer is the codec at the first position with the payload type. */
  lemma {:induction false} LookupFirst(codecs: seq<Codec>, i: int)
    requires 0 <= i < |codecs|
    requires forall j | 0 <= j < i :: codecs[j].payloadType != codecs[i].payloadType
    ensures Lookup(codecs, codecs[i].payloadType) == Ok(codecs[i])
  {
    if i > 0 {
      assert forall j | 0 <= j < i - 1 :: codecs[1..][j] == codecs[j + 1];
      LookupFirst(codecs[1..], i - 1);
    }
  }

  /** What getCodecSDP asks of a registered codec: the same name, clock rate and
      channel count, and an fmtp line that parses to exactly the parameters.
      A codec whose own fmtp line does not parse never matches. */
  predicate NegotiationMatch(codec: Codec, params: CodecParameters) {
    && codec.name == params.name
    && codec.capability.clockRate == params.clockRate
    && codec.capability.channels == params.channels
    && FmtpMatches(params.parameters, codec.capability.sdpFmtpLine)
  }

  /** The first registered codec that matches the negotiated parameters. */
  function Negotiate(codecs: seq<Codec>, params: CodecParameters): (r: Result<Codec>)
    ensures r.Ok? ==> exists i | 0 <= i < |codecs| :: codecs[i] == r.value && NegotiationMatch(r.value, params)
                        && forall j | 0 <= j < i :: !NegotiationMatch(codecs[j], params)
    ensures r.Err? <==> forall i | 0 <= i < |codecs| :: !NegotiationMatch(codecs[i], params)
    ensures r.Err? ==> r.error == CodecNotFound
  {
    if codecs == [] then Err(CodecNotFound)
    else if NegotiationMatch(codecs[0], params) then Ok(codecs[0])
    else
      assert forall i | 1 <= i < |codecs| :: codecs[1..][i - 1] == codecs[i];
      var r := Negotiate(codecs[1..], params);
      if r.Ok? then
        var i :| 0 <= i < |codecs[1..]| && codecs[1..][i] == r.value && NegotiationMatch(r.value, params)
                 && forall j | 0 <= j < i :: !NegotiationMatch(codecs[1..][j], params);
        assert codecs[i + 1] == r.value;
        r
      else r
  }

  /** The registered codecs of one kind, in registration order
      (getCodecsByKind). */
  function OfKind(codecs: seq<Codec>, kind: CodecType): (r: seq<Codec>)
    ensures |r| <= |codecs|
  {
    if codecs == [] then []
    else
      var init := OfKind(codecs[..|codecs| - 1], kind);
      var last := codecs[|codecs| - 1];
      if last.kind == kind then init + [last] else init
  }

  /** Exactly the registered codecs of the kind are kept. */
  lemma {:induction false} OfKindMembers(codecs: seq<Codec>, kind: CodecType)
    ensures forall c | c in OfKind(codecs, kind) :: c in codecs && c.kind == kind
    ensures forall c | c in codecs && c.kind == kind :: c in OfKind(codecs, kind)
  {
    if codecs != [] {
      var init := codecs[..|codecs| - 1];
      OfKindMembers(init, kind);
      assert codecs == init + [codecs[|codecs| - 1]];
    }
  }

  /** A single codec is kept exactly when it has the kind. */
  lemma OfKindSingle(c: Codec, kind: CodecType)
    ensures OfKind([c], kind) == if c.kind == kind then [c] else []
  {
    assert [c][..0] == [];
  }

  /** Filtering distributes over concatenation, so together with OfKindSingle
      it fixes the result: the codecs of the kind, in registration order, each
      as often as it is registered. */
  lemma {:induction false} OfKindAppend(xs: seq<Codec>, ys: seq<Codec>, kind: CodecType)
    ensures OfKind(xs + ys, kind) == OfKind(xs, kind) + OfKind(ys, kind)
    decreases |ys|
  {
    if ys == [] {
      assert xs + ys == xs;
    } else {
      var ys', last := ys[..|ys| - 1], ys[|ys| - 1];
      calc {
        OfKind(xs + ys, kind);
      == { assert xs + ys == (xs + ys') + [last]; }
        OfKind((xs + ys') + [last], kind);
      == { OfKindSnoc(xs + ys', last, kind); }
        OfKind(xs + ys', kind) + (if last.kind == kind then [last] else []);
      == { OfKindAppend(xs, ys', kind); }
        OfKind(xs, kind) + OfKind(ys', kind) + (if last.kind == kind then [last] else []);
      == { OfKindSnoc(ys', last, kind); assert ys == ys' + [last]; }
        OfKind(xs, kind) + OfKind(ys, kind);
      }
    }
  }

  lemma OfKindSnoc(xs: seq<Codec>, c: Codec, kind: CodecType)
    ensures OfKind(xs + [c], kind) == OfKind(xs, kind) + (if c.kind == kind then [c] else [])
  {
    assert (xs + [c])[..|xs|] == xs;
  }

  /** The kinds split the registry: the audio and the video lists together
      are as long as the registry. */
  lemma {:induction false} OfKindPartition(codecs: seq<Codec>)
    ensures |OfKind(codecs, Audio)| + |OfKind(codecs, Video)| == |codecs|
  {
    if codecs != [] {
      OfKindPartition(codecs[..|codecs| - 1]);
    }
  }

  // ===========================================================================
  // Facts about the default codecs

  lemma OpusFmtpText()
    ensures "minptime" + "=" + "10" + ";" + "" + "useinbandfec" + "=" + "1" == "minptime=10;useinbandfec=1"
  {
  }

  /** The default Opus codec matches an offer of opus/48000/2 with
      minptime=10 and useinbandfec=1. */
  lemma DefaultOpusNegotiates(params: CodecParameters)
    requires params.name == "opus" && params.clockRate == 48000 && params.channels == 2
    requires params.parameters == map["minptime" := "10"]["useinbandfec" := "1"]
    ensures NegotiationMatch(DefaultCodecs()[0], params)
  {
    OpusFmtpParses();
    assert DefaultCodecs()[0].capability.sdpFmtpLine == "minptime=10;useinbandfec=1";
  }

  lemma OpusFmtpParses()
    ensures FmtpParams("minptime=10;useinbandfec=1") == Ok(map["minptime" := "10"]["useinbandfec" := "1"])
  {
    assert AllSpace("");
    FmtpTwoParameters("minptime", "10", "", "useinbandfec", "1");
    OpusFmtpText();
  }

  /** The default VP8 codec, whose fmtp line is empty, matches an offer of
      VP8/90000 without parameters, and not one with parameters. */
  lemma DefaultVP8Negotiates(params: CodecParameters)
    requires params.name == "VP8" && params.clockRate == 90000 && params.channels == 0
    ensures NegotiationMatch(DefaultCodecs()[2], params) <==> params.parameters == map[]
  {
    FmtpMatchesEmptyLine();
  }

  /** Names are compared exactly: an offer of "vp8" does not match VP8. */
  lemma NamesAreCaseSensitive(params: CodecParameters)
    requires params.name == "vp8"
    ensures !NegotiationMatch(DefaultCodecs()[2], params)
  {
    assert DefaultCodecs()[2].name[0] != params.name[0];
  }

  /** A codec whose own fmtp line does not parse never matches, and the search
      goes on past it. */
  lemma UnparsableFmtpSkipped(codec: Codec, rest: seq<Codec>, params: CodecParameters)
    requires FmtpParams(codec.capability.sdpFmtpLine).Err?
    ensures !NegotiationMatch(codec, params)
    ensures Negotiate([codec] + rest, params) == Negotiate(rest, params)
  {
    assert ([codec] + rest)[1..] == rest;
  }

  // ===========================================================================
  // The registry

  /** MediaEngine: the codecs supported by a peer connection, in registration
      order. */
  class MediaEngine {
    var codecs: seq<Codec>

    constructor ()
      ensures codecs == []
    {
      codecs := [];
    }

    /** MediaEngine.RegisterCodec: appends the codec and returns its payload
        type. */
    method RegisterCodec(codec: Codec) returns (payloadType: uint8)
      modifies this
      ensures codecs == old(codecs) + [codec]
      ensures payloadType == codec.payloadType
    {
      codecs := codecs + [codec];
      payloadType := codec.payloadType;
    }

    /** MediaEngine.RegisterDefaultCodecs: Opus, G722, VP8, H264 and VP9, in
        that order, after whatever is already registered. */
    method RegisterDefaultCodecs()
      modifies this
      ensures codecs == old(codecs) + DefaultCodecs()
    {
      ghost var before := codecs;
      var defaults := DefaultCodecs();
      var _ := RegisterCodec(defaults[0]);
      var _ := RegisterCodec(defaults[1]);
      var _ := RegisterCodec(defaults[2]);
      var _ := RegisterCodec(defaults[3]);
      var _ := RegisterCodec(defaults[4]);
      assert codecs == before + defaults[..1] + [defaults[1]] + [defaults[2]] + [defaults[3]] + [defaults[4]];
      assert defaults == defaults[..1] + [defaults[1]] + [defaults[2]] + [defaults[3]] + [defaults[4]];
    }

    /** MediaEngine.getCodec: the first codec with the payload type, or
        "codec not found". */
    method GetCodec(payloadType: uint8) returns (r: Result<Codec>)
      ensures r == Lookup(codecs, payloadType)
    {
      var i := 0;
      while i < |codecs|
        invariant 0 <= i <= |codecs|
        invariant Lookup(codecs[i..], payloadType) == Lookup(codecs, payloadType)
      {
        assert codecs[i..][1..] == codecs[i + 1..];
        if codecs[i].payloadType == payloadType {
          return Ok(codecs[i]);
        }
        i := i + 1;
      }
      return Err(CodecNotFound);
    }

    /** MediaEngine.getCodecSDP: the first codec with the same name, clock rate
        and channel count whose fmtp line is equal to the parameters; a codec
        whose fmtp line fails to parse is skipped. */
    method GetCodecSdp(params: CodecParameters) returns (r: Result<Codec>)
      ensures r == Negotiate(codecs, params)
    {
      var i := 0;
      while i < |codecs|
        invariant 0 <= i <= |codecs|
        invariant Negotiate(codecs[i..], params) == Negotiate(codecs, params)
      {
        var codec := codecs[i];
        assert codecs[i..][1..] == codecs[i + 1..];
        if codec.name == params.name && codec.capability.clockRate == params.clockRate
           && codec.capability.channels == params.channels {
          var ok := EqualFmtp(params, codec.capability.sdpFmtpLine);
          if ok.Ok? && ok.value {
            return Ok(codec);
          }
        }
        i := i + 1;
      }
      return Err(CodecNotFound);
    }

    /** MediaEngine.getCodecsByKind: the codecs of one kind, in registration
        order. */
    method GetCodecsByKind(kind: CodecType) returns (r: seq<Codec>)
      ensures r == OfKind(codecs, kind)
    {
      r := [];
      var i := 0;
      while i < |codecs|
        invariant 0 <= i <= |codecs|
        invariant r == OfKind(codecs[..i], kind)
      {
        assert codecs[..i + 1][..i] == codecs[..i];
        if codecs[i].kind == kind {
          r := r + [codecs[i]];
        }
        i := i + 1;
      }
      assert codecs[..i] == codecs;
    }
  }
}
