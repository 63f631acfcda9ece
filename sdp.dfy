/** The SDP attribute parsers of sdputils.go: single-line parsers for
    `a=rtpmap` and `a=fmtp` (section 6 of RFC 4566), `a=rtcp-fb` (section 4.2 of
    RFC 4585), `a=extmap` (section 5 of RFC 5285) and `a=ssrc` (sections 4.1 and
    6.1 of RFC 5576), and the correlation of one media section's attributes into
    RTP codec, header-extension and decoding parameters.

    The Go closures that append into `*RTCRtpParameters` or
    `*RTCRtpCodecParameters` through a pointer become step functions that take
    the record built so far and return the extended record; the attribute loop
    threads that record from one matching attribute to the next. */
module Sdp {
  import opened Errors
  import opened Primitives
  import opened RtpTypes

  /** One `a=<key>:<value>` line of a media section. */
  datatype Attribute = Attribute(key: string, value: string)

  /** The part of an SDP media section the parsers read: the format list of the
      `m=` line and the attribute lines, in order. */
  datatype MediaDescription = MediaDescription(formats: seq<string>, attributes: seq<Attribute>)

  /** An RFC 5576 source attribute: `a=ssrc:<ssrc> <attribute>[:<value>]`. */
  datatype SsrcMedia = SsrcMedia(ssrc: uint32, attribute: string, value: string)

  // ===========================================================================
  // Single-line parsers

  /** sdpParseRtpMap: `<payload type> <name>/<clock rate>[/<channels>]`. The
      first space, which must not be at position 0, separates the payload type
      from the codec description. */
  function ParseRtpMap(a: Attribute): (r: Result<CodecParameters>)
    ensures IndexOf(a.value, ' ') < 1 ==> r == Err(RtpMapTooShort(a.value))
    ensures r.Ok? ==> '/' !in r.value.name
    ensures r.Ok? ==> r.value == RtpMapCodec(r.value.name, r.value.payloadType, r.value.clockRate, r.value.channels)
    ensures r.Ok? ==> ParseUint(a.value[..IndexOf(a.value, ' ')], Bits8) == Some(r.value.payloadType as nat)
  {
    var sp := IndexOf(a.value, ' ');
    if sp < 1 then Err(RtpMapTooShort(a.value))
    else RtpMapFields(a.value[..sp], a.value[sp + 1..])
  }

  /** The payload type, then the codec description. */
  function RtpMapFields(payloadTypeStr: string, codecStr: string): (r: Result<CodecParameters>)
    ensures r.Ok? ==> '/' !in r.value.name
    ensures r.Ok? ==> r.value == RtpMapCodec(r.value.name, r.value.payloadType, r.value.clockRate, r.value.channels)
    ensures r.Ok? ==> ParseUint(payloadTypeStr, Bits8) == Some(r.value.payloadType as nat)
  {
    match ParseUint(payloadTypeStr, Bits8)
    case None => Err(InvalidPayloadType(payloadTypeStr))
    case Some(payloadType) => RtpMapCodecFields(payloadType as uint8, codecStr)
  }

  /** `<name>/<clock rate>[/<channels>]`: the channel count is read only when
      there are exactly three pieces. */
  function RtpMapCodecFields(payloadType: uint8, codecStr: string): (r: Result<CodecParameters>)
    ensures r.Ok? ==> '/' !in r.value.name && r.value.payloadType == payloadType
    ensures r.Ok? ==> r.value == RtpMapCodec(r.value.name, r.value.payloadType, r.value.clockRate, r.value.channels)
  {
    var parts := Split(codecStr, '/');
    if |parts| < 2 then Err(InvalidCodec(codecStr))
    else
      var name := parts[0];
      var clockRateStr := parts[1];
      match ParseUint(clockRateStr, Bits32)
      case None => Err(InvalidClockRate(clockRateStr))
      case Some(clockRate) =>
        if |parts| == 3 then
          match ParseUint(parts[2], Bits32)
          case None => Err(InvalidChannels(parts[2]))
          case Some(channels) =>
            Ok(RtpMapCodec(name, payloadType, clockRate as uint32, channels as uint32))
        else
          Ok(RtpMapCodec(name, payloadType, clockRate as uint32, 0))
  }

  /** sdpParseFmtp: `<payload type> <parameters>`; the text after the first space,
      which must not be at position 0, is parsed as a parameter list. */
  function ParseFmtp(a: Attribute): (r: Result<map<string, string>>)
    ensures IndexOf(a.value, ' ') < 1 ==> r == Err(FmtpTooShort(a.value))
  {
    var sp := IndexOf(a.value, ' ');
    if sp < 1 then Err(FmtpTooShort(a.value))
    else FmtpParams(a.value[sp + 1..])
  }

  /** The parameter map of an fmtp value: the `;`-separated segments, left to
      right, each blank segment skipped, each other segment `key=value` with both
      sides trimmed; a later segment overwrites an earlier one with the same key.
      This is the function that ParseFmtpString computes. */
  function FmtpParams(paramsStr: string): (r: Result<map<string, string>>)
    ensures r.Err? ==> (r.error.InvalidParameter? && r.error.param in Split(paramsStr, ';')
                        && |TrimSpace(r.error.param)| != 0 && |Split(r.error.param, '=')| < 2)
  {
    FmtpSegments(Split(paramsStr, ';'), map[])
  }

  function FmtpSegments(params: seq<string>, acc: map<string, string>): (r: Result<map<string, string>>)
    ensures r.Err? ==> (r.error.InvalidParameter? && r.error.param in params
                        && |TrimSpace(r.error.param)| != 0 && |Split(r.error.param, '=')| < 2)
    ensures r.Ok? ==> acc.Keys <= r.value.Keys
  {
    if params == [] then Ok(acc)
    else
      var param := params[0];
      if |TrimSpace(param)| == 0 then FmtpSegments(params[1..], acc)
      else
        var parts := Split(param, '=');
        if |parts| < 2 then Err(InvalidParameter(param))
        else FmtpSegments(params[1..], acc[TrimSpace(parts[0]) := TrimSpace(parts[1])])
  }

  /** sdpParseFmtpString: fills the parameter map segment by segment. */
  method ParseFmtpString(paramsStr: string) returns (r: Result<map<string, string>>)
    ensures r == FmtpParams(paramsStr)
  {
    var res: map<string, string> := map[];
    var params := Split(paramsStr, ';');
    for i := 0 to |params|
      invariant FmtpSegments(params[i..], res) == FmtpSegments(params, map[])
    {
      var param := params[i];
      assert params[i..][1..] == params[i + 1..];
      if |TrimSpace(param)| == 0 {
        continue;
      }
      var parts := Split(param, '=');
      if |parts| < 2 {
        return Err(InvalidParameter(param));
      }
      var k := TrimSpace(parts[0]);
      var v := TrimSpace(parts[1]);
      res := res[k := v];
    }
    return Ok(res);
  }

  /** sdpParseRtcpFeedback: `<payload type> <type>[ <parameter>]`. */
  function ParseRtcpFeedback(a: Attribute): (r: Result<RtcpFeedback>)
    ensures r.Ok? <==> IndexOf(a.value, ' ') >= 1
    ensures r.Err? ==> r.error == RtcpFeedbackTooShort(a.value)
    ensures r.Ok? ==>
      var fbStr := a.value[IndexOf(a.value, ' ') + 1..];
      || (fbStr == r.value.typ + " " + r.value.parameter && ' ' !in r.value.typ && r.value.typ != "")
      || (fbStr == r.value.typ && r.value.parameter == "" && IndexOf(fbStr, ' ') <= 0)
  {
    var sp := IndexOf(a.value, ' ');
    if sp < 1 then Err(RtcpFeedbackTooShort(a.value))
    else
      var fbStr := a.value[sp + 1..];
      var sp2 := IndexOf(fbStr, ' ');
      if sp2 > 0 then
        assert fbStr == fbStr[..sp2] + " " + fbStr[sp2 + 1..];
        Ok(RtcpFeedback(fbStr[..sp2], fbStr[sp2 + 1..]))
      else
        Ok(RtcpFeedback(fbStr, ""))
  }

  /** sdpParseExtmap: `<id>[/<direction>] <uri>`. */
  function ParseExtmap(a: Attribute): (r: Result<HeaderExtensionParameters>)
    ensures IndexOf(a.value, ' ') < 1 ==> r == Err(ExtmapTooShort(a.value))
    ensures r.Ok? ==> var sp := IndexOf(a.value, ' ');
      && sp >= 1
      && r.value.uri == a.value[sp + 1..]
      && ParseUint(Split(a.value[..sp], '/')[0], Bits16) == Some(r.value.id as nat)
      && ('/' in a.value[..sp] ==> r.value.direction == Split(a.value[..sp], '/')[1])
      && ('/' !in a.value[..sp] ==> r.value.direction == "sendrecv")
  {
    var sp := IndexOf(a.value, ' ');
    if sp < 1 then Err(ExtmapTooShort(a.value))
    else
      var idParts := Split(a.value[..sp], '/');
      var idStr := idParts[0];
      match ParseUint(idStr, Bits16)
      case None => Err(InvalidId(idStr))
      case Some(id) =>
        SplitMoreThanOne(a.value[..sp], '/');
        var direction := if |idParts| > 1 then idParts[1] else "sendrecv";
        var uri := a.value[sp + 1..];
        Ok(HeaderExtensionParameters(id as uint16, direction, uri))
  }

  /** sdpParseSsrcMedia: `<ssrc> <attribute>[:<value>]`; the value ends at the
      next colon, if any. */
  function ParseSsrcMedia(a: Attribute): (r: Result<SsrcMedia>)
    ensures IndexOf(a.value, ' ') < 1 ==> r == Err(SsrcMediaTooShort(a.value))
    ensures r.Ok? ==> var sp := IndexOf(a.value, ' '); var rest := a.value[sp + 1..];
      && ParseUint(a.value[..sp], Bits32) == Some(r.value.ssrc as nat)
      && ':' !in r.value.attribute && ':' !in r.value.value
      && (rest == r.value.attribute || SsrcAttributeText(r.value) <= rest)
      && (rest == r.value.attribute ==> r.value.value == "")
  {
    var sp := IndexOf(a.value, ' ');
    if sp < 1 then Err(SsrcMediaTooShort(a.value))
    else
      var ssrcStr := a.value[..sp];
      match ParseUint(ssrcStr, Bits32)
      case None => Err(InvalidSsrc(ssrcStr))
      case Some(ssrc) =>
        var rest := a.value[sp + 1..];
        var parts := Split(rest, ':');
        var attribute := parts[0];
        var value := if |parts| > 1 then parts[1] else "";
        SplitHead(rest, ':');
        Ok(SsrcMedia(ssrc as uint32, attribute, value))
  }

  /** `<attribute>:<value>`, the text a parsed source attribute starts with. */
  function SsrcAttributeText(s: SsrcMedia): string {
    s.attribute + ":" + s.value
  }

  // ===========================================================================
  // The attribute loop and the step functions it runs

  /** The attributes with the given key whose value starts with the given prefix,
      in attribute order. */
  function MatchingAttributes(attrs: seq<Attribute>, key: string, prefix: string): (r: seq<Attribute>)
    ensures |r| <= |attrs|
  {
    if attrs == [] then []
    else
      var a := attrs[|attrs| - 1];
      var init := MatchingAttributes(attrs[..|attrs| - 1], key, prefix);
      if a.key == key && HasPrefix(a.value, prefix) then init + [a] else init
  }

  /** Exactly the attributes with the key and the prefix are kept. */
  lemma {:induction false} MatchingAttributesMembers(attrs: seq<Attribute>, key: string, prefix: string)
    ensures forall i | 0 <= i < |MatchingAttributes(attrs, key, prefix)| ::
      var a := MatchingAttributes(attrs, key, prefix)[i]; a in attrs && a.key == key && HasPrefix(a.value, prefix)
    ensures forall i | 0 <= i < |attrs| ::
      attrs[i].key == key && HasPrefix(attrs[i].value, prefix) ==> attrs[i] in MatchingAttributes(attrs, key, prefix)
  {
    if attrs != [] {
      var init := attrs[..|attrs| - 1];
      MatchingAttributesMembers(init, key, prefix);
      assert forall i | 0 <= i < |init| :: init[i] == attrs[i];
      assert forall a | a in init :: a in attrs;
    }
  }

  lemma {:induction false} MatchingAppend(xs: seq<Attribute>, ys: seq<Attribute>, key: string, prefix: string)
    ensures MatchingAttributes(xs + ys, key, prefix) == MatchingAttributes(xs, key, prefix) + MatchingAttributes(ys, key, prefix)
    decreases |ys|
  {
    if ys == [] {
      assert xs + ys == xs;
    } else {
      var ys' := ys[..|ys| - 1];
      MatchingAppend(xs, ys', key, prefix);
      assert (xs + ys)[..|xs + ys| - 1] == xs + ys';
    }
  }

  /** Runs `step` on each attribute in turn, threading the record it builds; the
      first failing step ends the run with its error. */
  function FoldAttributes<S>(step: (S, Attribute) -> Result<S>, init: S, attrs: seq<Attribute>): Result<S> {
    if attrs == [] then Ok(init)
    else
      match FoldAttributes(step, init, attrs[..|attrs| - 1])
      case Err(e) => Err(e)
      case Ok(s) => step(s, attrs[|attrs| - 1])
  }

  lemma {:induction false} FoldErrorPersists<S>(step: (S, Attribute) -> Result<S>, init: S, xs: seq<Attribute>, ys: seq<Attribute>)
    requires FoldAttributes(step, init, xs).Err?
    ensures FoldAttributes(step, init, xs + ys) == FoldAttributes(step, init, xs)
    decreases |ys|
  {
    if ys == [] {
      assert xs + ys == xs;
    } else {
      FoldErrorPersists(step, init, xs, ys[..|ys| - 1]);
      assert (xs + ys)[..|xs + ys| - 1] == xs + ys[..|ys| - 1];
    }
  }

  lemma MatchingStep(attrs: seq<Attribute>, i: int, key: string, prefix: string)
    requires 0 <= i < |attrs|
    ensures MatchingAttributes(attrs[..i + 1], key, prefix)
         == MatchingAttributes(attrs[..i], key, prefix)
            + (if attrs[i].key == key && HasPrefix(attrs[i].value, prefix) then [attrs[i]] else [])
  {
    assert attrs[..i + 1][..i] == attrs[..i];
  }

  lemma FoldStep<S>(step: (S, Attribute) -> Result<S>, init: S, xs: seq<Attribute>, a: Attribute)
    ensures FoldAttributes(step, init, xs + [a])
         == match FoldAttributes(step, init, xs) case Err(e) => Err(e) case Ok(s) => step(s, a)
  {
    assert (xs + [a])[..|xs|] == xs;
  }

  /** A failure on the first `i + 1` attributes is the failure on all of them. */
  lemma FoldMatchingError<S>(step: (S, Attribute) -> Result<S>, init: S, attrs: seq<Attribute>, i: int,
                             key: string, prefix: string)
    requires 0 <= i < |attrs|
    requires FoldAttributes(step, init, MatchingAttributes(attrs[..i + 1], key, prefix)).Err?
    ensures FoldAttributes(step, init, MatchingAttributes(attrs, key, prefix))
         == FoldAttributes(step, init, MatchingAttributes(attrs[..i + 1], key, prefix))
  {
    var done := MatchingAttributes(attrs[..i + 1], key, prefix);
    MatchingAppend(attrs[..i + 1], attrs[i + 1..], key, prefix);
    assert attrs[..i + 1] + attrs[i + 1..] == attrs;
    FoldErrorPersists(step, init, done, MatchingAttributes(attrs[i + 1..], key, prefix));
  }

  /** sdpMatchAttributePrefixFunc: runs the parser `p` on every attribute with
      key `key` whose value starts with `prefix`, in order, and stops at the first
      error. */
  method MatchAttributePrefixFunc<S>(d: MediaDescription, key: string, prefix: string,
                                     p: (S, Attribute) -> Result<S>, init: S)
    returns (r: Result<S>)
    ensures r == FoldAttributes(p, init, MatchingAttributes(d.attributes, key, prefix))
  {
    var state := init;
    for i := 0 to |d.attributes|
      invariant FoldAttributes(p, init, MatchingAttributes(d.attributes[..i], key, prefix)) == Ok(state)
    {
      var a := d.attributes[i];
      ghost var before := MatchingAttributes(d.attributes[..i], key, prefix);
      MatchingStep(d.attributes, i, key, prefix);
      if a.key != key || !HasPrefix(a.value, prefix) {
        assert MatchingAttributes(d.attributes[..i + 1], key, prefix) == before + [] == before;
        continue;
      }
      var res := p(state, a);
      FoldStep(p, init, before, a);
      if res.Err? {
        FoldMatchingError(p, init, d.attributes, i, key, prefix);
        return res;
      }
      state := res.value;
    }
    assert d.attributes[..|d.attributes|] == d.attributes;
    return Ok(state);
  }

  /** sdpFindAttributePrefix: the first attribute with key `key` whose value
      starts with `prefix`. */
  method FindAttributePrefix(d: MediaDescription, key: string, prefix: string) returns (r: Result<Attribute>)
    ensures var m := MatchingAttributes(d.attributes, key, prefix);
      && (r.Ok? <==> |m| > 0)
      && (r.Ok? ==> r.value == m[0])
      && (r.Err? ==> r.error == AttributeNotFound)
  {
    for i := 0 to |d.attributes|
      invariant MatchingAttributes(d.attributes[..i], key, prefix) == []
    {
      var a := d.attributes[i];
      assert d.attributes[..i + 1][..i] == d.attributes[..i];
      if a.key != key || !HasPrefix(a.value, prefix) {
        continue;
      }
      MatchingAppend(d.attributes[..i + 1], d.attributes[i + 1..], key, prefix);
      assert d.attributes[..i + 1] + d.attributes[i + 1..] == d.attributes;
      return Ok(a);
    }
    assert d.attributes[..|d.attributes|] == d.attributes;
    return Err(AttributeNotFound);
  }

  /** sdpRtpFmtpParser: a matching fmtp line replaces the codec's parameter map. */
  function RtpFmtpParser(codec: CodecParameters, a: Attribute): (r: Result<CodecParameters>)
    ensures r.Ok? <==> ParseFmtp(a).Ok?
    ensures r.Ok? ==> r.value == codec.(parameters := ParseFmtp(a).value)
  {
    match ParseFmtp(a)
    case Err(e) => Err(e)
    case Ok(params) => Ok(codec.(parameters := params))
  }

  /** sdpRtpRtcpFeedbackParser: a matching rtcp-fb line appends one feedback entry. */
  function RtpRtcpFeedbackParser(codec: CodecParameters, a: Attribute): (r: Result<CodecParameters>)
    ensures r.Ok? <==> ParseRtcpFeedback(a).Ok?
    ensures r.Ok? ==> r.value == codec.(rtcpFeedback := codec.rtcpFeedback + [ParseRtcpFeedback(a).value])
  {
    match ParseRtcpFeedback(a)
    case Err(e) => Err(e)
    case Ok(fb) => Ok(codec.(rtcpFeedback := codec.rtcpFeedback + [fb]))
  }

  /** sdpExtmapParser: an extmap line appends one header extension. */
  function ExtmapParser(p: RtpParameters, a: Attribute): (r: Result<RtpParameters>)
    ensures r.Ok? <==> ParseExtmap(a).Ok?
    ensures r.Ok? ==> r.value == p.(headerExtensions := p.headerExtensions + [ParseExtmap(a).value])
  {
    match ParseExtmap(a)
    case Err(e) => Err(e)
    case Ok(ext) => Ok(p.(headerExtensions := p.headerExtensions + [ext]))
  }

  /** The fmtp/rtcp-fb attribute prefix for a payload type: `fmt.Sprintf("%d ", pt)`. */
  function PayloadTypePrefix(payloadType: uint8): (r: string)
    ensures |r| >= 2 && r[|r| - 1] == ' ' && ' ' !in r[..|r| - 1]
    ensures ParseUint(r[..|r| - 1], Bits8) == Some(payloadType as nat)
  {
    FormatUintHasNoSeparator(payloadType as nat);
    ParseFormatUint(payloadType as nat, Bits8);
    assert (FormatUint(payloadType as nat) + " ")[..|FormatUint(payloadType as nat)|] == FormatUint(payloadType as nat);
    FormatUint(payloadType as nat) + " "
  }

  /** The codec one rtpmap line describes: the line parsed, then the fmtp and
      then the rtcp-fb lines that carry the parsed payload type applied to it. */
  function CodecOfRtpMap(d: MediaDescription, a: Attribute): (r: Result<CodecParameters>)
    ensures ParseRtpMap(a).Err? ==> r == Err(ParseRtpMap(a).error)
    ensures ParseRtpMap(a).Ok? && r.Err? ==> r.error.FailedToParseFmtp? || r.error.FailedToParseRtcpFeedback?
  {
    match ParseRtpMap(a)
    case Err(e) => Err(e)
    case Ok(codec) =>
      var prefix := PayloadTypePrefix(codec.payloadType);
      match FoldAttributes(RtpFmtpParser, codec, MatchingAttributes(d.attributes, "fmtp", prefix))
      case Err(e) => Err(FailedToParseFmtp(e))
      case Ok(withFmtp) =>
        match FoldAttributes(RtpRtcpFeedbackParser, withFmtp, MatchingAttributes(d.attributes, "rtcp-fb", prefix))
        case Err(e) => Err(FailedToParseRtcpFeedback(e))
        case Ok(withFeedback) => Ok(withFeedback)
  }

  /** The fmtp lines only ever replace the parameter map. */
  lemma {:induction false} FmtpFoldKeepsFields(init: CodecParameters, attrs: seq<Attribute>)
    requires FoldAttributes(RtpFmtpParser, init, attrs).Ok?
    ensures var r := FoldAttributes(RtpFmtpParser, init, attrs).value;
      r == init.(parameters := r.parameters)
  {
    if attrs != [] {
      FmtpFoldKeepsFields(init, attrs[..|attrs| - 1]);
    }
  }

  /** The rtcp-fb lines only ever append feedback entries, one per line. */
  lemma {:induction false} FeedbackFoldKeepsFields(init: CodecParameters, attrs: seq<Attribute>)
    requires FoldAttributes(RtpRtcpFeedbackParser, init, attrs).Ok?
    ensures var r := FoldAttributes(RtpRtcpFeedbackParser, init, attrs).value;
      r == init.(rtcpFeedback := r.rtcpFeedback) && |r.rtcpFeedback| == |init.rtcpFeedback| + |attrs|
      && r.rtcpFeedback[..|init.rtcpFeedback|] == init.rtcpFeedback
  {
    if attrs != [] {
      FeedbackFoldKeepsFields(init, attrs[..|attrs| - 1]);
    }
  }

  /** A codec built from an rtpmap line keeps everything the line states; the
      fmtp and rtcp-fb lines of its payload type only set the parameters and add
      one feedback entry per line. */
  lemma CodecOfRtpMapFields(d: MediaDescription, a: Attribute)
    ensures CodecOfRtpMap(d, a).Ok? ==> ParseRtpMap(a).Ok?
    ensures CodecOfRtpMap(d, a).Ok? ==>
      var c := ParseRtpMap(a).value;
      var r := CodecOfRtpMap(d, a).value;
      && r == c.(parameters := r.parameters, rtcpFeedback := r.rtcpFeedback)
      && |r.rtcpFeedback| == |c.rtcpFeedback| + |MatchingAttributes(d.attributes, "rtcp-fb", PayloadTypePrefix(c.payloadType))|
  {
    if ParseRtpMap(a).Ok? {
      var c := ParseRtpMap(a).value;
      var prefix := PayloadTypePrefix(c.payloadType);
      var fmtps := MatchingAttributes(d.attributes, "fmtp", prefix);
      var fbs := MatchingAttributes(d.attributes, "rtcp-fb", prefix);
      if FoldAttributes(RtpFmtpParser, c, fmtps).Ok? {
        var withFmtp := FoldAttributes(RtpFmtpParser, c, fmtps).value;
        FmtpFoldKeepsFields(c, fmtps);
        if FoldAttributes(RtpRtcpFeedbackParser, withFmtp, fbs).Ok? {
          FeedbackFoldKeepsFields(withFmtp, fbs);
        }
      }
    }
  }

  /** The body of the closure sdpRtpCodecParser returns: the codec of the line
      is appended. */
  function AppendRtpMapCodec(d: MediaDescription, p: RtpParameters, a: Attribute): (r: Result<RtpParameters>)
    ensures r.Ok? <==> CodecOfRtpMap(d, a).Ok?
    ensures r.Ok? ==> r.value == p.(codecs := p.codecs + [CodecOfRtpMap(d, a).value])
  {
    match CodecOfRtpMap(d, a)
    case Err(e) => Err(e)
    case Ok(codec) => Ok(p.(codecs := p.codecs + [codec]))
  }

  /** sdpRtpCodecParser: the parser closed over the media section. */
  function RtpCodecParser(d: MediaDescription): (RtpParameters, Attribute) -> Result<RtpParameters> {
    (p: RtpParameters, a: Attribute) => AppendRtpMapCodec(d, p, a)
  }

  /** The rtpmap lines that belong to one format of the `m=` line. */
  function RtpMapsOf(d: MediaDescription, format: string): seq<Attribute> {
    MatchingAttributes(d.attributes, "rtpmap", format + " ")
  }

  /** The codec part of sdpParseRtpParameters over a prefix of the format list. */
  function CodecsOfFormats(d: MediaDescription, formats: seq<string>): (r: Result<RtpParameters>)
    ensures r.Err? ==> r.error.FailedToParseCodec?
  {
    if formats == [] then Ok(RtpParameters([], []))
    else
      match CodecsOfFormats(d, formats[..|formats| - 1])
      case Err(e) => Err(e)
      case Ok(p) =>
        match FoldAttributes(RtpCodecParser(d), p, RtpMapsOf(d, formats[|formats| - 1]))
        case Err(e) => Err(FailedToParseCodec(e))
        case Ok(p') => Ok(p')
  }

  /** What sdpParseRtpParameters computes: the codecs of every format, then every
      extmap line as a header extension. */
  function RtpParametersOf(d: MediaDescription): (r: Result<RtpParameters>)
    ensures r.Err? ==> r.error.FailedToParseCodec? || r.error.FailedToParseHeaderExtensions?
    ensures CodecsOfFormats(d, d.formats).Err? ==> r == CodecsOfFormats(d, d.formats)
  {
    match CodecsOfFormats(d, d.formats)
    case Err(e) => Err(e)
    case Ok(p) =>
      match FoldAttributes(ExtmapParser, p, MatchingAttributes(d.attributes, "extmap", ""))
      case Err(e) => Err(FailedToParseHeaderExtensions(e))
      case Ok(p') => Ok(p')
  }

  /** sdpParseRtpParameters. */
  method ParseRtpParameters(d: MediaDescription) returns (r: Result<RtpParameters>)
    ensures r == RtpParametersOf(d)
  {
    var res := RtpParameters([], []);
    for i := 0 to |d.formats|
      invariant CodecsOfFormats(d, d.formats[..i]) == Ok(res)
    {
      var format := d.formats[i];
      CodecsStep(d, d.formats, i, res);
      var err := MatchAttributePrefixFunc(d, "rtpmap", format + " ", RtpCodecParser(d), res);
      if err.Err? {
        CodecErrorPersists(d, d.formats[..i + 1], d.formats[i + 1..]);
        assert d.formats[..i + 1] + d.formats[i + 1..] == d.formats;
        return Err(FailedToParseCodec(err.error));
      }
      res := err.value;
    }
    assert d.formats[..|d.formats|] == d.formats;
    var err := MatchAttributePrefixFunc(d, "extmap", "", ExtmapParser, res);
    if err.Err? {
      return Err(FailedToParseHeaderExtensions(err.error));
    }
    return Ok(err.value);
  }

  lemma CodecsStep(d: MediaDescription, formats: seq<string>, i: int, p: RtpParameters)
    requires 0 <= i < |formats| && CodecsOfFormats(d, formats[..i]) == Ok(p)
    ensures CodecsOfFormats(d, formats[..i + 1])
         == match FoldAttributes(RtpCodecParser(d), p, RtpMapsOf(d, formats[i]))
            case Err(e) => Err(FailedToParseCodec(e))
            case Ok(q) => Ok(q)
  {
    assert formats[..i + 1][..i] == formats[..i];
  }

  lemma {:induction false} CodecErrorPersists(d: MediaDescription, xs: seq<string>, ys: seq<string>)
    requires CodecsOfFormats(d, xs).Err?
    ensures CodecsOfFormats(d, xs + ys) == CodecsOfFormats(d, xs)
    decreases |ys|
  {
    if ys == [] {
      assert xs + ys == xs;
    } else {
      CodecErrorPersists(d, xs, ys[..|ys| - 1]);
      assert (xs + ys)[..|xs + ys| - 1] == xs + ys[..|ys| - 1];
    }
  }

  /** The closure of sdpParseRtpDecodingParameters: every ssrc line must parse;
      the ones whose attribute is "cname" are kept. */
  function SsrcCollector(ssrcs: seq<SsrcMedia>, a: Attribute): (r: Result<seq<SsrcMedia>>)
    ensures r.Ok? <==> ParseSsrcMedia(a).Ok?
    ensures r.Ok? ==> r.value == ssrcs + (if IsCname(a) then [ParseSsrcMedia(a).value] else [])
    ensures r.Err? ==> r.error == ParseSsrcMedia(a).error
  {
    match ParseSsrcMedia(a)
    case Err(e) => Err(e)
    case Ok(ssrc) => Ok(if ssrc.attribute == "cname" then ssrcs + [ssrc] else ssrcs)
  }

  predicate AllSsrcParse(lines: seq<Attribute>) {
    forall i | 0 <= i < |lines| :: ParseSsrcMedia(lines[i]).Ok?
  }

  /** The values `f` gives the lines, concatenated in line order. */
  function Collect<T>(f: Attribute -> seq<T>, lines: seq<Attribute>): seq<T> {
    if lines == [] then [] else Collect(f, lines[..|lines| - 1]) + f(lines[|lines| - 1])
  }

  /** The parsed entry of a `cname` source attribute line; nothing for any
      other line. */
  function CnameOf(a: Attribute): seq<SsrcMedia> {
    if IsCname(a) then [ParseSsrcMedia(a).value] else []
  }

  /** The parsed `cname` source attributes, in line order. */
  function CnameEntries(lines: seq<Attribute>): seq<SsrcMedia> {
    Collect(CnameOf, lines)
  }

  predicate IsCname(a: Attribute) {
    ParseSsrcMedia(a).Ok? && ParseSsrcMedia(a).value.attribute == "cname"
  }

  /** Line `i` is the first `cname` source attribute. */
  predicate FirstCnameAt(lines: seq<Attribute>, i: int) {
    0 <= i < |lines| && IsCname(lines[i]) && forall j | 0 <= j < i :: !IsCname(lines[j])
  }

  lemma {:induction false} SsrcFoldAllParse(acc: seq<SsrcMedia>, lines: seq<Attribute>)
    requires AllSsrcParse(lines)
    ensures FoldAttributes(SsrcCollector, acc, lines) == Ok(acc + CnameEntries(lines))
  {
    if lines != [] {
      var init := lines[..|lines| - 1];
      assert forall j | 0 <= j < |init| :: init[j] == lines[j];
      var last := lines[|lines| - 1];
      assert ParseSsrcMedia(last).Ok?;
      SsrcFoldAllParse(acc, init);
      assert FoldAttributes(SsrcCollector, acc, lines) == SsrcCollector(acc + CnameEntries(init), last);
      var tail := CnameOf(last);
      assert CnameEntries(lines) == CnameEntries(init) + tail;
      var v := acc + CnameEntries(init);
      assert SsrcCollector(v, last) == Ok(v + tail);
      assert v + tail == acc + CnameEntries(lines);
      assert FoldAttributes(SsrcCollector, acc, lines) == Ok(acc + CnameEntries(lines));
    } else {
      assert CnameEntries(lines) == [];
      assert acc + CnameEntries(lines) == acc;
    }
  }

  lemma {:induction false} SsrcFoldSomeFails(acc: seq<SsrcMedia>, lines: seq<Attribute>, i: int)
    requires 0 <= i < |lines| && ParseSsrcMedia(lines[i]).Err?
    ensures FoldAttributes(SsrcCollector, acc, lines).Err?
  {
    var init := lines[..|lines| - 1];
    if i < |lines| - 1 {
      assert init[i] == lines[i];
      SsrcFoldSomeFails(acc, init, i);
      assert FoldAttributes(SsrcCollector, acc, lines) == FoldAttributes(SsrcCollector, acc, init);
    } else if FoldAttributes(SsrcCollector, acc, init).Ok? {
      var s := FoldAttributes(SsrcCollector, acc, init).value;
      assert FoldAttributes(SsrcCollector, acc, lines) == SsrcCollector(s, lines[i]);
    }
  }

  /** Line `i` is the first ssrc line that does not parse. */
  predicate FirstSsrcFailureAt(lines: seq<Attribute>, i: int) {
    0 <= i < |lines| && ParseSsrcMedia(lines[i]).Err? && AllSsrcParse(lines[..i])
  }

  /** A failed collection reports the error of the first line that does not parse. */
  lemma {:induction false} SsrcFoldFirstError(acc: seq<SsrcMedia>, lines: seq<Attribute>)
    requires FoldAttributes(SsrcCollector, acc, lines).Err?
    ensures exists i :: FirstSsrcFailureAt(lines, i)
                        && FoldAttributes(SsrcCollector, acc, lines).error == ParseSsrcMedia(lines[i]).error
  {
    var init := lines[..|lines| - 1];
    var last := lines[|lines| - 1];
    if FoldAttributes(SsrcCollector, acc, init).Err? {
      assert FoldAttributes(SsrcCollector, acc, lines) == FoldAttributes(SsrcCollector, acc, init);
      SsrcFoldFirstError(acc, init);
      var i :| FirstSsrcFailureAt(init, i)
               && FoldAttributes(SsrcCollector, acc, init).error == ParseSsrcMedia(init[i]).error;
      assert init[..i] == lines[..i];
      assert FirstSsrcFailureAt(lines, i);
    } else {
      var s := FoldAttributes(SsrcCollector, acc, init).value;
      assert FoldAttributes(SsrcCollector, acc, lines) == SsrcCollector(s, last);
      SsrcFoldOkAllParse(acc, init);
      assert FirstSsrcFailureAt(lines, |lines| - 1);
    }
  }

  lemma SsrcFoldOkAllParse(acc: seq<SsrcMedia>, lines: seq<Attribute>)
    requires FoldAttributes(SsrcCollector, acc, lines).Ok?
    ensures AllSsrcParse(lines)
  {
    forall j | 0 <= j < |lines| ensures ParseSsrcMedia(lines[j]).Ok? {
      if ParseSsrcMedia(lines[j]).Err? {
        SsrcFoldSomeFails(acc, lines, j);
      }
    }
  }

  lemma {:induction false} CollectNone<T>(f: Attribute -> seq<T>, lines: seq<Attribute>)
    ensures |Collect(f, lines)| == 0 <==> forall i | 0 <= i < |lines| :: f(lines[i]) == []
  {
    if lines != [] {
      var init := lines[..|lines| - 1];
      assert forall j | 0 <= j < |init| :: init[j] == lines[j];
      CollectNone(f, init);
    }
  }

  /** The first value collected comes from the first line `f` gives a value. */
  lemma {:induction false} CollectFirst<T>(f: Attribute -> seq<T>, lines: seq<Attribute>)
    ensures |Collect(f, lines)| > 0 ==>
      exists i | 0 <= i < |lines| :: f(lines[i]) != [] && (forall j | 0 <= j < i :: f(lines[j]) == [])
                                    && Collect(f, lines)[0] == f(lines[i])[0]
  {
    if lines != [] {
      var init := lines[..|lines| - 1];
      var last := lines[|lines| - 1];
      assert forall j | 0 <= j < |init| :: init[j] == lines[j];
      CollectFirst(f, init);
      if |Collect(f, init)| == 0 {
        CollectNone(f, init);
        if f(last) != [] {
          assert Collect(f, lines)[0] == f(lines[|lines| - 1])[0];
        }
      }
    }
  }

  /** No `cname` entry is collected exactly when no line is a `cname` line. */
  lemma CnameEntriesNone(lines: seq<Attribute>)
    ensures |CnameEntries(lines)| == 0 <==> forall i | 0 <= i < |lines| :: !IsCname(lines[i])
  {
    CollectNone(CnameOf, lines);
    assert forall i | 0 <= i < |lines| :: CnameOf(lines[i]) == [] <==> !IsCname(lines[i]);
  }

  /** The first collected entry is that of the first `cname` line. */
  lemma CnameEntriesFirst(lines: seq<Attribute>)
    ensures |CnameEntries(lines)| > 0 ==>
      exists i :: FirstCnameAt(lines, i) && CnameEntries(lines)[0] == ParseSsrcMedia(lines[i]).value
  {
    CollectFirst(CnameOf, lines);
    if |CnameEntries(lines)| > 0 {
      var i :| 0 <= i < |lines| && CnameOf(lines[i]) != [] && (forall j | 0 <= j < i :: CnameOf(lines[j]) == [])
               && Collect(CnameOf, lines)[0] == CnameOf(lines[i])[0];
      assert forall j | 0 <= j < i :: !IsCname(lines[j]);
      assert FirstCnameAt(lines, i);
    }
  }

  /** sdpParseRtpDecodingParameters: the ssrc of the first `cname` source
      attribute becomes the one decoding target. */
  method ParseRtpDecodingParameters(d: MediaDescription) returns (r: Result<seq<DecodingParameters>>)
    ensures var lines := MatchingAttributes(d.attributes, "ssrc", "");
      (r.Err? && r.error.FailedToParseSsrcs?) <==> exists i | 0 <= i < |lines| :: ParseSsrcMedia(lines[i]).Err?
    ensures var lines := MatchingAttributes(d.attributes, "ssrc", "");
      r == Err(NoSsrcFound) <==>
        && (forall i | 0 <= i < |lines| :: ParseSsrcMedia(lines[i]).Ok?)
        && (forall i | 0 <= i < |lines| :: !IsCname(lines[i]))
    ensures var lines := MatchingAttributes(d.attributes, "ssrc", "");
      r.Err? && r.error.FailedToParseSsrcs? ==>
        exists i :: FirstSsrcFailureAt(lines, i) && r.error.cause == ParseSsrcMedia(lines[i]).error
    ensures var lines := MatchingAttributes(d.attributes, "ssrc", "");
      r.Ok? <==> AllSsrcParse(lines) && exists i | 0 <= i < |lines| :: IsCname(lines[i])
    ensures var lines := MatchingAttributes(d.attributes, "ssrc", "");
      r.Ok? ==>
        exists i :: FirstCnameAt(lines, i) &&
          r.value == [DecodingParameters(CodingParameters(ParseSsrcMedia(lines[i]).value.ssrc, 0))]
  {
    var lines := MatchingAttributes(d.attributes, "ssrc", "");
    var err := MatchAttributePrefixFunc(d, "ssrc", "", SsrcCollector, []);
    if err.Err? {
      if AllSsrcParse(lines) {
        SsrcFoldAllParse([], lines);
        assert false;
      }
      SsrcFoldFirstError([], lines);
      return Err(FailedToParseSsrcs(err.error));
    }
    if i :| 0 <= i < |lines| && ParseSsrcMedia(lines[i]).Err? {
      SsrcFoldSomeFails([], lines, i);
      assert false;
    }
    SsrcFoldAllParse([], lines);
    CnameEntriesNone(lines);
    CnameEntriesFirst(lines);
    var ssrcs := err.value;
    assert ssrcs == CnameEntries(lines);
    if |ssrcs| == 0 {
      return Err(NoSsrcFound);
    }
    var primarySsrc := ssrcs[0].ssrc;
    return Ok([DecodingParameters(CodingParameters(primarySsrc, 0))]);
  }
}
