/** Properties of the SDP attribute parsers: what each single-line parser
    yields on every line of the shape its grammar describes, the errors it
    reports, worked examples, and how the attribute correlation orders and
    combines what the line parsers return. */
module SdpProperties {
  import opened Errors
  import opened Primitives
  import opened RtpTypes
  import opened Sdp

  // ===========================================================================
  // a=rtpmap

  lemma RtpMapOkTwo(a: Attribute, pt: nat, cr: nat)
    requires IndexOf(a.value, ' ') >= 1
    requires ParseUint(a.value[..IndexOf(a.value, ' ')], Bits8) == Some(pt)
    requires |Split(a.value[IndexOf(a.value, ' ') + 1..], '/')| == 2
    requires ParseUint(Split(a.value[IndexOf(a.value, ' ') + 1..], '/')[1], Bits32) == Some(cr)
    ensures ParseRtpMap(a) == Ok(RtpMapCodec(Split(a.value[IndexOf(a.value, ' ') + 1..], '/')[0], pt as uint8, cr as uint32, 0))
  {
    CodecFieldsTwo(pt as uint8, a.value[IndexOf(a.value, ' ') + 1..], cr);
  }

  lemma CodecFieldsTwo(payloadType: uint8, codecStr: string, cr: nat)
    requires |Split(codecStr, '/')| == 2 && ParseUint(Split(codecStr, '/')[1], Bits32) == Some(cr)
    ensures RtpMapCodecFields(payloadType, codecStr) == Ok(RtpMapCodec(Split(codecStr, '/')[0], payloadType, cr as uint32, 0))
  {
  }

  lemma CodecFieldsThree(payloadType: uint8, codecStr: string, cr: nat, ch: nat)
    requires |Split(codecStr, '/')| == 3 && ParseUint(Split(codecStr, '/')[1], Bits32) == Some(cr)
    requires ParseUint(Split(codecStr, '/')[2], Bits32) == Some(ch)
    ensures RtpMapCodecFields(payloadType, codecStr)
         == Ok(RtpMapCodec(Split(codecStr, '/')[0], payloadType, cr as uint32, ch as uint32))
  {
  }

  lemma RtpMapOkThree(a: Attribute, pt: nat, cr: nat, ch: nat)
    requires IndexOf(a.value, ' ') >= 1
    requires ParseUint(a.value[..IndexOf(a.value, ' ')], Bits8) == Some(pt)
    requires |Split(a.value[IndexOf(a.value, ' ') + 1..], '/')| == 3
    requires ParseUint(Split(a.value[IndexOf(a.value, ' ') + 1..], '/')[1], Bits32) == Some(cr)
    requires ParseUint(Split(a.value[IndexOf(a.value, ' ') + 1..], '/')[2], Bits32) == Some(ch)
    ensures ParseRtpMap(a) == Ok(RtpMapCodec(Split(a.value[IndexOf(a.value, ' ') + 1..], '/')[0], pt as uint8, cr as uint32, ch as uint32))
  {
    CodecFieldsThree(pt as uint8, a.value[IndexOf(a.value, ' ') + 1..], cr, ch);
  }

  /** Where `<pt> <name>/<rate>` is cut into its fields. */
  lemma TwoFieldsCut(ptText: string, name: string, rateText: string)
    requires ' ' !in ptText && '/' !in name && '/' !in rateText
    ensures var v := ptText + " " + name + "/" + rateText;
      && IndexOf(v, ' ') == |ptText| && v[..IndexOf(v, ' ')] == ptText
      && Split(v[IndexOf(v, ' ') + 1..], '/') == [name, rateText]
  {
    var v := ptText + " " + name + "/" + rateText;
    Regroup5(ptText, " ", name, "/", rateText);
    CutAt(ptText, ' ', name + "/" + rateText, v);
    SplitTwo(name, rateText, '/');
  }

  /** Where `<pt> <name>/<rate>/<channels>` is cut into its fields. */
  lemma ThreeFieldsCut(ptText: string, name: string, rateText: string, chText: string)
    requires ' ' !in ptText && '/' !in name && '/' !in rateText && '/' !in chText
    ensures var v := ptText + " " + name + "/" + rateText + "/" + chText;
      && IndexOf(v, ' ') == |ptText| && v[..IndexOf(v, ' ')] == ptText
      && Split(v[IndexOf(v, ' ') + 1..], '/') == [name, rateText, chText]
  {
    var v := ptText + " " + name + "/" + rateText + "/" + chText;
    Regroup7(ptText, " ", name, "/", rateText, "/", chText);
    CutAt(ptText, ' ', name + "/" + rateText + "/" + chText, v);
    SplitThree(name, rateText, chText, '/');
  }

  /** `<pt> <name>/<rate>` with decimal payload type and clock rate that fit
      their widths parses to exactly those values, with no channel count. */
  lemma RtpMapTwoFields(key: string, ptText: string, name: string, rateText: string, pt: nat, cr: nat)
    requires ' ' !in ptText && '/' !in name && '/' !in rateText
    requires ParseUint(ptText, Bits8) == Some(pt)
    requires ParseUint(rateText, Bits32) == Some(cr)
    ensures ParseRtpMap(Attribute(key, ptText + " " + name + "/" + rateText))
         == Ok(RtpMapCodec(name, pt as uint8, cr as uint32, 0))
  {
    TwoFieldsCut(ptText, name, rateText);
    RtpMapOkTwo(Attribute(key, ptText + " " + name + "/" + rateText), pt, cr);
  }

  /** `<pt> <name>/<rate>/<channels>` parses to all four values. */
  lemma RtpMapThreeFields(key: string, ptText: string, name: string, rateText: string, chText: string,
                          pt: nat, cr: nat, ch: nat)
    requires ' ' !in ptText && '/' !in name && '/' !in rateText && '/' !in chText
    requires ParseUint(ptText, Bits8) == Some(pt)
    requires ParseUint(rateText, Bits32) == Some(cr)
    requires ParseUint(chText, Bits32) == Some(ch)
    ensures ParseRtpMap(Attribute(key, ptText + " " + name + "/" + rateText + "/" + chText))
         == Ok(RtpMapCodec(name, pt as uint8, cr as uint32, ch as uint32))
  {
    ThreeFieldsCut(ptText, name, rateText, chText);
    RtpMapOkThree(Attribute(key, ptText + " " + name + "/" + rateText + "/" + chText), pt, cr, ch);
  }

  /** Rendering a payload type, name and clock rate as an rtpmap value and
      parsing it back gives them again. */
  lemma RtpMapRoundTrip(key: string, pt: uint8, name: string, clockRate: uint32)
    requires '/' !in name
    ensures ParseRtpMap(Attribute(key, FormatUint(pt as nat) + " " + name + "/" + FormatUint(clockRate as nat)))
         == Ok(RtpMapCodec(name, pt, clockRate, 0))
  {
    FormatUintHasNoSeparator(pt as nat);
    FormatUintHasNoSeparator(clockRate as nat);
    ParseFormatUint(pt as nat, Bits8);
    ParseFormatUint(clockRate as nat, Bits32);
    RtpMapTwoFields(key, FormatUint(pt as nat), name, FormatUint(clockRate as nat), pt as nat, clockRate as nat);
  }

  /** The same with a channel count. */
  lemma RtpMapRoundTripChannels(key: string, pt: uint8, name: string, clockRate: uint32, channels: uint32)
    requires '/' !in name
    ensures ParseRtpMap(Attribute(key, FormatUint(pt as nat) + " " + name + "/" + FormatUint(clockRate as nat)
                                       + "/" + FormatUint(channels as nat)))
         == Ok(RtpMapCodec(name, pt, clockRate, channels))
  {
    FormatUintHasNoSeparator(pt as nat);
    FormatUintHasNoSeparator(clockRate as nat);
    FormatUintHasNoSeparator(channels as nat);
    ParseFormatUint(pt as nat, Bits8);
    ParseFormatUint(clockRate as nat, Bits32);
    ParseFormatUint(channels as nat, Bits32);
    RtpMapThreeFields(key, FormatUint(pt as nat), name, FormatUint(clockRate as nat), FormatUint(channels as nat),
      pt as nat, clockRate as nat, channels as nat);
  }

  /** A payload-type field that is not a decimal below 256 is reported. */
  lemma RtpMapBadPayloadType(key: string, ptText: string, rest: string)
    requires ptText != [] && ' ' !in ptText && ParseUint(ptText, Bits8).None?
    ensures ParseRtpMap(Attribute(key, ptText + " " + rest)) == Err(InvalidPayloadType(ptText))
  {
    Regroup3(ptText, " ", rest);
    CutAt(ptText, ' ', rest, ptText + " " + rest);
  }

  /** A clock-rate field that is not a decimal below 2^32 is reported. */
  lemma RtpMapBadClockRate(key: string, ptText: string, name: string, rateText: string, pt: nat)
    requires ' ' !in ptText && '/' !in name && '/' !in rateText
    requires ParseUint(ptText, Bits8) == Some(pt) && ParseUint(rateText, Bits32).None?
    ensures ParseRtpMap(Attribute(key, ptText + " " + name + "/" + rateText)) == Err(InvalidClockRate(rateText))
  {
    TwoFieldsCut(ptText, name, rateText);
  }

  /** A bad clock-rate field is reported before the channel field is looked at. */
  lemma RtpMapBadClockRateWithChannels(key: string, ptText: string, name: string, rateText: string, chText: string, pt: nat)
    requires ' ' !in ptText && '/' !in name && '/' !in rateText && '/' !in chText
    requires ParseUint(ptText, Bits8) == Some(pt) && ParseUint(rateText, Bits32).None?
    ensures ParseRtpMap(Attribute(key, ptText + " " + name + "/" + rateText + "/" + chText)) == Err(InvalidClockRate(rateText))
  {
    ThreeFieldsCut(ptText, name, rateText, chText);
  }

  /** Without a '/' after the name there is no clock rate. */
  lemma RtpMapMissingClockRate(key: string, ptText: string, codec: string, pt: nat)
    requires ' ' !in ptText && '/' !in codec && ParseUint(ptText, Bits8) == Some(pt)
    ensures ParseRtpMap(Attribute(key, ptText + " " + codec)) == Err(InvalidCodec(codec))
  {
    Regroup3(ptText, " ", codec);
    CutAt(ptText, ' ', codec, ptText + " " + codec);
    SplitNoSeparator(codec, '/');
  }

  /** A channel field that is not a decimal below 2^32 is reported. */
  lemma RtpMapBadChannels(key: string, ptText: string, name: string, rateText: string, chText: string, pt: nat, cr: nat)
    requires ' ' !in ptText && '/' !in name && '/' !in rateText && '/' !in chText
    requires ParseUint(ptText, Bits8) == Some(pt) && ParseUint(rateText, Bits32) == Some(cr)
    requires ParseUint(chText, Bits32).None?
    ensures ParseRtpMap(Attribute(key, ptText + " " + name + "/" + rateText + "/" + chText)) == Err(InvalidChannels(chText))
  {
    ThreeFieldsCut(ptText, name, rateText, chText);
  }

  /** Where `<pt> <codec>` is cut, for a payload type without spaces. */
  lemma PayloadTypeCut(ptText: string, codecStr: string)
    requires ' ' !in ptText
    ensures var v := ptText + " " + codecStr;
      IndexOf(v, ' ') == |ptText| && v[..|ptText|] == ptText && v[|ptText| + 1..] == codecStr
  {
    CutAt(ptText, ' ', codecStr, ptText + " " + codecStr);
  }

  /** With a fourth '/'-piece the channel count is not read and stays 0. */
  lemma RtpMapFourPieces(key: string, ptText: string, name: string, rateText: string, chText: string, extra: string,
                         pt: nat, cr: nat)
    requires ' ' !in ptText && '/' !in name && '/' !in rateText && '/' !in chText && '/' !in extra
    requires ParseUint(ptText, Bits8) == Some(pt) && ParseUint(rateText, Bits32) == Some(cr)
    ensures ParseRtpMap(Attribute(key, ptText + " " + (name + "/" + (rateText + "/" + chText + "/" + extra))))
         == Ok(RtpMapCodec(name, pt as uint8, cr as uint32, 0))
  {
    var tail := rateText + "/" + chText + "/" + extra;
    var codecStr := name + "/" + tail;
    PayloadTypeCut(ptText, codecStr);
    assert "/" == ['/'];
    SplitAtSeparator(name, '/', tail);
    SplitThree(rateText, chText, extra, '/');
    assert Split(tail, '/') == [rateText, chText, extra];
    assert Split(codecStr, '/') == [name] + [rateText, chText, extra];
    assert RtpMapFields(ptText, codecStr) == RtpMapCodecFields(pt as uint8, codecStr);
    CodecFieldsMore(pt as uint8, codecStr, cr);
  }

  lemma CodecFieldsMore(payloadType: uint8, codecStr: string, cr: nat)
    requires |Split(codecStr, '/')| > 3
    requires ParseUint(Split(codecStr, '/')[1], Bits32) == Some(cr)
    ensures RtpMapCodecFields(payloadType, codecStr) == Ok(RtpMapCodec(Split(codecStr, '/')[0], payloadType, cr as uint32, 0))
  {
  }

  lemma RtpMapExampleText()
    ensures "96 VP8/90000" == "96" + " " + "VP8" + "/" + "90000"
    ensures "111 opus/48000/2" == "111" + " " + "opus" + "/" + "48000" + "/" + "2"
    ensures "256 VP8/90000" == "256" + " " + "VP8/90000"
    ensures "96 VP8" == "96" + " " + "VP8"
    ensures ' ' !in "96" && ' ' !in "111" && ' ' !in "256"
    ensures '/' !in "VP8" && '/' !in "90000" && '/' !in "opus" && '/' !in "48000" && '/' !in "2"
  {
  }

  lemma Decimal96()
    ensures ParseUint("96", Bits8) == Some(96)
  {
    assert FormatUint(96) == "96";
    ParseFormatUint(96, Bits8);
  }

  /** A payload type written with a leading zero reads as the same value. */
  lemma PayloadTypeLeadingZero()
    ensures ParseUint("096", Bits8) == Some(96)
  {
    Decimal96();
    ParseUintLeadingZero("96", Bits8);
    assert "0" + "96" == "096";
  }

  lemma Decimal111()
    ensures ParseUint("111", Bits8) == Some(111)
  {
    assert FormatUint(111) == "111";
    ParseFormatUint(111, Bits8);
  }

  lemma Decimal256()
    ensures ParseUint("256", Bits8) == None
  {
    assert FormatUint(256) == "256";
    DecimalValueOfFormatUint(256);
  }

  lemma Decimal90000()
    ensures ParseUint("90000", Bits32) == Some(90000)
  {
    assert FormatUint(90000) == "90000";
    ParseFormatUint(90000, Bits32);
  }

  lemma Decimal48000()
    ensures ParseUint("48000", Bits32) == Some(48000)
  {
    assert FormatUint(48000) == "48000";
    ParseFormatUint(48000, Bits32);
  }

  lemma Decimal2()
    ensures ParseUint("2", Bits32) == Some(2)
  {
    assert FormatUint(2) == "2";
    ParseFormatUint(2, Bits32);
  }

  lemma RtpMapExampleVP8()
    ensures ParseRtpMap(Attribute("rtpmap", "96 VP8/90000")) == Ok(RtpMapCodec("VP8", 96, 90000, 0))
  {
    RtpMapExampleText();
    Decimal96();
    Decimal90000();
    RtpMapTwoFields("rtpmap", "96", "VP8", "90000", 96, 90000);
  }

  lemma RtpMapExampleOpus()
    ensures ParseRtpMap(Attribute("rtpmap", "111 opus/48000/2")) == Ok(RtpMapCodec("opus", 111, 48000, 2))
  {
    RtpMapExampleText();
    Decimal111();
    Decimal48000();
    Decimal2();
    RtpMapThreeFields("rtpmap", "111", "opus", "48000", "2", 111, 48000, 2);
  }

  lemma RtpMapExampleErrors()
    ensures ParseRtpMap(Attribute("rtpmap", "256 VP8/90000")) == Err(InvalidPayloadType("256"))
    ensures ParseRtpMap(Attribute("rtpmap", "96 VP8")) == Err(InvalidCodec("VP8"))
  {
    RtpMapExampleText();
    Decimal256();
    Decimal96();
    RtpMapBadPayloadType("rtpmap", "256", "VP8/90000");
    RtpMapMissingClockRate("rtpmap", "96", "VP8", 96);
  }

  /** A value with no space after a payload type is too short. */
  lemma RtpMapExampleTooShort()
    ensures ParseRtpMap(Attribute("rtpmap", "VP8")) == Err(RtpMapTooShort("VP8"))
    ensures ParseRtpMap(Attribute("rtpmap", " 96 VP8/90000")) == Err(RtpMapTooShort(" 96 VP8/90000"))
  {
    assert IndexOf(" 96 VP8/90000", ' ') == 0;
  }

  // ===========================================================================
  // a=fmtp

  /** A parameter segment that is not blank and has no '=' in it. */
  predicate MalformedSegment(param: string) {
    |TrimSpace(param)| != 0 && '=' !in param
  }

  predicate SomeMalformed(params: seq<string>) {
    exists i | 0 <= i < |params| :: MalformedSegment(params[i])
  }

  /** Parsing the segments fails exactly when one of them is malformed; the
      map built so far plays no part in that. */
  lemma {:induction false} FmtpSegmentsFail(params: seq<string>, acc: map<string, string>)
    ensures FmtpSegments(params, acc).Err? <==> SomeMalformed(params)
    decreases |params|
  {
    if params != [] {
      var param := params[0];
      MalformedCons(params);
      if |TrimSpace(param)| == 0 {
        assert FmtpSegments(params, acc) == FmtpSegments(params[1..], acc);
        FmtpSegmentsFail(params[1..], acc);
      } else {
        var parts := Split(param, '=');
        SplitMoreThanOne(param, '=');
        if |parts| >= 2 {
          var acc' := acc[TrimSpace(parts[0]) := TrimSpace(parts[1])];
          assert FmtpSegments(params, acc) == FmtpSegments(params[1..], acc');
          FmtpSegmentsFail(params[1..], acc');
        }
      }
    }
  }

  lemma MalformedCons(params: seq<string>)
    requires params != []
    ensures SomeMalformed(params) <==> MalformedSegment(params[0]) || SomeMalformed(params[1..])
  {
    if i :| 0 <= i < |params| && MalformedSegment(params[i]) {
      if i > 0 {
        assert params[1..][i - 1] == params[i];
      }
    }
    if i :| 0 <= i < |params[1..]| && MalformedSegment(params[1..][i]) {
      assert params[i + 1] == params[1..][i];
    }
  }

  /** The parameter list fails to parse exactly when one of its `;`-segments is
      not blank and has no '='. */
  lemma FmtpParamsFail(paramsStr: string)
    ensures FmtpParams(paramsStr).Err? <==> SomeMalformed(Split(paramsStr, ';'))
  {
    FmtpSegmentsFail(Split(paramsStr, ';'), map[]);
  }

  /** sdpParseFmtp parses exactly the text after the payload type and its space. */
  lemma FmtpAfterPayloadType(key: string, ptText: string, paramsStr: string)
    requires ptText != [] && ' ' !in ptText
    ensures ParseFmtp(Attribute(key, ptText + " " + paramsStr)) == FmtpParams(paramsStr)
  {
    Regroup3(ptText, " ", paramsStr);
    CutAt(ptText, ' ', paramsStr, ptText + " " + paramsStr);
  }

  /** A segment that is not blank and holds a '=' adds its trimmed key and
      value to the map. */
  lemma FmtpStepPair(param: string, key: string, value: string, rest: seq<string>, acc: map<string, string>)
    requires |TrimSpace(param)| != 0
    requires |Split(param, '=')| >= 2
    requires TrimSpace(Split(param, '=')[0]) == key && TrimSpace(Split(param, '=')[1]) == value
    ensures FmtpSegments([param] + rest, acc) == FmtpSegments(rest, acc[key := value])
  {
    assert ([param] + rest)[1..] == rest;
  }

  /** A `key=value` segment, both sides without surrounding white space. */
  lemma FmtpPair(key: string, value: string)
    requires '=' !in key && '=' !in value
    requires key != [] && !IsSpace(key[0]) && !IsSpace(key[|key| - 1])
    requires value == [] || (!IsSpace(value[0]) && !IsSpace(value[|value| - 1]))
    ensures |TrimSpace(key + "=" + value)| != 0
    ensures Split(key + "=" + value, '=') == [key, value]
    ensures TrimSpace(key) == key && TrimSpace(value) == value
  {
    SplitTwo(key, value, '=');
    TrimSpaceUnpadded(key);
    TrimSpaceUnpadded(value);
    var s := key + "=" + value;
    assert s[0] == key[0];
    TrimSpaceEmpty(s);
  }

  /** A `key=value` text fit to be one fmtp parameter: neither side holds
      ';' or '=', the key is not empty, and neither side is padded. */
  predicate PlainParameter(key: string, value: string) {
    && ';' !in key && '=' !in key && ';' !in value && '=' !in value
    && key != [] && !IsSpace(key[0]) && !IsSpace(key[|key| - 1])
    && (value == [] || (!IsSpace(value[0]) && !IsSpace(value[|value| - 1])))
  }

  lemma PadFree(pad: string, c: char)
    requires AllSpace(pad) && !IsSpace(c)
    ensures c !in pad
  {
  }

  lemma PaddedKeyTrimmed(pad: string, key: string, value: string)
    requires AllSpace(pad) && PlainParameter(key, value)
    ensures TrimSpace(pad + key) == key
  {
    FmtpPair(key, value);
    TrimLeadingSpace(pad, key);
  }

  lemma PaddedPairSplit(pad: string, key: string, value: string)
    requires AllSpace(pad) && PlainParameter(key, value)
    ensures Split(pad + key + "=" + value, '=') == [pad + key, value]
  {
    PadFree(pad, '=');
    assert '=' !in pad + key;
    SplitTwo(pad + key, value, '=');
  }

  lemma PaddedPairNotBlank(pad: string, key: string, value: string)
    requires AllSpace(pad) && PlainParameter(key, value)
    ensures |TrimSpace(pad + key + "=" + value)| != 0
  {
    FmtpPair(key, value);
    Regroup3(pad + key, "=", value);
    Regroup3(pad, key, "=" + value);
    Regroup3(key, "=", value);
    TrimLeadingSpace(pad, key + "=" + value);
  }

  /** The segment `pad + key=value` after a ';'. */
  lemma FmtpPaddedPair(pad: string, key: string, value: string)
    requires AllSpace(pad) && PlainParameter(key, value)
    ensures |TrimSpace(pad + key + "=" + value)| != 0
    ensures Split(pad + key + "=" + value, '=') == [pad + key, value]
    ensures TrimSpace(pad + key) == key && TrimSpace(value) == value
  {
    FmtpPair(key, value);
    PaddedKeyTrimmed(pad, key, value);
    PaddedPairSplit(pad, key, value);
    PaddedPairNotBlank(pad, key, value);
  }

  lemma JoinTwoParameters(k1: string, v1: string, pad: string, k2: string, v2: string)
    ensures k1 + "=" + v1 + ";" + pad + k2 + "=" + v2 == (k1 + "=" + v1) + ";" + (pad + k2 + "=" + v2)
  {
  }

  /** Two parameters, the second after optional white space: both are kept,
      and when the keys are equal the second value wins. */
  lemma FmtpTwoParameters(k1: string, v1: string, pad: string, k2: string, v2: string)
    requires PlainParameter(k1, v1) && PlainParameter(k2, v2) && AllSpace(pad)
    ensures FmtpParams(k1 + "=" + v1 + ";" + pad + k2 + "=" + v2) == Ok(map[k1 := v1][k2 := v2])
  {
    var seg1 := k1 + "=" + v1;
    var seg2 := pad + k2 + "=" + v2;
    FmtpPair(k1, v1);
    FmtpPaddedPair(pad, k2, v2);
    PadFree(pad, ';');
    assert ';' !in seg1 && ';' !in seg2;
    JoinTwoParameters(k1, v1, pad, k2, v2);
    SplitTwo(seg1, seg2, ';');
    FmtpStepPair(seg1, k1, v1, [seg2], map[]);
    FmtpStepPair(seg2, k2, v2, [], map[k1 := v1]);
    assert [seg2] + [] == [seg2];
    assert [seg1] + [seg2] == [seg1, seg2];
  }

  /** The segments of a list are parsed left to right: the second part starts
      from the map the first part built, and a failure in the first part ends
      the run. */
  lemma {:induction false} FmtpSegmentsAppend(ps: seq<string>, qs: seq<string>, acc: map<string, string>)
    ensures FmtpSegments(ps + qs, acc)
         == match FmtpSegments(ps, acc) case Err(e) => Err(e) case Ok(m) => FmtpSegments(qs, m)
    decreases |ps|
  {
    if ps == [] {
      assert ps + qs == qs;
    } else {
      assert (ps + qs)[0] == ps[0];
      assert (ps + qs)[1..] == ps[1..] + qs;
      var param := ps[0];
      if |TrimSpace(param)| == 0 {
        FmtpSegmentsAppend(ps[1..], qs, acc);
      } else if |Split(param, '=')| >= 2 {
        var parts := Split(param, '=');
        FmtpSegmentsAppend(ps[1..], qs, acc[TrimSpace(parts[0]) := TrimSpace(parts[1])]);
      }
    }
  }

  /** A blank segment anywhere in the list changes nothing. */
  lemma FmtpBlankSegmentSkipped(ps: seq<string>, blank: string, qs: seq<string>, acc: map<string, string>)
    requires |TrimSpace(blank)| == 0
    ensures FmtpSegments(ps + [blank] + qs, acc) == FmtpSegments(ps + qs, acc)
  {
    FmtpSegmentsAppend(ps, [blank] + qs, acc);
    FmtpSegmentsAppend(ps, qs, acc);
    assert ps + [blank] + qs == ps + ([blank] + qs);
    assert ([blank] + qs)[1..] == qs;
  }

  /** A segment `key=value` at the end of a list that parses sets its trimmed
      key to its trimmed value, whatever the key held before. */
  lemma FmtpLastSegmentWins(ps: seq<string>, param: string, acc: map<string, string>)
    requires FmtpSegments(ps, acc).Ok?
    requires |TrimSpace(param)| != 0 && |Split(param, '=')| >= 2
    ensures FmtpSegments(ps + [param], acc)
         == Ok(FmtpSegments(ps, acc).value[TrimSpace(Split(param, '=')[0]) := TrimSpace(Split(param, '=')[1])])
  {
    FmtpSegmentsAppend(ps, [param], acc);
    var m := FmtpSegments(ps, acc).value;
    FmtpStepPair(param, TrimSpace(Split(param, '=')[0]), TrimSpace(Split(param, '=')[1]), [], m);
    assert [param] + [] == [param];
  }

  /** The same on the text: `<list>;<rest>` parses the rest starting from the
      map of the list. */
  lemma FmtpParamsAppend(a: string, b: string)
    ensures FmtpParams(a + ";" + b)
         == match FmtpParams(a) case Err(e) => Err(e) case Ok(m) => FmtpSegments(Split(b, ';'), m)
  {
    assert ";" == [';'];
    SplitConcat(a, b, ';');
    FmtpSegmentsAppend(Split(a, ';'), Split(b, ';'), map[]);
  }

  /** A parameter appended to a list that parses is kept, overriding any
      earlier value of the same key. */
  lemma FmtpLastParameterWins(a: string, key: string, value: string)
    requires FmtpParams(a).Ok? && PlainParameter(key, value)
    ensures FmtpParams(a + ";" + key + "=" + value) == Ok(FmtpParams(a).value[key := value])
  {
    var seg := key + "=" + value;
    AppendParameterText(a, key, value);
    FmtpParamsAppend(a, seg);
    FmtpSingleSegment(key, value, FmtpParams(a).value);
  }

  lemma AppendParameterText(a: string, key: string, value: string)
    ensures a + ";" + key + "=" + value == a + ";" + (key + "=" + value)
  {
  }

  /** A list of one plain parameter adds that parameter. */
  lemma FmtpSingleSegment(key: string, value: string, m: map<string, string>)
    requires PlainParameter(key, value)
    ensures FmtpSegments(Split(key + "=" + value, ';'), m) == Ok(m[key := value])
  {
    var seg := key + "=" + value;
    assert ';' !in seg;
    SplitNoSeparator(seg, ';');
    FmtpPair(key, value);
    FmtpStepPair(seg, key, value, [], m);
    assert [seg] + [] == [seg];
  }

  /** White space after a trailing ';' adds nothing. */
  lemma FmtpTrailingBlank(a: string, pad: string)
    requires AllSpace(pad)
    ensures FmtpParams(a + ";" + pad) == FmtpParams(a)
  {
    FmtpParamsAppend(a, pad);
    PadFree(pad, ';');
    SplitNoSeparator(pad, ';');
    TrimSpaceEmpty(pad);
  }

  /** "vbr=on; cng=on": the blank after ';' is trimmed from the key. */
  lemma FmtpExampleTwoParameters()
    ensures FmtpParams("vbr=on; cng=on") == Ok(map["vbr" := "on", "cng" := "on"])
  {
    assert AllSpace(" ");
    FmtpTwoParameters("vbr", "on", " ", "cng", "on");
    VbrCngText();
  }

  lemma VbrCngText()
    ensures "vbr" + "=" + "on" + ";" + " " + "cng" + "=" + "on" == "vbr=on; cng=on"
  {
  }

  /** An empty parameter list is the empty map. */
  lemma FmtpExampleEmpty()
    ensures FmtpParams("") == Ok(map[])
  {
    assert Split("", ';') == [""];
    TrimSpaceEmpty("");
  }

  /** A segment without '=' is an error naming that segment. */
  lemma FmtpExampleNoValue()
    ensures FmtpParams("novalue") == Err(InvalidParameter("novalue"))
  {
    SplitNoSeparator("novalue", ';');
    assert "novalue"[0] == 'n';
    TrimSpaceEmpty("novalue");
    FmtpSingleMalformed("novalue", map[]);
  }

  lemma FmtpSingleMalformed(param: string, acc: map<string, string>)
    requires |TrimSpace(param)| != 0 && '=' !in param
    ensures FmtpSegments([param], acc) == Err(InvalidParameter(param))
  {
    SplitNoSeparator(param, '=');
  }

  lemma FmtpABC()
    ensures |TrimSpace("a=b=c")| != 0 && Split("a=b=c", '=') == ["a", "b", "c"]
    ensures TrimSpace("a") == "a" && TrimSpace("b") == "b"
  {
    assert "a=b=c" == "a" + "=" + "b" + "=" + "c";
    SplitThree("a", "b", "c", '=');
    TrimSpaceUnpadded("a");
    TrimSpaceUnpadded("b");
    assert "a=b=c"[0] == 'a';
    TrimSpaceEmpty("a=b=c");
  }

  /** "a=b=c" keeps only the text between the first and second '='. */
  lemma FmtpExampleSecondEquals()
    ensures FmtpParams("a=b=c") == Ok(map["a" := "b"])
  {
    SplitNoSeparator("a=b=c", ';');
    FmtpABC();
    FmtpStepPair("a=b=c", "a", "b", [], map[]);
    assert ["a=b=c"] + [] == ["a=b=c"];
  }

  /** A repeated key keeps its last value. */
  lemma FmtpRepeatedKey(key: string, v1: string, v2: string)
    requires PlainParameter(key, v1) && PlainParameter(key, v2)
    ensures FmtpParams(key + "=" + v1 + ";" + key + "=" + v2) == Ok(map[key := v2])
  {
    assert AllSpace("");
    FmtpTwoParameters(key, v1, "", key, v2);
    var front := key + "=" + v1 + ";";
    assert front + "" == front;
    assert map[key := v1][key := v2] == map[key := v2];
  }

  lemma FmtpExampleRepeatedKey()
    ensures FmtpParams("a=1;a=2") == Ok(map["a" := "2"])
  {
    FmtpRepeatedKey("a", "1", "2");
    RepeatedKeyText();
  }

  lemma RepeatedKeyText()
    ensures "a" + "=" + "1" + ";" + "a" + "=" + "2" == "a=1;a=2"
  {
  }

  // ===========================================================================
  // a=rtcp-fb

  /** `<pt> <type> <parameter>` gives the type and everything after its space. */
  lemma RtcpFeedbackWithParameter(key: string, ptText: string, typ: string, parameter: string)
    requires ptText != [] && ' ' !in ptText && typ != [] && ' ' !in typ
    ensures ParseRtcpFeedback(Attribute(key, ptText + " " + typ + " " + parameter)) == Ok(RtcpFeedback(typ, parameter))
  {
    var v := ptText + " " + typ + " " + parameter;
    Regroup5(ptText, " ", typ, " ", parameter);
    CutAt(ptText, ' ', typ + " " + parameter, v);
    CutAt(typ, ' ', parameter, typ + " " + parameter);
  }

  /** `<pt> <type>` gives an empty parameter. */
  lemma RtcpFeedbackWithoutParameter(key: string, ptText: string, typ: string)
    requires ptText != [] && ' ' !in ptText && ' ' !in typ
    ensures ParseRtcpFeedback(Attribute(key, ptText + " " + typ)) == Ok(RtcpFeedback(typ, ""))
  {
    Regroup3(ptText, " ", typ);
    CutAt(ptText, ' ', typ, ptText + " " + typ);
  }

  lemma RtcpFeedbackExampleNackRpsi()
    ensures ParseRtcpFeedback(Attribute("rtcp-fb", "98 nack rpsi")) == Ok(RtcpFeedback("nack", "rpsi"))
  {
    assert "98 nack rpsi" == "98" + " " + "nack" + " " + "rpsi";
    RtcpFeedbackWithParameter("rtcp-fb", "98", "nack", "rpsi");
  }

  lemma RtcpFeedbackExampleNack()
    ensures ParseRtcpFeedback(Attribute("rtcp-fb", "98 nack")) == Ok(RtcpFeedback("nack", ""))
  {
    assert "98 nack" == "98" + " " + "nack";
    RtcpFeedbackWithoutParameter("rtcp-fb", "98", "nack");
  }

  // ===========================================================================
  // a=extmap

  /** `<id>/<direction> <uri>` gives all three, the URI as written. */
  lemma ExtmapWithDirection(key: string, idText: string, direction: string, uri: string, id: nat)
    requires ' ' !in idText && '/' !in idText && ' ' !in direction && '/' !in direction
    requires ParseUint(idText, Bits16) == Some(id)
    ensures ParseExtmap(Attribute(key, idText + "/" + direction + " " + uri))
         == Ok(HeaderExtensionParameters(id as uint16, direction, uri))
  {
    var v := idText + "/" + direction + " " + uri;
    Regroup5(idText, "/", direction, " ", uri);
    CutAt(idText + "/" + direction, ' ', uri, v);
    SplitTwo(idText, direction, '/');
  }

  /** `<id> <uri>` defaults the direction to "sendrecv". */
  lemma ExtmapWithoutDirection(key: string, idText: string, uri: string, id: nat)
    requires ' ' !in idText && '/' !in idText
    requires ParseUint(idText, Bits16) == Some(id)
    ensures ParseExtmap(Attribute(key, idText + " " + uri)) == Ok(HeaderExtensionParameters(id as uint16, "sendrecv", uri))
  {
    Regroup3(idText, " ", uri);
    CutAt(idText, ' ', uri, idText + " " + uri);
    SplitNoSeparator(idText, '/');
  }

  /** An id that is not a decimal below 2^16 is reported. */
  lemma ExtmapBadId(key: string, idText: string, uri: string)
    requires idText != [] && ' ' !in idText && '/' !in idText
    requires ParseUint(idText, Bits16).None?
    ensures ParseExtmap(Attribute(key, idText + " " + uri)) == Err(InvalidId(idText))
  {
    Regroup3(idText, " ", uri);
    CutAt(idText, ' ', uri, idText + " " + uri);
    SplitNoSeparator(idText, '/');
  }

  lemma Decimal2Id()
    ensures ParseUint("2", Bits16) == Some(2)
  {
    assert FormatUint(2) == "2";
    ParseFormatUint(2, Bits16);
  }

  lemma Decimal65536()
    ensures ParseUint("65536", Bits16) == None
  {
    assert FormatUint(65536) == "65536";
    DecimalValueOfFormatUint(65536);
  }

  /** "2/sendonly <uri>": id 2, direction "sendonly", the URI as written. */
  lemma ExtmapExampleSendonly(uri: string)
    ensures ParseExtmap(Attribute("extmap", "2/sendonly " + uri)) == Ok(HeaderExtensionParameters(2, "sendonly", uri))
  {
    Decimal2Id();
    assert "2/sendonly " + uri == "2" + "/" + "sendonly" + " " + uri;
    ExtmapWithDirection("extmap", "2", "sendonly", uri, 2);
  }

  /** "2 <uri>": id 2, direction "sendrecv". */
  lemma ExtmapExampleDefault(uri: string)
    ensures ParseExtmap(Attribute("extmap", "2 " + uri)) == Ok(HeaderExtensionParameters(2, "sendrecv", uri))
  {
    Decimal2Id();
    assert "2 " + uri == "2" + " " + uri;
    ExtmapWithoutDirection("extmap", "2", uri, 2);
  }

  /** "65536 <uri>": the id does not fit in 16 bits. */
  lemma ExtmapExampleBadId(uri: string)
    ensures ParseExtmap(Attribute("extmap", "65536 " + uri)) == Err(InvalidId("65536"))
  {
    Decimal65536();
    assert "65536 " + uri == "65536" + " " + uri;
    ExtmapBadId("extmap", "65536", uri);
  }

  // ===========================================================================
  // a=ssrc

  /** `<ssrc> <attribute>:<value>` gives all three. */
  lemma SsrcMediaWithValue(key: string, ssrcText: string, attribute: string, value: string, ssrc: nat)
    requires ' ' !in ssrcText && ':' !in attribute && ':' !in value
    requires ParseUint(ssrcText, Bits32) == Some(ssrc)
    ensures ParseSsrcMedia(Attribute(key, ssrcText + " " + attribute + ":" + value))
         == Ok(SsrcMedia(ssrc as uint32, attribute, value))
  {
    var v := ssrcText + " " + attribute + ":" + value;
    Regroup5(ssrcText, " ", attribute, ":", value);
    CutAt(ssrcText, ' ', attribute + ":" + value, v);
    SplitTwo(attribute, value, ':');
  }

  /** The value stops at a second ':'. */
  lemma SsrcMediaValueStops(key: string, ssrcText: string, attribute: string, value: string, more: string, ssrc: nat)
    requires ' ' !in ssrcText && ':' !in attribute && ':' !in value
    requires ParseUint(ssrcText, Bits32) == Some(ssrc)
    ensures ParseSsrcMedia(Attribute(key, ssrcText + " " + attribute + ":" + value + ":" + more))
         == Ok(SsrcMedia(ssrc as uint32, attribute, value))
  {
    Regroup7(ssrcText, " ", attribute, ":", value, ":", more);
    SsrcCut(key, ssrcText, attribute + ":" + value + ":" + more, ssrc);
    ValueStopsSplit(attribute, value, more);
  }

  /** The line is cut at its first space; the rest is split at ':'. */
  lemma SsrcCut(key: string, ssrcText: string, rest: string, ssrc: nat)
    requires ' ' !in ssrcText && ParseUint(ssrcText, Bits32) == Some(ssrc)
    ensures var parts := Split(rest, ':');
      ParseSsrcMedia(Attribute(key, ssrcText + " " + rest))
      == Ok(SsrcMedia(ssrc as uint32, parts[0], if |parts| > 1 then parts[1] else ""))
  {
    Regroup3(ssrcText, " ", rest);
    CutAt(ssrcText, ' ', rest, ssrcText + " " + rest);
  }

  lemma ValueStopsSplit(attribute: string, value: string, more: string)
    requires ':' !in attribute && ':' !in value
    ensures var parts := Split(attribute + ":" + value + ":" + more, ':');
      |parts| > 1 && parts[0] == attribute && parts[1] == value
  {
    Regroup5(attribute, ":", value, ":", more);
    SplitAtSeparator(attribute, ':', value + ":" + more);
    SplitAtSeparator(value, ':', more);
  }

  /** Without a ':' the value is empty. */
  lemma SsrcMediaWithoutValue(key: string, ssrcText: string, attribute: string, ssrc: nat)
    requires ' ' !in ssrcText && ':' !in attribute
    requires ParseUint(ssrcText, Bits32) == Some(ssrc)
    ensures ParseSsrcMedia(Attribute(key, ssrcText + " " + attribute)) == Ok(SsrcMedia(ssrc as uint32, attribute, ""))
  {
    Regroup3(ssrcText, " ", attribute);
    CutAt(ssrcText, ' ', attribute, ssrcText + " " + attribute);
    SplitNoSeparator(attribute, ':');
  }

  /** An ssrc that is not a decimal below 2^32 is reported. */
  lemma SsrcMediaBadSsrc(key: string, ssrcText: string, rest: string)
    requires ssrcText != [] && ' ' !in ssrcText && ParseUint(ssrcText, Bits32).None?
    ensures ParseSsrcMedia(Attribute(key, ssrcText + " " + rest)) == Err(InvalidSsrc(ssrcText))
  {
    Regroup3(ssrcText, " ", rest);
    CutAt(ssrcText, ' ', rest, ssrcText + " " + rest);
  }

  lemma Decimal1234()
    ensures ParseUint("1234", Bits32) == Some(1234)
  {
    assert FormatUint(1234) == "1234";
    ParseFormatUint(1234, Bits32);
  }

  lemma SsrcMediaExampleCname()
    ensures ParseSsrcMedia(Attribute("ssrc", "1234 cname:abc")) == Ok(SsrcMedia(1234, "cname", "abc"))
  {
    Decimal1234();
    assert "1234 cname:abc" == "1234" + " " + "cname" + ":" + "abc";
    SsrcMediaWithValue("ssrc", "1234", "cname", "abc", 1234);
  }

  lemma SsrcMediaExampleSecondColon()
    ensures ParseSsrcMedia(Attribute("ssrc", "1234 cname:abc:def")) == Ok(SsrcMedia(1234, "cname", "abc"))
  {
    Decimal1234();
    assert "1234 cname:abc:def" == "1234" + " " + "cname" + ":" + "abc" + ":" + "def";
    SsrcMediaValueStops("ssrc", "1234", "cname", "abc", "def", 1234);
  }

  lemma SsrcMediaExampleNoValue()
    ensures ParseSsrcMedia(Attribute("ssrc", "1234 cname")) == Ok(SsrcMedia(1234, "cname", ""))
  {
    Decimal1234();
    assert "1234 cname" == "1234" + " " + "cname";
    SsrcMediaWithoutValue("ssrc", "1234", "cname", 1234);
  }
}
