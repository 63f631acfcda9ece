/** How sdpParseRtpParameters combines the single-line parsers: which lines of a
    media section end up in which field, in what order, and which error wins.

    Each correlation step is a fold of one step function over the matching
    attribute lines (Sdp.FoldAttributes). The lemmas here restate each fold as
    "parse every line, in order, with the first failure reported" (ParseAll)
    followed by one update of the record. */
module SdpCorrelation {
  import opened Errors
  import opened Primitives
  import opened RtpTypes
  import opened Sdp

  // ===========================================================================
  // Parsing every line of a list

  /** Every line parsed with `parse`, in order; the first line that fails ends
      the run with its error. */
  function ParseAll<T>(parse: Attribute -> Result<T>, lines: seq<Attribute>): Result<seq<T>> {
    if lines == [] then Ok([])
    else
      match ParseAll(parse, lines[..|lines| - 1])
      case Err(e) => Err(e)
      case Ok(xs) =>
        match parse(lines[|lines| - 1])
        case Err(e) => Err(e)
        case Ok(x) => Ok(xs + [x])
  }

  predicate AllParse<T>(parse: Attribute -> Result<T>, lines: seq<Attribute>) {
    forall i | 0 <= i < |lines| :: parse(lines[i]).Ok?
  }

  /** Line `i` is the first line that fails, and `e` its error. */
  predicate FirstFailureAt<T>(parse: Attribute -> Result<T>, lines: seq<Attribute>, i: int, e: Error) {
    0 <= i < |lines| && parse(lines[i]) == Err(e) && AllParse(parse, lines[..i])
  }

  /** ParseAll succeeds exactly when every line parses, and then yields each
      line's value at that line's position. */
  lemma {:induction false} ParseAllOk<T>(parse: Attribute -> Result<T>, lines: seq<Attribute>)
    ensures ParseAll(parse, lines).Ok? <==> AllParse(parse, lines)
    ensures ParseAll(parse, lines).Ok? ==>
      && |ParseAll(parse, lines).value| == |lines|
      && forall i | 0 <= i < |lines| :: parse(lines[i]) == Ok(ParseAll(parse, lines).value[i])
  {
    if lines != [] {
      var init := lines[..|lines| - 1];
      ParseAllOk(parse, init);
      assert forall i | 0 <= i < |init| :: init[i] == lines[i];
      if ParseAll(parse, init).Ok? && parse(lines[|lines| - 1]).Ok? {
        var xs := ParseAll(parse, init).value;
        var all := ParseAll(parse, lines).value;
        assert all == xs + [parse(lines[|lines| - 1]).value];
        forall i | 0 <= i < |lines| ensures parse(lines[i]) == Ok(all[i]) {
          if i < |init| {
            assert all[i] == xs[i];
          }
        }
      } else if ParseAll(parse, init).Err? {
        var i :| 0 <= i < |init| && parse(init[i]).Err?;
        assert parse(lines[i]).Err?;
      }
    }
  }

  /** When ParseAll fails, its error is that of the first line that fails. */
  lemma {:induction false} ParseAllFirstError<T>(parse: Attribute -> Result<T>, lines: seq<Attribute>)
    requires ParseAll(parse, lines).Err?
    ensures exists i :: FirstFailureAt(parse, lines, i, ParseAll(parse, lines).error)
  {
    var init := lines[..|lines| - 1];
    if ParseAll(parse, init).Err? {
      ParseAllFirstError(parse, init);
      var i :| FirstFailureAt(parse, init, i, ParseAll(parse, init).error);
      assert init[..i] == lines[..i];
      assert FirstFailureAt(parse, lines, i, ParseAll(parse, lines).error);
    } else {
      ParseAllOk(parse, init);
      assert lines[..|lines| - 1] == init;
      assert FirstFailureAt(parse, lines, |lines| - 1, ParseAll(parse, lines).error);
    }
  }

  // ===========================================================================
  // The three folds

  /** The rtcp-fb lines of a codec: every line must parse, and the feedback
      entries are appended in attribute order. */
  lemma {:induction false} RtcpFeedbackFold(codec: CodecParameters, lines: seq<Attribute>)
    ensures FoldAttributes(RtpRtcpFeedbackParser, codec, lines)
         == match ParseAll(ParseRtcpFeedback, lines)
            case Err(e) => Err(e)
            case Ok(fbs) => Ok(codec.(rtcpFeedback := codec.rtcpFeedback + fbs))
  {
    if lines == [] {
      assert codec.rtcpFeedback + [] == codec.rtcpFeedback;
    } else {
      var init := lines[..|lines| - 1];
      RtcpFeedbackFold(codec, init);
      match ParseAll(ParseRtcpFeedback, init)
      case Err(e) =>
      case Ok(fbs) =>
        RtcpFeedbackStep(codec, fbs, lines[|lines| - 1]);
    }
  }

  /** One rtcp-fb line on top of the entries already collected. */
  lemma RtcpFeedbackStep(codec: CodecParameters, fbs: seq<RtcpFeedback>, a: Attribute)
    ensures RtpRtcpFeedbackParser(codec.(rtcpFeedback := codec.rtcpFeedback + fbs), a)
         == match ParseRtcpFeedback(a)
            case Err(e) => Err(e)
            case Ok(fb) => Ok(codec.(rtcpFeedback := codec.rtcpFeedback + (fbs + [fb])))
  {
    match ParseRtcpFeedback(a)
    case Err(e) =>
    case Ok(fb) =>
      assert codec.rtcpFeedback + fbs + [fb] == codec.rtcpFeedback + (fbs + [fb]);
  }

  /** The extmap lines: every line must parse, and the header extensions are
      appended in attribute order. */
  lemma {:induction false} ExtmapFold(p: RtpParameters, lines: seq<Attribute>)
    ensures FoldAttributes(ExtmapParser, p, lines)
         == match ParseAll(ParseExtmap, lines)
            case Err(e) => Err(e)
            case Ok(exts) => Ok(p.(headerExtensions := p.headerExtensions + exts))
  {
    if lines == [] {
      assert p.headerExtensions + [] == p.headerExtensions;
    } else {
      var init := lines[..|lines| - 1];
      ExtmapFold(p, init);
      match ParseAll(ParseExtmap, init)
      case Err(e) =>
      case Ok(exts) =>
        match ParseExtmap(lines[|lines| - 1])
        case Err(e) =>
        case Ok(ext) =>
          assert p.headerExtensions + exts + [ext] == p.headerExtensions + (exts + [ext]);
    }
  }

  /** The fmtp lines of a codec: every line must parse, and the last one gives
      the parameter map; with no line the codec is unchanged. */
  lemma {:induction false} FmtpFold(codec: CodecParameters, lines: seq<Attribute>)
    ensures FoldAttributes(RtpFmtpParser, codec, lines)
         == match ParseAll(ParseFmtp, lines)
            case Err(e) => Err(e)
            case Ok(ms) => Ok(if ms == [] then codec else codec.(parameters := ms[|ms| - 1]))
  {
    if lines != [] {
      var init := lines[..|lines| - 1];
      FmtpFold(codec, init);
    }
  }

  /** The rtpmap lines of one format: every line must yield a codec, and the
      codecs are appended in attribute order. */
  lemma {:induction false} CodecFold(d: MediaDescription, p: RtpParameters, lines: seq<Attribute>)
    ensures FoldAttributes(RtpCodecParser(d), p, lines)
         == match ParseAll(a => CodecOfRtpMap(d, a), lines)
            case Err(e) => Err(e)
            case Ok(cs) => Ok(p.(codecs := p.codecs + cs))
  {
    if lines == [] {
      assert p.codecs + [] == p.codecs;
    } else {
      var init := lines[..|lines| - 1];
      CodecFold(d, p, init);
      match ParseAll(a => CodecOfRtpMap(d, a), init)
      case Err(e) =>
      case Ok(cs) =>
        match CodecOfRtpMap(d, lines[|lines| - 1])
        case Err(e) =>
        case Ok(c) =>
          assert p.codecs + cs + [c] == p.codecs + (cs + [c]);
    }
  }

  // ===========================================================================
  // Formats and prefixes

  /** A format with no rtpmap line adds nothing: it is skipped, not an error. */
  lemma FormatWithoutRtpMap(d: MediaDescription, formats: seq<string>, format: string)
    requires RtpMapsOf(d, format) == []
    ensures CodecsOfFormats(d, formats + [format]) == CodecsOfFormats(d, formats)
  {
    assert (formats + [format])[..|formats|] == formats;
  }

  /** The codecs of a list of formats are those of each format in turn, in
      format order; header extensions come only from extmap lines. */
  lemma {:induction false} CodecsInFormatOrder(d: MediaDescription, formats: seq<string>, format: string)
    requires CodecsOfFormats(d, formats).Ok?
    ensures CodecsOfFormats(d, formats + [format])
         == match ParseAll(a => CodecOfRtpMap(d, a), RtpMapsOf(d, format))
            case Err(e) => Err(FailedToParseCodec(e))
            case Ok(cs) => Ok(CodecsOfFormats(d, formats).value.(codecs := CodecsOfFormats(d, formats).value.codecs + cs))
  {
    assert (formats + [format])[..|formats|] == formats;
    CodecFold(d, CodecsOfFormats(d, formats).value, RtpMapsOf(d, format));
  }

  /** The codec part never yields a header extension. */
  lemma {:induction false} CodecsHaveNoExtensions(d: MediaDescription, formats: seq<string>)
    requires CodecsOfFormats(d, formats).Ok?
    ensures CodecsOfFormats(d, formats).value.headerExtensions == []
  {
    if formats != [] {
      var init := formats[..|formats| - 1];
      CodecsHaveNoExtensions(d, init);
      CodecFold(d, CodecsOfFormats(d, init).value, RtpMapsOf(d, formats[|formats| - 1]));
    }
  }

  /** The header extensions of a parsed media section are its extmap lines,
      parsed in attribute order. */
  lemma HeaderExtensionsOfSection(d: MediaDescription)
    requires RtpParametersOf(d).Ok?
    ensures var exts := ParseAll(ParseExtmap, MatchingAttributes(d.attributes, "extmap", ""));
      exts.Ok? && RtpParametersOf(d).value.headerExtensions == exts.value
  {
    CodecsHaveNoExtensions(d, d.formats);
    var p := CodecsOfFormats(d, d.formats).value;
    ExtmapFold(p, MatchingAttributes(d.attributes, "extmap", ""));
  }

  /** The space that closes the prefix keeps payload types apart: the prefix of
      one payload type matches a line only when the line starts with that same
      payload type, so "9 " does not pick up "96 ...". */
  lemma PrefixSeparatesPayloadTypes(format: string, other: string, rest: string)
    requires ' ' !in format && ' ' !in other
    ensures HasPrefix(other + " " + rest, format + " ") ==> format == other
  {
    var v := other + " " + rest;
    var pre := format + " ";
    if pre <= v {
      assert v[|format|] == ' ';
      assert |format| >= |other|;
      assert pre[|other|] == ' ';
      forall i | 0 <= i < |format| ensures format[i] == other[i] {
        assert format[i] == pre[i] == v[i];
      }
    }
  }

  lemma PrefixExample()
    ensures !HasPrefix("96 VP8/90000", "9 ")
  {
    PrefixSeparatesPayloadTypes("9", "96", "VP8/90000");
    assert "96" + " " + "VP8/90000" == "96 VP8/90000";
    assert "9" + " " == "9 ";
  }
}
