/** RTCRtpCodecParameters behaviour (rtcrtpcodecparameters.go): its rtpmap-style
    rendering, the comparison of its parameter map with an fmtp line, and the
    map comparison that underlies it. */
module CodecParams {
  import opened Errors
  import opened Primitives
  import opened RtpTypes
  import opened Sdp
  import opened SdpProperties

  // ===========================================================================
  // String

  /** RTCRtpCodecParameters.String: `"%d %s/%d/%d"` of payload type, name,
      clock rate and channel count. */
  function CodecString(p: CodecParameters): string {
    FormatUint(p.payloadType as nat) + " " + p.name + "/" + FormatUint(p.clockRate as nat) + "/" + FormatUint(p.channels as nat)
  }

  /** The rendering is an rtpmap value: parsing it gives back the payload type,
      name, clock rate and channel count, provided the name holds no '/'. */
  lemma StringRoundTrip(key: string, p: CodecParameters)
    requires '/' !in p.name
    ensures ParseRtpMap(Attribute(key, CodecString(p))) == Ok(RtpMapCodec(p.name, p.payloadType, p.clockRate, p.channels))
  {
    RtpMapRoundTripChannels(key, p.payloadType, p.name, p.clockRate, p.channels);
  }

  lemma StringExampleOpus()
    ensures CodecString(RtpMapCodec("opus", 111, 48000, 2)) == "111 opus/48000/2"
  {
    assert FormatUint(111) == "111";
    assert FormatUint(48000) == "48000";
    assert FormatUint(2) == "2";
    OpusText();
  }

  lemma OpusText()
    ensures "111" + " " + "opus" + "/" + "48000" + "/" + "2" == "111 opus/48000/2"
  {
  }

  // ===========================================================================
  // cmpMapStringString

  /** What cmpMapStringString checks: the same number of entries, and every
      key of `a` present in `b` with the same value. */
  predicate SameEntries(a: map<string, string>, b: map<string, string>) {
    |a| == |b| && forall k | k in a :: k in b && b[k] == a[k]
  }

  lemma SubsetOfSameSize<T>(xs: set<T>, ys: set<T>)
    requires xs <= ys && |xs| == |ys|
    ensures xs == ys
  {
    if y :| y in ys && y !in xs {
      assert xs <= ys - {y};
      SubsetSize(xs, ys - {y});
    }
  }

  lemma {:induction false} SubsetSize<T>(xs: set<T>, ys: set<T>)
    requires xs <= ys
    ensures |xs| <= |ys|
    decreases |ys|
  {
    if xs != {} {
      var x :| x in xs;
      SubsetSize(xs - {x}, ys - {x});
    }
  }

  /** The comparison is map equality: equal sizes and containment force equal
      key sets. */
  lemma SameEntriesIsEquality(a: map<string, string>, b: map<string, string>)
    ensures SameEntries(a, b) <==> a == b
  {
    if SameEntries(a, b) {
      assert a.Keys <= b.Keys;
      assert |a.Keys| == |a| && |b.Keys| == |b|;
      SubsetOfSameSize(a.Keys, b.Keys);
    }
  }

  lemma SameEntriesReflexive(a: map<string, string>)
    ensures SameEntries(a, a)
  {
  }

  lemma SameEntriesSymmetric(a: map<string, string>, b: map<string, string>)
    ensures SameEntries(a, b) ==> SameEntries(b, a)
  {
    SameEntriesIsEquality(a, b);
    SameEntriesIsEquality(b, a);
  }

  /** cmpMapStringString: a size mismatch is an immediate false; otherwise the
      keys of `a` are visited in some order, and the first one missing from `b`
      or mapped to another value gives false. */
  method CmpMapStringString(a: map<string, string>, b: map<string, string>) returns (eq: bool)
    ensures eq == SameEntries(a, b)
    ensures eq <==> a == b
  {
    SameEntriesIsEquality(a, b);
    if |a| != |b| {
      return false;
    }
    var todo := a.Keys;
    while todo != {}
      invariant todo <= a.Keys
      invariant forall k | k in a && k !in todo :: k in b && b[k] == a[k]
      decreases todo
    {
      var k :| k in todo;
      if k !in b || b[k] != a[k] {
        return false;
      }
      todo := todo - {k};
    }
    return true;
  }

  // ===========================================================================
  // equalFMTP

  /** The fmtp line parses, and to exactly the given map. */
  predicate FmtpMatches(parameters: map<string, string>, line: string) {
    FmtpParams(line).Ok? && FmtpParams(line).value == parameters
  }

  /** RTCRtpCodecParameters.equalFMTP: parse the other line, then compare its
      map with the parameters. A line that fails to parse is an error, which Go
      returns together with false. */
  method EqualFmtp(p: CodecParameters, other: string) returns (r: Result<bool>)
    ensures r.Err? <==> FmtpParams(other).Err?
    ensures r.Err? ==> r.error == FailedToParseFmtpLine(other, FmtpParams(other).error)
    ensures r.Ok? ==> (r.value <==> FmtpMatches(p.parameters, other))
  {
    var b := ParseFmtpString(other);
    if b.Err? {
      return Err(FailedToParseFmtpLine(other, b.error));
    }
    var eq := CmpMapStringString(p.parameters, b.value);
    return Ok(eq);
  }

  lemma UpdatesCommute(k1: string, v1: string, k2: string, v2: string)
    requires k1 != k2
    ensures map[k2 := v2][k1 := v1] == map[k1 := v1][k2 := v2]
  {
  }

  /** The comparison ignores the order of two distinct keys and the white space
      after a ';'. */
  lemma FmtpMatchesEitherOrder(k1: string, v1: string, pad: string, k2: string, v2: string)
    requires PlainParameter(k1, v1) && PlainParameter(k2, v2) && AllSpace(pad) && k1 != k2
    ensures FmtpMatches(map[k1 := v1][k2 := v2], k2 + "=" + v2 + ";" + pad + k1 + "=" + v1)
  {
    FmtpTwoParameters(k2, v2, pad, k1, v1);
    UpdatesCommute(k1, v1, k2, v2);
  }

  /** {a:1, b:2} matches "b=2; a=1". */
  lemma FmtpMatchesReordered()
    ensures FmtpMatches(map["a" := "1"]["b" := "2"], "b=2; a=1")
  {
    assert "a" != "b" by { assert "a"[0] != "b"[0]; }
    assert AllSpace(" ");
    FmtpMatchesEitherOrder("a", "1", " ", "b", "2");
    ReorderedText();
  }

  lemma ReorderedText()
    ensures "b" + "=" + "2" + ";" + " " + "a" + "=" + "1" == "b=2; a=1"
  {
  }

  /** No parameters match an empty fmtp line. */
  lemma FmtpMatchesEmptyLine()
    ensures FmtpMatches(map[], "")
  {
    FmtpExampleEmpty();
  }
}
