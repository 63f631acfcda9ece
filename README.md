# RTP negotiation core of a Go WebRTC stack, in Dafny

This project models the part of a Go WebRTC implementation that turns the
attribute lines of an SDP media section into RTP parameters, matches them
against the codecs a peer connection supports, and drives one transceiver's
sender and receiver. It covers five source files:

- `sdputils.go`: the single-line parsers for the following attributes:
  - `a=rtpmap` and `a=fmtp` (section 6 of RFC 4566);
  - `a=rtcp-fb` (section 4.2 of RFC 4585);
  - `a=extmap` (section 5 of RFC 5285);
  - `a=ssrc` (section 4.1 of RFC 5576).

  It also holds the attribute loop (`sdpMatchAttributePrefixFunc`) and the
  correlation of a media section into `RTCRtpParameters` and
  `RTCRtpDecodingParameters` (modules `Sdp`, `SdpProperties`, `SdpCorrelation`).
- `rtcrtpcodecparameters.go`: the rtpmap-style rendering of a codec, the fmtp
  comparison and the map comparison beneath it (module `CodecParams`).
- `rtcrtpparameters.go`: the payload-type lookup of the receive path
  (module `RtpParams`).
- `mediaengine.go`: the codec registry, the default codecs, and the lookups by
  payload type, by negotiated parameters and by kind (module `Media`, class
  `MediaEngine`).
- `rtcrtptranceiver.go`: the direction change on attaching a sending track,
  and the order in which start and Stop drive the sender and the receiver
  (module `Transceivers`, class `Transceiver`).

Modules `Primitives`, `Errors` and `RtpTypes` hold the shared pieces:
- the Go standard-library functions the parsers use (`strconv.ParseUint`,
  `strings.Index`, `strings.Split`, `strings.TrimSpace` for ASCII white space);
- the error outcomes;
- the parameter records.

How Go constructs are modelled:
- A Go `error` result is a `Result` whose error variant names the failing step
  and keeps the offending text where the Go message includes it.
- A `map[string]string` is a `map<string, string>`.
- A `uint8`, `uint16` or `uint32` is a newtype with an explicit bound. The
  parsers only ever convert values that `strconv.ParseUint` has already
  bounded, so no wrap-around arises.
- The Go closures that append through a pointer become step functions over
  the record built so far.
- `sdpMatchAttributePrefixFunc` threads that record through the matching
  attributes.
- Each loop of the source, except the first-match scan of
  `getCodecParameters` (`RtpParams.FirstCodec`, a recursive function), is a Dafny method proved
  equal to a specification function or fold. The properties are proved
  about those functions.

Two behaviours of the code that the model keeps as written:
- `RTCRtpTransceiver.Stop` stops the sender and then the receiver, and
  returns the receiver's error only; the sender's `Stop` returns nothing.
- `sdpParseRtpDecodingParameters` never sets the payload type of the
  decoding target, which stays 0.

## Model

| member | source | states |
|---|---|---|
| Primitives.ParseUint | sdputils.go:231-234 | a value is returned only for a non-empty run of decimal digits whose value is below 2^bits; none exactly when the text is empty, non-decimal, or too large |
| Primitives.LeadingZeroValue | sdputils.go:231-234 | a leading '0' before a non-empty text changes neither whether it is all digits nor its value |
| Primitives.ParseUintLeadingZero | sdputils.go:231-234 | parsing accepts leading zeros: a '0' in front of a non-empty text gives the same outcome |
| Primitives.ParseFormatUint | rtcrtpcodecparameters.go:18-20 | rendering a value in decimal and parsing it back, at a width it fits in, gives the value |
| Primitives.IndexOf | sdputils.go:226 | the result is -1 exactly when the character is absent; otherwise it is the first position holding it |
| Primitives.Split | sdputils.go:237 | always at least one piece, and no piece holds the separator |
| Primitives.JoinSplit | sdputils.go:128 | joining the pieces with the separator gives back the original text |
| Primitives.SplitMoreThanOne | sdputils.go:210-212 | there is a second piece exactly when the separator occurs |
| Primitives.SplitHead | sdputils.go:288-293 | the first piece is a prefix of the text, and with two pieces the first, the separator and the second are a prefix |
| Primitives.TrimSpaceEmpty | sdputils.go:130 | trimming leaves nothing exactly when the segment is all white space |
| Primitives.TrimLeadingSpace | sdputils.go:137-138 | white space before a key does not change the trimmed key |
| Sdp.ParseRtpMap | sdputils.go:225-264 | a missing first space or one at position 0 is "too short"; a parsed codec has a name without '/', the payload type written before the first space, and Go zero values in every field the line does not carry |
| Sdp.RtpMapFields | sdputils.go:230-264 | the payload-type text parses in 8 bits to the result's payload type |
| Sdp.RtpMapCodecFields | sdputils.go:236-263 | the name is the text before the first '/' and the payload type is the one passed in |
| Sdp.ParseFmtp | sdputils.go:113-121 | a missing first space or one at position 0 is "too short" |
| Sdp.ParseFmtpString | sdputils.go:125-143 | the loop computes FmtpParams of the text: the parameter map of the `;`-separated segments, or the error of the first malformed one |
| Sdp.FmtpParams | sdputils.go:125-143 | a failure names a `;`-segment of the text that is not blank and has no '=' |
| Sdp.FmtpSegments | sdputils.go:129-140 | a failure names one of the segments, non-blank and without '='; a success keeps every key of the map it started from |
| Sdp.ParseRtcpFeedback | sdputils.go:159-178 | succeeds exactly when the first space is past position 0; the text after it is either `<type> <parameter>` with a non-empty type without spaces, or the type alone with an empty parameter |
| Sdp.ParseExtmap | sdputils.go:195-221 | the URI is the text after the first space; the id is the 16-bit decimal before any '/'; the direction is the second '/'-piece, or "sendrecv" when there is no '/' |
| Sdp.ParseSsrcMedia | sdputils.go:278-300 | the ssrc is the 32-bit decimal before the first space; attribute and value hold no ':'; with a ':' the text begins `attribute:value`, and without one the value is empty |
| Sdp.MatchingAttributesMembers | sdputils.go:305-308 | exactly the attributes with the key and whose value starts with the prefix are visited |
| Sdp.MatchingAppend | sdputils.go:305-314 | the matching attributes of a concatenation are those of each part in turn |
| Sdp.FoldErrorPersists | sdputils.go:310-313 | once a step fails, later attributes do not change the outcome |
| Sdp.MatchAttributePrefixFunc | sdputils.go:304-317 | the loop gives the fold of the step over the matching attributes, stopping at the first error |
| Sdp.MatchingAttributes | sdputils.go:305-308 | keeps at most the attributes it is given; MatchingAttributesMembers and MatchingAppend state which ones and in what order |
| Sdp.FoldAttributes | sdputils.go:305-316 | the loop of sdpMatchAttributePrefixFunc as a fold; FoldStep, FoldErrorPersists and FoldMatchingError state its steps and that the first failure ends it |
| Sdp.MatchingStep | sdputils.go:305-308 | one more attribute is appended to the matching ones exactly when it has the key and the prefix |
| Sdp.FoldStep | sdputils.go:310-313 | one more attribute runs the step on the record built so far, unless the run has already failed |
| Sdp.FoldMatchingError | sdputils.go:310-313 | a failure among the first attributes is the outcome on the whole list |
| Sdp.FindAttributePrefix | sdputils.go:319-329 | succeeds exactly when some attribute matches, and then returns the first; otherwise "attribute not found" |
| Sdp.RtpFmtpParser | sdputils.go:98-108 | succeeds exactly when the fmtp line parses; the codec's parameter map becomes the parsed map |
| Sdp.RtpRtcpFeedbackParser | sdputils.go:145-155 | succeeds exactly when the rtcp-fb line parses; the entry is appended to the codec's feedback |
| Sdp.ExtmapParser | sdputils.go:180-190 | succeeds exactly when the extmap line parses; the header extension is appended |
| Sdp.AppendRtpMapCodec | sdputils.go:73-96 | succeeds exactly when the rtpmap line and its fmtp and rtcp-fb lines parse; the codec is appended |
| Sdp.RtpCodecParser | sdputils.go:73-96 | the closure over the media section; its step is AppendRtpMapCodec, whose contract gives its outcome |
| Sdp.PayloadTypePrefix | sdputils.go:80 | the prefix is the payload type in decimal followed by its only space, and parses back to the payload type |
| Sdp.CodecOfRtpMap | sdputils.go:74-90 | a failing rtpmap line is the error; after it parses, any failure is reported as an fmtp or an rtcp-fb failure |
| Sdp.CodecOfRtpMapFields | sdputils.go:74-92 | the codec keeps every field the rtpmap line gives except the parameters and the feedback, and gets one feedback entry per matching rtcp-fb line |
| Sdp.FmtpFoldKeepsFields | sdputils.go:81 | the fmtp lines only ever change the parameter map |
| Sdp.FeedbackFoldKeepsFields | sdputils.go:87 | the rtcp-fb lines only ever append feedback entries, one per line, keeping the earlier ones |
| Sdp.ParseRtpParameters | sdputils.go:53-71 | the loops compute the codecs of every format followed by the header extensions of every extmap line; the first failure is reported with its step |
| Sdp.CodecsOfFormats | sdputils.go:57-62 | any failure of the format loop is reported as a codec failure; CodecsInFormatOrder, FormatWithoutRtpMap and CodecsHaveNoExtensions state what it yields |
| Sdp.RtpParametersOf | sdputils.go:53-71 | a failure is a codec failure or a header-extension failure, and a codec failure is reported before the extmap lines are looked at |
| Sdp.CodecErrorPersists | sdputils.go:57-62 | a codec failure for one format is the outcome whatever formats follow |
| Sdp.SsrcCollector | sdputils.go:21-32 | succeeds exactly when the ssrc line parses; it keeps the entry only when its attribute is "cname" |
| Sdp.SsrcFoldFirstError | sdputils.go:21-35 | a failed collection carries the error of the first ssrc line that does not parse, all lines before it parsing |
| Sdp.SsrcFoldOkAllParse | sdputils.go:21-25 | a collection that succeeds has parsed every ssrc line |
| Sdp.SsrcFoldAllParse | sdputils.go:21-32 | when every ssrc line parses, the collected entries are the cname entries in line order |
| Sdp.SsrcFoldSomeFails | sdputils.go:21-35 | one unparsable ssrc line fails the collection |
| Sdp.CnameEntriesNone | sdputils.go:37-39 | no entry is collected exactly when no line is a cname line |
| Sdp.CnameEntriesFirst | sdputils.go:41 | the first collected entry is that of the first cname line |
| Sdp.ParseRtpDecodingParameters | sdputils.go:17-50 | succeeds exactly when every ssrc line parses and some line is a cname line, and then yields one decoding target with the ssrc of the first cname line; a parse failure carries the error of the first ssrc line that does not parse; "no ssrc found" exactly when all parse and none is cname |
| SdpProperties.RtpMapTwoFields | sdputils.go:225-264 | `<pt> <name>/<rate>` parses to that payload type, name and rate, with 0 channels |
| SdpProperties.RtpMapThreeFields | sdputils.go:249-256 | `<pt> <name>/<rate>/<channels>` parses to all four values |
| SdpProperties.RtpMapFourPieces | sdputils.go:249-256 | with a fourth '/'-piece the channel count is not read and stays 0 |
| SdpProperties.RtpMapRoundTrip | sdputils.go:225-264 | a rendered payload type, name and clock rate parse back to themselves |
| SdpProperties.RtpMapRoundTripChannels | sdputils.go:225-264 | the same with a channel count |
| SdpProperties.RtpMapBadPayloadType | sdputils.go:230-234 | a payload type that is not decimal below 256 is reported with its text |
| SdpProperties.PayloadTypeLeadingZero | sdputils.go:231-234 | the payload type "096" reads as 96 |
| SdpProperties.RtpMapBadClockRate | sdputils.go:243-247 | a clock rate that is not decimal below 2^32 is reported with its text |
| SdpProperties.RtpMapBadClockRateWithChannels | sdputils.go:243-247 | a bad clock rate is reported before a channel field is looked at |
| SdpProperties.RtpMapMissingClockRate | sdputils.go:236-240 | a codec text without '/' is an invalid codec |
| SdpProperties.RtpMapBadChannels | sdputils.go:250-255 | a channel count that is not decimal below 2^32 is reported with its text |
| SdpProperties.RtpMapExampleVP8 | sdputils.go:223-224 | "96 VP8/90000" gives VP8, 96, 90000, 0 channels |
| SdpProperties.RtpMapExampleOpus | sdputils.go:223-224 | "111 opus/48000/2" gives opus, 111, 48000, 2 |
| SdpProperties.RtpMapExampleErrors | sdputils.go:231-247 | payload type 256 and a missing clock rate are each reported with their text |
| SdpProperties.RtpMapExampleTooShort | sdputils.go:226-229 | a value without a space, and one starting with a space, are each "too short" |
| SdpProperties.FmtpSegmentsFail | sdputils.go:129-136 | parsing the segments fails exactly when one is non-blank without '=' |
| SdpProperties.FmtpParamsFail | sdputils.go:125-143 | a parameter list fails exactly when one of its `;`-segments is malformed |
| SdpProperties.FmtpAfterPayloadType | sdputils.go:113-121 | the fmtp line parses exactly the text after the payload type and its space |
| SdpProperties.FmtpStepPair | sdputils.go:133-139 | a non-blank segment with '=' stores its trimmed key and value |
| SdpProperties.FmtpTwoParameters | sdputils.go:110-112 | two parameters, the second after optional white space, are both kept |
| SdpProperties.FmtpExampleTwoParameters | sdputils.go:110-112 | "vbr=on; cng=on" gives vbr and cng both "on" |
| SdpProperties.FmtpExampleEmpty | sdputils.go:125-143 | an empty list is the empty map |
| SdpProperties.FmtpExampleNoValue | sdputils.go:133-136 | "novalue" is an invalid parameter naming the segment |
| SdpProperties.FmtpExampleSecondEquals | sdputils.go:133-139 | "a=b=c" keeps only "b" for "a" |
| SdpProperties.FmtpRepeatedKey | sdputils.go:139 | a repeated key keeps its last value |
| Primitives.SplitConcat | sdputils.go:128 | splitting at a separator placed between two texts splits each text on its own |
| Primitives.JoinAppend | sdputils.go:128 | joining two lists of pieces is joining their joins |
| Primitives.SplitJoin | sdputils.go:128 | splitting the join of separator-free pieces gives the pieces back |
| SdpProperties.FmtpSegmentsAppend | sdputils.go:128-140 | the segments are parsed left to right: the later ones start from the map the earlier ones built, and an earlier failure ends the run |
| SdpProperties.FmtpBlankSegmentSkipped | sdputils.go:130-132 | a blank segment anywhere in the list changes nothing |
| SdpProperties.FmtpLastSegmentWins | sdputils.go:133-139 | a last segment with '=' sets its trimmed key to its trimmed value, overwriting any earlier value |
| SdpProperties.FmtpParamsAppend | sdputils.go:128-140 | the map of `a;b` is the map of `a` continued with the segments of `b`, and a failure in `a` is the result |
| SdpProperties.FmtpLastParameterWins | sdputils.go:137-139 | appending `;key=value` to any text that parses sets key to value, whatever it was before |
| SdpProperties.FmtpSingleSegment | sdputils.go:133-139 | a single `key=value` segment adds that pair to the map |
| SdpProperties.FmtpSingleMalformed | sdputils.go:133-135 | a single non-blank segment without '=' is an invalid parameter naming it |
| SdpProperties.FmtpTrailingBlank | sdputils.go:130-132 | a trailing `;` followed by white space changes nothing |
| SdpProperties.FmtpExampleRepeatedKey | sdputils.go:139 | "a=1;a=2" gives a = "2" |
| SdpProperties.RtcpFeedbackWithParameter | sdputils.go:164-172 | `<pt> <type> <parameter>` gives the type and everything after its space |
| SdpProperties.RtcpFeedbackWithoutParameter | sdputils.go:164-172 | `<pt> <type>` gives an empty parameter |
| SdpProperties.RtcpFeedbackExampleNackRpsi | sdputils.go:157-158 | "98 nack rpsi" gives nack with parameter rpsi |
| SdpProperties.RtcpFeedbackExampleNack | sdputils.go:157-178 | "98 nack" gives nack with an empty parameter |
| SdpProperties.ExtmapWithDirection | sdputils.go:201-220 | `<id>/<direction> <uri>` gives all three, with the URI as written |
| SdpProperties.ExtmapWithoutDirection | sdputils.go:209-212 | `<id> <uri>` defaults the direction to "sendrecv" |
| SdpProperties.ExtmapBadId | sdputils.go:203-207 | an id that is not decimal below 2^16 is reported |
| SdpProperties.ExtmapExampleSendonly | sdputils.go:192-194 | "2/sendonly uri" gives id 2, sendonly, uri |
| SdpProperties.ExtmapExampleDefault | sdputils.go:192-193 | "2 uri" gives id 2, sendrecv, uri |
| SdpProperties.ExtmapExampleBadId | sdputils.go:204-206 | id 65536 does not fit in 16 bits |
| SdpProperties.SsrcMediaWithValue | sdputils.go:288-293 | `<ssrc> <attribute>:<value>` gives all three |
| SdpProperties.SsrcMediaValueStops | sdputils.go:288-293 | the value stops at a second ':' |
| SdpProperties.SsrcMediaWithoutValue | sdputils.go:290-293 | without ':' the value is empty |
| SdpProperties.SsrcMediaBadSsrc | sdputils.go:283-287 | an ssrc that is not decimal below 2^32 is reported |
| SdpProperties.SsrcMediaExampleCname | sdputils.go:275-277 | "1234 cname:abc" gives 1234, cname, abc |
| SdpProperties.SsrcMediaExampleSecondColon | sdputils.go:288-293 | "1234 cname:abc:def" keeps only abc |
| SdpProperties.SsrcMediaExampleNoValue | sdputils.go:275-276 | "1234 cname" gives an empty value |
| SdpCorrelation.ParseAllOk | sdputils.go:304-317 | parsing every line succeeds exactly when each line parses, giving each line's value at its position |
| SdpCorrelation.ParseAllFirstError | sdputils.go:310-313 | a failure reports the error of the first line that fails |
| SdpCorrelation.RtcpFeedbackFold | sdputils.go:86-89 | the rtcp-fb lines of a codec are all parsed and appended in attribute order |
| SdpCorrelation.ExtmapFold | sdputils.go:64-68 | the extmap lines are all parsed and appended in attribute order |
| SdpCorrelation.FmtpFold | sdputils.go:80-84 | every fmtp line of a codec must parse and the last one gives the parameter map; without one the codec is unchanged |
| SdpCorrelation.CodecFold | sdputils.go:57-62 | the rtpmap lines of a format each yield a codec, appended in attribute order |
| SdpCorrelation.FormatWithoutRtpMap | sdputils.go:57-62 | a format without an rtpmap line is skipped, not an error |
| SdpCorrelation.CodecsInFormatOrder | sdputils.go:57-62 | the codecs of a format list are those of each format in turn |
| SdpCorrelation.CodecsHaveNoExtensions | sdputils.go:56-62 | the codec part never yields a header extension |
| SdpCorrelation.HeaderExtensionsOfSection | sdputils.go:64-70 | the header extensions of a parsed section are its extmap lines parsed in order |
| SdpCorrelation.PrefixSeparatesPayloadTypes | sdputils.go:80-81 | the payload-type prefix with its trailing space matches only lines of that same payload type |
| SdpCorrelation.PrefixExample | sdputils.go:58 | the prefix "9 " does not pick up "96 VP8/90000" |
| CodecParams.StringRoundTrip | rtcrtpcodecparameters.go:18-20 | the rendering parses, as an rtpmap value, back to the payload type, name, clock rate and channels |
| CodecParams.CodecString | rtcrtpcodecparameters.go:18-20 | the rtpmap-style rendering; StringRoundTrip and StringExampleOpus state what it renders |
| CodecParams.StringExampleOpus | rtcrtpcodecparameters.go:18-20 | opus 111/48000/2 renders as "111 opus/48000/2" |
| CodecParams.SameEntriesIsEquality | rtcrtpcodecparameters.go:31-44 | equal sizes plus every entry of one found in the other is exactly map equality |
| CodecParams.SameEntriesReflexive | rtcrtpcodecparameters.go:31-44 | a map compares equal to itself |
| CodecParams.SameEntriesSymmetric | rtcrtpcodecparameters.go:31-44 | the comparison is symmetric |
| CodecParams.CmpMapStringString | rtcrtpcodecparameters.go:31-44 | the loop answers true exactly when the maps are equal |
| CodecParams.EqualFmtp | rtcrtpcodecparameters.go:22-29 | an error exactly when the other line fails to parse, carrying the line; otherwise true exactly when it parses to the codec's parameters |
| CodecParams.FmtpMatchesEitherOrder | rtcrtpcodecparameters.go:22-29 | two distinct parameters match whatever their order in the line |
| CodecParams.FmtpMatchesReordered | rtcrtpcodecparameters.go:22-29 | {a:1, b:2} matches "b=2; a=1" |
| CodecParams.FmtpMatchesEmptyLine | rtcrtpcodecparameters.go:22-29 | no parameters match an empty line |
| RtpParams.FirstCodec | rtcrtpparameters.go:13-17 | the first codec with the payload type, or an error exactly when none has it |
| RtpParams.GetCodecParameters | rtcrtpparameters.go:12-20 | the result is a negotiated codec, the first with the payload type; "payload type not found" with that type exactly when none has it |
| RtpParams.FirstIsUnique | rtcrtpparameters.go:13-17 | there is one first position for a payload type |
| RtpParams.LaterCodecsIgnored | rtcrtpparameters.go:13-17 | codecs after the first match do not change the answer |
| Media.KindString | mediaengine.go:158-167 | the kind names are non-empty and hold no '/' |
| Media.KindStringInjective | mediaengine.go:158-163 | distinct kinds have distinct names |
| Media.NewCodec | mediaengine.go:178-200 | the mime type is the kind's name, '/', the codec name |
| Media.MimeTypeSplits | mediaengine.go:190 | the mime type splits back into the kind's name and the codec name |
| Media.DefaultCodecsKinds | mediaengine.go:30-36 | five defaults, two audio then three video, all video at 90000 Hz |
| Media.DefaultPayloadTypes | mediaengine.go:9-15 | the default payload types in registration order are 111, 9, 96, 100, 98 |
| Media.DefaultCodecsParameters | mediaengine.go:86-144 | names, clock rates, channel counts, fmtp lines and VP9's missing payloader |
| Media.NewG722Codec | mediaengine.go:86-96 | an audio codec named G722 with mime type audio/G722, the caller's payload type and clock rate, no channels and no fmtp line |
| Media.NewOpusCodec | mediaengine.go:98-108 | an audio codec named opus with mime type audio/opus, the caller's payload type, clock rate and channels, and fmtp line minptime=10;useinbandfec=1 |
| Media.NewVP8Codec | mediaengine.go:110-120 | a video codec named VP8 with mime type video/VP8, the caller's payload type and clock rate, no channels and no fmtp line |
| Media.NewVP9Codec | mediaengine.go:122-132 | a video codec named VP9 with mime type video/VP9, the caller's payload type and clock rate, no channels, no fmtp line and no payloader |
| Media.NewH264Codec | mediaengine.go:134-144 | a video codec named H264 with mime type video/H264, the caller's payload type and clock rate, no channels and the fixed fmtp line |
| Media.DefaultCodecs | mediaengine.go:30-36 | five codecs with pairwise distinct payload types |
| Media.DefaultOpusMimeType | mediaengine.go:98-108 | the default Opus codec has mime type "audio/opus" |
| Media.DefaultCodecsFound | mediaengine.go:38-45 | each default codec is found by its own payload type |
| Media.Lookup | mediaengine.go:38-45 | the first registered codec with the payload type; "codec not found" exactly when none has it |
| Media.LookupFirst | mediaengine.go:38-45 | the answer is the codec at the first position with that type |
| Media.RegisterThenLookup | mediaengine.go:22-27 | registering keeps every earlier answer, and makes the new codec findable when no earlier one has its type |
| Media.Negotiate | mediaengine.go:47-65 | the first codec with the same name, clock rate and channels whose fmtp line parses to exactly the parameters; "codec not found" exactly when none matches |
| Media.UnparsableFmtpSkipped | mediaengine.go:52-56 | a codec whose own fmtp line does not parse never matches, and the search goes on past it |
| Media.NamesAreCaseSensitive | mediaengine.go:49 | an offer of "vp8" does not match VP8 |
| Media.DefaultOpusNegotiates | mediaengine.go:47-65 | the default Opus codec matches opus/48000/2 with minptime=10 and useinbandfec=1 |
| Media.OpusFmtpParses | mediaengine.go:104 | the default Opus fmtp line parses to minptime=10 and useinbandfec=1 |
| Media.DefaultVP8Negotiates | mediaengine.go:47-65 | the default VP8 codec matches VP8/90000 exactly when the offer has no parameters |
| Media.OfKind | mediaengine.go:67-75 | keeps at most as many codecs as are registered; OfKindSingle, OfKindAppend and OfKindMembers state which ones and in what order |
| Media.OfKindMembers | mediaengine.go:69-72 | the result holds only registered codecs of that kind, and every one of them |
| Media.OfKindSingle | mediaengine.go:70-72 | one codec is kept exactly when it has the kind |
| Media.OfKindAppend | mediaengine.go:69-73 | filtering a concatenation is the concatenation of the filtered parts; with OfKindSingle this fixes the result to the codecs of the kind, in registration order, each as often as registered |
| Media.OfKindPartition | mediaengine.go:67-75 | the audio and the video lists together are as long as the registry |
| Media.MediaEngine.constructor | mediaengine.go:17-20 | a new engine has no codecs |
| Media.MediaEngine.RegisterCodec | mediaengine.go:22-27 | the codec is appended and its payload type returned |
| Media.MediaEngine.RegisterDefaultCodecs | mediaengine.go:29-36 | the five defaults are appended in order |
| Media.MediaEngine.GetCodec | mediaengine.go:38-45 | the loop answers the registry lookup |
| Media.MediaEngine.GetCodecSdp | mediaengine.go:47-65 | the loop answers the negotiation; an fmtp comparison error skips that codec |
| Media.MediaEngine.GetCodecsByKind | mediaengine.go:67-75 | the loop returns exactly OfKind of the registry, whose order and contents OfKindAppend, OfKindSingle and OfKindMembers fix |
| Transceivers.AfterSendingTrack | rtcrtptranceiver.go:29-36 | every failure is an invalid state change; which directions fail and where the others move is stated by SendingTrackAddsSending |
| Transceivers.SendingTrackAddsSending | rtcrtptranceiver.go:29-36 | attaching succeeds exactly when the transceiver does not send yet; it then sends and keeps whether it receives |
| Transceivers.SecondSendingTrackFails | rtcrtptranceiver.go:26-38 | a second attachment after a successful one is refused |
| Transceivers.StartSendsBeforeReceiving | rtcrtptranceiver.go:40-58 | the sender is started before the receiver |
| Transceivers.StartRaisesTrackOnlyOnSuccess | rtcrtptranceiver.go:51-64 | a track event is raised exactly when there is a receiver and Receive succeeded, carrying its track |
| Transceivers.StartRaisesTrackOnce | rtcrtptranceiver.go:58-64 | at most one track event, and it is the last call |
| Transceivers.StopOrder | rtcrtptranceiver.go:70-80 | each present half is stopped once, the sender first |
| Transceivers.Transceiver.constructor | rtcrtptranceiver.go:10-24 | a transceiver with the given mid, halves, direction and remote parameters, and no calls made |
| Transceivers.Transceiver.SetSendingTrack | rtcrtptranceiver.go:26-38 | the sender takes the track in every case; the direction moves as AfterSendingTrack says, or stays and the error is returned |
| Transceivers.Transceiver.Start | rtcrtptranceiver.go:40-67 | the calls made are exactly those StartEvents lists; a failed Receive is "failed to receive"; a successful one sets the receiver's track |
| Transceivers.Transceiver.Stop | rtcrtptranceiver.go:70-80 | the calls made are those StopEvents lists; the receiver's stop error is returned |

## Left out

- The sender and the receiver, in `rtcrtpsender.go` and `rtcrtpreceiver.go`, are not part of this model:
  - SRTP streams, goroutines and packet queues are not modelled.
  - Each call the transceiver makes on them is recorded in an event trace.
  - The outcome of `Receive` and of the receiver's `Stop` is a parameter.
  - The outcome of `Send` is not modelled, because the source ignores it.
- The peer connection's `onTrack` is recorded as an event. The peer connection itself is not modelled.
- Logging (`pcLog.Warnf` in `getCodecSDP`) has no effect on results and is left out.
- Error message text is reduced to a variant plus the offending text. The exact `fmt.Errorf` strings are not modelled.
- `RTCRtpCodecType.String` has a default branch for values other than audio and video. Here the kind is a two-valued datatype, so that branch cannot be reached.
- A payloader is an opaque tag. Packetization is outside this core.
- Registered codecs are Go pointers. The model stores them as values, so aliasing through a shared `*RTCRtpCodec` is not captured. The core never mutates a codec after creating it.
- The `Rtcp` member of `RTCRtpParameters` is not modelled, because nothing in the core reads or writes it.
- `Maxptime` and `Ptime` are carried as fields but always keep their zero value.
- `RTCRtpCapabilities` and `RTCRtpHeaderExtensionCapability` are declarations without behaviour.
- The transceiver's `stopped` field is never read or written by the code and is left out.
- Transceivers.Transceiver.SetSendingTrack: requires a sender. Go would panic on a nil `Sender` (rtcrtptranceiver.go:27); that panic is not modelled.
- Transceivers.Transceiver.Start: requires a sender's track to be set. Go would dereference a nil track and panic; that panic is not modelled.
- Transceivers.Transceiver.Stop: returns only the receiver's error, as the code does. The sender's `Stop` has no error result in this core. It reads the sender's track (rtcrtpsender.go:67), so Go panics on a sender without a track; the model's `Stop` accepts that case, and the panic is not modelled.
- `strings.TrimSpace` is modelled for ASCII white space only. Unicode white space beyond ASCII is not modelled.
- Go map iteration order in `cmpMapStringString` is an arbitrary choice. The answer does not depend on it.
