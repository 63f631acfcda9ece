/** The parameter records that the SDP parsers build and the receive path consumes:
    RTCRtpCodecParameters and RTCRtcpFeedback (rtcrtpcodecparameters.go),
    RTCRtpParameters and RTCRtpReceiveParameters (rtcrtpparameters.go),
    RTCRtpHeaderExtensionParameters (rtcrtpheaderextensionparameters.go), and the
    coding/decoding parameters, which are declared in files that are not part of
    this model. A Go `map[string]string` is a `map<string, string>`; a nil map is
    the empty map, and a nil slice the empty sequence. */
module RtpTypes {
  import opened Primitives

  /** One `a=rtcp-fb` mechanism: its type ("nack", "ccm", ...) and its optional parameter. */
  datatype RtcpFeedback = RtcpFeedback(typ: string, parameter: string)

  /** A codec as a remote description signals it. */
  datatype CodecParameters = CodecParameters(
    name: string,
    mimeType: string,
    payloadType: uint8,
    clockRate: uint32,
    maxptime: uint32,
    ptime: uint32,
    channels: uint32,
    rtcpFeedback: seq<RtcpFeedback>,
    parameters: map<string, string>)

  /** A codec entry with only what an `a=rtpmap` line carries; every other field
      has its Go zero value. */
  function RtpMapCodec(name: string, payloadType: uint8, clockRate: uint32, channels: uint32): CodecParameters {
    CodecParameters(name, "", payloadType, clockRate, 0, 0, channels, [], map[])
  }

  /** An RFC 5285 header extension: `a=extmap:<id>[/<direction>] <uri>`. */
  datatype HeaderExtensionParameters = HeaderExtensionParameters(id: uint16, direction: string, uri: string)

  /** The codecs and header extensions negotiated for one media section. The
      `Rtcp` member of RTCRtpParameters is not part of this model. */
  datatype RtpParameters = RtpParameters(
    codecs: seq<CodecParameters>,
    headerExtensions: seq<HeaderExtensionParameters>)

  datatype CodingParameters = CodingParameters(ssrc: uint32, payloadType: uint8)

  datatype DecodingParameters = DecodingParameters(coding: CodingParameters)

  /** RTCRtpReceiveParameters embeds RTCRtpParameters and adds the decoding targets. */
  datatype ReceiveParameters = ReceiveParameters(
    rtp: RtpParameters,
    encodings: seq<DecodingParameters>)
}
