/** Error outcomes of the media core, and the Option/Result wrappers that carry them.

    Go returns `(value, error)`; here every fallible operation returns a `Result`,
    and every `error` the source builds with `fmt.Errorf` or `errors.New` becomes a
    tagged variant naming the step that failed (the offending text is kept where
    the source puts it into its message). */
module Errors {

  datatype Option<+T> = None | Some(value: T)

  datatype Error =
    // sdpParseRtpMap
    | RtpMapTooShort(line: string)
    | InvalidPayloadType(text: string)
    | InvalidCodec(text: string)
    | InvalidClockRate(text: string)
    | InvalidChannels(text: string)
    // sdpParseFmtp / sdpParseFmtpString
    | FmtpTooShort(line: string)
    | InvalidParameter(param: string)
    // sdpParseRtcpFeedback
    | RtcpFeedbackTooShort(line: string)
    // sdpParseExtmap
    | ExtmapTooShort(line: string)
    | InvalidId(text: string)
    // sdpParseSsrcMedia
    | SsrcMediaTooShort(line: string)
    | InvalidSsrc(text: string)
    // wrappers added by the correlating parsers
    | FailedToParseFmtp(cause: Error)
    | FailedToParseRtcpFeedback(cause: Error)
    | FailedToParseCodec(cause: Error)
    | FailedToParseHeaderExtensions(cause: Error)
    | FailedToParseSsrcs(cause: Error)
    | NoSsrcFound
    | AttributeNotFound
    // equalFMTP
    | FailedToParseFmtpLine(line: string, cause: Error)
    // MediaEngine lookups (ErrCodecNotFound)
    | CodecNotFound
    // RTCRtpReceiveParameters.getCodecParameters
    | PayloadTypeNotFound(payloadType: int)
    // RTCRtpTransceiver
    | InvalidStateChange
    | FailedToReceive(cause: Error)

  datatype Result<+T> = Ok(value: T) | Err(error: Error)
}
