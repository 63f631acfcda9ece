/** RTCRtpReceiveParameters.getCodecParameters (rtcrtpparameters.go): the
    negotiated codec for a payload type, as the receive path looks it up when
    the first packet arrives. */
module RtpParams {
  import opened Errors
  import opened Primitives
  import opened RtpTypes

  /** Codec `i` is the first one with the payload type. */
  predicate FirstWithPayloadType(codecs: seq<CodecParameters>, payloadType: uint8, i: int) {
    0 <= i < |codecs| && codecs[i].payloadType == payloadType
    && forall j | 0 <= j < i :: codecs[j].payloadType != payloadType
  }

  /** The first codec with the payload type, or the "payload type not found"
      error when no codec has it. */
  function FirstCodec(codecs: seq<CodecParameters>, payloadType: uint8): (r: Result<CodecParameters>)
    ensures r.Ok? ==> exists i :: FirstWithPayloadType(codecs, payloadType, i) && r.value == codecs[i]
    ensures r.Err? <==> forall i | 0 <= i < |codecs| :: codecs[i].payloadType != payloadType
    ensures r.Err? ==> r.error == PayloadTypeNotFound(payloadType as int)
  {
    if codecs == [] then Err(PayloadTypeNotFound(payloadType as int))
    else if codecs[0].payloadType == payloadType then
      assert FirstWithPayloadType(codecs, payloadType, 0);
      Ok(codecs[0])
    else
      var r := FirstCodec(codecs[1..], payloadType);
      assert forall i | 1 <= i < |codecs| :: codecs[1..][i - 1] == codecs[i];
      if r.Ok? then
        var i :| FirstWithPayloadType(codecs[1..], payloadType, i) && r.value == codecs[1..][i];
        assert FirstWithPayloadType(codecs, payloadType, i + 1);
        r
      else r
  }

  /** getCodecParameters: scans the negotiated codecs in order and returns the
      first with the payload type. The parameters are read only. */
  function GetCodecParameters(p: ReceiveParameters, payloadType: uint8): (r: Result<CodecParameters>)
    ensures r.Ok? ==> r.value.payloadType == payloadType && r.value in p.rtp.codecs
    ensures r.Ok? ==> exists i :: FirstWithPayloadType(p.rtp.codecs, payloadType, i) && r.value == p.rtp.codecs[i]
    ensures r.Err? <==> forall i | 0 <= i < |p.rtp.codecs| :: p.rtp.codecs[i].payloadType != payloadType
    ensures r.Err? ==> r.error == PayloadTypeNotFound(payloadType as int)
  {
    FirstCodec(p.rtp.codecs, payloadType)
  }

  /** There is one first position for a payload type. */
  lemma FirstIsUnique(codecs: seq<CodecParameters>, payloadType: uint8, i: int, j: int)
    requires FirstWithPayloadType(codecs, payloadType, i) && FirstWithPayloadType(codecs, payloadType, j)
    ensures i == j
  {
  }

  /** Codecs after the first match do not change the answer. */
  lemma LaterCodecsIgnored(codecs: seq<CodecParameters>, more: seq<CodecParameters>, payloadType: uint8)
    requires FirstCodec(codecs, payloadType).Ok?
    ensures FirstCodec(codecs + more, payloadType) == FirstCodec(codecs, payloadType)
  {
    var all := codecs + more;
    var i :| FirstWithPayloadType(codecs, payloadType, i) && FirstCodec(codecs, payloadType).value == codecs[i];
    assert forall k | 0 <= k <= i :: all[k] == codecs[k];
    assert FirstWithPayloadType(all, payloadType, i);
    var j :| FirstWithPayloadType(all, payloadType, j) && FirstCodec(all, payloadType).value == all[j];
    FirstIsUnique(all, payloadType, i, j);
  }
}
