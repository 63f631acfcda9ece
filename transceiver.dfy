/** RTCRtpTransceiver (rtcrtptranceiver.go): a sender and a receiver sharing a
    mid, the direction change made when a sending track is attached, and the
    order in which starting and stopping drive the two halves.

    The sender's and receiver's own work (SRTP streams, read loops) is outside
    this model: each call the transceiver makes on them, and the track event it
    raises on the peer connection, is recorded in the transceiver's `events`
    trace, and the outcome of the receiver's calls is a parameter. */
module Transceivers {
  import opened Errors
  import opened Primitives
  import opened RtpTypes

  // ===========================================================================
  // Direction

  /** RTCRtpTransceiverDirection */
  datatype Direction = Sendrecv | Sendonly | Recvonly | Inactive

  predicate Sends(d: Direction) {
    d == Sendrecv || d == Sendonly
  }

  predicate Receives(d: Direction) {
    d == Sendrecv || d == Recvonly
  }

  /** The direction setSendingTrack moves to: recvonly becomes sendrecv,
      inactive becomes sendonly, and any other direction is an invalid state
      change. */
  function AfterSendingTrack(d: Direction): (r: Result<Direction>)
    ensures r.Err? ==> r.error == InvalidStateChange
  {
    match d
    case Recvonly => Ok(Sendrecv)
    case Inactive => Ok(Sendonly)
    case _ => Err(InvalidStateChange)
  }

  /** Attaching a sending track succeeds exactly when the transceiver does not
      send yet; it adds sending and keeps whether it receives. */
  lemma SendingTrackAddsSending(d: Direction)
    ensures AfterSendingTrack(d).Ok? <==> !Sends(d)
    ensures AfterSendingTrack(d).Ok? ==>
      Sends(AfterSendingTrack(d).value) && (Receives(AfterSendingTrack(d).value) <==> Receives(d))
  {
  }

  /** So a second attachment after a successful one is refused. */
  lemma SecondSendingTrackFails(d: Direction)
    requires AfterSendingTrack(d).Ok?
    ensures AfterSendingTrack(AfterSendingTrack(d).value) == Err(InvalidStateChange)
  {
    SendingTrackAddsSending(d);
    SendingTrackAddsSending(AfterSendingTrack(d).value);
  }

  // ===========================================================================
  // Tracks, senders and receivers

  /** RTCTrack, reduced to what the transceiver reads from it. */
  datatype Track = Track(payloadType: uint8, ssrc: uint32)

  /** RTCRtpSender, reduced to its track. */
  class Sender {
    var track: Option<Track>

    constructor (track: Option<Track>)
      ensures this.track == track
    {
      this.track := track;
    }
  }

  /** RTCRtpReceiver, reduced to its track, which a successful Receive sets. */
  class Receiver {
    var track: Option<Track>

    constructor ()
      ensures track == None
    {
      track := None;
    }
  }

  /** A call the transceiver makes on its sender, its receiver or its peer
      connection. */
  datatype Event =
    | SenderSend(encoding: CodingParameters)
    | ReceiverReceive(parameters: ReceiveParameters)
    | OnTrack(track: Track)
    | SenderStop
    | ReceiverStop

  // ===========================================================================
  // The calls made by start and Stop

  /** The calls start makes: Send on the sender with the ssrc and payload type of
      its track, then Receive on the receiver with the remote capabilities and
      the decoding parameters, then, once Receive succeeded, onTrack with the
      received track. */
  function StartEvents(sendTrack: Option<Track>, hasReceiver: bool, parameters: ReceiveParameters,
                       receiveOutcome: Result<Track>): seq<Event> {
    (match sendTrack
     case None => []
     case Some(t) => [SenderSend(CodingParameters(t.ssrc, t.payloadType))])
    + (if !hasReceiver then []
       else [ReceiverReceive(parameters)] + (match receiveOutcome case Ok(t) => [OnTrack(t)] case Err(_) => []))
  }

  /** The sender is started before the receiver. */
  lemma StartSendsBeforeReceiving(sendTrack: Option<Track>, hasReceiver: bool, parameters: ReceiveParameters,
                                  receiveOutcome: Result<Track>, i: int, j: int)
    requires 0 <= i < |StartEvents(sendTrack, hasReceiver, parameters, receiveOutcome)|
    requires 0 <= j < |StartEvents(sendTrack, hasReceiver, parameters, receiveOutcome)|
    requires StartEvents(sendTrack, hasReceiver, parameters, receiveOutcome)[i].SenderSend?
    requires StartEvents(sendTrack, hasReceiver, parameters, receiveOutcome)[j].ReceiverReceive?
    ensures i < j
  {
  }

  /** A track event is raised exactly when there is a receiver and Receive
      succeeded, and it carries the received track. */
  lemma StartRaisesTrackOnlyOnSuccess(sendTrack: Option<Track>, hasReceiver: bool, parameters: ReceiveParameters,
                                      receiveOutcome: Result<Track>, t: Track)
    ensures OnTrack(t) in StartEvents(sendTrack, hasReceiver, parameters, receiveOutcome)
        <==> hasReceiver && receiveOutcome == Ok(t)
  {
    var sends: seq<Event> := match sendTrack
      case None => []
      case Some(s) => [SenderSend(CodingParameters(s.ssrc, s.payloadType))];
    assert OnTrack(t) !in sends;
  }

  /** At most one track event is raised, and it comes last. */
  lemma StartRaisesTrackOnce(sendTrack: Option<Track>, hasReceiver: bool, parameters: ReceiveParameters,
                             receiveOutcome: Result<Track>, i: int)
    requires 0 <= i < |StartEvents(sendTrack, hasReceiver, parameters, receiveOutcome)|
    requires StartEvents(sendTrack, hasReceiver, parameters, receiveOutcome)[i].OnTrack?
    ensures i == |StartEvents(sendTrack, hasReceiver, parameters, receiveOutcome)| - 1
  {
  }

  /** The calls Stop makes: Stop on the sender, then Stop on the receiver. */
  function StopEvents(hasSender: bool, hasReceiver: bool): seq<Event> {
    (if hasSender then [SenderStop] else []) + (if hasReceiver then [ReceiverStop] else [])
  }

  /** Stop stops the sender before the receiver, and each half once. */
  lemma StopOrder(hasSender: bool, hasReceiver: bool)
    ensures |StopEvents(hasSender, hasReceiver)| == (if hasSender then 1 else 0) + (if hasReceiver then 1 else 0)
    ensures hasSender ==> StopEvents(hasSender, hasReceiver)[0] == SenderStop
    ensures hasReceiver ==> StopEvents(hasSender, hasReceiver)[|StopEvents(hasSender, hasReceiver)| - 1] == ReceiverStop
  {
  }

  // ===========================================================================
  // The transceiver

  /** RTCRtpTransceiver */
  class Transceiver {
    var mid: string
    var sender: Sender?
    var receiver: Receiver?
    var direction: Direction
    var remoteCapabilities: RtpParameters
    var recvDecodingParameters: seq<DecodingParameters>
    /** The calls made so far, oldest first. */
    var events: seq<Event>

    constructor (mid: string, sender: Sender?, receiver: Receiver?, direction: Direction,
                 remoteCapabilities: RtpParameters, recvDecodingParameters: seq<DecodingParameters>)
      ensures this.mid == mid && this.sender == sender && this.receiver == receiver
      ensures this.direction == direction && this.remoteCapabilities == remoteCapabilities
      ensures this.recvDecodingParameters == recvDecodingParameters && events == []
    {
      this.mid := mid;
      this.sender := sender;
      this.receiver := receiver;
      this.direction := direction;
      this.remoteCapabilities := remoteCapabilities;
      this.recvDecodingParameters := recvDecodingParameters;
      events := [];
    }

    /** setSendingTrack: the sender takes the track whatever the direction; the
        direction then changes as AfterSendingTrack says, or stays and the
        invalid state change is reported. */
    method SetSendingTrack(track: Track) returns (err: Option<Error>)
      requires sender != null
      modifies this, sender
      ensures sender == old(sender) && sender.track == Some(track)
      ensures AfterSendingTrack(old(direction)).Ok? ==> direction == AfterSendingTrack(old(direction)).value && err == None
      ensures AfterSendingTrack(old(direction)).Err? ==> direction == old(direction) && err == Some(InvalidStateChange)
      ensures mid == old(mid) && receiver == old(receiver) && events == old(events)
      ensures remoteCapabilities == old(remoteCapabilities) && recvDecodingParameters == old(recvDecodingParameters)
    {
      sender.track := Some(track);
      if direction == Recvonly {
        direction := Sendrecv;
      } else if direction == Inactive {
        direction := Sendonly;
      } else {
        return Some(InvalidStateChange);
      }
      return None;
    }

    /** start: sends on the sender, if any, with its track's ssrc and payload
        type; then, if there is a receiver, receives with the remote
        capabilities and the decoding parameters. A failed Receive is reported
        as "failed to receive" and raises no track event; a successful one sets
        the receiver's track and raises the track event with it. The outcome of
        Send is ignored, as the source ignores it. */
    method Start(receiveOutcome: Result<Track>) returns (err: Option<Error>)
      requires sender != null ==> sender.track.Some?
      modifies this, receiver
      ensures mid == old(mid) && sender == old(sender) && receiver == old(receiver) && direction == old(direction)
      ensures remoteCapabilities == old(remoteCapabilities) && recvDecodingParameters == old(recvDecodingParameters)
      ensures old(sender) != null ==> sender.track == old(sender.track)
      ensures events == old(events) + StartEvents(
        if sender != null then sender.track else None, receiver != null,
        ReceiveParameters(remoteCapabilities, recvDecodingParameters), receiveOutcome)
      ensures err == if receiver != null && receiveOutcome.Err? then Some(FailedToReceive(receiveOutcome.error)) else None
      ensures receiver != null && receiveOutcome.Ok? ==> receiver.track == Some(receiveOutcome.value)
      ensures old(receiver) != null && receiveOutcome.Err? ==> receiver.track == old(receiver.track)
    {
      ghost var before := events;
      var s := sender;
      if s != null {
        var t := s.track.value;
        events := events + [SenderSend(CodingParameters(t.ssrc, t.payloadType))];
      }
      ghost var sent := events;
      var r := receiver;
      if r != null {
        var parameters := ReceiveParameters(remoteCapabilities, recvDecodingParameters);
        events := events + [ReceiverReceive(parameters)];
        if receiveOutcome.Err? {
          assert events == sent + [ReceiverReceive(parameters)];
          return Some(FailedToReceive(receiveOutcome.error));
        }
        r.track := Some(receiveOutcome.value);
        events := events + [OnTrack(r.track.value)];
        assert events == sent + ([ReceiverReceive(parameters)] + [OnTrack(receiveOutcome.value)]);
      }
      return None;
    }

    /** Stop: stops the sender, then the receiver; a failure of the receiver's
        Stop is returned, and the sender's Stop reports none. */
    method Stop(receiverStopOutcome: Option<Error>) returns (err: Option<Error>)
      modifies this
      ensures events == old(events) + StopEvents(sender != null, receiver != null)
      ensures err == if receiver != null then receiverStopOutcome else None
      ensures mid == old(mid) && sender == old(sender) && receiver == old(receiver) && direction == old(direction)
      ensures remoteCapabilities == old(remoteCapabilities) && recvDecodingParameters == old(recvDecodingParameters)
    {
      ghost var before := events;
      if sender != null {
        events := events + [SenderStop];
      }
      ghost var stopped := events;
      if receiver != null {
        events := events + [ReceiverStop];
        assert events == stopped + [ReceiverStop];
        if receiverStopOutcome.Some? {
          return receiverStopOutcome;
        }
      }
      return None;
    }
  }
}
