/**
 * `HTTPSourceStream`: the source stream of a channel fed over HTTP. It decides
 * once whether the stream's own bitrate may replace the channel's, builds a
 * `HTTPSourceConnection` per attempt, reports on itself while no connection
 * exists, and decides what to do when a connection stops.
 */
module SourceStream {
  import opened Core
  import opened Text
  import opened Atoms
  import opened HttpResponse
  import opened ResponseReader
  import opened SourceConnection

  /** Line 266: the stream's bitrate is used when the channel has no information yet or announces none. */
  function UseContentBitrate(info: Option<ChannelInfo>): (use: bool)
    ensures use <==> info.None? || info.value.Bitrate() == 0
  {
    info == None || info.value.Bitrate() == 0
  }

  /**
   * A channel that already announces a bitrate keeps it: the stream's own
   * bitrate is then not used, and no number of frames changes the channel's.
   */
  lemma TrustedBitrateIsKept(st: PumpState, frames: seq<ContentData>)
    requires !UseContentBitrate(Some(st.info))
    ensures st.info.Bitrate() != 0
    ensures ApplyAll(st, frames, UseContentBitrate(Some(st.info))).info.Bitrate() == st.info.Bitrate()
  {
    BitrateKeptWhilePumping(st, frames);
  }

  /** A channel with bitrate 0 takes the bitrate the stream announces in a frame. */
  lemma AnnouncedBitrateIsTaken(st: PumpState, d: ContentData)
    requires UseContentBitrate(Some(st.info))
    requires d.channelInfo.Some? && BitrateName in d.channelInfo.value.extra
    ensures st.info.Bitrate() == 0
    ensures ApplyData(st, d, UseContentBitrate(Some(st.info))).info.Bitrate() == d.channelInfo.value.Bitrate()
  {
    BitrateTaken(st.info, d.channelInfo.value);
  }

  /** Lines 276-280: the status reported while there is no connection. */
  function DisconnectedStatus(reason: StopReason): (status: ConnectionStatus)
    ensures status == Connecting <==> reason == UserReconnect
    ensures status == Idle <==> reason == UserShutdown
    ensures status != Connected
  {
    match reason
    case UserReconnect => Connecting
    case UserShutdown => Idle
    case _ => Error
  }

  /** What the stream does when its connection stops. */
  datatype StopAction = Ignore | StopStream(reason: StopReason) | ReconnectAfter(delayMs: nat)

  const ReconnectDelayMs: nat := 3000

  /** Lines 304-316. */
  function OnConnectionStopped(reason: StopReason): (action: StopAction)
    ensures action == Ignore <==> reason == UserReconnect
    ensures action.StopStream? <==> reason == UserShutdown
    ensures action.StopStream? ==> action.reason == reason
    ensures action.ReconnectAfter? ==> action.delayMs == ReconnectDelayMs
  {
    match reason
    case UserReconnect => Ignore
    case UserShutdown => StopStream(reason)
    case _ => ReconnectAfter(ReconnectDelayMs)
  }

  /** The status reported after a stop agrees with what the stream does about it. */
  lemma StatusFollowsPolicy(reason: StopReason)
    ensures DisconnectedStatus(reason) == Connecting <==> OnConnectionStopped(reason) == Ignore
    ensures DisconnectedStatus(reason) == Idle <==> OnConnectionStopped(reason).StopStream?
    ensures DisconnectedStatus(reason) == Error <==> OnConnectionStopped(reason).ReconnectAfter?
  {
  }

  class HTTPSourceStream {
    const channel: Channel
    const sourceUri: Uri
    /** `PeerCast.AgentName`. */
    const agentName: string
    const useContentBitrate: bool
    var sourceConnection: HTTPSourceConnection?
    var stoppedReason: StopReason

    /** Lines 262-267. */
    constructor (channel: Channel, sourceUri: Uri, agentName: string)
      ensures this.channel == channel && this.sourceUri == sourceUri && this.agentName == agentName
      ensures useContentBitrate <==> channel.channelInfo.Bitrate() == 0
      ensures sourceConnection == null && stoppedReason == NoReason
    {
      this.channel := channel;
      this.sourceUri := sourceUri;
      this.agentName := agentName;
      this.useContentBitrate := UseContentBitrate(Some(channel.channelInfo));
      sourceConnection := null;
      stoppedReason := NoReason;
    }

    /** Lines 299-302: a new connection for the channel, with the bitrate decision made at construction. */
    method CreateConnection(uri: Uri, remoteEndPoint: Option<EndPoint>) returns (c: HTTPSourceConnection)
      ensures fresh(c)
      ensures c.channel == channel && c.sourceUri == uri && c.agentName == agentName
      ensures c.useContentBitrate == useContentBitrate && c.remoteEndPoint == remoteEndPoint
      ensures c.response == null && !c.isStopped && c.lastPosition == 0
    {
      c := new HTTPSourceConnection(channel, uri, agentName, useContentBitrate, remoteEndPoint);
    }

    /** Lines 269-297: the connection's report, or a report of the stop while there is none. */
    function GetConnectionInfo(isSiteLocal: IPAddress -> bool): (info: ConnectionInfo)
      reads this, sourceConnection, if sourceConnection != null then {sourceConnection.response} else {}
      ensures sourceConnection != null ==> info == sourceConnection.GetConnectionInfo(isSiteLocal)
      ensures sourceConnection == null ==>
                && info.protocolName == "HTTP Source" && info.connectionType == Source
                && info.status == DisconnectedStatus(stoppedReason) && info.remoteName == sourceUri.text
                && info.remoteEndPoint == None && info.remoteHostStatus == Unclassified
                && info.contentPosition == None && info.agentName == ""
    {
      if sourceConnection != null then sourceConnection.GetConnectionInfo(isSiteLocal)
      else ConnectionInfo("HTTP Source", Source, DisconnectedStatus(stoppedReason), sourceUri.text, None, Unclassified, None, "")
    }
  }

  // ---------------------------------------------------------------------------
  // From the server's answer to the stream's reaction

  lemma StatusLineIsOneLine(version: string, code: nat, reason: string)
    requires OneLine(version) && OneLine(reason)
    ensures OneLine(StatusLineText(version, code, reason)) && StatusLineText(version, code, reason) != []
  {
    assert OneLine("HTTP/") && OneLine(" ");
    var digits := NatToString(code);
    assert OneLine(digits);
    OneLineConcat("HTTP/", version);
    OneLineConcat("HTTP/" + version, " ");
    OneLineConcat("HTTP/" + version + " ", digits);
    OneLineConcat("HTTP/" + version + " " + digits, " ");
    OneLineConcat("HTTP/" + version + " " + digits + " ", reason);
  }

  /** A head of one line is read back as that line. */
  lemma OneLineHeadReadsBack(line: string)
    requires OneLine(line) && line != [] && |line| + 4 <= MaxHeadBytes + 1
    ensures ReadSpec(Encode(FrameText([line]))).Head?
    ensures ReadSpec(Encode(FrameText([line]))).lines == [line]
  {
    EncodeFrameText([line]);
    EncodeAllOneLine([line]);
    var bs := EncodeAll([line]);
    assert bs[1..] == [];
    assert |Framed(bs)| == |line| + 4;
    ReadRoundTrip(bs, []);
    assert Framed(bs) + [] == Framed(bs);
  }

  /**
   * A server that answers with only a status line: the code decides whether
   * the pump runs, and the stop reason is the code's unless it is 200.
   */
  lemma AnswerDecidesTheRun(version: string, code: nat, reason: string, frames: seq<ContentData>, end: PumpEnd)
    requires IsVersion(version) && OneLine(version) && OneLine(reason)
    requires forall i :: 0 <= i < |reason| ==> reason[i] != '\n'
    requires |StatusLineText(version, code, reason)| + 4 <= MaxHeadBytes + 1
    ensures var s := Session(false, Encode(FrameText([StatusLineText(version, code, reason)])), frames, end);
            && (Pumps(s) <==> code == 200)
            && RunStopReason(s) == if code == 200 then EndReason(end) else StopReasonForStatus(code)
  {
    var line := StatusLineText(version, code, reason);
    StatusLineIsOneLine(version, code, reason);
    OneLineHeadReadsBack(line);
    StatusLineRoundTrip(version, code, reason);
    assert [line][..0] == [] && [line][0] == line;
    assert Run(EmptyHead, [line]) == Step(Run(EmptyHead, []), line);
    assert Classify([line]).status == code;
  }

  /** `HTTP/1.1 404 Not Found`: the connection stops with OffAir, and the stream reconnects after 3000 ms. */
  lemma NotFoundReconnects(frames: seq<ContentData>, end: PumpEnd)
    ensures var s := Session(false, Encode(FrameText([StatusLineText("1.1", 404, "Not Found")])), frames, end);
            && !Pumps(s) && RunStopReason(s) == OffAir
            && OnConnectionStopped(RunStopReason(s)) == ReconnectAfter(3000)
            && DisconnectedStatus(RunStopReason(s)) == Error
  {
    assert OneLine("1.1") && OneLine("Not Found") && IsVersion("1.1");
    assert |NatToString(404)| == 3;
    AnswerDecidesTheRun("1.1", 404, "Not Found", frames, end);
  }

  /** `HTTP/1.1 503 Service Unavailable`: the connection stops with UnavailableError, and the stream reconnects after 3000 ms. */
  lemma UnavailableReconnects(frames: seq<ContentData>, end: PumpEnd)
    ensures var s := Session(false, Encode(FrameText([StatusLineText("1.1", 503, "Service Unavailable")])), frames, end);
            && !Pumps(s) && RunStopReason(s) == UnavailableError
            && OnConnectionStopped(RunStopReason(s)) == ReconnectAfter(3000)
  {
    assert OneLine("1.1") && OneLine("Service Unavailable") && IsVersion("1.1");
    assert |NatToString(503)| == 3;
    AnswerDecidesTheRun("1.1", 503, "Service Unavailable", frames, end);
  }
}
