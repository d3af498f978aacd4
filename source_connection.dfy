/**
 * `HTTPSourceConnection`: sends the HTTP request for a source stream, reads
 * the response head and then pumps what the content reader decodes into the
 * channel until the connection is stopped.
 *
 * The socket is a `Session`: whether writing the request fails, the bytes
 * the server answers with, the frames the content reader decodes, and how the
 * pump ends once they are used up (an exception of the content reader, or a
 * `Stop` from elsewhere).
 */
module SourceConnection {
  import opened Core
  import opened Text
  import opened Atoms
  import opened HttpResponse
  import opened ResponseReader

  // ---------------------------------------------------------------------------
  // Frames and the state they update

  /** A block of stream content at a byte position of the stream. */
  datatype Content = Content(position: int, data: seq<Byte>)

  /** `ContentData`, what one `IContentReader.ReadAsync` returns; a null field is `None`. */
  datatype ContentData = ContentData(
    channelInfo: Option<ChannelInfo>,
    channelTrack: Option<ChannelTrack>,
    contentHeader: Option<Content>,
    contents: Option<seq<Content>>)

  const NoData := ContentData(None, None, None, None)

  /** What the pump loop writes: the channel's four properties and the connection's `lastPosition`. */
  datatype PumpState = PumpState(
    info: ChannelInfo,
    track: ChannelTrack,
    header: Option<Content>,
    contents: seq<Content>,
    lastPosition: int)

  function AppendContents(st: PumpState, cs: seq<Content>): PumpState
  {
    st.(contents := st.contents + cs, lastPosition := if cs == [] then st.lastPosition else cs[|cs| - 1].position)
  }

  /** Lines 182-198: one frame applied field by field, in this order. */
  function ApplyData(st: PumpState, d: ContentData, useContentBitrate: bool): PumpState
  {
    var s1 := if d.channelInfo.Some? then st.(info := UpdateChannelInfo(st.info, d.channelInfo.value, useContentBitrate)) else st;
    var s2 := if d.channelTrack.Some? then s1.(track := UpdateChannelTrack(s1.track, d.channelTrack.value)) else s1;
    var s3 := if d.contentHeader.Some? then s2.(header := d.contentHeader, contents := [], lastPosition := d.contentHeader.value.position) else s2;
    if d.contents.Some? then AppendContents(s3, d.contents.value) else s3
  }

  /** The frames applied in arrival order. */
  function ApplyAll(st: PumpState, frames: seq<ContentData>, useContentBitrate: bool): PumpState
    decreases |frames|
  {
    if frames == [] then st
    else ApplyData(ApplyAll(st, frames[..|frames| - 1], useContentBitrate), frames[|frames| - 1], useContentBitrate)
  }

  // ---------------------------------------------------------------------------
  // What the frames do, stated without the loop

  function Chunks(d: ContentData): seq<Content>
  {
    if d.contents.Some? then d.contents.value else []
  }

  /** All content blocks of the frames, in order. */
  function AllChunks(frames: seq<ContentData>): seq<Content>
    decreases |frames|
  {
    if frames == [] then [] else AllChunks(frames[..|frames| - 1]) + Chunks(frames[|frames| - 1])
  }

  function Positions(cs: seq<Content>): (ps: seq<int>)
    ensures |ps| == |cs| && forall i :: 0 <= i < |cs| ==> ps[i] == cs[i].position
  {
    seq(|cs|, i requires 0 <= i < |cs| => cs[i].position)
  }

  /** The positions a frame announces: its header's, then its blocks'. */
  function Announced(d: ContentData): seq<int>
  {
    (if d.contentHeader.Some? then [d.contentHeader.value.position] else []) + Positions(Chunks(d))
  }

  function AllAnnounced(frames: seq<ContentData>): seq<int>
    decreases |frames|
  {
    if frames == [] then [] else AllAnnounced(frames[..|frames| - 1]) + Announced(frames[|frames| - 1])
  }

  /** A frame whose fields are all null changes nothing. */
  lemma EmptyFrameChangesNothing(st: PumpState, useContentBitrate: bool)
    ensures ApplyData(st, NoData, useContentBitrate) == st
  {
  }

  lemma {:induction false} ApplyAllConcat(st: PumpState, a: seq<ContentData>, b: seq<ContentData>, useContentBitrate: bool)
    ensures ApplyAll(st, a + b, useContentBitrate) == ApplyAll(ApplyAll(st, a, useContentBitrate), b, useContentBitrate)
    decreases |b|
  {
    if b == [] {
      assert a + b == a;
    } else {
      var b' := b[..|b| - 1];
      assert (a + b)[..|a + b| - 1] == a + b';
      ApplyAllConcat(st, a, b', useContentBitrate);
    }
  }

  lemma {:induction false} AllChunksConcat(a: seq<ContentData>, b: seq<ContentData>)
    ensures AllChunks(a + b) == AllChunks(a) + AllChunks(b)
    decreases |b|
  {
    if b == [] {
      assert a + b == a;
    } else {
      var b', x := b[..|b| - 1], b[|b| - 1];
      assert (a + b)[..|a + b| - 1] == a + b' && (a + b)[|a + b| - 1] == x;
      calc {
        AllChunks(a + b);
        AllChunks(a + b') + Chunks(x);
        { AllChunksConcat(a, b'); }
        AllChunks(a) + AllChunks(b') + Chunks(x);
        AllChunks(a) + (AllChunks(b') + Chunks(x));
      }
    }
  }

  /** Without a content header the blocks are appended to the channel's, in arrival order. */
  lemma {:induction false} ContentsWithoutHeader(st: PumpState, frames: seq<ContentData>, useContentBitrate: bool)
    requires forall i :: 0 <= i < |frames| ==> frames[i].contentHeader.None?
    ensures ApplyAll(st, frames, useContentBitrate).header == st.header
    ensures ApplyAll(st, frames, useContentBitrate).contents == st.contents + AllChunks(frames)
    decreases |frames|
  {
    if frames != [] {
      ContentsWithoutHeader(st, frames[..|frames| - 1], useContentBitrate);
    }
  }

  /** After the last content header the channel holds that header and exactly the blocks that came with and after it. */
  lemma ContentsSinceLastHeader(st: PumpState, frames: seq<ContentData>, i: nat, useContentBitrate: bool)
    requires i < |frames| && frames[i].contentHeader.Some?
    requires forall j :: i < j < |frames| ==> frames[j].contentHeader.None?
    ensures ApplyAll(st, frames, useContentBitrate).header == frames[i].contentHeader
    ensures ApplyAll(st, frames, useContentBitrate).contents == AllChunks(frames[i..])
  {
    var front, rest := SplitAfterLastHeader(frames, i);
    ApplyAllConcat(st, front, rest, useContentBitrate);
    var mid := ApplyAll(st, front, useContentBitrate);
    HeaderFrameResets(st, front, useContentBitrate);
    ContentsWithoutHeader(mid, rest, useContentBitrate);
    ChunksAfterHeader(frames[i], rest);
  }

  /** The frames up to and including the last header, and the header-free frames after it. */
  lemma SplitAfterLastHeader(frames: seq<ContentData>, i: nat) returns (front: seq<ContentData>, rest: seq<ContentData>)
    requires i < |frames| && frames[i].contentHeader.Some?
    requires forall j :: i < j < |frames| ==> frames[j].contentHeader.None?
    ensures front == frames[..i + 1] && rest == frames[i + 1..] && frames == front + rest
    ensures front != [] && front[|front| - 1] == frames[i]
    ensures forall j :: 0 <= j < |rest| ==> rest[j].contentHeader.None?
    ensures frames[i..] == [frames[i]] + rest
  {
    front, rest := frames[..i + 1], frames[i + 1..];
    forall j | 0 <= j < |rest| ensures rest[j].contentHeader.None? {
      assert rest[j] == frames[i + 1 + j];
    }
  }

  /** A frame with a content header leaves that header and exactly its own blocks. */
  lemma HeaderFrameResets(st: PumpState, frames: seq<ContentData>, useContentBitrate: bool)
    requires frames != [] && frames[|frames| - 1].contentHeader.Some?
    ensures ApplyAll(st, frames, useContentBitrate).header == frames[|frames| - 1].contentHeader
    ensures ApplyAll(st, frames, useContentBitrate).contents == Chunks(frames[|frames| - 1])
  {
  }

  lemma ChunksAfterHeader(d: ContentData, rest: seq<ContentData>)
    ensures AllChunks([d] + rest) == Chunks(d) + AllChunks(rest)
  {
    AllChunksConcat([d], rest);
    assert AllChunks([d]) == Chunks(d) by {
      assert [d][..0] == [];
    }
  }

  lemma LastPositionOfFrame(st: PumpState, d: ContentData, useContentBitrate: bool)
    ensures ApplyData(st, d, useContentBitrate).lastPosition ==
              if Announced(d) == [] then st.lastPosition else Announced(d)[|Announced(d)| - 1]
  {
  }

  /** `lastPosition` is the last position announced by a header or a block, or stays as it was. */
  lemma {:induction false} LastPositionIsLastAnnounced(st: PumpState, frames: seq<ContentData>, useContentBitrate: bool)
    ensures ApplyAll(st, frames, useContentBitrate).lastPosition ==
              if AllAnnounced(frames) == [] then st.lastPosition else AllAnnounced(frames)[|AllAnnounced(frames)| - 1]
    decreases |frames|
  {
    if frames != [] {
      var front := frames[..|frames| - 1];
      LastPositionIsLastAnnounced(st, front, useContentBitrate);
      LastPositionOfFrame(ApplyAll(st, front, useContentBitrate), frames[|frames| - 1], useContentBitrate);
    }
  }

  /** Without content bitrate the channel's bitrate atom survives any number of frames. */
  lemma {:induction false} BitrateKeptWhilePumping(st: PumpState, frames: seq<ContentData>)
    ensures BitrateName in ApplyAll(st, frames, false).info.extra <==> BitrateName in st.info.extra
    ensures BitrateName in st.info.extra ==> ApplyAll(st, frames, false).info.extra[BitrateName] == st.info.extra[BitrateName]
    ensures ApplyAll(st, frames, false).info.Bitrate() == st.info.Bitrate()
    decreases |frames|
  {
    if frames != [] {
      var front := frames[..|frames| - 1];
      BitrateKeptWhilePumping(st, front);
      var d := frames[|frames| - 1];
      if d.channelInfo.Some? {
        BitrateKept(ApplyAll(st, front, false).info, d.channelInfo.value);
      }
    }
  }

  /** A header at 1000, then blocks at 1100 and 1200: `lastPosition` is 1200 and the channel holds the two blocks. */
  lemma HeaderThenTwoBlocks(st: PumpState, h: Content, c1: Content, c2: Content, useContentBitrate: bool)
    requires h.position == 1000 && c1.position == 1100 && c2.position == 1200
    ensures var frames := [ContentData(None, None, Some(h), None),
                           ContentData(None, None, None, Some([c1])),
                           ContentData(None, None, None, Some([c2]))];
            var r := ApplyAll(st, frames, useContentBitrate);
            r.header == Some(h) && r.contents == [c1, c2] && r.lastPosition == 1200
  {
    var frames := [ContentData(None, None, Some(h), None),
                   ContentData(None, None, None, Some([c1])),
                   ContentData(None, None, None, Some([c2]))];
    var f1, f2 := frames[..1], frames[..2];
    assert f1[..0] == [] && f2[..1] == f1 && frames[..2] == f2;
    var s1 := ApplyAll(st, f1, useContentBitrate);
    assert f1[0] == frames[0] && ApplyAll(st, f1[..0], useContentBitrate) == st;
    assert s1 == ApplyData(st, frames[0], useContentBitrate);
    assert s1.header == Some(h) && s1.contents == [] && s1.lastPosition == 1000;
    var s2 := ApplyAll(st, f2, useContentBitrate);
    assert s2 == ApplyData(s1, frames[1], useContentBitrate);
    assert s2.header == Some(h) && s2.contents == [c1] && s2.lastPosition == 1100;
    var s3 := ApplyAll(st, frames, useContentBitrate);
    assert s3 == ApplyData(s2, frames[2], useContentBitrate);
    assert s3.contents == [c1] + [c2];
  }

  // ---------------------------------------------------------------------------
  // The request

  /** Lines 155-158: `DnsSafeHost`, with `:port` unless the port is -1 or 80. */
  function HostHeaderValue(uri: Uri): (host: string)
    ensures |host| >= |uri.host| && host[..|uri.host|] == uri.host
    ensures |host| > |uri.host| <==> uri.port != -1 && uri.port != 80
    ensures |host| > |uri.host| ==> host[|uri.host|..] == ":" + IntToString(uri.port)
  {
    if uri.port != -1 && uri.port != 80 then uri.host + ":" + IntToString(uri.port) else uri.host
  }

  /** The port after the colon reads back as the URI's port. */
  lemma HostPortReadsBack(uri: Uri)
    requires uri.port >= 0 && uri.port != 80
    ensures var host := HostHeaderValue(uri);
            AllDigits(host[|uri.host| + 1..]) && DigitsValue(host[|uri.host| + 1..]) == uri.port
  {
    var host := HostHeaderValue(uri);
    assert host[|uri.host| + 1..] == IntToString(uri.port);
  }

  function HeaderText(name: string, value: string): string
  {
    name + ": " + value
  }

  /** The five lines of the request of lines 159-168, without their CR LF. */
  function RequestLines(uri: Uri, agentName: string): seq<string>
  {
    [ "GET " + uri.pathAndQuery + " HTTP/1.1",
      HeaderText("Host", HostHeaderValue(uri)),
      HeaderText("User-Agent", "NSPlayer (" + agentName + ")"),
      HeaderText("Connection", "close"),
      HeaderText("Pragma", "stream-switch") ]
  }

  /** Each line followed by CR LF, then the empty line. */
  function FrameText(lines: seq<string>): string
  {
    if lines == [] then "\r\n" else lines[0] + "\r\n" + FrameText(lines[1..])
  }

  /** Lines 159-168: the request text, each line ended by CR LF and the head by an empty line. */
  function RequestText(uri: Uri, agentName: string): string
  {
    FrameText(RequestLines(uri, agentName))
  }

  function EncodeAll(lines: seq<string>): (r: seq<seq<Byte>>)
    ensures |r| == |lines| && forall i :: 0 <= i < |lines| ==> r[i] == Encode(lines[i])
  {
    seq(|lines|, i requires 0 <= i < |lines| => Encode(lines[i]))
  }

  lemma EncodeCRLF()
    ensures Encode("\r\n") == [CR, LF]
  {
  }

  lemma EncodeAllTail(lines: seq<string>)
    requires lines != []
    ensures EncodeAll(lines)[1..] == EncodeAll(lines[1..])
  {
  }

  lemma {:induction false} EncodeFrameText(lines: seq<string>)
    ensures Encode(FrameText(lines)) == Framed(EncodeAll(lines))
    decreases |lines|
  {
    EncodeCRLF();
    if lines != [] {
      var e := EncodeAll(lines);
      EncodeFrameText(lines[1..]);
      EncodeConcat(lines[0] + "\r\n", FrameText(lines[1..]));
      EncodeConcat(lines[0], "\r\n");
      EncodeAllTail(lines);
      assert Framed(e) == e[0] + [CR, LF] + Framed(e[1..]);
    }
  }

  /** Text that fits on one line of a head: ASCII without a carriage return. */
  predicate OneLine(s: string)
  {
    IsAscii(s) && forall i :: 0 <= i < |s| ==> s[i] != '\r'
  }

  lemma OneLineConcat(a: string, b: string)
    requires OneLine(a) && OneLine(b)
    ensures OneLine(a + b)
  {
  }

  lemma RequestLiteralsAreOneLine()
    ensures OneLine("GET ") && OneLine(" HTTP/1.1") && OneLine(": ") && OneLine(":") && OneLine("Host")
  {
  }

  lemma AgentLiteralsAreOneLine()
    ensures OneLine("User-Agent") && OneLine("NSPlayer (") && OneLine(")")
  {
  }

  lemma FixedLiteralsAreOneLine()
    ensures OneLine("Connection") && OneLine("close")
    ensures OneLine("Pragma") && OneLine("stream-switch")
  {
  }

  lemma HeaderTextIsOneLine(name: string, value: string)
    requires OneLine(name) && OneLine(value) && name != []
    ensures HeaderText(name, value) != [] && OneLine(HeaderText(name, value))
  {
    RequestLiteralsAreOneLine();
    OneLineConcat(name, ": ");
    OneLineConcat(name + ": ", value);
  }

  lemma RequestLinesAreOneLine(uri: Uri, agentName: string)
    requires OneLine(uri.pathAndQuery) && OneLine(uri.host) && OneLine(agentName)
    ensures var ls := RequestLines(uri, agentName);
            forall i :: 0 <= i < |ls| ==> ls[i] != [] && OneLine(ls[i])
  {
    RequestLiteralsAreOneLine();
    AgentLiteralsAreOneLine();
    FixedLiteralsAreOneLine();
    var host := HostHeaderValue(uri);
    if uri.port != -1 && uri.port != 80 {
      OneLineConcat(uri.host, ":");
      OneLineConcat(uri.host + ":", IntToString(uri.port));
    }
    OneLineConcat("GET ", uri.pathAndQuery);
    OneLineConcat("GET " + uri.pathAndQuery, " HTTP/1.1");
    var agent := "NSPlayer (" + agentName + ")";
    OneLineConcat("NSPlayer (", agentName);
    OneLineConcat("NSPlayer (" + agentName, ")");
    HeaderTextIsOneLine("Host", host);
    HeaderTextIsOneLine("User-Agent", agent);
    HeaderTextIsOneLine("Connection", "close");
    HeaderTextIsOneLine("Pragma", "stream-switch");
    var ls := RequestLines(uri, agentName);
    assert ls[0] != [] && OneLine(ls[0]);
    assert ls[1] == HeaderText("Host", host);
    assert ls[2] == HeaderText("User-Agent", agent);
  }

  lemma OneLineEncodes(s: string)
    requires OneLine(s) && s != []
    ensures Encode(s) != [] && NoCRLF(Encode(s)) && Decode(Encode(s)) == s
  {
    DecodeEncode(s);
  }

  lemma EncodeAllOneLine(ls: seq<string>)
    requires forall i :: 0 <= i < |ls| ==> ls[i] != [] && OneLine(ls[i])
    ensures ValidLines(EncodeAll(ls)) && DecodeAll(EncodeAll(ls)) == ls
  {
    var bs := EncodeAll(ls);
    forall i | 0 <= i < |bs| ensures bs[i] != [] && NoCRLF(bs[i]) && Decode(bs[i]) == ls[i] {
      OneLineEncodes(ls[i]);
    }
  }

  /** The request is a well-formed head: the response reader, run on it, returns its five lines and consumes all of it. */
  lemma RequestReadsBack(uri: Uri, agentName: string)
    requires OneLine(uri.pathAndQuery) && OneLine(uri.host) && OneLine(agentName)
    requires |Encode(RequestText(uri, agentName))| <= MaxHeadBytes + 1
    ensures ReadSpec(Encode(RequestText(uri, agentName))) ==
              Head(RequestLines(uri, agentName), |Encode(RequestText(uri, agentName))|)
  {
    var ls := RequestLines(uri, agentName);
    RequestLinesAreOneLine(uri, agentName);
    EncodeFrameText(ls);
    EncodeAllOneLine(ls);
    var bs := EncodeAll(ls);
    ReadRoundTrip(bs, []);
    assert Framed(bs) + [] == Framed(bs);
  }

  lemma HostLineIsAHeader(uri: Uri)
    requires forall i :: 0 <= i < |uri.host| ==> uri.host[i] != '\n'
    requires uri.host == [] || !IsRegexSpace(uri.host[0])
    ensures MatchHeaderLine(HeaderText("Host", HostHeaderValue(uri))) == Some(HeaderLine("Host", HostHeaderValue(uri)))
  {
    var host := HostHeaderValue(uri);
    forall i | 0 <= i < |host| ensures host[i] != '\n' {
      if i >= |uri.host| {
        assert host[i] == host[|uri.host|..][i - |uri.host|];
      }
    }
    if uri.host == [] && host != [] {
      assert host[0] == host[|uri.host|..][0] == ':';
    }
    assert HasNoSpace("Host");
    HeaderLineRoundTrip("Host", host);
  }

  lemma AgentLineIsAHeader(agentName: string)
    requires forall i :: 0 <= i < |agentName| ==> agentName[i] != '\n'
    ensures var agent := "NSPlayer (" + agentName + ")";
            MatchHeaderLine(HeaderText("User-Agent", agent)) == Some(HeaderLine("User-Agent", agent))
  {
    var agent := "NSPlayer (" + agentName + ")";
    assert agent[0] == 'N';
    forall i | 0 <= i < |agent| ensures agent[i] != '\n' {
      if 10 <= i < 10 + |agentName| {
        assert agent[i] == agentName[i - 10];
      }
    }
    assert HasNoSpace("User-Agent");
    HeaderLineRoundTrip("User-Agent", agent);
  }

  lemma ConnectionLineIsAHeader()
    ensures MatchHeaderLine(HeaderText("Connection", "close")) == Some(HeaderLine("Connection", "close"))
  {
    HeaderLineRoundTrip("Connection", "close");
  }

  lemma PragmaLineIsAHeader()
    ensures MatchHeaderLine(HeaderText("Pragma", "stream-switch")) == Some(HeaderLine("Pragma", "stream-switch"))
  {
    HeaderLineRoundTrip("Pragma", "stream-switch");
  }

  /** The four header lines of the request are recognised as headers with these names and values. */
  lemma RequestHeaders(uri: Uri, agentName: string)
    requires forall i :: 0 <= i < |uri.host| ==> uri.host[i] != '\n'
    requires uri.host == [] || !IsRegexSpace(uri.host[0])
    requires forall i :: 0 <= i < |agentName| ==> agentName[i] != '\n'
    ensures var ls := RequestLines(uri, agentName);
            && MatchHeaderLine(ls[1]) == Some(HeaderLine("Host", HostHeaderValue(uri)))
            && MatchHeaderLine(ls[2]) == Some(HeaderLine("User-Agent", "NSPlayer (" + agentName + ")"))
            && MatchHeaderLine(ls[3]) == Some(HeaderLine("Connection", "close"))
            && MatchHeaderLine(ls[4]) == Some(HeaderLine("Pragma", "stream-switch"))
  {
    var ls := RequestLines(uri, agentName);
    assert ls[1] == HeaderText("Host", HostHeaderValue(uri));
    assert ls[2] == HeaderText("User-Agent", "NSPlayer (" + agentName + ")");
    HostLineIsAHeader(uri);
    AgentLineIsAHeader(agentName);
    ConnectionLineIsAHeader();
    PragmaLineIsAHeader();
  }

  // ---------------------------------------------------------------------------
  // The run

  /** Lines 174-177: the stop reason of a status other than 200. */
  function StopReasonForStatus(status: int): (r: StopReason)
    ensures r == OffAir <==> status == 404
    ensures r == OffAir || r == UnavailableError
  {
    if status == 404 then OffAir else UnavailableError
  }

  /** How the pump loop ends once the frames are used up. */
  datatype PumpEnd = ReaderFailed(failure: Failure) | StoppedBy(reason: StopReason)

  /** An exception of the content reader stops with `ConnectionError` (lines 201-210); a `Stop` from elsewhere with its own reason. */
  function EndReason(end: PumpEnd): StopReason
  {
    match end
    case ReaderFailed(_) => ConnectionError
    case StoppedBy(r) => r
  }

  datatype Session = Session(writeFails: bool, responseBytes: seq<Byte>, frames: seq<ContentData>, end: PumpEnd)

  /** The pump loop runs: the request was written and the server answered 200. */
  predicate Pumps(s: Session)
  {
    !s.writeFails && ReadSpec(s.responseBytes).Head? && Classify(ReadSpec(s.responseBytes).lines).status == 200
  }

  /** The reason of the first `Stop` a run asks for. */
  function RunStopReason(s: Session): StopReason
  {
    if s.writeFails then ConnectionError
    else match ReadSpec(s.responseBytes)
      case Threw(_) => ConnectionError
      case Head(lines, _) =>
        var code := Classify(lines).status;
        if code != 200 then StopReasonForStatus(code)
        else EndReason(s.end)
  }

  /** Lines 174-177 and 201-210: which stop reason a run ends with. */
  lemma StopReasons(s: Session)
    ensures !Pumps(s) && (s.writeFails || ReadSpec(s.responseBytes).Threw?) ==> RunStopReason(s) == ConnectionError
    ensures !Pumps(s) && !s.writeFails && ReadSpec(s.responseBytes).Head? ==>
              (RunStopReason(s) == OffAir <==> Classify(ReadSpec(s.responseBytes).lines).status == 404) &&
              (RunStopReason(s) == OffAir || RunStopReason(s) == UnavailableError)
    ensures Pumps(s) && s.end.ReaderFailed? ==> RunStopReason(s) == ConnectionError
    ensures Pumps(s) && s.end.StoppedBy? ==> RunStopReason(s) == s.end.reason
  {
  }

  /** `ServerName` of the report (lines 235-238): the `SERVER` header, or empty. */
  function ServerNameOf(head: Option<ResponseHead>): (name: string)
    ensures head.Some? && "SERVER" in head.value.headers ==> name == head.value.headers["SERVER"]
    ensures head.None? || "SERVER" !in head.value.headers ==> name == ""
  {
    if head.Some? && "SERVER" in head.value.headers then head.value.headers["SERVER"] else ""
  }

  /** The server name is the value of the last line that defines `Server`, in any letter case. */
  lemma ServerNameFromLastServerLine(lines: seq<string>, i: nat)
    requires i < |lines| && DefinesHeader(lines[i], "SERVER")
    requires forall j :: i < j < |lines| ==> !DefinesHeader(lines[j], "SERVER")
    ensures ServerNameOf(Some(Classify(lines))) == MatchHeaderLine(lines[i]).value.value
  {
    LastHeaderWins(lines, "SERVER", i);
  }

  lemma NoServerLine(lines: seq<string>)
    requires forall j :: 0 <= j < |lines| ==> !DefinesHeader(lines[j], "SERVER")
    ensures ServerNameOf(Some(Classify(lines))) == ""
  {
    HeaderPresence(lines, "SERVER");
  }

  /** Line 245: the remote host is local exactly when there is an endpoint and its address is site-local. */
  function RemoteHostStatusOf(endpoint: Option<EndPoint>, isSiteLocal: IPAddress -> bool): (r: RemoteHostStatus)
    ensures r == Local <==> endpoint.Some? && isSiteLocal(endpoint.value.address)
  {
    if endpoint.Some? && isSiteLocal(endpoint.value.address) then Local else Unclassified
  }

  // ---------------------------------------------------------------------------
  // The objects

  /** The part of `Channel` the source connection writes. */
  class Channel {
    var channelInfo: ChannelInfo
    var channelTrack: ChannelTrack
    var contentHeader: Option<Content>
    var contents: seq<Content>

    constructor (info: ChannelInfo, track: ChannelTrack)
      ensures channelInfo == info && channelTrack == track && contentHeader == None && contents == []
    {
      channelInfo := info;
      channelTrack := track;
      contentHeader := None;
      contents := [];
    }
  }

  class HTTPSourceConnection {
    const channel: Channel
    const sourceUri: Uri
    /** `PeerCast.AgentName`. */
    const agentName: string
    const useContentBitrate: bool
    /** `connection.RemoteEndPoint` of the connected socket, `None` without one. */
    const remoteEndPoint: Option<EndPoint>
    var response: HTTPResponse?
    var lastPosition: int
    var status: ConnectionStatus
    var isStopped: bool
    var stoppedReason: StopReason

    /** Lines 117-127. */
    constructor (channel: Channel, sourceUri: Uri, agentName: string, useContentBitrate: bool, remoteEndPoint: Option<EndPoint>)
      ensures this.channel == channel && this.sourceUri == sourceUri && this.agentName == agentName
      ensures this.useContentBitrate == useContentBitrate && this.remoteEndPoint == remoteEndPoint
      ensures response == null && lastPosition == 0 && status == Idle && !isStopped && stoppedReason == NoReason
    {
      this.channel := channel;
      this.sourceUri := sourceUri;
      this.agentName := agentName;
      this.useContentBitrate := useContentBitrate;
      this.remoteEndPoint := remoteEndPoint;
      response := null;
      lastPosition := 0;
      status := Idle;
      isStopped := false;
      stoppedReason := NoReason;
    }

    function State(): PumpState
      reads this, channel
    {
      PumpState(channel.channelInfo, channel.channelTrack, channel.contentHeader, channel.contents, lastPosition)
    }

    /** `SourceConnectionBase.Stop`: the first reason is kept. */
    method Stop(reason: StopReason)
      modifies this
      ensures isStopped
      ensures stoppedReason == if old(isStopped) then old(stoppedReason) else reason
      ensures response == old(response) && lastPosition == old(lastPosition) && status == old(status)
    {
      if !isStopped {
        isStopped := true;
        stoppedReason := reason;
      }
    }

    /** The body of the pump loop (lines 182-198). */
    method ApplyContentData(data: ContentData)
      modifies this, channel
      ensures State() == ApplyData(old(State()), data, useContentBitrate)
      ensures response == old(response) && status == old(status)
      ensures isStopped == old(isStopped) && stoppedReason == old(stoppedReason)
    {
      if data.channelInfo.Some? {
        channel.channelInfo := UpdateChannelInfo(channel.channelInfo, data.channelInfo.value, useContentBitrate);
      }
      if data.channelTrack.Some? {
        channel.channelTrack := UpdateChannelTrack(channel.channelTrack, data.channelTrack.value);
      }
      if data.contentHeader.Some? {
        channel.contentHeader := data.contentHeader;
        channel.contents := [];
        lastPosition := data.contentHeader.value.position;
      }
      if data.contents.Some? {
        AddContents(data.contents.value);
      }
    }

    /** Lines 194-197: each block appended to the channel, `lastPosition` following it. */
    method AddContents(cs: seq<Content>)
      modifies this, channel
      ensures State() == AppendContents(old(State()), cs)
      ensures response == old(response) && status == old(status)
      ensures isStopped == old(isStopped) && stoppedReason == old(stoppedReason)
    {
      for j := 0 to |cs|
        invariant State() == AppendContents(old(State()), cs[..j])
        invariant response == old(response) && status == old(status)
        invariant isStopped == old(isStopped) && stoppedReason == old(stoppedReason)
      {
        assert cs[..j + 1] == cs[..j] + [cs[j]];
        channel.contents := channel.contents + [cs[j]];
        lastPosition := cs[j].position;
      }
      assert cs[..|cs|] == cs;
    }

    /**
     * Lines 151-212. Returns the bytes of the request it writes. Every
     * exception the source catches stops the connection with
     * `ConnectionError`, and the status is `Error` when it returns.
     */
    method DoProcess(session: Session) returns (request: seq<Byte>)
      modifies this, channel
      ensures request == Encode(RequestText(sourceUri, agentName))
      ensures status == Error && isStopped
      ensures stoppedReason == if old(isStopped) then old(stoppedReason) else RunStopReason(session)
      ensures State() == if !old(isStopped) && Pumps(session)
                         then ApplyAll(old(State()), session.frames, useContentBitrate)
                         else old(State())
      ensures session.writeFails ==> response == old(response)
      ensures !session.writeFails ==> (response != null <==> ReadSpec(session.responseBytes).Head?)
      ensures !session.writeFails && response != null ==>
                fresh(response) && response.Head() == Classify(ReadSpec(session.responseBytes).lines)
    {
      status := Connecting;
      request := Encode(RequestText(sourceUri, agentName));
      if session.writeFails {
        Stop(ConnectionError);
        status := Error;
        return;
      }
      response := null;
      var read := ReadAsync(session.responseBytes);
      if read.ReadFailed? {
        Stop(ConnectionError);
        status := Error;
        return;
      }
      var resp := read.response;
      response := resp;
      if resp.status != 200 {
        Stop(StopReasonForStatus(resp.status));
      }
      status := Connected;
      Pump(session.frames, session.end);
      status := Error;
    }

    /** Lines 180-199, with the exception that ends them: the pump loop, over the frames and then the end of the session. */
    method Pump(frames: seq<ContentData>, end: PumpEnd)
      modifies this, channel
      ensures isStopped
      ensures stoppedReason == if old(isStopped) then old(stoppedReason) else EndReason(end)
      ensures State() == if old(isStopped) then old(State()) else ApplyAll(old(State()), frames, useContentBitrate)
      ensures response == old(response) && status == old(status)
    {
      var i := 0;
      while !isStopped
        invariant i <= |frames|
        invariant State() == ApplyAll(old(State()), frames[..i], useContentBitrate)
        invariant response == old(response) && status == old(status)
        invariant old(isStopped) ==> i == 0 && isStopped && stoppedReason == old(stoppedReason)
        invariant !old(isStopped) && isStopped ==> i == |frames| && stoppedReason == EndReason(end)
        decreases |frames| - i + (if isStopped then 0 else 1)
      {
        if i < |frames| {
          assert frames[..i + 1][..i] == frames[..i];
          ApplyContentData(frames[i]);
          i := i + 1;
        } else {
          match end {
            case ReaderFailed(_) => Stop(ConnectionError);
            case StoppedBy(reason) => Stop(reason);
          }
        }
      }
      assert old(isStopped) ==> frames[..i] == [];
      assert !old(isStopped) ==> frames[..i] == frames;
    }

    /** Lines 232-252: the monitoring report of the connection. */
    function GetConnectionInfo(isSiteLocal: IPAddress -> bool): (info: ConnectionInfo)
      reads this, response
      ensures info.protocolName == "HTTP Source" && info.connectionType == Source
      ensures info.status == status && info.remoteName == sourceUri.text && info.remoteEndPoint == remoteEndPoint
      ensures info.remoteHostStatus == Local <==> remoteEndPoint.Some? && isSiteLocal(remoteEndPoint.value.address)
      ensures info.contentPosition == Some(lastPosition)
      ensures response == null ==> info.agentName == ""
      ensures response != null ==> info.agentName == ServerNameOf(Some(response.Head()))
    {
      var head := if response == null then None else Some(response.Head());
      ConnectionInfo(
        "HTTP Source",
        Source,
        status,
        sourceUri.text,
        remoteEndPoint,
        RemoteHostStatusOf(remoteEndPoint, isSiteLocal),
        Some(lastPosition),
        ServerNameOf(head))
    }
  }
}
