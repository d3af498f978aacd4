# HTTP source stream of PeerCastStation, in Dafny

This project models the HTTP source stream of PeerCastStation
(`PeerCastStation/PeerCastStation.HTTP/HTTPSourceStream.cs`). A PeerCast
servent uses it to pull a channel from an HTTP server. The model covers:

- **`HTTPResponseReader.ReadAsync`**: reads the response head one byte at a
  time. It splits the bytes into CR LF lines, stops at the empty line and
  throws `InvalidDataException` once more than 4096 bytes have been read
  without completing a line. It throws `EndOfStreamException` when the
  stream ends first.
- **`HTTPResponse`**: built from those lines. A line that matches
  `^HTTP/(1.\d) (\d+) .*$` sets `Version` and `Status`. Any other line that
  matches `^(\S*):\s*(.*)\s*$` stores its value under the upper-cased name.
- **`HTTPSourceConnection`**: one attempt. It writes the GET request,
  reads the response and stops with `OffAir` on 404 and with
  `UnavailableError` on any other status but 200. It then pumps the frames
  the content reader decodes into the channel, and turns every exception
  it catches into `ConnectionError`. It also merges channel information and
  track atoms, and reports itself as a `ConnectionInfo`.
- **`HTTPSourceStream`**: the supervisor. It decides once whether the
  stream's own bitrate may replace the channel's. It creates the
  connections, reports a status while it has none, and decides what to do
  when a connection stops: nothing, stop for good, or reconnect after
  3000 ms.

Modules, in dependency order:

- `Core`: shared value types (`Option`, `StopReason`, `ConnectionStatus`,
  `ConnectionInfo`, the caught exceptions as `Failure`).
- `Text`: bytes, UTF-8 encoding, the regex character classes, decimal digits.
- `Atoms`: atom collections and the two channel-metadata merges.
- `HttpResponse`: the two recognisers, the reference fold `Classify` and the
  class `HTTPResponse`.
- `ResponseReader`: the byte loop `ReadHead`, its reference definition
  `ReadSpec`, and the round trip and failure lemmas.
- `SourceConnection`: frames, the request, the class `Channel` and the class
  `HTTPSourceConnection`.
- `SourceStream`: the class `HTTPSourceStream` and its stop policy.

The socket is a parameter. A `Session` lists four things:

- whether writing the request fails;
- the bytes the server answers with;
- the frames the content reader returns;
- how the pump ends once they are used up: a reader exception, or a `Stop`
  from elsewhere.

Behaviour of the code that is easy to misread, and that the model follows:

- The 4096-byte limit is cumulative. `length` is never reset, so a head
  succeeds exactly when all of it, the empty line included, fits in 4097
  bytes. Short lines do not help (`CumulativeCap`, `TwoShortLinesExceedTheCap`).
- Any line of the head may be a status line, not only the first, and the
  last one wins (`LastStatusLineWins`). After the version, `(\d+)` takes a
  run of any length of digits, not exactly three.
- A header value is not trimmed at the end: the greedy `(.*)` keeps
  trailing whitespace (`HeaderLineShape`).
- After a non-200 status the connection still sets `Connected` before the
  loop sees `IsStopped`. The status is `Error` when `DoProcess` returns.

## Model

| member | source | states |
|---|---|---|
| ResponseReader.ReadHead | PeerCastStation/PeerCastStation.HTTP/HTTPSourceStream.cs:59-78 | The byte loop returns exactly what the line-by-line reference reader gives. That is the lines up to the empty line, InvalidData once the cumulative count passes 4096 without a line end, or EndOfStream. |
| ResponseReader.ReadAsync | PeerCastStation/PeerCastStation.HTTP/HTTPSourceStream.cs:57-80 | It succeeds exactly when the reference reader finds a head. A fresh HTTPResponse is then built from the lines read; otherwise the call fails with the reference reader's exception. |
| ResponseReader.ReadRoundTrip | PeerCastStation/PeerCastStation.HTTP/HTTPSourceStream.cs:63-78 | Framed lines of at most 4097 bytes in all read back as those lines, and reading stops right after the empty line, whatever follows. |
| ResponseReader.CumulativeCap | PeerCastStation/PeerCastStation.HTTP/HTTPSourceStream.cs:69-77 | A framed head longer than 4097 bytes always fails with InvalidData, however short its lines are. |
| ResponseReader.TwoShortLinesExceedTheCap | PeerCastStation/PeerCastStation.HTTP/HTTPSourceStream.cs:69-77 | Two lines of 3000 bytes each fail with InvalidData. |
| ResponseReader.ReadSucceedsOnlyOnAHead | PeerCastStation/PeerCastStation.HTTP/HTTPSourceStream.cs:63-79 | A successful read has consumed exactly a framed head of CR-LF-free, non-empty lines of at most 4097 bytes, and returns those lines in order. |
| ResponseReader.ReadStopsAtTheHead | PeerCastStation/PeerCastStation.HTTP/HTTPSourceStream.cs:63-78 | The bytes after the consumed head do not change the result. |
| ResponseReader.ShortInputIsNeverInvalid | PeerCastStation/PeerCastStation.HTTP/HTTPSourceStream.cs:75-77 | Input of at most 4096 bytes never fails with InvalidData. |
| ResponseReader.NoTerminatorIsInvalid | PeerCastStation/PeerCastStation.HTTP/HTTPSourceStream.cs:70-77 | 4097 bytes without a CR LF among them fail with InvalidData. |
| ResponseReader.TruncatedHeadIsEndOfStream | PeerCastStation/PeerCastStation.HTTP/HTTPSourceStream.cs:64-67 | A head within the limit that is cut anywhere before its last byte fails with EndOfStream. |
| ResponseReader.ReadLinesFailures | PeerCastStation/PeerCastStation.HTTP/HTTPSourceStream.cs:63-78 | The reader throws only InvalidData or EndOfStream. |
| HttpResponse.MatchStatusLine | PeerCastStation/PeerCastStation.HTTP/HTTPSourceStream.cs:41-43 | A recognised status line starts with `HTTP/` followed by a version `1`, any character but a line feed, and a digit. |
| HttpResponse.StatusLineRoundTrip | PeerCastStation/PeerCastStation.HTTP/HTTPSourceStream.cs:41-43 | `HTTP/v code reason` is recognised with version v and status code for every version, code and single-line reason. |
| HttpResponse.StatusLineShape | PeerCastStation/PeerCastStation.HTTP/HTTPSourceStream.cs:41-43 | A recognised status line is `HTTP/`, its version, a space, a digit run whose value is the status, a space and the rest of one line. |
| HttpResponse.MatchHeaderLine | PeerCastStation/PeerCastStation.HTTP/HTTPSourceStream.cs:45-46 | A recognised header name has no whitespace and its value has no line feed. |
| HttpResponse.HeaderLineRoundTrip | PeerCastStation/PeerCastStation.HTTP/HTTPSourceStream.cs:45-46 | `Name: value` is recognised with that name and value when the name has no whitespace and the value is one line that does not start with whitespace. |
| HttpResponse.HeaderLineShape | PeerCastStation/PeerCastStation.HTTP/HTTPSourceStream.cs:45-46 | A recognised header line is its name, a colon, whitespace, its value and trailing whitespace. |
| HttpResponse.HTTPResponse.constructor | PeerCastStation/PeerCastStation.HTTP/HTTPSourceStream.cs:36-49 | After the loop over the lines, Version, Status and Headers are the reference fold of the lines. |
| HttpResponse.RunConcat | PeerCastStation/PeerCastStation.HTTP/HTTPSourceStream.cs:39-48 | Folding two runs of lines is folding the second on the result of the first. |
| HttpResponse.IgnoredLineIsInvisible | PeerCastStation/PeerCastStation.HTTP/HTTPSourceStream.cs:39-48 | A line that matches neither pattern can be dropped anywhere without changing the response. |
| HttpResponse.HeaderKeysAreUpperCase | PeerCastStation/PeerCastStation.HTTP/HTTPSourceStream.cs:46 | No key of the header map has a character that ToUpperInvariant would change, Latin-1 letters included. |
| HttpResponse.HeaderPresence | PeerCastStation/PeerCastStation.HTTP/HTTPSourceStream.cs:45-47 | A key is in the header map exactly when some line that is not a status line is a header line whose upper-cased name is the key. |
| HttpResponse.LastHeaderWins | PeerCastStation/PeerCastStation.HTTP/HTTPSourceStream.cs:46 | For names equal after upper-casing, the value of the last line is kept. |
| HttpResponse.LastStatusLineWins | PeerCastStation/PeerCastStation.HTTP/HTTPSourceStream.cs:41-44 | Version and Status come from the last status line. |
| HttpResponse.NoStatusLine | PeerCastStation/PeerCastStation.HTTP/HTTPSourceStream.cs:36-44 | Without a status line, Version stays null and Status stays 0. |
| Text.Encode | PeerCastStation/PeerCastStation.HTTP/HTTPSourceStream.cs:169 | UTF-8 gives at least one byte per character, and exactly the character codes for ASCII text. |
| Text.EncodeConcat | PeerCastStation/PeerCastStation.HTTP/HTTPSourceStream.cs:169 | Encoding a concatenation is concatenating the encodings. |
| Text.DecodeEncode | PeerCastStation/PeerCastStation.HTTP/HTTPSourceStream.cs:71 | Decoding the encoding of ASCII text gives the text back. |
| Text.DigitsValueOfNatToString | PeerCastStation/PeerCastStation.HTTP/HTTPSourceStream.cs:43 | Parsing the decimal text of a number gives the number back. |
| Text.UpperIsUpperCase | PeerCastStation/PeerCastStation.HTTP/HTTPSourceStream.cs:46 | ToUpperInvariant leaves no character with an upper-case form, and applying it twice is applying it once. |
| Text.UpperChar | PeerCastStation/PeerCastStation.HTTP/HTTPSourceStream.cs:46 | A character changes exactly when it has an upper-case form (`a`-`z`, `µ`, `à`-`þ` except `÷`, `ÿ`), and its image has none. |
| HttpResponse.AccentedNameIsUpperCased | PeerCastStation/PeerCastStation.HTTP/HTTPSourceStream.cs:45-46 | The line `é: x` gives the header map `{"É": "x"}`. |
| Atoms.Update | PeerCastStation/PeerCastStation.HTTP/HTTPSourceStream.cs:221 | The result has the keys of both collections; incoming values win, and the base keeps the rest. |
| Atoms.RemoveByName | PeerCastStation/PeerCastStation.HTTP/HTTPSourceStream.cs:219 | Exactly the given name is removed, and every other value is kept. |
| Atoms.UpdateChannelInfo | PeerCastStation/PeerCastStation.HTTP/HTTPSourceStream.cs:214-223 | Incoming atoms win, except the bitrate atom when the content bitrate is not used; the channel's own atoms fill the rest. The key set is stated exactly. |
| Atoms.UpdateChannelTrack | PeerCastStation/PeerCastStation.HTTP/HTTPSourceStream.cs:225-230 | Incoming track atoms win, and the channel's fill the rest. |
| Atoms.UpdateIdempotent | PeerCastStation/PeerCastStation.HTTP/HTTPSourceStream.cs:221 | Overlaying the same atoms twice is overlaying them once. |
| Atoms.UpdateAssociative | PeerCastStation/PeerCastStation.HTTP/HTTPSourceStream.cs:221 | Two overlays in a row are one overlay of their merge. |
| Atoms.UpdateWithNothing | PeerCastStation/PeerCastStation.HTTP/HTTPSourceStream.cs:221 | An empty update changes nothing. |
| Atoms.UpdateChannelInfoIdempotent | PeerCastStation/PeerCastStation.HTTP/HTTPSourceStream.cs:214-223 | Receiving the same channel information twice is receiving it once. |
| Atoms.UpdateChannelTrackIdempotent | PeerCastStation/PeerCastStation.HTTP/HTTPSourceStream.cs:225-230 | Receiving the same track twice is receiving it once. |
| Atoms.BitrateKept | PeerCastStation/PeerCastStation.HTTP/HTTPSourceStream.cs:218-220 | Without the content bitrate, the channel's bitrate atom is kept or stays absent, whatever arrives. |
| Atoms.BitrateTaken | PeerCastStation/PeerCastStation.HTTP/HTTPSourceStream.cs:214-223 | With the content bitrate, an announced bitrate replaces the channel's. |
| Atoms.BitrateIsTheOnlyDifference | PeerCastStation/PeerCastStation.HTTP/HTTPSourceStream.cs:218-221 | The two merges agree on every atom but the bitrate. |
| SourceConnection.EmptyFrameChangesNothing | PeerCastStation/PeerCastStation.HTTP/HTTPSourceStream.cs:182-198 | A frame whose four fields are null leaves the channel and the position as they were. |
| SourceConnection.ApplyAllConcat | PeerCastStation/PeerCastStation.HTTP/HTTPSourceStream.cs:180-199 | Pumping two runs of frames is pumping the second after the first. |
| SourceConnection.ContentsWithoutHeader | PeerCastStation/PeerCastStation.HTTP/HTTPSourceStream.cs:193-198 | Without a content header, the header stays and every block is appended in arrival order. |
| SourceConnection.ContentsSinceLastHeader | PeerCastStation/PeerCastStation.HTTP/HTTPSourceStream.cs:188-198 | After the last content header, the channel holds that header and exactly the blocks that came with it and after it, in order. |
| SourceConnection.LastPositionOfFrame | PeerCastStation/PeerCastStation.HTTP/HTTPSourceStream.cs:188-198 | One frame leaves the position of its last block, else of its header, else the previous position. |
| SourceConnection.LastPositionIsLastAnnounced | PeerCastStation/PeerCastStation.HTTP/HTTPSourceStream.cs:188-198 | After any frames, lastPosition is the last position a header or block announced, or is unchanged when none did. |
| SourceConnection.BitrateKeptWhilePumping | PeerCastStation/PeerCastStation.HTTP/HTTPSourceStream.cs:182-184 | Without the content bitrate, the channel's bitrate survives any number of frames. |
| SourceConnection.HeaderThenTwoBlocks | PeerCastStation/PeerCastStation.HTTP/HTTPSourceStream.cs:188-198 | A header at 1000 then blocks at 1100 and 1200 leave position 1200 and exactly those two blocks. |
| SourceConnection.HostHeaderValue | PeerCastStation/PeerCastStation.HTTP/HTTPSourceStream.cs:155-158 | The Host value is the host name, followed by `:port` exactly when the port is neither -1 nor 80. |
| SourceConnection.HostPortReadsBack | PeerCastStation/PeerCastStation.HTTP/HTTPSourceStream.cs:156-157 | The digits after the colon read back as the URI's port. |
| SourceConnection.RequestReadsBack | PeerCastStation/PeerCastStation.HTTP/HTTPSourceStream.cs:159-169 | The encoded request is a well-formed head. The response reader returns its five lines and consumes all of it. |
| SourceConnection.RequestHeaders | PeerCastStation/PeerCastStation.HTTP/HTTPSourceStream.cs:161-164 | The four header lines of the request are recognised as Host, User-Agent, Connection and Pragma with their values. |
| SourceConnection.StopReasonForStatus | PeerCastStation/PeerCastStation.HTTP/HTTPSourceStream.cs:174-177 | A status other than 200 gives OffAir exactly for 404, and UnavailableError otherwise. |
| SourceConnection.StopReasons | PeerCastStation/PeerCastStation.HTTP/HTTPSourceStream.cs:172-210 | Failed writes, failed reads and reader exceptions stop with ConnectionError; a non-200 status stops with its reason; an outside Stop keeps its own reason. |
| SourceConnection.ServerNameFromLastServerLine | PeerCastStation/PeerCastStation.HTTP/HTTPSourceStream.cs:235-238 | The reported server name is the value of the last line that defines `Server`, in any letter case. |
| SourceConnection.NoServerLine | PeerCastStation/PeerCastStation.HTTP/HTTPSourceStream.cs:236-237 | Without a Server line, the reported server name is empty. |
| SourceConnection.RemoteHostStatusOf | PeerCastStation/PeerCastStation.HTTP/HTTPSourceStream.cs:245 | The remote host is Local exactly when there is an endpoint and its address is site-local. |
| SourceConnection.HTTPSourceConnection.constructor | PeerCastStation/PeerCastStation.HTTP/HTTPSourceStream.cs:117-127 | A new connection has no response, position 0, is not stopped, and keeps the bitrate decision it was given. |
| SourceConnection.HTTPSourceConnection.ApplyContentData | PeerCastStation/PeerCastStation.HTTP/HTTPSourceStream.cs:182-198 | After one frame, the channel and the position are the reference update of the old ones, and nothing else changes. |
| SourceConnection.HTTPSourceConnection.AddContents | PeerCastStation/PeerCastStation.HTTP/HTTPSourceStream.cs:194-197 | The blocks are appended to the channel's contents in order, and lastPosition becomes the last block's, or is unchanged for none; nothing else changes. |
| SourceConnection.HTTPSourceConnection.Pump | PeerCastStation/PeerCastStation.HTTP/HTTPSourceStream.cs:180-199 | Unless already stopped, every frame is applied in order; the loop ends stopped with the end's reason, or with the earlier one. |
| SourceConnection.HTTPSourceConnection.DoProcess | PeerCastStation/PeerCastStation.HTTP/HTTPSourceStream.cs:151-212 | It writes the UTF-8 request and ends in Error, stopped. The stop reason is the run's first. The channel changes only when the answer is 200. The response is the parsed head, or null when reading fails. |
| SourceConnection.HTTPSourceConnection.GetConnectionInfo | PeerCastStation/PeerCastStation.HTTP/HTTPSourceStream.cs:232-252 | The report carries the connection's status, URI, endpoint, locality, position and the SERVER header, or an empty server name without a response. |
| SourceStream.TrustedBitrateIsKept | PeerCastStation/PeerCastStation.HTTP/HTTPSourceStream.cs:266 | When the decision is not to use the stream's bitrate, the channel announces a bitrate other than 0, and that bitrate survives any number of frames. |
| SourceStream.AnnouncedBitrateIsTaken | PeerCastStation/PeerCastStation.HTTP/HTTPSourceStream.cs:266 | When the decision is to use the stream's bitrate, the channel's bitrate is 0, and a frame that announces a bitrate sets the channel's to it. |
| SourceStream.DisconnectedStatus | PeerCastStation/PeerCastStation.HTTP/HTTPSourceStream.cs:276-280 | UserReconnect reports Connecting, UserShutdown reports Idle, anything else reports Error, and never Connected. |
| SourceStream.OnConnectionStopped | PeerCastStation/PeerCastStation.HTTP/HTTPSourceStream.cs:304-316 | UserReconnect is ignored, UserShutdown stops the stream with that reason, and every other reason reconnects after 3000 ms. |
| SourceStream.StatusFollowsPolicy | PeerCastStation/PeerCastStation.HTTP/HTTPSourceStream.cs:304-316 | The status reported while disconnected agrees with the action taken: Connecting with ignoring, Idle with stopping, Error with reconnecting. |
| SourceStream.HTTPSourceStream.constructor | PeerCastStation/PeerCastStation.HTTP/HTTPSourceStream.cs:262-267 | The bitrate decision is made once: use the content bitrate exactly when the channel's bitrate is 0. |
| SourceStream.HTTPSourceStream.CreateConnection | PeerCastStation/PeerCastStation.HTTP/HTTPSourceStream.cs:299-302 | A fresh connection for the given URI that shares the stream's channel, agent and bitrate decision. |
| SourceStream.HTTPSourceStream.GetConnectionInfo | PeerCastStation/PeerCastStation.HTTP/HTTPSourceStream.cs:269-297 | It forwards the connection's report when there is a connection. Otherwise it reports the disconnected status of the last stop reason, with no endpoint and no position. |
| SourceStream.AnswerDecidesTheRun | PeerCastStation/PeerCastStation.HTTP/HTTPSourceStream.cs:173-179 | For a server that answers with a status line alone, the pump runs exactly when the code is 200. The stop reason is that of the code otherwise. |
| SourceStream.NotFoundReconnects | PeerCastStation/PeerCastStation.HTTP/HTTPSourceStream.cs:174-176 | `HTTP/1.1 404 Not Found` stops with OffAir, reports Error and reconnects after 3000 ms. |
| SourceStream.UnavailableReconnects | PeerCastStation/PeerCastStation.HTTP/HTTPSourceStream.cs:174-176 | `HTTP/1.1 503 Service Unavailable` stops with UnavailableError and reconnects after 3000 ms. |

## Left out

- `DoConnect` (lines 129-149): TCP connection, DNS and socket timeouts. The connected socket is the `Session` parameter, and its remote endpoint is a constructor argument.
- Asynchrony, cancellation tokens and the read and write timeouts. A timeout (`OperationCanceledException`) is one of the reader failures that end the pump. Cancellation during the head read is not separated from other failures.
- `Task.Delay(3000).ContinueWith(Reconnect)` in `OnConnectionStopped`: reduced to the decision `ReconnectAfter(3000)`. The timer and `Reconnect` are not modelled.
- Logging (`Logger.Error`, `Logger.Debug`): it has no effect on state.
- `RecvRate` and `SendRate` in the report, and its two null fields: not modelled. The rates are measured by the socket layer.
- `HTTPSourceStreamFactory` and `HTTPSourceStreamPlugin` (lines 83-107 and 324-341): plugin registration only.
- `SourceConnectionBase`, `SourceStreamBase` and `AtomCollection` are not part of this model, and of `Channel` only the four properties the pump writes are modelled. The parts used here are stated as assumptions:
  - `Stop` sets `IsStopped` and keeps the first reason.
  - A new connection starts `Idle`.
  - `Channel.Contents` is an unbounded sequence.
  - `Channel.ChannelInfo` and `Channel.ChannelTrack` are never null (lines 183, 186, 216 and 227 dereference them).
  - `AtomCollection.Update` is a right-biased map overlay.
- SourceStream.HTTPSourceStream.constructor: the channel's information is never null, so the constructor always takes the `ChannelInfo.Bitrate==0` branch of line 266. The `ChannelInfo==null` case is stated only on the function `UseContentBitrate`, which it calls.
- `IPAddress.IsSiteLocal`: a function parameter, left uninterpreted.
- `System.Uri`: reduced to its printed form, `DnsSafeHost`, `Port` and `PathAndQuery`.
- `IContentReader.ReadAsync`: its results are the session's frames. An outside `Stop` is observed only after the frames are used up, not between two frames.
- Exceptions other than `InvalidDataException`, `OperationCanceledException` and `IOException`: they escape `DoProcess` in the source and are not modelled.
- HttpResponse.MatchStatusLine: `Int32.Parse` overflow is not modelled. The status is the unbounded value of the digit run, so codes over 2147483647 are not rejected.
- Text.Decode: decodes each byte as the character with the same code. This agrees with `Encoding.UTF8.GetString` on ASCII bytes only, so non-ASCII heads decode differently.
- The regular expressions and the upper-case mapping are exact only for characters below U+0100, the only ones decoding yields. `RegexOptions.IgnoreCase` on the header pattern does not change what it matches.
