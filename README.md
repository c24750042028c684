# Streaming video, tic-tac-toe and Kindle clippings, modelled in Dafny

This project models the sequential core of three small Rust programs. It
proves what their code promises.

**Streaming video server and client.** The server answers RTSP 1.0
requests (RFC 2326) and sends JPEG frames as RTP packets (RFC 3550).
The model covers:

- `rtp.rs`: the RTP packet. It has the 12-byte fixed header of section
  5.1 of RFC 3550, whose first two bytes are bit-packed and whose other
  fields are big-endian.
- `rtsp.rs`: the RTSP request and response parsers. They read the
  Request-Line (section 6.1 of RFC 2326), the Status-Line (section 7.1)
  and the CSeq, Session and Transport headers (sections 12.17, 12.37
  and 12.39).
- `video_stream.rs`: the frame reader. A video file is a run of records.
  Each record has a 5-byte ASCII decimal length, then that many bytes of
  JPEG.
- `server_logic.rs`: the server's connection worker. It holds the
  Init/Ready/Playing state machine, the replies it writes, and the loop
  that sends frames as RTP packets.
- `client_logic.rs`: the client's command handler and its GUI rules.
  The handler numbers requests with CSeq, formats them and acts on the
  replies. The GUI enables buttons by state and sends TEARDOWN when the
  window closes. The listener turns RTP datagrams into frames.

Modules `Rtp`, `Rtsp`, `Video`, `Server` and `Client` follow these files.
Module `Streaming` proves how the two ends fit together:

- every request the client writes parses back to what it means;
- every reply the server writes parses back to its code, CSeq and
  session;
- for each command, the client's view of the outcome agrees with the
  server's;
- every frame the sender reads arrives at the listener in order.

**Tic-tac-toe.** There are three variants of a 3x3 game:

- a library with a `TicTacToe` type (`TicTacToeLib`);
- a console program (`TicTacToeConsole`);
- a program converted from Python (`TicTacToeConverted`).

Module `Grid` holds what they share:

- the eight winning lines;
- the count of taken cells;
- the reading of "row column" from a line of input;
- the turn-by-turn game as a reference function `Play`.

Each program's loop is proved to play exactly that game.

**Kindle clippings.** The tool splits a Kindle `My Clippings.txt` file
into entries and groups them by book. It then appends to one
reStructuredText file per book every note whose hash is not yet in the
output directory. Each note is marked with a `.. <hash> ;` comment line,
which a later run rescans. The model spans three modules:

- `Clippings`: string splitting and the short title.
- `ClippingsParse`: parsing of one entry, and grouping.
- `ClippingsOutput`: writing, and the rescan of hashes.

The main theorem is that a second run over the same books writes
nothing.

Modules `Wrappers` and `Text` hold `Option`/`Result` and the Rust string
functions the code relies on. Those are `str::lines`, `split_whitespace`,
`trim`, `split_once`, `split`, lower-casing (modelled for ASCII letters
only), and unsigned decimal parsing and printing.

### Where the protocol's intent and the code differ

The model follows the code in each case. The connection worker and its
loop use PLAY as written. The corrected PLAY appears only as the
corrected half of the first finding.

- TEARDOWN does not return the server to Init. The code checks only the
  session id, replies 200 and leaves `state` as it was. In Init it
  accepts `Session: 0` (`Server.TeardownKeepsState`).
- A second PLAY after PAUSE cannot resume. The first PLAY moved the video
  stream into the sender task, so the second one panics (see Findings).
  At most one sender is ever started on a connection
  (`Server.ServeInvariant`, `Server.SecondPlayNeverHandled`).
- TEARDOWN and PAUSE do not stop the connection loop directly. They call
  `notify_one` on the one `Notify` that the sender and the connection
  loop share. The loop can be the waiter that wakes, and then it ends
  (`Event.ShutdownNotified`). A task spawned by PLAY also calls
  `notify_one` whenever the sender ends: after PAUSE, at the end of the
  stream or after a failed send. With the sender gone, the connection
  loop is the only waiter, so it usually ends soon after.
- A request the worker refuses gets 500 with CSeq 0, not the request's
  CSeq. The client only logs the mismatch, and then fails on the status.
- The client does not pick a free RTP port. It binds the `rtp_port`
  given on its command line, the one it sent in `client_port=`.

## Model

| member | source | states |
|---|---|---|
| Rtp.PutBe16 | projects/Streaming-Video-Server-and-Client/src/rtp.rs:58 | writes the 16-bit value big-endian at the given offset of the header buffer and changes no other byte |
| Rtp.PutBe32 | projects/Streaming-Video-Server-and-Client/src/rtp.rs:59-61 | writes the 32-bit value big-endian at the given offset and changes no other byte |
| Rtp.Encode | projects/Streaming-Video-Server-and-Client/src/rtp.rs:51-68 | the packet is the header layout `Encoded(p)`: byte 0 is version, padding, extension and cc; byte 1 is marker and payload type; then sequence, timestamp and ssrc big-endian. Its length is 12 plus the payload, with the payload copied unchanged after the header |
| Rtp.Decode | projects/Streaming-Video-Server-and-Client/src/rtp.rs:71-108 | succeeds iff there are at least 12 bytes and the top two bits of byte 0 are 2. Fewer bytes give TooSmall(length), even for the empty input. Any other version gives InvalidVersion(v). On success the version is 2 and the payload is every byte after the header |
| Rtp.Be16RoundTrip | projects/Streaming-Video-Server-and-Client/src/rtp.rs:58-89 | reading back the two big-endian bytes of a 16-bit value gives the value |
| Rtp.Be32RoundTrip | projects/Streaming-Video-Server-and-Client/src/rtp.rs:59-91 | reading back the four big-endian bytes of a 32-bit value gives the value |
| Rtp.FirstByteFields | projects/Streaming-Video-Server-and-Client/src/rtp.rs:54-88 | for an encodable packet, byte 0 carries the version in its top two bits, padding in bit 5, extension in bit 4 and cc in the low four bits |
| Rtp.SecondByteFields | projects/Streaming-Video-Server-and-Client/src/rtp.rs:56-93 | byte 1 carries the marker in bit 7 and the payload type in the low seven bits |
| Rtp.DecodeEncoded | projects/Streaming-Video-Server-and-Client/src/rtp.rs:51-108 | decode(encode(p)) == p for every packet with version 2, cc < 16 and payload type < 128 (encode masks nothing, so these are needed) |
| Rtp.EncodeDecoded | projects/Streaming-Video-Server-and-Client/src/rtp.rs:51-108 | every byte string that decodes is encodable and re-encodes to exactly itself, so the codec is byte-exact |
| Rtp.DecodeNew | projects/Streaming-Video-Server-and-Client/src/rtp.rs:29-48 | a packet built by `new` decodes back to itself whenever its payload type is below 128 |
| Rtp.UnmaskedCcCorruptsExtension | projects/Streaming-Video-Server-and-Client/src/rtp.rs:54-55 | encode does not mask cc: cc = 16 spills into the extension bit and decodes as extension = true, cc = 0 |
| Rtsp.RequestTypeOf | projects/Streaming-Video-Server-and-Client/src/rtsp.rs:54-60 | only the exact words SETUP, PLAY, PAUSE, TEARDOWN name a method, and `as_str` of the result gives the word back |
| Rtsp.AsStrRoundTrip | projects/Streaming-Video-Server-and-Client/src/rtsp.rs:18-60 | every method's `as_str` parses back to that method |
| Rtsp.HeaderField | projects/Streaming-Video-Server-and-Client/src/rtsp.rs:68-70 | a line yields a header field iff it contains ':' |
| Rtsp.HeaderLine | projects/Streaming-Video-Server-and-Client/src/rtsp.rs:68-70 | a line "Name: value" yields the key lower-cased and the trimmed value |
| Rtsp.UntilBlank | projects/Streaming-Video-Server-and-Client/src/rtsp.rs:64-67 | the request's header lines are the longest prefix with no empty line, ending just before the first empty line |
| Rtsp.InsertAllAppend | projects/Streaming-Video-Server-and-Client/src/rtsp.rs:64-71 | inserting the fields of a + b is inserting those of a, then those of b |
| Rtsp.InsertAllKeeps | projects/Streaming-Video-Server-and-Client/src/rtsp.rs:64-71 | lines that do not carry a key leave that key's presence and value as they were |
| Rtsp.LastValueWins | projects/Streaming-Video-Server-and-Client/src/rtsp.rs:69-70 | a repeated header keeps the value of its last line |
| Rtsp.RequestHeadersStopAtBlank | projects/Streaming-Video-Server-and-Client/src/rtsp.rs:65-67 | request header scanning stops at the first empty line: nothing after it counts |
| Rtsp.UntilBlankPrefix | projects/Streaming-Video-Server-and-Client/src/rtsp.rs:65-67 | the lines before the first empty line are exactly the header lines |
| Rtsp.ResponseHeadersSkipBlank | projects/Streaming-Video-Server-and-Client/src/rtsp.rs:123-128 | response header scanning does not stop at an empty line: the lines after it still count |
| Rtsp.FirstWithPrefix | projects/Streaming-Video-Server-and-Client/src/rtsp.rs:81-83 | gives the index of a Transport part whose trimmed form starts with `client_port=`, or the number of parts |
| Rtsp.FirstWithPrefixIsFirst | projects/Streaming-Video-Server-and-Client/src/rtsp.rs:81-83 | no earlier part starts with the prefix, so `find_map` takes the first |
| Rtsp.ClientPortOf | projects/Streaming-Video-Server-and-Client/src/rtsp.rs:80-85 | a Transport with no `client_port=` part gives Ok(None), not an error. Otherwise the first such part decides: its trimmed value is the port when it parses as a u16 (so below 2^16), and an InvalidClientPort error naming that value when it does not |
| Rtsp.RequestFromHeaders | projects/Streaming-Video-Server-and-Client/src/rtsp.rs:73-98 | a missing CSeq is MissingCSeq. The result is Ok iff CSeq parses as u32, Session (when present) parses as u32, and the client port (when Transport is present) parses as u16. The request then holds those values, and Transport and Session are present exactly when their headers are |
| Rtsp.RequestOf | projects/Streaming-Video-Server-and-Client/src/rtsp.rs:41-99 | empty input is EmptyRequest. A parsed request's method and file name are the first two tokens of the first line, which has at least three tokens; CSeq and session are u32 |
| Rtsp.RequestOfLine | projects/Streaming-Video-Server-and-Client/src/rtsp.rs:41-72 | a first line of method, file and version leads to RequestFromHeaders on the headers up to the first empty line |
| Rtsp.ParseRequest | projects/Streaming-Video-Server-and-Client/src/rtsp.rs:41-99 | the parser's loop over lines computes exactly `RequestOf` |
| Rtsp.VersionIsNotChecked | projects/Streaming-Video-Server-and-Client/src/rtsp.rs:52 | two requests that differ only in the third token of the first line parse the same |
| Rtsp.ResponseFromHeaders | projects/Streaming-Video-Server-and-Client/src/rtsp.rs:130-143 | Ok iff CSeq and Session are both present and parse as u32, and the response then carries those values and the status code |
| Rtsp.ResponseOf | projects/Streaming-Video-Server-and-Client/src/rtsp.rs:112-143 | empty input is EmptyResponse. A parsed response's status code is the second token of the first line, parsed as u16 |
| Rtsp.ParseResponse | projects/Streaming-Video-Server-and-Client/src/rtsp.rs:112-143 | the parser's loop over lines computes exactly `ResponseOf` |
| Text.Lines | projects/Streaming-Video-Server-and-Client/src/rtsp.rs:42 | `str::lines`: no line contains a line break, and only the empty text has no lines |
| Text.LinesCRLF | projects/Streaming-Video-Server-and-Client/src/rtsp.rs:42 | a line ended by "\r\n" comes out without the carriage return, followed by the lines of the rest |
| Text.Tokens | projects/Streaming-Video-Server-and-Client/src/rtsp.rs:46 | `split_whitespace`: every token is non-empty and free of whitespace |
| Text.TokensCons | projects/Streaming-Video-Server-and-Client/src/rtsp.rs:46 | a token followed by whitespace or nothing comes first, then the tokens of the rest |
| Text.Trim | projects/Streaming-Video-Server-and-Client/src/rtsp.rs:69 | `trim`: the result is no longer and neither starts nor ends with whitespace |
| Text.TrimEmpty | projects/Streaming-Video-Server-and-Client/src/rtsp.rs:69 | trimming gives the empty string iff the text is all whitespace |
| Text.SplitOnce | projects/Streaming-Video-Server-and-Client/src/rtsp.rs:68 | `split_once`: none iff the character is absent; otherwise the text is the part before its first occurrence, the character and the rest |
| Text.AsciiLower | projects/Streaming-Video-Server-and-Client/src/rtsp.rs:69 | lower-casing maps each ASCII capital to its small letter and keeps every other character |
| Text.Split | projects/Streaming-Video-Server-and-Client/src/rtsp.rs:82 | `split`: at least one part, and no part contains the separator |
| Text.StripPrefix | projects/Streaming-Video-Server-and-Client/src/rtsp.rs:83 | `strip_prefix` succeeds iff the text starts with the prefix, and the text is the prefix followed by the result |
| Text.ParseUnsigned | projects/Streaming-Video-Server-and-Client/src/rtsp.rs:73-76 | `parse` into an unsigned type: a parsed value is below the type's limit, the empty text never parses, and a parsed text starts with a digit or '+' |
| Text.ParseDecimal | projects/Streaming-Video-Server-and-Client/src/rtsp.rs:73-76 | every value below the limit, written in decimal, parses back to itself |
| Text.PaddedDecimalValue | projects/Streaming-Video-Server-and-Client/src/video_stream.rs:3-4 | a zero-padded decimal of the given width has the value it was written from |
| Video.LengthPrefix | projects/Streaming-Video-Server-and-Client/src/video_stream.rs:36-47 | the prefix's length is its ASCII text parsed as usize, and non-ASCII bytes give none |
| Video.NextFrameOf | projects/Streaming-Video-Server-and-Client/src/video_stream.rs:28-54 | fewer than 5 bytes left is end of stream (Ok(None)), not an error. An unparsable prefix is InvalidData. A valid prefix followed by fewer bytes than it announces is UnexpectedEof. Otherwise the frame is exactly the announced number of bytes after the prefix, and the cursor moves past both |
| Video.ReadAll | projects/Streaming-Video-Server-and-Client/src/video_stream.rs:28-54 | reading frames to the end stops at end of stream or at an error |
| Video.ReadAllAt | projects/Streaming-Video-Server-and-Client/src/video_stream.rs:28-54 | after one step that yields a frame, the remaining frames are that frame followed by the frames after the new position; any other step yields no more frames |
| Video.VideoStream.constructor | projects/Streaming-Video-Server-and-Client/src/video_stream.rs:18-24 | a new stream is at position 0 with frame number 0 |
| Video.VideoStream.NextFrame | projects/Streaming-Video-Server-and-Client/src/video_stream.rs:28-59 | the result and the distance moved are `NextFrameOf` of the unread bytes, and the frame number goes up by exactly 1 on a frame and is unchanged on end of stream or an error |
| Video.Record | projects/Streaming-Video-Server-and-Client/src/video_stream.rs:3-4 | a record is the 5-byte length followed by the frame |
| Video.PrefixOfRecord | projects/Streaming-Video-Server-and-Client/src/video_stream.rs:36-47 | the zero-padded 5-digit prefix of a record parses back to the frame's length |
| Video.NextFrameOfRecord | projects/Streaming-Video-Server-and-Client/src/video_stream.rs:28-54 | reading at the start of a record yields its frame and moves past it |
| Video.ReadAllOfRecord | projects/Streaming-Video-Server-and-Client/src/video_stream.rs:28-54 | the frames of a record followed by more bytes are that frame followed by the frames of the rest |
| Video.ReadAllFileOf | projects/Streaming-Video-Server-and-Client/src/video_stream.rs:3-54 | a file built from records yields exactly their frames in order and then end of stream |
| Video.SpacePaddedPrefixIsInvalid | projects/Streaming-Video-Server-and-Client/src/video_stream.rs:41-47 | a space-padded prefix such as "  123" is InvalidData, since `parse` does not trim |
| Video.PlusSignedPrefixIsAccepted | projects/Streaming-Video-Server-and-Client/src/video_stream.rs:41-47 | a prefix "+0003" is accepted as length 3, since `parse` takes a leading '+' |
| Server.LinesOfReply | projects/Streaming-Video-Server-and-Client/src/server_logic.rs:205-209 | the reply text splits into its status line, CSeq line, Session line and a blank line |
| Server.StatusLineTokens | projects/Streaming-Video-Server-and-Client/src/server_logic.rs:206 | the status line's second token is the code in decimal |
| Server.ReplyHeaders | projects/Streaming-Video-Server-and-Client/src/server_logic.rs:207-208 | the reply's header lines give exactly cseq and session |
| Server.ReplyParses | projects/Streaming-Video-Server-and-Client/src/server_logic.rs:205-213 | the response parser recovers exactly the code, CSeq and session id of every reply |
| Server.ServeWaiting | projects/Streaming-Video-Server-and-Client/src/server_logic.rs:58-95 | a run that ends still waiting for input has seen only received requests |
| Server.ServeFirst | projects/Streaming-Video-Server-and-Client/src/server_logic.rs:58-95 | a closed connection, a failed or non-UTF-8 read, or the shutdown signal ends the loop with nothing written. A received text gets its replies, then the loop goes on, unless handling it panicked |
| Server.ProcessStep | projects/Streaming-Video-Server-and-Client/src/server_logic.rs:98-105 | a step keeps the session sane and writes only replies the parser can read back. Sane means: the session id is 0 before SETUP and drawn from [100000, 999999] after it; the state is Init exactly while no SETUP has succeeded; the worker holds the stream only between SETUP and the first PLAY, which takes it; and at most one sender is started |
| Server.ReceiveStep | projects/Streaming-Video-Server-and-Client/src/server_logic.rs:73-86 | the same for a received text, parsed or not |
| Server.RespondStep | projects/Streaming-Video-Server-and-Client/src/server_logic.rs:75-86 | the same for a parse result, including the 400 reply to an unparsable request |
| Server.HandleStep | projects/Streaming-Video-Server-and-Client/src/server_logic.rs:80-86 | the same for a parsed request, and every request gets at least one reply (a 500 reply when it is refused) |
| Server.ServeInvariant | projects/Streaming-Video-Server-and-Client/src/server_logic.rs:58-95 | over any run of events, with PLAY as written, the session stays sane (so at most one RTP sender is started) and all replies are readable |
| Server.RepliesParse | projects/Streaming-Video-Server-and-Client/src/server_logic.rs:58-213 | every reply written during a connection parses back to its code, CSeq and session id |
| Server.FailedStepChangesNothing | projects/Streaming-Video-Server-and-Client/src/server_logic.rs:109-196 | a refused request changes no field of the session and writes nothing itself |
| Server.TeardownKeepsState | projects/Streaming-Video-Server-and-Client/src/server_logic.rs:193-202 | TEARDOWN never changes the state, and a fresh worker accepts TEARDOWN with `Session: 0` |
| Server.PlayPanicsOnlyWithoutPort | projects/Streaming-Video-Server-and-Client/src/server_logic.rs:147-159 | with the corrected PLAY, and a session that keeps its stream from SETUP on, the only panic left is a SETUP that named no client port |
| Server.SecondPlayNeverHandled | projects/Streaming-Video-Server-and-Client/src/server_logic.rs:147-159 | with PLAY as written, once a sender has started, no later PLAY is handled: it is refused, or it passes the checks and panics on the missing stream |
| Server.PlayAfterPausePanics | projects/Streaming-Video-Server-and-Client/src/server_logic.rs:155-169 | in the code as written, SETUP, PLAY, PAUSE and then PLAY panics on the missing stream, after replying 200 |
| Server.PlayPauseRoundsSucceed | projects/Streaming-Video-Server-and-Client/src/server_logic.rs:138-190 | with the corrected PLAY, any number of PLAY/PAUSE rounds succeed. Each round starts one sender, and the session ends Ready with its stream |
| Server.ServerWorker.constructor | projects/Streaming-Video-Server-and-Client/src/server_logic.rs:43-54 | a new worker is in Init with session 0, no stream, no destination port and nothing written |
| Server.ServerWorker.ReplyRtsp | projects/Streaming-Video-Server-and-Client/src/server_logic.rs:205-213 | appends a reply with the given code, status and CSeq and the worker's current session id |
| Server.ServerWorker.HandleSetup | projects/Streaming-Video-Server-and-Client/src/server_logic.rs:108-135 | the new state, outcome and replies are `SetupStep`: outside Init it is an error and changes nothing. In Init with an openable file the state becomes Ready, with a session id in [100000, 999999], the request's client port, a 200 with the request's CSeq, and a fresh stream at position 0. With a file that cannot be opened it replies 404 and stays in Init |
| Server.ServerWorker.HandlePlay | projects/Streaming-Video-Server-and-Client/src/server_logic.rs:138-174 | `PlayStepAsWritten`: Ready and the matching session give Playing and 200. Then the stream is moved out of the worker into the sender, which also gets the destination port, and the worker is left with no stream. A missing stream or port panics after the 200. Anything else is an error with the state unchanged |
| Server.ServerWorker.HandlePause | projects/Streaming-Video-Server-and-Client/src/server_logic.rs:177-190 | `PauseStep`: Playing and the matching session give Ready, 200 and a shutdown signal. Anything else is an error with nothing changed |
| Server.ServerWorker.HandleTeardown | projects/Streaming-Video-Server-and-Client/src/server_logic.rs:193-202 | `TeardownStep`: the matching session in any state gives 200 and a shutdown signal, with the state kept |
| Server.ServerWorker.ProcessRequest | projects/Streaming-Video-Server-and-Client/src/server_logic.rs:98-105 | dispatches on the method, exactly as `Process`, with PLAY as written |
| Server.ServerWorker.HandleText | projects/Streaming-Video-Server-and-Client/src/server_logic.rs:73-86 | parses a received text and replies 400 with CSeq 0 when it does not parse, or 500 with CSeq 0 when processing fails, exactly as `Receive` |
| Server.ServerWorker.Turn | projects/Streaming-Video-Server-and-Client/src/server_logic.rs:60-93 | one pass of the connection loop keeps the run equal to `Serve` over the remaining events |
| Server.ServerWorker.HandleConnection | projects/Streaming-Video-Server-and-Client/src/server_logic.rs:58-95 | the connection loop writes exactly the replies of `Serve` and ends the way `Serve` does, keeping what was written before |
| Server.ServeReceived | projects/Streaming-Video-Server-and-Client/src/server_logic.rs:73-91 | a received text contributes its replies and the loop continues, unless handling panicked, which ends the run |
| Server.ServeStopped | projects/Streaming-Video-Server-and-Client/src/server_logic.rs:63-92 | any other event ends the run with what was written so far |
| Server.PacketDecodes | projects/Streaming-Video-Server-and-Client/src/server_logic.rs:230-235 | every packet the sender builds decodes back to itself, with the frame as payload and payload type 26 (JPEG) |
| Server.AdvanceFirst | projects/Streaming-Video-Server-and-Client/src/server_logic.rs:228 | one more frame read moves the u32 frame counter, with wrap-around, one step further |
| Server.SentOneMore | projects/Streaming-Video-Server-and-Client/src/server_logic.rs:226-240 | sending the next frame extends the record of sent packets: packet k carries frame k, the frame number after k+1 reads, and that tick's timestamp |
| Server.SentFrameAt | projects/Streaming-Video-Server-and-Client/src/server_logic.rs:226-240 | packet k of the record carries frame k, frame number start + k + 1 and the timestamp of the k-th wake |
| Server.DatagramsOneMore | projects/Streaming-Video-Server-and-Client/src/server_logic.rs:235-237 | sending the encoded packet extends the datagram record |
| Server.Delivered | projects/Streaming-Video-Server-and-Client/src/server_logic.rs:226-240 | sending the next packet keeps both records |
| Server.NextOutgoing | projects/Streaming-Video-Server-and-Client/src/server_logic.rs:228-235 | at end of stream there are no frames left. Otherwise the packet carries the next frame, the new frame number and the timestamp, and the rest of the frames remain |
| Server.SendTick | projects/Streaming-Video-Server-and-Client/src/server_logic.rs:222-256 | one wake of the sender sends frame i exactly when it is a tick whose send succeeds and a frame is left. Otherwise the loop ends |
| Server.SendLoop | projects/Streaming-Video-Server-and-Client/src/server_logic.rs:216-260 | the packets sent are the file's frames in order, numbered and timestamped as above. Each went out on a tick whose send succeeded, and the sender stops only at the first shutdown, failed send or end of stream (or when the wakes run out). When no send fails and no shutdown comes first, all frames are sent |
| Server.SendRtp | projects/Streaming-Video-Server-and-Client/src/server_logic.rs:216-260 | the same, starting from the stream's current position and frame number: only successful sends deliver, and the sender stops at the first shutdown, failed send or end of stream |
| Text.TwoWords | projects/Streaming-Video-Server-and-Client/src/client_logic.rs:243 | two tokens joined by a space split back into those two tokens |
| Client.ThreeWords | projects/Streaming-Video-Server-and-Client/src/client_logic.rs:243-252 | three tokens joined by spaces split back into those three |
| Client.RequestLineTokens | projects/Streaming-Video-Server-and-Client/src/client_logic.rs:243-264 | the request line's tokens are the method, the file name and RTSP/1.0 |
| Client.LinesOfRequest | projects/Streaming-Video-Server-and-Client/src/client_logic.rs:240-268 | the request text splits into the request line, its header lines and a blank line |
| Client.SplitTransport | projects/Streaming-Video-Server-and-Client/src/client_logic.rs:243 | the Transport value splits at ';' into "RTP/UDP" and " client_port=<port>" |
| Client.TransportPort | projects/Streaming-Video-Server-and-Client/src/client_logic.rs:243 | the server reads the client's port back from the Transport value |
| Client.RequestHeadersOf | projects/Streaming-Video-Server-and-Client/src/client_logic.rs:240-268 | SETUP carries exactly CSeq and Transport. PLAY, PAUSE and TEARDOWN carry exactly CSeq and Session |
| Client.SetupFields | projects/Streaming-Video-Server-and-Client/src/client_logic.rs:241-249 | SETUP's headers give the CSeq, the Transport and the client port, and no session |
| Client.SessionFields | projects/Streaming-Video-Server-and-Client/src/client_logic.rs:250-267 | the other requests' headers give the CSeq and the session id, and no Transport |
| Client.FieldsOfHeaders | projects/Streaming-Video-Server-and-Client/src/client_logic.rs:240-268 | the headers of every request give back its method, file, CSeq, and session or port |
| Client.RequestParses | projects/Streaming-Video-Server-and-Client/src/client_logic.rs:240-268 | the server's parser recovers the method, file name (when it has no whitespace), CSeq, and session id or client port of every request the client writes |
| Client.NextSeq | projects/Streaming-Video-Server-and-Client/src/client_logic.rs:237 | the counter stays a u32 |
| Client.NextSeqWraps | projects/Streaming-Video-Server-and-Client/src/client_logic.rs:237 | the increment is +1 modulo 2^32 |
| Client.Command | projects/Streaming-Video-Server-and-Client/src/client_logic.rs:228-311 | every command increments the counter first and sends a request with the new value as CSeq and the stored session |
| Client.CommandNumbers | projects/Streaming-Video-Server-and-Client/src/client_logic.rs:197-238 | with requests numbered 1, 2, 3, … so far, the next one carries the next number (mod 2^32) |
| Client.UnreadFails | projects/Streaming-Video-Server-and-Client/src/client_logic.rs:274-278 | a closed connection, a failed read and a non-UTF-8 read each end the command with their own error |
| Client.CommandFails | projects/Streaming-Video-Server-and-Client/src/client_logic.rs:274-287 | the command fails iff the read gives no reply, the reply does not parse, or the status is not 200. A read with no reply fails with that read's error. A failure changes no session, GUI message, listener or signal |
| Client.MismatchOnlyWarns | projects/Streaming-Video-Server-and-Client/src/client_logic.rs:282-284 | a response CSeq that differs only adds a warning; the outcome is the same as with the right CSeq |
| Client.CommandAccepted | projects/Streaming-Video-Server-and-Client/src/client_logic.rs:289-310 | on 200: SETUP stores the response's session id and reports Ready; PLAY reports Playing and starts a listener; PAUSE reports Ready and signals shutdown; TEARDOWN reports Init, signals shutdown and ends the loop |
| Client.RepliesOfReads | projects/Streaming-Video-Server-and-Client/src/client_logic.rs:274-281 | every reply read from the 1024-byte buffer carries a u32 session |
| Client.CommandSessionsFit | projects/Streaming-Video-Server-and-Client/src/client_logic.rs:291 | the stored session stays a u32 |
| Client.RunKeeps | projects/Streaming-Video-Server-and-Client/src/client_logic.rs:201-223 | over the command loop the requests stay numbered and the session stays a u32 |
| Client.RunWrites | projects/Streaming-Video-Server-and-Client/src/client_logic.rs:201-223 | the loop sends at most one request per command, in command order, keeping what was sent before |
| Client.RunStops | projects/Streaming-Video-Server-and-Client/src/client_logic.rs:201-223 | an error ends the loop after the failing request. Stopping early without an error means the last request sent was TEARDOWN |
| Client.SentRequestsParse | projects/Streaming-Video-Server-and-Client/src/client_logic.rs:237-268 | request k carries CSeq k + 1 (mod 2^32) and parses back to what it means |
| Client.RequestsNumbered | projects/Streaming-Video-Server-and-Client/src/client_logic.rs:197-238 | from a fresh client, request k answers command k and carries CSeq k + 1 (mod 2^32) |
| Client.ClientWorker.constructor | projects/Streaming-Video-Server-and-Client/src/client_logic.rs:197-199 | the async worker starts with counter 0 and session 0, and nothing sent |
| Client.ClientWorker.WriteRequest | projects/Streaming-Video-Server-and-Client/src/client_logic.rs:240-271 | writes the request text and changes nothing else |
| Client.ClientWorker.HandleResponse | projects/Streaming-Video-Server-and-Client/src/client_logic.rs:281-310 | handles a parsed response exactly as `Respond` |
| Client.ClientWorker.HandleCommand | projects/Streaming-Video-Server-and-Client/src/client_logic.rs:228-311 | handles one command exactly as `Command` on the read taken apart by `ReplyOf`: a response text, a closed connection, a failed read or a non-UTF-8 read |
| Client.ClientWorker.AsyncMain | projects/Streaming-Video-Server-and-Client/src/client_logic.rs:186-225 | the loop over commands is exactly `Run` |
| Client.ShowAllAppend | projects/Streaming-Video-Server-and-Client/src/client_logic.rs:92-113 | showing two batches of messages is showing the first, then the second |
| Client.ShowAllState | projects/Streaming-Video-Server-and-Client/src/client_logic.rs:95 | after showing messages the GUI's state is the last state update among them, or the old one |
| Client.Pressed | projects/Streaming-Video-Server-and-Client/src/client_logic.rs:129-143 | a button sends iff it is clicked and enabled, in the order Setup, Play, Pause, Teardown |
| Client.PressedInOrder | projects/Streaming-Video-Server-and-Client/src/client_logic.rs:131-142 | the four button checks in turn append exactly `Pressed` |
| Client.EnabledButtons | projects/Streaming-Video-Server-and-Client/src/client_logic.rs:131-142 | Setup is enabled only in Init, Play only in Ready, Pause only in Playing, and Teardown in every state but Init |
| Client.OnClose | projects/Streaming-Video-Server-and-Client/src/client_logic.rs:83-89 | closing the window sends Teardown iff the state is not Init |
| Client.RtpClientApp.constructor | projects/Streaming-Video-Server-and-Client/src/client_logic.rs:63-80 | the GUI starts in Init with no frame, no error and nothing sent |
| Client.RtpClientApp.Drain | projects/Streaming-Video-Server-and-Client/src/client_logic.rs:92-113 | shows every waiting message in order and sends nothing |
| Client.RtpClientApp.Press | projects/Streaming-Video-Server-and-Client/src/client_logic.rs:131-142 | one button sends its command iff clicked and enabled |
| Client.RtpClientApp.Click | projects/Streaming-Video-Server-and-Client/src/client_logic.rs:129-143 | the button panel sends exactly `Pressed` for the current state |
| Client.RtpClientApp.RequestClose | projects/Streaming-Video-Server-and-Client/src/client_logic.rs:83-89 | the close check sends exactly `OnClose` |
| Client.RtpClientApp.Update | projects/Streaming-Video-Server-and-Client/src/client_logic.rs:82-156 | one frame of the GUI sends Teardown on close (state before the messages), shows the messages and a disconnection error, then sends the clicked enabled buttons (state after the messages) |
| Client.Truncated | projects/Streaming-Video-Server-and-Client/src/client_logic.rs:320-324 | a datagram is cut to the 20480-byte buffer, and a shorter one is kept whole |
| Client.ListenRtp | projects/Streaming-Video-Server-and-Client/src/client_logic.rs:314-351 | the listener shows exactly the payloads of the datagrams that decode and hold a JPEG, in order, stopping at the shutdown signal or when the GUI is gone |
| Streaming.ReadsReply | projects/Streaming-Video-Server-and-Client/src/client_logic.rs:274-287 | the client reads every reply the server writes as its code, CSeq and session, with its status line |
| Streaming.ServerReads | projects/Streaming-Video-Server-and-Client/src/server_logic.rs:73-86 | for a file name that is one word (no whitespace, not empty) and a u16 RTP port, the server handles the client's request text as the request the client built |
| Streaming.MisreadName | projects/Streaming-Video-Server-and-Client/src/rtsp.rs:46-52 | for a file name that is empty or holds whitespace, the server either refuses the client's request text or reads a different file name from it |
| Streaming.SetupAgrees | projects/Streaming-Video-Server-and-Client/src/server_logic.rs:108-135 | on SETUP, the client accepts iff the server handled it and the file opens. Both then hold the same session id, the client reports Ready, and a refusal changes neither side |
| Streaming.PlayAgrees | projects/Streaming-Video-Server-and-Client/src/server_logic.rs:138-174 | on PLAY the two ends agree in the same way, and the client reports Playing |
| Streaming.PauseAgrees | projects/Streaming-Video-Server-and-Client/src/server_logic.rs:177-190 | on PAUSE the two ends agree, and the client reports Ready |
| Streaming.TeardownAgrees | projects/Streaming-Video-Server-and-Client/src/server_logic.rs:193-202 | on TEARDOWN the client reports Init and ends its loop, while the server keeps its state |
| Streaming.ExchangeAgrees | projects/Streaming-Video-Server-and-Client/src/client_logic.rs:228-311 | for a one-word file name and a u16 RTP port, a whole exchange over the wire (the client's request text as the server parses it, the server's reply text as the client parses it) agrees as above |
| Streaming.EncodedLength | projects/Streaming-Video-Server-and-Client/src/rtp.rs:63-65 | an encoded packet is 12 bytes plus the payload |
| Streaming.ShowsCarried | projects/Streaming-Video-Server-and-Client/src/client_logic.rs:322-343 | the listener shows the frames that the arriving datagrams carry, in order |
| Streaming.SentCarries | projects/Streaming-Video-Server-and-Client/src/server_logic.rs:226-240 | datagrams received in order from the sender carry the file's frames |
| Streaming.FramesArrive | projects/Streaming-Video-Server-and-Client/src/server_logic.rs:216-260 | the client shows exactly the frames the server sent, in order |
| Grid.Other | projects/py-tic-tac-toe/src/lib.rs:17-22 | the other player is never the same player |
| Grid.OtherInvolution | projects/py-tic-tac-toe/src/lib.rs:17-22 | swapping twice gives the player back, and swap is injective |
| Grid.EmptyBoard | projects/py-tic-tac-toe/src/lib.rs:69 | a new board is 3x3 with every cell empty |
| Grid.Place | projects/py-tic-tac-toe/src/lib.rs:111 | placing sets that one cell and no other |
| Grid.EmptyBoardNotWon | projects/py-tic-tac-toe/src/lib.rs:135-153 | nobody has a line on an empty board |
| Grid.NotWon | projects/py-tic-tac-toe/src/lib.rs:135-153 | no row, column or diagonal owned means no win |
| Grid.SameBoard | projects/py-tic-tac-toe/src/lib.rs:103-113 | boards that agree cell by cell are equal |
| Grid.MarksAll | projects/py-tic-tac-toe/src/lib.rs:156-160 | a row is fully marked iff no cell in it is empty |
| Grid.TakenPlace | projects/py-tic-tac-toe/src/main.rs:72-80 | marking an empty cell increases the count of taken cells by exactly one |
| Grid.TakenFull | projects/py-tic-tac-toe/src/lib.rs:156-160 | at most nine cells are taken, and nine iff the board is full |
| Grid.Play | projects/py-tic-tac-toe/src/main.rs:62-92 | the reference game: the board stays 3x3 |
| Grid.PlayRefused | projects/py-tic-tac-toe/src/main.rs:84-86 | a move off the board or onto a taken cell changes nothing, and the same player moves again |
| Grid.PlayAccepted | projects/py-tic-tac-toe/src/main.rs:72-83 | an accepted move marks the cell. If the mover then has a line they win, else a full board is a draw, else the other player moves |
| Grid.PlayTakes | projects/py-tic-tac-toe/src/main.rs:72-80 | each accepted move takes exactly one more cell, so at most 9 - taken moves are accepted |
| Grid.PlayKeeps | projects/py-tic-tac-toe/src/main.rs:72-73 | no taken cell is ever overwritten |
| Grid.PlayEnding | projects/py-tic-tac-toe/src/main.rs:75-83 | a win means the winner has a line, and a draw means the board is full |
| Grid.NewGame | projects/py-tic-tac-toe/src/main.rs:55-92 | from an empty board at most nine moves are accepted, a draw takes all nine, and a win goes to a player with a line |
| Grid.PlayNothing | projects/py-tic-tac-toe/src/main.rs:84-86 | if no move is accepted the board is unchanged |
| Grid.ParseCoordinates | projects/py-tic-tac-toe/src/main.rs:107-119 | an accepted line gives a cell on the board |
| Grid.ParseTyped | projects/py-tic-tac-toe/src/main.rs:107-119 | "r c" with r and c in 1..3 reads as the 0-based cell (r-1, c-1) |
| Grid.ParseOutOfRange | projects/py-tic-tac-toe/src/main.rs:112-116 | a 0 or a number above 3 is refused |
| Grid.EnteredFrom | projects/py-tic-tac-toe/src/main.rs:95-126 | the cells entered from line k on are line k's cell, if any, then those after |
| Grid.ReadCoordinates | projects/py-tic-tac-toe/src/main.rs:95-126 | the input loop returns the first cell the remaining lines enter, skipping lines that fail to read or parse. When the given lines run out it returns none, which stands for input not yet typed |
| TicTacToeLib.StateOfBoard | projects/py-tic-tac-toe/src/lib.rs:116-127 | the game is in progress iff the board is not full and the current player has no line. A win is always the current player's (a win beats a draw). An empty board is in progress |
| TicTacToeLib.TicTacToe.constructor | projects/py-tic-tac-toe/src/lib.rs:68-79 | every cell empty, the given first player |
| TicTacToeLib.TicTacToe.FixSpot | projects/py-tic-tac-toe/src/lib.rs:103-113 | off the board gives the out-of-bounds error, and a taken cell gives the taken error, each with the board unchanged. Otherwise exactly that cell becomes the current player's, and one more cell is taken |
| TicTacToeLib.TicTacToe.CheckGameState | projects/py-tic-tac-toe/src/lib.rs:116-127 | returns the state of the board for the current player |
| TicTacToeLib.TicTacToe.SwapPlayerTurn | projects/py-tic-tac-toe/src/lib.rs:130-132 | the current player becomes the other one |
| TicTacToeLib.TicTacToe.AllOn | projects/py-tic-tac-toe/src/lib.rs:137-150 | the line check holds iff the line's three cells are the player's |
| TicTacToeLib.TicTacToe.HasPlayerWon | projects/py-tic-tac-toe/src/lib.rs:135-153 | true iff some row, column or diagonal is entirely the player's |
| TicTacToeLib.TicTacToe.IsBoardFilled | projects/py-tic-tac-toe/src/lib.rs:156-160 | true iff all nine cells are taken |
| TicTacToeConsole.TicTacToe.constructor | projects/py-tic-tac-toe/src/main.rs:55-59 | every cell empty |
| TicTacToeConsole.TicTacToe.FixSpot | projects/py-tic-tac-toe/src/main.rs:138-140 | overwrites that cell unconditionally and no other |
| TicTacToeConsole.TicTacToe.AllOn | projects/py-tic-tac-toe/src/main.rs:143-169 | the line check holds iff the line's three cells are the player's |
| TicTacToeConsole.TicTacToe.HasPlayerWon | projects/py-tic-tac-toe/src/main.rs:143-169 | true iff some row, column or diagonal is entirely the player's |
| TicTacToeConsole.TicTacToe.IsBoardFilled | projects/py-tic-tac-toe/src/main.rs:172-174 | true iff no cell is empty, iff nine cells are taken |
| TicTacToeConsole.TicTacToe.Turn | projects/py-tic-tac-toe/src/main.rs:72-83 | one accepted move plays exactly as the reference game |
| TicTacToeConsole.TicTacToe.Round | projects/py-tic-tac-toe/src/main.rs:64-91 | reading and playing one move keeps the game equal to the reference game over the remaining lines |
| TicTacToeConsole.TicTacToe.Start | projects/py-tic-tac-toe/src/main.rs:62-92 | the console loop plays the reference game over the cells the input enters, and ends with its board and ending. When the given lines run out first, the game is reported unfinished |
| TicTacToeConverted.Game.constructor | projects/py-tic-tac-toe/rust/converted_project/src/main.rs:56-67 | every cell None, the given first player |
| TicTacToeConverted.Game.MakeMove | projects/py-tic-tac-toe/rust/converted_project/src/main.rs:93-102 | off the board gives OutOfBounds, and a taken cell gives SpotTaken, each with the board unchanged. Otherwise only that cell becomes Some(current player), and one more cell is taken |
| TicTacToeConverted.Game.AllOn | projects/py-tic-tac-toe/rust/converted_project/src/main.rs:105-129 | the line check holds iff the line's three cells are the player's |
| TicTacToeConverted.Game.HasPlayerWon | projects/py-tic-tac-toe/rust/converted_project/src/main.rs:105-129 | true iff some row, column or diagonal is all Some(player) |
| TicTacToeConverted.Game.IsBoardFilled | projects/py-tic-tac-toe/rust/converted_project/src/main.rs:132-136 | true iff no cell is None, iff nine cells are taken |
| TicTacToeConverted.Turn | projects/py-tic-tac-toe/rust/converted_project/src/main.rs:192-207 | a successful move checks win before draw and switches the player only if neither holds, as the reference game |
| TicTacToeConverted.Round | projects/py-tic-tac-toe/rust/converted_project/src/main.rs:146-208 | reading and playing one move keeps the game equal to the reference game; an error leaves the player unchanged |
| TicTacToeConverted.Run | projects/py-tic-tac-toe/rust/converted_project/src/main.rs:140-212 | `main` plays the reference game from an empty board and ends with its board and ending. The winner, or the player to move, is the current player. When the given lines run out first, the game is reported unfinished |
| Clippings.Before | projects/kindle-clippings/src/lib.rs:311-313 | the part before the first separator is a prefix with no separator in it, ending where the first one starts |
| Clippings.SplitOn | projects/kindle-clippings/src/lib.rs:122-126 | splitting gives at least one piece |
| Clippings.SplitOnJoin | projects/kindle-clippings/src/lib.rs:122-126 | joining the pieces with the separator gives the text back |
| Clippings.SplitOnPieces | projects/kindle-clippings/src/lib.rs:122-126 | no piece contains the separator |
| Clippings.StripBoms | projects/kindle-clippings/src/lib.rs:122 | the result is a suffix of the text that does not start with a byte-order mark |
| Clippings.Utf8Len | projects/kindle-clippings/src/lib.rs:314 | a string's UTF-8 length is at least its number of characters |
| Clippings.Utf8LenAppend | projects/kindle-clippings/src/lib.rs:314 | UTF-8 length adds over concatenation |
| Clippings.Boundary | projects/kindle-clippings/src/lib.rs:314-316 | a found character boundary is within the string |
| Clippings.BoundaryIs | projects/kindle-clippings/src/lib.rs:314-316 | a boundary is the prefix with exactly n bytes, and there is none iff no prefix has n bytes (where `truncate` panics) |
| Clippings.FloorBoundary | projects/kindle-clippings/src/lib.rs:314-316 | the corrected cut position lies within the string |
| Clippings.FloorBoundaryIs | projects/kindle-clippings/src/lib.rs:314-316 | the corrected cut is the longest prefix of at most n bytes |
| Clippings.Unpunctuated | projects/kindle-clippings/src/lib.rs:313 | deletes exactly '?', ':' and '*', keeping the rest in order |
| Clippings.ShortTitleShape | projects/kindle-clippings/src/lib.rs:309-318 | a short title has no '\|', '?', ':' or '*', no surrounding whitespace, and at most 128 bytes |
| Clippings.ShortenedShape | projects/kindle-clippings/src/lib.rs:314-317 | shortening keeps those properties and bounds the length by 128 bytes |
| Clippings.ShortTitleOfShort | projects/kindle-clippings/src/lib.rs:309-318 | a title of at most 128 bytes with no whitespace and no '\|?:*' is its own short title |
| Clippings.PlainUncut | projects/kindle-clippings/src/lib.rs:311-313 | such a title is not cut at '\|', " - " or ". " |
| Clippings.ShortTitleAgrees | projects/kindle-clippings/src/lib.rs:309-318 | whenever the code as written does not panic, it gives the corrected short title |
| Clippings.AccentedTitlePanics | projects/kindle-clippings/src/lib.rs:314-316 | as written, a title of 126 ASCII letters followed by "éz" has no character boundary at byte 127, so `truncate(127)` panics |
| Clippings.AccentedTitleShortened | projects/kindle-clippings/src/lib.rs:314-316 | corrected, that title shortens to its 126 letters |
| Clippings.LongUncutTitle | projects/kindle-clippings/src/lib.rs:314-317 | a title over 128 bytes is cut at the last character boundary at or below 127 bytes, then trimmed |
| ClippingsParse.AuthorParen | projects/kindle-clippings/src/lib.rs:53-147 | finds the last '(' that opens a final "(author)" group with no parentheses inside, or none |
| ClippingsParse.TitleAuthor | projects/kindle-clippings/src/lib.rs:140-147 | a title line "T (A)" gives trim(T) and A. Any other title line gives the trimmed line and "Unknown" |
| ClippingsParse.TitleAuthorOf | projects/kindle-clippings/src/lib.rs:140-147 | "T (A)" with trimmed T and A gives exactly (T, A) |
| ClippingsParse.TitleAuthorAt | projects/kindle-clippings/src/lib.rs:140-147 | the title and author are the trimmed text before and inside the last such group |
| ClippingsParse.InfoOf | projects/kindle-clippings/src/lib.rs:150-177 | the info line gives ("Unknown", "", "") or a non-empty location |
| ClippingsParse.InfoOfLine | projects/kindle-clippings/src/lib.rs:55-177 | a line "- Your W on page P \| Location L \| Added on D" gives type W, location "p.P, loc.L" and date D |
| ClippingsParse.InfoOfParsed | projects/kindle-clippings/src/lib.rs:55-177 | every info line that parses has that form, so only the first pattern ever matches |
| ClippingsParse.LocationOnlyUnknown | projects/kindle-clippings/src/lib.rs:55-177 | "on Location L \| Added on D" (no page) gives Unknown, as the fallback patterns are never tried |
| ClippingsParse.PageOnlyUnknown | projects/kindle-clippings/src/lib.rs:55-177 | a page with no Location gives Unknown |
| ClippingsParse.NoPageUnknown | projects/kindle-clippings/src/lib.rs:55-177 | "\| Location L" with no page gives Unknown |
| ClippingsParse.ShortHash | projects/kindle-clippings/src/lib.rs:180-183 | the hash is 8 lowercase hex characters |
| ClippingsParse.HexOf | projects/kindle-clippings/src/lib.rs:180-183 | hex encoding gives two lowercase hex characters per byte |
| ClippingsParse.HexOfAppend | projects/kindle-clippings/src/lib.rs:180-183 | hex encoding distributes over concatenation |
| ClippingsParse.ShortHashOfFirstBytes | projects/kindle-clippings/src/lib.rs:180-183 | the hash is the hex of the digest's first four bytes |
| ClippingsParse.ParseEntry | projects/kindle-clippings/src/lib.rs:128-192 | an entry fails iff it is non-empty after trimming and has only one line, i.e. a title with no info line. A parsed entry is well formed, and its hash is the hash of its note text |
| ClippingsParse.LinesOfEntry | projects/kindle-clippings/src/lib.rs:128-133 | a trimmed entry has two or more lines iff it contains a line break |
| ClippingsParse.ParseEntryOf | projects/kindle-clippings/src/lib.rs:128-192 | an entry laid out as title, info, blank line and text gives exactly that title, author, info and text, hashed |
| ClippingsParse.CollectResults | projects/kindle-clippings/src/lib.rs:120-195 | collecting fails iff some entry fails, and keeps at most one clipping per entry |
| ClippingsParse.CollectFails | projects/kindle-clippings/src/lib.rs:120-195 | the parse fails iff some entry is a lone non-empty line |
| ClippingsParse.CollectedWellParsed | projects/kindle-clippings/src/lib.rs:120-195 | every collected clipping is well formed |
| ClippingsParse.ParsedEntriesWellParsed | projects/kindle-clippings/src/lib.rs:128-192 | every parsed entry is well formed |
| ClippingsParse.GroupAppend | projects/kindle-clippings/src/lib.rs:197-200 | grouping one more clipping adds it to its title's book |
| ClippingsParse.GroupIs | projects/kindle-clippings/src/lib.rs:197-200 | a title line is a key iff some clipping has it. Its book has the title and author parsed from that line and exactly its clippings, in file order |
| ClippingsParse.GroupedAt | projects/kindle-clippings/src/lib.rs:197-200 | the grouping agrees with that description for every key |
| ClippingsParse.GroupStep | projects/kindle-clippings/src/lib.rs:197-200 | adding one more clipping keeps the description |
| ClippingsParse.ParseClippingsFile | projects/kindle-clippings/src/lib.rs:116-204 | fails iff some entry fails. Otherwise it returns the grouping of the parsed clippings, keyed by exact title line, with each book's clippings in file order |
| ClippingsParse.ParseEntries | projects/kindle-clippings/src/lib.rs:128-201 | the loop over entries computes exactly that grouping |
| ClippingsOutput.HashOfLine | projects/kindle-clippings/src/lib.rs:62-106 | a recognised hash is a hex word |
| ClippingsOutput.HashOfLineIs | projects/kindle-clippings/src/lib.rs:62-63 | ".." + whitespace + a hex word + anything is recognised with that hash |
| ClippingsOutput.HashOfLineParts | projects/kindle-clippings/src/lib.rs:62-63 | every recognised line has exactly that shape |
| ClippingsOutput.ScanFinds | projects/kindle-clippings/src/lib.rs:89-113 | every hash on a line of an existing .rst file is found |
| ClippingsOutput.ScanGrows | projects/kindle-clippings/src/lib.rs:89-288 | appending to a file never loses a hash the scan finds |
| ClippingsOutput.Fresh | projects/kindle-clippings/src/lib.rs:213-222 | keeps exactly the clippings whose hash is not known, and is empty iff all are known |
| ClippingsOutput.Header | projects/kindle-clippings/src/lib.rs:249-264 | the header text ends with a line break |
| ClippingsOutput.Note | projects/kindle-clippings/src/lib.rs:266-288 | a note's text ends with a line break |
| ClippingsOutput.Notes | projects/kindle-clippings/src/lib.rs:266-288 | the notes' text ends with a line break |
| ClippingsOutput.NoteLine | projects/kindle-clippings/src/lib.rs:277-286 | the first line written for a note is recognised by the rescan as that note's hash |
| ClippingsOutput.NotesScanned | projects/kindle-clippings/src/lib.rs:104-288 | after any text that ends a line, each written note's hash is on a line the rescan recognises |
| ClippingsOutput.BookScanned | projects/kindle-clippings/src/lib.rs:89-288 | writing a book keeps every hash found before, and every clipping of the book ends up known or found by the rescan |
| ClippingsOutput.AllScanned | projects/kindle-clippings/src/lib.rs:89-298 | after writing all books, every clipping of every book is found by the rescan |
| ClippingsOutput.NothingNew | projects/kindle-clippings/src/lib.rs:213-228 | when every hash is known, writing changes no file |
| ClippingsOutput.Rerun | projects/kindle-clippings/src/lib.rs:68-298 | a second run over the same books, in any order, after rescanning the output, writes nothing |
| ClippingsOutput.AllWrittenAppends | projects/kindle-clippings/src/lib.rs:240-288 | writing only appends: no file is removed or rewritten |
| ClippingsOutput.ClippingsForHashed | projects/kindle-clippings/src/lib.rs:180-200 | every grouped clipping carries a well-formed hash |
| ClippingsOutput.RerunOfFile | projects/kindle-clippings/src/lib.rs:68-86 | for books parsed from any clippings file, running twice writes nothing the second time, whatever order each run visits the books in |
| ClippingsOutput.OutputDir.constructor | projects/kindle-clippings/src/lib.rs:68-86 | the output directory holds the given files |
| ClippingsOutput.OutputDir.Append | projects/kindle-clippings/src/lib.rs:240-248 | appending creates the file if needed and adds the text at its end |
| ClippingsOutput.OutputDir.ScanExistingHashes | projects/kindle-clippings/src/lib.rs:89-113 | the scan loop finds exactly the hashes on the lines of the .rst files |
| ClippingsOutput.OutputDir.WriteBook | projects/kindle-clippings/src/lib.rs:211-288 | writes one book exactly as `BookWritten`: nothing when no clipping is new, else the header (for a new file) and the new notes in the file named from the author and short title |
| ClippingsOutput.OutputDir.WriteFile | projects/kindle-clippings/src/lib.rs:240-288 | appends the header and the notes |
| ClippingsOutput.OutputDir.WriteNotes | projects/kindle-clippings/src/lib.rs:266-288 | the loop appends the notes in order |
| ClippingsOutput.OutputDir.WriteNote | projects/kindle-clippings/src/lib.rs:266-288 | appends one note |
| ClippingsOutput.OutputDir.WriteAllBooks | projects/kindle-clippings/src/lib.rs:207-298 | the loop over books writes exactly `AllWritten` |
| ClippingsOutput.ScanLines | projects/kindle-clippings/src/lib.rs:103-107 | the loop over a file's lines collects exactly the hashes recognised on them |
| ClippingsOutput.FileHashesStep | projects/kindle-clippings/src/lib.rs:103-107 | one more line adds its hash, if it has one |
| ClippingsOutput.ScanOfStep | projects/kindle-clippings/src/lib.rs:95-111 | one more file adds its hashes when it is an .rst file |

## Left out

- Sockets and the network. The server and the client both receive TCP reads as events: a text, a non-UTF-8 read, a failed read or a closed connection. The server also receives the shutdown signal. Replies and requests are written to a sequence of texts, and RTP datagrams to a sequence of byte strings.
- Write errors on the TCP socket in `reply_rtsp` and `handle_command` are not modelled. Every write succeeds in the model.
- `tokio::select!`, `spawn` and `Notify`. Which waiter a `notify_one` wakes is a scheduling question. The model counts the signals that PAUSE and TEARDOWN send, and takes the order of wakes as input (`Event.ShutdownNotified`, `Wake.Shutdown`, `Arrival.Notified`).
- The lifecycle task that PLAY spawns (server_logic.rs:163-171) is not modelled as a step. It calls `notify_one` whenever the sender ends, and the model does not count that signal. Its effect on the connection is an `Event.ShutdownNotified` in the event sequence. After PAUSE that event usually comes before the next request.
- The 50 ms interval, the wall clock and the random session id are parameters. The RTP timestamp is an arbitrary u32 per tick. The session id is a `choice` in [100000, 999999].
- Server.ServerWorker.HandlePlay: the sender task is recorded by the stream and port it was given. The frames it sends are modelled separately by `Server.SendRtp`.
- Server.PlayStepAsWritten: a failed `UdpSocket::bind` for the RTP socket (server_logic.rs:147) is not modelled. In the source the `?` turns it into a 500 reply and the state stays Ready; the model always binds.
- Streaming.ExchangeAgrees: holds only for a file name that is one word and an RTP port below 65536. The client takes any command-line string as the file name and writes it unquoted, so a name with whitespace or an empty name reaches the server as a different request (`Streaming.MisreadName`). For such a name the two ends can disagree: with "a b" the server opens "a".
- Server.PlayStepAsWritten: a panic is modelled as the outcome `Panicked`, which ends the connection's run. Tokio's handling of the panicked task is not modelled.
- Video.VideoStream.NextFrame: after an error the model consumes what `read_exact` would have read. The stream is not used again after an error.
- `VideoStream::new` opening a file: the file is a map from names to bytes, and an unknown name cannot be opened.
- Client.NextSeq: `*rtsp_seq += 1` is modelled as wrapping modulo 2^32 (release build). A debug build would panic at 2^32 - 1 instead.
- Server frame numbers: the u32 `frame_num` likewise wraps.
- Client.ClientWorker.HandleCommand: a failed `UdpSocket::bind` on the RTP port after the GUI was told Playing is not modelled. The model always starts the listener. Failed sends to the GUI channel (`gui_tx.send(..)?`, which fail only once the GUI has closed) are not modelled either.
- Client.Command: the same two failures are not modelled.
- Client.RtpClientApp.Press: `send(...).unwrap()` panics when the async worker has ended. The model always appends to the channel.
- JPEG decoding is a flag on each datagram (`isJpeg`). Drawing the frame, the texture and the egui layout are left out. A frame is shown as its payload bytes.
- `run_gui` and the `bin/` programs only wire the pieces together. So do the command-line parsers.
- Tic-tac-toe: the random first player is a parameter. Standard input is a sequence of lines, where `None` is a failed read. Printing is left out.
- Grid.ReadCoordinates: at a real end of input, `read_line` returns `Ok(0)` with an empty line. That line is refused, so the program asks again and spins forever. The model ends when its `lines` run out, and those stand for input not yet typed. It does not model the endless loop.
- TicTacToeConsole.TicTacToe.Start: likewise, the unfinished ending stands for input not yet typed. At a real end of input the loop never ends.
- TicTacToeConverted.Run: likewise for the inner loop of `main`.
- The Simple-Calculator program (a GUI over f64 arithmetic) is not part of this model.
- The py2rust scripts (an API call, subprocesses and file writes) are not part of this model.
- SHA-256 is a parameter `sha` giving a 32-byte digest.
- Date parsing with chrono is not modelled. The date string is kept as text.
- Setting file modification times (`set_file_mtime`) is not modelled.
- `get_valid_filename` (NFKD and the Unicode `\w` class) is a parameter `sanitize`. The rerun theorems require it to give names ending in ".rst" (`RstNames`).
- Walking the output directory is a flat map from paths to contents. Read errors on lines and the order of the walk are not modelled.
- Text.AsciiLower: `to_lowercase` in rtsp.rs:69 and 126 lower-cases all of Unicode, and the model lower-cases ASCII letters only. The lookups of "cseq", "session" and "transport" come out the same either way. Other header keys with non-ASCII capitals would be stored under a different key.
- Clippings: `\d` in the patterns is read as ASCII digits, and `\s`/`trim` as the Unicode White_Space set.
- ClippingsOutput: the order of `HashMap` values is a `books` sequence parameter. The rerun theorems let the second run visit the books in another order (`again`), since the map is seeded anew in each process.
- ClippingsParse.TitleAuthor: requires a line with no line break. That always holds for a line from `lines()`.
- ClippingsParse.InfoOf: requires a line with no line break. That always holds for a line from `lines()`.
- ClippingsOutput.Rerun: requires the existing files to end with a line break (`Terminated`). Otherwise the first appended comment line would join the last line of the file.
- ClippingsOutput.RawFileName uses the corrected short title (see Findings).

## Findings

| source | as written | input that shows it | evidently intended | confidence | as-written member | corrected member |
|---|---|---|---|---|---|---|
| projects/Streaming-Video-Server-and-Client/src/server_logic.rs:155-157,167-169 | PLAY moves the video stream into the sender task with `take().unwrap()` and never gives it back | SETUP (with a client port), PLAY, PAUSE, then PLAY again, with the second PLAY read before the sender's end wakes the connection loop (a race it can win): the second PLAY unwraps `None` and the connection task panics after replying 200 | PAUSE then PLAY resumes streaming (the sender hands the stream back, or PLAY reopens it) | not executed | Server.PlayAfterPausePanics | Server.PlayPauseRoundsSucceed |
| projects/kindle-clippings/src/lib.rs:314-316 | `create_short_title` calls `truncate(127)` on any title over 128 bytes | 126 ASCII letters followed by "éz": byte 127 falls inside 'é', so `truncate` panics | cut at the last character boundary at or below 127 bytes | not executed | Clippings.AccentedTitlePanics | Clippings.AccentedTitleShortened |
