/** The RTSP client: the request text `handle_command` writes and how it
    handles the reply, the command loop of `async_main`, the RTP listener and
    the GUI's state and button rules. Sockets and channels become sequences:
    the requests written, what each read delivers, the messages to the GUI
    and the datagrams the RTP socket receives. */
module Client {
  import opened Wrappers
  import opened Text
  import opened Rtsp
  import opened Rtp

  datatype ClientState = Init | Ready | Playing

  /** What the request text uses of `ClientArgs`: the RTP port (a `u16`) and
      the video file name. */
  datatype ClientArgs = ClientArgs(rtpPort: nat, videoFile: string)

  /** A request as `handle_command` writes it: the command (a GUI command
      names the request it sends), the CSeq it is numbered with and the
      session id it carries. */
  datatype Outbound = Outbound(command: RequestType, cseq: nat, sessionId: nat)

  // ------------------------------------------------------------ request text

  /** The Transport value of a SETUP request. */
  function TransportValue(port: nat): string {
    "RTP/UDP; client_port=" + Decimal(port)
  }

  function RequestLine(command: RequestType, file: string): string {
    AsStr(command) + " " + file + " " + RTSP_VERSION
  }

  /** SETUP carries CSeq and Transport; PLAY, PAUSE and TEARDOWN carry CSeq
      and the stored session id; an empty line ends the request. */
  function RequestLines(args: ClientArgs, o: Outbound): seq<string> {
    [ RequestLine(o.command, args.videoFile),
      HeaderText("CSeq", Decimal(o.cseq)),
      if o.command == Setup then HeaderText("Transport", TransportValue(args.rtpPort))
      else HeaderText("Session", Decimal(o.sessionId)),
      "" ]
  }

  /** The bytes `handle_command` writes: every line ended by CRLF. */
  function RequestText(args: ClientArgs, o: Outbound): string {
    CrlfLines(RequestLines(args, o))
  }

  /** What `RtspRequest::parse` should read back from a request. */
  function Parsed(args: ClientArgs, o: Outbound): Request {
    if o.command == Setup then
      Request(Setup, args.videoFile, o.cseq, Some(TransportValue(args.rtpPort)), Some(args.rtpPort), None)
    else
      Request(o.command, args.videoFile, o.cseq, None, None, Some(o.sessionId))
  }

  /** Three words joined by single spaces split back into those words. */
  lemma ThreeWords(a: string, b: string, c: string)
    requires IsToken(a) && IsToken(b) && IsToken(c)
    ensures Tokens(a + " " + b + " " + c) == [a, b, c]
  {
    AppendAssoc(a + " ", b, " ");
    AppendAssoc(a + " ", b + " ", c);
    TwoWords(b, c);
    TokensWordSpace(a, b + " " + c);
  }

  lemma NamesAreTokens(command: RequestType)
    ensures IsToken(AsStr(command)) && IsToken(RTSP_VERSION)
  {
  }

  lemma RequestLineTokens(command: RequestType, file: string)
    requires IsToken(file)
    ensures Tokens(RequestLine(command, file)) == [AsStr(command), file, RTSP_VERSION]
  {
    NamesAreTokens(command);
    ThreeWords(AsStr(command), file, RTSP_VERSION);
  }

  lemma NoNewline(s: string)
    requires NoWhitespace(s)
    ensures '\n' !in s
  {
    assert IsWhitespace('\n');
  }

  lemma NoNewlineInRequestLine(command: RequestType, file: string)
    requires NoWhitespace(file)
    ensures '\n' !in RequestLine(command, file)
  {
    NoNewline(file);
    assert '\n' !in AsStr(command) && '\n' !in RTSP_VERSION;
  }

  lemma NoNewlineInHeader(name: string, value: string)
    requires NoWhitespace(name) && '\n' !in value
    ensures '\n' !in HeaderText(name, value)
  {
    NoNewline(name);
  }

  lemma NoNewlineInTransport(port: nat)
    ensures '\n' !in TransportValue(port)
  {
    DecimalHasNoWhitespace(port);
    NoNewline(Decimal(port));
  }

  /** The request splits back into its four lines. */
  lemma LinesOfRequest(args: ClientArgs, o: Outbound)
    requires IsToken(args.videoFile)
    ensures Lines(RequestText(args, o)) == RequestLines(args, o)
  {
    var ls := RequestLines(args, o);
    NoNewlineInRequestLine(o.command, args.videoFile);
    DecimalHasNoWhitespace(o.cseq);
    NoNewline(Decimal(o.cseq));
    HeaderNames();
    NoNewlineInHeader("CSeq", Decimal(o.cseq));
    if o.command == Setup {
      NoNewlineInTransport(args.rtpPort);
      NoNewlineInHeader("Transport", TransportValue(args.rtpPort));
    } else {
      DecimalHasNoWhitespace(o.sessionId);
      NoNewline(Decimal(o.sessionId));
      NoNewlineInHeader("Session", Decimal(o.sessionId));
    }
    LinesOfCrlfLines(ls);
  }

  /** The two parts of the Transport value. */
  lemma SplitTransport(port: nat)
    ensures Split(TransportValue(port), ';') == ["RTP/UDP", " " + CLIENT_PORT + Decimal(port)]
  {
    var d := Decimal(port);
    var named := " " + CLIENT_PORT + d;
    assert ';' !in named by {
      assert forall i :: 0 <= i < |d| ==> IsDigit(d[i]);
      assert ';' !in " " + CLIENT_PORT;
    }
    assert TransportValue(port) == "RTP/UDP" + [';'] + named;
    SplitCons("RTP/UDP", ';', named);
    SplitLast(named, ';');
  }

  /** The first part does not name the port, the second does. */
  lemma TransportParts(port: nat)
    ensures !StartsWith(Trim("RTP/UDP"), CLIENT_PORT)
    ensures Trim(" " + CLIENT_PORT + Decimal(port)) == CLIENT_PORT + Decimal(port)
  {
    TrimOfNoWhitespace("RTP/UDP");
    var d := Decimal(port);
    DecimalHasNoWhitespace(port);
    NamedPortTrimmed(d);
    AppendAssoc(" ", CLIENT_PORT, d);
    TrimAfterWhitespace(" ", CLIENT_PORT + d);
  }

  lemma NamedPortTrimmed(d: string)
    requires IsToken(d)
    ensures Trimmed(CLIENT_PORT + d)
  {
    var named := CLIENT_PORT + d;
    assert named[0] == 'c';
    assert named[|named| - 1] == d[|d| - 1];
  }

  /** `find_map` stops at the second part when only it names the prefix. */
  lemma SecondWithPrefix(parts: seq<string>, prefix: string)
    requires |parts| >= 2 && !StartsWith(Trim(parts[0]), prefix) && StartsWith(Trim(parts[1]), prefix)
    ensures FirstWithPrefix(parts, prefix) == 1
  {
    assert parts[1..][0] == parts[1];
  }

  /** The Transport value names the client port, and `parse` finds it. */
  lemma TransportPort(port: nat)
    requires port < U16_LIMIT
    ensures ClientPortOf(TransportValue(port)) == Ok(Some(port))
  {
    var d := Decimal(port);
    SplitTransport(port);
    TransportParts(port);
    var parts := Split(TransportValue(port), ';');
    assert StartsWith(CLIENT_PORT + d, CLIENT_PORT) by {
      assert (CLIENT_PORT + d)[..|CLIENT_PORT|] == CLIENT_PORT;
    }
    SecondWithPrefix(parts, CLIENT_PORT);
    assert StripPrefix(Trim(parts[1]), CLIENT_PORT) == Some(d);
    DecimalHasNoWhitespace(port);
    TrimOfNoWhitespace(d);
    ParseDecimal(port, U16_LIMIT);
  }

  lemma TransportTrimmed(port: nat)
    ensures Trimmed(TransportValue(port))
  {
    var d := Decimal(port);
    DecimalHasNoWhitespace(port);
    assert TransportValue(port)[|TransportValue(port)| - 1] == d[|d| - 1];
  }

  /** The header lines give exactly CSeq and, for SETUP, Transport, for the
      other commands, Session. */
  lemma RequestHeadersOf(args: ClientArgs, o: Outbound)
    ensures RequestHeaders(RequestLines(args, o)[1..]) ==
      if o.command == Setup then map["cseq" := Decimal(o.cseq), "transport" := TransportValue(args.rtpPort)]
      else map["cseq" := Decimal(o.cseq), "session" := Decimal(o.sessionId)]
  {
    var l0 := HeaderText("CSeq", Decimal(o.cseq));
    HeaderNames();
    assert HeaderField(l0) == Some(("cseq", Decimal(o.cseq))) by {
      DecimalHasNoWhitespace(o.cseq);
      HeaderLine("CSeq", Decimal(o.cseq));
    }
    if o.command == Setup {
      var v := TransportValue(args.rtpPort);
      var l1 := HeaderText("Transport", v);
      assert HeaderField(l1) == Some(("transport", v)) by {
        TransportTrimmed(args.rtpPort);
        HeaderLine("Transport", v);
      }
      assert RequestLines(args, o)[1..] == [l0, l1, ""];
      TwoRequestHeaders(l0, l1, "cseq", Decimal(o.cseq), "transport", v);
    } else {
      var l1 := HeaderText("Session", Decimal(o.sessionId));
      assert HeaderField(l1) == Some(("session", Decimal(o.sessionId))) by {
        DecimalHasNoWhitespace(o.sessionId);
        HeaderLine("Session", Decimal(o.sessionId));
      }
      assert RequestLines(args, o)[1..] == [l0, l1, ""];
      TwoRequestHeaders(l0, l1, "cseq", Decimal(o.cseq), "session", Decimal(o.sessionId));
    }
  }

  lemma SetupFields(file: string, cseq: nat, port: nat)
    requires cseq < U32_LIMIT && port < U16_LIMIT
    ensures RequestFromHeaders(Setup, file, map["cseq" := Decimal(cseq), "transport" := TransportValue(port)])
         == Ok(Request(Setup, file, cseq, Some(TransportValue(port)), Some(port), None))
  {
    ParseDecimal(cseq, U32_LIMIT);
    TransportPort(port);
  }

  lemma SessionFields(command: RequestType, file: string, cseq: nat, id: nat)
    requires cseq < U32_LIMIT && id < U32_LIMIT
    ensures RequestFromHeaders(command, file, map["cseq" := Decimal(cseq), "session" := Decimal(id)])
         == Ok(Request(command, file, cseq, None, None, Some(id)))
  {
    ParseDecimal(cseq, U32_LIMIT);
    ParseDecimal(id, U32_LIMIT);
  }

  /** The headers of a request read back into its fields. */
  lemma FieldsOfHeaders(args: ClientArgs, o: Outbound)
    requires args.rtpPort < U16_LIMIT && o.cseq < U32_LIMIT && o.sessionId < U32_LIMIT
    ensures RequestFromHeaders(o.command, args.videoFile, RequestHeaders(RequestLines(args, o)[1..])) == Ok(Parsed(args, o))
  {
    RequestHeadersOf(args, o);
    if o.command == Setup {
      SetupFields(args.videoFile, o.cseq, args.rtpPort);
    } else {
      SessionFields(o.command, args.videoFile, o.cseq, o.sessionId);
    }
  }

  /** What the client writes, the server's `RtspRequest::parse` reads back:
      the command, the file name (when it has no whitespace), the CSeq, and
      the client port for SETUP or the session id for the other commands. */
  lemma RequestParses(args: ClientArgs, o: Outbound)
    requires IsToken(args.videoFile) && args.rtpPort < U16_LIMIT
    requires o.cseq < U32_LIMIT && o.sessionId < U32_LIMIT
    ensures RequestOf(RequestText(args, o)) == Ok(Parsed(args, o))
  {
    var text := RequestText(args, o);
    LinesOfRequest(args, o);
    RequestLineTokens(o.command, args.videoFile);
    RequestOfLine(text, o.command, args.videoFile, RTSP_VERSION);
    FieldsOfHeaders(args, o);
  }

  // ------------------------------------------------------------ handle_command

  /** `*rtsp_seq += 1` on a `u32`, wrapping as a release build does. */
  function NextSeq(n: nat): (m: nat)
    ensures m < U32_LIMIT
  {
    (n + 1) % U32_LIMIT
  }

  /** Counting on from a wrapped count is wrapping the next count. */
  lemma NextSeqWraps(n: nat)
    ensures NextSeq(n % U32_LIMIT) == (n + 1) % U32_LIMIT
  {
  }

  /** What the read after a request delivers: the response text; nothing,
      because the server closed the connection; a read that failed; or bytes
      that are not UTF-8. */
  datatype Incoming = Received(text: string) | Closed | ReadFailed | NotUtf8

  /** What `handle_command` makes of the read: the parsed response and the
      response's first line (for the error message), or no reply and the
      error that ends the command. */
  datatype Reply = Reply(response: Result<Response, ParseError>, firstLine: string) | NoReply(error: ClientError)

  /** Why `handle_command` gives up (`bail!` or `?`). */
  datatype ClientError =
    | ServerClosed
    | ReadError
    | InvalidUtf8
    | BadResponse(error: ParseError)
    | ServerRefused(code: nat, statusLine: string)

  /** Messages to the GUI thread; a frame is the JPEG payload it shows. */
  datatype FromAsync = UpdateState(state: ClientState) | Frame(image: seq<bv8>) | ShowError(error: ClientError)

  /** The network worker's state as values: the CSeq counter and stored
      session id (both `u32`), the requests written, the CSeq-mismatch
      warnings logged (expected, received), the messages to the GUI, the RTP
      listeners started and the `notify_one` calls on the shutdown signal. */
  datatype Worker = Worker(
    rtspSeq: nat,
    sessionId: nat,
    sent: seq<Outbound>,
    warnings: seq<(nat, nat)>,
    toGui: seq<FromAsync>,
    listeners: nat,
    notifications: nat)

  /** The worker as `async_main` starts it. */
  const Start := Worker(0, 0, [], [], [], 0, 0)

  /** The first line of a response, or nothing (`lines().next().unwrap_or("")`). */
  function FirstLine(text: string): string {
    var ls := Lines(text);
    if ls == [] then "" else ls[0]
  }

  /** A 200 response: SETUP stores the session id and reports Ready, PLAY
      reports Playing and starts a listener, PAUSE reports Ready and signals
      the listener to stop, TEARDOWN reports Init, signals and ends the loop. */
  function Accepted(w: Worker, command: RequestType, sessionId: nat): (r: (Worker, Result<bool, ClientError>))
    ensures r.0.rtspSeq == w.rtspSeq && r.0.sent == w.sent
  {
    match command
    case Setup => (w.(sessionId := sessionId, toGui := w.toGui + [UpdateState(Ready)]), Ok(false))
    case Play => (w.(toGui := w.toGui + [UpdateState(Playing)], listeners := w.listeners + 1), Ok(false))
    case Pause => (w.(toGui := w.toGui + [UpdateState(Ready)], notifications := w.notifications + 1), Ok(false))
    case Teardown => (w.(toGui := w.toGui + [UpdateState(Init)], notifications := w.notifications + 1), Ok(true))
  }

  /** The response to the request numbered `cseq`: a parse error or a status
      other than 200 is an error; a CSeq other than the request's is only
      logged. */
  function Respond(w: Worker, command: RequestType, cseq: nat, response: Result<Response, ParseError>, firstLine: string)
    : (r: (Worker, Result<bool, ClientError>))
    ensures r.0.rtspSeq == w.rtspSeq && r.0.sent == w.sent
  {
    match response
    case Err(e) => (w, Err(BadResponse(e)))
    case Ok(r) =>
      var logged := if r.cseq != cseq then w.(warnings := w.warnings + [(cseq, r.cseq)]) else w;
      if r.statusCode != 200 then (logged, Err(ServerRefused(r.statusCode, firstLine)))
      else Accepted(logged, command, r.sessionId)
  }

  /** The read, as `handle_command` takes it apart. */
  function ReplyOf(incoming: Incoming): Reply {
    match incoming
    case Closed => NoReply(ServerClosed)
    case ReadFailed => NoReply(ReadError)
    case NotUtf8 => NoReply(InvalidUtf8)
    case Received(text) => Reply(ResponseOf(text), FirstLine(text))
  }

  /** `handle_command`: numbers the request with the next CSeq, writes it with
      the stored session id, then handles the reply; `Ok(true)` ends the loop. */
  function Command(w: Worker, command: RequestType, reply: Reply): (r: (Worker, Result<bool, ClientError>))
    ensures r.0.rtspSeq == NextSeq(w.rtspSeq)
    ensures r.0.sent == w.sent + [Outbound(command, NextSeq(w.rtspSeq), w.sessionId)]
  {
    var cseq := NextSeq(w.rtspSeq);
    var written := w.(rtspSeq := cseq, sent := w.sent + [Outbound(command, cseq, w.sessionId)]);
    match reply
    case NoReply(e) => (written, Err(e))
    case Reply(response, firstLine) => Respond(written, command, cseq, response, firstLine)
  }

  /** Requests are numbered 1, 2, 3, ... (modulo 2^32) in the order they are
      written, and the counter holds the last number used. */
  predicate Numbered(w: Worker) {
    && w.rtspSeq == |w.sent| % U32_LIMIT
    && forall k :: 0 <= k < |w.sent| ==> w.sent[k].cseq == (k + 1) % U32_LIMIT
  }

  /** Every command writes exactly one request, numbered one past the last,
      whatever the response. */
  lemma CommandNumbers(w: Worker, command: RequestType, reply: Reply)
    requires Numbered(w)
    ensures var w' := Command(w, command, reply).0;
      && Numbered(w')
      && w'.sent == w.sent + [Outbound(command, (|w.sent| + 1) % U32_LIMIT, w.sessionId)]
  {
    var w' := Command(w, command, reply).0;
    NextSeqWraps(|w.sent|);
    forall k | 0 <= k < |w'.sent| ensures w'.sent[k].cseq == (k + 1) % U32_LIMIT {
      if k < |w.sent| {
        assert w'.sent[k] == w.sent[k];
      }
    }
  }

  /** A command fails exactly when the read gave no reply, the response
      does not parse or its status is not 200; a read that gave no reply
      fails with its own error; a failed command changes nothing the GUI or
      the listener sees, nor the session id. */
  lemma CommandFails(w: Worker, command: RequestType, reply: Reply)
    ensures var (w', r) := Command(w, command, reply);
      && (r.Err? <==>
            || reply.NoReply?
            || reply.response.Err?
            || reply.response.value.statusCode != 200)
      && (reply.NoReply? ==> r == Err(reply.error))
      && (r.Err? ==>
            && w'.sessionId == w.sessionId && w'.toGui == w.toGui
            && w'.listeners == w.listeners && w'.notifications == w.notifications)
  {
  }

  /** A read that delivers no text ends the command with that read's error:
      the server closed the connection, the read failed, or the bytes were
      not UTF-8. */
  lemma UnreadFails(w: Worker, command: RequestType, incoming: Incoming)
    requires !incoming.Received?
    ensures Command(w, command, ReplyOf(incoming)).1 ==
      Err(if incoming.Closed? then ServerClosed else if incoming.ReadFailed? then ReadError else InvalidUtf8)
  {
  }

  /** A mismatched CSeq in the response is logged and otherwise ignored: the
      outcome is the one the matching CSeq would have given. */
  lemma MismatchOnlyWarns(w: Worker, command: RequestType, cseq: nat, code: nat, got: nat, id: nat, line: string)
    requires got != cseq
    ensures var (w1, r1) := Respond(w, command, cseq, Ok(Response(code, got, id)), line);
      var (w2, r2) := Respond(w, command, cseq, Ok(Response(code, cseq, id)), line);
      && r1 == r2 && w1 == w2.(warnings := w.warnings + [(cseq, got)])
  {
  }

  /** On a 200 response, the state each command reports and its effect. */
  lemma CommandAccepted(w: Worker, command: RequestType, reply: Reply)
    requires reply.Reply? && reply.response.Ok? && reply.response.value.statusCode == 200
    ensures var (w', r) := Command(w, command, reply);
      && r == Ok(command == Teardown)
      && w'.toGui == w.toGui + [UpdateState(match command case Setup => Ready case Play => Playing case Pause => Ready case Teardown => Init)]
      && w'.sessionId == (if command == Setup then reply.response.value.sessionId else w.sessionId)
      && w'.listeners == w.listeners + (if command == Play then 1 else 0)
      && w'.notifications == w.notifications + (if command in {Pause, Teardown} then 1 else 0)
  {
  }

  // ------------------------------------------------------------ async_main

  /** `async_main`'s loop: each GUI command, paired with what the read after
      its request delivers, until a command fails (the error is returned),
      TEARDOWN succeeds, or the GUI channel closes (the end of the sequence). */
  function Run(w: Worker, commands: seq<(RequestType, Reply)>): (r: (Worker, Result<(), ClientError>))
    decreases |commands|
  {
    if commands == [] then (w, Ok(()))
    else
      var (w', done) := Command(w, commands[0].0, commands[0].1);
      if done.Err? then (w', Err(done.error))
      else if done.value then (w', Ok(()))
      else Run(w', commands[1..])
  }

  /** Each command with its read taken apart. */
  function Replies(commands: seq<(RequestType, Incoming)>): (rs: seq<(RequestType, Reply)>)
    ensures |rs| == |commands|
    decreases |commands|
  {
    if commands == [] then [] else [(commands[0].0, ReplyOf(commands[0].1))] + Replies(commands[1..])
  }

  lemma RepliesFirst(commands: seq<(RequestType, Incoming)>)
    requires commands != []
    ensures Replies(commands)[0] == (commands[0].0, ReplyOf(commands[0].1))
    ensures Replies(commands)[1..] == Replies(commands[1..])
  {
  }

  /** The session ids a worker holds and writes are `u32` values. */
  predicate SessionsFit(w: Worker) {
    w.sessionId < U32_LIMIT && forall k :: 0 <= k < |w.sent| ==> w.sent[k].sessionId < U32_LIMIT
  }

  /** A reply whose response parsed holds a `u32` session id, as every
      `RtspResponse::parse` result does. */
  predicate ReplyFits(reply: Reply) {
    reply.Reply? && reply.response.Ok? ==> reply.response.value.sessionId < U32_LIMIT
  }

  predicate RepliesFit(commands: seq<(RequestType, Reply)>) {
    forall k :: 0 <= k < |commands| ==> ReplyFits(commands[k].1)
  }

  lemma {:induction false} RepliesOfReads(commands: seq<(RequestType, Incoming)>)
    ensures RepliesFit(Replies(commands))
    decreases |commands|
  {
    if commands != [] {
      RepliesOfReads(commands[1..]);
      RepliesFirst(commands);
      var rs := Replies(commands);
      forall k | 0 <= k < |rs| ensures ReplyFits(rs[k].1) {
        if k > 0 {
          assert rs[k] == rs[1..][k - 1];
        }
      }
    }
  }

  lemma CommandSessionsFit(w: Worker, command: RequestType, reply: Reply)
    requires SessionsFit(w) && ReplyFits(reply)
    ensures SessionsFit(Command(w, command, reply).0)
  {
    var w' := Command(w, command, reply).0;
    forall k | 0 <= k < |w'.sent| ensures w'.sent[k].sessionId < U32_LIMIT {
      if k < |w.sent| {
        assert w'.sent[k] == w.sent[k];
      }
    }
  }

  /** The loop keeps the numbering and the session-id bounds. */
  lemma {:induction false} RunKeeps(w: Worker, commands: seq<(RequestType, Reply)>)
    requires Numbered(w) && SessionsFit(w) && RepliesFit(commands)
    ensures Numbered(Run(w, commands).0) && SessionsFit(Run(w, commands).0)
    decreases |commands|
  {
    if commands != [] {
      var (w1, done) := Command(w, commands[0].0, commands[0].1);
      CommandNumbers(w, commands[0].0, commands[0].1);
      CommandSessionsFit(w, commands[0].0, commands[0].1);
      if done.Ok? && !done.value {
        assert RepliesFit(commands[1..]) by {
          forall k | 0 <= k < |commands| - 1 ensures ReplyFits(commands[1..][k].1) {
            assert commands[1..][k] == commands[k + 1];
          }
        }
        RunKeeps(w1, commands[1..]);
      }
    }
  }

  /** The loop writes one request per command it handles, in order. */
  lemma {:induction false} RunWrites(w: Worker, commands: seq<(RequestType, Reply)>)
    ensures var w' := Run(w, commands).0;
      && |w.sent| <= |w'.sent| <= |w.sent| + |commands| && w'.sent[..|w.sent|] == w.sent
      && (forall k :: |w.sent| <= k < |w'.sent| ==> w'.sent[k].command == commands[k - |w.sent|].0)
    decreases |commands|
  {
    if commands != [] {
      var (w1, done) := Command(w, commands[0].0, commands[0].1);
      if done.Ok? && !done.value {
        RunWrites(w1, commands[1..]);
        var w' := Run(w1, commands[1..]).0;
        assert w'.sent[..|w.sent|] == w1.sent[..|w.sent|];
        forall k | |w1.sent| <= k < |w'.sent| ensures w'.sent[k].command == commands[k - |w.sent|].0 {
          assert commands[1..][k - |w1.sent|] == commands[k - |w.sent|];
        }
      }
    }
  }

  /** The loop handles the commands up to the first that fails or the first
      accepted TEARDOWN: it stops early with success only right after one. */
  lemma {:induction false} RunStops(w: Worker, commands: seq<(RequestType, Reply)>)
    ensures var (w', r) := Run(w, commands);
      && (r.Err? ==> |w'.sent| > |w.sent|)
      && (r.Ok? && |w'.sent| < |w.sent| + |commands| ==>
            |w'.sent| > |w.sent| && commands[|w'.sent| - |w.sent| - 1].0 == Teardown)
    decreases |commands|
  {
    if commands != [] {
      var (w1, done) := Command(w, commands[0].0, commands[0].1);
      if done.Ok? && !done.value {
        RunStops(w1, commands[1..]);
        RunWrites(w1, commands[1..]);
        var n := |Run(w1, commands[1..]).0.sent| - |w.sent|;
        assert n >= 1 && (n >= 2 ==> commands[n - 1] == commands[1..][n - 2]);
      } else if done.Ok? {
        assert commands[0].0 == Teardown by {
          CommandAccepted(w, commands[0].0, commands[0].1);
        }
      }
    }
  }

  /** Every request a numbered worker has written carries its number as CSeq,
      and the server's `RtspRequest::parse` reads that CSeq, the command and
      the file name back from its text. */
  lemma SentRequestsParse(args: ClientArgs, w: Worker, k: nat)
    requires IsToken(args.videoFile) && args.rtpPort < U16_LIMIT
    requires Numbered(w) && SessionsFit(w) && k < |w.sent|
    ensures w.sent[k].cseq == (k + 1) % U32_LIMIT
    ensures RequestOf(RequestText(args, w.sent[k])) == Ok(Parsed(args, w.sent[k]))
  {
    RequestParses(args, w.sent[k]);
  }

  /** From the start, the `k`-th request written is the `k`-th command, with
      CSeq `k + 1` (modulo 2^32). */
  lemma RequestsNumbered(commands: seq<(RequestType, Reply)>, k: nat)
    requires RepliesFit(commands)
    requires k < |Run(Start, commands).0.sent|
    ensures k < |commands| && Run(Start, commands).0.sent[k].command == commands[k].0
    ensures Run(Start, commands).0.sent[k].cseq == (k + 1) % U32_LIMIT
    ensures Numbered(Run(Start, commands).0) && SessionsFit(Run(Start, commands).0)
  {
    RunKeeps(Start, commands);
    RunWrites(Start, commands);
  }

  /** The network worker of the client, as a class whose methods update the
      counters `handle_command` receives by `&mut` and record what goes out
      on the sockets and channels. */
  class ClientWorker {
    const args: ClientArgs
    var rtspSeq: nat
    var sessionId: nat
    /** The request texts written to the RTSP socket. */
    var wire: seq<string>
    /** The requests those texts encode. */
    ghost var sent: seq<Outbound>
    var warnings: seq<(nat, nat)>
    var toGui: seq<FromAsync>
    var listeners: nat
    var notifications: nat

    ghost predicate Valid()
      reads this
    {
      |wire| == |sent| && forall k :: 0 <= k < |wire| ==> wire[k] == RequestText(args, sent[k])
    }

    ghost function Abstract(): Worker
      reads this
    {
      Worker(rtspSeq, sessionId, sent, warnings, toGui, listeners, notifications)
    }

    constructor(args: ClientArgs)
      ensures this.args == args && Valid() && Abstract() == Start
    {
      this.args := args;
      rtspSeq, sessionId := 0, 0;
      wire, sent := [], [];
      warnings, toGui := [], [];
      listeners, notifications := 0, 0;
    }

    /** Formats the request and writes it to the RTSP socket. */
    method WriteRequest(o: Outbound)
      requires Valid()
      modifies this
      ensures Valid() && sent == old(sent) + [o] && wire == old(wire) + [RequestText(args, o)]
      ensures rtspSeq == old(rtspSeq) && sessionId == old(sessionId) && warnings == old(warnings)
      ensures toGui == old(toGui) && listeners == old(listeners) && notifications == old(notifications)
    {
      var request := RequestText(args, o);
      wire := wire + [request];
      sent := sent + [o];
    }

    /** `handle_command`, once the request is written: the response. */
    method HandleResponse(command: RequestType, cseq: nat, response: Result<Response, ParseError>, firstLine: string)
      returns (r: Result<bool, ClientError>)
      requires Valid()
      modifies this
      ensures Valid() && (Abstract(), r) == Respond(old(Abstract()), command, cseq, response, firstLine)
    {
      if response.Err? {
        return Err(BadResponse(response.error));
      }
      var got := response.value;
      if got.cseq != cseq {
        warnings := warnings + [(cseq, got.cseq)];
      }
      if got.statusCode != 200 {
        return Err(ServerRefused(got.statusCode, firstLine));
      }
      match command {
        case Setup =>
          sessionId := got.sessionId;
          toGui := toGui + [UpdateState(Ready)];
        case Play =>
          toGui := toGui + [UpdateState(Playing)];
          listeners := listeners + 1;
        case Pause =>
          toGui := toGui + [UpdateState(Ready)];
          notifications := notifications + 1;
        case Teardown =>
          toGui := toGui + [UpdateState(Init)];
          notifications := notifications + 1;
          return Ok(true);
      }
      return Ok(false);
    }

    /** `handle_command`: the next CSeq, the request written, the response
      read and handled. */
    method HandleCommand(command: RequestType, incoming: Incoming) returns (r: Result<bool, ClientError>)
      requires Valid()
      modifies this
      ensures Valid() && (Abstract(), r) == Command(old(Abstract()), command, ReplyOf(incoming))
    {
      rtspSeq := NextSeq(rtspSeq);
      var cseq := rtspSeq;
      WriteRequest(Outbound(command, cseq, sessionId));
      match incoming {
        case Closed =>
          return Err(ServerClosed);
        case ReadFailed =>
          return Err(ReadError);
        case NotUtf8 =>
          return Err(InvalidUtf8);
        case Received(text) =>
          var response := ParseResponse(text);
          r := HandleResponse(command, cseq, response, FirstLine(text));
      }
    }

    /** `async_main`'s command loop. */
    method AsyncMain(commands: seq<(RequestType, Incoming)>) returns (r: Result<(), ClientError>)
      requires Valid()
      modifies this
      ensures Valid() && (Abstract(), r) == Run(old(Abstract()), Replies(commands))
    {
      var i := 0;
      while i < |commands|
        invariant i <= |commands| && Valid()
        invariant Run(old(Abstract()), Replies(commands)) == Run(Abstract(), Replies(commands[i..]))
      {
        RepliesFirst(commands[i..]);
        assert commands[i..][0] == commands[i] && commands[i..][1..] == commands[i + 1..];
        var done := HandleCommand(commands[i].0, commands[i].1);
        if done.Err? {
          return Err(done.error);
        }
        if done.value {
          return Ok(());
        }
        i := i + 1;
      }
      return Ok(());
    }
  }

  // ------------------------------------------------------------ the GUI

  /** The error the GUI shows: the worker's failure, or the channel gone. */
  datatype GuiError = WorkerFailed(error: ClientError) | WorkerDisconnected

  /** What the GUI holds: the state, the last frame, the last error. */
  datatype View = View(state: ClientState, texture: Option<seq<bv8>>, error: Option<GuiError>)

  /** One message from the worker, as `update` applies it. */
  function Show(v: View, msg: FromAsync): View {
    match msg
    case UpdateState(s) => v.(state := s)
    case Frame(image) => v.(texture := Some(image))
    case ShowError(e) => v.(error := Some(WorkerFailed(e)))
  }

  /** The messages waiting in the channel, applied in order. */
  function ShowAll(v: View, msgs: seq<FromAsync>): View
    decreases |msgs|
  {
    if msgs == [] then v else ShowAll(Show(v, msgs[0]), msgs[1..])
  }

  /** The state of the last `UpdateState` message, or `s` when there is none:
      looked up from the end. */
  function LastState(s: ClientState, msgs: seq<FromAsync>): ClientState
    decreases |msgs|
  {
    if msgs == [] then s
    else if msgs[|msgs| - 1].UpdateState? then msgs[|msgs| - 1].state
    else LastState(s, msgs[..|msgs| - 1])
  }

  lemma {:induction false} ShowAllAppend(v: View, a: seq<FromAsync>, b: seq<FromAsync>)
    ensures ShowAll(v, a + b) == ShowAll(ShowAll(v, a), b)
    decreases |a|
  {
    if a != [] {
      assert (a + b)[0] == a[0] && (a + b)[1..] == a[1..] + b;
      ShowAllAppend(Show(v, a[0]), a[1..], b);
    } else {
      assert a + b == b;
    }
  }

  /** The GUI's state after the messages is the one the last `UpdateState`
      reported; frames and errors do not touch it. */
  lemma {:induction false} ShowAllState(v: View, msgs: seq<FromAsync>)
    ensures ShowAll(v, msgs).state == LastState(v.state, msgs)
    decreases |msgs|
  {
    if msgs != [] {
      var init := msgs[..|msgs| - 1];
      var last := msgs[|msgs| - 1];
      assert msgs == init + [last];
      ShowAllAppend(v, init, [last]);
      ShowAllState(v, init);
      assert ShowAll(ShowAll(v, init), [last]) == Show(ShowAll(v, init), last);
    }
  }

  /** The messages applied, then, when the channel turns out disconnected,
      the disconnection error. */
  function Drained(v: View, inbox: seq<FromAsync>, disconnected: bool): View {
    var shown := ShowAll(v, inbox);
    if disconnected then shown.(error := Some(WorkerDisconnected)) else shown
  }

  /** The button rules: Setup only in Init, Play only in Ready, Pause only in
      Playing, Teardown in every state but Init. */
  predicate Enabled(state: ClientState, button: RequestType) {
    match button
    case Setup => state == Init
    case Play => state == Ready
    case Pause => state == Playing
    case Teardown => state != Init
  }

  /** The commands a frame's clicks send: the clicked buttons that are
      enabled, in the panel's order. */
  function Pressed(state: ClientState, clicked: set<RequestType>): (sent: seq<RequestType>)
    ensures forall b :: b in sent <==> b in clicked && Enabled(state, b)
    ensures |sent| <= 4
  {
    (if Setup in clicked && Enabled(state, Setup) then [Setup] else [])
    + (if Play in clicked && Enabled(state, Play) then [Play] else [])
    + (if Pause in clicked && Enabled(state, Pause) then [Pause] else [])
    + (if Teardown in clicked && Enabled(state, Teardown) then [Teardown] else [])
  }

  /** The buttons' commands appended one at a time, in button order. */
  lemma PressedInOrder(sent: seq<RequestType>, state: ClientState, clicked: set<RequestType>)
    ensures sent + Pressed(state, clicked) ==
      sent
      + (if Setup in clicked && Enabled(state, Setup) then [Setup] else [])
      + (if Play in clicked && Enabled(state, Play) then [Play] else [])
      + (if Pause in clicked && Enabled(state, Pause) then [Pause] else [])
      + (if Teardown in clicked && Enabled(state, Teardown) then [Teardown] else [])
  {
    var a := if Setup in clicked && Enabled(state, Setup) then [Setup] else [];
    var b := if Play in clicked && Enabled(state, Play) then [Play] else [];
    var c := if Pause in clicked && Enabled(state, Pause) then [Pause] else [];
    var d := if Teardown in clicked && Enabled(state, Teardown) then [Teardown] else [];
    AppendAssoc(sent, a + b + c, d);
    AppendAssoc(sent, a + b, c);
    AppendAssoc(sent, a, b);
  }

  /** Clicking every button sends, in each state, exactly the commands the
      server's state machine accepts there. */
  lemma EnabledButtons(state: ClientState)
    ensures Pressed(state, {Setup, Play, Pause, Teardown}) ==
      match state
      case Init => [Setup]
      case Ready => [Play, Teardown]
      case Playing => [Pause, Teardown]
  {
  }

  /** Closing the window sends a TEARDOWN unless the state is Init. */
  function OnClose(closeRequested: bool, state: ClientState): (sent: seq<RequestType>)
    ensures sent == [Teardown] <==> closeRequested && state != Init
    ensures sent == [] <==> !closeRequested || state == Init
  {
    if closeRequested && state != Init then [Teardown] else []
  }

  /** The GUI (`RtpClientApp`): its state, texture and error, and the commands
      it has sent to the network worker. */
  class RtpClientApp {
    var state: ClientState
    var texture: Option<seq<bv8>>
    var errorMessage: Option<GuiError>
    var toAsync: seq<RequestType>

    constructor()
      ensures state == Init && texture.None? && errorMessage.None? && toAsync == []
    {
      state, texture, errorMessage, toAsync := Init, None, None, [];
    }

    ghost function Viewed(): View
      reads this
    {
      View(state, texture, errorMessage)
    }

    /** `update`'s message loop: every waiting message applied, in order. */
    method Drain(inbox: seq<FromAsync>)
      modifies this
      ensures Viewed() == ShowAll(old(Viewed()), inbox)
      ensures toAsync == old(toAsync)
    {
      var i := 0;
      while i < |inbox|
        invariant i <= |inbox| && toAsync == old(toAsync)
        invariant ShowAll(Viewed(), inbox[i..]) == ShowAll(old(Viewed()), inbox)
      {
        assert inbox[i..][0] == inbox[i] && inbox[i..][1..] == inbox[i + 1..];
        match inbox[i] {
          case UpdateState(s) => state := s;
          case Frame(image) => texture := Some(image);
          case ShowError(e) => errorMessage := Some(WorkerFailed(e));
        }
        i := i + 1;
      }
    }

    /** One button of the panel: when it is clicked and enabled, its command
        is sent. */
    method Press(button: RequestType, clicked: set<RequestType>)
      modifies this
      ensures Viewed() == old(Viewed())
      ensures toAsync == old(toAsync) + (if button in clicked && Enabled(state, button) then [button] else [])
    {
      if Enabled(state, button) && button in clicked {
        toAsync := toAsync + [button];
      }
    }

    /** `update`'s button panel: each clicked button that is enabled sends
        its command. */
    method Click(clicked: set<RequestType>)
      modifies this
      ensures Viewed() == old(Viewed())
      ensures toAsync == old(toAsync) + Pressed(state, clicked)
    {
      ghost var start := toAsync;
      Press(Setup, clicked);
      Press(Play, clicked);
      Press(Pause, clicked);
      Press(Teardown, clicked);
      PressedInOrder(start, state, clicked);
    }

    /** A close request of the window: TEARDOWN is sent unless the state is
        Init. */
    method RequestClose(closeRequested: bool)
      modifies this
      ensures Viewed() == old(Viewed())
      ensures toAsync == old(toAsync) + OnClose(closeRequested, state)
    {
      if closeRequested && state != Init {
        toAsync := toAsync + [Teardown];
      }
    }

    /** `update`: the close request (judged on the state before the messages),
        the waiting messages, then the buttons (judged on the new state). */
    method Update(closeRequested: bool, inbox: seq<FromAsync>, disconnected: bool, clicked: set<RequestType>)
      modifies this
      ensures Viewed() == Drained(old(Viewed()), inbox, disconnected)
      ensures toAsync == old(toAsync) + OnClose(closeRequested, old(state)) + Pressed(state, clicked)
    {
      RequestClose(closeRequested);
      Drain(inbox);
      if disconnected {
        errorMessage := Some(WorkerDisconnected);
      }
      Click(clicked);
    }
  }

  // ------------------------------------------------------------ listen_rtp

  /** The size of the buffer `listen_rtp` receives into; a longer datagram is
      cut to it. */
  const RTP_BUFFER_SIZE: nat := 20480

  /** What wakes the listener: a datagram (with whether its payload decodes
      as a JPEG image and whether the GUI still takes frames), a failed
      receive, or the shutdown signal. */
  datatype Arrival = Datagram(bytes: seq<bv8>, isJpeg: bool, guiOpen: bool) | RecvFailed | Notified

  function Truncated(bytes: seq<bv8>): (b: seq<bv8>)
    ensures |b| <= RTP_BUFFER_SIZE && |b| <= |bytes| && b == bytes[..|b|]
    ensures |bytes| <= RTP_BUFFER_SIZE ==> b == bytes
  {
    if |bytes| <= RTP_BUFFER_SIZE then bytes else bytes[..RTP_BUFFER_SIZE]
  }

  /** The frames `listen_rtp` hands the GUI: the payload of every datagram
      that decodes as RTP and as JPEG; a packet or image that does not decode
      is skipped, a failed receive leaves only the shutdown branch, and the
      shutdown signal or a closed GUI ends the loop. */
  function Listened(arrivals: seq<Arrival>): seq<seq<bv8>>
    decreases |arrivals|
  {
    if arrivals == [] then []
    else match arrivals[0]
      case Notified => []
      case RecvFailed => []
      case Datagram(bytes, isJpeg, guiOpen) =>
        match Decode(Truncated(bytes))
        case Err(_) => Listened(arrivals[1..])
        case Ok(packet) =>
          if !isJpeg then Listened(arrivals[1..])
          else if !guiOpen then []
          else [packet.payload] + Listened(arrivals[1..])
  }

  /** `listen_rtp`'s loop. */
  method ListenRtp(arrivals: seq<Arrival>) returns (frames: seq<seq<bv8>>)
    ensures frames == Listened(arrivals)
  {
    frames := [];
    var i := 0;
    while i < |arrivals|
      invariant i <= |arrivals|
      invariant frames + Listened(arrivals[i..]) == Listened(arrivals)
    {
      assert arrivals[i..][0] == arrivals[i] && arrivals[i..][1..] == arrivals[i + 1..];
      match arrivals[i] {
        case Notified =>
          break;
        case RecvFailed =>
          break;
        case Datagram(bytes, isJpeg, guiOpen) =>
          var received := Truncated(bytes);
          var decoded := Decode(received);
          if decoded.Ok? && isJpeg {
            if !guiOpen {
              break;
            }
            frames := frames + [decoded.value.payload];
          }
      }
      i := i + 1;
    }
    assert frames + Listened(arrivals[i..]) == Listened(arrivals);
    assert i == |arrivals| ==> arrivals[i..] == [];
  }
}
