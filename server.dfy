/** The RTSP server worker: one client connection, the Init/Ready/Playing
    state machine of Appendix A of RFC 2326 as the worker implements it, the
    reply text, the connection loop and the RTP sender loop. Sockets become
    the worker's `output` (the replies written) and an event sequence (what
    the reads and the shutdown signal deliver). Each handler is a method of
    the `ServerWorker` class proved against a step function on the abstract
    `Session` value, about which the protocol lemmas are stated. */
module Server {
  import opened Wrappers
  import opened Text
  import opened Rtsp
  import opened Rtp
  import opened Video

  datatype State = Init | Ready | Playing

  /** The lowest and highest session id SETUP draws (`gen_range(100000..=999999)`). */
  const SESSION_MIN: nat := 100000
  const SESSION_MAX: nat := 999999

  /** RTP payload type 26: JPEG video, as `send_rtp` labels its packets. */
  const MJPEG: bv8 := 26

  /** The worker's fields, as values: the stream and sockets are reduced to
      whether they are there; `senders` counts the RTP sender tasks started
      and `notifications` the `notify_one` calls PAUSE and TEARDOWN make on
      the shutdown signal. */
  datatype Session = Session(
    state: State,
    sessionId: nat,
    hasStream: bool,
    hasRtpSocket: bool,
    destPort: Option<nat>,
    senders: nat,
    notifications: nat)

  /** Why a handler gave up with an error (`bail!`), which becomes a 500 reply;
      or why the request could not be parsed, which becomes a 400 reply. */
  datatype Failure =
    | InvalidState(request: RequestType, state: State)
    | WrongSession(request: RequestType)
    | Unparsable(error: ParseError)

  /** An `unwrap` on `None` in PLAY: the connection task panics. */
  datatype Panic = NoVideoStream | NoDestPort

  datatype Outcome = Handled | Failed(failure: Failure) | Panicked(panic: Panic)

  /** One handled request: the new session, its outcome and the replies written. */
  datatype Step = Step(after: Session, outcome: Outcome, replies: seq<Reply>)

  /** `ServerWorker::new`. */
  const Fresh := Session(Init, 0, false, false, None, 0, 0)

  // ------------------------------------------------------------ replies

  /** One reply `reply_rtsp` writes: the status code and text, the CSeq it
      echoes and the worker's session id at that moment. */
  datatype Reply = Reply(code: nat, status: string, cseq: nat, sessionId: nat)

  /** The bytes of a reply: status line, CSeq and Session, each line ended by
      CRLF, then an empty line. */
  function ReplyText(r: Reply): string {
    CrlfLines(ReplyLines(r))
  }

  function ReplyLines(r: Reply): seq<string> {
    [StatusLine(r.code, r.status), HeaderText("CSeq", Decimal(r.cseq)), HeaderText("Session", Decimal(r.sessionId)), ""]
  }

  function StatusLine(code: nat, status: string): string {
    RTSP_VERSION + " " + Decimal(code) + " " + status
  }

  lemma NoNewlineInDecimal(n: nat)
    ensures '\n' !in Decimal(n)
  {
    DecimalHasNoWhitespace(n);
    assert IsWhitespace('\n');
  }

  /** The reply splits back into its four lines. */
  lemma LinesOfReply(r: Reply)
    requires '\n' !in r.status
    ensures Lines(ReplyText(r)) == ReplyLines(r)
  {
    var ls := ReplyLines(r);
    NoNewlineInDecimal(r.code);
    NoNewlineInDecimal(r.cseq);
    NoNewlineInDecimal(r.sessionId);
    assert '\n' !in ls[0];
    assert '\n' !in ls[1];
    assert '\n' !in ls[2];
    LinesOfCrlfLines(ls);
  }

  /** The status line's second token is the code. */
  lemma StatusLineTokens(code: nat, status: string)
    ensures |Tokens(StatusLine(code, status))| >= 2
    ensures Tokens(StatusLine(code, status))[1] == Decimal(code)
  {
    var d := Decimal(code);
    var tail := d + " " + status;
    VersionIsToken();
    StatusLineSplit(code, status);
    TokensWordSpace(RTSP_VERSION, tail);
    DecimalHasNoWhitespace(code);
    TokensWordSpace(d, status);
  }

  lemma VersionIsToken()
    ensures IsToken(RTSP_VERSION)
  {
  }

  /** The status line as the version, a space, and the rest. */
  lemma StatusLineSplit(code: nat, status: string)
    ensures StatusLine(code, status) == RTSP_VERSION + " " + (Decimal(code) + " " + status)
  {
    var v := RTSP_VERSION + " ";
    var d := Decimal(code);
    AppendAssoc(v, d, " ");
    AppendAssoc(v, d + " ", status);
  }

  /** The reply's header lines give exactly its CSeq and Session. */
  lemma ReplyHeaders(cseq: nat, sessionId: nat)
    ensures ResponseHeaders([HeaderText("CSeq", Decimal(cseq)), HeaderText("Session", Decimal(sessionId)), ""])
         == map["cseq" := Decimal(cseq), "session" := Decimal(sessionId)]
  {
    var l0 := HeaderText("CSeq", Decimal(cseq));
    var l1 := HeaderText("Session", Decimal(sessionId));
    HeaderNames();
    assert HeaderField(l0) == Some(("cseq", Decimal(cseq))) by {
      DecimalHasNoWhitespace(cseq);
      HeaderLine("CSeq", Decimal(cseq));
    }
    assert HeaderField(l1) == Some(("session", Decimal(sessionId))) by {
      DecimalHasNoWhitespace(sessionId);
      HeaderLine("Session", Decimal(sessionId));
    }
    TwoHeaders(l0, l1, "", "cseq", Decimal(cseq), "session", Decimal(sessionId));
  }

  /** What `reply_rtsp` writes, `RtspResponse::parse` reads back: the code,
      the CSeq and the session id, whatever the status text. */
  lemma ReplyParses(r: Reply)
    requires r.code < U16_LIMIT && r.cseq < U32_LIMIT && r.sessionId < U32_LIMIT
    requires '\n' !in r.status
    ensures ResponseOf(ReplyText(r)) == Ok(Response(r.code, r.cseq, r.sessionId))
  {
    LinesOfReply(r);
    var lines := Lines(ReplyText(r));
    StatusLineTokens(r.code, r.status);
    ParseDecimal(r.code, U16_LIMIT);
    assert lines[1..] == [HeaderText("CSeq", Decimal(r.cseq)), HeaderText("Session", Decimal(r.sessionId)), ""];
    ReplyHeaders(r.cseq, r.sessionId);
    ParseDecimal(r.cseq, U32_LIMIT);
    ParseDecimal(r.sessionId, U32_LIMIT);
  }

  // ------------------------------------------------------------ the handlers, as steps

  /** `handle_setup`: only in Init; an openable file moves to Ready with a new
      session id and the request's client port, replying 200; otherwise 404
      and nothing changes. */
  function SetupStep(s: Session, req: Request, openable: bool, choice: nat): Step {
    if s.state != Init then Step(s, Failed(InvalidState(Setup, s.state)), [])
    else if openable then
      Step(s.(state := Ready, sessionId := choice, hasStream := true, destPort := req.clientPort),
           Handled, [Reply(200, "OK", req.cseq, choice)])
    else Step(s, Handled, [Reply(404, "File Not Found", req.cseq, s.sessionId)])
  }

  /** `handle_play` as written: only in Ready with the session's id; binds
      the RTP socket, moves to Playing and replies 200, then moves the stream
      out of the worker into a sender task (`take().unwrap()`) and unwraps the
      destination port. Nothing ever gives the stream back. */
  function PlayStepAsWritten(s: Session, req: Request): Step {
    if s.state != Ready then Step(s, Failed(InvalidState(Play, s.state)), [])
    else if req.sessionId != Some(s.sessionId) then Step(s, Failed(WrongSession(Play)), [])
    else
      var playing := s.(hasRtpSocket := true, state := Playing);
      var replies := [Reply(200, "OK", req.cseq, s.sessionId)];
      if !playing.hasStream then Step(playing, Panicked(NoVideoStream), replies)
      else
        var taken := playing.(hasStream := false);
        if taken.destPort.None? then Step(taken, Panicked(NoDestPort), replies)
        else Step(taken.(senders := taken.senders + 1), Handled, replies)
  }

  /** `handle_play` as its comment means it: the same checks, socket, state
      and reply, but the stream is lent to the sender task and is the
      worker's again once PAUSE stops the task, so a later PLAY resumes it.
      Only the corrected rounds below use it; the worker plays as written. */
  function PlayStep(s: Session, req: Request): Step {
    if s.state != Ready then Step(s, Failed(InvalidState(Play, s.state)), [])
    else if req.sessionId != Some(s.sessionId) then Step(s, Failed(WrongSession(Play)), [])
    else
      var playing := s.(hasRtpSocket := true, state := Playing);
      var replies := [Reply(200, "OK", req.cseq, s.sessionId)];
      if !playing.hasStream then Step(playing, Panicked(NoVideoStream), replies)
      else if playing.destPort.None? then Step(playing, Panicked(NoDestPort), replies)
      else Step(playing.(senders := playing.senders + 1), Handled, replies)
  }

  /** `handle_pause`: only in Playing with the session's id; back to Ready,
      signals the sender and replies 200. */
  function PauseStep(s: Session, req: Request): Step {
    if s.state != Playing then Step(s, Failed(InvalidState(Pause, s.state)), [])
    else if req.sessionId != Some(s.sessionId) then Step(s, Failed(WrongSession(Pause)), [])
    else
      Step(s.(state := Ready, notifications := s.notifications + 1),
           Handled, [Reply(200, "OK", req.cseq, s.sessionId)])
  }

  /** `handle_teardown`: checks the session id only, in any state; signals
      shutdown and replies 200, leaving the state as it was. */
  function TeardownStep(s: Session, req: Request): Step {
    if req.sessionId != Some(s.sessionId) then Step(s, Failed(WrongSession(Teardown)), [])
    else
      Step(s.(notifications := s.notifications + 1),
           Handled, [Reply(200, "OK", req.cseq, s.sessionId)])
  }

  /** `process_request`: dispatch on the request type, with PLAY as written. */
  function Process(s: Session, req: Request, openable: bool, choice: nat): Step {
    match req.requestType
    case Setup => SetupStep(s, req, openable, choice)
    case Play => PlayStepAsWritten(s, req)
    case Pause => PauseStep(s, req)
    case Teardown => TeardownStep(s, req)
  }

  /** A parsed request: its handler's step, with a 500 with CSeq 0 written
      after it when the handler fails. */
  function Handle(s: Session, req: Request, files: set<string>, choice: nat): Step {
    var st := Process(s, req, req.filename in files, choice);
    if st.outcome.Failed? then st.(replies := st.replies + [Reply(500, "Connection error", 0, st.after.sessionId)])
    else st
  }

  /** One request text read from the connection: 400 with CSeq 0 when it does
      not parse. */
  function Receive(s: Session, text: string, files: set<string>, choice: nat): Step {
    Respond(s, RequestOf(text), files, choice)
  }

  /** The step for a request text once parsed. */
  function Respond(s: Session, parsed: Result<Request, ParseError>, files: set<string>, choice: nat): Step {
    match parsed
    case Err(e) => Step(s, Failed(Unparsable(e)), [Reply(400, "Bad Request", 0, s.sessionId)])
    case Ok(req) => Handle(s, req, files, choice)
  }

  // ------------------------------------------------------------ the connection

  /** What one turn of `handle_connection`'s `select!` delivers. */
  datatype Event =
    | Received(text: string)   // a read of n > 0 bytes that are UTF-8
    | NotUtf8                  // a read whose bytes are not UTF-8
    | ReadFailed               // the read itself failed
    | Closed                   // a read of 0 bytes
    | ShutdownNotified         // the shutdown signal won the `select!` (sent by PAUSE,
                               // TEARDOWN, or the task that waits for the sender to end)

  /** How `handle_connection` ended, or that the events ran out first. */
  datatype End =
    | Disconnected
    | ShutdownRequested
    | ReadError
    | InvalidUtf8
    | TaskPanicked(panic: Panic)
    | Waiting

  /** What is left of a connection run after one more step: the replies of
      the step come first. */
  function After(replies: seq<Reply>, run: (Session, seq<Reply>, End)): (Session, seq<Reply>, End) {
    (run.0, replies + run.1, run.2)
  }

  /** How an event other than a received request ends the connection. */
  function Stopped(e: Event): End
    requires !e.Received?
  {
    match e
    case Closed => Disconnected
    case ReadFailed => ReadError
    case NotUtf8 => InvalidUtf8
    case ShutdownNotified => ShutdownRequested
  }

  /** `handle_connection` over a sequence of events, one session-id draw per
      event: the final session, the replies written and how the loop ended. */
  function Serve(s: Session, events: seq<Event>, files: set<string>, choices: seq<nat>): (r: (Session, seq<Reply>, End))
    requires |choices| == |events|
    decreases |events|
  {
    if events == [] then (s, [], Waiting)
    else if !events[0].Received? then (s, [], Stopped(events[0]))
    else
        var st := Receive(s, events[0].text, files, choices[0]);
        if st.outcome.Panicked? then (st.after, st.replies, TaskPanicked(st.outcome.panic))
        else After(st.replies, Serve(st.after, events[1..], files, choices[1..]))
  }

  /** A run that ends still waiting for input has seen only received
      requests: every other event ends the loop. */
  lemma {:induction false} ServeWaiting(s: Session, events: seq<Event>, files: set<string>, choices: seq<nat>)
    requires |choices| == |events|
    ensures Serve(s, events, files, choices).2 == Waiting ==> forall i :: 0 <= i < |events| ==> events[i].Received?
    decreases |events|
  {
    if events != [] {
      ServeFirst(s, events, files, choices);
      if events[0].Received? {
        var st := Receive(s, events[0].text, files, choices[0]);
        if !st.outcome.Panicked? {
          ServeWaiting(st.after, events[1..], files, choices[1..]);
          forall i | 1 <= i < |events| ensures events[1..][i - 1] == events[i] {
          }
        }
      }
    }
  }

  /** One turn of the connection loop. */
  lemma ServeFirst(s: Session, events: seq<Event>, files: set<string>, choices: seq<nat>)
    requires |choices| == |events| && events != []
    ensures !events[0].Received? ==> Serve(s, events, files, choices) == (s, [], Stopped(events[0]))
    ensures events[0].Received? ==>
      var st := Receive(s, events[0].text, files, choices[0]);
      Serve(s, events, files, choices) ==
        if st.outcome.Panicked? then (st.after, st.replies, TaskPanicked(st.outcome.panic))
        else After(st.replies, Serve(st.after, events[1..], files, choices[1..]))
  {
  }

  /** The session ids SETUP may draw. */
  predicate Drawn(choices: seq<nat>) {
    forall i :: 0 <= i < |choices| ==> SESSION_MIN <= choices[i] <= SESSION_MAX
  }

  /** The session id is 0 or a drawn value, and the state is Init exactly
      while no SETUP has succeeded. The worker holds a stream only after SETUP
      and only until the first sender takes it, so at most one sender is ever
      started. */
  predicate Sane(s: Session) {
    && (s.sessionId == 0 || SESSION_MIN <= s.sessionId <= SESSION_MAX)
    && (s.state == Init <==> s.sessionId == 0)
    && (s.state == Init ==> !s.hasStream && s.senders == 0)
    && (s.hasStream ==> s.senders == 0)
    && s.senders <= 1
  }

  /** A reply the worker can write: code 200, 404, 400 or 500, the error
      codes with CSeq 0, every number within its `u16`/`u32` type and a
      one-line status text. */
  predicate ValidReply(r: Reply) {
    && r.code in {200, 404, 400, 500}
    && (r.code in {400, 500} ==> r.cseq == 0)
    && r.cseq < U32_LIMIT && r.sessionId < U32_LIMIT
    && '\n' !in r.status
  }

  predicate ValidReplies(rs: seq<Reply>) {
    forall i :: 0 <= i < |rs| ==> ValidReply(rs[i])
  }

  /** A parsed request keeps the session sane and writes only valid replies. */
  lemma ProcessStep(s: Session, req: Request, openable: bool, choice: nat)
    requires Sane(s) && SESSION_MIN <= choice <= SESSION_MAX && req.cseq < U32_LIMIT
    ensures Sane(Process(s, req, openable, choice).after)
    ensures ValidReplies(Process(s, req, openable, choice).replies)
  {
    assert '\n' !in "OK" && '\n' !in "File Not Found";
  }

  /** One request text keeps the session sane and writes only valid replies. */
  lemma ReceiveStep(s: Session, text: string, files: set<string>, choice: nat)
    requires Sane(s) && SESSION_MIN <= choice <= SESSION_MAX
    ensures Sane(Receive(s, text, files, choice).after)
    ensures ValidReplies(Receive(s, text, files, choice).replies)
  {
    RespondStep(s, RequestOf(text), files, choice);
  }

  lemma RespondStep(s: Session, parsed: Result<Request, ParseError>, files: set<string>, choice: nat)
    requires Sane(s) && SESSION_MIN <= choice <= SESSION_MAX
    requires parsed.Ok? ==> parsed.value.cseq < U32_LIMIT
    ensures Sane(Respond(s, parsed, files, choice).after)
    ensures ValidReplies(Respond(s, parsed, files, choice).replies)
  {
    match parsed
    case Err(_) =>
      assert '\n' !in "Bad Request";
    case Ok(req) =>
      HandleStep(s, req, files, choice);
  }

  /** A parsed request keeps the session sane and writes at least one reply,
      every one of them valid. */
  lemma HandleStep(s: Session, req: Request, files: set<string>, choice: nat)
    requires Sane(s) && SESSION_MIN <= choice <= SESSION_MAX && req.cseq < U32_LIMIT
    ensures Sane(Handle(s, req, files, choice).after)
    ensures ValidReplies(Handle(s, req, files, choice).replies)
    ensures Handle(s, req, files, choice).replies != []
  {
    ProcessStep(s, req, req.filename in files, choice);
    assert '\n' !in "Connection error";
  }

  /** Over a whole connection the session stays sane and every reply written
      is valid. */
  lemma {:induction false} ServeInvariant(s: Session, events: seq<Event>, files: set<string>, choices: seq<nat>)
    requires |choices| == |events| && Drawn(choices) && Sane(s)
    ensures Sane(Serve(s, events, files, choices).0)
    ensures ValidReplies(Serve(s, events, files, choices).1)
    decreases |events|
  {
    if events != [] {
      ServeFirst(s, events, files, choices);
      if events[0].Received? {
        var st := Receive(s, events[0].text, files, choices[0]);
        ReceiveStep(s, events[0].text, files, choices[0]);
        if !st.outcome.Panicked? {
          DrawnTail(choices);
          ServeInvariant(st.after, events[1..], files, choices[1..]);
          ValidAppend(st.replies, Serve(st.after, events[1..], files, choices[1..]).1);
        }
      }
    }
  }

  lemma DrawnTail(choices: seq<nat>)
    requires choices != [] && Drawn(choices)
    ensures Drawn(choices[1..])
  {
    forall i | 0 <= i < |choices[1..]| ensures SESSION_MIN <= choices[1..][i] <= SESSION_MAX {
      assert choices[1..][i] == choices[i + 1];
    }
  }

  lemma ValidAppend(a: seq<Reply>, b: seq<Reply>)
    requires ValidReplies(a) && ValidReplies(b)
    ensures ValidReplies(a + b)
  {
    forall i | 0 <= i < |a + b| ensures ValidReply((a + b)[i]) {
      if i >= |a| {
        assert (a + b)[i] == b[i - |a|];
      }
    }
  }

  /** Every reply the worker writes on a connection reads back, through
      `RtspResponse::parse`, as its code, CSeq and session id. */
  lemma RepliesParse(s: Session, events: seq<Event>, files: set<string>, choices: seq<nat>)
    requires |choices| == |events| && Drawn(choices) && Sane(s)
    ensures forall r :: r in Serve(s, events, files, choices).1 ==>
      ResponseOf(ReplyText(r)) == Ok(Response(r.code, r.cseq, r.sessionId))
  {
    var out := Serve(s, events, files, choices).1;
    ServeInvariant(s, events, files, choices);
    forall r | r in out ensures ResponseOf(ReplyText(r)) == Ok(Response(r.code, r.cseq, r.sessionId)) {
      assert ValidReply(r);
      ReplyParses(r);
    }
  }

  /** A session-id mismatch or a wrong state never changes the session and
      writes nothing; the 500 reply is added by the connection loop. */
  lemma FailedStepChangesNothing(s: Session, req: Request, openable: bool, choice: nat)
    requires Process(s, req, openable, choice).outcome.Failed?
    ensures Process(s, req, openable, choice).after == s
    ensures Process(s, req, openable, choice).replies == []
  {
  }

  /** TEARDOWN does not reset the state, and before SETUP a TEARDOWN that
      names session 0 is accepted. */
  lemma TeardownKeepsState(s: Session, req: Request)
    requires req.requestType == Teardown
    ensures Process(s, req, false, 0).after.state == s.state
    ensures s == Fresh && req.sessionId == Some(0) ==> Process(s, req, false, 0).outcome == Handled
  {
  }

  /** Once a sender has been started, PLAY as written is never handled: it
      is refused, or it passes the checks, replies 200 and panics on the
      stream the first sender took. */
  lemma SecondPlayNeverHandled(s: Session, req: Request)
    requires Sane(s) && s.senders > 0
    ensures PlayStepAsWritten(s, req).outcome != Handled
    ensures PlayStepAsWritten(s, req).outcome.Panicked? <==>
      s.state == Ready && req.sessionId == Some(s.sessionId)
    ensures PlayStepAsWritten(s, req).outcome.Panicked? ==>
      PlayStepAsWritten(s, req).outcome.panic == NoVideoStream
  {
  }

  /** With the corrected PLAY, a session that keeps its stream from SETUP
      on always finds it: the only panic left is a SETUP that named no
      client port. */
  lemma PlayPanicsOnlyWithoutPort(s: Session, req: Request)
    requires Sane(s) && (s.state != Init ==> s.hasStream)
    ensures PlayStep(s, req).outcome.Panicked? <==>
      s.state == Ready && req.sessionId == Some(s.sessionId) && s.destPort.None?
    ensures PlayStep(s, req).outcome.Panicked? ==> PlayStep(s, req).outcome.panic == NoDestPort
  {
  }

  /** The worker as written: after SETUP, PLAY and PAUSE, a second PLAY finds
      no stream, because the first PLAY moved it into the sender task and
      nothing gives it back; the connection task panics after replying 200. */
  lemma PlayAfterPausePanics(file: string, port: nat, choice: nat, c1: nat, c2: nat, c3: nat, c4: nat)
    requires SESSION_MIN <= choice <= SESSION_MAX
    ensures
      var setup := SetupStep(Fresh, Request(Setup, file, c1, None, Some(port), None), true, choice);
      var play := PlayStepAsWritten(setup.after, Request(Play, file, c2, None, None, Some(choice)));
      var pause := PauseStep(play.after, Request(Pause, file, c3, None, None, Some(choice)));
      var replay := PlayStepAsWritten(pause.after, Request(Play, file, c4, None, None, Some(choice)));
      && setup.outcome == Handled && play.outcome == Handled && pause.outcome == Handled
      && replay.outcome == Panicked(NoVideoStream)
      && replay.replies == [Reply(200, "OK", c4, choice)]
  {
  }

  /** `rounds` PLAY/PAUSE pairs: whether all of them were handled, and the
      session afterwards. */
  function PlayPauseRounds(s: Session, rounds: nat, c: nat): (bool, Session)
    decreases rounds
  {
    if rounds == 0 then (true, s)
    else
      var play := PlayStep(s, Request(Play, "", c, None, None, Some(s.sessionId)));
      var pause := PauseStep(play.after, Request(Pause, "", c, None, None, Some(s.sessionId)));
      var (ok, final) := PlayPauseRounds(pause.after, rounds - 1, c);
      (play.outcome == Handled && pause.outcome == Handled && ok, final)
  }

  /** Any number of PLAY/PAUSE rounds after a SETUP that named a client port
      succeed, each PLAY starting one sender, and the session is Ready again
      with its stream. */
  lemma {:induction false} PlayPauseRoundsSucceed(s: Session, rounds: nat, c: nat)
    requires s.state == Ready && s.hasStream && s.destPort.Some?
    ensures PlayPauseRounds(s, rounds, c).0
    ensures PlayPauseRounds(s, rounds, c).1.state == Ready && PlayPauseRounds(s, rounds, c).1.hasStream
    ensures PlayPauseRounds(s, rounds, c).1.senders == s.senders + rounds
    decreases rounds
  {
    if rounds > 0 {
      var play := PlayStep(s, Request(Play, "", c, None, None, Some(s.sessionId)));
      var pause := PauseStep(play.after, Request(Pause, "", c, None, None, Some(s.sessionId)));
      assert play.outcome == Handled && pause.outcome == Handled;
      PlayPauseRoundsSucceed(pause.after, rounds - 1, c);
    }
  }

  // ------------------------------------------------------------ the worker

  class ServerWorker {
    /** The files `VideoStream::new` can open, with their bytes. */
    const files: map<string, seq<bv8>>
    var state: State
    var sessionId: nat
    var videoStream: VideoStream?
    var hasRtpSocket: bool
    var rtpDestPort: Option<nat>
    /** The stream and destination port of the last RTP sender task spawned. */
    var senderStream: VideoStream?
    var senderPort: nat
    var senders: nat
    var notifications: nat
    /** Every reply written to the TCP stream, in order. */
    var output: seq<Reply>

    ghost function Abstract(): Session
      reads this
    {
      Session(state, sessionId, videoStream != null, hasRtpSocket, rtpDestPort, senders, notifications)
    }

    /** `ServerWorker::new`: Init, session 0, no stream, no RTP socket or port. */
    constructor (openable: map<string, seq<bv8>>)
      ensures files == openable && Abstract() == Fresh && output == [] && senderStream == null
    {
      files := openable;
      state := Init;
      sessionId := 0;
      videoStream := null;
      hasRtpSocket := false;
      rtpDestPort := None;
      senderStream := null;
      senderPort := 0;
      senders := 0;
      notifications := 0;
      output := [];
    }

    /** `reply_rtsp`: writes the reply with the worker's current session id. */
    method ReplyRtsp(code: nat, status: string, cseq: nat)
      modifies this`output
      ensures output == old(output) + [Reply(code, status, cseq, sessionId)]
    {
      output := output + [Reply(code, status, cseq, sessionId)];
    }

    method HandleSetup(req: Request, choice: nat) returns (outcome: Outcome)
      modifies this
      ensures var st := SetupStep(old(Abstract()), req, req.filename in files, choice);
        Abstract() == st.after && outcome == st.outcome && output == old(output) + st.replies
      ensures videoStream != old(videoStream) ==>
        && req.filename in files && videoStream != null && fresh(videoStream)
        && videoStream.data == files[req.filename] && videoStream.pos == 0 && videoStream.frameNum == 0
      ensures senderStream == old(senderStream) && senderPort == old(senderPort)
    {
      if state != Init {
        return Failed(InvalidState(Setup, state));
      }
      if req.filename in files {
        videoStream := new VideoStream(files[req.filename]);
        state := Ready;
        sessionId := choice;
        rtpDestPort := req.clientPort;
        ReplyRtsp(200, "OK", req.cseq);
      } else {
        ReplyRtsp(404, "File Not Found", req.cseq);
      }
      return Handled;
    }

    /** `handle_play`: the checks, the RTP socket, Playing and the 200 reply,
        then `take().unwrap()` moves the stream out of the worker into the
        sender task, and the destination port is unwrapped. */
    method HandlePlay(req: Request) returns (outcome: Outcome)
      modifies this
      ensures var st := PlayStepAsWritten(old(Abstract()), req);
        Abstract() == st.after && outcome == st.outcome && output == old(output) + st.replies
      ensures videoStream == old(videoStream) || videoStream == null
      ensures outcome == Handled ==>
        senderStream == old(videoStream) && senderStream != null && videoStream == null && Some(senderPort) == rtpDestPort
      ensures outcome != Handled ==> senderStream == old(senderStream) && senderPort == old(senderPort)
    {
      if state != Ready {
        return Failed(InvalidState(Play, state));
      }
      if req.sessionId != Some(sessionId) {
        return Failed(WrongSession(Play));
      }
      hasRtpSocket := true;
      state := Playing;
      ReplyRtsp(200, "OK", req.cseq);
      if videoStream == null {
        return Panicked(NoVideoStream);
      }
      var stream := videoStream;
      videoStream := null;
      // `self.rtp_dest_port.unwrap()`
      if rtpDestPort.None? {
        return Panicked(NoDestPort);
      }
      senderStream := stream;
      senderPort := rtpDestPort.value;
      senders := senders + 1;
      return Handled;
    }

    method HandlePause(req: Request) returns (outcome: Outcome)
      modifies this
      ensures var st := PauseStep(old(Abstract()), req);
        Abstract() == st.after && outcome == st.outcome && output == old(output) + st.replies
      ensures videoStream == old(videoStream) && senderStream == old(senderStream) && senderPort == old(senderPort)
    {
      if state != Playing {
        return Failed(InvalidState(Pause, state));
      }
      if req.sessionId != Some(sessionId) {
        return Failed(WrongSession(Pause));
      }
      state := Ready;
      notifications := notifications + 1;
      ReplyRtsp(200, "OK", req.cseq);
      return Handled;
    }

    method HandleTeardown(req: Request) returns (outcome: Outcome)
      modifies this
      ensures var st := TeardownStep(old(Abstract()), req);
        Abstract() == st.after && outcome == st.outcome && output == old(output) + st.replies
      ensures videoStream == old(videoStream) && senderStream == old(senderStream) && senderPort == old(senderPort)
    {
      if req.sessionId != Some(sessionId) {
        return Failed(WrongSession(Teardown));
      }
      notifications := notifications + 1;
      ReplyRtsp(200, "OK", req.cseq);
      return Handled;
    }

    method ProcessRequest(req: Request, choice: nat) returns (outcome: Outcome)
      modifies this
      ensures var st := Process(old(Abstract()), req, req.filename in files, choice);
        Abstract() == st.after && outcome == st.outcome && output == old(output) + st.replies
    {
      match req.requestType {
        case Setup => outcome := HandleSetup(req, choice);
        case Play => outcome := HandlePlay(req);
        case Pause => outcome := HandlePause(req);
        case Teardown => outcome := HandleTeardown(req);
      }
    }

    /** One request text read from the connection: parsed, processed, and
        answered with 400 or 500 when parsing or the handler fails. */
    method HandleText(text: string, choice: nat) returns (outcome: Outcome)
      modifies this
      ensures var st := Receive(old(Abstract()), text, files.Keys, choice);
        Abstract() == st.after && outcome == st.outcome && output == old(output) + st.replies
    {
      var request := ParseRequest(text);
      match request {
        case Err(e) =>
          ReplyRtsp(400, "Bad Request", 0);
          outcome := Failed(Unparsable(e));
        case Ok(req) =>
          outcome := ProcessRequest(req, choice);
          if outcome.Failed? {
            ReplyRtsp(500, "Connection error", 0);
          }
      }
    }

    /** One turn of `handle_connection`'s loop on event `i`: it either ends
        the connection or handles the text and goes on. `written` holds the
        replies written on the connection so far, after `before`. */
    method Turn(events: seq<Event>, choices: seq<nat>, i: nat,
                ghost start: Session, ghost before: seq<Reply>, ghost written: seq<Reply>)
      returns (stop: Option<End>, ghost written': seq<Reply>)
      requires |choices| == |events| && i < |events| && output == before + written
      requires Serve(start, events, files.Keys, choices) == After(written, Serve(Abstract(), events[i..], files.Keys, choices[i..]))
      modifies this
      ensures output == before + written'
      ensures stop.None? ==>
        Serve(start, events, files.Keys, choices) == After(written', Serve(Abstract(), events[i + 1..], files.Keys, choices[i + 1..]))
      ensures stop.Some? ==> Serve(start, events, files.Keys, choices) == (Abstract(), written', stop.value)
    {
      ghost var session := Abstract();
      if !events[i].Received? {
        stop := Some(Stopped(events[i]));
        written' := written;
        ServeStopped(start, events, files.Keys, choices, i, written, session);
      } else {
        var outcome := HandleText(events[i].text, choices[i]);
        ghost var st := Receive(session, events[i].text, files.Keys, choices[i]);
        ServeReceived(start, events, files.Keys, choices, i, written, st, session);
        written' := written + st.replies;
        Appended(before, written, st.replies);
        stop := if outcome.Panicked? then Some(TaskPanicked(outcome.panic)) else None;
      }
    }

    /** `handle_connection`: reads until the peer closes, a read fails, the
        bytes are not UTF-8, the shutdown signal arrives or a handler panics;
        parse errors and handler errors are answered and the loop goes on. */
    method HandleConnection(events: seq<Event>, choices: seq<nat>) returns (end: End)
      requires |choices| == |events|
      modifies this
      ensures |old(output)| <= |output| && output[..|old(output)|] == old(output)
      ensures Serve(old(Abstract()), events, files.Keys, choices) == (Abstract(), output[|old(output)|..], end)
    {
      ghost var start := Abstract();
      ghost var written: seq<Reply> := [];
      var stop: Option<End> := None;
      var i := 0;
      assert events[i..] == events && choices[i..] == choices;
      AfterNothing(Serve(start, events, files.Keys, choices));
      while i < |events| && stop.None?
        invariant 0 <= i <= |events|
        invariant output == old(output) + written
        invariant stop.None? ==>
          Serve(start, events, files.Keys, choices) == After(written, Serve(Abstract(), events[i..], files.Keys, choices[i..]))
        invariant stop.Some? ==> Serve(start, events, files.Keys, choices) == (Abstract(), written, stop.value)
      {
        stop, written := Turn(events, choices, i, start, old(output), written);
        i := i + 1;
      }
      if stop.None? {
        assert Serve(Abstract(), events[i..], files.Keys, choices[i..]) == (Abstract(), [], Waiting) by {
          assert events[i..] == [];
        }
        AfterStopped(written, (Abstract(), [], Waiting));
        end := Waiting;
      } else {
        end := stop.value;
      }
      assert output[|old(output)|..] == written;
    }
  }

  /** The connection loop goes on after a request that did not panic. */
  lemma ServeReceived(start: Session, events: seq<Event>, files: set<string>, choices: seq<nat>, i: nat,
                      written: seq<Reply>, st: Step, before: Session)
    requires |choices| == |events| && i < |events| && events[i].Received?
    requires Serve(start, events, files, choices) == After(written, Serve(before, events[i..], files, choices[i..]))
    requires st == Receive(before, events[i].text, files, choices[i])
    ensures !st.outcome.Panicked? ==>
      Serve(start, events, files, choices) == After(written + st.replies, Serve(st.after, events[i + 1..], files, choices[i + 1..]))
    ensures st.outcome.Panicked? ==>
      Serve(start, events, files, choices) == (st.after, written + st.replies, TaskPanicked(st.outcome.panic))
  {
    assert events[i..][0] == events[i] && choices[i..][0] == choices[i];
    assert events[i..][1..] == events[i + 1..] && choices[i..][1..] == choices[i + 1..];
    ServeFirst(before, events[i..], files, choices[i..]);
    if st.outcome.Panicked? {
      AfterStopped(written, (st.after, [], TaskPanicked(st.outcome.panic)));
      assert written + st.replies == After(written, (st.after, st.replies, TaskPanicked(st.outcome.panic))).1;
    } else {
      AfterAfter(written, st.replies, Serve(st.after, events[i + 1..], files, choices[i + 1..]));
    }
  }

  /** The connection loop ends on any event other than a received request. */
  lemma ServeStopped(start: Session, events: seq<Event>, files: set<string>, choices: seq<nat>, i: nat,
                     written: seq<Reply>, before: Session)
    requires |choices| == |events| && i < |events| && !events[i].Received?
    requires Serve(start, events, files, choices) == After(written, Serve(before, events[i..], files, choices[i..]))
    ensures Serve(start, events, files, choices) == (before, written, Stopped(events[i]))
  {
    assert events[i..][0] == events[i];
    ServeFirst(before, events[i..], files, choices[i..]);
    AfterStopped(written, (before, [], Stopped(events[i])));
  }

  lemma Appended(a: seq<Reply>, b: seq<Reply>, c: seq<Reply>)
    ensures (a + b) + c == a + (b + c)
  {
  }

  lemma AfterNothing(run: (Session, seq<Reply>, End))
    ensures After([], run) == run
  {
    assert [] + run.1 == run.1;
  }

  lemma AfterAfter(a: seq<Reply>, b: seq<Reply>, run: (Session, seq<Reply>, End))
    ensures After(a, After(b, run)) == After(a + b, run)
  {
    assert a + (b + run.1) == (a + b) + run.1;
  }

  lemma AfterStopped(written: seq<Reply>, run: (Session, seq<Reply>, End))
    requires run.1 == []
    ensures After(written, run) == (run.0, written, run.2)
  {
    assert written + [] == written;
  }

  // ------------------------------------------------------------ the RTP sender

  /** What one turn of `send_rtp`'s `select!` delivers: an interval tick, with
      the clock's millisecond timestamp and whether `send_to` succeeds, or the
      shutdown signal. */
  datatype Wake = Tick(timestamp: bv32, sendOk: bool) | Shutdown

  /** A frame as the sender sends it: the stream's `u32` frame count after
      reading it, the tick's millisecond timestamp, and the frame's bytes. */
  datatype Outgoing = Outgoing(frameNum: bv32, timestamp: bv32, frame: seq<bv8>)

  /** The packet `send_rtp` builds for a frame: payload type 26, the frame
      number truncated to 16 bits as the sequence number, SSRC 0. */
  function Packet(o: Outgoing): RtpPacket {
    New(MJPEG, (o.frameNum & 0xFFFF) as bv16, o.timestamp, 0, o.frame)
  }

  /** Every datagram the sender writes decodes back to the packet it built,
      and so to its frame. */
  lemma PacketDecodes(o: Outgoing)
    ensures Decode(Encoded(Packet(o))) == Ok(Packet(o))
    ensures Decode(Encoded(Packet(o))).value.payload == o.frame
    ensures Decode(Encoded(Packet(o))).value.payloadType == MJPEG
  {
    DecodeNew(MJPEG, (o.frameNum & 0xFFFF) as bv16, o.timestamp, 0, o.frame);
  }

  /** `num` moved on by `k` frames, wrapping as a `u32` does. */
  function Advance(num: bv32, k: nat): bv32
    decreases k
  {
    if k == 0 then num else Advance(num, k - 1) + 1
  }

  /** The frames `sent` went out on the first ticks of `wakes` and are the
      first frames of `frames`, in order, numbered on from `num`. */
  predicate SentFrames(sent: seq<Outgoing>, num: bv32, wakes: seq<Wake>, frames: seq<seq<bv8>>)
    decreases |sent|
  {
    && |sent| <= |wakes| && |sent| <= |frames|
    && (sent != [] ==>
          && wakes[0].Tick?
          && sent[0] == Outgoing(num + 1, wakes[0].timestamp, frames[0])
          && SentFrames(sent[1..], num + 1, wakes[1..], frames[1..]))
  }

  /** `Advance` counts from the first step as well as from the last. */
  lemma {:induction false} AdvanceFirst(num: bv32, k: nat)
    ensures Advance(num + 1, k) == Advance(num, k + 1)
    decreases k
  {
    if k > 0 {
      AdvanceFirst(num, k - 1);
    }
  }

  /** Sending the next frame, numbered one past the last, extends the record. */
  lemma {:induction false} SentOneMore(sent: seq<Outgoing>, packet: Outgoing, num: bv32, wakes: seq<Wake>, frames: seq<seq<bv8>>)
    requires SentFrames(sent, num, wakes, frames)
    requires |sent| < |wakes| && |sent| < |frames| && wakes[|sent|].Tick?
    requires packet == Outgoing(Advance(num, |sent| + 1), wakes[|sent|].timestamp, frames[|sent|])
    ensures SentFrames(sent + [packet], num, wakes, frames)
    decreases |sent|
  {
    var more := sent + [packet];
    if sent == [] {
      assert more == [packet];
    } else {
      AdvanceFirst(num, |sent|);
      assert wakes[1..][|sent| - 1] == wakes[|sent|] && frames[1..][|sent| - 1] == frames[|sent|];
      SentOneMore(sent[1..], packet, num + 1, wakes[1..], frames[1..]);
      assert more[1..] == sent[1..] + [packet];
    }
  }

  /** The `k`-th packet sent carries the `k`-th frame, numbered `k + 1`
      frames on from `num`. */
  lemma {:induction false} SentFrameAt(sent: seq<Outgoing>, num: bv32, wakes: seq<Wake>, frames: seq<seq<bv8>>, k: nat)
    requires SentFrames(sent, num, wakes, frames) && k < |sent|
    ensures wakes[k].Tick? && sent[k] == Outgoing(Advance(num, k + 1), wakes[k].timestamp, frames[k])
    decreases k
  {
    if k > 0 {
      SentFrameAt(sent[1..], num + 1, wakes[1..], frames[1..], k - 1);
      AdvanceFirst(num, k);
    }
  }

  /** The datagrams written are the encoded packets of the frames, one for one. */
  predicate Datagrams(bytes: seq<seq<bv8>>, packets: seq<Outgoing>) {
    |bytes| == |packets| && forall k :: 0 <= k < |bytes| ==> bytes[k] == Encoded(Packet(packets[k]))
  }

  lemma DatagramsOneMore(bytes: seq<seq<bv8>>, packets: seq<Outgoing>, b: seq<bv8>, p: Outgoing)
    requires Datagrams(bytes, packets) && b == Encoded(Packet(p))
    ensures Datagrams(bytes + [b], packets + [p])
  {
    forall k | 0 <= k < |bytes| + 1 ensures (bytes + [b])[k] == Encoded(Packet((packets + [p])[k])) {
      if k < |bytes| {
        assert (bytes + [b])[k] == bytes[k] && (packets + [p])[k] == packets[k];
      }
    }
  }

  /** One more frame sent and its datagram delivered. */
  lemma Delivered(bytes: seq<seq<bv8>>, sent: seq<Outgoing>, b: seq<bv8>, packet: Outgoing,
                  num: bv32, wakes: seq<Wake>, frames: seq<seq<bv8>>)
    requires Datagrams(bytes, sent) && SentFrames(sent, num, wakes, frames)
    requires |sent| < |wakes| && |sent| < |frames| && wakes[|sent|].Tick?
    requires packet == Outgoing(Advance(num, |sent| + 1), wakes[|sent|].timestamp, frames[|sent|])
    requires b == Encoded(Packet(packet))
    ensures Datagrams(bytes + [b], sent + [packet]) && SentFrames(sent + [packet], num, wakes, frames)
  {
    SentOneMore(sent, packet, num, wakes, frames);
    DatagramsOneMore(bytes, sent, b, packet);
  }

  /** Every wake is a tick whose send succeeds, and there are more of them
      than frames: nothing but the end of the stream stops the sender. */
  predicate Unhindered(wakes: seq<Wake>, frames: nat) {
    |wakes| > frames && forall k :: 0 <= k < |wakes| ==> wakes[k].Tick? && wakes[k].sendOk
  }

  /** The first `n` wakes were ticks whose sends succeeded: only those
      delivered a datagram. */
  predicate SentOk(wakes: seq<Wake>, n: nat) {
    n <= |wakes| && forall k :: 0 <= k < n ==> wakes[k].Tick? && wakes[k].sendOk
  }

  /** One more successful tick extends the successful run. */
  lemma SentOkOneMore(wakes: seq<Wake>, n: nat)
    requires SentOk(wakes, n) && n < |wakes| && wakes[n].Tick? && wakes[n].sendOk
    ensures SentOk(wakes, n + 1)
  {
  }

  /** The sender stops after `n` packets only for a reason `send_rtp`
      breaks on: no wakes left, no frames left (end of stream or a read
      error), or wake `n` is the shutdown signal or a tick whose send failed. */
  predicate StoppedAt(wakes: seq<Wake>, frames: nat, n: nat) {
    n == |wakes| || n == frames || (n < |wakes| && (!wakes[n].Tick? || !wakes[n].sendOk))
  }

  /** One tick of `send_rtp` up to the packet: reads the next frame and
      numbers it with the stream's new frame count; nothing when the stream
      has ended or the read fails. */
  method NextOutgoing(stream: VideoStream, timestamp: bv32) returns (packet: Option<Outgoing>)
    requires stream.Valid()
    modifies stream
    ensures stream.Valid() && old(stream.pos) <= stream.pos
    ensures var frames := ReadAll(stream.data[old(stream.pos)..]).0;
      && (packet.None? ==> frames == [])
      && (packet.Some? ==>
            && frames != [] && frames[1..] == ReadAll(stream.data[stream.pos..]).0
            && stream.frameNum == old(stream.frameNum) + 1
            && packet.value == Outgoing(stream.frameNum, timestamp, frames[0]))
  {
    ghost var p := stream.pos;
    var r := stream.NextFrame();
    ReadAllAt(stream.data, p, stream.pos, r);
    if r.Err? || r.value.None? {
      return None;
    }
    var frameNum := stream.FrameNumber();
    return Some(Outgoing(frameNum, timestamp, r.value.value));
  }

  /** Where the sender stands after `i` ticks: the stream is past the first
      `i` frames and has counted them. */
  ghost predicate StreamAt(stream: VideoStream, frames: seq<seq<bv8>>, startNum: bv32, i: nat)
    reads stream
  {
    && stream.Valid() && i <= |frames|
    && ReadAll(stream.data[stream.pos..]).0 == frames[i..]
    && stream.frameNum == Advance(startNum, i)
  }

  /** Dropping one more element of a sequence. */
  lemma DropOneMore<T>(s: seq<T>, i: nat)
    requires i < |s|
    ensures s[i..][0] == s[i] && s[i..][1..] == s[i + 1..]
  {
  }

  /** One tick of `send_rtp`: nothing when the loop stops (shutdown, end of
      stream, read error, failed send), else the frame it sent, numbered one
      past the last. */
  method SendTick(stream: VideoStream, wake: Wake, i: nat, ghost frames: seq<seq<bv8>>, ghost startNum: bv32)
    returns (more: Option<Outgoing>)
    requires StreamAt(stream, frames, startNum, i)
    modifies stream
    ensures stream.Valid()
    ensures more.Some? ==>
      && i < |frames| && StreamAt(stream, frames, startNum, i + 1) && wake.Tick? && wake.sendOk
      && more.value == Outgoing(Advance(startNum, i + 1), wake.timestamp, frames[i])
    ensures more.None? ==> !wake.Tick? || !wake.sendOk || i == |frames|
  {
    if wake.Shutdown? {
      return None;
    }
    var packet := NextOutgoing(stream, wake.timestamp);
    if packet.None? || !wake.sendOk {
      return None;
    }
    DropOneMore(frames, i);
    return packet;
  }

  /** The loop of `send_rtp` over a stream whose remaining frames are `frames`,
      counted on from `startNum`. */
  method SendLoop(stream: VideoStream, wakes: seq<Wake>, ghost frames: seq<seq<bv8>>, ghost startNum: bv32)
    returns (datagrams: seq<seq<bv8>>, ghost packets: seq<Outgoing>)
    requires StreamAt(stream, frames, startNum, 0)
    modifies stream
    ensures stream.Valid()
    ensures Datagrams(datagrams, packets) && SentFrames(packets, startNum, wakes, frames)
    ensures SentOk(wakes, |packets|) && StoppedAt(wakes, |frames|, |packets|)
    ensures Unhindered(wakes, |frames|) ==> |packets| == |frames|
  {
    datagrams, packets := [], [];
    var i := 0;
    while i < |wakes|
      invariant StreamAt(stream, frames, startNum, i) && i <= |wakes| && |packets| == i
      invariant Datagrams(datagrams, packets) && SentFrames(packets, startNum, wakes, frames)
      invariant SentOk(wakes, i)
    {
      var more := SendTick(stream, wakes[i], i, frames, startNum);
      if more.None? {
        assert StoppedAt(wakes, |frames|, i);
        break;
      }
      SentOkOneMore(wakes, i);
      var bytes := Encode(Packet(more.value));
      Delivered(datagrams, packets, bytes, more.value, startNum, wakes, frames);
      datagrams, packets := datagrams + [bytes], packets + [more.value];
      i := i + 1;
    }
  }

  /** `send_rtp`: on each tick reads the next frame and sends its encoded RTP
      packet; stops at the end of the stream, on a read error, on a failed
      send or on the shutdown signal. `datagrams` holds the bytes delivered,
      the encodings of `packets`: the stream's frames in order, numbered on
      from its frame counter. */
  method SendRtp(stream: VideoStream, wakes: seq<Wake>) returns (datagrams: seq<seq<bv8>>, ghost packets: seq<Outgoing>)
    requires stream.Valid()
    modifies stream
    ensures stream.Valid()
    ensures var frames := ReadAll(stream.data[old(stream.pos)..]).0;
      && Datagrams(datagrams, packets)
      && SentFrames(packets, old(stream.frameNum), wakes, frames)
      && SentOk(wakes, |packets|) && StoppedAt(wakes, |frames|, |packets|)
      && (Unhindered(wakes, |frames|) ==> |packets| == |frames|)
  {
    ghost var frames := ReadAll(stream.data[stream.pos..]).0;
    assert frames[0..] == frames;
    datagrams, packets := SendLoop(stream, wakes, frames, stream.frameNum);
  }
}
