/** The two programs together: what the client's requests make the server
    do, what the server's replies make the client do, and which frames the
    client shows of those the server sends. */
module Streaming {
  import opened Wrappers
  import opened Text
  import opened Rtsp
  import opened Rtp
  import Server
  import Client

  // ------------------------------------------------------------ one request, one reply

  /** The state the client reports for a server state. */
  function Mirror(s: Server.State): Client.ClientState {
    match s
    case Init => Client.Init
    case Ready => Client.Ready
    case Playing => Client.Playing
  }

  /** A reply as the client's `handle_command` reads it off the connection. */
  function ReadReply(r: Server.Reply): Client.Reply {
    var text := Server.ReplyText(r);
    Client.Reply(ResponseOf(text), Client.FirstLine(text))
  }

  /** The client reads every reply the server can write back as its code,
      CSeq and session id. */
  lemma ReadsReply(r: Server.Reply)
    requires Server.ValidReply(r)
    ensures ReadReply(r) == Client.Reply(Ok(Response(r.code, r.cseq, r.sessionId)), Server.StatusLine(r.code, r.status))
  {
    Server.ReplyParses(r);
    Server.LinesOfReply(r);
  }

  /** One command over the wire: the client writes its request text, the
      server parses that text and handles what it reads, and the client reads
      the server's first reply text. */
  function Exchange(args: Client.ClientArgs, w: Client.Worker, s: Server.Session, command: RequestType,
                    files: set<string>, choice: nat): (Server.Step, (Client.Worker, Result<bool, Client.ClientError>))
  {
    var o := Client.Outbound(command, Client.NextSeq(w.rtspSeq), w.sessionId);
    var st := Server.Receive(s, Client.RequestText(args, o), files, choice);
    var reply := if st.replies == [] then Client.NoReply(Client.ServerClosed) else ReadReply(st.replies[0]);
    (st, Client.Command(w, command, reply))
  }

  /** The server reads the client's request as the client meant it: never a
      400, but the handler's step on the request the client built. */
  lemma ServerReads(args: Client.ClientArgs, o: Client.Outbound, s: Server.Session, files: set<string>, choice: nat)
    requires IsToken(args.videoFile) && args.rtpPort < U16_LIMIT
    requires o.cseq < U32_LIMIT && o.sessionId < U32_LIMIT
    ensures Server.Receive(s, Client.RequestText(args, o), files, choice) == Server.Handle(s, Client.Parsed(args, o), files, choice)
  {
    Client.RequestParses(args, o);
  }

  /** A file name that is not one word (empty, or holding whitespace) never
      reaches the server as written: the request line is split at
      whitespace, so the server either refuses the text or reads another
      file name (the first word of it). */
  lemma MisreadName(args: Client.ClientArgs, o: Client.Outbound)
    requires !IsToken(args.videoFile)
    ensures var r := RequestOf(Client.RequestText(args, o));
      r.Ok? ==> r.value.filename != args.videoFile
  {
  }

  /** The client's view of a reply it has parsed. */
  function ParsedReply(r: Server.Reply): Client.Reply {
    Client.Reply(Ok(Response(r.code, r.cseq, r.sessionId)), Server.StatusLine(r.code, r.status))
  }

  /** The two sides agree on the outcome of `command`: the client accepts
      exactly what the server handled (SETUP: a file it can open); afterwards
      they hold the same session id; on every command but TEARDOWN the client
      reports the server's new state, while on TEARDOWN it reports Init and
      the server keeps its state; a refused command changes neither side's
      session, and the client logs the CSeq 0 of a 500 as a mismatch. */
  predicate Agreed(openable: bool, s: Server.Session, w: Client.Worker, command: RequestType,
                   st: Server.Step, w': Client.Worker, res: Result<bool, Client.ClientError>)
  {
    && (res.Ok? <==> !st.outcome.Failed? && (command == Setup ==> openable))
    && (res.Ok? <==> res == Ok(command == Teardown))
    && w'.sessionId == st.after.sessionId
    && (!res.Ok? ==> st.after == s && w'.toGui == w.toGui)
    && (res.Ok? && command != Teardown ==> w'.toGui == w.toGui + [Client.UpdateState(Mirror(st.after.state))])
    && (res.Ok? && command == Teardown ==> w'.toGui == w.toGui + [Client.UpdateState(Client.Init)] && st.after.state == s.state)
    && w'.warnings == (if st.outcome.Failed? && Client.NextSeq(w.rtspSeq) != 0
                       then w.warnings + [(Client.NextSeq(w.rtspSeq), 0)] else w.warnings)
  }

  /** The server's step on `command` and the client's handling of its first
      reply, once parsed. */
  function ParsedExchange(args: Client.ClientArgs, w: Client.Worker, s: Server.Session, command: RequestType,
                          files: set<string>, choice: nat): (Server.Step, (Client.Worker, Result<bool, Client.ClientError>))
  {
    var o := Client.Outbound(command, Client.NextSeq(w.rtspSeq), w.sessionId);
    var st := Server.Handle(s, Client.Parsed(args, o), files, choice);
    var reply := if st.replies == [] then Client.NoReply(Client.ServerClosed) else ParsedReply(st.replies[0]);
    (st, Client.Command(w, command, reply))
  }

  lemma SetupAgrees(args: Client.ClientArgs, w: Client.Worker, s: Server.Session, files: set<string>, choice: nat)
    requires Server.Sane(s) && Server.SESSION_MIN <= choice <= Server.SESSION_MAX
    requires w.sessionId == s.sessionId
    ensures var (st, (w', res)) := ParsedExchange(args, w, s, Setup, files, choice);
      Agreed(args.videoFile in files, s, w, Setup, st, w', res)
  {
    var o := Client.Outbound(Setup, Client.NextSeq(w.rtspSeq), w.sessionId);
    Server.HandleStep(s, Client.Parsed(args, o), files, choice);
  }

  lemma PlayAgrees(args: Client.ClientArgs, w: Client.Worker, s: Server.Session, files: set<string>, choice: nat)
    requires Server.Sane(s) && Server.SESSION_MIN <= choice <= Server.SESSION_MAX
    requires w.sessionId == s.sessionId
    ensures var (st, (w', res)) := ParsedExchange(args, w, s, Play, files, choice);
      Agreed(args.videoFile in files, s, w, Play, st, w', res)
  {
    var o := Client.Outbound(Play, Client.NextSeq(w.rtspSeq), w.sessionId);
    Server.HandleStep(s, Client.Parsed(args, o), files, choice);
  }

  lemma PauseAgrees(args: Client.ClientArgs, w: Client.Worker, s: Server.Session, files: set<string>, choice: nat)
    requires Server.Sane(s) && Server.SESSION_MIN <= choice <= Server.SESSION_MAX
    requires w.sessionId == s.sessionId
    ensures var (st, (w', res)) := ParsedExchange(args, w, s, Pause, files, choice);
      Agreed(args.videoFile in files, s, w, Pause, st, w', res)
  {
    var o := Client.Outbound(Pause, Client.NextSeq(w.rtspSeq), w.sessionId);
    Server.HandleStep(s, Client.Parsed(args, o), files, choice);
  }

  lemma TeardownAgrees(args: Client.ClientArgs, w: Client.Worker, s: Server.Session, files: set<string>, choice: nat)
    requires Server.Sane(s) && Server.SESSION_MIN <= choice <= Server.SESSION_MAX
    requires w.sessionId == s.sessionId
    ensures var (st, (w', res)) := ParsedExchange(args, w, s, Teardown, files, choice);
      Agreed(args.videoFile in files, s, w, Teardown, st, w', res)
  {
    var o := Client.Outbound(Teardown, Client.NextSeq(w.rtspSeq), w.sessionId);
    Server.HandleStep(s, Client.Parsed(args, o), files, choice);
  }

  /** Whatever the command, when the file name is one word and the RTP port
      a u16, the two sides agree on its outcome (`Agreed`) over the wire. */
  lemma ExchangeAgrees(args: Client.ClientArgs, w: Client.Worker, s: Server.Session, command: RequestType,
                       files: set<string>, choice: nat)
    requires IsToken(args.videoFile) && args.rtpPort < U16_LIMIT
    requires Server.Sane(s) && Server.SESSION_MIN <= choice <= Server.SESSION_MAX
    requires w.sessionId == s.sessionId
    ensures var (st, (w', res)) := Exchange(args, w, s, command, files, choice);
      Agreed(args.videoFile in files, s, w, command, st, w', res)
  {
    var o := Client.Outbound(command, Client.NextSeq(w.rtspSeq), w.sessionId);
    ServerReads(args, o, s, files, choice);
    var st := Server.Handle(s, Client.Parsed(args, o), files, choice);
    Server.HandleStep(s, Client.Parsed(args, o), files, choice);
    ReadsReply(st.replies[0]);
    match command
    case Setup => SetupAgrees(args, w, s, files, choice);
    case Play => PlayAgrees(args, w, s, files, choice);
    case Pause => PauseAgrees(args, w, s, files, choice);
    case Teardown => TeardownAgrees(args, w, s, files, choice);
  }

  // ------------------------------------------------------------ the frames

  /** The encoded packet is its header followed by its payload. */
  lemma EncodedLength(p: RtpPacket)
    ensures |Encoded(p)| == HEADER_SIZE + |p.payload|
  {
  }

  /** The client receives the datagrams the server wrote, whole, in order,
      each carrying a JPEG image, while the GUI is open. */
  predicate Received(arrivals: seq<Client.Arrival>, datagrams: seq<seq<bv8>>) {
    |arrivals| == |datagrams| && forall k :: 0 <= k < |arrivals| ==> arrivals[k] == Client.Datagram(datagrams[k], true, true)
  }

  /** Frames small enough that a packet of one fits the client's buffer. */
  predicate Fits(frames: seq<seq<bv8>>) {
    forall k :: 0 <= k < |frames| ==> HEADER_SIZE + |frames[k]| <= Client.RTP_BUFFER_SIZE
  }

  /** Each arrival is a datagram, received with the GUI open, whose bytes
      (cut to the buffer) decode as RTP with the matching frame as payload,
      a JPEG image. */
  predicate Carries(arrivals: seq<Client.Arrival>, frames: seq<seq<bv8>>) {
    |arrivals| <= |frames| &&
    forall k :: 0 <= k < |arrivals| ==>
      && arrivals[k].Datagram? && arrivals[k].isJpeg && arrivals[k].guiOpen
      && Decode(Client.Truncated(arrivals[k].bytes)).Ok?
      && Decode(Client.Truncated(arrivals[k].bytes)).value.payload == frames[k]
  }

  /** The client shows every frame carried, in order. */
  lemma {:induction false} ShowsCarried(arrivals: seq<Client.Arrival>, frames: seq<seq<bv8>>, i: nat)
    requires Carries(arrivals, frames) && i <= |arrivals|
    ensures Client.Listened(arrivals[i..]) == frames[i..|arrivals|]
    decreases |arrivals| - i
  {
    if i == |arrivals| {
      assert arrivals[i..] == [];
    } else {
      ShowsCarried(arrivals, frames, i + 1);
      assert arrivals[i..][0] == arrivals[i] && arrivals[i..][1..] == arrivals[i + 1..];
      assert frames[i..|arrivals|] == [frames[i]] + frames[i + 1..|arrivals|];
    }
  }

  /** The datagrams the server wrote, received whole, carry its frames. */
  lemma SentCarries(datagrams: seq<seq<bv8>>, packets: seq<Server.Outgoing>, num: bv32,
                    wakes: seq<Server.Wake>, frames: seq<seq<bv8>>, arrivals: seq<Client.Arrival>)
    requires Server.Datagrams(datagrams, packets) && Server.SentFrames(packets, num, wakes, frames)
    requires Fits(frames) && Received(arrivals, datagrams)
    ensures Carries(arrivals, frames)
  {
    forall k | 0 <= k < |arrivals|
      ensures Decode(Client.Truncated(arrivals[k].bytes)).Ok?
      ensures Decode(Client.Truncated(arrivals[k].bytes)).value.payload == frames[k]
    {
      Server.SentFrameAt(packets, num, wakes, frames, k);
      Server.PacketDecodes(packets[k]);
      EncodedLength(Server.Packet(packets[k]));
      assert arrivals[k].bytes == Encoded(Server.Packet(packets[k]));
    }
  }

  /** Every frame the server sends reaches the GUI unchanged and in order
      when every datagram arrives, and none but those. */
  lemma FramesArrive(datagrams: seq<seq<bv8>>, packets: seq<Server.Outgoing>, num: bv32,
                     wakes: seq<Server.Wake>, frames: seq<seq<bv8>>, arrivals: seq<Client.Arrival>)
    requires Server.Datagrams(datagrams, packets) && Server.SentFrames(packets, num, wakes, frames)
    requires Fits(frames) && Received(arrivals, datagrams)
    ensures Client.Listened(arrivals) == frames[..|packets|]
  {
    SentCarries(datagrams, packets, num, wakes, frames, arrivals);
    ShowsCarried(arrivals, frames, 0);
    assert arrivals[0..] == arrivals;
  }
}
