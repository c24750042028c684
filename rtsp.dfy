/** The RTSP 1.0 subset of RFC 2326 the streamer speaks: the Request-Line of
    section 6.1, the Status-Line of section 7.1 and the CSeq, Session and
    Transport headers of sections 12.17, 12.37 and 12.39. Each parser is a
    specification function (`RequestOf`, `ResponseOf`) and a method that fills
    the header map line by line as the source does, proved equal to it. */
module Rtsp {
  import opened Wrappers
  import opened Text

  const RTSP_VERSION: string := "RTSP/1.0"

  datatype RequestType = Setup | Play | Pause | Teardown

  /** A parsed request; `cseq` and `sessionId` are `u32`, `clientPort` is `u16`. */
  datatype Request = Request(
    requestType: RequestType,
    filename: string,
    cseq: nat,
    transport: Option<string>,
    clientPort: Option<nat>,
    sessionId: Option<nat>)

  /** A parsed response: a `u16` status code and `u32` CSeq and session id. */
  datatype Response = Response(statusCode: nat, cseq: nat, sessionId: nat)

  /** The errors the two parsers report, one per `anyhow!`/`bail!`/`?` site. */
  datatype ParseError =
    | EmptyRequest
    | MissingMethod
    | MissingFilename
    | MissingVersion
    | UnsupportedMethod(name: string)
    | EmptyResponse
    | MissingStatusCode
    | InvalidStatusCode(text: string)
    | MissingCSeq
    | InvalidCSeq(text: string)
    | MissingSession
    | InvalidSession(text: string)
    | InvalidClientPort(text: string)

  /** `RequestType::as_str`; the method match of `parse` reads it back. */
  function AsStr(t: RequestType): string {
    match t
    case Setup => "SETUP"
    case Play => "PLAY"
    case Pause => "PAUSE"
    case Teardown => "TEARDOWN"
  }

  /** The method match of `RtspRequest::parse`: exact, case-sensitive names only. */
  function RequestTypeOf(s: string): (r: Option<RequestType>)
    ensures r.Some? <==> s in ["SETUP", "PLAY", "PAUSE", "TEARDOWN"]
    ensures r.Some? ==> AsStr(r.value) == s
  {
    if s == "SETUP" then Some(Setup)
    else if s == "PLAY" then Some(Play)
    else if s == "PAUSE" then Some(Pause)
    else if s == "TEARDOWN" then Some(Teardown)
    else None
  }

  /** Every method name `as_str` writes is read back as that method. */
  lemma AsStrRoundTrip(t: RequestType)
    ensures RequestTypeOf(AsStr(t)) == Some(t)
  {
  }

  // ------------------------------------------------------------ headers

  /** The entry a header line contributes: split at the first ':', the key
      trimmed and lower-cased, the value trimmed; no ':' contributes nothing. */
  function HeaderField(line: string): (f: Option<(string, string)>)
    ensures f.None? <==> ':' !in line
  {
    match SplitOnce(line, ':')
    case None => None
    case Some((key, value)) => Some((AsciiLower(Trim(key)), Trim(value)))
  }

  /** A header line as the client and the server write it. */
  function HeaderText(name: string, value: string): string {
    name + ": " + value
  }

  /** `Name: value`, with no space or ':' in the name and no space around
      the value, is the header `name` in lower case with that value. */
  lemma HeaderLine(name: string, value: string)
    requires ':' !in name && NoWhitespace(name) && Trimmed(value)
    ensures HeaderField(HeaderText(name, value)) == Some((AsciiLower(name), value))
  {
    var line := name + ": " + value;
    assert SplitOnce(line, ':') == Some((name, " " + value)) by {
      assert line == name + [':'] + (" " + value);
      SplitOnceAt(name, ':', " " + value);
    }
    assert Trim(name) == name by {
      TrimOfNoWhitespace(name);
    }
    assert Trim(" " + value) == value by {
      TrimAfterWhitespace(" ", value);
    }
  }

  /** The header names the client and the server write, as `parse` sees them. */
  lemma HeaderNames()
    ensures ':' !in "CSeq" && NoWhitespace("CSeq") && AsciiLower("CSeq") == "cseq"
    ensures ':' !in "Session" && NoWhitespace("Session") && AsciiLower("Session") == "session"
    ensures ':' !in "Transport" && NoWhitespace("Transport") && AsciiLower("Transport") == "transport"
  {
    CSeqName();
    SessionName();
    TransportName();
  }

  lemma CSeqName()
    ensures ':' !in "CSeq" && NoWhitespace("CSeq") && AsciiLower("CSeq") == "cseq"
  {
  }

  lemma SessionName()
    ensures ':' !in "Session" && NoWhitespace("Session") && AsciiLower("Session") == "session"
  {
  }

  lemma TransportName()
    ensures ':' !in "Transport" && NoWhitespace("Transport") && AsciiLower("Transport") == "transport"
  {
  }

  /** `headers.insert(key, value)` for one line. */
  function Insert(headers: map<string, string>, line: string): map<string, string> {
    match HeaderField(line)
    case None => headers
    case Some((key, value)) => headers[key := value]
  }

  /** The map after inserting the entries of `lines` in order. */
  function InsertAll(headers: map<string, string>, lines: seq<string>): map<string, string>
    decreases |lines|
  {
    if lines == [] then headers else InsertAll(Insert(headers, lines[0]), lines[1..])
  }

  /** A header line goes into the map before the lines after it. */
  lemma InsertAllField(headers: map<string, string>, lines: seq<string>, key: string, value: string)
    requires lines != [] && HeaderField(lines[0]) == Some((key, value))
    ensures InsertAll(headers, lines) == InsertAll(headers[key := value], lines[1..])
  {
  }

  /** A line without ':' leaves the map as it is. */
  lemma InsertAllSkip(headers: map<string, string>, lines: seq<string>)
    requires lines != [] && HeaderField(lines[0]).None?
    ensures InsertAll(headers, lines) == InsertAll(headers, lines[1..])
  {
  }

  /** Two header lines followed by a line without ':' give exactly those two
      headers, the later one winning on the same name. */
  lemma TwoHeaders(l0: string, l1: string, l2: string, k0: string, v0: string, k1: string, v1: string)
    requires HeaderField(l0) == Some((k0, v0)) && HeaderField(l1) == Some((k1, v1)) && HeaderField(l2).None?
    ensures ResponseHeaders([l0, l1, l2]) == map[k0 := v0][k1 := v1]
  {
    var ls := [l0, l1, l2];
    InsertAllField(map[], ls, k0, v0);
    assert ls[1..] == [l1, l2];
    InsertAllField(map[k0 := v0], ls[1..], k1, v1);
    assert ls[1..][1..] == [l2];
    InsertAllSkip(map[k0 := v0][k1 := v1], ls[1..][1..]);
  }

  lemma UntilBlankOfTwo(l0: string, l1: string)
    requires l0 != [] && l1 != []
    ensures UntilBlank([l0, l1, ""]) == [l0, l1]
  {
    var ls := [l0, l1, ""];
    assert ls[1..] == [l1, ""] && ls[1..][1..] == [""];
    assert UntilBlank(ls[1..][1..]) == [];
    assert UntilBlank(ls[1..]) == [l1];
  }

  /** Two header lines and the blank line after them give exactly those two
      headers, the later one winning on the same name. */
  lemma TwoRequestHeaders(l0: string, l1: string, k0: string, v0: string, k1: string, v1: string)
    requires HeaderField(l0) == Some((k0, v0)) && HeaderField(l1) == Some((k1, v1))
    ensures RequestHeaders([l0, l1, ""]) == map[k0 := v0][k1 := v1]
  {
    assert ':' in l0 && ':' in l1;
    UntilBlankOfTwo(l0, l1);
    TwoHeaders(l0, l1, "", k0, v0, k1, v1);
    assert [l0, l1, ""] == [l0, l1] + [""];
    InsertAllAppend(map[], [l0, l1], [""]);
    InsertAllSkip(InsertAll(map[], [l0, l1]), [""]);
  }

  /** The lines before the first empty one. */
  function UntilBlank(lines: seq<string>): (r: seq<string>)
    ensures |r| <= |lines| && r == lines[..|r|]
    ensures forall i :: 0 <= i < |r| ==> r[i] != []
    ensures |r| < |lines| ==> lines[|r|] == []
  {
    if lines == [] || lines[0] == [] then [] else [lines[0]] + UntilBlank(lines[1..])
  }

  /** The header map of a request: scanning stops at the first empty line. */
  function RequestHeaders(lines: seq<string>): map<string, string> {
    InsertAll(map[], UntilBlank(lines))
  }

  /** The header map of a response: every line is scanned. */
  function ResponseHeaders(lines: seq<string>): map<string, string> {
    InsertAll(map[], lines)
  }

  lemma {:induction false} InsertAllAppend(headers: map<string, string>, a: seq<string>, b: seq<string>)
    ensures InsertAll(headers, a + b) == InsertAll(InsertAll(headers, a), b)
    decreases |a|
  {
    if a == [] {
      assert a + b == b;
    } else {
      assert (a + b)[1..] == a[1..] + b;
      InsertAllAppend(Insert(headers, a[0]), a[1..], b);
    }
  }

  /** A key that no line sets keeps the value it had. */
  lemma {:induction false} InsertAllKeeps(headers: map<string, string>, lines: seq<string>, key: string)
    requires forall i :: 0 <= i < |lines| ==> HeaderField(lines[i]).None? || HeaderField(lines[i]).value.0 != key
    ensures key in InsertAll(headers, lines) <==> key in headers
    ensures key in headers ==> InsertAll(headers, lines)[key] == headers[key]
    decreases |lines|
  {
    if lines != [] {
      var next := Insert(headers, lines[0]);
      assert key in next <==> key in headers;
      assert key in headers ==> next[key] == headers[key];
      forall i | 0 <= i < |lines[1..]|
        ensures HeaderField(lines[1..][i]).None? || HeaderField(lines[1..][i]).value.0 != key
      {
        assert lines[1..][i] == lines[i + 1];
      }
      InsertAllKeeps(next, lines[1..], key);
    }
  }

  /** A repeated header keeps its last value: the line that sets `key` last decides. */
  lemma LastValueWins(headers: map<string, string>, before: seq<string>, line: string, after: seq<string>)
    requires HeaderField(line).Some?
    requires forall i :: 0 <= i < |after| ==> HeaderField(after[i]).None? || HeaderField(after[i]).value.0 != HeaderField(line).value.0
    ensures HeaderField(line).value.0 in InsertAll(headers, before + [line] + after)
    ensures InsertAll(headers, before + [line] + after)[HeaderField(line).value.0] == HeaderField(line).value.1
  {
    var (key, value) := HeaderField(line).value;
    var upTo := InsertAll(headers, before + [line]);
    InsertAllAppend(headers, before + [line], after);
    InsertAllAppend(headers, before, [line]);
    assert [line][1..] == [];
    assert InsertAll(InsertAll(headers, before), [line]) == Insert(InsertAll(headers, before), line);
    assert key in upTo && upTo[key] == value;
    InsertAllKeeps(upTo, after, key);
  }

  /** Request header scanning ends at the first empty line: nothing after it counts. */
  lemma {:induction false} RequestHeadersStopAtBlank(before: seq<string>, after: seq<string>)
    requires forall i :: 0 <= i < |before| ==> before[i] != []
    ensures RequestHeaders(before + [[]] + after) == InsertAll(map[], before)
  {
    assert UntilBlank(before + [[]] + after) == before by {
      UntilBlankPrefix(before, after);
    }
  }

  lemma {:induction false} UntilBlankPrefix(before: seq<string>, after: seq<string>)
    requires forall i :: 0 <= i < |before| ==> before[i] != []
    ensures UntilBlank(before + [[]] + after) == before
    decreases |before|
  {
    if before == [] {
      assert (before + [[]] + after)[0] == [];
    } else {
      assert (before + [[]] + after)[1..] == before[1..] + [[]] + after;
      UntilBlankPrefix(before[1..], after);
    }
  }

  /** Response header scanning goes on past an empty line. */
  lemma ResponseHeadersSkipBlank(before: seq<string>, after: seq<string>)
    ensures ResponseHeaders(before + [[]] + after) == InsertAll(ResponseHeaders(before), after)
  {
    InsertAllAppend(map[], before + [[]], after);
    InsertAllAppend(map[], before, [[]]);
  }

  // ------------------------------------------------------------ transport

  const CLIENT_PORT := "client_port="

  /** Index of the first part whose trimmed form starts with `prefix`, or the
      number of parts when there is none (`find_map` over the parts). */
  function FirstWithPrefix(parts: seq<string>, prefix: string): (i: nat)
    ensures i <= |parts|
    ensures i < |parts| ==> StartsWith(Trim(parts[i]), prefix)
  {
    if parts == [] then 0
    else if StartsWith(Trim(parts[0]), prefix) then 0
    else
      var k := FirstWithPrefix(parts[1..], prefix);
      assert k < |parts| - 1 ==> parts[1..][k] == parts[k + 1];
      1 + k
  }

  /** No part before the one found starts with `prefix`. */
  lemma {:induction false} FirstWithPrefixIsFirst(parts: seq<string>, prefix: string, j: nat)
    requires j < FirstWithPrefix(parts, prefix)
    ensures !StartsWith(Trim(parts[j]), prefix)
  {
    if j > 0 {
      FirstWithPrefixIsFirst(parts[1..], prefix, j - 1);
      assert parts[1..][j - 1] == parts[j];
    }
  }

  /** The `client_port` of a Transport value: absent when no part names one;
      otherwise the first part that names one decides, and its trimmed value
      is the port when it parses as a `u16` and an error when it does not. */
  function ClientPortOf(transport: string): (r: Result<Option<nat>, ParseError>)
    ensures r.Ok? && r.value.Some? ==> r.value.value < U16_LIMIT
    ensures FirstWithPrefix(Split(transport, ';'), CLIENT_PORT) == |Split(transport, ';')| ==> r == Ok(None)
    ensures var parts := Split(transport, ';');
      var i := FirstWithPrefix(parts, CLIENT_PORT);
      i < |parts| ==>
        var text := Trim(StripPrefix(Trim(parts[i]), CLIENT_PORT).value);
        && (r.Err? <==> ParseUnsigned(text, U16_LIMIT).None?)
        && (r.Err? ==> r.error == InvalidClientPort(text))
        && (r.Ok? ==> r.value == ParseUnsigned(text, U16_LIMIT))
  {
    var parts := Split(transport, ';');
    var i := FirstWithPrefix(parts, CLIENT_PORT);
    if i == |parts| then Ok(None)
    else
      var text := Trim(StripPrefix(Trim(parts[i]), CLIENT_PORT).value);
      match ParseUnsigned(text, U16_LIMIT)
      case None => Err(InvalidClientPort(text))
      case Some(port) => Ok(Some(port))
  }

  // ------------------------------------------------------------ requests

  /** What `RtspRequest::parse` does once the request line is read and the
      header map is filled: CSeq, then Session, then Transport. */
  function RequestFromHeaders(requestType: RequestType, filename: string, headers: map<string, string>): (r: Result<Request, ParseError>)
    ensures "cseq" !in headers ==> r == Err(MissingCSeq)
    ensures r.Ok? <==>
      && "cseq" in headers && ParseUnsigned(headers["cseq"], U32_LIMIT).Some?
      && ("session" in headers ==> ParseUnsigned(headers["session"], U32_LIMIT).Some?)
      && ("transport" in headers ==> ClientPortOf(headers["transport"]).Ok?)
    ensures r.Ok? ==>
      && r.value.requestType == requestType && r.value.filename == filename
      && Some(r.value.cseq) == ParseUnsigned(headers["cseq"], U32_LIMIT)
      && (r.value.sessionId.Some? <==> "session" in headers)
      && (r.value.sessionId.Some? ==> Some(r.value.sessionId.value) == ParseUnsigned(headers["session"], U32_LIMIT))
      && (r.value.transport.Some? <==> "transport" in headers)
      && (r.value.transport.Some? ==>
            (r.value.transport.value == headers["transport"] && Ok(r.value.clientPort) == ClientPortOf(headers["transport"])))
      && (r.value.transport.None? ==> r.value.clientPort.None?)
  {
    if "cseq" !in headers then Err(MissingCSeq)
    else
      match ParseUnsigned(headers["cseq"], U32_LIMIT)
      case None => Err(InvalidCSeq(headers["cseq"]))
      case Some(cseq) =>
        var session :=
          if "session" !in headers then Ok(None)
          else match ParseUnsigned(headers["session"], U32_LIMIT)
            case None => Err(InvalidSession(headers["session"]))
            case Some(id) => Ok(Some(id));
        if session.Err? then Err(session.error)
        else if "transport" !in headers then Ok(Request(requestType, filename, cseq, None, None, session.value))
        else
          match ClientPortOf(headers["transport"])
          case Err(e) => Err(e)
          case Ok(port) => Ok(Request(requestType, filename, cseq, Some(headers["transport"]), port, session.value))
  }

  /** `RtspRequest::parse`: a request line of at least three tokens (method,
      filename, an unchecked version), a supported method, then the headers
      up to the first empty line. */
  function RequestOf(data: string): (r: Result<Request, ParseError>)
    ensures data == [] ==> r == Err(EmptyRequest)
    ensures r.Ok? ==>
      && Lines(data) != [] && |Tokens(Lines(data)[0])| >= 3
      && AsStr(r.value.requestType) == Tokens(Lines(data)[0])[0]
      && r.value.filename == Tokens(Lines(data)[0])[1]
      && IsToken(r.value.filename)
      && r.value.cseq < U32_LIMIT
      && (r.value.sessionId.Some? ==> r.value.sessionId.value < U32_LIMIT)
  {
    var lines := Lines(data);
    if lines == [] then Err(EmptyRequest)
    else
      var parts := Tokens(lines[0]);
      if |parts| == 0 then Err(MissingMethod)
      else if |parts| == 1 then Err(MissingFilename)
      else if |parts| == 2 then Err(MissingVersion)
      else
        match RequestTypeOf(parts[0])
        case None => Err(UnsupportedMethod(parts[0]))
        case Some(requestType) => RequestFromHeaders(requestType, parts[1], RequestHeaders(lines[1..]))
  }

  /** A request line of exactly a method, a file name and a version leaves the
      rest to the headers. */
  lemma RequestOfLine(data: string, requestType: RequestType, filename: string, version: string)
    requires Lines(data) != [] && Tokens(Lines(data)[0]) == [AsStr(requestType), filename, version]
    ensures RequestOf(data) == RequestFromHeaders(requestType, filename, RequestHeaders(Lines(data)[1..]))
  {
    AsStrRoundTrip(requestType);
  }

  /** `RtspRequest::parse` as the source runs it: the header map is filled by a
      loop over the remaining lines that stops at the first empty one. */
  method ParseRequest(data: string) returns (r: Result<Request, ParseError>)
    ensures r == RequestOf(data)
  {
    var lines := Lines(data);
    if lines == [] {
      return Err(EmptyRequest);
    }
    var parts := Tokens(lines[0]);
    if |parts| == 0 {
      return Err(MissingMethod);
    }
    if |parts| == 1 {
      return Err(MissingFilename);
    }
    if |parts| == 2 {
      return Err(MissingVersion);
    }
    var requestType;
    match RequestTypeOf(parts[0]) {
      case None => return Err(UnsupportedMethod(parts[0]));
      case Some(t) => requestType := t;
    }
    var headers: map<string, string> := map[];
    var i := 1;
    while i < |lines|
      invariant 1 <= i <= |lines|
      invariant InsertAll(headers, UntilBlank(lines[i..])) == RequestHeaders(lines[1..])
    {
      if lines[i] == [] {
        break;
      }
      assert UntilBlank(lines[i..]) == [lines[i]] + UntilBlank(lines[i + 1..]) by {
        assert lines[i..][1..] == lines[i + 1..];
      }
      match SplitOnce(lines[i], ':') {
        case Some((key, value)) => headers := headers[AsciiLower(Trim(key)) := Trim(value)];
        case None =>
      }
      i := i + 1;
    }
    r := RequestFromHeaders(requestType, parts[1], headers);
  }

  /** Only the first two tokens of the request line matter; the version token
      must be present but is never examined. */
  lemma VersionIsNotChecked(a: string, b: string)
    requires Lines(a) != [] && Lines(b) != [] && Lines(a)[1..] == Lines(b)[1..]
    requires |Tokens(Lines(a)[0])| >= 3 && |Tokens(Lines(b)[0])| >= 3
    requires Tokens(Lines(a)[0])[..2] == Tokens(Lines(b)[0])[..2]
    ensures RequestOf(a) == RequestOf(b)
  {
    assert Tokens(Lines(a)[0])[0] == Tokens(Lines(a)[0])[..2][0];
    assert Tokens(Lines(a)[0])[1] == Tokens(Lines(a)[0])[..2][1];
  }

  // ------------------------------------------------------------ responses

  /** What `RtspResponse::parse` does once the header map is filled: CSeq
      and Session are both mandatory `u32` values. */
  function ResponseFromHeaders(statusCode: nat, headers: map<string, string>): (r: Result<Response, ParseError>)
    ensures r.Ok? <==>
      && "cseq" in headers && ParseUnsigned(headers["cseq"], U32_LIMIT).Some?
      && "session" in headers && ParseUnsigned(headers["session"], U32_LIMIT).Some?
    ensures r.Ok? ==>
      && r.value.statusCode == statusCode
      && Some(r.value.cseq) == ParseUnsigned(headers["cseq"], U32_LIMIT)
      && Some(r.value.sessionId) == ParseUnsigned(headers["session"], U32_LIMIT)
  {
    if "cseq" !in headers then Err(MissingCSeq)
    else
      match ParseUnsigned(headers["cseq"], U32_LIMIT)
      case None => Err(InvalidCSeq(headers["cseq"]))
      case Some(cseq) =>
        if "session" !in headers then Err(MissingSession)
        else
          match ParseUnsigned(headers["session"], U32_LIMIT)
          case None => Err(InvalidSession(headers["session"]))
          case Some(id) => Ok(Response(statusCode, cseq, id))
  }

  /** `RtspResponse::parse`: the second token of the status line is a `u16`
      status code; the version token is not required. */
  function ResponseOf(data: string): (r: Result<Response, ParseError>)
    ensures data == [] ==> r == Err(EmptyResponse)
    ensures r.Ok? ==>
      && Lines(data) != [] && |Tokens(Lines(data)[0])| >= 2
      && Some(r.value.statusCode) == ParseUnsigned(Tokens(Lines(data)[0])[1], U16_LIMIT)
      && r.value.cseq < U32_LIMIT && r.value.sessionId < U32_LIMIT
  {
    var lines := Lines(data);
    if lines == [] then Err(EmptyResponse)
    else
      var parts := Tokens(lines[0]);
      if |parts| < 2 then Err(MissingStatusCode)
      else
        match ParseUnsigned(parts[1], U16_LIMIT)
        case None => Err(InvalidStatusCode(parts[1]))
        case Some(code) => ResponseFromHeaders(code, ResponseHeaders(lines[1..]))
  }

  /** `RtspResponse::parse` as the source runs it: every remaining line goes
      through the header loop. */
  method ParseResponse(data: string) returns (r: Result<Response, ParseError>)
    ensures r == ResponseOf(data)
  {
    var lines := Lines(data);
    if lines == [] {
      return Err(EmptyResponse);
    }
    var parts := Tokens(lines[0]);
    if |parts| < 2 {
      return Err(MissingStatusCode);
    }
    var statusCode;
    match ParseUnsigned(parts[1], U16_LIMIT) {
      case None => return Err(InvalidStatusCode(parts[1]));
      case Some(code) => statusCode := code;
    }
    var headers: map<string, string> := map[];
    var i := 1;
    while i < |lines|
      invariant 1 <= i <= |lines|
      invariant InsertAll(headers, lines[i..]) == ResponseHeaders(lines[1..])
    {
      assert lines[i..][1..] == lines[i + 1..];
      match SplitOnce(lines[i], ':') {
        case Some((key, value)) => headers := headers[AsciiLower(Trim(key)) := Trim(value)];
        case None =>
      }
      i := i + 1;
    }
    r := ResponseFromHeaders(statusCode, headers);
  }
}
