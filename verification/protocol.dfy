/** Splitting the messages of the websocket (tydomio/protocol.py:23-117). */
module Protocol {
  import opened Collections
  import opened WireText
  import opened Chunked
  import opened Text

  const END := "\r\n\r\n"

  // ---- text ----

  predicate IsAscii(s: string) {
    forall i :: 0 <= i < |s| ==> s[i] as int < 128
  }

  function LowerChar(c: char): char {
    if 'A' <= c <= 'Z' then c + 32 as char else c
  }

  /** `str.lower` of ASCII text */
  function Lower(s: string): (r: string)
    ensures |r| == |s|
  {
    seq(|s|, i requires 0 <= i < |s| => LowerChar(s[i]))
  }

  /** `split("\r\n")` */
  function SplitLines(s: string): seq<string>
    decreases |s|
  {
    match Find(s, CRLF)
    case None => [s]
    case Some(i) => [s[..i]] + SplitLines(s[i + 2..])
  }

  /** `"\r\n".join` */
  function JoinLines(lines: seq<string>): string
    requires lines != []
  {
    if |lines| == 1 then lines[0] else lines[0] + CRLF + JoinLines(lines[1..])
  }

  // ---- headers ----

  /** A header line: its name, lower-case, and its value. */
  function HeaderOf(line: string): Option<(string, string)> {
    match Find(line, ":")
    case None => None
    case Some(i) => Some((Lower(Strip(line[..i], TextSpace)), Strip(line[i + 1..], TextSpace)))
  }

  type Headers = map<string, string>

  function ReadHeaders(lines: seq<string>): Result<Headers> {
    if lines == [] then Ok(map[])
    else
      match ReadHeaders(lines[..|lines| - 1])
      case Err(problem) => Err(problem)
      case Ok(headers) =>
        match HeaderOf(lines[|lines| - 1])
        case None => Err(NoColon)
        case Some((name, value)) => Ok(headers[name := value])
  }

  const TRANSFER_ENCODING := "transfer-encoding"

  /** `_decode_content` */
  function DecodeContent(body: string, headers: Headers): Result<string> {
    if TRANSFER_ENCODING !in headers then Ok(body)
    else if Lower(headers[TRANSFER_ENCODING]) != "chunked" then Err(UnsupportedEncoding)
    else Decode(body)
  }

  // ---- messages ----

  datatype Message = Message(startLine: string, headers: Headers, content: Option<string>)

  function OrNone(content: string): Option<string> {
    if content == "" then None else Some(content)
  }

  function SplitHead(head: string, body: string): Result<Message> {
    if !IsAscii(head) then Err(NotAscii)
    else
      var lines := SplitLines(head);
      match ReadHeaders(lines[1..])
      case Err(problem) => Err(problem)
      case Ok(headers) =>
        match DecodeContent(body, headers)
        case Err(problem) => Err(problem)
        case Ok(content) => Ok(Message(lines[0], headers, OrNone(content)))
  }

  function Split(message: string): Result<Message> {
    match Find(message, END)
    case None => Err(NoEndOfHeaders)
    case Some(i) => SplitHead(message[..i], message[i + 4..])
  }

  lemma {:induction false} ReadHeadersFails(lines: seq<string>, n: nat)
    requires n < |lines| && HeaderOf(lines[n]).None?
    ensures ReadHeaders(lines) == Err(NoColon)
  {
    if n < |lines| - 1 {
      ReadHeadersFails(lines[..|lines| - 1], n);
    } else {
      ReadHeadersProblem(lines[..n]);
    }
  }

  lemma {:induction false} ReadHeadersProblem(lines: seq<string>)
    ensures ReadHeaders(lines).Err? ==> ReadHeaders(lines) == Err(NoColon)
  {
    if lines != [] {
      ReadHeadersProblem(lines[..|lines| - 1]);
    }
  }

  /** The loop over the header lines. */
  method ReadAll(lines: seq<string>) returns (r: Result<Headers>)
    ensures r == ReadHeaders(lines)
  {
    var headers: Headers := map[];
    for i := 0 to |lines|
      invariant ReadHeaders(lines[..i]) == Ok(headers)
    {
      assert lines[..i + 1][..i] == lines[..i];
      var header := HeaderOf(lines[i]);
      if header.None? {
        ReadHeadersFails(lines, i);
        return Err(NoColon);
      }
      headers := headers[header.value.0 := header.value.1];
    }
    assert lines[..|lines|] == lines;
    r := Ok(headers);
  }

  /** `_split_message` */
  method SplitMessage(message: string) returns (r: Result<Message>)
    ensures r == Split(message)
  {
    var separator := Find(message, END);
    if separator.None? {
      return Err(NoEndOfHeaders);
    }
    var head, body := message[..separator.value], message[separator.value + 4..];
    if !IsAscii(head) {
      return Err(NotAscii);
    }
    var lines := SplitLines(head);
    var headers := ReadAll(lines[1..]);
    if headers.Err? {
      return Err(headers.problem);
    }
    var content := Content(body, headers.value);
    if content.Err? {
      return Err(content.problem);
    }
    return Ok(Message(lines[0], headers.value, OrNone(content.value)));
  }

  method Content(body: string, headers: Headers) returns (r: Result<string>)
    ensures r == DecodeContent(body, headers)
  {
    if TRANSFER_ENCODING !in headers {
      return Ok(body);
    }
    if Lower(headers[TRANSFER_ENCODING]) != "chunked" {
      return Err(UnsupportedEncoding);
    }
    r := DecodeChunked(body);
  }

  function RemovePrefix(message: string, prefix: string): string {
    if StartsWith(message, prefix) then message[|prefix|..] else message
  }

  // ---- what a message is ----

  const VERSION := "HTTP/1.1"

  datatype Parsed =
    | ParsedResponse(status: nat, headers: Headers, content: Option<string>)
    | ParsedRequest(method_: string, url: string, headers: Headers, content: Option<string>)
    | Refused(problem: Problem)
    | InvalidStatusLine
    | InvalidRequestLine

  /** `HTTP/1\.1 (\d{3})(?: .*)?`, the dot of the regular expression matching no line feed. */
  function StatusOf(line: string): Option<nat> {
    if StartsWith(line, VERSION + " ") && |line| >= 12 && IsDigit(line[9]) && IsDigit(line[10]) && IsDigit(line[11])
       && (|line| == 12 || (line[12] == ' ' && forall i :: 13 <= i < |line| ==> line[i] != '\n'))
    then Some(DecimalValue(line[9..12]))
    else None
  }

  /** Exactly three words, the last one the version: the method and the url. */
  function RequestLineOf(line: string): Option<(string, string)> {
    match Find(line, " ")
    case None => None
    case Some(i) =>
      match Find(line[i + 1..], " ")
      case None => None
      case Some(j) => if line[i + 1..][j + 1..] == VERSION then Some((line[..i], line[i + 1..][..j])) else None
  }

  /** `parse_message`, up to the classes of JSON requests. */
  function Parse(message: string, prefix: string): Parsed {
    var bare := RemovePrefix(message, prefix);
    match Split(bare)
    case Err(problem) => Refused(problem)
    case Ok(m) =>
      if StartsWith(bare, VERSION + " ") then
        match StatusOf(m.startLine)
        case None => InvalidStatusLine
        case Some(status) => ParsedResponse(status, m.headers, m.content)
      else
        match RequestLineOf(m.startLine)
        case None => InvalidRequestLine
        case Some((verb, url)) => ParsedRequest(verb, url, m.headers, m.content)
  }

  // ---- splitting what was joined ----

  /** Lines a head can hold: at least one, none empty, none with a line break. */
  predicate AreLines(lines: seq<string>) {
    lines != [] && forall i :: 0 <= i < |lines| ==> lines[i] != "" && NoBreak(lines[i])
  }

  lemma {:induction false} SplitJoined(lines: seq<string>)
    requires AreLines(lines)
    ensures SplitLines(JoinLines(lines)) == lines
  {
    var head := JoinLines(lines);
    if |lines| == 1 {
      NoBreakNotFound(head);
      assert lines == [head];
    } else {
      var rest := JoinLines(lines[1..]);
      LineEnds(lines[0], rest);
      assert head[..|lines[0]|] == lines[0];
      assert head[|lines[0]| + 2..] == rest;
      SplitJoined(lines[1..]);
    }
  }

  lemma NoBreakNotFound(line: string)
    requires NoBreak(line)
    ensures Find(line, CRLF).None?
  {
    var found := Find(line, CRLF);
    if found.Some? {
      BeforeFirstIsLine(line, found.value);
    }
  }

  /** Two line breaks in a row. */
  predicate EndAt(s: string, i: nat) {
    BreakAt(s, i) && BreakAt(s, i + 2)
  }

  lemma EndIsFound(s: string, i: nat)
    requires i <= |s|
    ensures StartsWith(s[i..], END) <==> EndAt(s, i)
  {
    if i + 4 <= |s| {
      assert s[i..][..4] == [s[i], s[i + 1], s[i + 2], s[i + 3]];
    }
  }

  /** Nor within a line and the break after it, when what follows is a line that is not empty. */
  lemma NoEndInLine(line: string, next: string, rest: string, i: nat)
    requires NoBreak(line) && NoBreak(next) && next != "" && i < |line| + 2
    ensures !EndAt(line + CRLF + (next + CRLF + rest), i)
  {
    var s := line + CRLF + (next + CRLF + rest);
    assert !BreakAt(line, i) && !BreakAt(next, 0);
    assert s[|line|] == '\r' && s[|line| + 1] == '\n' && s[|line| + 2] == next[0];
  }

  lemma NoEndInLast(line: string, rest: string, i: nat)
    requires NoBreak(line) && i < |line|
    ensures !EndAt(line + CRLF + rest, i)
  {
    assert !BreakAt(line, i);
  }

  lemma EndShifts(before: string, s: string, i: nat)
    ensures EndAt(before + s, |before| + i) <==> EndAt(s, i)
  {
    assert forall k :: 0 <= k < |s| ==> (before + s)[|before| + k] == s[k];
  }

  /** What follows the first of some lines: a break and more. */
  lemma AfterFirst(lines: seq<string>, body: string)
    requires lines != []
    ensures exists rest :: JoinLines(lines) + END + body == lines[0] + CRLF + rest
  {
    if |lines| == 1 {
      assert JoinLines(lines) + END + body == lines[0] + CRLF + (CRLF + body);
    } else {
      assert JoinLines(lines) + END + body == lines[0] + CRLF + (JoinLines(lines[1..]) + END + body);
    }
  }

  lemma {:induction false} NoEndWithin(lines: seq<string>, body: string, i: nat)
    requires AreLines(lines) && i < |JoinLines(lines)|
    ensures !EndAt(JoinLines(lines) + END + body, i)
    decreases |lines|
  {
    var line, s := lines[0], JoinLines(lines) + END + body;
    if |lines| == 1 {
      assert s == line + CRLF + (CRLF + body);
      NoEndInLast(line, CRLF + body, i);
    } else {
      var t := JoinLines(lines[1..]) + END + body;
      assert s == line + CRLF + t;
      if i < |line| + 2 {
        AfterFirst(lines[1..], body);
        var rest :| t == lines[1] + CRLF + rest;
        NoEndInLine(line, lines[1], rest, i);
      } else {
        NoEndWithin(lines[1..], body, i - |line| - 2);
        EndShifts(line + CRLF, t, i - |line| - 2);
      }
    }
  }

  lemma HeadIsFound(lines: seq<string>, body: string)
    requires AreLines(lines)
    ensures Find(JoinLines(lines) + END + body, END) == Some(|JoinLines(lines)|)
  {
    var n := |JoinLines(lines)|;
    var s := JoinLines(lines) + END + body;
    forall i | 0 <= i < n
      ensures !StartsWith(s[i..], END)
    {
      NoEndWithin(lines, body, i);
      EndIsFound(s, i);
    }
    EndIsFound(s, n);
    FindIsFirst(s, END, n);
  }

  /** Lines joined, then any body, even one with line breaks in a row: split into the same. */
  lemma JoinedSplits(lines: seq<string>, body: string)
    requires AreLines(lines) && IsAscii(JoinLines(lines))
    ensures Split(JoinLines(lines) + END + body) ==
            match ReadHeaders(lines[1..])
            case Err(problem) => Err(problem)
            case Ok(headers) =>
              match DecodeContent(body, headers)
              case Err(problem) => Err(problem)
              case Ok(content) => Ok(Message(lines[0], headers, OrNone(content)))
  {
    HeadIsFound(lines, body);
    SplitJoined(lines);
    var message, head := JoinLines(lines) + END + body, JoinLines(lines);
    assert message[..|head|] == head && message[|head| + 4..] == body;
  }

  lemma PlainContent(lines: seq<string>, headers: Headers, content: string)
    requires AreLines(lines) && IsAscii(JoinLines(lines)) && ReadHeaders(lines[1..]) == Ok(headers)
    requires TRANSFER_ENCODING !in headers
    ensures Split(JoinLines(lines) + END + content) == Ok(Message(lines[0], headers, OrNone(content)))
  {
    JoinedSplits(lines, content);
  }

  /** The content of a chunked message is the data of its chunks, and None when there is none. */
  lemma ChunkedContent(lines: seq<string>, headers: Headers, chunks: seq<Chunk>, last: string)
    requires AreLines(lines) && IsAscii(JoinLines(lines)) && ReadHeaders(lines[1..]) == Ok(headers)
    requires TRANSFER_ENCODING in headers && Lower(headers[TRANSFER_ENCODING]) == "chunked"
    requires IsFraming(chunks, last)
    ensures Split(JoinLines(lines) + END + Framing(chunks, last)) ==
            Ok(Message(lines[0], headers, OrNone(Joined(chunks))))
  {
    JoinedSplits(lines, Framing(chunks, last));
    FramingDecodes(chunks, last);
  }
}
