/** What `parse_message` accepts and refuses (tydomio/protocol.py:23-117), said over the text of the message. */
module Messages {
  import opened Collections
  import opened WireText
  import opened Chunked
  import opened Protocol
  import opened Requests
  import opened Text

  // ---- letters ----

  const UPPER_LETTERS := "ABCDEFGHIJKLMNOPQRSTUVWXYZ"
  const LOWER_LETTERS := "abcdefghijklmnopqrstuvwxyz"

  /** Names are compared with each letter of the upper case taken as that of the lower case. */
  lemma LowersLetters(c: char)
    ensures forall i :: 0 <= i < 26 && UPPER_LETTERS[i] == c ==> LowerChar(c) == LOWER_LETTERS[i]
    ensures c !in UPPER_LETTERS ==> LowerChar(c) == c
  {
    assert forall i :: 0 <= i < 26 ==> UPPER_LETTERS[i] as int == 'A' as int + i;
    assert forall i :: 0 <= i < 26 ==> LOWER_LETTERS[i] as int == 'a' as int + i;
    if 'A' <= c <= 'Z' {
      assert UPPER_LETTERS[c as int - 'A' as int] == c;
    }
  }

  // ---- spaces ----

  /** What is stripped: the six whitespace characters of bytes, and of a text four separators more. */
  lemma SpacesAre(c: char)
    ensures ByteSpace(c) <==> c == ' ' || c == '\t' || c == '\n' || c == '\r' || c as int == 11 || c as int == 12
    ensures TextSpace(c) <==> ByteSpace(c) || c as int == 28 || c as int == 29 || c as int == 30 || c as int == 31
  {
  }

  /** A header is read without the spaces around its name and its value. */
  lemma HeaderReads(spaces: seq<string>, name: string, value: string)
    requires |spaces| == 4 && forall i :: 0 <= i < 4 ==> AllSpace(spaces[i], TextSpace)
    requires name != "" && value != "" && Stripped(name, TextSpace) && Stripped(value, TextSpace) && ':' !in name
    ensures HeaderOf((spaces[0] + name + spaces[1]) + ":" + (spaces[2] + value + spaces[3])) ==
            Some((Lower(name), value))
  {
    var before, after := spaces[0] + name + spaces[1], spaces[2] + value + spaces[3];
    var line := before + ":" + after;
    NoColonInSpaces(spaces[0]);
    NoColonInSpaces(spaces[1]);
    FindChar(before, ':', after);
    assert line[..|before|] == before && line[|before| + 1..] == after;
    StripSpaces(spaces[0], name, spaces[1], TextSpace);
    StripSpaces(spaces[2], value, spaces[3], TextSpace);
  }

  lemma NoColonInSpaces(spaces: string)
    requires AllSpace(spaces, TextSpace)
    ensures ':' !in spaces
  {
  }

  // ---- start lines ----

  predicate AreDigits(a: char, b: char, c: char) {
    '0' <= a <= '9' && '0' <= b <= '9' && '0' <= c <= '9'
  }

  /** The number the three digits write. */
  function Number(a: char, b: char, c: char): int {
    100 * (a as int - '0' as int) + 10 * (b as int - '0' as int) + (c as int - '0' as int)
  }

  /** The version, three digits saying the status, then nothing, or a space and a reason. */
  ghost predicate StatusParts(line: string, status: nat, a: char, b: char, c: char, rest: string) {
    && line == "HTTP/1.1 " + [a, b, c] + rest
    && AreDigits(a, b, c) && Number(a, b, c) == status
    && (rest == "" || (rest[0] == ' ' && '\n' !in rest))
  }

  ghost predicate StatusLine(line: string, status: nat) {
    exists a, b, c, rest :: StatusParts(line, status, a, b, c, rest)
  }

  lemma ValueOfThree(a: char, b: char, c: char)
    requires AreDigits(a, b, c)
    ensures DecimalValue([a, b, c]) == Number(a, b, c)
  {
    var s := [a, b, c];
    assert s[..2] == [a, b] && [a, b][..1] == [a] && [a][..0] == "";
    assert DecimalValue([a]) == DigitValue(a);
    assert DecimalValue([a, b]) == 10 * DigitValue(a) + DigitValue(b);
    assert DecimalValue(s) == DecimalValue(s[..2]) * 10 + DigitValue(c);
  }

  lemma NoFeed(line: string)
    requires |line| >= 12
    ensures '\n' !in line[12..] <==> forall i :: 12 <= i < |line| ==> line[i] != '\n'
  {
    assert forall i :: 12 <= i < |line| ==> line[12..][i - 12] == line[i];
  }

  lemma StatusFound(line: string, status: nat)
    requires StatusOf(line) == Some(status)
    ensures StatusLine(line, status)
  {
    var a, b, c, rest := line[9], line[10], line[11], line[12..];
    assert VERSION + " " == "HTTP/1.1 ";
    assert line[9..12] == [a, b, c];
    assert line == line[..9] + line[9..12] + rest;
    ValueOfThree(a, b, c);
    NoFeed(line);
    assert StatusParts(line, status, a, b, c, rest);
  }

  lemma StatusIsFound(line: string, status: nat, a: char, b: char, c: char, rest: string)
    requires StatusParts(line, status, a, b, c, rest)
    ensures StatusOf(line) == Some(status)
  {
    assert VERSION + " " == "HTTP/1.1 ";
    assert line[..9] == "HTTP/1.1 " && line[9..12] == [a, b, c] && line[12..] == rest;
    assert line[9] == a && line[10] == b && line[11] == c;
    ValueOfThree(a, b, c);
    NoFeed(line);
    assert rest != "" ==> line[12] == rest[0];
  }

  /** A start line gives a status exactly when it has the form of a status line of that status. */
  lemma StatusIff(line: string, status: nat)
    ensures StatusOf(line) == Some(status) <==> StatusLine(line, status)
  {
    hide StatusOf, StatusParts;
    if StatusOf(line) == Some(status) {
      StatusFound(line, status);
    }
    if StatusLine(line, status) {
      var a, b, c, rest :| StatusParts(line, status, a, b, c, rest);
      StatusIsFound(line, status, a, b, c, rest);
    }
  }

  ghost predicate RequestLine(line: string, verb: string, url: string) {
    line == verb + (" " + (url + (" " + "HTTP/1.1"))) && ' ' !in verb && ' ' !in url
  }

  /** A request line is a method, a url and the version, one space apart. */
  lemma RequestLineIff(line: string, verb: string, url: string)
    ensures RequestLineOf(line) == Some((verb, url)) <==>
            RequestLine(line, verb, url)
  {
    if RequestLineOf(line) == Some((verb, url)) {
      RequestLineFound(line, verb, url);
    }
    if RequestLine(line, verb, url) {
      RequestLineReads(line, verb, url);
    }
  }

  lemma RequestLineFound(line: string, verb: string, url: string)
    requires RequestLineOf(line) == Some((verb, url))
    ensures line == verb + (" " + (url + (" " + "HTTP/1.1"))) && ' ' !in verb && ' ' !in url
  {
    hide Find;
    FirstWord(line);
    FirstWord(line[Find(line, " ").value + 1..]);
  }

  lemma RequestLineReads(line: string, verb: string, url: string)
    requires line == verb + (" " + (url + (" " + "HTTP/1.1"))) && ' ' !in verb && ' ' !in url
    ensures RequestLineOf(line) == Some((verb, url))
  {
    hide Find;
    WordFirst(verb, url + (" " + VERSION));
    WordFirst(url, VERSION);
  }

  lemma WordFirst(word: string, rest: string)
    requires ' ' !in word
    ensures var s := word + (" " + rest);
            Find(s, " ") == Some(|word|) && s[..|word|] == word && s[|word| + 1..] == rest
  {
    Associative(word, " ", rest);
    FindChar(word, ' ', rest);
  }

  /** What comes before the first space, and after it. */
  lemma FirstWord(s: string)
    requires Find(s, " ").Some?
    ensures var i := Find(s, " ").value;
            i < |s| && s == s[..i] + (" " + s[i + 1..]) && ' ' !in s[..i]
  {
    hide Find;
    BeforeChar(s, ' ');
    AtSpace(s, Find(s, " ").value);
  }

  lemma AtSpace(s: string, i: nat)
    requires i < |s| && s[i] == ' '
    ensures s == s[..i] + (" " + s[i + 1..])
  {
  }

  // ---- responses ----

  function ResponseLine(status: nat, reason: Option<string>): string {
    "HTTP/1.1 " + Decimal(status) + if reason.Some? then " " + reason.value else ""
  }

  /** A response as it is sent: prefix, status line, header lines, an empty line, content. */
  function Response(prefix: string, status: nat, reason: Option<string>, headers: seq<Header>,
                    content: string): string {
    prefix + (JoinLines([ResponseLine(status, reason)] + HeaderLines(headers)) + END) + content
  }

  lemma ResponseLineIsLine(status: nat, reason: Option<string>)
    requires 100 <= status <= 999 && (reason.Some? ==> IsAscii(reason.value) && '\n' !in reason.value)
    ensures var line := ResponseLine(status, reason);
            line != "" && NoBreak(line) && IsAscii(line) && StatusOf(line) == Some(status)
  {
    hide StatusOf, Decimal;
    DecimalOfThree(status);
    DecimalReads(status);
    var digits, rest := Decimal(status), if reason.Some? then " " + reason.value else "";
    var a, b, c := digits[0], digits[1], digits[2];
    assert digits == [a, b, c];
    ValueOfThree(a, b, c);
    assert StatusParts(ResponseLine(status, reason), status, a, b, c, rest);
    StatusIsFound(ResponseLine(status, reason), status, a, b, c, rest);
    LineOfParts([a, b, c], rest);
  }

  lemma LineOfParts(digits: string, rest: string)
    requires IsAscii(digits) && IsAscii(rest) && '\n' !in digits && '\n' !in rest
    ensures var line := "HTTP/1.1 " + digits + rest; NoBreak(line) && IsAscii(line)
  {
    assert '\n' !in "HTTP/1.1 " + digits + rest;
  }

  lemma ResponseHead(status: nat, reason: Option<string>, headers: seq<Header>)
    requires 100 <= status <= 999 && (reason.Some? ==> IsAscii(reason.value) && '\n' !in reason.value)
    requires forall i :: 0 <= i < |headers| ==> PlainHeader(headers[i])
    ensures var lines := [ResponseLine(status, reason)] + HeaderLines(headers);
            AreLines(lines) && IsAscii(JoinLines(lines)) && ReadHeaders(lines[1..]) == Ok(AsRead(headers))
  {
    hide ReadHeaders, ResponseLine, AsRead, HeaderLine;
    var line := ResponseLine(status, reason);
    ResponseLineIsLine(status, reason);
    HeaderLinesAreLines(headers);
    HeaderLinesRead(headers);
    HeadOfLines(line, HeaderLines(headers));
  }

  lemma HeadOfLines(line: string, more: seq<string>)
    requires line != "" && NoBreak(line) && IsAscii(line)
    requires forall i :: 0 <= i < |more| ==> more[i] != "" && NoBreak(more[i]) && IsAscii(more[i])
    ensures var lines := [line] + more; AreLines(lines) && IsAscii(JoinLines(lines)) && lines[1..] == more
  {
    hide NoBreak, IsAscii;
    JoinedIsAscii([line] + more);
  }

  lemma ResponseSplits(status: nat, reason: Option<string>, headers: seq<Header>, body: string, content: string)
    requires 100 <= status <= 999 && (reason.Some? ==> IsAscii(reason.value) && '\n' !in reason.value)
    requires forall i :: 0 <= i < |headers| ==> PlainHeader(headers[i])
    requires DecodeContent(body, AsRead(headers)) == Ok(content)
    ensures Split(JoinLines([ResponseLine(status, reason)] + HeaderLines(headers)) + END + body) ==
            Ok(Message(ResponseLine(status, reason), AsRead(headers), OrNone(content)))
  {
    hide HeaderLines, ReadHeaders, PlainHeader, ResponseLine, DecodeContent, Split, AreLines, JoinLines, AsRead,
         IsAscii;
    ResponseHead(status, reason, headers);
    JoinedSplits([ResponseLine(status, reason)] + HeaderLines(headers), body);
  }

  lemma StartsAsStatus(status: nat, reason: Option<string>, rest: string)
    ensures StartsWith(ResponseLine(status, reason) + rest, VERSION + " ")
  {
    assert VERSION + " " == "HTTP/1.1 ";
    assert (ResponseLine(status, reason) + rest)[..9] == "HTTP/1.1 ";
  }

  lemma JoinStarts(line: string, lines: seq<string>)
    ensures exists rest :: JoinLines([line] + lines) == line + rest
  {
    if lines == [] {
      assert JoinLines([line] + lines) == line + "";
    } else {
      assert ([line] + lines)[1..] == lines;
      assert JoinLines([line] + lines) == line + (CRLF + JoinLines(lines));
    }
  }

  /**
   A response is parsed as its status, its headers by lower-case name, and its content decoded,
   None when empty, whatever its reason, its prefix and the bytes of its content.
   */
  lemma ParseReadsResponse(prefix: string, status: nat, reason: Option<string>, headers: seq<Header>, body: string,
                           content: string)
    requires 100 <= status <= 999 && (reason.Some? ==> IsAscii(reason.value) && '\n' !in reason.value)
    requires forall i :: 0 <= i < |headers| ==> PlainHeader(headers[i])
    requires DecodeContent(body, AsRead(headers)) == Ok(content)
    ensures Parse(Response(prefix, status, reason, headers, body), prefix) ==
            ParsedResponse(status, AsRead(headers), if content == "" then None else Some(content))
  {
    hide StatusOf, Split, DecodeContent, ResponseLine, HeaderLines, JoinLines, PlainHeader, AsRead, IsAscii;
    var line := ResponseLine(status, reason);
    var head := JoinLines([line] + HeaderLines(headers));
    PrefixRemoved(prefix, head + END, body);
    ResponseSplits(status, reason, headers, body, content);
    ResponseLineIsLine(status, reason);
    ResponseStarts(status, reason, headers, body);
  }

  lemma ResponseStarts(status: nat, reason: Option<string>, headers: seq<Header>, body: string)
    ensures StartsWith(JoinLines([ResponseLine(status, reason)] + HeaderLines(headers)) + END + body, VERSION + " ")
  {
    hide ResponseLine, HeaderLines, JoinLines;
    var line := ResponseLine(status, reason);
    JoinStarts(line, HeaderLines(headers));
    var rest :| JoinLines([line] + HeaderLines(headers)) == line + rest;
    Associative(line, rest, END);
    Associative(line, rest + END, body);
    StartsAsStatus(status, reason, rest + END + body);
  }

  /** Without a transfer encoding the content is what follows the head, as it is. */
  lemma ParseReadsPlainResponse(prefix: string, status: nat, reason: Option<string>, headers: seq<Header>,
                                content: string)
    requires 100 <= status <= 999 && (reason.Some? ==> IsAscii(reason.value) && '\n' !in reason.value)
    requires forall i :: 0 <= i < |headers| ==> PlainHeader(headers[i])
    requires !Given(headers, "transfer-encoding")
    ensures Parse(Response(prefix, status, reason, headers, content), prefix) ==
            ParsedResponse(status, AsRead(headers), if content == "" then None else Some(content))
  {
    NotGivenNotRead(headers, TRANSFER_ENCODING);
    ParseReadsResponse(prefix, status, reason, headers, content, content);
  }

  /** In chunks, it is the data of the chunks, joined. */
  lemma ParseReadsChunkedResponse(prefix: string, status: nat, reason: Option<string>, headers: seq<Header>,
                                  chunks: seq<Chunk>, last: string)
    requires 100 <= status <= 999 && (reason.Some? ==> IsAscii(reason.value) && '\n' !in reason.value)
    requires forall i :: 0 <= i < |headers| ==> PlainHeader(headers[i])
    requires "transfer-encoding" in AsRead(headers) && Lower(AsRead(headers)["transfer-encoding"]) == "chunked"
    requires IsFraming(chunks, last)
    ensures Parse(Response(prefix, status, reason, headers, Framing(chunks, last)), prefix) ==
            ParsedResponse(status, AsRead(headers), if Joined(chunks) == "" then None else Some(Joined(chunks)))
  {
    FramingDecodes(chunks, last);
    ParseReadsResponse(prefix, status, reason, headers, Framing(chunks, last), Joined(chunks));
  }

  /** With another transfer encoding, it is refused for that. */
  lemma ParseRefusesEncoding(prefix: string, status: nat, reason: Option<string>, headers: seq<Header>, body: string)
    requires 100 <= status <= 999 && (reason.Some? ==> IsAscii(reason.value) && '\n' !in reason.value)
    requires forall i :: 0 <= i < |headers| ==> PlainHeader(headers[i])
    requires "transfer-encoding" in AsRead(headers) && Lower(AsRead(headers)["transfer-encoding"]) != "chunked"
    ensures Parse(Response(prefix, status, reason, headers, body), prefix) == Refused(UnsupportedEncoding)
  {
    hide ReadHeaders, ResponseLine, HeaderLines, JoinLines, PlainHeader, AsRead, IsAscii, AreLines, Split, Lower;
    var lines := [ResponseLine(status, reason)] + HeaderLines(headers);
    PrefixRemoved(prefix, JoinLines(lines) + END, body);
    ResponseHead(status, reason, headers);
    JoinedSplits(lines, body);
  }

  /**
   * What a message is once split: by how it starts, a response or a request, if its start line is one.
   * Its prefix, if it has it, is no part of it.
   */
  lemma ParsedByItsStart(prefix: string, bare: string, m: Message)
    requires Split(bare) == Ok(m)
    ensures |bare| < |prefix| || bare[..|prefix|] != prefix ==> Parse(bare, prefix) == Parse(prefix + bare, prefix)
    ensures var parsed := Parse(prefix + bare, prefix);
            if |bare| >= 9 && bare[..9] == "HTTP/1.1 " then
              && (forall status: nat :: StatusLine(m.startLine, status) ==>
                    parsed == ParsedResponse(status, m.headers, m.content))
              && ((forall status: nat :: !StatusLine(m.startLine, status)) ==> parsed == InvalidStatusLine)
            else
              && (forall verb, url :: RequestLine(m.startLine, verb, url) ==>
                    parsed == ParsedRequest(verb, url, m.headers, m.content))
              && ((forall verb, url :: !RequestLine(m.startLine, verb, url)) ==> parsed == InvalidRequestLine)
  {
    hide StatusOf, RequestLineOf, StatusLine, RequestLine, Split;
    assert VERSION + " " == "HTTP/1.1 ";
    assert RemovePrefix(prefix + bare, prefix) == bare;
    forall status: nat
      ensures StatusOf(m.startLine) == Some(status) <==> StatusLine(m.startLine, status)
    {
      StatusIff(m.startLine, status);
    }
    forall verb, url
      ensures RequestLineOf(m.startLine) == Some((verb, url)) <==> RequestLine(m.startLine, verb, url)
    {
      RequestLineIff(m.startLine, verb, url);
    }
  }

  // ---- refusals ----

  lemma {:induction false} SplitLinesNotEmpty(s: string)
    ensures SplitLines(s) != []
  {
  }

  /** The lines of a head are what is between its line breaks: joined, they are the head. */
  lemma {:induction false} LinesJoin(s: string)
    ensures SplitLines(s) != [] && JoinLines(SplitLines(s)) == s
    ensures forall i :: 0 <= i < |SplitLines(s)| ==> NoBreak(SplitLines(s)[i])
    decreases |s|
  {
    var found := Find(s, CRLF);
    if found.Some? {
      var n := found.value;
      FoundLine(s, n);
      LinesJoin(s[n + 2..]);
      var more := SplitLines(s[n + 2..]);
      assert SplitLines(s) == [s[..n]] + more && ([s[..n]] + more)[1..] == more;
    } else {
      NotFoundNoBreak(s);
    }
  }

  lemma NotFoundNoBreak(s: string)
    requires Find(s, CRLF).None?
    ensures NoBreak(s)
  {
    forall i | 0 <= i < |s|
      ensures !BreakAt(s, i)
    {
      NotFoundAnywhere(s, CRLF, i);
      BreakIsCrlf(s, i);
    }
  }

  lemma {:induction false} NotFoundAnywhere(s: string, what: string, i: nat)
    requires Find(s, what).None? && i <= |s|
    ensures !StartsWith(s[i..], what)
  {
    assert s[0..] == s;
    if i > 0 {
      NotFoundAnywhere(s[1..], what, i - 1);
      assert s[1..][i - 1..] == s[i..];
    }
  }

  /** A message without an empty line is refused for it, and no other is. */
  lemma RefusedForNoEnd(message: string)
    ensures Split(message) == Err(NoEndOfHeaders) <==> forall i :: 0 <= i < |message| ==> !EndAt(message, i)
  {
    var found := Find(message, END);
    if found.None? {
      forall i | 0 <= i < |message|
        ensures !EndAt(message, i)
      {
        NotFoundAnywhere(message, END, i);
        EndIsFound(message, i);
      }
    } else {
      FindIsFirst(message, END, found.value);
      EndIsFound(message, found.value);
      assert EndAt(message, found.value);
      HeadProblems(message[..found.value], message[found.value + 4..]);
    }
  }

  lemma HeadProblems(head: string, body: string)
    ensures SplitHead(head, body) != Err(NoEndOfHeaders)
  {
    ReadHeadersProblem(SplitLines(head)[1..]);
    if TRANSFER_ENCODING !in AsHeaders(head) {
    } else {
      DecodeProblem(body);
    }
  }

  /** The headers of a head, none when it is refused. */
  function AsHeaders(head: string): Headers {
    match ReadHeaders(SplitLines(head)[1..])
    case Ok(headers) => headers
    case Err(_) => map[]
  }

  predicate IsChunkProblem(problem: Problem) {
    problem.InvalidChunkSize? || problem.InvalidChunkEnd? || problem.InvalidEnd?
  }

  lemma {:induction false} DecodeProblem(body: string)
    ensures Decode(body).Err? ==> IsChunkProblem(Decode(body).problem)
    decreases |body|
  {
    var first := FirstOf(body);
    if first.More? {
      DecodeProblem(first.rest);
    }
  }

  lemma {:induction false} NoColonIff(lines: seq<string>)
    ensures ReadHeaders(lines).Err? <==> exists i :: 0 <= i < |lines| && ':' !in lines[i]
  {
    if lines != [] {
      var n := |lines| - 1;
      NoColonIff(lines[..n]);
      ColonIff(lines[n]);
      if i :| 0 <= i < |lines| && ':' !in lines[i] {
        assert i < n ==> lines[..n][i] == lines[i];
      }
      if i :| 0 <= i < n && ':' !in lines[..n][i] {
        assert ':' !in lines[i];
      }
    }
  }

  lemma ColonIff(line: string)
    ensures HeaderOf(line).None? <==> ':' !in line
  {
    if ':' !in line {
      NotFound(line, ':');
    } else {
      var i :| 0 <= i < |line| && line[i] == ':';
      FoundIfThere(line, ':', i);
    }
  }

  /**
   Why a message with an empty line, the first at `n`, is refused: a head not in ASCII, else a header
   line without colon, else a transfer encoding other than chunked, else content that is no framing.
   */
  lemma RefusedFor(message: string, n: nat)
    requires n < |message| && EndAt(message, n) && forall i :: 0 <= i < n ==> !EndAt(message, i)
    ensures var head, lines := message[..n], SplitLines(message[..n]);
            && (Split(message) == Err(NotAscii) <==> exists i :: 0 <= i < n && head[i] as int >= 128)
            && (Split(message) == Err(NoColon) <==>
                (forall i :: 0 <= i < n ==> (head[i] as int) < 128) && exists i :: 1 <= i < |lines| && ':' !in lines[i])
  {
    hide SplitHead, SplitLines, Find;
    EndFoundAt(message, n);
    HeadRefused(message[..n], message[n + 4..]);
  }

  lemma EndFoundAt(message: string, n: nat)
    requires n < |message| && EndAt(message, n) && forall i :: 0 <= i < n ==> !EndAt(message, i)
    ensures Find(message, END) == Some(n)
  {
    forall i | 0 <= i < n
      ensures !StartsWith(message[i..], END)
    {
      EndIsFound(message, i);
    }
    EndIsFound(message, n);
    FindIsFirst(message, END, n);
  }

  lemma HeadRefused(head: string, body: string)
    ensures var lines := SplitLines(head);
            && (SplitHead(head, body) == Err(NotAscii) <==> !IsAscii(head))
            && (SplitHead(head, body) == Err(NoColon) <==>
                IsAscii(head) && exists i :: 1 <= i < |lines| && ':' !in lines[i])
  {
    hide SplitLines, ReadHeaders, IsAscii, Decode, Lower;
    var lines := SplitLines(head);
    SplitLinesNotEmpty(head);
    NoColonIff(lines[1..]);
    ReadHeadersProblem(lines[1..]);
    DecodeProblem(body);
    if i :| 1 <= i < |lines| && ':' !in lines[i] {
      assert lines[1..][i - 1] == lines[i];
    }
    if i :| 0 <= i < |lines[1..]| && ':' !in lines[1..][i] {
      assert lines[i + 1] == lines[1..][i];
    }
  }

  // ---- printing ----

  lemma {:induction false} JoinedAsciiIff(lines: seq<string>)
    requires lines != []
    ensures IsAscii(JoinLines(lines)) <==> forall i :: 0 <= i < |lines| ==> IsAscii(lines[i])
  {
    if |lines| > 1 {
      JoinedAsciiIff(lines[1..]);
      var line, rest := lines[0], JoinLines(lines[1..]);
      AsciiParts(line, CRLF + rest);
      AsciiParts(CRLF, rest);
      Associative(line, CRLF, rest);
      assert forall i :: 1 <= i < |lines| ==> lines[i] == lines[1..][i - 1];
    }
  }

  lemma AsciiParts(a: string, b: string)
    ensures IsAscii(a + b) <==> IsAscii(a) && IsAscii(b)
  {
    var all := a + b;
    assert forall i :: 0 <= i < |a| ==> all[i] == a[i];
    assert forall i :: 0 <= i < |b| ==> all[|a| + i] == b[i];
  }

  /** A request cannot be printed exactly when its method, its url or one of its headers is not ASCII. */
  lemma PrintedIff(r: Requests.Request, prefix: string)
    ensures ToBytes(r, prefix).Some? <==>
            && IsAscii(r.verb) && IsAscii(r.url)
            && forall i :: 0 <= i < |r.headers| ==> AsciiHeader(r.headers[i])
  {
    hide JoinLines, IsAscii, MakeHeaders, StartLine;
    AsciiParts(JoinLines(Lines(r)), END);
    EndIsAsciiText();
    JoinedAsciiIff(Lines(r));
    LinesAscii(StartLine(r), MakeHeaders(r));
    StartLineAscii(r);
    MadeAscii(r);
  }

  predicate AsciiHeader(h: Header) {
    IsAscii(h.name) && IsAscii(h.value)
  }

  lemma LinesAscii(start: string, headers: seq<Header>)
    ensures var lines := [start] + HeaderLines(headers);
            (forall i :: 0 <= i < |lines| ==> IsAscii(lines[i])) <==>
            IsAscii(start) && forall i :: 0 <= i < |headers| ==> AsciiHeader(headers[i])
  {
    hide IsAscii, HeaderLine;
    var lines := [start] + HeaderLines(headers);
    assert lines[0] == start;
    forall i | 0 <= i < |headers|
      ensures IsAscii(lines[i + 1]) <==> AsciiHeader(headers[i])
    {
      HeaderLineAscii(headers[i]);
      assert lines[i + 1] == HeaderLine(headers[i]);
    }
    if forall i :: 0 <= i < |lines| ==> IsAscii(lines[i]) {
      forall i | 0 <= i < |headers|
        ensures AsciiHeader(headers[i])
      {
        assert IsAscii(lines[i + 1]);
      }
    }
    assert forall i :: 1 <= i < |lines| ==> lines[i] == lines[(i - 1) + 1];
  }

  lemma MadeAscii(r: Requests.Request)
    ensures (forall i :: 0 <= i < |MakeHeaders(r)| ==> AsciiHeader(MakeHeaders(r)[i])) <==>
            forall i :: 0 <= i < |r.headers| ==> AsciiHeader(r.headers[i])
  {
    hide AsciiHeader, LengthHeader, IdHeader, PlainHeader;
    AutomaticIsPlain(r);
    var made := MakeHeaders(r);
    forall i | |r.headers| <= i < |made|
      ensures AsciiHeader(made[i])
    {
      var j := i - |r.headers|;
      if j < |LengthHeader(r)| {
        PlainIsAscii(LengthHeader(r)[j]);
      } else {
        PlainIsAscii(IdHeader(r)[j - |LengthHeader(r)|]);
      }
    }
    assert forall i :: 0 <= i < |r.headers| ==> made[i] == r.headers[i];
  }

  lemma PlainIsAscii(h: Header)
    requires PlainHeader(h)
    ensures AsciiHeader(h)
  {
  }

  lemma EndIsAsciiText()
    ensures IsAscii(END)
  {
  }

  lemma StartLineAscii(r: Requests.Request)
    ensures IsAscii(StartLine(r)) <==> IsAscii(r.verb) && IsAscii(r.url)
  {
    AsciiParts(r.verb + " " + r.url + " ", VERSION);
    AsciiParts(r.verb + " " + r.url, " ");
    AsciiParts(r.verb + " ", r.url);
    AsciiParts(r.verb, " ");
  }

  lemma HeaderLineAscii(h: Header)
    ensures IsAscii(HeaderLine(h)) <==> AsciiHeader(h)
  {
    AsciiParts(h.name + ": ", h.value);
    AsciiParts(h.name, ": ");
  }

  // ---- the automatic headers ----

  /** The length the head announces is that of the content, when the request has one or its method may. */
  lemma LengthIsThatOfContent(r: Requests.Request)
    requires WellFormed(r) && !Given(r.headers, "content-length")
    ensures var headers := AsRead(MakeHeaders(r));
            "content-length" in headers <==> r.content.Some? || r.verb == "POST" || r.verb == "PUT" || r.verb == "PATCH"
    ensures "content-length" in AsRead(MakeHeaders(r)) ==>
              AsRead(MakeHeaders(r))["content-length"] == Decimal(|ContentOf(r)|)
  {
    var named := r.headers + LengthHeader(r);
    AutomaticRead(named, IdHeader(r), "content-length");
    AutomaticRead(r.headers, LengthHeader(r), "content-length");
    NotGivenNotRead(r.headers, "content-length");
    LowerOfNames();
  }

  /** The id the head announces is that of the request, spelled `None` when it has none. */
  lemma IdIsThatOfRequest(r: Requests.Request)
    requires WellFormed(r) && !Given(r.headers, "transac-id")
    ensures var headers := AsRead(MakeHeaders(r));
            "transac-id" in headers &&
            headers["transac-id"] == match r.transactionId {
                                       case Some(id) => if id < 0 then "-" + Decimal(-id) else Decimal(id)
                                       case None => "None" }
  {
    AutomaticRead(r.headers + LengthHeader(r), IdHeader(r), "transac-id");
    LowerOfNames();
  }

  lemma LowerOfNames()
    ensures Lower("content-length") == "content-length" && Lower("transac-id") == "transac-id"
    ensures "content-length" != "transac-id"
  {
    var a, b := "content-length", "transac-id";
    assert forall i :: 0 <= i < |a| ==> LowerChar(a[i]) == a[i];
    assert forall i :: 0 <= i < |b| ==> LowerChar(b[i]) == b[i];
    assert a[0] != b[0];
  }

  lemma AutomaticRead(headers: seq<Header>, more: seq<Header>, name: string)
    requires |more| <= 1
    ensures AsRead(headers + more) ==
            if more == [] then AsRead(headers) else AsRead(headers)[Lower(more[0].name) := more[0].value]
  {
    if more == [] {
      assert headers + more == headers;
    } else {
      assert (headers + more)[..|headers|] == headers;
    }
  }
}
