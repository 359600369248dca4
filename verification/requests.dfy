/** Printing a request (tydomio/requests.py:33-81), which splitting undoes. */
module Requests {
  import opened Collections
  import opened WireText
  import opened Chunked
  import opened Protocol
  import Text

  datatype Header = Header(name: string, value: string)

  datatype Request = Request(
    verb: string,
    url: string,
    headers: seq<Header>,
    content: Option<string>,
    transactionId: Option<int>)

  const CONTENT_LENGTH := "content-length"
  const TRANSAC_ID := "transac-id"

  predicate Given(headers: seq<Header>, name: string) {
    exists i :: 0 <= i < |headers| && Lower(headers[i].name) == name
  }

  function ContentOf(r: Request): string {
    if r.content.Some? then r.content.value else ""
  }

  function ShownId(r: Request): string {
    if r.transactionId.Some? then Text.IntText(r.transactionId.value) else "None"
  }

  function LengthHeader(r: Request): seq<Header> {
    if !Given(r.headers, CONTENT_LENGTH) && !Given(r.headers, TRANSFER_ENCODING)
       && (r.content.Some? || r.verb == "POST" || r.verb == "PUT" || r.verb == "PATCH")
    then [Header(CONTENT_LENGTH, Text.IntText(|ContentOf(r)|))]
    else []
  }

  function IdHeader(r: Request): seq<Header> {
    if Given(r.headers, TRANSAC_ID) then [] else [Header(TRANSAC_ID, ShownId(r))]
  }

  /** `_make_headers`: those given, then the automatic ones, whose names are not among them. */
  function MakeHeaders(r: Request): seq<Header> {
    r.headers + LengthHeader(r) + IdHeader(r)
  }

  function HeaderLine(h: Header): string {
    h.name + ": " + h.value
  }

  function HeaderLines(headers: seq<Header>): (lines: seq<string>)
    ensures |lines| == |headers|
    ensures forall i :: 0 <= i < |headers| ==> lines[i] == HeaderLine(headers[i])
  {
    seq(|headers|, i requires 0 <= i < |headers| => HeaderLine(headers[i]))
  }

  function StartLine(r: Request): string {
    r.verb + " " + r.url + " " + VERSION
  }

  function Lines(r: Request): seq<string> {
    [StartLine(r)] + HeaderLines(MakeHeaders(r))
  }

  /** `to_bytes`: an encoding error when the head is not ASCII. */
  function ToBytes(r: Request, prefix: string): Option<string> {
    var head := JoinLines(Lines(r)) + END;
    if IsAscii(head) then Some(prefix + head + ContentOf(r)) else None
  }

  // ---- well-formed requests ----

  predicate PlainHeader(h: Header) {
    && IsAscii(h.name) && NoBreak(h.name) && Stripped(h.name, TextSpace) && ':' !in h.name
    && IsAscii(h.value) && NoBreak(h.value) && Stripped(h.value, TextSpace)
  }

  predicate WellFormed(r: Request) {
    && IsAscii(r.verb) && NoBreak(r.verb) && IsAscii(r.url) && NoBreak(r.url)
    && (forall i :: 0 <= i < |r.headers| ==> PlainHeader(r.headers[i]))
    && !Given(r.headers, TRANSFER_ENCODING)
  }

  /** The headers as they are read: by lower-case name, the last of a name. */
  function AsRead(headers: seq<Header>): Headers {
    if headers == [] then map[]
    else
      var last := headers[|headers| - 1];
      AsRead(headers[..|headers| - 1])[Lower(last.name) := last.value]
  }

  lemma NoBreakJoined(a: string, b: string)
    requires NoBreak(a) && NoBreak(b)
    requires a == "" || b == "" || a[|a| - 1] != '\r' || b[0] != '\n'
    ensures NoBreak(a + b)
  {
    forall i | 0 <= i < |a + b|
      ensures !BreakAt(a + b, i)
    {
      assert i < |a| ==> !BreakAt(a, i);
      assert i >= |a| ==> !BreakAt(b, i - |a|);
    }
  }

  lemma SpaceStrips(value: string)
    requires Stripped(value, TextSpace)
    ensures Strip(" " + value, TextSpace) == value
  {
    assert (" " + value)[1..] == value;
    assert StripLeft(value, TextSpace) == value;
    StripKeeps(value, TextSpace);
  }

  /** A printed header line is read as its lower-case name and its value. */
  lemma HeaderLineReads(h: Header)
    requires PlainHeader(h)
    ensures HeaderOf(HeaderLine(h)) == Some((Lower(h.name), h.value))
  {
    var line := HeaderLine(h);
    assert line == h.name + ":" + (" " + h.value);
    FindChar(h.name, ':', " " + h.value);
    assert line[..|h.name|] == h.name && line[|h.name| + 1..] == " " + h.value;
    StripKeeps(h.name, TextSpace);
    SpaceStrips(h.value);
  }

  lemma HeaderLineIsLine(h: Header)
    requires PlainHeader(h)
    ensures HeaderLine(h) != "" && NoBreak(HeaderLine(h)) && IsAscii(HeaderLine(h))
  {
    NoBreakJoined(": ", h.value);
    NoBreakJoined(h.name, ": " + h.value);
    assert HeaderLine(h) == h.name + (": " + h.value);
  }

  lemma {:induction false} HeaderLinesRead(headers: seq<Header>)
    requires forall i :: 0 <= i < |headers| ==> PlainHeader(headers[i])
    ensures ReadHeaders(HeaderLines(headers)) == Ok(AsRead(headers))
  {
    if headers != [] {
      var n := |headers| - 1;
      HeaderLinesRead(headers[..n]);
      assert HeaderLines(headers)[..n] == HeaderLines(headers[..n]);
      HeaderLineReads(headers[n]);
    }
  }

  lemma PlainWord(s: string)
    requires s != "" && forall i :: 0 <= i < |s| ==> '-' <= s[i] <= 'z' && s[i] != ':'
    ensures IsAscii(s) && NoBreak(s) && Stripped(s, TextSpace) && ':' !in s
  {
  }

  lemma IntIsPlain(n: int)
    ensures forall i :: 0 <= i < |Text.IntText(n)| ==> '-' <= Text.IntText(n)[i] <= '9'
  {
    Text.DecimalReads(if n < 0 then -n else n);
  }

  lemma AutomaticIsPlain(r: Request)
    ensures forall i :: 0 <= i < |LengthHeader(r)| ==> PlainHeader(LengthHeader(r)[i])
    ensures forall i :: 0 <= i < |IdHeader(r)| ==> PlainHeader(IdHeader(r)[i])
  {
    PlainWord(CONTENT_LENGTH);
    PlainWord(TRANSAC_ID);
    IntIsPlain(|ContentOf(r)|);
    PlainWord(Text.IntText(|ContentOf(r)|));
    if r.transactionId.Some? {
      IntIsPlain(r.transactionId.value);
    }
    PlainWord(ShownId(r));
  }

  lemma MadeArePlain(r: Request)
    requires WellFormed(r)
    ensures forall i :: 0 <= i < |MakeHeaders(r)| ==> PlainHeader(MakeHeaders(r)[i])
  {
    AutomaticIsPlain(r);
  }

  lemma {:induction false} NotGivenNotRead(headers: seq<Header>, name: string)
    requires !Given(headers, name)
    ensures name !in AsRead(headers)
  {
    if headers != [] {
      assert forall i :: 0 <= i < |headers| - 1 ==> headers[..|headers| - 1][i] == headers[i];
      assert Lower(headers[|headers| - 1].name) != name;
      NotGivenNotRead(headers[..|headers| - 1], name);
    }
  }

  lemma NotGivenNotMade(r: Request)
    requires !Given(r.headers, TRANSFER_ENCODING)
    ensures !Given(MakeHeaders(r), TRANSFER_ENCODING)
  {
    assert Lower(CONTENT_LENGTH)[0] == 'c' && Lower(TRANSAC_ID)[5] == 'a' && TRANSFER_ENCODING[0] == 't'
           && TRANSFER_ENCODING[5] == 'f';
    var headers := MakeHeaders(r);
    forall i | 0 <= i < |headers|
      ensures Lower(headers[i].name) != TRANSFER_ENCODING
    {
      assert i < |r.headers| ==> headers[i] == r.headers[i];
    }
  }

  lemma StartLineIsLine(r: Request)
    requires WellFormed(r)
    ensures StartLine(r) != "" && NoBreak(StartLine(r)) && IsAscii(StartLine(r))
  {
    NoBreakJoined(r.url, " " + VERSION);
    NoBreakJoined(" ", r.url + (" " + VERSION));
    NoBreakJoined(r.verb, " " + (r.url + (" " + VERSION)));
    assert StartLine(r) == r.verb + (" " + (r.url + (" " + VERSION)));
  }

  lemma HeaderLinesAreLines(headers: seq<Header>)
    requires forall i :: 0 <= i < |headers| ==> PlainHeader(headers[i])
    ensures forall i :: 0 <= i < |headers| ==>
              HeaderLines(headers)[i] != "" && NoBreak(HeaderLines(headers)[i]) && IsAscii(HeaderLines(headers)[i])
  {
    forall i | 0 <= i < |headers|
      ensures HeaderLines(headers)[i] != "" && NoBreak(HeaderLines(headers)[i]) && IsAscii(HeaderLines(headers)[i])
    {
      HeaderLineIsLine(headers[i]);
    }
  }

  lemma LinesAreLines(r: Request)
    requires WellFormed(r)
    ensures AreLines(Lines(r)) && forall i :: 0 <= i < |Lines(r)| ==> IsAscii(Lines(r)[i])
  {
    StartLineIsLine(r);
    MadeArePlain(r);
    HeaderLinesAreLines(MakeHeaders(r));
  }

  lemma {:induction false} JoinedIsAscii(lines: seq<string>)
    requires lines != [] && forall i :: 0 <= i < |lines| ==> IsAscii(lines[i])
    ensures IsAscii(JoinLines(lines))
  {
    if |lines| > 1 {
      JoinedIsAscii(lines[1..]);
    }
  }

  lemma MadeAreRead(r: Request)
    requires WellFormed(r)
    ensures ReadHeaders(Lines(r)[1..]) == Ok(AsRead(MakeHeaders(r)))
    ensures TRANSFER_ENCODING !in AsRead(MakeHeaders(r))
  {
    MadeArePlain(r);
    HeaderLinesRead(MakeHeaders(r));
    assert Lines(r)[1..] == HeaderLines(MakeHeaders(r));
    NotGivenNotMade(r);
    NotGivenNotRead(MakeHeaders(r), TRANSFER_ENCODING);
  }

  lemma EndIsAscii(head: string)
    requires IsAscii(head)
    ensures IsAscii(head + END)
  {
  }

  lemma LinesSplit(r: Request, content: string)
    requires WellFormed(r)
    ensures IsAscii(JoinLines(Lines(r)) + END)
    ensures Split(JoinLines(Lines(r)) + END + content) ==
            Ok(Message(StartLine(r), AsRead(MakeHeaders(r)), OrNone(content)))
  {
    LinesAreLines(r);
    JoinedIsAscii(Lines(r));
    MadeAreRead(r);
    PlainContent(Lines(r), AsRead(MakeHeaders(r)), content);
    EndIsAscii(JoinLines(Lines(r)));
  }

  /**
   Splitting a printed request, its prefix removed, gives back its start line, the headers made for
   it by lower-case name, and its content, None when empty, whatever bytes it holds.
   */
  lemma SplitUndoesPrint(r: Request, prefix: string)
    requires WellFormed(r)
    ensures ToBytes(r, prefix).Some?
    ensures RemovePrefix(ToBytes(r, prefix).value, prefix) == JoinLines(Lines(r)) + END + ContentOf(r)
    ensures Split(RemovePrefix(ToBytes(r, prefix).value, prefix)) ==
            Ok(Message(StartLine(r), AsRead(MakeHeaders(r)), OrNone(ContentOf(r))))
  {
    LinesSplit(r, ContentOf(r));
    PrefixRemoved(prefix, JoinLines(Lines(r)) + END, ContentOf(r));
  }

  lemma PrefixRemoved(prefix: string, head: string, content: string)
    ensures RemovePrefix(prefix + head + content, prefix) == head + content
  {
    assert (prefix + head + content)[..|prefix|] == prefix;
    assert (prefix + head + content)[|prefix|..] == head + content;
  }

  // ---- the names and the line ----

  /** Names distinct whatever the case. */
  ghost predicate DistinctNames(headers: seq<Header>) {
    forall i, j :: 0 <= i < j < |headers| ==> Lower(headers[i].name) != Lower(headers[j].name)
  }

  /** When names are distinct whatever the case, every header is read under its lower-case name. */
  lemma {:induction false} DistinctAreRead(headers: seq<Header>, i: nat)
    requires DistinctNames(headers) && i < |headers|
    ensures Lower(headers[i].name) in AsRead(headers) && AsRead(headers)[Lower(headers[i].name)] == headers[i].value
  {
    var n := |headers| - 1;
    if i < n {
      assert headers[..n][i] == headers[i];
      DistinctAreRead(headers[..n], i);
    }
  }

  lemma StartLineReads(r: Request)
    requires ' ' !in r.verb && ' ' !in r.url
    ensures RequestLineOf(StartLine(r)) == Some((r.verb, r.url))
  {
    var rest := r.url + " " + VERSION;
    assert StartLine(r) == r.verb + " " + rest;
    FindChar(r.verb, ' ', rest);
    FindChar(r.url, ' ', VERSION);
    assert StartLine(r)[..|r.verb|] == r.verb && StartLine(r)[|r.verb| + 1..] == rest;
    assert rest[..|r.url|] == r.url && rest[|r.url| + 1..] == VERSION;
  }

  /** A text starts with one word only. */
  lemma OneWord(s: string, a: string, b: string)
    requires ' ' !in a && ' ' !in b && StartsWith(s, a + " ") && StartsWith(s, b + " ")
    ensures a == b
  {
    assert forall i :: 0 <= i < |a| ==> s[i] == (a + " ")[i] == a[i];
    assert forall i :: 0 <= i < |b| ==> s[i] == (b + " ")[i] == b[i];
    assert s[|a|] == (a + " ")[|a|] && s[|b|] == (b + " ")[|b|];
  }

  lemma StartsAsResponse(r: Request, rest: string)
    requires ' ' !in r.verb
    ensures StartsWith(StartLine(r) + rest, VERSION + " ") <==> r.verb == VERSION
  {
    var s, v := StartLine(r) + rest, VERSION + " ";
    var after := " " + r.url + " " + VERSION + rest;
    assert s == r.verb + after;
    assert s[..|r.verb| + 1] == r.verb + " ";
    if StartsWith(s, v) {
      OneWord(s, r.verb, VERSION);
    }
  }

  /** Parsing a printed request gives back its method and url, unless its method spells the version. */
  lemma ParseUndoesPrintedRequest(r: Request, prefix: string)
    requires WellFormed(r) && ' ' !in r.verb && ' ' !in r.url
    ensures ToBytes(r, prefix).Some?
    ensures Parse(ToBytes(r, prefix).value, prefix) ==
            ParsedRequest(r.verb, r.url, AsRead(MakeHeaders(r)), OrNone(ContentOf(r)))
            <==> r.verb != VERSION
  {
    SplitUndoesPrint(r, prefix);
    StartLineReads(r);
    StartOfLines(r);
    StartsAsResponse(r, CRLF + JoinLines(Lines(r)[1..]) + END + ContentOf(r));
  }

  lemma HasHeaders(r: Request)
    ensures |Lines(r)| > 1
  {
    if Given(r.headers, TRANSAC_ID) {
      assert |r.headers| > 0;
    }
  }

  lemma StartOfLines(r: Request)
    ensures |Lines(r)| > 1
    ensures JoinLines(Lines(r)) + END + ContentOf(r) ==
            StartLine(r) + (CRLF + JoinLines(Lines(r)[1..]) + END + ContentOf(r))
  {
    HasHeaders(r);
  }
}
