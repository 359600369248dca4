/**
 Chunked content (section 7.1 of RFC 9112) as `_decode_chunked` decodes it
 (tydomio/protocol.py:120-141), against its framings.
 */
module Chunked {
  import opened Collections
  import opened WireText

  datatype Problem =
    | NoEndOfHeaders
    | NotAscii
    | NoColon
    | UnsupportedEncoding
    | InvalidChunkSize
    | InvalidChunkEnd
    | InvalidEnd

  datatype Result<T> = Ok(value: T) | Err(problem: Problem)

  // ---- sizes ----

  predicate IsHex(c: char) {
    '0' <= c <= '9' || 'a' <= c <= 'f' || 'A' <= c <= 'F'
  }

  function HexDigitValue(c: char): (d: nat)
    requires IsHex(c)
    ensures d < 16
  {
    if c <= '9' then c as int - '0' as int
    else if c <= 'F' then c as int - 'A' as int + 10
    else c as int - 'a' as int + 10
  }

  /** The sixteen digits, in either case. */
  lemma HexDigitIs(c: char)
    ensures forall d :: 0 <= d < 16 && (c == "0123456789abcdef"[d] || c == "0123456789ABCDEF"[d]) ==>
              IsHex(c) && HexDigitValue(c) == d
    ensures IsHex(c) ==> c in "0123456789abcdef" || c in "0123456789ABCDEF"
  {
    var small, large := "0123456789abcdef", "0123456789ABCDEF";
    assert forall d :: 0 <= d < 16 ==> small[d] as int == if d < 10 then '0' as int + d else 'a' as int + d - 10;
    assert forall d :: 0 <= d < 16 ==> large[d] as int == if d < 10 then '0' as int + d else 'A' as int + d - 10;
    if '0' <= c <= '9' {
      assert small[c as int - '0' as int] == c;
    } else if 'a' <= c <= 'f' {
      assert small[c as int - 'a' as int + 10] == c;
    } else if 'A' <= c <= 'F' {
      assert large[c as int - 'A' as int + 10] == c;
    }
  }

  predicate AllHex(s: string) {
    forall i :: 0 <= i < |s| ==> IsHex(s[i])
  }

  function HexValue(s: string): nat
    requires AllHex(s)
  {
    if s == "" then 0 else HexValue(s[..|s| - 1]) * 16 + HexDigitValue(s[|s| - 1])
  }

  /** What comes before the extensions. */
  function BeforeExtension(line: string): string {
    match Find(line, ";")
    case None => line
    case Some(i) => line[..i]
  }

  /** The size a chunk line announces, if it does. */
  function SizeOf(line: string): Option<nat> {
    var size := Strip(BeforeExtension(line), ByteSpace);
    if size != "" && AllHex(size) then Some(HexValue(size)) else None
  }

  // ---- decoding ----

  /** What a body starts with: a chunk and what comes after it, the last chunk, or neither. */
  datatype First = More(data: string, rest: string) | Last | Bad(problem: Problem)

  function FirstOf(body: string): (first: First)
    ensures first.More? ==> |first.rest| < |body|
  {
    match Find(body, CRLF)
    case None => Bad(InvalidChunkSize)
    case Some(lineEnd) =>
      match SizeOf(body[..lineEnd])
      case None => Bad(InvalidChunkSize)
      case Some(size) => FirstOfSize(body, lineEnd + 2, size)
  }

  function FirstOfSize(body: string, start: nat, size: nat): (first: First)
    requires start <= |body|
    ensures first.More? ==> |first.rest| < |body|
  {
    var end := start + size;
    if size == 0 then if body[start..] == CRLF then Last else Bad(InvalidEnd)
    else if |body| < end + 2 || body[end..end + 2] != CRLF then Bad(InvalidChunkEnd)
    else More(body[start..end], body[end + 2..])
  }

  function Decode(body: string): Result<string>
    decreases |body|
  {
    match FirstOf(body)
    case Bad(problem) => Err(problem)
    case Last => Ok("")
    case More(data, rest) =>
      match Decode(rest)
      case Ok(more) => Ok(data + more)
      case Err(problem) => Err(problem)
  }

  /** What the loop returns when it has `content` and `rest` is left. */
  function After(content: string, rest: string): Result<string> {
    match Decode(rest)
    case Ok(more) => Ok(content + more)
    case Err(problem) => Err(problem)
  }

  lemma AfterMore(content: string, body: string)
    requires FirstOf(body).More?
    ensures After(content, body) == After(content + FirstOf(body).data, FirstOf(body).rest)
  {
    var first := FirstOf(body);
    var decoded := Decode(first.rest);
    if decoded.Ok? {
      Associative(content, first.data, decoded.value);
    }
  }

  lemma AfterNothing(body: string)
    ensures After("", body) == Decode(body)
  {
    var decoded := Decode(body);
    assert decoded.Ok? ==> "" + decoded.value == decoded.value;
  }

  lemma AfterEnd(content: string, body: string)
    requires !FirstOf(body).More?
    ensures After(content, body) == if FirstOf(body).Last? then Ok(content) else Err(FirstOf(body).problem)
  {
    assert content + "" == content;
  }

  /** What the body has from `start` on, when the line before announces `size`. */
  function FirstFrom(body: string, start: nat, size: nat): First
    requires start <= |body|
  {
    var end := start + size;
    if end == start then if body[start..] != CRLF then Bad(InvalidEnd) else Last
    else if |body| < end + 2 || body[end..end + 2] != CRLF then Bad(InvalidChunkEnd)
    else More(body[start..end], body[end + 2..])
  }

  lemma LoopSlices(body: string, position: nat, start: nat, size: nat)
    requires position <= start <= |body|
    ensures FirstOfSize(body[position..], start - position, size) == FirstFrom(body, start, size)
  {
    var rest, end := body[position..], start + size;
    assert rest[start - position..] == body[start..];
    if end + 2 <= |body| {
      assert rest[end - position..end - position + 2] == body[end..end + 2];
      assert rest[start - position..end - position] == body[start..end];
      assert rest[end - position + 2..] == body[end + 2..];
    }
  }

  lemma FirstIsSized(rest: string, n: nat, line: string, size: nat)
    requires Find(rest, CRLF) == Some(n) && rest[..n] == line && SizeOf(line) == Some(size)
    ensures FirstOf(rest) == FirstOfSize(rest, n + 2, size)
  {
  }

  lemma FirstIsNoLine(rest: string)
    requires Find(rest, CRLF).None?
    ensures FirstOf(rest) == Bad(InvalidChunkSize)
  {
  }

  lemma FirstIsUnsized(rest: string, n: nat, line: string)
    requires Find(rest, CRLF) == Some(n) && rest[..n] == line && SizeOf(line).None?
    ensures FirstOf(rest) == Bad(InvalidChunkSize)
  {
  }

  lemma SliceOfRest(body: string, position: nat, n: nat)
    requires position + n <= |body|
    ensures body[position..][..n] == body[position..position + n]
  {
  }

  lemma TurnFirst(body: string, position: nat, n: nat, size: nat)
    requires position <= |body| && Find(body[position..], CRLF) == Some(n) && position + n + 2 <= |body|
    requires SizeOf(body[position..position + n]) == Some(size)
    ensures FirstOf(body[position..]) == FirstFrom(body, position + n + 2, size)
  {
    SliceOfRest(body, position, n);
    FirstIsSized(body[position..], n, body[position..position + n], size);
    LoopSlices(body, position, position + n + 2, size);
  }

  /** What the loop starts with. */
  lemma LoopStart(body: string)
    ensures After("", body[0..]) == Decode(body)
  {
    assert body[0..] == body;
    AfterNothing(body);
  }

  /** One turn of the loop: where the chunk at `position` starts and ends. */
  method ChunkAt(body: string, position: nat) returns (r: Result<(nat, nat)>)
    requires position <= |body|
    ensures r.Err? ==> FirstOf(body[position..]) == Bad(r.problem)
    ensures r.Ok? ==>
              var (start, end) := r.value;
              position < start <= end && start <= |body|
              && (if end == start then FirstOf(body[position..]).Last?
                  else end + 2 <= |body| && FirstOf(body[position..]) == More(body[start..end], body[end + 2..]))
  {
    hide FirstOf, SizeOf;
    var found := Find(body[position..], CRLF);
    if found.None? {
      FirstIsNoLine(body[position..]);
      return Err(InvalidChunkSize);
    }
    var lineEnd := position + found.value;
    var size := SizeOf(body[position..lineEnd]);
    if size.None? {
      SliceOfRest(body, position, found.value);
      FirstIsUnsized(body[position..], found.value, body[position..lineEnd]);
      return Err(InvalidChunkSize);
    }
    var start := lineEnd + 2;
    var end := start + size.value;
    TurnFirst(body, position, found.value, size.value);
    if end == start {
      if body[start..] != CRLF {
        return Err(InvalidEnd);
      }
    } else if |body| < end + 2 || body[end..end + 2] != CRLF {
      return Err(InvalidChunkEnd);
    }
    return Ok((start, end));
  }

  /** `_decode_chunked` */
  method DecodeChunked(body: string) returns (r: Result<string>)
    ensures r == Decode(body)
  {
    hide FirstOf;
    var content: string := "";
    var position := 0;
    LoopStart(body);
    while true
      invariant 0 <= position <= |body|
      invariant After(content, body[position..]) == Decode(body)
      decreases |body| - position
    {
      var chunk := ChunkAt(body, position);
      if chunk.Err? {
        AfterEnd(content, body[position..]);
        return Err(chunk.problem);
      }
      var (start, end) := chunk.value;
      if end == start {
        AfterEnd(content, body[position..]);
        return Ok(content);
      }
      AfterMore(content, body[position..]);
      content := content + body[start..end];
      position := end + 2;
    }
  }

  // ---- size lines ----

  /** `line` is these digits with spaces around them, then nothing or an extension, and they say `n`. */
  ghost predicate SizeParts(line: string, n: nat, before: string, digits: string, after: string, extension: string) {
    && line == before + digits + after + extension
    && AllSpace(before, ByteSpace) && AllSpace(after, ByteSpace)
    && digits != "" && AllHex(digits) && HexValue(digits) == n
    && (extension == "" || extension[0] == ';')
  }

  /** A line that announces the size `n`, whatever its extension. */
  ghost predicate SizeLine(line: string, n: nat) {
    exists before, digits, after, extension :: SizeParts(line, n, before, digits, after, extension)
  }

  lemma BeforeExtensionIs(size: string, extension: string)
    requires ';' !in size && (extension == "" || extension[0] == ';')
    ensures BeforeExtension(size + extension) == size
  {
    if extension == "" {
      assert size + extension == size;
      NotFound(size, ';');
    } else {
      assert size + extension == size + [';'] + extension[1..];
      FindChar(size, ';', extension[1..]);
    }
  }

  lemma ExtensionSplits(line: string) returns (extension: string)
    ensures line == BeforeExtension(line) + extension && (extension == "" || extension[0] == ';')
  {
    var found := Find(line, ";");
    if found.None? {
      extension := "";
    } else {
      FindIsFirst(line, ";", found.value);
      extension := line[found.value..];
      assert extension[..1] == ";";
      assert line == line[..found.value] + extension;
    }
  }

  lemma PartsHaveSize(line: string, n: nat, before: string, digits: string, after: string, extension: string)
    requires SizeParts(line, n, before, digits, after, extension)
    ensures BeforeExtension(line) == before + digits + after
    ensures SizeOf(line) == Some(n)
  {
    BeforeExtensionIs(before + digits + after, extension);
    StripSpaces(before, digits, after, ByteSpace);
  }

  /** The decoder reads a size in exactly the size lines, and reads the size they say. */
  lemma SizeOfIsSizeLine(line: string, n: nat)
    ensures SizeOf(line) == Some(n) <==> SizeLine(line, n)
  {
    if SizeOf(line) == Some(n) {
      var extension := ExtensionSplits(line);
      var before, after := StripSplits(BeforeExtension(line), ByteSpace);
      assert SizeParts(line, n, before, Strip(BeforeExtension(line), ByteSpace), after, extension);
    }
    if SizeLine(line, n) {
      var before, digits, after, extension :| SizeParts(line, n, before, digits, after, extension);
      PartsHaveSize(line, n, before, digits, after, extension);
    }
  }

  predicate Blank(c: char) {
    c == ' ' || c == '\t'
  }

  ghost predicate StandardParts(line: string, n: nat, digits: string, after: string, extension: string) {
    && SizeParts(line, n, "", digits, after, extension)
    && AllSpace(after, Blank)
    && (extension == "" ==> after == "")
  }

  /** A size line as the standard has it: spaces and tabs, and only between the digits and an extension. */
  ghost predicate StandardLine(line: string, n: nat) {
    exists digits, after, extension :: StandardParts(line, n, digits, after, extension)
  }

  /** The spaces before the extension are where the standard allows them, and of its kind. */
  predicate StandardSpaces(line: string)
    requires line != ""
  {
    var size := BeforeExtension(line);
    && !ByteSpace(line[0])
    && (size == line ==> !ByteSpace(line[|line| - 1]))
    && forall i :: 0 <= i < |size| && ByteSpace(size[i]) ==> Blank(size[i])
  }

  lemma PartsStart(line: string, n: nat, before: string, digits: string, after: string, extension: string)
    requires SizeParts(line, n, before, digits, after, extension)
    ensures line != "" && line[0] == if before != "" then before[0] else digits[0]
  {
  }

  lemma StandardIsSpaced(line: string, n: nat, digits: string, after: string, extension: string)
    requires StandardParts(line, n, digits, after, extension)
    ensures line != "" && StandardSpaces(line)
  {
    hide SizeOf, BeforeExtension, HexValue;
    PartsHaveSize(line, n, "", digits, after, extension);
    var size := digits + after;
    assert "" + digits + after == size;
    assert IsHex(digits[0]) && IsHex(digits[|digits| - 1]);
    assert forall i :: 0 <= i < |size| ==> size[i] == if i < |digits| then digits[i] else after[i - |digits|];
    assert line[0] == digits[0];
    if size == line {
      assert extension == "" by {
        assert |line| == |size| + |extension|;
      }
    }
  }

  lemma SpacedIsStandard(line: string, n: nat, before: string, digits: string, after: string, extension: string)
    requires SizeParts(line, n, before, digits, after, extension) && line != "" && StandardSpaces(line)
    ensures StandardParts(line, n, digits, after, extension)
  {
    hide SizeOf, BeforeExtension, HexValue;
    PartsHaveSize(line, n, before, digits, after, extension);
    var size := before + digits + after;
    PartsStart(line, n, before, digits, after, extension);
    forall i | 0 <= i < |after|
      ensures Blank(after[i])
    {
      assert after[i] == size[|before| + |digits| + i];
    }
    assert extension == "" ==> line == size;
    if after != "" {
      assert size[|size| - 1] == after[|after| - 1];
    }
  }

  /**
   What is tolerated beyond the standard before the extension: spaces in other places, or of other
   kinds, and nothing else. The text of an extension is any text.
   */
  lemma ToleratesSpaces(line: string, n: nat)
    requires SizeLine(line, n)
    ensures line != "" && (StandardLine(line, n) <==> StandardSpaces(line))
  {
    hide StandardParts, StandardSpaces, HexValue;
    var before, digits, after, extension :| SizeParts(line, n, before, digits, after, extension);
    assert line != "";
    if StandardLine(line, n) {
      var digits, after, extension :| StandardParts(line, n, digits, after, extension);
      StandardIsSpaced(line, n, digits, after, extension);
    }
    if StandardSpaces(line) {
      SpacedIsStandard(line, n, before, digits, after, extension);
    }
  }

  // ---- framings ----

  /** A chunk as sent: its line, extensions included, and its data. */
  datatype Chunk = Chunk(line: string, data: string)

  ghost predicate IsChunk(chunk: Chunk) {
    NoBreak(chunk.line) && chunk.data != "" && SizeLine(chunk.line, |chunk.data|)
  }

  ghost predicate IsLastLine(line: string) {
    NoBreak(line) && SizeLine(line, 0)
  }

  function Sent(chunk: Chunk): string {
    chunk.line + CRLF + chunk.data + CRLF
  }

  function Framing(chunks: seq<Chunk>, last: string): string {
    if chunks == [] then last + CRLF + CRLF else Sent(chunks[0]) + Framing(chunks[1..], last)
  }

  /** Chunks of non-zero sizes, then a last chunk of size zero, and no trailer section. */
  ghost predicate IsFraming(chunks: seq<Chunk>, last: string) {
    (forall i :: 0 <= i < |chunks| ==> IsChunk(chunks[i])) && IsLastLine(last)
  }

  function Joined(chunks: seq<Chunk>): string {
    if chunks == [] then "" else chunks[0].data + Joined(chunks[1..])
  }

  // ---- what a body starts with, both ways ----

  lemma SizedChunk(body: string, line: string, data: string, rest: string)
    requires body == line + CRLF + data + CRLF + rest && data != ""
    ensures FirstOfSize(body, |line| + 2, |data|) == More(data, rest)
  {
    var start := |line| + 2;
    var end := start + |data|;
    assert body[start..end] == data;
    assert body[end..end + 2] == CRLF;
    assert body[end + 2..] == rest;
  }

  lemma LineFirst(line: string, after: string)
    requires NoBreak(line) && SizeOf(line).Some?
    ensures FirstOf(line + CRLF + after) == FirstOfSize(line + CRLF + after, |line| + 2, SizeOf(line).value)
  {
    LineEnds(line, after);
    assert (line + CRLF + after)[..|line|] == line;
  }

  lemma FirstOfSent(chunk: Chunk, rest: string)
    requires IsChunk(chunk)
    ensures FirstOf(Sent(chunk) + rest) == More(chunk.data, rest)
  {
    hide FirstOf, FirstOfSize, SizeOf, SizeLine;
    SizeOfIsSizeLine(chunk.line, |chunk.data|);
    var body := Sent(chunk) + rest;
    assert body == chunk.line + CRLF + (chunk.data + CRLF + rest);
    LineFirst(chunk.line, chunk.data + CRLF + rest);
    SizedChunk(body, chunk.line, chunk.data, rest);
  }

  lemma FirstOfLast(last: string)
    requires IsLastLine(last)
    ensures FirstOf(last + CRLF + CRLF) == Last
  {
    SizeOfIsSizeLine(last, 0);
    LineFirst(last, CRLF);
    assert (last + CRLF + CRLF)[|last| + 2..] == CRLF;
  }

  lemma FoundLine(body: string, n: nat)
    requires Find(body, CRLF) == Some(n)
    ensures NoBreak(body[..n]) && body == body[..n] + CRLF + body[n + 2..]
  {
    BeforeFirstIsLine(body, n);
  }

  lemma SizedSlices(body: string, start: nat, size: nat)
    requires start <= |body| && FirstOfSize(body, start, size).More?
    ensures var first := FirstOfSize(body, start, size);
            |first.data| == size && size > 0 && body[start..] == first.data + CRLF + first.rest
  {
    var end := start + size;
    assert body[start..] == body[start..end] + body[end..end + 2] + body[end + 2..];
  }

  lemma SentOf(body: string, line: string, data: string, rest: string, after: string)
    requires body == line + CRLF + after && after == data + CRLF + rest
    ensures body == Sent(Chunk(line, data)) + rest
  {
  }

  lemma MoreIsSent(body: string)
    requires FirstOf(body).More?
    ensures exists chunk ::
              IsChunk(chunk) && chunk.data == FirstOf(body).data && body == Sent(chunk) + FirstOf(body).rest
  {
    var n := Find(body, CRLF).value;
    FoundLine(body, n);
    var line := body[..n];
    SizedSlices(body, n + 2, SizeOf(line).value);
    var first := FirstOf(body);
    SentOf(body, line, first.data, first.rest, body[n + 2..]);
    SizeOfIsSizeLine(line, |first.data|);
    assert IsChunk(Chunk(line, first.data));
  }

  lemma LastIsLine(body: string)
    requires FirstOf(body).Last?
    ensures exists line :: IsLastLine(line) && body == line + CRLF + CRLF
  {
    var n := Find(body, CRLF).value;
    FoundLine(body, n);
    SizeOfIsSizeLine(body[..n], 0);
    assert IsLastLine(body[..n]);
  }

  lemma FirstGrows(body: string, more: string)
    requires !FirstOf(body).Bad? && more != ""
    ensures FirstOf(body).Last? ==> FirstOf(body + more).Bad?
    ensures FirstOf(body).More? ==> FirstOf(body + more) == More(FirstOf(body).data, FirstOf(body).rest + more)
  {
    FindGrows(body, CRLF, more);
    var n := Find(body, CRLF).value;
    assert (body + more)[..n] == body[..n];
    SizedGrows(body, n + 2, SizeOf(body[..n]).value, more);
  }

  lemma SizedGrows(body: string, start: nat, size: nat, more: string)
    requires start <= |body| && !FirstOfSize(body, start, size).Bad? && more != ""
    ensures var first, longer := FirstOfSize(body, start, size), FirstOfSize(body + more, start, size);
            (first.Last? ==> longer.Bad?) && (first.More? ==> longer == More(first.data, first.rest + more))
  {
    if size == 0 {
      assert |(body + more)[start..]| > 2;
    } else {
      var end := start + size;
      assert (body + more)[end..end + 2] == body[end..end + 2];
      assert (body + more)[start..end] == body[start..end];
      assert (body + more)[end + 2..] == body[end + 2..] + more;
    }
  }

  // ---- what is accepted, exactly ----

  /** Decoding any framing gives the data of its chunks, joined. */
  lemma {:induction false} FramingDecodes(chunks: seq<Chunk>, last: string)
    requires IsFraming(chunks, last)
    ensures Decode(Framing(chunks, last)) == Ok(Joined(chunks))
  {
    if chunks == [] {
      FirstOfLast(last);
    } else {
      FirstOfSent(chunks[0], Framing(chunks[1..], last));
      FramingDecodes(chunks[1..], last);
    }
  }

  ghost predicate HasFraming(body: string, content: string) {
    exists chunks, last :: IsFraming(chunks, last) && body == Framing(chunks, last) && content == Joined(chunks)
  }

  lemma NoChunks(last: string)
    requires IsLastLine(last)
    ensures HasFraming(last + CRLF + CRLF, "")
  {
    assert IsFraming([], last) && Framing([], last) == last + CRLF + CRLF && Joined([]) == "";
  }

  lemma ConsFraming(chunk: Chunk, rest: string, content: string)
    requires IsChunk(chunk) && HasFraming(rest, content)
    ensures HasFraming(Sent(chunk) + rest, chunk.data + content)
  {
    var chunks, last :| IsFraming(chunks, last) && rest == Framing(chunks, last) && content == Joined(chunks);
    var all := [chunk] + chunks;
    assert all[1..] == chunks;
    assert IsFraming(all, last) && Sent(chunk) + rest == Framing(all, last) && chunk.data + content == Joined(all);
  }

  lemma {:induction false} DecodedHasFraming(body: string)
    requires Decode(body).Ok?
    ensures HasFraming(body, Decode(body).value)
    decreases |body|
  {
    var first := FirstOf(body);
    if first.Last? {
      LastIsLine(body);
      var line :| IsLastLine(line) && body == line + CRLF + CRLF;
      NoChunks(line);
    } else {
      MoreIsSent(body);
      var chunk :| IsChunk(chunk) && chunk.data == first.data && body == Sent(chunk) + first.rest;
      DecodedHasFraming(first.rest);
      ConsFraming(chunk, first.rest, Decode(first.rest).value);
    }
  }

  /** The bodies accepted are exactly the framings, and what they decode to is the data of their chunks. */
  lemma AcceptsExactlyFramings(body: string, content: string)
    ensures Decode(body) == Ok(content) <==> HasFraming(body, content)
  {
    if Decode(body) == Ok(content) {
      DecodedHasFraming(body);
    }
    if HasFraming(body, content) {
      var chunks, last :| IsFraming(chunks, last) && body == Framing(chunks, last) && content == Joined(chunks);
      FramingDecodes(chunks, last);
    }
  }

  /** No accepted body stays accepted with bytes appended. */
  lemma {:induction false} NothingMayFollow(body: string, more: string)
    requires Decode(body).Ok? && more != ""
    ensures Decode(body + more).Err?
    decreases |body|
  {
    FirstGrows(body, more);
    if FirstOf(body).More? {
      NothingMayFollow(FirstOf(body).rest, more);
    }
  }

  // ---- every list of non-empty chunks has a framing ----

  function HexDigit(d: nat): (c: char)
    requires d < 16
    ensures IsHex(c) && HexDigitValue(c) == d
  {
    if d < 10 then '0' + d as char else 'a' + (d - 10) as char
  }

  function Hex(n: nat): (s: string)
    ensures s != "" && AllHex(s)
  {
    if n < 16 then [HexDigit(n)] else Hex(n / 16) + [HexDigit(n % 16)]
  }

  lemma {:induction false} HexReads(n: nat)
    ensures HexValue(Hex(n)) == n
  {
    var s := Hex(n);
    if n < 16 {
      assert s[..0] == "";
    } else {
      HexReads(n / 16);
      assert s[..|s| - 1] == Hex(n / 16);
    }
  }

  lemma HexLine(line: string)
    requires line != "" && AllHex(line)
    ensures NoBreak(line) && SizeLine(line, HexValue(line))
  {
    assert line == "" + line + "" + "";
    assert SizeParts(line, HexValue(line), "", line, "", "");
  }

  lemma HexIsSize(n: nat)
    ensures NoBreak(Hex(n)) && SizeLine(Hex(n), n)
  {
    HexLine(Hex(n));
    HexReads(n);
  }

  function Chunks(datas: seq<string>): (chunks: seq<Chunk>)
    ensures |chunks| == |datas|
    ensures forall i :: 0 <= i < |datas| ==> chunks[i] == Chunk(Hex(|datas[i]|), datas[i])
  {
    seq(|datas|, i requires 0 <= i < |datas| => Chunk(Hex(|datas[i]|), datas[i]))
  }

  function JoinedDatas(datas: seq<string>): string {
    if datas == [] then "" else datas[0] + JoinedDatas(datas[1..])
  }

  lemma {:induction false} JoinedChunks(datas: seq<string>)
    ensures Joined(Chunks(datas)) == JoinedDatas(datas)
  {
    if datas != [] {
      assert Chunks(datas)[1..] == Chunks(datas[1..]);
      JoinedChunks(datas[1..]);
    }
  }

  /** Any list of non-empty data can be sent in chunks of their sizes, and decodes to the data joined. */
  lemma ChunksRoundTrip(datas: seq<string>)
    requires forall i :: 0 <= i < |datas| ==> datas[i] != ""
    ensures IsFraming(Chunks(datas), "0")
    ensures Decode(Framing(Chunks(datas), "0")) == Ok(JoinedDatas(datas))
  {
    forall i | 0 <= i < |datas|
      ensures IsChunk(Chunks(datas)[i])
    {
      HexIsSize(|datas[i]|);
    }
    HexIsSize(0);
    assert Hex(0) == "0";
    FramingDecodes(Chunks(datas), "0");
    JoinedChunks(datas);
  }
}
