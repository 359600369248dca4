/** Rule paths and their segments (tydomio/capture/policy.py). */
module Policy {
  import opened Collections

  const LIST_ITEM := "[]"
  const ANY_KEY := "*"

  // ---- matching ----

  predicate IsWildcard(segment: string) {
    |segment| > 0 && segment[0] == '*'
  }

  predicate EndsWith(s: string, suffix: string) {
    |suffix| <= |s| && s[|s| - |suffix|..] == suffix
  }

  predicate SegmentMatches(segment: string, key: string) {
    if !IsWildcard(segment) then segment == key
    else EndsWith(key, segment[1..]) && |key| > |segment[1..]|
  }

  // ---- parsing ----

  /** Split at the dots not preceded by a backslash. */
  function SplitDots(path: string): (parts: seq<string>)
    ensures parts != []
  {
    if path == "" then [""]
    else
      var n := |path| - 1;
      var parts := SplitDots(path[..n]);
      if path[n] == '.' && !(n > 0 && path[n - 1] == '\\') then parts + [""]
      else parts[..|parts| - 1] + [parts[|parts| - 1] + [path[n]]]
  }

  /** The part without its trailing `[]`, and how many there were. */
  function StripItems(part: string): (r: (string, nat))
    ensures !EndsWith(r.0, LIST_ITEM)
  {
    if EndsWith(part, LIST_ITEM) then
      var (key, items) := StripItems(part[..|part| - 2]);
      (key, items + 1)
    else (part, 0)
  }

  /** `key.replace("\\.", ".")`, from left to right. */
  function Unescape(key: string): string {
    if |key| < 2 then key
    else if key[0] == '\\' && key[1] == '.' then "." + Unescape(key[2..])
    else [key[0]] + Unescape(key[1..])
  }

  function Repeat(n: nat): (items: seq<string>)
    ensures |items| == n
  {
    if n == 0 then [] else Repeat(n - 1) + [LIST_ITEM]
  }

  function PartSegments(part: string): seq<string> {
    var (key, items) := StripItems(part);
    (if key == "" then [] else [Unescape(key)]) + Repeat(items)
  }

  function Segments(parts: seq<string>): seq<string> {
    if parts == [] then [] else Segments(parts[..|parts| - 1]) + PartSegments(parts[|parts| - 1])
  }

  function ParsePath(path: string): seq<string> {
    Segments(SplitDots(path))
  }

  /** `parse_path`, its loop over the parts and the inner loop over trailing items. */
  method ParsePathLoop(path: string) returns (segments: seq<string>)
    ensures segments == ParsePath(path)
  {
    hide SplitDots, Unescape, Repeat;
    segments := [];
    var parts := SplitDots(path);
    for i := 0 to |parts|
      invariant segments == Segments(parts[..i])
    {
      var key := parts[i];
      var items := 0;
      while EndsWith(key, LIST_ITEM)
        invariant StripItems(parts[i]) == (StripItems(key).0, StripItems(key).1 + items)
        decreases |key|
      {
        key := key[..|key| - 2];
        items := items + 1;
      }
      ghost var before := segments;
      if key != "" {
        segments := segments + [Unescape(key)];
      }
      segments := segments + Repeat(items);
      assert segments == before + PartSegments(parts[i]);
      assert parts[..i + 1][..i] == parts[..i];
    }
    assert parts[..|parts|] == parts;
  }

  // ---- printing ----

  function Escape(key: string): string {
    if key == "" then "" else (if key[0] == '.' then "\\." else [key[0]]) + Escape(key[1..])
  }

  /** The path notation: keys joined by dots, their own dots escaped, `[]` after its list. */
  function PrintPath(segments: seq<string>): string {
    if segments == [] then ""
    else
      var init := segments[..|segments| - 1];
      var last := segments[|segments| - 1];
      PrintPath(init) + if last == LIST_ITEM then LIST_ITEM else (if init == [] then "" else ".") + Escape(last)
  }

  /** A key the notation can hold. */
  predicate PrintableKey(key: string) {
    key != "" && !EndsWith(key, LIST_ITEM)
  }

  predicate EndsInBackslash(s: string) {
    |s| > 0 && s[|s| - 1] == '\\'
  }

  /** The key `i` would escape the dot before its successor. */
  predicate Swallows(segments: seq<string>, i: int) {
    && 0 <= i < |segments| - 1
    && segments[i] != LIST_ITEM && segments[i + 1] != LIST_ITEM
    && EndsInBackslash(segments[i])
  }

  /** Keys the notation can hold, none swallowing the dot of the next. */
  predicate Printable(segments: seq<string>) {
    && (forall i :: 0 <= i < |segments| && segments[i] != LIST_ITEM ==> PrintableKey(segments[i]))
    && forall i :: 0 <= i < |segments| ==> !Swallows(segments, i)
  }

  // ---- the round trip ----

  lemma SplitDot(path: string)
    requires !EndsInBackslash(path)
    ensures SplitDots(path + ".") == SplitDots(path) + [""]
  {
    assert (path + ".")[..|path|] == path;
  }

  function ExtendLast(parts: seq<string>, text: string): seq<string>
    requires parts != []
  {
    parts[..|parts| - 1] + [parts[|parts| - 1] + text]
  }

  lemma ExtendTwice(parts: seq<string>, a: string, b: string)
    requires parts != []
    ensures ExtendLast(ExtendLast(parts, a), b) == ExtendLast(parts, a + b)
  {
    Associative(parts[|parts| - 1], a, b);
  }

  /** A character that does not separate extends the last part. */
  lemma SplitOther(path: string, c: char)
    requires c != '.' || EndsInBackslash(path)
    ensures SplitDots(path + [c]) == ExtendLast(SplitDots(path), [c])
  {
    assert (path + [c])[..|path|] == path;
  }

  lemma SplitEscapedDot(path: string)
    ensures SplitDots(path + "\\.") == ExtendLast(SplitDots(path), "\\.")
  {
    SplitOther(path, '\\');
    SplitOther(path + "\\", '.');
    assert path + "\\" + "." == path + "\\.";
    ExtendTwice(SplitDots(path), "\\", ".");
    assert "\\" + "." == "\\.";
  }

  /** No dot of an escaped key separates. */
  lemma {:induction false} SplitEscaped(path: string, key: string)
    ensures SplitDots(path + Escape(key)) == ExtendLast(SplitDots(path), Escape(key))
    decreases |key|
  {
    var parts := SplitDots(path);
    if key == "" {
      assert path + "" == path;
      assert parts[|parts| - 1] + "" == parts[|parts| - 1];
      assert ExtendLast(parts, "") == parts;
    } else {
      var head := if key[0] == '.' then "\\." else [key[0]];
      if key[0] == '.' {
        SplitEscapedDot(path);
      } else {
        SplitOther(path, key[0]);
      }
      SplitEscaped(path + head, key[1..]);
      Associative(path, head, Escape(key[1..]));
      ExtendTwice(parts, head, Escape(key[1..]));
    }
  }

  lemma {:induction false} UnescapeEscape(key: string)
    ensures Unescape(Escape(key)) == key
  {
    if key != "" {
      UnescapeEscape(key[1..]);
      var rest := Escape(key[1..]);
      if key[0] == '.' {
        assert Escape(key)[2..] == rest;
      } else {
        assert Escape(key)[1..] == rest;
        assert rest != "" ==> rest[0] != '.';
      }
    }
  }

  lemma EndsInItem(s: string)
    ensures EndsWith(s, LIST_ITEM) <==> |s| >= 2 && s[|s| - 2] == '[' && s[|s| - 1] == ']'
  {
    if |s| >= 2 {
      assert s[|s| - 2..] == [s[|s| - 2], s[|s| - 1]];
    }
  }

  /** Escaping only adds backslashes before dots: the end shows through. */
  lemma {:induction false} EscapeEnds(key: string)
    requires key != ""
    ensures var e := Escape(key);
            && |e| >= |key| && e[|e| - 1] == key[|key| - 1]
            && (|key| == 1 && |e| > 1 ==> e[|e| - 2] == '\\')
            && (|key| > 1 && key[|key| - 1] != '.' ==> e[|e| - 2] == key[|key| - 2])
  {
    var rest := Escape(key[1..]);
    if |key| > 1 {
      EscapeEnds(key[1..]);
      assert key[1..][|key| - 2] == key[|key| - 1];
      if |key| == 2 {
        assert Escape(key[2..]) == "";
        assert key[1..][1..] == key[2..];
      } else {
        assert key[1..][|key| - 3] == key[|key| - 2];
      }
    }
  }

  lemma EscapeKeepsEnd(key: string)
    ensures Escape(key) == "" <==> key == ""
    ensures EndsWith(Escape(key), LIST_ITEM) <==> EndsWith(key, LIST_ITEM)
    ensures EndsInBackslash(Escape(key)) <==> EndsInBackslash(key)
  {
    EndsInItem(key);
    EndsInItem(Escape(key));
    if key != "" {
      EscapeEnds(key);
    }
  }

  lemma SegmentsSnoc(parts: seq<string>, part: string)
    ensures Segments(parts + [part]) == Segments(parts) + PartSegments(part)
  {
    assert (parts + [part])[..|parts|] == parts;
  }

  lemma PartItem(part: string)
    ensures PartSegments(part + LIST_ITEM) == PartSegments(part) + [LIST_ITEM]
  {
    assert (part + LIST_ITEM)[..|part + LIST_ITEM| - 2] == part;
    assert EndsWith(part + LIST_ITEM, LIST_ITEM);
    var (key, items) := StripItems(part);
    assert StripItems(part + LIST_ITEM) == (key, items + 1);
    Associative(if key == "" then [] else [Unescape(key)], Repeat(items), [LIST_ITEM]);
  }

  lemma SplitItem(path: string)
    ensures SplitDots(path + LIST_ITEM) == ExtendLast(SplitDots(path), LIST_ITEM)
  {
    SplitOther(path, '[');
    SplitOther(path + "[", ']');
    assert path + LIST_ITEM == path + "[" + "]";
    ExtendTwice(SplitDots(path), "[", "]");
    assert "[" + "]" == LIST_ITEM;
  }

  lemma ParseItem(path: string)
    ensures ParsePath(path + LIST_ITEM) == ParsePath(path) + [LIST_ITEM]
  {
    var parts := SplitDots(path);
    var init, last := parts[..|parts| - 1], parts[|parts| - 1];
    SplitItem(path);
    PartItem(last);
    SegmentsSnoc(init, last);
    SegmentsSnoc(init, last + LIST_ITEM);
    assert parts == init + [last];
    Associative(Segments(init), PartSegments(last), [LIST_ITEM]);
  }

  lemma EscapedKeyPart(key: string)
    requires PrintableKey(key)
    ensures PartSegments(Escape(key)) == [key]
  {
    EscapeKeepsEnd(key);
    UnescapeEscape(key);
  }

  lemma ParseFirstKey(key: string)
    requires PrintableKey(key)
    ensures ParsePath(Escape(key)) == [key]
  {
    SplitEscaped("", key);
    assert "" + Escape(key) == Escape(key);
    assert SplitDots(Escape(key)) == [Escape(key)];
    EscapedKeyPart(key);
    SegmentsSnoc([], Escape(key));
    assert [] + [Escape(key)] == [Escape(key)];
  }

  lemma ParseNextKey(path: string, key: string)
    requires PrintableKey(key) && !EndsInBackslash(path)
    ensures ParsePath(path + "." + Escape(key)) == ParsePath(path) + [key]
  {
    SplitDot(path);
    SplitEscaped(path + ".", key);
    var parts := SplitDots(path);
    assert (parts + [""])[..|parts|] == parts;
    assert "" + Escape(key) == Escape(key);
    assert SplitDots(path + "." + Escape(key)) == parts + [Escape(key)];
    EscapedKeyPart(key);
    SegmentsSnoc(parts, Escape(key));
  }

  lemma PrintSnoc(init: seq<string>, last: string)
    ensures PrintPath(init + [last]) ==
            PrintPath(init) + if last == LIST_ITEM then LIST_ITEM else (if init == [] then "" else ".") + Escape(last)
  {
    assert (init + [last])[..|init|] == init;
  }

  /** The printed path ends in a backslash exactly when its last segment is a key that does. */
  lemma PrintedEnd(init: seq<string>, last: string)
    requires last != LIST_ITEM ==> PrintableKey(last)
    ensures EndsInBackslash(PrintPath(init + [last])) <==> last != LIST_ITEM && EndsInBackslash(last)
  {
    PrintSnoc(init, last);
    if last != LIST_ITEM {
      EscapeKeepsEnd(last);
    }
  }

  /** Parsing undoes printing one more segment. */
  lemma ParseUndoesPrintSnoc(init: seq<string>, last: string)
    requires ParsePath(PrintPath(init)) == init
    requires last != LIST_ITEM ==> PrintableKey(last)
    requires last != LIST_ITEM ==> !EndsInBackslash(PrintPath(init))
    ensures ParsePath(PrintPath(init + [last])) == init + [last]
  {
    PrintSnoc(init, last);
    if last == LIST_ITEM {
      ParseItem(PrintPath(init));
    } else if init == [] {
      ParseFirstKey(last);
      assert "" + ("" + Escape(last)) == Escape(last);
    } else {
      ParseNextKey(PrintPath(init), last);
      Associative(PrintPath(init), ".", Escape(last));
    }
  }

  lemma SwallowsInit(init: seq<string>, last: string, i: int)
    requires i < |init| - 1
    ensures Swallows(init + [last], i) <==> Swallows(init, i)
  {
  }

  lemma PrintableInit(init: seq<string>, last: string)
    requires Printable(init + [last])
    ensures Printable(init)
    ensures last != LIST_ITEM ==> PrintableKey(last)
    ensures init != [] && last != LIST_ITEM && init[|init| - 1] != LIST_ITEM ==> !EndsInBackslash(init[|init| - 1])
  {
    var segments := init + [last];
    assert forall i :: 0 <= i < |init| ==> segments[i] == init[i];
    assert segments[|init|] == last;
    forall i | 0 <= i < |init|
      ensures !Swallows(init, i)
    {
      assert !Swallows(segments, i);
    }
    if init != [] {
      assert !Swallows(segments, |init| - 1);
    }
  }

  lemma ParseEmpty()
    ensures ParsePath("") == []
  {
    assert SplitDots("") == [""];
    SegmentsSnoc([], "");
    assert [] + [""] == [""];
  }

  /** A key after a printed path has its dot. */
  lemma DotSeparates(init: seq<string>, last: string)
    requires Printable(init + [last]) && last != LIST_ITEM
    ensures !EndsInBackslash(PrintPath(init))
  {
    PrintableInit(init, last);
    if init != [] {
      var n := |init| - 1;
      assert init == init[..n] + [init[n]];
      PrintableInit(init[..n], init[n]);
      PrintedEnd(init[..n], init[n]);
    }
  }

  /** Parsing undoes printing, for every printable path. */
  lemma {:induction false} ParseUndoesPrint(segments: seq<string>)
    requires Printable(segments)
    ensures ParsePath(PrintPath(segments)) == segments
  {
    hide ParsePath, Printable;
    if segments == [] {
      ParseEmpty();
    } else {
      var n := |segments| - 1;
      var init, last := segments[..n], segments[n];
      assert segments == init + [last];
      PrintableInit(init, last);
      ParseUndoesPrint(init);
      if last != LIST_ITEM {
        DotSeparates(init, last);
      }
      ParseUndoesPrintSnoc(init, last);
    }
  }

  // ---- and for no other path ----

  /** How many segments are keys. */
  function KeyCount(segments: seq<string>): nat {
    if segments == [] then 0
    else KeyCount(segments[..|segments| - 1]) + if segments[|segments| - 1] == LIST_ITEM then 0 else 1
  }

  lemma {:induction false} KeyCountConcat(a: seq<string>, b: seq<string>)
    ensures KeyCount(a + b) == KeyCount(a) + KeyCount(b)
  {
    if b == [] {
      assert a + b == a;
    } else {
      KeyCountConcat(a, b[..|b| - 1]);
      assert (a + b)[..|a + b| - 1] == a + b[..|b| - 1];
    }
  }

  lemma {:induction false} RepeatIsItems(n: nat)
    ensures KeyCount(Repeat(n)) == 0
    ensures forall i :: 0 <= i < n ==> Repeat(n)[i] == LIST_ITEM
  {
    if n > 0 {
      RepeatIsItems(n - 1);
      assert (Repeat(n - 1) + [LIST_ITEM])[..n - 1] == Repeat(n - 1);
    }
  }

  /** Unescaping only removes backslashes before dots: the end shows through. */
  lemma {:induction false} UnescapeEnds(key: string)
    requires key != ""
    ensures var u := Unescape(key);
            && 1 <= |u| <= |key| && u[|u| - 1] == key[|key| - 1]
            && (|u| > 1 && u[|u| - 1] != '.' ==> u[|u| - 2] == key[|key| - 2])
  {
    if |key| >= 2 {
      var cut := if key[0] == '\\' && key[1] == '.' then 2 else 1;
      var rest := key[cut..];
      if rest != "" {
        UnescapeEnds(rest);
        assert rest[|rest| - 1] == key[|key| - 1];
        if |rest| >= 2 {
          assert rest[|rest| - 2] == key[|key| - 2];
          SingleUnescape(rest);
        }
      }
    }
  }

  lemma SingleUnescape(key: string)
    requires |key| >= 2
    ensures |Unescape(key)| == 1 ==> Unescape(key) == "."
  {
    UnescapeNonEmpty(key[1..]);
  }

  lemma UnescapeNonEmpty(key: string)
    requires key != ""
    ensures Unescape(key) != ""
  {
  }

  lemma UnescapeKeepsItems(key: string)
    requires key != "" && EndsWith(Unescape(key), LIST_ITEM)
    ensures EndsWith(key, LIST_ITEM)
  {
    EndsInItem(key);
    EndsInItem(Unescape(key));
    UnescapeEnds(key);
  }

  /** A part gives at most one key, never empty nor ending in `[]`. */
  lemma PartKeys(part: string)
    ensures KeyCount(PartSegments(part)) <= 1
    ensures EndsInBackslash(part) ==> KeyCount(PartSegments(part)) == 1
    ensures forall segment :: segment in PartSegments(part) && segment != LIST_ITEM ==> PrintableKey(segment)
  {
    var (key, items) := StripItems(part);
    RepeatIsItems(items);
    var named := if key == "" then [] else [Unescape(key)];
    KeyCountConcat(named, Repeat(items));
    assert [Unescape(key)][..0] == [];
    EndsInItem(part);
    if key != "" {
      UnescapeNonEmpty(key);
      if EndsWith(Unescape(key), LIST_ITEM) {
        UnescapeKeepsItems(key);
      }
    }
  }

  lemma {:induction false} ParsedKeysArePrintable(parts: seq<string>)
    ensures forall segment :: segment in Segments(parts) && segment != LIST_ITEM ==> PrintableKey(segment)
  {
    if parts != [] {
      ParsedKeysArePrintable(parts[..|parts| - 1]);
      PartKeys(parts[|parts| - 1]);
    }
  }

  lemma {:induction false} LastPartEnds(path: string)
    ensures EndsInBackslash(path) ==> EndsInBackslash(SplitDots(path)[|SplitDots(path)| - 1])
  {
    if EndsInBackslash(path) {
      SplitOther(path[..|path| - 1], '\\');
      assert path == path[..|path| - 1] + "\\";
    }
  }

  /** A swallowed dot costs a key. */
  lemma SwallowedKey(path: string, key: string)
    requires EndsInBackslash(path)
    ensures KeyCount(ParsePath(path + "." + Escape(key))) <= KeyCount(ParsePath(path))
  {
    var parts := SplitDots(path);
    var init, last := parts[..|parts| - 1], parts[|parts| - 1];
    SplitOther(path, '.');
    SplitEscaped(path + ".", key);
    ExtendTwice(parts, ".", Escape(key));
    LastPartEnds(path);
    var text := last + ("." + Escape(key));
    assert SplitDots(path + "." + Escape(key)) == init + [text];
    SegmentsSnoc(init, last);
    SegmentsSnoc(init, text);
    assert parts == init + [last];
    PartKeys(last);
    PartKeys(text);
    KeyCountConcat(Segments(init), PartSegments(last));
    KeyCountConcat(Segments(init), PartSegments(text));
  }

  /** Any key printed after a dot that separates gives at most one key. */
  lemma SeparatedKey(path: string, key: string)
    requires !EndsInBackslash(path)
    ensures KeyCount(ParsePath(path + "." + Escape(key))) <= KeyCount(ParsePath(path)) + 1
  {
    SplitDot(path);
    SplitEscaped(path + ".", key);
    var parts := SplitDots(path);
    assert (parts + [""])[..|parts|] == parts;
    assert "" + Escape(key) == Escape(key);
    assert SplitDots(path + "." + Escape(key)) == parts + [Escape(key)];
    SegmentsSnoc(parts, Escape(key));
    PartKeys(Escape(key));
    KeyCountConcat(ParsePath(path), PartSegments(Escape(key)));
  }

  lemma FirstKey(key: string)
    ensures KeyCount(ParsePath(Escape(key))) <= 1
  {
    SplitEscaped("", key);
    assert "" + Escape(key) == Escape(key);
    assert SplitDots(Escape(key)) == [Escape(key)];
    SegmentsSnoc([], Escape(key));
    assert [] + [Escape(key)] == [Escape(key)];
    PartKeys(Escape(key));
    assert [] + PartSegments(Escape(key)) == PartSegments(Escape(key));
  }

  lemma SnocCount(init: seq<string>, last: string)
    ensures KeyCount(ParsePath(PrintPath(init + [last]))) <=
            KeyCount(ParsePath(PrintPath(init))) +
            if last == LIST_ITEM || (init != [] && EndsInBackslash(PrintPath(init))) then 0 else 1
  {
    PrintSnoc(init, last);
    if last == LIST_ITEM {
      ParseItem(PrintPath(init));
      KeyCountConcat(ParsePath(PrintPath(init)), [LIST_ITEM]);
      assert [LIST_ITEM][..0] == [];
    } else if init == [] {
      FirstKey(last);
      assert "" + ("" + Escape(last)) == Escape(last);
    } else {
      Associative(PrintPath(init), ".", Escape(last));
      if EndsInBackslash(PrintPath(init)) {
        SwallowedKey(PrintPath(init), last);
      } else {
        SeparatedKey(PrintPath(init), last);
      }
    }
  }

  lemma CountEmpty()
    ensures KeyCount(ParsePath(PrintPath([]))) == 0
  {
    ParseEmpty();
  }

  lemma KeyCountSnoc(init: seq<string>, last: string)
    ensures KeyCount(init + [last]) == KeyCount(init) + if last == LIST_ITEM then 0 else 1
  {
    assert (init + [last])[..|init|] == init;
  }

  /** Parsing a printed path gives no more keys than were printed, and fewer when a dot was swallowed. */
  lemma {:induction false} PrintedKeys(segments: seq<string>, i: int)
    requires forall j :: 0 <= j < |segments| && segments[j] != LIST_ITEM ==> PrintableKey(segments[j])
    ensures KeyCount(ParsePath(PrintPath(segments))) <= KeyCount(segments)
    ensures Swallows(segments, i) ==> KeyCount(ParsePath(PrintPath(segments))) < KeyCount(segments)
  {
    hide ParsePath, PrintPath, KeyCount, PrintableKey;
    if segments == [] {
      CountEmpty();
    } else {
      var n := |segments| - 1;
      var init, last := segments[..n], segments[n];
      assert segments == init + [last];
      assert forall j :: 0 <= j < n ==> init[j] == segments[j];
      PrintedKeys(init, i);
      SnocCount(init, last);
      KeyCountSnoc(init, last);
      if i < n - 1 {
        SwallowsInit(init, last, i);
      } else if Swallows(segments, i) {
        PrintedEnd(init[..n - 1], init[n - 1]);
        assert init == init[..n - 1] + [init[n - 1]];
      }
    }
  }

  /** Parsing undoes printing exactly for the printable paths. */
  lemma ParseUndoesPrintIff(segments: seq<string>)
    ensures ParsePath(PrintPath(segments)) == segments <==> Printable(segments)
  {
    if Printable(segments) {
      ParseUndoesPrint(segments);
    } else if i :| 0 <= i < |segments| && segments[i] != LIST_ITEM && !PrintableKey(segments[i]) {
      ParsedKeysArePrintable(SplitDots(PrintPath(segments)));
      assert segments[i] in segments;
    } else {
      var i :| Swallows(segments, i);
      PrintedKeys(segments, i);
    }
  }
}
