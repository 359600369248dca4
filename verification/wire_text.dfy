/**
 Text and bytes of the wire: finding, splitting and stripping as Python does.
 A byte is the char of its value.
 */
module WireText {
  import opened Collections

  const CRLF := "\r\n"

  predicate StartsWith(s: string, prefix: string) {
    |prefix| <= |s| && s[..|prefix|] == prefix
  }

  /** Where `what` first occurs. */
  function Find(s: string, what: string): (at: Option<nat>)
    ensures at.Some? ==> at.value + |what| <= |s|
  {
    if StartsWith(s, what) then Some(0)
    else if s == "" then None
    else
      match Find(s[1..], what)
      case None => None
      case Some(i) => Some(i + 1)
  }

  lemma {:induction false} FindIsFirst(s: string, what: string, i: nat)
    requires i <= |s|
    ensures Find(s, what) == Some(i) <==>
            StartsWith(s[i..], what) && forall j :: 0 <= j < i ==> !StartsWith(s[j..], what)
  {
    assert s[0..] == s;
    if i > 0 && s != "" {
      FindIsFirst(s[1..], what, i - 1);
      assert s[1..][i - 1..] == s[i..];
      assert forall j :: 0 <= j < i - 1 ==> s[1..][j..] == s[j + 1..];
      if StartsWith(s[i..], what) && forall j :: 0 <= j < i ==> !StartsWith(s[j..], what) {
        assert !StartsWith(s[0..], what);
      }
      if Find(s, what) == Some(i) {
        forall j | 0 <= j < i
          ensures !StartsWith(s[j..], what)
        {
          assert j == 0 || s[1..][j - 1..] == s[j..];
        }
      }
    }
  }

  /** What is found stays where it is when more is appended. */
  lemma {:induction false} FindGrows(s: string, what: string, more: string)
    requires Find(s, what).Some?
    ensures Find(s + more, what) == Find(s, what)
  {
    if StartsWith(s, what) {
      assert (s + more)[..|what|] == s[..|what|];
    } else {
      assert (s + more)[1..] == s[1..] + more;
      FindGrows(s[1..], what, more);
      assert (s + more)[..|what|] == s[..|what|];
    }
  }

  /** A character that does not occur is not found. */
  lemma {:induction false} NotFound(s: string, c: char)
    requires c !in s
    ensures Find(s, [c]) == None
  {
    if s != "" {
      assert s[..1] == [s[0]] && s[0] != c;
      NotFound(s[1..], c);
    }
  }

  /** A character is found where it first occurs. */
  lemma {:induction false} FindChar(s: string, c: char, rest: string)
    requires c !in s
    ensures Find(s + [c] + rest, [c]) == Some(|s|)
  {
    var all := s + [c] + rest;
    assert all[..1] == [all[0]];
    if s != "" {
      assert all[1..] == s[1..] + [c] + rest;
      FindChar(s[1..], c, rest);
    }
  }

  /** What is found of a character is its first occurrence. */
  lemma {:induction false} BeforeChar(s: string, c: char)
    requires Find(s, [c]).Some?
    ensures var i := Find(s, [c]).value; i < |s| && s[i] == c && c !in s[..i]
  {
    if StartsWith(s, [c]) {
      assert s[..1][0] == s[0];
    } else {
      BeforeChar(s[1..], c);
      assert s[..1] == [s[0]];
      var i := Find(s[1..], [c]).value;
      assert s[..i + 1] == [s[0]] + s[1..][..i];
    }
  }

  lemma {:induction false} FoundIfThere(s: string, c: char, i: nat)
    requires i < |s| && s[i] == c
    ensures Find(s, [c]).Some?
  {
    if i == 0 {
      assert s[..1] == [c];
    } else {
      FoundIfThere(s[1..], c, i - 1);
    }
  }

  // ---- lines ----

  predicate BreakAt(s: string, i: nat) {
    i + 1 < |s| && s[i] == '\r' && s[i + 1] == '\n'
  }

  lemma BreakIsCrlf(s: string, i: nat)
    requires i <= |s|
    ensures StartsWith(s[i..], CRLF) <==> BreakAt(s, i)
  {
    if i + 2 <= |s| {
      assert s[i..][..2] == [s[i], s[i + 1]];
    }
  }

  predicate NoBreak(line: string) {
    forall i :: 0 <= i < |line| ==> !BreakAt(line, i)
  }

  /** A line without a line break ends at the first one after it. */
  lemma LineEnds(line: string, rest: string)
    requires NoBreak(line)
    ensures Find(line + CRLF + rest, CRLF) == Some(|line|)
  {
    var s := line + CRLF + rest;
    forall i | 0 <= i < |line|
      ensures !StartsWith(s[i..], CRLF)
    {
      BreakIsCrlf(s, i);
      assert !BreakAt(line, i);
    }
    BreakIsCrlf(s, |line|);
    FindIsFirst(s, CRLF, |line|);
  }

  lemma BeforeFirstIsLine(s: string, n: nat)
    requires Find(s, CRLF) == Some(n)
    ensures NoBreak(s[..n]) && BreakAt(s, n)
  {
    FindIsFirst(s, CRLF, n);
    BreakIsCrlf(s, n);
    forall i | 0 <= i < n
      ensures !BreakAt(s[..n], i)
    {
      BreakIsCrlf(s, i);
    }
  }

  // ---- stripping ----

  predicate ByteSpace(c: char) {
    c == ' ' || 9 <= c as int <= 13
  }

  /** Space among the ASCII characters of a str. */
  predicate TextSpace(c: char) {
    c == ' ' || 9 <= c as int <= 13 || 28 <= c as int <= 31
  }

  function StripLeft(s: string, space: char -> bool): (r: string)
    ensures r == "" || !space(r[0])
  {
    if s != "" && space(s[0]) then StripLeft(s[1..], space) else s
  }

  function StripRight(s: string, space: char -> bool): (r: string)
    ensures r == "" || !space(r[|r| - 1])
    ensures r <= s
  {
    if s != "" && space(s[|s| - 1]) then StripRight(s[..|s| - 1], space) else s
  }

  function Strip(s: string, space: char -> bool): string {
    StripRight(StripLeft(s, space), space)
  }

  predicate Stripped(s: string, space: char -> bool) {
    s == "" || (!space(s[0]) && !space(s[|s| - 1]))
  }

  lemma StripKeeps(s: string, space: char -> bool)
    requires Stripped(s, space)
    ensures Strip(s, space) == s
  {
  }

  predicate AllSpace(s: string, space: char -> bool) {
    forall i :: 0 <= i < |s| ==> space(s[i])
  }

  lemma {:induction false} StripLeftSplits(s: string, space: char -> bool) returns (before: string)
    ensures AllSpace(before, space) && s == before + StripLeft(s, space)
  {
    if s != "" && space(s[0]) {
      var more := StripLeftSplits(s[1..], space);
      before := [s[0]] + more;
      assert s == [s[0]] + s[1..];
      Associative([s[0]], more, StripLeft(s[1..], space));
    } else {
      before := "";
    }
  }

  lemma {:induction false} StripRightSplits(s: string, space: char -> bool)
    ensures AllSpace(s[|StripRight(s, space)|..], space)
  {
    if s != "" && space(s[|s| - 1]) {
      var n := |s| - 1;
      StripRightSplits(s[..n], space);
      var left := |StripRight(s, space)|;
      assert s[left..] == s[..n][left..] + [s[n]];
    }
  }

  /** A text is what stripping leaves, between spaces. */
  lemma StripSplits(s: string, space: char -> bool) returns (before: string, after: string)
    ensures AllSpace(before, space) && AllSpace(after, space)
    ensures s == before + Strip(s, space) + after
  {
    before := StripLeftSplits(s, space);
    var left := StripLeft(s, space);
    StripRightSplits(left, space);
    after := left[|Strip(s, space)|..];
    Associative(before, Strip(s, space), after);
  }

  lemma {:induction false} StripLeftSpaces(before: string, s: string, space: char -> bool)
    requires AllSpace(before, space) && s != "" && !space(s[0])
    ensures StripLeft(before + s, space) == s
  {
    if before == "" {
      assert before + s == s;
    } else {
      assert (before + s)[1..] == before[1..] + s;
      StripLeftSpaces(before[1..], s, space);
    }
  }

  lemma {:induction false} StripRightSpaces(s: string, after: string, space: char -> bool)
    requires AllSpace(after, space) && s != "" && !space(s[|s| - 1])
    ensures StripRight(s + after, space) == s
  {
    if after == "" {
      assert s + after == s;
    } else {
      assert (s + after)[..|s + after| - 1] == s + after[..|after| - 1];
      StripRightSpaces(s, after[..|after| - 1], space);
    }
  }

  /** Stripping takes the spaces around a stripped text away. */
  lemma StripSpaces(before: string, s: string, after: string, space: char -> bool)
    requires AllSpace(before, space) && AllSpace(after, space) && s != "" && Stripped(s, space)
    ensures Strip(before + s + after, space) == s
  {
    Associative(before, s, after);
    StripLeftSpaces(before, s + after, space);
    StripRightSpaces(s, after, space);
  }
}
