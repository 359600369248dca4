/** Numbers given by `setdefault(text, len + 1)` (tydomio/capture/anonymize.py:232, 274, 284). */
module Numbering {
  import opened AnonymizeWalk

  /** The numbers after the texts were visited in turn. */
  function AssignAll(numbers: map<string, nat>, texts: seq<string>): map<string, nat> {
    if texts == [] then numbers
    else Assign(AssignAll(numbers, texts[..|texts| - 1]), texts[|texts| - 1])
  }

  lemma AssignSnoc(numbers: map<string, nat>, texts: seq<string>, text: string)
    ensures AssignAll(numbers, texts + [text]) == Assign(AssignAll(numbers, texts), text)
  {
    assert (texts + [text])[..|texts|] == texts;
  }

  /** The numbers are exactly 1..n, each given once. */
  ghost predicate Dense(numbers: map<string, nat>) {
    && (forall k :: k in numbers ==> 1 <= numbers[k] <= |numbers|)
    && (forall k, l :: k in numbers && l in numbers && numbers[k] == numbers[l] ==> k == l)
    && (forall n: nat :: 1 <= n <= |numbers| ==> n in numbers.Values)
  }

  lemma AssignKeepsDense(numbers: map<string, nat>, text: string)
    requires Dense(numbers)
    ensures Dense(Assign(numbers, text))
  {
    if text !in numbers {
      var after := Assign(numbers, text);
      assert |after| == |numbers| + 1 by {
        assert after.Keys == numbers.Keys + {text};
      }
      forall n: nat | 1 <= n <= |after|
        ensures n in after.Values
      {
        if n == |after| {
          assert after[text] == n;
        } else {
          assert n in numbers.Values;
          var k :| k in numbers && numbers[k] == n;
          assert k in after && after[k] == n;
        }
      }
    }
  }

  lemma {:induction false} AssignAllKeepsDense(numbers: map<string, nat>, texts: seq<string>)
    requires Dense(numbers)
    ensures Dense(AssignAll(numbers, texts))
  {
    if texts != [] {
      AssignAllKeepsDense(numbers, texts[..|texts| - 1]);
      AssignKeepsDense(AssignAll(numbers, texts[..|texts| - 1]), texts[|texts| - 1]);
    }
  }

  /** Where a text is first visited. */
  function FirstVisit(texts: seq<string>, text: string): (i: nat)
    requires text in texts
    ensures i < |texts| && texts[i] == text && text !in texts[..i]
  {
    var n := |texts| - 1;
    if text in texts[..n] then
      var i := FirstVisit(texts[..n], text);
      assert texts[..n][..i] == texts[..i];
      i
    else n
  }

  lemma FirstVisitSnoc(texts: seq<string>, last: string, text: string)
    requires text in texts + [last]
    ensures text in texts || text == last
    ensures FirstVisit(texts + [last], text) == if text in texts then FirstVisit(texts, text) else |texts|
  {
    assert (texts + [last])[..|texts|] == texts;
  }

  ghost predicate InOrderOfFirstVisit(numbers: map<string, nat>, texts: seq<string>) {
    && (forall text :: text in numbers <==> text in texts)
    && forall a, b :: a in texts && b in texts ==>
      (numbers[a] < numbers[b] <==> FirstVisit(texts, a) < FirstVisit(texts, b))
  }

  /**
   Started from nothing, the texts visited get the numbers 1..n, two texts the same number
   only when they are the same, in the order of their first visits.
   */
  lemma {:induction false} NumbersFollowFirstVisits(texts: seq<string>)
    ensures Dense(AssignAll(map[], texts))
    ensures InOrderOfFirstVisit(AssignAll(map[], texts), texts)
  {
    if texts != [] {
      var n := |texts| - 1;
      var init, last := texts[..n], texts[n];
      var before := AssignAll(map[], init);
      NumbersFollowFirstVisits(init);
      AssignKeepsDense(before, last);
      assert texts == init + [last];
      var after := AssignAll(map[], texts);
      forall a, b | a in texts && b in texts
        ensures after[a] < after[b] <==> FirstVisit(texts, a) < FirstVisit(texts, b)
      {
        FirstVisitSnoc(init, last, a);
        FirstVisitSnoc(init, last, b);
      }
    }
  }
}
