/** Anonymization keeps the structure of a body; leaves that get numbers get them by their text. */
module AnonymizeShape {
  import opened Collections
  import opened Json
  import opened Policy
  import opened AnonymizeWalk
  import opened AnonymizeRender
  import opened Numbering
  import Text

  ghost predicate DistinctKeys(node: Json) {
    match node
    case List(items) => forall i :: 0 <= i < |items| ==> DistinctKeys(items[i])
    case Dict(entries) => Distinct(entries) && forall i :: 0 <= i < |entries| ==> DistinctKeys(entries[i].value)
    case _ => true
  }

  // ---- no declared segment matches the text of a renamed key ----

  ghost predicate ClearRule(rule: Rule) {
    forall i, n: nat :: 0 <= i < |SegmentsOf(rule)| ==> !DeclaredBy((rule, i), KeyText(n))
  }

  ghost predicate ClearPolicy(policy: EndpointPolicy) {
    forall i :: 0 <= i < |policy.rules| ==> ClearRule(policy.rules[i])
  }

  ghost predicate Clear(p: Position) {
    forall i :: 0 <= i < |p.rules| ==> ClearRule(p.rules[i].0)
  }

  lemma MatchesToTheEnd(segment: string, text: string, end: char)
    requires SegmentMatches(segment, text) && segment != ANY_KEY && EndsWith(text, [end])
    ensures EndsWith(segment, [end])
  {
    assert text[|text| - 1] == [end][0];
    if IsWildcard(segment) {
      var suffix := segment[1..];
      assert suffix[|suffix| - 1] == text[|text| - |suffix|..][|suffix| - 1];
    }
    assert segment[|segment| - 1..] == [segment[|segment| - 1]];
  }

  /** Seen on the policy: its segments do not end in `>`, as the texts of renamed keys do. */
  lemma NoAngleIsClear(rule: Rule)
    requires forall i :: 0 <= i < |SegmentsOf(rule)| ==> !EndsWith(SegmentsOf(rule)[i], ">")
    ensures ClearRule(rule)
  {
    forall i, n: nat | 0 <= i < |SegmentsOf(rule)|
      ensures !DeclaredBy((rule, i), KeyText(n))
    {
      var segment := SegmentsOf(rule)[i];
      if segment != ANY_KEY && SegmentMatches(segment, KeyText(n)) {
        MatchesToTheEnd(segment, KeyText(n), '>');
      }
    }
  }

  lemma {:induction false} FollowKeepsClear(rules: seq<(Rule, nat)>, segment: string, key: string)
    requires forall i :: 0 <= i < |rules| ==> ClearRule(rules[i].0)
    ensures forall i :: 0 <= i < |FollowRules(rules, segment, key)| ==> ClearRule(FollowRules(rules, segment, key)[i].0)
  {
    if rules != [] {
      FollowKeepsClear(rules[..|rules| - 1], segment, key);
    }
  }

  // ---- entries keep their places ----

  /** No declared segment at this position is the text of a renamed key. */
  ghost predicate ClashFree(p: Position) {
    forall n: nat :: n >= 1 ==> !Declared(p, KeyText(n))
  }

  /** The empty key is renamed at every position: no segment of a path is empty. */
  lemma EmptyKeyIsRenamed(p: Position)
    ensures !KeptKey(p, "")
  {
    forall i | 0 <= i < |p.rules|
      ensures !DeclaredBy(p.rules[i], "")
    {
      var (rule, position) := p.rules[i];
      ParsedKeysArePrintable(SplitDots(rule.path));
      assert forall k :: 0 <= k < |SegmentsOf(rule)| ==> SegmentsOf(rule)[k] in SegmentsOf(rule);
    }
  }

  lemma ClearIsClashFree(p: Position)
    requires Clear(p)
    ensures ClashFree(p)
  {
    forall n: nat
      ensures !Declared(p, KeyText(n))
    {
      forall i | 0 <= i < |p.rules|
        ensures !DeclaredBy(p.rules[i], KeyText(n))
      {
        assert ClearRule(p.rules[i].0);
        assert p.rules[i] == (p.rules[i].0, p.rules[i].1);
      }
    }
  }

  /** Two different keys, numbered if renamed, are written out differently. */
  lemma OutKeysDiffer(f: State, p: Position, a: string, b: string)
    requires ClashFree(p) && Dense(f.keys) && a != b
    requires (KeptKey(p, a) || a in f.keys) && (KeptKey(p, b) || b in f.keys)
    ensures OutKey(f, a, p) != OutKey(f, b, p)
  {
    if !KeptKey(p, a) && !KeptKey(p, b) {
      if KeyText(f.keys[a]) == KeyText(f.keys[b]) {
        assert Text.Decimal(f.keys[a]) == KeyText(f.keys[a])[5..|KeyText(f.keys[a])| - 1];
        assert Text.Decimal(f.keys[b]) == KeyText(f.keys[b])[5..|KeyText(f.keys[b])| - 1];
        Text.DecimalInjective(f.keys[a], f.keys[b]);
      }
    } else {
      assert forall key :: key in f.keys ==> KeyText(f.keys[key])[0] == '<';
    }
  }

  lemma LastKeyNumbered(env: Env, s: State, entries: seq<Entry>, p: Position)
    requires entries != []
    ensures var before, after := WalkEntries(env, s, entries[..|entries| - 1], p).1, WalkEntries(env, s, entries, p).1;
            var key := entries[|entries| - 1].key;
            Extends(before, after) && (KeptKey(p, key) || key in after.keys)
  {
    var t := WalkEntries(env, s, entries[..|entries| - 1], p).1;
    var entry := entries[|entries| - 1];
    var (outKey, u) := Key(env, t, entry.key, p);
    var w := Walk(env, u, entry.value, KeyChild(p, entry.key, outKey)).1;
    KeyIsRender(env, t, entry.key, p);
    WalkIsRender(env, u, entry.value, KeyChild(p, entry.key, outKey), w);
    ExtendsTransitive(t, u, w);
  }

  ghost predicate Numbered(keys: map<string, nat>, entries: seq<Entry>, p: Position) {
    forall i :: 0 <= i < |entries| ==> KeptKey(p, entries[i].key) || entries[i].key in keys
  }

  lemma NumberedSnoc(keys: map<string, nat>, entries: seq<Entry>, p: Position)
    requires entries != []
    requires Numbered(keys, entries[..|entries| - 1], p)
    requires KeptKey(p, entries[|entries| - 1].key) || entries[|entries| - 1].key in keys
    ensures Numbered(keys, entries, p)
  {
    var init := entries[..|entries| - 1];
    assert forall i :: 0 <= i < |init| ==> init[i] == entries[i];
  }

  lemma {:induction false} WalkNumbersKeys(env: Env, s: State, entries: seq<Entry>, p: Position, keys: map<string, nat>)
    requires Within(WalkEntries(env, s, entries, p).1.keys, keys)
    ensures Numbered(keys, entries, p)
  {
    if entries != [] {
      LastKeyNumbered(env, s, entries, p);
      var init := entries[..|entries| - 1];
      WalkNumbersKeys(env, s, init, p, keys);
      NumberedSnoc(keys, entries, p);
    }
  }

  function RenderEntry(env: Env, f: State, entry: Entry, p: Position): Entry {
    var outKey := OutKey(f, entry.key, p);
    Entry(outKey, Render(env, f, entry.value, KeyChild(p, entry.key, outKey)))
  }

  lemma RenderEntriesSnoc(env: Env, f: State, entries: seq<Entry>, p: Position)
    requires entries != []
    ensures var last := RenderEntry(env, f, entries[|entries| - 1], p);
            RenderEntries(env, f, entries, p) ==
            Put(RenderEntries(env, f, entries[..|entries| - 1], p), last.key, last.value)
  {
  }

  /** The entries written out one by one. */
  function Written(env: Env, f: State, entries: seq<Entry>, p: Position): (out: seq<Entry>)
    ensures |out| == |entries|
    ensures forall i :: 0 <= i < |entries| ==> out[i] == RenderEntry(env, f, entries[i], p)
  {
    seq(|entries|, i requires 0 <= i < |entries| => RenderEntry(env, f, entries[i], p))
  }

  lemma WrittenDistinct(env: Env, f: State, entries: seq<Entry>, p: Position)
    requires ClashFree(p) && Dense(f.keys) && Distinct(entries) && Numbered(f.keys, entries, p)
    ensures Distinct(Written(env, f, entries, p))
  {
    var out := Written(env, f, entries, p);
    forall i, j | 0 <= i < j < |out|
      ensures out[i].key != out[j].key
    {
      OutKeysDiffer(f, p, entries[i].key, entries[j].key);
    }
  }

  lemma WrittenSnoc(env: Env, f: State, entries: seq<Entry>, p: Position)
    requires entries != [] && Distinct(Written(env, f, entries, p))
    ensures var n := |entries| - 1;
            var init, last := Written(env, f, entries[..n], p), RenderEntry(env, f, entries[n], p);
            Distinct(init) && Written(env, f, entries, p) == Put(init, last.key, last.value)
  {
    var n := |entries| - 1;
    var out, init := Written(env, f, entries, p), Written(env, f, entries[..n], p);
    assert out == init + [out[n]];
    assert forall i :: 0 <= i < n ==> init[i] == out[i];
    PutNew(init, out[n].key, out[n].value);
  }

  lemma {:induction false} RenderIsWritten(env: Env, f: State, entries: seq<Entry>, p: Position)
    requires Distinct(Written(env, f, entries, p))
    ensures RenderEntries(env, f, entries, p) == Written(env, f, entries, p)
  {
    if entries != [] {
      var n := |entries| - 1;
      WrittenSnoc(env, f, entries, p);
      RenderIsWritten(env, f, entries[..n], p);
      RenderEntriesSnoc(env, f, entries, p);
    }
  }

  /** Every entry of an object is written out, in its place, under a key of its own. */
  lemma EntriesAligned(env: Env, f: State, entries: seq<Entry>, p: Position)
    requires ClashFree(p) && Dense(f.keys) && Distinct(entries) && Numbered(f.keys, entries, p)
    ensures RenderEntries(env, f, entries, p) == Written(env, f, entries, p) && Distinct(Written(env, f, entries, p))
  {
    WrittenDistinct(env, f, entries, p);
    RenderIsWritten(env, f, entries, p);
  }

  function WrittenItems(env: Env, f: State, items: seq<Json>, p: Position): (out: seq<Json>)
    ensures |out| == |items|
    ensures forall i :: 0 <= i < |items| ==> out[i] == Render(env, f, items[i], p)
  {
    seq(|items|, i requires 0 <= i < |items| => Render(env, f, items[i], p))
  }

  lemma WrittenItemsSnoc(env: Env, f: State, items: seq<Json>, p: Position)
    requires items != []
    ensures var n := |items| - 1;
            WrittenItems(env, f, items, p) == WrittenItems(env, f, items[..n], p) + [Render(env, f, items[n], p)]
  {
    hide Render, WrittenItems;
    var n := |items| - 1;
    var init := WrittenItems(env, f, items[..n], p);
    assert forall i :: 0 <= i < n ==> items[..n][i] == items[i];
    assert forall i :: 0 <= i < n ==> init[i] == WrittenItems(env, f, items, p)[i];
  }

  lemma {:induction false} ItemsAligned(env: Env, f: State, items: seq<Json>, p: Position)
    ensures RenderItems(env, f, items, p) == WrittenItems(env, f, items, p)
  {
    if items != [] {
      ItemsAligned(env, f, items[..|items| - 1], p);
      WrittenItemsSnoc(env, f, items, p);
    }
  }

  // ---- exactly when ----

  function Fillers(key: string, n: nat): (fillers: seq<string>)
    ensures |fillers| == n
    ensures forall i :: 0 <= i < n ==> |fillers[i]| == |key| + 1 + i
  {
    if n == 0 then [] else Fillers(key, n - 1) + [key + seq(n, i => '-')]
  }

  lemma {:induction false} FillersAreNumbered(key: string, n: nat)
    ensures |AssignAll(map[], Fillers(key, n))| == n && key !in AssignAll(map[], Fillers(key, n))
  {
    var fillers := Fillers(key, n);
    NumbersFollowFirstVisits(fillers);
    if n > 0 {
      FillersAreNumbered(key, n - 1);
      NumbersFollowFirstVisits(Fillers(key, n - 1));
      assert fillers[..n - 1] == Fillers(key, n - 1);
    }
  }

  /** A state of numbered keys in which `key` gets number `n` next. */
  lemma NextNumber(key: string, n: nat)
    requires n >= 1
    ensures exists s: State :: Dense(s.keys) && key !in s.keys && |s.keys| + 1 == n
  {
    FillersAreNumbered(key, n - 1);
    NumbersFollowFirstVisits(Fillers(key, n - 1));
    var s := FRESH.(keys := AssignAll(map[], Fillers(key, n - 1)));
    assert Dense(s.keys) && key !in s.keys && |s.keys| + 1 == n;
  }

  ghost predicate KeepsEntries(env: Env, p: Position) {
    forall s: State, entries :: Dense(s.keys) && Distinct(entries) ==> |WalkEntries(env, s, entries, p).0| == |entries|
  }

  lemma OneEntry(env: Env, s: State, key: string, p: Position)
    ensures var (outKey, t) := Key(env, s, key, p);
            WalkEntries(env, s, [Entry(key, Null)], p).0 ==
              [Entry(outKey, Walk(env, t, Null, KeyChild(p, key, outKey)).0)]
  {
    assert [Entry(key, Null)][..0] == [];
    assert WalkEntries(env, s, [], p) == ([], s);
  }

  lemma KeptMeetsRenamed(env: Env, s: State, first: Entry, second: Entry, p: Position)
    requires |WalkEntries(env, s, [first], p).0| == 1 && WalkEntries(env, s, [first], p).0[0].key == second.key
    requires KeptKey(p, second.key)
    ensures |WalkEntries(env, s, [first, second], p).0| == 1
  {
    assert [first, second][..1] == [first];
  }

  lemma ClashAt(env: Env, s: State, key: string, p: Position)
    requires !KeptKey(p, key) && key !in s.keys && Declared(p, KeyText(|s.keys| + 1))
    ensures |WalkEntries(env, s, [Entry(key, Null), Entry(KeyText(|s.keys| + 1), Null)], p).0| == 1
  {
    OneEntry(env, s, key, p);
    KeptMeetsRenamed(env, s, Entry(key, Null), Entry(KeyText(|s.keys| + 1), Null), p);
  }

  lemma NotKept(env: Env, s: State, entries: seq<Entry>, p: Position)
    requires Dense(s.keys) && Distinct(entries) && |WalkEntries(env, s, entries, p).0| != |entries|
    ensures !KeepsEntries(env, p)
  {
  }

  lemma ClashLosesAnEntry(env: Env, p: Position)
    requires !ClashFree(p)
    ensures !KeepsEntries(env, p)
  {
    hide WalkEntries, Walk, Declared, KeptKey, Dense;
    var n: nat :| n >= 1 && Declared(p, KeyText(n));
    EmptyKeyIsRenamed(p);
    NextNumber("", n);
    var s: State :| Dense(s.keys) && "" !in s.keys && |s.keys| + 1 == n;
    ClashAt(env, s, "", p);
    NotKept(env, s, [Entry("", Null), Entry(KeyText(n), Null)], p);
  }

  /**
   Objects at a position keep all their entries, whatever the numbers given before, exactly
   when no declared segment is the text of a renamed key.
   */
  lemma EntriesKeptIff(env: Env, p: Position)
    ensures KeepsEntries(env, p) <==> ClashFree(p)
  {
    if ClashFree(p) {
      forall s: State, entries | Dense(s.keys) && Distinct(entries)
        ensures |WalkEntries(env, s, entries, p).0| == |entries|
      {
        var f := WalkEntries(env, s, entries, p).1;
        EntriesAreRender(env, s, entries, p, f);
        WalkNumbersKeys(env, s, entries, p, f.keys);
        ReplayNumbers(s, TraceEntries(env, f, entries, p), "");
        AssignAllKeepsDense(s.keys, KeyTexts(TraceEntries(env, f, entries, p)));
        EntriesAligned(env, f, entries, p);
      }
    } else {
      ClashLosesAnEntry(env, p);
    }
  }

  // ---- the shape of a whole body ----

  /** Same lists, same objects entry by entry, same types of leaves. */
  ghost predicate SameShape(a: Json, b: Json) {
    match a
    case List(items) =>
      b.List? && |items| == |b.items| && forall i :: 0 <= i < |items| ==> SameShape(items[i], b.items[i])
    case Dict(entries) =>
      b.Dict? && |entries| == |b.entries| && Distinct(b.entries)
      && forall i :: 0 <= i < |entries| ==> SameShape(entries[i].value, b.entries[i].value)
    case _ => IsLeaf(b) && TypeOf(a) == TypeOf(b)
  }

  lemma {:induction false} ItemReached(env: Env, s: State, items: seq<Json>, p: Position, f: State, i: nat)
    requires i < |items| && Extends(WalkItems(env, s, items, p).1, f)
    ensures exists t :: Extends(Walk(env, t, items[i], p).1, f)
  {
    var init, last := items[..|items| - 1], items[|items| - 1];
    var t := WalkItems(env, s, init, p).1;
    var u := Walk(env, t, last, p).1;
    if i < |items| - 1 {
      WalkIsRender(env, t, last, p, u);
      ExtendsTransitive(t, u, f);
      ItemReached(env, s, init, p, f, i);
    }
  }

  lemma LastEntryReached(env: Env, s: State, entries: seq<Entry>, p: Position, f: State)
    requires entries != [] && Extends(WalkEntries(env, s, entries, p).1, f)
    ensures var entry := entries[|entries| - 1];
            exists t :: Extends(Walk(env, t, entry.value, KeyChild(p, entry.key, OutKey(f, entry.key, p))).1, f)
  {
    var entry := entries[|entries| - 1];
    var t := WalkEntries(env, s, entries[..|entries| - 1], p).1;
    var (outKey, u) := Key(env, t, entry.key, p);
    var child := KeyChild(p, entry.key, outKey);
    WalkIsRender(env, u, entry.value, child, f);
    KeyIsRender(env, t, entry.key, p);
    ExtendsTransitive(u, Walk(env, u, entry.value, child).1, f);
    assert outKey == OutKey(f, entry.key, p);
    assert Extends(Walk(env, u, entry.value, child).1, f);
  }

  lemma {:induction false} EntryReached(env: Env, s: State, entries: seq<Entry>, p: Position, f: State, i: nat)
    requires i < |entries| && Extends(WalkEntries(env, s, entries, p).1, f)
    ensures var entry := entries[i];
            exists t :: Extends(Walk(env, t, entry.value, KeyChild(p, entry.key, OutKey(f, entry.key, p))).1, f)
  {
    if i < |entries| - 1 {
      var init := entries[..|entries| - 1];
      LastKeyNumbered(env, s, entries, p);
      ExtendsTransitive(WalkEntries(env, s, init, p).1, WalkEntries(env, s, entries, p).1, f);
      EntryReached(env, s, init, p, f, i);
    } else {
      LastEntryReached(env, s, entries, p, f);
    }
  }

  lemma ItemLands(env: Env, s: State, items: seq<Json>, p: Position, f: State, i: nat)
    requires Extends(WalkItems(env, s, items, p).1, f) && i < |items|
    ensures |RenderItems(env, f, items, p)| == |items|
    ensures RenderItems(env, f, items, p)[i] == Render(env, f, items[i], p)
    ensures exists t :: Extends(Walk(env, t, items[i], p).1, f)
  {
    ItemsAligned(env, f, items, p);
    ItemReached(env, s, items, p, f, i);
  }

  lemma EntryLands(env: Env, s: State, entries: seq<Entry>, p: Position, f: State, i: nat)
    requires Extends(WalkEntries(env, s, entries, p).1, f) && i < |entries|
    requires Dense(f.keys) && Clear(p) && Distinct(entries)
    ensures |RenderEntries(env, f, entries, p)| == |entries|
    ensures RenderEntries(env, f, entries, p)[i] == RenderEntry(env, f, entries[i], p)
    ensures var entry := entries[i];
            exists t :: Extends(Walk(env, t, entry.value, KeyChild(p, entry.key, OutKey(f, entry.key, p))).1, f)
  {
    ClearIsClashFree(p);
    WalkNumbersKeys(env, s, entries, p, f.keys);
    EntriesAligned(env, f, entries, p);
    EntryReached(env, s, entries, p, f, i);
  }

  lemma ValueKeepsType(env: Env, v: Json, p: Position)
    requires IsLeaf(v)
    ensures IsLeaf(Value(env, v, p)) && TypeOf(Value(env, v, p)) == TypeOf(v)
  {
    var key := DescriptorKey(env, p.dicts);
    var descriptor := if key in env.descriptors then env.descriptors[key] else [];
    var minimum, listed := Get(descriptor, "min"), Get(descriptor, "enum_values");
  }

  lemma LeafKeepsType(env: Env, f: State, v: Json, p: Position)
    requires IsLeaf(v)
    ensures IsLeaf(RenderLeaf(env, f, v, p)) && TypeOf(RenderLeaf(env, f, v, p)) == TypeOf(v)
  {
    hide CompleteRule, Value;
    var rule := CompleteRule(p.rules);
    if rule.Some? && rule.value.action.VALUE? {
      ValueKeepsType(env, v, p);
    }
  }

  lemma {:induction false} RenderKeepsShape(env: Env, s: State, node: Json, p: Position, f: State)
    requires Extends(Walk(env, s, node, p).1, f)
    requires Dense(f.keys) && Clear(p) && DistinctKeys(node)
    ensures SameShape(node, Render(env, f, node, p))
    decreases node
  {
    match node
    case List(items) =>
      var q := ItemChild(p);
      FollowKeepsClear(p.rules, LIST_ITEM, "");
      ItemsAligned(env, f, items, q);
      forall i | 0 <= i < |items|
        ensures SameShape(items[i], RenderItems(env, f, items, q)[i])
      {
        ItemLands(env, s, items, q, f, i);
        var t :| Extends(Walk(env, t, items[i], q).1, f);
        RenderKeepsShape(env, t, items[i], q, f);
      }
    case Dict(entries) =>
      var q := p.(dicts := p.dicts + [entries]);
      ClearIsClashFree(q);
      WalkNumbersKeys(env, s, entries, q, f.keys);
      EntriesAligned(env, f, entries, q);
      var out := RenderEntries(env, f, entries, q);
      forall i | 0 <= i < |entries|
        ensures SameShape(entries[i].value, out[i].value)
      {
        var key := entries[i].key;
        EntryLands(env, s, entries, q, f, i);
        var t :| Extends(Walk(env, t, entries[i].value, KeyChild(q, key, OutKey(f, key, q))).1, f);
        FollowKeepsClear(q.rules, key, key);
        RenderKeepsShape(env, t, entries[i].value, KeyChild(q, key, OutKey(f, key, q)), f);
      }
    case _ => LeafKeepsType(env, f, node, p);
  }
}
