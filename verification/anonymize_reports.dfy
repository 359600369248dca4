/** Where each leaf and key of a capture ends up, and exactly what its report lists. */
module AnonymizeReports {
  import opened Collections
  import opened Json
  import opened Policy
  import opened AnonymizeWalk
  import opened AnonymizeRender
  import opened AnonymizeShape
  import opened AnonymizeLeaves
  import opened AnonymizeOutcomes
  import opened Numbering

  // ---- paths of the output ----

  /** The key of a child, `[]` for an item of a list. */
  function KeyAt(node: Json, i: nat): string
    requires ChildAt(node, i).Some?
  {
    if node.List? then "[]" else node.entries[i].key
  }

  /** The keys on the way to a node. */
  function KeysAlong(node: Json, path: seq<nat>): seq<string>
    requires NodeAt(node, path).Some?
    decreases |path|
  {
    if path == [] then []
    else [KeyAt(node, path[0])] + KeysAlong(ChildAt(node, path[0]).value, path[1..])
  }

  lemma {:induction false} KeyLands(env: Env, s: State, node: Json, p: Position, f: State, i: nat)
    requires Extends(Walk(env, s, node, p).1, f)
    requires Dense(f.keys) && Clear(p) && DistinctKeys(node) && ChildAt(node, i).Some?
    ensures ChildAt(Render(env, f, node, p), i).Some?
    ensures PositionBelow(f, node, p, i).generic == p.generic + [KeyAt(Render(env, f, node, p), i)]
  {
    hide Extends, Dense, ClearRule, Distinct;
    ChildLands(env, s, node, p, f, i);
    if node.Dict? {
      EntryLands(env, s, node.entries, p.(dicts := p.dicts + [node.entries]), f, i);
    }
  }

  /** The position of a node holds the keys on the way to it in the output. */
  lemma {:induction false} PathLands(env: Env, s: State, node: Json, p: Position, f: State, path: seq<nat>)
    requires Extends(Walk(env, s, node, p).1, f)
    requires Dense(f.keys) && Clear(p) && DistinctKeys(node) && NodeAt(node, path).Some?
    ensures NodeAt(Render(env, f, node, p), path).Some?
    ensures PositionOf(f, node, p, path).generic == p.generic + KeysAlong(Render(env, f, node, p), path)
    ensures exists t :: Extends(Walk(env, t, NodeAt(node, path).value, PositionOf(f, node, p, path)).1, f)
    decreases |path|
  {
    hide Extends, Dense, ClearRule, Distinct, Walk, Render, DistinctKeys, Clear;
    if path != [] {
      var i, rest := path[0], path[1..];
      var child, q := ChildAt(node, i).value, PositionBelow(f, node, p, i);
      ChildLands(env, s, node, p, f, i);
      KeyLands(env, s, node, p, f, i);
      var t :| Extends(Walk(env, t, child, q).1, f);
      PathLands(env, t, child, q, f, rest);
      var out := Render(env, f, node, p);
      Associative(p.generic, [KeyAt(out, i)], KeysAlong(Render(env, f, child, q), rest));
    }
  }

  // ---- every leaf ----

  lemma {:induction false} OutcomeGrows(env: Env, f: State, g: State, v: Json, p: Position, out: Json)
    requires IsOutcome(env, f, v, p, out) && Extends(f, g)
    ensures IsOutcome(env, g, v, p, out)
  {
    hide IsValueOutcome, Fits, CompleteRule;
    if v.Str? && CompleteRule(p.rules).Some? {
      var kind := RuleKind(CompleteRule(p.rules).value);
      assert Within(f.NamesOf(kind), g.NamesOf(kind));
    }
  }

  lemma {:induction false} PlacePath(jobs: seq<Job>, at: Place)
    requires WellFormed(jobs) && IsPlace(jobs, at)
    ensures var (out, f) := WalkAll(FRESH, jobs);
            var env, p := jobs[at.job].env, PlacePosition(f, jobs, at);
            at.job < |out| && NodeAt(out[at.job], at.path).Some? && p.generic == KeysAlong(out[at.job], at.path)
            && (exists t :: Extends(Walk(env, t, NodeOf(jobs, at), p).1, f))
            && NodeAt(out[at.job], at.path) == Some(Render(env, f, NodeOf(jobs, at), p))
  {
    hide Extends, Dense, ClearRule, Distinct, Walk, Render, WalkAll, RenderAll;
    var f := WalkAll(FRESH, jobs).1;
    PlaceLands(jobs, at);
    CaptureNumbers(jobs);
    BodyReached(FRESH, jobs, f, at.job);
    var job := jobs[at.job];
    var t :| Extends(Walk(job.env, t, job.body, Root(job.policy)).1, f);
    PathLands(job.env, t, job.body, Root(job.policy), f, at.path);
  }

  /** Every leaf of a capture becomes, in its place, what its complete rule says. */
  lemma {:induction false} LeavesBecome(jobs: seq<Job>, at: Place)
    requires WellFormed(jobs) && IsPlace(jobs, at) && IsLeaf(NodeOf(jobs, at))
    ensures var (out, f) := WalkAll(FRESH, jobs);
            at.job < |out| &&
            var now := NodeAt(out[at.job], at.path);
            now.Some? && IsOutcome(jobs[at.job].env, f, NodeOf(jobs, at), PlacePosition(f, jobs, at), now.value)
  {
    hide IsOutcome, Walk, Render, WalkAll, WellFormed, NodeAt, PositionOf;
    PlacePath(jobs, at);
    var f := WalkAll(FRESH, jobs).1;
    var env, v, p := jobs[at.job].env, NodeOf(jobs, at), PlacePosition(f, jobs, at);
    var t :| Extends(Walk(env, t, v, p).1, f);
    LeafOutcome(env, t, v, p);
    WalkIsRender(env, t, v, p, f);
    OutcomeGrows(env, Walk(env, t, v, p).1, f, v, p, Walk(env, t, v, p).0);
  }

  /** Every key of an object of a capture stays as it is or becomes `<key-n>`, n being its number. */
  lemma {:induction false} KeysBecome(jobs: seq<Job>, at: Place, i: nat)
    requires WellFormed(jobs) && IsPlace(jobs, at) && NodeOf(jobs, at).Dict? && i < |NodeOf(jobs, at).entries|
    ensures var (out, f) := WalkAll(FRESH, jobs);
            var key := NodeOf(jobs, at).entries[i].key;
            at.job < |out| &&
            var now := NodeAt(out[at.job], at.path);
            now.Some? && now.value.Dict? && |now.value.entries| == |NodeOf(jobs, at).entries|
            && if StaysAsIs(PlacePosition(f, jobs, at), key) then now.value.entries[i].key == key
               else key in f.keys && now.value.entries[i].key == "<key-" + Text.Decimal(f.keys[key]) + ">"
  {
    hide WalkAll, WellFormed, NodeAt, PositionOf, StaysAsIs, KeptKey;
    var f := WalkAll(FRESH, jobs).1;
    var key := NodeOf(jobs, at).entries[i].key;
    var p := PlacePosition(f, jobs, at);
    PlaceLands(jobs, at);
    PlaceIsAligned(jobs, at);
    KeptIff(p, key);
    SameDeclared(p, p.(dicts := p.dicts + [NodeOf(jobs, at).entries]), key);
    if !KeptKey(p, key) {
      assert IsRenamedKey(f, jobs, at, i);
      KeyBecomes(jobs, at, i);
    }
  }

  lemma SameDeclared(p: Position, q: Position, key: string)
    requires q == p.(dicts := q.dicts)
    ensures KeptKey(p, key) <==> KeptKey(q, key)
  {
    assert Declared(p, key) <==> Declared(q, key);
  }

  // ---- the report of leaves ----

  /** What the report lists of the leaf at a place, which is not kept. */
  ghost predicate IsEntryFor(jobs: seq<Job>, at: Place, leaf: UnknownLeaf) {
    var (out, f) := WalkAll(FRESH, jobs);
    && IsPlace(jobs, at) && IsLeaf(NodeOf(jobs, at))
    && at.job < |out| && NodeAt(out[at.job], at.path).Some?
    && leaf.url == jobs[at.job].env.url
    && leaf.path == Generic(KeysAlong(out[at.job], at.path))
    && IsOfType(NodeOf(jobs, at), leaf.jsonType)
    && ReasonFor(jobs[at.job].env, NodeOf(jobs, at), PlacePosition(f, jobs, at)) == Some(leaf.reason)
  }

  ghost predicate NoRepeats<T(!new)>(xs: seq<T>) {
    forall i, j :: 0 <= i < j < |xs| ==> xs[i] != xs[j]
  }

  lemma {:induction false} ReplayReports(s: State, visits: seq<Visit>, leaf: UnknownLeaf)
    ensures leaf in ReplayAll(s, visits).unknown <==> leaf in s.unknown || VisitUnknown(leaf) in visits
    ensures NoRepeats(s.unknown) ==> NoRepeats(ReplayAll(s, visits).unknown)
  {
    if visits != [] {
      var n := |visits| - 1;
      ReplayReports(s, visits[..n], leaf);
      assert visits == visits[..n] + [visits[n]];
    }
  }

  lemma ReportsIff(env: Env, v: Json, p: Position, leaf: UnknownLeaf)
    requires IsLeaf(v)
    ensures VisitUnknown(leaf) in TraceLeaf(env, v, p) <==>
            && leaf.url == env.url && leaf.path == Generic(p.generic) && IsOfType(v, leaf.jsonType)
            && ReasonFor(env, v, p) == Some(leaf.reason)
  {
    hide Passes, Fits, Generic, CompleteRule;
    var rule := CompleteRule(p.rules);
    if rule.Some? && rule.value.keep.Some? {
      PassesIff(env, v, rule.value.keep.value);
    }
    assert leaf == UnknownLeaf(leaf.url, leaf.path, leaf.jsonType, leaf.reason);
    assert IsOfType(v, leaf.jsonType) <==> leaf.jsonType == TypeOf(v);
  }

  lemma {:induction false} ItemTraced(env: Env, f: State, items: seq<Json>, p: Position, visit: Visit) returns (i: nat)
    requires visit in TraceItems(env, f, items, p)
    ensures i < |items| && visit in Trace(env, f, items[i], p)
  {
    var n := |items| - 1;
    if visit in Trace(env, f, items[n], p) {
      i := n;
    } else {
      i := ItemTraced(env, f, items[..n], p, visit);
    }
  }

  lemma {:induction false} EntryTraced(env: Env, f: State, entries: seq<Entry>, p: Position, leaf: UnknownLeaf)
    returns (i: nat)
    requires VisitUnknown(leaf) in TraceEntries(env, f, entries, p)
    ensures i < |entries| && VisitUnknown(leaf) in
              Trace(env, f, entries[i].value, KeyChild(p, entries[i].key, OutKey(f, entries[i].key, p)))
  {
    var n := |entries| - 1;
    var at := KeyChild(p, entries[n].key, OutKey(f, entries[n].key, p));
    if VisitUnknown(leaf) in Trace(env, f, entries[n].value, at) {
      i := n;
    } else {
      i := EntryTraced(env, f, entries[..n], p, leaf);
    }
  }

  /** What is reported of leaves is reported of one at some path. */
  lemma {:induction false} TracedAt(env: Env, f: State, node: Json, p: Position, leaf: UnknownLeaf)
    returns (path: seq<nat>)
    requires VisitUnknown(leaf) in Trace(env, f, node, p)
    ensures NodeAt(node, path).Some? && IsLeaf(NodeAt(node, path).value)
    ensures VisitUnknown(leaf) in TraceLeaf(env, NodeAt(node, path).value, PositionOf(f, node, p, path))
    decreases node
  {
    if IsLeaf(node) {
      path := [];
    } else {
      var i: nat;
      if node.List? {
        i := ItemTraced(env, f, node.items, ItemChild(p), VisitUnknown(leaf));
      } else {
        i := EntryTraced(env, f, node.entries, p.(dicts := p.dicts + [node.entries]), leaf);
      }
      var rest := TracedAt(env, f, ChildAt(node, i).value, PositionBelow(f, node, p, i), leaf);
      path := [i] + rest;
      assert path[1..] == rest;
    }
  }

  lemma {:induction false} JobTraced(f: State, jobs: seq<Job>, visit: Visit) returns (i: nat)
    requires visit in TraceAll(f, jobs)
    ensures i < |jobs| && visit in Trace(jobs[i].env, f, jobs[i].body, Root(jobs[i].policy))
  {
    var n := |jobs| - 1;
    if visit in Trace(jobs[n].env, f, jobs[n].body, Root(jobs[n].policy)) {
      i := n;
    } else {
      i := JobTraced(f, jobs[..n], visit);
    }
  }

  lemma {:induction false} FinalState(jobs: seq<Job>)
    ensures var f := WalkAll(FRESH, jobs).1; f == ReplayAll(FRESH, TraceAll(f, jobs))
  {
    WalkAllIsRender(FRESH, jobs, WalkAll(FRESH, jobs).1);
  }

  lemma {:induction false} EntryIff(jobs: seq<Job>, at: Place, leaf: UnknownLeaf)
    requires WellFormed(jobs) && IsPlace(jobs, at) && IsLeaf(NodeOf(jobs, at))
    ensures var f := WalkAll(FRESH, jobs).1;
            IsEntryFor(jobs, at, leaf) <==>
            VisitUnknown(leaf) in TraceLeaf(jobs[at.job].env, NodeOf(jobs, at), PlacePosition(f, jobs, at))
  {
    hide WalkAll, WellFormed, TraceLeaf, ReasonFor, Generic, IsOfType, Walk, Render, NodeAt, PositionOf;
    PlacePath(jobs, at);
    var f := WalkAll(FRESH, jobs).1;
    ReportsIff(jobs[at.job].env, NodeOf(jobs, at), PlacePosition(f, jobs, at), leaf);
  }

  /**
   The report of a capture lists a leaf if and only if some leaf of its bodies has that url, that
   path in the output, that type, and is not kept, for that reason; and it lists none twice.
   */
  lemma {:induction false} ReportIsExact(jobs: seq<Job>, leaf: UnknownLeaf)
    requires WellFormed(jobs)
    ensures leaf in WalkAll(FRESH, jobs).1.unknown <==> exists at :: IsEntryFor(jobs, at, leaf)
    ensures NoRepeats(WalkAll(FRESH, jobs).1.unknown)
  {
    hide WalkAll, WellFormed, IsEntryFor, TraceLeaf, PositionOf, NodeAt, Trace, ReplayAll;
    var f := WalkAll(FRESH, jobs).1;
    FinalState(jobs);
    ReplayReports(FRESH, TraceAll(f, jobs), leaf);
    if leaf in f.unknown {
      var at := ListedSomewhere(jobs, leaf);
      assert IsEntryFor(jobs, at, leaf);
    }
    if at :| IsEntryFor(jobs, at, leaf) {
      EntryIsListed(jobs, at, leaf);
    }
  }

  lemma {:induction false} ListedSomewhere(jobs: seq<Job>, leaf: UnknownLeaf) returns (at: Place)
    requires WellFormed(jobs) && VisitUnknown(leaf) in TraceAll(WalkAll(FRESH, jobs).1, jobs)
    ensures IsEntryFor(jobs, at, leaf)
  {
    hide WalkAll, WellFormed, IsEntryFor, TraceLeaf;
    var f := WalkAll(FRESH, jobs).1;
    var i := JobTraced(f, jobs, VisitUnknown(leaf));
    var path := TracedAt(jobs[i].env, f, jobs[i].body, Root(jobs[i].policy), leaf);
    at := Place(i, path);
    EntryIff(jobs, at, leaf);
  }

  lemma {:induction false} EntryIsListed(jobs: seq<Job>, at: Place, leaf: UnknownLeaf)
    requires WellFormed(jobs) && IsEntryFor(jobs, at, leaf)
    ensures VisitUnknown(leaf) in TraceAll(WalkAll(FRESH, jobs).1, jobs)
  {
    hide WalkAll, WellFormed, TraceLeaf;
    var f := WalkAll(FRESH, jobs).1;
    EntryIff(jobs, at, leaf);
    LeafTraced(jobs[at.job].env, f, NodeOf(jobs, at), PlacePosition(f, jobs, at));
    NodeVisited(jobs[at.job].env, f, jobs[at.job].body, Root(jobs[at.job].policy), at.path);
    JobVisited(f, jobs, at.job);
  }

  lemma LeafTraced(env: Env, f: State, v: Json, p: Position)
    requires IsLeaf(v)
    ensures Trace(env, f, v, p) == TraceLeaf(env, v, p)
  {
  }

  // ---- the report of keys ----

  /** What the report lists of the i-th key of the object at a place, which is renamed. */
  ghost predicate IsRenamedFor(jobs: seq<Job>, at: Place, i: nat, entry: RenamedKey) {
    var (out, f) := WalkAll(FRESH, jobs);
    && IsPlace(jobs, at) && NodeOf(jobs, at).Dict? && i < |NodeOf(jobs, at).entries|
    && !StaysAsIs(PlacePosition(f, jobs, at), NodeOf(jobs, at).entries[i].key)
    && at.job < |out| && NodeAt(out[at.job], at.path + [i]).Some?
    && entry == RenamedKey(jobs[at.job].env.url, Generic(KeysAlong(out[at.job], at.path + [i])))
  }

  /** What a visit of a renamed key reports, its number being that of `f`. */
  function RenamedBy(f: State, visit: Visit): RenamedKey
    requires visit.VisitKey?
  {
    RenamedKey(visit.url, Generic(visit.generic + [KeyText(NumberOf(f.keys, visit.key))]))
  }

  ghost predicate Renames(f: State, visits: seq<Visit>, entry: RenamedKey) {
    exists visit :: visit in visits && visit.VisitKey? && entry == RenamedBy(f, visit)
  }

  lemma {:induction false} ReplayExtends(s: State, visit: Visit)
    ensures Extends(s, Replay(s, visit))
  {
  }

  lemma {:induction false} ReplayRenames(s: State, visits: seq<Visit>, f: State, entry: RenamedKey)
    requires Extends(ReplayAll(s, visits), f)
    ensures entry in ReplayAll(s, visits).renamed <==> entry in s.renamed || Renames(f, visits, entry)
    ensures NoRepeats(s.renamed) ==> NoRepeats(ReplayAll(s, visits).renamed)
  {
    hide Extends, Generic, Replay, Renames, RenamedBy;
    if visits == [] {
      assert !Renames(f, [], entry) by {
        NoVisitsRename(f, entry);
      }
    } else {
      var n := |visits| - 1;
      var init, last := visits[..n], visits[n];
      var before := ReplayAll(s, init);
      ReplayExtends(before, last);
      ExtendsTransitive(before, Replay(before, last), f);
      ReplayRenames(s, init, f, entry);
      RenamesSnoc(f, init, last, entry);
      assert visits == init + [last];
      ReplayAdds(before, last, f);
    }
  }

  lemma NoVisitsRename(f: State, entry: RenamedKey)
    ensures !Renames(f, [], entry)
  {
  }

  lemma RenamesSnoc(f: State, init: seq<Visit>, last: Visit, entry: RenamedKey)
    ensures Renames(f, init + [last], entry) <==>
            Renames(f, init, entry) || (last.VisitKey? && entry == RenamedBy(f, last))
  {
    hide RenamedBy;
    assert last in init + [last];
    assert forall visit :: visit in init ==> visit in init + [last];
  }

  lemma ReplayAdds(s: State, visit: Visit, f: State)
    requires Extends(Replay(s, visit), f)
    ensures Replay(s, visit).renamed == if visit.VisitKey? then AddOnce(s.renamed, RenamedBy(f, visit)) else s.renamed
  {
  }

  lemma {:induction false} KeyTracedInEntries(env: Env, f: State, entries: seq<Entry>, p: Position, visit: Visit)
    returns (i: nat)
    requires visit in TraceEntries(env, f, entries, p)
    ensures i < |entries|
    ensures var key := entries[i].key;
            || visit in TraceKey(env, key, p)
            || visit in Trace(env, f, entries[i].value, KeyChild(p, key, OutKey(f, key, p)))
  {
    var n := |entries| - 1;
    if visit in TraceEntries(env, f, entries[..n], p) {
      i := KeyTracedInEntries(env, f, entries[..n], p, visit);
    } else {
      i := n;
    }
  }

  /** What is reported of keys is reported of one of the object at some path. */
  lemma {:induction false} KeyTracedAt(env: Env, f: State, node: Json, p: Position, visit: Visit)
    returns (path: seq<nat>, i: nat)
    requires visit.VisitKey? && visit in Trace(env, f, node, p)
    ensures NodeAt(node, path).Some? && NodeAt(node, path).value.Dict? && i < |NodeAt(node, path).value.entries|
    ensures var q := PositionOf(f, node, p, path);
            var key := NodeAt(node, path).value.entries[i].key;
            !KeptKey(q, key) && visit == VisitKey(key, env.url, q.generic)
    decreases node
  {
    LeafVisitsNoKey(env, f, node, p);
    var q := p;
    if node.List? {
      i := ItemTraced(env, f, node.items, ItemChild(p), visit);
    } else {
      q := p.(dicts := p.dicts + [node.entries]);
      i := KeyTracedInEntries(env, f, node.entries, q, visit);
    }
    if node.Dict? && visit in TraceKey(env, node.entries[i].key, q) {
      path := [];
      SameDeclared(p, q, node.entries[i].key);
    } else {
      var rest, j := KeyTracedAt(env, f, ChildAt(node, i).value, PositionBelow(f, node, p, i), visit);
      path := [i] + rest;
      assert path[1..] == rest;
      i := j;
    }
  }

  lemma LeafVisitsNoKey(env: Env, f: State, node: Json, p: Position)
    ensures IsLeaf(node) ==> forall visit :: visit in Trace(env, f, node, p) ==> !visit.VisitKey?
  {
    hide CompleteRule, Passes, Generic, IdText, KindOf;
  }

  lemma {:induction false} NodeAtSnoc(node: Json, path: seq<nat>, i: nat)
    requires NodeAt(node, path).Some?
    ensures NodeAt(node, path + [i]) == ChildAt(NodeAt(node, path).value, i)
    ensures ChildAt(NodeAt(node, path).value, i).Some? ==>
              KeysAlong(node, path + [i]) == KeysAlong(node, path) + [KeyAt(NodeAt(node, path).value, i)]
    decreases |path|
  {
    var longer := path + [i];
    if path == [] {
      assert longer[1..] == [];
    } else {
      var child := ChildAt(node, path[0]).value;
      NodeAtSnoc(child, path[1..], i);
      assert longer[1..] == path[1..] + [i];
      if ChildAt(NodeAt(node, path).value, i).Some? {
        Associative([KeyAt(node, path[0])], KeysAlong(child, path[1..]), [KeyAt(NodeAt(node, path).value, i)]);
      }
    }
  }

  lemma {:induction false} RenamedIff(jobs: seq<Job>, at: Place, i: nat, entry: RenamedKey)
    requires WellFormed(jobs) && IsPlace(jobs, at) && NodeOf(jobs, at).Dict? && i < |NodeOf(jobs, at).entries|
    ensures var f := WalkAll(FRESH, jobs).1;
            var p, key := PlacePosition(f, jobs, at), NodeOf(jobs, at).entries[i].key;
            IsRenamedFor(jobs, at, i, entry) <==>
            !KeptKey(p, key) && entry == RenamedBy(f, VisitKey(key, jobs[at.job].env.url, p.generic))
  {
    hide WalkAll, WellFormed, NodeAt, PositionOf, StaysAsIs, KeptKey, Generic, KeysAlong, Render, Walk;
    var f := WalkAll(FRESH, jobs).1;
    var key := NodeOf(jobs, at).entries[i].key;
    KeptIff(PlacePosition(f, jobs, at), key);
    PlacePath(jobs, at);
    KeysBecome(jobs, at, i);
    NodeAtSnoc(WalkAll(FRESH, jobs).0[at.job], at.path, i);
  }

  /**
   The report of a capture lists a key if and only if some key of its bodies is renamed at that url
   and that path in the output; and it lists none twice.
   */
  lemma {:induction false} RenamedAreExact(jobs: seq<Job>, entry: RenamedKey)
    requires WellFormed(jobs)
    ensures entry in WalkAll(FRESH, jobs).1.renamed <==> exists at, i :: IsRenamedFor(jobs, at, i, entry)
    ensures NoRepeats(WalkAll(FRESH, jobs).1.renamed)
  {
    hide WalkAll, WellFormed, IsRenamedFor, ReplayAll, RenamedBy, Extends;
    var f := WalkAll(FRESH, jobs).1;
    FinalState(jobs);
    ExtendsItself(f);
    ReplayRenames(FRESH, TraceAll(f, jobs), f, entry);
    if entry in f.renamed {
      var at, i := RenamedSomewhere(jobs, entry);
      assert IsRenamedFor(jobs, at, i, entry);
    }
    if at, i :| IsRenamedFor(jobs, at, i, entry) {
      RenamedIsListed(jobs, at, i, entry);
    }
  }

  lemma {:induction false} RenamedSomewhere(jobs: seq<Job>, entry: RenamedKey) returns (at: Place, i: nat)
    requires WellFormed(jobs) && Renames(WalkAll(FRESH, jobs).1, TraceAll(WalkAll(FRESH, jobs).1, jobs), entry)
    ensures IsRenamedFor(jobs, at, i, entry)
  {
    hide WalkAll, WellFormed, IsRenamedFor, RenamedBy, KeptKey;
    var f := WalkAll(FRESH, jobs).1;
    var visit :| visit in TraceAll(f, jobs) && visit.VisitKey? && entry == RenamedBy(f, visit);
    var job := JobTraced(f, jobs, visit);
    var path, j := KeyTracedAt(jobs[job].env, f, jobs[job].body, Root(jobs[job].policy), visit);
    at, i := Place(job, path), j;
    RenamedIff(jobs, at, i, entry);
  }

  lemma {:induction false} RenamedIsListed(jobs: seq<Job>, at: Place, i: nat, entry: RenamedKey)
    requires WellFormed(jobs) && IsRenamedFor(jobs, at, i, entry)
    ensures Renames(WalkAll(FRESH, jobs).1, TraceAll(WalkAll(FRESH, jobs).1, jobs), entry)
  {
    hide WalkAll, WellFormed, RenamedBy, KeptKey, StaysAsIs, Generic, KeysAlong, Trace, TraceAll;
    var f := WalkAll(FRESH, jobs).1;
    RenamedIff(jobs, at, i, entry);
    var env, p := jobs[at.job].env, PlacePosition(f, jobs, at);
    KeyTraced(env, f, NodeOf(jobs, at), p, i);
    NodeVisited(env, f, jobs[at.job].body, Root(jobs[at.job].policy), at.path);
    JobVisited(f, jobs, at.job);
    var visit := VisitKey(NodeOf(jobs, at).entries[i].key, env.url, p.generic);
    assert visit in TraceAll(f, jobs);
  }

  lemma KeyTraced(env: Env, f: State, node: Json, p: Position, i: nat)
    requires node.Dict? && i < |node.entries| && !KeptKey(p, node.entries[i].key)
    ensures VisitKey(node.entries[i].key, env.url, p.generic) in Trace(env, f, node, p)
  {
    hide KeptKey;
    var q, key := p.(dicts := p.dicts + [node.entries]), node.entries[i].key;
    SameDeclared(p, q, key);
    assert VisitKey(key, env.url, p.generic) in TraceKey(env, key, q);
    EntryVisited(env, f, node.entries, q, i);
  }

  // ---- reported paths ----

  lemma {:induction false} EscapeNothing(key: string)
    requires '.' !in key
    ensures Escape(key) == key
  {
    if key != "" {
      assert key[0] != '.';
      EscapeNothing(key[1..]);
    }
  }

  lemma {:induction false} ConcatPrints(parts: seq<string>)
    requires parts != [] && forall i :: 0 <= i < |parts| ==> '.' !in parts[i]
    ensures Concat(parts) == (if parts[0] == LIST_ITEM then "" else ".") + PrintPath(parts)
  {
    var n := |parts| - 1;
    EscapeNothing(parts[n]);
    if n == 0 {
      assert Concat(parts[..0]) == "" && PrintPath(parts[..0]) == "";
      assert "" + ("" + parts[0]) == parts[0];
    } else {
      ConcatPrints(parts[..n]);
      var before := if parts[0] == LIST_ITEM then "" else ".";
      var last := if parts[n] == LIST_ITEM then LIST_ITEM else "." + parts[n];
      Associative(before, PrintPath(parts[..n]), last);
    }
  }

  /** A path without dots in its keys is reported in the notation of rule paths: as a rule, it has these segments. */
  lemma ReportedPathIsRulePath(parts: seq<string>)
    requires forall i :: 0 <= i < |parts| ==> '.' !in parts[i]
    ensures Generic(parts) == PrintPath(parts)
    ensures Printable(parts) ==> ParsePath(Generic(parts)) == parts
  {
    if parts != [] {
      ConcatPrints(parts);
      if parts[0] == LIST_ITEM {
        StartsWithItem(parts);
        assert "" + PrintPath(parts) == PrintPath(parts);
      } else {
        assert ("." + PrintPath(parts))[1..] == PrintPath(parts);
      }
    }
    if Printable(parts) {
      ParseUndoesPrint(parts);
    }
  }

  lemma {:induction false} StartsWithItem(parts: seq<string>)
    requires parts != [] && parts[0] == LIST_ITEM
    ensures PrintPath(parts) != "" && PrintPath(parts)[0] == '['
  {
    var n := |parts| - 1;
    if n > 0 {
      StartsWithItem(parts[..n]);
    } else {
      assert PrintPath(parts[..0]) == "";
      assert "" + LIST_ITEM == LIST_ITEM;
    }
  }

  // ---- bodies without rules ----

  lemma {:induction false} NoRulesBelow(f: State, node: Json, p: Position, path: seq<nat>)
    requires p.rules == [] && NodeAt(node, path).Some?
    ensures PositionOf(f, node, p, path).rules == []
    decreases |path|
  {
    if path != [] {
      NoRulesBelow(f, ChildAt(node, path[0]).value, PositionBelow(f, node, p, path[0]), path[1..]);
    }
  }

  /** Without rules, every leaf is blanked in its place. */
  lemma {:induction false} WithoutRulesAllIsBlank(env: Env, s: State, body: Json, path: seq<nat>)
    requires Dense(s.keys) && DistinctKeys(body) && NodeAt(body, path).Some? && IsLeaf(NodeAt(body, path).value)
    ensures NodeAt(Walk(env, s, body, Root(EndpointPolicy([], []))).0, path) == Some(Blank(NodeAt(body, path).value))
  {
    hide Walk, DistinctKeys, NodeAt;
    var p := Root(EndpointPolicy([], []));
    var f := Walk(env, s, body, p).1;
    assert p.rules == [];
    WalkIsRender(env, s, body, p, f);
    WalkIsDense(env, s, body, p);
    NodeLands(env, s, body, p, f, path);
    NoRulesBelow(f, body, p, path);
    BlankIs(NodeAt(body, path).value);
  }

  lemma {:induction false} WalkIsDense(env: Env, s: State, node: Json, p: Position)
    requires Dense(s.keys)
    ensures Dense(Walk(env, s, node, p).1.keys)
  {
    hide Walk, Dense;
    var t := Walk(env, s, node, p).1;
    ExtendsItself(t);
    WalkIsRender(env, s, node, p, t);
    ReplayNumbers(s, Trace(env, t, node, p), "");
    AssignAllKeepsDense(s.keys, KeyTexts(Trace(env, t, node, p)));
  }

  lemma ExtendsItself(s: State)
    ensures Extends(s, s)
  {
  }
}
