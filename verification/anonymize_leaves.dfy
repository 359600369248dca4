/** Where each node of a capture lands, and what that says of its ids, names and renamed keys. */
module AnonymizeLeaves {
  import opened Collections
  import opened Json
  import opened AnonymizeWalk
  import opened AnonymizeRender
  import opened AnonymizeShape
  import opened Numbering
  import Text

  // ---- nodes by path ----

  /** The i-th item of a list or value of an object. */
  function ChildAt(node: Json, i: nat): Option<Json> {
    match node
    case List(items) => if i < |items| then Some(items[i]) else None
    case Dict(entries) => if i < |entries| then Some(entries[i].value) else None
    case _ => None
  }

  function NodeAt(node: Json, path: seq<nat>): Option<Json>
    decreases |path|
  {
    if path == [] then Some(node)
    else
      match ChildAt(node, path[0])
      case None => None
      case Some(child) => NodeAt(child, path[1..])
  }

  function PositionBelow(f: State, node: Json, p: Position, i: nat): Position
    requires ChildAt(node, i).Some?
  {
    if node.List? then ItemChild(p)
    else
      var q := p.(dicts := p.dicts + [node.entries]);
      var key := node.entries[i].key;
      KeyChild(q, key, OutKey(f, key, q))
  }

  function PositionOf(f: State, node: Json, p: Position, path: seq<nat>): Position
    requires NodeAt(node, path).Some?
    decreases |path|
  {
    if path == [] then p
    else PositionOf(f, ChildAt(node, path[0]).value, PositionBelow(f, node, p, path[0]), path[1..])
  }

  // ---- every node lands in its place ----

  lemma ChildLands(env: Env, s: State, node: Json, p: Position, f: State, i: nat)
    requires Extends(Walk(env, s, node, p).1, f)
    requires Dense(f.keys) && Clear(p) && DistinctKeys(node) && ChildAt(node, i).Some?
    ensures var child, q := ChildAt(node, i).value, PositionBelow(f, node, p, i);
            ChildAt(Render(env, f, node, p), i) == Some(Render(env, f, child, q))
            && Clear(q) && DistinctKeys(child) && exists t :: Extends(Walk(env, t, child, q).1, f)
  {
    hide Extends, Dense, ClearRule, Distinct;
    if node.List? {
      FollowKeepsClear(p.rules, Policy.LIST_ITEM, "");
      ItemLands(env, s, node.items, ItemChild(p), f, i);
    } else {
      var q := p.(dicts := p.dicts + [node.entries]);
      EntryLands(env, s, node.entries, q, f, i);
      FollowKeepsClear(q.rules, node.entries[i].key, node.entries[i].key);
    }
  }

  lemma {:induction false} NodeLands(env: Env, s: State, node: Json, p: Position, f: State, path: seq<nat>)
    requires Extends(Walk(env, s, node, p).1, f)
    requires Dense(f.keys) && Clear(p) && DistinctKeys(node) && NodeAt(node, path).Some?
    ensures NodeAt(Render(env, f, node, p), path) ==
            Some(Render(env, f, NodeAt(node, path).value, PositionOf(f, node, p, path)))
    decreases |path|
  {
    if path != [] {
      var child, q := ChildAt(node, path[0]).value, PositionBelow(f, node, p, path[0]);
      ChildLands(env, s, node, p, f, path[0]);
      var t :| Extends(Walk(env, t, child, q).1, f);
      NodeLands(env, t, child, q, f, path[1..]);
    }
  }

  // ---- every node is visited ----

  lemma {:induction false} ItemVisited(env: Env, f: State, items: seq<Json>, p: Position, i: nat)
    requires i < |items|
    ensures forall visit :: visit in Trace(env, f, items[i], p) ==> visit in TraceItems(env, f, items, p)
  {
    if i < |items| - 1 {
      ItemVisited(env, f, items[..|items| - 1], p, i);
    }
  }

  lemma {:induction false} EntryVisited(env: Env, f: State, entries: seq<Entry>, p: Position, i: nat)
    requires i < |entries|
    ensures var key := entries[i].key;
            (forall visit :: visit in Trace(env, f, entries[i].value, KeyChild(p, key, OutKey(f, key, p)))
                             ==> visit in TraceEntries(env, f, entries, p))
            && forall visit :: visit in TraceKey(env, key, p) ==> visit in TraceEntries(env, f, entries, p)
  {
    if i < |entries| - 1 {
      EntryVisited(env, f, entries[..|entries| - 1], p, i);
    }
  }

  lemma {:induction false} NodeVisited(env: Env, f: State, node: Json, p: Position, path: seq<nat>)
    requires NodeAt(node, path).Some?
    ensures forall visit :: visit in Trace(env, f, NodeAt(node, path).value, PositionOf(f, node, p, path))
                            ==> visit in Trace(env, f, node, p)
    decreases |path|
  {
    if path != [] {
      var i := path[0];
      NodeVisited(env, f, ChildAt(node, i).value, PositionBelow(f, node, p, i), path[1..]);
      if node.List? {
        ItemVisited(env, f, node.items, ItemChild(p), i);
      } else {
        EntryVisited(env, f, node.entries, p.(dicts := p.dicts + [node.entries]), i);
      }
    }
  }

  lemma {:induction false} JobVisited(f: State, jobs: seq<Job>, i: nat)
    requires i < |jobs|
    ensures forall visit :: visit in Trace(jobs[i].env, f, jobs[i].body, Root(jobs[i].policy)) ==>
            visit in TraceAll(f, jobs)
  {
    if i < |jobs| - 1 {
      JobVisited(f, jobs[..|jobs| - 1], i);
    }
  }

  lemma {:induction false} TextsOf(visits: seq<Visit>, visit: Visit)
    requires visit in visits
    ensures visit.VisitId? ==> visit.text in IdTexts(visits)
    ensures visit.VisitKey? ==> visit.key in KeyTexts(visits)
    ensures visit.VisitName? ==> visit.text in NameTexts(visits, visit.kind)
  {
    if visit != visits[|visits| - 1] {
      TextsOf(visits[..|visits| - 1], visit);
    }
  }

  // ---- places of a capture ----

  /** A node of the body of one of the jobs. */
  datatype Place = Place(job: nat, path: seq<nat>)

  predicate IsPlace(jobs: seq<Job>, at: Place) {
    at.job < |jobs| && NodeAt(jobs[at.job].body, at.path).Some?
  }

  function NodeOf(jobs: seq<Job>, at: Place): Json
    requires IsPlace(jobs, at)
  {
    NodeAt(jobs[at.job].body, at.path).value
  }

  function PlacePosition(f: State, jobs: seq<Job>, at: Place): Position
    requires IsPlace(jobs, at)
  {
    PositionOf(f, jobs[at.job].body, Root(jobs[at.job].policy), at.path)
  }

  /** The bodies are JSON, and no declared segment of their policies is the text of a renamed key. */
  ghost predicate WellFormed(jobs: seq<Job>) {
    forall i :: 0 <= i < |jobs| ==> DistinctKeys(jobs[i].body) && ClearPolicy(jobs[i].policy)
  }

  lemma {:induction false} BodyReached(s: State, jobs: seq<Job>, f: State, i: nat)
    requires i < |jobs| && Extends(WalkAll(s, jobs).1, f)
    ensures exists t :: Extends(Walk(jobs[i].env, t, jobs[i].body, Root(jobs[i].policy)).1, f)
    ensures |RenderAll(f, jobs)| == |jobs|
    ensures RenderAll(f, jobs)[i] == Render(jobs[i].env, f, jobs[i].body, Root(jobs[i].policy))
  {
    var init, job := jobs[..|jobs| - 1], jobs[|jobs| - 1];
    var t := WalkAll(s, init).1;
    WalkIsRender(job.env, t, job.body, Root(job.policy), f);
    ExtendsTransitive(t, Walk(job.env, t, job.body, Root(job.policy)).1, f);
    RenderAllLength(f, init);
    if i < |jobs| - 1 {
      BodyReached(s, init, f, i);
    } else {
      assert Extends(Walk(jobs[i].env, t, jobs[i].body, Root(jobs[i].policy)).1, f);
    }
  }

  lemma {:induction false} RenderAllLength(f: State, jobs: seq<Job>)
    ensures |RenderAll(f, jobs)| == |jobs|
  {
    if jobs != [] {
      RenderAllLength(f, jobs[..|jobs| - 1]);
    }
  }

  lemma CaptureNumbers(jobs: seq<Job>)
    ensures var (out, f) := WalkAll(FRESH, jobs);
            out == RenderAll(f, jobs) && Extends(f, f)
            && Dense(f.ids) && Dense(f.keys) && forall kind :: Dense(f.NamesOf(kind))
  {
    CaptureIsRender(jobs, "");
    var f := WalkAll(FRESH, jobs).1;
    forall kind
      ensures Dense(f.NamesOf(kind))
    {
      CaptureIsRender(jobs, kind);
    }
  }

  /** Anonymization keeps the structure of every body. */
  lemma CaptureKeepsShape(jobs: seq<Job>, i: nat)
    requires WellFormed(jobs) && i < |jobs|
    ensures |WalkAll(FRESH, jobs).0| == |jobs|
    ensures SameShape(jobs[i].body, WalkAll(FRESH, jobs).0[i])
  {
    var f := WalkAll(FRESH, jobs).1;
    CaptureNumbers(jobs);
    BodyReached(FRESH, jobs, f, i);
    var job := jobs[i];
    var t :| Extends(Walk(job.env, t, job.body, Root(job.policy)).1, f);
    RenderKeepsShape(job.env, t, job.body, Root(job.policy), f);
  }

  lemma PlaceLands(jobs: seq<Job>, at: Place)
    requires WellFormed(jobs) && IsPlace(jobs, at)
    ensures var (out, f) := WalkAll(FRESH, jobs);
            at.job < |out| &&
            NodeAt(out[at.job], at.path) ==
            Some(Render(jobs[at.job].env, f, NodeOf(jobs, at), PlacePosition(f, jobs, at)))
  {
    var f := WalkAll(FRESH, jobs).1;
    CaptureNumbers(jobs);
    BodyReached(FRESH, jobs, f, at.job);
    var job := jobs[at.job];
    var t :| Extends(Walk(job.env, t, job.body, Root(job.policy)).1, f);
    NodeLands(job.env, t, job.body, Root(job.policy), f, at.path);
  }

  lemma PlaceVisited(jobs: seq<Job>, at: Place, visit: Visit)
    requires IsPlace(jobs, at)
    requires var f := WalkAll(FRESH, jobs).1;
             visit in Trace(jobs[at.job].env, f, NodeOf(jobs, at), PlacePosition(f, jobs, at))
    ensures var f := WalkAll(FRESH, jobs).1;
            (visit.VisitId? ==> visit.text in f.ids) && (visit.VisitKey? ==> visit.key in f.keys)
            && (visit.VisitName? ==> visit.text in f.NamesOf(visit.kind))
  {
    var f := WalkAll(FRESH, jobs).1;
    var job := jobs[at.job];
    NodeVisited(job.env, f, job.body, Root(job.policy), at.path);
    JobVisited(f, jobs, at.job);
    TextsOf(TraceAll(f, jobs), visit);
    CaptureIsRender(jobs, if visit.VisitName? then visit.kind else "");
  }

  // ---- ids ----

  predicate HasRule(f: State, jobs: seq<Job>, at: Place, action: Action)
    requires IsPlace(jobs, at)
  {
    var rule := CompleteRule(PlacePosition(f, jobs, at).rules);
    rule.Some? && rule.value.action == action
  }

  predicate IsIdLeaf(f: State, jobs: seq<Job>, at: Place) {
    IsPlace(jobs, at) && HasRule(f, jobs, at, ID)
    && (NodeOf(jobs, at).Int? || (NodeOf(jobs, at).Str? && NodeOf(jobs, at).text != ""))
  }

  lemma IdNumbered(jobs: seq<Job>, at: Place)
    requires IsIdLeaf(WalkAll(FRESH, jobs).1, jobs, at)
    ensures IdText(NodeOf(jobs, at)) in WalkAll(FRESH, jobs).1.ids
  {
    hide WalkAll, NodeAt, PositionOf, CompleteRule;
    PlaceVisited(jobs, at, VisitId(IdText(NodeOf(jobs, at))));
  }

  /** What an id became: of the same type, printing the number of its text. */
  lemma IdBecomes(jobs: seq<Job>, at: Place)
    requires WellFormed(jobs) && IsIdLeaf(WalkAll(FRESH, jobs).1, jobs, at)
    ensures var (out, f) := WalkAll(FRESH, jobs);
            var v := NodeOf(jobs, at);
            IdText(v) in f.ids && at.job < |out| &&
            NodeAt(out[at.job], at.path) ==
            Some(if v.Int? then Int(f.ids[IdText(v)]) else Str(Text.IntText(f.ids[IdText(v)])))
  {
    hide WalkAll, NodeAt, PositionOf, CompleteRule;
    PlaceLands(jobs, at);
    IdNumbered(jobs, at);
  }

  /** Over all the bodies of a capture, two ids become the same number exactly when they print the same. */
  lemma SameIdIffSameText(jobs: seq<Job>, a: Place, b: Place)
    requires WellFormed(jobs)
    requires IsIdLeaf(WalkAll(FRESH, jobs).1, jobs, a) && IsIdLeaf(WalkAll(FRESH, jobs).1, jobs, b)
    ensures var out := WalkAll(FRESH, jobs).0;
            a.job < |out| && b.job < |out| &&
            var (x, y) := (NodeAt(out[a.job], a.path), NodeAt(out[b.job], b.path));
            x.Some? && y.Some? && (x.value.Int? || x.value.Str?) && (y.value.Int? || y.value.Str?)
            && (IdText(x.value) == IdText(y.value) <==> IdText(NodeOf(jobs, a)) == IdText(NodeOf(jobs, b)))
  {
    IdBecomes(jobs, a);
    IdBecomes(jobs, b);
    var f := WalkAll(FRESH, jobs).1;
    CaptureNumbers(jobs);
    var m, n := f.ids[IdText(NodeOf(jobs, a))], f.ids[IdText(NodeOf(jobs, b))];
    if Text.IntText(m) == Text.IntText(n) {
      Text.IntTextInjective(m, n);
    }
  }

  // ---- names ----

  predicate IsNameLeaf(f: State, jobs: seq<Job>, at: Place, kind: string) {
    IsPlace(jobs, at) && HasRule(f, jobs, at, NAME) && NodeOf(jobs, at).Str?
    && KindOf(CompleteRule(PlacePosition(f, jobs, at).rules).value) == kind
  }

  lemma NameBecomes(jobs: seq<Job>, at: Place, kind: string)
    requires WellFormed(jobs) && IsNameLeaf(WalkAll(FRESH, jobs).1, jobs, at, kind)
    ensures var (out, f) := WalkAll(FRESH, jobs);
            var name := NodeOf(jobs, at).text;
            name in f.NamesOf(kind) && at.job < |out| &&
            NodeAt(out[at.job], at.path) == Some(Str(NameText(kind, f.NamesOf(kind)[name])))
  {
    hide WalkAll, NodeAt, PositionOf, CompleteRule;
    PlaceLands(jobs, at);
    PlaceVisited(jobs, at, VisitName(kind, NodeOf(jobs, at).text));
  }

  lemma NameTextInjective(kind: string, m: nat, n: nat)
    requires NameText(kind, m) == NameText(kind, n)
    ensures m == n
  {
    var k := |"<name:" + kind + ":"|;
    assert NameText(kind, m)[k..|NameText(kind, m)| - 1] == Text.IntText(m);
    assert NameText(kind, n)[k..|NameText(kind, n)| - 1] == Text.IntText(n);
    Text.IntTextInjective(m, n);
  }

  /** Two names of a kind become the same exactly when they are the same. */
  lemma SameNameIffSame(jobs: seq<Job>, a: Place, b: Place, kind: string)
    requires WellFormed(jobs)
    requires IsNameLeaf(WalkAll(FRESH, jobs).1, jobs, a, kind) && IsNameLeaf(WalkAll(FRESH, jobs).1, jobs, b, kind)
    ensures var out := WalkAll(FRESH, jobs).0;
            a.job < |out| && b.job < |out| && NodeAt(out[a.job], a.path).Some?
            && (NodeAt(out[a.job], a.path) == NodeAt(out[b.job], b.path) <==> NodeOf(jobs, a) == NodeOf(jobs, b))
  {
    NameBecomes(jobs, a, kind);
    NameBecomes(jobs, b, kind);
    CaptureNumbers(jobs);
    var numbers := WalkAll(FRESH, jobs).1.NamesOf(kind);
    assert Dense(numbers);
    var m, n := numbers[NodeOf(jobs, a).text], numbers[NodeOf(jobs, b).text];
    if NameText(kind, m) == NameText(kind, n) {
      NameTextInjective(kind, m, n);
    }
  }

  // ---- keys ----

  /** The i-th key of the object at a place is renamed. */
  predicate IsRenamedKey(f: State, jobs: seq<Job>, at: Place, i: nat) {
    IsPlace(jobs, at) && NodeOf(jobs, at).Dict? && i < |NodeOf(jobs, at).entries|
    && !KeptKey(PlacePosition(f, jobs, at), NodeOf(jobs, at).entries[i].key)
  }

  lemma KeyBecomes(jobs: seq<Job>, at: Place, i: nat)
    requires WellFormed(jobs) && IsRenamedKey(WalkAll(FRESH, jobs).1, jobs, at, i)
    ensures var (out, f) := WalkAll(FRESH, jobs);
            var key := NodeOf(jobs, at).entries[i].key;
            key in f.keys && at.job < |out| &&
            var node := NodeAt(out[at.job], at.path);
            node.Some? && node.value.Dict? && i < |node.value.entries|
            && node.value.entries[i].key == KeyText(f.keys[key])
  {
    var f := WalkAll(FRESH, jobs).1;
    var node, env, p := NodeOf(jobs, at), jobs[at.job].env, PlacePosition(f, jobs, at);
    var q := p.(dicts := p.dicts + [node.entries]);
    var key := node.entries[i].key;
    EntryVisited(env, f, node.entries, q, i);
    assert TraceKey(env, key, q) == [VisitKey(key, env.url, q.generic)];
    PlaceVisited(jobs, at, VisitKey(key, env.url, q.generic));
    PlaceLands(jobs, at);
    PlaceIsAligned(jobs, at);
  }

  lemma PlaceIsAligned(jobs: seq<Job>, at: Place)
    requires WellFormed(jobs) && IsPlace(jobs, at) && NodeOf(jobs, at).Dict?
    ensures var f := WalkAll(FRESH, jobs).1;
            var node, env, p := NodeOf(jobs, at), jobs[at.job].env, PlacePosition(f, jobs, at);
            var q := p.(dicts := p.dicts + [node.entries]);
            RenderEntries(env, f, node.entries, q) == Written(env, f, node.entries, q)
  {
    var f := WalkAll(FRESH, jobs).1;
    CaptureNumbers(jobs);
    BodyReached(FRESH, jobs, f, at.job);
    var job := jobs[at.job];
    var t :| Extends(Walk(job.env, t, job.body, Root(job.policy)).1, f);
    NodeIsAligned(job.env, t, job.body, Root(job.policy), f, at.path);
  }

  lemma {:induction false} NodeIsAligned(env: Env, s: State, node: Json, p: Position, f: State, path: seq<nat>)
    requires Extends(Walk(env, s, node, p).1, f) && Dense(f.keys) && Clear(p) && DistinctKeys(node)
    requires NodeAt(node, path).Some? && NodeAt(node, path).value.Dict?
    ensures var entries, at := NodeAt(node, path).value.entries, PositionOf(f, node, p, path);
            var q := at.(dicts := at.dicts + [entries]);
            RenderEntries(env, f, entries, q) == Written(env, f, entries, q)
    decreases |path|
  {
    if path == [] {
      var q := p.(dicts := p.dicts + [node.entries]);
      ClearIsClashFree(q);
      WalkNumbersKeys(env, s, node.entries, q, f.keys);
      EntriesAligned(env, f, node.entries, q);
    } else {
      var child, q := ChildAt(node, path[0]).value, PositionBelow(f, node, p, path[0]);
      ChildLands(env, s, node, p, f, path[0]);
      var t :| Extends(Walk(env, t, child, q).1, f);
      NodeIsAligned(env, t, child, q, f, path[1..]);
    }
  }

  /** Two renamed keys, anywhere in a capture, become the same exactly when they are the same. */
  lemma SameKeyIffSame(jobs: seq<Job>, a: Place, i: nat, b: Place, j: nat)
    requires WellFormed(jobs)
    requires IsRenamedKey(WalkAll(FRESH, jobs).1, jobs, a, i) && IsRenamedKey(WalkAll(FRESH, jobs).1, jobs, b, j)
    ensures var out := WalkAll(FRESH, jobs).0;
            a.job < |out| && b.job < |out| &&
            var (x, y) := (NodeAt(out[a.job], a.path), NodeAt(out[b.job], b.path));
            x.Some? && x.value.Dict? && i < |x.value.entries| && y.Some? && y.value.Dict? && j < |y.value.entries|
            && (x.value.entries[i].key == y.value.entries[j].key <==>
                NodeOf(jobs, a).entries[i].key == NodeOf(jobs, b).entries[j].key)
  {
    KeyBecomes(jobs, a, i);
    KeyBecomes(jobs, b, j);
    CaptureNumbers(jobs);
    var f := WalkAll(FRESH, jobs).1;
    var m, n := f.keys[NodeOf(jobs, a).entries[i].key], f.keys[NodeOf(jobs, b).entries[j].key];
    if KeyText(m) == KeyText(n) {
      assert Text.Decimal(m) == KeyText(m)[5..|KeyText(m)| - 1];
      assert Text.Decimal(n) == KeyText(n)[5..|KeyText(n)| - 1];
      Text.DecimalInjective(m, n);
    }
  }
}
