/**
 The walk that grows its maps as it goes is a rendering with the maps it ends with: what is
 written out for a node depends only on the node, its position and the final numbers.
 */
module AnonymizeRender {
  import opened Collections
  import opened Json
  import opened AnonymizeWalk
  import opened Numbering
  import Text

  // ---- the reference: rendering with given maps ----

  function NumberOf(numbers: map<string, nat>, text: string): nat {
    if text in numbers then numbers[text] else 0
  }

  function OutKey(f: State, key: string, p: Position): string {
    if KeptKey(p, key) then key else KeyText(NumberOf(f.keys, key))
  }

  function RenderLeaf(env: Env, f: State, v: Json, p: Position): Json
    requires IsLeaf(v)
  {
    match CompleteRule(p.rules)
    case None => Placeholder(v)
    case Some(rule) =>
      match rule.action
      case KEEP => if rule.keep.Some? && Passes(env, v, rule.keep.value) then v else Placeholder(v)
      case ID =>
        if v == Null || v == Str("") then v
        else if v.Int? then Int(NumberOf(f.ids, IdText(v)))
        else if v.Str? then Str(Text.IntText(NumberOf(f.ids, IdText(v))))
        else Placeholder(v)
      case NAME =>
        if v == Null then v
        else if v.Str? then Str(NameText(KindOf(rule), NumberOf(f.NamesOf(KindOf(rule)), v.text)))
        else Placeholder(v)
      case VALUE => Value(env, v, p)
      case REDACT => Placeholder(v)
  }

  function Render(env: Env, f: State, node: Json, p: Position): Json
    decreases node, 1
  {
    match node
    case List(items) => List(RenderItems(env, f, items, ItemChild(p)))
    case Dict(entries) => Dict(RenderEntries(env, f, entries, p.(dicts := p.dicts + [entries])))
    case _ => RenderLeaf(env, f, node, p)
  }

  function RenderItems(env: Env, f: State, items: seq<Json>, p: Position): (out: seq<Json>)
    decreases items, 0
  {
    if items == [] then []
    else RenderItems(env, f, items[..|items| - 1], p) + [Render(env, f, items[|items| - 1], p)]
  }

  function RenderEntries(env: Env, f: State, entries: seq<Entry>, p: Position): seq<Entry>
    decreases entries, 0
  {
    if entries == [] then []
    else
      var entry := entries[|entries| - 1];
      var outKey := OutKey(f, entry.key, p);
      Put(RenderEntries(env, f, entries[..|entries| - 1], p), outKey,
          Render(env, f, entry.value, KeyChild(p, entry.key, outKey)))
  }

  // ---- what the walk visits, in order ----

  datatype Visit =
    | VisitKey(key: string, url: string, generic: seq<string>)
    | VisitId(text: string)
    | VisitName(kind: string, text: string)
    | VisitUnknown(leaf: UnknownLeaf)

  function TraceKey(env: Env, key: string, p: Position): seq<Visit> {
    if KeptKey(p, key) then [] else [VisitKey(key, env.url, p.generic)]
  }

  function UnknownVisit(env: Env, v: Json, p: Position, reason: string): seq<Visit>
    requires IsLeaf(v)
  {
    [VisitUnknown(UnknownLeaf(env.url, Generic(p.generic), TypeOf(v), reason))]
  }

  function TraceLeaf(env: Env, v: Json, p: Position): seq<Visit>
    requires IsLeaf(v)
  {
    match CompleteRule(p.rules)
    case None => UnknownVisit(env, v, p, NO_RULE)
    case Some(rule) =>
      match rule.action
      case KEEP =>
        if rule.keep.Some? && Passes(env, v, rule.keep.value) then [] else UnknownVisit(env, v, p, KEEP_CONSTRAINT)
      case ID =>
        if v == Null || v == Str("") then []
        else if v.Int? || v.Str? then [VisitId(IdText(v))]
        else UnknownVisit(env, v, p, KEEP_CONSTRAINT)
      case NAME =>
        if v == Null then []
        else if v.Str? then [VisitName(KindOf(rule), v.text)]
        else UnknownVisit(env, v, p, KEEP_CONSTRAINT)
      case VALUE => []
      case REDACT => []
  }

  function Trace(env: Env, f: State, node: Json, p: Position): seq<Visit>
    decreases node, 1
  {
    match node
    case List(items) => TraceItems(env, f, items, ItemChild(p))
    case Dict(entries) => TraceEntries(env, f, entries, p.(dicts := p.dicts + [entries]))
    case _ => TraceLeaf(env, node, p)
  }

  function TraceItems(env: Env, f: State, items: seq<Json>, p: Position): seq<Visit>
    decreases items, 0
  {
    if items == [] then []
    else TraceItems(env, f, items[..|items| - 1], p) + Trace(env, f, items[|items| - 1], p)
  }

  function TraceEntries(env: Env, f: State, entries: seq<Entry>, p: Position): seq<Visit>
    decreases entries, 0
  {
    if entries == [] then []
    else
      var entry := entries[|entries| - 1];
      TraceEntries(env, f, entries[..|entries| - 1], p) + TraceKey(env, entry.key, p)
      + Trace(env, f, entry.value, KeyChild(p, entry.key, OutKey(f, entry.key, p)))
  }

  function Replay(s: State, visit: Visit): State {
    match visit
    case VisitKey(key, url, generic) =>
      var keys := Assign(s.keys, key);
      s.(keys := keys, renamed := AddOnce(s.renamed, RenamedKey(url, Generic(generic + [KeyText(keys[key])]))))
    case VisitId(text) => s.(ids := Assign(s.ids, text))
    case VisitName(kind, text) => s.(names := s.names[kind := Assign(s.NamesOf(kind), text)])
    case VisitUnknown(leaf) => s.(unknown := AddOnce(s.unknown, leaf))
  }

  function ReplayAll(s: State, visits: seq<Visit>): State {
    if visits == [] then s else Replay(ReplayAll(s, visits[..|visits| - 1]), visits[|visits| - 1])
  }

  lemma {:induction false} ReplayConcat(s: State, a: seq<Visit>, b: seq<Visit>)
    ensures ReplayAll(s, a + b) == ReplayAll(ReplayAll(s, a), b)
  {
    if b == [] {
      assert a + b == a;
    } else {
      ReplayConcat(s, a, b[..|b| - 1]);
      assert (a + b)[..|a + b| - 1] == a + b[..|b| - 1];
    }
  }

  lemma ReplayOne(s: State, visit: Visit)
    ensures ReplayAll(s, [visit]) == Replay(s, visit)
  {
    assert [visit][..0] == [];
  }

  // ---- numbers are only added ----

  ghost predicate Within(a: map<string, nat>, b: map<string, nat>) {
    forall k :: k in a ==> k in b && b[k] == a[k]
  }

  /** Every number given in `s` is the same in `t`. */
  ghost predicate Extends(s: State, t: State) {
    Within(s.ids, t.ids) && Within(s.keys, t.keys) && forall kind :: Within(s.NamesOf(kind), t.NamesOf(kind))
  }

  lemma ExtendsTransitive(s: State, t: State, u: State)
    requires Extends(s, t) && Extends(t, u)
    ensures Extends(s, u)
  {
    forall kind
      ensures Within(s.NamesOf(kind), u.NamesOf(kind))
    {
      assert Within(s.NamesOf(kind), t.NamesOf(kind)) && Within(t.NamesOf(kind), u.NamesOf(kind));
    }
  }

  // ---- the walk is the rendering ----

  lemma KeyIsRender(env: Env, s: State, key: string, p: Position)
    ensures Extends(s, Key(env, s, key, p).1)
    ensures Key(env, s, key, p).1 == ReplayAll(s, TraceKey(env, key, p))
    ensures forall f :: Extends(Key(env, s, key, p).1, f) ==> Key(env, s, key, p).0 == OutKey(f, key, p)
  {
    if !KeptKey(p, key) {
      ReplayOne(s, VisitKey(key, env.url, p.generic));
    }
  }

  lemma UnknownIsRender(env: Env, s: State, v: Json, p: Position, reason: string)
    requires IsLeaf(v)
    ensures Extends(s, Unknown(env, s, v, p, reason).1)
    ensures Unknown(env, s, v, p, reason) == (Placeholder(v), ReplayAll(s, UnknownVisit(env, v, p, reason)))
  {
    ReplayOne(s, UnknownVisit(env, v, p, reason)[0]);
  }

  lemma IdIsRender(env: Env, s: State, v: Json, p: Position)
    requires IsLeaf(v)
    requires CompleteRule(p.rules).Some? && CompleteRule(p.rules).value.action.ID?
    ensures Extends(s, Id(env, s, v, p).1)
    ensures Id(env, s, v, p).1 == ReplayAll(s, TraceLeaf(env, v, p))
    ensures forall f :: Extends(Id(env, s, v, p).1, f) ==> Id(env, s, v, p).0 == RenderLeaf(env, f, v, p)
  {
    if v == Null || v == Str("") {
    } else if v.Int? || v.Str? {
      ReplayOne(s, VisitId(IdText(v)));
      assert Id(env, s, v, p).1.names == s.names;
    } else {
      UnknownIsRender(env, s, v, p, KEEP_CONSTRAINT);
    }
  }

  lemma NameNumbered(s: State, kind: string, text: string)
    ensures var t := Replay(s, VisitName(kind, text));
            Extends(s, t) && forall f :: Extends(t, f) ==>
              NumberOf(f.NamesOf(kind), text) == Assign(s.NamesOf(kind), text)[text]
  {
    var t := Replay(s, VisitName(kind, text));
    assert t.NamesOf(kind) == Assign(s.NamesOf(kind), text);
    forall f | Extends(t, f)
      ensures NumberOf(f.NamesOf(kind), text) == t.NamesOf(kind)[text]
    {
      assert Within(t.NamesOf(kind), f.NamesOf(kind));
    }
  }

  lemma NameIsRender(env: Env, s: State, rule: Rule, v: Json, p: Position)
    requires IsLeaf(v)
    requires CompleteRule(p.rules) == Some(rule) && rule.action.NAME?
    ensures Extends(s, Name(env, s, rule, v, p).1)
    ensures Name(env, s, rule, v, p).1 == ReplayAll(s, TraceLeaf(env, v, p))
    ensures forall f :: Extends(Name(env, s, rule, v, p).1, f) ==>
            Name(env, s, rule, v, p).0 == RenderLeaf(env, f, v, p)
  {
    if v == Null {
    } else if v.Str? {
      ReplayOne(s, VisitName(KindOf(rule), v.text));
      NameNumbered(s, KindOf(rule), v.text);
    } else {
      UnknownIsRender(env, s, v, p, KEEP_CONSTRAINT);
    }
  }

  lemma LeafIsRender(env: Env, s: State, v: Json, p: Position)
    requires IsLeaf(v)
    ensures Extends(s, Leaf(env, s, v, p).1)
    ensures Leaf(env, s, v, p).1 == ReplayAll(s, TraceLeaf(env, v, p))
    ensures forall f :: Extends(Leaf(env, s, v, p).1, f) ==> Leaf(env, s, v, p).0 == RenderLeaf(env, f, v, p)
  {
    hide CompleteRule, Value;
    match CompleteRule(p.rules)
    case None => UnknownIsRender(env, s, v, p, NO_RULE);
    case Some(rule) =>
      match rule.action
      case KEEP => UnknownIsRender(env, s, v, p, KEEP_CONSTRAINT);
      case ID => IdIsRender(env, s, v, p);
      case NAME => NameIsRender(env, s, rule, v, p);
      case VALUE =>
      case REDACT =>
  }

  /** One body, walked from any state: rendered with any maps that extend the ones it ends with. */
  lemma {:induction false} WalkIsRender(env: Env, s: State, node: Json, p: Position, f: State)
    requires Extends(Walk(env, s, node, p).1, f)
    ensures Extends(s, Walk(env, s, node, p).1)
    ensures Walk(env, s, node, p) == (Render(env, f, node, p), ReplayAll(s, Trace(env, f, node, p)))
    decreases node, 1
  {
    match node
    case List(items) => ItemsAreRender(env, s, items, ItemChild(p), f);
    case Dict(entries) => EntriesAreRender(env, s, entries, p.(dicts := p.dicts + [entries]), f);
    case _ => LeafIsRender(env, s, node, p);
  }

  lemma {:induction false} ItemsAreRender(env: Env, s: State, items: seq<Json>, p: Position, f: State)
    requires Extends(WalkItems(env, s, items, p).1, f)
    ensures Extends(s, WalkItems(env, s, items, p).1)
    ensures WalkItems(env, s, items, p) == (RenderItems(env, f, items, p), ReplayAll(s, TraceItems(env, f, items, p)))
    decreases items, 0
  {
    if items != [] {
      var init, last := items[..|items| - 1], items[|items| - 1];
      var t := WalkItems(env, s, init, p).1;
      var u := WalkItems(env, s, items, p).1;
      WalkIsRender(env, t, last, p, f);
      ExtendsTransitive(t, u, f);
      ItemsAreRender(env, s, init, p, f);
      ExtendsTransitive(s, t, u);
      ReplayConcat(s, TraceItems(env, f, init, p), Trace(env, f, last, p));
    }
  }

  lemma {:induction false} EntriesAreRender(env: Env, s: State, entries: seq<Entry>, p: Position, f: State)
    requires Extends(WalkEntries(env, s, entries, p).1, f)
    ensures Extends(s, WalkEntries(env, s, entries, p).1)
    ensures WalkEntries(env, s, entries, p) ==
            (RenderEntries(env, f, entries, p), ReplayAll(s, TraceEntries(env, f, entries, p)))
    decreases entries, 0
  {
    if entries != [] {
      var init, entry := entries[..|entries| - 1], entries[|entries| - 1];
      var t := WalkEntries(env, s, init, p).1;
      var (outKey, u) := Key(env, t, entry.key, p);
      var child := KeyChild(p, entry.key, outKey);
      var w := Walk(env, u, entry.value, child).1;
      WalkIsRender(env, u, entry.value, child, f);
      ExtendsTransitive(u, w, f);
      KeyIsRender(env, t, entry.key, p);
      assert outKey == OutKey(f, entry.key, p);
      ExtendsTransitive(t, u, f);
      EntriesAreRender(env, s, init, p, f);
      ExtendsTransitive(s, t, u);
      ExtendsTransitive(s, u, w);
      var before := TraceEntries(env, f, init, p);
      ReplayConcat(s, before, TraceKey(env, entry.key, p));
      ReplayConcat(s, before + TraceKey(env, entry.key, p), Trace(env, f, entry.value, child));
    }
  }

  // ---- a whole capture ----

  function RenderAll(f: State, jobs: seq<Job>): seq<Json> {
    if jobs == [] then []
    else
      var job := jobs[|jobs| - 1];
      RenderAll(f, jobs[..|jobs| - 1]) + [Render(job.env, f, job.body, Root(job.policy))]
  }

  function TraceAll(f: State, jobs: seq<Job>): seq<Visit> {
    if jobs == [] then []
    else
      var job := jobs[|jobs| - 1];
      TraceAll(f, jobs[..|jobs| - 1]) + Trace(job.env, f, job.body, Root(job.policy))
  }

  lemma {:induction false} WalkAllIsRender(s: State, jobs: seq<Job>, f: State)
    requires Extends(WalkAll(s, jobs).1, f)
    ensures Extends(s, WalkAll(s, jobs).1)
    ensures WalkAll(s, jobs) == (RenderAll(f, jobs), ReplayAll(s, TraceAll(f, jobs)))
  {
    if jobs != [] {
      var init, job := jobs[..|jobs| - 1], jobs[|jobs| - 1];
      var t := WalkAll(s, init).1;
      var u := WalkAll(s, jobs).1;
      WalkIsRender(job.env, t, job.body, Root(job.policy), f);
      ExtendsTransitive(t, u, f);
      WalkAllIsRender(s, init, f);
      ExtendsTransitive(s, t, u);
      ReplayConcat(s, TraceAll(f, init), Trace(job.env, f, job.body, Root(job.policy)));
    }
  }

  // ---- the numbers of a whole capture ----

  function IdTexts(visits: seq<Visit>): seq<string> {
    if visits == [] then []
    else
      var last := visits[|visits| - 1];
      IdTexts(visits[..|visits| - 1]) + if last.VisitId? then [last.text] else []
  }

  function KeyTexts(visits: seq<Visit>): seq<string> {
    if visits == [] then []
    else
      var last := visits[|visits| - 1];
      KeyTexts(visits[..|visits| - 1]) + if last.VisitKey? then [last.key] else []
  }

  function NameTexts(visits: seq<Visit>, kind: string): seq<string> {
    if visits == [] then []
    else
      var last := visits[|visits| - 1];
      NameTexts(visits[..|visits| - 1], kind) + if last.VisitName? && last.kind == kind then [last.text] else []
  }

  lemma AppendNothing<T>(xs: seq<T>)
    ensures xs + [] == xs
  {
  }

  lemma {:induction false} ReplayNumbers(s: State, visits: seq<Visit>, kind: string)
    ensures ReplayAll(s, visits).ids == AssignAll(s.ids, IdTexts(visits))
    ensures ReplayAll(s, visits).keys == AssignAll(s.keys, KeyTexts(visits))
    ensures ReplayAll(s, visits).NamesOf(kind) == AssignAll(s.NamesOf(kind), NameTexts(visits, kind))
  {
    if visits != [] {
      var init, last := visits[..|visits| - 1], visits[|visits| - 1];
      ReplayNumbers(s, init, kind);
      AppendNothing(IdTexts(init));
      AppendNothing(KeyTexts(init));
      AppendNothing(NameTexts(init, kind));
      match last
      case VisitKey(key, _, _) => AssignSnoc(s.keys, KeyTexts(init), key);
      case VisitId(text) => AssignSnoc(s.ids, IdTexts(init), text);
      case VisitName(_, text) => AssignSnoc(s.NamesOf(kind), NameTexts(init, kind), text);
      case VisitUnknown(_) =>
    }
  }

  /** The maps of a capture are numbered 1..n in the order of the first visits, over all its bodies. */
  ghost predicate NumberedByFirstVisit(f: State, visits: seq<Visit>, kind: string) {
    && Dense(f.ids) && InOrderOfFirstVisit(f.ids, IdTexts(visits))
    && Dense(f.keys) && InOrderOfFirstVisit(f.keys, KeyTexts(visits))
    && Dense(f.NamesOf(kind)) && InOrderOfFirstVisit(f.NamesOf(kind), NameTexts(visits, kind))
  }

  /**
   A capture of any bodies: all of them are rendered with the numbers it ends with, which
   are those of the first visits to the ids, to the renamed keys, and to the names of each kind.
   */
  lemma CaptureIsRender(jobs: seq<Job>, kind: string)
    ensures var (out, f) := WalkAll(FRESH, jobs);
            out == RenderAll(f, jobs) && NumberedByFirstVisit(f, TraceAll(f, jobs), kind)
  {
    var (out, f) := WalkAll(FRESH, jobs);
    WalkAllIsRender(FRESH, jobs, f);
    var visits := TraceAll(f, jobs);
    ReplayNumbers(FRESH, visits, kind);
    NumbersFollowFirstVisits(IdTexts(visits));
    NumbersFollowFirstVisits(KeyTexts(visits));
    NumbersFollowFirstVisits(NameTexts(visits, kind));
  }

  lemma WalkAllSnoc(s: State, jobs: seq<Job>, job: Job)
    ensures var (out, t) := WalkAll(s, jobs);
            var (body, u) := Walk(job.env, t, job.body, Root(job.policy));
            WalkAll(s, jobs + [job]) == (out + [body], u)
  {
    assert (jobs + [job])[..|jobs|] == jobs;
  }

  lemma {:induction false} WalkAllConcat(s: State, jobs: seq<Job>, more: seq<Job>)
    ensures var (out, t) := WalkAll(s, jobs);
            WalkAll(s, jobs + more) == (out + WalkAll(t, more).0, WalkAll(t, more).1)
  {
    hide Walk;
    var (out, t) := WalkAll(s, jobs);
    if more == [] {
      assert jobs + more == jobs;
      AppendNothing(out);
    } else {
      var init, job := more[..|more| - 1], more[|more| - 1];
      WalkAllConcat(s, jobs, init);
      assert more == init + [job];
      assert jobs + more == (jobs + init) + [job];
      WalkAllSnoc(s, jobs + init, job);
      WalkAllSnoc(t, init, job);
      var (body, _) := Walk(job.env, WalkAll(t, init).1, job.body, Root(job.policy));
      Associative(out, WalkAll(t, init).0, [body]);
    }
  }

  /** The bodies written out and the numbers given stay as they are while a capture goes on with other bodies. */
  lemma NumbersNeverChange(s: State, jobs: seq<Job>, more: seq<Job>)
    ensures WalkAll(s, jobs).0 <= WalkAll(s, jobs + more).0
    ensures Extends(WalkAll(s, jobs).1, WalkAll(s, jobs + more).1)
  {
    WalkAllConcat(s, jobs, more);
    var t := WalkAll(s, jobs).1;
    WalkAllIsRender(t, more, WalkAll(t, more).1);
  }
}
