/** What anonymization cannot see: leaves it redacts may be any others of the same type. */
module AnonymizeBlind {
  import opened Json
  import opened Policy
  import opened AnonymizeWalk

  /**
   A leaf redacted whatever its value: no rule, a rule that redacts, a keep constraint neither
   value meets, a type its action does not take, or a data value without descriptors.
   */
  predicate Redacted(env: Env, rules: seq<(Rule, nat)>, a: Json, b: Json)
    requires IsLeaf(a) && IsLeaf(b) && TypeOf(a) == TypeOf(b)
  {
    match CompleteRule(rules)
    case None => true
    case Some(rule) =>
      match rule.action
      case REDACT => true
      case KEEP => rule.keep.None? || (!Passes(env, a, rule.keep.value) && !Passes(env, b, rule.keep.value))
      case ID => a.Bool? || a.Float?
      case NAME => !a.Str?
      case VALUE => !a.Bool?
  }

  /** The bodies differ only in redacted leaves. */
  predicate Similar(env: Env, a: Json, b: Json, rules: seq<(Rule, nat)>) {
    match a
    case List(items) =>
      b.List? && |items| == |b.items|
      && forall i :: 0 <= i < |items| ==> Similar(env, items[i], b.items[i], FollowRules(rules, LIST_ITEM, ""))
    case Dict(entries) =>
      b.Dict? && |entries| == |b.entries|
      && forall i :: 0 <= i < |entries| ==>
           var key := entries[i].key;
           key == b.entries[i].key && Similar(env, entries[i].value, b.entries[i].value, FollowRules(rules, key, key))
    case _ => a == b || (IsLeaf(b) && TypeOf(a) == TypeOf(b) && Redacted(env, rules, a, b))
  }

  /** Positions apart only in the objects passed on the way. */
  predicate SamePlace(p: Position, q: Position) {
    p == q.(dicts := p.dicts)
  }

  lemma KeyIsBlind(env: Env, s: State, key: string, p: Position, q: Position)
    requires SamePlace(p, q)
    ensures Key(env, s, key, p) == Key(env, s, key, q)
  {
    assert forall text :: Declared(p, text) == Declared(q, text);
  }

  lemma ValueIsBlind(env: Env, a: Json, b: Json, p: Position, q: Position)
    requires env.descriptors == map[] && IsLeaf(a) && IsLeaf(b) && TypeOf(a) == TypeOf(b)
    requires a == b || !a.Bool?
    ensures Value(env, a, p) == Value(env, b, q)
  {
    assert Get([], "min").None? && Get([], "enum_values").None?;
  }

  /** With descriptors or not, of a data value only bools, nulls and listed enum texts can be seen. */
  lemma ValueShowsOnlyEnums(env: Env, a: Json, b: Json, p: Position)
    requires IsLeaf(a) && IsLeaf(b)
    ensures a.Int? && b.Int? ==> Value(env, a, p) == Value(env, b, p)
    ensures a.Float? && b.Float? ==> Value(env, a, p) == Value(env, b, p)
    ensures a.Str? && b.Str? && !Enumerated(env, a, p) && !Enumerated(env, b, p) ==>
            Value(env, a, p) == Value(env, b, p)
    ensures a.Str? && Enumerated(env, a, p) ==> Value(env, a, p) == a && env.fullmatch(ENUM_VALUE.pattern.value, a.text)
  {
    var key := DescriptorKey(env, p.dicts);
    var descriptor := if key in env.descriptors then env.descriptors[key] else [];
    var minimum := Get(descriptor, "min");
    var listed := Get(descriptor, "enum_values");
  }

  /** The text is one of the enum values of its descriptor, and of their form. */
  predicate Enumerated(env: Env, v: Json, p: Position)
    requires v.Str?
  {
    var key := DescriptorKey(env, p.dicts);
    key in env.descriptors &&
    var listed := Get(env.descriptors[key], "enum_values");
    listed.Some? && listed.value.List? && v in listed.value.items && Passes(env, v, ENUM_VALUE)
  }

  lemma NameIsBlind(env: Env, s: State, rule: Rule, a: Json, b: Json, p: Position, q: Position)
    requires SamePlace(p, q) && IsLeaf(a) && IsLeaf(b) && TypeOf(a) == TypeOf(b)
    requires a == b || !a.Str?
    ensures Name(env, s, rule, a, p) == Name(env, s, rule, b, q)
  {
  }

  lemma LeafIsBlind(env: Env, s: State, a: Json, b: Json, p: Position, q: Position)
    requires env.descriptors == map[] && SamePlace(p, q) && IsLeaf(a) && IsLeaf(b) && TypeOf(a) == TypeOf(b)
    requires a == b || Redacted(env, p.rules, a, b)
    ensures Leaf(env, s, a, p) == Leaf(env, s, b, q)
  {
    match CompleteRule(p.rules)
    case None =>
    case Some(rule) =>
      match rule.action
      case VALUE => ValueIsBlind(env, a, b, p, q);
      case ID =>
      case NAME => NameIsBlind(env, s, rule, a, b, p, q);
      case KEEP =>
      case REDACT =>
  }

  /**
   For a url without descriptors, bodies that differ only in redacted leaves are walked alike:
   the same body comes out, and the same numbers and report.
   */
  lemma {:induction false} WalkIsBlind(env: Env, s: State, a: Json, b: Json, p: Position, q: Position)
    requires env.descriptors == map[] && SamePlace(p, q) && Similar(env, a, b, p.rules)
    ensures Walk(env, s, a, p) == Walk(env, s, b, q)
    decreases a, 1
  {
    match a
    case List(items) => ItemsAreBlind(env, s, items, b.items, ItemChild(p), ItemChild(q));
    case Dict(entries) =>
      EntriesAreBlind(env, s, entries, b.entries, p.(dicts := p.dicts + [entries]), q.(dicts := q.dicts + [b.entries]));
    case _ => LeafIsBlind(env, s, a, b, p, q);
  }

  lemma {:induction false} ItemsAreBlind(env: Env, s: State, a: seq<Json>, b: seq<Json>, p: Position, q: Position)
    requires env.descriptors == map[] && SamePlace(p, q) && |a| == |b|
    requires forall i :: 0 <= i < |a| ==> Similar(env, a[i], b[i], p.rules)
    ensures WalkItems(env, s, a, p) == WalkItems(env, s, b, q)
    decreases a, 0
  {
    if a != [] {
      var n := |a| - 1;
      ItemsAreBlind(env, s, a[..n], b[..n], p, q);
      WalkIsBlind(env, WalkItems(env, s, a[..n], p).1, a[n], b[n], p, q);
    }
  }

  lemma {:induction false} EntriesAreBlind(env: Env, s: State, a: seq<Entry>, b: seq<Entry>, p: Position, q: Position)
    requires env.descriptors == map[] && SamePlace(p, q) && |a| == |b|
    requires forall i :: 0 <= i < |a| ==>
               a[i].key == b[i].key && Similar(env, a[i].value, b[i].value, FollowRules(p.rules, a[i].key, a[i].key))
    ensures WalkEntries(env, s, a, p) == WalkEntries(env, s, b, q)
    decreases a, 0
  {
    if a != [] {
      var n := |a| - 1;
      EntriesAreBlind(env, s, a[..n], b[..n], p, q);
      var t := WalkEntries(env, s, a[..n], p).1;
      KeyIsBlind(env, t, a[n].key, p, q);
      var (outKey, u) := Key(env, t, a[n].key, p);
      WalkIsBlind(env, u, a[n].value, b[n].value, KeyChild(p, a[n].key, outKey), KeyChild(q, a[n].key, outKey));
    }
  }

  /** The same url and policy, and bodies that are equal, or similar where no descriptors are used. */
  ghost predicate SimilarJob(a: Job, b: Job) {
    a == b.(body := a.body)
    && (a.body == b.body || (a.env.descriptors == map[] && Similar(a.env, a.body, b.body, Root(a.policy).rules)))
  }

  lemma {:induction false} CaptureIsBlind(s: State, a: seq<Job>, b: seq<Job>)
    requires |a| == |b| && forall i :: 0 <= i < |a| ==> SimilarJob(a[i], b[i])
    ensures WalkAll(s, a) == WalkAll(s, b)
  {
    if a != [] {
      var n := |a| - 1;
      CaptureIsBlind(s, a[..n], b[..n]);
      if a[n].body != b[n].body {
        var p := Root(a[n].policy);
        WalkIsBlind(a[n].env, WalkAll(s, a[..n]).1, a[n].body, b[n].body, p, p);
      }
    }
  }
}
