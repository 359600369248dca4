/**
 The anonymization of a body as a function of the state of the capture
 (tydomio/capture/anonymize.py): position of the walk, keys, leaves, and the maps it grows.
 Regular expressions and `str` of composite values are parameters.
 */
module AnonymizeWalk {
  import opened Collections
  import opened Json
  import opened Policy
  import Text

  datatype Action = KEEP | ID | NAME | REDACT | VALUE

  /** Constraint a kept value must match: its types, and a pattern for a string. */
  datatype Keep = Keep(types: set<LeafType>, pattern: Option<string>)

  datatype Rule = Rule(path: string, action: Action, keep: Option<Keep>, kind: Option<string>)

  datatype EndpointPolicy = EndpointPolicy(rules: seq<Rule>, opaquePaths: seq<string>)

  function SegmentsOf(rule: Rule): seq<string> {
    ParsePath(rule.path)
  }

  const REDACTED := "<redacted>"
  const NOT_IN_ENUM := "<not-in-enum>"
  const NO_RULE := "no-rule"
  const KEEP_CONSTRAINT := "keep-constraint"
  const ENUM_VALUE := Keep({StrType}, Some("[A-Za-z0-9_.-]{1,64}"))

  // ---- positions ----

  /** Where the walk is: active rules with their next segment, opaque state (`hidden`). */
  datatype Position = Position(
    rules: seq<(Rule, nat)>,
    opaquePaths: seq<(seq<string>, nat)>,
    hidden: bool,
    generic: seq<string>,
    dicts: seq<seq<Entry>>)

  predicate Follows(segments: seq<string>, position: nat, segment: string, key: string) {
    position < |segments| &&
    if segment == LIST_ITEM then segments[position] == LIST_ITEM
    else segments[position] != LIST_ITEM && SegmentMatches(segments[position], key)
  }

  function FollowRules(rules: seq<(Rule, nat)>, segment: string, key: string): seq<(Rule, nat)> {
    if rules == [] then []
    else
      var (rule, position) := rules[|rules| - 1];
      FollowRules(rules[..|rules| - 1], segment, key) +
      if Follows(SegmentsOf(rule), position, segment, key) then [(rule, position + 1)] else []
  }

  function FollowPaths(paths: seq<(seq<string>, nat)>, segment: string, key: string): seq<(seq<string>, nat)> {
    if paths == [] then []
    else
      var (segments, position) := paths[|paths| - 1];
      FollowPaths(paths[..|paths| - 1], segment, key) +
      if Follows(segments, position, segment, key) then [(segments, position + 1)] else []
  }

  /** `_Position.child` */
  function Child(p: Position, segment: string, key: string, outKey: string): Position {
    var paths := FollowPaths(p.opaquePaths, segment, key);
    p.(
      rules := FollowRules(p.rules, segment, key),
      opaquePaths := paths,
      hidden := p.hidden || exists i :: 0 <= i < |paths| && paths[i].1 == |paths[i].0|,
      generic := p.generic + [outKey])
  }

  function ItemChild(p: Position): Position {
    Child(p, LIST_ITEM, "", LIST_ITEM)
  }

  function KeyChild(p: Position, key: string, outKey: string): Position {
    Child(p, key, key, outKey)
  }

  /** `complete_rule`: the first active rule whose path ends here. */
  function CompleteRule(rules: seq<(Rule, nat)>): Option<Rule> {
    if rules == [] then None
    else if rules[0].1 == |SegmentsOf(rules[0].0)| then Some(rules[0].0)
    else CompleteRule(rules[1..])
  }

  function Root(policy: EndpointPolicy): Position {
    Position(
      seq(|policy.rules|, i requires 0 <= i < |policy.rules| => (policy.rules[i], 0)),
      seq(|policy.opaquePaths|, i requires 0 <= i < |policy.opaquePaths| => (ParsePath(policy.opaquePaths[i]), 0)),
      false, [], [])
  }

  // ---- leaves ----

  function Placeholder(v: Json): Json
    requires IsLeaf(v)
  {
    match v
    case Bool(_) => Bool(false)
    case Int(_) => Int(0)
    case Float(_) => Float(0.0)
    case Str(_) => Str(REDACTED)
    case Null => Null
  }

  type Descriptors = map<seq<string>, seq<Entry>>

  /** The url being anonymized, its descriptors, and the functions left abstract. */
  datatype Env = Env(
    url: string,
    descriptors: Descriptors,
    show: Json -> string,                  // str
    fullmatch: (string, string) -> bool)   // re.fullmatch(pattern, text)

  predicate Passes(env: Env, v: Json, keep: Keep)
    requires IsLeaf(v)
  {
    TypeOf(v) in keep.types && (keep.pattern.None? || (v.Str? && env.fullmatch(keep.pattern.value, v.text)))
  }

  function Concat(parts: seq<string>): string {
    if parts == [] then ""
    else
      var part := parts[|parts| - 1];
      Concat(parts[..|parts| - 1]) + if part == LIST_ITEM then part else "." + part
  }

  /** `_generic` */
  function Generic(parts: seq<string>): string {
    var text := Concat(parts);
    if text != "" && text[0] == '.' then text[1..] else text
  }

  predicate IdentifierStart(c: char) {
    'A' <= c <= 'Z' || 'a' <= c <= 'z' || c == '_'
  }

  /** `[A-Za-z_][A-Za-z0-9_]{0,63}` */
  predicate IsIdentifier(key: string) {
    && 1 <= |key| <= 64
    && IdentifierStart(key[0])
    && forall i :: 0 <= i < |key| ==> IdentifierStart(key[i]) || '0' <= key[i] <= '9'
  }

  /** Named by an active rule, or matched by its `*suffix` segment. */
  predicate Declared(p: Position, key: string) {
    exists i :: 0 <= i < |p.rules| && DeclaredBy(p.rules[i], key)
  }

  predicate DeclaredBy(active: (Rule, nat), key: string) {
    var segments := SegmentsOf(active.0);
    active.1 < |segments| && segments[active.1] != ANY_KEY && segments[active.1] != LIST_ITEM
    && SegmentMatches(segments[active.1], key)
  }

  predicate KeptKey(p: Position, key: string) {
    Declared(p, key) || (!p.hidden && IsIdentifier(key))
  }

  function KeyText(n: nat): string {
    "<key-" + Text.Decimal(n) + ">"
  }

  /** How an int or string id prints. */
  function IdText(v: Json): string
    requires v.Int? || v.Str?
  {
    if v.Int? then Text.IntText(v.number) else v.text
  }

  // ---- the state of a capture ----

  datatype UnknownLeaf = UnknownLeaf(url: string, path: string, jsonType: LeafType, reason: string)
  datatype RenamedKey = RenamedKey(url: string, path: string)

  /** `setdefault(key, len + 1)` */
  function Assign(numbers: map<string, nat>, key: string): map<string, nat> {
    if key in numbers then numbers else numbers[key := |numbers| + 1]
  }

  function AddOnce<T(==)>(xs: seq<T>, x: T): seq<T> {
    if x in xs then xs else xs + [x]
  }

  datatype State = State(
    ids: map<string, nat>,
    keys: map<string, nat>,
    names: map<string, map<string, nat>>,
    unknown: seq<UnknownLeaf>,
    renamed: seq<RenamedKey>)
  {
    function NamesOf(kind: string): map<string, nat> {
      if kind in names then names[kind] else map[]
    }
  }

  const FRESH := State(map[], map[], map[], [], [])

  /** `_key`: the output key and the new state. */
  function Key(env: Env, s: State, key: string, p: Position): (string, State) {
    if KeptKey(p, key) then (key, s)
    else
      var keys := Assign(s.keys, key);
      var text := KeyText(keys[key]);
      (text, s.(keys := keys, renamed := AddOnce(s.renamed, RenamedKey(env.url, Generic(p.generic + [text])))))
  }

  function Unknown(env: Env, s: State, v: Json, p: Position, reason: string): (Json, State)
    requires IsLeaf(v)
  {
    (Placeholder(v), s.(unknown := AddOnce(s.unknown, UnknownLeaf(env.url, Generic(p.generic), TypeOf(v), reason))))
  }

  function Id(env: Env, s: State, v: Json, p: Position): (Json, State)
    requires IsLeaf(v)
  {
    if v == Null || v == Str("") then (v, s)
    else if !v.Int? && !v.Str? then Unknown(env, s, v, p, KEEP_CONSTRAINT)
    else
      var ids := Assign(s.ids, IdText(v));
      var number := ids[IdText(v)];
      (if v.Int? then Int(number) else Str(Text.IntText(number)), s.(ids := ids))
  }

  function KindOf(rule: Rule): string {
    if rule.kind.Some? && rule.kind.value != "" then rule.kind.value else "name"
  }

  function NameText(kind: string, number: nat): string {
    "<name:" + kind + ":" + Text.IntText(number) + ">"
  }

  function Name(env: Env, s: State, rule: Rule, v: Json, p: Position): (Json, State)
    requires IsLeaf(v)
  {
    if v == Null then (v, s)
    else if !v.Str? then Unknown(env, s, v, p, KEEP_CONSTRAINT)
    else
      var kind := KindOf(rule);
      var names := Assign(s.NamesOf(kind), v.text);
      (Str(NameText(kind, names[v.text])), s.(names := s.names[kind := names]))
  }

  function Truncate(r: real): int {
    if r >= 0.0 then r.Floor else -((-r).Floor)
  }

  function Shown(env: Env, entries: seq<Entry>, key: string): string {
    var value := Get(entries, key);
    env.show(if value.Some? then value.value else Null)
  }

  /** The key of the descriptor of a value: the ids of the levels above its item, and its name. */
  function DescriptorKey(env: Env, dicts: seq<seq<Entry>>): seq<string> {
    if dicts == [] then [Shown(env, [], "name")]
    else
      var n := |dicts| - 1;
      seq(n, i requires 0 <= i < n => Shown(env, dicts[i], "id")) + [Shown(env, dicts[n], "name")]
  }

  function Value(env: Env, v: Json, p: Position): Json
    requires IsLeaf(v)
  {
    if v.Null? || v.Bool? then v
    else
      var key := DescriptorKey(env, p.dicts);
      var descriptor := if key in env.descriptors then env.descriptors[key] else [];
      if v.Int? || v.Float? then
        match Get(descriptor, "min")
        case Some(Int(n)) => if v.Float? then Float(n as real) else Int(n)
        case Some(Float(r)) => if v.Float? then Float(r) else Int(Truncate(r))
        case _ => Placeholder(v)
      else
        match Get(descriptor, "enum_values")
        case Some(List(items)) => if v in items && Passes(env, v, ENUM_VALUE) then v else Str(NOT_IN_ENUM)
        case _ => Str(REDACTED)
  }

  function Leaf(env: Env, s: State, v: Json, p: Position): (Json, State)
    requires IsLeaf(v)
  {
    match CompleteRule(p.rules)
    case None => Unknown(env, s, v, p, NO_RULE)
    case Some(rule) =>
      match rule.action
      case KEEP =>
        if rule.keep.Some? && Passes(env, v, rule.keep.value) then (v, s)
        else Unknown(env, s, v, p, KEEP_CONSTRAINT)
      case ID => Id(env, s, v, p)
      case NAME => Name(env, s, rule, v, p)
      case VALUE => (Value(env, v, p), s)
      case REDACT => (Placeholder(v), s)
  }

  // ---- the walk ----

  /** `_node` */
  function Walk(env: Env, s: State, node: Json, p: Position): (Json, State)
    decreases node, 1
  {
    match node
    case List(items) =>
      var (out, t) := WalkItems(env, s, items, ItemChild(p));
      (List(out), t)
    case Dict(entries) =>
      var (out, t) := WalkEntries(env, s, entries, p.(dicts := p.dicts + [entries]));
      (Dict(out), t)
    case _ => Leaf(env, s, node, p)
  }

  /** The items of a list, at the position of an item. */
  function WalkItems(env: Env, s: State, items: seq<Json>, p: Position): (seq<Json>, State)
    decreases items, 0
  {
    if items == [] then ([], s)
    else
      var (out, t) := WalkItems(env, s, items[..|items| - 1], p);
      var (last, u) := Walk(env, t, items[|items| - 1], p);
      (out + [last], u)
  }

  function WalkEntries(env: Env, s: State, entries: seq<Entry>, p: Position): (seq<Entry>, State)
    decreases entries, 0
  {
    if entries == [] then ([], s)
    else
      var (out, t) := WalkEntries(env, s, entries[..|entries| - 1], p);
      var entry := entries[|entries| - 1];
      var (outKey, u) := Key(env, t, entry.key, p);
      var (value, w) := Walk(env, u, entry.value, KeyChild(p, entry.key, outKey));
      (Put(out, outKey, value), w)
  }

  /** The bodies of a capture, in order, each with its url and policy. */
  datatype Job = Job(env: Env, body: Json, policy: EndpointPolicy)

  function WalkAll(s: State, jobs: seq<Job>): (seq<Json>, State) {
    if jobs == [] then ([], s)
    else
      var (out, t) := WalkAll(s, jobs[..|jobs| - 1]);
      var job := jobs[|jobs| - 1];
      var (body, u) := Walk(job.env, t, job.body, Root(job.policy));
      (out + [body], u)
  }
}
