/** What the anonymizer makes of each key and leaf, said by the kinds of values and the fields of the rules. */
module AnonymizeOutcomes {
  import opened Collections
  import opened Json
  import opened Policy
  import opened AnonymizeWalk
  import opened DescriptorIndex
  import Text

  // ---- segments and identifiers ----

  /** A segment is a key, or a `*` and what the key ends with after at least one character. */
  ghost predicate SegmentNames(segment: string, key: string) {
    if segment != "" && segment[0] == '*' then exists n :: 1 <= n <= |key| && key[n..] == segment[1..]
    else segment == key
  }

  lemma SegmentMatchesIff(segment: string, key: string)
    ensures SegmentMatches(segment, key) <==> SegmentNames(segment, key)
  {
    if segment != "" && segment[0] == '*' {
      var suffix := segment[1..];
      if SegmentMatches(segment, key) {
        var n := |key| - |suffix|;
        assert 1 <= n <= |key| && key[n..] == suffix;
      }
      if n :| 1 <= n <= |key| && key[n..] == suffix {
        assert |suffix| == |key| - n;
      }
    }
  }

  const UPPER := "ABCDEFGHIJKLMNOPQRSTUVWXYZ"
  const LOWER := "abcdefghijklmnopqrstuvwxyz"
  const DIGITS := "0123456789"

  lemma UpperAre(c: char)
    ensures 'A' <= c <= 'Z' <==> c in UPPER
  {
    assert forall i :: 0 <= i < 26 ==> UPPER[i] as int == 'A' as int + i;
    if 'A' <= c <= 'Z' {
      assert UPPER[c as int - 'A' as int] == c;
    }
  }

  lemma LowerAre(c: char)
    ensures 'a' <= c <= 'z' <==> c in LOWER
  {
    assert forall i :: 0 <= i < 26 ==> LOWER[i] as int == 'a' as int + i;
    if 'a' <= c <= 'z' {
      assert LOWER[c as int - 'a' as int] == c;
    }
  }

  lemma DigitsAre(c: char)
    ensures '0' <= c <= '9' <==> c in DIGITS
  {
    assert forall i :: 0 <= i < 10 ==> DIGITS[i] as int == '0' as int + i;
    if '0' <= c <= '9' {
      assert DIGITS[c as int - '0' as int] == c;
    }
  }

  predicate IsLetter(c: char) {
    c in UPPER || c in LOWER || c == '_'
  }

  /** At most 64 letters, digits and underscores, the first no digit. */
  predicate IsPlainName(key: string) {
    1 <= |key| <= 64 && IsLetter(key[0]) && forall i :: 0 <= i < |key| ==> IsLetter(key[i]) || key[i] in DIGITS
  }

  lemma IdentifierIff(key: string)
    ensures IsIdentifier(key) <==> IsPlainName(key)
  {
    hide IsLetter, IdentifierStart;
    forall c
      ensures IdentifierStart(c) <==> IsLetter(c)
      ensures '0' <= c <= '9' <==> c in DIGITS
    {
      LettersAre(c);
      DigitsAre(c);
    }
  }

  lemma LettersAre(c: char)
    ensures IdentifierStart(c) <==> IsLetter(c)
  {
    UpperAre(c);
    LowerAre(c);
  }

  // ---- keys ----

  /** The next segment of an active rule names the key, other than as any key. */
  ghost predicate NamedByRule(p: Position, key: string) {
    exists i :: 0 <= i < |p.rules| && NamedBy(p.rules[i], key)
  }

  ghost predicate NamedBy(active: (Rule, nat), key: string) {
    var segments := ParsePath(active.0.path);
    active.1 < |segments| &&
    var segment := segments[active.1];
    segment != "*" && segment != "[]" && SegmentNames(segment, key)
  }

  ghost predicate StaysAsIs(p: Position, key: string) {
    NamedByRule(p, key) || (!p.hidden && IsPlainName(key))
  }

  lemma KeptIff(p: Position, key: string)
    ensures KeptKey(p, key) <==> StaysAsIs(p, key)
  {
    hide SegmentMatches, SegmentNames, ParsePath;
    IdentifierIff(key);
    forall i | 0 <= i < |p.rules|
      ensures DeclaredBy(p.rules[i], key) <==> NamedBy(p.rules[i], key)
    {
      var segments := ParsePath(p.rules[i].0.path);
      if p.rules[i].1 < |segments| {
        SegmentMatchesIff(segments[p.rules[i].1], key);
      }
    }
  }

  /** The report has the entry at its end, unless it had it. */
  predicate Adds<T(==)>(before: seq<T>, after: seq<T>, x: T) {
    if x in before then after == before else after == before + [x]
  }

  /** A key stays as it is, unreported, or becomes `<key-n>`, n being its number, and is reported. */
  lemma KeyOutcome(env: Env, s: State, key: string, p: Position)
    ensures var (outKey, t) := Key(env, s, key, p);
            if StaysAsIs(p, key) then outKey == key && t == s
            else
              && key in t.keys && outKey == "<key-" + Text.Decimal(t.keys[key]) + ">"
              && t == s.(keys := t.keys, renamed := t.renamed)
              && Adds(s.renamed, t.renamed, RenamedKey(env.url, Generic(p.generic + [outKey])))
  {
    KeptIff(p, key);
  }

  // ---- leaves ----

  predicate IsOfType(v: Json, kind: LeafType) {
    match kind
    case NullType => v.Null?
    case BoolType => v.Bool?
    case IntType => v.Int?
    case FloatType => v.Float?
    case StrType => v.Str?
  }

  /** A value of one of the types, and a string that matches in full when there is a pattern. */
  predicate Fits(env: Env, v: Json, keep: Keep) {
    && (exists kind :: kind in keep.types && IsOfType(v, kind))
    && (keep.pattern.Some? ==> v.Str? && env.fullmatch(keep.pattern.value, v.text))
  }

  lemma PassesIff(env: Env, v: Json, keep: Keep)
    requires IsLeaf(v)
    ensures Passes(env, v, keep) <==> Fits(env, v, keep)
  {
    assert IsOfType(v, TypeOf(v));
  }

  function Blank(v: Json): Json {
    match v
    case Null => Null
    case Bool(_) => Bool(false)
    case Int(_) => Int(0)
    case Float(_) => Float(0.0)
    case Str(_) => Str("<redacted>")
    case _ => v
  }

  function RuleKind(rule: Rule): string {
    match rule.kind
    case None => "name"
    case Some(kind) => if kind == "" then "name" else kind
  }

  /** Why the leaf is reported, if it is. */
  function ReasonFor(env: Env, v: Json, p: Position): Option<string> {
    match CompleteRule(p.rules)
    case None => Some("no-rule")
    case Some(rule) =>
      match rule.action
      case KEEP => if rule.keep.Some? && Fits(env, v, rule.keep.value) then None else Some("keep-constraint")
      case ID => if v.Bool? || v.Float? then Some("keep-constraint") else None
      case NAME => if v.Null? || v.Str? then None else Some("keep-constraint")
      case _ => None
  }

  /** What the leaf becomes, the numbers being those of `f`. */
  ghost predicate IsOutcome(env: Env, f: State, v: Json, p: Position, out: Json) {
    if ReasonFor(env, v, p).Some? then out == Blank(v)
    else
      var rule := CompleteRule(p.rules).value;
      match rule.action
      case KEEP => out == v
      case ID =>
        (match v
         case Int(n) => Text.IntText(n) in f.ids && out == Int(f.ids[Text.IntText(n)])
         case Str(text) =>
           if text == "" then out == v else text in f.ids && out == Str(Text.Decimal(f.ids[text]))
         case _ => out == v)
      case NAME =>
        (match v
         case Str(text) =>
           var kind := RuleKind(rule);
           kind in f.names && text in f.names[kind]
           && out == Str("<name:" + kind + ":" + Text.Decimal(f.names[kind][text]) + ">")
         case _ => out == v)
      case VALUE => IsValueOutcome(env, v, p, out)
      case REDACT => out == Blank(v)
  }

  // ---- data values ----

  /** The descriptor of a data value: by the ids of the objects around its own, and its name. */
  ghost predicate Describes(env: Env, dicts: seq<seq<Entry>>, key: seq<string>) {
    var around := if dicts == [] then [[]] else dicts;
    var n := |around| - 1;
    && |key| == |around| && key in env.descriptors
    && (forall i :: 0 <= i < n ==> key[i] == env.show(GetOrNull(around[i], "id")))
    && key[n] == env.show(GetOrNull(around[n], "name"))
  }

  /** What the descriptor of the value says of `field`, if there is one that does. */
  ghost predicate Says(env: Env, dicts: seq<seq<Entry>>, field: string, value: Json) {
    exists key :: Describes(env, dicts, key) && Get(env.descriptors[key], field) == Some(value)
  }

  /** `n` is `r` without its decimals. */
  predicate IsTruncated(n: int, r: real) {
    if r >= 0.0 then n as real <= r < n as real + 1.0 else n as real - 1.0 < r <= n as real
  }

  /** Bools and nulls stay, numbers become the minimum described, texts stay when described and safe. */
  ghost predicate IsValueOutcome(env: Env, v: Json, p: Position, out: Json) {
    match v
    case Int(_) => IsMinimum(env, p, out, true)
    case Float(_) => IsMinimum(env, p, out, false)
    case Str(text) =>
      if exists items :: Says(env, p.dicts, "enum_values", List(items)) then
        out == if (exists items :: Says(env, p.dicts, "enum_values", List(items)) && v in items)
                  && env.fullmatch("[A-Za-z0-9_.-]{1,64}", text)
               then v else Str("<not-in-enum>")
      else out == Str("<redacted>")
    case _ => out == v
  }

  /** The described minimum, as an int or a float, zero when none is. */
  ghost predicate IsMinimum(env: Env, p: Position, out: Json, int_: bool) {
    && (if int_ then out.Int? else out.Float?)
    && (forall n :: Says(env, p.dicts, "min", Int(n)) ==> out == if int_ then Int(n) else Float(n as real))
    && (forall r :: Says(env, p.dicts, "min", Float(r)) ==>
          if int_ then IsTruncated(out.number, r) else out == Float(r))
    && ((forall n :: !Says(env, p.dicts, "min", Int(n))) && (forall r :: !Says(env, p.dicts, "min", Float(r))) ==>
          out == if int_ then Int(0) else Float(0.0))
  }

  lemma DescriptorIs(env: Env, dicts: seq<seq<Entry>>, key: seq<string>)
    ensures Describes(env, dicts, key) <==> key in env.descriptors && key == DescriptorKey(env, dicts)
  {
    var own := DescriptorKey(env, dicts);
    if dicts != [] {
      assert |own| == |dicts|;
      assert forall i :: 0 <= i < |dicts| - 1 ==> own[i] == env.show(GetOrNull(dicts[i], "id"));
      assert own[|own| - 1] == env.show(GetOrNull(dicts[|dicts| - 1], "name"));
    }
  }

  lemma SaysIff(env: Env, dicts: seq<seq<Entry>>, field: string, value: Json)
    ensures var key := DescriptorKey(env, dicts);
            Says(env, dicts, field, value) <==>
            key in env.descriptors && Get(env.descriptors[key], field) == Some(value)
  {
    hide DescriptorKey, Describes;
    DescriptorIs(env, dicts, DescriptorKey(env, dicts));
    forall key
      ensures Describes(env, dicts, key) <==> key in env.descriptors && key == DescriptorKey(env, dicts)
    {
      DescriptorIs(env, dicts, key);
    }
  }

  lemma ValueOutcome(env: Env, v: Json, p: Position)
    requires IsLeaf(v)
    ensures IsValueOutcome(env, v, p, Value(env, v, p))
  {
    hide DescriptorKey, Says;
    forall field, value
      ensures var key := DescriptorKey(env, p.dicts);
              Says(env, p.dicts, field, value) <==>
              key in env.descriptors && Get(env.descriptors[key], field) == Some(value)
    {
      SaysIff(env, p.dicts, field, value);
    }
    if v.Str? {
      PassesIff(env, v, ENUM_VALUE);
    }
  }

  // ---- one leaf ----

  /** The leaf is reported, at its path, with its type and the reason. */
  ghost predicate IsReported(env: Env, s: State, t: State, v: Json, p: Position, reason: string) {
    exists leaf: UnknownLeaf ::
      && leaf.url == env.url && leaf.path == Generic(p.generic) && IsOfType(v, leaf.jsonType) && leaf.reason == reason
      && Adds(s.unknown, t.unknown, leaf)
  }

  lemma UnknownOutcome(env: Env, s: State, v: Json, p: Position, reason: string)
    requires IsLeaf(v)
    ensures var (out, t) := Unknown(env, s, v, p, reason);
            out == Blank(v) && t == s.(unknown := t.unknown) && IsReported(env, s, t, v, p, reason)
  {
    hide Generic;
    var leaf := UnknownLeaf(env.url, Generic(p.generic), TypeOf(v), reason);
    assert IsOfType(v, leaf.jsonType) && Adds(s.unknown, Unknown(env, s, v, p, reason).1.unknown, leaf);
  }

  lemma IdOutcome(env: Env, s: State, v: Json, p: Position)
    requires IsLeaf(v) && CompleteRule(p.rules).Some? && CompleteRule(p.rules).value.action.ID? && !v.Bool? && !v.Float?
    ensures var (out, t) := Id(env, s, v, p);
            IsOutcome(env, t, v, p, out) && t == s.(ids := t.ids)
  {
    hide CompleteRule;
  }

  lemma NameOutcome(env: Env, s: State, v: Json, p: Position)
    requires IsLeaf(v) && CompleteRule(p.rules).Some? && CompleteRule(p.rules).value.action.NAME? && (v.Null? || v.Str?)
    ensures var (out, t) := Name(env, s, CompleteRule(p.rules).value, v, p);
            IsOutcome(env, t, v, p, out) && t == s.(names := t.names)
  {
    hide CompleteRule;
  }

  /**
   A leaf becomes what its complete rule says; when no rule or the rule does not take it, it is
   blanked and reported, and otherwise the report is as it was.
   */
  lemma LeafOutcome(env: Env, s: State, v: Json, p: Position)
    requires IsLeaf(v)
    ensures var (out, t) := Walk(env, s, v, p);
            && IsOutcome(env, t, v, p, out)
            && t == s.(ids := t.ids, names := t.names, unknown := t.unknown)
            && match ReasonFor(env, v, p)
               case None => t.unknown == s.unknown
               case Some(reason) => t == s.(unknown := t.unknown) && IsReported(env, s, t, v, p, reason)
  {
    hide Value, IsValueOutcome, Passes, Fits, Generic, IsReported, CompleteRule, Unknown, Id, Name;
    var rule := CompleteRule(p.rules);
    if ReasonFor(env, v, p).Some? {
      UnknownOutcome(env, s, v, p, ReasonFor(env, v, p).value);
    }
    if rule.Some? {
      match rule.value.action
      case KEEP =>
        if rule.value.keep.Some? {
          PassesIff(env, v, rule.value.keep.value);
        }
      case ID =>
        if v.Bool? || v.Float? {
          IdUnknown(env, s, v, p);
        } else {
          IdOutcome(env, s, v, p);
        }
      case NAME =>
        if v.Null? || v.Str? {
          NameOutcome(env, s, v, p);
        } else {
          NameUnknown(env, s, rule.value, v, p);
        }
      case VALUE => ValueOutcome(env, v, p);
      case REDACT => BlankIs(v);
    }
  }

  lemma IdUnknown(env: Env, s: State, v: Json, p: Position)
    requires v.Bool? || v.Float?
    ensures Id(env, s, v, p) == Unknown(env, s, v, p, "keep-constraint")
  {
  }

  lemma NameUnknown(env: Env, s: State, rule: Rule, v: Json, p: Position)
    requires IsLeaf(v) && !v.Null? && !v.Str?
    ensures Name(env, s, rule, v, p) == Unknown(env, s, v, p, "keep-constraint")
  {
  }

  lemma BlankIs(v: Json)
    requires IsLeaf(v)
    ensures Placeholder(v) == Blank(v)
  {
  }
}
