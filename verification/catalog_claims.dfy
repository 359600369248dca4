/**
 What a catalog says, claim by claim: adding claims one by one is conflict-free exactly when the
 claims agree pairwise, and then what is known depends only on which claims were made.
 */
module CatalogClaims {
  import opened Collections
  import opened Names
  import opened Catalogs

  /** One thing a catalog or a capture says. */
  datatype Claim =
    | OfUsage(usage: string)
    | OfField(usage: string, field: Descriptor)
    | OfCommand(usage: string, command: Command)

  type State = map<string, Known>

  function KnownIn(k: State, usage: string): Known {
    if usage in k then k[usage] else NOTHING
  }

  ghost function Add(k: State, c: Claim): (State, seq<Conflict>) {
    match c
    case OfUsage(u) => (k[u := KnownIn(k, u)], [])
    case OfField(u, d) => var (after, conflicts) := AddField(u, KnownIn(k, u), d); (k[u := after], conflicts)
    case OfCommand(u, c) => var (after, conflicts) := AddCommand(u, KnownIn(k, u), c); (k[u := after], conflicts)
  }

  ghost function AddAll(k: State, claims: seq<Claim>): (State, seq<Conflict>) {
    if claims == [] then (k, [])
    else
      var (before, conflicts) := AddAll(k, claims[..|claims| - 1]);
      var (after, more) := Add(before, claims[|claims| - 1]);
      (after, conflicts + more)
  }

  lemma AddAllSnoc(k: State, claims: seq<Claim>, c: Claim)
    ensures var (before, conflicts) := AddAll(k, claims);
            AddAll(k, claims + [c]) == (Add(before, c).0, conflicts + Add(before, c).1)
  {
    hide Add;
    assert (claims + [c])[..|claims|] == claims;
  }

  lemma SnocOf<T>(a: seq<T>, b: seq<T>)
    requires b != []
    ensures var n := |b| - 1;
            b == b[..n] + [b[n]] && a + b == (a + b[..n]) + [b[n]]
  {
  }

  lemma {:induction false} AddAllConcat(k: State, a: seq<Claim>, b: seq<Claim>)
    ensures AddAll(k, a + b).0 == AddAll(AddAll(k, a).0, b).0
    ensures AddAll(k, a + b).1 == AddAll(k, a).1 + AddAll(AddAll(k, a).0, b).1
  {
    hide Add;
    if b == [] {
      assert a + b == a;
    } else {
      var init, last, between := b[..|b| - 1], b[|b| - 1], AddAll(k, a).0;
      SnocOf(a, b);
      AddAllConcat(k, a, init);
      AddAllSnoc(k, a + init, last);
      AddAllSnoc(between, init, last);
      Associative(AddAll(k, a).1, AddAll(between, init).1, Add(AddAll(between, init).0, last).1);
    }
  }

  // ---- what claims say, whatever their order ----

  function Core(d: Descriptor): Descriptor {
    d.(enumValues := None)
  }

  predicate IsOf(c: Claim, usage: string, name: string) {
    c.OfField? && c.usage == usage && c.field.name == name
  }

  predicate IsCommandOf(c: Claim, usage: string, name: string) {
    c.OfCommand? && c.usage == usage && c.command.name == name
  }

  ghost predicate Used(claims: seq<Claim>, usage: string) {
    exists c :: c in claims && c.usage == usage
  }

  ghost function Cores(claims: seq<Claim>, usage: string, name: string): set<Descriptor> {
    set c | c in claims && IsOf(c, usage, name) :: Core(c.field)
  }

  ghost predicate HasEnum(claims: seq<Claim>, usage: string, name: string) {
    exists c :: c in claims && IsOf(c, usage, name) && c.field.enumValues.Some?
  }

  ghost function Values(claims: seq<Claim>, usage: string, name: string): set<string> {
    set c, x | c in claims && IsOf(c, usage, name) && x in EnumSet(c.field) :: x
  }

  ghost function Commands(claims: seq<Claim>, usage: string, name: string): set<Command> {
    set c | c in claims && IsCommandOf(c, usage, name) :: c.command
  }

  ghost predicate Alike<T(!new)>(s: set<T>) {
    forall x, y :: x in s && y in s ==> x == y
  }

  /** The claims agree pairwise: on the attributes of each field, and on each whole command. */
  ghost predicate Consistent(claims: seq<Claim>) {
    forall usage, name :: Alike(Cores(claims, usage, name)) && Alike(Commands(claims, usage, name))
  }

  /** The claims say the same. */
  ghost predicate Equivalent(a: seq<Claim>, b: seq<Claim>) {
    && (forall usage :: Used(a, usage) <==> Used(b, usage))
    && forall usage, name ::
         && Cores(a, usage, name) == Cores(b, usage, name)
         && Commands(a, usage, name) == Commands(b, usage, name)
         && (HasEnum(a, usage, name) <==> HasEnum(b, usage, name))
         && Values(a, usage, name) == Values(b, usage, name)
  }

  lemma SameClaimsAreEquivalent(a: seq<Claim>, b: seq<Claim>)
    requires forall c :: c in a <==> c in b
    ensures Equivalent(a, b)
  {
  }

  lemma UsedConcat(a: seq<Claim>, b: seq<Claim>, usage: string)
    ensures Used(a + b, usage) <==> Used(a, usage) || Used(b, usage)
  {
    assert forall c :: c in a + b <==> c in a || c in b;
  }

  lemma SaysConcat(a: seq<Claim>, b: seq<Claim>, usage: string, name: string)
    ensures Cores(a + b, usage, name) == Cores(a, usage, name) + Cores(b, usage, name)
    ensures Commands(a + b, usage, name) == Commands(a, usage, name) + Commands(b, usage, name)
    ensures HasEnum(a + b, usage, name) <==> HasEnum(a, usage, name) || HasEnum(b, usage, name)
    ensures Values(a + b, usage, name) == Values(a, usage, name) + Values(b, usage, name)
  {
    assert forall c :: c in a + b <==> c in a || c in b;
  }

  lemma ConsistentEquivalent(a: seq<Claim>, b: seq<Claim>)
    requires Equivalent(a, b) && Consistent(a)
    ensures Consistent(b)
  {
    forall usage, name
      ensures Alike(Cores(b, usage, name)) && Alike(Commands(b, usage, name))
    {
      assert Cores(a, usage, name) == Cores(b, usage, name) && Commands(a, usage, name) == Commands(b, usage, name);
    }
  }

  lemma ConsistentParts(a: seq<Claim>, b: seq<Claim>)
    requires Consistent(a + b)
    ensures Consistent(a) && Consistent(b)
  {
    forall usage, name
      ensures Alike(Cores(a, usage, name)) && Alike(Commands(a, usage, name))
      ensures Alike(Cores(b, usage, name)) && Alike(Commands(b, usage, name))
    {
      SaysConcat(a, b, usage, name);
      assert Alike(Cores(a + b, usage, name)) && Alike(Commands(a + b, usage, name));
    }
  }

  // ---- what is known is what the claims say ----

  ghost predicate DescribesField(k: Known, claims: seq<Claim>, usage: string, name: string) {
    && (name in k.fields <==> Cores(claims, usage, name) != {})
    && (name in k.fields ==>
          && k.fields[name].name == name
          && Core(k.fields[name]) in Cores(claims, usage, name)
          && k.fields[name].enumValues ==
             if HasEnum(claims, usage, name) then Some(Sorted(Values(claims, usage, name))) else None)
  }

  ghost predicate DescribesCommand(k: Known, claims: seq<Claim>, usage: string, name: string) {
    && (name in k.commands <==> Commands(claims, usage, name) != {})
    && (name in k.commands ==> k.commands[name].name == name && k.commands[name] in Commands(claims, usage, name))
  }

  ghost predicate Describes(k: State, claims: seq<Claim>) {
    && (forall usage :: usage in k <==> Used(claims, usage))
    && (forall usage, name :: DescribesField(KnownIn(k, usage), claims, usage, name))
    && forall usage, name :: DescribesCommand(KnownIn(k, usage), claims, usage, name)
  }

  /** The enum values of a field are sorted. */
  ghost predicate NormalField(d: Descriptor) {
    d.enumValues.Some? ==> Increasing(d.enumValues.value)
  }

  ghost predicate NormalClaims(claims: seq<Claim>) {
    forall c :: c in claims && c.OfField? ==> NormalField(c.field)
  }

  /** What one claim says of one name. */
  lemma SaysOne(c: Claim, usage: string, name: string)
    ensures Cores([c], usage, name) == if IsOf(c, usage, name) then {Core(c.field)} else {}
    ensures Commands([c], usage, name) == if IsCommandOf(c, usage, name) then {c.command} else {}
    ensures HasEnum([c], usage, name) <==> IsOf(c, usage, name) && c.field.enumValues.Some?
    ensures Values([c], usage, name) == if IsOf(c, usage, name) then EnumSet(c.field) else {}
  {
    assert c in [c];
  }

  lemma SaysSnoc(claims: seq<Claim>, c: Claim, usage: string, name: string)
    ensures Cores(claims + [c], usage, name) ==
            Cores(claims, usage, name) + if IsOf(c, usage, name) then {Core(c.field)} else {}
    ensures Commands(claims + [c], usage, name) ==
            Commands(claims, usage, name) + if IsCommandOf(c, usage, name) then {c.command} else {}
    ensures HasEnum(claims + [c], usage, name) <==>
            HasEnum(claims, usage, name) || (IsOf(c, usage, name) && c.field.enumValues.Some?)
    ensures Values(claims + [c], usage, name) ==
            Values(claims, usage, name) + if IsOf(c, usage, name) then EnumSet(c.field) else {}
  {
    SaysConcat(claims, [c], usage, name);
    SaysOne(c, usage, name);
  }

  lemma NoCoreNoEnum(claims: seq<Claim>, usage: string, name: string)
    requires Cores(claims, usage, name) == {}
    ensures !HasEnum(claims, usage, name) && Values(claims, usage, name) == {}
  {
    assert forall c :: c in claims && IsOf(c, usage, name) ==> Core(c.field) in Cores(claims, usage, name);
  }

  lemma EnumIsUnion(known: Descriptor, d: Descriptor, some: bool, values: set<string>)
    requires known.enumValues == if some then Some(Sorted(values)) else None
    requires !some ==> values == {}
    ensures Joined(known, d).enumValues ==
            if some || d.enumValues.Some? then Some(Sorted(values + EnumSet(d))) else None
  {
    assert EnumSet(known) == values;
  }

  lemma NoEnumNoValues(claims: seq<Claim>, usage: string, name: string)
    requires !HasEnum(claims, usage, name)
    ensures Values(claims, usage, name) == {}
  {
  }

  lemma FieldAdded(k: Known, claims: seq<Claim>, usage: string, d: Descriptor, name: string)
    requires DescribesField(k, claims, usage, name) && NormalField(d)
    ensures DescribesField(AddField(usage, k, d).0, claims + [OfField(usage, d)], usage, name)
  {
    hide Joined, FieldConflicts;
    SaysSnoc(claims, OfField(usage, d), usage, name);
    if name == d.name {
      FieldAddedHere(k, claims, usage, d);
    }
  }

  lemma FieldAddedHere(k: Known, claims: seq<Claim>, usage: string, d: Descriptor)
    requires DescribesField(k, claims, usage, d.name) && NormalField(d)
    ensures DescribesField(AddField(usage, k, d).0, claims + [OfField(usage, d)], usage, d.name)
  {
    hide FieldConflicts;
    if d.name in k.fields {
      FieldJoined(k, claims, usage, d);
    } else {
      FieldNew(k, claims, usage, d);
    }
  }

  lemma FieldJoined(k: Known, claims: seq<Claim>, usage: string, d: Descriptor)
    requires DescribesField(k, claims, usage, d.name) && d.name in k.fields
    ensures DescribesField(k.(fields := k.fields[d.name := Joined(k.fields[d.name], d)]),
            claims + [OfField(usage, d)], usage, d.name)
  {
    var name := d.name;
    SaysSnoc(claims, OfField(usage, d), usage, name);
    if !HasEnum(claims, usage, name) {
      NoEnumNoValues(claims, usage, name);
    }
    EnumIsUnion(k.fields[name], d, HasEnum(claims, usage, name), Values(claims, usage, name));
    assert Core(Joined(k.fields[name], d)) == Core(k.fields[name]);
  }

  lemma FieldNew(k: Known, claims: seq<Claim>, usage: string, d: Descriptor)
    requires DescribesField(k, claims, usage, d.name) && d.name !in k.fields && NormalField(d)
    ensures DescribesField(k.(fields := k.fields[d.name := d]), claims + [OfField(usage, d)], usage, d.name)
  {
    SaysSnoc(claims, OfField(usage, d), usage, d.name);
    NoCoreNoEnum(claims, usage, d.name);
    assert {} + EnumSet(d) == EnumSet(d);
    if d.enumValues.Some? {
      IncreasingIsSorted(d.enumValues.value);
    }
  }

  lemma CommandAdded(k: Known, claims: seq<Claim>, usage: string, c: Command, name: string)
    requires DescribesCommand(k, claims, usage, name)
    ensures DescribesCommand(AddCommand(usage, k, c).0, claims + [OfCommand(usage, c)], usage, name)
  {
    SaysSnoc(claims, OfCommand(usage, c), usage, name);
  }

  /** A claim of something else says nothing of a name. */
  lemma OtherAdded(k: Known, claims: seq<Claim>, c: Claim, usage: string, name: string)
    ensures DescribesField(k, claims, usage, name) && !IsOf(c, usage, name) ==>
            DescribesField(k, claims + [c], usage, name)
    ensures DescribesCommand(k, claims, usage, name) && !IsCommandOf(c, usage, name) ==>
              DescribesCommand(k, claims + [c], usage, name)
  {
    SaysSnoc(claims, c, usage, name);
  }

  lemma UsedSnoc(claims: seq<Claim>, c: Claim, usage: string)
    ensures Used(claims + [c], usage) <==> Used(claims, usage) || c.usage == usage
  {
    UsedConcat(claims, [c], usage);
    assert Used([c], usage) <==> c.usage == usage by {
      assert c in [c];
    }
  }

  lemma AddDescribesField(k: State, claims: seq<Claim>, c: Claim, usage: string, name: string)
    requires DescribesField(KnownIn(k, usage), claims, usage, name)
    requires c.OfField? ==> NormalField(c.field)
    ensures DescribesField(KnownIn(Add(k, c).0, usage), claims + [c], usage, name)
  {
    hide DescribesField, Joined, FieldConflicts;
    var known := KnownIn(k, usage);
    if c.OfField? && c.usage == usage {
      FieldAdded(known, claims, usage, c.field, name);
    } else {
      OtherAdded(known, claims, c, usage, name);
      FieldsOnly(known, KnownIn(Add(k, c).0, usage), claims + [c], usage, name);
    }
  }

  lemma FieldsOnly(a: Known, b: Known, claims: seq<Claim>, usage: string, name: string)
    requires a.fields == b.fields && DescribesField(a, claims, usage, name)
    ensures DescribesField(b, claims, usage, name)
  {
  }

  lemma AddDescribesCommand(k: State, claims: seq<Claim>, c: Claim, usage: string, name: string)
    requires DescribesCommand(KnownIn(k, usage), claims, usage, name)
    ensures DescribesCommand(KnownIn(Add(k, c).0, usage), claims + [c], usage, name)
  {
    hide DescribesCommand, Joined, FieldConflicts;
    var known := KnownIn(k, usage);
    if c.OfCommand? && c.usage == usage {
      CommandAdded(known, claims, usage, c.command, name);
    } else {
      OtherAdded(known, claims, c, usage, name);
      CommandsOnly(known, KnownIn(Add(k, c).0, usage), claims + [c], usage, name);
    }
  }

  lemma CommandsOnly(a: Known, b: Known, claims: seq<Claim>, usage: string, name: string)
    requires a.commands == b.commands && DescribesCommand(a, claims, usage, name)
    ensures DescribesCommand(b, claims, usage, name)
  {
  }

  lemma AddDescribes(k: State, claims: seq<Claim>, c: Claim)
    requires Describes(k, claims) && (c.OfField? ==> NormalField(c.field))
    ensures Describes(Add(k, c).0, claims + [c])
  {
    hide DescribesField, DescribesCommand;
    forall usage
      ensures usage in Add(k, c).0 <==> Used(claims + [c], usage)
    {
      UsedSnoc(claims, c, usage);
    }
    forall usage, name
      ensures DescribesField(KnownIn(Add(k, c).0, usage), claims + [c], usage, name)
      ensures DescribesCommand(KnownIn(Add(k, c).0, usage), claims + [c], usage, name)
    {
      AddDescribesField(k, claims, c, usage, name);
      AddDescribesCommand(k, claims, c, usage, name);
    }
  }

  lemma NothingDescribes()
    ensures Describes(map[], [])
  {
  }

  /** What is known after any claims is what they say, conflicts or not. */
  lemma {:induction false} KnownIsClaimed(claims: seq<Claim>)
    requires NormalClaims(claims)
    ensures Describes(AddAll(map[], claims).0, claims)
  {
    hide Describes, Add;
    if claims == [] {
      NothingDescribes();
    } else {
      var init, last := claims[..|claims| - 1], claims[|claims| - 1];
      KnownIsClaimed(init);
      assert claims == init + [last];
      AddAllSnoc(map[], init, last);
      AddDescribes(AddAll(map[], init).0, init, last);
    }
  }

  // ---- conflicts ----

  lemma AddConflictIff(k: State, claims: seq<Claim>, c: Claim)
    requires Describes(k, claims)
    ensures Add(k, c).1 == [] <==>
            match c
            case OfUsage(_) => true
            case OfField(u, d) => d.name in KnownIn(k, u).fields ==> Core(KnownIn(k, u).fields[d.name]) == Core(d)
            case OfCommand(u, d) => d.name in KnownIn(k, u).commands ==> KnownIn(k, u).commands[d.name] == d
  {
    hide Describes, FieldConflicts;
    if c.OfField? && c.field.name in KnownIn(k, c.usage).fields {
      FieldsAgreeIff(c.usage, KnownIn(k, c.usage).fields[c.field.name], c.field);
    }
  }

  lemma ConsistentSnoc(k: State, claims: seq<Claim>, c: Claim)
    requires Describes(k, claims) && Consistent(claims)
    ensures Add(k, c).1 == [] <==> Consistent(claims + [c])
  {
    AddConflictIff(k, claims, c);
    if Add(k, c).1 == [] {
      forall usage, name
        ensures Alike(Cores(claims + [c], usage, name)) && Alike(Commands(claims + [c], usage, name))
      {
        AlikeAfter(k, claims, c, usage, name);
      }
    } else {
      UnlikeAfter(k, claims, c);
    }
  }

  lemma AlikeAfter(k: State, claims: seq<Claim>, c: Claim, usage: string, name: string)
    requires Describes(k, claims) && Consistent(claims) && Add(k, c).1 == []
    ensures Alike(Cores(claims + [c], usage, name)) && Alike(Commands(claims + [c], usage, name))
  {
    hide FieldConflicts, Add;
    AddConflictIff(k, claims, c);
    SaysSnoc(claims, c, usage, name);
    assert DescribesField(KnownIn(k, usage), claims, usage, name);
    assert DescribesCommand(KnownIn(k, usage), claims, usage, name);
    assert Alike(Cores(claims, usage, name)) && Alike(Commands(claims, usage, name));
  }

  lemma UnlikeAfter(k: State, claims: seq<Claim>, c: Claim)
    requires Describes(k, claims) && Add(k, c).1 != []
    ensures !Consistent(claims + [c])
  {
    hide FieldConflicts, Add;
    AddConflictIff(k, claims, c);
    var usage, name := c.usage, if c.OfField? then c.field.name else c.command.name;
    SaysSnoc(claims, c, usage, name);
    assert DescribesField(KnownIn(k, usage), claims, usage, name);
    assert DescribesCommand(KnownIn(k, usage), claims, usage, name);
    if c.OfField? {
      assert Core(KnownIn(k, usage).fields[name]) in Cores(claims + [c], usage, name);
      assert Core(c.field) in Cores(claims + [c], usage, name);
      assert !Alike(Cores(claims + [c], usage, name));
    } else {
      assert !Alike(Commands(claims + [c], usage, name));
    }
  }

  /** Claims are added without conflict exactly when they agree pairwise. */
  lemma {:induction false} ConflictFreeIff(claims: seq<Claim>)
    requires NormalClaims(claims)
    ensures AddAll(map[], claims).1 == [] <==> Consistent(claims)
  {
    hide Describes, Add, Alike;
    if claims == [] {
      NothingIsConsistent();
    } else {
      var init, last := claims[..|claims| - 1], claims[|claims| - 1];
      assert claims == init + [last];
      ConflictFreeIff(init);
      KnownIsClaimed(init);
      AddAllSnoc(map[], init, last);
      if Consistent(init) {
        ConsistentSnoc(AddAll(map[], init).0, init, last);
      } else if Consistent(claims) {
        ConsistentParts(init, [last]);
      }
    }
  }

  lemma NothingIsConsistent()
    ensures Consistent([])
  {
  }

  // ---- known by what is said ----

  lemma SameKnown(k: Known, l: Known, a: seq<Claim>, b: seq<Claim>, usage: string)
    requires Equivalent(a, b) && Consistent(a)
    requires forall name :: DescribesField(k, a, usage, name) && DescribesField(l, b, usage, name)
    requires forall name :: DescribesCommand(k, a, usage, name) && DescribesCommand(l, b, usage, name)
    ensures k == l
  {
    forall name
      ensures name in k.fields <==> name in l.fields
      ensures name in k.fields && name in l.fields ==> k.fields[name] == l.fields[name]
      ensures name in k.commands <==> name in l.commands
      ensures name in k.commands && name in l.commands ==> k.commands[name] == l.commands[name]
    {
      assert DescribesField(k, a, usage, name) && DescribesField(l, b, usage, name);
      assert DescribesCommand(k, a, usage, name) && DescribesCommand(l, b, usage, name);
      assert Cores(a, usage, name) == Cores(b, usage, name) && Alike(Cores(a, usage, name));
      assert Commands(a, usage, name) == Commands(b, usage, name) && Alike(Commands(a, usage, name));
    }
    assert k.fields == l.fields && k.commands == l.commands;
  }

  /** What is known depends only on what the claims say. */
  lemma KnownByClaims(k: State, l: State, a: seq<Claim>, b: seq<Claim>)
    requires Describes(k, a) && Describes(l, b) && Equivalent(a, b) && Consistent(a)
    ensures k == l
  {
    hide DescribesField, DescribesCommand;
    forall usage
      ensures usage in k <==> usage in l
      ensures usage in k && usage in l ==> k[usage] == l[usage]
    {
      assert Used(a, usage) <==> Used(b, usage);
      if usage in k && usage in l {
        assert KnownIn(k, usage) == k[usage] && KnownIn(l, usage) == l[usage];
        SameKnown(k[usage], l[usage], a, b, usage);
      }
    }
  }

  /** Claims that describe the same knowledge say the same. */
  lemma DescribedAlike(k: State, a: seq<Claim>, b: seq<Claim>)
    requires Describes(k, a) && Describes(k, b) && Consistent(a) && Consistent(b)
    ensures Equivalent(a, b)
  {
    forall usage, name
      ensures Cores(a, usage, name) == Cores(b, usage, name)
      ensures Commands(a, usage, name) == Commands(b, usage, name)
      ensures HasEnum(a, usage, name) <==> HasEnum(b, usage, name)
      ensures Values(a, usage, name) == Values(b, usage, name)
    {
      SaidAlike(KnownIn(k, usage), a, b, usage, name);
    }
  }

  lemma SaidAlike(k: Known, a: seq<Claim>, b: seq<Claim>, usage: string, name: string)
    requires DescribesField(k, a, usage, name) && DescribesField(k, b, usage, name)
    requires DescribesCommand(k, a, usage, name) && DescribesCommand(k, b, usage, name)
    requires Consistent(a) && Consistent(b)
    ensures Cores(a, usage, name) == Cores(b, usage, name)
    ensures Commands(a, usage, name) == Commands(b, usage, name)
    ensures HasEnum(a, usage, name) <==> HasEnum(b, usage, name)
    ensures Values(a, usage, name) == Values(b, usage, name)
  {
    assert Alike(Cores(a, usage, name)) && Alike(Cores(b, usage, name));
    assert Alike(Commands(a, usage, name)) && Alike(Commands(b, usage, name));
    if name in k.fields {
      if HasEnum(a, usage, name) {
        assert Elements(Sorted(Values(a, usage, name))) == Elements(Sorted(Values(b, usage, name)));
      } else {
        NoEnumNoValues(a, usage, name);
        NoEnumNoValues(b, usage, name);
      }
    } else {
      NoCoreNoEnum(a, usage, name);
      NoCoreNoEnum(b, usage, name);
    }
  }
}
