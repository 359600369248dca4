/** The algebra of merging catalogs and the catalog of a capture, by what they claim. */
module CatalogTheorems {
  import opened Collections
  import opened Names
  import opened Catalogs
  import opened CatalogClaims

  // ---- the claims of a catalog ----

  function FieldClaims(usage: string, fields: seq<Descriptor>): (claims: seq<Claim>)
    ensures |claims| == |fields| && forall i :: 0 <= i < |fields| ==> claims[i] == OfField(usage, fields[i])
  {
    seq(|fields|, i requires 0 <= i < |fields| => OfField(usage, fields[i]))
  }

  function CommandClaims(usage: string, commands: seq<Command>): (claims: seq<Claim>)
    ensures |claims| == |commands| && forall i :: 0 <= i < |commands| ==> claims[i] == OfCommand(usage, commands[i])
  {
    seq(|commands|, i requires 0 <= i < |commands| => OfCommand(usage, commands[i]))
  }

  function UsageClaims(usage: string, u: Usage): seq<Claim> {
    [OfUsage(usage)] + FieldClaims(usage, u.fields) + CommandClaims(usage, u.commands)
  }

  function NamesClaims(c: Catalog, names: seq<string>): seq<Claim> {
    if names == [] then []
    else
      var name := names[|names| - 1];
      NamesClaims(c, names[..|names| - 1]) + UsageClaims(name, UsageIn(c, name))
  }

  ghost function ClaimsOf(c: Catalog): seq<Claim> {
    NamesClaims(c, Sorted(c.Keys))
  }

  function StateOf(c: Catalog): State {
    map usage | usage in c :: KnownOf(c[usage])
  }

  // ---- merging is adding claims ----

  lemma UpdatedTwice(k: State, usage: string, first: Known, second: Known)
    ensures k[usage := first][usage := second] == k[usage := second]
  {
  }

  lemma {:induction false} AddFieldClaims(k: State, usage: string, fields: seq<Descriptor>)
    requires usage in k
    ensures var (known, conflicts) := AddFields(usage, k[usage], fields);
            AddAll(k, FieldClaims(usage, fields)) == (k[usage := known], conflicts)
  {
    hide AddField;
    if fields == [] {
      assert k[usage := k[usage]] == k;
    } else {
      var n := |fields| - 1;
      AddFieldClaims(k, usage, fields[..n]);
      assert FieldClaims(usage, fields) == FieldClaims(usage, fields[..n]) + [OfField(usage, fields[n])];
      AddAllSnoc(k, FieldClaims(usage, fields[..n]), OfField(usage, fields[n]));
      var (before, _) := AddFields(usage, k[usage], fields[..n]);
      UpdatedTwice(k, usage, before, AddField(usage, before, fields[n]).0);
    }
  }

  lemma {:induction false} AddCommandClaims(k: State, usage: string, commands: seq<Command>)
    requires usage in k
    ensures var (known, conflicts) := AddCommands(usage, k[usage], commands);
            AddAll(k, CommandClaims(usage, commands)) == (k[usage := known], conflicts)
  {
    hide AddCommand;
    if commands == [] {
      assert k[usage := k[usage]] == k;
    } else {
      var n := |commands| - 1;
      AddCommandClaims(k, usage, commands[..n]);
      assert CommandClaims(usage, commands) == CommandClaims(usage, commands[..n]) + [OfCommand(usage, commands[n])];
      AddAllSnoc(k, CommandClaims(usage, commands[..n]), OfCommand(usage, commands[n]));
      var (before, _) := AddCommands(usage, k[usage], commands[..n]);
      UpdatedTwice(k, usage, before, AddCommand(usage, before, commands[n]).0);
    }
  }

  lemma AddOne(k: State, c: Claim)
    ensures AddAll(k, [c]) == Add(k, c)
  {
    hide Add;
    AddAllSnoc(k, [], c);
    assert [] + [c] == [c];
    assert AddAll(k, []) == (k, []);
    assert [] + Add(k, c).1 == Add(k, c).1;
  }

  lemma UsageAndFields(k: State, usage: string, fields: seq<Descriptor>)
    ensures var (known, conflicts) := AddFields(usage, KnownIn(k, usage), fields);
            AddAll(k, [OfUsage(usage)] + FieldClaims(usage, fields)) == (k[usage := known], conflicts)
  {
    hide AddFields;
    var first := k[usage := KnownIn(k, usage)];
    AddOne(k, OfUsage(usage));
    AddFieldClaims(first, usage, fields);
    AddAllConcat(k, [OfUsage(usage)], FieldClaims(usage, fields));
    var (known, conflicts) := AddFields(usage, KnownIn(k, usage), fields);
    UpdatedTwice(k, usage, KnownIn(k, usage), known);
    assert [] + conflicts == conflicts;
  }

  lemma AddUsageClaims(k: State, usage: string, u: Usage)
    ensures var (known, conflicts) := AddUsage(usage, KnownIn(k, usage), u);
            AddAll(k, UsageClaims(usage, u)) == (k[usage := known], conflicts)
  {
    hide AddFields, AddCommands, AddAll;
    UsageAndFields(k, usage, u.fields);
    var (known, _) := AddFields(usage, KnownIn(k, usage), u.fields);
    AddCommandClaims(k[usage := known], usage, u.commands);
    AddAllConcat(k, [OfUsage(usage)] + FieldClaims(usage, u.fields), CommandClaims(usage, u.commands));
    UpdatedTwice(k, usage, known, AddCommands(usage, known, u.commands).0);
  }

  ghost predicate KeyedKnown(k: Known) {
    Keyed(k.fields, FIELD_NAME) && Keyed(k.commands, COMMAND_NAME)
  }

  lemma {:induction false} AddFieldsKeyed(usage: string, k: Known, fields: seq<Descriptor>)
    requires KeyedKnown(k)
    ensures KeyedKnown(AddFields(usage, k, fields).0)
  {
    if fields != [] {
      AddFieldsKeyed(usage, k, fields[..|fields| - 1]);
    }
  }

  lemma {:induction false} AddCommandsKeyed(usage: string, k: Known, commands: seq<Command>)
    requires KeyedKnown(k)
    ensures KeyedKnown(AddCommands(usage, k, commands).0)
  {
    if commands != [] {
      AddCommandsKeyed(usage, k, commands[..|commands| - 1]);
    }
  }

  lemma MergedUsageKnown(usage: string, known: Usage, found: Usage)
    ensures KeyedKnown(AddUsage(usage, KnownOf(known), found).0)
    ensures KnownOf(MergedUsage(usage, known, found).0) == AddUsage(usage, KnownOf(known), found).0
  {
    hide AddFields, AddCommands;
    ByNameIs(known.fields, FIELD_NAME);
    ByNameIs(known.commands, COMMAND_NAME);
    AddFieldsKeyed(usage, KnownOf(known), found.fields);
    AddCommandsKeyed(usage, AddFields(usage, KnownOf(known), found.fields).0, found.commands);
    var k := AddUsage(usage, KnownOf(known), found).0;
    ByNameOfInOrder(k.fields, FIELD_NAME);
    ByNameOfInOrder(k.commands, COMMAND_NAME);
  }

  lemma {:induction false} MergeNamesIsAdd(known: Catalog, found: Catalog, names: seq<string>)
    ensures var (merged, conflicts) := MergeNames(known, found, names);
            AddAll(StateOf(known), NamesClaims(found, names)) == (StateOf(merged), conflicts)
  {
    hide MergedUsage, AddUsage, UsageClaims;
    if names != [] {
      var name, init := names[|names| - 1], names[..|names| - 1];
      MergeNamesIsAdd(known, found, init);
      var (before, conflicts) := MergeNames(known, found, init);
      AddAllConcat(StateOf(known), NamesClaims(found, init), UsageClaims(name, UsageIn(found, name)));
      AddUsageClaims(StateOf(before), name, UsageIn(found, name));
      MergedOne(before, name, UsageIn(found, name));
    }
  }

  lemma MergedOne(before: Catalog, name: string, found: Usage)
    ensures var (merged, conflicts) := MergedUsage(name, UsageIn(before, name), found);
            (StateOf(before[name := merged]), conflicts) ==
            (StateOf(before)[name := AddUsage(name, KnownIn(StateOf(before), name), found).0],
             AddUsage(name, KnownIn(StateOf(before), name), found).1)
  {
    hide AddUsage, UsageOf;
    MergedUsageKnown(name, UsageIn(before, name), found);
    assert KnownOf(UsageIn(before, name)) == KnownIn(StateOf(before), name);
    var merged := MergedUsage(name, UsageIn(before, name), found).0;
    assert StateOf(before[name := merged]) == StateOf(before)[name := KnownOf(merged)];
  }

  // ---- normalized catalogs ----

  /** Names increasing, and so unique; enum values sorted and unique. */
  ghost predicate NormalUsage(u: Usage) {
    && IncreasingNames(u.fields, FIELD_NAME)
    && IncreasingNames(u.commands, COMMAND_NAME)
    && NormalFields(u.fields)
  }

  ghost predicate NormalFields(fields: seq<Descriptor>) {
    forall i :: 0 <= i < |fields| ==> NormalField(fields[i])
  }

  ghost predicate Normalized(c: Catalog) {
    forall usage :: usage in c ==> NormalUsage(c[usage])
  }

  lemma NormalIsListed(u: Usage)
    requires NormalUsage(u)
    ensures UsageOf(KnownOf(u)) == u
  {
    InOrderOfByName(u.fields, FIELD_NAME);
    InOrderOfByName(u.commands, COMMAND_NAME);
  }

  /** Normalized catalogs are the same when the same is known. */
  lemma NormalByState(a: Catalog, b: Catalog)
    requires Normalized(a) && Normalized(b) && StateOf(a) == StateOf(b)
    ensures a == b
  {
    hide NormalUsage, UsageOf, KnownOf;
    assert StateOf(a).Keys == a.Keys && StateOf(b).Keys == b.Keys;
    forall usage | usage in a
      ensures usage in b && a[usage] == b[usage]
    {
      assert usage in StateOf(a);
      assert StateOf(a)[usage] == KnownOf(a[usage]) && StateOf(b)[usage] == KnownOf(b[usage]);
      NormalIsListed(a[usage]);
      NormalIsListed(b[usage]);
    }
  }

  ghost predicate NormalKnown(k: Known) {
    forall name :: name in k.fields ==> NormalField(k.fields[name])
  }

  lemma JoinedIsNormal(a: Descriptor, b: Descriptor)
    requires NormalField(a)
    ensures NormalField(Joined(a, b))
  {
    SortedIncreases(EnumSet(a) + EnumSet(b));
  }

  lemma {:induction false} AddFieldsNormal(usage: string, k: Known, fields: seq<Descriptor>)
    requires NormalKnown(k) && NormalFields(fields)
    ensures NormalKnown(AddFields(usage, k, fields).0)
  {
    hide Joined, NormalField;
    if fields != [] {
      var n := |fields| - 1;
      AddFieldsNormal(usage, k, fields[..n]);
      var before := AddFields(usage, k, fields[..n]).0;
      if fields[n].name in before.fields {
        JoinedIsNormal(before.fields[fields[n].name], fields[n]);
      }
    }
  }

  lemma {:induction false} AddCommandsFields(usage: string, k: Known, commands: seq<Command>)
    ensures AddCommands(usage, k, commands).0.fields == k.fields
  {
    if commands != [] {
      AddCommandsFields(usage, k, commands[..|commands| - 1]);
    }
  }

  lemma MergedUsageIsNormal(usage: string, known: Usage, found: Usage)
    requires NormalUsage(known) && NormalFields(found.fields)
    ensures NormalUsage(MergedUsage(usage, known, found).0)
  {
    hide AddFields, AddCommands, NormalField;
    var k := AddUsage(usage, KnownOf(known), found).0;
    MergedUsageKnown(usage, known, found);
    NamesOfInOrder(k.fields, FIELD_NAME);
    NamesOfInOrder(k.commands, COMMAND_NAME);
    ByNameIs(known.fields, FIELD_NAME);
    AddFieldsNormal(usage, KnownOf(known), found.fields);
    AddCommandsFields(usage, AddFields(usage, KnownOf(known), found.fields).0, found.commands);
    assert NormalKnown(k);
    ListedIsNormal(k);
  }

  lemma ListedIsNormal(k: Known)
    requires NormalKnown(k)
    ensures NormalFields(InOrder(k.fields))
  {
    var names := Sorted(k.fields.Keys);
    assert forall i :: 0 <= i < |names| ==> names[i] in Elements(names);
  }

  ghost predicate NormalIn(found: Catalog) {
    forall usage :: usage in found ==> NormalFields(found[usage].fields)
  }

  lemma {:induction false} MergeNamesNormal(known: Catalog, found: Catalog, names: seq<string>)
    requires Normalized(known) && NormalIn(found)
    ensures Normalized(MergeNames(known, found, names).0)
  {
    hide MergedUsage, NormalUsage, NormalFields;
    UnusedIsNormal();
    if names != [] {
      var name, init := names[|names| - 1], names[..|names| - 1];
      MergeNamesNormal(known, found, init);
      MergedUsageIsNormal(name, UsageIn(MergeNames(known, found, init).0, name), UsageIn(found, name));
    }
  }

  lemma UnusedIsNormal()
    ensures NormalUsage(UNUSED) && NormalFields(UNUSED.fields)
  {
  }

  /** Merging into a normalized catalog fields whose enum values are sorted gives a normalized catalog. */
  lemma MergeIsNormalized(known: Catalog, found: Catalog)
    requires Normalized(known) && NormalIn(found)
    ensures Normalized(Merged(known, found).0)
  {
    MergeNamesNormal(known, found, Sorted(found.Keys));
  }

  // ---- a normalized catalog is its claims ----

  lemma NoneAndNone()
    ensures var none: seq<Conflict> := []; none + none == none
  {
  }

  lemma {:induction false} AddDistinctFields(usage: string, commands: map<string, Command>, fields: seq<Descriptor>)
    requires forall i, j :: 0 <= i < j < |fields| ==> fields[i].name != fields[j].name
    ensures AddFields(usage, Known(map[], commands), fields) == (Known(ByName(fields, FIELD_NAME), commands), [])
  {
    if fields != [] {
      var n := |fields| - 1;
      AddDistinctFields(usage, commands, fields[..n]);
      ByNameIs(fields[..n], FIELD_NAME);
      assert forall i :: 0 <= i < n ==> FIELD_NAME(fields[..n][i]) != fields[n].name;
      NoneAndNone();
    }
  }

  lemma {:induction false} AddDistinctCommands(usage: string, fields: map<string, Descriptor>, commands: seq<Command>)
    requires forall i, j :: 0 <= i < j < |commands| ==> commands[i].name != commands[j].name
    ensures AddCommands(usage, Known(fields, map[]), commands) == (Known(fields, ByName(commands, COMMAND_NAME)), [])
  {
    if commands != [] {
      var n := |commands| - 1;
      AddDistinctCommands(usage, fields, commands[..n]);
      ByNameIs(commands[..n], COMMAND_NAME);
      assert forall i :: 0 <= i < n ==> COMMAND_NAME(commands[..n][i]) != commands[n].name;
      NoneAndNone();
    }
  }

  lemma AddNormalUsage(usage: string, u: Usage)
    requires NormalUsage(u)
    ensures AddUsage(usage, NOTHING, u) == (KnownOf(u), [])
  {
    hide AddFields, AddCommands;
    Names.DistinctNames(u.fields, FIELD_NAME);
    Names.DistinctNames(u.commands, COMMAND_NAME);
    AddDistinctFields(usage, map[], u.fields);
    AddDistinctCommands(usage, ByName(u.fields, FIELD_NAME), u.commands);
    NoneAndNone();
  }

  lemma NewIn(names: seq<string>, n: nat)
    requires n < |names| && Increasing(names)
    ensures names[n] !in names[..n] && Increasing(names[..n])
  {
    forall i | 0 <= i < n
      ensures names[i] != names[n]
    {
      LessAsymmetric(names[i], names[n]);
    }
  }

  function Restricted(k: State, names: seq<string>): State {
    map usage | usage in k && usage in names :: k[usage]
  }

  lemma {:induction false} NamesAreAdded(c: Catalog, names: seq<string>)
    requires Normalized(c) && Increasing(names) && forall i :: 0 <= i < |names| ==> names[i] in c
    ensures AddAll(map[], NamesClaims(c, names)) == (Restricted(StateOf(c), names), [])
  {
    hide AddUsage, UsageClaims, NormalUsage, Increasing;
    if names == [] {
      assert Restricted(StateOf(c), []) == map[];
    } else {
      var n := |names| - 1;
      var init, name := names[..n], names[n];
      NewIn(names, n);
      NamesAreAdded(c, init);
      var before := Restricted(StateOf(c), init);
      AddAllConcat(map[], NamesClaims(c, init), UsageClaims(name, c[name]));
      AddUsageClaims(before, name, c[name]);
      AddNormalUsage(name, c[name]);
      assert names == init + [name];
      assert before[name := KnownOf(c[name])] == Restricted(StateOf(c), names);
    }
  }

  lemma CatalogIsAdded(c: Catalog)
    requires Normalized(c)
    ensures AddAll(map[], ClaimsOf(c)) == (StateOf(c), [])
  {
    hide NormalUsage;
    var names := Sorted(c.Keys);
    SortedIncreases(c.Keys);
    assert forall i :: 0 <= i < |names| ==> names[i] in Elements(names);
    NamesAreAdded(c, names);
    assert forall usage :: usage in c ==> usage in Elements(names);
    assert Restricted(StateOf(c), names) == StateOf(c);
  }

  lemma UsageClaimsNormal(usage: string, u: Usage)
    requires NormalFields(u.fields)
    ensures NormalClaims(UsageClaims(usage, u))
  {
  }

  lemma {:induction false} NamesClaimsNormal(c: Catalog, names: seq<string>)
    requires NormalIn(c)
    ensures NormalClaims(NamesClaims(c, names))
  {
    hide UsageClaims, NormalFields, NormalField;
    UnusedIsNormal();
    if names != [] {
      NamesClaimsNormal(c, names[..|names| - 1]);
      UsageClaimsNormal(names[|names| - 1], UsageIn(c, names[|names| - 1]));
    }
  }

  lemma ClaimsAreNormal(c: Catalog)
    requires Normalized(c)
    ensures NormalClaims(ClaimsOf(c))
  {
    NamesClaimsNormal(c, Sorted(c.Keys));
  }

  lemma NormalConcat(a: seq<Claim>, b: seq<Claim>)
    requires NormalClaims(a) && NormalClaims(b)
    ensures NormalClaims(a + b)
  {
  }

  /** Merging is adding the claims of the one, then of the other. */
  lemma MergeIsAdd(a: Catalog, b: Catalog)
    requires Normalized(a) && Normalized(b)
    ensures NormalClaims(ClaimsOf(a) + ClaimsOf(b))
    ensures AddAll(map[], ClaimsOf(a) + ClaimsOf(b)) == (StateOf(Merged(a, b).0), Merged(a, b).1)
    ensures Normalized(Merged(a, b).0)
  {
    hide NormalUsage, Sorted, MergeNames, NormalField;
    ClaimsAreNormal(a);
    ClaimsAreNormal(b);
    NormalConcat(ClaimsOf(a), ClaimsOf(b));
    CatalogIsAdded(a);
    MergeNamesIsAdd(a, b, Sorted(b.Keys));
    AddAllConcat(map[], ClaimsOf(a), ClaimsOf(b));
    assert [] + Merged(a, b).1 == Merged(a, b).1;
    NormalFieldsIn(b);
    MergeIsNormalized(a, b);
  }

  lemma NormalFieldsIn(c: Catalog)
    requires Normalized(c)
    ensures NormalIn(c)
  {
  }

  // ---- the algebra of merging ----

  /** Two catalogs merge without conflict exactly when their claims agree pairwise. */
  lemma MergesIff(a: Catalog, b: Catalog)
    requires Normalized(a) && Normalized(b)
    ensures Merged(a, b).1 == [] <==> Consistent(ClaimsOf(a) + ClaimsOf(b))
    ensures Describes(StateOf(Merged(a, b).0), ClaimsOf(a) + ClaimsOf(b))
  {
    hide *;
    MergeIsAdd(a, b);
    ConflictFreeIff(ClaimsOf(a) + ClaimsOf(b));
    KnownIsClaimed(ClaimsOf(a) + ClaimsOf(b));
  }

  /** Merges whose claims say the same conflict alike, and without conflict give the same catalog. */
  lemma MergesAlike(a: Catalog, b: Catalog, c: Catalog, d: Catalog)
    requires Normalized(a) && Normalized(b) && Normalized(c) && Normalized(d)
    requires Equivalent(ClaimsOf(a) + ClaimsOf(b), ClaimsOf(c) + ClaimsOf(d))
    requires Merged(a, b).1 == []
    ensures Merged(c, d) == Merged(a, b)
  {
    hide *;
    MergesIff(a, b);
    MergesIff(c, d);
    MergeIsAdd(a, b);
    MergeIsAdd(c, d);
    ConsistentEquivalent(ClaimsOf(a) + ClaimsOf(b), ClaimsOf(c) + ClaimsOf(d));
    KnownByClaims(StateOf(Merged(a, b).0), StateOf(Merged(c, d).0),
      ClaimsOf(a) + ClaimsOf(b), ClaimsOf(c) + ClaimsOf(d));
    NormalByState(Merged(a, b).0, Merged(c, d).0);
  }

  lemma Swapped(a: seq<Claim>, b: seq<Claim>)
    ensures Equivalent(a + b, b + a)
  {
    SameClaimsAreEquivalent(a + b, b + a);
  }

  /** Merging normalized catalogs is commutative: conflicts either way or neither, and else the same catalog. */
  lemma MergeCommutes(a: Catalog, b: Catalog)
    requires Normalized(a) && Normalized(b)
    ensures Merged(a, b).1 == [] <==> Merged(b, a).1 == []
    ensures Merged(a, b).1 == [] ==> Merged(a, b) == Merged(b, a)
  {
    hide *;
    Swapped(ClaimsOf(a), ClaimsOf(b));
    Swapped(ClaimsOf(b), ClaimsOf(a));
    if Merged(a, b).1 == [] {
      MergesAlike(a, b, b, a);
    }
    if Merged(b, a).1 == [] {
      MergesAlike(b, a, a, b);
    }
  }

  lemma Twice(a: seq<Claim>)
    ensures Equivalent(a, a + a)
  {
    SameClaimsAreEquivalent(a, a + a);
  }

  /** Merging a normalized catalog with itself changes nothing. */
  lemma MergeIsIdempotent(a: Catalog)
    requires Normalized(a)
    ensures Merged(a, a) == (a, [])
  {
    hide *;
    var claims := ClaimsOf(a);
    Twice(claims);
    CatalogIsAdded(a);
    ClaimsAreNormal(a);
    ConflictFreeIff(claims);
    KnownIsClaimed(claims);
    ConsistentEquivalent(claims, claims + claims);
    MergesIff(a, a);
    MergeIsAdd(a, a);
    KnownByClaims(StateOf(a), StateOf(Merged(a, a).0), claims, claims + claims);
    NormalByState(a, Merged(a, a).0);
    assert Merged(a, a) == (Merged(a, a).0, Merged(a, a).1);
  }

  /** The claims of a conflict-free merge say what those of its parts say. */
  lemma MergedClaims(a: Catalog, b: Catalog)
    requires Normalized(a) && Normalized(b) && Merged(a, b).1 == []
    ensures Normalized(Merged(a, b).0)
    ensures Equivalent(ClaimsOf(Merged(a, b).0), ClaimsOf(a) + ClaimsOf(b))
  {
    hide *;
    var merged := Merged(a, b).0;
    MergesIff(a, b);
    MergeIsAdd(a, b);
    CatalogIsAdded(merged);
    ClaimsAreNormal(merged);
    ConflictFreeIff(ClaimsOf(merged));
    KnownIsClaimed(ClaimsOf(merged));
    DescribedAlike(StateOf(merged), ClaimsOf(merged), ClaimsOf(a) + ClaimsOf(b));
  }

  lemma EquivalentPrefix(a: seq<Claim>, b: seq<Claim>, c: seq<Claim>)
    requires Equivalent(a, b)
    ensures Equivalent(a + c, b + c)
  {
    hide Cores, Commands, HasEnum, Values, Used;
    forall usage
      ensures Used(a + c, usage) <==> Used(b + c, usage)
    {
      UsedConcat(a, c, usage);
      UsedConcat(b, c, usage);
    }
    forall usage, name
      ensures Cores(a + c, usage, name) == Cores(b + c, usage, name)
      ensures Commands(a + c, usage, name) == Commands(b + c, usage, name)
      ensures HasEnum(a + c, usage, name) <==> HasEnum(b + c, usage, name)
      ensures Values(a + c, usage, name) == Values(b + c, usage, name)
    {
      SaysConcat(a, c, usage, name);
      SaysConcat(b, c, usage, name);
    }
  }

  lemma EquivalentTransitive(a: seq<Claim>, b: seq<Claim>, c: seq<Claim>)
    requires Equivalent(a, b) && Equivalent(b, c)
    ensures Equivalent(a, c)
  {
    hide Cores, Commands, HasEnum, Values, Used;
  }

  lemma EquivalentSymmetric(a: seq<Claim>, b: seq<Claim>)
    requires Equivalent(a, b)
    ensures Equivalent(b, a)
  {
    hide Cores, Commands, HasEnum, Values, Used;
  }

  /** Merging three catalogs in turn is conflict-free exactly when all their claims agree pairwise. */
  lemma MergesInTurnIff(a: Catalog, b: Catalog, c: Catalog)
    requires Normalized(a) && Normalized(b) && Normalized(c)
    ensures Merged(a, b).1 == [] && Merged(Merged(a, b).0, c).1 == [] <==>
            Consistent(ClaimsOf(a) + ClaimsOf(b) + ClaimsOf(c))
    ensures Merged(a, b).1 == [] ==>
            Equivalent(ClaimsOf(Merged(a, b).0) + ClaimsOf(c), ClaimsOf(a) + ClaimsOf(b) + ClaimsOf(c))
  {
    hide *;
    var ab, abc := ClaimsOf(a) + ClaimsOf(b), ClaimsOf(a) + ClaimsOf(b) + ClaimsOf(c);
    MergesIff(a, b);
    if Merged(a, b).1 == [] {
      MergedClaims(a, b);
      var m := Merged(a, b).0;
      EquivalentPrefix(ClaimsOf(m), ab, ClaimsOf(c));
      EquivalentSymmetric(ClaimsOf(m) + ClaimsOf(c), abc);
      MergesIff(m, c);
      if Consistent(ClaimsOf(m) + ClaimsOf(c)) {
        ConsistentEquivalent(ClaimsOf(m) + ClaimsOf(c), abc);
      }
      if Consistent(abc) {
        ConsistentEquivalent(abc, ClaimsOf(m) + ClaimsOf(c));
      }
    } else if Consistent(abc) {
      ConsistentParts(ab, ClaimsOf(c));
    }
  }

  lemma Rotated(a: seq<Claim>, b: seq<Claim>, c: seq<Claim>)
    ensures Equivalent(b + c + a, a + b + c) && Equivalent(a + b + c, b + c + a)
  {
    SameClaimsAreEquivalent(b + c + a, a + b + c);
    SameClaimsAreEquivalent(a + b + c, b + c + a);
  }

  /**
   Merging normalized catalogs is associative: grouped either way, the merges are conflict-free
   or not alike, and without conflict give the same catalog.
   */
  lemma MergeAssociates(a: Catalog, b: Catalog, c: Catalog)
    requires Normalized(a) && Normalized(b) && Normalized(c)
    ensures Merged(a, b).1 == [] && Merged(Merged(a, b).0, c).1 == [] <==>
            Merged(b, c).1 == [] && Merged(a, Merged(b, c).0).1 == []
    ensures Merged(a, b).1 == [] && Merged(Merged(a, b).0, c).1 == [] ==>
            Merged(Merged(a, b).0, c) == Merged(a, Merged(b, c).0)
  {
    hide *;
    var abc, bca := ClaimsOf(a) + ClaimsOf(b) + ClaimsOf(c), ClaimsOf(b) + ClaimsOf(c) + ClaimsOf(a);
    var ab, bc := Merged(a, b).0, Merged(b, c).0;
    MergesInTurnIff(a, b, c);
    MergesInTurnIff(b, c, a);
    MergeIsAdd(a, b);
    MergeIsAdd(b, c);
    Rotated(ClaimsOf(a), ClaimsOf(b), ClaimsOf(c));
    MergeCommutes(bc, a);
    if Consistent(abc) {
      ConsistentEquivalent(abc, bca);
      EquivalentTransitive(ClaimsOf(ab) + ClaimsOf(c), abc, bca);
      EquivalentSymmetric(ClaimsOf(bc) + ClaimsOf(a), bca);
      EquivalentTransitive(ClaimsOf(ab) + ClaimsOf(c), bca, ClaimsOf(bc) + ClaimsOf(a));
      MergesAlike(ab, c, bc, a);
    }
    if Consistent(bca) {
      ConsistentEquivalent(bca, abc);
    }
  }

  lemma AddedAgain(a: seq<Claim>, b: seq<Claim>)
    ensures Equivalent(a + b, a + b + b)
  {
    SameClaimsAreEquivalent(a + b, a + b + b);
  }

  /** Merging again what was merged without conflict changes nothing. */
  lemma MergingAgainChangesNothing(a: Catalog, b: Catalog)
    requires Normalized(a) && Normalized(b) && Merged(a, b).1 == []
    ensures Merged(Merged(a, b).0, b) == (Merged(a, b).0, [])
  {
    hide *;
    var m := Merged(a, b).0;
    MergesInTurnIff(a, b, b);
    MergedClaims(a, b);
    var ab, abb := ClaimsOf(a) + ClaimsOf(b), ClaimsOf(a) + ClaimsOf(b) + ClaimsOf(b);
    AddedAgain(ClaimsOf(a), ClaimsOf(b));
    EquivalentSymmetric(ClaimsOf(m) + ClaimsOf(b), abb);
    EquivalentTransitive(ab, abb, ClaimsOf(m) + ClaimsOf(b));
    MergesIff(a, b);
    MergesIff(m, b);
    MergeIsAdd(m, b);
    ConsistentEquivalent(ab, ClaimsOf(m) + ClaimsOf(b));
    KnownByClaims(StateOf(m), StateOf(Merged(m, b).0), ab, ClaimsOf(m) + ClaimsOf(b));
    NormalByState(m, Merged(m, b).0);
    assert Merged(m, b) == (Merged(m, b).0, Merged(m, b).1);
  }

  // ---- the catalog of a capture ----

  ghost function EntryClaims(entries: seq<Entry>): seq<Claim> {
    if entries == [] then []
    else
      var last := entries[|entries| - 1];
      EntryClaims(entries[..|entries| - 1]) + UsageClaims(last.usage, EntryUsage(last))
  }

  lemma SortedOne(name: string)
    ensures Sorted({name}) == [name]
  {
    IncreasingIsSorted([name]);
    assert Elements([name]) == {name};
  }

  lemma EntryIsNormal(e: Entry)
    ensures NormalFields(EntryUsage(e).fields)
  {
    forall i | 0 <= i < |e.metadata|
      ensures NormalField(SortedEnum(e.metadata[i]))
    {
      SortedIncreases(EnumSet(e.metadata[i]));
    }
  }

  lemma MergeOneUsage(before: Catalog, usage: string, u: Usage)
    requires Normalized(before) && NormalFields(u.fields)
    ensures Normalized(Merged(before, map[usage := u]).0)
    ensures AddAll(StateOf(before), UsageClaims(usage, u)) ==
            (StateOf(Merged(before, map[usage := u]).0), Merged(before, map[usage := u]).1)
  {
    hide NormalUsage, MergedUsage, UsageClaims, NormalFields;
    var one: Catalog := map[usage := u];
    assert one.Keys == {usage};
    SortedOne(usage);
    MergeIsNormalized(before, one);
    MergeNamesIsAdd(before, one, [usage]);
    assert [usage][..0] == [] && NamesClaims(one, []) == [];
    assert NamesClaims(one, [usage]) == [] + UsageClaims(usage, u);
    assert [] + UsageClaims(usage, u) == UsageClaims(usage, u);
  }

  /** Extracting is adding the claims of the entries in turn. */
  lemma {:induction false} ExtractIsAdd(entries: seq<Entry>)
    ensures Normalized(Extracted(entries).0)
    ensures AddAll(map[], EntryClaims(entries)) == (StateOf(Extracted(entries).0), Extracted(entries).1)
    ensures NormalClaims(EntryClaims(entries))
  {
    hide EntryUsage, UsageClaims, Merged, NormalUsage, NormalFields, NormalField;
    if entries == [] {
      assert StateOf(map[]) == map[];
    } else {
      var init, last := entries[..|entries| - 1], entries[|entries| - 1];
      ExtractIsAdd(init);
      EntryIsNormal(last);
      MergeOneUsage(Extracted(init).0, last.usage, EntryUsage(last));
      AddAllConcat(map[], EntryClaims(init), UsageClaims(last.usage, EntryUsage(last)));
      UsageClaimsNormal(last.usage, EntryUsage(last));
    }
  }

  lemma {:induction false} ClaimedByAnEntry(entries: seq<Entry>, c: Claim)
    ensures c in EntryClaims(entries) <==> exists e :: e in entries && c in UsageClaims(e.usage, EntryUsage(e))
  {
    hide EntryUsage, UsageClaims;
    if entries != [] {
      ClaimedByAnEntry(entries[..|entries| - 1], c);
    }
  }

  lemma SameEntriesSameClaims(a: seq<Entry>, b: seq<Entry>)
    requires forall e :: e in a <==> e in b
    ensures Equivalent(EntryClaims(a), EntryClaims(b))
  {
    forall c
      ensures c in EntryClaims(a) <==> c in EntryClaims(b)
    {
      ClaimedByAnEntry(a, c);
      ClaimedByAnEntry(b, c);
    }
    SameClaimsAreEquivalent(EntryClaims(a), EntryClaims(b));
  }

  /** A capture has no conflict exactly when its claims agree pairwise. */
  lemma ExtractsIff(entries: seq<Entry>)
    ensures Extracted(entries).1 == [] <==> Consistent(EntryClaims(entries))
    ensures Describes(StateOf(Extracted(entries).0), EntryClaims(entries))
  {
    hide *;
    ExtractIsAdd(entries);
    ConflictFreeIff(EntryClaims(entries));
    KnownIsClaimed(EntryClaims(entries));
  }

  /**
   The catalog of a capture does not depend on the order of its entries, nor on their repetition:
   conflicts alike, and without conflict the same catalog.
   */
  lemma OrderOfEntriesDoesNotMatter(a: seq<Entry>, b: seq<Entry>)
    requires forall e :: e in a <==> e in b
    ensures Extracted(a).1 == [] <==> Extracted(b).1 == []
    ensures Extracted(a).1 == [] ==> Extracted(a) == Extracted(b)
  {
    SameEntriesSameClaims(a, b);
    SameEntriesSameClaims(b, a);
    ExtractedAlike(a, b);
    ExtractedAlike(b, a);
  }

  lemma ExtractedAlike(a: seq<Entry>, b: seq<Entry>)
    requires Equivalent(EntryClaims(a), EntryClaims(b))
    ensures Extracted(a).1 == [] ==> Extracted(a) == Extracted(b)
  {
    hide *;
    ExtractsIff(a);
    ExtractsIff(b);
    ExtractIsAdd(a);
    ExtractIsAdd(b);
    if Extracted(a).1 == [] {
      ConsistentEquivalent(EntryClaims(a), EntryClaims(b));
      KnownByClaims(StateOf(Extracted(a).0), StateOf(Extracted(b).0), EntryClaims(a), EntryClaims(b));
      NormalByState(Extracted(a).0, Extracted(b).0);
    }
  }

  // ---- nothing is lost ----

  /** What `a` knows, `b` knows, with the same attributes and at least the enum values. */
  ghost predicate Keeps(a: State, b: State) {
    forall usage :: usage in a ==> usage in b && KeepsKnown(a[usage], b[usage])
  }

  ghost predicate KeepsKnown(a: Known, b: Known) {
    && (forall name :: name in a.fields ==> name in b.fields && Core(b.fields[name]) == Core(a.fields[name])
                                             && EnumSet(a.fields[name]) <= EnumSet(b.fields[name]))
    && forall name :: name in a.commands ==> name in b.commands && b.commands[name] == a.commands[name]
  }

  lemma JoinedKeeps(known: Descriptor, d: Descriptor)
    ensures Core(Joined(known, d)) == Core(known) && EnumSet(known) <= EnumSet(Joined(known, d))
  {
  }

  lemma AddFieldKeeps(usage: string, k: Known, d: Descriptor)
    ensures KeepsKnown(k, AddField(usage, k, d).0)
  {
    hide FieldConflicts, Joined, Core, EnumSet;
    if d.name in k.fields {
      JoinedKeeps(k.fields[d.name], d);
    }
  }

  lemma AddCommandKeeps(usage: string, k: Known, c: Command)
    ensures KeepsKnown(k, AddCommand(usage, k, c).0)
  {
  }

  lemma KeepsItself(k: Known)
    ensures KeepsKnown(k, k)
  {
  }

  lemma AddKeeps(k: State, c: Claim)
    ensures Keeps(k, Add(k, c).0)
  {
    hide AddField, AddCommand, KeepsKnown;
    var known := KnownIn(k, c.usage);
    forall usage | usage in k
      ensures KeepsKnown(k[usage], k[usage])
    {
      KeepsItself(k[usage]);
    }
    match c
    case OfUsage(_) => KeepsItself(known);
    case OfField(u, d) => AddFieldKeeps(u, known, d);
    case OfCommand(u, d) => AddCommandKeeps(u, known, d);
  }

  lemma {:induction false} AddAllKeeps(k: State, claims: seq<Claim>)
    ensures Keeps(k, AddAll(k, claims).0)
  {
    hide Add;
    if claims != [] {
      AddAllKeeps(k, claims[..|claims| - 1]);
      AddKeeps(AddAll(k, claims[..|claims| - 1]).0, claims[|claims| - 1]);
    }
  }

  /** Known usages, fields, commands and enum values all stay, conflicts or not. */
  lemma NothingKnownIsLost(known: Catalog, found: Catalog)
    ensures Keeps(StateOf(known), StateOf(Merged(known, found).0))
  {
    hide *;
    MergeNamesIsAdd(known, found, Sorted(found.Keys));
    AddAllKeeps(StateOf(known), NamesClaims(found, Sorted(found.Keys)));
    MergedDefinition(known, found);
  }

  lemma MergedDefinition(known: Catalog, found: Catalog)
    ensures Merged(known, found) == MergeNames(known, found, Sorted(found.Keys))
  {
  }

  /** Without conflict, what was found is kept as well. */
  lemma NothingFoundIsLost(known: Catalog, found: Catalog)
    requires Normalized(known) && Normalized(found) && Merged(known, found).1 == []
    ensures Keeps(StateOf(found), StateOf(Merged(known, found).0))
  {
    hide *;
    MergeCommutes(known, found);
    NothingKnownIsLost(found, known);
  }
}
