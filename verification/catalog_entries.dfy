/** The catalog of a capture, said by the descriptors and commands of its entries alone. */
module CatalogEntries {
  import opened Collections
  import opened Names
  import opened Catalogs
  import opened CatalogClaims
  import opened CatalogTheorems

  // ---- what the entries say ----

  ghost predicate SaysField(entries: seq<Entry>, e: Entry, d: Descriptor, usage: string, name: string) {
    e in entries && e.usage == usage && d in e.metadata && d.name == name
  }

  ghost predicate SaysCommand(entries: seq<Entry>, e: Entry, c: Command, usage: string, name: string) {
    e in entries && e.usage == usage && c in e.cmetadata && c.name == name
  }

  ghost predicate SameEnums(a: Descriptor, b: Descriptor) {
    (a.enumValues.Some? <==> b.enumValues.Some?) && EnumSet(a) == EnumSet(b)
  }

  /** The same up to the order and the repetition of the enum values of its parameters. */
  ghost predicate SameCommand(a: Command, b: Command) {
    && a.name == b.name && a.permission == b.permission && |a.parameters| == |b.parameters|
    && forall i :: 0 <= i < |a.parameters| ==>
         SameAttributes(a.parameters[i], b.parameters[i]) && SameEnums(a.parameters[i], b.parameters[i])
  }

  /** The field has the attributes every entry gives it, and the enum values of all of them. */
  ghost predicate IsFieldOf(entries: seq<Entry>, usage: string, f: Descriptor) {
    && (exists e, d :: SaysField(entries, e, d, usage, f.name))
    && (forall e, d :: SaysField(entries, e, d, usage, f.name) ==> SameAttributes(f, d))
    && (f.enumValues.Some? <==> exists e, d :: SaysField(entries, e, d, usage, f.name) && d.enumValues.Some?)
    && forall x :: x in EnumSet(f) <==> exists e, d :: SaysField(entries, e, d, usage, f.name) && x in EnumSet(d)
  }

  ghost predicate IsCommandIn(entries: seq<Entry>, usage: string, k: Command) {
    && (exists e, c :: SaysCommand(entries, e, c, usage, k.name))
    && forall e, c :: SaysCommand(entries, e, c, usage, k.name) ==> SameCommand(k, c)
  }

  // ---- claims of entries ----

  lemma SortedEnumSays(d: Descriptor)
    ensures SortedEnum(d).name == d.name && Core(SortedEnum(d)) == Core(d)
    ensures SortedEnum(d).enumValues.Some? <==> d.enumValues.Some?
    ensures EnumSet(SortedEnum(d)) == EnumSet(d)
  {
  }

  lemma FieldClaimed(entries: seq<Entry>, c: Claim, usage: string, name: string)
    ensures c in EntryClaims(entries) && IsOf(c, usage, name) <==>
            exists e, d :: SaysField(entries, e, d, usage, name) && c == OfField(usage, SortedEnum(d))
  {
    hide SortedEnum, EnumSet;
    ClaimedByAnEntry(entries, c);
    if c in EntryClaims(entries) && IsOf(c, usage, name) {
      var e :| e in entries && c in UsageClaims(e.usage, EntryUsage(e));
      var d := FieldOfClaim(e, c);
      SortedEnumSays(d);
      assert SaysField(entries, e, d, usage, name);
    }
    if e, d :| SaysField(entries, e, d, usage, name) && c == OfField(usage, SortedEnum(d)) {
      SortedEnumSays(d);
      ClaimOfField(e, d);
    }
  }

  lemma FieldOfClaim(e: Entry, c: Claim) returns (d: Descriptor)
    requires c in UsageClaims(e.usage, EntryUsage(e)) && c.OfField?
    ensures d in e.metadata && c == OfField(e.usage, SortedEnum(d))
  {
    hide SortedEnum, EnumSet;
    var u := EntryUsage(e);
    assert c in FieldClaims(e.usage, u.fields);
    var i :| 0 <= i < |u.fields| && c == FieldClaims(e.usage, u.fields)[i];
    d := e.metadata[i];
  }

  lemma ClaimOfField(e: Entry, d: Descriptor)
    requires d in e.metadata
    ensures OfField(e.usage, SortedEnum(d)) in UsageClaims(e.usage, EntryUsage(e))
  {
    hide SortedEnum, EnumSet;
    var i :| 0 <= i < |e.metadata| && e.metadata[i] == d;
    assert FieldClaims(e.usage, EntryUsage(e).fields)[i] == OfField(e.usage, SortedEnum(d));
  }

  lemma CommandClaimed(entries: seq<Entry>, x: Claim, usage: string, name: string)
    ensures x in EntryClaims(entries) && IsCommandOf(x, usage, name) <==>
            exists e, c :: SaysCommand(entries, e, c, usage, name) && x == OfCommand(usage, SortedCommand(c))
  {
    hide SortedEnums;
    ClaimedByAnEntry(entries, x);
    if x in EntryClaims(entries) && IsCommandOf(x, usage, name) {
      var e :| e in entries && x in UsageClaims(e.usage, EntryUsage(e));
      var c := CommandOfClaim(e, x);
      assert SaysCommand(entries, e, c, usage, name);
    }
    if e, c :| SaysCommand(entries, e, c, usage, name) && x == OfCommand(usage, SortedCommand(c)) {
      ClaimOfCommand(e, c);
    }
  }

  lemma CommandOfClaim(e: Entry, x: Claim) returns (c: Command)
    requires x in UsageClaims(e.usage, EntryUsage(e)) && x.OfCommand?
    ensures c in e.cmetadata && x == OfCommand(e.usage, SortedCommand(c))
  {
    hide SortedCommand, SortedEnum;
    var u := EntryUsage(e);
    assert x in CommandClaims(e.usage, u.commands);
    var i :| 0 <= i < |u.commands| && x == CommandClaims(e.usage, u.commands)[i];
    c := e.cmetadata[i];
  }

  lemma ClaimOfCommand(e: Entry, c: Command)
    requires c in e.cmetadata
    ensures OfCommand(e.usage, SortedCommand(c)) in UsageClaims(e.usage, EntryUsage(e))
  {
    hide SortedCommand, SortedEnum;
    var i :| 0 <= i < |e.cmetadata| && e.cmetadata[i] == c;
    assert CommandClaims(e.usage, EntryUsage(e).commands)[i] == OfCommand(e.usage, SortedCommand(c));
  }

  lemma SortedCommandSays(c: Command)
    ensures SameCommand(SortedCommand(c), c)
  {
    forall i | 0 <= i < |c.parameters|
      ensures SameAttributes(SortedCommand(c).parameters[i], c.parameters[i])
      ensures SameEnums(SortedCommand(c).parameters[i], c.parameters[i])
    {
      SortedEnumSays(c.parameters[i]);
    }
  }

  // ---- the catalog ----

  /** A normalized catalog lists what its state knows. */
  lemma ListedIsKnown(catalog: Catalog, usage: string)
    requires Normalized(catalog) && usage in catalog
    ensures forall f :: f in catalog[usage].fields <==>
              f.name in StateOf(catalog)[usage].fields && StateOf(catalog)[usage].fields[f.name] == f
    ensures forall c :: c in catalog[usage].commands <==>
              c.name in StateOf(catalog)[usage].commands && StateOf(catalog)[usage].commands[c.name] == c
  {
    hide ByName, Less;
    var u := catalog[usage];
    DistinctNames(u.fields, FIELD_NAME);
    DistinctNames(u.commands, COMMAND_NAME);
    ByNameIs(u.fields, FIELD_NAME);
    ByNameIs(u.commands, COMMAND_NAME);
    forall i | 0 <= i < |u.fields|
      ensures var known := ByName(u.fields, FIELD_NAME);
              u.fields[i].name in known && known[u.fields[i].name] == u.fields[i]
    {
      ByNameFinds(u.fields, FIELD_NAME, i);
    }
    forall i | 0 <= i < |u.commands|
      ensures var known := ByName(u.commands, COMMAND_NAME);
              u.commands[i].name in known && known[u.commands[i].name] == u.commands[i]
    {
      ByNameFinds(u.commands, COMMAND_NAME, i);
    }
  }

  lemma FieldIs(entries: seq<Entry>, usage: string, name: string)
    requires Extracted(entries).1 == []
    ensures var k := KnownIn(StateOf(Extracted(entries).0), usage);
            && (name in k.fields <==> exists e, d :: SaysField(entries, e, d, usage, name))
            && (name in k.fields ==> k.fields[name].name == name && IsFieldOf(entries, usage, k.fields[name]))
  {
    hide Extracted, EntryClaims, SortedEnum, EnumSet, SaysField, Sorted;
    ExtractsIff(entries);
    var claims := EntryClaims(entries);
    var k := KnownIn(StateOf(Extracted(entries).0), usage);
    assert DescribesField(k, claims, usage, name) && Alike(Cores(claims, usage, name));
    forall c
      ensures c in claims && IsOf(c, usage, name) <==>
              exists e, d :: SaysField(entries, e, d, usage, name) && c == OfField(usage, SortedEnum(d))
    {
      FieldClaimed(entries, c, usage, name);
    }
    forall d: Descriptor
      ensures SortedEnum(d).name == d.name && Core(SortedEnum(d)) == Core(d)
      ensures SortedEnum(d).enumValues.Some? <==> d.enumValues.Some?
      ensures EnumSet(SortedEnum(d)) == EnumSet(d)
    {
      SortedEnumSays(d);
    }
    FieldFromClaims(entries, claims, k, usage, name);
  }

  lemma FieldFromClaims(entries: seq<Entry>, claims: seq<Claim>, k: Known, usage: string, name: string)
    requires DescribesField(k, claims, usage, name) && Alike(Cores(claims, usage, name))
    requires forall c :: c in claims && IsOf(c, usage, name) <==>
               exists e, d :: SaysField(entries, e, d, usage, name) && c == OfField(usage, SortedEnum(d))
    requires forall d: Descriptor ::
               && SortedEnum(d).name == d.name && Core(SortedEnum(d)) == Core(d)
               && (SortedEnum(d).enumValues.Some? <==> d.enumValues.Some?)
               && EnumSet(SortedEnum(d)) == EnumSet(d)
    ensures name in k.fields <==> exists e, d :: SaysField(entries, e, d, usage, name)
    ensures name in k.fields ==> k.fields[name].name == name && IsFieldOf(entries, usage, k.fields[name])
  {
    hide SortedEnum, SaysField;
    if e, d :| SaysField(entries, e, d, usage, name) {
      var c := OfField(usage, SortedEnum(d));
      assert c in claims && IsOf(c, usage, name);
      assert Core(c.field) in Cores(claims, usage, name);
    }
    if name in k.fields {
      var f := k.fields[name];
      assert Core(f) in Cores(claims, usage, name);
      var c :| c in claims && IsOf(c, usage, name) && Core(c.field) == Core(f);
      forall e, d | SaysField(entries, e, d, usage, name)
        ensures SameAttributes(f, d)
      {
        var x := OfField(usage, SortedEnum(d));
        assert x in claims && IsOf(x, usage, name);
        assert Core(x.field) in Cores(claims, usage, name);
        assert Core(d) == Core(f);
      }
      EnumsFromClaims(entries, claims, k, usage, name);
    }
  }

  lemma EnumsFromClaims(entries: seq<Entry>, claims: seq<Claim>, k: Known, usage: string, name: string)
    requires DescribesField(k, claims, usage, name) && name in k.fields
    requires forall c :: c in claims && IsOf(c, usage, name) <==>
               exists e, d :: SaysField(entries, e, d, usage, name) && c == OfField(usage, SortedEnum(d))
    requires forall d: Descriptor ::
               (SortedEnum(d).enumValues.Some? <==> d.enumValues.Some?) && EnumSet(SortedEnum(d)) == EnumSet(d)
    ensures k.fields[name].enumValues.Some? <==>
            exists e, d :: SaysField(entries, e, d, usage, name) && d.enumValues.Some?
    ensures forall x :: x in EnumSet(k.fields[name]) <==>
              exists e, d :: SaysField(entries, e, d, usage, name) && x in EnumSet(d)
  {
    hide SortedEnum, SaysField;
    var f := k.fields[name];
    forall x
      ensures x in EnumSet(f) <==> x in Values(claims, usage, name)
    {
      if x in Values(claims, usage, name) {
        assert HasEnum(claims, usage, name);
      }
    }
    forall x
      ensures x in Values(claims, usage, name) <==>
              exists e, d :: SaysField(entries, e, d, usage, name) && x in EnumSet(d)
    {
      if e, d :| SaysField(entries, e, d, usage, name) && x in EnumSet(d) {
        var c := OfField(usage, SortedEnum(d));
        assert c in claims && IsOf(c, usage, name) && x in EnumSet(c.field);
      }
    }
    if e, d :| SaysField(entries, e, d, usage, name) && d.enumValues.Some? {
      var c := OfField(usage, SortedEnum(d));
      assert c in claims && IsOf(c, usage, name) && c.field.enumValues.Some?;
    }
  }

  lemma CommandIs(entries: seq<Entry>, usage: string, name: string)
    requires Extracted(entries).1 == []
    ensures var k := KnownIn(StateOf(Extracted(entries).0), usage);
            && (name in k.commands <==> exists e, c :: SaysCommand(entries, e, c, usage, name))
            && (name in k.commands ==> k.commands[name].name == name && IsCommandIn(entries, usage, k.commands[name]))
  {
    hide Extracted, EntryClaims, SortedCommand, SaysCommand, SameCommand;
    ExtractsIff(entries);
    var claims := EntryClaims(entries);
    var k := KnownIn(StateOf(Extracted(entries).0), usage);
    assert DescribesCommand(k, claims, usage, name) && Alike(Commands(claims, usage, name));
    forall x
      ensures x in claims && IsCommandOf(x, usage, name) <==>
              exists e, c :: SaysCommand(entries, e, c, usage, name) && x == OfCommand(usage, SortedCommand(c))
    {
      CommandClaimed(entries, x, usage, name);
    }
    if e, c :| SaysCommand(entries, e, c, usage, name) {
      var x := OfCommand(usage, SortedCommand(c));
      assert x in claims && IsCommandOf(x, usage, name);
      assert x.command in Commands(claims, usage, name);
    }
    if name in k.commands {
      forall e, c | SaysCommand(entries, e, c, usage, name)
        ensures SameCommand(k.commands[name], c)
      {
        var x := OfCommand(usage, SortedCommand(c));
        assert x in claims && IsCommandOf(x, usage, name);
        assert x.command in Commands(claims, usage, name);
        SortedCommandSays(c);
      }
    }
  }

  lemma UsageIs(entries: seq<Entry>, usage: string)
    ensures usage in Extracted(entries).0 <==> exists e :: e in entries && e.usage == usage
  {
    hide Extracted, EntryClaims, EntryUsage;
    ExtractsIff(entries);
    var claims := EntryClaims(entries);
    if usage in Extracted(entries).0 {
      assert Used(claims, usage);
      var c :| c in claims && c.usage == usage;
      ClaimedByAnEntry(entries, c);
      var e :| e in entries && c in UsageClaims(e.usage, EntryUsage(e));
    }
    if e :| e in entries && e.usage == usage {
      ClaimedByAnEntry(entries, OfUsage(usage));
      assert UsageClaims(e.usage, EntryUsage(e))[0] == OfUsage(usage);
      assert Used(claims, usage);
    }
  }

  lemma ListedAreSaid(entries: seq<Entry>, usage: string)
    requires Extracted(entries).1 == [] && usage in Extracted(entries).0
    ensures forall f :: f in Extracted(entries).0[usage].fields ==> IsFieldOf(entries, usage, f)
    ensures forall c :: c in Extracted(entries).0[usage].commands ==> IsCommandIn(entries, usage, c)
  {
    hide Extracted, IsFieldOf, IsCommandIn, Normalized, KnownOf;
    var catalog := Extracted(entries).0;
    ExtractIsAdd(entries);
    ListedIsKnown(catalog, usage);
    forall f | f in catalog[usage].fields
      ensures IsFieldOf(entries, usage, f)
    {
      FieldIs(entries, usage, f.name);
    }
    forall c | c in catalog[usage].commands
      ensures IsCommandIn(entries, usage, c)
    {
      CommandIs(entries, usage, c.name);
    }
  }

  ghost predicate HasField(catalog: Catalog, usage: string, name: string) {
    usage in catalog && exists f :: f in catalog[usage].fields && f.name == name
  }

  ghost predicate HasCommand(catalog: Catalog, usage: string, name: string) {
    usage in catalog && exists c :: c in catalog[usage].commands && c.name == name
  }

  lemma FieldIsListed(entries: seq<Entry>, e: Entry, d: Descriptor)
    requires Extracted(entries).1 == [] && e in entries && d in e.metadata
    ensures HasField(Extracted(entries).0, e.usage, d.name)
  {
    hide Extracted, IsFieldOf, Normalized, KnownOf;
    var catalog := Extracted(entries).0;
    ExtractIsAdd(entries);
    UsageIs(entries, e.usage);
    ListedIsKnown(catalog, e.usage);
    assert SaysField(entries, e, d, e.usage, d.name);
    FieldIs(entries, e.usage, d.name);
    assert StateOf(catalog)[e.usage].fields[d.name] in catalog[e.usage].fields;
  }

  lemma CommandIsListed(entries: seq<Entry>, e: Entry, c: Command)
    requires Extracted(entries).1 == [] && e in entries && c in e.cmetadata
    ensures HasCommand(Extracted(entries).0, e.usage, c.name)
  {
    hide Extracted, IsCommandIn, Normalized, KnownOf;
    var catalog := Extracted(entries).0;
    ExtractIsAdd(entries);
    UsageIs(entries, e.usage);
    ListedIsKnown(catalog, e.usage);
    assert SaysCommand(entries, e, c, e.usage, c.name);
    CommandIs(entries, e.usage, c.name);
    assert StateOf(catalog)[e.usage].commands[c.name] in catalog[e.usage].commands;
  }

  /** The catalog has exactly the usages, fields and commands the entries have. */
  ghost predicate IsThatOf(catalog: Catalog, entries: seq<Entry>) {
    && (forall usage :: usage in catalog <==> exists e :: e in entries && e.usage == usage)
    && (forall usage, f :: usage in catalog && f in catalog[usage].fields ==> IsFieldOf(entries, usage, f))
    && (forall usage, c :: usage in catalog && c in catalog[usage].commands ==> IsCommandIn(entries, usage, c))
    && (forall e, d :: e in entries && d in e.metadata ==> HasField(catalog, e.usage, d.name))
    && forall e, c :: e in entries && c in e.cmetadata ==> HasCommand(catalog, e.usage, c.name)
  }

  /**
   Without conflict, the catalog of a capture has exactly the usages, fields and commands its entries
   have: each field with the attributes they all give it and the enum values of all of them, each
   command as they all have it.
   */
  lemma CatalogIsThatOfEntries(entries: seq<Entry>)
    requires Extracted(entries).1 == []
    ensures IsThatOf(Extracted(entries).0, entries)
  {
    hide Extracted, IsFieldOf, IsCommandIn, HasField, HasCommand;
    var catalog := Extracted(entries).0;
    forall usage
      ensures usage in catalog <==> exists e :: e in entries && e.usage == usage
    {
      UsageIs(entries, usage);
    }
    forall usage, f | usage in catalog && f in catalog[usage].fields
      ensures IsFieldOf(entries, usage, f)
    {
      ListedAreSaid(entries, usage);
    }
    forall usage, c | usage in catalog && c in catalog[usage].commands
      ensures IsCommandIn(entries, usage, c)
    {
      ListedAreSaid(entries, usage);
    }
    forall e, d | e in entries && d in e.metadata
      ensures HasField(catalog, e.usage, d.name)
    {
      FieldIsListed(entries, e, d);
    }
    forall e, c | e in entries && c in e.cmetadata
      ensures HasCommand(catalog, e.usage, c.name)
    {
      CommandIsListed(entries, e, c);
    }
  }
}
