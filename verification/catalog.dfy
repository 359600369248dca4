/** Merging catalogs of usages (tydomio/capture/catalog.py:31-264), as functions and as the loops of the code. */
module Catalogs {
  import opened Collections
  import opened Names

  datatype Descriptor = Descriptor(
    name: string,
    kind: string,                   // type
    permission: Option<string>,
    validity: Option<string>,
    unit_: Option<string>,
    min: Option<real>,
    max: Option<real>,
    step: Option<real>,
    size: Option<int>,
    enumValues: Option<seq<string>>)

  datatype Command = Command(name: string, permission: string, parameters: seq<Descriptor>)

  datatype Usage = Usage(fields: seq<Descriptor>, commands: seq<Command>)

  /** Usage name to its fields and commands. */
  type Catalog = map<string, Usage>

  datatype Attribute = NAME | TYPE | PERMISSION | VALIDITY | UNIT | MIN | MAX | STEP | SIZE | ENUM_VALUES

  const ATTRIBUTES := [NAME, TYPE, PERMISSION, VALIDITY, UNIT, MIN, MAX, STEP, SIZE, ENUM_VALUES]

  datatype Value = Text(text: Option<string>) | Number(number: Option<real>) | Listed(texts: Option<seq<string>>)

  function AttributeOf(d: Descriptor, attribute: Attribute): Value {
    match attribute
    case NAME => Text(Some(d.name))
    case TYPE => Text(Some(d.kind))
    case PERMISSION => Text(d.permission)
    case VALIDITY => Text(d.validity)
    case UNIT => Text(d.unit_)
    case MIN => Number(d.min)
    case MAX => Number(d.max)
    case STEP => Number(d.step)
    case SIZE => Number(if d.size.Some? then Some(d.size.value as real) else None)
    case ENUM_VALUES => Listed(d.enumValues)
  }

  datatype Conflict =
    | AttributeConflict(usage: string, name: string, attribute: Attribute, known: Value, found: Value)
    | CommandConflict(usage: string, name: string, knownCommand: Command, foundCommand: Command)

  // ---- one field ----

  function FieldConflicts(usage: string, known: Descriptor, found: Descriptor,
                          attributes: seq<Attribute>): seq<Conflict> {
    if attributes == [] then []
    else
      var a := attributes[|attributes| - 1];
      FieldConflicts(usage, known, found, attributes[..|attributes| - 1]) +
      if a != ENUM_VALUES && AttributeOf(known, a) != AttributeOf(found, a)
      then [AttributeConflict(usage, known.name, a, AttributeOf(known, a), AttributeOf(found, a))]
      else []
  }

  ghost function EnumSet(d: Descriptor): set<string> {
    if d.enumValues.None? then {} else Elements(d.enumValues.value)
  }

  /** The known field, with the enum values of both. */
  ghost function Joined(known: Descriptor, found: Descriptor): Descriptor {
    if known.enumValues.None? && found.enumValues.None? then known
    else known.(enumValues := Some(Sorted(EnumSet(known) + EnumSet(found))))
  }

  /** Two descriptions of a field agree on everything but enum values. */
  predicate SameAttributes(a: Descriptor, b: Descriptor) {
    a == b.(enumValues := a.enumValues)
  }

  lemma {:induction false} NoConflictIff(usage: string, known: Descriptor, found: Descriptor,
                                         attributes: seq<Attribute>)
    ensures FieldConflicts(usage, known, found, attributes) == [] <==>
            forall a :: a in attributes && a != ENUM_VALUES ==> AttributeOf(known, a) == AttributeOf(found, a)
  {
    if attributes != [] {
      NoConflictIff(usage, known, found, attributes[..|attributes| - 1]);
    }
  }

  lemma AttributesAreAll(a: Attribute)
    ensures a in ATTRIBUTES
  {
    match a
    case NAME => assert ATTRIBUTES[0] == a;
    case TYPE => assert ATTRIBUTES[1] == a;
    case PERMISSION => assert ATTRIBUTES[2] == a;
    case VALIDITY => assert ATTRIBUTES[3] == a;
    case UNIT => assert ATTRIBUTES[4] == a;
    case MIN => assert ATTRIBUTES[5] == a;
    case MAX => assert ATTRIBUTES[6] == a;
    case STEP => assert ATTRIBUTES[7] == a;
    case SIZE => assert ATTRIBUTES[8] == a;
    case ENUM_VALUES => assert ATTRIBUTES[9] == a;
  }

  lemma SameAttributesIff(a: Descriptor, b: Descriptor)
    ensures SameAttributes(a, b) <==> forall at :: at != ENUM_VALUES ==> AttributeOf(a, at) == AttributeOf(b, at)
  {
    if forall at :: at != ENUM_VALUES ==> AttributeOf(a, at) == AttributeOf(b, at) {
      assert AttributeOf(a, NAME) == AttributeOf(b, NAME) && AttributeOf(a, TYPE) == AttributeOf(b, TYPE);
      assert AttributeOf(a, PERMISSION) == AttributeOf(b, PERMISSION)
             && AttributeOf(a, VALIDITY) == AttributeOf(b, VALIDITY);
      assert AttributeOf(a, UNIT) == AttributeOf(b, UNIT) && AttributeOf(a, MIN) == AttributeOf(b, MIN);
      assert AttributeOf(a, MAX) == AttributeOf(b, MAX) && AttributeOf(a, STEP) == AttributeOf(b, STEP);
      assert AttributeOf(a, SIZE) == AttributeOf(b, SIZE);
    }
  }

  /** A field merges without conflict exactly when only enum values differ. */
  lemma FieldsAgreeIff(usage: string, known: Descriptor, found: Descriptor)
    ensures FieldConflicts(usage, known, found, ATTRIBUTES) == [] <==> SameAttributes(known, found)
  {
    hide AttributeOf;
    NoConflictIff(usage, known, found, ATTRIBUTES);
    SameAttributesIff(known, found);
    forall a: Attribute
      ensures a in ATTRIBUTES
    {
      AttributesAreAll(a);
    }
  }

  lemma {:induction false} ConflictIff(usage: string, known: Descriptor, found: Descriptor, attributes: seq<Attribute>,
                                       c: Conflict)
    ensures c in FieldConflicts(usage, known, found, attributes) <==>
            exists a :: a in attributes && a != ENUM_VALUES && AttributeOf(known, a) != AttributeOf(found, a)
              && c == AttributeConflict(usage, known.name, a, AttributeOf(known, a), AttributeOf(found, a))
  {
    hide AttributeOf;
    if attributes != [] {
      var n := |attributes| - 1;
      ConflictIff(usage, known, found, attributes[..n], c);
      assert attributes == attributes[..n] + [attributes[n]];
    }
  }

  /** The conflict of an attribute that differs. */
  predicate Differs(all: seq<Conflict>, usage: string, name: string, a: Attribute, known: Value, found: Value) {
    AttributeConflict(usage, name, a, known, found) in all <==> known != found
  }

  lemma ConflictOf(usage: string, known: Descriptor, found: Descriptor, a: Attribute)
    requires a != ENUM_VALUES
    ensures Differs(FieldConflicts(usage, known, found, ATTRIBUTES), usage, known.name, a,
                    AttributeOf(known, a), AttributeOf(found, a))
  {
    hide AttributeOf, FieldConflicts;
    AttributesAreAll(a);
    ConflictIff(usage, known, found, ATTRIBUTES,
                AttributeConflict(usage, known.name, a, AttributeOf(known, a), AttributeOf(found, a)));
  }

  function SizeValue(size: Option<int>): Value {
    Number(match size { case Some(n) => Some(n as real) case None => None })
  }

  /** The conflict reported of an attribute names it, with what is known first and what was found second. */
  lemma ConflictsSayWhatDiffers(usage: string, known: Descriptor, found: Descriptor)
    ensures var all, name := FieldConflicts(usage, known, found, ATTRIBUTES), known.name;
            && Differs(all, usage, name, TYPE, Text(Some(known.kind)), Text(Some(found.kind)))
            && Differs(all, usage, name, PERMISSION, Text(known.permission), Text(found.permission))
            && Differs(all, usage, name, VALIDITY, Text(known.validity), Text(found.validity))
            && Differs(all, usage, name, UNIT, Text(known.unit_), Text(found.unit_))
            && Differs(all, usage, name, MIN, Number(known.min), Number(found.min))
            && Differs(all, usage, name, MAX, Number(known.max), Number(found.max))
            && Differs(all, usage, name, STEP, Number(known.step), Number(found.step))
            && Differs(all, usage, name, SIZE, SizeValue(known.size), SizeValue(found.size))
            && forall c :: c in all ==> c.AttributeConflict? && c.usage == usage && c.name == name && c.known != c.found
  {
    hide FieldConflicts, Differs;
    ConflictOf(usage, known, found, TYPE);
    ConflictOf(usage, known, found, PERMISSION);
    ConflictOf(usage, known, found, VALIDITY);
    ConflictOf(usage, known, found, UNIT);
    ConflictOf(usage, known, found, MIN);
    ConflictOf(usage, known, found, MAX);
    ConflictOf(usage, known, found, STEP);
    ConflictOf(usage, known, found, SIZE);
    forall c | c in FieldConflicts(usage, known, found, ATTRIBUTES)
      ensures c.AttributeConflict? && c.usage == usage && c.name == known.name && c.known != c.found
    {
      ConflictIff(usage, known, found, ATTRIBUTES, c);
    }
  }

  function SetOf(values: Option<seq<string>>): set<string> {
    if values.None? then {} else set x | x in values.value
  }

  /** `_merge_field` */
  method MergeField(usage: string, known: Descriptor, found: Descriptor)
    returns (merged: Descriptor, conflicts: seq<Conflict>)
    ensures merged == Joined(known, found)
    ensures conflicts == FieldConflicts(usage, known, found, ATTRIBUTES)
  {
    conflicts := [];
    for i := 0 to |ATTRIBUTES|
      invariant conflicts == FieldConflicts(usage, known, found, ATTRIBUTES[..i])
    {
      assert ATTRIBUTES[..i + 1][..i] == ATTRIBUTES[..i];
      var a := ATTRIBUTES[i];
      if a != ENUM_VALUES && AttributeOf(known, a) != AttributeOf(found, a) {
        var conflict := AttributeConflict(usage, known.name, a, AttributeOf(known, a), AttributeOf(found, a));
        conflicts := conflicts + [conflict];
      }
    }
    assert ATTRIBUTES[..|ATTRIBUTES|] == ATTRIBUTES;
    if known.enumValues.None? && found.enumValues.None? {
      return known, conflicts;
    }
    var union := Sort(SetOf(known.enumValues) + SetOf(found.enumValues));
    merged := known.(enumValues := Some(union));
  }

  // ---- one usage ----

  /** What is known of a usage, by name. */
  datatype Known = Known(fields: map<string, Descriptor>, commands: map<string, Command>)

  const NOTHING := Known(map[], map[])
  const FIELD_NAME := (d: Descriptor) => d.name
  const COMMAND_NAME := (c: Command) => c.name

  ghost function AddField(usage: string, k: Known, d: Descriptor): (Known, seq<Conflict>) {
    if d.name in k.fields then
      var known := k.fields[d.name];
      (k.(fields := k.fields[d.name := Joined(known, d)]), FieldConflicts(usage, known, d, ATTRIBUTES))
    else (k.(fields := k.fields[d.name := d]), [])
  }

  ghost function AddFields(usage: string, k: Known, fields: seq<Descriptor>): (Known, seq<Conflict>) {
    if fields == [] then (k, [])
    else
      var (before, conflicts) := AddFields(usage, k, fields[..|fields| - 1]);
      var (after, more) := AddField(usage, before, fields[|fields| - 1]);
      (after, conflicts + more)
  }

  function AddCommand(usage: string, k: Known, c: Command): (Known, seq<Conflict>) {
    if c.name in k.commands && k.commands[c.name] != c then (k, [CommandConflict(usage, c.name, k.commands[c.name], c)])
    else (k.(commands := k.commands[c.name := c]), [])
  }

  function AddCommands(usage: string, k: Known, commands: seq<Command>): (Known, seq<Conflict>) {
    if commands == [] then (k, [])
    else
      var (before, conflicts) := AddCommands(usage, k, commands[..|commands| - 1]);
      var (after, more) := AddCommand(usage, before, commands[|commands| - 1]);
      (after, conflicts + more)
  }

  ghost predicate CommandsKeyed(k: Known) {
    forall name :: name in k.commands ==> k.commands[name].name == name
  }

  ghost predicate CommandsStay(k: Known, after: Known) {
    forall name :: name in k.commands ==> name in after.commands && after.commands[name] == k.commands[name]
  }

  ghost predicate SaysConflict(usage: string, after: Known, c: Conflict) {
    && c.CommandConflict? && c.usage == usage && c.foundCommand.name == c.name && c.foundCommand != c.knownCommand
    && c.name in after.commands && after.commands[c.name] == c.knownCommand
  }

  lemma CommandConflictSays(usage: string, k: Known, found: Command)
    requires CommandsKeyed(k)
    ensures var (after, conflicts) := AddCommand(usage, k, found);
            && CommandsKeyed(after) && CommandsStay(k, after)
            && forall c :: c in conflicts ==> SaysConflict(usage, after, c) && c.foundCommand == found
  {
  }

  /** Each conflict of a command says what stays known of it, and what was found and is not taken. */
  lemma {:induction false} CommandConflictsSay(usage: string, k: Known, commands: seq<Command>)
    requires CommandsKeyed(k)
    ensures var (after, conflicts) := AddCommands(usage, k, commands);
            && CommandsKeyed(after) && CommandsStay(k, after)
            && forall c :: c in conflicts ==> SaysConflict(usage, after, c) && c.foundCommand in commands
  {
    if commands != [] {
      var n := |commands| - 1;
      CommandConflictsSay(usage, k, commands[..n]);
      CommandConflictSays(usage, AddCommands(usage, k, commands[..n]).0, commands[n]);
      assert commands == commands[..n] + [commands[n]];
    }
  }

  function KnownOf(u: Usage): Known {
    Known(ByName(u.fields, FIELD_NAME), ByName(u.commands, COMMAND_NAME))
  }

  /** Fields and commands, each sorted by name. */
  ghost function UsageOf(k: Known): Usage {
    Usage(InOrder(k.fields), InOrder(k.commands))
  }

  ghost function AddUsage(usage: string, k: Known, found: Usage): (Known, seq<Conflict>) {
    var (withFields, conflicts) := AddFields(usage, k, found.fields);
    var (all, more) := AddCommands(usage, withFields, found.commands);
    (all, conflicts + more)
  }

  ghost function MergedUsage(usage: string, known: Usage, found: Usage): (Usage, seq<Conflict>) {
    var (k, conflicts) := AddUsage(usage, KnownOf(known), found);
    (UsageOf(k), conflicts)
  }

  method List<T>(items: map<string, T>) returns (listed: seq<T>)
    ensures listed == InOrder(items)
  {
    hide Sorted;
    var names := Sort(items.Keys);
    assert forall i :: 0 <= i < |names| ==> names[i] in Elements(names);
    listed := [];
    for i := 0 to |names|
      invariant |listed| == i && forall k :: 0 <= k < i ==> listed[k] == items[names[k]]
    {
      listed := listed + [items[names[i]]];
    }
  }

  method MergeFields(usage: string, known: map<string, Descriptor>, found: seq<Descriptor>)
    returns (fields: map<string, Descriptor>, conflicts: seq<Conflict>)
    ensures forall commands :: AddFields(usage, Known(known, commands), found) == (Known(fields, commands), conflicts)
  {
    fields, conflicts := known, [];
    for i := 0 to |found|
      invariant forall commands ::
                  AddFields(usage, Known(known, commands), found[..i]) == (Known(fields, commands), conflicts)
    {
      assert found[..i + 1][..i] == found[..i];
      var d := found[i];
      if d.name in fields {
        var merged, more := MergeField(usage, fields[d.name], d);
        fields, conflicts := fields[d.name := merged], conflicts + more;
      } else {
        fields := fields[d.name := d];
        assert conflicts + [] == conflicts;
      }
    }
    assert found[..|found|] == found;
  }

  method MergeCommands(usage: string, known: map<string, Command>, found: seq<Command>)
    returns (commands: map<string, Command>, conflicts: seq<Conflict>)
    ensures forall fields :: AddCommands(usage, Known(fields, known), found) == (Known(fields, commands), conflicts)
  {
    commands, conflicts := known, [];
    for i := 0 to |found|
      invariant forall fields ::
                  AddCommands(usage, Known(fields, known), found[..i]) == (Known(fields, commands), conflicts)
    {
      assert found[..i + 1][..i] == found[..i];
      var c := found[i];
      if c.name in commands && commands[c.name] != c {
        conflicts := conflicts + [CommandConflict(usage, c.name, commands[c.name], c)];
      } else {
        commands := commands[c.name := c];
        assert conflicts + [] == conflicts;
      }
    }
    assert found[..|found|] == found;
  }

  /** `_merge_usage` */
  method MergeUsage(usage: string, known: Usage, found: Usage) returns (merged: Usage, conflicts: seq<Conflict>)
    ensures (merged, conflicts) == MergedUsage(usage, known, found)
  {
    var k := KnownOf(known);
    var fields, fieldConflicts := MergeFields(usage, k.fields, found.fields);
    var commands, commandConflicts := MergeCommands(usage, k.commands, found.commands);
    assert AddFields(usage, Known(k.fields, k.commands), found.fields) == (Known(fields, k.commands), fieldConflicts);
    assert AddCommands(usage, Known(fields, k.commands), found.commands) == (Known(fields, commands), commandConflicts);
    var listedFields := List(fields);
    var listedCommands := List(commands);
    merged, conflicts := Usage(listedFields, listedCommands), fieldConflicts + commandConflicts;
  }

  // ---- catalogs ----

  const UNUSED := Usage([], [])

  function UsageIn(catalog: Catalog, name: string): Usage {
    if name in catalog then catalog[name] else UNUSED
  }

  ghost function MergeNames(known: Catalog, found: Catalog, names: seq<string>): (Catalog, seq<Conflict>) {
    if names == [] then (known, [])
    else
      var name := names[|names| - 1];
      var (before, conflicts) := MergeNames(known, found, names[..|names| - 1]);
      var (merged, more) := MergedUsage(name, UsageIn(before, name), UsageIn(found, name));
      (before[name := merged], conflicts + more)
  }

  /** `found` merged into `known`: entries added, enum values unioned. */
  ghost function Merged(known: Catalog, found: Catalog): (Catalog, seq<Conflict>) {
    MergeNames(known, found, Sorted(found.Keys))
  }

  lemma MergeNext(known: Catalog, found: Catalog, names: seq<string>, i: nat)
    requires i < |names|
    ensures var (before, conflicts) := MergeNames(known, found, names[..i]);
            var (merged, more) := MergedUsage(names[i], UsageIn(before, names[i]), UsageIn(found, names[i]));
            MergeNames(known, found, names[..i + 1]) == (before[names[i] := merged], conflicts + more)
  {
    hide MergedUsage;
    assert names[..i + 1][..i] == names[..i];
  }

  /** `merge` */
  method Merge(known: Catalog, found: Catalog) returns (catalog: Catalog, conflicts: seq<Conflict>)
    ensures (catalog, conflicts) == Merged(known, found)
  {
    hide MergedUsage, Sorted;
    var names := Sort(found.Keys);
    catalog, conflicts := known, [];
    for i := 0 to |names|
      invariant (catalog, conflicts) == MergeNames(known, found, names[..i])
    {
      MergeNext(known, found, names, i);
      var merged, more := MergeUsage(names[i], UsageIn(catalog, names[i]), UsageIn(found, names[i]));
      catalog, conflicts := catalog[names[i] := merged], conflicts + more;
    }
    assert names[..|names|] == names;
  }

  // ---- a capture ----

  /** The descriptors and commands of an endpoint or area, under its usage. */
  datatype Entry = Entry(usage: string, metadata: seq<Descriptor>, cmetadata: seq<Command>)

  /** `_sorted_enum` */
  ghost function SortedEnum(d: Descriptor): Descriptor {
    if d.enumValues.None? then d else d.(enumValues := Some(Sorted(EnumSet(d))))
  }

  ghost function SortedEnums(ds: seq<Descriptor>): (sorted: seq<Descriptor>)
    ensures |sorted| == |ds|
    ensures forall i :: 0 <= i < |ds| ==> sorted[i] == SortedEnum(ds[i])
  {
    seq(|ds|, i requires 0 <= i < |ds| => SortedEnum(ds[i]))
  }

  /** `_sorted_command` */
  ghost function SortedCommand(c: Command): Command {
    c.(parameters := SortedEnums(c.parameters))
  }

  ghost function SortedCommands(cs: seq<Command>): (sorted: seq<Command>)
    ensures |sorted| == |cs|
    ensures forall i :: 0 <= i < |cs| ==> sorted[i] == SortedCommand(cs[i])
  {
    seq(|cs|, i requires 0 <= i < |cs| => SortedCommand(cs[i]))
  }

  /** `_entry` */
  ghost function EntryUsage(e: Entry): Usage {
    Usage(SortedEnums(e.metadata), SortedCommands(e.cmetadata))
  }

  ghost function Extracted(entries: seq<Entry>): (Catalog, seq<Conflict>) {
    if entries == [] then (map[], [])
    else
      var last := entries[|entries| - 1];
      var (before, conflicts) := Extracted(entries[..|entries| - 1]);
      var (after, more) := Merged(before, map[last.usage := EntryUsage(last)]);
      (after, conflicts + more)
  }

  method SortEnums(ds: seq<Descriptor>) returns (sorted: seq<Descriptor>)
    ensures sorted == SortedEnums(ds)
  {
    sorted := [];
    for i := 0 to |ds|
      invariant |sorted| == i && forall k :: 0 <= k < i ==> sorted[k] == SortedEnum(ds[k])
    {
      var d := ds[i];
      if d.enumValues.Some? {
        var values := Sort(SetOf(d.enumValues));
        d := d.(enumValues := Some(values));
      }
      sorted := sorted + [d];
    }
  }

  method SortCommands(cs: seq<Command>) returns (sorted: seq<Command>)
    ensures sorted == SortedCommands(cs)
  {
    sorted := [];
    for i := 0 to |cs|
      invariant |sorted| == i && forall k :: 0 <= k < i ==> sorted[k] == SortedCommand(cs[k])
    {
      var parameters := SortEnums(cs[i].parameters);
      sorted := sorted + [cs[i].(parameters := parameters)];
    }
  }

  /** `extract`, from the entries of the documents. */
  method Extract(entries: seq<Entry>) returns (catalog: Catalog, conflicts: seq<Conflict>)
    ensures (catalog, conflicts) == Extracted(entries)
  {
    catalog, conflicts := map[], [];
    for i := 0 to |entries|
      invariant (catalog, conflicts) == Extracted(entries[..i])
    {
      assert entries[..i + 1][..i] == entries[..i];
      var fields := SortEnums(entries[i].metadata);
      var commands := SortCommands(entries[i].cmetadata);
      var merged, found := Merge(catalog, map[entries[i].usage := Usage(fields, commands)]);
      catalog, conflicts := merged, conflicts + found;
    }
    assert entries[..|entries|] == entries;
  }
}
