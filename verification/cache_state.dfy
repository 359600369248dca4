/**
 The state of the cache as a value, and what each `Cache` method does to it
 (tydomio/mcp_server/cache.py). Endpoints and areas follow the same rules over
 different keys, so these rules are written once, over any key type.
 */
module CacheState {
  import opened Collections
  import opened Model
  import I = Installation

  /** An `Entity`: the cached fields of one endpoint or area. */
  datatype EntityView = EntityView(fields: map<string, Data>, error: int, invalid: bool)

  const UNSEEN := EntityView(map[], 0, false)

  function MergeFields(fields: map<string, Data>, data: seq<Data>): map<string, Data> {
    if data == [] then fields
    else
      var last := data[|data| - 1];
      MergeFields(fields, data[..|data| - 1])[last.name := last]
  }

  /** `_merge` */
  function Merged(entity: EntityView, reading: Reading): EntityView {
    EntityView(MergeFields(entity.fields, reading.data), reading.error, false)
  }

  /** One item of a push: merged into its entity, created when unseen, ignored when not configured. */
  function PushedOne<K>(entities: map<K, EntityView>, usages: map<K, string>, key: K, reading: Reading)
    : map<K, EntityView>
  {
    if key in usages
    then entities[key := Merged(if key in entities then entities[key] else UNSEEN, reading)]
    else entities
  }

  /** A push: its items in turn. */
  function Pushed<K>(entities: map<K, EntityView>, usages: map<K, string>, items: seq<(K, Reading)>)
    : map<K, EntityView>
  {
    if items == [] then entities
    else
      var (key, reading) := items[|items| - 1];
      PushedOne(Pushed(entities, usages, items[..|items| - 1]), usages, key, reading)
  }

  /** The valid entities of a snapshot: each item starts from an entity without fields. */
  function SnapshotItems<K>(usages: map<K, string>, items: seq<(K, Reading)>): map<K, EntityView> {
    if items == [] then map[]
    else
      var prior := SnapshotItems(usages, items[..|items| - 1]);
      var (key, reading) := items[|items| - 1];
      if key in usages then prior[key := Merged(UNSEEN, reading)] else prior
  }

  function WithInvalid<K>(entities: map<K, EntityView>, usages: map<K, string>, invalid: seq<K>)
    : map<K, EntityView>
  {
    if invalid == [] then entities
    else
      var prior := WithInvalid(entities, usages, invalid[..|invalid| - 1]);
      var key := invalid[|invalid| - 1];
      if key in usages then prior[key := UNSEEN.(invalid := true)] else prior
  }

  /** A snapshot: nothing is kept of the entities it replaces. */
  function Snapshot<K>(usages: map<K, string>, items: seq<(K, Reading)>, invalid: seq<K>): map<K, EntityView> {
    WithInvalid(SnapshotItems(usages, items), usages, invalid)
  }

  /** A new config: ids removed or whose usage changed are dropped. */
  function Retargeted<K>(entities: map<K, EntityView>, before: map<K, string>, after: map<K, string>)
    : map<K, EntityView>
  {
    map key | key in entities && Lookup(after, key) == Lookup(before, key) && key in after :: entities[key]
  }

  /** What the config, snapshots and pushes made of the cache. */
  datatype Content = Content(
    config: Option<Config>,
    installation: Option<I.Installation>,
    endpoints: map<EndpointKey, EntityView>,
    areas: map<int, EntityView>,
    endpointUsages: map<EndpointKey, string>,
    areaUsages: map<int, string>)

  const BLANK := Content(None, None, map[], map[], map[], map[])

  datatype Op =
    | ApplyConfig(config: Config)
    | ReplaceDevices(devices: DevicesData, invalidEndpoints: seq<EndpointKey>)
    | ReplaceAreas(areas: AreasData, invalidAreas: seq<int>)
    | MergeDevices(pushedDevices: DevicesData)
    | MergeAreas(pushedAreas: AreasData)

  function Apply(c: Content, op: Op): Content {
    match op
    case ApplyConfig(config) =>
      var endpointUsages := LastWins(EndpointPairs(config));
      var areaUsages := LastWins(AreaPairs(config));
      Content(
        Some(config),
        Some(I.FromConfig(config)),
        Retargeted(c.endpoints, c.endpointUsages, endpointUsages),
        Retargeted(c.areas, c.areaUsages, areaUsages),
        endpointUsages,
        areaUsages)
    case ReplaceDevices(devices, invalid) =>
      c.(endpoints := Snapshot(c.endpointUsages, DevicesItems(devices), invalid))
    case ReplaceAreas(areas, invalid) =>
      c.(areas := Snapshot(c.areaUsages, AreasItems(areas), invalid))
    case MergeDevices(devices) =>
      c.(endpoints := Pushed(c.endpoints, c.endpointUsages, DevicesItems(devices)))
    case MergeAreas(areas) =>
      c.(areas := Pushed(c.areas, c.areaUsages, AreasItems(areas)))
  }

  /** The content after a log of operations. */
  function ApplyAll(c: Content, log: seq<Op>): Content {
    if log == [] then c else Apply(ApplyAll(c, log[..|log| - 1]), log[|log| - 1])
  }

  lemma {:induction false} ApplyAllConcat(c: Content, a: seq<Op>, b: seq<Op>)
    ensures ApplyAll(c, a + b) == ApplyAll(ApplyAll(c, a), b)
  {
    if b == [] {
      assert a + b == a;
    } else {
      ApplyAllConcat(c, a, b[..|b| - 1]);
      assert (a + b)[..|a + b| - 1] == a + b[..|b| - 1];
    }
  }

  datatype Connection = Connecting | Connected | Disconnected

  /** The whole state of a `Cache` object. */
  datatype State = State(content: Content, connection: Connection, synced: bool, syncedAt: Option<int>) {
    predicate Fresh() {
      connection == Connected && synced
    }

    function MarkConnected(): State {
      this.(connection := Connected)
    }

    function MarkSynced(now: int): State {
      this.(synced := true, syncedAt := Some(now))
    }

    function MarkDisconnected(): State {
      this.(connection := Disconnected, synced := false)
    }
  }

  const INITIAL := State(BLANK, Connecting, false, None)

  // ---- pushes compose ----

  lemma {:induction false} PushedConcat<K>(
    entities: map<K, EntityView>, usages: map<K, string>, a: seq<(K, Reading)>, b: seq<(K, Reading)>)
    ensures Pushed(entities, usages, a + b) == Pushed(Pushed(entities, usages, a), usages, b)
  {
    if b == [] {
      assert a + b == a;
    } else {
      PushedConcat(entities, usages, a, b[..|b| - 1]);
      assert (a + b)[..|a + b| - 1] == a + b[..|b| - 1];
    }
  }

  /** Merging two pushes in turn is merging their concatenation. */
  lemma PushesCompose(c: Content, a: DevicesData, b: DevicesData, x: AreasData, y: AreasData)
    ensures Apply(Apply(c, MergeDevices(a)), MergeDevices(b)) == Apply(c, MergeDevices(a + b))
    ensures Apply(Apply(c, MergeAreas(x)), MergeAreas(y)) == Apply(c, MergeAreas(x + y))
  {
    DevicesItemsConcat(a, b);
    PushedConcat(c.endpoints, c.endpointUsages, DevicesItems(a), DevicesItems(b));
    AreasItemsConcat(x, y);
    PushedConcat(c.areas, c.areaUsages, AreasItems(x), AreasItems(y));
  }

  // ---- only configured ids are cached, and the installation is that of the config ----

  /** What every reachable cache satisfies. */
  ghost predicate Configured(c: Content) {
    && c.endpoints.Keys <= c.endpointUsages.Keys
    && c.areas.Keys <= c.areaUsages.Keys
    && c.config.Some? == c.installation.Some?
    && (c.config.Some? ==>
          && c.endpointUsages == LastWins(EndpointPairs(c.config.value))
          && c.areaUsages == LastWins(AreaPairs(c.config.value))
          && c.installation.value == I.FromConfig(c.config.value))
    && (c.config.None? ==> c.endpointUsages == map[] && c.areaUsages == map[])
  }

  lemma {:induction false} PushedKeys<K>(entities: map<K, EntityView>, usages: map<K, string>, items: seq<(K, Reading)>)
    requires entities.Keys <= usages.Keys
    ensures Pushed(entities, usages, items).Keys <= usages.Keys
  {
    if items != [] {
      PushedKeys(entities, usages, items[..|items| - 1]);
    }
  }

  lemma {:induction false} SnapshotItemsKeys<K>(usages: map<K, string>, items: seq<(K, Reading)>)
    ensures SnapshotItems(usages, items).Keys <= usages.Keys
  {
    if items != [] {
      SnapshotItemsKeys(usages, items[..|items| - 1]);
    }
  }

  lemma {:induction false} WithInvalidKeys<K>(entities: map<K, EntityView>, usages: map<K, string>, invalid: seq<K>)
    requires entities.Keys <= usages.Keys
    ensures WithInvalid(entities, usages, invalid).Keys <= usages.Keys
  {
    if invalid != [] {
      WithInvalidKeys(entities, usages, invalid[..|invalid| - 1]);
    }
  }

  lemma ApplyKeepsConfigured(c: Content, op: Op)
    requires Configured(c)
    ensures Configured(Apply(c, op))
  {
    match op
    case ApplyConfig(config) =>
    case ReplaceDevices(devices, invalid) =>
      SnapshotItemsKeys(c.endpointUsages, DevicesItems(devices));
      WithInvalidKeys(SnapshotItems(c.endpointUsages, DevicesItems(devices)), c.endpointUsages, invalid);
    case ReplaceAreas(areas, invalid) =>
      SnapshotItemsKeys(c.areaUsages, AreasItems(areas));
      WithInvalidKeys(SnapshotItems(c.areaUsages, AreasItems(areas)), c.areaUsages, invalid);
    case MergeDevices(devices) =>
      PushedKeys(c.endpoints, c.endpointUsages, DevicesItems(devices));
    case MergeAreas(areas) =>
      PushedKeys(c.areas, c.areaUsages, AreasItems(areas));
  }

  /** After any log: an entity exists only for a configured id, and the installation is the config's. */
  lemma {:induction false} OnlyConfiguredIds(log: seq<Op>)
    ensures Configured(ApplyAll(BLANK, log))
  {
    if log != [] {
      OnlyConfiguredIds(log[..|log| - 1]);
      ApplyKeepsConfigured(ApplyAll(BLANK, log[..|log| - 1]), log[|log| - 1]);
    }
  }
}
