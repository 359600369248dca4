/** What configs, pushes and answers do to the cache, said over the fields of their documents alone. */
module CacheEffects {
  import opened Collections
  import opened Model
  import opened CacheState
  import opened CacheScan
  import R = Responses
  import I = Installation

  // ---- what a config says of an id: its last entry of that id ----

  predicate IsEndpoint(entry: ConfigEndpoint, device: int, endpoint: int) {
    entry.idDevice == device && entry.idEndpoint == endpoint
  }

  ghost predicate EndpointHas(config: Config, device: int, endpoint: int, usage: string) {
    exists i :: 0 <= i < |config.endpoints|
      && IsEndpoint(config.endpoints[i], device, endpoint) && config.endpoints[i].lastUsage == usage
      && forall j :: i < j < |config.endpoints| ==> !IsEndpoint(config.endpoints[j], device, endpoint)
  }

  ghost predicate AreaHas(config: Config, id: int, usage: string) {
    exists i :: 0 <= i < |config.areas| && config.areas[i] == ConfigArea(id, usage)
      && forall j :: i < j < |config.areas| ==> config.areas[j].id != id
  }

  ghost predicate GroupHas(config: Config, id: int, usage: string) {
    exists i :: 0 <= i < |config.groups| && config.groups[i] == ConfigGroup(id, usage)
      && forall j :: i < j < |config.groups| ==> config.groups[j].id != id
  }

  predicate ListsEndpoint(config: Config, device: int, endpoint: int) {
    exists i :: 0 <= i < |config.endpoints| && IsEndpoint(config.endpoints[i], device, endpoint)
  }

  predicate ListsArea(config: Config, id: int) {
    exists i :: 0 <= i < |config.areas| && config.areas[i].id == id
  }

  /** Configured: the config of the cache lists it. */
  predicate KnowsEndpoint(c: Content, device: int, endpoint: int) {
    c.config.Some? && ListsEndpoint(c.config.value, device, endpoint)
  }

  predicate KnowsArea(c: Content, id: int) {
    c.config.Some? && ListsArea(c.config.value, id)
  }

  lemma EndpointUsage(config: Config, device: int, endpoint: int, usage: string)
    ensures Lookup(LastWins(EndpointPairs(config)), (device, endpoint)) == Some(usage) <==>
            EndpointHas(config, device, endpoint, usage)
  {
    hide LastWins;
    var pairs := EndpointPairs(config);
    LastWinsIsLast(pairs, (device, endpoint), usage);
    assert forall i :: 0 <= i < |pairs| ==>
             (pairs[i].0 == (device, endpoint) <==> IsEndpoint(config.endpoints[i], device, endpoint));
    assert forall i :: 0 <= i < |pairs| ==> pairs[i].1 == config.endpoints[i].lastUsage;
    if EndpointHas(config, device, endpoint, usage) {
      var i :| 0 <= i < |config.endpoints|
        && IsEndpoint(config.endpoints[i], device, endpoint) && config.endpoints[i].lastUsage == usage
        && forall j :: i < j < |config.endpoints| ==> !IsEndpoint(config.endpoints[j], device, endpoint);
      assert pairs[i] == ((device, endpoint), usage);
    }
  }

  lemma AreaUsage(config: Config, id: int, usage: string)
    ensures Lookup(LastWins(AreaPairs(config)), id) == Some(usage) <==> AreaHas(config, id, usage)
  {
    hide LastWins;
    var pairs := AreaPairs(config);
    LastWinsIsLast(pairs, id, usage);
    assert forall i :: 0 <= i < |pairs| ==> pairs[i] == (config.areas[i].id, config.areas[i].lastUsage);
    assert forall i :: 0 <= i < |pairs| ==> (pairs[i] == (id, usage) <==> config.areas[i] == ConfigArea(id, usage));
  }

  lemma GroupUsage(config: Config, id: int, usage: string)
    ensures Lookup(LastWins(GroupPairs(config)), id) == Some(usage) <==> GroupHas(config, id, usage)
  {
    hide LastWins;
    var pairs := GroupPairs(config);
    LastWinsIsLast(pairs, id, usage);
    assert forall i :: 0 <= i < |pairs| ==> pairs[i] == (config.groups[i].id, config.groups[i].usage);
    assert forall i :: 0 <= i < |pairs| ==> (pairs[i] == (id, usage) <==> config.groups[i] == ConfigGroup(id, usage));
  }

  lemma EndpointKeys(config: Config, device: int, endpoint: int)
    ensures (device, endpoint) in LastWins(EndpointPairs(config)) <==> ListsEndpoint(config, device, endpoint)
  {
    var pairs := EndpointPairs(config);
    LastWinsKeys(pairs, (device, endpoint));
    assert forall i :: 0 <= i < |pairs| ==>
             (pairs[i].0 == (device, endpoint) <==> IsEndpoint(config.endpoints[i], device, endpoint));
    if i :| 0 <= i < |config.endpoints| && IsEndpoint(config.endpoints[i], device, endpoint) {
      assert pairs[i].0 == (device, endpoint);
    }
  }

  lemma AreaKeys(config: Config, id: int)
    ensures id in LastWins(AreaPairs(config)) <==> ListsArea(config, id)
  {
    var pairs := AreaPairs(config);
    LastWinsKeys(pairs, id);
    if i :| 0 <= i < |config.areas| && config.areas[i].id == id {
      assert pairs[i].0 == id;
    }
  }

  /** Only ids the config lists are configured. */
  lemma ConfiguredIsListed(c: Content, device: int, endpoint: int, area: int)
    requires Configured(c)
    ensures (device, endpoint) in c.endpointUsages <==> KnowsEndpoint(c, device, endpoint)
    ensures area in c.areaUsages <==> KnowsArea(c, area)
  {
    if c.config.Some? {
      EndpointKeys(c.config.value, device, endpoint);
      AreaKeys(c.config.value, area);
    }
  }

  // ---- a config ----

  /** The config gives the usages and the installation. */
  ghost predicate UsagesAre(config: Config, c: Content) {
    && c.config == Some(config) && c.installation.Some?
    && (forall device, endpoint, usage ::
          && (Lookup(c.endpointUsages, (device, endpoint)) == Some(usage) <==>
              EndpointHas(config, device, endpoint, usage))
          && (Lookup(c.installation.value.endpoints, (device, endpoint)) == Some(usage) <==>
              EndpointHas(config, device, endpoint, usage)))
    && (forall id, usage :: Lookup(c.areaUsages, id) == Some(usage) <==> AreaHas(config, id, usage))
    && (forall id :: id in c.installation.value.areas <==> ListsArea(config, id))
    && (forall id, usage :: Lookup(c.installation.value.groups, id) == Some(usage) <==> GroupHas(config, id, usage))
  }

  /** Both configs give the endpoint the same usage. */
  ghost predicate SameUsage(before: Option<Config>, config: Config, device: int, endpoint: int) {
    before.Some? && exists usage ::
      EndpointHas(before.value, device, endpoint, usage) && EndpointHas(config, device, endpoint, usage)
  }

  ghost predicate SameAreaUsage(before: Option<Config>, config: Config, id: int) {
    before.Some? && exists usage :: AreaHas(before.value, id, usage) && AreaHas(config, id, usage)
  }

  /** The config is taken; what is cached stays exactly where it gives the same usage as the one before. */
  ghost predicate ConfigEffect(before: Content, config: Config, after: Content) {
    && UsagesAre(config, after)
    && (forall device, endpoint ::
          Lookup(after.endpoints, (device, endpoint)) ==
          if SameUsage(before.config, config, device, endpoint)
          then Lookup(before.endpoints, (device, endpoint)) else None)
    && (forall id ::
          Lookup(after.areas, id) ==
          if SameAreaUsage(before.config, config, id) then Lookup(before.areas, id) else None)
  }

  lemma UsagesAreTaken(c: Content, config: Config)
    ensures UsagesAre(config, Apply(c, ApplyConfig(config)))
  {
    hide LastWins, EndpointPairs, AreaPairs, GroupPairs, EndpointHas, AreaHas, GroupHas, Retargeted;
    forall device, endpoint, usage
      ensures Lookup(LastWins(EndpointPairs(config)), (device, endpoint)) == Some(usage) <==>
              EndpointHas(config, device, endpoint, usage)
    {
      EndpointUsage(config, device, endpoint, usage);
    }
    forall id, usage
      ensures Lookup(LastWins(AreaPairs(config)), id) == Some(usage) <==> AreaHas(config, id, usage)
      ensures Lookup(LastWins(GroupPairs(config)), id) == Some(usage) <==> GroupHas(config, id, usage)
    {
      AreaUsage(config, id, usage);
      GroupUsage(config, id, usage);
    }
  }

  lemma EndpointKeptIff(c: Content, config: Config, device: int, endpoint: int)
    requires Configured(c)
    ensures SameUsage(c.config, config, device, endpoint) <==>
            var after := LastWins(EndpointPairs(config));
            && (device, endpoint) in after
            && Lookup(after, (device, endpoint)) == Lookup(c.endpointUsages, (device, endpoint))
  {
    hide LastWins, EndpointPairs, EndpointHas;
    var after := LastWins(EndpointPairs(config));
    forall usage
      ensures Lookup(after, (device, endpoint)) == Some(usage) <==> EndpointHas(config, device, endpoint, usage)
      ensures c.config.Some? ==> (Lookup(c.endpointUsages, (device, endpoint)) == Some(usage) <==>
                                  EndpointHas(c.config.value, device, endpoint, usage))
    {
      EndpointUsage(config, device, endpoint, usage);
      if c.config.Some? {
        EndpointUsage(c.config.value, device, endpoint, usage);
      }
    }
  }

  lemma AreaKeptIff(c: Content, config: Config, id: int)
    requires Configured(c)
    ensures SameAreaUsage(c.config, config, id) <==>
            var after := LastWins(AreaPairs(config));
            id in after && Lookup(after, id) == Lookup(c.areaUsages, id)
  {
    hide LastWins, AreaPairs, AreaHas;
    var after := LastWins(AreaPairs(config));
    forall usage
      ensures Lookup(after, id) == Some(usage) <==> AreaHas(config, id, usage)
      ensures c.config.Some? ==> (Lookup(c.areaUsages, id) == Some(usage) <==> AreaHas(c.config.value, id, usage))
    {
      AreaUsage(config, id, usage);
      if c.config.Some? {
        AreaUsage(c.config.value, id, usage);
      }
    }
  }

  /** A config applied to any cache that follows one is taken, entry by entry. */
  lemma ConfigIsTaken(c: Content, config: Config)
    requires Configured(c)
    ensures ConfigEffect(c, config, Apply(c, ApplyConfig(config)))
  {
    hide LastWins, EndpointPairs, AreaPairs, UsagesAre, SameUsage, SameAreaUsage, I.FromConfig;
    UsagesAreTaken(c, config);
    forall device, endpoint
      ensures Lookup(Apply(c, ApplyConfig(config)).endpoints, (device, endpoint)) ==
              if SameUsage(c.config, config, device, endpoint) then Lookup(c.endpoints, (device, endpoint)) else None
    {
      EndpointKeptIff(c, config, device, endpoint);
    }
    forall id
      ensures Lookup(Apply(c, ApplyConfig(config)).areas, id) ==
              if SameAreaUsage(c.config, config, id) then Lookup(c.areas, id) else None
    {
      AreaKeptIff(c, config, id);
    }
  }

  // ---- what a document says of one id, in its order ----

  function ReadingsIn(entities: seq<Endpoint>, id: int): seq<Reading> {
    if entities == [] then []
    else
      var last := entities[|entities| - 1];
      ReadingsIn(entities[..|entities| - 1], id) + if last.id == id then [last.reading] else []
  }

  function ReadingsOf(devices: DevicesData, device: int, endpoint: int): seq<Reading> {
    if devices == [] then []
    else
      var last := devices[|devices| - 1];
      ReadingsOf(devices[..|devices| - 1], device, endpoint) +
      if last.id == device then ReadingsIn(last.endpoints, endpoint) else []
  }

  /** The last data of that name in all the readings. */
  function LastSaid(readings: seq<Reading>, name: string): Option<Data> {
    if readings == [] then None
    else
      match LastNamed(readings[|readings| - 1].data, name)
      case Some(data) => Some(data)
      case None => LastSaid(readings[..|readings| - 1], name)
  }

  /** A push of these readings: the last error, the last data of each name, the other fields as they were. */
  ghost predicate PushSays(readings: seq<Reading>, before: Option<EntityView>, after: Option<EntityView>) {
    if readings == [] then after == before
    else
      && after.Some? && !after.value.invalid && after.value.error == readings[|readings| - 1].error
      && forall name ::
           Lookup(after.value.fields, name) ==
           match LastSaid(readings, name)
           case Some(data) => Some(data)
           case None => if before.Some? then Lookup(before.value.fields, name) else None
  }

  ghost predicate DevicesPushEffect(before: Content, devices: DevicesData, after: Content) {
    && after == before.(endpoints := after.endpoints)
    && forall device, endpoint ::
         var was, now := Lookup(before.endpoints, (device, endpoint)), Lookup(after.endpoints, (device, endpoint));
         if KnowsEndpoint(before, device, endpoint) then PushSays(ReadingsOf(devices, device, endpoint), was, now)
         else now == was
  }

  ghost predicate AreasPushEffect(before: Content, areas: AreasData, after: Content) {
    && after == before.(areas := after.areas)
    && forall id ::
         var was, now := Lookup(before.areas, id), Lookup(after.areas, id);
         if KnowsArea(before, id) then PushSays(ReadingsIn(areas, id), was, now) else now == was
  }

  function ItemReadings<K(==)>(items: seq<(K, Reading)>, key: K): seq<Reading> {
    if items == [] then []
    else
      var last := items[|items| - 1];
      ItemReadings(items[..|items| - 1], key) + if last.0 == key then [last.1] else []
  }

  lemma {:induction false} ItemReadingsConcat<K>(a: seq<(K, Reading)>, b: seq<(K, Reading)>, key: K)
    ensures ItemReadings(a + b, key) == ItemReadings(a, key) + ItemReadings(b, key)
  {
    if b == [] {
      assert a + b == a;
    } else {
      var n := |b| - 1;
      ItemReadingsConcat(a, b[..n], key);
      assert (a + b)[..|a + b| - 1] == a + b[..n];
      Associative(ItemReadings(a, key), ItemReadings(b[..n], key), if b[n].0 == key then [b[n].1] else []);
    }
  }

  lemma ItemReadingsSnoc<K>(items: seq<(K, Reading)>, item: (K, Reading), key: K)
    ensures ItemReadings(items + [item], key) == ItemReadings(items, key) + if item.0 == key then [item.1] else []
  {
    assert (items + [item])[..|items|] == items;
  }

  lemma {:induction false} DeviceReadings(id: int, endpoints: seq<Endpoint>, device: int, endpoint: int)
    ensures ItemReadings(DeviceItems(id, endpoints), (device, endpoint)) ==
            if id == device then ReadingsIn(endpoints, endpoint) else []
  {
    if endpoints != [] {
      var n := |endpoints| - 1;
      DeviceReadings(id, endpoints[..n], device, endpoint);
      ItemReadingsSnoc(DeviceItems(id, endpoints[..n]), ((id, endpoints[n].id), endpoints[n].reading),
        (device, endpoint));
    }
  }

  lemma {:induction false} DevicesReadings(devices: DevicesData, device: int, endpoint: int)
    ensures ItemReadings(DevicesItems(devices), (device, endpoint)) == ReadingsOf(devices, device, endpoint)
  {
    if devices != [] {
      var n := |devices| - 1;
      DevicesReadings(devices[..n], device, endpoint);
      DeviceReadings(devices[n].id, devices[n].endpoints, device, endpoint);
      ItemReadingsConcat(DevicesItems(devices[..n]), DeviceItems(devices[n].id, devices[n].endpoints),
        (device, endpoint));
    }
  }

  lemma {:induction false} AreasReadings(areas: AreasData, id: int)
    ensures ItemReadings(AreasItems(areas), id) == ReadingsIn(areas, id)
  {
    if areas != [] {
      var n := |areas| - 1;
      AreasReadings(areas[..n], id);
      ItemReadingsSnoc(AreasItems(areas[..n]), (areas[n].id, areas[n].reading), id);
    }
  }

  lemma PushSaysSnoc(readings: seq<Reading>, reading: Reading, before: Option<EntityView>, mid: Option<EntityView>)
    requires PushSays(readings, before, mid)
    ensures PushSays(readings + [reading], before,
                     Some(Merged(if mid.Some? then mid.value else UNSEEN, reading)))
  {
    var all := readings + [reading];
    assert all[..|readings|] == readings;
    var entity := if mid.Some? then mid.value else UNSEEN;
    forall name
      ensures Lookup(Merged(entity, reading).fields, name) ==
              match LastSaid(all, name)
              case Some(data) => Some(data)
              case None => if before.Some? then Lookup(before.value.fields, name) else None
    {
      MergeFieldsNamed(entity.fields, reading.data, name);
    }
  }

  lemma {:induction false} PushedSays<K>(
    entities: map<K, EntityView>, usages: map<K, string>, items: seq<(K, Reading)>, key: K)
    ensures key in usages ==>
              PushSays(ItemReadings(items, key), Lookup(entities, key), Lookup(Pushed(entities, usages, items), key))
    ensures key !in usages ==> Lookup(Pushed(entities, usages, items), key) == Lookup(entities, key)
  {
    hide PushSays, Merged;
    if items == [] {
      PushSaysNothing(Lookup(entities, key));
    } else {
      var n := |items| - 1;
      PushedSays(entities, usages, items[..n], key);
      if items[n].0 == key && key in usages {
        PushSaysSnoc(ItemReadings(items[..n], key), items[n].1, Lookup(entities, key),
                     Lookup(Pushed(entities, usages, items[..n]), key));
      } else {
        assert ItemReadings(items[..n], key) + [] == ItemReadings(items[..n], key);
      }
    }
  }

  lemma PushSaysNothing(entity: Option<EntityView>)
    ensures PushSays([], entity, entity)
  {
  }

  /** A push writes what it says of each configured id, and nothing else. */
  lemma PushesAreTaken(c: Content, devices: DevicesData, areas: AreasData)
    requires Configured(c)
    ensures DevicesPushEffect(c, devices, Apply(c, MergeDevices(devices)))
    ensures AreasPushEffect(c, areas, Apply(c, MergeAreas(areas)))
  {
    hide PushSays, Pushed, Configured, KnowsEndpoint, KnowsArea;
    forall device, endpoint
      ensures (device, endpoint) in c.endpointUsages <==> KnowsEndpoint(c, device, endpoint)
      ensures ItemReadings(DevicesItems(devices), (device, endpoint)) == ReadingsOf(devices, device, endpoint)
    {
      ConfiguredIsListed(c, device, endpoint, 0);
      DevicesReadings(devices, device, endpoint);
    }
    forall key
      ensures key in c.endpointUsages ==>
                PushSays(ItemReadings(DevicesItems(devices), key), Lookup(c.endpoints, key),
                         Lookup(Pushed(c.endpoints, c.endpointUsages, DevicesItems(devices)), key))
      ensures key !in c.endpointUsages ==>
                Lookup(Pushed(c.endpoints, c.endpointUsages, DevicesItems(devices)), key) == Lookup(c.endpoints, key)
    {
      PushedSays(c.endpoints, c.endpointUsages, DevicesItems(devices), key);
    }
    forall id
      ensures id in c.areaUsages <==> KnowsArea(c, id)
      ensures ItemReadings(AreasItems(areas), id) == ReadingsIn(areas, id)
    {
      ConfiguredIsListed(c, 0, 0, id);
      AreasReadings(areas, id);
    }
    forall id
      ensures id in c.areaUsages ==>
                PushSays(ItemReadings(AreasItems(areas), id), Lookup(c.areas, id),
                         Lookup(Pushed(c.areas, c.areaUsages, AreasItems(areas)), id))
      ensures id !in c.areaUsages ==>
                Lookup(Pushed(c.areas, c.areaUsages, AreasItems(areas)), id) == Lookup(c.areas, id)
    {
      PushedSays(c.areas, c.areaUsages, AreasItems(areas), id);
    }
  }

  // ---- snapshots, as received ----

  function RawReadingsIn(raw: seq<R.RawEndpoint>, id: int): seq<Option<Reading>> {
    if raw == [] then []
    else
      var last := raw[|raw| - 1];
      RawReadingsIn(raw[..|raw| - 1], id) + if last.id == id then [last.reading] else []
  }

  function RawReadingsOf(raw: seq<R.RawDevice>, device: int, endpoint: int): seq<Option<Reading>> {
    if raw == [] then []
    else
      var last := raw[|raw| - 1];
      RawReadingsOf(raw[..|raw| - 1], device, endpoint) +
      if last.id == device then RawReadingsIn(last.endpoints, endpoint) else []
  }

  /** Exactly what the reading says, whatever was cached. */
  ghost predicate IsReading(reading: Reading, entity: EntityView) {
    && !entity.invalid && entity.error == reading.error
    && forall name :: Lookup(entity.fields, name) == LastNamed(reading.data, name)
  }

  /** A snapshot: absent when not listed, invalid when a reading does not validate, else the last reading. */
  ghost predicate SnapshotSays(readings: seq<Option<Reading>>, after: Option<EntityView>) {
    if readings == [] then after == None
    else if None in readings then after == Some(EntityView(map[], 0, true))
    else after.Some? && IsReading(readings[|readings| - 1].value, after.value)
  }

  ghost predicate DevicesEffect(before: Content, raw: seq<R.RawDevice>, after: Content) {
    && after == before.(endpoints := after.endpoints)
    && forall device, endpoint ::
         SnapshotSays(if KnowsEndpoint(before, device, endpoint) then RawReadingsOf(raw, device, endpoint) else [],
                      Lookup(after.endpoints, (device, endpoint)))
  }

  ghost predicate AreasEffect(before: Content, raw: seq<R.RawEndpoint>, after: Content) {
    && after == before.(areas := after.areas)
    && forall id ::
         SnapshotSays(if KnowsArea(before, id) then RawReadingsIn(raw, id) else [], Lookup(after.areas, id))
  }

  function Valids(readings: seq<Option<Reading>>): seq<Reading> {
    if readings == [] then []
    else
      var last := readings[|readings| - 1];
      Valids(readings[..|readings| - 1]) + if last.Some? then [last.value] else []
  }

  lemma {:induction false} ValidsConcat(a: seq<Option<Reading>>, b: seq<Option<Reading>>)
    ensures Valids(a + b) == Valids(a) + Valids(b)
  {
    if b == [] {
      assert a + b == a;
    } else {
      var n := |b| - 1;
      ValidsConcat(a, b[..n]);
      assert (a + b)[..|a + b| - 1] == a + b[..n];
      Associative(Valids(a), Valids(b[..n]), if b[n].Some? then [b[n].value] else []);
    }
  }

  lemma {:induction false} ValidsLast(readings: seq<Option<Reading>>)
    requires None !in readings
    ensures |Valids(readings)| == |readings|
    ensures readings != [] ==> Valids(readings)[|readings| - 1] == readings[|readings| - 1].value
  {
    if readings != [] {
      ValidsLast(readings[..|readings| - 1]);
    }
  }

  lemma ReadingsInSnoc(entities: seq<Endpoint>, last: Endpoint, id: int)
    ensures ReadingsIn(entities + [last], id) == ReadingsIn(entities, id) + if last.id == id then [last.reading] else []
  {
    assert (entities + [last])[..|entities|] == entities;
  }

  lemma {:induction false} SplitReadings(raw: seq<R.RawEndpoint>, id: int)
    ensures ReadingsIn(R.ValidEndpoints(raw), id) == Valids(RawReadingsIn(raw, id))
    ensures id in R.InvalidIds(raw) <==> None in RawReadingsIn(raw, id)
  {
    if raw != [] {
      var n := |raw| - 1;
      SplitReadings(raw[..n], id);
      var more := if raw[n].id == id then [raw[n].reading] else [];
      ValidsConcat(RawReadingsIn(raw[..n], id), more);
      if raw[n].reading.Some? {
        ReadingsInSnoc(R.ValidEndpoints(raw[..n]), Endpoint(raw[n].id, raw[n].reading.value), id);
        ValidOne(raw[n].reading.value);
      } else {
        assert R.ValidEndpoints(raw) == R.ValidEndpoints(raw[..n]);
        assert Valids([]) == [] && Valids([None]) == [];
      }
    }
  }

  lemma ValidOne(reading: Reading)
    ensures Valids([Some(reading)]) == [reading] && Valids([]) == [] && Valids([None]) == []
  {
    assert [Some(reading)][..0] == [];
    var none: Option<Reading> := None;
    assert [none][..0] == [];
  }

  lemma KeysOfIds(device: int, ids: seq<int>, key: EndpointKey)
    ensures key in R.KeysOf(device, ids) <==> device == key.0 && key.1 in ids
  {
    if device == key.0 && key.1 in ids {
      var i :| 0 <= i < |ids| && ids[i] == key.1;
      assert R.KeysOf(device, ids)[i] == key;
    }
  }

  lemma ReadingsOfSnoc(devices: DevicesData, last: ModelItem, device: int, endpoint: int)
    ensures ReadingsOf(devices + [last], device, endpoint) ==
            ReadingsOf(devices, device, endpoint) +
              if last.id == device then ReadingsIn(last.endpoints, endpoint) else []
  {
    assert (devices + [last])[..|devices|] == devices;
  }

  lemma {:induction false} SplitDeviceReadings(raw: seq<R.RawDevice>, device: int, endpoint: int)
    ensures ReadingsOf(R.ValidDevices(raw), device, endpoint) == Valids(RawReadingsOf(raw, device, endpoint))
    ensures (device, endpoint) in R.InvalidKeys(raw) <==> None in RawReadingsOf(raw, device, endpoint)
  {
    if raw != [] {
      var n := |raw| - 1;
      SplitDeviceReadings(raw[..n], device, endpoint);
      SplitReadings(raw[n].endpoints, endpoint);
      ReadingsOfSnoc(R.ValidDevices(raw[..n]), ModelItem(raw[n].id, R.ValidEndpoints(raw[n].endpoints)), device,
        endpoint);
      ValidsConcat(RawReadingsOf(raw[..n], device, endpoint),
                   if raw[n].id == device then RawReadingsIn(raw[n].endpoints, endpoint) else []);
      KeysOfIds(raw[n].id, R.InvalidIds(raw[n].endpoints), (device, endpoint));
    }
  }

  lemma {:induction false} SnapshotItemsSay<K>(usages: map<K, string>, items: seq<(K, Reading)>, key: K)
    ensures var readings, entity := ItemReadings(items, key), Lookup(SnapshotItems(usages, items), key);
            if key !in usages || readings == [] then entity == None
            else entity == Some(Merged(UNSEEN, readings[|readings| - 1]))
  {
    hide Merged;
    if items != [] {
      SnapshotItemsSay(usages, items[..|items| - 1], key);
    }
  }

  lemma {:induction false} InvalidSay<K>(entities: map<K, EntityView>, usages: map<K, string>, invalid: seq<K>, key: K)
    ensures Lookup(WithInvalid(entities, usages, invalid), key) ==
            if key in usages && key in invalid then Some(EntityView(map[], 0, true)) else Lookup(entities, key)
  {
    if invalid != [] {
      InvalidSay(entities, usages, invalid[..|invalid| - 1], key);
    }
  }

  lemma UnseenIsReading(reading: Reading)
    ensures IsReading(reading, Merged(UNSEEN, reading))
  {
    forall name
      ensures Lookup(Merged(UNSEEN, reading).fields, name) == LastNamed(reading.data, name)
    {
      MergeFieldsNamed(map[], reading.data, name);
    }
  }

  lemma SnapshotIsSaid<K>(usages: map<K, string>, items: seq<(K, Reading)>, invalid: seq<K>, key: K,
                          readings: seq<Option<Reading>>)
    requires ItemReadings(items, key) == Valids(readings) && (key in invalid <==> None in readings)
    ensures SnapshotSays(if key in usages then readings else [], Lookup(Snapshot(usages, items, invalid), key))
  {
    hide IsReading, Merged, SnapshotItems, WithInvalid;
    SnapshotItemsSay(usages, items, key);
    InvalidSay(SnapshotItems(usages, items), usages, invalid, key);
    if None !in readings && readings != [] {
      ValidsLast(readings);
      UnseenIsReading(readings[|readings| - 1].value);
    }
  }

  /** A snapshot replaces what is cached of each configured id by what it says of it. */
  lemma SnapshotsAreTaken(c: Content, devices: seq<R.RawDevice>, areas: seq<R.RawEndpoint>)
    requires Configured(c)
    ensures DevicesEffect(c, devices, Apply(c, ReplaceDevices(R.ValidDevices(devices), R.InvalidKeys(devices))))
    ensures AreasEffect(c, areas, Apply(c, ReplaceAreas(R.ValidEndpoints(areas), R.InvalidIds(areas))))
  {
    hide SnapshotSays, Snapshot, Configured, KnowsEndpoint, KnowsArea, Valids;
    var after := Apply(c, ReplaceDevices(R.ValidDevices(devices), R.InvalidKeys(devices)));
    forall device, endpoint
      ensures SnapshotSays(if KnowsEndpoint(c, device, endpoint) then RawReadingsOf(devices, device, endpoint) else [],
                           Lookup(after.endpoints, (device, endpoint)))
    {
      ConfiguredIsListed(c, device, endpoint, 0);
      DevicesReadings(R.ValidDevices(devices), device, endpoint);
      SplitDeviceReadings(devices, device, endpoint);
      SnapshotIsSaid(c.endpointUsages, DevicesItems(R.ValidDevices(devices)), R.InvalidKeys(devices),
                     (device, endpoint), RawReadingsOf(devices, device, endpoint));
    }
    var afterAreas := Apply(c, ReplaceAreas(R.ValidEndpoints(areas), R.InvalidIds(areas)));
    forall id
      ensures SnapshotSays(if KnowsArea(c, id) then RawReadingsIn(areas, id) else [], Lookup(afterAreas.areas, id))
    {
      ConfiguredIsListed(c, 0, 0, id);
      AreasReadings(R.ValidEndpoints(areas), id);
      SplitReadings(areas, id);
      SnapshotIsSaid(c.areaUsages, AreasItems(R.ValidEndpoints(areas)), R.InvalidIds(areas), id,
                     RawReadingsIn(areas, id));
    }
  }
}
