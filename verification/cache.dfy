/** The mutable cache (tydomio/mcp_server/cache.py), each method proved against `CacheState`. */
module Cache {
  import opened Collections
  import opened Model
  import opened CacheState
  import I = Installation

  /** The cached fields of one endpoint or area, updated in place by pushes. */
  class Entity {
    var fields: map<string, Data>
    var error: int
    var invalid: bool

    constructor (invalid: bool)
      ensures fields == map[] && error == 0 && this.invalid == invalid
    {
      fields, error, this.invalid := map[], 0, invalid;
    }

    function View(): EntityView
      reads this
    {
      EntityView(fields, error, invalid)
    }

    /** `_merge` */
    method Merge(reading: Reading)
      modifies this
      ensures View() == Merged(old(View()), reading)
    {
      for i := 0 to |reading.data|
        invariant fields == MergeFields(old(fields), reading.data[..i])
        invariant error == old(error) && invalid == old(invalid)
      {
        assert reading.data[..i + 1][..i] == reading.data[..i];
        fields := fields[reading.data[i].name := reading.data[i]];
      }
      assert reading.data[..|reading.data|] == reading.data;
      error := reading.error;
      invalid := false;
    }
  }

  /** No entity object is held under two keys. */
  ghost predicate Injective<K(!new)>(m: map<K, Entity>) {
    forall a, b :: a in m && b in m && m[a] == m[b] ==> a == b
  }

  ghost function Views<K>(m: map<K, Entity>): map<K, EntityView>
    reads m.Values
  {
    map key | key in m :: m[key].View()
  }

  lemma UpdateValues<K>(m: map<K, Entity>, key: K, entity: Entity)
    ensures m[key := entity].Values <= m.Values + {entity}
  {
  }

  /** `_merge(entities.setdefault(key, Entity({})), reading)`, for a configured key. */
  method PushItem<K(==, !new)>(entities: map<K, Entity>, usages: map<K, string>, key: K, reading: Reading)
    returns (pushed: map<K, Entity>)
    requires Injective(entities)
    modifies entities.Values
    ensures Injective(pushed) && fresh(pushed.Values - entities.Values)
    ensures Views(pushed) == PushedOne(old(Views(entities)), usages, key, reading)
  {
    hide Merged;
    pushed := entities;
    if key !in usages {
      return;
    }
    if key !in pushed {
      var entity := new Entity(false);
      UpdateValues(pushed, key, entity);
      pushed := pushed[key := entity];
    }
    assert forall other :: other in pushed && other != key ==> pushed[other] != pushed[key];
    pushed[key].Merge(reading);
    assert forall other :: other in pushed && other != key ==> pushed[other].View() == old(Views(entities))[other];
  }

  /** One valid item of a snapshot, in an entity of its own. */
  method SnapshotItem<K(==, !new)>(entities: map<K, Entity>, usages: map<K, string>, key: K, reading: Reading)
    returns (taken: map<K, Entity>)
    requires Injective(entities)
    ensures Injective(taken) && fresh(taken.Values - entities.Values)
    ensures Views(taken) == if key in usages then Views(entities)[key := Merged(UNSEEN, reading)] else Views(entities)
  {
    taken := entities;
    if key in usages {
      var entity := new Entity(false);
      entity.Merge(reading);
      UpdateValues(taken, key, entity);
      taken := taken[key := entity];
    }
  }

  /** The inner loop of `merge_devices`: the endpoints of one device. */
  method PushDevice(entities: map<EndpointKey, Entity>, usages: map<EndpointKey, string>, item: ModelItem)
    returns (pushed: map<EndpointKey, Entity>)
    requires Injective(entities)
    modifies entities.Values
    ensures Injective(pushed) && fresh(pushed.Values - entities.Values)
    ensures Views(pushed) == Pushed(old(Views(entities)), usages, DeviceItems(item.id, item.endpoints))
  {
    hide PushedOne;
    pushed := entities;
    for j := 0 to |item.endpoints|
      invariant Injective(pushed) && fresh(pushed.Values - entities.Values)
      invariant Views(pushed) == Pushed(old(Views(entities)), usages, DeviceItems(item.id, item.endpoints[..j]))
    {
      var key := (item.id, item.endpoints[j].id);
      ghost var items := DeviceItems(item.id, item.endpoints[..j]);
      assert item.endpoints[..j + 1][..j] == item.endpoints[..j];
      assert (items + [(key, item.endpoints[j].reading)])[..|items|] == items;
      pushed := PushItem(pushed, usages, key, item.endpoints[j].reading);
    }
    assert item.endpoints[..|item.endpoints|] == item.endpoints;
  }

  /** The inner loop of `replace_devices`. */
  method SnapshotDevice(entities: map<EndpointKey, Entity>, usages: map<EndpointKey, string>, item: ModelItem,
                        ghost done: seq<(EndpointKey, Reading)>)
    returns (taken: map<EndpointKey, Entity>)
    requires Injective(entities)
    requires Views(entities) == SnapshotItems(usages, done)
    ensures Injective(taken) && fresh(taken.Values - entities.Values)
    ensures Views(taken) == SnapshotItems(usages, done + DeviceItems(item.id, item.endpoints))
  {
    taken := entities;
    assert done + [] == done;
    for j := 0 to |item.endpoints|
      invariant Injective(taken) && fresh(taken.Values - entities.Values)
      invariant Views(taken) == SnapshotItems(usages, done + DeviceItems(item.id, item.endpoints[..j]))
    {
      var key := (item.id, item.endpoints[j].id);
      ghost var items := done + DeviceItems(item.id, item.endpoints[..j]);
      assert item.endpoints[..j + 1][..j] == item.endpoints[..j];
      assert done + DeviceItems(item.id, item.endpoints[..j + 1]) == items + [(key, item.endpoints[j].reading)];
      assert (items + [(key, item.endpoints[j].reading)])[..|items|] == items;
      taken := SnapshotItem(taken, usages, key, item.endpoints[j].reading);
    }
    assert item.endpoints[..|item.endpoints|] == item.endpoints;
  }

  /** The entities `apply_config` keeps. */
  method Retarget<K(==, !new)>(entities: map<K, Entity>, before: map<K, string>, after: map<K, string>)
    returns (kept: map<K, Entity>)
    requires Injective(entities)
    ensures Injective(kept) && kept.Values <= entities.Values
    ensures Views(kept) == Retargeted(Views(entities), before, after)
  {
    kept := map key | key in entities && Lookup(after, key) == Lookup(before, key) && key in after :: entities[key];
  }

  /** The loop over the invalid ids that ends both snapshots. */
  method MarkInvalid<K(==, !new)>(entities: map<K, Entity>, usages: map<K, string>, invalid: seq<K>)
    returns (marked: map<K, Entity>)
    requires Injective(entities)
    ensures Injective(marked) && fresh(marked.Values - entities.Values)
    ensures Views(marked) == WithInvalid(Views(entities), usages, invalid)
  {
    marked := entities;
    for i := 0 to |invalid|
      invariant Injective(marked) && fresh(marked.Values - entities.Values)
      invariant Views(marked) == WithInvalid(Views(entities), usages, invalid[..i])
    {
      assert invalid[..i + 1][..i] == invalid[..i];
      if invalid[i] in usages {
        var entity := new Entity(true);
        UpdateValues(marked, invalid[i], entity);
        marked := marked[invalid[i] := entity];
      }
    }
    assert invalid[..|invalid|] == invalid;
  }

  /** The entities of a devices snapshot, all of them new objects. */
  method SnapshotDevices(usages: map<EndpointKey, string>, data: DevicesData, invalid: seq<EndpointKey>)
    returns (snapshot: map<EndpointKey, Entity>)
    ensures Injective(snapshot) && fresh(snapshot.Values)
    ensures Views(snapshot) == Snapshot(usages, DevicesItems(data), invalid)
  {
    snapshot := map[];
    for i := 0 to |data|
      invariant Injective(snapshot) && fresh(snapshot.Values)
      invariant Views(snapshot) == SnapshotItems(usages, DevicesItems(data[..i]))
    {
      snapshot := SnapshotDevice(snapshot, usages, data[i], DevicesItems(data[..i]));
      assert data[..i + 1][..i] == data[..i];
    }
    assert data[..|data|] == data;
    snapshot := MarkInvalid(snapshot, usages, invalid);
  }

  method SnapshotAreas(usages: map<int, string>, data: AreasData, invalid: seq<int>)
    returns (snapshot: map<int, Entity>)
    ensures Injective(snapshot) && fresh(snapshot.Values)
    ensures Views(snapshot) == Snapshot(usages, AreasItems(data), invalid)
  {
    snapshot := map[];
    for i := 0 to |data|
      invariant Injective(snapshot) && fresh(snapshot.Values)
      invariant Views(snapshot) == SnapshotItems(usages, AreasItems(data[..i]))
    {
      assert data[..i + 1][..i] == data[..i];
      ghost var items := AreasItems(data[..i]);
      assert (items + [(data[i].id, data[i].reading)])[..|items|] == items;
      snapshot := SnapshotItem(snapshot, usages, data[i].id, data[i].reading);
    }
    assert data[..|data|] == data;
    snapshot := MarkInvalid(snapshot, usages, invalid);
  }

  method PushDevices(entities: map<EndpointKey, Entity>, usages: map<EndpointKey, string>, data: DevicesData)
    returns (pushed: map<EndpointKey, Entity>)
    requires Injective(entities)
    modifies entities.Values
    ensures Injective(pushed) && fresh(pushed.Values - entities.Values)
    ensures Views(pushed) == Pushed(old(Views(entities)), usages, DevicesItems(data))
  {
    pushed := entities;
    for i := 0 to |data|
      invariant Injective(pushed) && fresh(pushed.Values - entities.Values)
      invariant Views(pushed) == Pushed(old(Views(entities)), usages, DevicesItems(data[..i]))
    {
      pushed := PushDevice(pushed, usages, data[i]);
      PushedConcat(old(Views(entities)), usages, DevicesItems(data[..i]), DeviceItems(data[i].id, data[i].endpoints));
      assert data[..i + 1][..i] == data[..i];
    }
    assert data[..|data|] == data;
  }

  method PushAreas(entities: map<int, Entity>, usages: map<int, string>, data: AreasData)
    returns (pushed: map<int, Entity>)
    requires Injective(entities)
    modifies entities.Values
    ensures Injective(pushed) && fresh(pushed.Values - entities.Values)
    ensures Views(pushed) == Pushed(old(Views(entities)), usages, AreasItems(data))
  {
    pushed := entities;
    for i := 0 to |data|
      invariant Injective(pushed) && fresh(pushed.Values - entities.Values)
      invariant Views(pushed) == Pushed(old(Views(entities)), usages, AreasItems(data[..i]))
    {
      assert data[..i + 1][..i] == data[..i];
      ghost var items := AreasItems(data[..i]);
      assert (items + [(data[i].id, data[i].reading)])[..|items|] == items;
      pushed := PushItem(pushed, usages, data[i].id, data[i].reading);
    }
    assert data[..|data|] == data;
  }

  class Cache {
    var config: Option<Config>
    var installation: Option<I.Installation>
    var endpoints: map<EndpointKey, Entity>
    var areas: map<int, Entity>
    var connection: Connection
    var synced: bool
    var syncedAt: Option<int>
    var endpointUsages: map<EndpointKey, string>
    var areaUsages: map<int, string>

    ghost predicate Valid()
      reads this
    {
      && Injective(endpoints)
      && Injective(areas)
      && endpoints.Values !! areas.Values
    }

    ghost function View(): State
      reads this, endpoints.Values, areas.Values
    {
      State(
        Content(config, installation, Views(endpoints), Views(areas), endpointUsages, areaUsages),
        connection, synced, syncedAt)
    }

    constructor ()
      ensures Valid()
      ensures View() == INITIAL
    {
      config, installation := None, None;
      endpoints, areas := map[], map[];
      connection, synced, syncedAt := Connecting, false, None;
      endpointUsages, areaUsages := map[], map[];
    }

    method Fresh() returns (isFresh: bool)
      ensures isFresh == View().Fresh()
    {
      isFresh := connection == Connected && synced;
    }

    method RetargetEndpoints(after: map<EndpointKey, string>)
      requires Valid()
      modifies this`endpoints, this`endpointUsages
      ensures Valid() && endpointUsages == after && Views(areas) == old(Views(areas))
      ensures Views(endpoints) == Retargeted(old(Views(endpoints)), old(endpointUsages), after)
    {
      endpoints := Retarget(endpoints, endpointUsages, after);
      endpointUsages := after;
    }

    method RetargetAreas(after: map<int, string>)
      requires Valid()
      modifies this`areas, this`areaUsages
      ensures Valid() && areaUsages == after && Views(endpoints) == old(Views(endpoints))
      ensures Views(areas) == Retargeted(old(Views(areas)), old(areaUsages), after)
    {
      areas := Retarget(areas, areaUsages, after);
      areaUsages := after;
    }

    method RetargetBoth(endpointsAfter: map<EndpointKey, string>, areasAfter: map<int, string>)
      requires Valid()
      modifies this`endpoints, this`endpointUsages, this`areas, this`areaUsages
      ensures Valid() && endpointUsages == endpointsAfter && areaUsages == areasAfter
      ensures Views(endpoints) == Retargeted(old(Views(endpoints)), old(endpointUsages), endpointsAfter)
      ensures Views(areas) == Retargeted(old(Views(areas)), old(areaUsages), areasAfter)
    {
      RetargetEndpoints(endpointsAfter);
      RetargetAreas(areasAfter);
    }

    method ApplyConfig(newConfig: Config)
      requires Valid()
      modifies this`config, this`installation, this`endpoints, this`areas, this`endpointUsages, this`areaUsages
      ensures Valid()
      ensures View() == old(View()).(content := Apply(old(View()).content, CacheState.ApplyConfig(newConfig)))
    {
      hide Injective, Retargeted, LastWins, EndpointPairs, AreaPairs, I.FromConfig;
      RetargetBoth(LastWins(EndpointPairs(newConfig)), LastWins(AreaPairs(newConfig)));
      label retargeted:
      config := Some(newConfig);
      installation := Some(I.FromConfig(newConfig));
      assert Views(endpoints) == old@retargeted(Views(endpoints));
      assert Views(areas) == old@retargeted(Views(areas));
    }

    method ReplaceDevices(data: DevicesData, invalid: seq<EndpointKey>)
      requires Valid()
      modifies this`endpoints
      ensures Valid()
      ensures View() == old(View()).(content := Apply(old(View()).content, CacheState.ReplaceDevices(data, invalid)))
    {
      hide Snapshot, DevicesItems;
      endpoints := SnapshotDevices(endpointUsages, data, invalid);
    }

    method ReplaceAreas(data: AreasData, invalid: seq<int>)
      requires Valid()
      modifies this`areas
      ensures Valid()
      ensures View() == old(View()).(content := Apply(old(View()).content, CacheState.ReplaceAreas(data, invalid)))
    {
      hide Snapshot, AreasItems;
      areas := SnapshotAreas(areaUsages, data, invalid);
    }

    method MergeDevices(data: DevicesData)
      requires Valid()
      modifies this`endpoints, endpoints.Values
      ensures Valid()
      ensures View() == old(View()).(content := Apply(old(View()).content, CacheState.MergeDevices(data)))
    {
      hide Pushed, DevicesItems;
      endpoints := PushDevices(endpoints, endpointUsages, data);
    }

    method MergeAreas(data: AreasData)
      requires Valid()
      modifies this`areas, areas.Values
      ensures Valid()
      ensures View() == old(View()).(content := Apply(old(View()).content, CacheState.MergeAreas(data)))
    {
      hide Pushed, AreasItems;
      areas := PushAreas(areas, areaUsages, data);
    }

    method MarkConnected()
      modifies this`connection
      ensures View() == old(View()).MarkConnected()
    {
      connection := Connected;
    }

    method MarkSynced(now: int)
      modifies this`synced, this`syncedAt
      ensures View() == old(View()).MarkSynced(now)
    {
      synced := true;
      syncedAt := Some(now);
    }

    method MarkDisconnected()
      modifies this`connection, this`synced
      ensures View() == old(View()).MarkDisconnected()
    {
      connection := Disconnected;
      synced := false;
    }
  }
}
