/**
 The cache is a last-writer-wins scan of its log. For one key, the log of operations
 is projected to the touches of that key; the cached entity is then described by
 looking at the touches alone, with no map and no merge.
 */
module CacheScan {
  import opened Collections
  import opened Model
  import opened CacheState

  /** What one operation does to a collection, endpoints or areas. */
  datatype Change<K> =
    | Retarget(usages: map<K, string>)
    | Replace(items: seq<(K, Reading)>, invalid: seq<K>)
    | Push(pushed: seq<(K, Reading)>)

  /** What happened to one key: forgotten, listed invalid, or written. */
  datatype Touch = Drop | Invalidate | Write(reading: Reading)

  // ---- projections of the log ----

  function EndpointChange(op: Op): Option<Change<EndpointKey>> {
    match op
    case ApplyConfig(config) => Some(Retarget(LastWins(EndpointPairs(config))))
    case ReplaceDevices(devices, invalid) => Some(Replace(DevicesItems(devices), invalid))
    case MergeDevices(devices) => Some(Push(DevicesItems(devices)))
    case _ => None
  }

  function AreaChange(op: Op): Option<Change<int>> {
    match op
    case ApplyConfig(config) => Some(Retarget(LastWins(AreaPairs(config))))
    case ReplaceAreas(areas, invalid) => Some(Replace(AreasItems(areas), invalid))
    case MergeAreas(areas) => Some(Push(AreasItems(areas)))
    case _ => None
  }

  function Appended<K>(changes: seq<Change<K>>, change: Option<Change<K>>): seq<Change<K>> {
    if change.Some? then changes + [change.value] else changes
  }

  function EndpointChanges(log: seq<Op>): seq<Change<EndpointKey>> {
    if log == [] then [] else Appended(EndpointChanges(log[..|log| - 1]), EndpointChange(log[|log| - 1]))
  }

  function AreaChanges(log: seq<Op>): seq<Change<int>> {
    if log == [] then [] else Appended(AreaChanges(log[..|log| - 1]), AreaChange(log[|log| - 1]))
  }

  function UsagesAfter<K>(changes: seq<Change<K>>): map<K, string> {
    if changes == [] then map[]
    else
      match changes[|changes| - 1]
      case Retarget(usages) => usages
      case _ => UsagesAfter(changes[..|changes| - 1])
  }

  /** The writes of `key` in a list of items, each after a drop in a snapshot. */
  function ItemTouches<K(==)>(key: K, items: seq<(K, Reading)>, snapshot: bool): seq<Touch> {
    if items == [] then []
    else
      var last := items[|items| - 1];
      ItemTouches(key, items[..|items| - 1], snapshot) +
      if last.0 != key then [] else if snapshot then [Drop, Write(last.1)] else [Write(last.1)]
  }

  function InvalidTouches<K(==)>(key: K, invalid: seq<K>): seq<Touch> {
    if invalid == [] then []
    else
      InvalidTouches(key, invalid[..|invalid| - 1]) + if invalid[|invalid| - 1] == key then [Invalidate] else []
  }

  function ChangeTouches<K(==)>(key: K, usages: map<K, string>, change: Change<K>): seq<Touch> {
    match change
    case Retarget(after) =>
      if key in after && Lookup(after, key) == Lookup(usages, key) then [] else [Drop]
    case Replace(items, invalid) =>
      [Drop] + if key in usages then ItemTouches(key, items, true) + InvalidTouches(key, invalid) else []
    case Push(items) =>
      if key in usages then ItemTouches(key, items, false) else []
  }

  /** Everything that happened to `key`, oldest first. */
  function Touches<K(==)>(key: K, changes: seq<Change<K>>): seq<Touch> {
    if changes == [] then []
    else
      var init := changes[..|changes| - 1];
      Touches(key, init) + ChangeTouches(key, UsagesAfter(init), changes[|changes| - 1])
  }

  // ---- the scan ----

  /** The last data of that name in a reading. */
  function LastNamed(data: seq<Data>, name: string): Option<Data> {
    if data == [] then None
    else if data[|data| - 1].name == name then Some(data[|data| - 1])
    else LastNamed(data[..|data| - 1], name)
  }

  /** Touch `i` wrote the field, and no later touch wrote it again or forgot the entity. */
  ghost predicate LastWriter(touches: seq<Touch>, i: int, name: string, data: Data) {
    && 0 <= i < |touches|
    && touches[i].Write?
    && LastNamed(touches[i].reading.data, name) == Some(data)
    && forall j :: i < j < |touches| ==> touches[j].Write? && LastNamed(touches[j].reading.data, name).None?
  }

  ghost predicate FieldWritten(touches: seq<Touch>, name: string, data: Data) {
    exists i :: LastWriter(touches, i, name, data)
  }

  /** The cached entity, if any, read off the touches of its key. */
  ghost predicate IsScanOf(entity: Option<EntityView>, touches: seq<Touch>) {
    && (entity.Some? <==> touches != [] && !touches[|touches| - 1].Drop?)
    && (entity.Some? ==>
          var last := touches[|touches| - 1];
          && (entity.value.invalid <==> last.Invalidate?)
          && entity.value.error == (if last.Write? then last.reading.error else 0)
          && (forall name, data :: Lookup(entity.value.fields, name) == Some(data) <==>
                                   FieldWritten(touches, name, data)))
  }

  // ---- folding the touches gives the entity ----

  function Touched(entity: Option<EntityView>, touches: seq<Touch>): Option<EntityView> {
    if touches == [] then entity
    else
      var prior := Touched(entity, touches[..|touches| - 1]);
      match touches[|touches| - 1]
      case Drop => None
      case Invalidate => Some(UNSEEN.(invalid := true))
      case Write(reading) => Some(Merged(if prior.Some? then prior.value else UNSEEN, reading))
  }

  lemma {:induction false} TouchedConcat(entity: Option<EntityView>, a: seq<Touch>, b: seq<Touch>)
    ensures Touched(entity, a + b) == Touched(Touched(entity, a), b)
  {
    if b == [] {
      assert a + b == a;
    } else {
      TouchedConcat(entity, a, b[..|b| - 1]);
      assert (a + b)[..|a + b| - 1] == a + b[..|b| - 1];
    }
  }

  lemma {:induction false} PushedTouches<K>(
    entities: map<K, EntityView>, usages: map<K, string>, items: seq<(K, Reading)>, key: K)
    ensures Lookup(Pushed(entities, usages, items), key) ==
            Touched(Lookup(entities, key), if key in usages then ItemTouches(key, items, false) else [])
  {
    if items != [] {
      var init := items[..|items| - 1];
      PushedTouches(entities, usages, init, key);
      var last := items[|items| - 1];
      if last.0 == key && key in usages {
        var touches := ItemTouches(key, init, false);
        assert (touches + [Write(last.1)])[..|touches|] == touches;
      } else {
        assert ItemTouches(key, init, false) + [] == ItemTouches(key, init, false);
      }
    }
  }

  lemma {:induction false} SnapshotItemsTouches<K>(usages: map<K, string>, items: seq<(K, Reading)>, key: K)
    requires key in usages
    ensures Lookup(SnapshotItems(usages, items), key) == Touched(None, ItemTouches(key, items, true))
  {
    if items != [] {
      var init := items[..|items| - 1];
      SnapshotItemsTouches(usages, init, key);
      var last := items[|items| - 1];
      if last.0 == key {
        var touches := ItemTouches(key, init, true);
        assert (touches + [Drop, Write(last.1)])[..|touches| + 1] == touches + [Drop];
        assert (touches + [Drop])[..|touches|] == touches;
      } else {
        assert ItemTouches(key, init, true) + [] == ItemTouches(key, init, true);
      }
    }
  }

  lemma {:induction false} WithInvalidTouches<K>(
    entities: map<K, EntityView>, usages: map<K, string>, invalid: seq<K>, key: K)
    requires key in usages
    ensures Lookup(WithInvalid(entities, usages, invalid), key) ==
            Touched(Lookup(entities, key), InvalidTouches(key, invalid))
  {
    if invalid != [] {
      var init := invalid[..|invalid| - 1];
      WithInvalidTouches(entities, usages, init, key);
      if invalid[|invalid| - 1] == key {
        var touches := InvalidTouches(key, init);
        assert (touches + [Invalidate])[..|touches|] == touches;
      } else {
        assert InvalidTouches(key, init) + [] == InvalidTouches(key, init);
      }
    }
  }

  function Changed<K>(entities: map<K, EntityView>, usages: map<K, string>, change: Change<K>): map<K, EntityView> {
    match change
    case Retarget(after) => Retargeted(entities, usages, after)
    case Replace(items, invalid) => Snapshot(usages, items, invalid)
    case Push(items) => Pushed(entities, usages, items)
  }

  function ChangedAll<K>(changes: seq<Change<K>>): map<K, EntityView> {
    if changes == [] then map[]
    else
      var init := changes[..|changes| - 1];
      Changed(ChangedAll(init), UsagesAfter(init), changes[|changes| - 1])
  }

  lemma ChangedTouches<K>(entities: map<K, EntityView>, usages: map<K, string>, change: Change<K>, key: K)
    requires key !in usages ==> key !in entities
    ensures Lookup(Changed(entities, usages, change), key) ==
            Touched(Lookup(entities, key), ChangeTouches(key, usages, change))
  {
    match change
    case Retarget(after) =>
      assert [Drop][..0] == [];
    case Replace(items, invalid) =>
      var rest := if key in usages then ItemTouches(key, items, true) + InvalidTouches(key, invalid) else [];
      TouchedConcat(Lookup(entities, key), [Drop], rest);
      assert Touched(Lookup(entities, key), [Drop]) == None;
      if key in usages {
        TouchedConcat(None, ItemTouches(key, items, true), InvalidTouches(key, invalid));
        SnapshotItemsTouches(usages, items, key);
        WithInvalidTouches(SnapshotItems(usages, items), usages, invalid, key);
      } else {
        SnapshotItemsKeys(usages, items);
        WithInvalidKeys(SnapshotItems(usages, items), usages, invalid);
      }
    case Push(items) =>
      PushedTouches(entities, usages, items, key);
  }

  lemma ChangedKeys<K>(entities: map<K, EntityView>, usages: map<K, string>, change: Change<K>)
    requires entities.Keys <= usages.Keys
    ensures Changed(entities, usages, change).Keys <= (if change.Retarget? then change.usages else usages).Keys
  {
    match change
    case Retarget(after) =>
    case Replace(items, invalid) =>
      SnapshotItemsKeys(usages, items);
      WithInvalidKeys(SnapshotItems(usages, items), usages, invalid);
    case Push(items) =>
      PushedKeys(entities, usages, items);
  }

  lemma {:induction false} ChangedAllTouches<K>(changes: seq<Change<K>>, key: K)
    ensures ChangedAll(changes).Keys <= UsagesAfter(changes).Keys
    ensures Lookup(ChangedAll(changes), key) == Touched(None, Touches(key, changes))
  {
    if changes != [] {
      var init := changes[..|changes| - 1];
      var change := changes[|changes| - 1];
      ChangedAllTouches(init, key);
      ChangedKeys(ChangedAll(init), UsagesAfter(init), change);
      ChangedTouches(ChangedAll(init), UsagesAfter(init), change, key);
      TouchedConcat(None, Touches(key, init), ChangeTouches(key, UsagesAfter(init), change));
    }
  }

  // ---- the fold of the touches is described by the scan ----

  lemma {:induction false} MergeFieldsNamed(fields: map<string, Data>, data: seq<Data>, name: string)
    ensures Lookup(MergeFields(fields, data), name) ==
            if LastNamed(data, name).Some? then LastNamed(data, name) else Lookup(fields, name)
  {
    if data != [] {
      MergeFieldsNamed(fields, data[..|data| - 1], name);
    }
  }

  lemma LastWriterSnoc(touches: seq<Touch>, name: string, data: Data)
    requires touches != [] && touches[|touches| - 1].Write?
    ensures FieldWritten(touches, name, data) <==>
            var named := LastNamed(touches[|touches| - 1].reading.data, name);
            if named.Some? then named.value == data
            else FieldWritten(touches[..|touches| - 1], name, data)
  {
    var n := |touches| - 1;
    var init := touches[..n];
    var named := LastNamed(touches[n].reading.data, name);
    assert forall i :: 0 <= i < n ==> init[i] == touches[i];
    assert LastWriter(touches, n, name, data) <==> named == Some(data);
    assert named.None? ==> forall i :: 0 <= i < n ==>
           (LastWriter(touches, i, name, data) <==> LastWriter(init, i, name, data));
    assert named.Some? ==> forall i :: 0 <= i < n ==> !LastWriter(touches, i, name, data);
    if named.None? && FieldWritten(init, name, data) {
      var i :| LastWriter(init, i, name, data);
      assert LastWriter(touches, i, name, data);
    }
  }

  lemma {:induction false} TouchedIsScan(touches: seq<Touch>)
    ensures IsScanOf(Touched(None, touches), touches)
  {
    if touches != [] {
      var n := |touches| - 1;
      var init := touches[..n];
      TouchedIsScan(init);
      var prior := Touched(None, init);
      if touches[n].Write? {
        var base := if prior.Some? then prior.value else UNSEEN;
        forall name, data
          ensures Lookup(Touched(None, touches).value.fields, name) == Some(data) <==>
                  FieldWritten(touches, name, data)
        {
          MergeFieldsNamed(base.fields, touches[n].reading.data, name);
          LastWriterSnoc(touches, name, data);
          if prior.None? && FieldWritten(init, name, data) {
            var i :| LastWriter(init, i, name, data);
            assert init[|init| - 1].Drop?;
          }
        }
      } else {
        forall name, data, i ensures !LastWriter(touches, i, name, data) {
          assert !touches[n].Write?;
        }
      }
    }
  }

  // ---- the theorem, for the endpoints and the areas of the cache ----

  lemma AppendedChange<K>(changes: seq<Change<K>>, change: Option<Change<K>>)
    ensures ChangedAll(Appended(changes, change)) ==
            if change.Some? then Changed(ChangedAll(changes), UsagesAfter(changes), change.value)
            else ChangedAll(changes)
    ensures UsagesAfter(Appended(changes, change)) ==
            if change.Some? && change.value.Retarget? then change.value.usages else UsagesAfter(changes)
  {
    if change.Some? {
      assert (changes + [change.value])[..|changes|] == changes;
    }
  }

  lemma {:induction false} EndpointsFollowChanges(log: seq<Op>)
    ensures ApplyAll(BLANK, log).endpoints == ChangedAll(EndpointChanges(log))
    ensures ApplyAll(BLANK, log).endpointUsages == UsagesAfter(EndpointChanges(log))
  {
    if log != [] {
      EndpointsFollowChanges(log[..|log| - 1]);
      AppendedChange(EndpointChanges(log[..|log| - 1]), EndpointChange(log[|log| - 1]));
    }
  }

  lemma {:induction false} AreasFollowChanges(log: seq<Op>)
    ensures ApplyAll(BLANK, log).areas == ChangedAll(AreaChanges(log))
    ensures ApplyAll(BLANK, log).areaUsages == UsagesAfter(AreaChanges(log))
  {
    if log != [] {
      AreasFollowChanges(log[..|log| - 1]);
      AppendedChange(AreaChanges(log[..|log| - 1]), AreaChange(log[|log| - 1]));
    }
  }

  /**
   After any log, every endpoint of the cache is the scan of what happened to its key:
   present unless last forgotten, invalid exactly when last listed invalid, and each field
   the value of the last item naming it since the entity was last forgotten or replaced.
   */
  lemma EndpointIsScan(log: seq<Op>, key: EndpointKey)
    ensures IsScanOf(Lookup(ApplyAll(BLANK, log).endpoints, key), Touches(key, EndpointChanges(log)))
  {
    EndpointsFollowChanges(log);
    ChangedAllTouches(EndpointChanges(log), key);
    TouchedIsScan(Touches(key, EndpointChanges(log)));
  }

  /** Likewise for every area. */
  lemma AreaIsScan(log: seq<Op>, key: int)
    ensures IsScanOf(Lookup(ApplyAll(BLANK, log).areas, key), Touches(key, AreaChanges(log)))
  {
    AreasFollowChanges(log);
    ChangedAllTouches(AreaChanges(log), key);
    TouchedIsScan(Touches(key, AreaChanges(log)));
  }
}
