/** The index of the metadata descriptors of a body (tydomio/capture/anonymize.py:146-174). */
module DescriptorIndex {
  import opened Collections
  import opened Json
  import opened AnonymizeWalk

  type Listing = seq<(seq<string>, seq<Entry>)>

  function GetOrNull(entries: seq<Entry>, key: string): Json {
    var value := Get(entries, key);
    if value.Some? then value.value else Null
  }

  // ---- the descriptors of a body, in document order ----

  function ListedMetadata(metadata: seq<Json>, key: seq<string>): Listing {
    if metadata == [] then []
    else
      var last := metadata[|metadata| - 1];
      ListedMetadata(metadata[..|metadata| - 1], key) +
      if last.Dict? && GetOrNull(last.entries, "name").Str? then
        [(key + [GetOrNull(last.entries, "name").text], last.entries)]
      else []
  }

  function ListedItem(show: Json -> string, item: Json, prefix: seq<string>, levels: seq<string>): Listing
    decreases |levels|, 0
  {
    if !item.Dict? then []
    else
      var key := prefix + [show(GetOrNull(item.entries, "id"))];
      if levels != [] then Listed(show, GetOrNull(item.entries, levels[0]), key, levels[1..])
      else
        match GetOrNull(item.entries, "metadata")
        case List(metadata) => ListedMetadata(metadata, key)
        case _ => []
  }

  function ListedItems(show: Json -> string, items: seq<Json>, prefix: seq<string>, levels: seq<string>): Listing
    decreases |levels|, 1, |items|
  {
    if items == [] then []
    else ListedItems(show, items[..|items| - 1], prefix, levels) + ListedItem(show, items[|items| - 1], prefix, levels)
  }

  function Listed(show: Json -> string, items: Json, prefix: seq<string>, levels: seq<string>): Listing
    decreases |levels|, 2
  {
    if items.List? then ListedItems(show, items.items, prefix, levels) else []
  }

  // ---- what is listed, by its place in the body ----

  /** The descriptor is one of the metadata of an item, of that name. */
  ghost predicate InMetadata(item: seq<Entry>, name: string, descriptor: seq<Entry>) {
    var metadata := GetOrNull(item, "metadata");
    metadata.List? && Dict(descriptor) in metadata.items && GetOrNull(descriptor, "name") == Str(name)
  }

  /** It is reached through the levels by items of these ids, the last of the key being its name. */
  ghost predicate Lists(show: Json -> string, items: Json, levels: seq<string>, key: seq<string>,
                        descriptor: seq<Entry>)
    decreases |levels|, 1
  {
    items.List? && exists i :: 0 <= i < |items.items| && ListsIn(show, items.items[i], levels, key, descriptor)
  }

  ghost predicate ListsIn(show: Json -> string, item: Json, levels: seq<string>, key: seq<string>,
                        descriptor: seq<Entry>)
    decreases |levels|, 0
  {
    && item.Dict? && key != [] && key[0] == show(GetOrNull(item.entries, "id"))
    && if levels != [] then Lists(show, GetOrNull(item.entries, levels[0]), levels[1..], key[1..], descriptor)
       else |key| == 2 && InMetadata(item.entries, key[1], descriptor)
  }

  lemma {:induction false} MetadataIff(metadata: seq<Json>, key: seq<string>, full: seq<string>, descriptor: seq<Entry>)
    ensures (full, descriptor) in ListedMetadata(metadata, key) <==>
            && Dict(descriptor) in metadata && GetOrNull(descriptor, "name").Str?
            && full == key + [GetOrNull(descriptor, "name").text]
  {
    if metadata != [] {
      var n := |metadata| - 1;
      MetadataIff(metadata[..n], key, full, descriptor);
      assert metadata == metadata[..n] + [metadata[n]];
      if metadata[n].Dict? {
        assert metadata[n] == Dict(metadata[n].entries);
      }
    }
  }

  lemma SplitKey(prefix: seq<string>, id: string, key: seq<string>)
    requires key != []
    ensures prefix + key == prefix + [key[0]] + key[1..]
    ensures key[0] == id ==> prefix + key == prefix + [id] + key[1..]
  {
  }

  lemma {:induction false} ItemIff(show: Json -> string, item: Json, prefix: seq<string>, levels: seq<string>,
                                   key: seq<string>, descriptor: seq<Entry>)
    ensures (prefix + key, descriptor) in ListedItem(show, item, prefix, levels) <==>
            ListsIn(show, item, levels, key, descriptor)
    decreases |levels|, 0
  {
    if item.Dict? {
      var id := show(GetOrNull(item.entries, "id"));
      if levels != [] {
        LevelIff(show, GetOrNull(item.entries, levels[0]), prefix, id, levels[1..], key, descriptor);
      } else {
        LeafItemIff(item.entries, prefix, id, key, descriptor);
      }
    }
  }

  lemma LeafItemIff(item: seq<Entry>, prefix: seq<string>, id: string, key: seq<string>, descriptor: seq<Entry>)
    ensures var metadata := GetOrNull(item, "metadata");
            metadata.List? ==>
              ((prefix + key, descriptor) in ListedMetadata(metadata.items, prefix + [id]) <==>
               |key| == 2 && key[0] == id && InMetadata(item, key[1], descriptor))
  {
    var metadata := GetOrNull(item, "metadata");
    if metadata.List? {
      MetadataIff(metadata.items, prefix + [id], prefix + key, descriptor);
      var name := GetOrNull(descriptor, "name");
      if name.Str? {
        assert prefix + [id] + [name.text] == prefix + [id, name.text];
        SameSuffix(prefix, key, [id, name.text]);
      }
    }
  }

  lemma SameSuffix(prefix: seq<string>, a: seq<string>, b: seq<string>)
    ensures prefix + a == prefix + b <==> a == b
  {
    assert (prefix + a)[|prefix|..] == a && (prefix + b)[|prefix|..] == b;
  }

  lemma {:induction false} LevelIff(show: Json -> string, items: Json, prefix: seq<string>, id: string,
                                    levels: seq<string>, key: seq<string>, descriptor: seq<Entry>)
    ensures (prefix + key, descriptor) in Listed(show, items, prefix + [id], levels) <==>
            key != [] && key[0] == id && Lists(show, items, levels, key[1..], descriptor)
    decreases |levels|, 3
  {
    if key != [] && key[0] == id {
      SplitKey(prefix, id, key);
      ListedIff(show, items, prefix + [id], levels, key[1..], descriptor);
    } else if (prefix + key, descriptor) in Listed(show, items, prefix + [id], levels) {
      var rest := ListedStarts(show, items, prefix + [id], levels, prefix + key, descriptor);
      assert prefix + [id] + rest == prefix + ([id] + rest);
      SameSuffix(prefix, key, [id] + rest);
    }
  }

  /** Every listed key starts with the prefix. */
  lemma {:induction false} ListedStarts(show: Json -> string, items: Json, prefix: seq<string>, levels: seq<string>,
                                        full: seq<string>, descriptor: seq<Entry>) returns (rest: seq<string>)
    requires (full, descriptor) in Listed(show, items, prefix, levels)
    ensures full == prefix + rest
    decreases |levels|, 2
  {
    rest := ItemsStart(show, items.items, prefix, levels, full, descriptor);
  }

  lemma {:induction false} ItemsStart(show: Json -> string, items: seq<Json>, prefix: seq<string>, levels: seq<string>,
                                      full: seq<string>, descriptor: seq<Entry>) returns (rest: seq<string>)
    requires (full, descriptor) in ListedItems(show, items, prefix, levels)
    ensures full == prefix + rest
    decreases |levels|, 1, |items|
  {
    var n := |items| - 1;
    if (full, descriptor) in ListedItems(show, items[..n], prefix, levels) {
      rest := ItemsStart(show, items[..n], prefix, levels, full, descriptor);
    } else {
      var item := items[n];
      var id := show(GetOrNull(item.entries, "id"));
      if levels != [] {
        var more := ListedStarts(show, GetOrNull(item.entries, levels[0]), prefix + [id], levels[1..], full,
          descriptor);
        rest := [id] + more;
      } else {
        MetadataIff(GetOrNull(item.entries, "metadata").items, prefix + [id], full, descriptor);
        rest := [id, GetOrNull(descriptor, "name").text];
      }
    }
  }

  /** The listing of a body holds exactly the descriptors reached through its levels, by ids and name. */
  lemma {:induction false} ListedIff(show: Json -> string, items: Json, prefix: seq<string>, levels: seq<string>,
                                     key: seq<string>, descriptor: seq<Entry>)
    ensures (prefix + key, descriptor) in Listed(show, items, prefix, levels) <==>
            Lists(show, items, levels, key, descriptor)
    decreases |levels|, 2
  {
    if items.List? {
      ItemsIff(show, items.items, prefix, levels, key, descriptor);
    }
  }

  lemma {:induction false} ItemsIff(show: Json -> string, items: seq<Json>, prefix: seq<string>, levels: seq<string>,
                                    key: seq<string>, descriptor: seq<Entry>)
    ensures (prefix + key, descriptor) in ListedItems(show, items, prefix, levels) <==>
            exists i :: 0 <= i < |items| && ListsIn(show, items[i], levels, key, descriptor)
    decreases |levels|, 1, |items|
  {
    hide ListsIn;
    if items != [] {
      var n := |items| - 1;
      var before, item := ListedItems(show, items[..n], prefix, levels), ListedItem(show, items[n], prefix, levels);
      ItemsIff(show, items[..n], prefix, levels, key, descriptor);
      ItemIff(show, items[n], prefix, levels, key, descriptor);
      assert (prefix + key, descriptor) in before + item <==>
             (prefix + key, descriptor) in before || (prefix + key, descriptor) in item;
      assert forall i :: 0 <= i < n ==> items[..n][i] == items[i];
    }
  }

  // ---- the first of a key is kept ----

  function AddFirsts(index: Descriptors, listing: Listing): Descriptors {
    if listing == [] then index
    else
      var before := AddFirsts(index, listing[..|listing| - 1]);
      var (key, descriptor) := listing[|listing| - 1];
      if key in before then before else before[key := descriptor]
  }

  lemma {:induction false} AddFirstsConcat(index: Descriptors, a: Listing, b: Listing)
    ensures AddFirsts(index, a + b) == AddFirsts(AddFirsts(index, a), b)
  {
    if b == [] {
      assert a + b == a;
    } else {
      AddFirstsConcat(index, a, b[..|b| - 1]);
      assert (a + b)[..|a + b| - 1] == a + b[..|b| - 1];
    }
  }

  /** Each key is that of some descriptor, and holds the first with that key in document order. */
  lemma {:induction false} FirstIsKept(listing: Listing, key: seq<string>)
    ensures key in AddFirsts(map[], listing) <==> exists i :: 0 <= i < |listing| && listing[i].0 == key
    ensures forall i :: 0 <= i < |listing| && listing[i].0 == key && (forall j :: 0 <= j < i ==> listing[j].0 != key)
                        ==> AddFirsts(map[], listing)[key] == listing[i].1
  {
    if listing != [] {
      var n := |listing| - 1;
      var init := listing[..n];
      FirstIsKept(init, key);
      assert forall i :: 0 <= i < n ==> init[i] == listing[i];
      if key in AddFirsts(map[], init) {
        var i :| 0 <= i < |init| && init[i].0 == key;
        assert listing[i].0 == key;
      } else {
        assert forall i :: 0 <= i < n ==> init[i].0 != key;
      }
    }
  }

  // ---- the code ----

  class Indexer {
    const show: Json -> string
    var index: Descriptors

    constructor (show: Json -> string)
      ensures this.show == show && index == map[]
    {
      this.show, index := show, map[];
    }

    method AddMetadata(metadata: seq<Json>, key: seq<string>)
      modifies this
      ensures index == AddFirsts(old(index), ListedMetadata(metadata, key))
    {
      for i := 0 to |metadata|
        invariant index == AddFirsts(old(index), ListedMetadata(metadata[..i], key))
      {
        assert metadata[..i + 1][..i] == metadata[..i];
        ghost var listing := ListedMetadata(metadata[..i], key);
        if metadata[i].Dict? {
          var name := GetOrNull(metadata[i].entries, "name");
          if name.Str? {
            var full := key + [name.text];
            assert (listing + [(full, metadata[i].entries)])[..|listing|] == listing;
            if full !in index {
              index := index[full := metadata[i].entries];
            }
          }
        }
        assert listing + [] == listing;
      }
      assert metadata[..|metadata|] == metadata;
    }

    /** `visit` */
    method Visit(items: Json, prefix: seq<string>, levels: seq<string>)
      modifies this
      ensures index == AddFirsts(old(index), Listed(show, items, prefix, levels))
      decreases |levels|
    {
      if !items.List? {
        return;
      }
      for i := 0 to |items.items|
        invariant index == AddFirsts(old(index), ListedItems(show, items.items[..i], prefix, levels))
      {
        var item := items.items[i];
        assert items.items[..i + 1][..i] == items.items[..i];
        ghost var listing := ListedItems(show, items.items[..i], prefix, levels);
        AddFirstsConcat(old(index), listing, ListedItem(show, item, prefix, levels));
        if item.Dict? {
          var key := prefix + [show(GetOrNull(item.entries, "id"))];
          if levels != [] {
            Visit(GetOrNull(item.entries, levels[0]), key, levels[1..]);
          } else {
            var metadata := GetOrNull(item.entries, "metadata");
            if metadata.List? {
              AddMetadata(metadata.items, key);
            }
          }
        }
      }
      assert items.items[..|items.items|] == items.items;
    }
  }

  function Indexed(show: Json -> string, meta: Json, levels: seq<string>): Descriptors {
    AddFirsts(map[], Listed(show, meta, [], levels))
  }

  /** `_index_descriptors` */
  method IndexDescriptors(show: Json -> string, meta: Json, levels: seq<string>) returns (index: Descriptors)
    ensures index == Indexed(show, meta, levels)
  {
    var indexer := new Indexer(show);
    indexer.Visit(meta, [], levels);
    index := indexer.index;
  }
}
