/**
 The responses of the Tydom and their reading (tydomio/response.py). JSON parsing and the
 pydantic models are abstract: a content carries what each model reads from it, if anything.
 */
module Responses {
  import opened Collections
  import opened Model

  /** An endpoint or area as received: its id, and its reading when it validates. */
  datatype RawEndpoint = RawEndpoint(id: int, reading: Option<Reading>)

  datatype RawDevice = RawDevice(id: int, endpoints: seq<RawEndpoint>)

  /** A content, by what the config model and the two envelopes read from it. */
  datatype Content = Content(
    config: Option<Config>,
    devices: Option<seq<RawDevice>>,
    areas: Option<seq<RawEndpoint>>)

  datatype Response = Response(
    transacId: Option<int>,
    status: int,
    uriOrigin: Option<string>,
    content: Option<Content>)

  const CONFIGS_FILE := "/configs/file"
  const DEVICES_DATA := "/devices/data"
  const AREAS_DATA := "/areas/data"

  predicate OkWithContent(r: Response, url: string) {
    r.status == 200 && r.uriOrigin == Some(url) && r.content.Some?
  }

  /** `ConfigResponse`: None is `InvalidResponse`. */
  function ReadConfig(r: Response): Option<Config> {
    if OkWithContent(r, CONFIGS_FILE) then r.content.value.config else None
  }

  function ReadDevices(r: Response): Option<seq<RawDevice>> {
    if OkWithContent(r, DEVICES_DATA) then r.content.value.devices else None
  }

  function ReadAreas(r: Response): Option<seq<RawEndpoint>> {
    if OkWithContent(r, AREAS_DATA) then r.content.value.areas else None
  }

  /** `Ok` */
  predicate IsOk(r: Response) {
    r.status == 200 && r.content.None?
  }

  function ValidEndpoints(raw: seq<RawEndpoint>): seq<Endpoint> {
    if raw == [] then []
    else
      var last := raw[|raw| - 1];
      ValidEndpoints(raw[..|raw| - 1]) +
      if last.reading.Some? then [Endpoint(last.id, last.reading.value)] else []
  }

  function InvalidIds(raw: seq<RawEndpoint>): seq<int> {
    if raw == [] then []
    else
      var last := raw[|raw| - 1];
      InvalidIds(raw[..|raw| - 1]) + if last.reading.Some? then [] else [last.id]
  }

  function ValidDevices(raw: seq<RawDevice>): DevicesData {
    if raw == [] then []
    else
      var last := raw[|raw| - 1];
      ValidDevices(raw[..|raw| - 1]) + [ModelItem(last.id, ValidEndpoints(last.endpoints))]
  }

  function KeysOf(device: int, ids: seq<int>): seq<EndpointKey> {
    seq(|ids|, i requires 0 <= i < |ids| => (device, ids[i]))
  }

  function InvalidKeys(raw: seq<RawDevice>): seq<EndpointKey> {
    if raw == [] then []
    else
      var last := raw[|raw| - 1];
      InvalidKeys(raw[..|raw| - 1]) + KeysOf(last.id, InvalidIds(last.endpoints))
  }

  /** The loop of `DevicesDataResponse`: valid endpoints by device, keys of the invalid ones. */
  method SplitDevices(raw: seq<RawDevice>) returns (items: DevicesData, invalid: seq<EndpointKey>)
    ensures items == ValidDevices(raw) && invalid == InvalidKeys(raw)
  {
    items, invalid := [], [];
    for i := 0 to |raw|
      invariant items == ValidDevices(raw[..i]) && invalid == InvalidKeys(raw[..i])
    {
      var endpoints: seq<Endpoint> := [];
      ghost var before := invalid;
      for j := 0 to |raw[i].endpoints|
        invariant endpoints == ValidEndpoints(raw[i].endpoints[..j])
        invariant invalid == before + KeysOf(raw[i].id, InvalidIds(raw[i].endpoints[..j]))
      {
        assert raw[i].endpoints[..j + 1][..j] == raw[i].endpoints[..j];
        var entity := raw[i].endpoints[j];
        if entity.reading.Some? {
          endpoints := endpoints + [Endpoint(entity.id, entity.reading.value)];
        } else {
          invalid := invalid + [(raw[i].id, entity.id)];
        }
      }
      assert raw[i].endpoints[..|raw[i].endpoints|] == raw[i].endpoints;
      items := items + [ModelItem(raw[i].id, endpoints)];
      assert raw[..i + 1][..i] == raw[..i];
    }
    assert raw[..|raw|] == raw;
  }

  /** The loop of `AreasDataResponse`. */
  method SplitAreas(raw: seq<RawEndpoint>) returns (areas: AreasData, invalid: seq<int>)
    ensures areas == ValidEndpoints(raw) && invalid == InvalidIds(raw)
  {
    areas, invalid := [], [];
    for i := 0 to |raw|
      invariant areas == ValidEndpoints(raw[..i]) && invalid == InvalidIds(raw[..i])
    {
      assert raw[..i + 1][..i] == raw[..i];
      if raw[i].reading.Some? {
        areas := areas + [Endpoint(raw[i].id, raw[i].reading.value)];
      } else {
        invalid := invalid + [raw[i].id];
      }
    }
    assert raw[..|raw|] == raw;
  }

  // ---- the split loses and invents nothing ----

  lemma {:induction false} EndpointsSplit(raw: seq<RawEndpoint>, id: int)
    ensures |ValidEndpoints(raw)| + |InvalidIds(raw)| == |raw|
    ensures id in InvalidIds(raw) <==> RawEndpoint(id, None) in raw
    ensures forall reading :: Endpoint(id, reading) in ValidEndpoints(raw) <==> RawEndpoint(id, Some(reading)) in raw
  {
    if raw != [] {
      var n := |raw| - 1;
      EndpointsSplit(raw[..n], id);
      assert raw == raw[..n] + [raw[n]];
      assert raw[n] == RawEndpoint(raw[n].id, raw[n].reading);
    }
  }

  predicate ListsInvalid(device: RawDevice, key: EndpointKey) {
    device.id == key.0 && RawEndpoint(key.1, None) in device.endpoints
  }

  lemma KeysOfDevice(device: RawDevice, key: EndpointKey)
    ensures key in KeysOf(device.id, InvalidIds(device.endpoints)) <==> ListsInvalid(device, key)
  {
    EndpointsSplit(device.endpoints, key.1);
    var ids := InvalidIds(device.endpoints);
    if device.id == key.0 && key.1 in ids {
      var i :| 0 <= i < |ids| && ids[i] == key.1;
      assert KeysOf(device.id, ids)[i] == key;
    }
  }

  /** An endpoint is listed invalid exactly when some device lists it with data that fails to validate. */
  lemma {:induction false} DevicesSplit(raw: seq<RawDevice>, key: EndpointKey)
    ensures |ValidDevices(raw)| == |raw|
    ensures forall i :: 0 <= i < |raw| ==>
              ValidDevices(raw)[i] == ModelItem(raw[i].id, ValidEndpoints(raw[i].endpoints))
    ensures key in InvalidKeys(raw) <==> exists device :: device in raw && ListsInvalid(device, key)
  {
    if raw != [] {
      var n := |raw| - 1;
      DevicesSplit(raw[..n], key);
      KeysOfDevice(raw[n], key);
      assert raw == raw[..n] + [raw[n]];
    }
  }
}
