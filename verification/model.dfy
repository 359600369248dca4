/** The wire data the cache reads (tydomio/model/data.py) and the part of `/configs/file` it reads. */
module Model {

  datatype Value = Null | Number(number: real) | Text(text: string)

  /** A field of an endpoint or area. */
  datatype Data = Data(name: string, validity: string, value: Value)

  /** What a push or a snapshot says of one endpoint or area, its id left to the carrier. */
  datatype Reading = Reading(error: int, data: seq<Data>)

  datatype Endpoint = Endpoint(id: int, reading: Reading)

  datatype ModelItem = ModelItem(id: int, endpoints: seq<Endpoint>)

  type DevicesData = seq<ModelItem>
  type AreasData = seq<Endpoint>

  type EndpointKey = (int, int)

  datatype ConfigEndpoint = ConfigEndpoint(idDevice: int, idEndpoint: int, lastUsage: string)
  datatype ConfigArea = ConfigArea(id: int, lastUsage: string)
  datatype ConfigGroup = ConfigGroup(id: int, usage: string)

  datatype Config = Config(
    date: int,
    endpoints: seq<ConfigEndpoint>,
    groups: seq<ConfigGroup>,
    areas: seq<ConfigArea>)

  function EndpointPairs(config: Config): seq<(EndpointKey, string)> {
    seq(|config.endpoints|, i requires 0 <= i < |config.endpoints| =>
      ((config.endpoints[i].idDevice, config.endpoints[i].idEndpoint), config.endpoints[i].lastUsage))
  }

  function AreaPairs(config: Config): seq<(int, string)> {
    seq(|config.areas|, i requires 0 <= i < |config.areas| => (config.areas[i].id, config.areas[i].lastUsage))
  }

  function GroupPairs(config: Config): seq<(int, string)> {
    seq(|config.groups|, i requires 0 <= i < |config.groups| => (config.groups[i].id, config.groups[i].usage))
  }

  /** The readings of one device, keyed by (device id, endpoint id), in wire order. */
  function DeviceItems(id: int, endpoints: seq<Endpoint>): (items: seq<(EndpointKey, Reading)>) {
    if endpoints == [] then []
    else
      var n := |endpoints| - 1;
      DeviceItems(id, endpoints[..n]) + [((id, endpoints[n].id), endpoints[n].reading)]
  }

  /** The readings of a devices document, in wire order. */
  function DevicesItems(data: DevicesData): seq<(EndpointKey, Reading)> {
    if data == [] then []
    else
      var n := |data| - 1;
      DevicesItems(data[..n]) + DeviceItems(data[n].id, data[n].endpoints)
  }

  /** The readings of an areas document, in wire order. */
  function AreasItems(data: AreasData): seq<(int, Reading)> {
    if data == [] then []
    else
      var n := |data| - 1;
      AreasItems(data[..n]) + [(data[n].id, data[n].reading)]
  }

  lemma {:induction false} DevicesItemsConcat(a: DevicesData, b: DevicesData)
    ensures DevicesItems(a + b) == DevicesItems(a) + DevicesItems(b)
  {
    if b == [] {
      assert a + b == a;
    } else {
      var n := |b| - 1;
      DevicesItemsConcat(a, b[..n]);
      assert (a + b)[..|a + b| - 1] == a + b[..n];
      var x, y, z := DevicesItems(a), DevicesItems(b[..n]), DeviceItems(b[n].id, b[n].endpoints);
      assert (a + b)[|a + b| - 1] == b[n];
      assert (x + y) + z == x + (y + z);
    }
  }

  lemma {:induction false} AreasItemsConcat(a: AreasData, b: AreasData)
    ensures AreasItems(a + b) == AreasItems(a) + AreasItems(b)
  {
    if b == [] {
      assert a + b == a;
    } else {
      var n := |b| - 1;
      AreasItemsConcat(a, b[..n]);
      assert (a + b)[..|a + b| - 1] == a + b[..n];
      var x, y, z := AreasItems(a), AreasItems(b[..n]), [(b[n].id, b[n].reading)];
      assert (a + b)[|a + b| - 1] == b[n];
      assert (x + y) + z == x + (y + z);
    }
  }
}
