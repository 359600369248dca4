/** The installation described by `/configs/file` (tydomio/installation.py): who may be written. */
module Installation {
  import opened Collections
  import opened Model

  /** The usage models a usage name may stand for (`USAGES`), and the model of the areas. */
  datatype UsageModel = Area | Boiler | Conso | Re2020ControlBoiler | SensorSun | Shutter | Weather

  const USAGES: map<string, UsageModel> := map[
    "boiler" := Boiler,
    "conso" := Conso,
    "re2020ControlBoiler" := Re2020ControlBoiler,
    "sensorSun" := SensorSun,
    "shutter" := Shutter,
    "weather" := Weather]

  datatype Ref =
    | EndpointRef(deviceId: int, endpointId: int, usage: UsageModel)
    | GroupRef(groupId: int, usage: UsageModel)
    | AreaRef(areaId: int)

  datatype Installation = Installation(
    endpoints: map<EndpointKey, string>,
    areas: set<int>,
    groups: map<int, string>)
  {
    /** The endpoint's reference, None (`InvalidTarget`) if unknown or of another usage. */
    function Endpoint(deviceId: int, endpointId: int, usage: UsageModel): Option<Ref> {
      match Lookup(endpoints, (deviceId, endpointId))
      case None => None
      case Some(name) =>
        if Lookup(USAGES, name) == Some(usage) then Some(EndpointRef(deviceId, endpointId, usage)) else None
    }

    function Group(groupId: int, usage: UsageModel): Option<Ref> {
      match Lookup(groups, groupId)
      case None => None
      case Some(name) =>
        if Lookup(USAGES, name) == Some(usage) then Some(GroupRef(groupId, usage)) else None
    }

    function AreaOf(areaId: int): Option<Ref> {
      if areaId in areas then Some(AreaRef(areaId)) else None
    }
  }

  function FromConfig(config: Config): Installation {
    Installation(
      LastWins(EndpointPairs(config)),
      set i | 0 <= i < |config.areas| :: config.areas[i].id,
      LastWins(GroupPairs(config)))
  }

  /** The area set of the installation is the key set of the config's area usages. */
  lemma AreasAgree(config: Config)
    ensures FromConfig(config).areas == LastWins(AreaPairs(config)).Keys
  {
    var pairs := AreaPairs(config);
    forall id ensures id in FromConfig(config).areas <==> id in LastWins(pairs) {
      LastWinsKeys(pairs, id);
      if id in FromConfig(config).areas {
        var i :| 0 <= i < |config.areas| && config.areas[i].id == id;
        assert pairs[i].0 == id;
      }
    }
  }
}
