/** The write tools (tydomio/mcp_server/writes.py): checked, rate-limited, sent once. */
module Writes {
  import opened Collections
  import opened Model
  import I = Installation
  import S = CacheState
  import Cache

  // ---- the tables ----

  datatype WriteModel = ShutterWrite | BoilerWrite | Re2020ControlBoilerWrite | AreaWrite

  const WRITES: map<I.UsageModel, WriteModel> := map[
    I.Area := AreaWrite,
    I.Boiler := BoilerWrite,
    I.Re2020ControlBoiler := Re2020ControlBoilerWrite,
    I.Shutter := ShutterWrite]

  const SHUTTER_USAGES: set<I.UsageModel> := {I.Shutter}
  const HEATING_ENDPOINT_USAGES: set<I.UsageModel> := {I.Boiler, I.Re2020ControlBoiler}
  const HEATING_AREA_USAGES: set<string> := {"re2020ControlBoiler"}

  // ---- calls ----

  datatype Target = EndpointTarget(device: int, endpoint: int) | GroupTarget(group: int) | AreaTarget(area: int)

  type Fields = map<string, string>

  /** The arguments of a call; `valid` says which write models accept given fields. */
  datatype Call =
    | SetShutter(target: Target, command: Option<string>, position: Option<string>, valid: (WriteModel, Fields) -> bool)
    | SetHeating(target: Target, fields: Fields, valid: (WriteModel, Fields) -> bool)

  datatype Refusal =
    | InvalidInput
    | NotSynced
    | UnknownTarget
    | WrongUsage
    | InvalidWrite
    | RateLimited(retryAfter: real)

  datatype Request = Request(ref: I.Ref, model: WriteModel, fields: Fields)

  /** What steps 1 to 4 give; `Crashed` is an `InvalidTarget` no step catches. */
  datatype Prepared = Refused(reason: Refusal) | Ready(request: Request) | Crashed

  /** `_usage`: the target's usage name in the config. */
  function UsageName(config: Config, target: Target): Option<string> {
    match target
    case EndpointTarget(device, endpoint) => Lookup(LastWins(EndpointPairs(config)), (device, endpoint))
    case GroupTarget(group) => Lookup(LastWins(GroupPairs(config)), group)
    case AreaTarget(area) => Lookup(LastWins(AreaPairs(config)), area)
  }

  /** `_Write.__init__`: the write model must be that of the reference's usage. */
  function MakeRequest(ref: I.Ref, usage: I.UsageModel, model: WriteModel, fields: Fields): Prepared {
    if Lookup(WRITES, usage) == Some(model) then Ready(Request(ref, model, fields)) else Crashed
  }

  /** `_shutter_write` */
  function PrepareShutter(installation: I.Installation, config: Config, call: Call): Prepared
    requires call.SetShutter?
  {
    match UsageName(config, call.target)
    case None => Refused(UnknownTarget)
    case Some(name) =>
      if name !in I.USAGES || I.USAGES[name] !in SHUTTER_USAGES then Refused(WrongUsage)
      else
        var ref :=
          match call.target
          case EndpointTarget(device, endpoint) => installation.Endpoint(device, endpoint, I.Shutter)
          case GroupTarget(group) => installation.Group(group, I.Shutter)
          case AreaTarget(_) => None;
        if ref.None? then Refused(UnknownTarget)
        else if call.command.Some? == call.position.Some? then Refused(InvalidWrite)
        else
          var fields := if call.command.Some? then map["positionCmd" := call.command.value]
                        else map["position" := call.position.value];
          if !call.valid(ShutterWrite, fields) then Refused(InvalidWrite)
          else MakeRequest(ref.value, I.Shutter, ShutterWrite, fields)
  }

  /** `_heating_write` */
  function PrepareHeating(installation: I.Installation, config: Config, call: Call): Prepared
    requires call.SetHeating?
  {
    if call.target.GroupTarget? then Refused(WrongUsage)
    else
      match UsageName(config, call.target)
      case None => Refused(UnknownTarget)
      case Some(name) =>
        match call.target
        case AreaTarget(area) =>
          if name !in HEATING_AREA_USAGES then Refused(WrongUsage)
          else
            var ref := installation.AreaOf(area);
            if ref.None? then Refused(UnknownTarget)
            else if !call.valid(AreaWrite, call.fields) then Refused(InvalidWrite)
            else MakeRequest(ref.value, I.Area, AreaWrite, call.fields)
        case EndpointTarget(device, endpoint) =>
          if name !in I.USAGES || I.USAGES[name] !in HEATING_ENDPOINT_USAGES then Refused(WrongUsage)
          else
            var model := I.USAGES[name];
            var ref := installation.Endpoint(device, endpoint, model);
            if ref.None? then Refused(UnknownTarget)
            else if model !in WRITES then Crashed
            else if !call.valid(WRITES[model], call.fields) then Refused(InvalidWrite)
            else MakeRequest(ref.value, model, WRITES[model], call.fields)
        case GroupTarget(_) => Refused(WrongUsage)
  }

  /** The input pattern of `set_shutter` has no area. */
  predicate WellFormed(call: Call) {
    call.SetShutter? ==> !call.target.AreaTarget?
  }

  /** The input model, then steps 1 to 4: a fresh cache and the checks of the tool. */
  function Prepare(state: S.State, call: Call): Prepared {
    if !WellFormed(call) then Refused(InvalidInput)
    else if !state.Fresh() || state.content.installation.None? || state.content.config.None? then Refused(NotSynced)
    else if call.SetShutter? then PrepareShutter(state.content.installation.value, state.content.config.value, call)
    else PrepareHeating(state.content.installation.value, state.content.config.value, call)
  }

  // ---- the limiter ----

  function Ceiling(x: real): int {
    -((-x).Floor)
  }

  /** The seconds left before a send is allowed. */
  function Wait(interval: real, lastSend: Option<real>, now: real): real {
    if lastSend.None? then 0.0 else interval - (now - lastSend.value)
  }

  /** Rounded up to the millisecond, never above the interval. */
  function RetryAfter(interval: real, wait: real): real {
    var rounded := Ceiling(wait * 1000.0) as real / 1000.0;
    if rounded <= interval then rounded else interval
  }

  /** A request on its way: when it left, to what, and the cache and call it was built from. */
  datatype Sent = Sent(at: real, request: Request, state: S.State, call: Call)

  datatype Gate = Gate(lastSend: Option<real>, sent: seq<Sent>)

  const CLOSED := Gate(None, [])

  datatype Verdict = NotSent(refusal: Refusal) | Left(sent: Sent) | Broken

  /** One call, up to its send: no await in between. */
  function Attempt(g: Gate, interval: real, state: S.State, call: Call, now: real): (Gate, Verdict) {
    match Prepare(state, call)
    case Refused(reason) => (g, NotSent(reason))
    case Crashed => (g, Broken)
    case Ready(request) =>
      var wait := Wait(interval, g.lastSend, now);
      if wait > 0.0 then (g, NotSent(RateLimited(RetryAfter(interval, wait))))
      else
        var sent := Sent(now, request, state, call);
        (Gate(Some(now), g.sent + [sent]), Left(sent))
  }

  /** How the send ends: acknowledged, no answer, or the call cancelled. */
  datatype Reply = Acknowledged | NoAnswer | CallCancelled

  datatype Outcome =
    | NotSentOutcome(refusal: Refusal)
    | AcknowledgedOutcome
    | UnknownOutcome
    | CancelledOutcome
    | Failure

  /** What the caller is told, given how the send would end. */
  function OutcomeOf(verdict: Verdict, reply: Reply): Outcome {
    match verdict
    case NotSent(refusal) => NotSentOutcome(refusal)
    case Broken => Failure
    case Left(_) =>
      match reply
      case Acknowledged => AcknowledgedOutcome
      case NoAnswer => UnknownOutcome
      case CallCancelled => CancelledOutcome
  }

  class Writes {
    const cache: Cache.Cache
    const interval: real
    var lastSend: Option<real>
    ghost var sent: seq<Sent>  // the requests given to `send`

    ghost function View(): Gate
      reads this
    {
      Gate(lastSend, sent)
    }

    constructor (cache: Cache.Cache, rate: real)
      requires rate > 0.0
      ensures View() == CLOSED && this.cache == cache && interval == 1.0 / rate
    {
      this.cache := cache;
      interval := 1.0 / rate;
      lastSend, sent := None, [];
    }

    /** `_count`: Some is the refusal. */
    method Count(now: real) returns (retry: Option<real>)
      modifies this`lastSend
      ensures var wait := Wait(interval, old(lastSend), now);
              if wait > 0.0 then retry == Some(RetryAfter(interval, wait)) && lastSend == old(lastSend)
              else retry == None && lastSend == Some(now)
    {
      if lastSend.Some? {
        var wait := interval - (now - lastSend.value);
        if wait > 0.0 {
          return Some(RetryAfter(interval, wait));
        }
      }
      lastSend := Some(now);
      return None;
    }

    /** `_write`: whatever the reply, the call sends at most once and the send is counted. */
    method Write(call: Call, now: real, reply: Reply, ghost state: S.State) returns (outcome: Outcome)
      requires state == cache.View()
      modifies this
      ensures View() == Attempt(old(View()), interval, state, call, now).0
      ensures outcome == OutcomeOf(Attempt(old(View()), interval, state, call, now).1, reply)
      ensures old(sent) <= sent && |sent| <= |old(sent)| + 1
      ensures outcome.AcknowledgedOutcome? <==> sent != old(sent) && reply.Acknowledged?
      ensures outcome.UnknownOutcome? <==> sent != old(sent) && reply.NoAnswer?
      ensures outcome.CancelledOutcome? <==> sent != old(sent) && reply.CallCancelled?
    {
      if !WellFormed(call) {
        return NotSentOutcome(InvalidInput);
      }
      var prepared := Refused(NotSynced);
      var isFresh := cache.Fresh();
      if isFresh && cache.installation.Some? && cache.config.Some? {
        prepared := if call.SetShutter? then PrepareShutter(cache.installation.value, cache.config.value, call)
                    else PrepareHeating(cache.installation.value, cache.config.value, call);
      }
      assert prepared == Prepare(state, call);
      match prepared {
        case Refused(reason) => return NotSentOutcome(reason);
        case Crashed => return Failure;
        case Ready(request) =>
          var retry := Count(now);
          if retry.Some? {
            return NotSentOutcome(RateLimited(retry.value));
          }
          sent := sent + [Sent(now, request, state, call)];
          match reply {
            case Acknowledged => return AcknowledgedOutcome;
            case NoAnswer => return UnknownOutcome;
            case CallCancelled => return CancelledOutcome;
          }
      }
    }
  }
}
