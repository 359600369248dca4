/** What the write gate guarantees over every interleaving of calls with a monotonic clock. */
module WritesGate {
  import opened Collections
  import opened Model
  import I = Installation
  import S = CacheState
  import opened CacheEffects
  import opened Writes

  // ---- runs ----

  /** A call at a time, over the cache as it then is, and how its send ends if it sends. */
  datatype Moment = Moment(state: S.State, call: Call, now: real, reply: Reply)

  function GateAfter(interval: real, moments: seq<Moment>): Gate {
    if moments == [] then CLOSED
    else
      var last := moments[|moments| - 1];
      Attempt(GateAfter(interval, moments[..|moments| - 1]), interval, last.state, last.call, last.now).0
  }

  /** How a call after these fares. */
  function VerdictOf(interval: real, before: seq<Moment>, m: Moment): Verdict {
    Attempt(GateAfter(interval, before), interval, m.state, m.call, m.now).1
  }

  /** What each call of the run is told. */
  function Told(interval: real, moments: seq<Moment>): (told: seq<Outcome>)
    ensures |told| == |moments|
  {
    if moments == [] then []
    else
      var init, last := moments[..|moments| - 1], moments[|moments| - 1];
      Told(interval, init) + [OutcomeOf(VerdictOf(interval, init, last), last.reply)]
  }

  predicate Monotonic(moments: seq<Moment>) {
    forall i, j :: 0 <= i < j < |moments| ==> moments[i].now <= moments[j].now
  }

  /** The limiter remembers the last send, and sends are an interval apart. */
  predicate Spaced(g: Gate, interval: real) {
    && (g.sent == [] ==> g.lastSend.None?)
    && (g.sent != [] ==> g.lastSend == Some(g.sent[|g.sent| - 1].at))
    && forall i :: 0 < i < |g.sent| ==> g.sent[i].at - g.sent[i - 1].at >= interval
  }

  /** When the last request left. */
  function LastSent(g: Gate): real
    requires g.sent != []
  {
    g.sent[|g.sent| - 1].at
  }

  lemma {:induction false} RunsAreSpaced(interval: real, moments: seq<Moment>)
    requires interval > 0.0
    ensures Spaced(GateAfter(interval, moments), interval)
  {
    if moments != [] {
      RunsAreSpaced(interval, moments[..|moments| - 1]);
    }
  }

  lemma {:induction false} SentSpan(g: Gate, interval: real, i: nat, j: nat)
    requires Spaced(g, interval) && i <= j < |g.sent|
    ensures g.sent[j].at - g.sent[i].at >= (j - i) as real * interval
    decreases j
  {
    if i < j {
      SentSpan(g, interval, i, j - 1);
    }
  }

  /**
   In every run, the sends `i` to `j` of a window of length `window` are at most
   `window * rate + 1`, the rate being `1 / interval`.
   */
  lemma AtMostTheRate(interval: real, moments: seq<Moment>, i: nat, j: nat, window: real)
    requires interval > 0.0
    requires i <= j < |GateAfter(interval, moments).sent|
    requires GateAfter(interval, moments).sent[j].at - GateAfter(interval, moments).sent[i].at <= window
    ensures (j - i + 1) as real <= window * (1.0 / interval) + 1.0
  {
    hide GateAfter, Spaced;
    RunsAreSpaced(interval, moments);
    var g := GateAfter(interval, moments);
    SentSpan(g, interval, i, j);
    Divide((j - i) as real, interval, window);
  }

  lemma Divide(n: real, interval: real, window: real)
    requires interval > 0.0 && n * interval <= window
    ensures n <= window * (1.0 / interval)
  {
    var rate := 1.0 / interval;
    assert rate > 0.0 && interval * rate == 1.0;
    assert n * interval * rate <= window * rate;
    assert n * (interval * rate) == n * interval * rate;
  }

  // ---- what the callers are told ----

  /** The outcomes that say, or do not rule out, that the command was given. */
  predicate MayBeApplied(outcome: Outcome) {
    outcome.AcknowledgedOutcome? || outcome.UnknownOutcome? || outcome.CancelledOutcome?
  }

  /** The calls told so, in order. */
  function ToldApplied(moments: seq<Moment>, told: seq<Outcome>): seq<Moment>
    requires |told| == |moments|
  {
    if moments == [] then []
    else
      var n := |moments| - 1;
      ToldApplied(moments[..n], told[..n]) + if MayBeApplied(told[n]) then [moments[n]] else []
  }

  /** The request this call asks for, sent when it was made. */
  ghost predicate SentFor(sent: Sent, m: Moment) {
    && sent == Sent(m.now, sent.request, m.state, m.call)
    && Prepare(m.state, m.call) == Ready(sent.request)
  }

  /** One request for each of these calls, in order. */
  ghost predicate OneEach(sent: seq<Sent>, calls: seq<Moment>) {
    |sent| == |calls| && forall i :: 0 <= i < |sent| ==> SentFor(sent[i], calls[i])
  }

  /**
   In every run, whatever the replies, what left is one request for each call whose outcome
   does not exclude that its command is applied, in the order of the calls: nothing is sent
   for a call told that it sent nothing, and nothing is sent again.
   */
  lemma {:induction false} OutcomesTellTheSends(interval: real, moments: seq<Moment>)
    ensures OneEach(GateAfter(interval, moments).sent, ToldApplied(moments, Told(interval, moments)))
  {
    if moments != [] {
      var init, last := moments[..|moments| - 1], moments[|moments| - 1];
      OutcomesTellTheSends(interval, init);
      var told := Told(interval, moments);
      assert told[..|init|] == Told(interval, init);
      assert told[|init|] == OutcomeOf(VerdictOf(interval, init, last), last.reply);
      SendKeepsOneEach(GateAfter(interval, init), interval, last, ToldApplied(init, Told(interval, init)));
    }
  }

  lemma SendKeepsOneEach(g: Gate, interval: real, m: Moment, calls: seq<Moment>)
    requires OneEach(g.sent, calls)
    ensures var (after, verdict) := Attempt(g, interval, m.state, m.call, m.now);
            OneEach(after.sent, calls + if MayBeApplied(OutcomeOf(verdict, m.reply)) then [m] else [])
  {
    hide Prepare;
    assert calls + [] == calls;
  }

  /** The call sends a request. */
  predicate SendsAt(interval: real, moments: seq<Moment>, k: nat)
    requires k < |moments|
  {
    |GateAfter(interval, moments[..k + 1]).sent| > |GateAfter(interval, moments[..k]).sent|
  }

  lemma {:induction false} ToldAt(interval: real, moments: seq<Moment>, k: nat)
    requires k < |moments|
    ensures Told(interval, moments)[k] == OutcomeOf(VerdictOf(interval, moments[..k], moments[k]), moments[k].reply)
  {
    var n := |moments| - 1;
    if k < n {
      ToldAt(interval, moments[..n], k);
      assert moments[..n][..k] == moments[..k];
    }
  }

  lemma SendsIff(interval: real, moments: seq<Moment>, k: nat)
    requires k < |moments|
    ensures SendsAt(interval, moments, k) <==> VerdictOf(interval, moments[..k], moments[k]).Left?
  {
    hide Prepare;
    assert moments[..k + 1][..k] == moments[..k];
  }

  /** In every run, a caller is told what became of its request: sent or not, and how its send ended. */
  lemma ToldWhatHappened(interval: real, moments: seq<Moment>, k: nat)
    requires k < |moments|
    ensures var told, reply, sends := Told(interval, moments)[k], moments[k].reply, SendsAt(interval, moments, k);
            && (told.AcknowledgedOutcome? <==> sends && reply.Acknowledged?)
            && (told.UnknownOutcome? <==> sends && reply.NoAnswer?)
            && (told.CancelledOutcome? <==> sends && reply.CallCancelled?)
            && (told.NotSentOutcome? || told.Failure? <==> !sends)
  {
    hide SendsAt;
    ToldAt(interval, moments, k);
    SendsIff(interval, moments, k);
  }

  // ---- the retry delay ----

  lemma CeilingBounds(x: real)
    ensures x <= Ceiling(x) as real < x + 1.0
  {
  }

  lemma RetryBounds(interval: real, wait: real)
    requires 0.0 < wait <= interval
    ensures 0.0 < RetryAfter(interval, wait) <= interval
    ensures wait <= RetryAfter(interval, wait) < wait + 0.001
    ensures RetryAfter(interval, wait) == interval || InMilliseconds(RetryAfter(interval, wait))
  {
    CeilingBounds(wait * 1000.0);
    var n := Ceiling(wait * 1000.0);
    assert n as real / 1000.0 >= wait;
    assert n as real / 1000.0 < wait + 0.001;
    assert n as real / 1000.0 * 1000.0 == n as real;
    assert (n as real).Floor == n;
  }

  predicate InMilliseconds(delay: real) {
    (delay * 1000.0).Floor as real == delay * 1000.0
  }

  /** Calls in a run come no earlier than the last send. */
  lemma {:induction false} ClockNotBeforeLastSend(interval: real, moments: seq<Moment>, now: real)
    requires Monotonic(moments) && (moments != [] ==> moments[|moments| - 1].now <= now)
    ensures GateAfter(interval, moments).lastSend.Some? ==> GateAfter(interval, moments).lastSend.value <= now
  {
    if moments != [] {
      var init := moments[..|moments| - 1];
      assert forall i :: 0 <= i < |init| ==> init[i] == moments[i];
      ClockNotBeforeLastSend(interval, init, moments[|moments| - 1].now);
    }
  }

  lemma PrefixIsMonotonic(moments: seq<Moment>, more: seq<Moment>)
    requires Monotonic(moments + more)
    ensures Monotonic(moments)
  {
    var all := moments + more;
    assert forall i :: 0 <= i < |moments| ==> all[i] == moments[i];
  }

  /** What was sent says what the limiter remembers. */
  lemma SameSendsSameLimit(interval: real, a: seq<Moment>, b: seq<Moment>)
    requires interval > 0.0 && GateAfter(interval, a).sent == GateAfter(interval, b).sent
    ensures GateAfter(interval, a) == GateAfter(interval, b)
  {
    RunsAreSpaced(interval, a);
    RunsAreSpaced(interval, b);
  }

  /**
   In every run, a rate-limited call is told the wait that remains, rounded up to the millisecond
   but never above 1/rate. A call made after that delay is not limited, unless a call in between sent.
   */
  lemma RetryAfterPasses(interval: real, moments: seq<Moment>, last: Moment, more: seq<Moment>, m: Moment)
    requires interval > 0.0 && Monotonic(moments + [last])
    requires VerdictOf(interval, moments, last).NotSent? && VerdictOf(interval, moments, last).refusal.RateLimited?
    requires GateAfter(interval, moments + [last] + more).sent == GateAfter(interval, moments).sent
    ensures var delay := VerdictOf(interval, moments, last).refusal.retryAfter;
            && 0.0 < delay <= interval
            && GateAfter(interval, moments).sent != []
            && (var wait := interval - (last.now - LastSent(GateAfter(interval, moments)));
                wait <= delay < wait + 0.001 && (delay == interval || InMilliseconds(delay)))
            && (m.now >= last.now + delay && Prepare(m.state, m.call).Ready?
                ==> VerdictOf(interval, moments + [last] + more, m).Left?)
  {
    var g := GateAfter(interval, moments);
    PrefixIsMonotonic(moments, [last]);
    assert (moments + [last])[|moments|] == last;
    assert forall i :: 0 <= i < |moments| ==> (moments + [last])[i] == moments[i];
    ClockNotBeforeLastSend(interval, moments, last.now);
    PrepareNeverLimits(last.state, last.call);
    RunsAreSpaced(interval, moments);
    RetryBounds(interval, Wait(interval, g.lastSend, last.now));
    SameSendsSameLimit(interval, moments + [last] + more, moments);
  }

  lemma PrepareNeverLimits(state: S.State, call: Call)
    ensures Prepare(state, call).Refused? ==> !Prepare(state, call).reason.RateLimited?
  {
  }

  // ---- what leaves was checked ----

  /** The usage the config gives the target. */
  ghost predicate HasUsage(config: Config, target: Target, usage: string) {
    match target
    case EndpointTarget(device, endpoint) => EndpointHas(config, device, endpoint, usage)
    case GroupTarget(group) => GroupHas(config, group, usage)
    case AreaTarget(area) => AreaHas(config, area, usage)
  }

  lemma UsageNameIs(config: Config, target: Target, usage: string)
    ensures UsageName(config, target) == Some(usage) <==> HasUsage(config, target, usage)
  {
    hide LastWins, EndpointPairs, AreaPairs, GroupPairs, EndpointHas, AreaHas, GroupHas;
    match target
    case EndpointTarget(device, endpoint) => EndpointUsage(config, device, endpoint, usage);
    case GroupTarget(group) => GroupUsage(config, group, usage);
    case AreaTarget(area) => AreaUsage(config, area, usage);
  }

  /** The usages a tool may write, by the kind of target. */
  predicate Writable(call: Call, usage: string) {
    if call.SetShutter? then !call.target.AreaTarget? && usage == "shutter"
    else if call.target.AreaTarget? then usage == "re2020ControlBoiler"
    else call.target.EndpointTarget? && (usage == "boiler" || usage == "re2020ControlBoiler")
  }

  ghost predicate Allowed(config: Config, call: Call) {
    exists usage :: HasUsage(config, call.target, usage) && Writable(call, usage)
  }

  predicate Refers(ref: I.Ref, target: Target) {
    match target
    case EndpointTarget(device, endpoint) => ref.EndpointRef? && ref.deviceId == device && ref.endpointId == endpoint
    case GroupTarget(group) => ref.GroupRef? && ref.groupId == group
    case AreaTarget(area) => ref == I.AreaRef(area)
  }

  /** The request was built while the cache was fresh, for an allowed target, with a valid write. */
  ghost predicate Checked(sent: Sent) {
    && sent.state.Fresh()
    && sent.state.content.config.Some?
    && Allowed(sent.state.content.config.value, sent.call)
    && Refers(sent.request.ref, sent.call.target)
    && sent.call.valid(sent.request.model, sent.request.fields)
  }

  /** The tables of usages, by name. */
  lemma UsagesByName(name: string)
    ensures name in I.USAGES && I.USAGES[name] in HEATING_ENDPOINT_USAGES <==>
            name == "boiler" || name == "re2020ControlBoiler"
    ensures name in I.USAGES && I.USAGES[name] in SHUTTER_USAGES <==> name == "shutter"
    ensures name in HEATING_AREA_USAGES <==> name == "re2020ControlBoiler"
  {
    assert "boiler" in I.USAGES && "re2020ControlBoiler" in I.USAGES && "shutter" in I.USAGES;
  }

  lemma ReadyIsChecked(state: S.State, call: Call, now: real)
    requires Prepare(state, call).Ready?
    ensures Checked(Sent(now, Prepare(state, call).request, state, call))
  {
    hide UsageName, HasUsage;
    var config := state.content.config.value;
    var usage := UsageName(config, call.target);
    UsagesByName(usage.value);
    UsageNameIs(config, call.target, usage.value);
    assert HasUsage(config, call.target, usage.value) && Writable(call, usage.value);
  }

  /** In every run, every request that left was checked in the step that sent it. */
  lemma {:induction false} AllSentWereChecked(interval: real, moments: seq<Moment>)
    ensures forall i :: 0 <= i < |GateAfter(interval, moments).sent| ==> Checked(GateAfter(interval, moments).sent[i])
  {
    if moments != [] {
      var init := moments[..|moments| - 1];
      assert forall i :: 0 <= i < |init| ==> init[i] == moments[i];
      AllSentWereChecked(interval, init);
      var last := moments[|moments| - 1];
      if Prepare(last.state, last.call).Ready? {
        ReadyIsChecked(last.state, last.call, last.now);
      }
    }
  }

  // ---- the second check never refuses ----

  function RefTo(target: Target, usage: I.UsageModel): I.Ref {
    match target
    case EndpointTarget(device, endpoint) => I.EndpointRef(device, endpoint, usage)
    case GroupTarget(group) => I.GroupRef(group, usage)
    case AreaTarget(area) => I.AreaRef(area)
  }

  function Validated(call: Call, usage: I.UsageModel, model: WriteModel, fields: Fields): Prepared {
    if call.valid(model, fields)
    then Ready(Request(RefTo(call.target, usage), model, fields))
    else Refused(InvalidWrite)
  }

  /** The tool's decision from the entries of the config alone, with no `Installation` and no table. */
  ghost function Decision(config: Config, call: Call): Prepared {
    if call.SetHeating? && call.target.GroupTarget? then Refused(WrongUsage)
    else if forall usage :: !HasUsage(config, call.target, usage) then Refused(UnknownTarget)
    else if !Allowed(config, call) then Refused(WrongUsage)
    else if call.SetShutter? then
      match (call.command, call.position)
      case (Some(command), None) => Validated(call, I.Shutter, ShutterWrite, map["positionCmd" := command])
      case (None, Some(position)) => Validated(call, I.Shutter, ShutterWrite, map["position" := position])
      case _ => Refused(InvalidWrite)
    else if call.target.AreaTarget? then Validated(call, I.Area, AreaWrite, call.fields)
    else if HasUsage(config, call.target, "boiler") then Validated(call, I.Boiler, BoilerWrite, call.fields)
    else Validated(call, I.Re2020ControlBoiler, Re2020ControlBoilerWrite, call.fields)
  }

  /** A target has one usage, that of its last entry. */
  lemma UsageIsOne(config: Config, call: Call)
    ensures var usage := UsageName(config, call.target);
            && (usage.None? <==> forall name :: !HasUsage(config, call.target, name))
            && (usage.Some? ==> (Allowed(config, call) <==> Writable(call, usage.value)))
            && (usage == Some("boiler") <==> HasUsage(config, call.target, "boiler"))
  {
    hide UsageName, HasUsage;
    forall name
      ensures UsageName(config, call.target) == Some(name) <==> HasUsage(config, call.target, name)
    {
      UsageNameIs(config, call.target, name);
    }
  }

  lemma ShutterDecides(config: Config, call: Call)
    requires call.SetShutter? && WellFormed(call)
    ensures PrepareShutter(I.FromConfig(config), config, call) == Decision(config, call)
  {
    hide HasUsage, Allowed, LastWins, EndpointPairs, GroupPairs;
    UsageIsOne(config, call);
    var usage := UsageName(config, call.target);
    if usage.Some? {
      UsagesByName(usage.value);
      assert I.USAGES["shutter"] == I.Shutter;
    }
  }

  lemma HeatingDecides(config: Config, call: Call)
    requires call.SetHeating?
    ensures PrepareHeating(I.FromConfig(config), config, call) == Decision(config, call)
  {
    hide HasUsage, Allowed, LastWins, EndpointPairs, GroupPairs, AreaPairs;
    UsageIsOne(config, call);
    I.AreasAgree(config);
    var usage := UsageName(config, call.target);
    if usage.Some? {
      UsagesByName(usage.value);
      assert I.USAGES["boiler"] == I.Boiler && I.USAGES["re2020ControlBoiler"] == I.Re2020ControlBoiler;
    }
  }

  /**
   Over any reachable cache, a call decides as the config alone decides: the check that
   `Installation` makes again never refuses a target the config lookup accepted, and no
   request is refused by its own constructor.
   */
  lemma InstallationNeverDisagrees(log: seq<S.Op>, state: S.State, call: Call)
    requires state.content == S.ApplyAll(S.BLANK, log)
    ensures Prepare(state, call) ==
            if !WellFormed(call) then Refused(InvalidInput)
            else if state.Fresh() && state.content.config.Some? then Decision(state.content.config.value, call)
            else Refused(NotSynced)
    ensures !Prepare(state, call).Crashed?
  {
    S.OnlyConfiguredIds(log);
    if WellFormed(call) && state.Fresh() && state.content.config.Some? {
      if call.SetShutter? {
        ShutterDecides(state.content.config.value, call);
      } else {
        HeatingDecides(state.content.config.value, call);
      }
    }
  }

  // ---- why a call is refused ----

  /** The first check of the tool that fails, by the call, the cache and the sends before. */
  ghost predicate RefusedFor(interval: real, sent: seq<Sent>, m: Moment, reason: Refusal) {
    if m.call.SetShutter? && m.call.target.AreaTarget? then reason == InvalidInput
    else if !m.state.connection.Connected? || !m.state.synced || m.state.content.config.None? then reason == NotSynced
    else
      match Decision(m.state.content.config.value, m.call)
      case Refused(why) => reason == why
      case Crashed => false
      case Ready(_) => reason.RateLimited? && sent != [] && m.now - sent[|sent| - 1].at < interval
  }

  lemma VerdictIs(interval: real, before: seq<Moment>, m: Moment, log: seq<S.Op>)
    requires interval > 0.0 && m.state.content == S.ApplyAll(S.BLANK, log)
    ensures !VerdictOf(interval, before, m).Broken?
    ensures forall reason :: VerdictOf(interval, before, m) == NotSent(reason) ==>
              RefusedFor(interval, GateAfter(interval, before).sent, m, reason)
    ensures VerdictOf(interval, before, m).Left? ==>
              forall reason :: !RefusedFor(interval, GateAfter(interval, before).sent, m, reason)
  {
    hide Prepare, Decision, GateAfter;
    InstallationNeverDisagrees(log, m.state, m.call);
    RunsAreSpaced(interval, before);
  }

  /**
   In every run over reachable caches, no call breaks, and a call is told a refusal if and only if
   one of the checks fails: that of the first to fail.
   */
  lemma ToldWhyNot(interval: real, moments: seq<Moment>, k: nat, log: seq<S.Op>)
    requires interval > 0.0 && k < |moments| && moments[k].state.content == S.ApplyAll(S.BLANK, log)
    ensures var told, sent := Told(interval, moments)[k], GateAfter(interval, moments[..k]).sent;
            && !told.Failure?
            && (told.NotSentOutcome? ==> RefusedFor(interval, sent, moments[k], told.refusal))
            && (!told.NotSentOutcome? ==> forall reason :: !RefusedFor(interval, sent, moments[k], reason))
  {
    hide RefusedFor, VerdictOf;
    ToldAt(interval, moments, k);
    VerdictIs(interval, moments[..k], moments[k], log);
  }
}
