/** The consequences: freshness, late answers, lost connections, and a run that breaks wire order. */
module EventLoopTheorems {
  import opened Collections
  import opened Model
  import R = Responses
  import C = Client
  import P = Pending
  import opened CacheState
  import opened EventLoop
  import opened EventLoopInv
  import opened EventLoopRuns
  import opened EventLoopOrder
  import opened EventLoopWire

  // ---- a fresh cache owes nothing to what came before its snapshots ----

  lemma {:induction false} OpsAtEach(wire: seq<Message>, applied: seq<nat>)
    requires AppliedOk(wire, applied)
    ensures forall p :: 0 <= p < |applied| ==> OpsAt(wire, applied)[p] == OpOf(wire[applied[p]]).value
  {
    if applied != [] {
      OpsAtEach(wire, applied[..|applied| - 1]);
    }
  }

  lemma OpsAtFrom(wire: seq<Message>, applied: seq<nat>, from: nat)
    requires AppliedOk(wire, applied) && from <= |applied|
    ensures AppliedOk(wire, applied[from..])
    ensures OpsAt(wire, applied[from..]) == OpsAt(wire, applied)[from..]
  {
    OpsAtEach(wire, applied);
    OpsAtEach(wire, applied[from..]);
  }

  ghost predicate SameConfig(x: Content, y: Content) {
    && x.config == y.config && x.installation == y.installation
    && x.endpointUsages == y.endpointUsages && x.areaUsages == y.areaUsages
  }

  predicate NoConfig(ops: seq<Op>) {
    forall i :: 0 <= i < |ops| ==> !ops[i].ApplyConfig?
  }

  lemma {:induction false} ConfigStays(x: Content, ops: seq<Op>)
    requires NoConfig(ops)
    ensures SameConfig(ApplyAll(x, ops), x)
  {
    if ops != [] {
      ConfigStays(x, ops[..|ops| - 1]);
    }
  }

  /** From a devices snapshot on, the endpoints depend on the config and on what follows only. */
  lemma {:induction false} EndpointsFromSnapshot(x: Content, y: Content, ops: seq<Op>)
    requires SameConfig(x, y) && NoConfig(ops) && ops != [] && ops[0].ReplaceDevices?
    ensures ApplyAll(x, ops).endpoints == ApplyAll(y, ops).endpoints
  {
    var init := ops[..|ops| - 1];
    ConfigStays(x, init);
    ConfigStays(y, init);
    if init == [] {
      assert ApplyAll(x, init) == x && ApplyAll(y, init) == y;
    } else {
      EndpointsFromSnapshot(x, y, init);
    }
  }

  /** From an areas snapshot on, so do the areas. */
  lemma {:induction false} AreasFromSnapshot(x: Content, y: Content, ops: seq<Op>)
    requires SameConfig(x, y) && NoConfig(ops) && ops != [] && ops[0].ReplaceAreas?
    ensures ApplyAll(x, ops).areas == ApplyAll(y, ops).areas
  {
    var init := ops[..|ops| - 1];
    ConfigStays(x, init);
    ConfigStays(y, init);
    if init == [] {
      assert ApplyAll(x, init) == x && ApplyAll(y, init) == y;
    } else {
      AreasFromSnapshot(x, y, init);
    }
  }

  /** A config, then a devices snapshot at `d` and an areas snapshot at `a`, among pushes. */
  predicate Resync(ops: seq<Op>, d: nat, a: nat) {
    && 0 < d < a < |ops|
    && ops[0].ApplyConfig? && ops[d].ReplaceDevices? && ops[a].ReplaceAreas?
    && NoConfig(ops[1..])
  }

  ghost predicate OwesNothingBefore(c: Content, ops: seq<Op>, d: nat, a: nat)
    requires Resync(ops, d, a)
  {
    var base := Apply(BLANK, ops[0]);
    && c == ApplyAll(BLANK, ops)
    && c.endpoints == ApplyAll(base, ops[d..]).endpoints
    && c.areas == ApplyAll(base, ops[a..]).areas
  }

  lemma {:induction false} ConfigHeld(x: Content, ops: seq<Op>, k: nat)
    requires 0 < k <= |ops| && ops[0].ApplyConfig? && NoConfig(ops[1..])
    ensures SameConfig(ApplyAll(x, ops[..k]), Apply(BLANK, ops[0]))
  {
    assert ops[..k][..k - 1] == ops[..k - 1];
    if k > 1 {
      ConfigHeld(x, ops, k - 1);
      assert ops[k - 1] == ops[1..][k - 2];
    }
  }

  lemma ResyncAt(x: Content, ops: seq<Op>, k: nat)
    requires 0 < k <= |ops| && ops[0].ApplyConfig? && NoConfig(ops[1..])
    ensures SameConfig(ApplyAll(x, ops[..k]), Apply(BLANK, ops[0]))
    ensures ApplyAll(x, ops) == ApplyAll(ApplyAll(x, ops[..k]), ops[k..])
    ensures NoConfig(ops[k..])
  {
    ConfigHeld(x, ops, k);
    assert ops == ops[..k] + ops[k..];
    ApplyAllConcat(x, ops[..k], ops[k..]);
    assert forall i :: 0 <= i < |ops[k..]| ==> ops[k..][i] == ops[1..][i + k - 1];
  }

  /** Whatever the cache held before, a resync leaves only what came with or after its snapshots. */
  lemma ResyncForgets(x: Content, ops: seq<Op>, d: nat, a: nat)
    requires Resync(ops, d, a)
    ensures OwesNothingBefore(ApplyAll(x, ops), ops, d, a)
  {
    var base := Apply(BLANK, ops[0]);
    ResyncAt(x, ops, d);
    ResyncAt(BLANK, ops, d);
    ResyncAt(x, ops, a);
    ResyncAt(BLANK, ops, a);
    ResyncAt(x, ops, |ops|);
    ResyncAt(BLANK, ops, |ops|);
    assert ops[..|ops|] == ops;
    EndpointsFromSnapshot(ApplyAll(x, ops[..d]), base, ops[d..]);
    EndpointsFromSnapshot(ApplyAll(BLANK, ops[..d]), base, ops[d..]);
    AreasFromSnapshot(ApplyAll(x, ops[..a]), base, ops[a..]);
    AreasFromSnapshot(ApplyAll(BLANK, ops[..a]), base, ops[a..]);
  }

  /** The operation of mark `k` is that of its stage. */
  lemma OpAtMark(s: Loop, first: int, marks: seq<nat>, k: nat)
    requires AppliedOk(s.wire, s.applied) && MarksOk(s, first, marks) && k < |marks| <= 3
    ensures var op := OpsAt(s.wire, s.applied)[marks[k]];
            && (k == 0 <==> op.ApplyConfig?) && (k == 1 <==> op.ReplaceDevices?) && (k == 2 <==> op.ReplaceAreas?)
  {
    OpsAtEach(s.wire, s.applied);
    assert IsAnswerOf(s, s.applied[marks[k]], first, k);
    AcceptedOp(k, s.wire[s.applied[marks[k]]].response);
  }

  lemma NoConfigAfterFirstMark(s: Loop, first: int, marks: seq<nat>)
    requires AppliedOk(s.wire, s.applied) && MarksOk(s, first, marks) && |marks| == 3
    ensures NoConfig(OpsAt(s.wire, s.applied)[marks[0] + 1..])
  {
    var all := OpsAt(s.wire, s.applied);
    OpsAtEach(s.wire, s.applied);
    forall p | marks[0] < p < |all|
      ensures !all[p].ApplyConfig?
    {
      if p in marks {
        var k :| 0 <= k < 3 && marks[k] == p;
        OpAtMark(s, first, marks, k);
      } else {
        assert IsPush(s.wire[s.applied[p]]);
      }
    }
  }

  /** The answers the attempt applied are a resync of the cache. */
  lemma MarksAreResync(s: Loop, first: int, marks: seq<nat>)
    requires AppliedOk(s.wire, s.applied) && MarksOk(s, first, marks) && |marks| == 3
    ensures AppliedOk(s.wire, s.applied[marks[0]..])
    ensures Resync(OpsAt(s.wire, s.applied[marks[0]..]), marks[1] - marks[0], marks[2] - marks[0])
  {
    OpsAtFrom(s.wire, s.applied, marks[0]);
    OpAtMark(s, first, marks, 0);
    OpAtMark(s, first, marks, 1);
    OpAtMark(s, first, marks, 2);
    NoConfigAfterFirstMark(s, first, marks);
    var all := OpsAt(s.wire, s.applied);
    assert all[marks[0]..][1..] == all[marks[0] + 1..];
  }

  /** The cache was resynced by the attempt `first`, whose answers were applied at `marks`. */
  ghost predicate ResyncedBy(s: Loop, first: int, marks: seq<nat>) {
    && |marks| == 3 && marks[0] < marks[1] < marks[2] < |s.applied|
    && IsAnswerOf(s, s.applied[marks[0]], first, 0)
    && IsAnswerOf(s, s.applied[marks[1]], first, 1)
    && IsAnswerOf(s, s.applied[marks[2]], first, 2)
    && AppliedOk(s.wire, s.applied[marks[0]..])
    && var ops := OpsAt(s.wire, s.applied[marks[0]..]);
    && Resync(ops, marks[1] - marks[0], marks[2] - marks[0])
    && OwesNothingBefore(s.cache.content, ops, marks[1] - marks[0], marks[2] - marks[0])
  }

  lemma ContentFrom(c: Content, all: seq<Op>, from: nat)
    requires from <= |all| && c == ApplyAll(BLANK, all)
    ensures c == ApplyAll(ApplyAll(BLANK, all[..from]), all[from..])
  {
    assert all == all[..from] + all[from..];
    ApplyAllConcat(BLANK, all[..from], all[from..]);
  }

  lemma ResyncedFrom(c: Content, all: seq<Op>, from: nat, ops: seq<Op>, d: nat, a: nat)
    requires from <= |all| && c == ApplyAll(BLANK, all) && ops == all[from..] && Resync(ops, d, a)
    ensures OwesNothingBefore(c, ops, d, a)
  {
    ContentFrom(c, all, from);
    ResyncForgets(ApplyAll(BLANK, all[..from]), ops, d, a);
  }

  lemma MarkedIsResynced(s: Loop, first: int, marks: seq<nat>)
    requires Folded(s) && MarksOk(s, first, marks) && |marks| == 3
    ensures ResyncedBy(s, first, marks)
  {
    hide Resync, OwesNothingBefore, Apply, ApplyAll, OpsAt, AppliedOk, IsAnswerOf;
    MarksAreResync(s, first, marks);
    OpsAtFrom(s.wire, s.applied, marks[0]);
    ResyncedFrom(s.cache.content, OpsAt(s.wire, s.applied), marks[0], OpsAt(s.wire, s.applied[marks[0]..]),
                 marks[1] - marks[0], marks[2] - marks[0]);
  }

  /**
   In every reachable state, a fresh cache was resynced by the attempt of the routine now
   running: it applied the answers to its own three requests, in order, and the cache is what
   they and the pushes since made of it. The endpoints owe nothing to any message before the
   devices snapshot, the areas to any before the areas snapshot.
   */
  lemma FreshMeansResynced(s: Loop)
    requires Reachable(s) && s.cache.Fresh()
    ensures s.routine.Refreshing? || s.routine.Resting?
    ensures ResyncedBy(s, s.routine.first, s.routine.marks)
  {
    hide NetOk, QueueOk, Folded, UnusedOk, MarksOk, ResyncedBy, HeldOk, CancelledOk;
    ReachableInv(s);
    MarkedIsResynced(s, s.routine.first, s.routine.marks);
  }

  // ---- late answers ----

  /** The id the routine is waiting for. */
  ghost predicate Outstanding(s: Loop, tid: int) {
    s.HasCall() && s.Call().tid == tid
  }

  lemma EntriesKeepTheirId(n: C.Net)
    requires C.Inv(n)
    ensures forall tid :: tid in n.table.entries ==> n.calls[n.table.entries[tid]].tid == tid
  {
    forall tid | tid in n.table.entries
      ensures n.calls[n.table.entries[tid]].tid == tid
    {
      assert C.EntryOk(n, tid);
    }
  }

  /**
   An answer to anything but the request the routine waits for, such as a late answer to an
   earlier attempt, changes neither the cache, nor the routine, nor the queue.
   */
  lemma LateAnswersAreDropped(s: Loop, response: R.Response)
    requires Reachable(s) && Possible(s, ReadMessage(Answer(response)))
    requires response.transacId.Some? ==> !Outstanding(s, response.transacId.value)
    ensures s.net.table.Valid() && s.net.Sized()
    ensures var t := ReadOne(s, Answer(response));
            && t.cache == s.cache && t.routine == s.routine && t.ready == s.ready && t.applied == s.applied
            && t.unused == s.unused + {|s.wire|}
  {
    hide RoutineOk, QueueOk, Folded, AttemptOk, UnusedOk, C.Next;
    ReachableInv(s);
    EntriesKeepTheirId(s.net);
    assert s.ready + [] == s.ready;
  }

  /** An attempt starts: the first of a connection, or the next one after a failure. */
  predicate StartsAttempt(s: Loop, step: Step) {
    step.EndSleep? || (step.Run? && s.ready != [] && s.ready[0].Begin?)
  }

  /** The requests of an attempt take ids no request had before, so none answers an earlier one. */
  lemma AttemptsTakeNewIds(s: Loop, step: Step, c: nat)
    requires Reachable(s) && Possible(s, step) && StartsAttempt(s, step) && c < |s.net.calls|
    ensures s.net.table.Valid() && s.net.Sized()
    ensures var t := After(s, step);
            t.routine.Fetching? && t.routine.first > s.net.calls[c].tid && t.routine.marks == []
  {
    hide QueueOk, Folded, AttemptOk, UnusedOk, C.Next, Answerable, C.Inv;
    ReachableInv(s);
    StepKeepsInv(s, step);
  }

  // ---- the end of a connection ----

  lemma ProceedGrows(s: Loop, message: Option<nat>, now: int)
    requires s.net.table.Valid() && s.HasCall() && s.Call().phase.Ended?
    ensures Proceed(s, message, now).lost == s.lost && s.applied <= Proceed(s, message, now).applied
  {
    hide C.Next, OpOf, Apply;
  }

  lemma RunGrows(s: Loop, now: int)
    requires Possible(s, Run(now)) && s.net.table.Valid() && s.net.Sized()
    ensures RunHead(s, now).lost == s.lost && s.applied <= RunHead(s, now).applied
  {
  }

  /** What was applied stays applied, and what was lost stays lost; only the end of a connection loses messages. */
  lemma StepGrows(s: Loop, step: Step)
    requires Possible(s, step) && s.net.table.Valid() && s.net.Sized()
    ensures s.applied <= After(s, step).applied && s.lost <= After(s, step).lost
    ensures !step.EndConnection? ==> After(s, step).lost == s.lost
  {
    hide RunHead, Bootstrap, Ending, C.Next;
    match step
    case Run(now) => RunGrows(s, now);
    case FailWrite => FailWriteGrows(s);
    case EndSleep => BootstrapGrows(s);
    case _ =>
  }

  lemma FailWriteGrows(s: Loop)
    requires Possible(s, FailWrite) && s.net.table.Valid() && s.net.Sized()
    ensures After(s, FailWrite).lost == s.lost && s.applied <= After(s, FailWrite).applied
  {
    ProceedGrows(s.(net := C.Next(s.net, C.WriteFailed(s.routine.call))), s.Held(), 0);
  }

  lemma BootstrapGrows(s: Loop)
    requires s.net.table.Valid() && s.net.Sized()
    ensures Bootstrap(s).lost == s.lost && Bootstrap(s).applied == s.applied
  {
  }

  lemma {:induction false} RunsGrow(s: Loop, steps: seq<Step>)
    requires LegalFrom(s, steps)
    ensures s.applied <= StateFrom(s, steps).applied && s.lost <= StateFrom(s, steps).lost
    decreases |steps|
  {
    hide After, Possible;
    if steps != [] {
      RunsGrow(s, steps[..|steps| - 1]);
      StepGrows(StateFrom(s, steps[..|steps| - 1]), steps[|steps| - 1]);
    }
  }

  /**
   A connection ends: the cache is as it was; in every later state what was applied still is,
   and what was due is neither applied nor due any more.
   */
  lemma ConnectionLosesOnlyItsQueue(s: Loop, t: Loop)
    requires Reachable(s) && s.link.Up? && s.net.table.Valid() && s.net.Sized()
    requires LeadsTo(After(s, EndConnection), t)
    ensures After(s, EndConnection).cache == s.cache
    ensures s.applied <= t.applied
    ensures forall i :: i in Due(s) ==> i !in Effects(t)
  {
    hide Inv, FollowsTheWire, Due, Effects, C.Next, RunHead, Bootstrap, Ending, ReadOne, Proceed, LegalFrom, StateFrom;
    ReachableInv(s);
    LeadsToNext(START, s, EndConnection);
    var end := After(s, EndConnection);
    LeadsToTransitive(START, end, t);
    ReachableAccounted(t);
    AccountedMembers(t);
    var steps :| LegalFrom(end, steps) && StateFrom(end, steps) == t;
    RunsGrow(end, steps);
    assert forall i :: i in Due(s) ==> i in end.lost;
  }

  /** A push that is due stays so, or takes effect, in every step but the end of the connection. */
  lemma OnlyTheEndLosesPushes(s: Loop, step: Step, i: nat)
    requires Reachable(s) && Possible(s, step) && s.net.table.Valid() && s.net.Sized()
    requires i in Effects(s) && IsPushAt(s.wire, i) && !step.EndConnection?
    ensures i in Effects(After(s, step))
  {
    hide Inv, After, Possible, Effects, Accounted;
    ReachableInv(s);
    ReachableAccounted(s);
    AccountedMembers(s);
    LeadsToNext(START, s, step);
    var t := After(s, step);
    ReachableAccounted(t);
    AccountedMembers(t);
    StepGrows(s, step);
    WireGrows(s, step);
    InvUnused(t);
  }

  lemma InvUnused(s: Loop)
    requires Inv(s)
    ensures UnusedOk(s)
  {
  }

  lemma WireGrows(s: Loop, step: Step)
    requires Possible(s, step) && s.net.table.Valid() && s.net.Sized()
    ensures s.wire <= After(s, step).wire
  {
    hide C.Next, Ending;
  }

  lemma UnwindEndsCall(s: Loop)
    requires Inv(s) && Possible(s, Unwind) && s.HasCall() && s.net.table.Valid() && s.net.Sized()
    ensures s.routine.call !in After(s, Unwind).net.table.entries.Values
  {
    hide QueueOk, Folded, AttemptOk, UnusedOk, Answerable;
    UnwindNet(s);
    var t := After(s, Unwind);
    UnwoundCall(s);
    forall tid | tid in t.net.table.entries
      ensures t.net.table.entries[tid] != s.routine.call
    {
      assert C.EntryOk(t.net, tid);
    }
  }

  lemma UnwoundCall(s: Loop)
    requires NetOk(s) && RoutineOk(s) && Possible(s, Unwind) && s.HasCall() && s.net.table.Valid() && s.net.Sized()
    ensures s.routine.call < |After(s, Unwind).net.calls| && After(s, Unwind).net.calls[s.routine.call].phase.Ended?
  {
    hide C.Inv, Answerable;
    assert C.Enabled(s.net, C.WriteCancelled(s.routine.call)) || C.Enabled(s.net, C.Resume(s.routine.call));
  }

  /**
   Once the cancelled routine has ended, the cache is not fresh, its content is kept, and its
   request is forgotten.
   */
  lemma UnwindDisconnects(s: Loop)
    requires Reachable(s) && Possible(s, Unwind)
    ensures s.net.table.Valid() && s.net.Sized()
    ensures !After(s, Unwind).cache.Fresh() && After(s, Unwind).cache.content == s.cache.content
    ensures s.HasCall() ==> s.routine.call !in After(s, Unwind).net.table.entries.Values
  {
    hide Inv, Ending;
    ReachableInv(s);
    if s.HasCall() {
      UnwindEndsCall(s);
    }
  }

  // ---- a run that breaks wire order ----

  const NO_DEVICES := DevicesPush([])
  const EMPTY_HOME := R.Content(Some(Config(0, [], [], [])), None, None)
  const CONFIG_ANSWER := R.Response(Some(1), 200, Some(R.CONFIGS_FILE), Some(EMPTY_HOME))

  lemma ReachStep(s: Loop, step: Step)
    requires Reachable(s) && Possible(s, step)
    ensures s.net.Sized() && s.net.table.Valid() && Reachable(After(s, step))
  {
    hide Inv, After, Possible;
    ReachableInv(s);
    LeadsToNext(START, s, step);
  }

  /** The routine's config request is being written, and its write may now return. */
  ghost predicate Suspended(s: Loop) {
    && Reachable(s) && s.link.Up? && s.ready == [WriteDone] && s.wire == [] && s.applied == []
    && s.routine == Fetching(1, [], 0, None)
    && s.net == C.Net(P.Table(map[1 := 0], [P.Waiting]), [C.Call(1, C.ConfigGet, C.Writing, C.Uninterrupted)], true)
  }

  lemma SuspendedIsReachable() returns (s: Loop)
    ensures Suspended(s)
  {
    hide LeadsTo;
    LeadsToItself(START);
    ReachStep(START, Open);
    s := WriteSuspends(After(START, Open));
  }

  lemma WriteSuspends(begin: Loop) returns (s: Loop)
    requires Reachable(begin) && begin == After(START, Open)
    ensures Suspended(s)
  {
    hide LeadsTo;
    ReachStep(begin, Run(0));
    var begun := After(begin, Run(0));
    assert begun.ready == [] && begun.routine == Fetching(1, [], 0, None);
    ReachStep(begun, FinishWrite);
    s := After(begun, FinishWrite);
  }

  /**
   A push is read, then the answer to the request still being written: a crossing that a run
   comes to, and the push read first may be applied last.
   */
  lemma EarlyAnswerOvertakesPush() returns (s: Loop, t: Loop)
    ensures Reachable(s) && Possible(s, ReadMessage(Answer(CONFIG_ANSWER))) && s.net.table.Valid() && s.net.Sized()
    ensures s.wire == [NO_DEVICES] && Increasing(Effects(s)) && Crossing(s, ReadMessage(Answer(CONFIG_ANSWER)))
    ensures LeadsTo(After(s, ReadMessage(Answer(CONFIG_ANSWER))), t) && !Increasing(t.applied)
  {
    hide LeadsTo, C.Next, Increasing;
    var before := SuspendedIsReachable();
    ReachStep(before, ReadMessage(NO_DEVICES));
    s := After(before, ReadMessage(NO_DEVICES));
    ReachStep(s, ReadMessage(Answer(CONFIG_ANSWER)));
    IsCrossing(s);
    t := CrossingMayDisorder(s, ReadMessage(Answer(CONFIG_ANSWER)));
  }

  lemma IsCrossing(s: Loop)
    requires s.net.table.Valid() && s.net.Sized()
    requires s.ready == [WriteDone, Handle(0)] && s.applied == [] && s.routine == Fetching(1, [], 0, None)
    requires s.net == C.Net(
                        P.Table(map[1 := 0], [P.Waiting]),
                        [C.Call(1, C.ConfigGet, C.Writing, C.Uninterrupted)],
                        true)
    ensures Crossing(s, ReadMessage(Answer(CONFIG_ANSWER))) && Increasing(Effects(s))
  {
    assert s.ready[0].WriteDone? && s.ready[1].Handle?;
    assert s.ready == [WriteDone] + [Handle(0)] && [WriteDone] == [] + [WriteDone];
    DueInSnoc([], WriteDone, None);
    DueInSnoc([WriteDone], Handle(0), None);
    assert Effects(s) == [0];
  }
}
