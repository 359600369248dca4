/** What each step of the event loop does to the cache, said over the fields of the messages. */
module EventLoopEffects {
  import opened Collections
  import R = Responses
  import C = Client
  import opened CacheState
  import opened CacheEffects
  import opened EventLoop
  import opened EventLoopInv
  import opened EventLoopRuns
  import opened EventLoopOrder
  import opened EventLoopWire
  import T = EventLoopTheorems

  // ---- answers, by their fields ----

  predicate HasConfig(r: R.Response) {
    r.status == 200 && r.uriOrigin == Some("/configs/file") && r.content.Some? && r.content.value.config.Some?
  }

  predicate HasDevices(r: R.Response) {
    r.status == 200 && r.uriOrigin == Some("/devices/data") && r.content.Some? && r.content.value.devices.Some?
  }

  predicate HasAreas(r: R.Response) {
    r.status == 200 && r.uriOrigin == Some("/areas/data") && r.content.Some? && r.content.value.areas.Some?
  }

  /** The answer an attempt takes when it has taken `stage` answers. */
  predicate IsForStage(r: R.Response, stage: nat) {
    if stage == 0 then HasConfig(r) else if stage == 1 then HasDevices(r) else HasAreas(r)
  }

  lemma UrlsAre()
    ensures R.CONFIGS_FILE == "/configs/file" && R.DEVICES_DATA == "/devices/data" && R.AREAS_DATA == "/areas/data"
  {
  }

  lemma AcceptsIff(stage: nat, r: R.Response)
    requires stage <= 2
    ensures C.Accepts(KindOf(stage), r) <==> IsForStage(r, stage)
  {
    C.AcceptsIff(KindOf(stage), r);
  }

  // ---- the effect of a message ----

  /** The cache after the message, read off its fields. */
  ghost predicate HasEffect(before: Content, m: Message, after: Content) {
    match m
    case DevicesPush(devices) => DevicesPushEffect(before, devices, after)
    case AreasPush(areas) => AreasPushEffect(before, areas, after)
    case Answer(r) =>
      || (HasConfig(r) && ConfigEffect(before, r.content.value.config.value, after))
      || (HasDevices(r) && DevicesEffect(before, r.content.value.devices.value, after))
      || (HasAreas(r) && AreasEffect(before, r.content.value.areas.value, after))
    case Ignored => false
  }

  lemma OpHasEffect(c: Content, m: Message)
    requires Configured(c) && OpOf(m).Some?
    ensures HasEffect(c, m, Apply(c, OpOf(m).value))
  {
    hide Apply, Configured, ConfigEffect, DevicesEffect, AreasEffect, DevicesPushEffect, AreasPushEffect;
    match m
    case DevicesPush(devices) => PushesAreTaken(c, devices, []);
    case AreasPush(areas) => PushesAreTaken(c, [], areas);
    case Answer(r) =>
      UrlsAre();
      if R.ReadConfig(r).Some? {
        ConfigIsTaken(c, R.ReadConfig(r).value);
      } else if R.ReadDevices(r).Some? {
        SnapshotsAreTaken(c, R.ReadDevices(r).value, []);
      } else {
        SnapshotsAreTaken(c, [], R.ReadAreas(r).value);
      }
    case Ignored =>
  }

  lemma FoldedConfigured(s: Loop)
    requires Folded(s)
    ensures Configured(s.cache.content)
  {
    OnlyConfiguredIds(OpsAt(s.wire, s.applied));
  }

  lemma AppliedHasEffect(s: Loop, t: Loop, i: nat)
    requires Folded(s) && Folded(t) && t.wire == s.wire && t.applied == s.applied + [i]
    ensures i < |s.wire| && HasEffect(s.cache.content, s.wire[i], t.cache.content)
  {
    hide Apply, OpOf, HasEffect, Configured;
    assert t.applied[|s.applied|] == i;
    FoldedConfigured(s);
    OpsAtSnoc(s.wire, s.applied, i);
    var ops, op := OpsAt(s.wire, s.applied), OpOf(s.wire[i]).value;
    assert (ops + [op])[..|ops|] == ops;
    OpHasEffect(s.cache.content, s.wire[i]);
  }

  lemma NothingApplied(s: Loop, t: Loop)
    requires Folded(s) && Folded(t) && t.applied == s.applied
    requires t.wire == s.wire || exists m :: t.wire == s.wire + [m]
    ensures t.cache.content == s.cache.content
  {
    hide OpOf;
    if t.wire != s.wire {
      var m :| t.wire == s.wire + [m];
      OpsAtGrows(s.wire, m, s.applied);
    }
  }

  // ---- steps ----

  /** The message the step applies, if any: that of the action at the head of the queue. */
  function TakenBy(s: Loop, step: Step): Option<nat> {
    if !step.Run? || s.ready == [] then None
    else
      match s.ready[0]
      case Begin => None
      case Handle(i) => Some(i)
      case WriteDone => s.Held()
      case Wake(answer) => answer
  }

  ghost predicate TakesEffect(s: Loop, t: Loop, taken: Option<nat>) {
    match taken
    case None => t.applied == s.applied && t.cache.content == s.cache.content
    case Some(i) =>
      i < |s.wire| && t.applied == s.applied + [i] && HasEffect(s.cache.content, s.wire[i], t.cache.content)
  }

  lemma OnlyRunsApply(s: Loop, step: Step)
    requires Inv(s) && Possible(s, step) && s.net.table.Valid() && s.net.Sized() && !step.Run?
    ensures var t := After(s, step);
            t.applied == s.applied && (t.wire == s.wire || exists m :: t.wire == s.wire + [m])
  {
    hide Inv, RunHead, Proceed, SendFetch, C.Next, Ending, AnswersRoutine, SettlesRoutine;
    match step
    case FailWrite => FailWriteShape(s);
    case EndSleep =>
      SendIsUnheld(s.(cache := s.cache.MarkConnected(), nextTid := s.nextTid + 3), s.nextTid, []);
    case ReadMessage(m) => assert After(s, step).wire == s.wire + [m];
    case _ =>
  }

  lemma InvFolded(s: Loop)
    requires Inv(s)
    ensures Folded(s)
  {
  }

  /** A step changes the cached content only by the message it applies, and exactly as its fields say. */
  lemma StepsTakeEffect(s: Loop, step: Step)
    requires Reachable(s) && Possible(s, step)
    ensures s.net.table.Valid() && s.net.Sized()
    ensures TakesEffect(s, After(s, step), TakenBy(s, step))
  {
    hide Inv, Folded, HasEffect, RunHead, Proceed, Bootstrap, ReadOne, Cut, Ending;
    ReachableInv(s);
    StepKeepsInv(s, step);
    var t := After(s, step);
    InvFolded(s);
    InvFolded(t);
    if step.Run? {
      RunPops(s, step.now);
      if TakenBy(s, step).Some? {
        AppliedHasEffect(s, t, TakenBy(s, step).value);
      } else {
        assert s.applied + [] == s.applied;
        NothingApplied(s, t);
      }
    } else {
      OnlyRunsApply(s, step);
      NothingApplied(s, t);
    }
  }

  // ---- which answers count ----

  lemma AnswersIff(s: Loop, r: R.Response)
    requires Inv(s) && s.net.table.Valid() && s.net.Sized()
    ensures AnswersRoutine(s, r) <==>
            && s.routine.Fetching? && s.HasCall() && s.Unsettled()
            && r.transacId == Some(s.routine.first + |s.routine.marks|) && IsForStage(r, |s.routine.marks|)
  {
    hide CacheOk, QueueOk, HeldOk, CancelledOk, IsForStage, C.Accepts, Reserved;
    if s.routine.Fetching? {
      AcceptsIff(|s.routine.marks|, r);
      assert C.CallOk(s.net, s.routine.call);
      if SettlesRoutine(s, r) {
        assert C.EntryOk(s.net, r.transacId.value);
      }
    }
  }

  /**
   An answer read is to take effect if and only if the routine waits for it: it has the id and the
   fields of the next answer of the attempt, and the request has no outcome yet.
   */
  lemma AnswersThatCount(s: Loop, r: R.Response)
    requires Reachable(s) && Possible(s, ReadMessage(Answer(r)))
    ensures s.net.table.Valid() && s.net.Sized()
    ensures |s.wire| in Effects(ReadOne(s, Answer(r))) <==>
            && s.routine.Fetching? && s.HasCall() && s.Unsettled()
            && r.transacId == Some(s.routine.first + |s.routine.marks|) && IsForStage(r, |s.routine.marks|)
  {
    hide Inv, Effects, ReadOne, IsForStage, C.Accepts, Accounted, AnswersRoutine;
    ReachableInv(s);
    AnswersIff(s, r);
    ReachableAccounted(s);
    AccountedMembers(s);
    if !AnswersRoutine(s, r) {
      ReadSkips(s, Answer(r));
    } else if s.Call().phase.Writing? {
      EarlyAnswerJoins(s, r);
    } else {
      WaitingAnswerJoins(s, r);
    }
  }

  // ---- the marks of the cache ----

  /** The step takes the third answer of the attempt. */
  predicate Completes(s: Loop, step: Step) {
    s.routine.Fetching? && |s.routine.marks| == 2 && TakenBy(s, step).Some?
    && (s.ready[0].WriteDone? || s.ready[0].Wake?)
  }

  /**
   The cache is connected from the start of an attempt, disconnected by the end of the routine,
   synced by the third answer of an attempt, at the time of that step, until then not.
   */
  lemma MarksOfTheCache(s: Loop, step: Step)
    requires Reachable(s) && Possible(s, step)
    ensures s.net.table.Valid() && s.net.Sized()
    ensures var before, after := s.cache, After(s, step).cache;
            && after.connection == (if T.StartsAttempt(s, step) then Connected
                                    else if step.Unwind? then Disconnected else before.connection)
            && (after.synced <==> !step.Unwind? && (before.synced || Completes(s, step)))
            && after.syncedAt == (if Completes(s, step) then Some(step.now) else before.syncedAt)
  {
    hide Inv, RunHead, Ending, C.Next, ReadOne;
    ReachableInv(s);
    if step.Run? {
      RunMarks(s, step.now);
    } else {
      OtherMarks(s, step);
    }
  }

  ghost predicate MarksAre(s: Loop, t: Loop, starts: bool, completes: bool, now: int) {
    && t.cache.connection == (if starts then Connected else s.cache.connection)
    && (t.cache.synced <==> s.cache.synced || completes)
    && t.cache.syncedAt == (if completes then Some(now) else s.cache.syncedAt)
  }

  lemma RunMarks(s: Loop, now: int)
    requires Inv(s) && Possible(s, Run(now)) && s.net.table.Valid() && s.net.Sized()
    ensures MarksAre(s, After(s, Run(now)), s.ready[0].Begin?, Completes(s, Run(now)), now)
  {
    hide Inv, NetOk, C.Next, QueueIsPushes, Apply, OpOf, Proceed, SendFetch;
    match s.ready[0]
    case Begin =>
      var t := s.(ready := s.ready[1..]);
      SendKeepsCache(t.(cache := t.cache.MarkConnected(), nextTid := t.nextTid + 3), t.nextTid, []);
    case Handle(i) =>
    case WriteDone => WriteDoneMarks(s, now);
    case Wake(_) => WakeMarks(s, now);
  }

  lemma WriteDoneMarks(s: Loop, now: int)
    requires Inv(s) && Possible(s, Run(now)) && s.net.table.Valid() && s.net.Sized() && s.ready[0].WriteDone?
    ensures MarksAre(s, RunHead(s, now), false, Completes(s, Run(now)), now)
  {
    hide NetOk, QueueOk, Folded, AttemptOk, UnusedOk, C.Next, Proceed, QueueIsPushes, IsItsAnswer, Answerable;
    var t := s.(ready := s.ready[1..]);
    PopKeepsInv(s);
    if s.Unsettled() {
      HeldIsNone(s);
    } else {
      if s.routine.Fetching? {
        HeldIsItsAnswer(t);
      }
      ResumedMarks(t, C.Written(s.routine.call), s.Held(), now);
    }
  }

  lemma WakeMarks(s: Loop, now: int)
    requires Inv(s) && Possible(s, Run(now)) && s.net.table.Valid() && s.net.Sized() && s.ready[0].Wake?
    ensures MarksAre(s, RunHead(s, now), false, Completes(s, Run(now)), now)
  {
    hide NetOk, RoutineOk, Folded, AttemptOk, UnusedOk, C.Next, Proceed, QueueIsPushes, Answerable;
    var t := s.(ready := s.ready[1..]);
    PopKeepsInv(s);
    assert ActionOk(s, s.ready[0]);
    SameAnswerable(s, t);
    ResumedMarks(t, C.Resume(s.routine.call), s.ready[0].answer, now);
  }

  lemma ResumedMarks(s: Loop, e: C.Event, message: Option<nat>, now: int)
    requires Inv(s) && s.link.Up? && s.HasCall() && QueueIsPushes(s) && EndsRoutineCall(s, e) && !e.WriteFailed?
    requires if s.routine.Fetching? then if message.Some? then IsItsAnswer(s, message.value) else !Answerable(s)
             else message.None?
    requires s.net.table.Valid() && s.net.Sized()
    ensures C.Next(s.net, e).table.Valid() && (s.(net := C.Next(s.net, e))).HasCall()
    ensures (s.(net := C.Next(s.net, e))).Call().phase.Ended?
    ensures MarksAre(s, Proceed(s.(net := C.Next(s.net, e)), message, now), false,
                     s.routine.Fetching? && |s.routine.marks| == 2 && message.Some?, now)
  {
    hide NetOk, RoutineOk, CacheOk, Folded, AttemptOk, UnusedOk, QueueOk, QueueIsPushes, Answerable, EndOutcome,
         Resuming, C.Next, Proceed;
    InvNet(s);
    EndedNet(s, e);
    EndedIsResuming(s, e, message);
    ResumingCall(s.(net := C.Next(s.net, e)), message);
    ProceedMarks(s.(net := C.Next(s.net, e)), message, now);
  }

  lemma ProceedMarks(u: Loop, message: Option<nat>, now: int)
    requires Resuming(u, message) && u.net.table.Valid() && u.net.Sized()
    requires if u.routine.Fetching? then u.Call().phase.outcome.Answered? <==> message.Some? else message.None?
    ensures MarksAre(u, Proceed(u, message, now), false,
                     u.routine.Fetching? && |u.routine.marks| == 2 && message.Some?, now)
  {
    hide SendFetch, SendRefresh, NetOk, CacheOk, QueueIsPushes, Apply, OpOf;
    if message.Some? {
      TakenOp(u, u.routine.first, u.routine.marks, message.value, u.Call().phase.outcome.response);
      var t := Taken(u, message.value, OpOf(Answer(u.Call().phase.outcome.response)).value);
      SendKeepsCache(t, u.routine.first, u.routine.marks + [|u.applied|]);
      SendKeepsCache(t.(cache := t.cache.MarkSynced(now)), u.routine.first, u.routine.marks + [|u.applied|]);
    }
  }

  lemma SendKeepsCache(s: Loop, first: int, marks: seq<nat>)
    requires s.net.table.Valid() && s.net.Sized()
    ensures SendFetch(s, first, marks).cache == s.cache && SendRefresh(s, first, marks).cache == s.cache
  {
    hide C.Next;
  }

  lemma OtherMarks(s: Loop, step: Step)
    requires Inv(s) && Possible(s, step) && s.net.table.Valid() && s.net.Sized() && !step.Run?
    ensures if step.Unwind? then After(s, step).cache == s.cache.(connection := Disconnected, synced := false)
            else MarksAre(s, After(s, step), step.EndSleep?, false, 0)
  {
    hide Inv, RunHead, SendFetch, C.Next, Ending, AnswersRoutine, SettlesRoutine, Apply, OpOf;
    match step
    case EndSleep => SendKeepsCache(s.(cache := s.cache.MarkConnected(), nextTid := s.nextTid + 3), s.nextTid, []);
    case FailWrite => FailWriteMarks(s);
    case _ =>
  }

  lemma FailWriteMarks(s: Loop)
    requires Inv(s) && Possible(s, FailWrite) && s.net.table.Valid() && s.net.Sized()
    ensures After(s, FailWrite).cache == s.cache
  {
    hide Folded, AttemptOk, UnusedOk, QueueOk, C.Next, Answerable;
    EndedNet(s, C.WriteFailed(s.routine.call));
  }
}
