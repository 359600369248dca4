/** What every reachable state of the event loop satisfies, step by step. */
module EventLoopInv {
  import opened Collections
  import opened Model
  import R = Responses
  import C = Client
  import P = Pending
  import opened CacheState
  import opened EventLoop

  // ---- the invariant ----

  ghost predicate NetOk(s: Loop) {
    && C.Inv(s.net)
    && s.net.table.Valid()
    && (forall c: nat :: c < |s.net.calls| ==> s.net.calls[c].tid < s.nextTid)
    && (s.net.connected <==> !s.link.Down?)
  }

  /** The ids the attempt has not used yet are used by no one. */
  ghost predicate Reserved(s: Loop, first: int, stage: nat) {
    && first + 3 <= s.nextTid
    && forall c: nat :: c < |s.net.calls| ==> s.net.calls[c].tid <= first + stage || s.net.calls[c].tid >= first + 3
  }

  ghost predicate AnswerIs(s: Loop, i: nat, response: R.Response) {
    i < |s.wire| && s.wire[i] == Answer(response)
  }

  /** The routine's request has the response it will return. */
  ghost predicate Answerable(s: Loop)
    requires s.HasCall()
  {
    var future := s.net.table.futures[s.routine.call];
    s.Call().interrupt.Uninterrupted? && future.Settled? && C.Accepts(s.Call().kind, future.response)
  }

  /** The message is the answer the routine's request will return. */
  ghost predicate IsItsAnswer(s: Loop, i: nat)
    requires s.HasCall()
  {
    Answerable(s) && AnswerIs(s, i, s.net.table.futures[s.routine.call].response)
  }

  /** The answer in hand is the one the request will return; a request being written has it in hand, or has none. */
  ghost predicate HeldOk(s: Loop, held: Option<nat>)
    requires s.HasCall()
  {
    if held.Some? then s.link.Up? && s.Call().phase.Writing? && IsItsAnswer(s, held.value)
    else s.Call().phase.Writing? && s.link.Up? ==> !Answerable(s)
  }

  /** Once the connection ends, the routine no longer waits for a response. */
  ghost predicate CancelledOk(s: Loop)
    requires s.HasCall()
  {
    s.link.Closing? && s.Call().phase.Awaiting? ==> !s.Unsettled()
  }

  ghost predicate RoutineOk(s: Loop) {
    match s.routine
    case Absent => s.link.Down? || s.link.Closing?
    case Queued => s.link.Up?
    case Fetching(first, marks, call, held) =>
      && !s.link.Down? && s.HasCall() && s.net.Live(call)
      && |marks| <= 2 && Reserved(s, first, |marks|)
      && s.Call().tid == first + |marks| && s.Call().kind == KindOf(|marks|)
      && HeldOk(s, held) && CancelledOk(s)
    case Sleeping => !s.link.Down?
    case Refreshing(first, marks, call) =>
      !s.link.Down? && s.HasCall() && s.net.Live(call) && |marks| == 3 && s.Call().kind == C.Plain
      && CancelledOk(s)
    case Resting(first, marks) => !s.link.Down? && |marks| == 3
    case Escaped => false
  }

  ghost predicate ActionOk(s: Loop, a: Action) {
    match a
    case Begin => s.routine.Queued?
    case Handle(i) => i < |s.wire| && IsPush(s.wire[i])
    case WriteDone => s.HasCall() && s.Call().phase.Writing?
    case Wake(answer) =>
      s.HasCall() && s.Call().phase.Awaiting? && !s.Unsettled() &&
      if answer.Some? then s.routine.Fetching? && IsItsAnswer(s, answer.value)
      else s.routine.Fetching? ==> !Answerable(s)
  }

  /** The queue holds at most one task of the routine, and only what may run. */
  ghost predicate QueueOk(s: Loop) {
    && (!s.link.Up? ==> s.ready == [])
    && (forall a :: a in s.ready ==> ActionOk(s, a))
    && (forall i, j :: 0 <= i < j < |s.ready| ==> s.ready[i].Handle? || s.ready[j].Handle?)
  }

  ghost predicate AppliedOk(wire: seq<Message>, applied: seq<nat>) {
    forall p :: 0 <= p < |applied| ==> applied[p] < |wire| && OpOf(wire[applied[p]]).Some?
  }

  /** The operations of the applied messages. */
  ghost function OpsAt(wire: seq<Message>, applied: seq<nat>): (ops: seq<Op>)
    requires AppliedOk(wire, applied)
    ensures |ops| == |applied|
  {
    if applied == [] then []
    else OpsAt(wire, applied[..|applied| - 1]) + [OpOf(wire[applied[|applied| - 1]]).value]
  }

  /** The cache holds what the applied messages made of it, from the first connection on. */
  ghost predicate Folded(s: Loop) {
    AppliedOk(s.wire, s.applied) && s.cache.content == ApplyAll(BLANK, OpsAt(s.wire, s.applied))
  }

  /** The message is the answer to request `first + stage` of the attempt, of the right kind. */
  ghost predicate IsAnswerOf(s: Loop, i: nat, first: int, stage: nat) {
    && i < |s.wire|
    && s.wire[i].Answer?
    && s.wire[i].response.transacId == Some(first + stage)
    && C.Accepts(KindOf(stage), s.wire[i].response)
  }

  /** Since its first mark, the attempt has applied its answers, in order, and pushes. */
  ghost predicate MarksOk(s: Loop, first: int, marks: seq<nat>) {
    && (forall k :: 0 <= k < |marks| ==> marks[k] < |s.applied| && IsAnswerOf(s, s.applied[marks[k]], first, k))
    && (forall k, l :: 0 <= k < l < |marks| ==> marks[k] < marks[l])
    && (|marks| > 0 ==>
          forall p :: marks[0] <= p < |s.applied| && p !in marks ==>
            s.applied[p] < |s.wire| && IsPush(s.wire[s.applied[p]]))
  }

  /** The attempt of the routine, and what it has applied. */
  ghost predicate AttemptOk(s: Loop) {
    match s.routine
    case Fetching(first, marks, call, held) =>
      MarksOk(s, first, marks) && s.cache.connection.Connected? && !s.cache.synced
    case Refreshing(first, marks, call) => MarksOk(s, first, marks) && s.cache.connection.Connected? && s.cache.synced
    case Resting(first, marks) => MarksOk(s, first, marks) && s.cache.connection.Connected? && s.cache.synced
    case _ => !s.cache.synced
  }

  ghost predicate UnusedOk(s: Loop) {
    forall i :: i in s.unused ==> i < |s.wire| && !IsPush(s.wire[i])
  }

  ghost predicate Inv(s: Loop) {
    NetOk(s) && RoutineOk(s) && QueueOk(s) && Folded(s) && AttemptOk(s) && UnusedOk(s)
  }

  // ---- what does not change ----

  lemma SameMarks(s: Loop, t: Loop, first: int, marks: seq<nat>)
    requires MarksOk(s, first, marks) && t.wire == s.wire && t.applied == s.applied
    ensures MarksOk(t, first, marks)
  {
    assert forall k :: 0 <= k < |marks| ==> IsAnswerOf(s, s.applied[marks[k]], first, k);
  }

  /** The routine is in the same attempt, or in none as before. */
  predicate SameAttempt(a: Routine, b: Routine) {
    match a
    case Fetching(first, marks, _, _) => b.Fetching? && b.first == first && b.marks == marks
    case Refreshing(first, marks, _) => b.Refreshing? && b.first == first && b.marks == marks
    case Resting(first, marks) => b.Resting? && b.first == first && b.marks == marks
    case _ => !b.Fetching? && !b.Refreshing? && !b.Resting?
  }

  lemma KeepsAttempt(s: Loop, t: Loop)
    requires AttemptOk(s) && SameAttempt(s.routine, t.routine) && t.wire == s.wire && t.applied == s.applied
    requires t.cache.connection == s.cache.connection && t.cache.synced == s.cache.synced
    ensures AttemptOk(t)
  {
    hide MarksOk;
    if s.routine.Fetching? || s.routine.Refreshing? || s.routine.Resting? {
      SameMarks(s, t, s.routine.first, s.routine.marks);
    }
  }

  /** What the cache and the messages must satisfy. */
  ghost predicate CacheOk(s: Loop) {
    Folded(s) && AttemptOk(s) && UnusedOk(s)
  }

  lemma KeepsCache(s: Loop, t: Loop)
    requires CacheOk(s) && SameAttempt(s.routine, t.routine) && t.wire == s.wire && t.applied == s.applied
    requires t.cache == s.cache && t.unused == s.unused
    ensures CacheOk(t)
  {
    hide AttemptOk;
    KeepsAttempt(s, t);
  }

  /** The link, the routine and the network are the same. */
  predicate SameTasks(s: Loop, t: Loop) {
    t.link == s.link && t.routine == s.routine && t.net == s.net && t.nextTid == s.nextTid
  }

  ghost predicate TasksOk(s: Loop) {
    NetOk(s) && RoutineOk(s) && QueueOk(s)
  }

  lemma KeepsTasks(s: Loop, t: Loop)
    requires TasksOk(s) && SameTasks(s, t) && t.ready == s.ready && s.wire <= t.wire
    ensures TasksOk(t)
  {
    hide Answerable, C.Inv;
    KeepsRoutine(s, t);
    forall a | a in t.ready
      ensures ActionOk(t, a)
    {
      KeepsAction(s, t, a);
    }
  }

  lemma KeepsRoutine(s: Loop, t: Loop)
    requires RoutineOk(s) && SameTasks(s, t) && s.wire <= t.wire
    ensures RoutineOk(t)
  {
    hide C.Accepts;
    if s.HasCall() {
      assert Answerable(t) == Answerable(s);
    }
  }

  lemma KeepsAction(s: Loop, t: Loop, a: Action)
    requires ActionOk(s, a) && SameTasks(s, t) && s.wire <= t.wire
    ensures ActionOk(t, a)
  {
    hide C.Accepts;
    if s.HasCall() {
      assert Answerable(t) == Answerable(s);
    }
  }

  lemma InvParts(s: Loop)
    ensures Inv(s) <==> TasksOk(s) && CacheOk(s)
  {
    hide NetOk, RoutineOk, QueueOk, Folded, AttemptOk, UnusedOk;
  }

  lemma InvNet(s: Loop)
    requires Inv(s)
    ensures NetOk(s)
  {
  }

  lemma NetFacts(s: Loop)
    requires NetOk(s)
    ensures s.net.table.Valid() && s.net.Sized()
  {
  }

  // ---- the wire grows ----

  lemma {:induction false} OpsAtGrows(wire: seq<Message>, m: Message, applied: seq<nat>)
    requires AppliedOk(wire, applied)
    ensures AppliedOk(wire + [m], applied) && OpsAt(wire + [m], applied) == OpsAt(wire, applied)
  {
    if applied != [] {
      OpsAtGrows(wire, m, applied[..|applied| - 1]);
    }
  }

  lemma OpsAtSnoc(wire: seq<Message>, applied: seq<nat>, i: nat)
    requires AppliedOk(wire, applied) && i < |wire| && OpOf(wire[i]).Some?
    ensures AppliedOk(wire, applied + [i])
    ensures OpsAt(wire, applied + [i]) == OpsAt(wire, applied) + [OpOf(wire[i]).value]
  {
    assert (applied + [i])[..|applied|] == applied;
  }

  /** Applying message `i` keeps the cache folded. */
  lemma ApplyKeepsFolded(s: Loop, t: Loop, i: nat)
    requires Folded(s) && i < |s.wire| && OpOf(s.wire[i]).Some?
    requires t.wire == s.wire && t.applied == s.applied + [i]
    requires t.cache.content == Apply(s.cache.content, OpOf(s.wire[i]).value)
    ensures Folded(t)
  {
    hide Apply, OpOf;
    OpsAtSnoc(s.wire, s.applied, i);
    ApplyAllConcat(BLANK, OpsAt(s.wire, s.applied), [OpOf(s.wire[i]).value]);
    var ops, op := OpsAt(s.wire, s.applied), OpOf(s.wire[i]).value;
    assert (ops + [op])[..|ops|] == ops;
  }

  lemma GrowWireKeepsMarks(s: Loop, t: Loop, first: int, marks: seq<nat>)
    requires MarksOk(s, first, marks) && t.applied == s.applied && s.wire <= t.wire
    ensures MarksOk(t, first, marks)
  {
    forall k | 0 <= k < |marks|
      ensures marks[k] < |t.applied| && IsAnswerOf(t, t.applied[marks[k]], first, k)
    {
      assert IsAnswerOf(s, s.applied[marks[k]], first, k);
    }
  }

  lemma GrowWireKeepsAttempt(s: Loop, t: Loop)
    requires AttemptOk(s) && SameAttempt(s.routine, t.routine) && t.applied == s.applied && s.wire <= t.wire
    requires t.cache == s.cache
    ensures AttemptOk(t)
  {
    hide MarksOk;
    if s.routine.Fetching? || s.routine.Refreshing? || s.routine.Resting? {
      GrowWireKeepsMarks(s, t, s.routine.first, s.routine.marks);
    }
  }

  /** A message read that is not marked, or that is no push. */
  lemma GrowWireKeepsCache(s: Loop, t: Loop, m: Message)
    requires CacheOk(s) && SameAttempt(s.routine, t.routine) && t.wire == s.wire + [m]
    requires t.applied == s.applied && t.cache == s.cache
    requires t.unused == s.unused || (t.unused == s.unused + {|s.wire|} && !IsPush(m))
    ensures CacheOk(t)
  {
    hide AttemptOk;
    OpsAtGrows(s.wire, m, s.applied);
    GrowWireKeepsAttempt(s, t);
  }

  // ---- sending ----

  /** A request whose id is unused is admitted, and leaves the calls there as they were. */
  lemma SendAdmitted(s: Loop, tid: int, kind: C.Kind)
    requires C.Inv(s.net) && s.net.table.Valid() && s.net.connected
    requires forall c: nat :: c < |s.net.calls| ==> s.net.calls[c].tid != tid
    ensures C.Admits(s.net, Some(tid))
    ensures var net := C.Next(s.net, C.Send(Some(tid), kind));
            && C.Inv(net) && net.table.Valid() && net.connected
            && net.calls == s.net.calls + [C.Call(tid, kind, C.Writing, C.Uninterrupted)]
            && net.table.futures == s.net.table.futures + [P.Waiting]
  {
    forall t | t in s.net.table.entries
      ensures t != tid
    {
      assert C.EntryOk(s.net, t);
    }
    C.NextKeepsInv(s.net, C.Send(Some(tid), kind));
  }

  ghost predicate QueueIsPushes(s: Loop) {
    && s.Unpoked()
    && forall a :: a in s.ready ==> a.message < |s.wire| && IsPush(s.wire[a.message])
  }

  /** The routine sends its next request: what holds between its tasks. */
  ghost predicate Between(s: Loop, first: int, marks: seq<nat>) {
    && NetOk(s) && s.link.Up? && QueueIsPushes(s)
    && Folded(s) && UnusedOk(s) && MarksOk(s, first, marks) && s.cache.connection.Connected?
  }

  lemma PushesAreOk(s: Loop, t: Loop)
    requires QueueIsPushes(s) && t.ready == s.ready && t.wire == s.wire && t.link.Up?
    ensures QueueOk(t)
  {
  }

  /** The network and the routine once a request is sent. */
  lemma SentTasks(s: Loop, t: Loop, tid: int, kind: C.Kind)
    requires NetOk(s) && s.link.Up? && tid < t.nextTid && s.nextTid <= t.nextTid
    requires forall c: nat :: c < |s.net.calls| ==> s.net.calls[c].tid != tid
    requires t.link == s.link && t.net == C.Next(s.net, C.Send(Some(tid), kind))
    requires (t.routine.Fetching? || t.routine.Refreshing?) && t.routine.call == |s.net.calls|
    ensures NetOk(t) && t.HasCall() && t.net.Live(t.routine.call) && t.Unsettled()
    ensures t.Call() == C.Call(tid, kind, C.Writing, C.Uninterrupted)
    ensures t.net.calls == s.net.calls + [t.Call()]
  {
    hide C.Inv;
    SendAdmitted(s, tid, kind);
  }

  lemma SendFetchTasks(s: Loop, t: Loop, first: int, marks: seq<nat>)
    requires NetOk(s) && s.link.Up? && |marks| <= 2 && first + 3 <= s.nextTid
    requires forall c: nat :: c < |s.net.calls| ==>
             s.net.calls[c].tid < first + |marks| || s.net.calls[c].tid >= first + 3
    requires t == s.(net := C.Next(s.net, C.Send(Some(first + |marks|), KindOf(|marks|))),
                     routine := Fetching(first, marks, |s.net.calls|, None))
    ensures NetOk(t) && RoutineOk(t)
  {
    hide NetOk, C.Next, C.Accepts;
    SentTasks(s, t, first + |marks|, KindOf(|marks|));
    assert forall c: nat :: c < |t.net.calls| ==>
           t.net.calls[c] == if c < |s.net.calls| then s.net.calls[c] else t.Call();
  }

  lemma SendFetchKeepsInv(s: Loop, first: int, marks: seq<nat>)
    requires Between(s, first, marks) && |marks| <= 2 && !s.cache.synced
    requires first + 3 <= s.nextTid
    requires forall c: nat :: c < |s.net.calls| ==>
             s.net.calls[c].tid < first + |marks| || s.net.calls[c].tid >= first + 3
    ensures Inv(SendFetch(s, first, marks))
  {
    hide RoutineOk, QueueOk, QueueIsPushes, C.Next, C.Admits, C.Inv, MarksOk;
    NetFacts(s);
    SendAdmitted(s, first + |marks|, KindOf(|marks|));
    var t := SendFetch(s, first, marks);
    SendFetchTasks(s, t, first, marks);
    PushesAreOk(s, t);
    SameMarks(s, t, first, marks);
  }

  lemma SendRefreshKeepsInv(s: Loop, first: int, marks: seq<nat>)
    requires Between(s, first, marks) && |marks| == 3 && s.cache.synced
    ensures Inv(SendRefresh(s, first, marks))
  {
    hide QueueOk, QueueIsPushes, C.Next, C.Admits, C.Inv, MarksOk;
    NetFacts(s);
    SendAdmitted(s, s.nextTid, C.Plain);
    var t := SendRefresh(s, first, marks);
    SentTasks(s, t, s.nextTid, C.Plain);
    PushesAreOk(s, t);
    SameMarks(s, t, first, marks);
  }

  lemma BootstrapKeepsInv(s: Loop)
    requires NetOk(s) && s.link.Up? && QueueIsPushes(s) && Folded(s) && UnusedOk(s) && !s.cache.synced
    ensures Inv(Bootstrap(s))
  {
    hide C.Inv, QueueIsPushes;
    var t := s.(cache := s.cache.MarkConnected(), nextTid := s.nextTid + 3);
    assert QueueIsPushes(t) by {
      SameQueueIsPushes(s, t);
    }
    SendFetchKeepsInv(t, s.nextTid, []);
  }

  lemma SameQueueIsPushes(s: Loop, t: Loop)
    requires QueueIsPushes(s) && t.ready == s.ready && s.wire <= t.wire
    ensures QueueIsPushes(t)
  {
  }

  // ---- the end of a request ----

  lemma UrlsDiffer()
    ensures R.CONFIGS_FILE != R.DEVICES_DATA && R.CONFIGS_FILE != R.AREAS_DATA && R.DEVICES_DATA != R.AREAS_DATA
  {
    assert R.CONFIGS_FILE[1] != R.DEVICES_DATA[1];
    assert R.CONFIGS_FILE[1] != R.AREAS_DATA[1];
    assert R.DEVICES_DATA[1] != R.AREAS_DATA[1];
  }

  /** An answer of the right kind is the operation of its stage. */
  lemma AcceptedOp(stage: nat, response: R.Response)
    requires stage <= 2 && C.Accepts(KindOf(stage), response)
    ensures OpOf(Answer(response)).Some?
    ensures stage == 0 <==> OpOf(Answer(response)).value.ApplyConfig?
    ensures stage == 1 <==> OpOf(Answer(response)).value.ReplaceDevices?
    ensures stage == 2 <==> OpOf(Answer(response)).value.ReplaceAreas?
  {
    UrlsDiffer();
  }

  /** The routine resumes, its request ended: with the answer in `message` exactly when it was answered. */
  ghost predicate Resuming(s: Loop, message: Option<nat>) {
    && NetOk(s) && s.link.Up? && QueueIsPushes(s) && CacheOk(s)
    && s.HasCall() && s.Call().phase.Ended?
    && match s.routine
       case Fetching(first, marks, call, _) =>
         && |marks| <= 2 && Reserved(s, first, |marks|)
         && s.Call().tid == first + |marks| && s.Call().kind == KindOf(|marks|)
         && (message.Some? ==> message.value < |s.wire| && s.wire[message.value].Answer?)
         && (s.Call().phase.outcome.Answered? ==>
               message.Some? && AnswerIs(s, message.value, s.Call().phase.outcome.response))
       case Refreshing(first, marks, call) => |marks| == 3
       case _ => false
  }

  lemma TakeKeepsMarks(s: Loop, t: Loop, first: int, marks: seq<nat>, i: nat)
    requires MarksOk(s, first, marks) && IsAnswerOf(s, i, first, |marks|)
    requires t.wire == s.wire && t.applied == s.applied + [i]
    ensures MarksOk(t, first, marks + [|s.applied|])
  {
    hide C.Accepts;
    var taken := marks + [|s.applied|];
    assert forall k :: 0 <= k < |marks| ==> taken[k] == marks[k];
    assert taken[|marks|] == |s.applied|;
    forall p | taken[0] <= p < |t.applied| && p !in taken
      ensures t.applied[p] < |t.wire| && IsPush(t.wire[t.applied[p]])
    {
      assert p < |s.applied| && p !in marks;
    }
  }

  /** The cache and the marks once the answer is applied. */
  ghost function Taken(s: Loop, i: nat, op: Op): Loop {
    s.(cache := s.cache.(content := Apply(s.cache.content, op)), applied := s.applied + [i])
  }

  lemma TakenOp(s: Loop, first: int, marks: seq<nat>, i: nat, response: R.Response)
    requires Resuming(s, Some(i)) && s.routine.Fetching? && s.routine.first == first && s.routine.marks == marks
    requires s.Call().phase.outcome == C.Answered(response)
    ensures OpOf(Answer(response)).Some? && IsAnswerOf(s, i, first, |marks|) && s.wire[i] == Answer(response)
  {
    hide Folded, UnusedOk, AttemptOk, QueueIsPushes, OpOf;
    assert C.CallOk(s.net, s.routine.call);
    AcceptedOp(|marks|, response);
  }

  lemma TakenIsBetween(s: Loop, first: int, marks: seq<nat>, i: nat, response: R.Response)
    requires Resuming(s, Some(i)) && s.routine.Fetching? && s.routine.first == first && s.routine.marks == marks
    requires s.Call().phase.outcome == C.Answered(response)
    ensures OpOf(Answer(response)).Some?
    ensures Between(Taken(s, i, OpOf(Answer(response)).value), first, marks + [|s.applied|])
  {
    hide QueueIsPushes, Apply, OpOf, C.Inv, MarksOk, Folded, Reserved;
    TakenOp(s, first, marks, i, response);
    var t := Taken(s, i, OpOf(Answer(response)).value);
    ApplyKeepsFolded(s, t, i);
    TakeKeepsMarks(s, t, first, marks, i);
    SameQueueIsPushes(s, t);
  }

  lemma SyncedIsBetween(s: Loop, first: int, marks: seq<nat>, now: int)
    requires Between(s, first, marks)
    ensures Between(s.(cache := s.cache.MarkSynced(now)), first, marks)
  {
    hide C.Inv, QueueIsPushes;
    var t := s.(cache := s.cache.MarkSynced(now));
    SameQueueIsPushes(s, t);
    SameMarks(s, t, first, marks);
  }

  lemma TakenKeepsInv(s: Loop, i: nat, response: R.Response, now: int)
    requires Resuming(s, Some(i)) && s.routine.Fetching?
    requires s.Call().phase.outcome == C.Answered(response)
    ensures Inv(Proceed(s, Some(i), now))
  {
    hide Between, Inv, OpOf, Apply, SendFetch, SendRefresh, Folded, UnusedOk, QueueIsPushes, MarksOk;
    var first, marks := s.routine.first, s.routine.marks;
    var taken := marks + [|s.applied|];
    TakenIsBetween(s, first, marks, i, response);
    var t := Taken(s, i, OpOf(Answer(response)).value);
    if |taken| < 3 {
      SendFetchKeepsInv(t, first, taken);
    } else {
      SyncedIsBetween(t, first, taken, now);
      SendRefreshKeepsInv(t.(cache := t.cache.MarkSynced(now)), first, taken);
    }
  }

  lemma KeepsFolded(s: Loop, t: Loop)
    requires Folded(s) && t.wire == s.wire && t.applied == s.applied && t.cache.content == s.cache.content
    ensures Folded(t)
  {
  }

  lemma NotTakenKeepsInv(s: Loop, message: Option<nat>, now: int)
    requires Resuming(s, message)
    requires s.routine.Refreshing? || !s.Call().phase.outcome.Answered?
    ensures Inv(Proceed(s, message, now))
  {
    hide C.Inv, Folded, QueueIsPushes, MarksOk;
    var t := Proceed(s, message, now);
    assert t.ready == s.ready && t.wire == s.wire && t.applied == s.applied && t.net == s.net;
    PushesAreOk(s, t);
    KeepsFolded(s, t);
    if s.routine.Refreshing? {
      SameMarks(s, t, s.routine.first, s.routine.marks);
    }
  }

  lemma ProceedKeepsInv(s: Loop, message: Option<nat>, now: int)
    requires Resuming(s, message)
    ensures Inv(Proceed(s, message, now))
  {
    hide Inv, Proceed;
    if s.routine.Fetching? && s.Call().phase.outcome.Answered? {
      TakenKeepsInv(s, message.value, s.Call().phase.outcome.response, now);
    } else {
      NotTakenKeepsInv(s, message, now);
    }
  }

  // ---- small changes ----

  lemma EnqueueKeepsQueue(s: Loop, t: Loop, a: Action)
    requires QueueOk(s) && s.link.Up? && ActionOk(t, a) && (a.Handle? || s.Unpoked())
    requires t.ready == s.ready + [a] && t.link.Up? && forall b :: b in s.ready ==> ActionOk(t, b)
    ensures QueueOk(t)
  {
    hide ActionOk;
    forall i, j | 0 <= i < j < |t.ready|
      ensures t.ready[i].Handle? || t.ready[j].Handle?
    {
      assert s.ready[i] in s.ready;
    }
  }

  lemma Enqueue(s: Loop, a: Action)
    requires Inv(s) && s.link.Up? && ActionOk(s, a) && (a.Handle? || s.Unpoked())
    ensures Inv(s.(ready := s.ready + [a]))
  {
    hide C.Inv, CacheOk, Answerable;
    var t := s.(ready := s.ready + [a]);
    forall b | b in t.ready
      ensures ActionOk(t, b)
    {
      KeepsAction(s, t, b);
    }
    EnqueueKeepsQueue(s, t, a);
    KeepsRoutine(s, t);
    InvParts(s);
    KeepsCache(s, t);
    InvParts(t);
  }

  /** The network moves without touching the routine's call. */
  ghost predicate Moves(s: Loop, t: Loop) {
    && C.Inv(t.net) && t.net.table.Valid() && t.net.connected == s.net.connected
    && s.nextTid <= t.nextTid && |s.net.calls| <= |t.net.calls|
    && (forall c: nat :: c < |s.net.calls| ==> t.net.calls[c].tid == s.net.calls[c].tid)
    && (forall c: nat :: |s.net.calls| <= c < |t.net.calls| ==> s.nextTid <= t.net.calls[c].tid < t.nextTid)
    && (s.HasCall() ==> t.net.calls[s.routine.call] == s.Call())
    && (s.HasCall() ==> t.net.Sized() && t.net.table.futures[s.routine.call] == s.net.table.futures[s.routine.call])
    && t.ready == s.ready && t.link == s.link && t.routine == s.routine && s.wire <= t.wire
  }

  lemma MovesKeepsReserved(s: Loop, t: Loop, first: int, stage: nat)
    requires Moves(s, t) && Reserved(s, first, stage)
    ensures Reserved(t, first, stage)
  {
    hide C.Inv;
    forall c: nat | c < |t.net.calls|
      ensures t.net.calls[c].tid <= first + stage || t.net.calls[c].tid >= first + 3
    {
      if c < |s.net.calls| {
        assert t.net.calls[c].tid == s.net.calls[c].tid;
      }
    }
  }

  lemma MovesKeepsCall(s: Loop, t: Loop)
    requires Moves(s, t) && s.HasCall()
    ensures t.HasCall() && t.Call() == s.Call() && t.Unsettled() == s.Unsettled() && Answerable(t) == Answerable(s)
    ensures forall i: nat :: IsItsAnswer(s, i) ==> IsItsAnswer(t, i)
  {
    hide C.Inv, C.Accepts;
  }

  lemma MovesKeepsRoutine(s: Loop, t: Loop)
    requires Moves(s, t) && RoutineOk(s)
    ensures RoutineOk(t)
  {
    hide C.Inv, Reserved, IsItsAnswer, Answerable;
    if s.HasCall() {
      MovesKeepsCall(s, t);
    }
    if s.routine.Fetching? {
      MovesKeepsReserved(s, t, s.routine.first, |s.routine.marks|);
    }
  }

  lemma MovesKeepsAction(s: Loop, t: Loop, a: Action)
    requires Moves(s, t) && ActionOk(s, a)
    ensures ActionOk(t, a)
  {
    hide C.Inv, IsItsAnswer, Answerable;
    if s.HasCall() {
      MovesKeepsCall(s, t);
    }
  }

  lemma MovesKeepsTasks(s: Loop, t: Loop)
    requires Moves(s, t) && TasksOk(s)
    ensures TasksOk(t)
  {
    hide ActionOk, RoutineOk, C.Inv;
    MovesKeepsRoutine(s, t);
    forall a | a in t.ready
      ensures ActionOk(t, a)
    {
      MovesKeepsAction(s, t, a);
    }
  }

  // ---- reading ----

  /** A response to another request moves the network away from the routine's call. */
  lemma OtherAnswerMoves(s: Loop, t: Loop, response: R.Response)
    requires NetOk(s) && !SettlesRoutine(s, response)
    requires SameTasks(s.(net := C.Next(s.net, C.Read(response))), t) && t.ready == s.ready && s.wire <= t.wire
    ensures Moves(s, t)
  {
    C.NextKeepsInv(s.net, C.Read(response));
  }

  /** The network once the routine's call is settled. */
  lemma OwnAnswerNet(s: Loop, response: R.Response)
    requires Inv(s) && SettlesRoutine(s, response)
    ensures var net := C.Next(s.net, C.Read(response));
            && C.Inv(net) && net.table.Valid() && net.calls == s.net.calls && net.connected == s.net.connected
            && net.table.futures == s.net.table.futures[s.routine.call := P.Settled(response)]
    ensures s.Unsettled() && s.Call().interrupt.Uninterrupted?
    ensures forall a :: a in s.ready ==> a.Handle? || (a.WriteDone? && s.Call().phase.Writing?)
    ensures s.net.Live(s.routine.call)
  {
    assert C.EntryOk(s.net, response.transacId.value);
    C.NextKeepsInv(s.net, C.Read(response));
    assert C.CallOk(s.net, s.routine.call);
    assert forall a :: a in s.ready ==> ActionOk(s, a);
  }

  /** The routine's call once settled: nothing else of it changed. */
  lemma OwnAnswerCall(s: Loop, response: R.Response)
    requires Inv(s) && s.link.Up? && SettlesRoutine(s, response)
    ensures var t := ReadOne(s, Answer(response));
            && NetOk(t) && t.HasCall() && t.Call() == s.Call() && !t.Unsettled() && t.net.calls == s.net.calls
            && t.wire == s.wire + [Answer(response)] && t.link == s.link && t.nextTid == s.nextTid
            && (Answerable(t) <==> C.Accepts(s.Call().kind, response))
            && (Answerable(t) ==> IsItsAnswer(t, |s.wire|))
            && SameAttempt(s.routine, t.routine)
            && (s.routine.Refreshing? ==> t.routine == s.routine)
            && (s.routine.Fetching? ==>
                  t.routine == s.routine.(
                    held := if Answerable(t) && s.Call().phase.Writing? then Some(|s.wire|) else None))
            && t.ready == s.ready +
                 (if s.Call().phase.Writing? then []
                  else [Wake(if s.routine.Fetching? && Answerable(t) then Some(|s.wire|) else None)])
  {
    hide C.Inv, C.Accepts, C.Next, QueueOk, CacheOk, Folded, AttemptOk, UnusedOk;
    OwnAnswerNet(s, response);
    if s.routine.Fetching? {
      HeldIsSettled(s);
    }
  }

  lemma HeldIsSettled(s: Loop)
    requires RoutineOk(s) && s.HasCall() && s.Unsettled() && s.routine.Fetching?
    ensures s.routine.held.None?
  {
  }

  lemma OwnAnswerQueue(s: Loop, response: R.Response)
    requires Inv(s) && s.link.Up? && SettlesRoutine(s, response)
    ensures QueueOk(ReadOne(s, Answer(response)))
  {
    hide C.Inv, C.Accepts, C.Next, CacheOk, Folded, AttemptOk, UnusedOk, ReadOne, RoutineOk, Answerable, IsItsAnswer;
    OwnAnswerNet(s, response);
    OwnAnswerCall(s, response);
    var t := ReadOne(s, Answer(response));
    forall a | a in s.ready
      ensures ActionOk(t, a)
    {
      assert ActionOk(s, a);
    }
    if !s.Call().phase.Writing? {
      assert s.Unpoked();
      EnqueueKeepsQueue(s, t, t.ready[|s.ready|]);
    } else {
      assert t.ready == s.ready;
    }
  }

  lemma OwnAnswerRoutine(s: Loop, response: R.Response)
    requires Inv(s) && s.link.Up? && SettlesRoutine(s, response)
    ensures RoutineOk(ReadOne(s, Answer(response)))
  {
    hide C.Inv, C.Accepts, C.Next, CacheOk, Folded, AttemptOk, UnusedOk, QueueOk, ReadOne, Answerable, IsItsAnswer;
    OwnAnswerCall(s, response);
  }

  /** The answer of the routine's request: held while it is still written, else its resumption is queued. */
  lemma OwnAnswerKeepsInv(s: Loop, response: R.Response)
    requires Inv(s) && s.link.Up? && SettlesRoutine(s, response)
    ensures Inv(ReadOne(s, Answer(response)))
  {
    hide NetOk, RoutineOk, QueueOk, Folded, AttemptOk, UnusedOk, CacheOk, C.Accepts, C.Next;
    InvNet(s);
    NetFacts(s);
    OwnAnswerCall(s, response);
    OwnAnswerRoutine(s, response);
    OwnAnswerQueue(s, response);
    InvParts(s);
    InvParts(ReadOne(s, Answer(response)));
    GrowWireKeepsCache(s, ReadOne(s, Answer(response)), Answer(response));
  }

  lemma OtherAnswerKeepsInv(s: Loop, response: R.Response)
    requires Inv(s) && s.link.Up? && !SettlesRoutine(s, response)
    ensures Inv(ReadOne(s, Answer(response)))
  {
    hide RoutineOk, QueueOk, Folded, AttemptOk, UnusedOk, CacheOk, TasksOk, C.Accepts, C.Next, C.Inv, Moves, Inv;
    InvParts(s);
    InvNet(s);
    NetFacts(s);
    var t := ReadOne(s, Answer(response));
    assert t.ready == s.ready;
    OtherAnswerMoves(s, t, response);
    MovesKeepsTasks(s, t);
    GrowWireKeepsCache(s, t, Answer(response));
    InvParts(t);
  }

  lemma ReadPushKeepsInv(s: Loop, m: Message)
    requires Inv(s) && s.link.Up? && IsPush(m)
    ensures Inv(ReadOne(s, m))
  {
    hide NetOk, RoutineOk, QueueOk, Folded, AttemptOk, UnusedOk, CacheOk, TasksOk, Inv;
    InvParts(s);
    var t := s.(wire := s.wire + [m]);
    KeepsTasks(s, t);
    GrowWireKeepsCache(s, t, m);
    InvParts(t);
    Enqueue(t, Handle(|s.wire|));
  }

  lemma ReadKeepsInv(s: Loop, m: Message)
    requires Inv(s) && s.link.Up?
    ensures Inv(ReadOne(s, m))
  {
    hide NetOk, RoutineOk, QueueOk, Folded, AttemptOk, UnusedOk, CacheOk, TasksOk, Inv;
    InvParts(s);
    InvNet(s);
    NetFacts(s);
    match m
    case Ignored =>
      var t := ReadOne(s, m);
      KeepsTasks(s, t);
      GrowWireKeepsCache(s, t, m);
      InvParts(t);
    case Answer(response) =>
      if SettlesRoutine(s, response) {
        OwnAnswerKeepsInv(s, response);
      } else {
        OtherAnswerKeepsInv(s, response);
      }
    case _ => ReadPushKeepsInv(s, m);
  }

  // ---- running the head of the queue ----

  lemma PopQueue(s: Loop)
    requires QueueOk(s) && s.link.Up? && s.ready != []
    ensures QueueOk(s.(ready := s.ready[1..])) && ActionOk(s, s.ready[0])
    ensures !s.ready[0].Handle? ==> QueueIsPushes(s.(ready := s.ready[1..]))
  {
    hide Answerable;
    var t := s.(ready := s.ready[1..]);
    forall a | a in t.ready
      ensures ActionOk(t, a)
      ensures !s.ready[0].Handle? ==> a.Handle?
    {
      assert ActionOk(s, a);
      KeepsAction(s, t, a);
      var i :| 0 <= i < |t.ready| && t.ready[i] == a;
      assert s.ready[i + 1] == a;
    }
  }

  lemma PopKeepsInv(s: Loop)
    requires Inv(s) && s.link.Up? && s.ready != []
    ensures Inv(s.(ready := s.ready[1..]))
    ensures !s.ready[0].Handle? ==> QueueIsPushes(s.(ready := s.ready[1..]))
  {
    hide C.Inv, Folded, AttemptOk, UnusedOk, CacheOk, QueueOk, QueueIsPushes, Answerable;
    PopQueue(s);
    var t := s.(ready := s.ready[1..]);
    KeepsRoutine(s, t);
    InvParts(s);
    KeepsCache(s, t);
    InvParts(t);
  }

  lemma HandleKeepsCache(s: Loop, i: nat)
    requires CacheOk(s) && i < |s.wire| && IsPush(s.wire[i])
    ensures CacheOk(Taken(s, i, OpOf(s.wire[i]).value))
  {
    hide Apply, Folded, MarksOk;
    var t := Taken(s, i, OpOf(s.wire[i]).value);
    ApplyKeepsFolded(s, t, i);
    if s.routine.Fetching? || s.routine.Refreshing? || s.routine.Resting? {
      PushKeepsMarks(s, t, s.routine.first, s.routine.marks, i);
    }
  }

  lemma HandleKeepsInv(s: Loop, i: nat)
    requires Inv(s) && i < |s.wire| && IsPush(s.wire[i])
    ensures Inv(Taken(s, i, OpOf(s.wire[i]).value))
  {
    hide NetOk, RoutineOk, QueueOk, Folded, AttemptOk, UnusedOk, CacheOk, TasksOk, Inv;
    InvParts(s);
    var t := Taken(s, i, OpOf(s.wire[i]).value);
    HandleKeepsCache(s, i);
    KeepsTasks(s, t);
    InvParts(t);
  }

  lemma PushKeepsMarks(s: Loop, t: Loop, first: int, marks: seq<nat>, i: nat)
    requires MarksOk(s, first, marks) && i < |s.wire| && IsPush(s.wire[i])
    requires t.wire == s.wire && t.applied == s.applied + [i]
    ensures MarksOk(t, first, marks)
  {
    forall k | 0 <= k < |marks|
      ensures marks[k] < |t.applied| && IsAnswerOf(t, t.applied[marks[k]], first, k)
    {
      assert IsAnswerOf(s, s.applied[marks[k]], first, k);
    }
  }

  /** The routine's write returns and its response is not there yet. */
  lemma AwaitKeepsInv(s: Loop)
    requires Inv(s) && s.link.Up? && s.HasCall() && s.Unsettled() && QueueIsPushes(s)
    requires C.Enabled(s.net, C.Written(s.routine.call))
    ensures Inv(s.(net := C.Next(s.net, C.Written(s.routine.call))))
  {
    hide Folded, AttemptOk, UnusedOk, CacheOk;
    C.NextKeepsInv(s.net, C.Written(s.routine.call));
    var t := s.(net := C.Next(s.net, C.Written(s.routine.call)));
    PushesAreOk(s, t);
    InvParts(s);
    KeepsCache(s, t);
    InvParts(t);
  }

  predicate EndsRoutineCall(s: Loop, e: C.Event)
    requires s.HasCall()
  {
    && (e == C.Written(s.routine.call) || e == C.WriteFailed(s.routine.call) || e == C.Resume(s.routine.call))
    && C.Enabled(s.net, e)
    && (e.Written? ==> !s.Unsettled())
  }

  function EndOutcome(s: Loop, e: C.Event): C.Outcome
    requires s.HasCall()
  {
    if e.WriteFailed? then C.ConnectionLost else s.net.Result(s.routine.call)
  }

  /** The network once the routine's request has ended. */
  lemma EndedNet(s: Loop, e: C.Event)
    requires NetOk(s) && s.HasCall() && EndsRoutineCall(s, e)
    ensures var net := C.Next(s.net, e);
            && C.Inv(net) && net.table.Valid() && net.connected == s.net.connected
            && net.table.futures == s.net.table.futures
            && net.calls == s.net.calls[s.routine.call := s.Call().(phase := C.Ended(EndOutcome(s, e)))]
    ensures EndOutcome(s, e).Answered? <==> !e.WriteFailed? && Answerable(s)
    ensures EndOutcome(s, e).Answered? ==> s.net.table.futures[s.routine.call] == P.Settled(EndOutcome(s, e).response)
  {
    C.NextKeepsInv(s.net, e);
    assert C.Next(s.net, e) == s.net.End(s.routine.call, EndOutcome(s, e));
  }

  lemma EndedTasks(s: Loop, e: C.Event)
    requires NetOk(s) && RoutineOk(s) && s.HasCall() && EndsRoutineCall(s, e)
    ensures var t := s.(net := C.Next(s.net, e));
            && NetOk(t) && t.HasCall() && t.Call() == s.Call().(phase := C.Ended(EndOutcome(s, e)))
            && (s.routine.Fetching? ==> |s.routine.marks| <= 2 && Reserved(t, s.routine.first, |s.routine.marks|))
  {
    hide C.Inv, C.Next, Answerable, EndOutcome;
    EndedNet(s, e);
    assert forall c: nat :: c < |s.net.calls| ==> C.Next(s.net, e).calls[c].tid == s.net.calls[c].tid;
  }

  /** The routine's request ends: what `Proceed` starts from. */
  lemma EndedIsResuming(s: Loop, e: C.Event, message: Option<nat>)
    requires Inv(s) && s.link.Up? && s.HasCall() && QueueIsPushes(s) && EndsRoutineCall(s, e)
    requires s.routine.Fetching? ==>
               if message.Some? then IsItsAnswer(s, message.value) else e.WriteFailed? || !Answerable(s)
    ensures Resuming(s.(net := C.Next(s.net, e)), message)
  {
    hide NetOk, Folded, AttemptOk, UnusedOk, CacheOk, QueueOk, QueueIsPushes, Answerable, EndOutcome, C.Next, Reserved;
    InvNet(s);
    NetFacts(s);
    EndedNet(s, e);
    EndedTasks(s, e);
    var t := s.(net := C.Next(s.net, e));
    SameQueueIsPushes(s, t);
    InvParts(s);
    KeepsCache(s, t);
  }

  /** The answer in hand is what the request being written will return. */
  lemma HeldIsItsAnswer(s: Loop)
    requires RoutineOk(s) && s.HasCall() && s.link.Up? && s.Call().phase.Writing? && s.routine.Fetching?
    ensures if s.Held().Some? then IsItsAnswer(s, s.Held().value) else !Answerable(s)
  {
  }

  lemma RunWriteDoneKeepsInv(s: Loop, now: int)
    requires Inv(s) && Possible(s, Run(now)) && s.ready[0].WriteDone?
    ensures Inv(RunHead(s, now))
  {
    hide NetOk, QueueOk, Folded, AttemptOk, UnusedOk, CacheOk, Answerable, IsItsAnswer, C.Next, Resuming, Proceed,
         QueueIsPushes;
    var t := s.(ready := s.ready[1..]);
    PopKeepsInv(s);
    NetFacts(s);
    if s.Unsettled() {
      AwaitKeepsInv(t);
    } else {
      if s.routine.Fetching? {
        HeldIsItsAnswer(t);
      }
      EndedIsResuming(t, C.Written(s.routine.call), s.Held());
      ProceedKeepsInv(t.(net := C.Next(s.net, C.Written(s.routine.call))), s.Held(), now);
    }
  }

  lemma RunWakeKeepsInv(s: Loop, now: int)
    requires Inv(s) && Possible(s, Run(now)) && s.ready[0].Wake?
    ensures Inv(RunHead(s, now))
  {
    hide NetOk, RoutineOk, Folded, AttemptOk, UnusedOk, CacheOk, Answerable, C.Next, Resuming, Proceed, QueueIsPushes;
    var t := s.(ready := s.ready[1..]);
    PopKeepsInv(s);
    NetFacts(s);
    assert ActionOk(s, s.ready[0]);
    assert s.HasCall() ==> Answerable(t) == Answerable(s) by {
      SameAnswerable(s, t);
    }
    EndedIsResuming(t, C.Resume(s.routine.call), s.ready[0].answer);
    ProceedKeepsInv(t.(net := C.Next(s.net, C.Resume(s.routine.call))), s.ready[0].answer, now);
  }

  lemma SameAnswerable(s: Loop, t: Loop)
    requires t.net == s.net && t.routine == s.routine
    ensures s.HasCall() ==> t.HasCall() && Answerable(t) == Answerable(s)
  {
  }

  lemma RunKeepsInv(s: Loop, now: int)
    requires Inv(s) && Possible(s, Run(now))
    ensures Inv(RunHead(s, now))
  {
    match s.ready[0]
    case Begin => RunBeginKeepsInv(s, now);
    case Handle(i) => RunHandleKeepsInv(s, now);
    case WriteDone => RunWriteDoneKeepsInv(s, now);
    case Wake(_) => RunWakeKeepsInv(s, now);
  }

  lemma RunBeginKeepsInv(s: Loop, now: int)
    requires Inv(s) && Possible(s, Run(now)) && s.ready[0].Begin?
    ensures Inv(RunHead(s, now))
  {
    hide C.Inv, Folded, QueueIsPushes, C.Next, MarksOk;
    PopKeepsInv(s);
    BootstrapKeepsInv(s.(ready := s.ready[1..]));
  }

  lemma RunHandleKeepsInv(s: Loop, now: int)
    requires Inv(s) && Possible(s, Run(now)) && s.ready[0].Handle?
    ensures Inv(RunHead(s, now))
  {
    hide Inv, QueueIsPushes;
    PopKeepsInv(s);
    HandleKeepsInv(s.(ready := s.ready[1..]), s.ready[0].message);
  }

  lemma UnpokedIsPushes(s: Loop)
    requires QueueOk(s) && s.Unpoked()
    ensures QueueIsPushes(s)
  {
    forall a | a in s.ready
      ensures a.message < |s.wire| && IsPush(s.wire[a.message])
    {
      assert ActionOk(s, a);
    }
  }

  lemma FailWriteKeepsInv(s: Loop)
    requires Inv(s) && Possible(s, FailWrite)
    ensures Inv(After(s, FailWrite))
  {
    hide NetOk, QueueOk, Folded, AttemptOk, UnusedOk, CacheOk, Answerable, IsItsAnswer, C.Next, Resuming, Proceed,
         QueueIsPushes;
    UnpokedIsPushes(s);
    NetFacts(s);
    if s.routine.Fetching? {
      HeldIsItsAnswer(s);
    }
    EndedIsResuming(s, C.WriteFailed(s.routine.call), s.Held());
    ProceedKeepsInv(s.(net := C.Next(s.net, C.WriteFailed(s.routine.call))), s.Held(), 0);
  }

  // ---- deadlines ----

  /** The network and the call once the deadline has passed. */
  lemma ExpireNet(s: Loop)
    requires NetOk(s) && Possible(s, ExpireAnswer)
    ensures var t := After(s, ExpireAnswer);
            && NetOk(t) && t.HasCall() && t.Call() == s.Call().(interrupt := C.Deadline) && !t.Unsettled()
            && !Answerable(t)
            && |t.net.calls| == |s.net.calls|
            && (forall c: nat :: c < |s.net.calls| ==> t.net.calls[c].tid == s.net.calls[c].tid)
            && t.routine == s.routine && t.link == s.link && t.nextTid == s.nextTid
            && t.wire == s.wire && t.applied == s.applied && t.cache == s.cache && t.lost == s.lost
            && (s.Unsettled() ==> t.ready == s.ready + [Wake(None)] && t.unused == s.unused)
            && (!s.Unsettled() ==> t.ready == Muted(s.ready) && t.unused == s.unused + WakeAnswers(s.ready))
  {
    hide Muted, WakeAnswers;
    C.NextKeepsInv(s.net, C.Expire(s.routine.call));
  }

  lemma ExpireWaitingQueue(s: Loop)
    requires TasksOk(s) && Possible(s, ExpireAnswer) && s.Unsettled()
    ensures QueueOk(After(s, ExpireAnswer))
  {
    hide NetOk, RoutineOk, After, C.Next, Answerable, IsItsAnswer;
    NetFacts(s);
    ExpireNet(s);
    var t := After(s, ExpireAnswer);
    forall a | a in s.ready
      ensures a.Handle? && ActionOk(t, a)
    {
      assert ActionOk(s, a);
    }
    EnqueueKeepsQueue(s, t, Wake(None));
  }

  lemma ExpireSettledQueue(s: Loop)
    requires TasksOk(s) && Possible(s, ExpireAnswer) && !s.Unsettled()
    ensures QueueOk(After(s, ExpireAnswer))
  {
    hide NetOk, RoutineOk, After, C.Next, Answerable, IsItsAnswer, WakeAnswers;
    NetFacts(s);
    ExpireNet(s);
    var t := After(s, ExpireAnswer);
    forall i | 0 <= i < |t.ready|
      ensures ActionOk(t, t.ready[i])
    {
      assert s.ready[i] in s.ready && ActionOk(s, s.ready[i]);
    }
    forall i, j | 0 <= i < j < |t.ready|
      ensures t.ready[i].Handle? || t.ready[j].Handle?
    {
      assert s.ready[i].Handle? || s.ready[j].Handle?;
    }
  }

  lemma ExpireQueue(s: Loop)
    requires TasksOk(s) && Possible(s, ExpireAnswer)
    ensures QueueOk(After(s, ExpireAnswer))
  {
    hide TasksOk, QueueOk, After;
    if s.Unsettled() {
      ExpireWaitingQueue(s);
    } else {
      ExpireSettledQueue(s);
    }
  }

  lemma ExpireRoutine(s: Loop)
    requires NetOk(s) && RoutineOk(s) && Possible(s, ExpireAnswer)
    ensures RoutineOk(After(s, ExpireAnswer))
  {
    hide NetOk, After, Answerable, C.Next;
    ExpireNet(s);
  }

  lemma ExpireUnused(s: Loop)
    requires NetOk(s) && QueueOk(s) && UnusedOk(s) && Possible(s, ExpireAnswer)
    ensures UnusedOk(After(s, ExpireAnswer))
  {
    hide NetOk, After, Answerable;
    ExpireNet(s);
    forall i | i in WakeAnswers(s.ready)
      ensures i < |s.wire| && !IsPush(s.wire[i])
    {
      var k :| 0 <= k < |s.ready| && s.ready[k].Wake? && s.ready[k].answer == Some(i);
      assert s.ready[k] in s.ready && ActionOk(s, s.ready[k]);
    }
  }

  lemma ExpireKeepsInv(s: Loop)
    requires Inv(s) && Possible(s, ExpireAnswer)
    ensures Inv(After(s, ExpireAnswer))
  {
    hide NetOk, RoutineOk, QueueOk, Folded, AttemptOk, UnusedOk, After, Answerable;
    NetFacts(s);
    ExpireNet(s);
    ExpireRoutine(s);
    ExpireQueue(s);
    ExpireUnused(s);
    KeepsFolded(s, After(s, ExpireAnswer));
    KeepsAttempt(s, After(s, ExpireAnswer));
  }

  // ---- other tasks ----

  lemma ForeignMoves(s: Loop, e: C.Event)
    requires NetOk(s) && Possible(s, Foreign(e))
    ensures Moves(s, After(s, Foreign(e)))
  {
    C.NextKeepsInv(s.net, e);
    C.StepEvolves(s.net, e);
  }

  lemma ForeignKeepsInv(s: Loop, e: C.Event)
    requires Inv(s) && Possible(s, Foreign(e))
    ensures Inv(After(s, Foreign(e)))
  {
    hide RoutineOk, QueueOk, Folded, AttemptOk, UnusedOk, CacheOk, TasksOk, Inv, Moves, C.Inv, C.Next;
    InvNet(s);
    InvParts(s);
    var t := After(s, Foreign(e));
    ForeignMoves(s, e);
    MovesKeepsTasks(s, t);
    KeepsCache(s, t);
    InvParts(t);
  }

  // ---- the connection ----

  /** The network once the routine's wait is cancelled. */
  lemma CancelNet(s: Loop)
    requires NetOk(s) && s.HasCall() && C.Enabled(s.net, C.Cancel(s.routine.call))
    ensures var net := C.Next(s.net, C.Cancel(s.routine.call));
            && C.Inv(net) && net.table.Valid() && net.connected == s.net.connected
            && net.calls == s.net.calls[s.routine.call := s.Call().(interrupt := C.Cancellation)]
            && !net.table.futures[s.routine.call].Waiting?
  {
    C.NextKeepsInv(s.net, C.Cancel(s.routine.call));
  }

  lemma CutNet(s: Loop)
    requires NetOk(s) && s.link.Up?
    ensures NetOk(Cut(s)) && |Cut(s).net.calls| == |s.net.calls|
    ensures forall c: nat :: c < |s.net.calls| ==> Cut(s).net.calls[c].tid == s.net.calls[c].tid
  {
    hide C.Inv, C.Next;
    if s.HasCall() && C.Enabled(s.net, C.Cancel(s.routine.call)) {
      CancelNet(s);
    }
  }

  lemma CutRoutine(s: Loop)
    requires NetOk(s) && RoutineOk(s) && s.link.Up?
    ensures RoutineOk(Cut(s))
  {
    hide C.Inv, C.Next, NetOk, C.Accepts;
    NetFacts(s);
    CutNet(s);
    if s.HasCall() && C.Enabled(s.net, C.Cancel(s.routine.call)) {
      CancelNet(s);
    }
  }

  lemma CutKeepsInv(s: Loop)
    requires Inv(s) && s.link.Up?
    ensures Inv(Cut(s))
  {
    hide NetOk, RoutineOk, Folded, AttemptOk, UnusedOk, CacheOk, C.Next, Inv;
    InvNet(s);
    NetFacts(s);
    InvParts(s);
    var t := Cut(s);
    CutNet(s);
    CutRoutine(s);
    assert t.ready == [];
    KeepsCache(s, t);
    InvParts(t);
  }

  lemma UnwindNet(s: Loop)
    requires NetOk(s) && Possible(s, Unwind)
    ensures NetOk(After(s, Unwind))
  {
    if s.HasCall() && C.Enabled(s.net, C.WriteCancelled(s.routine.call)) {
      C.NextKeepsInv(s.net, C.WriteCancelled(s.routine.call));
      C.StepEvolves(s.net, C.WriteCancelled(s.routine.call));
    } else if s.HasCall() && C.Enabled(s.net, C.Resume(s.routine.call)) {
      C.NextKeepsInv(s.net, C.Resume(s.routine.call));
      C.StepEvolves(s.net, C.Resume(s.routine.call));
    }
  }

  lemma UnwindKeepsInv(s: Loop)
    requires Inv(s) && Possible(s, Unwind)
    ensures Inv(After(s, Unwind))
  {
    hide NetOk, Folded, UnusedOk, Ending;
    UnwindNet(s);
    NetFacts(s);
    KeepsFolded(s, After(s, Unwind));
    KeepsUnused(s, After(s, Unwind));
  }

  lemma KeepsUnused(s: Loop, t: Loop)
    requires UnusedOk(s) && t.wire == s.wire && t.unused == s.unused
    ensures UnusedOk(t)
  {
  }

  lemma CloseNet(s: Loop)
    requires NetOk(s) && s.link.Closing?
    ensures NetOk(s.(net := C.Next(s.net, C.Flush).(connected := false), link := Down))
  {
    C.NextKeepsInv(s.net, C.Flush);
    C.StepEvolves(s.net, C.Flush);
    C.NextKeepsInv(C.Next(s.net, C.Flush), C.Disconnect);
  }

  lemma CloseKeepsInv(s: Loop)
    requires Inv(s) && Possible(s, Close)
    ensures Inv(After(s, Close))
  {
    hide NetOk, Folded, UnusedOk, C.Next;
    NetFacts(s);
    CloseNet(s);
    KeepsFolded(s, After(s, Close));
    KeepsUnused(s, After(s, Close));
  }

  lemma OpenKeepsInv(s: Loop)
    requires Inv(s) && Possible(s, Open)
    ensures Inv(After(s, Open))
  {
    hide Folded, UnusedOk;
    C.NextKeepsInv(s.net, C.Connect);
    KeepsFolded(s, After(s, Open));
    KeepsUnused(s, After(s, Open));
  }

  lemma EndSleepKeepsInv(s: Loop)
    requires Inv(s) && Possible(s, EndSleep)
    ensures Inv(After(s, EndSleep))
  {
    hide C.Inv, Folded, C.Next, MarksOk, Answerable;
    forall a | a in s.ready
      ensures a.Handle?
    {
      assert ActionOk(s, a);
    }
    UnpokedIsPushes(s);
    BootstrapKeepsInv(s);
  }

  lemma WriteAtOnceKeepsInv(s: Loop)
    requires Inv(s) && Possible(s, WriteAtOnce)
    ensures Inv(After(s, WriteAtOnce))
  {
    hide NetOk, RoutineOk, Folded, AttemptOk, UnusedOk, QueueOk, QueueIsPushes, C.Next;
    NetFacts(s);
    UnpokedIsPushes(s);
    AwaitKeepsInv(s);
  }

  /** Every step keeps the invariant. */
  lemma StepKeepsInv(s: Loop, step: Step)
    requires Inv(s) && Possible(s, step)
    ensures s.net.table.Valid() && s.net.Sized() && Inv(After(s, step))
  {
    hide Inv, ReadOne, RunHead, Cut, Bootstrap, Proceed, Ending, C.Next;
    InvNet(s);
    NetFacts(s);
    match step
    case Open => OpenKeepsInv(s);
    case ReadMessage(m) => ReadKeepsInv(s, m);
    case Run(now) => RunKeepsInv(s, now);
    case WriteAtOnce => WriteAtOnceKeepsInv(s);
    case FinishWrite => Enqueue(s, WriteDone);
    case FailWrite => FailWriteKeepsInv(s);
    case ExpireAnswer => ExpireKeepsInv(s);
    case EndSleep => EndSleepKeepsInv(s);
    case Foreign(e) => ForeignKeepsInv(s, e);
    case EndConnection => CutKeepsInv(s);
    case Unwind => UnwindKeepsInv(s);
    case Close => CloseKeepsInv(s);
  }
}
