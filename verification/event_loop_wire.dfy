/**
 Messages and the order of the wire: what every run of the code keeps, and exactly which steps
 let a message take effect before one read earlier.
 */
module EventLoopWire {
  import opened Collections
  import C = Client
  import opened CacheState
  import opened EventLoop
  import opened EventLoopInv
  import opened EventLoopRuns
  import opened EventLoopOrder

  // ---- every run ----

  lemma StartIsAccounted()
    ensures Accounted(START)
  {
  }

  lemma {:induction false} RunsKeepAccounted(steps: seq<Step>)
    requires LegalFrom(START, steps)
    ensures Accounted(StateFrom(START, steps))
    decreases |steps|
  {
    hide Inv, Accounted, After, Possible;
    StartIsAccounted();
    if steps != [] {
      var init := steps[..|steps| - 1];
      RunsKeepAccounted(init);
      StartIsInv();
      RunsKeepInv(START, init);
      StepKeepsAccounted(StateFrom(START, init), steps[|steps| - 1]);
    }
  }

  lemma ReachableAccounted(s: Loop)
    requires Reachable(s)
    ensures Accounted(s)
  {
    hide Accounted, After, Possible;
    var steps :| LegalFrom(START, steps) && StateFrom(START, steps) == s;
    RunsKeepAccounted(steps);
  }

  /** What holds of the messages in every state, whatever the order in which they take effect. */
  ghost predicate FollowsTheWire(s: Loop) {
    var kept := Kept(|s.wire|, Gone(s));
    && Distinct(Effects(s))
    && (forall i: nat :: i in Effects(s) <==> i < |s.wire| && i !in Gone(s))
    && Only(s.wire, Effects(s), true) == Only(s.wire, kept, true)
    && Only(s.wire, Effects(s), false) == Only(s.wire, kept, false)
    && (forall i :: i in s.unused ==> i < |s.wire| && !IsPush(s.wire[i]))
    && AppliedOk(s.wire, s.applied)
    && s.cache.content == ApplyAll(BLANK, OpsAt(s.wire, s.applied))
  }

  /**
   In every reachable state: the cache is the fold of the messages applied; each message read is
   applied or due once, or was without effect, or was lost with its connection; no push is
   without effect; and pushes among themselves, and answers among themselves, take effect in
   the order of the wire.
   */
  lemma CacheFollowsTheWire(s: Loop)
    requires Reachable(s)
    ensures FollowsTheWire(s)
  {
    hide NetOk, RoutineOk, QueueOk, AttemptOk, Effects, Gone;
    ReachableInv(s);
    ReachableAccounted(s);
    AccountedMembers(s);
    AccountedDistinct(s);
  }

  /** In order, the messages applied are a prefix of those accepted, and those due are the remainder. */
  lemma InOrderIsPrefix(s: Loop)
    requires Reachable(s) && Increasing(Effects(s))
    ensures var accepted := Kept(|s.wire|, Gone(s));
            s.applied <= accepted && Due(s) == accepted[|s.applied|..]
  {
    hide Due;
    ReachableAccounted(s);
    AccountedMembers(s);
    KeptIncreases(|s.wire|, Gone(s));
    IncreasingAreEqual(Effects(s), Kept(|s.wire|, Gone(s)));
  }

  // ---- crossings ----

  /**
   The step lets a message pass one read earlier: the answer to the routine's request is read
   while the return of its write is queued with a push behind it, or a push is read while such
   an answer is in hand and the return of the write is not queued.
   */
  ghost predicate Crossing(s: Loop, step: Step)
    requires s.net.table.Valid() && s.net.Sized()
  {
    step.ReadMessage? &&
    match step.message
    case Ignored => false
    case Answer(response) =>
      AnswersRoutine(s, response) && s.Call().phase.Writing?
      && exists i, j :: 0 <= i < j < |s.ready| && s.ready[i].WriteDone? && s.ready[j].Handle?
    case _ => s.Held().Some? && WriteDone !in s.ready
  }

  lemma {:induction false} BehindIff(ready: seq<Action>)
    requires forall i, j :: 0 <= i < j < |ready| ==> ready[i].Handle? || ready[j].Handle?
    ensures DueIn(AfterWrite(ready), None) != [] <==>
            exists i, j :: 0 <= i < j < |ready| && ready[i].WriteDone? && ready[j].Handle?
  {
    if ready != [] {
      if ready[0].WriteDone? {
        if |ready| > 1 {
          assert ready[0].WriteDone? && ready[1].Handle?;
          assert MessageOf(ready[1..][0]) != [];
        }
      } else {
        BehindIff(ready[1..]);
        if i, j :| 0 <= i < j < |ready| && ready[i].WriteDone? && ready[j].Handle? {
          assert ready[1..][i - 1].WriteDone? && ready[1..][j - 1].Handle?;
        }
        if DueIn(AfterWrite(ready[1..]), None) != [] {
          var i, j :| 0 <= i < j < |ready[1..]| && ready[1..][i].WriteDone? && ready[1..][j].Handle?;
          assert ready[i + 1].WriteDone? && ready[j + 1].Handle?;
        }
      }
    }
  }

  /** A message that joins keeps the order exactly when nothing stands behind it. */
  lemma JoinsInOrder(s: Loop, t: Loop, m: Message, front: seq<nat>, behind: seq<nat>)
    requires Accounted(s) && Joins(s, t, m, front, behind)
    requires Increasing(Effects(s)) || behind != []
    ensures Increasing(Effects(t)) <==> behind == []
  {
    hide Effects, Gone, Only, Kept;
    var all, n := Effects(t), |s.wire|;
    if behind == [] {
      forall i, j | 0 <= i < j < |all|
        ensures all[i] < all[j]
      {
        assert i < |front| && all[i] == front[i] == Effects(s)[i];
        assert j < |front| ==> all[j] == front[j] == Effects(s)[j];
      }
    } else {
      assert all[|front|] == n && all[|front| + 1] == behind[0] == Effects(s)[|front|];
    }
  }

  lemma ReadKeepsOrderIff(s: Loop, m: Message)
    requires Inv(s) && Accounted(s) && s.net.table.Valid() && s.net.Sized() && s.link.Up?
    requires Increasing(Effects(s)) || Crossing(s, ReadMessage(m))
    ensures Increasing(Effects(ReadOne(s, m))) <==> !Crossing(s, ReadMessage(m))
  {
    hide Accounted, Joins, ReadOne, NetOk, RoutineOk, CacheOk, Folded, AttemptOk, UnusedOk, ActionOk, Effects,
         Increasing;
    var t := ReadOne(s, m);
    if !Counts(s, m) {
      ReadSkips(s, m);
    } else if m.Answer? {
      if s.Call().phase.Writing? {
        EarlyAnswerJoins(s, m.response);
        BehindIff(s.ready);
        JoinsInOrder(s, t, m, s.applied + DueIn(BeforeWrite(s.ready), None), DueIn(AfterWrite(s.ready), None));
      } else {
        WaitingAnswerJoins(s, m.response);
        JoinsInOrder(s, t, m, Effects(s), []);
      }
    } else {
      PushJoins(s, m);
      JoinsInOrder(s, t, m, s.applied + DueIn(s.ready, s.Held()),
        if WriteDone in s.ready then [] else Listed(s.Held()));
    }
  }

  /** From a state in order, a step keeps the order if and only if it is no crossing. */
  lemma StepKeepsOrderIff(s: Loop, step: Step)
    requires Reachable(s) && Possible(s, step) && Increasing(Effects(s))
    ensures s.net.table.Valid() && s.net.Sized()
    ensures Increasing(Effects(After(s, step))) <==> !Crossing(s, step)
  {
    hide Inv, Accounted, Effects, Increasing, RunHead, Cut, Bootstrap, ReadOne, Proceed, Ending, Gone;
    ReachableInv(s);
    ReachableAccounted(s);
    if step.ReadMessage? {
      ReadKeepsOrderIff(s, step.message);
    } else {
      var out := OtherStepDrops(s, step);
      FilterIncreases(Effects(s), out);
    }
  }

  // ---- whole runs ----

  /** No step of the run is a crossing. */
  ghost predicate CrossingFree(steps: seq<Step>)
    requires LegalFrom(START, steps)
    decreases |steps|
  {
    steps != [] ==>
      CrossingFree(steps[..|steps| - 1]) && !Crossing(StateFrom(START, steps[..|steps| - 1]), steps[|steps| - 1])
  }

  /** In every state of the run, what took effect and what is due are in the order of the wire. */
  ghost predicate AlwaysInOrder(steps: seq<Step>)
    requires LegalFrom(START, steps)
    decreases |steps|
  {
    Increasing(Effects(StateFrom(START, steps))) && (steps != [] ==> AlwaysInOrder(steps[..|steps| - 1]))
  }

  /** Messages take effect in the order of the wire all along a run if and only if no step of it is a crossing. */
  lemma {:induction false} RunIsInOrderIff(steps: seq<Step>)
    requires LegalFrom(START, steps)
    ensures AlwaysInOrder(steps) <==> CrossingFree(steps)
    decreases |steps|
  {
    hide Effects, Increasing, After, Possible, Crossing;
    if steps == [] {
      StartIsInOrder();
    } else {
      var init := steps[..|steps| - 1];
      RunIsInOrderIff(init);
      if CrossingFree(init) {
        assert Reachable(StateFrom(START, init));
        StepKeepsOrderIff(StateFrom(START, init), steps[|steps| - 1]);
      }
    }
  }

  lemma StartIsInOrder()
    ensures Increasing(Effects(START))
  {
  }

  // ---- what a crossing leads to ----

  /** The queue runs: all it is to apply takes effect, in its order. */
  lemma {:induction false} QueueRuns(base: Loop, s: Loop) returns (t: Loop)
    requires LeadsTo(base, s) && Inv(s) && s.link.Up?
    ensures LeadsTo(base, t) && t.applied == s.applied + DueIn(s.ready, s.Held())
    decreases |s.ready|
  {
    hide Inv, After, Possible, LeadsTo, RunHead;
    if s.ready == [] {
      t := s;
      assert s.applied + [] == s.applied;
    } else {
      HeadPossible(s, 0);
      LeadsToNext(base, s, Run(0));
      var u := After(s, Run(0));
      RunOnce(s, u);
      t := QueueRuns(base, u);
      var first := if s.ready[0].WriteDone? then Listed(s.Held()) else MessageOf(s.ready[0]);
      Associative(s.applied, first, DueIn(s.ready[1..], s.Held()));
    }
  }

  lemma RunOnce(s: Loop, u: Loop)
    requires Inv(s) && s.ready != [] && Possible(s, Run(0)) && s.net.table.Valid() && s.net.Sized()
    requires u == After(s, Run(0))
    ensures u.link.Up? && u.ready == s.ready[1..]
    ensures u.applied == s.applied + if s.ready[0].WriteDone? then Listed(s.Held()) else MessageOf(s.ready[0])
    ensures DueIn(u.ready, u.Held()) == DueIn(s.ready[1..], s.Held())
  {
    hide RunHead, NetOk, RoutineOk, CacheOk, Folded, AttemptOk, UnusedOk, ActionOk;
    RunPops(s, 0);
    if !s.ready[0].Handle? {
      OthersAreHandles(s);
      DueInUnwritten(s.ready[1..], s.Held(), None);
    }
  }

  /** In every reachable state of a connection, all that is due may take effect, in the order it is due. */
  lemma DueMayTakeEffect(s: Loop) returns (t: Loop)
    requires Reachable(s) && s.link.Up?
    ensures LeadsTo(s, t) && t.applied == Effects(s)
  {
    hide Inv, After, LeadsTo;
    ReachableInv(s);
    LeadsToItself(s);
    if s.Held().None? || WriteDone in s.ready {
      t := QueueRuns(s, s);
      assert DueIn(s.ready, s.Held()) + [] == DueIn(s.ready, s.Held());
    } else {
      WriteMayFinish(s);
      LeadsToNext(s, s, FinishWrite);
      var u := After(s, FinishWrite);
      FinishedWrite(s, u);
      t := QueueRuns(s, u);
    }
  }

  /** With an answer in hand and no return of the write queued, the write may return. */
  lemma WriteMayFinish(s: Loop)
    requires Inv(s) && s.Held().Some? && WriteDone !in s.ready
    ensures Possible(s, FinishWrite)
  {
    hide NetOk, CacheOk, Folded, AttemptOk, UnusedOk, Answerable;
    HeldIsAnswer(s, s.Held().value);
    forall a | a in s.ready
      ensures a.Handle?
    {
      assert ActionOk(s, a);
    }
    assert s.net.Sized() by {
      InvNet(s);
      NetFacts(s);
    }
  }

  lemma FinishedWrite(s: Loop, u: Loop)
    requires s.net.table.Valid() && s.net.Sized() && Possible(s, FinishWrite) && u == After(s, FinishWrite)
    requires WriteDone !in s.ready
    ensures u.link.Up? && u.applied + DueIn(u.ready, u.Held()) == Effects(s)
  {
    DueInSnoc(s.ready, WriteDone, s.Held());
  }

  /** After a crossing, the run may go on to messages applied out of the order of the wire. */
  lemma CrossingMayDisorder(s: Loop, step: Step) returns (t: Loop)
    requires Reachable(s) && Possible(s, step) && s.net.table.Valid() && s.net.Sized() && Crossing(s, step)
    ensures LeadsTo(After(s, step), t) && Reachable(t) && !Increasing(t.applied)
  {
    hide Inv, Accounted, Effects, Increasing, LeadsTo, ReadOne;
    ReachableInv(s);
    ReachableAccounted(s);
    LeadsToNext(START, s, step);
    ReadKeepsOrderIff(s, step.message);
    ReadKeepsLink(s, step.message);
    t := DueMayTakeEffect(After(s, step));
    LeadsToTransitive(START, After(s, step), t);
  }

  lemma ReadKeepsLink(s: Loop, m: Message)
    requires s.net.table.Valid() && s.net.Sized()
    ensures ReadOne(s, m).link == s.link
  {
  }

  /** Without an answer read while its request is written, no step is a crossing. */
  lemma CrossingNeedsEarlyAnswer(s: Loop, step: Step)
    requires Reachable(s) && Possible(s, step) && s.net.table.Valid() && s.net.Sized() && Crossing(s, step)
    ensures s.HasCall() && s.Call().phase.Writing? && s.routine.Fetching?
    ensures s.Held().Some? || (step.message.Answer? && step.message.response.transacId == Some(s.Call().tid))
  {
    hide Inv;
    ReachableInv(s);
    InvTasks(s);
    if s.Held().Some? {
      HeldIsAnswer(s, s.Held().value);
    } else {
      AnswerHasItsId(s, step.message);
    }
  }

  lemma AnswerHasItsId(s: Loop, m: Message)
    requires NetOk(s) && m.Answer? && AnswersRoutine(s, m.response)
    ensures m.response.transacId == Some(s.Call().tid)
  {
    assert C.EntryOk(s.net, m.response.transacId.value);
  }
}
