/** Runs of the event loop: what is reachable, and that no reachable state is stuck. */
module EventLoopRuns {
  import opened EventLoop
  import opened EventLoopInv

  ghost predicate LegalFrom(s: Loop, steps: seq<Step>)
    decreases |steps|, 0
  {
    steps != [] ==>
      LegalFrom(s, steps[..|steps| - 1])
      && StateFrom(s, steps[..|steps| - 1]).net.table.Valid()
      && StateFrom(s, steps[..|steps| - 1]).net.Sized()
      && Possible(StateFrom(s, steps[..|steps| - 1]), steps[|steps| - 1])
  }

  ghost function StateFrom(s: Loop, steps: seq<Step>): Loop
    requires LegalFrom(s, steps)
    decreases |steps|, 1
  {
    if steps == [] then s else After(StateFrom(s, steps[..|steps| - 1]), steps[|steps| - 1])
  }

  /** Some run goes from the one state to the other. */
  ghost predicate LeadsTo(s: Loop, t: Loop) {
    exists steps :: LegalFrom(s, steps) && StateFrom(s, steps) == t
  }

  ghost predicate Reachable(s: Loop) {
    LeadsTo(START, s)
  }

  /** Every run keeps the invariant; in particular the routine never escapes. */
  lemma {:induction false} RunsKeepInv(s: Loop, steps: seq<Step>)
    requires Inv(s) && LegalFrom(s, steps)
    ensures Inv(StateFrom(s, steps))
    decreases |steps|
  {
    hide Inv, After, Possible;
    if steps != [] {
      RunsKeepInv(s, steps[..|steps| - 1]);
      StepKeepsInv(StateFrom(s, steps[..|steps| - 1]), steps[|steps| - 1]);
    }
  }

  lemma StartIsInv()
    ensures Inv(START)
  {
  }

  lemma ReachableInv(s: Loop)
    requires Reachable(s)
    ensures Inv(s) && s.net.table.Valid() && s.net.Sized()
  {
    hide Inv, After;
    var steps :| LegalFrom(START, steps) && StateFrom(START, steps) == s;
    StartIsInv();
    RunsKeepInv(START, steps);
    InvNet(s);
    NetFacts(s);
  }

  lemma LeadsToItself(s: Loop)
    ensures LeadsTo(s, s)
  {
    assert LegalFrom(s, []) && StateFrom(s, []) == s;
  }

  /** Any possible step extends a run: the other conditions of `LegalFrom` exclude none. */
  lemma LeadsToNext(s: Loop, t: Loop, step: Step)
    requires LeadsTo(s, t) && Inv(t) && Possible(t, step)
    ensures t.net.table.Valid() && t.net.Sized() && LeadsTo(s, After(t, step)) && Inv(After(t, step))
  {
    hide Inv, After, Possible;
    StepKeepsInv(t, step);
    var steps :| LegalFrom(s, steps) && StateFrom(s, steps) == t;
    assert (steps + [step])[..|steps|] == steps;
    assert LegalFrom(s, steps + [step]) && StateFrom(s, steps + [step]) == After(t, step);
  }

  lemma {:induction false} RunsConcat(s: Loop, a: seq<Step>, b: seq<Step>)
    requires LegalFrom(s, a) && LegalFrom(StateFrom(s, a), b)
    ensures LegalFrom(s, a + b) && StateFrom(s, a + b) == StateFrom(StateFrom(s, a), b)
    decreases |b|
  {
    hide After, Possible;
    if b == [] {
      assert a + b == a;
    } else {
      var init := b[..|b| - 1];
      RunsConcat(s, a, init);
      assert (a + b)[..|a + b| - 1] == a + init && (a + b)[|a + b| - 1] == b[|b| - 1];
    }
  }

  lemma LeadsToTransitive(s: Loop, t: Loop, u: Loop)
    requires LeadsTo(s, t) && LeadsTo(t, u)
    ensures LeadsTo(s, u)
  {
    hide After, Possible;
    var a :| LegalFrom(s, a) && StateFrom(s, a) == t;
    var b :| LegalFrom(t, b) && StateFrom(t, b) == u;
    RunsConcat(s, a, b);
  }

  lemma HeadPossible(s: Loop, now: int)
    requires Inv(s) && s.link.Up? && s.ready != []
    ensures Possible(s, Run(now))
  {
    assert ActionOk(s, s.ready[0]);
  }

  /** The head of the queue can always run: no task of a reachable state is stuck. */
  lemma HeadCanRun(s: Loop, now: int)
    requires Reachable(s) && s.link.Up? && s.ready != []
    ensures Possible(s, Run(now))
  {
    hide Inv, Possible;
    ReachableInv(s);
    HeadPossible(s, now);
  }
}
