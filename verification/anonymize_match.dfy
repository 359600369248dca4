/** The incremental matching of the walk refines matching whole paths. */
module AnonymizeMatch {
  import opened Collections
  import opened Policy
  import opened AnonymizeWalk

  /** One step down a body. The code reads an object key spelled `[]` as a list item. */
  datatype Step = Item | Member(key: string)

  function TextOf(step: Step): string {
    if step.Item? then LIST_ITEM else step.key
  }

  // ---- the reference: whole paths ----

  predicate StepMatches(segment: string, step: Step) {
    if TextOf(step) == LIST_ITEM then segment == LIST_ITEM
    else segment != LIST_ITEM && SegmentMatches(segment, step.key)
  }

  predicate PrefixMatches(segments: seq<string>, steps: seq<Step>) {
    |steps| <= |segments| && forall i :: 0 <= i < |steps| ==> StepMatches(segments[i], steps[i])
  }

  /** The path leads exactly where the segments say. */
  predicate Matches(segments: seq<string>, steps: seq<Step>) {
    |segments| == |steps| && PrefixMatches(segments, steps)
  }

  // ---- the walk down the steps ----

  function StepDown(p: Position, step: Step, outKey: string): Position {
    if step.Item? then ItemChild(p) else KeyChild(p, step.key, outKey)
  }

  /** The position reached by `steps`, their keys written out as `outKeys`. */
  function PositionAt(policy: EndpointPolicy, steps: seq<Step>, outKeys: seq<string>): Position
    requires |outKeys| == |steps|
  {
    if steps == [] then Root(policy)
    else
      var n := |steps| - 1;
      StepDown(PositionAt(policy, steps[..n], outKeys[..n]), steps[n], outKeys[n])
  }

  // ---- active rules are those whose path has matched so far ----

  function ActiveRules(rules: seq<Rule>, steps: seq<Step>): seq<(Rule, nat)> {
    if rules == [] then []
    else
      var last := rules[|rules| - 1];
      ActiveRules(rules[..|rules| - 1], steps) +
      if PrefixMatches(SegmentsOf(last), steps) then [(last, |steps|)] else []
  }

  function ActivePaths(paths: seq<string>, steps: seq<Step>): seq<(seq<string>, nat)> {
    if paths == [] then []
    else
      var segments := ParsePath(paths[|paths| - 1]);
      ActivePaths(paths[..|paths| - 1], steps) +
      if PrefixMatches(segments, steps) then [(segments, |steps|)] else []
  }

  lemma PrefixSnoc(segments: seq<string>, steps: seq<Step>, step: Step)
    ensures PrefixMatches(segments, steps + [step]) <==>
            PrefixMatches(segments, steps) && |steps| < |segments| && StepMatches(segments[|steps|], step)
  {
    var longer := steps + [step];
    assert forall i :: 0 <= i < |steps| ==> longer[i] == steps[i];
    assert longer[|steps|] == step;
  }

  function KeyArgument(step: Step): string {
    if step.Item? then "" else step.key
  }

  lemma FollowsIsStep(segments: seq<string>, position: nat, step: Step)
    ensures Follows(segments, position, TextOf(step), KeyArgument(step)) <==>
            position < |segments| && StepMatches(segments[position], step)
  {
  }

  lemma FollowRulesSnoc(active: seq<(Rule, nat)>, rule: Rule, position: nat, segment: string, key: string)
    ensures FollowRules(active + [(rule, position)], segment, key) ==
            FollowRules(active, segment, key) +
            if Follows(SegmentsOf(rule), position, segment, key) then [(rule, position + 1)] else []
  {
    assert (active + [(rule, position)])[..|active|] == active;
  }

  /** One rule: active after the step exactly when it was and its next segment matches. */
  lemma FollowOne(active: seq<(Rule, nat)>, rule: Rule, steps: seq<Step>, step: Step)
    ensures var last := if PrefixMatches(SegmentsOf(rule), steps) then [(rule, |steps|)] else [];
            FollowRules(active + last, TextOf(step), KeyArgument(step)) ==
            FollowRules(active, TextOf(step), KeyArgument(step)) +
            if PrefixMatches(SegmentsOf(rule), steps + [step]) then [(rule, |steps| + 1)] else []
  {
    var segments := SegmentsOf(rule);
    PrefixSnoc(segments, steps, step);
    FollowsIsStep(segments, |steps|, step);
    FollowRulesSnoc(active, rule, |steps|, TextOf(step), KeyArgument(step));
    var followed := FollowRules(active, TextOf(step), KeyArgument(step));
    assert followed + [] == followed;
    assert active + [] == active;
  }

  lemma {:induction false} FollowActive(rules: seq<Rule>, steps: seq<Step>, step: Step)
    ensures FollowRules(ActiveRules(rules, steps), TextOf(step), KeyArgument(step)) ==
            ActiveRules(rules, steps + [step])
  {
    if rules != [] {
      FollowActive(rules[..|rules| - 1], steps, step);
      FollowOne(ActiveRules(rules[..|rules| - 1], steps), rules[|rules| - 1], steps, step);
    }
  }

  lemma FollowPathsSnoc(active: seq<(seq<string>, nat)>, segments: seq<string>, position: nat, segment: string,
                        key: string)
    ensures FollowPaths(active + [(segments, position)], segment, key) ==
            FollowPaths(active, segment, key) +
            if Follows(segments, position, segment, key) then [(segments, position + 1)] else []
  {
    assert (active + [(segments, position)])[..|active|] == active;
  }

  lemma FollowOnePath(active: seq<(seq<string>, nat)>, segments: seq<string>, steps: seq<Step>, step: Step)
    ensures var last := if PrefixMatches(segments, steps) then [(segments, |steps|)] else [];
            FollowPaths(active + last, TextOf(step), KeyArgument(step)) ==
            FollowPaths(active, TextOf(step), KeyArgument(step)) +
            if PrefixMatches(segments, steps + [step]) then [(segments, |steps| + 1)] else []
  {
    PrefixSnoc(segments, steps, step);
    FollowsIsStep(segments, |steps|, step);
    FollowPathsSnoc(active, segments, |steps|, TextOf(step), KeyArgument(step));
    var followed := FollowPaths(active, TextOf(step), KeyArgument(step));
    assert followed + [] == followed;
    assert active + [] == active;
  }

  lemma {:induction false} FollowActivePaths(paths: seq<string>, steps: seq<Step>, step: Step)
    ensures FollowPaths(ActivePaths(paths, steps), TextOf(step), KeyArgument(step)) ==
            ActivePaths(paths, steps + [step])
  {
    if paths != [] {
      FollowActivePaths(paths[..|paths| - 1], steps, step);
      FollowOnePath(ActivePaths(paths[..|paths| - 1], steps), ParsePath(paths[|paths| - 1]), steps, step);
    }
  }

  lemma {:induction false} RootRules(rules: seq<Rule>)
    ensures |ActiveRules(rules, [])| == |rules|
    ensures forall i :: 0 <= i < |rules| ==> ActiveRules(rules, [])[i] == (rules[i], 0)
  {
    if rules != [] {
      RootRules(rules[..|rules| - 1]);
      assert PrefixMatches(SegmentsOf(rules[|rules| - 1]), []);
    }
  }

  lemma {:induction false} RootPaths(paths: seq<string>)
    ensures |ActivePaths(paths, [])| == |paths|
    ensures forall i :: 0 <= i < |paths| ==> ActivePaths(paths, [])[i] == (ParsePath(paths[i]), 0)
  {
    if paths != [] {
      RootPaths(paths[..|paths| - 1]);
      assert PrefixMatches(ParsePath(paths[|paths| - 1]), []);
    }
  }

  // ---- complete rules and opaque paths ----

  /** The first rule, in policy order, whose whole path matches. */
  function FirstMatch(rules: seq<Rule>, steps: seq<Step>): Option<Rule> {
    if rules == [] then None
    else if Matches(SegmentsOf(rules[0]), steps) then Some(rules[0])
    else FirstMatch(rules[1..], steps)
  }

  lemma {:induction false} ActiveConcat(a: seq<Rule>, b: seq<Rule>, steps: seq<Step>)
    ensures ActiveRules(a + b, steps) == ActiveRules(a, steps) + ActiveRules(b, steps)
  {
    if b == [] {
      assert a + b == a;
      assert ActiveRules(a, steps) + [] == ActiveRules(a, steps);
    } else {
      var last := b[|b| - 1];
      ActiveConcat(a, b[..|b| - 1], steps);
      assert (a + b)[..|a + b| - 1] == a + b[..|b| - 1] && (a + b)[|a + b| - 1] == last;
      Associative(ActiveRules(a, steps), ActiveRules(b[..|b| - 1], steps),
                  if PrefixMatches(SegmentsOf(last), steps) then [(last, |steps|)] else []);
    }
  }

  lemma {:induction false} CompleteIsFirstMatch(rules: seq<Rule>, steps: seq<Step>)
    ensures CompleteRule(ActiveRules(rules, steps)) == FirstMatch(rules, steps)
  {
    if rules != [] {
      var head, rest := [rules[0]], rules[1..];
      CompleteIsFirstMatch(rest, steps);
      ActiveConcat(head, rest, steps);
      assert rules == head + rest;
      assert head[..0] == [];
      if PrefixMatches(SegmentsOf(rules[0]), steps) {
        assert ActiveRules(head, steps) == [(rules[0], |steps|)];
        assert ([(rules[0], |steps|)] + ActiveRules(rest, steps))[1..] == ActiveRules(rest, steps);
      } else {
        assert ActiveRules(head, steps) == [];
        assert [] + ActiveRules(rest, steps) == ActiveRules(rest, steps);
      }
    }
  }

  /** Some non-empty prefix of the steps is an opaque path. */
  ghost predicate UnderOpaque(paths: seq<string>, steps: seq<Step>) {
    exists n :: 1 <= n <= |steps| && SomeMatches(paths, steps[..n])
  }

  predicate SomeMatches(paths: seq<string>, steps: seq<Step>) {
    exists i :: 0 <= i < |paths| && Matches(ParsePath(paths[i]), steps)
  }

  predicate SomeEnds(paths: seq<(seq<string>, nat)>) {
    exists i :: 0 <= i < |paths| && paths[i].1 == |paths[i].0|
  }

  lemma {:induction false} EndsIffMatches(paths: seq<string>, steps: seq<Step>)
    ensures SomeEnds(ActivePaths(paths, steps)) <==> SomeMatches(paths, steps)
  {
    if paths != [] {
      var n := |paths| - 1;
      var init := paths[..n];
      EndsIffMatches(init, steps);
      var active, segments := ActivePaths(init, steps), ParsePath(paths[n]);
      assert SomeMatches(paths, steps) <==> SomeMatches(init, steps) || Matches(segments, steps) by {
        assert forall i :: 0 <= i < n ==> init[i] == paths[i];
      }
      if PrefixMatches(segments, steps) {
        var longer := active + [(segments, |steps|)];
        assert forall i :: 0 <= i < |active| ==> longer[i] == active[i];
        assert longer[|active|] == (segments, |steps|);
      } else {
        assert active + [] == active;
      }
    }
  }

  lemma UnderOpaqueSnoc(paths: seq<string>, steps: seq<Step>, step: Step)
    ensures UnderOpaque(paths, steps + [step]) <==> UnderOpaque(paths, steps) || SomeMatches(paths, steps + [step])
  {
    var longer := steps + [step];
    assert longer[..|longer|] == longer;
    assert forall n :: 1 <= n <= |steps| ==> longer[..n] == steps[..n];
    if UnderOpaque(paths, steps) {
      var n :| 1 <= n <= |steps| && SomeMatches(paths, steps[..n]);
      assert SomeMatches(paths, longer[..n]);
    }
    if UnderOpaque(paths, longer) {
      var n :| 1 <= n <= |longer| && SomeMatches(paths, longer[..n]);
      assert n <= |steps| ==> SomeMatches(paths, steps[..n]);
    }
  }

  /** The position is that of the active rules and opaque paths of `steps`. */
  predicate IsActive(p: Position, policy: EndpointPolicy, steps: seq<Step>) {
    p.rules == ActiveRules(policy.rules, steps) && p.opaquePaths == ActivePaths(policy.opaquePaths, steps)
  }

  lemma RootIsActive(policy: EndpointPolicy)
    ensures IsActive(Root(policy), policy, [])
  {
    RootRules(policy.rules);
    RootPaths(policy.opaquePaths);
    assert Root(policy).rules == ActiveRules(policy.rules, []);
    assert Root(policy).opaquePaths == ActivePaths(policy.opaquePaths, []);
  }

  lemma StepDownIsActive(p: Position, policy: EndpointPolicy, steps: seq<Step>, step: Step, outKey: string)
    requires IsActive(p, policy, steps)
    ensures IsActive(StepDown(p, step, outKey), policy, steps + [step])
    ensures StepDown(p, step, outKey).hidden <==> p.hidden || SomeMatches(policy.opaquePaths, steps + [step])
  {
    FollowActive(policy.rules, steps, step);
    FollowActivePaths(policy.opaquePaths, steps, step);
    EndsIffMatches(policy.opaquePaths, steps + [step]);
  }

  lemma {:induction false} PositionIsActive(policy: EndpointPolicy, steps: seq<Step>, outKeys: seq<string>)
    requires |outKeys| == |steps|
    ensures IsActive(PositionAt(policy, steps, outKeys), policy, steps)
    ensures PositionAt(policy, steps, outKeys).hidden <==> UnderOpaque(policy.opaquePaths, steps)
  {
    if steps == [] {
      RootIsActive(policy);
    } else {
      var n := |steps| - 1;
      var init, step := steps[..n], steps[n];
      PositionIsActive(policy, init, outKeys[..n]);
      assert steps == init + [step];
      StepDownIsActive(PositionAt(policy, init, outKeys[..n]), policy, init, step, outKeys[n]);
      UnderOpaqueSnoc(policy.opaquePaths, init, step);
    }
  }

  /**
   At the node any path leads to, `complete_rule` is the first rule in policy order whose
   parsed path matches the whole path, and the node is opaque exactly when some non-empty
   prefix of the path matches an opaque path.
   */
  lemma WalkRefinesWholePaths(policy: EndpointPolicy, steps: seq<Step>, outKeys: seq<string>)
    requires |outKeys| == |steps|
    ensures CompleteRule(PositionAt(policy, steps, outKeys).rules) == FirstMatch(policy.rules, steps)
    ensures PositionAt(policy, steps, outKeys).hidden <==> UnderOpaque(policy.opaquePaths, steps)
  {
    PositionIsActive(policy, steps, outKeys);
    CompleteIsFirstMatch(policy.rules, steps);
  }

  /** What being the first match means. */
  lemma {:induction false} FirstMatchIsFirst(rules: seq<Rule>, steps: seq<Step>, rule: Rule)
    ensures FirstMatch(rules, steps) == Some(rule) <==>
            exists i :: 0 <= i < |rules| && rules[i] == rule && Matches(SegmentsOf(rule), steps)
                        && forall j :: 0 <= j < i ==> !Matches(SegmentsOf(rules[j]), steps)
  {
    if rules != [] {
      var rest := rules[1..];
      FirstMatchIsFirst(rest, steps, rule);
      assert forall i :: 0 <= i < |rest| ==> rest[i] == rules[i + 1];
      if Matches(SegmentsOf(rules[0]), steps) {
        assert FirstMatch(rules, steps) == Some(rules[0]);
      } else if FirstMatch(rest, steps) == Some(rule) {
        var i :| 0 <= i < |rest| && rest[i] == rule && Matches(SegmentsOf(rule), steps)
                 && forall j :: 0 <= j < i ==> !Matches(SegmentsOf(rest[j]), steps);
        assert rules[i + 1] == rule;
        forall j | 0 <= j < i + 1
          ensures !Matches(SegmentsOf(rules[j]), steps)
        {
          assert j == 0 || rest[j - 1] == rules[j];
        }
      } else if i :| 0 <= i < |rules| && rules[i] == rule && Matches(SegmentsOf(rule), steps)
                     && forall j :: 0 <= j < i ==> !Matches(SegmentsOf(rules[j]), steps) {
        assert rest[i - 1] == rule;
        assert forall j :: 0 <= j < i - 1 ==> rest[j] == rules[j + 1];
      }
    }
  }
}
