/**
 The order in which messages take effect: which messages are accounted for in every run, and
 exactly which steps put them out of the order of the wire.
 */
module EventLoopOrder {
  import opened Collections
  import R = Responses
  import C = Client
  import opened CacheState
  import opened EventLoop
  import opened EventLoopInv
  import opened EventLoopRuns

  // ---- lists of messages ----

  /** The messages below `n` not in `gone`, in the order of the wire. */
  ghost function Kept(n: nat, gone: set<nat>): seq<nat> {
    if n == 0 then []
    else if n - 1 in gone then Kept(n - 1, gone)
    else Kept(n - 1, gone) + [n - 1]
  }

  ghost function Filter(xs: seq<nat>, out: set<nat>): seq<nat> {
    if xs == [] then []
    else Filter(xs[..|xs| - 1], out) + if xs[|xs| - 1] in out then [] else [xs[|xs| - 1]]
  }

  predicate Increasing(xs: seq<nat>) {
    forall i, j :: 0 <= i < j < |xs| ==> xs[i] < xs[j]
  }

  predicate Distinct(xs: seq<nat>) {
    forall i, j :: 0 <= i < j < |xs| ==> xs[i] != xs[j]
  }

  predicate IsPushAt(wire: seq<Message>, i: nat) {
    i < |wire| && IsPush(wire[i])
  }

  /** The pushes among the messages, or the others. */
  function Only(wire: seq<Message>, xs: seq<nat>, pushes: bool): seq<nat> {
    if xs == [] then []
    else
      var last := xs[|xs| - 1];
      Only(wire, xs[..|xs| - 1], pushes) + if IsPushAt(wire, last) == pushes then [last] else []
  }

  lemma {:induction false} KeptIncreases(n: nat, gone: set<nat>)
    ensures Increasing(Kept(n, gone))
    ensures forall i: nat :: i in Kept(n, gone) <==> i < n && i !in gone
  {
    if n > 0 {
      KeptIncreases(n - 1, gone);
      var init := Kept(n - 1, gone);
      assert forall i :: 0 <= i < |init| ==> init[i] in init;
    }
  }

  lemma {:induction false} FilterConcat(a: seq<nat>, b: seq<nat>, out: set<nat>)
    ensures Filter(a + b, out) == Filter(a, out) + Filter(b, out)
  {
    if b == [] {
      assert a + b == a;
      assert Filter(a, out) + [] == Filter(a, out);
    } else {
      FilterConcat(a, b[..|b| - 1], out);
      assert (a + b)[..|a + b| - 1] == a + b[..|b| - 1] && (a + b)[|a + b| - 1] == b[|b| - 1];
      Associative(Filter(a, out), Filter(b[..|b| - 1], out), if b[|b| - 1] in out then [] else [b[|b| - 1]]);
    }
  }

  lemma FilterSingle(x: nat, out: set<nat>)
    ensures Filter([x], out) == if x in out then [] else [x]
  {
    assert [x][..0] == [];
  }

  lemma {:induction false} FilterNone(xs: seq<nat>, out: set<nat>)
    requires forall i :: 0 <= i < |xs| ==> xs[i] !in out
    ensures Filter(xs, out) == xs
  {
    if xs != [] {
      FilterNone(xs[..|xs| - 1], out);
    }
  }

  lemma {:induction false} FilterAll(xs: seq<nat>, out: set<nat>)
    requires forall i :: 0 <= i < |xs| ==> xs[i] in out
    ensures Filter(xs, out) == []
  {
    if xs != [] {
      FilterAll(xs[..|xs| - 1], out);
    }
  }

  lemma {:induction false} FilterIncreases(xs: seq<nat>, out: set<nat>)
    requires Increasing(xs)
    ensures Increasing(Filter(xs, out)) && forall x :: x in Filter(xs, out) ==> x in xs
  {
    if xs != [] {
      var n := |xs| - 1;
      FilterIncreases(xs[..n], out);
      var init := Filter(xs[..n], out);
      forall i | 0 <= i < |init|
        ensures init[i] < xs[n]
      {
        assert init[i] in xs[..n];
      }
    }
  }

  lemma {:induction false} KeptFilters(n: nat, gone: set<nat>, out: set<nat>)
    ensures Kept(n, gone + out) == Filter(Kept(n, gone), out)
  {
    if n > 0 {
      KeptFilters(n - 1, gone, out);
      var init := Kept(n - 1, gone);
      if n - 1 !in gone {
        FilterConcat(init, [n - 1], out);
        FilterSingle(n - 1, out);
        assert Filter(init, out) + [] == Filter(init, out);
      }
    }
  }

  lemma {:induction false} KeptLocal(n: nat, gone: set<nat>, other: set<nat>)
    requires forall i: nat :: i < n ==> (i in gone <==> i in other)
    ensures Kept(n, gone) == Kept(n, other)
  {
    if n > 0 {
      KeptLocal(n - 1, gone, other);
    }
  }

  lemma {:induction false} OnlyConcat(wire: seq<Message>, a: seq<nat>, b: seq<nat>, pushes: bool)
    ensures Only(wire, a + b, pushes) == Only(wire, a, pushes) + Only(wire, b, pushes)
  {
    if b == [] {
      assert a + b == a;
      assert Only(wire, a, pushes) + [] == Only(wire, a, pushes);
    } else {
      var n := |b| - 1;
      OnlyConcat(wire, a, b[..n], pushes);
      assert (a + b)[..|a + b| - 1] == a + b[..n] && (a + b)[|a + b| - 1] == b[n];
      Associative(Only(wire, a, pushes), Only(wire, b[..n], pushes),
                  if IsPushAt(wire, b[n]) == pushes then [b[n]] else []);
    }
  }

  lemma OnlySingle(wire: seq<Message>, x: nat, pushes: bool)
    ensures Only(wire, [x], pushes) == if IsPushAt(wire, x) == pushes then [x] else []
  {
    assert [x][..0] == [];
  }

  lemma {:induction false} OnlyMembers(wire: seq<Message>, xs: seq<nat>, pushes: bool)
    ensures forall x :: x in Only(wire, xs, pushes) <==> x in xs && IsPushAt(wire, x) == pushes
  {
    if xs != [] {
      var n := |xs| - 1;
      OnlyMembers(wire, xs[..n], pushes);
      assert xs == xs[..n] + [xs[n]];
    }
  }

  lemma {:induction false} OnlyNone(wire: seq<Message>, xs: seq<nat>, pushes: bool)
    requires forall i :: 0 <= i < |xs| ==> IsPushAt(wire, xs[i]) != pushes
    ensures Only(wire, xs, pushes) == []
  {
    if xs != [] {
      OnlyNone(wire, xs[..|xs| - 1], pushes);
    }
  }

  lemma {:induction false} OnlyFilter(wire: seq<Message>, xs: seq<nat>, out: set<nat>, pushes: bool)
    ensures Only(wire, Filter(xs, out), pushes) == Filter(Only(wire, xs, pushes), out)
  {
    if xs != [] {
      var n := |xs| - 1;
      var init, last := Filter(xs[..n], out), xs[n];
      OnlyFilter(wire, xs[..n], out, pushes);
      OnlyConcat(wire, init, if last in out then [] else [last], pushes);
      OnlySingle(wire, last, pushes);
      FilterConcat(Only(wire, xs[..n], pushes), if IsPushAt(wire, last) == pushes then [last] else [], out);
      FilterSingle(last, out);
    }
  }

  lemma {:induction false} OnlyGrows(wire: seq<Message>, m: Message, xs: seq<nat>, pushes: bool)
    requires forall i :: 0 <= i < |xs| ==> xs[i] < |wire|
    ensures Only(wire + [m], xs, pushes) == Only(wire, xs, pushes)
  {
    if xs != [] {
      OnlyGrows(wire, m, xs[..|xs| - 1], pushes);
    }
  }

  lemma {:induction false} OnlyIncreases(wire: seq<Message>, xs: seq<nat>, pushes: bool)
    requires Increasing(xs)
    ensures Increasing(Only(wire, xs, pushes))
  {
    if xs != [] {
      var n := |xs| - 1;
      OnlyIncreases(wire, xs[..n], pushes);
      OnlyMembers(wire, xs[..n], pushes);
      var init := Only(wire, xs[..n], pushes);
      forall i | 0 <= i < |init|
        ensures init[i] < xs[n]
      {
        assert init[i] in xs[..n];
      }
    }
  }

  lemma EmptyTogether(a: seq<nat>, b: seq<nat>)
    requires forall x :: x in a <==> x in b
    ensures a == [] <==> b == []
  {
    if a != [] {
      assert a[0] in a;
    }
    if b != [] {
      assert b[0] in b;
    }
  }

  lemma {:induction false} IncreasingAreEqual(a: seq<nat>, b: seq<nat>)
    requires Increasing(a) && Increasing(b) && forall x :: x in a <==> x in b
    ensures a == b
  {
    EmptyTogether(a, b);
    if a != [] {
      var m, n := |a| - 1, |b| - 1;
      assert a[m] in b && b[n] in a;
      assert a[m] == b[n];
      forall x
        ensures x in a[..m] <==> x in b[..n]
      {
        InitKeeps(a, x);
        InitKeeps(b, x);
      }
      IncreasingAreEqual(a[..m], b[..n]);
      assert a == a[..m] + [a[m]] && b == b[..n] + [b[n]];
    }
  }

  lemma InitKeeps(xs: seq<nat>, x: nat)
    requires xs != [] && Increasing(xs)
    ensures x in xs[..|xs| - 1] <==> x in xs && x != xs[|xs| - 1]
  {
    assert xs == xs[..|xs| - 1] + [xs[|xs| - 1]];
  }

  // ---- what took effect and what is due ----

  /** The messages applied, then those due, in order of effect. */
  function Effects(s: Loop): seq<nat> {
    s.applied + Due(s)
  }

  function Gone(s: Loop): set<nat> {
    s.unused + s.lost
  }

  /**
   Pushes take effect in the order of the wire, and so do answers: those accepted, each once.
   Only how pushes and answers interleave is left open.
   */
  ghost predicate Accounted(s: Loop) {
    && (forall i :: 0 <= i < |Effects(s)| ==> Effects(s)[i] < |s.wire|)
    && (forall i :: i in Gone(s) ==> i < |s.wire|)
    && Only(s.wire, Effects(s), true) == Only(s.wire, Kept(|s.wire|, Gone(s)), true)
    && Only(s.wire, Effects(s), false) == Only(s.wire, Kept(|s.wire|, Gone(s)), false)
  }

  lemma AccountedMembers(s: Loop)
    requires Accounted(s)
    ensures forall i: nat :: i in Effects(s) <==> i < |s.wire| && i !in Gone(s)
  {
    var kept := Kept(|s.wire|, Gone(s));
    KeptIncreases(|s.wire|, Gone(s));
    forall i: nat
      ensures i in Effects(s) <==> i in kept
    {
      OnlyMembers(s.wire, Effects(s), IsPushAt(s.wire, i));
      OnlyMembers(s.wire, kept, IsPushAt(s.wire, i));
    }
  }

  lemma HalvesAreDisjoint(xs: seq<nat>, ys: seq<nat>, x: nat)
    requires Increasing(xs + ys) && x in xs
    ensures x !in ys
  {
    var i :| 0 <= i < |xs| && xs[i] == x;
    forall j | 0 <= j < |ys|
      ensures ys[j] != x
    {
      assert (xs + ys)[i] < (xs + ys)[|xs| + j];
    }
  }

  /** No message takes effect twice: what comes in one part of the effects does not come in another. */
  lemma PartsAreDisjoint(s: Loop, a: seq<nat>, b: seq<nat>, x: nat)
    requires Accounted(s) && Effects(s) == a + b && x in a
    ensures x !in b
  {
    var kind := IsPushAt(s.wire, x);
    KeptIncreases(|s.wire|, Gone(s));
    OnlyIncreases(s.wire, Kept(|s.wire|, Gone(s)), kind);
    OnlyConcat(s.wire, a, b, kind);
    OnlyMembers(s.wire, a, kind);
    OnlyMembers(s.wire, b, kind);
    HalvesAreDisjoint(Only(s.wire, a, kind), Only(s.wire, b, kind), x);
  }

  lemma AccountedDistinct(s: Loop)
    requires Accounted(s)
    ensures Distinct(Effects(s))
  {
    hide Accounted, Effects;
    var all := Effects(s);
    forall i, j | 0 <= i < j < |all|
      ensures all[i] != all[j]
    {
      assert all == all[..j] + all[j..];
      assert all[..j][i] == all[i] && all[j..][0] == all[j];
      PartsAreDisjoint(s, all[..j], all[j..], all[i]);
    }
  }

  // ---- what a step does to the effects ----

  /** Nothing is read, and nothing leaves. */
  ghost predicate Stays(s: Loop, t: Loop) {
    t.wire == s.wire && Gone(t) == Gone(s) && Effects(t) == Effects(s)
  }

  ghost predicate Drops(s: Loop, t: Loop, out: set<nat>) {
    && t.wire == s.wire && Gone(t) == Gone(s) + out && Effects(t) == Filter(Effects(s), out)
    && forall i :: i in out ==> i < |s.wire|
  }

  /** The message read has no effect. */
  ghost predicate Skips(s: Loop, t: Loop, m: Message) {
    t.wire == s.wire + [m] && Gone(t) == Gone(s) + {|s.wire|} && Effects(t) == Effects(s)
  }

  /** The message read is to take effect just before `behind`. */
  ghost predicate Joins(s: Loop, t: Loop, m: Message, front: seq<nat>, behind: seq<nat>) {
    && t.wire == s.wire + [m] && Gone(t) == Gone(s)
    && Effects(s) == front + behind && Effects(t) == front + [|s.wire|] + behind
  }

  lemma DropsAccounted(s: Loop, t: Loop, out: set<nat>)
    requires Accounted(s) && Drops(s, t, out)
    ensures Accounted(t)
  {
    hide Effects, Gone, Only, Kept, Filter;
    var kept := Kept(|s.wire|, Gone(s));
    KeptFilters(|s.wire|, Gone(s), out);
    OnlyFilter(s.wire, Effects(s), out, true);
    OnlyFilter(s.wire, Effects(s), out, false);
    OnlyFilter(s.wire, kept, out, true);
    OnlyFilter(s.wire, kept, out, false);
    FilterMembers(Effects(s), out);
    assert forall i :: 0 <= i < |Effects(t)| ==> Effects(t)[i] in Effects(t);
  }

  lemma {:induction false} FilterMembers(xs: seq<nat>, out: set<nat>)
    ensures forall x :: x in Filter(xs, out) <==> x in xs && x !in out
  {
    if xs != [] {
      var n := |xs| - 1;
      FilterMembers(xs[..n], out);
      assert xs == xs[..n] + [xs[n]];
    }
  }

  lemma SkipsAccounted(s: Loop, t: Loop, m: Message)
    requires Accounted(s) && Skips(s, t, m)
    ensures Accounted(t)
  {
    hide Effects, Gone;
    var n := |s.wire|;
    KeptLocal(n, Gone(s), Gone(t));
    KeptIsBelow(n, Gone(s));
    OnlyGrows(s.wire, m, Effects(s), true);
    OnlyGrows(s.wire, m, Effects(s), false);
    OnlyGrows(s.wire, m, Kept(n, Gone(s)), true);
    OnlyGrows(s.wire, m, Kept(n, Gone(s)), false);
  }

  lemma KeptIsBelow(n: nat, gone: set<nat>)
    ensures forall i :: 0 <= i < |Kept(n, gone)| ==> Kept(n, gone)[i] < n
  {
    KeptIncreases(n, gone);
    assert forall i :: 0 <= i < |Kept(n, gone)| ==> Kept(n, gone)[i] in Kept(n, gone);
  }

  /** Of one kind of message: joined at the end when `behind` has none of its kind. */
  lemma JoinsOnly(wire: seq<Message>, m: Message, front: seq<nat>, behind: seq<nat>, kept: seq<nat>, pushes: bool)
    requires forall i :: 0 <= i < |front| ==> front[i] < |wire|
    requires forall i :: 0 <= i < |behind| ==> behind[i] < |wire|
    requires forall i :: 0 <= i < |kept| ==> kept[i] < |wire|
    requires Only(wire, front + behind, pushes) == Only(wire, kept, pushes)
    requires IsPush(m) == pushes ==> Only(wire, behind, pushes) == []
    ensures Only(wire + [m], front + [|wire|] + behind, pushes) == Only(wire + [m], kept + [|wire|], pushes)
  {
    hide *;
    OnlyOfJoined(wire, m, front, behind, pushes);
    OnlyOfNew(wire, m, kept, pushes);
  }

  lemma OnlyOfJoined(wire: seq<Message>, m: Message, front: seq<nat>, behind: seq<nat>, pushes: bool)
    requires forall i :: 0 <= i < |front| ==> front[i] < |wire|
    requires forall i :: 0 <= i < |behind| ==> behind[i] < |wire|
    requires IsPush(m) == pushes ==> Only(wire, behind, pushes) == []
    ensures Only(wire + [m], front + [|wire|] + behind, pushes) ==
            Only(wire, front + behind, pushes) + if IsPush(m) == pushes then [|wire|] else []
  {
    hide *;
    var at := if IsPush(m) == pushes then [|wire|] else [];
    OnlyConcat(wire, front, behind, pushes);
    OnlyOfNew(wire, m, front, pushes);
    OnlyConcat(wire + [m], front + [|wire|], behind, pushes);
    OnlyGrows(wire, m, behind, pushes);
    AtTheEnd(Only(wire, front, pushes), at, Only(wire, behind, pushes));
  }

  lemma OnlyOfNew(wire: seq<Message>, m: Message, xs: seq<nat>, pushes: bool)
    requires forall i :: 0 <= i < |xs| ==> xs[i] < |wire|
    ensures Only(wire + [m], xs + [|wire|], pushes) ==
            Only(wire, xs, pushes) + if IsPush(m) == pushes then [|wire|] else []
  {
    OnlyConcat(wire + [m], xs, [|wire|], pushes);
    OnlySingle(wire + [m], |wire|, pushes);
    OnlyGrows(wire, m, xs, pushes);
  }

  lemma AtTheEnd(a: seq<nat>, at: seq<nat>, b: seq<nat>)
    requires at == [] || b == []
    ensures a + at + b == a + b + at
  {
  }

  lemma BoundedParts(front: seq<nat>, behind: seq<nat>, n: nat)
    requires forall i :: 0 <= i < |front + behind| ==> (front + behind)[i] < n
    ensures forall i :: 0 <= i < |front| ==> front[i] < n
    ensures forall i :: 0 <= i < |behind| ==> behind[i] < n
  {
    assert forall i :: 0 <= i < |front| ==> (front + behind)[i] == front[i];
    assert forall i :: 0 <= i < |behind| ==> (front + behind)[|front| + i] == behind[i];
  }

  lemma JoinedBounded(front: seq<nat>, behind: seq<nat>, n: nat)
    requires forall i :: 0 <= i < |front| ==> front[i] < n
    requires forall i :: 0 <= i < |behind| ==> behind[i] < n
    ensures forall i :: 0 <= i < |front + [n] + behind| ==> (front + [n] + behind)[i] < n + 1
  {
  }

  lemma KeptNext(n: nat, gone: set<nat>)
    requires n !in gone
    ensures Kept(n + 1, gone) == Kept(n, gone) + [n]
  {
  }

  lemma JoinsAccounted(s: Loop, t: Loop, m: Message, front: seq<nat>, behind: seq<nat>)
    requires Accounted(s) && Joins(s, t, m, front, behind)
    requires Only(s.wire, behind, IsPush(m)) == []
    ensures Accounted(t)
  {
    hide Effects, Gone, Only, Kept;
    var n, kept := |s.wire|, Kept(|s.wire|, Gone(s));
    KeptIsBelow(n, Gone(s));
    BoundedParts(front, behind, n);
    JoinedBounded(front, behind, n);
    JoinsOnly(s.wire, m, front, behind, kept, true);
    JoinsOnly(s.wire, m, front, behind, kept, false);
    KeptNext(n, Gone(s));
  }

  // ---- the queue ----

  lemma {:induction false} DueInConcat(a: seq<Action>, b: seq<Action>, held: Option<nat>)
    ensures DueIn(a + b, held) == DueIn(a, held) + DueIn(b, held)
  {
    if a == [] {
      assert a + b == b;
    } else {
      DueInConcat(a[1..], b, held);
      assert (a + b)[1..] == a[1..] + b && (a + b)[0] == a[0];
      Associative(if a[0].WriteDone? then Listed(held) else MessageOf(a[0]), DueIn(a[1..], held), DueIn(b, held));
    }
  }

  lemma DueInSnoc(ready: seq<Action>, a: Action, held: Option<nat>)
    ensures DueIn(ready + [a], held) == DueIn(ready, held) + if a.WriteDone? then Listed(held) else MessageOf(a)
  {
    DueInConcat(ready, [a], held);
    assert [a][1..] == [];
    assert DueIn([a], held) == (if a.WriteDone? then Listed(held) else MessageOf(a)) + [];
  }

  lemma {:induction false} DueInUnwritten(ready: seq<Action>, held: Option<nat>, other: Option<nat>)
    requires forall i :: 0 <= i < |ready| ==> !ready[i].WriteDone?
    ensures DueIn(ready, held) == DueIn(ready, other)
  {
    if ready != [] {
      DueInUnwritten(ready[1..], held, other);
    }
  }

  /** What is queued behind the return of the write. */
  function AfterWrite(ready: seq<Action>): seq<Action> {
    if ready == [] then [] else if ready[0].WriteDone? then ready[1..] else AfterWrite(ready[1..])
  }

  function BeforeWrite(ready: seq<Action>): (before: seq<Action>)
    ensures forall i :: 0 <= i < |before| ==> !before[i].WriteDone?
  {
    if ready == [] || ready[0].WriteDone? then [] else [ready[0]] + BeforeWrite(ready[1..])
  }

  lemma {:induction false} SplitAtWrite(ready: seq<Action>)
    ensures WriteDone in ready ==> ready == BeforeWrite(ready) + [WriteDone] + AfterWrite(ready)
    ensures WriteDone !in ready ==> ready == BeforeWrite(ready) && AfterWrite(ready) == []
  {
    if ready != [] && !ready[0].WriteDone? {
      SplitAtWrite(ready[1..]);
      assert ready == [ready[0]] + ready[1..];
    }
  }

  lemma {:induction false} DueInMembers(ready: seq<Action>, held: Option<nat>, i: nat)
    requires i in DueIn(ready, held)
    ensures exists a :: a in ready && (if a.WriteDone? then held == Some(i) else i in MessageOf(a))
  {
    if i !in (if ready[0].WriteDone? then Listed(held) else MessageOf(ready[0])) {
      DueInMembers(ready[1..], held, i);
    } else {
      assert ready[0] in ready;
    }
  }

  /** All that is due was read before: pushes, and the answer to the routine's request. */
  lemma DueIsRead(s: Loop, i: nat)
    requires QueueOk(s) && RoutineOk(s) && i in Due(s)
    ensures i < |s.wire|
  {
    hide Answerable;
    if s.Held() == Some(i) {
      HeldIsAnswer(s, i);
    } else {
      DueInMembers(s.ready, s.Held(), i);
      var a :| a in s.ready && (if a.WriteDone? then s.Held() == Some(i) else i in MessageOf(a));
      assert ActionOk(s, a);
    }
  }

  lemma HeldIsAnswer(s: Loop, i: nat)
    requires RoutineOk(s) && s.Held() == Some(i)
    ensures i < |s.wire| && s.wire[i].Answer? && s.link.Up? && s.HasCall() && s.Call().phase.Writing?
    ensures Answerable(s) && IsItsAnswer(s, i) && s.net.Live(s.routine.call)
  {
  }

  // ---- reading ----

  /** The message will take effect, unless it is dropped. */
  ghost predicate Counts(s: Loop, m: Message)
    requires s.net.table.Valid() && s.net.Sized()
  {
    match m
    case Ignored => false
    case Answer(response) => AnswersRoutine(s, response)
    case _ => true
  }

  lemma ReadSkips(s: Loop, m: Message)
    requires Inv(s) && s.link.Up? && s.net.table.Valid() && s.net.Sized() && !Counts(s, m)
    ensures Skips(s, ReadOne(s, m), m)
  {
    hide Inv, C.Next, AnswersRoutine;
    var t := ReadOne(s, m);
    if m.Answer? {
      DueInSnoc(s.ready, Wake(None), s.Held());
      assert DueIn(s.ready, s.Held()) + [] == DueIn(s.ready, s.Held());
      assert s.ready + [] == s.ready;
      assert WriteDone in t.ready <==> WriteDone in s.ready;
    }
  }

  lemma JoinsDue(s: Loop, t: Loop, m: Message, front: seq<nat>, behind: seq<nat>)
    requires t.wire == s.wire + [m] && Gone(t) == Gone(s) && t.applied == s.applied
    requires Due(s) == front + behind && Due(t) == front + [|s.wire|] + behind
    ensures Joins(s, t, m, s.applied + front, behind)
  {
    hide Due;
    Associative(s.applied, front, behind);
    Associative(s.applied, front, [|s.wire|]);
    Associative(s.applied, front + [|s.wire|], behind);
  }

  /** A push takes effect before an answer in hand whose write is not queued. */
  lemma PushJoins(s: Loop, m: Message)
    requires IsPush(m) && s.net.table.Valid() && s.net.Sized()
    ensures var behind := if WriteDone in s.ready then [] else Listed(s.Held());
            Joins(s, ReadOne(s, m), m, s.applied + DueIn(s.ready, s.Held()), behind)
  {
    var t, n := ReadOne(s, m), |s.wire|;
    var due, behind := DueIn(s.ready, s.Held()), if WriteDone in s.ready then [] else Listed(s.Held());
    DueInSnoc(s.ready, Handle(n), s.Held());
    assert WriteDone in t.ready <==> WriteDone in s.ready;
    JoinsDue(s, t, m, due, behind);
  }

  lemma WaitingAnswerJoins(s: Loop, response: R.Response)
    requires Inv(s) && s.link.Up? && s.net.table.Valid() && s.net.Sized()
    requires AnswersRoutine(s, response) && !s.Call().phase.Writing?
    ensures Joins(s, ReadOne(s, Answer(response)), Answer(response), Effects(s), [])
  {
    hide Inv, C.Next;
    OwnAnswerNet(s, response);
    HeldIsNone(s);
    var t, n := ReadOne(s, Answer(response)), |s.wire|;
    DueInSnoc(s.ready, Wake(Some(n)), None);
    assert WriteDone in t.ready <==> WriteDone in s.ready;
    var due := DueIn(s.ready, None);
    assert due + [] == due && due + [n] + [] == due + [n];
    JoinsDue(s, t, Answer(response), due, []);
  }

  lemma HeldIsNone(s: Loop)
    requires Inv(s) && s.HasCall() && s.Unsettled()
    ensures s.Held().None?
  {
    if s.routine.Fetching? {
      HeldIsSettled(s);
    }
  }

  /** The due messages with an answer taken in hand: it stands where the write returns. */
  lemma DueWithHeld(ready: seq<Action>, n: nat)
    requires WriteDone !in AfterWrite(ready)
    ensures var front, behind := DueIn(BeforeWrite(ready), None), DueIn(AfterWrite(ready), None);
            && DueIn(ready, None) == front + behind
            && (DueIn(ready, Some(n)) + if WriteDone in ready then [] else [n]) == front + [n] + behind
  {
    var before, after := BeforeWrite(ready), AfterWrite(ready);
    SplitAtWrite(ready);
    DueInUnwritten(before, Some(n), None);
    DueInUnwritten(after, Some(n), None);
    if WriteDone in ready {
      DueInConcat(before + [WriteDone], after, None);
      DueInConcat(before + [WriteDone], after, Some(n));
      DueInSnoc(before, WriteDone, None);
      DueInSnoc(before, WriteDone, Some(n));
      assert DueIn(before, None) + [] == DueIn(before, None);
    } else {
      assert DueIn(before, None) + [] == DueIn(before, None);
      assert DueIn(before, None) + [n] + [] == DueIn(before, None) + [n];
    }
  }

  lemma {:induction false} AfterWriteIsHandles(ready: seq<Action>)
    requires forall i, j :: 0 <= i < j < |ready| ==> ready[i].Handle? || ready[j].Handle?
    ensures forall a :: a in AfterWrite(ready) ==> a.Handle? && a in ready
  {
    if ready != [] {
      if ready[0].WriteDone? {
        assert forall i :: 0 <= i < |ready[1..]| ==> ready[1..][i] == ready[i + 1] && ready[i + 1].Handle?;
      } else {
        AfterWriteIsHandles(ready[1..]);
      }
    }
  }

  /** An answer read while its request is still written stands where the write returns. */
  lemma EarlyAnswerJoins(s: Loop, response: R.Response)
    requires Inv(s) && s.link.Up? && s.net.table.Valid() && s.net.Sized()
    requires AnswersRoutine(s, response) && s.Call().phase.Writing?
    ensures Joins(s, ReadOne(s, Answer(response)), Answer(response),
                  s.applied + DueIn(BeforeWrite(s.ready), None), DueIn(AfterWrite(s.ready), None))
  {
    hide C.Next, NetOk, RoutineOk, CacheOk, Folded, AttemptOk, UnusedOk, ActionOk;
    OwnAnswerNet(s, response);
    HeldIsNone(s);
    var t, n := ReadOne(s, Answer(response)), |s.wire|;
    AfterWriteIsHandles(s.ready);
    DueWithHeld(s.ready, n);
    var front, behind := DueIn(BeforeWrite(s.ready), None), DueIn(AfterWrite(s.ready), None);
    assert t.Held() == Some(n) && t.ready == s.ready;
    assert Due(s) == front + behind;
    JoinsDue(s, t, Answer(response), front, behind);
  }

  /** Only pushes are queued behind the return of the write. */
  lemma BehindWriteIsPushes(s: Loop)
    requires QueueOk(s)
    ensures Only(s.wire, DueIn(AfterWrite(s.ready), None), false) == []
  {
    AfterWriteIsHandles(s.ready);
    var behind := DueIn(AfterWrite(s.ready), None);
    forall i | 0 <= i < |behind|
      ensures IsPushAt(s.wire, behind[i])
    {
      DueInMembers(AfterWrite(s.ready), None, behind[i]);
      var a :| a in AfterWrite(s.ready) && behind[i] in MessageOf(a);
      assert ActionOk(s, a);
    }
    OnlyNone(s.wire, behind, false);
  }

  lemma HeldIsNoPush(s: Loop)
    requires RoutineOk(s)
    ensures Only(s.wire, Listed(s.Held()), true) == []
  {
    if s.Held().Some? {
      HeldIsAnswer(s, s.Held().value);
      OnlySingle(s.wire, s.Held().value, true);
    }
  }

  // ---- running the queue ----

  /** A task of the routine has nothing but pushes behind it. */
  lemma OthersAreHandles(s: Loop)
    requires QueueOk(s) && s.ready != [] && !s.ready[0].Handle?
    ensures forall i :: 0 <= i < |s.ready[1..]| ==> s.ready[1..][i].Handle?
    ensures WriteDone !in s.ready[1..]
  {
    assert forall i :: 0 <= i < |s.ready[1..]| ==> s.ready[1..][i] == s.ready[i + 1];
  }

  /** What the head of the queue does: its message takes effect, and the queue is otherwise as it was. */
  ghost predicate Pops(s: Loop, t: Loop)
    requires s.ready != []
  {
    && t.ready == s.ready[1..] && t.wire == s.wire && Gone(t) == Gone(s) && t.link == s.link
    && t.applied == s.applied + (if s.ready[0].WriteDone? then Listed(s.Held()) else MessageOf(s.ready[0]))
    && t.Held() == if s.ready[0].Handle? then s.Held() else None
  }

  lemma SendIsUnheld(s: Loop, first: int, marks: seq<nat>)
    requires s.net.table.Valid() && s.net.Sized()
    ensures SendFetch(s, first, marks).Held().None? && SendRefresh(s, first, marks).Held().None?
    ensures var t := SendFetch(s, first, marks);
            t.ready == s.ready && t.wire == s.wire && t.applied == s.applied && Gone(t) == Gone(s) && t.link == s.link
    ensures var t := SendRefresh(s, first, marks);
            t.ready == s.ready && t.wire == s.wire && t.applied == s.applied && Gone(t) == Gone(s) && t.link == s.link
  {
    hide C.Next;
  }

  lemma BeginPops(s: Loop, now: int)
    requires Inv(s) && s.net.table.Valid() && s.net.Sized() && Possible(s, Run(now)) && s.ready[0].Begin?
    ensures Pops(s, RunHead(s, now))
  {
    hide Inv, SendFetch;
    var t := s.(ready := s.ready[1..]);
    SendIsUnheld(t.(cache := t.cache.MarkConnected(), nextTid := t.nextTid + 3), t.nextTid, []);
    assert s.applied + [] == s.applied;
  }

  /** What `Proceed` does to the messages: the answer in hand takes effect. */
  lemma ProceedShape(u: Loop, message: Option<nat>, now: int)
    requires Resuming(u, message) && u.net.table.Valid() && u.net.Sized()
    requires if u.routine.Fetching? then u.Call().phase.outcome.Answered? <==> message.Some? else message.None?
    ensures var t := Proceed(u, message, now);
            && t.ready == u.ready && t.wire == u.wire && Gone(t) == Gone(u) && t.link == u.link
            && t.Held().None? && t.applied == u.applied + Listed(message)
  {
    hide SendFetch, SendRefresh, NetOk, CacheOk, QueueIsPushes, Apply, OpOf;
    assert u.applied + [] == u.applied;
    if message.Some? {
      TakenOp(u, u.routine.first, u.routine.marks, message.value, u.Call().phase.outcome.response);
      var t := Taken(u, message.value, OpOf(Answer(u.Call().phase.outcome.response)).value);
      SendIsUnheld(t, u.routine.first, u.routine.marks + [|u.applied|]);
      SendIsUnheld(t.(cache := t.cache.MarkSynced(now)), u.routine.first, u.routine.marks + [|u.applied|]);
    }
  }

  /** The routine resumes with the answer its request returns, if any. */
  lemma ResumedPops(s: Loop, e: C.Event, message: Option<nat>, now: int)
    requires Inv(s) && s.link.Up? && s.HasCall() && QueueIsPushes(s) && EndsRoutineCall(s, e) && !e.WriteFailed?
    requires if s.routine.Fetching? then if message.Some? then IsItsAnswer(s, message.value) else !Answerable(s)
             else message.None?
    requires s.net.table.Valid() && s.net.Sized()
    ensures C.Next(s.net, e).table.Valid() && (s.(net := C.Next(s.net, e))).HasCall()
    ensures (s.(net := C.Next(s.net, e))).Call().phase.Ended?
    ensures var t := Proceed(s.(net := C.Next(s.net, e)), message, now);
            && t.ready == s.ready && t.wire == s.wire && Gone(t) == Gone(s) && t.link == s.link
            && t.Held().None? && t.applied == s.applied + Listed(message)
  {
    hide NetOk, RoutineOk, CacheOk, Folded, AttemptOk, UnusedOk, QueueOk, QueueIsPushes, Answerable, EndOutcome,
         Resuming, C.Next;
    hide Proceed;
    InvNet(s);
    EndedNet(s, e);
    EndedIsResuming(s, e, message);
    ResumingCall(s.(net := C.Next(s.net, e)), message);
    ProceedShape(s.(net := C.Next(s.net, e)), message, now);
  }

  lemma ResumingCall(u: Loop, message: Option<nat>)
    requires Resuming(u, message)
    ensures u.HasCall() && u.Call().phase.Ended? && u.net.table.Valid() && u.net.Sized()
  {
    hide CacheOk, QueueIsPushes;
  }

  lemma WriteDonePops(s: Loop, now: int)
    requires Inv(s) && s.net.table.Valid() && s.net.Sized() && Possible(s, Run(now)) && s.ready[0].WriteDone?
    ensures Pops(s, RunHead(s, now))
  {
    hide NetOk, QueueOk, Folded, AttemptOk, UnusedOk, C.Next, Proceed, QueueIsPushes, IsItsAnswer, Answerable;
    var t := s.(ready := s.ready[1..]);
    PopKeepsInv(s);
    assert s.applied + [] == s.applied;
    if s.Unsettled() {
      HeldIsNone(s);
    } else {
      if s.routine.Fetching? {
        HeldIsItsAnswer(t);
      }
      ResumedPops(t, C.Written(s.routine.call), s.Held(), now);
    }
  }

  lemma WakePops(s: Loop, now: int)
    requires Inv(s) && s.net.table.Valid() && s.net.Sized() && Possible(s, Run(now)) && s.ready[0].Wake?
    ensures Pops(s, RunHead(s, now))
  {
    hide NetOk, RoutineOk, Folded, AttemptOk, UnusedOk, C.Next, Proceed, QueueIsPushes, Answerable;
    var t := s.(ready := s.ready[1..]);
    PopKeepsInv(s);
    assert ActionOk(s, s.ready[0]);
    SameAnswerable(s, t);
    ResumedPops(t, C.Resume(s.routine.call), s.ready[0].answer, now);
  }

  /** The head of the queue takes effect, and nothing else moves. */
  lemma RunPops(s: Loop, now: int)
    requires Inv(s) && s.net.table.Valid() && s.net.Sized() && Possible(s, Run(now))
    ensures Pops(s, RunHead(s, now))
  {
    hide Inv, Pops, Possible;
    assert s.ready != [] by {
      HeadExists(s, now);
    }
    match s.ready[0]
    case Begin => BeginPops(s, now);
    case Handle(i) => HandlePops(s, now);
    case WriteDone => WriteDonePops(s, now);
    case Wake(_) => WakePops(s, now);
  }

  lemma HeadExists(s: Loop, now: int)
    requires Possible(s, Run(now))
    ensures s.ready != [] && s.link.Up?
  {
  }

  lemma HandlePops(s: Loop, now: int)
    requires s.net.table.Valid() && s.net.Sized() && Possible(s, Run(now)) && s.ready[0].Handle?
    ensures Pops(s, RunHead(s, now))
  {
  }

  lemma HeadIsUnheld(s: Loop)
    requires QueueOk(s) && RoutineOk(s) && s.ready != []
    ensures s.ready[0].Begin? || s.ready[0].Wake? ==> s.Held().None?
  {
    hide Answerable;
    assert ActionOk(s, s.ready[0]);
  }

  lemma PopsStays(s: Loop, t: Loop)
    requires QueueOk(s) && RoutineOk(s) && s.ready != [] && Pops(s, t)
    ensures Stays(s, t)
  {
    hide ActionOk, RoutineOk;
    var head, tail := s.ready[0], s.ready[1..];
    var first := if head.WriteDone? then Listed(s.Held()) else MessageOf(head);
    assert s.ready == [head] + tail;
    if head.Handle? {
      assert WriteDone in tail <==> WriteDone in s.ready;
      var late := if WriteDone in tail then [] else Listed(s.Held());
      Associative(first, DueIn(tail, s.Held()), late);
      Associative(s.applied, first, DueIn(tail, s.Held()) + late);
    } else {
      OthersAreHandles(s);
      DueInUnwritten(tail, s.Held(), None);
      HeadIsUnheld(s);
      HeldUnderWrite(s, t, first);
    }
  }

  /** A task of the routine at the head: the answer in hand, if any, is what it applies. */
  lemma HeldUnderWrite(s: Loop, t: Loop, first: seq<nat>)
    requires s.ready != [] && Pops(s, t) && !s.ready[0].Handle? && WriteDone !in s.ready[1..]
    requires DueIn(s.ready[1..], s.Held()) == DueIn(s.ready[1..], None)
    requires first == if s.ready[0].WriteDone? then Listed(s.Held()) else MessageOf(s.ready[0])
    requires !s.ready[0].WriteDone? ==> s.Held().None?
    ensures Effects(t) == Effects(s)
  {
    var tail := DueIn(s.ready[1..], None);
    assert s.ready == [s.ready[0]] + s.ready[1..];
    assert WriteDone in s.ready <==> s.ready[0].WriteDone?;
    assert first + tail + [] == first + tail;
    assert tail + [] == tail;
    Associative(s.applied, first, tail);
  }

  // ---- the other steps ----

  /** A write that fails drops the answer in hand. */
  lemma FailWriteShape(s: Loop)
    requires Inv(s) && s.net.table.Valid() && s.net.Sized() && Possible(s, FailWrite)
    ensures var t := After(s, FailWrite);
            && t.ready == s.ready && t.wire == s.wire && t.applied == s.applied && t.lost == s.lost
            && t.unused == s.unused + Unusable(s.Held()) && t.Held().None?
  {
    hide Folded, AttemptOk, UnusedOk, QueueOk, C.Next, Answerable;
    EndedNet(s, C.WriteFailed(s.routine.call));
  }

  lemma DropLast(s: Loop, a: seq<nat>, x: nat)
    requires Accounted(s) && Effects(s) == a + [x]
    ensures Filter(Effects(s), {x}) == a
  {
    hide Accounted, Effects;
    forall i | 0 <= i < |a|
      ensures a[i] !in {x}
    {
      PartsAreDisjoint(s, a, [x], a[i]);
    }
    FilterConcat(a, [x], {x});
    FilterNone(a, {x});
    FilterSingle(x, {x});
  }

  lemma FailWriteDrops(s: Loop)
    requires Inv(s) && Accounted(s) && s.net.table.Valid() && s.net.Sized() && Possible(s, FailWrite)
    ensures Drops(s, After(s, FailWrite), Unusable(s.Held()))
  {
    hide After, Accounted, CacheOk, Folded, AttemptOk, UnusedOk, QueueOk, RoutineOk, C.Next, NetOk, Filter, DueIn;
    var t := After(s, FailWrite);
    FailWriteShape(s);
    assert WriteDone !in s.ready;
    DueInUnwritten(s.ready, s.Held(), None);
    var due := DueIn(s.ready, None);
    assert due + [] == due;
    if s.Held().Some? {
      HeldIsAnswer(s, s.Held().value);
      Associative(s.applied, due, [s.Held().value]);
      DropLast(s, s.applied + due, s.Held().value);
    } else {
      FilterNone(Effects(s), {});
    }
  }

  lemma {:induction false} MutedDue(ready: seq<Action>, out: set<nat>)
    requires forall i :: 0 <= i < |ready| && ready[i].Handle? ==> ready[i].message !in out
    requires forall i :: 0 <= i < |ready| && ready[i].Wake? && ready[i].answer.Some? ==> ready[i].answer.value in out
    ensures DueIn(Muted(ready), None) == Filter(DueIn(ready, None), out)
  {
    if ready != [] {
      MutedDue(ready[1..], out);
      assert Muted(ready)[1..] == Muted(ready[1..]);
      var head := MessageOf(ready[0]);
      FilterConcat(if ready[0].WriteDone? then [] else head, DueIn(ready[1..], None), out);
      assert MessageOf(Muted(ready)[0]) == Filter(head, out);
    }
  }

  lemma WakeAnswersAreDue(s: Loop)
    requires QueueOk(s)
    ensures forall i :: i in WakeAnswers(s.ready) ==> i < |s.wire| && s.wire[i].Answer? && i in DueIn(s.ready, None)
    ensures forall k :: 0 <= k < |s.ready| && s.ready[k].Handle? ==> s.ready[k].message !in WakeAnswers(s.ready)
  {
    forall i | i in WakeAnswers(s.ready)
      ensures i < |s.wire| && s.wire[i].Answer? && i in DueIn(s.ready, None)
    {
      var j :| 0 <= j < |s.ready| && s.ready[j].Wake? && s.ready[j].answer == Some(i);
      assert s.ready[j] in s.ready && ActionOk(s, s.ready[j]);
      QueuedIsDue(s.ready, j);
    }
    forall k | 0 <= k < |s.ready| && s.ready[k].Handle?
      ensures s.ready[k].message !in WakeAnswers(s.ready)
    {
      assert s.ready[k] in s.ready && ActionOk(s, s.ready[k]);
    }
  }

  lemma {:induction false} QueuedIsDue(ready: seq<Action>, j: nat)
    requires j < |ready| && !ready[j].WriteDone?
    ensures forall i :: i in MessageOf(ready[j]) ==> i in DueIn(ready, None)
  {
    if j > 0 {
      QueuedIsDue(ready[1..], j - 1);
    }
  }

  /** What took effect is not dropped with what is due. */
  lemma FilterDue(s: Loop, due: seq<nat>, out: set<nat>)
    requires Accounted(s) && Effects(s) == s.applied + due && forall i :: i in out ==> i in due
    ensures Filter(Effects(s), out) == s.applied + Filter(due, out)
  {
    hide Accounted, Effects;
    forall i | 0 <= i < |s.applied|
      ensures s.applied[i] !in out
    {
      PartsAreDisjoint(s, s.applied, due, s.applied[i]);
    }
    FilterConcat(s.applied, due, out);
    FilterNone(s.applied, out);
  }

  /** A deadline after the answer drops it. */
  lemma ExpireSettledDrops(s: Loop)
    requires Inv(s) && Accounted(s) && s.net.table.Valid() && s.net.Sized() && Possible(s, ExpireAnswer)
             && !s.Unsettled()
    ensures Drops(s, After(s, ExpireAnswer), WakeAnswers(s.ready))
  {
    hide After, Accounted, CacheOk, Folded, AttemptOk, UnusedOk, QueueOk, RoutineOk, NetOk, WakeAnswers, Muted,
         Filter, DueIn, MessageOf;
    ExpireNet(s);
    var t, out, due := After(s, ExpireAnswer), WakeAnswers(s.ready), DueIn(s.ready, None);
    AwaitingIsUnheld(s);
    WakeAnswersAreDue(s);
    WakesAreOut(s.ready);
    MutedDue(s.ready, out);
    MutedHasNoWrite(s.ready);
    assert due + [] == due && DueIn(t.ready, None) + [] == DueIn(t.ready, None);
    FilterDue(s, due, out);
  }

  lemma MutedHasNoWrite(ready: seq<Action>)
    requires WriteDone !in ready
    ensures WriteDone !in Muted(ready)
  {
  }

  lemma WakesAreOut(ready: seq<Action>)
    ensures forall i :: 0 <= i < |ready| && ready[i].Wake? && ready[i].answer.Some? ==>
            ready[i].answer.value in WakeAnswers(ready)
  {
  }

  lemma AwaitingIsUnheld(s: Loop)
    requires QueueOk(s) && RoutineOk(s) && s.HasCall() && s.Call().phase.Awaiting?
    ensures s.Held().None? && WriteDone !in s.ready
  {
    assert forall a :: a in s.ready ==> ActionOk(s, a);
  }

  lemma ExpireWaitingStays(s: Loop)
    requires Inv(s) && s.net.table.Valid() && s.net.Sized() && Possible(s, ExpireAnswer) && s.Unsettled()
    ensures Stays(s, After(s, ExpireAnswer))
  {
    hide After, Folded, AttemptOk, UnusedOk, ActionOk, NetOk;
    ExpireNet(s);
    var t, due := After(s, ExpireAnswer), DueIn(s.ready, None);
    AwaitingIsUnheld(s);
    DueInSnoc(s.ready, Wake(None), None);
    assert WriteDone !in t.ready;
    assert due + [] == due;
  }

  /** The end of a connection drops all that is due, and nothing that took effect. */
  lemma CutDrops(s: Loop)
    requires Inv(s) && Accounted(s) && s.net.table.Valid() && s.net.Sized() && s.link.Up?
    ensures Drops(s, Cut(s), DueSet(s))
  {
    hide Accounted, Folded, AttemptOk, UnusedOk, NetOk, C.Next, Due;
    var t, due, out := Cut(s), Due(s), DueSet(s);
    assert Due(t) == [] by {
      CutOwesNothing(s);
    }
    forall i | i in out
      ensures i < |s.wire|
    {
      DueIsRead(s, i);
    }
    FilterDue(s, due, out);
    FilterAll(due, out);
    assert s.applied + [] == s.applied;
    assert s.unused + (s.lost + out) == s.unused + s.lost + out;
  }

  lemma CutOwesNothing(s: Loop)
    requires s.net.table.Valid() && s.net.Sized()
    ensures Due(Cut(s)) == []
  {
    hide C.Next;
  }

  lemma BootstrapStays(s: Loop)
    requires Inv(s) && s.net.table.Valid() && s.net.Sized() && s.routine.Sleeping?
    ensures Stays(s, Bootstrap(s))
  {
    hide Inv, SendFetch;
    SendIsUnheld(s.(cache := s.cache.MarkConnected(), nextTid := s.nextTid + 3), s.nextTid, []);
    DueInUnheld(s, Bootstrap(s));
  }

  lemma DueInUnheld(s: Loop, t: Loop)
    requires t.ready == s.ready && t.Held() == s.Held()
    ensures Due(t) == Due(s)
  {
  }

  lemma FinishWriteStays(s: Loop)
    requires Inv(s) && s.net.table.Valid() && s.net.Sized() && Possible(s, FinishWrite)
    ensures Stays(s, After(s, FinishWrite))
  {
    hide Inv, C.Next;
    assert WriteDone !in s.ready;
    DueInSnoc(s.ready, WriteDone, s.Held());
    var due := DueIn(s.ready, s.Held()) + Listed(s.Held());
    assert due + [] == due;
    assert WriteDone in After(s, FinishWrite).ready;
  }

  /** Steps of the link, and of other tasks. */
  lemma IdleStays(s: Loop, step: Step)
    requires Inv(s) && s.net.table.Valid() && s.net.Sized() && Possible(s, step)
    requires step.WriteAtOnce? || step.Foreign? || step.Unwind? || step.Close? || step.Open?
    ensures Stays(s, After(s, step))
  {
    hide NetOk, Folded, AttemptOk, UnusedOk, C.Next, Ending, Answerable, IsItsAnswer;
    var t := After(s, step);
    if step.Open? {
      assert DueIn([Begin], None) == [] + DueIn([], None);
    } else {
      DueInUnheld(s, t);
    }
  }

  // ---- every message is accounted for ----

  lemma ReadKeepsAccounted(s: Loop, m: Message)
    requires Inv(s) && Accounted(s) && s.net.table.Valid() && s.net.Sized() && s.link.Up?
    ensures Accounted(ReadOne(s, m))
  {
    hide Accounted, Skips, Joins, ReadOne, NetOk, RoutineOk, QueueOk, CacheOk, Folded, AttemptOk, UnusedOk, Effects;
    var t := ReadOne(s, m);
    InvTasks(s);
    if !Counts(s, m) {
      ReadSkips(s, m);
      SkipsAccounted(s, t, m);
    } else if m.Answer? {
      if s.Call().phase.Writing? {
        EarlyAnswerJoins(s, m.response);
        BehindWriteIsPushes(s);
        JoinsAccounted(s, t, m, s.applied + DueIn(BeforeWrite(s.ready), None), DueIn(AfterWrite(s.ready), None));
      } else {
        WaitingAnswerJoins(s, m.response);
        JoinsAccounted(s, t, m, Effects(s), []);
      }
    } else {
      PushJoins(s, m);
      HeldIsNoPush(s);
      JoinsAccounted(s, t, m, s.applied + DueIn(s.ready, s.Held()),
        if WriteDone in s.ready then [] else Listed(s.Held()));
    }
  }

  lemma InvTasks(s: Loop)
    requires Inv(s)
    ensures NetOk(s) && RoutineOk(s) && QueueOk(s) && UnusedOk(s)
  {
  }

  lemma StepKeepsAccounted(s: Loop, step: Step)
    requires Inv(s) && Accounted(s) && s.net.table.Valid() && s.net.Sized() && Possible(s, step)
    ensures Accounted(After(s, step))
  {
    if step.ReadMessage? {
      ReadKeepsAccounted(s, step.message);
    } else {
      var out := OtherStepDrops(s, step);
      DropsAccounted(s, After(s, step), out);
    }
  }

  lemma StaysIsDrops(s: Loop, t: Loop)
    requires Stays(s, t)
    ensures Drops(s, t, {})
  {
    hide Effects, Gone;
    FilterNone(Effects(s), {});
  }

  /** A step other than a read only drops messages, if any. */
  lemma OtherStepDrops(s: Loop, step: Step) returns (out: set<nat>)
    requires Inv(s) && Accounted(s) && s.net.table.Valid() && s.net.Sized() && Possible(s, step) && !step.ReadMessage?
    ensures Drops(s, After(s, step), out)
  {
    hide Inv, Accounted, Drops, Stays, Pops, RunHead, Cut, Bootstrap, ReadOne, Proceed, Ending;
    out := {};
    match step
    case Run(now) =>
      InvTasks(s);
      RunPops(s, now);
      PopsStays(s, After(s, step));
      StaysIsDrops(s, After(s, step));
    case FailWrite =>
      out := Unusable(s.Held());
      FailWriteDrops(s);
    case ExpireAnswer =>
      if s.Unsettled() {
        ExpireWaitingStays(s);
        StaysIsDrops(s, After(s, step));
      } else {
        out := WakeAnswers(s.ready);
        ExpireSettledDrops(s);
      }
    case EndConnection =>
      out := DueSet(s);
      CutDrops(s);
    case EndSleep =>
      BootstrapStays(s);
      StaysIsDrops(s, After(s, step));
    case FinishWrite =>
      FinishWriteStays(s);
      StaysIsDrops(s, After(s, step));
    case ReadMessage(_) =>
    case WriteAtOnce => IdleDrops(s, step);
    case Foreign(_) => IdleDrops(s, step);
    case Unwind => IdleDrops(s, step);
    case Close => IdleDrops(s, step);
    case Open => IdleDrops(s, step);
  }

  lemma IdleDrops(s: Loop, step: Step)
    requires Inv(s) && s.net.table.Valid() && s.net.Sized() && Possible(s, step)
    requires step.WriteAtOnce? || step.Foreign? || step.Unwind? || step.Close? || step.Open?
    ensures Drops(s, After(s, step), {})
  {
    hide Inv, Possible, After, Drops, Stays;
    IdleStays(s, step);
    StaysIsDrops(s, After(s, step));
  }
}
