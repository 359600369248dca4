/** The resumable fetcher of a capture (tydomio/capture/fetch.py:73-212). */
module Fetch {
  import opened Collections
  import opened Json

  datatype Outcome = OK | HTTP_ERROR | NOT_JSON | TIMEOUT | COMMUNICATION_ERROR | NOT_FETCHED

  datatype EndpointResult = EndpointResult(
    url: string,
    outcome: Outcome,
    status: Option<int>,
    body: Option<Json>,
    bodyLength: Option<nat>)

  /** What awaiting a request gives: a response, an error of the client, or the cancellation of the pass. */
  datatype Reply = Answered(status: int, content: Option<string>) | TimedOut | Lost | Cancelled

  const STATUS_OK := 200

  /** `_fetch`, when it is not cancelled. */
  function ResultOf(parse: string -> Option<Json>, url: string, reply: Reply): (r: EndpointResult)
    requires !reply.Cancelled?
    ensures r.url == url && r.outcome != NOT_FETCHED
    ensures r.outcome == COMMUNICATION_ERROR <==> reply.Lost?
    ensures r.outcome == TIMEOUT <==> reply.TimedOut?
    ensures match reply
            case Answered(status, received) =>
              var content := match received { case None => "" case Some(bytes) => bytes };
              && r.status == Some(status) && r.body == parse(content) && r.bodyLength == Some(|content|)
              && (r.outcome == HTTP_ERROR <==> status != 200)
              && (r.outcome == OK <==> status == 200 && parse(content).Some?)
              && (r.outcome == NOT_JSON <==> status == 200 && parse(content).None?)
            case _ => r.status.None? && r.body.None? && r.bodyLength.None?
  {
    match reply
    case TimedOut => EndpointResult(url, TIMEOUT, None, None, None)
    case Lost => EndpointResult(url, COMMUNICATION_ERROR, None, None, None)
    case Answered(status, received) =>
      var content := if received.Some? then received.value else "";
      var body := parse(content);
      var outcome := if status != STATUS_OK then HTTP_ERROR else if body.None? then NOT_JSON else OK;
      EndpointResult(url, outcome, Some(status), body, Some(|content|))
  }

  datatype State = State(results: map<string, EndpointResult>, connected: bool, done: bool)

  const FRESH := State(map[], false, false)

  /** Recorded, and not to be requested again. */
  predicate Final(s: State, url: string) {
    url in s.results && s.results[url].outcome != COMMUNICATION_ERROR
  }

  // ---- one pass ----

  datatype Ended = COMPLETED | LOST | CANCELLED

  /** A pass: the state it leaves, the urls it requested, and how it ended. */
  datatype Pass = Pass(state: State, requested: seq<string>, ended: Ended)

  /** The rest of a pass from the i-th url, its requests getting `replies` in turn; none left is a cancellation. */
  function PassFrom(parse: string -> Option<Json>, table: seq<string>, i: nat, s: State, replies: seq<Reply>): Pass
    requires i <= |table|
    decreases |table| - i
  {
    if i == |table| then Pass(s.(done := true), [], COMPLETED)
    else
      var url := table[i];
      if Final(s, url) then PassFrom(parse, table, i + 1, s, replies)
      else if replies == [] || replies[0].Cancelled? then Pass(s, [url], CANCELLED)
      else
        var result := ResultOf(parse, url, replies[0]);
        var after := s.(results := s.results[url := result]);
        if result.outcome == COMMUNICATION_ERROR then Pass(after, [url], LOST)
        else
          After([url], PassFrom(parse, table, i + 1, after, replies[1..]))
  }

  /** The pass that goes on as `rest` after requests already made. */
  function After(requested: seq<string>, rest: Pass): Pass {
    rest.(requested := requested + rest.requested)
  }

  lemma AfterBoth(a: seq<string>, b: seq<string>, rest: Pass)
    ensures After(a, After(b, rest)) == After(a + b, rest)
  {
    Associative(a, b, rest.requested);
  }

  lemma AfterNothing(rest: Pass)
    ensures After([], rest) == rest
  {
    assert [] + rest.requested == rest.requested;
  }

  /** One turn of the loop that records an outcome which does not end the pass. */
  lemma Turn(parse: string -> Option<Json>, table: seq<string>, i: nat, s: State, replies: seq<Reply>, next: nat)
    requires i < |table| && next < |replies| && !Final(s, table[i])
    requires !replies[next].Cancelled? && !replies[next].Lost?
    ensures PassFrom(parse, table, i, s, replies[next..]) ==
            var recorded := s.(results := s.results[table[i] := ResultOf(parse, table[i], replies[next])]);
            After([table[i]], PassFrom(parse, table, i + 1, recorded, replies[next + 1..]))
  {
    assert replies[next..][1..] == replies[next + 1..];
  }

  function MakePass(parse: string -> Option<Json>, table: seq<string>, s: State, replies: seq<Reply>): Pass {
    PassFrom(parse, table, 0, s.(connected := true), replies)
  }

  class Fetcher {
    const table: seq<string>
    var results: map<string, EndpointResult>
    var connected: bool
    var done: bool

    constructor (table: seq<string>)
      ensures this.table == table && View() == FRESH
    {
      this.table := table;
      results, connected, done := map[], false, false;
    }

    function View(): State
      reads this
    {
      State(results, connected, done)
    }

    /** `__call__` */
    method Call(parse: string -> Option<Json>, replies: seq<Reply>) returns (requested: seq<string>, ended: Ended)
      modifies this
      ensures Pass(View(), requested, ended) == MakePass(parse, table, old(View()), replies)
    {
      hide ResultOf, After;
      connected := true;
      requested := [];
      var next := 0;
      ghost var whole := MakePass(parse, table, old(View()), replies);
      assert replies[0..] == replies;
      AfterNothing(whole);
      for i := 0 to |table|
        invariant 0 <= next <= |replies|
        invariant whole == After(requested, PassFrom(parse, table, i, View(), replies[next..]))
      {
        var url := table[i];
        if url !in results || results[url].outcome == COMMUNICATION_ERROR {
          ghost var made := requested;
          requested := requested + [url];
          if next == |replies| || replies[next].Cancelled? {
            ended := CANCELLED;
            EndsWith(made, url, View(), CANCELLED);
            return;
          }
          var result := ResultOf(parse, url, replies[next]);
          if !replies[next].Lost? {
            Turn(parse, table, i, View(), replies, next);
            ghost var recorded := View().(results := results[url := result]);
            AfterBoth(made, [url], PassFrom(parse, table, i + 1, recorded, replies[next + 1..]));
          }
          results := results[url := result];
          if result.outcome == COMMUNICATION_ERROR {
            ended := LOST;
            EndsWith(made, url, View(), LOST);
            return;
          }
          next := next + 1;
        }
      }
      done := true;
      ended := COMPLETED;
      EndsComplete(requested, View());
    }
  }

  lemma EndsWith(made: seq<string>, url: string, s: State, ended: Ended)
    ensures After(made, Pass(s, [url], ended)) == Pass(s, made + [url], ended)
  {
  }

  lemma EndsComplete(made: seq<string>, s: State)
    ensures After(made, Pass(s, [], COMPLETED)) == Pass(s, made, COMPLETED)
  {
    assert made + [] == made;
  }

  // ---- what every pass keeps ----

  predicate Distinct(table: seq<string>) {
    forall i, j :: 0 <= i < j < |table| ==> table[i] != table[j]
  }

  /**
   The first `k` urls of the table have final outcomes; the next one has none or a
   communication error; nothing else is recorded.
   */
  predicate Reached(table: seq<string>, s: State, k: nat) {
    && k <= |table|
    && (forall i :: 0 <= i < k ==> Final(s, table[i]))
    && (k < |table| && table[k] in s.results ==> s.results[table[k]].outcome == COMMUNICATION_ERROR)
    && (forall i :: k < i < |table| ==> table[i] !in s.results)
    && (forall url | url in s.results ::
         url in table && s.results[url].url == url && s.results[url].outcome != NOT_FETCHED)
    && (s.done ==> k == |table|)
  }

  /** Final outcomes stay as they are. */
  ghost predicate KeepsFinal(s: State, t: State) {
    forall url :: Final(s, url) ==> url in t.results && t.results[url] == s.results[url]
  }

  lemma {:induction false} SkipsFinal(parse: string -> Option<Json>, table: seq<string>, i: nat, k: nat, s: State,
                                      replies: seq<Reply>)
    requires i <= k <= |table| && forall j :: i <= j < k ==> Final(s, table[j])
    ensures PassFrom(parse, table, i, s, replies) == PassFrom(parse, table, k, s, replies)
    decreases k - i
  {
    if i < k {
      SkipsFinal(parse, table, i + 1, k, s, replies);
    }
  }

  lemma RecordsNext(parse: string -> Option<Json>, table: seq<string>, k: nat, s: State, reply: Reply)
    requires Distinct(table) && Reached(table, s, k) && k < |table| && !reply.Cancelled? && !s.done
    ensures var result := ResultOf(parse, table[k], reply);
            var after := s.(results := s.results[table[k] := result]);
            KeepsFinal(s, after) && Reached(table, after, if reply.Lost? then k else k + 1)
  {
  }

  lemma KeepsFinalTransitive(s: State, t: State, u: State)
    requires KeepsFinal(s, t) && KeepsFinal(t, u)
    ensures KeepsFinal(s, u)
  {
    assert forall url :: Final(s, url) ==> Final(t, url);
  }

  /** How far a pass gets: as far as its requests, less the one that ended it. */
  function ReachedBy(pass: Pass, k: nat): int {
    k + |pass.requested| - if pass.ended.COMPLETED? then 0 else 1
  }

  /** What a pass from the k-th url, all before it final, leads to. */
  ghost predicate Leads(table: seq<string>, k: nat, s: State, pass: Pass) {
    && 0 <= ReachedBy(pass, k) && Reached(table, pass.state, ReachedBy(pass, k))
    && k + |pass.requested| <= |table| && pass.requested == table[k..k + |pass.requested|]
    && KeepsFinal(s, pass.state)
    && (pass.ended.COMPLETED? <==> pass.state.done)
    && (pass.ended.LOST? ==> table[ReachedBy(pass, k)] in pass.state.results)
    && pass.state.connected == s.connected
  }

  lemma LeadsOn(table: seq<string>, k: nat, s: State, after: State, rest: Pass)
    requires k < |table| && KeepsFinal(s, after) && s.connected == after.connected && Leads(table, k + 1, after, rest)
    ensures Leads(table, k, s, After([table[k]], rest))
  {
    hide Reached, KeepsFinal;
    KeepsFinalTransitive(s, after, rest.state);
    var n := |rest.requested|;
    assert table[k..k + 1 + n] == [table[k]] + table[k + 1..k + 1 + n];
  }

  lemma EndsHere(table: seq<string>, k: nat, s: State)
    requires Reached(table, s, k) && !s.done
    ensures k == |table| ==> Leads(table, k, s, Pass(s.(done := true), [], COMPLETED))
    ensures k < |table| ==> Leads(table, k, s, Pass(s, [table[k]], CANCELLED))
  {
    if k < |table| {
      assert table[k..k + 1] == [table[k]];
    }
    assert table[k..k] == [];
  }

  lemma EndsLost(table: seq<string>, k: nat, s: State, after: State)
    requires k < |table| && Reached(table, after, k) && !after.done && KeepsFinal(s, after)
    requires table[k] in after.results && s.connected == after.connected
    ensures Leads(table, k, s, Pass(after, [table[k]], LOST))
  {
    assert table[k..k + 1] == [table[k]];
  }

  lemma {:induction false} PassFromReaches(parse: string -> Option<Json>, table: seq<string>, k: nat, s: State,
                                           replies: seq<Reply>)
    requires Distinct(table) && Reached(table, s, k) && !s.done
    ensures Leads(table, k, s, PassFrom(parse, table, k, s, replies))
    decreases |table| - k
  {
    hide Reached, KeepsFinal, Leads;
    EndsHere(table, k, s);
    NextIsNotFinal(table, k, s);
    if k < |table| && replies != [] && !replies[0].Cancelled? {
      RecordsNext(parse, table, k, s, replies[0]);
      var after := s.(results := s.results[table[k] := ResultOf(parse, table[k], replies[0])]);
      if replies[0].Lost? {
        EndsLost(table, k, s, after);
      } else {
        PassFromReaches(parse, table, k + 1, after, replies[1..]);
        LeadsOn(table, k, s, after, PassFrom(parse, table, k + 1, after, replies[1..]));
      }
    } else if k == |table| {
      assert PassFrom(parse, table, k, s, replies) == Pass(s.(done := true), [], COMPLETED);
    } else {
      assert PassFrom(parse, table, k, s, replies) == Pass(s, [table[k]], CANCELLED);
    }
  }

  lemma NextIsNotFinal(table: seq<string>, k: nat, s: State)
    requires Reached(table, s, k)
    ensures k <= |table| && (k < |table| ==> !Final(s, table[k]))
  {
  }

  /**
   A pass requests, in table order, the urls from the first without a final outcome: each gets a
   final outcome, except the one that ended the pass, and outcomes that were final are kept.
   */
  lemma PassReaches(parse: string -> Option<Json>, table: seq<string>, k: nat, s: State, replies: seq<Reply>)
    requires Distinct(table) && Reached(table, s, k)
    ensures Leads(table, k, s.(connected := true), MakePass(parse, table, s, replies))
    ensures s.done ==> MakePass(parse, table, s, replies) == Pass(s.(connected := true), [], COMPLETED)
  {
    var begun := s.(connected := true);
    assert forall url :: Final(begun, url) == Final(s, url);
    SkipsFinal(parse, table, 0, k, begun, replies);
    if s.done {
      EndsHere(table, k, begun.(done := false));
    } else {
      PassFromReaches(parse, table, k, begun, replies);
    }
  }

  // ---- what a pass records ----

  /** How many of the requests of a pass got a reply: all, unless it was cancelled in one. */
  function Replied(pass: Pass): nat {
    if pass.ended.CANCELLED? && pass.requested != [] then |pass.requested| - 1 else |pass.requested|
  }

  /** What is recorded of each url requested is the result of the reply to its own request. */
  ghost predicate Records(parse: string -> Option<Json>, s: State, pass: Pass, replies: seq<Reply>) {
    && Replied(pass) <= |replies|
    && (forall i :: 0 <= i < Replied(pass) ==>
          var url := pass.requested[i];
          !replies[i].Cancelled? && Lookup(pass.state.results, url) == Some(ResultOf(parse, url, replies[i])))
    && (forall url :: url !in pass.requested[..Replied(pass)] ==>
          Lookup(pass.state.results, url) == Lookup(s.results, url))
  }

  lemma RecordsHere(parse: string -> Option<Json>, s: State, done: bool, url: string, replies: seq<Reply>)
    ensures Records(parse, s, Pass(s.(done := done), [], COMPLETED), replies)
    ensures Records(parse, s, Pass(s, [url], CANCELLED), replies)
    ensures replies != [] && replies[0].Lost? ==>
              Records(parse, s, Pass(s.(results := s.results[url := ResultOf(parse, url, replies[0])]), [url], LOST),
                      replies)
  {
    assert [url][..0] == [];
  }

  lemma RecordsOn(parse: string -> Option<Json>, s: State, url: string, rest: Pass, replies: seq<Reply>)
    requires replies != [] && !replies[0].Cancelled? && url !in rest.requested
    requires Records(parse, s.(results := s.results[url := ResultOf(parse, url, replies[0])]), rest, replies[1..])
    requires rest.ended.CANCELLED? ==> rest.requested != []
    ensures Records(parse, s, After([url], rest), replies)
  {
    hide ResultOf;
    var pass := After([url], rest);
    var n := Replied(rest);
    assert Replied(pass) == n + 1;
    assert pass.requested[..n + 1] == [url] + rest.requested[..n];
    forall i | 0 <= i < n + 1
      ensures !replies[i].Cancelled?
      ensures Lookup(pass.state.results, pass.requested[i]) == Some(ResultOf(parse, pass.requested[i], replies[i]))
    {
      if i > 0 {
        assert pass.requested[i] == rest.requested[i - 1] && replies[1..][i - 1] == replies[i];
      }
    }
  }

  lemma LaterAreOthers(table: seq<string>, k: nat, n: nat)
    requires Distinct(table) && k + 1 + n <= |table|
    ensures table[k] !in table[k + 1..k + 1 + n]
  {
  }

  lemma {:induction false} PassFromRecords(parse: string -> Option<Json>, table: seq<string>, k: nat, s: State,
                                           replies: seq<Reply>)
    requires Distinct(table) && Reached(table, s, k) && !s.done
    ensures var pass := PassFrom(parse, table, k, s, replies);
            Records(parse, s, pass, replies) && (pass.ended.CANCELLED? ==> pass.requested != [])
    decreases |table| - k
  {
    hide Reached, KeepsFinal, Records, ResultOf;
    NextIsNotFinal(table, k, s);
    if k == |table| {
      RecordsHere(parse, s, true, "", replies);
    } else if replies == [] || replies[0].Cancelled? {
      RecordsHere(parse, s, s.done, table[k], replies);
    } else {
      RecordsNext(parse, table, k, s, replies[0]);
      var result := ResultOf(parse, table[k], replies[0]);
      var after := s.(results := s.results[table[k] := result]);
      if replies[0].Lost? {
        RecordsHere(parse, s, s.done, table[k], replies);
      } else {
        var rest := PassFrom(parse, table, k + 1, after, replies[1..]);
        PassFromRecords(parse, table, k + 1, after, replies[1..]);
        PassFromReaches(parse, table, k + 1, after, replies[1..]);
        LaterAreOthers(table, k, |rest.requested|);
        RecordsOn(parse, s, table[k], rest, replies);
      }
    }
  }

  /** A pass records, of each url it requests, the result of the reply to that request, and changes no other. */
  lemma PassRecords(parse: string -> Option<Json>, table: seq<string>, k: nat, s: State, replies: seq<Reply>)
    requires Distinct(table) && Reached(table, s, k)
    ensures Records(parse, s, MakePass(parse, table, s, replies), replies)
  {
    hide ResultOf;
    var begun := s.(connected := true);
    assert forall url :: Final(begun, url) == Final(s, url);
    SkipsFinal(parse, table, 0, k, begun, replies);
    if s.done {
      EndsHere(table, k, begun.(done := false));
    } else {
      PassFromRecords(parse, table, k, begun, replies);
    }
  }

  // ---- any number of passes ----

  /** Passes over reconnections, each with the replies to its requests. */
  datatype Run = Run(state: State, requested: seq<string>, broken: nat)

  /** `broken` counts the passes ended by a communication error or cancelled during a request. */
  function Passes(parse: string -> Option<Json>, table: seq<string>, passes: seq<seq<Reply>>): Run {
    if passes == [] then Run(FRESH, [], 0)
    else
      var before := Passes(parse, table, passes[..|passes| - 1]);
      var pass := MakePass(parse, table, before.state, passes[|passes| - 1]);
      Run(pass.state, before.requested + pass.requested, before.broken + if pass.ended.COMPLETED? then 0 else 1)
  }

  function UrlsIn(urls: seq<string>): set<string> {
    set url | url in urls
  }

  function Finals(s: State): set<string> {
    set url | url in s.results && Final(s, url)
  }

  lemma {:induction false} DistinctSize(urls: seq<string>)
    requires Distinct(urls)
    ensures |UrlsIn(urls)| == |urls|
  {
    if urls != [] {
      var n := |urls| - 1;
      DistinctSize(urls[..n]);
      assert urls == urls[..n] + [urls[n]];
      assert UrlsIn(urls) == UrlsIn(urls[..n]) + {urls[n]};
      assert urls[n] !in UrlsIn(urls[..n]);
    }
  }

  lemma ReachedFinals(table: seq<string>, s: State, k: nat)
    requires Distinct(table) && Reached(table, s, k)
    ensures |Finals(s)| == k && forall url :: Final(s, url) <==> url in table[..k]
  {
    forall url
      ensures Final(s, url) <==> url in table[..k]
    {
      if Final(s, url) {
        var i :| 0 <= i < |table| && table[i] == url;
        assert table[..k][i] == url;
      }
    }
    assert Finals(s) == UrlsIn(table[..k]);
    DistinctSize(table[..k]);
  }

  lemma FreshReaches(table: seq<string>)
    ensures Reached(table, FRESH, 0)
  {
  }

  /**
   After any number of passes, however they ended: the final outcomes are those of a prefix of the
   table, only the next url can have a communication error, and the requests made are one for each
   final outcome and one for each broken pass.
   */
  lemma {:induction false} PassesReach(parse: string -> Option<Json>, table: seq<string>, passes: seq<seq<Reply>>)
    requires Distinct(table)
    ensures var run := Passes(parse, table, passes);
            Reached(table, run.state, |Finals(run.state)|) && |run.requested| == |Finals(run.state)| + run.broken
    ensures Passes(parse, table, passes).state.connected <==> passes != []
  {
    hide Reached, MakePass, Finals;
    if passes == [] {
      FreshReaches(table);
      ReachedFinals(table, FRESH, 0);
    } else {
      var n := |passes| - 1;
      PassesReach(parse, table, passes[..n]);
      var before := Passes(parse, table, passes[..n]);
      var k := |Finals(before.state)|;
      PassReaches(parse, table, k, before.state, passes[n]);
      var pass := MakePass(parse, table, before.state, passes[n]);
      ReachedFinals(table, pass.state, ReachedBy(pass, k));
    }
  }

  /** Once a fetcher is done, every url of the table has a final outcome. */
  lemma DoneMeansAllFinal(parse: string -> Option<Json>, table: seq<string>, passes: seq<seq<Reply>>)
    requires Distinct(table) && Passes(parse, table, passes).state.done
    ensures forall url :: url in table ==> Final(Passes(parse, table, passes).state, url)
  {
    PassesReach(parse, table, passes);
  }

  lemma NotInSlice(table: seq<string>, k: nat, n: nat, url: string)
    requires Distinct(table) && k + n <= |table| && url in table[..k]
    ensures url !in table[k..k + n]
  {
    var i :| 0 <= i < k && table[..k][i] == url;
    forall j | k <= j < k + n
      ensures table[j] != url
    {
      assert table[i] != table[j];
    }
  }

  /** A final outcome is neither requested again nor changed by a later pass. */
  lemma FinalIsNeverRequestedAgain(parse: string -> Option<Json>, table: seq<string>, passes: seq<seq<Reply>>,
                                   replies: seq<Reply>, url: string)
    requires Distinct(table) && Final(Passes(parse, table, passes).state, url)
    ensures var s := Passes(parse, table, passes).state;
            var pass := MakePass(parse, table, s, replies);
            url !in pass.requested && url in pass.state.results && pass.state.results[url] == s.results[url]
  {
    hide Reached, MakePass, Finals, Passes;
    PassesReach(parse, table, passes);
    var s := Passes(parse, table, passes).state;
    var k := |Finals(s)|;
    PassReaches(parse, table, k, s, replies);
    ReachedFinals(table, s, k);
    var pass := MakePass(parse, table, s, replies);
    assert Final(s.(connected := true), url);
    NotInSlice(table, k, |pass.requested|, url);
  }

  /** A pass whose requests are all answered completes. */
  lemma {:induction false} AnsweredPassCompletes(parse: string -> Option<Json>, table: seq<string>, k: nat, s: State,
                                                 replies: seq<Reply>)
    requires k <= |table| && |replies| >= |table| - k
    requires forall i :: 0 <= i < |replies| ==> !replies[i].Cancelled? && !replies[i].Lost?
    ensures PassFrom(parse, table, k, s, replies).ended.COMPLETED?
    decreases |table| - k
  {
    if k < |table| {
      if Final(s, table[k]) {
        AnsweredPassCompletes(parse, table, k + 1, s, replies);
      } else {
        var after := s.(results := s.results[table[k] := ResultOf(parse, table[k], replies[0])]);
        AnsweredPassCompletes(parse, table, k + 1, after, replies[1..]);
      }
    }
  }

  // ---- the report ----

  /** What `run_capture` returns for a fetcher that was connected: every url, not fetched when never recorded. */
  function Report(table: seq<string>, s: State): (report: seq<EndpointResult>)
    ensures |report| == |table|
    ensures forall i :: 0 <= i < |table| ==>
              report[i] == if table[i] in s.results then s.results[table[i]]
                           else EndpointResult(table[i], NOT_FETCHED, None, None, None)
  {
    seq(|table|, i requires 0 <= i < |table| =>
      if table[i] in s.results then s.results[table[i]] else EndpointResult(table[i], NOT_FETCHED, None, None, None))
  }

  /**
   The report names every url of the table in order: first those with final outcomes, then at most
   one communication error, then only urls that were not fetched.
   */
  lemma ReportIsOrdered(parse: string -> Option<Json>, table: seq<string>, passes: seq<seq<Reply>>)
    requires Distinct(table)
    ensures var s := Passes(parse, table, passes).state;
            var report, k := Report(table, s), |Finals(s)|;
            && k <= |table|
            && (forall i :: 0 <= i < |table| ==> report[i].url == table[i])
            && (forall i :: 0 <= i < k ==> report[i].outcome != COMMUNICATION_ERROR && report[i].outcome != NOT_FETCHED)
            && (k < |table| ==> report[k].outcome == COMMUNICATION_ERROR || report[k].outcome == NOT_FETCHED)
            && (forall i :: k < i < |table| ==> report[i].outcome == NOT_FETCHED)
  {
    PassesReach(parse, table, passes);
  }

  datatype Capture = ClientStopped | NeverConnected | Results(report: seq<EndpointResult>)

  /** `run_capture`, when the client stopped first or not: what it raises or returns. */
  function RunCapture(stopped: bool, table: seq<string>, s: State): Capture {
    if stopped then ClientStopped else if !s.connected then NeverConnected else Results(Report(table, s))
  }

  /**
   * A capture stopped by its client says so; one not stopped reports whatever was recorded, unless no
   * pass ever began.
   */
  lemma ReportedUnlessNeverConnected(parse: string -> Option<Json>, table: seq<string>, passes: seq<seq<Reply>>)
    requires Distinct(table)
    ensures var s := Passes(parse, table, passes).state;
            && RunCapture(true, table, s) == ClientStopped
            && (RunCapture(false, table, s) == NeverConnected <==> passes == [])
            && (passes != [] ==> RunCapture(false, table, s) == Results(Report(table, s)))
  {
    PassesReach(parse, table, passes);
  }
}
