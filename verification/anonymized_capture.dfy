/** What a whole capture becomes: which body is handled with which rules, and where it ends up. */
module AnonymizedCapture {
  import opened Collections
  import opened Json
  import opened Policy
  import W = AnonymizeWalk
  import opened AnonymizeRender
  import opened AnonymizeShape
  import opened AnonymizeLeaves
  import opened AnonymizeOutcomes
  import opened AnonymizeReports
  import opened DescriptorIndex
  import opened Anonymizer
  import opened Numbering

  /** The tables of the capture name each url once. */
  ghost predicate IsWellFormed(c: Capture) {
    Distinct(c.bodies) && NoRepeats(UrlsOf(c.policies)) && NoRepeats(UrlsOf(c.sources))
  }

  // ---- the order ----

  lemma {:induction false} SelectIs(urls: seq<string>, among: seq<string>, present: bool, url: string)
    ensures url in Select(urls, among, present) <==> url in urls && (url in among <==> present)
    ensures NoRepeats(urls) ==> NoRepeats(Select(urls, among, present))
  {
    if urls != [] {
      var n := |urls| - 1;
      SelectIs(urls[..n], among, present, url);
      SelectIs(urls[..n], among, present, urls[n]);
      assert urls == urls[..n] + [urls[n]];
    }
  }

  /** The urls of the first come before those of the second. */
  ghost predicate Precedes(urls: seq<string>, a: string, b: string) {
    exists i, j :: 0 <= i < j < |urls| && urls[i] == a && urls[j] == b
  }

  lemma {:induction false} SelectKeepsOrder(urls: seq<string>, among: seq<string>, present: bool, a: string, b: string)
    requires Precedes(urls, a, b) && (a in among <==> present) && (b in among <==> present)
    ensures Precedes(Select(urls, among, present), a, b)
  {
    var n := |urls| - 1;
    var init := urls[..n];
    var i, j :| 0 <= i < j < |urls| && urls[i] == a && urls[j] == b;
    var kept := Select(init, among, present);
    if j < n {
      assert init[i] == a && init[j] == b;
      SelectKeepsOrder(init, among, present, a, b);
      var k, l :| 0 <= k < l < |kept| && kept[k] == a && kept[l] == b;
      assert Select(urls, among, present)[k] == a && Select(urls, among, present)[l] == b;
    } else {
      SelectIs(init, among, present, a);
      assert init[i] == a;
      var k :| 0 <= k < |kept| && kept[k] == a;
      assert Select(urls, among, present)[k] == a && Select(urls, among, present)[|kept|] == b;
    }
  }

  /** The bodies are handled once each: those of urls with a policy in its order, then the others in theirs. */
  lemma {:induction false} OrderIs(c: Capture, a: string, b: string)
    requires IsWellFormed(c)
    ensures var order, known, given := Order(c.policies, c.bodies), UrlsOf(c.policies), KeysOf(c.bodies);
            && NoRepeats(order) && (a in order <==> a in given)
            && (a in given && b in given ==>
                  && (Precedes(known, a, b) ==> Precedes(order, a, b))
                  && (a in known && b !in known ==> Precedes(order, a, b))
                  && (a !in known && b !in known && Precedes(given, a, b) ==> Precedes(order, a, b)))
  {
    var known, given := UrlsOf(c.policies), KeysOf(c.bodies);
    var first, second := Select(known, given, true), Select(given, known, false);
    SelectIs(known, given, true, a);
    SelectIs(given, known, false, a);
    SelectIs(known, given, true, b);
    SelectIs(given, known, false, b);
    KeysAreDistinct(c.bodies);
    forall url
      ensures url in first ==> url in known
      ensures url in second ==> url !in known
    {
      SelectIs(known, given, true, url);
      SelectIs(given, known, false, url);
    }
    JoinedOnce(first, second);
    if a in given && b in given {
      if Precedes(known, a, b) {
        PrecedesIn(known, a, b);
        SelectKeepsOrder(known, given, true, a, b);
        PrecedesLeft(first, second, a, b);
      }
      if a in known && b !in known {
        PrecedesAcross(first, second, a, b);
      }
      if a !in known && b !in known && Precedes(given, a, b) {
        SelectKeepsOrder(given, known, false, a, b);
        PrecedesRight(first, second, a, b);
      }
    }
  }

  lemma KeysAreDistinct(entries: seq<Entry>)
    requires Distinct(entries)
    ensures NoRepeats(KeysOf(entries))
  {
    var keys := KeysOf(entries);
    assert forall i :: 0 <= i < |entries| ==> keys[i] == entries[i].key;
  }

  lemma JoinedOnce(a: seq<string>, b: seq<string>)
    requires NoRepeats(a) && NoRepeats(b) && forall x :: x in a ==> x !in b
    ensures NoRepeats(a + b)
  {
    var all := a + b;
    forall i, j | 0 <= i < j < |all|
      ensures all[i] != all[j]
    {
      assert all[i] == if i < |a| then a[i] else b[i - |a|];
      assert all[j] == if j < |a| then a[j] else b[j - |a|];
      assert i < |a| <= j ==> a[i] in a && b[j - |a|] in b;
    }
  }

  lemma PrecedesIn(urls: seq<string>, a: string, b: string)
    requires Precedes(urls, a, b)
    ensures a in urls && b in urls
  {
  }

  lemma PrecedesLeft(x: seq<string>, y: seq<string>, a: string, b: string)
    requires Precedes(x, a, b)
    ensures Precedes(x + y, a, b)
  {
    var i, j :| 0 <= i < j < |x| && x[i] == a && x[j] == b;
    assert (x + y)[i] == a && (x + y)[j] == b;
  }

  lemma PrecedesRight(x: seq<string>, y: seq<string>, a: string, b: string)
    requires Precedes(y, a, b)
    ensures Precedes(x + y, a, b)
  {
    var i, j :| 0 <= i < j < |y| && y[i] == a && y[j] == b;
    assert (x + y)[|x| + i] == a && (x + y)[|x| + j] == b;
  }

  lemma PrecedesAcross(x: seq<string>, y: seq<string>, a: string, b: string)
    requires a in x && b in y
    ensures Precedes(x + y, a, b)
  {
    var i :| 0 <= i < |x| && x[i] == a;
    var j :| 0 <= j < |y| && y[j] == b;
    assert (x + y)[i] == a && (x + y)[|x| + j] == b;
  }

  // ---- the rules of each body ----

  lemma {:induction false} PolicyIs(policies: Policies, url: string, policy: W.EndpointPolicy)
    requires NoRepeats(UrlsOf(policies))
    ensures PolicyOf(policies, url) == Some(policy) <==> (url, policy) in policies
    ensures PolicyOf(policies, url).Some? <==> url in UrlsOf(policies)
  {
    if policies != [] {
      var n := |policies| - 1;
      var urls := UrlsOf(policies);
      assert UrlsOf(policies[..n]) == urls[..n];
      assert urls == urls[..n] + [urls[n]];
      PolicyIs(policies[..n], url, policy);
      assert policies == policies[..n] + [policies[n]];
      assert forall i :: 0 <= i < n ==> policies[i].0 == urls[i] && urls[i] != urls[n];
    }
  }

  /** The rules of a body: those of its url when its status is 200 and it has some, else none. */
  ghost predicate IsPolicyFor(c: Capture, url: string, policy: W.EndpointPolicy) {
    if url in c.statuses && c.statuses[url] == 200 && url in UrlsOf(c.policies) then (url, policy) in c.policies
    else policy == W.EndpointPolicy([], [])
  }

  /** The descriptors of a body: those of its source, when its status is 200 and it was captured. */
  ghost predicate AreDescriptorsFor(c: Capture, url: string, descriptors: W.Descriptors) {
    if exists i :: IsSource(c, url, i) then
      exists i :: IsSource(c, url, i) && exists meta ::
        && Entry(c.sources[i].1.0, meta) in c.bodies
        && descriptors == Indexed(c.show, meta, c.sources[i].1.1)
    else descriptors == map[]
  }

  ghost predicate IsSource(c: Capture, url: string, i: int) {
    && 0 <= i < |c.sources| && c.sources[i].0 == url
    && c.sources[i].1.0 in c.statuses && c.statuses[c.sources[i].1.0] == 200
    && c.sources[i].1.0 in KeysOf(c.bodies)
  }

  lemma {:induction false} GetSome(entries: seq<Entry>, key: string)
    ensures Get(entries, key).Some? <==> key in KeysOf(entries)
    ensures Get(entries, key).Some? ==> Entry(key, Get(entries, key).value) in entries
  {
    if entries != [] {
      var n := |entries| - 1;
      GetSome(entries[..n], key);
      assert KeysOf(entries) == KeysOf(entries[..n]) + [entries[n].key];
      assert entries == entries[..n] + [entries[n]];
    }
  }

  lemma {:induction false} IndexIs(c: Capture, n: nat, url: string)
    requires n <= |c.sources| && NoRepeats(UrlsOf(c.sources))
    ensures url in Index(c, c.sources[..n]) <==> exists i :: i < n && IsSource(c, url, i)
    ensures forall i :: i < n && IsSource(c, url, i) ==>
              var (meta, levels) := c.sources[i].1;
              Get(c.bodies, meta).Some? && url in Index(c, c.sources[..n])
              && Index(c, c.sources[..n])[url] == Indexed(c.show, Get(c.bodies, meta).value, levels)
  {
    if n > 0 {
      var urls := UrlsOf(c.sources);
      assert c.sources[..n][..n - 1] == c.sources[..n - 1];
      IndexIs(c, n - 1, url);
      GetSome(c.bodies, c.sources[n - 1].1.0);
      assert forall i :: 0 <= i < |c.sources| ==> urls[i] == c.sources[i].0;
      IndexNext(c, n, url);
    }
  }

  lemma IndexNext(c: Capture, n: nat, url: string)
    requires 0 < n <= |c.sources|
    ensures var before, after := Index(c, c.sources[..n - 1]), Index(c, c.sources[..n]);
            if IsSource(c, url, n - 1) then
              && Get(c.bodies, c.sources[n - 1].1.0).Some?
              && url in after
              && after[url] == Indexed(c.show, Get(c.bodies, c.sources[n - 1].1.0).value, c.sources[n - 1].1.1)
            else Lookup(after, url) == Lookup(before, url)
  {
    assert c.sources[..n][..n - 1] == c.sources[..n - 1];
    GetSome(c.bodies, c.sources[n - 1].1.0);
  }

  lemma {:induction false} DescriptorsAre(c: Capture, url: string)
    requires IsWellFormed(c)
    ensures AreDescriptorsFor(c, url, EnvOf(c, Index(c, c.sources), url).descriptors)
  {
    assert c.sources[..|c.sources|] == c.sources;
    IndexIs(c, |c.sources|, url);
    if i :| IsSource(c, url, i) {
      GetSome(c.bodies, c.sources[i].1.0);
    }
  }

  lemma {:induction false} JobAt(c: Capture, urls: seq<string>, i: nat)
    requires i < |urls|
    ensures JobsOf(c, urls)[i] == JobOf(c, urls[i])
  {
    if i < |urls| - 1 {
      JobAt(c, urls[..|urls| - 1], i);
    }
  }

  /** Each body is walked under its url, with its rules and its descriptors. */
  lemma {:induction false} JobsAre(c: Capture, i: nat)
    requires IsWellFormed(c) && i < |Order(c.policies, c.bodies)|
    ensures var urls := Order(c.policies, c.bodies);
            var job := JobsOf(c, urls)[i];
            && job.env.url == urls[i] && job.env.show == c.show && job.env.fullmatch == c.fullmatch
            && Entry(urls[i], job.body) in c.bodies
            && IsPolicyFor(c, urls[i], job.policy)
            && AreDescriptorsFor(c, urls[i], job.env.descriptors)
  {
    hide AreDescriptorsFor, Index;
    var urls := Order(c.policies, c.bodies);
    JobAt(c, urls, i);
    OrderIs(c, urls[i], urls[i]);
    GetSome(c.bodies, urls[i]);
    DescriptorsAre(c, urls[i]);
    PolicyIs(c.policies, urls[i], UsedPolicy(c, urls[i]));
    if PolicyOf(c.policies, urls[i]).Some? {
      PolicyIs(c.policies, urls[i], PolicyOf(c.policies, urls[i]).value);
    }
  }

  // ---- where each body ends up ----

  lemma {:induction false} PutAllKeys(urls: seq<string>, bodies: seq<Json>)
    requires |urls| == |bodies| && NoRepeats(urls)
    ensures PutAll(urls, bodies) == seq(|urls|, i requires 0 <= i < |urls| => Entry(urls[i], bodies[i]))
  {
    if urls != [] {
      var n := |urls| - 1;
      PutAllKeys(urls[..n], bodies[..n]);
      var before := PutAll(urls[..n], bodies[..n]);
      assert forall i :: 0 <= i < n ==> before[i] == Entry(urls[i], bodies[i]) && urls[i] != urls[n];
      PutNew(before, urls[n], bodies[n]);
      var all := PutAll(urls, bodies);
      assert all == before + [Entry(urls[n], bodies[n])];
      assert |all| == n + 1;
      assert forall i :: 0 <= i < n ==> all[i] == Entry(urls[i], bodies[i]);
    }
  }

  lemma {:induction false} HandledLength(c: Capture, urls: seq<string>)
    ensures |Handled(c, urls).0| == |urls|
  {
    if urls != [] {
      var n := |urls| - 1;
      HandledLength(c, urls[..n]);
      HandledNext(c, urls, n);
      assert urls[..n + 1] == urls;
    }
  }

  /** The output holds one body for each url, in the order in which they are handled. */
  lemma {:induction false} OutputIs(c: Capture)
    requires IsWellFormed(c)
    ensures var urls := Order(c.policies, c.bodies);
            var bodies := Handled(c, urls).0;
            && |bodies| == |urls|
            && PutAll(urls, bodies) == seq(|urls|, i requires 0 <= i < |urls| => Entry(urls[i], bodies[i]))
  {
    var urls := Order(c.policies, c.bodies);
    HandledLength(c, urls);
    OrderIs(c, "", "");
    PutAllKeys(urls, Handled(c, urls).0);
  }

  // ---- bodies of errors ----

  lemma {:induction false} HandledAt(c: Capture, urls: seq<string>, i: nat)
    requires i < |urls|
    ensures |Handled(c, urls).0| == |urls|
    ensures exists s: W.State :: Dense(s.keys) &&
              Handled(c, urls).0[i] == W.Walk(JobOf(c, urls[i]).env, s, JobOf(c, urls[i]).body,
                                              W.Root(JobOf(c, urls[i]).policy)).0
  {
    hide Handled, Dense, JobOf, W.Walk;
    var n := |urls| - 1;
    HandledNext(c, urls, n);
    HandledLength(c, urls[..n]);
    assert urls[..n + 1] == urls;
    if i < n {
      HandledAt(c, urls[..n], i);
      assert urls[..n][i] == urls[i];
      var s: W.State :| Dense(s.keys) &&
        Handled(c, urls[..n]).0[i] == W.Walk(JobOf(c, urls[i]).env, s, JobOf(c, urls[i]).body,
                                             W.Root(JobOf(c, urls[i]).policy)).0;
      assert Handled(c, urls).0[i] == Handled(c, urls[..n]).0[i];
    } else {
      HandledDense(c, urls[..n]);
    }
  }

  lemma HandledDense(c: Capture, urls: seq<string>)
    ensures Dense(Handled(c, urls).1.keys)
  {
    CaptureNumbers(JobsOf(c, urls));
  }

  /** The body of an error, or of a url without rules, keeps its structure and none of its values. */
  lemma {:induction false} ErrorsAreBlanked(c: Capture, i: nat, path: seq<nat>)
    requires IsWellFormed(c) && i < |Order(c.policies, c.bodies)|
    requires var url := Order(c.policies, c.bodies)[i];
             url !in UrlsOf(c.policies) || url !in c.statuses || c.statuses[url] != 200
    requires var body := GetOrNull(c.bodies, Order(c.policies, c.bodies)[i]);
             DistinctKeys(body) && NodeAt(body, path).Some? && IsLeaf(NodeAt(body, path).value)
    ensures var urls := Order(c.policies, c.bodies);
            i < |Handled(c, urls).0| &&
            NodeAt(Handled(c, urls).0[i], path) == Some(Blank(NodeAt(GetOrNull(c.bodies, urls[i]), path).value))
  {
    hide Handled, Dense, W.Walk, Order, NodeAt, DistinctKeys, IsWellFormed;
    var urls := Order(c.policies, c.bodies);
    HandledAt(c, urls, i);
    NoRulesUsed(c, urls[i]);
    var job := JobOf(c, urls[i]);
    var s: W.State :| Dense(s.keys) && Handled(c, urls).0[i] == W.Walk(job.env, s, job.body, W.Root(job.policy)).0;
    WithoutRulesAllIsBlank(job.env, s, job.body, path);
  }

  lemma NoRulesUsed(c: Capture, url: string)
    requires IsWellFormed(c)
    requires url !in UrlsOf(c.policies) || url !in c.statuses || c.statuses[url] != 200
    ensures UsedPolicy(c, url) == W.EndpointPolicy([], [])
  {
    PolicyIs(c.policies, url, W.EndpointPolicy([], []));
  }
}
