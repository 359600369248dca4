/** The anonymizer that keeps its maps in fields (tydomio/capture/anonymize.py:177-332), proved against the walk. */
module Anonymizer {
  import opened Collections
  import opened Json
  import opened Policy
  import W = AnonymizeWalk
  import opened DescriptorIndex
  import Blind = AnonymizeBlind
  import Text

  class Anonymizing {
    const descriptors: map<string, W.Descriptors>
    const show: Json -> string
    const fullmatch: (string, string) -> bool
    var url: string
    var ids: map<string, nat>
    var keys: map<string, nat>             // the n of <key-n>
    var names: map<string, map<string, nat>>
    var unknown: seq<W.UnknownLeaf>
    var renamed: seq<W.RenamedKey>

    constructor (descriptors: map<string, W.Descriptors>, show: Json -> string, fullmatch: (string, string) -> bool)
      ensures View() == W.FRESH
      ensures this.descriptors == descriptors && this.show == show && this.fullmatch == fullmatch
    {
      this.descriptors, this.show, this.fullmatch := descriptors, show, fullmatch;
      url, ids, keys, names, unknown, renamed := "", map[], map[], map[], [], [];
    }

    function View(): W.State
      reads this
    {
      W.State(ids, keys, names, unknown, renamed)
    }

    function Here(): W.Env
      reads this
    {
      W.Env(url, if url in descriptors then descriptors[url] else map[], show, fullmatch)
    }

    /** `_key` */
    method Key(key: string, p: W.Position) returns (outKey: string)
      modifies this`keys, this`renamed
      ensures (outKey, View()) == W.Key(Here(), old(View()), key, p)
    {
      if W.KeptKey(p, key) {
        return key;
      }
      if key !in keys {
        keys := keys[key := |keys| + 1];
      }
      outKey := W.KeyText(keys[key]);
      var entry := W.RenamedKey(url, W.Generic(p.generic + [outKey]));
      if entry !in renamed {
        renamed := renamed + [entry];
      }
    }

    /** `_unknown_leaf` */
    method UnknownLeaf(v: Json, p: W.Position, reason: string) returns (out: Json)
      requires IsLeaf(v)
      modifies this`unknown
      ensures (out, View()) == W.Unknown(Here(), old(View()), v, p, reason)
    {
      var leaf := W.UnknownLeaf(url, W.Generic(p.generic), TypeOf(v), reason);
      if leaf !in unknown {
        unknown := unknown + [leaf];
      }
      out := W.Placeholder(v);
    }

    /** `_id` */
    method Id(v: Json, p: W.Position) returns (out: Json)
      requires IsLeaf(v)
      modifies this`ids, this`unknown
      ensures (out, View()) == W.Id(Here(), old(View()), v, p)
    {
      if v == Null || v == Str("") {
        return v;
      }
      if !v.Int? && !v.Str? {
        out := UnknownLeaf(v, p, W.KEEP_CONSTRAINT);
        return;
      }
      var text := W.IdText(v);
      if text !in ids {
        ids := ids[text := |ids| + 1];
      }
      out := if v.Int? then Int(ids[text]) else Str(Text.IntText(ids[text]));
    }

    /** `_name` */
    method Name(rule: W.Rule, v: Json, p: W.Position) returns (out: Json)
      requires IsLeaf(v)
      modifies this`names, this`unknown
      ensures (out, View()) == W.Name(Here(), old(View()), rule, v, p)
    {
      if v == Null {
        return v;
      }
      if !v.Str? {
        out := UnknownLeaf(v, p, W.KEEP_CONSTRAINT);
        return;
      }
      var kind := W.KindOf(rule);
      var numbers := if kind in names then names[kind] else map[];
      if v.text !in numbers {
        numbers := numbers[v.text := |numbers| + 1];
      }
      names := names[kind := numbers];
      out := Str(W.NameText(kind, numbers[v.text]));
    }

    /** `_leaf` */
    method Leaf(v: Json, p: W.Position) returns (out: Json)
      requires IsLeaf(v)
      modifies this`ids, this`names, this`unknown
      ensures (out, View()) == W.Leaf(Here(), old(View()), v, p)
    {
      match W.CompleteRule(p.rules)
      case None => out := UnknownLeaf(v, p, W.NO_RULE);
      case Some(rule) =>
        match rule.action
        case KEEP =>
          if rule.keep.Some? && W.Passes(Here(), v, rule.keep.value) {
            out := v;
          } else {
            out := UnknownLeaf(v, p, W.KEEP_CONSTRAINT);
          }
        case ID => out := Id(v, p);
        case NAME => out := Name(rule, v, p);
        case VALUE => out := W.Value(Here(), v, p);
        case REDACT => out := W.Placeholder(v);
    }

    /** `_node` */
    method Node(node: Json, p: W.Position) returns (out: Json)
      modifies this`ids, this`keys, this`names, this`unknown, this`renamed
      ensures (out, View()) == W.Walk(Here(), old(View()), node, p)
      decreases node
    {
      if node.List? {
        var items := Items(node.items, W.ItemChild(p));
        out := List(items);
      } else if !node.Dict? {
        out := Leaf(node, p);
      } else {
        var entries := Entries(node.entries, p.(dicts := p.dicts + [node.entries]));
        out := Dict(entries);
      }
    }

    method Items(items: seq<Json>, p: W.Position) returns (out: seq<Json>)
      modifies this`ids, this`keys, this`names, this`unknown, this`renamed
      ensures (out, View()) == W.WalkItems(Here(), old(View()), items, p)
      decreases items
    {
      out := [];
      for i := 0 to |items|
        invariant (out, View()) == W.WalkItems(Here(), old(View()), items[..i], p)
      {
        assert items[..i + 1][..i] == items[..i];
        var item := Node(items[i], p);
        out := out + [item];
      }
      assert items[..|items|] == items;
    }

    method Entries(entries: seq<Entry>, p: W.Position) returns (out: seq<Entry>)
      modifies this`ids, this`keys, this`names, this`unknown, this`renamed
      ensures (out, View()) == W.WalkEntries(Here(), old(View()), entries, p)
      decreases entries
    {
      out := [];
      for i := 0 to |entries|
        invariant (out, View()) == W.WalkEntries(Here(), old(View()), entries[..i], p)
      {
        assert entries[..i + 1][..i] == entries[..i];
        var outKey := Key(entries[i].key, p);
        var value := Node(entries[i].value, W.KeyChild(p, entries[i].key, outKey));
        out := Put(out, outKey, value);
      }
      assert entries[..|entries|] == entries;
    }

    /** `endpoint` */
    method Endpoint(url: string, body: Json, policy: W.EndpointPolicy) returns (out: Json)
      modifies this
      ensures this.url == url
      ensures (out, View()) == W.Walk(Here(), old(View()), body, W.Root(policy))
    {
      this.url := url;
      out := Node(body, W.Root(policy));
    }
  }

  // ---- a capture ----

  type Policies = seq<(string, W.EndpointPolicy)>
  type Sources = seq<(string, (string, seq<string>))>

  const OK := 200

  /** The bodies (one per url), their statuses, and the tables of the capture. */
  datatype Capture = Capture(
    bodies: seq<Entry>,
    statuses: map<string, int>,
    policies: Policies,
    sources: Sources,
    show: Json -> string,
    fullmatch: (string, string) -> bool)

  function UrlsOf<T>(table: seq<(string, T)>): seq<string> {
    seq(|table|, i requires 0 <= i < |table| => table[i].0)
  }

  function KeysOf(entries: seq<Entry>): seq<string> {
    seq(|entries|, i requires 0 <= i < |entries| => entries[i].key)
  }

  function Select(urls: seq<string>, among: seq<string>, present: bool): seq<string> {
    if urls == [] then []
    else
      var last := urls[|urls| - 1];
      Select(urls[..|urls| - 1], among, present) + if (last in among) == present then [last] else []
  }

  /** The order of the policy, then what has no policy. */
  function Order(policies: Policies, bodies: seq<Entry>): seq<string> {
    Select(UrlsOf(policies), KeysOf(bodies), true) + Select(KeysOf(bodies), UrlsOf(policies), false)
  }

  predicate IsOk(c: Capture, url: string) {
    url in c.statuses && c.statuses[url] == OK
  }

  function Index(c: Capture, sources: Sources): map<string, W.Descriptors> {
    if sources == [] then map[]
    else
      var before := Index(c, sources[..|sources| - 1]);
      var (dataUrl, (metaUrl, levels)) := sources[|sources| - 1];
      var meta := Get(c.bodies, metaUrl);
      if IsOk(c, metaUrl) && meta.Some? then before[dataUrl := Indexed(c.show, meta.value, levels)] else before
  }

  function PolicyOf(policies: Policies, url: string): Option<W.EndpointPolicy> {
    if policies == [] then None
    else if policies[|policies| - 1].0 == url then Some(policies[|policies| - 1].1)
    else PolicyOf(policies[..|policies| - 1], url)
  }

  /** An http-error body, or one of no policy, is handled with an empty rule set. */
  function UsedPolicy(c: Capture, url: string): W.EndpointPolicy {
    var policy := PolicyOf(c.policies, url);
    if policy.None? || !IsOk(c, url) then W.EndpointPolicy([], []) else policy.value
  }

  function EnvOf(c: Capture, index: map<string, W.Descriptors>, url: string): W.Env {
    W.Env(url, if url in index then index[url] else map[], c.show, c.fullmatch)
  }

  function JobOf(c: Capture, url: string): W.Job {
    W.Job(EnvOf(c, Index(c, c.sources), url), GetOrNull(c.bodies, url), UsedPolicy(c, url))
  }

  function JobsOf(c: Capture, urls: seq<string>): (jobs: seq<W.Job>)
    ensures |jobs| == |urls|
  {
    if urls == [] then [] else JobsOf(c, urls[..|urls| - 1]) + [JobOf(c, urls[|urls| - 1])]
  }

  function PutAll(urls: seq<string>, bodies: seq<Json>): seq<Entry>
    requires |urls| == |bodies|
  {
    if urls == [] then []
    else Put(PutAll(urls[..|urls| - 1], bodies[..|bodies| - 1]), urls[|urls| - 1], bodies[|bodies| - 1])
  }

  method IndexAll(c: Capture) returns (index: map<string, W.Descriptors>)
    ensures index == Index(c, c.sources)
  {
    index := map[];
    for i := 0 to |c.sources|
      invariant index == Index(c, c.sources[..i])
    {
      assert c.sources[..i + 1][..i] == c.sources[..i];
      var (dataUrl, (metaUrl, levels)) := c.sources[i];
      var meta := Get(c.bodies, metaUrl);
      if IsOk(c, metaUrl) && meta.Some? {
        var indexed := IndexDescriptors(c.show, meta.value, levels);
        index := index[dataUrl := indexed];
      }
    }
    assert c.sources[..|c.sources|] == c.sources;
  }

  /** The bodies of the urls handled so far, and the state after them. */
  function Handled(c: Capture, urls: seq<string>): (seq<Json>, W.State) {
    W.WalkAll(W.FRESH, JobsOf(c, urls))
  }

  lemma HandledNext(c: Capture, urls: seq<string>, i: nat)
    requires i < |urls|
    ensures var (bodies, s) := Handled(c, urls[..i]);
            var job := JobOf(c, urls[i]);
            var (body, t) := W.Walk(job.env, s, job.body, W.Root(job.policy));
            Handled(c, urls[..i + 1]) == (bodies + [body], t)
  {
    assert urls[..i + 1][..i] == urls[..i];
    var jobs, job := JobsOf(c, urls[..i]), JobOf(c, urls[i]);
    assert (jobs + [job])[..|jobs|] == jobs;
  }

  lemma PutNext(urls: seq<string>, i: nat, bodies: seq<Json>, body: Json)
    requires i < |urls| && |bodies| == i
    ensures PutAll(urls[..i + 1], bodies + [body]) == Put(PutAll(urls[..i], bodies), urls[i], body)
  {
    assert urls[..i + 1][..i] == urls[..i] && (bodies + [body])[..i] == bodies;
  }

  /** `anonymize` */
  method Anonymize(c: Capture)
    returns (anonymized: seq<Entry>, unclassified: seq<W.UnknownLeaf>, renamedKeys: seq<W.RenamedKey>)
    ensures var urls := Order(c.policies, c.bodies);
            var (bodies, s) := Handled(c, urls);
            |bodies| == |urls| && anonymized == PutAll(urls, bodies)
            && unclassified == s.unknown && renamedKeys == s.renamed
  {
    var index := IndexAll(c);
    var anonymizer := new Anonymizing(index, c.show, c.fullmatch);
    var order := Order(c.policies, c.bodies);
    anonymized := [];
    ghost var bodies: seq<Json> := [];
    for i := 0 to |order|
      invariant anonymizer.descriptors == index && anonymizer.show == c.show && anonymizer.fullmatch == c.fullmatch
      invariant (bodies, anonymizer.View()) == Handled(c, order[..i])
      invariant |bodies| == i && anonymized == PutAll(order[..i], bodies)
    {
      HandledNext(c, order, i);
      var body := anonymizer.Endpoint(order[i], GetOrNull(c.bodies, order[i]), UsedPolicy(c, order[i]));
      assert anonymizer.Here() == EnvOf(c, index, order[i]);
      PutNext(order, i, bodies, body);
      bodies := bodies + [body];
      anonymized := Put(anonymized, order[i], body);
    }
    assert order[..|order|] == order;
    unclassified, renamedKeys := anonymizer.unknown, anonymizer.renamed;
  }

  // ---- the order of the bodies does not matter ----

  predicate SameBodies(a: seq<Entry>, b: seq<Entry>, url: string) {
    (url in KeysOf(a) <==> url in KeysOf(b)) && Get(a, url) == Get(b, url)
  }

  lemma {:induction false} SelectSame(urls: seq<string>, a: seq<string>, b: seq<string>, present: bool)
    requires forall url :: url in urls ==> (url in a <==> url in b)
    ensures Select(urls, a, present) == Select(urls, b, present)
  {
    if urls != [] {
      SelectSame(urls[..|urls| - 1], a, b, present);
    }
  }

  lemma {:induction false} SelectNone(urls: seq<string>, among: seq<string>)
    requires forall url :: url in urls ==> url in among
    ensures Select(urls, among, false) == []
  {
    if urls != [] {
      SelectNone(urls[..|urls| - 1], among);
    }
  }

  lemma {:induction false} IndexSame(a: Capture, b: Capture, sources: Sources)
    requires a == b.(bodies := a.bodies) && forall url :: SameBodies(a.bodies, b.bodies, url)
    ensures Index(a, sources) == Index(b, sources)
  {
    if sources != [] {
      IndexSame(a, b, sources[..|sources| - 1]);
      assert SameBodies(a.bodies, b.bodies, sources[|sources| - 1].1.0);
    }
  }

  lemma {:induction false} JobsSame(a: Capture, b: Capture, urls: seq<string>)
    requires a == b.(bodies := a.bodies) && forall url :: SameBodies(a.bodies, b.bodies, url)
    ensures JobsOf(a, urls) == JobsOf(b, urls)
  {
    if urls != [] {
      JobsSame(a, b, urls[..|urls| - 1]);
      IndexSame(a, b, a.sources);
      assert SameBodies(a.bodies, b.bodies, urls[|urls| - 1]);
    }
  }

  /**
   Two captures of the same bodies, all of urls with a policy, are handled alike whatever the order
   of their bodies.
   */
  lemma OrderOfBodiesDoesNotMatter(a: Capture, b: Capture)
    requires a == b.(bodies := a.bodies) && forall url :: SameBodies(a.bodies, b.bodies, url)
    requires forall url :: url in KeysOf(a.bodies) ==> url in UrlsOf(a.policies)
    ensures Order(a.policies, a.bodies) == Order(b.policies, b.bodies)
    ensures JobsOf(a, Order(a.policies, a.bodies)) == JobsOf(b, Order(b.policies, b.bodies))
  {
    forall url
      ensures url in KeysOf(a.bodies) <==> url in KeysOf(b.bodies)
    {
      assert SameBodies(a.bodies, b.bodies, url);
    }
    SelectSame(UrlsOf(a.policies), KeysOf(a.bodies), KeysOf(b.bodies), true);
    SelectNone(KeysOf(a.bodies), UrlsOf(a.policies));
    SelectNone(KeysOf(b.bodies), UrlsOf(a.policies));
    JobsSame(a, b, Order(a.policies, a.bodies));
  }

  // ---- redacted leaves leave no trace ----

  /** The url neither has descriptors nor is the source of those of another. */
  predicate NoSource(sources: Sources, url: string) {
    forall i :: 0 <= i < |sources| ==> sources[i].0 != url && sources[i].1.0 != url
  }

  /** The bodies differ only in that of the url, and there only in redacted leaves. */
  ghost predicate DifferAt(a: Capture, b: Capture, url: string) {
    && a == b.(bodies := a.bodies) && KeysOf(a.bodies) == KeysOf(b.bodies)
    && (forall other :: other != url ==> Get(a.bodies, other) == Get(b.bodies, other))
    && Blind.Similar(EnvOf(a, map[], url), GetOrNull(a.bodies, url), GetOrNull(b.bodies, url),
                     W.Root(UsedPolicy(a, url)).rules)
  }

  lemma {:induction false} IndexBlind(a: Capture, b: Capture, url: string, sources: Sources)
    requires DifferAt(a, b, url) && NoSource(sources, url)
    ensures Index(a, sources) == Index(b, sources) && url !in Index(a, sources)
  {
    if sources != [] {
      IndexBlind(a, b, url, sources[..|sources| - 1]);
      assert Get(a.bodies, sources[|sources| - 1].1.0) == Get(b.bodies, sources[|sources| - 1].1.0);
    }
  }

  lemma {:induction false} JobsBlind(a: Capture, b: Capture, url: string, urls: seq<string>)
    requires DifferAt(a, b, url) && NoSource(a.sources, url)
    ensures forall i :: 0 <= i < |urls| ==> Blind.SimilarJob(JobsOf(a, urls)[i], JobsOf(b, urls)[i])
  {
    if urls != [] {
      var last := urls[|urls| - 1];
      JobsBlind(a, b, url, urls[..|urls| - 1]);
      IndexBlind(a, b, url, a.sources);
      assert last == url || Get(a.bodies, last) == Get(b.bodies, last);
    }
  }

  /**
   In the body of a url without descriptor source, leaves that no rule matches or that are redacted
   may be any others of their types: the whole anonymized capture and its report are the same.
   */
  lemma RedactedLeavesLeaveNoTrace(a: Capture, b: Capture, url: string)
    requires DifferAt(a, b, url) && NoSource(a.sources, url)
    ensures Order(a.policies, a.bodies) == Order(b.policies, b.bodies)
    ensures Handled(a, Order(a.policies, a.bodies)) == Handled(b, Order(b.policies, b.bodies))
  {
    var urls := Order(a.policies, a.bodies);
    JobsBlind(a, b, url, urls);
    Blind.CaptureIsBlind(W.FRESH, JobsOf(a, urls), JobsOf(b, urls));
  }
}
