/** The dangling-backend check and its lookup cache (internal/checks/ingresses.go). */
module Ingress {
  import opened Sequences
  import opened Findings

  datatype ServiceRef = ServiceRef(name: string, portName: string, portNumber: int)

  /** Backends and HTTP sections are pointers in the source. */
  datatype Backend = Backend(service: Option<ServiceRef>)
  datatype IngressRule = IngressRule(http: Option<seq<Backend>>)
  datatype IngressItem = IngressItem(ns: string, name: string, defaultBackend: Option<Backend>, rules: seq<IngressRule>)

  datatype Port = Port(name: string, number: int)
  datatype Service = Service(ports: seq<Port>)

  type Pair = (string, string)

  /** The answer of the API server for a namespace and a name; an error counts as absence. */
  type Cluster = Pair -> Option<Service>

  datatype Listing = ListFailed(error: string) | Listed(items: seq<IngressItem>)

  /** `%q` and `%d`. */
  datatype Format = Format(quote: string -> string, decimal: int -> string)

  datatype Svc = Svc(found: bool, portNames: seq<string>, portNumbers: seq<int>)

  /** One backend reference, with the ingress it stands in. */
  datatype Use = Use(ns: string, ingress: string, ref: ServiceRef)

  const CHECK_ID := "ingresses.danglingService"

  function RefOf(b: Backend): seq<ServiceRef> {
    if b.service.Some? then [b.service.value] else []
  }

  function PathRefs(paths: seq<Backend>): seq<ServiceRef> {
    if paths == [] then [] else PathRefs(paths[..|paths| - 1]) + RefOf(paths[|paths| - 1])
  }

  function RuleRefs(rules: seq<IngressRule>): seq<ServiceRef> {
    if rules == [] then []
    else
      var last := rules[|rules| - 1];
      RuleRefs(rules[..|rules| - 1]) + if last.http.Some? then PathRefs(last.http.value) else []
  }

  function BackendsOf(ing: IngressItem): seq<ServiceRef> {
    (if ing.defaultBackend.Some? then RefOf(ing.defaultBackend.value) else []) + RuleRefs(ing.rules)
  }

  function UsesIn(ing: IngressItem, refs: seq<ServiceRef>): (uses: seq<Use>)
    ensures |uses| == |refs|
  {
    if refs == [] then [] else UsesIn(ing, refs[..|refs| - 1]) + [Use(ing.ns, ing.name, refs[|refs| - 1])]
  }

  /** Every backend reference of every ingress, in the order the check visits them. */
  function Uses(ings: seq<IngressItem>): seq<Use> {
    if ings == [] then []
    else Uses(ings[..|ings| - 1]) + UsesIn(ings[|ings| - 1], BackendsOf(ings[|ings| - 1]))
  }

  function PairOf(u: Use): Pair {
    (u.ns, u.ref.name)
  }

  function CacheKey(p: Pair): string {
    p.0 + "/" + p.1
  }

  function Names(ports: seq<Port>): seq<string> {
    if ports == [] then [] else Names(ports[..|ports| - 1]) + [ports[|ports| - 1].name]
  }

  function Numbers(ports: seq<Port>): seq<int> {
    if ports == [] then [] else Numbers(ports[..|ports| - 1]) + [ports[|ports| - 1].number]
  }

  function SvcOf(s: Option<Service>): Svc {
    match s
    case None => Svc(false, [], [])
    case Some(svc) => Svc(true, Names(svc.ports), Numbers(svc.ports))
  }

  function ResourceId(kind: string, ns: string, name: string): string {
    if ns == "" then kind + "/" + name else kind + "/" + name + " in ns/" + ns
  }

  function Dangling(u: Use, message: string): Finding {
    Finding(CHECK_ID, CRIT, ResourceId("ingress", u.ns, u.ingress), message, map[], 0)
  }

  /** What one backend reference contributes, given the service it was resolved to. */
  function Emit(u: Use, svc: Svc, fmt: Format): seq<Finding> {
    if !svc.found then [Dangling(u, "backend service/" + u.ref.name + " not found")]
    else
      (if u.ref.portName != "" && u.ref.portName !in svc.portNames
       then [Dangling(u, "service/" + u.ref.name + " has no port named " + fmt.quote(u.ref.portName))] else [])
      + (if u.ref.portNumber > 0 && u.ref.portNumber !in svc.portNumbers
         then [Dangling(u, "service/" + u.ref.name + " has no port " + fmt.decimal(u.ref.portNumber))] else [])
  }

  /** Reference behaviour: every backend is looked up afresh. */
  function Resolved(uses: seq<Use>, cluster: Cluster, fmt: Format): seq<Finding> {
    if uses == [] then []
    else
      var u := uses[|uses| - 1];
      Resolved(uses[..|uses| - 1], cluster, fmt) + Emit(u, SvcOf(cluster(PairOf(u))), fmt)
  }

  function OrAllResolve(out: seq<Finding>): seq<Finding> {
    if out == [] then [Finding(CHECK_ID, Findings.OK, "", "all ingress backends resolve", map[], 0)] else out
  }

  /** The pair of the first use with this cache key. */
  function FirstWithKey(uses: seq<Use>, key: string): Option<Pair> {
    if uses == [] then None
    else
      match FirstWithKey(uses[..|uses| - 1], key)
      case Some(p) => Some(p)
      case None => if CacheKey(PairOf(uses[|uses| - 1])) == key then Some(PairOf(uses[|uses| - 1])) else None
  }

  /** The pair whose lookup answers `u` after the uses in `before`: an earlier one with the same key, or its own. */
  function ServedBy(before: seq<Use>, u: Use): Pair {
    match FirstWithKey(before, CacheKey(PairOf(u)))
    case Some(p) => p
    case None => PairOf(u)
  }

  /** What the check reports with its cache, before the all-clear is added. */
  function CachedResolved(uses: seq<Use>, cluster: Cluster, fmt: Format): seq<Finding> {
    if uses == [] then []
    else
      var init, u := uses[..|uses| - 1], uses[|uses| - 1];
      CachedResolved(init, cluster, fmt) + Emit(u, SvcOf(cluster(ServedBy(init, u))), fmt)
  }

  /** The lookups the check makes: one for each key it has not met before. */
  function Lookups(uses: seq<Use>): seq<Pair> {
    if uses == [] then []
    else
      var init, p := uses[..|uses| - 1], PairOf(uses[|uses| - 1]);
      Lookups(init) + if FirstWithKey(init, CacheKey(p)).Some? then [] else [p]
  }

  // ---------- The check itself ----------

  method CollectIngressBackends(ing: IngressItem) returns (out: seq<ServiceRef>)
    ensures out == BackendsOf(ing)
  {
    out := [];
    if ing.defaultBackend.Some? && ing.defaultBackend.value.service.Some? {
      out := out + [ing.defaultBackend.value.service.value];
    }
    ghost var before := out;
    for r := 0 to |ing.rules|
      invariant out == before + RuleRefs(ing.rules[..r])
    {
      OneMoreRule(before, ing.rules, r);
      var rule := ing.rules[r];
      if rule.http.None? {
        continue;
      }
      out := AppendPaths(out, rule.http.value);
    }
    assert ing.rules[..|ing.rules|] == ing.rules;
  }

  lemma OneMoreRule(before: seq<ServiceRef>, rules: seq<IngressRule>, r: nat)
    requires r < |rules|
    ensures before + RuleRefs(rules[..r + 1])
         == if rules[r].http.Some? then before + RuleRefs(rules[..r]) + PathRefs(rules[r].http.value)
            else before + RuleRefs(rules[..r])
  {
    assert rules[..r + 1][..r] == rules[..r];
  }

  /** The inner loop of `collectIngressBackends`. */
  method AppendPaths(before: seq<ServiceRef>, paths: seq<Backend>) returns (out: seq<ServiceRef>)
    ensures out == before + PathRefs(paths)
  {
    out := before;
    for p := 0 to |paths|
      invariant out == before + PathRefs(paths[..p])
    {
      assert paths[..p + 1][..p] == paths[..p];
      if paths[p].service.Some? {
        out := out + [paths[p].service.value];
      }
    }
    assert paths[..|paths|] == paths;
  }

  /** The cached record for a service: absent, or its ports split into names and numbers. */
  method Resolve(cluster: Cluster, p: Pair) returns (svc: Svc)
    ensures svc == SvcOf(cluster(p))
  {
    var answer := cluster(p);
    if answer.None? {
      return Svc(false, [], []);
    }
    svc := Svc(true, [], []);
    var ports := answer.value.ports;
    for i := 0 to |ports|
      invariant svc == Svc(true, Names(ports[..i]), Numbers(ports[..i]))
    {
      assert ports[..i + 1][..i] == ports[..i];
      svc := svc.(portNames := svc.portNames + [ports[i].name]);
      svc := svc.(portNumbers := svc.portNumbers + [ports[i].number]);
    }
    assert ports[..|ports|] == ports;
  }

  method Contains<T(==)>(xs: seq<T>, x: T) returns (found: bool)
    ensures found <==> x in xs
  {
    for i := 0 to |xs|
      invariant x !in xs[..i]
    {
      if xs[i] == x {
        return true;
      }
    }
    return false;
  }

  /** The findings for one reference, appended to `out`. */
  method Judge(u: Use, svc: Svc, fmt: Format, before: seq<Finding>) returns (out: seq<Finding>)
    ensures out == before + Emit(u, svc, fmt)
  {
    out := before;
    if !svc.found {
      return out + [Dangling(u, "backend service/" + u.ref.name + " not found")];
    }
    var named := Contains(svc.portNames, u.ref.portName);
    if u.ref.portName != "" && !named {
      out := out + [Dangling(u, "service/" + u.ref.name + " has no port named " + fmt.quote(u.ref.portName))];
    }
    var numbered := Contains(svc.portNumbers, u.ref.portNumber);
    if u.ref.portNumber > 0 && !numbered {
      out := out + [Dangling(u, "service/" + u.ref.name + " has no port " + fmt.decimal(u.ref.portNumber))];
    }
  }

  /** The cache holds exactly the keys met so far, each with the answer for the first pair that had it. */
  ghost predicate CacheOk(cache: map<string, Svc>, uses: seq<Use>, cluster: Cluster) {
    forall k {:trigger k in cache} {:trigger FirstWithKey(uses, k)} ::
      match FirstWithKey(uses, k)
      case None => k !in cache
      case Some(p) => k in cache && cache[k] == SvcOf(cluster(p))
  }

  /** What the two loops have done after visiting `uses`. */
  ghost predicate Visited(uses: seq<Use>, cluster: Cluster, fmt: Format, out: seq<Finding>, looked: seq<Pair>,
      cache: map<string, Svc>) {
    && out == CachedResolved(uses, cluster, fmt)
    && looked == Lookups(uses)
    && CacheOk(cache, uses, cluster)
  }

  method Run(listed: Listing, cluster: Cluster, fmt: Format) returns (out: seq<Finding>, looked: seq<Pair>)
    ensures listed.ListFailed? ==>
      looked == [] && out == [Finding(CHECK_ID, UNKNOWN, "", "list ingresses: " + listed.error, map[], 0)]
    ensures listed.Listed? ==>
      && out == OrAllResolve(CachedResolved(Uses(listed.items), cluster, fmt))
      && looked == Lookups(Uses(listed.items))
  {
    looked := [];
    if listed.ListFailed? {
      return [Finding(CHECK_ID, UNKNOWN, "", "list ingresses: " + listed.error, map[], 0)], looked;
    }
    var items := listed.items;
    var svcByKey: map<string, Svc> := map[];
    out := [];
    for i := 0 to |items|
      invariant Visited(Uses(items[..i]), cluster, fmt, out, looked, svcByKey)
    {
      assert items[..i + 1][..i] == items[..i];
      out, looked, svcByKey := CheckIngress(items[i], cluster, fmt, out, looked, svcByKey, Uses(items[..i]));
    }
    assert items[..|items|] == items;
    if |out| == 0 {
      out := [Finding(CHECK_ID, Findings.OK, "", "all ingress backends resolve", map[], 0)];
    }
  }

  /** The inner loop of the check: one ingress, sharing the cache with those before it. */
  method CheckIngress(ing: IngressItem, cluster: Cluster, fmt: Format,
      out0: seq<Finding>, looked0: seq<Pair>, cache0: map<string, Svc>, ghost done: seq<Use>)
      returns (out: seq<Finding>, looked: seq<Pair>, svcByKey: map<string, Svc>)
    requires Visited(done, cluster, fmt, out0, looked0, cache0)
    ensures Visited(done + UsesIn(ing, BackendsOf(ing)), cluster, fmt, out, looked, svcByKey)
  {
    out, looked, svcByKey := out0, looked0, cache0;
    var refs := CollectIngressBackends(ing);
    assert done + UsesIn(ing, refs[..0]) == done;
    for j := 0 to |refs|
      invariant Visited(done + UsesIn(ing, refs[..j]), cluster, fmt, out, looked, svcByKey)
    {
      var ref := refs[j];
      ghost var uses, u := done + UsesIn(ing, refs[..j]), Use(ing.ns, ing.name, ref);
      OneMoreUse(done, ing, refs, j);
      VisitOne(uses, u, cluster, fmt, out, looked, svcByKey);
      var key := ing.ns + "/" + ref.name;
      if key !in svcByKey {
        var svc := Resolve(cluster, (ing.ns, ref.name));
        looked := looked + [(ing.ns, ref.name)];
        svcByKey := svcByKey[key := svc];
      }
      out := Judge(Use(ing.ns, ing.name, ref), svcByKey[key], fmt, out);
    }
    assert refs[..|refs|] == refs;
  }

  lemma OneMoreUse(done: seq<Use>, ing: IngressItem, refs: seq<ServiceRef>, j: nat)
    requires j < |refs|
    ensures done + UsesIn(ing, refs[..j + 1]) == done + UsesIn(ing, refs[..j]) + [Use(ing.ns, ing.name, refs[j])]
  {
    assert refs[..j + 1][..j] == refs[..j];
  }

  lemma FirstWithKeySnoc(uses: seq<Use>, u: Use, key: string)
    ensures FirstWithKey(uses + [u], key)
         == if FirstWithKey(uses, key).Some? then FirstWithKey(uses, key)
            else if CacheKey(PairOf(u)) == key then Some(PairOf(u)) else None
  {
    assert (uses + [u])[..|uses|] == uses;
  }

  /** On a miss the cache is filled and on a hit it is kept; either way it is right for one use more. */
  lemma VisitOne(uses: seq<Use>, u: Use, cluster: Cluster, fmt: Format, out: seq<Finding>, looked: seq<Pair>,
      cache: map<string, Svc>)
    requires Visited(uses, cluster, fmt, out, looked, cache)
    ensures var key := CacheKey(PairOf(u));
      var cache' := if key in cache then cache else cache[key := SvcOf(cluster(PairOf(u)))];
      var looked' := if key in cache then looked else looked + [PairOf(u)];
      Visited(uses + [u], cluster, fmt, out + Emit(u, cache'[key], fmt), looked', cache')
  {
    hide Emit, SvcOf;
    var key := CacheKey(PairOf(u));
    assert (uses + [u])[..|uses|] == uses;
    assert looked + [] == looked;
    var cache' := if key in cache then cache else cache[key := SvcOf(cluster(PairOf(u)))];
    assert key in cache <==> FirstWithKey(uses, key).Some?;
    assert CacheOk(cache', uses + [u], cluster) by {
      forall k
        ensures FirstWithKey(uses + [u], k)
             == if FirstWithKey(uses, k).Some? then FirstWithKey(uses, k)
                else if key == k then Some(PairOf(u)) else None
      {
        FirstWithKeySnoc(uses, u, k);
      }
    }
  }

  // ---------- What the cache is worth ----------

  /** Different backends have different cache keys. */
  ghost predicate KeysDistinguish(uses: seq<Use>) {
    forall i, j :: 0 <= i < |uses| && 0 <= j < |uses| && CacheKey(PairOf(uses[i])) == CacheKey(PairOf(uses[j])) ==>
      PairOf(uses[i]) == PairOf(uses[j])
  }

  lemma {:induction false} FirstWithKeyIsUsed(uses: seq<Use>, key: string)
    ensures FirstWithKey(uses, key).Some? <==> exists i :: 0 <= i < |uses| && CacheKey(PairOf(uses[i])) == key
    ensures FirstWithKey(uses, key).Some? ==>
      exists i :: 0 <= i < |uses| && PairOf(uses[i]) == FirstWithKey(uses, key).value
        && CacheKey(PairOf(uses[i])) == key
  {
    if uses != [] {
      var init := uses[..|uses| - 1];
      FirstWithKeyIsUsed(init, key);
      if FirstWithKey(init, key).Some? {
        var i :| 0 <= i < |init| && PairOf(init[i]) == FirstWithKey(init, key).value
          && CacheKey(PairOf(init[i])) == key;
        assert PairOf(uses[i]) == PairOf(init[i]);
      } else {
        assert forall i :: 0 <= i < |init| ==> init[i] == uses[i];
      }
    }
  }

  lemma {:induction false} CacheIsTransparent(uses: seq<Use>, cluster: Cluster, fmt: Format)
    requires KeysDistinguish(uses)
    ensures CachedResolved(uses, cluster, fmt) == Resolved(uses, cluster, fmt)
  {
    if uses != [] {
      var init, u := uses[..|uses| - 1], uses[|uses| - 1];
      assert forall i :: 0 <= i < |init| ==> init[i] == uses[i];
      CacheIsTransparent(init, cluster, fmt);
      FirstWithKeyIsUsed(init, CacheKey(PairOf(u)));
    }
  }

  /** A cluster where only `p` is missing and every other service has all ports that are asked for. */
  function OnlyMissing(p: Pair, uses: seq<Use>): Cluster {
    q => if q == p then None else Some(Service(AllPorts(uses)))
  }

  function AllPorts(uses: seq<Use>): seq<Port> {
    if uses == [] then []
    else AllPorts(uses[..|uses| - 1]) + [Port(uses[|uses| - 1].ref.portName, uses[|uses| - 1].ref.portNumber)]
  }

  lemma {:induction false} AllPortsCover(uses: seq<Use>, u: Use)
    requires u in uses
    ensures u.ref.portName in Names(AllPorts(uses)) && u.ref.portNumber in Numbers(AllPorts(uses))
  {
    if u in uses[..|uses| - 1] {
      AllPortsCover(uses[..|uses| - 1], u);
    }
  }

  /** In such a cluster the check reports exactly the references it resolves to `p`. */
  lemma MissingEmits(p: Pair, all: seq<Use>, u: Use, q: Pair, fmt: Format)
    requires u in all
    ensures |Emit(u, SvcOf(OnlyMissing(p, all)(q)), fmt)| == if q == p then 1 else 0
  {
    AllPortsCover(all, u);
  }

  /** Some use shares the cache key of `p` without being for `p`. */
  predicate Clashes(uses: seq<Use>, p: Pair) {
    uses != [] &&
    (Clashes(uses[..|uses| - 1], p)
     || (CacheKey(PairOf(uses[|uses| - 1])) == CacheKey(p) && PairOf(uses[|uses| - 1]) != p))
  }

  lemma {:induction false} ClashesAt(uses: seq<Use>, p: Pair, i: nat)
    requires i < |uses| && CacheKey(PairOf(uses[i])) == CacheKey(p) && PairOf(uses[i]) != p
    ensures Clashes(uses, p)
  {
    if i < |uses| - 1 {
      ClashesAt(uses[..|uses| - 1], p, i);
    }
  }

  /** Where the first user of a key is missing, its cache entry condemns every other user of that key. */
  lemma {:induction false} CacheReportsMore(uses: seq<Use>, all: seq<Use>, p: Pair, fmt: Format)
    requires forall i {:trigger uses[i]} :: 0 <= i < |uses| ==> uses[i] in all
    requires FirstWithKey(uses, CacheKey(p)).None? || FirstWithKey(uses, CacheKey(p)) == Some(p)
    ensures |Resolved(uses, OnlyMissing(p, all), fmt)| + (if Clashes(uses, p) then 1 else 0)
         <= |CachedResolved(uses, OnlyMissing(p, all), fmt)|
  {
    hide Emit, SvcOf, OnlyMissing;
    if uses != [] {
      var init, u := uses[..|uses| - 1], uses[|uses| - 1];
      CacheReportsMore(init, all, p, fmt);
      MissingEmits(p, all, u, PairOf(u), fmt);
      MissingEmits(p, all, u, ServedBy(init, u), fmt);
    }
  }

  lemma {:induction false} MissingIsReported(uses: seq<Use>, all: seq<Use>, k: nat, fmt: Format)
    requires k < |uses|
    ensures |Resolved(uses, OnlyMissing(PairOf(uses[k]), all), fmt)| > 0
  {
    if k < |uses| - 1 {
      MissingIsReported(uses[..|uses| - 1], all, k, fmt);
    }
  }

  /** Whatever the cluster holds, the cached check reports what fresh lookups would. */
  ghost predicate CacheInvisible(uses: seq<Use>, fmt: Format) {
    forall cluster {:trigger CachedResolved(uses, cluster, fmt)} ::
      OrAllResolve(CachedResolved(uses, cluster, fmt)) == OrAllResolve(Resolved(uses, cluster, fmt))
  }

  /** A backend answered from another one's entry can be told by a cluster that lacks only the other. */
  lemma ClashShows(uses: seq<Use>, i: nat, fmt: Format)
    requires i < |uses| && FirstWithKey(uses, CacheKey(PairOf(uses[i]))) != Some(PairOf(uses[i]))
    ensures !CacheInvisible(uses, fmt)
  {
    hide Resolved, CachedResolved;
    var key := CacheKey(PairOf(uses[i]));
    FirstWithKeyIsUsed(uses, key);
    var p := FirstWithKey(uses, key).value;
    var k :| 0 <= k < |uses| && PairOf(uses[k]) == p && CacheKey(PairOf(uses[k])) == key;
    ClashesAt(uses, p, i);
    CacheReportsMore(uses, uses, p, fmt);
    MissingIsReported(uses, uses, k, fmt);
    var cluster := OnlyMissing(p, uses);
    assert |CachedResolved(uses, cluster, fmt)| > |Resolved(uses, cluster, fmt)| > 0;
  }

  /** The cache cannot be noticed, in any cluster, exactly when no two backends share a key. */
  lemma CacheInvisibleExactly(uses: seq<Use>, fmt: Format)
    ensures CacheInvisible(uses, fmt) <==> KeysDistinguish(uses)
  {
    if KeysDistinguish(uses) {
      forall cluster
        ensures CachedResolved(uses, cluster, fmt) == Resolved(uses, cluster, fmt)
      {
        CacheIsTransparent(uses, cluster, fmt);
      }
    } else {
      var i, j :| 0 <= i < |uses| && 0 <= j < |uses|
        && CacheKey(PairOf(uses[i])) == CacheKey(PairOf(uses[j])) && PairOf(uses[i]) != PairOf(uses[j]);
      if FirstWithKey(uses, CacheKey(PairOf(uses[i]))) != Some(PairOf(uses[i])) {
        ClashShows(uses, i, fmt);
      } else {
        ClashShows(uses, j, fmt);
      }
    }
  }

  /** Kubernetes namespaces contain no slash, and then no two backends share a key. */
  lemma PlainNamespacesDistinguish(uses: seq<Use>)
    requires forall i :: 0 <= i < |uses| ==> '/' !in uses[i].ns
    ensures KeysDistinguish(uses)
  {
    forall i, j | 0 <= i < |uses| && 0 <= j < |uses| && CacheKey(PairOf(uses[i])) == CacheKey(PairOf(uses[j]))
      ensures PairOf(uses[i]) == PairOf(uses[j])
    {
      KeyFixesPair(PairOf(uses[i]), PairOf(uses[j]));
    }
  }

  lemma KeyFixesPair(p: Pair, q: Pair)
    requires '/' !in p.0 && '/' !in q.0 && CacheKey(p) == CacheKey(q)
    ensures p == q
  {
    var k := CacheKey(p);
    assert k[|p.0|] == '/' && k[|q.0|] == '/';
    assert forall i :: 0 <= i < |p.0| ==> k[i] == p.0[i];
    assert forall i :: 0 <= i < |q.0| ==> k[i] == q.0[i];
    assert |p.0| == |q.0|;
    assert p.0 == k[..|p.0|] == q.0;
    assert p.1 == k[|p.0| + 1..] == q.1;
  }

  /** With a slash in a namespace the second service is answered from the first one's entry. */
  lemma SlashInNamespaceClashes()
    ensures CacheKey(("a", "b/c")) == CacheKey(("a/b", "c")) && ("a", "b/c") != ("a/b", "c")
  {
    assert "a" + "/" + "b/c" == "a/b" + "/" + "c";
    assert |"a"| != |"a/b"|;
  }

  /** No key is looked up twice, and every key that is needed is looked up. */
  lemma {:induction false} LookupsAreDistinct(uses: seq<Use>)
    ensures forall i, j :: 0 <= i < j < |Lookups(uses)| ==> CacheKey(Lookups(uses)[i]) != CacheKey(Lookups(uses)[j])
    ensures forall k {:trigger FirstWithKey(uses, k)} ::
      FirstWithKey(uses, k).Some? <==> exists i :: 0 <= i < |Lookups(uses)| && CacheKey(Lookups(uses)[i]) == k
  {
    if uses != [] {
      var init, u := uses[..|uses| - 1], uses[|uses| - 1];
      assert uses == init + [u];
      LookupsAreDistinct(init);
      var before, after := Lookups(init), Lookups(uses);
      forall k
        ensures FirstWithKey(uses, k).Some? <==> exists i :: 0 <= i < |after| && CacheKey(after[i]) == k
      {
        FirstWithKeySnoc(init, u, k);
        LookedUpSnoc(before, PairOf(u), k);
        assert before + [] == before;
      }
    }
  }

  lemma LookedUpSnoc(pairs: seq<Pair>, p: Pair, k: string)
    ensures (exists i :: 0 <= i < |pairs + [p]| && CacheKey((pairs + [p])[i]) == k)
       <==> CacheKey(p) == k || exists i :: 0 <= i < |pairs| && CacheKey(pairs[i]) == k
  {
    var all := pairs + [p];
    assert all[|pairs|] == p;
    if i :| 0 <= i < |pairs| && CacheKey(pairs[i]) == k {
      assert CacheKey(all[i]) == k;
    }
  }

  // ---------- What the report means ----------

  /** The service exists and has the port the ingress asks for, by name, by number, or both. */
  ghost predicate Resolves(u: Use, cluster: Cluster) {
    match cluster(PairOf(u))
    case None => false
    case Some(svc) =>
      && (u.ref.portName != "" ==> exists i :: 0 <= i < |svc.ports| && svc.ports[i].name == u.ref.portName)
      && (u.ref.portNumber > 0 ==> exists i :: 0 <= i < |svc.ports| && svc.ports[i].number == u.ref.portNumber)
  }

  lemma {:induction false} PortMembers(ports: seq<Port>, name: string, number: int)
    ensures name in Names(ports) <==> exists i :: 0 <= i < |ports| && ports[i].name == name
    ensures number in Numbers(ports) <==> exists i :: 0 <= i < |ports| && ports[i].number == number
  {
    if ports != [] {
      var init := ports[..|ports| - 1];
      PortMembers(init, name, number);
      if i :| 0 <= i < |init| && init[i].name == name {
        assert ports[i].name == name;
      }
      if i :| 0 <= i < |init| && init[i].number == number {
        assert ports[i].number == number;
      }
      assert forall i :: 0 <= i < |init| ==> init[i] == ports[i];
    }
  }

  lemma SilentExactly(u: Use, cluster: Cluster, fmt: Format)
    ensures Emit(u, SvcOf(cluster(PairOf(u))), fmt) == [] <==> Resolves(u, cluster)
  {
    if cluster(PairOf(u)).Some? {
      PortMembers(cluster(PairOf(u)).value.ports, u.ref.portName, u.ref.portNumber);
    }
  }

  /** The all-clear is given exactly when every backend of every ingress resolves. */
  lemma {:induction false} AllClearExactly(uses: seq<Use>, cluster: Cluster, fmt: Format)
    ensures Resolved(uses, cluster, fmt) == [] <==> forall i {:trigger uses[i]} :: 0 <= i < |uses| ==>
      Resolves(uses[i], cluster)
  {
    hide Resolves, Emit, SvcOf;
    if uses != [] {
      var init := uses[..|uses| - 1];
      AllClearExactly(init, cluster, fmt);
      SilentExactly(uses[|uses| - 1], cluster, fmt);
      assert forall i {:trigger uses[i]} :: 0 <= i < |init| ==> init[i] == uses[i];
    }
  }

  lemma {:induction false} CachedAreCritical(uses: seq<Use>, cluster: Cluster, fmt: Format)
    ensures forall f :: f in CachedResolved(uses, cluster, fmt) ==> f.status == CRIT
  {
    if uses != [] {
      CachedAreCritical(uses[..|uses| - 1], cluster, fmt);
    }
  }

  lemma {:induction false} UsesHaveNamespaces(ings: seq<IngressItem>)
    requires forall i :: 0 <= i < |ings| ==> '/' !in ings[i].ns
    ensures forall i :: 0 <= i < |Uses(ings)| ==> '/' !in Uses(ings)[i].ns
  {
    if ings != [] {
      var last := ings[|ings| - 1];
      UsesHaveNamespaces(ings[..|ings| - 1]);
      UsesShareNamespace(last, BackendsOf(last));
    }
  }

  lemma {:induction false} UsesShareNamespace(ing: IngressItem, refs: seq<ServiceRef>)
    ensures forall i :: 0 <= i < |refs| ==> UsesIn(ing, refs)[i].ns == ing.ns
  {
    if refs != [] {
      UsesShareNamespace(ing, refs[..|refs| - 1]);
    }
  }

  /** What `Run` returns for a list of ingresses. */
  function Reported(ings: seq<IngressItem>, cluster: Cluster, fmt: Format): seq<Finding> {
    OrAllResolve(CachedResolved(Uses(ings), cluster, fmt))
  }

  /**
    The check as it is run, with its cache: it is OK, with the single all-clear, exactly when
    every backend of every ingress resolves, and CRIT in all its findings otherwise.
   */
  lemma {:induction false} CheckClearExactly(ings: seq<IngressItem>, cluster: Cluster, fmt: Format)
    requires forall i :: 0 <= i < |ings| ==> '/' !in ings[i].ns
    ensures var out, uses := Reported(ings, cluster, fmt), Uses(ings);
      var allResolve := forall i {:trigger uses[i]} :: 0 <= i < |uses| ==> Resolves(uses[i], cluster);
      && (Verdict(out) == Findings.OK <==> allResolve)
      && (out == OrAllResolve([]) <==> allResolve)
      && (!allResolve ==> out != [] && forall f :: f in out ==> f.status == CRIT)
  {
    hide Resolves, Uses, CachedResolved, Resolved, OrAllResolve, KeysDistinguish;
    var uses := Uses(ings);
    UsesHaveNamespaces(ings);
    PlainNamespacesDistinguish(uses);
    CacheIsTransparent(uses, cluster, fmt);
    AllClearExactly(uses, cluster, fmt);
    CachedAreCritical(uses, cluster, fmt);
    NonEmptyIsReported(CachedResolved(uses, cluster, fmt));
    VerdictOfCached(CachedResolved(uses, cluster, fmt));
  }

  lemma NonEmptyIsReported(out: seq<Finding>)
    ensures out != [] ==> OrAllResolve(out) == out
  {
  }

  lemma VerdictOfCached(out: seq<Finding>)
    requires forall f :: f in out ==> f.status == CRIT
    ensures Verdict(OrAllResolve(out)) == Findings.OK <==> out == []
    ensures OrAllResolve(out) == OrAllResolve([]) <==> out == []
  {
    if out == [] {
      assert forall i :: 0 <= i < |OrAllResolve(out)| ==> OrAllResolve(out)[i].status == Findings.OK;
    } else {
      assert out[0] in out;
      assert Has(out, CRIT);
      assert OrAllResolve([])[0].status == Findings.OK;
    }
  }
}
