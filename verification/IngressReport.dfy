/** What the dangling-backend check reports, in terms of the ingress objects it reads. */
module IngressReport {
  import opened Sequences
  import opened Findings
  import opened Ingress

  ghost predicate AsksIn(rules: seq<IngressRule>, ref: ServiceRef) {
    exists r, p :: 0 <= r < |rules| && rules[r].http.Some? && 0 <= p < |rules[r].http.value|
      && rules[r].http.value[p] == Backend(Some(ref))
  }

  /** The backend stands in the ingress: as its default, or in a path of a rule with an HTTP section. */
  ghost predicate Asks(ing: IngressItem, ref: ServiceRef) {
    || ing.defaultBackend == Some(Backend(Some(ref)))
    || AsksIn(ing.rules, ref)
  }

  lemma {:induction false} PathMembers(paths: seq<Backend>, ref: ServiceRef)
    ensures ref in PathRefs(paths) <==> exists p :: 0 <= p < |paths| && paths[p] == Backend(Some(ref))
  {
    if paths != [] {
      var init := paths[..|paths| - 1];
      PathMembers(init, ref);
      if p :| 0 <= p < |init| && init[p] == Backend(Some(ref)) {
        assert paths[p] == Backend(Some(ref));
      }
      if p :| 0 <= p < |paths| && paths[p] == Backend(Some(ref)) {
        assert p < |init| ==> init[p] == Backend(Some(ref));
      }
    }
  }

  lemma {:induction false} RuleMembers(rules: seq<IngressRule>, ref: ServiceRef)
    ensures ref in RuleRefs(rules) <==> AsksIn(rules, ref)
  {
    if rules != [] {
      var init, last := rules[..|rules| - 1], rules[|rules| - 1];
      RuleMembers(init, ref);
      if last.http.Some? {
        PathMembers(last.http.value, ref);
      }
      AsksInSnoc(rules, ref);
    }
  }

  lemma AsksInSnoc(rules: seq<IngressRule>, ref: ServiceRef)
    requires rules != []
    ensures var last := rules[|rules| - 1];
      AsksIn(rules, ref) <==> (AsksIn(rules[..|rules| - 1], ref)
        || (last.http.Some? && exists p :: 0 <= p < |last.http.value| && last.http.value[p] == Backend(Some(ref))))
  {
    var init, last := rules[..|rules| - 1], rules[|rules| - 1];
    if AsksIn(init, ref) {
      var r, p :| 0 <= r < |init| && init[r].http.Some? && 0 <= p < |init[r].http.value|
        && init[r].http.value[p] == Backend(Some(ref));
      assert rules[r].http.value[p] == Backend(Some(ref));
    }
    if AsksIn(rules, ref) {
      var r, p :| 0 <= r < |rules| && rules[r].http.Some? && 0 <= p < |rules[r].http.value|
        && rules[r].http.value[p] == Backend(Some(ref));
      assert r < |init| ==> init[r].http.value[p] == Backend(Some(ref));
    }
  }

  /** The backends collected from an ingress are exactly those that stand in it. */
  lemma {:induction false} BackendsExactly(ing: IngressItem, ref: ServiceRef)
    ensures ref in BackendsOf(ing) <==> Asks(ing, ref)
  {
    RuleMembers(ing.rules, ref);
  }

  lemma {:induction false} UsesInMembers(ing: IngressItem, refs: seq<ServiceRef>, u: Use)
    ensures u in UsesIn(ing, refs) <==> u.ref in refs && u.ns == ing.ns && u.ingress == ing.name
  {
    if refs != [] {
      UsesInMembers(ing, refs[..|refs| - 1], u);
    }
  }

  /** `u` is for a backend that stands in one of the ingresses. */
  ghost predicate UsedIn(ings: seq<IngressItem>, u: Use) {
    exists i {:trigger ings[i]} ::
      0 <= i < |ings| && Asks(ings[i], u.ref) && u.ns == ings[i].ns && u.ingress == ings[i].name
  }

  lemma UsedInSnoc(ings: seq<IngressItem>, u: Use)
    requires ings != []
    ensures var last := ings[|ings| - 1];
      UsedIn(ings, u) <==>
        (UsedIn(ings[..|ings| - 1], u) || (Asks(last, u.ref) && u.ns == last.ns && u.ingress == last.name))
  {
    hide Asks;
    var init := ings[..|ings| - 1];
    assert forall i {:trigger ings[i]} :: 0 <= i < |init| ==> init[i] == ings[i];
  }

  /** The uses the check visits are exactly the backends of all ingresses. */
  lemma {:induction false} UsesExactly(ings: seq<IngressItem>, u: Use)
    ensures u in Uses(ings) <==> UsedIn(ings, u)
  {
    hide Asks, UsedIn, UsesIn, BackendsOf;
    if ings == [] {
      NothingUsed(u);
    } else {
      var init, last := ings[..|ings| - 1], ings[|ings| - 1];
      UsesExactly(init, u);
      UsesInMembers(last, BackendsOf(last), u);
      BackendsExactly(last, u.ref);
      UsedInSnoc(ings, u);
    }
  }

  lemma NothingUsed(u: Use)
    ensures !UsedIn([], u)
  {
  }

  /** The backend's service exists in the ingress's namespace and has the port asked for. */
  ghost predicate BackendResolves(ns: string, ref: ServiceRef, cluster: Cluster) {
    match cluster((ns, ref.name))
    case None => false
    case Some(svc) =>
      && (ref.portName == "" || exists p :: p in svc.ports && p.name == ref.portName)
      && (ref.portNumber <= 0 || exists p :: p in svc.ports && p.number == ref.portNumber)
  }

  /** The default backend, if it names a service, and every path of every rule with an HTTP section that does. */
  ghost predicate IngressResolves(ing: IngressItem, cluster: Cluster) {
    && (ing.defaultBackend.Some? && ing.defaultBackend.value.service.Some? ==>
          BackendResolves(ing.ns, ing.defaultBackend.value.service.value, cluster))
    && forall r, p {:trigger ing.rules[r].http.value[p]} ::
         0 <= r < |ing.rules| && ing.rules[r].http.Some? && 0 <= p < |ing.rules[r].http.value|
           && ing.rules[r].http.value[p].service.Some? ==>
           BackendResolves(ing.ns, ing.rules[r].http.value[p].service.value, cluster)
  }

  ghost predicate AllResolve(ings: seq<IngressItem>, cluster: Cluster) {
    forall i {:trigger ings[i]} :: 0 <= i < |ings| ==> IngressResolves(ings[i], cluster)
  }

  lemma ResolvesIs(u: Use, cluster: Cluster)
    ensures Resolves(u, cluster) <==> BackendResolves(u.ns, u.ref, cluster)
  {
    var answer := cluster(PairOf(u));
    if answer.Some? {
      var ports := answer.value.ports;
      if i :| 0 <= i < |ports| && ports[i].name == u.ref.portName {
        assert ports[i] in ports;
      }
      if i :| 0 <= i < |ports| && ports[i].number == u.ref.portNumber {
        assert ports[i] in ports;
      }
    }
  }

  lemma {:induction false} OneResolves(ing: IngressItem, cluster: Cluster)
    ensures (forall ref {:trigger Asks(ing, ref)} :: Asks(ing, ref) ==> BackendResolves(ing.ns, ref, cluster))
       <==> IngressResolves(ing, cluster)
  {
    hide BackendResolves;
    if IngressResolves(ing, cluster) {
      forall ref | Asks(ing, ref)
        ensures BackendResolves(ing.ns, ref, cluster)
      {
        if ing.defaultBackend != Some(Backend(Some(ref))) {
          var r, p :| 0 <= r < |ing.rules| && ing.rules[r].http.Some? && 0 <= p < |ing.rules[r].http.value|
            && ing.rules[r].http.value[p] == Backend(Some(ref));
          assert ing.rules[r].http.value[p].service == Some(ref);
        }
      }
    }
    if forall ref {:trigger Asks(ing, ref)} :: Asks(ing, ref) ==> BackendResolves(ing.ns, ref, cluster) {
      if ing.defaultBackend.Some? && ing.defaultBackend.value.service.Some? {
        assert Asks(ing, ing.defaultBackend.value.service.value);
      }
      forall r, p | 0 <= r < |ing.rules| && ing.rules[r].http.Some? && 0 <= p < |ing.rules[r].http.value|
          && ing.rules[r].http.value[p].service.Some?
        ensures BackendResolves(ing.ns, ing.rules[r].http.value[p].service.value, cluster)
      {
        assert ing.rules[r].http.value[p] == Backend(Some(ing.rules[r].http.value[p].service.value));
        assert Asks(ing, ing.rules[r].http.value[p].service.value);
      }
    }
  }

  lemma {:induction false} ObjectsThenUses(ings: seq<IngressItem>, cluster: Cluster, u: Use)
    requires AllResolve(ings, cluster) && u in Uses(ings)
    ensures Resolves(u, cluster)
  {
    hide Asks, BackendResolves, Resolves, IngressResolves, Uses;
    UsesExactly(ings, u);
    var i :| 0 <= i < |ings| && Asks(ings[i], u.ref) && u.ns == ings[i].ns;
    OneResolves(ings[i], cluster);
    ResolvesIs(u, cluster);
  }

  ghost predicate EachResolves(uses: seq<Use>, cluster: Cluster) {
    forall u {:trigger Resolves(u, cluster)} :: u in uses ==> Resolves(u, cluster)
  }

  lemma EachByIndex(uses: seq<Use>, cluster: Cluster)
    ensures EachResolves(uses, cluster)
       <==> forall i {:trigger uses[i]} :: 0 <= i < |uses| ==> Resolves(uses[i], cluster)
  {
    hide Resolves;
    if forall i {:trigger uses[i]} :: 0 <= i < |uses| ==> Resolves(uses[i], cluster) {
      forall u {:trigger Resolves(u, cluster)} | u in uses
        ensures Resolves(u, cluster)
      {
        var i :| 0 <= i < |uses| && uses[i] == u;
      }
    }
  }

  lemma {:induction false} UsesThenObjects(ings: seq<IngressItem>, cluster: Cluster, i: nat)
    requires i < |ings| && EachResolves(Uses(ings), cluster)
    ensures IngressResolves(ings[i], cluster)
  {
    hide Asks, BackendResolves, Resolves, IngressResolves, UsesIn, BackendsOf;
    forall ref | Asks(ings[i], ref)
      ensures BackendResolves(ings[i].ns, ref, cluster)
    {
      var u := Use(ings[i].ns, ings[i].name, ref);
      UsesExactly(ings, u);
      assert UsedIn(ings, u);
      ResolvesIs(u, cluster);
    }
    OneResolves(ings[i], cluster);
  }

  /** The uses all resolve exactly when the backends of all objects do. */
  lemma {:induction false} UsesResolveExactly(ings: seq<IngressItem>, cluster: Cluster)
    ensures EachResolves(Uses(ings), cluster) <==> AllResolve(ings, cluster)
  {
    hide Resolves, IngressResolves, UsesIn, BackendsOf;
    if AllResolve(ings, cluster) {
      forall u {:trigger Resolves(u, cluster)} | u in Uses(ings)
        ensures Resolves(u, cluster)
      {
        ObjectsThenUses(ings, cluster, u);
      }
    }
    if EachResolves(Uses(ings), cluster) {
      forall i: nat {:trigger ings[i]} | i < |ings|
        ensures IngressResolves(ings[i], cluster)
      {
        UsesThenObjects(ings, cluster, i);
      }
    }
  }

  /**
    The check on its objects: the verdict is OK, with the single all-clear, exactly when every
    default backend and every path of every rule with an HTTP section resolves, where they name
    a service; otherwise every finding is CRIT.
   */
  lemma {:induction false} CheckClearOnObjects(ings: seq<IngressItem>, cluster: Cluster, fmt: Format)
    requires forall i :: 0 <= i < |ings| ==> '/' !in ings[i].ns
    ensures var out := Reported(ings, cluster, fmt);
      && (Verdict(out) == "OK" <==> AllResolve(ings, cluster))
      && (out == [Finding("ingresses.danglingService", "OK", "", "all ingress backends resolve", map[], 0)]
          <==> AllResolve(ings, cluster))
      && (!AllResolve(ings, cluster) ==> out != [] && forall f :: f in out ==> f.status == "CRIT")
  {
    hide AllResolve, Resolves, EachResolves, CachedResolved, UsesIn, BackendsOf;
    CheckClearExactly(ings, cluster, fmt);
    EachByIndex(Uses(ings), cluster);
    UsesResolveExactly(ings, cluster);
  }

  /** `f` is what the check has to say about this backend of this ingress. */
  ghost predicate Complains(f: Finding, ing: IngressItem, ref: ServiceRef, cluster: Cluster, fmt: Format) {
    && f.check == "ingresses.danglingService" && f.status == "CRIT" && f.detail == map[] && f.duration == 0
    && f.resource == (if ing.ns == "" then "ingress/" + ing.name else "ingress/" + ing.name + " in ns/" + ing.ns)
    && match cluster((ing.ns, ref.name))
       case None => f.message == "backend service/" + ref.name + " not found"
       case Some(svc) =>
         || (ref.portName != "" && (forall p :: p in svc.ports ==> p.name != ref.portName)
             && f.message == "service/" + ref.name + " has no port named " + fmt.quote(ref.portName))
         || (ref.portNumber > 0 && (forall p :: p in svc.ports ==> p.number != ref.portNumber)
             && f.message == "service/" + ref.name + " has no port " + fmt.decimal(ref.portNumber))
  }

  lemma {:induction false} PortIn(ports: seq<Port>, name: string, number: int)
    ensures name in Names(ports) <==> exists p :: p in ports && p.name == name
    ensures number in Numbers(ports) <==> exists p :: p in ports && p.number == number
  {
    PortMembers(ports, name, number);
    if i :| 0 <= i < |ports| && ports[i].name == name {
      assert ports[i] in ports;
    }
    if i :| 0 <= i < |ports| && ports[i].number == number {
      assert ports[i] in ports;
    }
  }

  lemma {:induction false} EmitsExactly(f: Finding, ing: IngressItem, ref: ServiceRef, cluster: Cluster, fmt: Format)
    ensures f in Emit(Use(ing.ns, ing.name, ref), SvcOf(cluster((ing.ns, ref.name))), fmt)
       <==> Complains(f, ing, ref, cluster, fmt)
  {
    hide Names, Numbers;
    if cluster((ing.ns, ref.name)).Some? {
      PortIn(cluster((ing.ns, ref.name)).value.ports, ref.portName, ref.portNumber);
    }
    assert "ingress" + "/" + ing.name == "ingress/" + ing.name;
  }

  lemma {:induction false} ResolvedMembers(uses: seq<Use>, cluster: Cluster, fmt: Format, f: Finding)
    ensures f in Resolved(uses, cluster, fmt) <==>
      exists k {:trigger uses[k]} :: 0 <= k < |uses| && f in Emit(uses[k], SvcOf(cluster(PairOf(uses[k]))), fmt)
  {
    hide Emit, SvcOf;
    if uses != [] {
      var init := uses[..|uses| - 1];
      ResolvedMembers(init, cluster, fmt, f);
      assert forall k {:trigger uses[k]} :: 0 <= k < |init| ==> init[k] == uses[k];
    }
  }

  /** Unless all is clear, the findings are exactly the complaints about the backends that stand in the ingresses. */
  lemma {:induction false} ComplaintsExactly(ings: seq<IngressItem>, cluster: Cluster, fmt: Format, f: Finding)
    requires (forall i :: 0 <= i < |ings| ==> '/' !in ings[i].ns) && !AllResolve(ings, cluster)
    ensures f in Reported(ings, cluster, fmt) <==>
      exists i, ref {:trigger Complains(f, ings[i], ref, cluster, fmt)} ::
        0 <= i < |ings| && Asks(ings[i], ref) && Complains(f, ings[i], ref, cluster, fmt)
  {
    hide Asks, Complains, AllResolve, EachResolves, UsesIn, CachedResolved, Resolved, Emit, SvcOf, KeysDistinguish,
      Resolves;
    var uses := Uses(ings);
    UsesHaveNamespaces(ings);
    PlainNamespacesDistinguish(uses);
    CacheIsTransparent(uses, cluster, fmt);
    UsesResolveExactly(ings, cluster);
    EachByIndex(uses, cluster);
    AllClearExactly(uses, cluster, fmt);
    ResolvedMembers(uses, cluster, fmt, f);
    NonEmptyIsReported(CachedResolved(uses, cluster, fmt));
    if k :| 0 <= k < |uses| && f in Emit(uses[k], SvcOf(cluster(PairOf(uses[k]))), fmt) {
      assert uses[k] in uses;
      UsesExactly(ings, uses[k]);
      var i :| 0 <= i < |ings| && Asks(ings[i], uses[k].ref)
        && uses[k].ns == ings[i].ns && uses[k].ingress == ings[i].name;
      EmitsExactly(f, ings[i], uses[k].ref, cluster, fmt);
      assert Complains(f, ings[i], uses[k].ref, cluster, fmt);
    }
    if i, ref :| 0 <= i < |ings| && Asks(ings[i], ref) && Complains(f, ings[i], ref, cluster, fmt) {
      var u := Use(ings[i].ns, ings[i].name, ref);
      UsesExactly(ings, u);
      assert UsedIn(ings, u);
      EmitsExactly(f, ings[i], ref, cluster, fmt);
      var k :| 0 <= k < |uses| && uses[k] == u;
      assert f in Emit(uses[k], SvcOf(cluster(PairOf(uses[k]))), fmt);
    }
  }

  // ---------- Order ----------

  lemma AppendInit<T>(a: seq<T>, b: seq<T>)
    requires b != []
    ensures (a + b)[..|a + b| - 1] == a + b[..|b| - 1] && (a + b)[|a + b| - 1] == b[|b| - 1]
  {
  }

  lemma {:induction false} PathsInOrder(a: seq<Backend>, b: seq<Backend>)
    ensures PathRefs(a + b) == PathRefs(a) + PathRefs(b)
  {
    hide RefOf;
    if b == [] {
      assert a + b == a;
    } else {
      PathsInOrder(a, b[..|b| - 1]);
      AppendInit(a, b);
    }
  }

  lemma {:induction false} RulesInOrder(a: seq<IngressRule>, b: seq<IngressRule>)
    ensures RuleRefs(a + b) == RuleRefs(a) + RuleRefs(b)
  {
    hide PathRefs;
    if b == [] {
      assert a + b == a;
    } else {
      RulesInOrder(a, b[..|b| - 1]);
      AppendInit(a, b);
    }
  }

  /** The default backend comes first, and then the rules in their order. */
  lemma {:induction false} BackendsInOrder(ing: IngressItem, a: seq<IngressRule>, b: seq<IngressRule>)
    requires ing.rules == a + b
    ensures BackendsOf(ing) == BackendsOf(ing.(rules := a)) + BackendsOf(ing.(defaultBackend := None, rules := b))
    ensures ing.defaultBackend.Some? && ing.defaultBackend.value.service.Some? ==>
      BackendsOf(ing.(rules := [])) == [ing.defaultBackend.value.service.value]
  {
    hide RuleRefs;
    RulesInOrder(a, b);
    NoRules();
  }

  lemma NoRules()
    ensures RuleRefs([]) == []
  {
  }

  lemma RuleOfOne(paths: seq<Backend>)
    ensures RuleRefs([IngressRule(Some(paths))]) == PathRefs(paths)
  {
    assert [IngressRule(Some(paths))][..0] == [];
  }

  /** Within a rule the paths come in their order. */
  lemma {:induction false} RulePathsInOrder(ns: string, name: string, a: seq<Backend>, b: seq<Backend>)
    ensures BackendsOf(IngressItem(ns, name, None, [IngressRule(Some(a + b))]))
         == BackendsOf(IngressItem(ns, name, None, [IngressRule(Some(a))]))
            + BackendsOf(IngressItem(ns, name, None, [IngressRule(Some(b))]))
  {
    hide RuleRefs, PathRefs;
    RuleOfOne(a + b);
    RuleOfOne(a);
    RuleOfOne(b);
    PathsInOrder(a, b);
  }

  lemma {:induction false} UsesInOrder(a: seq<IngressItem>, b: seq<IngressItem>)
    ensures Uses(a + b) == Uses(a) + Uses(b)
  {
    hide UsesIn, BackendsOf;
    if b == [] {
      assert a + b == a;
    } else {
      UsesInOrder(a, b[..|b| - 1]);
      AppendInit(a, b);
    }
  }

  lemma {:induction false} ResolvedInOrder(a: seq<Use>, b: seq<Use>, cluster: Cluster, fmt: Format)
    ensures Resolved(a + b, cluster, fmt) == Resolved(a, cluster, fmt) + Resolved(b, cluster, fmt)
  {
    hide Emit, SvcOf;
    if b == [] {
      assert a + b == a;
    } else {
      ResolvedInOrder(a, b[..|b| - 1], cluster, fmt);
      AppendInit(a, b);
    }
  }

  /** The findings come ingress by ingress, in the order of the list. */
  lemma {:induction false} FindingsInOrder(a: seq<IngressItem>, b: seq<IngressItem>, cluster: Cluster, fmt: Format)
    requires forall i :: 0 <= i < |a + b| ==> '/' !in (a + b)[i].ns
    ensures CachedResolved(Uses(a + b), cluster, fmt)
         == CachedResolved(Uses(a), cluster, fmt) + CachedResolved(Uses(b), cluster, fmt)
  {
    hide Uses, Resolved, CachedResolved, KeysDistinguish;
    assert forall i :: 0 <= i < |a| ==> (a + b)[i] == a[i];
    assert forall i :: 0 <= i < |b| ==> (a + b)[|a| + i] == b[i];
    FreshIsCached(a, cluster, fmt);
    FreshIsCached(b, cluster, fmt);
    FreshIsCached(a + b, cluster, fmt);
    UsesInOrder(a, b);
    ResolvedInOrder(Uses(a), Uses(b), cluster, fmt);
  }

  lemma FreshIsCached(ings: seq<IngressItem>, cluster: Cluster, fmt: Format)
    requires forall i :: 0 <= i < |ings| ==> '/' !in ings[i].ns
    ensures CachedResolved(Uses(ings), cluster, fmt) == Resolved(Uses(ings), cluster, fmt)
  {
    UsesHaveNamespaces(ings);
    PlainNamespacesDistinguish(Uses(ings));
    CacheIsTransparent(Uses(ings), cluster, fmt);
  }
}
