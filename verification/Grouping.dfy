/**
  How the renderers order findings: the status buckets, the flat stable sort of the
  compact and table renderers, and the grouping of the pretty one
  (internal/render/pretty.go, compact.go, table.go).
 */
module Grouping {
  import opened Sequences
  import opened Sorting
  import opened Findings

  datatype CheckGroup = CheckGroup(check: string, findings: seq<Finding>)

  predicate ByResource(a: Finding, b: Finding) {
    StrLe(a.resource, b.resource)
  }

  /** The comparison of the flat renderers: by check, then by resource. */
  predicate ByCheckThenResource(a: Finding, b: Finding) {
    if a.check != b.check then StrLe(a.check, b.check) else StrLe(a.resource, b.resource)
  }

  predicate ByName(a: CheckGroup, b: CheckGroup) {
    StrLe(a.check, b.check)
  }

  lemma OrdersArePreorders()
    ensures TotalPreorder(ByResource) && TotalPreorder(ByCheckThenResource) && TotalPreorder(ByName)
  {
    forall a: Finding, b: Finding, c: Finding
      ensures ByResource(a, b) || ByResource(b, a)
      ensures ByResource(a, b) && ByResource(b, c) ==> ByResource(a, c)
      ensures ByCheckThenResource(a, b) || ByCheckThenResource(b, a)
      ensures ByCheckThenResource(a, b) && ByCheckThenResource(b, c) ==> ByCheckThenResource(a, c)
    {
      StringOrder(a.check, b.check, c.check);
      StringOrder(a.resource, b.resource, c.resource);
    }
    forall a: CheckGroup, b: CheckGroup, c: CheckGroup
      ensures ByName(a, b) || ByName(b, a)
      ensures ByName(a, b) && ByName(b, c) ==> ByName(a, c)
    {
      StringOrder(a.check, b.check, c.check);
    }
  }

  lemma StringOrder(a: string, b: string, c: string)
    ensures StrLe(a, b) || StrLe(b, a)
    ensures StrLe(a, b) && StrLe(b, c) ==> StrLe(a, c)
    ensures StrLe(a, b) && StrLe(b, a) <==> a == b
    ensures StrLe(b, c) && StrLe(c, b) <==> b == c
    ensures StrLe(a, c) && StrLe(c, a) <==> a == c
  {
    StrLeTotal(a, b);
    StrLeAntisymmetric(a, b);
    StrLeAntisymmetric(b, c);
    StrLeAntisymmetric(a, c);
    if StrLe(a, b) && StrLe(b, c) {
      StrLeTransitive(a, b, c);
    }
  }

  /** The order in which the compact and table renderers list a section. */
  function FlatOrder(fs: seq<Finding>): seq<Finding> {
    StableSort(fs, ByCheckThenResource)
  }

  function OfCheck(fs: seq<Finding>, check: string): seq<Finding> {
    Filter(fs, (f: Finding) => f.check == check)
  }

  function Flatten(gs: seq<CheckGroup>): seq<Finding> {
    Concat(Map(gs, (g: CheckGroup) => g.findings))
  }

  /** What the first loop of `groupByCheck` has built after reading `fs`. */
  ghost predicate Collected(fs: seq<Finding>, idx: map<string, nat>, out: seq<CheckGroup>) {
    && (forall i :: 0 <= i < |fs| ==> fs[i].check in idx)
    && (forall c :: c in idx ==> idx[c] < |out| && out[idx[c]].check == c)
    && (forall j :: 0 <= j < |out| ==> out[j].check in idx && idx[out[j].check] == j)
    && (forall j :: 0 <= j < |out| ==> out[j].findings == OfCheck(fs, out[j].check) != [])
  }

  /** Each group's first finding comes before every finding of the groups behind it. */
  ghost predicate InFirstOrder(fs: seq<Finding>, gs: seq<CheckGroup>) {
    forall a, b {:trigger gs[a], gs[b]} :: 0 <= a < b < |gs| ==> SeenBefore(fs, gs[a].check, gs[b].check)
  }

  /** `fs` reaches a finding of `first` while it has shown none of `second`. */
  ghost predicate SeenBefore(fs: seq<Finding>, first: string, second: string) {
    exists i :: 0 <= i < |fs| && fs[i].check == first && forall k :: 0 <= k <= i ==> fs[k].check != second
  }

  /** Each group is the resource-sorted list of one check's findings. */
  ghost predicate SortedGroups(fs: seq<Finding>, gs: seq<CheckGroup>) {
    forall j :: 0 <= j < |gs| ==>
      && OfCheck(fs, gs[j].check) != []
      && gs[j].findings == StableSort(OfCheck(fs, gs[j].check), ByResource)
  }

  ghost predicate Named(gs: seq<CheckGroup>, check: string) {
    exists j :: 0 <= j < |gs| && gs[j].check == check
  }

  ghost predicate Covers(fs: seq<Finding>, gs: seq<CheckGroup>) {
    forall i :: 0 <= i < |fs| ==> Named(gs, fs[i].check)
  }

  ghost predicate DistinctNames(gs: seq<CheckGroup>) {
    forall i, j :: 0 <= i < j < |gs| ==> gs[i].check != gs[j].check
  }

  ghost predicate NamesIncrease(gs: seq<CheckGroup>) {
    forall i, j :: 0 <= i < j < |gs| ==> StrLt(gs[i].check, gs[j].check)
  }

  ghost predicate Homogeneous(g: CheckGroup) {
    g.findings != [] && forall f :: f in g.findings ==> f.check == g.check
  }

  /** The first loop of `groupByCheck`: an index map and groups in order of first appearance. */
  method CollectByCheck(fs: seq<Finding>) returns (idx: map<string, nat>, out: seq<CheckGroup>)
    ensures Collected(fs, idx, out) && InFirstOrder(fs, out)
  {
    hide OfCheck, SeenBefore;
    idx := map[];
    out := [];
    for k := 0 to |fs|
      invariant Collected(fs[..k], idx, out) && InFirstOrder(fs[..k], out)
    {
      var f := fs[k];
      ghost var idx', out' := idx, out;
      if f.check !in idx {
        idx := idx[f.check := |out|];
        out := out + [CheckGroup(f.check, [])];
      }
      var i := idx[f.check];
      out := out[i := out[i].(findings := out[i].findings + [f])];
      assert fs[..k + 1] == fs[..k] + [f];
      CollectOne(fs[..k], f, idx', out', idx, out);
      OrderOne(fs[..k], f, idx', out', out);
    }
    assert fs[..|fs|] == fs;
  }

  lemma CollectOne(fs: seq<Finding>, f: Finding, idx: map<string, nat>, out: seq<CheckGroup>,
      idx': map<string, nat>, out': seq<CheckGroup>)
    requires Collected(fs, idx, out)
    requires idx' == if f.check in idx then idx else idx[f.check := |out|]
    requires var grown := if f.check in idx then out else out + [CheckGroup(f.check, [])];
      var i := idx'[f.check];
      out' == grown[i := grown[i].(findings := grown[i].findings + [f])]
    ensures Collected(fs + [f], idx', out')
  {
    forall j | 0 <= j < |out'|
      ensures out'[j].findings == OfCheck(fs + [f], out'[j].check) != []
    {
      FilterSnoc(fs, f, (g: Finding) => g.check == out'[j].check);
      if j == |out| {
        FilterNone(fs, (g: Finding) => g.check == out'[j].check);
      }
    }
  }

  lemma SeenBeforeSnoc(fs: seq<Finding>, f: Finding, first: string, second: string)
    requires SeenBefore(fs, first, second)
    ensures SeenBefore(fs + [f], first, second)
  {
    var i :| 0 <= i < |fs| && fs[i].check == first && forall k :: 0 <= k <= i ==> fs[k].check != second;
    assert (fs + [f])[i].check == first;
  }

  /** A new group goes behind all others, and its check has not been seen before. */
  lemma OrderOne(fs: seq<Finding>, f: Finding, idx: map<string, nat>, out: seq<CheckGroup>, out': seq<CheckGroup>)
    requires Collected(fs, idx, out) && InFirstOrder(fs, out)
    requires |out'| == if f.check in idx then |out| else |out| + 1
    requires forall j :: 0 <= j < |out'| ==> out'[j].check == if j < |out| then out[j].check else f.check
    ensures InFirstOrder(fs + [f], out')
  {
    forall a, b | 0 <= a < b < |out'|
      ensures SeenBefore(fs + [f], out'[a].check, out'[b].check)
    {
      if b == |out| {
        GroupIsSeen(fs, idx, out, a);
        var i :| 0 <= i < |fs| && fs[i].check == out[a].check;
        assert SeenBefore(fs, out[a].check, f.check);
      }
      SeenBeforeSnoc(fs, f, out'[a].check, out'[b].check);
    }
  }

  lemma GroupIsSeen(fs: seq<Finding>, idx: map<string, nat>, out: seq<CheckGroup>, j: nat)
    requires Collected(fs, idx, out) && j < |out|
    ensures exists i :: 0 <= i < |fs| && fs[i].check == out[j].check
  {
    var own := OfCheck(fs, out[j].check);
    FilterIn(fs, (g: Finding) => g.check == out[j].check, own[0]);
  }

  /** The second loop of `groupByCheck`: each group's findings, sorted by resource where they are. */
  method SortInsideGroups(gs: seq<CheckGroup>) returns (out: seq<CheckGroup>)
    ensures |out| == |gs|
    ensures forall j :: 0 <= j < |gs| ==>
      out[j] == CheckGroup(gs[j].check, StableSort(gs[j].findings, ByResource))
  {
    out := gs;
    for i := 0 to |out|
      invariant |out| == |gs|
      invariant forall j :: i <= j < |out| ==> out[j] == gs[j]
      invariant forall j :: 0 <= j < i ==>
        out[j] == CheckGroup(gs[j].check, StableSort(gs[j].findings, ByResource))
    {
      out := out[i := out[i].(findings := StableSort(out[i].findings, ByResource))];
    }
  }

  /** What the pretty renderer prints a section from. */
  ghost predicate GroupedAs(gs: seq<CheckGroup>, fs: seq<Finding>) {
    && NamesIncrease(gs)
    && (forall j :: 0 <= j < |gs| ==> Homogeneous(gs[j]))
    && Flatten(gs) == FlatOrder(fs)
  }

  method GroupByCheck(fs: seq<Finding>) returns (out: seq<CheckGroup>)
    ensures GroupedAs(out, fs)
  {
    hide StableSort, Collected, InFirstOrder, SortedGroups, Covers, DistinctNames;
    var idx, collected := CollectByCheck(fs);
    var gs := SortInsideGroups(collected);
    GroupsReady(fs, idx, collected, gs);
    out := StableSort(gs, ByName);
    SortingNames(fs, gs, out);
    GroupsAreHomogeneous(fs, out);
    GroupedEqualsFlat(fs, out);
  }

  lemma GroupsReady(fs: seq<Finding>, idx: map<string, nat>, collected: seq<CheckGroup>, gs: seq<CheckGroup>)
    requires Collected(fs, idx, collected) && |gs| == |collected|
    requires forall j :: 0 <= j < |gs| ==>
      gs[j] == CheckGroup(collected[j].check, StableSort(collected[j].findings, ByResource))
    ensures SortedGroups(fs, gs) && Covers(fs, gs) && DistinctNames(gs)
  {
    hide StableSort, OfCheck;
    forall i | 0 <= i < |fs|
      ensures Named(gs, fs[i].check)
    {
      assert gs[idx[fs[i].check]].check == fs[i].check;
    }
  }

  /** Sorting the groups by name keeps them and makes the names strictly increase. */
  lemma SortingNames(fs: seq<Finding>, gs: seq<CheckGroup>, out: seq<CheckGroup>)
    requires SortedGroups(fs, gs) && Covers(fs, gs) && DistinctNames(gs)
    requires out == StableSort(gs, ByName)
    ensures SortedGroups(fs, out) && Covers(fs, out) && NamesIncrease(out)
  {
    hide StableSort, OfCheck;
    OrdersArePreorders();
    StableSortCorrect(gs, ByName);
    PermutedGroups(fs, gs, out);
    forall i, j | 0 <= i < j < |out|
      ensures StrLt(out[i].check, out[j].check)
    {
      assert ByName(out[i], out[j]);
      StrLeAntisymmetric(out[i].check, out[j].check);
      if out[i].check == out[j].check {
        PermutedKeysDiffer(gs, out, (g: CheckGroup) => g.check, i, j);
      }
    }
  }

  lemma PermutedGroups(fs: seq<Finding>, gs: seq<CheckGroup>, out: seq<CheckGroup>)
    requires SortedGroups(fs, gs) && Covers(fs, gs) && multiset(gs) == multiset(out)
    ensures SortedGroups(fs, out) && Covers(fs, out)
  {
    hide StableSort, OfCheck;
    forall j | 0 <= j < |out|
      ensures out[j] in gs
    {
      assert out[j] in multiset(out);
    }
    forall i | 0 <= i < |fs|
      ensures Named(out, fs[i].check)
    {
      var j :| 0 <= j < |gs| && gs[j].check == fs[i].check;
      assert gs[j] in multiset(gs);
      assert gs[j] in multiset(out);
      var k :| 0 <= k < |out| && out[k] == gs[j];
      assert out[k].check == fs[i].check;
    }
  }

  lemma GroupsAreHomogeneous(fs: seq<Finding>, gs: seq<CheckGroup>)
    requires SortedGroups(fs, gs)
    ensures forall j :: 0 <= j < |gs| ==> Homogeneous(gs[j])
  {
    forall j | 0 <= j < |gs|
      ensures Homogeneous(gs[j])
    {
      GroupMembers(fs, gs[j]);
    }
  }

  /** Listing the groups one after the other is the flat order. */
  lemma GroupedEqualsFlat(fs: seq<Finding>, gs: seq<CheckGroup>)
    requires SortedGroups(fs, gs) && Covers(fs, gs) && NamesIncrease(gs)
    ensures Flatten(gs) == FlatOrder(fs)
  {
    OrdersArePreorders();
    FlattenSorted(fs, gs);
    IncreasingNamesDiffer(gs);
    forall x ensures Ties(Flatten(gs), ByCheckThenResource, x) == Ties(fs, ByCheckThenResource, x) {
      FlattenTies(fs, gs, x);
      if !Named(gs, x.check) {
        UngroupedHasNoTies(fs, gs, x);
      }
    }
    StableSortUnique(Flatten(gs), fs, ByCheckThenResource);
  }

  lemma IncreasingNamesDiffer(gs: seq<CheckGroup>)
    requires NamesIncrease(gs)
    ensures DistinctNames(gs)
  {
    forall i, j | 0 <= i < j < |gs|
      ensures gs[i].check != gs[j].check
    {
      assert StrLt(gs[i].check, gs[j].check);
      StrLeTotal(gs[i].check, gs[j].check);
      StrLeTotal(gs[i].check, gs[i].check);
    }
  }

  lemma UngroupedHasNoTies(fs: seq<Finding>, gs: seq<CheckGroup>, x: Finding)
    requires Covers(fs, gs) && !Named(gs, x.check)
    ensures Ties(fs, ByCheckThenResource, x) == []
  {
    forall y | y in fs
      ensures !(ByCheckThenResource(x, y) && ByCheckThenResource(y, x))
    {
      TiesShareFields(x, y);
    }
    FilterNone(fs, Tied(ByCheckThenResource, x));
  }

  lemma TiesShareFields(x: Finding, y: Finding)
    ensures ByCheckThenResource(x, y) && ByCheckThenResource(y, x) <==> x.check == y.check && x.resource == y.resource
    ensures ByResource(x, y) && ByResource(y, x) <==> x.resource == y.resource
  {
    StrLeAntisymmetric(x.check, y.check);
    StrLeAntisymmetric(x.resource, y.resource);
  }

  lemma FlattenSnoc(gs: seq<CheckGroup>)
    requires gs != []
    ensures Flatten(gs) == Flatten(gs[..|gs| - 1]) + gs[|gs| - 1].findings
  {
    var of := (g: CheckGroup) => g.findings;
    assert Map(gs, of) == Map(gs[..|gs| - 1], of) + [gs[|gs| - 1].findings];
    ConcatSnoc(Map(gs[..|gs| - 1], of), gs[|gs| - 1].findings);
  }

  lemma {:induction false} FlattenMembers(gs: seq<CheckGroup>, f: Finding)
    requires f in Flatten(gs)
    ensures exists j :: 0 <= j < |gs| && f in gs[j].findings
  {
    if gs != [] {
      FlattenSnoc(gs);
      if f in gs[|gs| - 1].findings {
      } else {
        FlattenMembers(gs[..|gs| - 1], f);
        var j :| 0 <= j < |gs| - 1 && f in gs[..|gs| - 1][j].findings;
        assert f in gs[j].findings;
      }
    }
  }

  lemma {:induction false} FlattenSorted(fs: seq<Finding>, gs: seq<CheckGroup>)
    requires SortedGroups(fs, gs) && NamesIncrease(gs)
    ensures Sorted(Flatten(gs), ByCheckThenResource)
  {
    if gs != [] {
      var init, g := gs[..|gs| - 1], gs[|gs| - 1];
      FlattenSorted(fs, init);
      FlattenSnoc(gs);
      OrdersArePreorders();
      StableSortCorrect(OfCheck(fs, g.check), ByResource);
      GroupsAreHomogeneous(fs, gs);
      assert Homogeneous(g);
      forall f, h | f in Flatten(init) && h in g.findings
        ensures ByCheckThenResource(f, h)
      {
        FlattenMembers(init, f);
        var j :| 0 <= j < |init| && f in init[j].findings;
        assert Homogeneous(gs[j]);
        assert StrLt(gs[j].check, g.check);
        StrLeTotal(f.check, h.check);
        StrLeAntisymmetric(f.check, h.check);
      }
      SortedAppend(Flatten(init), g.findings);
    }
  }

  lemma SortedAppend(a: seq<Finding>, b: seq<Finding>)
    requires Sorted(a, ByCheckThenResource) && Sorted(b, ByResource)
    requires forall f, h :: f in b && h in b ==> f.check == h.check
    requires forall f, h :: f in a && h in b ==> ByCheckThenResource(f, h)
    ensures Sorted(a + b, ByCheckThenResource)
  {
    var s := a + b;
    forall i, j | 0 <= i < j < |s|
      ensures ByCheckThenResource(s[i], s[j])
    {
      if i >= |a| {
        assert s[i] == b[i - |a|] && s[j] == b[j - |a|];
        assert ByResource(b[i - |a|], b[j - |a|]);
      } else if j >= |a| {
        assert s[i] in a && s[j] == b[j - |a|];
      }
    }
  }

  /** A tie class of the flattened groups is the tie class of the input, when its check has a group. */
  lemma {:induction false} FlattenTies(fs: seq<Finding>, gs: seq<CheckGroup>, x: Finding)
    requires SortedGroups(fs, gs) && DistinctNames(gs)
    ensures Ties(Flatten(gs), ByCheckThenResource, x)
         == if Named(gs, x.check) then Ties(fs, ByCheckThenResource, x) else []
  {
    if gs != [] {
      var init, g := gs[..|gs| - 1], gs[|gs| - 1];
      FlattenTies(fs, init, x);
      FlattenSnoc(gs);
      FilterAppend(Flatten(init), g.findings, Tied(ByCheckThenResource, x));
      NamedSnoc(gs, x.check);
      GroupTies(fs, g, x);
    }
  }

  lemma NamedSnoc(gs: seq<CheckGroup>, check: string)
    requires gs != []
    ensures Named(gs, check) <==> Named(gs[..|gs| - 1], check) || gs[|gs| - 1].check == check
    ensures DistinctNames(gs) && gs[|gs| - 1].check == check ==> !Named(gs[..|gs| - 1], check)
  {
    if j :| 0 <= j < |gs| && gs[j].check == check {
      assert j < |gs| - 1 ==> gs[..|gs| - 1][j].check == check;
    }
    var init := gs[..|gs| - 1];
    if j :| 0 <= j < |init| && init[j].check == check {
      assert gs[j].check == check;
    }
  }

  lemma GroupTies(fs: seq<Finding>, g: CheckGroup, x: Finding)
    requires g.findings == StableSort(OfCheck(fs, g.check), ByResource)
    ensures Ties(g.findings, ByCheckThenResource, x)
         == if g.check == x.check then Ties(fs, ByCheckThenResource, x) else []
  {
    GroupMembers(fs, g);
    forall y
      ensures ByCheckThenResource(x, y) && ByCheckThenResource(y, x) <==> x.check == y.check && x.resource == y.resource
      ensures ByResource(x, y) && ByResource(y, x) <==> x.resource == y.resource
    {
      TiesShareFields(x, y);
    }
    if g.check == x.check {
      FilterAgree(g.findings, Tied(ByCheckThenResource, x),
        Tied(ByResource, x));
      GroupResourceTies(OfCheck(fs, g.check), x);
      FilterFilter(fs, (h: Finding) => h.check == g.check, Tied(ByResource, x),
        Tied(ByCheckThenResource, x));
    } else {
      FilterNone(g.findings, Tied(ByCheckThenResource, x));
    }
  }

  lemma GroupResourceTies(own: seq<Finding>, x: Finding)
    ensures Ties(StableSort(own, ByResource), ByResource, x) == Ties(own, ByResource, x)
  {
    OrdersArePreorders();
    StableSortCorrect(own, ByResource);
  }

  lemma GroupMembers(fs: seq<Finding>, g: CheckGroup)
    requires g.findings == StableSort(OfCheck(fs, g.check), ByResource)
    ensures |g.findings| == |OfCheck(fs, g.check)|
    ensures forall f :: f in g.findings ==> f.check == g.check
  {
    var own := OfCheck(fs, g.check);
    OrdersArePreorders();
    StableSortCorrect(own, ByResource);
    assert |multiset(g.findings)| == |multiset(own)|;
    forall f | f in g.findings
      ensures f.check == g.check
    {
      assert f in multiset(own);
      FilterIn(fs, (h: Finding) => h.check == g.check, f);
    }
  }

  /** Increasing homogeneous groups can be told from their findings alone. */
  lemma {:induction false} GroupsFixed(gs: seq<CheckGroup>, hs: seq<CheckGroup>)
    requires NamesIncrease(gs) && NamesIncrease(hs) && Flatten(gs) == Flatten(hs)
    requires (forall j :: 0 <= j < |gs| ==> Homogeneous(gs[j])) && (forall j :: 0 <= j < |hs| ==> Homogeneous(hs[j]))
    ensures gs == hs
  {
    hide Flatten;
    if gs == [] || hs == [] {
      EmptyFlattens(gs);
      EmptyFlattens(hs);
    } else {
      LastGroups(gs, hs);
      GroupsFixed(gs[..|gs| - 1], hs[..|hs| - 1]);
      InitLast(gs);
      InitLast(hs);
    }
  }

  lemma EmptyFlattens(gs: seq<CheckGroup>)
    requires forall j :: 0 <= j < |gs| ==> Homogeneous(gs[j])
    ensures Flatten(gs) == [] <==> gs == []
  {
    if gs != [] {
      FlattenSnoc(gs);
      assert Homogeneous(gs[|gs| - 1]);
    }
  }

  /** The last group is the part behind the last finding of another check. */
  lemma LastGroups(gs: seq<CheckGroup>, hs: seq<CheckGroup>)
    requires NamesIncrease(gs) && NamesIncrease(hs) && Flatten(gs) == Flatten(hs) && gs != [] && hs != []
    requires (forall j :: 0 <= j < |gs| ==> Homogeneous(gs[j])) && (forall j :: 0 <= j < |hs| ==> Homogeneous(hs[j]))
    ensures gs[|gs| - 1] == hs[|hs| - 1]
    ensures Flatten(gs[..|gs| - 1]) == Flatten(hs[..|hs| - 1])
  {
    hide Flatten;
    var g, h, all := gs[|gs| - 1], hs[|hs| - 1], Flatten(gs);
    FlattenSnoc(gs);
    FlattenSnoc(hs);
    assert Homogeneous(g) && Homogeneous(h);
    var gi, hi := Flatten(gs[..|gs| - 1]), Flatten(hs[..|hs| - 1]);
    assert g.findings[|g.findings| - 1] == all[|all| - 1] == h.findings[|h.findings| - 1];
    assert g.check == h.check;
    EarlierChecksDiffer(gs);
    EarlierChecksDiffer(hs);
    SameCut(gi, g.findings, hi, h.findings, g.check);
  }

  /** A list has one place behind which it speaks of one check only, and before which never. */
  lemma SameCut(a: seq<Finding>, x: seq<Finding>, b: seq<Finding>, y: seq<Finding>, c: string)
    requires a + x == b + y
    requires (forall f :: f in a || f in b ==> f.check != c) && (forall f :: f in x || f in y ==> f.check == c)
    ensures a == b && x == y
  {
    var all, m := a + x, if |a| <= |b| then |a| else |b|;
    CutAt(a, x, c);
    CutAt(b, y, c);
    assert m < |all| ==> (all[m].check == c <==> m >= |a|);
    assert a == all[..|a|] && b == (b + y)[..|b|];
    assert x == all[|a|..] && y == (b + y)[|b|..];
  }

  lemma CutAt(a: seq<Finding>, x: seq<Finding>, c: string)
    requires (forall f :: f in a ==> f.check != c) && (forall f :: f in x ==> f.check == c)
    ensures forall i {:trigger (a + x)[i]} :: 0 <= i < |a + x| ==> ((a + x)[i].check == c <==> i >= |a|)
  {
    forall i | 0 <= i < |a + x|
      ensures (a + x)[i].check == c <==> i >= |a|
    {
      if i < |a| {
        assert (a + x)[i] in a;
      } else {
        assert (a + x)[i] in x;
      }
    }
  }

  lemma EarlierChecksDiffer(gs: seq<CheckGroup>)
    requires NamesIncrease(gs) && gs != [] && forall j :: 0 <= j < |gs| ==> Homogeneous(gs[j])
    ensures forall f :: f in Flatten(gs[..|gs| - 1]) ==> f.check != gs[|gs| - 1].check
  {
    var init := gs[..|gs| - 1];
    IncreasingNamesDiffer(gs);
    forall f | f in Flatten(init)
      ensures f.check != gs[|gs| - 1].check
    {
      FlattenMembers(init, f);
      var j :| 0 <= j < |init| && f in init[j].findings;
      assert Homogeneous(gs[j]);
    }
  }

  // ---------- Status sections ----------

  /** The table renderer's section order; the other two print the first three and count the rest. */
  const SECTIONS: seq<Status> := [CRIT, UNKNOWN, WARN, Findings.OK, SKIP]

  function OfStatus(fs: seq<Finding>, s: Status): seq<Finding> {
    Filter(fs, (f: Finding) => f.status == s)
  }

  lemma OfStatusSnoc(fs: seq<Finding>, f: Finding, s: Status)
    ensures OfStatus(fs + [f], s) == OfStatus(fs, s) + if f.status == s then [f] else []
  {
    FilterSnoc(fs, f, (g: Finding) => g.status == s);
  }

  lemma OfStatusEmpty(fs: seq<Finding>, s: Status)
    ensures OfStatus(fs, s) != [] <==> Has(fs, s)
  {
    if Has(fs, s) {
      var i :| 0 <= i < |fs| && fs[i].status == s;
      FilterIn(fs, (g: Finding) => g.status == s, fs[i]);
    }
    if OfStatus(fs, s) != [] {
      FilterIn(fs, (g: Finding) => g.status == s, OfStatus(fs, s)[0]);
      var i :| 0 <= i < |fs| && fs[i] == OfStatus(fs, s)[0];
      assert fs[i].status == s;
    }
  }

  method BucketByStatus(fs: seq<Finding>) returns (m: map<Status, seq<Finding>>)
    ensures forall s :: s in m <==> Has(fs, s)
    ensures forall s :: s in m ==> m[s] == OfStatus(fs, s)
  {
    m := map[];
    for i := 0 to |fs|
      invariant forall s :: s in m ==> m[s] == OfStatus(fs[..i], s) != []
      invariant forall s :: s !in m ==> OfStatus(fs[..i], s) == []
    {
      var f := fs[i];
      assert fs[..i + 1] == fs[..i] + [f];
      forall s ensures OfStatus(fs[..i + 1], s) == OfStatus(fs[..i], s) + if f.status == s then [f] else [] {
        OfStatusSnoc(fs[..i], f, s);
      }
      m := m[f.status := (if f.status in m then m[f.status] else []) + [f]];
    }
    assert fs[..|fs|] == fs;
    forall s ensures OfStatus(fs, s) != [] <==> Has(fs, s) {
      OfStatusEmpty(fs, s);
    }
  }

  /** The findings of the given sections, section after section, each in flat order. */
  function Listing(fs: seq<Finding>, sections: seq<Status>): seq<Finding> {
    if sections == [] then []
    else Listing(fs, sections[..|sections| - 1]) + FlatOrder(OfStatus(fs, sections[|sections| - 1]))
  }

  lemma SectionCount(fs: seq<Finding>, s: Status, f: Finding)
    ensures multiset(FlatOrder(OfStatus(fs, s)))[f] == if f.status == s then multiset(fs)[f] else 0
  {
    StableSortPermutes(OfStatus(fs, s), ByCheckThenResource);
    FilterCount(fs, (g: Finding) => g.status == s, f);
  }

  lemma {:induction false} ListingCounts(fs: seq<Finding>, sections: seq<Status>, f: Finding)
    requires forall i, j :: 0 <= i < j < |sections| ==> sections[i] != sections[j]
    ensures multiset(Listing(fs, sections))[f] == if f.status in sections then multiset(fs)[f] else 0
  {
    if sections != [] {
      var init, s := sections[..|sections| - 1], sections[|sections| - 1];
      ListingCounts(fs, init, f);
      SectionCount(fs, s, f);
      assert sections == init + [s];
    }
  }

  /** The table lists every finding as often as it occurs exactly when all statuses are among the five. */
  lemma TableListsAllExactly(fs: seq<Finding>)
    ensures multiset(Listing(fs, SECTIONS)) == multiset(fs) <==> forall f :: f in fs ==> f.status in SECTIONS
  {
    var listed := multiset(Listing(fs, SECTIONS));
    forall f ensures listed[f] == if f.status in SECTIONS then multiset(fs)[f] else 0 {
      ListingCounts(fs, SECTIONS, f);
    }
    if forall f :: f in fs ==> f.status in SECTIONS {
      forall f ensures listed[f] == multiset(fs)[f] {
        assert f in multiset(fs) <==> f in fs;
      }
    } else {
      var f :| f in fs && f.status !in SECTIONS;
      assert f in multiset(fs) && listed[f] == 0;
    }
  }

  /** The flat order, spelled out: by check, then by resource, and each finding as often as before. */
  lemma FlatOrderIs(fs: seq<Finding>)
    ensures multiset(FlatOrder(fs)) == multiset(fs)
    ensures var sorted := FlatOrder(fs);
      forall i, j :: 0 <= i < j < |sorted| ==>
        || StrLt(sorted[i].check, sorted[j].check)
        || (sorted[i].check == sorted[j].check && !StrLt(sorted[j].resource, sorted[i].resource))
  {
    OrdersArePreorders();
    StableSortCorrect(fs, ByCheckThenResource);
    var sorted := FlatOrder(fs);
    forall i, j | 0 <= i < j < |sorted|
      ensures || StrLt(sorted[i].check, sorted[j].check)
              || (sorted[i].check == sorted[j].check && !StrLt(sorted[j].resource, sorted[i].resource))
    {
      assert ByCheckThenResource(sorted[i], sorted[j]);
      StrLeAntisymmetric(sorted[i].check, sorted[j].check);
    }
  }

  /** Findings of one check and one resource keep the order they came in. */
  lemma FlatOrderIsStable(fs: seq<Finding>, check: string, resource: string)
    ensures Filter(FlatOrder(fs), (f: Finding) => f.check == check && f.resource == resource)
         == Filter(fs, (f: Finding) => f.check == check && f.resource == resource)
  {
    OrdersArePreorders();
    var x := Finding(check, "", resource, "", map[], 0);
    var same := (f: Finding) => f.check == check && f.resource == resource;
    forall y
      ensures Tied(ByCheckThenResource, x)(y) == same(y)
    {
      TiesShareFields(x, y);
    }
    StableSortTies(fs, ByCheckThenResource, x);
    FilterAgree(fs, Tied(ByCheckThenResource, x), same);
    FilterAgree(FlatOrder(fs), Tied(ByCheckThenResource, x), same);
  }

  /** Where a status comes in the table. */
  function Place(s: Status): nat {
    if s == "CRIT" then 0 else if s == "UNKNOWN" then 1 else if s == "WARN" then 2 else if s == "OK" then 3 else 4
  }

  lemma SectionHasStatus(fs: seq<Finding>, s: Status)
    ensures forall f :: f in FlatOrder(OfStatus(fs, s)) ==> f.status == s
  {
    var section := FlatOrder(OfStatus(fs, s));
    StableSortPermutes(OfStatus(fs, s), ByCheckThenResource);
    forall f | f in section
      ensures f.status == s
    {
      assert f in multiset(section);
      assert f in multiset(OfStatus(fs, s));
      FilterIn(fs, (g: Finding) => g.status == s, f);
    }
  }

  ghost predicate InPlaces(fs: seq<Finding>, n: nat) {
    && (forall i {:trigger fs[i]} :: 0 <= i < |fs| ==> Place(fs[i].status) < n)
    && forall i, j {:trigger fs[i], fs[j]} :: 0 <= i < j < |fs| ==> Place(fs[i].status) <= Place(fs[j].status)
  }

  lemma InPlacesAppend(a: seq<Finding>, b: seq<Finding>, n: nat)
    requires InPlaces(a, n) && forall f :: f in b ==> Place(f.status) == n
    ensures InPlaces(a + b, n + 1)
  {
    var all := a + b;
    forall i | 0 <= i < |all|
      ensures Place(all[i].status) == if i < |a| then Place(a[i].status) else n
    {
      assert i >= |a| ==> all[i] in b;
    }
  }

  lemma {:induction false} ListingPlaces(fs: seq<Finding>, n: nat)
    requires n <= |SECTIONS|
    ensures InPlaces(Listing(fs, SECTIONS[..n]), n)
  {
    if n > 0 {
      hide FlatOrder, OfStatus, InPlaces;
      ListingPlaces(fs, n - 1);
      assert SECTIONS[..n][..n - 1] == SECTIONS[..n - 1];
      SectionHasStatus(fs, SECTIONS[n - 1]);
      assert Place(SECTIONS[n - 1]) == n - 1;
      InPlacesAppend(Listing(fs, SECTIONS[..n - 1]), FlatOrder(OfStatus(fs, SECTIONS[n - 1])), n - 1);
    }
  }

  lemma SectionOnly(fs: seq<Finding>, t: Status, s: Status)
    ensures OfStatus(FlatOrder(OfStatus(fs, t)), s) == if s == t then FlatOrder(OfStatus(fs, t)) else []
  {
    var section := FlatOrder(OfStatus(fs, t));
    SectionHasStatus(fs, t);
    if s == t {
      FilterAll(section, (f: Finding) => f.status == s);
    } else {
      FilterNone(section, (f: Finding) => f.status == s);
    }
  }

  /** What is listed under a status is the flat order of its findings. */
  lemma {:induction false} SectionIsFlat(fs: seq<Finding>, sections: seq<Status>, s: Status)
    requires forall i, j :: 0 <= i < j < |sections| ==> sections[i] != sections[j]
    ensures OfStatus(Listing(fs, sections), s) == if s in sections then FlatOrder(OfStatus(fs, s)) else []
  {
    hide FlatOrder, OfStatus;
    if sections == [] {
      NothingListed(s);
    } else {
      var init, t := sections[..|sections| - 1], sections[|sections| - 1];
      SectionIsFlat(fs, init, s);
      OfStatusAppend(Listing(fs, init), FlatOrder(OfStatus(fs, t)), s);
      SectionOnly(fs, t, s);
      assert sections == init + [t];
    }
  }

  lemma NothingListed(s: Status)
    ensures OfStatus([], s) == []
  {
  }

  lemma OfStatusAppend(a: seq<Finding>, b: seq<Finding>, s: Status)
    ensures OfStatus(a + b, s) == OfStatus(a, s) + OfStatus(b, s)
  {
    FilterAppend(a, b, (f: Finding) => f.status == s);
  }

  /** The sections come as CRIT, UNKNOWN, WARN, OK, SKIP. */
  lemma {:induction false} SectionsInOrder(fs: seq<Finding>)
    ensures var all := Listing(fs, SECTIONS);
      forall i, j :: 0 <= i < j < |all| ==> Place(all[i].status) <= Place(all[j].status)
  {
    ListingPlaces(fs, |SECTIONS|);
    assert SECTIONS[..|SECTIONS|] == SECTIONS;
  }
}
