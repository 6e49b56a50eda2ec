/** The check registry and its canonical order (internal/checks/registry.go, distro.go). */
module Registry {
  import opened Sequences
  import opened Sorting

  type Capabilities = bv32

  const DISTRO_AUTO := "auto"

  /** What the registry and the runner see of a check; `distros` is `None` unless it is distro-aware. */
  datatype Check = Check(id: string, categories: seq<string>, needs: Capabilities, distros: Option<seq<string>>)

  predicate HasAll(have: Capabilities, want: Capabilities) {
    have & want == want
  }

  predicate ById(a: Check, b: Check) {
    StrLe(a.id, b.id)
  }

  ghost predicate IdsIncrease(cs: seq<Check>) {
    forall i, j :: 0 <= i < j < |cs| ==> StrLt(cs[i].id, cs[j].id)
  }

  /** Every check is stored under its own ID. */
  ghost predicate KeyedById(m: map<string, Check>) {
    forall k :: k in m ==> m[k].id == k
  }

  /** `out` lists the checks of `m` that satisfy `p`, each once, in strictly increasing ID order. */
  ghost predicate Lists(out: seq<Check>, m: map<string, Check>, p: Check -> bool) {
    && IdsIncrease(out)
    && forall c {:trigger c in out} :: c in out <==> c in m.Values && p(c)
  }

  predicate Any(c: Check) {
    true
  }

  datatype Selection = Selection(included: seq<string>, excluded: seq<string>, cats: seq<string>, distro: string)

  /** The selection rules as documented; an empty string is never an ID to include or exclude. */
  predicate Passes(sel: Selection, c: Check) {
    && (c.id == "" || c.id !in sel.excluded)
    && ((forall s :: s in sel.included ==> s == "") || (c.id != "" && c.id in sel.included))
    && (sel.cats == [] || exists cat :: cat in c.categories && cat in sel.cats)
    && (sel.distro == "" || sel.distro == DISTRO_AUTO || AppliesTo(c, sel.distro))
  }

  predicate AppliesTo(c: Check, distro: string) {
    c.distros.None? || distro in c.distros.value
  }

  function Passing(sel: Selection): Check -> bool {
    c => Passes(sel, c)
  }

  class Registry {
    var m: map<string, Check>

    ghost predicate Valid()
      reads this
    {
      KeyedById(m)
    }

    constructor ()
      ensures Valid() && m == map[]
    {
      m := map[];
    }

    /** `ok` is false where the source panics on a duplicate ID. */
    method Register(c: Check) returns (ok: bool)
      requires Valid()
      modifies this
      ensures Valid()
      ensures ok <==> c.id !in old(m)
      ensures m == if ok then old(m)[c.id := c] else old(m)
    {
      if c.id in m {
        return false;
      }
      m := m[c.id := c];
      return true;
    }

    /** The map is visited in any order, then sorted. */
    method All() returns (out: seq<Check>)
      requires Valid()
      ensures Lists(out, m, Any)
    {
      var unsorted := [];
      var rest := m.Keys;
      while rest != {}
        invariant rest <= m.Keys
        invariant forall c {:trigger c in unsorted} :: c in unsorted <==> c in m.Values && c.id !in rest
        invariant DistinctIds(unsorted)
        decreases |rest|
      {
        var k :| k in rest;
        DistinctSnoc(unsorted, m[k]);
        unsorted, rest := unsorted + [m[k]], rest - {k};
      }
      out := StableSort(unsorted, ById);
      SortedListsAll(unsorted, m);
    }

    method Filter(sel: Selection) returns (out: seq<Check>)
      requires Valid()
      ensures Lists(out, m, Passing(sel))
    {
      var includeSet := StringSet(sel.included);
      var excludeSet := StringSet(sel.excluded);
      var catSet := CategorySet(sel.cats);
      var all := All();
      out := [];
      for i := 0 to |all|
        invariant out == Sequences.Filter(all[..i], Passing(sel))
      {
        var c := all[i];
        assert all[..i + 1] == all[..i] + [c];
        FilterSnoc(all[..i], c, Passing(sel));
        if c.id in excludeSet {
          continue;
        }
        if includeSet != {} {
          IncludeSetUsed(sel, includeSet);
          if c.id !in includeSet {
            continue;
          }
        }
        if catSet != {} {
          var matches := CategoryMatch(c, catSet);
          if !matches {
            continue;
          }
        }
        if sel.distro != "" && sel.distro != DISTRO_AUTO {
          var applies := AppliesToDistro(c, sel.distro);
          if !applies {
            continue;
          }
        }
        out := out + [c];
      }
      assert all[..|all|] == all;
      FilteredLists(all, m, Passing(sel));
    }
  }

  lemma IncludeSetUsed(sel: Selection, includeSet: set<string>)
    requires forall s :: s in includeSet <==> s in sel.included && s != ""
    ensures includeSet == {} <==> forall s :: s in sel.included ==> s == ""
  {
  }

  method StringSet(ss: seq<string>) returns (m: set<string>)
    ensures forall s :: s in m <==> s in ss && s != ""
  {
    m := {};
    for i := 0 to |ss|
      invariant forall s :: s in m <==> s in ss[..i] && s != ""
    {
      if ss[i] == "" {
        continue;
      }
      m := m + {ss[i]};
    }
  }

  method CategorySet(cats: seq<string>) returns (m: set<string>)
    ensures forall s :: s in m <==> s in cats
    ensures m == {} <==> cats == []
  {
    m := {};
    for i := 0 to |cats|
      invariant forall s :: s in m <==> s in cats[..i]
    {
      m := m + {cats[i]};
    }
    assert cats != [] ==> cats[0] in m;
  }

  method CategoryMatch(c: Check, want: set<string>) returns (found: bool)
    ensures found <==> exists cat :: cat in c.categories && cat in want
  {
    for i := 0 to |c.categories|
      invariant forall cat :: cat in c.categories[..i] ==> cat !in want
    {
      if c.categories[i] in want {
        return true;
      }
    }
    return false;
  }

  method AppliesToDistro(c: Check, distro: string) returns (applies: bool)
    ensures applies <==> AppliesTo(c, distro)
  {
    if c.distros.None? {
      return true;
    }
    var ds := c.distros.value;
    for i := 0 to |ds|
      invariant distro !in ds[..i]
    {
      if ds[i] == distro {
        return true;
      }
    }
    return false;
  }

  /** `want` adds no flag to `have`. */
  predicate AddsNothing(have: Capabilities, want: Capabilities) {
    have | want == have
  }

  /** The mask test holds exactly when nothing that is wanted is missing: adding it would add nothing. */
  lemma {:induction false} HasAllExactly(have: Capabilities, want: Capabilities)
    ensures HasAll(have, want) <==> AddsNothing(have, want)
  {
    if HasAll(have, want) {
      WantedIsThere(have, want);
    }
    if AddsNothing(have, want) {
      AddedIsThere(have, want);
    }
  }

  lemma {:induction false} WantedIsThere(have: Capabilities, want: Capabilities)
    requires have & want == want
    ensures have | want == have
  {
  }

  lemma {:induction false} AddedIsThere(have: Capabilities, want: Capabilities)
    requires have | want == have
    ensures have & want == want
  {
  }

  /** In a cluster (flags 1 and 2) every check may run; outside (flag 1) none that needs flag 2. */
  lemma SampleMasks()
    ensures HasAll(3, 1) && HasAll(3, 3) && HasAll(1, 1) && !HasAll(1, 3) && !HasAll(1, 2)
  {
  }

  ghost predicate DistinctIds(cs: seq<Check>) {
    forall i, j :: 0 <= i < j < |cs| ==> cs[i].id != cs[j].id
  }

  lemma DistinctSnoc(cs: seq<Check>, c: Check)
    ensures DistinctIds(cs + [c]) <==> DistinctIds(cs) && forall d {:trigger d in cs} :: d in cs ==> d.id != c.id
  {
    var all := cs + [c];
    if DistinctIds(all) {
      forall d | d in cs
        ensures d.id != c.id
      {
        var i :| 0 <= i < |cs| && cs[i] == d;
        assert all[i].id != all[|cs|].id;
      }
      forall i, j | 0 <= i < j < |cs|
        ensures cs[i].id != cs[j].id
      {
        assert all[i].id != all[j].id;
      }
    } else {
      var i, j :| 0 <= i < j < |all| && all[i].id == all[j].id;
      assert j < |cs| ==> cs[i].id == cs[j].id;
      assert j == |cs| ==> cs[i] in cs;
    }
  }

  lemma ByIdIsPreorder()
    ensures TotalPreorder(ById)
  {
    forall a: Check, b: Check
      ensures ById(a, b) || ById(b, a)
    {
      StrLeTotal(a.id, b.id);
    }
    forall a: Check, b: Check, c: Check | ById(a, b) && ById(b, c)
      ensures ById(a, c)
    {
      StrLeTransitive(a.id, b.id, c.id);
    }
  }

  lemma SortedListsAll(cs: seq<Check>, m: map<string, Check>)
    requires DistinctIds(cs) && forall c {:trigger c in cs} :: c in cs <==> c in m.Values
    ensures Lists(StableSort(cs, ById), m, Any)
  {
    ByIdIsPreorder();
    StableSortCorrect(cs, ById);
    var out := StableSort(cs, ById);
    assert forall c :: c in out <==> c in multiset(out);
    assert forall c :: c in cs <==> c in multiset(cs);
    forall i, j | 0 <= i < j < |out|
      ensures StrLt(out[i].id, out[j].id)
    {
      assert ById(out[i], out[j]);
      StrLeAntisymmetric(out[i].id, out[j].id);
      PermutedKeysDiffer(cs, out, (c: Check) => c.id, i, j);
    }
  }

  lemma FilteredLists(all: seq<Check>, m: map<string, Check>, p: Check -> bool)
    requires Lists(all, m, Any)
    ensures Lists(Filter(all, p), m, p)
  {
    var out := Filter(all, p);
    forall c
      ensures c in out <==> c in m.Values && p(c)
    {
      FilterIn(all, p, c);
    }
    FilterIsSubsequence(all, p);
    var at: seq<nat> :| OccursAt(out, all, at);
    forall i, j | 0 <= i < j < |out|
      ensures StrLt(out[i].id, out[j].id)
    {
      assert at[i] < at[j];
    }
  }

  /** Strictly increasing IDs leave one way to list a set of checks. */
  lemma {:induction false} IncreasingUnique(a: seq<Check>, b: seq<Check>)
    requires IdsIncrease(a) && IdsIncrease(b) && forall c {:trigger c in a} {:trigger c in b} :: c in a <==> c in b
    ensures a == b
  {
    SameMembersEmptyAlike(a, b);
    if a != [] && b != [] {
      var a', b', x, y := a[..|a| - 1], b[..|b| - 1], a[|a| - 1], b[|b| - 1];
      LastIsGreatest(a, y);
      LastIsGreatest(b, x);
      StrLeAntisymmetric(x.id, y.id);
      InitWithoutLast(a);
      InitWithoutLast(b);
      assert x == y;
      IncreasingUnique(a', b');
      assert a == a' + [x] && b == b' + [y];
    }
  }

  lemma SameMembersEmptyAlike(a: seq<Check>, b: seq<Check>)
    requires forall c {:trigger c in a} {:trigger c in b} :: c in a <==> c in b
    ensures a == [] <==> b == []
  {
    if a != [] {
      assert a[0] in a;
    }
    if b != [] {
      assert b[0] in b;
    }
  }

  lemma LastIsGreatest(cs: seq<Check>, c: Check)
    requires IdsIncrease(cs) && c in cs
    ensures StrLe(c.id, cs[|cs| - 1].id)
    ensures c.id == cs[|cs| - 1].id ==> c == cs[|cs| - 1]
  {
    var k :| 0 <= k < |cs| && cs[k] == c;
    StrLeTotal(c.id, cs[|cs| - 1].id);
    if k < |cs| - 1 {
      assert StrLt(cs[k].id, cs[|cs| - 1].id);
    }
  }

  lemma InitWithoutLast(cs: seq<Check>)
    requires IdsIncrease(cs) && cs != []
    ensures forall c {:trigger c in cs[..|cs| - 1]} :: c in cs[..|cs| - 1] <==> c in cs && c != cs[|cs| - 1]
  {
    var init, x := cs[..|cs| - 1], cs[|cs| - 1];
    assert cs == init + [x];
    forall i | 0 <= i < |init|
      ensures init[i] != x
    {
      assert StrLt(cs[i].id, x.id);
      StrLeTotal(x.id, x.id);
    }
  }

  /** `All` and `Filter` leave no freedom: their results are determined by the registered checks alone. */
  lemma ListsUnique(a: seq<Check>, b: seq<Check>, m: map<string, Check>, p: Check -> bool)
    requires Lists(a, m, p) && Lists(b, m, p)
    ensures a == b
  {
    IncreasingUnique(a, b);
  }

  /** What `Filter` returns is the subsequence of `All` that passes the selection. */
  lemma FilterIsPartOfAll(all: seq<Check>, out: seq<Check>, m: map<string, Check>, sel: Selection)
    requires Lists(all, m, Any) && Lists(out, m, Passing(sel))
    ensures out == Filter(all, Passing(sel)) && Subsequence(out, all)
  {
    FilteredLists(all, m, Passing(sel));
    ListsUnique(out, Filter(all, Passing(sel)), m, Passing(sel));
    FilterIsSubsequence(all, Passing(sel));
  }

  /**
    A registered check is missing from the result of `Filter` for one of four reasons only: it
    is excluded by name, some name is included but not its own, none of its categories is
    wanted, or it names the distributions it applies to and not the given one.
   */
  lemma FilterDropsExactly(out: seq<Check>, m: map<string, Check>, sel: Selection, c: Check)
    requires Lists(out, m, Passing(sel)) && c in m.Values
    ensures c !in out <==>
      || (c.id != "" && c.id in sel.excluded)
      || ((exists s :: s in sel.included && s != "") && (c.id == "" || c.id !in sel.included))
      || (sel.cats != [] && forall cat :: cat in c.categories ==> cat !in sel.cats)
      || (sel.distro != "" && sel.distro != "auto" && c.distros.Some? && sel.distro !in c.distros.value)
  {
    assert c in out <==> Passes(sel, c);
  }

  function NonEmpty(ss: seq<string>): seq<string> {
    Filter(ss, (s: string) => s != "")
  }

  /** Dropping the empty strings from the include and exclude lists changes nothing. */
  lemma EmptyStringsIgnored(sel: Selection, c: Check)
    ensures Passes(sel, c)
       <==> Passes(sel.(included := NonEmpty(sel.included), excluded := NonEmpty(sel.excluded)), c)
  {
    forall s
      ensures s in NonEmpty(sel.included) <==> s in sel.included && s != ""
      ensures s in NonEmpty(sel.excluded) <==> s in sel.excluded && s != ""
    {
      FilterIn(sel.included, (t: string) => t != "", s);
      FilterIn(sel.excluded, (t: string) => t != "", s);
    }
  }

  // ---------- Registration order ----------

  /** Registering `cs` one after the other; `None` when some registration panics. */
  function Registered(cs: seq<Check>): Option<map<string, Check>> {
    if cs == [] then Some(map[])
    else
      match Registered(cs[..|cs| - 1])
      case None => None
      case Some(m) => if cs[|cs| - 1].id in m then None else Some(m[cs[|cs| - 1].id := cs[|cs| - 1]])
  }

  /** What the `init` functions do to a fresh registry; it stops at the first panic. */
  method RegisterEach(cs: seq<Check>) returns (r: Registry, ok: bool)
    ensures fresh(r) && r.Valid()
    ensures ok <==> Registered(cs).Some?
    ensures ok ==> Some(r.m) == Registered(cs)
  {
    r := new Registry();
    for i := 0 to |cs|
      invariant fresh(r) && r.Valid() && Some(r.m) == Registered(cs[..i])
    {
      assert cs[..i + 1][..i] == cs[..i];
      ok := r.Register(cs[i]);
      if !ok {
        PanicStays(cs, i + 1);
        return;
      }
    }
    assert cs[..|cs|] == cs;
    ok := true;
  }

  lemma {:induction false} PanicStays(cs: seq<Check>, n: nat)
    requires n <= |cs| && Registered(cs[..n]).None?
    ensures Registered(cs).None?
  {
    if n == |cs| {
      assert cs[..n] == cs;
    } else {
      assert cs[..|cs| - 1][..n] == cs[..n];
      PanicStays(cs[..|cs| - 1], n);
    }
  }

  ghost predicate Stores(m: map<string, Check>, cs: seq<Check>) {
    && KeyedById(m)
    && (forall c {:trigger c in cs} :: c in cs <==> c in m.Values)
    && (forall k :: k in m ==> m[k] in cs)
  }

  lemma StoresSnoc(m: map<string, Check>, cs: seq<Check>, c: Check)
    requires Stores(m, cs)
    ensures c.id !in m ==> Stores(m[c.id := c], cs + [c])
    ensures c.id !in m <==> forall d {:trigger d in cs} :: d in cs ==> d.id != c.id
  {
    if c.id !in m {
      var m' := m[c.id := c];
      assert forall k :: k in m ==> m'[k] == m[k];
      forall d
        ensures d in cs + [c] <==> d in m'.Values
      {
        assert d in cs <==> d in m.Values;
        if d in m.Values {
          assert m'[d.id] == d;
        }
        assert m'[c.id] == c;
      }
    }
  }

  /** Registration succeeds exactly for distinct IDs, and then holds exactly the given checks. */
  lemma {:induction false} RegisteredExactly(cs: seq<Check>)
    ensures Registered(cs).Some? <==> DistinctIds(cs)
    ensures Registered(cs).Some? ==> Stores(Registered(cs).value, cs)
  {
    hide Stores, DistinctIds;
    if cs != [] {
      var init, x := cs[..|cs| - 1], cs[|cs| - 1];
      RegisteredExactly(init);
      assert cs == init + [x];
      DistinctSnoc(init, x);
      if Registered(init).Some? {
        StoresSnoc(Registered(init).value, init, x);
      }
    } else {
      NothingHeld();
    }
  }

  lemma NothingHeld()
    ensures Stores(map[], []) && DistinctIds([])
  {
  }

  /** `All` after registering `cs` is `cs` sorted by ID. */
  lemma AllIsSorted(cs: seq<Check>, out: seq<Check>)
    requires Registered(cs).Some? && Lists(out, Registered(cs).value, Any)
    ensures out == StableSort(cs, ById)
  {
    RegisteredExactly(cs);
    SortedListsAll(cs, Registered(cs).value);
    ListsUnique(out, StableSort(cs, ById), Registered(cs).value, Any);
  }

  /** The order of registration never shows: not in whether it panics and not in what is stored. */
  lemma RegistrationOrderIrrelevant(cs: seq<Check>, ds: seq<Check>)
    requires multiset(cs) == multiset(ds)
    ensures Registered(cs) == Registered(ds)
  {
    RegisteredExactly(cs);
    RegisteredExactly(ds);
    DistinctnessPermutes(cs, ds);
    DistinctnessPermutes(ds, cs);
    if Registered(cs).Some? {
      assert forall c :: c in cs <==> c in multiset(cs);
      assert forall c :: c in ds <==> c in multiset(ds);
      SameStore(Registered(cs).value, Registered(ds).value, cs, ds);
    }
  }

  lemma SameStore(m: map<string, Check>, n: map<string, Check>, cs: seq<Check>, ds: seq<Check>)
    requires Stores(m, cs) && Stores(n, ds)
    requires forall c {:trigger c in cs} {:trigger c in ds} :: c in cs <==> c in ds
    ensures m == n
  {
    forall k
      ensures k in m ==> k in n && n[k] == m[k]
      ensures k in n ==> k in m && m[k] == n[k]
    {
      if k in m {
        assert m[k] in n.Values;
      }
      if k in n {
        assert n[k] in m.Values;
      }
    }
  }

  lemma DistinctnessPermutes(cs: seq<Check>, ds: seq<Check>)
    requires multiset(cs) == multiset(ds)
    ensures DistinctIds(cs) ==> DistinctIds(ds)
  {
    if DistinctIds(cs) {
      forall i, j | 0 <= i < j < |ds|
        ensures ds[i].id != ds[j].id
      {
        PermutedKeysDiffer(cs, ds, (c: Check) => c.id, i, j);
      }
    }
  }
}
