/** How much freedom the scheduler has: when the order of the report is fixed by what the checks return. */
module PoolChoice {
  import opened Sequences
  import opened Findings
  import opened Registry
  import opened Pool
  import opened PoolLaws
  import opened PoolOrder
  import opened PoolSchedules

  // ---------- List order ----------

  /** The results of the first `k` checks in list order, and the first `i` findings of the next one. */
  function ListOrder(outs: seq<seq<Finding>>, k: nat, i: nat): (report: seq<Finding>)
    requires k <= |outs| && i <= if k < |outs| then |outs[k]| else 0
    decreases k, i
  {
    if i > 0 then ListOrder(outs, k, i - 1) + [outs[k][i - 1]]
    else if k > 0 then ListOrder(outs, k - 1, |outs[k - 1]|)
    else []
  }

  function ListOrigin(outs: seq<seq<Finding>>, k: nat, i: nat): (origin: seq<nat>)
    requires k <= |outs| && i <= if k < |outs| then |outs[k]| else 0
    ensures |origin| == |ListOrder(outs, k, i)|
    decreases k, i
  {
    if i > 0 then ListOrigin(outs, k, i - 1) + [k]
    else if k > 0 then ListOrigin(outs, k - 1, |outs[k - 1]|)
    else []
  }

  /** What has been delivered of a check at this point. */
  function DeliveredOf(outs: seq<seq<Finding>>, k: nat, i: nat, job: nat): seq<Finding>
    requires k <= |outs| && i <= if k < |outs| then |outs[k]| else 0
  {
    if job < k then outs[job] else if job == k && k < |outs| then outs[k][..i] else []
  }

  lemma {:induction false} ListOrderFrom(outs: seq<seq<Finding>>, k: nat, i: nat, job: nat)
    requires k <= |outs| && i <= if k < |outs| then |outs[k]| else 0
    ensures From(ListOrder(outs, k, i), ListOrigin(outs, k, i), job) == DeliveredOf(outs, k, i, job)
    decreases k, i
  {
    hide From, DeliveredOf;
    if i > 0 {
      ListOrderFrom(outs, k, i - 1, job);
      FromSnoc(ListOrder(outs, k, i - 1), ListOrigin(outs, k, i - 1), outs[k][i - 1], k, job);
      DeliveredMore(outs, k, i, job);
    } else if k > 0 {
      ListOrderFrom(outs, k - 1, |outs[k - 1]|, job);
      DeliveredAll(outs, k, job);
    } else {
      NothingDelivered(outs, job);
    }
  }

  lemma DeliveredMore(outs: seq<seq<Finding>>, k: nat, i: nat, job: nat)
    requires k < |outs| && 0 < i <= |outs[k]|
    ensures DeliveredOf(outs, k, i, job) == DeliveredOf(outs, k, i - 1, job) + if k == job then [outs[k][i - 1]] else []
  {
    assert outs[k][..i] == outs[k][..i - 1] + [outs[k][i - 1]];
  }

  lemma DeliveredAll(outs: seq<seq<Finding>>, k: nat, job: nat)
    requires 0 < k <= |outs|
    ensures DeliveredOf(outs, k, 0, job) == DeliveredOf(outs, k - 1, |outs[k - 1]|, job)
  {
  }

  lemma NothingDelivered(outs: seq<seq<Finding>>, job: nat)
    ensures From([], [], job) == [] == DeliveredOf(outs, 0, 0, job)
  {
  }

  lemma {:induction false} ListOriginBelow(outs: seq<seq<Finding>>, k: nat, i: nat)
    requires k <= |outs| && i <= if k < |outs| then |outs[k]| else 0
    ensures forall p {:trigger ListOrigin(outs, k, i)[p]} :: 0 <= p < |ListOrigin(outs, k, i)| ==>
      ListOrigin(outs, k, i)[p] < if i > 0 then k + 1 else k
    decreases k, i
  {
    if i > 0 {
      ListOriginBelow(outs, k, i - 1);
    } else if k > 0 {
      ListOriginBelow(outs, k - 1, |outs[k - 1]|);
    }
  }

  /** In list order only the check that is being delivered is open. */
  lemma {:induction false} OneOpen(outs: seq<seq<Finding>>, k: nat, i: nat)
    requires k < |outs| && i < |outs[k]|
    ensures var origin := ListOrigin(outs, k, i);
      |OpenJobs(ListOrder(outs, k, i), origin, AsMap(outs), Reach(origin + [k]))| <= 1
  {
    var report, origin := ListOrder(outs, k, i), ListOrigin(outs, k, i);
    ListOriginBelow(outs, k, i);
    ReachBelow(origin + [k], k + 1);
    var open := OpenJobs(report, origin, AsMap(outs), Reach(origin + [k]));
    forall j | j in open
      ensures j == k
    {
      ListOrderFrom(outs, k, i, j);
    }
    SubsetSize(open, {k});
  }

  lemma {:induction false} ListOrderFits(outs: seq<seq<Finding>>, k: nat, i: nat)
    requires k <= |outs| && i <= if k < |outs| then |outs[k]| else 0
    ensures Fits(ListOrder(outs, k, i), ListOrigin(outs, k, i), AsMap(outs), 1)
    decreases k, i
  {
    if i > 0 {
      ListOrderFits(outs, k, i - 1);
      OneOpen(outs, k, i - 1);
      FitsSnoc(ListOrder(outs, k, i - 1), ListOrigin(outs, k, i - 1), outs[k][i - 1], k, AsMap(outs), 1);
    } else if k > 0 {
      ListOrderFits(outs, k - 1, |outs[k - 1]|);
    }
  }

  lemma {:induction false} ListOrderMerges(outs: seq<seq<Finding>>)
    ensures MergedBy(ListOrder(outs, |outs|, 0), outs, ListOrigin(outs, |outs|, 0))
  {
    ListOriginBelow(outs, |outs|, 0);
    forall j: nat | j < |outs|
      ensures From(ListOrder(outs, |outs|, 0), ListOrigin(outs, |outs|, 0), j) == outs[j]
    {
      ListOrderFrom(outs, |outs|, 0, j);
    }
  }

  lemma {:induction false} FitsMore(report: seq<Finding>, origin: seq<nat>, outputs: map<nat, seq<Finding>>, m: nat,
      n: nat)
    requires |report| == |origin| && m <= n && Fits(report, origin, outputs, m)
    ensures Fits(report, origin, outputs, n)
  {
    if report != [] {
      FitsMore(report[..|report| - 1], origin[..|origin| - 1], outputs, m, n);
    }
  }

  // ---------- Exchanging two neighbours ----------

  lemma {:induction false} FromAppend(r: seq<Finding>, o: seq<nat>, r': seq<Finding>, o': seq<nat>, job: nat)
    requires |r| == |o| && |r'| == |o'|
    ensures From(r + r', o + o', job) == From(r, o, job) + From(r', o', job)
  {
    if r' == [] {
      assert r + r' == r && o + o' == o;
    } else {
      var n := |r'| - 1;
      FromAppend(r, o, r'[..n], o'[..n], job);
      assert r + r' == (r + r'[..n]) + [r'[n]] && o + o' == (o + o'[..n]) + [o'[n]];
      FromSnoc(r + r'[..n], o + o'[..n], r'[n], o'[n], job);
    }
  }

  lemma FromPair(r: seq<Finding>, o: seq<nat>, f: Finding, i: nat, g: Finding, j: nat, job: nat)
    requires |r| == |o|
    ensures From(r + [f] + [g], o + [i] + [j], job)
         == From(r, o, job) + (if i == job then [f] else []) + (if j == job then [g] else [])
  {
    FromSnoc(r, o, f, i, job);
    FromSnoc(r + [f], o + [i], g, j, job);
  }

  /** Deliveries of two different checks can be exchanged as far as the checks can tell. */
  lemma SwapFrom(r: seq<Finding>, o: seq<nat>, f: Finding, i: nat, g: Finding, j: nat, job: nat)
    requires |r| == |o| && i != j
    ensures From(r + [f] + [g], o + [i] + [j], job) == From(r + [g] + [f], o + [j] + [i], job)
  {
    FromPair(r, o, f, i, g, j, job);
    FromPair(r, o, g, j, f, i, job);
  }

  lemma ReachSnoc(origin: seq<nat>, job: nat)
    ensures Reach(origin + [job]) == if job >= Reach(origin) then job + 1 else Reach(origin)
  {
    assert (origin + [job])[..|origin|] == origin;
  }

  /**
    What is open before the exchanged pair, or between its halves, is open between the original
    ones, except for `i`.
   */
  lemma {:induction false} SwapOpen(r: seq<Finding>, o: seq<nat>, f: Finding, i: nat, g: Finding, j: nat,
      outputs: map<nat, seq<Finding>>, n: nat)
    requires |r| == |o| && i != j
    requires |OpenJobs(r + [f], o + [i], outputs, Reach(o + [i] + [j]))| <= n
    requires j in outputs ==> From(r, o, j) != outputs[j]
    ensures |OpenJobs(r, o, outputs, Reach(o + [j]))| <= n + 1
    ensures |OpenJobs(r + [g], o + [j], outputs, Reach(o + [j] + [i]))| <= n + 1
  {
    var between := OpenJobs(r + [f], o + [i], outputs, Reach(o + [i] + [j]));
    ReachSnoc(o, i);
    ReachSnoc(o, j);
    ReachSnoc(o + [i], j);
    ReachSnoc(o + [j], i);
    forall k: nat
      ensures From(r + [f], o + [i], k) == From(r, o, k) + if i == k then [f] else []
      ensures From(r + [g], o + [j], k) == From(r, o, k) + if j == k then [g] else []
    {
      FromSnoc(r, o, f, i, k);
      FromSnoc(r, o, g, j, k);
    }
    SubsetSize(OpenJobs(r, o, outputs, Reach(o + [j])), between + {i});
    SubsetSize(OpenJobs(r + [g], o + [j], outputs, Reach(o + [j] + [i])), between + {i});
  }

  lemma {:induction false} SwapPairFits(r: seq<Finding>, o: seq<nat>, f: Finding, i: nat, g: Finding, j: nat,
      outputs: map<nat, seq<Finding>>, n: nat)
    requires |r| == |o| && i != j && Fits(r + [f] + [g], o + [i] + [j], outputs, n)
    requires j in outputs ==> From(r, o, j) != outputs[j]
    ensures Fits(r + [g] + [f], o + [j] + [i], outputs, n + 1)
  {
    hide OpenJobs, Fits, Reach;
    FitsSnoc(r + [f], o + [i], g, j, outputs, n);
    FitsSnoc(r, o, f, i, outputs, n);
    SwapOpen(r, o, f, i, g, j, outputs, n);
    FitsMore(r, o, outputs, n, n + 1);
    FitsSnoc(r, o, g, j, outputs, n + 1);
    FitsSnoc(r + [g], o + [j], f, i, outputs, n + 1);
  }

  /** So exchanging two neighbours of different checks takes at most one worker more. */
  lemma {:induction false} SwapFits(r: seq<Finding>, o: seq<nat>, f: Finding, i: nat, g: Finding, j: nat,
      tail: seq<Finding>, otail: seq<nat>, outputs: map<nat, seq<Finding>>, n: nat)
    requires |r| == |o| && |tail| == |otail| && i != j
    requires Fits(r + [f] + [g] + tail, o + [i] + [j] + otail, outputs, n)
    requires j in outputs ==> From(r, o, j) != outputs[j]
    ensures Fits(r + [g] + [f] + tail, o + [j] + [i] + otail, outputs, n + 1)
  {
    hide OpenJobs, Fits, Reach, From;
    if tail == [] {
      assert r + [f] + [g] + tail == r + [f] + [g] && o + [i] + [j] + otail == o + [i] + [j];
      assert r + [g] + [f] + tail == r + [g] + [f] && o + [j] + [i] + otail == o + [j] + [i];
      SwapPairFits(r, o, f, i, g, j, outputs, n);
    } else {
      var init, x, oinit, y := tail[..|tail| - 1], tail[|tail| - 1], otail[..|otail| - 1], otail[|otail| - 1];
      assert r + [f] + [g] + tail == (r + [f] + [g] + init) + [x]
        && o + [i] + [j] + otail == (o + [i] + [j] + oinit) + [y];
      assert r + [g] + [f] + tail == (r + [g] + [f] + init) + [x]
        && o + [j] + [i] + otail == (o + [j] + [i] + oinit) + [y];
      FitsSnoc(r + [f] + [g] + init, o + [i] + [j] + oinit, x, y, outputs, n);
      SwapFits(r, o, f, i, g, j, init, oinit, outputs, n);
      SwapTail(r, o, f, i, g, j, init, oinit, y, outputs);
      FitsSnoc(r + [g] + [f] + init, o + [j] + [i] + oinit, x, y, outputs, n + 1);
    }
  }

  /** Behind the exchanged pair nothing differs. */
  lemma {:induction false} SwapTail(r: seq<Finding>, o: seq<nat>, f: Finding, i: nat, g: Finding, j: nat,
      tail: seq<Finding>, otail: seq<nat>, y: nat, outputs: map<nat, seq<Finding>>)
    requires |r| == |o| && |tail| == |otail| && i != j
    ensures OpenJobs(r + [f] + [g] + tail, o + [i] + [j] + otail, outputs, Reach(o + [i] + [j] + otail + [y]))
         == OpenJobs(r + [g] + [f] + tail, o + [j] + [i] + otail, outputs, Reach(o + [j] + [i] + otail + [y]))
  {
    SwapReach(o, i, j, otail);
    ReachSnoc(o + [i] + [j] + otail, y);
    ReachSnoc(o + [j] + [i] + otail, y);
    forall k: nat
      ensures From(r + [f] + [g] + tail, o + [i] + [j] + otail, k)
        == From(r + [g] + [f] + tail, o + [j] + [i] + otail, k)
    {
      SwapFrom(r, o, f, i, g, j, k);
      FromAppend(r + [f] + [g], o + [i] + [j], tail, otail, k);
      FromAppend(r + [g] + [f], o + [j] + [i], tail, otail, k);
    }
  }

  lemma {:induction false} SwapReach(o: seq<nat>, i: nat, j: nat, otail: seq<nat>)
    ensures Reach(o + [i] + [j] + otail) == Reach(o + [j] + [i] + otail)
  {
    if otail == [] {
      assert o + [i] + [j] + otail == o + [i] + [j] && o + [j] + [i] + otail == o + [j] + [i];
      ReachSnoc(o, i);
      ReachSnoc(o, j);
      ReachSnoc(o + [i], j);
      ReachSnoc(o + [j], i);
    } else {
      var init, y := otail[..|otail| - 1], otail[|otail| - 1];
      assert o + [i] + [j] + otail == (o + [i] + [j] + init) + [y]
        && o + [j] + [i] + otail == (o + [j] + [i] + init) + [y];
      SwapReach(o, i, j, init);
      ReachSnoc(o + [i] + [j] + init, y);
      ReachSnoc(o + [j] + [i] + init, y);
    }
  }

  // ---------- When there is no freedom ----------

  ghost predicate AtMostOneNonEmpty(outs: seq<seq<Finding>>) {
    forall i, j {:trigger outs[i], outs[j]} :: 0 <= i < j < |outs| ==> outs[i] == [] || outs[j] == []
  }

  lemma {:induction false} FromAll(report: seq<Finding>, origin: seq<nat>, job: nat)
    requires |report| == |origin| && forall i {:trigger origin[i]} :: 0 <= i < |origin| ==> origin[i] == job
    ensures From(report, origin, job) == report
  {
    if report != [] {
      FromAll(report[..|report| - 1], origin[..|origin| - 1], job);
      InitLast(report);
    }
  }

  /** A merge in which only one part is not empty is that part. */
  lemma {:induction false} MergeOfOne(outs: seq<seq<Finding>>, report: seq<Finding>, origin: seq<nat>)
    requires MergedBy(report, outs, origin) && AtMostOneNonEmpty(outs)
    ensures report != [] ==> origin[0] < |outs| && report == outs[origin[0]]
    ensures report == [] ==> forall j {:trigger outs[j]} :: 0 <= j < |outs| ==> outs[j] == []
  {
    forall i | 0 <= i < |origin|
      ensures origin[i] == origin[0]
    {
      FromContains(report, origin, i);
      FromContains(report, origin, 0);
      assert outs[origin[i]] != [] && outs[origin[0]] != [];
    }
    if report != [] {
      FromAll(report, origin, origin[0]);
    }
  }

  lemma {:induction false} OneNonEmptyFixes(outs: seq<seq<Finding>>, a: seq<Finding>, b: seq<Finding>)
    requires AtMostOneNonEmpty(outs) && Interleaves(a, outs) && Interleaves(b, outs)
    ensures a == b
  {
    hide From;
    var oa: seq<nat> :| MergedBy(a, outs, oa);
    var ob: seq<nat> :| MergedBy(b, outs, ob);
    MergeOfOne(outs, a, oa);
    MergeOfOne(outs, b, ob);
    if a != [] && b != [] {
      assert outs[oa[0]] != [] && outs[ob[0]] != [];
    }
  }

  lemma {:induction false} FindChange(origin: seq<nat>, n: nat) returns (p: nat)
    requires 0 < n < |origin| && origin[0] != origin[n]
    ensures p + 1 <= n && origin[p] != origin[p + 1]
  {
    if origin[n - 1] != origin[n] {
      p := n - 1;
    } else {
      p := FindChange(origin, n - 1);
    }
  }

  lemma {:induction false} FromIn(report: seq<Finding>, origin: seq<nat>, job: nat) returns (i: nat)
    requires |report| == |origin| && From(report, origin, job) != []
    ensures i < |origin| && origin[i] == job
  {
    if origin[|origin| - 1] == job {
      i := |origin| - 1;
    } else {
      i := FromIn(report[..|report| - 1], origin[..|origin| - 1], job);
    }
  }

  /** Two checks with findings leave a place where the origin changes. */
  lemma {:induction false} SomeChange(outs: seq<seq<Finding>>, report: seq<Finding>, origin: seq<nat>) returns (p: nat)
    requires MergedBy(report, outs, origin) && !AtMostOneNonEmpty(outs)
    ensures p + 1 < |origin| && origin[p] != origin[p + 1]
  {
    var i, j :| 0 <= i < j < |outs| && outs[i] != [] && outs[j] != [];
    var a := FromIn(report, origin, i);
    var b := FromIn(report, origin, j);
    p := FindChange(origin, if origin[0] != i then a else b);
  }

  lemma SplitAround<T>(s: seq<T>, p: nat)
    requires p + 1 < |s|
    ensures s == s[..p] + [s[p]] + [s[p + 1]] + s[p + 2..]
  {
  }

  /** What is delivered later is still missing now. */
  lemma StillMissing(r: seq<Finding>, o: seq<nat>, f: Finding, i: nat, g: Finding, j: nat, tail: seq<Finding>,
      otail: seq<nat>)
    requires |r| == |o| && |tail| == |otail|
    ensures |From(r, o, j)| < |From(r + [f] + [g] + tail, o + [i] + [j] + otail, j)|
  {
    FromAppend(r + [f] + [g], o + [i] + [j], tail, otail, j);
    FromPair(r, o, f, i, g, j, j);
  }

  lemma {:induction false} SwapMerges(outs: seq<seq<Finding>>, r: seq<Finding>, o: seq<nat>, f: Finding, i: nat,
      g: Finding, j: nat,
      tail: seq<Finding>, otail: seq<nat>)
    requires |r| == |o| && |tail| == |otail| && i != j
    requires MergedBy(r + [f] + [g] + tail, outs, o + [i] + [j] + otail)
    ensures MergedBy(r + [g] + [f] + tail, outs, o + [j] + [i] + otail)
  {
    hide From;
    var origin, swapped := o + [i] + [j] + otail, o + [j] + [i] + otail;
    forall p | 0 <= p < |swapped|
      ensures swapped[p] < |outs|
    {
      assert swapped[p] == if p == |o| then origin[p + 1] else if p == |o| + 1 then origin[p - 1] else origin[p];
    }
    forall k: nat | k < |outs|
      ensures From(r + [g] + [f] + tail, swapped, k) == outs[k]
    {
      SwapFrom(r, o, f, i, g, j, k);
      FromAppend(r + [f] + [g], o + [i] + [j], tail, otail, k);
      FromAppend(r + [g] + [f], o + [j] + [i], tail, otail, k);
      assert From(r + [f] + [g] + tail, origin, k) == outs[k];
    }
  }

  lemma {:induction false} SwapSchedules(outs: seq<seq<Finding>>, r: seq<Finding>, o: seq<nat>, f: Finding, i: nat,
      g: Finding, j: nat,
      tail: seq<Finding>, otail: seq<nat>)
    requires |r| == |o| && |tail| == |otail| && i != j
    requires MergedBy(r + [f] + [g] + tail, outs, o + [i] + [j] + otail)
    requires Fits(r + [f] + [g] + tail, o + [i] + [j] + otail, AsMap(outs), 1)
    ensures Schedulable(outs, r + [g] + [f] + tail, 2)
  {
    hide Fits, From;
    SwapMerges(outs, r, o, f, i, g, j, tail, otail);
    StillMissing(r, o, f, i, g, j, tail, otail);
    assert (o + [i] + [j] + otail)[|o| + 1] == j;
    SwapFits(r, o, f, i, g, j, tail, otail, AsMap(outs), 1);
  }

  /** Findings of two different checks are different. */
  lemma OriginsDiffer(list: seq<Check>, outs: seq<seq<Finding>>, report: seq<Finding>, origin: seq<nat>, p: nat)
    requires IdsIncrease(list) && FromChecks(list, outs) && MergedBy(report, outs, origin)
    requires p + 1 < |origin| && origin[p] != origin[p + 1]
    ensures |report| == |origin| && report[p] != report[p + 1]
  {
    OriginNamesCheck(list, report, outs, origin, p);
    OriginNamesCheck(list, report, outs, origin, p + 1);
    DistinctIdsOf(list, origin[p], origin[p + 1]);
  }

  /** With two workers, list order and list order with two neighbours exchanged are both possible. */
  lemma {:induction false} TwoOrders(list: seq<Check>, outs: seq<seq<Finding>>)
    returns (a: seq<Finding>, b: seq<Finding>)
    requires IdsIncrease(list) && FromChecks(list, outs) && !AtMostOneNonEmpty(outs)
    ensures Schedulable(outs, a, 1) && Schedulable(outs, b, 2) && a != b
  {
    hide Fits, MergedBy, FromChecks, IdsIncrease, AtMostOneNonEmpty, ListOrder, ListOrigin;
    a := ListOrder(outs, |outs|, 0);
    var origin := ListOrigin(outs, |outs|, 0);
    ListOrderMerges(outs);
    ListOrderFits(outs, |outs|, 0);
    assert Schedulable(outs, a, 1);
    var p := SomeChange(outs, a, origin);
    SplitAround(a, p);
    SplitAround(origin, p);
    SwapSchedules(outs, a[..p], origin[..p], a[p], origin[p], a[p + 1], origin[p + 1], a[p + 2..], origin[p + 2..]);
    b := a[..p] + [a[p + 1]] + [a[p]] + a[p + 2..];
    OriginsDiffer(list, outs, a, origin, p);
    assert b[p] == a[p + 1];
  }

  lemma {:induction false} SchedulableWithMore(outs: seq<seq<Finding>>, report: seq<Finding>, m: nat, n: nat)
    requires Schedulable(outs, report, m) && m <= n
    ensures Schedulable(outs, report, n)
  {
    hide Fits;
    var origin: seq<nat> :| MergedBy(report, outs, origin) && Fits(report, origin, AsMap(outs), m);
    FitsMore(report, origin, AsMap(outs), m, n);
  }

  /** All finished runs with these results that end with the context in this state deliver the same report. */
  ghost predicate OneReport(cfg: Config, outs: seq<seq<Finding>>, ctx: Context) {
    forall r, r' {:trigger Possible(cfg, outs, r, ctx), Possible(cfg, outs, r', ctx)} ::
      Possible(cfg, outs, r, ctx) && Possible(cfg, outs, r', ctx) ==> r == r'
  }

  lemma {:induction false} OneWorkerOneReport(cfg: Config, outs: seq<seq<Finding>>, report: seq<Finding>, ctx: Context)
    requires WorkerCount(cfg) == 1 && Possible(cfg, outs, report, ctx)
    ensures report == Concat(outs)
  {
    hide Results;
    var steps :| Finished(cfg, steps) && Results(cfg, steps) == outs && EndOf(cfg, steps).report == report
      && EndOf(cfg, steps).ctx == ctx;
    OneWorkerKeepsOrder(cfg, steps);
  }

  /**
    The report that the JSON and YAML output prints in arrival order is fixed by the checks'
    results exactly when there is one worker or at most one check has any findings.
   */
  lemma {:induction false} OneReportExactly(cfg: Config, outs: seq<seq<Finding>>, ctx: Context)
    requires |outs| <= |cfg.list| && (ctx == Live ==> |outs| == |cfg.list|)
    requires forall j {:trigger outs[j]} :: 0 <= j < |outs| ==> Allowed(cfg, j, outs[j])
    requires IdsIncrease(cfg.list) && FromChecks(cfg.list, outs)
    ensures OneReport(cfg, outs, ctx) <==> WorkerCount(cfg) == 1 || AtMostOneNonEmpty(outs)
  {
    hide Allowed, Possible, FromChecks, AtMostOneNonEmpty;
    if WorkerCount(cfg) == 1 {
      forall r, r' | Possible(cfg, outs, r, ctx) && Possible(cfg, outs, r', ctx)
        ensures r == r'
      {
        OneWorkerOneReport(cfg, outs, r, ctx);
        OneWorkerOneReport(cfg, outs, r', ctx);
      }
    } else if AtMostOneNonEmpty(outs) {
      forall r, r' | Possible(cfg, outs, r, ctx) && Possible(cfg, outs, r', ctx)
        ensures r == r'
      {
        PossibleIsSchedulable(cfg, outs, r, ctx);
        PossibleIsSchedulable(cfg, outs, r', ctx);
        OneNonEmptyFixes(outs, r, r');
      }
    } else {
      var a, b := TwoOrders(cfg.list, outs);
      SchedulableWithMore(outs, a, 1, WorkerCount(cfg));
      SchedulableWithMore(outs, b, 2, WorkerCount(cfg));
      ScheduleRuns(cfg, outs, a, ctx);
      ScheduleRuns(cfg, outs, b, ctx);
    }
  }
}
