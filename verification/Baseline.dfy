/** Keyed comparison of two finding lists (internal/result/baseline.go). */
module Baseline {
  import opened Sequences
  import opened Findings

  /** `added` is the source's `New`. */
  datatype Diff = Diff(added: seq<Finding>, cleared: seq<Finding>, persisting: seq<Finding>)

  type Head = (Status, string)

  function HeadOf(f: Finding): Head {
    (f.status, f.check)
  }

  function Header(h: Head): string {
    h.0 + "|" + h.1 + "|"
  }

  /** The string both the baseline diff and the watch tracker compare findings by. */
  function Key(f: Finding): string {
    f.status + "|" + f.check + "|" + f.resource
  }

  function Triple(f: Finding): (Status, string, string) {
    (f.status, f.check, f.resource)
  }

  function KeysOf(fs: seq<Finding>): set<string> {
    set f | f in fs :: Key(f)
  }

  function TriplesOf(fs: seq<Finding>): set<(Status, string, string)> {
    set f | f in fs :: Triple(f)
  }

  /** What `Compare` classifies, as three filters. */
  function CompareOf(base: seq<Finding>, cur: seq<Finding>): Diff {
    Diff(
      Filter(cur, (f: Finding) => Key(f) !in KeysOf(base)),
      Filter(base, (f: Finding) => Key(f) !in KeysOf(cur)),
      Filter(cur, (f: Finding) => Key(f) in KeysOf(base)))
  }

  /** The documented comparison: by (Check, Resource, Status), with no string key in between. */
  function CompareByTriple(base: seq<Finding>, cur: seq<Finding>): Diff {
    Diff(
      Filter(cur, (f: Finding) => Triple(f) !in TriplesOf(base)),
      Filter(base, (f: Finding) => Triple(f) !in TriplesOf(cur)),
      Filter(cur, (f: Finding) => Triple(f) in TriplesOf(base)))
  }

  method KeySet(fs: seq<Finding>) returns (keys: set<string>)
    ensures keys == KeysOf(fs)
  {
    keys := {};
    for i := 0 to |fs|
      invariant keys == KeysOf(fs[..i])
    {
      assert fs[..i + 1] == fs[..i] + [fs[i]];
      keys := keys + {Key(fs[i])};
    }
    assert fs[..|fs|] == fs;
  }

  method Compare(base: seq<Finding>, cur: seq<Finding>) returns (d: Diff)
    ensures d == CompareOf(base, cur)
  {
    var baseSet := KeySet(base);
    var curSet := KeySet(cur);
    ghost var isOld := (f: Finding) => Key(f) in KeysOf(base);
    ghost var isNew := (f: Finding) => Key(f) !in KeysOf(base);
    ghost var isGone := (f: Finding) => Key(f) !in KeysOf(cur);
    d := Diff([], [], []);
    for i := 0 to |cur|
      invariant d == Diff(Filter(cur[..i], isNew), [], Filter(cur[..i], isOld))
    {
      var f := cur[i];
      assert cur[..i + 1] == cur[..i] + [f];
      FilterSnoc(cur[..i], f, isNew);
      FilterSnoc(cur[..i], f, isOld);
      if Key(f) in baseSet {
        d := d.(persisting := d.persisting + [f]);
      } else {
        d := d.(added := d.added + [f]);
      }
    }
    assert cur[..|cur|] == cur;
    for i := 0 to |base|
      invariant d == Diff(Filter(cur, isNew), Filter(base[..i], isGone), Filter(cur, isOld))
    {
      var f := base[i];
      assert base[..i + 1] == base[..i] + [f];
      FilterSnoc(base[..i], f, isGone);
      if Key(f) !in curSet {
        d := d.(cleared := d.cleared + [f]);
      }
    }
    assert base[..|base|] == base;
  }

  /** New and Persisting split the current findings and keep their order; Cleared keeps the baseline's. */
  lemma CompareSplitsCurrent(base: seq<Finding>, cur: seq<Finding>)
    ensures var d := CompareOf(base, cur);
      && multiset(cur) == multiset(d.added) + multiset(d.persisting)
      && Subsequence(d.added, cur) && Subsequence(d.persisting, cur) && Subsequence(d.cleared, base)
  {
    var isOld := (f: Finding) => Key(f) in KeysOf(base);
    var isNew := (f: Finding) => Key(f) !in KeysOf(base);
    FilterPartition(cur, isNew, isOld);
    FilterIsSubsequence(cur, isNew);
    FilterIsSubsequence(cur, isOld);
    FilterIsSubsequence(base, (f: Finding) => Key(f) !in KeysOf(cur));
  }

  /** The three lists carry exactly the keys set arithmetic says; the diff applied to the old keys gives the new. */
  lemma CompareKeys(base: seq<Finding>, cur: seq<Finding>)
    ensures var d := CompareOf(base, cur);
      && KeysOf(d.added) == KeysOf(cur) - KeysOf(base)
      && KeysOf(d.persisting) == KeysOf(cur) * KeysOf(base)
      && KeysOf(d.cleared) == KeysOf(base) - KeysOf(cur)
      && (KeysOf(base) - KeysOf(d.cleared)) + KeysOf(d.added) == KeysOf(cur)
  {
    FilteredKeys(cur, KeysOf(base));
    FilteredKeys(base, KeysOf(cur));
  }

  lemma FilteredKeys(fs: seq<Finding>, keys: set<string>)
    ensures KeysOf(Filter(fs, (f: Finding) => Key(f) in keys)) == KeysOf(fs) * keys
    ensures KeysOf(Filter(fs, (f: Finding) => Key(f) !in keys)) == KeysOf(fs) - keys
  {
    var inside := (f: Finding) => Key(f) in keys;
    var outside := (f: Finding) => Key(f) !in keys;
    forall f
      ensures f in Filter(fs, inside) <==> f in fs && Key(f) in keys
      ensures f in Filter(fs, outside) <==> f in fs && Key(f) !in keys
    {
      FilterIn(fs, inside, f);
      FilterIn(fs, outside, f);
    }
    assert forall f :: f in Filter(fs, inside) ==> f in fs && Key(f) in keys;
    assert forall f :: f in Filter(fs, outside) ==> f in fs && Key(f) !in keys;
  }

  /** A list compared with itself is all Persisting, and swapping the arguments swaps New and Cleared. */
  lemma CompareMirrors(base: seq<Finding>, cur: seq<Finding>)
    ensures CompareOf(base, cur).cleared == CompareOf(cur, base).added
    ensures CompareOf(cur, cur) == Diff([], [], cur)
  {
    FilterAll(cur, (f: Finding) => Key(f) in KeysOf(cur));
    FilterNone(cur, (f: Finding) => Key(f) !in KeysOf(cur));
  }

  // ---------- How faithful the string key is ----------

  /** No '|' in either of the two parts that precede the resource. */
  predicate Plain(h: Head) {
    '|' !in h.0 && '|' !in h.1
  }

  ghost predicate PrefixFree(heads: set<Head>) {
    forall p, q :: p in heads && q in heads && p != q ==> !(Header(p) <= Header(q))
  }

  lemma KeySplits(f: Finding)
    ensures Key(f) == Header(HeadOf(f)) + f.resource
  {
    assert Key(f) == (f.status + "|" + f.check + "|") + f.resource;
  }

  /** Two keys with equal text have comparable headers. */
  lemma EqualKeysCompare(f: Finding, g: Finding)
    requires Key(f) == Key(g)
    ensures Header(HeadOf(f)) <= Header(HeadOf(g)) || Header(HeadOf(g)) <= Header(HeadOf(f))
  {
    KeySplits(f);
    KeySplits(g);
    var a, b := Header(HeadOf(f)), Header(HeadOf(g));
    if |a| <= |b| {
      assert b[..|a|] == Key(g)[..|a|] == Key(f)[..|a|] == a;
    } else {
      assert a[..|b|] == Key(f)[..|b|] == Key(g)[..|b|] == b;
    }
  }

  /** Within a prefix-free set of (status, check) pairs the key identifies the triple, whatever the resources. */
  lemma KeyFaithful(heads: set<Head>, f: Finding, g: Finding)
    requires PrefixFree(heads) && HeadOf(f) in heads && HeadOf(g) in heads
    ensures Key(f) == Key(g) <==> Triple(f) == Triple(g)
  {
    if Key(f) == Key(g) {
      EqualKeysCompare(f, g);
      assert HeadOf(f) == HeadOf(g);
      KeySplits(f);
      KeySplits(g);
      var n := |Header(HeadOf(f))|;
      assert f.resource == Key(f)[n..] == Key(g)[n..] == g.resource;
    }
  }

  /** Statuses and check IDs without '|' are always safe, even when resources contain '|'. */
  lemma PlainIsPrefixFree(heads: set<Head>)
    requires forall h :: h in heads ==> Plain(h)
    ensures PrefixFree(heads)
  {
    forall p, q | p in heads && q in heads && Header(p) <= Header(q)
      ensures p == q
    {
      PlainHeaderFixesHead(p, q);
    }
  }

  /** The first '|' ends the same word on both sides of a prefix relation. */
  lemma FirstBar(a: string, x: string, b: string, y: string)
    requires '|' !in a && '|' !in b && a + "|" + x <= b + "|" + y
    ensures a == b && x <= y
  {
    var l, r := a + "|" + x, b + "|" + y;
    assert l[|a|] == '|' && r[|a|] == l[|a|];
    assert forall i :: 0 <= i < |b| ==> r[i] == b[i] != '|';
    assert |b| <= |a|;
    assert r[|b|] == '|' && l[|b|] == r[|b|];
    assert forall i :: 0 <= i < |a| ==> l[i] == a[i] != '|';
    assert |a| == |b|;
    assert a == l[..|a|] == r[..|a|] == b;
    assert x == l[|a| + 1..] && y == r[|a| + 1..];
  }

  lemma PlainHeaderFixesHead(p: Head, q: Head)
    requires Plain(p) && Plain(q) && Header(p) <= Header(q)
    ensures p == q
  {
    assert Header(p) == p.0 + "|" + (p.1 + "|") && Header(q) == q.0 + "|" + (q.1 + "|");
    FirstBar(p.0, p.1 + "|", q.0, q.1 + "|");
    assert p.1 + "|" + "" == p.1 + "|" && q.1 + "|" + "" == q.1 + "|";
    FirstBar(p.1, "", q.1, "");
  }

  ghost predicate HeadsIn(fs: seq<Finding>, heads: set<Head>) {
    forall f :: f in fs ==> HeadOf(f) in heads
  }

  ghost predicate MatchesTripleDiff(heads: set<Head>) {
    forall base, cur :: HeadsIn(base, heads) && HeadsIn(cur, heads) ==>
      CompareOf(base, cur) == CompareByTriple(base, cur)
  }

  /** The documented triple diff is what `Compare` computes exactly for prefix-free header sets. */
  lemma TripleDiffExactly(heads: set<Head>)
    ensures MatchesTripleDiff(heads) <==> PrefixFree(heads)
  {
    if PrefixFree(heads) {
      forall base, cur | HeadsIn(base, heads) && HeadsIn(cur, heads)
        ensures CompareOf(base, cur) == CompareByTriple(base, cur)
      {
        KeyMembership(heads, base, cur);
        KeyMembership(heads, cur, base);
      }
    }
    if MatchesTripleDiff(heads) {
      forall p, q | p in heads && q in heads && p != q
        ensures !(Header(p) <= Header(q))
      {
        if Header(p) <= Header(q) {
          ClashBreaksDiff(heads, p, q);
        }
      }
    }
  }

  lemma KeyMembership(heads: set<Head>, base: seq<Finding>, cur: seq<Finding>)
    requires PrefixFree(heads) && HeadsIn(base, heads) && HeadsIn(cur, heads)
    ensures CompareOf(base, cur).added == CompareByTriple(base, cur).added
    ensures CompareOf(base, cur).persisting == CompareByTriple(base, cur).persisting
    ensures CompareOf(cur, base).cleared == CompareByTriple(cur, base).cleared
  {
    forall f | f in cur
      ensures Key(f) in KeysOf(base) <==> Triple(f) in TriplesOf(base)
    {
      forall g | g in base
        ensures Key(f) == Key(g) <==> Triple(f) == Triple(g)
      {
        KeyFaithful(heads, f, g);
      }
    }
    FilterAgree(cur, (f: Finding) => Key(f) in KeysOf(base), (f: Finding) => Triple(f) in TriplesOf(base));
    FilterAgree(cur, (f: Finding) => Key(f) !in KeysOf(base), (f: Finding) => Triple(f) !in TriplesOf(base));
  }

  /** A header that extends another yields a new finding the string key takes for a persisting one. */
  lemma ClashBreaksDiff(heads: set<Head>, p: Head, q: Head)
    requires p in heads && q in heads && p != q && Header(p) <= Header(q)
    ensures !MatchesTripleDiff(heads)
  {
    var f := Finding(p.1, p.0, Header(q)[|Header(p)|..], "", map[], 0);
    var g := Finding(q.1, q.0, "", "", map[], 0);
    KeySplits(f);
    KeySplits(g);
    assert HeadOf(f) == p && HeadOf(g) == q;
    assert Key(f) == Header(q) == Key(g);
    FilterSnoc([], g, (x: Finding) => Key(x) !in KeysOf([f]));
    FilterSnoc([], g, (x: Finding) => Triple(x) !in TriplesOf([f]));
    assert [] + [g] == [g];
    assert Key(f) in KeysOf([f]);
    assert CompareOf([f], [g]).added == [];
    assert CompareByTriple([f], [g]).added == [g];
    assert HeadsIn([f], heads) && HeadsIn([g], heads);
  }

  /** The failing family is not empty: a check called `a|b` collides with a check called `a`. */
  lemma BarInCheckNameCollides()
    ensures !PrefixFree({(WARN, "a|b"), (WARN, "a")})
    ensures Key(Finding("a|b", WARN, "c", "", map[], 0)) == Key(Finding("a", WARN, "b|c", "", map[], 0))
  {
    var p: Head, q: Head := (WARN, "a"), (WARN, "a|b");
    assert Header(p) == "WARN|a|" && Header(q) == "WARN|a|b|";
    assert Header(p) <= Header(q);
    assert p in {(WARN, "a|b"), (WARN, "a")} && q in {(WARN, "a|b"), (WARN, "a")};
    assert |p.1| != |q.1|;
  }
}
