/** Sequence vocabulary shared by every component of the model. */
module Sequences {

  datatype Option<+T> = None | Some(value: T)

  /** The elements of `s` that satisfy `p`, in their order. */
  function Filter<T>(s: seq<T>, p: T -> bool): seq<T> {
    if s == [] then []
    else Filter(s[..|s| - 1], p) + if p(s[|s| - 1]) then [s[|s| - 1]] else []
  }

  /** The concatenation of the sequences in `ss`. */
  function Concat<T>(ss: seq<seq<T>>): seq<T> {
    if ss == [] then [] else Concat(ss[..|ss| - 1]) + ss[|ss| - 1]
  }

  function Map<T, U>(s: seq<T>, f: T -> U): (r: seq<U>)
    ensures |r| == |s|
    ensures forall i {:trigger r[i]} :: 0 <= i < |s| ==> r[i] == f(s[i])
  {
    if s == [] then [] else Map(s[..|s| - 1], f) + [f(s[|s| - 1])]
  }

  /** `n` copies of `c`. */
  function Repeat(c: char, n: nat): (r: string)
    ensures |r| == n
    ensures forall i {:trigger r[i]} :: 0 <= i < n ==> r[i] == c
  {
    seq(n, i => c)
  }

  ghost predicate Increasing(xs: seq<nat>) {
    forall i, j :: 0 <= i < j < |xs| ==> xs[i] < xs[j]
  }

  /** `part` occurs in `whole`, in order, at the strictly increasing positions `at`. */
  ghost predicate OccursAt<T>(part: seq<T>, whole: seq<T>, at: seq<nat>) {
    && |at| == |part|
    && Increasing(at)
    && forall i :: 0 <= i < |at| ==> at[i] < |whole| && whole[at[i]] == part[i]
  }

  ghost predicate Subsequence<T(!new)>(part: seq<T>, whole: seq<T>) {
    exists at :: OccursAt(part, whole, at)
  }

  lemma {:induction false} FilterIn<T>(s: seq<T>, p: T -> bool, x: T)
    ensures x in Filter(s, p) <==> x in s && p(x)
    ensures |Filter(s, p)| <= |s|
  {
    if s != [] {
      FilterIn(s[..|s| - 1], p, x);
    }
  }

  lemma {:induction false} FilterSnoc<T>(s: seq<T>, x: T, p: T -> bool)
    ensures Filter(s + [x], p) == Filter(s, p) + if p(x) then [x] else []
  {
    assert (s + [x])[..|s|] == s;
  }

  lemma {:induction false} FilterAppend<T>(a: seq<T>, b: seq<T>, p: T -> bool)
    ensures Filter(a + b, p) == Filter(a, p) + Filter(b, p)
  {
    if b == [] {
      assert a + b == a;
    } else {
      var b', x := b[..|b| - 1], b[|b| - 1];
      assert a + b == (a + b') + [x];
      FilterSnoc(a + b', x, p);
      FilterAppend(a, b', p);
    }
  }

  lemma {:induction false} FilterCons<T>(x: T, s: seq<T>, p: T -> bool)
    ensures Filter([x] + s, p) == (if p(x) then [x] else []) + Filter(s, p)
  {
    FilterAppend([x], s, p);
    FilterSnoc([], x, p);
    assert [] + [x] == [x];
  }

  lemma {:induction false} FilterSplit<T>(s: seq<T>, n: nat, p: T -> bool)
    requires n <= |s|
    ensures Filter(s, p) == Filter(s[..n], p) + Filter(s[n..], p)
  {
    hide Filter;
    FilterAppend(s[..n], s[n..], p);
    TakeDrop(s, n);
  }

  lemma TakeDrop<T>(s: seq<T>, n: nat)
    requires n <= |s|
    ensures s[..n] + s[n..] == s
  {
  }

  lemma InitLast<T>(s: seq<T>)
    requires s != []
    ensures s[..|s| - 1] + [s[|s| - 1]] == s
  {
  }

  lemma {:induction false} FilterAgree<T>(s: seq<T>, p: T -> bool, q: T -> bool)
    requires forall x :: x in s ==> p(x) == q(x)
    ensures Filter(s, p) == Filter(s, q)
  {
    if s != [] {
      FilterAgree(s[..|s| - 1], p, q);
    }
  }

  lemma {:induction false} FilterFilter<T>(s: seq<T>, p: T -> bool, q: T -> bool, both: T -> bool)
    requires forall x :: x in s ==> both(x) == (p(x) && q(x))
    ensures Filter(Filter(s, p), q) == Filter(s, both)
  {
    if s != [] {
      var s', x := s[..|s| - 1], s[|s| - 1];
      FilterFilter(s', p, q, both);
      FilterSnoc(Filter(s', p), x, q);
      assert Filter(s, p) == if p(x) then Filter(s', p) + [x] else Filter(s', p);
    }
  }

  /** A filter and its complement split a sequence's multiset. */
  lemma {:induction false} FilterPartition<T>(s: seq<T>, p: T -> bool, q: T -> bool)
    requires forall x :: x in s ==> p(x) == !q(x)
    ensures multiset(s) == multiset(Filter(s, p)) + multiset(Filter(s, q))
  {
    if s != [] {
      var s', x := s[..|s| - 1], s[|s| - 1];
      InitLast(s);
      FilterPartition(s', p, q);
      FilterSnoc(s', x, p);
      FilterSnoc(s', x, q);
      assert x in s;
      if p(x) {
        MultisetSnoc(Filter(s', p), x);
        assert Filter(s, q) == Filter(s', q);
      } else {
        MultisetSnoc(Filter(s', q), x);
        assert Filter(s, p) == Filter(s', p);
      }
      MultisetSnoc(s', x);
    }
  }

  lemma UpdateInit<T>(s: seq<T>, i: nat, x: T)
    requires i < |s|
    ensures s[i := x][|s| - 1] == if i < |s| - 1 then s[|s| - 1] else x
    ensures s[i := x][..|s| - 1] == if i < |s| - 1 then s[..|s| - 1][i := x] else s[..|s| - 1]
  {
  }

  lemma {:induction false} DistinctOccurOnce<T>(s: seq<T>, x: T)
    requires forall i, j :: 0 <= i < j < |s| ==> s[i] != s[j]
    ensures multiset(s)[x] <= 1
  {
    if s != [] {
      var init, last := s[..|s| - 1], s[|s| - 1];
      DistinctOccurOnce(init, x);
      InitLast(s);
      assert x == last ==> x !in init;
    }
  }

  lemma TwiceCounts<T>(s: seq<T>, i: nat, j: nat)
    requires i < j < |s| && s[i] == s[j]
    ensures multiset(s)[s[i]] >= 2
  {
    assert s == s[..i] + [s[i]] + s[i + 1..j] + [s[j]] + s[j + 1..];
  }

  /** A permutation of elements with distinct keys has no key twice. */
  lemma PermutedKeysDiffer<T, K>(s: seq<T>, t: seq<T>, key: T -> K, i: nat, j: nat)
    requires forall a, b :: 0 <= a < b < |s| ==> key(s[a]) != key(s[b])
    requires multiset(s) == multiset(t) && i < j < |t|
    ensures key(t[i]) != key(t[j])
  {
    assert t[i] in multiset(s) && t[j] in multiset(s);
    if key(t[i]) == key(t[j]) {
      var a :| 0 <= a < |s| && s[a] == t[i];
      var b :| 0 <= b < |s| && s[b] == t[j];
      assert a == b;
      TwiceCounts(t, i, j);
      DistinctOccurOnce(s, t[i]);
    }
  }

  lemma MultisetSnoc<T>(s: seq<T>, x: T)
    ensures multiset(s + [x]) == multiset(s) + multiset{x}
  {
  }

  lemma {:induction false} FilterCount<T>(s: seq<T>, p: T -> bool, x: T)
    ensures multiset(Filter(s, p))[x] == if p(x) then multiset(s)[x] else 0
  {
    if s != [] {
      var s', y := s[..|s| - 1], s[|s| - 1];
      FilterCount(s', p, x);
      FilterSnoc(s', y, p);
      InitLast(s);
    }
  }

  lemma {:induction false} FilterAll<T>(s: seq<T>, p: T -> bool)
    requires forall x :: x in s ==> p(x)
    ensures Filter(s, p) == s
  {
    if s != [] {
      FilterAll(s[..|s| - 1], p);
      InitLast(s);
    }
  }

  lemma {:induction false} FilterNone<T>(s: seq<T>, p: T -> bool)
    requires forall x :: x in s ==> !p(x)
    ensures Filter(s, p) == []
  {
    if Filter(s, p) != [] {
      FilterIn(s, p, Filter(s, p)[0]);
    }
  }

  lemma OccursSnoc<T>(part: seq<T>, whole: seq<T>, at: seq<nat>, x: T)
    requires OccursAt(part, whole, at)
    ensures OccursAt(part, whole + [x], at)
    ensures OccursAt(part + [x], whole + [x], at + [|whole|])
  {
  }

  lemma {:induction false} FilterIsSubsequence<T(!new)>(s: seq<T>, p: T -> bool)
    ensures Subsequence(Filter(s, p), s)
  {
    if s == [] {
      assert OccursAt(Filter(s, p), s, []);
    } else {
      var s', x := s[..|s| - 1], s[|s| - 1];
      FilterIsSubsequence(s', p);
      SubsequenceSnoc(Filter(s', p), s', x);
      InitLast(s);
      FilterSnoc(s', x, p);
    }
  }

  lemma SubsequenceSnoc<T(!new)>(part: seq<T>, whole: seq<T>, x: T)
    requires Subsequence(part, whole)
    ensures Subsequence(part + [x], whole + [x]) && Subsequence(part + [], whole + [x])
  {
    var at: seq<nat> :| OccursAt(part, whole, at);
    OccursSnoc(part, whole, at, x);
    assert part + [] == part;
  }

  lemma MapSnoc<T, U>(s: seq<T>, x: T, f: T -> U)
    ensures Map(s + [x], f) == Map(s, f) + [f(x)]
  {
    assert (s + [x])[..|s|] == s;
  }

  lemma ConcatOne<T>(s: seq<T>)
    ensures Concat([s]) == s
  {
    ConcatSnoc([], s);
    assert [] + [s] == [s];
  }

  lemma ConcatCons<T>(s: seq<T>, ss: seq<seq<T>>)
    ensures Concat([s] + ss) == s + Concat(ss)
  {
    ConcatAppend([s], ss);
    ConcatOne(s);
  }

  lemma {:induction false} ConcatSnoc<T>(ss: seq<seq<T>>, s: seq<T>)
    ensures Concat(ss + [s]) == Concat(ss) + s
  {
    assert (ss + [s])[..|ss|] == ss;
  }

  lemma {:induction false} ConcatAppend<T>(a: seq<seq<T>>, b: seq<seq<T>>)
    ensures Concat(a + b) == Concat(a) + Concat(b)
  {
    if b == [] {
      assert a + b == a;
    } else {
      assert a + b == (a + b[..|b| - 1]) + [b[|b| - 1]];
      ConcatSnoc(a + b[..|b| - 1], b[|b| - 1]);
      ConcatAppend(a, b[..|b| - 1]);
    }
  }

  lemma {:induction false} ConcatMembers<T>(ss: seq<seq<T>>, x: T)
    ensures x in Concat(ss) <==> exists i :: 0 <= i < |ss| && x in ss[i]
  {
    if ss != [] {
      ConcatMembers(ss[..|ss| - 1], x);
    }
  }
}
