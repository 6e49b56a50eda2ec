/**
  Go's `<` on strings, and `sort.SliceStable` described by the result it is
  documented to produce: the one sorted arrangement that keeps equal elements
  in their input order. `StableSort` is one way of computing it, and
  `StableSortUnique` shows that every way computes the same sequence.
 */
module Sorting {
  import opened Sequences

  /** Lexicographic order by code point (for UTF-8 text, Go's bytewise order). */
  predicate StrLe(a: string, b: string) {
    if a == [] then true
    else if b == [] then false
    else if a[0] != b[0] then a[0] < b[0]
    else StrLe(a[1..], b[1..])
  }

  predicate StrLt(a: string, b: string) {
    !StrLe(b, a)
  }

  lemma {:induction false} StrLeTotal(a: string, b: string)
    ensures StrLe(a, b) || StrLe(b, a)
  {
    if a != [] && b != [] && a[0] == b[0] {
      StrLeTotal(a[1..], b[1..]);
    }
  }

  lemma {:induction false} StrLeAntisymmetric(a: string, b: string)
    ensures StrLe(a, b) && StrLe(b, a) <==> a == b
  {
    if a != [] && b != [] && a[0] == b[0] {
      StrLeAntisymmetric(a[1..], b[1..]);
      assert a == [a[0]] + a[1..] && b == [b[0]] + b[1..];
    }
  }

  lemma {:induction false} StrLeTransitive(a: string, b: string, c: string)
    requires StrLe(a, b) && StrLe(b, c)
    ensures StrLe(a, c)
  {
    if a != [] && b != [] && c != [] && a[0] == b[0] == c[0] {
      StrLeTransitive(a[1..], b[1..], c[1..]);
    }
  }

  /** Go's `<` on strings: a proper prefix is smaller, and otherwise the first difference decides. */
  lemma {:induction false} StrLtExactly(a: string, b: string)
    ensures StrLt(a, b) <==>
      || (a <= b && a != b)
      || exists k {:trigger a[k]} :: 0 <= k < |a| && k < |b| && a[..k] == b[..k] && a[k] < b[k]
  {
    if a != [] && b != [] && a[0] == b[0] {
      var x, y := a[1..], b[1..];
      StrLtExactly(x, y);
      assert a == [a[0]] + x && b == [b[0]] + y;
      if k :| 0 <= k < |x| && k < |y| && x[..k] == y[..k] && x[k] < y[k] {
        assert a[..k + 1] == [a[0]] + x[..k] && b[..k + 1] == [b[0]] + y[..k];
        assert a[k + 1] < b[k + 1];
      }
      if k :| 0 <= k < |a| && k < |b| && a[..k] == b[..k] && a[k] < b[k] {
        assert k > 0;
        assert x[..k - 1] == a[..k][1..] && y[..k - 1] == b[..k][1..];
        assert x[k - 1] < y[k - 1];
      }
      assert x <= y <==> a <= b;
    } else if a != [] && b != [] {
      assert a[..0] == b[..0];
    }
  }

  ghost predicate TotalPreorder<T(!new)>(le: (T, T) -> bool) {
    && (forall x, y :: le(x, y) || le(y, x))
    && (forall x, y, z :: le(x, y) && le(y, z) ==> le(x, z))
  }

  ghost predicate Sorted<T>(s: seq<T>, le: (T, T) -> bool) {
    forall i, j :: 0 <= i < j < |s| ==> le(s[i], s[j])
  }

  function Tied<T>(le: (T, T) -> bool, x: T): T -> bool {
    y => le(x, y) && le(y, x)
  }

  /** The elements of `s` that the order cannot tell from `x`, in their order. */
  function Ties<T>(s: seq<T>, le: (T, T) -> bool, x: T): seq<T> {
    Filter(s, Tied(le, x))
  }

  ghost predicate IsStableSort<T(!new)>(out: seq<T>, s: seq<T>, le: (T, T) -> bool) {
    Sorted(out, le) && forall x :: Ties(out, le, x) == Ties(s, le, x)
  }

  /** `x` goes behind every element it is not smaller than. */
  function Insert<T>(s: seq<T>, x: T, le: (T, T) -> bool): seq<T> {
    if s == [] then [x]
    else if le(s[|s| - 1], x) then s + [x]
    else Insert(s[..|s| - 1], x, le) + [s[|s| - 1]]
  }

  function StableSort<T>(s: seq<T>, le: (T, T) -> bool): seq<T> {
    if s == [] then [] else Insert(StableSort(s[..|s| - 1], le), s[|s| - 1], le)
  }

  lemma TiesIn<T>(s: seq<T>, le: (T, T) -> bool, x: T, y: T)
    ensures y in Ties(s, le, x) <==> y in s && le(x, y) && le(y, x)
  {
    FilterIn(s, Tied(le, x), y);
  }

  lemma TiesSnoc<T>(s: seq<T>, x: T, le: (T, T) -> bool, z: T)
    ensures Ties(s + [x], le, z) == Ties(s, le, z) + if le(z, x) && le(x, z) then [x] else []
  {
    FilterSnoc(s, x, Tied(le, z));
  }

  lemma TiesCons<T>(x: T, s: seq<T>, le: (T, T) -> bool, z: T)
    ensures Ties([x] + s, le, z) == (if le(z, x) && le(x, z) then [x] else []) + Ties(s, le, z)
  {
    FilterCons(x, s, Tied(le, z));
  }

  lemma {:induction false} InsertPermutes<T>(s: seq<T>, x: T, le: (T, T) -> bool)
    ensures multiset(Insert(s, x, le)) == multiset(s) + multiset{x}
  {
    if s != [] && !le(s[|s| - 1], x) {
      InsertPermutes(s[..|s| - 1], x, le);
      InitLast(s);
    }
  }

  lemma {:induction false} InsertSorted<T(!new)>(s: seq<T>, x: T, le: (T, T) -> bool)
    requires TotalPreorder(le) && Sorted(s, le)
    ensures Sorted(Insert(s, x, le), le)
  {
    if s == [] {
    } else if le(s[|s| - 1], x) {
      assert forall i :: 0 <= i < |s| ==> le(s[i], s[|s| - 1]);
    } else {
      var s', y := s[..|s| - 1], s[|s| - 1];
      InsertSorted(s', x, le);
      InsertPermutes(s', x, le);
      var r := Insert(s', x, le);
      forall i | 0 <= i < |r| ensures le(r[i], y) {
        assert r[i] in multiset(r);
        assert r[i] in multiset(s') || r[i] == x;
      }
    }
  }

  lemma {:induction false} InsertTies<T(!new)>(s: seq<T>, x: T, le: (T, T) -> bool, z: T)
    requires TotalPreorder(le) && Sorted(s, le)
    ensures Ties(Insert(s, x, le), le, z) == Ties(s + [x], le, z)
  {
    if s == [] {
      assert s + [x] == [x];
    } else if !le(s[|s| - 1], x) {
      var s', y := s[..|s| - 1], s[|s| - 1];
      InsertTies(s', x, le, z);
      InitLast(s);
      TiesSnoc(Insert(s', x, le), y, le, z);
      TiesSnoc(s', x, le, z);
      TiesSnoc(s', y, le, z);
      TiesSnoc(s, x, le, z);
      assert !(le(z, x) && le(x, z) && le(z, y) && le(y, z));
    }
  }

  lemma {:induction false} StableSortPermutes<T>(s: seq<T>, le: (T, T) -> bool)
    ensures multiset(StableSort(s, le)) == multiset(s)
  {
    if s != [] {
      var s', x := s[..|s| - 1], s[|s| - 1];
      StableSortPermutes(s', le);
      InsertPermutes(StableSort(s', le), x, le);
      InitLast(s);
    }
  }

  lemma {:induction false} StableSortSorted<T(!new)>(s: seq<T>, le: (T, T) -> bool)
    requires TotalPreorder(le)
    ensures Sorted(StableSort(s, le), le)
  {
    if s != [] {
      StableSortSorted(s[..|s| - 1], le);
      InsertSorted(StableSort(s[..|s| - 1], le), s[|s| - 1], le);
    }
  }

  lemma {:induction false} StableSortTies<T(!new)>(s: seq<T>, le: (T, T) -> bool, z: T)
    requires TotalPreorder(le)
    ensures Ties(StableSort(s, le), le, z) == Ties(s, le, z)
  {
    if s != [] {
      var s', x := s[..|s| - 1], s[|s| - 1];
      StableSortTies(s', le, z);
      StableSortSorted(s', le);
      InsertTies(StableSort(s', le), x, le, z);
      TiesSnoc(StableSort(s', le), x, le, z);
      InitLast(s);
      TiesSnoc(s', x, le, z);
    }
  }

  /** `StableSort` sorts, permutes, and keeps ties in input order. */
  lemma StableSortCorrect<T(!new)>(s: seq<T>, le: (T, T) -> bool)
    requires TotalPreorder(le)
    ensures IsStableSort(StableSort(s, le), s, le)
    ensures multiset(StableSort(s, le)) == multiset(s)
  {
    StableSortSorted(s, le);
    StableSortPermutes(s, le);
    forall z ensures Ties(StableSort(s, le), le, z) == Ties(s, le, z) {
      StableSortTies(s, le, z);
    }
  }

  /** Two sorted sequences with the same ties are the same sequence. */
  lemma {:induction false} SortedTiesUnique<T(!new)>(a: seq<T>, b: seq<T>, le: (T, T) -> bool)
    requires TotalPreorder(le) && Sorted(a, le) && Sorted(b, le)
    requires forall x :: Ties(a, le, x) == Ties(b, le, x)
    ensures a == b
  {
    if a == [] || b == [] {
      if a != [] {
        TiesIn(a, le, a[0], a[0]);
        TiesIn(b, le, a[0], a[0]);
      }
      if b != [] {
        TiesIn(a, le, b[0], b[0]);
        TiesIn(b, le, b[0], b[0]);
      }
    } else {
      SortedTiesSameHead(a, b, le);
      var x, a', b' := a[0], a[1..], b[1..];
      assert a == [x] + a' && b == [x] + b';
      forall z ensures Ties(a', le, z) == Ties(b', le, z) {
        TiesCons(x, a', le, z);
        TiesCons(x, b', le, z);
        assert Ties(a, le, z) == Ties(b, le, z);
        var head := if le(z, x) && le(x, z) then [x] else [];
        assert (head + Ties(a', le, z))[|head|..] == Ties(a', le, z);
        assert (head + Ties(b', le, z))[|head|..] == Ties(b', le, z);
      }
      SortedTiesUnique(a', b', le);
    }
  }

  lemma SortedTiesSameHead<T(!new)>(a: seq<T>, b: seq<T>, le: (T, T) -> bool)
    requires TotalPreorder(le) && Sorted(a, le) && Sorted(b, le)
    requires forall x :: Ties(a, le, x) == Ties(b, le, x)
    requires a != [] && b != []
    ensures a[0] == b[0]
  {
    var x, y := a[0], b[0];
    TiesIn(a, le, x, x);
    TiesIn(b, le, x, x);
    TiesIn(a, le, y, y);
    TiesIn(b, le, y, y);
    assert le(x, y) && le(y, x);
    assert a == [x] + a[1..] && b == [y] + b[1..];
    TiesCons(x, a[1..], le, x);
    TiesCons(y, b[1..], le, x);
    assert Ties(a, le, x)[0] == x && Ties(b, le, x)[0] == y;
  }

  /** The result of a stable sort is fixed by its specification alone. */
  lemma StableSortUnique<T(!new)>(out: seq<T>, s: seq<T>, le: (T, T) -> bool)
    requires TotalPreorder(le)
    ensures IsStableSort(out, s, le) <==> out == StableSort(s, le)
  {
    StableSortCorrect(s, le);
    if IsStableSort(out, s, le) {
      forall x ensures Ties(out, le, x) == Ties(StableSort(s, le), le, x) {
        assert Ties(out, le, x) == Ties(s, le, x);
        assert Ties(StableSort(s, le), le, x) == Ties(s, le, x);
      }
      SortedTiesUnique(out, StableSort(s, le), le);
    }
  }
}
