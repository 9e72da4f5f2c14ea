/** The stable sort and the adjacent deduplication of the standard library, by their meaning. */
module Sorting {
  import opened Types

  function Insert<T>(x: T, s: seq<T>, leq: (T, T) -> bool): seq<T> {
    if s == [] || leq(x, s[0]) then [x] + s else [s[0]] + Insert(x, s[1..], leq)
  }

  /** A stable sort: an element stays in front of the later elements it is `leq` to. */
  function SortBy<T>(s: seq<T>, leq: (T, T) -> bool): seq<T> {
    if s == [] then [] else Insert(s[0], SortBy(s[1..], leq), leq)
  }

  /** Removes consecutive repetitions. */
  function Dedup<T(==)>(s: seq<T>): seq<T> {
    if |s| < 2 then s
    else if s[0] == s[1] then Dedup(s[1..])
    else [s[0]] + Dedup(s[1..])
  }

  ghost predicate Total<T(!new)>(leq: (T, T) -> bool) {
    && (forall a, b :: leq(a, b) || leq(b, a))
    && (forall a, b, c :: leq(a, b) && leq(b, c) ==> leq(a, c))
  }

  ghost predicate Antisymmetric<T(!new)>(leq: (T, T) -> bool) {
    forall a, b :: leq(a, b) && leq(b, a) ==> a == b
  }

  ghost predicate Sorted<T(!new)>(s: seq<T>, leq: (T, T) -> bool) {
    forall i, j :: 0 <= i < j < |s| ==> leq(s[i], s[j])
  }

  lemma {:induction false} InsertMultiset<T(!new)>(x: T, s: seq<T>, leq: (T, T) -> bool)
    ensures multiset(Insert(x, s, leq)) == multiset(s) + multiset{x}
  {
    if s == [] || leq(x, s[0]) {
    } else {
      InsertMultiset(x, s[1..], leq);
      assert s == [s[0]] + s[1..];
    }
  }

  lemma {:induction false} SortMultiset<T(!new)>(s: seq<T>, leq: (T, T) -> bool)
    ensures multiset(SortBy(s, leq)) == multiset(s)
  {
    if s != [] {
      SortMultiset(s[1..], leq);
      InsertMultiset(s[0], SortBy(s[1..], leq), leq);
      assert s == [s[0]] + s[1..];
    }
  }

  /** Sorting keeps the length and the elements. */
  lemma SortElements<T(!new)>(s: seq<T>, leq: (T, T) -> bool)
    ensures |SortBy(s, leq)| == |s|
    ensures forall x :: x in SortBy(s, leq) <==> x in s
  {
    SortMultiset(s, leq);
    assert |multiset(SortBy(s, leq))| == |multiset(s)|;
    forall x
      ensures x in SortBy(s, leq) <==> x in s
    {
      assert x in SortBy(s, leq) <==> x in multiset(SortBy(s, leq));
    }
  }

  /** Sorting keeps distinctness. */
  lemma SortDistinct<T(!new)>(s: seq<T>, leq: (T, T) -> bool)
    requires Distinct(s)
    ensures Distinct(SortBy(s, leq))
  {
    SortMultiset(s, leq);
    DistinctIsMultiplicityOne(s);
    DistinctIsMultiplicityOne(SortBy(s, leq));
  }

  lemma {:induction false} DistinctIsMultiplicityOne<T(!new)>(s: seq<T>)
    ensures Distinct(s) <==> forall x :: multiset(s)[x] <= 1
  {
    if s != [] {
      DistinctIsMultiplicityOne(s[1..]);
      assert s == [s[0]] + s[1..];
      assert multiset(s) == multiset{s[0]} + multiset(s[1..]);
      assert s[0] in s[1..] <==> multiset(s[1..])[s[0]] > 0;
      if Distinct(s) {
        assert s[0] !in s[1..];
      } else if Distinct(s[1..]) {
        var i, j :| 0 <= i < j < |s| && s[i] == s[j];
        assert s[j] == s[1..][j - 1];
        assert i == 0;
        assert multiset(s)[s[0]] >= 2;
      } else {
        var x :| multiset(s[1..])[x] > 1;
        assert multiset(s)[x] > 1;
      }
    }
  }

  /** Insertion keeps a lexicographic refinement of `leq`: every element of `s` is `fine`-after `x`. */
  lemma {:induction false} InsertSorted<T(!new)>(x: T, s: seq<T>, leq: (T, T) -> bool, fine: (T, T) -> bool)
    requires Total(leq)
    requires forall a, b :: fine(a, b) ==> leq(a, b)
    requires forall a, b :: !leq(b, a) ==> fine(a, b)
    requires Sorted(s, fine)
    requires forall y :: y in s && leq(x, y) ==> fine(x, y)
    ensures Sorted(Insert(x, s, leq), fine)
  {
    if s == [] {
    } else if leq(x, s[0]) {
      forall j | 0 <= j < |s|
        ensures fine(x, s[j])
      {
        assert s[j] in s;
        if j > 0 {
          assert fine(s[0], s[j]);
        }
      }
    } else {
      InsertSorted(x, s[1..], leq, fine);
      var r := Insert(x, s[1..], leq);
      InsertMultiset(x, s[1..], leq);
      forall j | 0 <= j < |r|
        ensures fine(s[0], r[j])
      {
        assert r[j] in multiset(r);
        if r[j] != x {
          assert r[j] in multiset(s[1..]);
          var i :| 0 <= i < |s[1..]| && s[1..][i] == r[j];
          assert s[i + 1] == r[j];
        }
      }
    }
  }

  /**
   * Stability, stated as order: sorting a `pre`-sorted sequence by `leq` sorts it by `fine`,
   * where `fine` orders by `leq` first and by `pre` among equals.
   */
  lemma {:induction false} SortRefines<T(!new)>(s: seq<T>, leq: (T, T) -> bool, pre: (T, T) -> bool,
                                                fine: (T, T) -> bool)
    requires Total(leq)
    requires Sorted(s, pre)
    requires forall a, b :: fine(a, b) <==> leq(a, b) && (leq(b, a) ==> pre(a, b))
    ensures Sorted(SortBy(s, leq), fine)
  {
    if s != [] {
      SortRefines(s[1..], leq, pre, fine);
      var r := SortBy(s[1..], leq);
      SortElements(s[1..], leq);
      forall y | y in r
        ensures pre(s[0], y)
      {
        var i :| 0 <= i < |s[1..]| && s[1..][i] == y;
        assert s[i + 1] == y;
      }
      InsertSorted(s[0], r, leq, fine);
    }
  }

  /** A total order sorts. */
  lemma {:induction false} SortSorted<T(!new)>(s: seq<T>, leq: (T, T) -> bool)
    requires Total(leq)
    ensures Sorted(SortBy(s, leq), leq)
  {
    if s != [] {
      SortSorted(s[1..], leq);
      InsertSorted(s[0], SortBy(s[1..], leq), leq, leq);
    }
  }

  /** Deduplicating a sorted sequence leaves each element once, still sorted. */
  lemma {:induction false} DedupSorted<T(!new)>(s: seq<T>, leq: (T, T) -> bool)
    requires Sorted(s, leq) && Antisymmetric(leq)
    ensures Sorted(Dedup(s), leq) && Distinct(Dedup(s))
    ensures forall x :: x in Dedup(s) <==> x in s
    ensures s != [] ==> Dedup(s) != [] && Dedup(s)[0] == s[0]
  {
    if |s| >= 2 {
      var t := s[1..];
      assert s == [s[0]] + t;
      DedupSorted(t, leq);
      if s[0] != s[1] {
        var d := Dedup(t);
        forall j | 0 <= j < |d|
          ensures leq(s[0], d[j]) && s[0] != d[j]
        {
          assert d[j] in t;
          var i :| 0 <= i < |t| && t[i] == d[j];
          assert s[i + 1] == d[j] && t[0] == s[1];
          assert leq(s[0], s[1]);
          if i > 0 {
            assert leq(s[1], s[i + 1]);
          }
        }
      }
    }
  }

  /** A sequence that is sorted and has no repetition is determined by its elements. */
  lemma {:induction false} SortedUnique<T(!new)>(s: seq<T>, t: seq<T>, leq: (T, T) -> bool)
    requires Antisymmetric(leq)
    requires Sorted(s, leq) && Sorted(t, leq) && Distinct(s) && Distinct(t)
    requires forall x :: x in s <==> x in t
    ensures s == t
  {
    if s == [] {
      assert forall i :: 0 <= i < |t| ==> t[i] in s;
    } else {
      assert s[0] in t;
      assert t[0] in s;
      assert s[0] == t[0];
      forall x
        ensures x in s[1..] <==> x in t[1..]
      {
        if x in s[1..] {
          var i :| 0 <= i < |s[1..]| && s[1..][i] == x;
          assert s[i + 1] == x && x in t && x != t[0];
          var j :| 0 <= j < |t| && t[j] == x;
          assert t[1..][j - 1] == x;
        }
        if x in t[1..] {
          var i :| 0 <= i < |t[1..]| && t[1..][i] == x;
          assert t[i + 1] == x && x in s && x != s[0];
          var j :| 0 <= j < |s| && s[j] == x;
          assert s[1..][j - 1] == x;
        }
      }
      SortedUnique(s[1..], t[1..], leq);
      assert s == [s[0]] + s[1..] && t == [t[0]] + t[1..];
    }
  }

  lemma {:induction false} DistinctSize<T(!new)>(s: seq<T>)
    requires Distinct(s)
    ensures |Elements(s)| == |s|
  {
    if s != [] {
      DistinctSize(s[1..]);
      assert s == [s[0]] + s[1..];
      assert s[0] !in s[1..];
      assert Elements(s) == {s[0]} + Elements(s[1..]);
    } else {
      assert Elements(s) == {};
    }
  }

  lemma KeyLeqOrder()
    ensures Total(KeyLeq) && Antisymmetric(KeyLeq)
  {
  }

  lemma PortLeqOrder()
    ensures Total(PortLeq) && Antisymmetric(PortLeq)
  {
  }
}
