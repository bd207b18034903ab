/**
  The stable sort that the list code calls (`sort_by`, `sort_by_key`, `Array.prototype.sort`).

  The libraries promise a stable, sorted permutation and not an algorithm. `Sort` is one
  such function, and `StableSortIsUnique` shows that it is the only one: every result below
  holds for any sort that keeps the promise.
*/
module Sorting {
  import opened Sequences

  ghost predicate TotalPreorder<T(!new)>(leq: (T, T) -> bool) {
    && (forall a, b :: leq(a, b) || leq(b, a))
    && (forall a, b, c :: leq(a, b) && leq(b, c) ==> leq(a, c))
  }

  predicate Sorted<T>(s: seq<T>, leq: (T, T) -> bool) {
    forall i, j :: 0 <= i < j < |s| ==> leq(s[i], s[j])
  }

  function Insert<T>(x: T, s: seq<T>, leq: (T, T) -> bool): seq<T> {
    if s == [] then [x]
    else if leq(x, s[0]) then [x] + s
    else [s[0]] + Insert(x, s[1..], leq)
  }

  function Sort<T>(s: seq<T>, leq: (T, T) -> bool): seq<T> {
    if s == [] then [] else Insert(s[0], Sort(s[1..], leq), leq)
  }

  /** The elements that the order ranks equal to `x`. */
  function SameRank<T>(leq: (T, T) -> bool, x: T): T -> bool {
    y => leq(x, y) && leq(y, x)
  }

  /** `out` has the elements of `s`, and equally ranked elements keep their order. */
  ghost predicate StableFor<T(!new)>(out: seq<T>, s: seq<T>, leq: (T, T) -> bool) {
    forall x :: Filter(out, SameRank(leq, x)) == Filter(s, SameRank(leq, x))
  }

  // ----- The sort is a sorted permutation -----

  lemma {:induction false} InsertMembers<T>(x: T, s: seq<T>, leq: (T, T) -> bool)
    ensures multiset(Insert(x, s, leq)) == multiset(s) + multiset{x}
  {
    if s != [] && !leq(x, s[0]) {
      InsertMembers(x, s[1..], leq);
      assert s == [s[0]] + s[1..];
    }
  }

  lemma {:induction false} SortMembers<T>(s: seq<T>, leq: (T, T) -> bool)
    ensures multiset(Sort(s, leq)) == multiset(s)
  {
    if s != [] {
      SortMembers(s[1..], leq);
      InsertMembers(s[0], Sort(s[1..], leq), leq);
      assert s == [s[0]] + s[1..];
    }
  }

  lemma SortMembership<T>(s: seq<T>, leq: (T, T) -> bool, x: T)
    ensures x in Sort(s, leq) <==> x in s
  {
    SortMembers(s, leq);
    assert x in Sort(s, leq) <==> x in multiset(Sort(s, leq));
    assert x in s <==> x in multiset(s);
  }

  lemma {:induction false} InsertSorted<T(!new)>(x: T, s: seq<T>, leq: (T, T) -> bool)
    requires TotalPreorder(leq) && Sorted(s, leq)
    ensures Sorted(Insert(x, s, leq), leq)
  {
    if s != [] && !leq(x, s[0]) {
      InsertSorted(x, s[1..], leq);
      InsertMembers(x, s[1..], leq);
      var r := Insert(x, s[1..], leq);
      forall i | 0 <= i < |r|
        ensures leq(s[0], r[i])
      {
        assert r[i] in multiset(r);
      }
    }
  }

  lemma {:induction false} SortSorted<T(!new)>(s: seq<T>, leq: (T, T) -> bool)
    requires TotalPreorder(leq)
    ensures Sorted(Sort(s, leq), leq)
  {
    if s != [] {
      SortSorted(s[1..], leq);
      InsertSorted(s[0], Sort(s[1..], leq), leq);
    }
  }

  lemma SortOne<T>(x: T, leq: (T, T) -> bool)
    ensures Sort([x], leq) == [x]
  {
    assert [x][1..] == [];
    assert Sort([], leq) == [];
  }

  // ----- Filtering and mapping commute with the sort -----

  lemma {:induction false} FilterInsert<T(!new)>(x: T, s: seq<T>, leq: (T, T) -> bool, p: T -> bool)
    requires TotalPreorder(leq) && Sorted(s, leq)
    ensures Filter(Insert(x, s, leq), p) == if p(x) then Insert(x, Filter(s, p), leq) else Filter(s, p)
  {
    if s == [] {
    } else if leq(x, s[0]) {
      assert ([x] + s)[1..] == s;
      FilterMembers(s, p);
      if Filter(s, p) != [] {
        assert Filter(s, p)[0] in s;
      }
    } else {
      FilterInsert(x, s[1..], leq, p);
      assert ([s[0]] + Insert(x, s[1..], leq))[1..] == Insert(x, s[1..], leq);
      FilterHead(Insert(x, s, leq), p);
      FilterHead(s, p);
      if p(s[0]) {
        assert Filter(s, p)[1..] == Filter(s[1..], p);
      }
    }
  }

  lemma {:induction false} FilterSort<T(!new)>(s: seq<T>, leq: (T, T) -> bool, p: T -> bool)
    requires TotalPreorder(leq)
    ensures Filter(Sort(s, leq), p) == Sort(Filter(s, p), leq)
  {
    if s != [] {
      FilterSort(s[1..], leq, p);
      SortSorted(s[1..], leq);
      FilterInsert(s[0], Sort(s[1..], leq), leq, p);
      FilterHead(s, p);
      if p(s[0]) {
        assert Filter(s, p)[1..] == Filter(s[1..], p);
      }
    }
  }

  lemma {:induction false} MapInsert<A, B>(x: A, s: seq<A>, leq: (A, A) -> bool, f: A -> B, leq': (B, B) -> bool)
    requires forall a, b :: a in s + [x] && b in s + [x] ==> leq'(f(a), f(b)) == leq(a, b)
    ensures Map(Insert(x, s, leq), f) == Insert(f(x), Map(s, f), leq')
  {
    if s != [] {
      assert x in s + [x] && s[0] in s + [x];
      assert Map(s, f)[1..] == Map(s[1..], f);
      if leq(x, s[0]) {
        assert ([x] + s)[1..] == s;
      } else {
        MapInsert(x, s[1..], leq, f, leq');
        assert ([s[0]] + Insert(x, s[1..], leq))[1..] == Insert(x, s[1..], leq);
      }
    }
  }

  /** A map that keeps the order commutes with the sort. */
  lemma {:induction false} MapSort<A, B>(s: seq<A>, leq: (A, A) -> bool, f: A -> B, leq': (B, B) -> bool)
    requires forall a, b :: a in s && b in s ==> leq'(f(a), f(b)) == leq(a, b)
    ensures Map(Sort(s, leq), f) == Sort(Map(s, f), leq')
  {
    if s != [] {
      MapSort(s[1..], leq, f, leq');
      SortMembers(s[1..], leq);
      var t := Sort(s[1..], leq);
      forall x | x in t + [s[0]]
        ensures x in s
      {
        assert x in t ==> x in multiset(t);
      }
      MapInsert(s[0], t, leq, f, leq');
      assert Map(s, f)[1..] == Map(s[1..], f);
    }
  }

  // ----- The sort is stable, and stability makes it unique -----

  lemma {:induction false} SortOfEquals<T>(s: seq<T>, leq: (T, T) -> bool)
    requires forall a, b :: a in s && b in s ==> leq(a, b)
    ensures Sort(s, leq) == s
  {
    if s != [] {
      SortOfEquals(s[1..], leq);
    }
  }

  lemma SortStable<T(!new)>(s: seq<T>, leq: (T, T) -> bool)
    requires TotalPreorder(leq)
    ensures StableFor(Sort(s, leq), s, leq)
  {
    forall x
      ensures Filter(Sort(s, leq), SameRank(leq, x)) == Filter(s, SameRank(leq, x))
    {
      var equals := Filter(s, SameRank(leq, x));
      FilterSort(s, leq, SameRank(leq, x));
      FilterMembers(s, SameRank(leq, x));
      forall a, b | a in equals && b in equals
        ensures leq(a, b)
      {
        assert leq(a, x) && leq(x, b);
      }
      SortOfEquals(equals, leq);
    }
  }

  lemma StableForEmpty<T(!new)>(a: seq<T>, b: seq<T>, leq: (T, T) -> bool)
    requires TotalPreorder(leq) && StableFor(b, a, leq) && a == []
    ensures b == []
  {
    if b != [] {
      FilterMembers(b, SameRank(leq, b[0]));
      assert false;
    }
  }

  lemma FirstIsLeast<T(!new)>(a: seq<T>, b: seq<T>, leq: (T, T) -> bool)
    requires TotalPreorder(leq) && Sorted(b, leq) && StableFor(a, b, leq) && a != [] && b != []
    ensures leq(b[0], a[0])
  {
    var p := SameRank(leq, a[0]);
    FilterMembers(a, p);
    FilterMembers(b, p);
    assert a[0] in Filter(a, p);
  }

  /** Two sorted sequences with the same elements in the same order of equals are the same sequence. */
  lemma {:induction false} StableSortIsUnique<T(!new)>(a: seq<T>, b: seq<T>, leq: (T, T) -> bool)
    requires TotalPreorder(leq) && Sorted(a, leq) && Sorted(b, leq) && StableFor(a, b, leq)
    ensures a == b
  {
    if a == [] {
      StableForEmpty(a, b, leq);
    } else if b == [] {
      StableForEmpty(b, a, leq);
    } else {
      FirstIsLeast(a, b, leq);
      FirstIsLeast(b, a, leq);
      var p := SameRank(leq, a[0]);
      assert Filter(a, p)[0] == a[0] && Filter(b, p)[0] == b[0];
      forall x
        ensures Filter(a[1..], SameRank(leq, x)) == Filter(b[1..], SameRank(leq, x))
      {
        var q := SameRank(leq, x);
        var head := if q(a[0]) then [a[0]] else [];
        assert Filter(a, q) == head + Filter(a[1..], q) && Filter(b, q) == head + Filter(b[1..], q);
        assert Filter(a[1..], q) == Filter(a, q)[|head|..] == Filter(b[1..], q);
      }
      StableSortIsUnique(a[1..], b[1..], leq);
    }
  }

  /** Any stable sorted arrangement of `s` is `Sort(s)`. */
  lemma SortIsTheStableSort<T(!new)>(out: seq<T>, s: seq<T>, leq: (T, T) -> bool)
    requires TotalPreorder(leq) && Sorted(out, leq) && StableFor(out, s, leq)
    ensures out == Sort(s, leq)
  {
    SortSorted(s, leq);
    SortStable(s, leq);
    StableSortIsUnique(out, Sort(s, leq), leq);
  }
}
