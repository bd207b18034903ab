/**
  Sorting by an optional number: the date sort of the server (crates/domain/src/listing.rs)
  and the sorts of the client (web/src/modules/sortGames.ts) share one comparator.
*/
module KeySort {
  import opened Collections
  import opened Sequences
  import opened Sorting

  datatype Ordering = Less | Equal | Greater

  function CompareInts(a: int, b: int): Ordering {
    if a < b then Less else if a > b then Greater else Equal
  }

  /** An element without a key comes last in both directions. */
  function CompareKeys(a: Option<int>, b: Option<int>, descending: bool): Ordering {
    match (a, b)
    case (Some(x), Some(y)) => if descending then CompareInts(y, x) else CompareInts(x, y)
    case (Some(_), None) => Less
    case (None, Some(_)) => Greater
    case (None, None) => Equal
  }

  function KeyOrder<T>(key: T -> Option<int>, descending: bool): (T, T) -> bool {
    (a, b) => CompareKeys(key(a), key(b), descending) != Greater
  }

  function SortByKey<T>(s: seq<T>, key: T -> Option<int>, descending: bool): seq<T> {
    Sort(s, KeyOrder(key, descending))
  }

  function Keyed<T>(key: T -> Option<int>): T -> bool {
    x => key(x).Some?
  }

  function Unkeyed<T>(key: T -> Option<int>): T -> bool {
    x => key(x).None?
  }

  lemma KeysTransitive(a: Option<int>, b: Option<int>, c: Option<int>, descending: bool)
    requires CompareKeys(a, b, descending) != Greater && CompareKeys(b, c, descending) != Greater
    ensures CompareKeys(a, c, descending) != Greater
  {
  }

  /** The comparator is a total preorder, and swapping its arguments turns its answer round. */
  lemma KeyOrderIsTotal<T(!new)>(key: T -> Option<int>, descending: bool)
    ensures TotalPreorder(KeyOrder(key, descending))
    ensures forall a: T, b: T ::
              CompareKeys(key(a), key(b), descending) == Less <==> CompareKeys(key(b), key(a), descending) == Greater
  {
    var leq := KeyOrder(key, descending);
    forall a: T, b: T, c: T | leq(a, b) && leq(b, c)
      ensures leq(a, c)
    {
      KeysTransitive(key(a), key(b), key(c), descending);
    }
  }

  lemma KeyedThenUnkeyedSorted<T(!new)>(front: seq<T>, back: seq<T>, key: T -> Option<int>, descending: bool)
    requires Sorted(front, KeyOrder(key, descending))
    requires forall x :: x in front ==> key(x).Some?
    requires forall x :: x in back ==> key(x).None?
    ensures Sorted(front + back, KeyOrder(key, descending))
  {
    var out := front + back;
    forall i, j | 0 <= i < j < |out|
      ensures KeyOrder(key, descending)(out[i], out[j])
    {
      if |front| <= j {
        assert out[j] in back;
      }
    }
  }

  lemma RankIsKeyedOrUnkeyed<T(!new)>(s: seq<T>, key: T -> Option<int>, descending: bool, x: T)
    ensures var p := SameRank(KeyOrder(key, descending), x);
            Filter(Filter(s, Keyed(key)), p) + Filter(Filter(s, Unkeyed(key)), p) == Filter(s, p)
  {
    var p := SameRank(KeyOrder(key, descending), x);
    FilterMembers(s, Keyed(key));
    FilterMembers(s, Unkeyed(key));
    if key(x).Some? {
      FilterTwice(s, Keyed(key), p);
      FilterNone(Filter(s, Unkeyed(key)), p);
    } else {
      FilterTwice(s, Unkeyed(key), p);
      FilterNone(Filter(s, Keyed(key)), p);
    }
  }

  /** The elements with a key in order, then the elements without one in the order of the input. */
  lemma UnkeyedSortLast<T(!new)>(s: seq<T>, key: T -> Option<int>, descending: bool)
    ensures SortByKey(s, key, descending)
         == SortByKey(Filter(s, Keyed(key)), key, descending) + Filter(s, Unkeyed(key))
  {
    var leq := KeyOrder(key, descending);
    var keyed, unkeyed := Filter(s, Keyed(key)), Filter(s, Unkeyed(key));
    var front := Sort(keyed, leq);
    KeyOrderIsTotal(key, descending);
    SortSorted(keyed, leq);
    forall x | x in front
      ensures key(x).Some?
    {
      SortMembership(keyed, leq, x);
      FilterMembers(s, Keyed(key));
    }
    forall x | x in unkeyed
      ensures key(x).None?
    {
      FilterMembers(s, Unkeyed(key));
    }
    KeyedThenUnkeyedSorted(front, unkeyed, key, descending);
    forall x: T
      ensures Filter(front + unkeyed, SameRank(leq, x)) == Filter(s, SameRank(leq, x))
    {
      SortStable(keyed, leq);
      FilterAppend(front, unkeyed, SameRank(leq, x));
      RankIsKeyedOrUnkeyed(s, key, descending, x);
    }
    SortIsTheStableSort(front + unkeyed, s, leq);
  }

  /**
    The sort by key is a permutation; two elements with keys stand in the order of their keys,
    and an element without a key never stands before one that has a key.
  */
  lemma SortByKeyIs<T(!new)>(s: seq<T>, key: T -> Option<int>, descending: bool)
    ensures var r := SortByKey(s, key, descending);
            && multiset(r) == multiset(s)
            && (forall i, j :: 0 <= i < j < |r| && key(r[i]).Some? && key(r[j]).Some? ==>
                  if descending then key(r[i]).value >= key(r[j]).value else key(r[i]).value <= key(r[j]).value)
            && (forall i, j :: 0 <= i < j < |r| && key(r[i]).None? ==> key(r[j]).None?)
            && StableFor(r, s, KeyOrder(key, descending))
  {
    var leq := KeyOrder(key, descending);
    KeyOrderIsTotal(key, descending);
    SortMembers(s, leq);
    SortSorted(s, leq);
    SortStable(s, leq);
    var r := Sort(s, leq);
    forall i, j | 0 <= i < j < |r|
      ensures CompareKeys(key(r[i]), key(r[j]), descending) != Greater
    {
      assert leq(r[i], r[j]);
    }
  }

  lemma SameRankIsSameKey<T(!new)>(key: T -> Option<int>, descending: bool, x: T, y: T)
    ensures SameRank(KeyOrder(key, descending), x)(y) <==> key(x) == key(y)
  {
    SameKeyIsEqual(key(x), key(y), descending);
  }

  lemma SameKeyIsEqual(a: Option<int>, b: Option<int>, descending: bool)
    ensures CompareKeys(a, b, descending) != Greater && CompareKeys(b, a, descending) != Greater <==> a == b
  {
  }
}
