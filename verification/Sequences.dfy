/**
  Filtering, mapping, joining, and first occurrences over sequences.
*/
module Sequences {
  import opened Collections

  function Filter<T>(s: seq<T>, p: T -> bool): seq<T> {
    if s == [] then [] else (if p(s[0]) then [s[0]] else []) + Filter(s[1..], p)
  }

  function Map<A, B>(s: seq<A>, f: A -> B): (r: seq<B>)
    ensures |r| == |s|
    ensures forall i :: 0 <= i < |s| ==> r[i] == f(s[i])
  {
    if s == [] then [] else [f(s[0])] + Map(s[1..], f)
  }

  function Flatten<T>(ss: seq<seq<T>>): seq<T> {
    if ss == [] then [] else ss[0] + Flatten(ss[1..])
  }

  /** The values that are present, in order. */
  function Somes<T>(s: seq<Option<T>>): seq<T> {
    if s == [] then [] else (if s[0].Some? then [s[0].value] else []) + Somes(s[1..])
  }

  /** True when an element of `s` has the key `k`. */
  predicate HasKey<T, K(==)>(s: seq<T>, key: T -> K, k: K) {
    exists i :: 0 <= i < |s| && key(s[i]) == k
  }

  /** The elements whose key no earlier element has, in order. */
  function FirstOccurrences<T, K(==)>(s: seq<T>, key: T -> K): seq<T> {
    if s == [] then []
    else
      var front, last := s[..|s| - 1], s[|s| - 1];
      FirstOccurrences(front, key) + if HasKey(front, key, key(last)) then [] else [last]
  }

  lemma Associative<T>(a: seq<T>, b: seq<T>, c: seq<T>)
    ensures a + (b + c) == a + b + c
  {
  }

  // ----- Filter -----

  lemma FilterHead<T>(s: seq<T>, p: T -> bool)
    requires s != []
    ensures Filter(s, p) == if p(s[0]) then [s[0]] + Filter(s[1..], p) else Filter(s[1..], p)
  {
  }

  lemma {:induction false} FilterAppend<T>(a: seq<T>, b: seq<T>, p: T -> bool)
    ensures Filter(a + b, p) == Filter(a, p) + Filter(b, p)
  {
    if a == [] {
      assert a + b == b;
    } else {
      FilterAppend(a[1..], b, p);
      assert (a + b)[1..] == a[1..] + b;
      var head := if p(a[0]) then [a[0]] else [];
      assert Filter(a + b, p) == head + Filter(a[1..] + b, p);
      assert Filter(a, p) == head + Filter(a[1..], p);
    }
  }

  lemma {:induction false} FilterMembers<T>(s: seq<T>, p: T -> bool)
    ensures forall x :: x in Filter(s, p) <==> x in s && p(x)
    ensures |Filter(s, p)| <= |s|
  {
    if s != [] {
      FilterMembers(s[1..], p);
      assert s == [s[0]] + s[1..];
    }
  }

  lemma {:induction false} FilterCongruent<T>(s: seq<T>, p: T -> bool, q: T -> bool)
    requires forall x :: x in s ==> p(x) == q(x)
    ensures Filter(s, p) == Filter(s, q)
  {
    if s != [] {
      FilterCongruent(s[1..], p, q);
    }
  }

  lemma {:induction false} FilterNone<T>(s: seq<T>, p: T -> bool)
    requires forall x :: x in s ==> !p(x)
    ensures Filter(s, p) == []
  {
    if s != [] {
      FilterNone(s[1..], p);
    }
  }

  lemma FilterOne<T>(x: T, p: T -> bool)
    ensures Filter([x], p) == if p(x) then [x] else []
  {
    assert [x][1..] == [];
  }

  /** Filtering twice keeps what the stronger condition keeps. */
  lemma {:induction false} FilterTwice<T>(s: seq<T>, p: T -> bool, q: T -> bool)
    requires forall x :: x in s && q(x) ==> p(x)
    ensures Filter(Filter(s, p), q) == Filter(s, q)
  {
    if s != [] {
      FilterTwice(s[1..], p, q);
      FilterAppend(if p(s[0]) then [s[0]] else [], Filter(s[1..], p), q);
    }
  }

  /** A condition and its opposite share a sequence out between them. */
  lemma {:induction false} FilterPartition<T>(s: seq<T>, p: T -> bool, q: T -> bool)
    requires forall x :: x in s ==> p(x) == !q(x)
    ensures multiset(Filter(s, p)) + multiset(Filter(s, q)) == multiset(s)
  {
    if s != [] {
      FilterPartition(s[1..], p, q);
      assert s == [s[0]] + s[1..];
    }
  }

  lemma FilterAround<T>(s: seq<T>, p: T -> bool, i: nat)
    requires i < |s|
    ensures Filter(s, p) == Filter(s[..i], p) + (if p(s[i]) then [s[i]] else []) + Filter(s[i + 1..], p)
  {
    var back := s[i..];
    assert back[1..] == s[i + 1..];
    var head := if p(s[i]) then [s[i]] else [];
    assert Filter(s, p) == Filter(s[..i], p) + Filter(back, p) by {
      assert s == s[..i] + back;
      FilterAppend(s[..i], back, p);
    }
    assert Filter(back, p) == head + Filter(s[i + 1..], p) by {
      FilterHead(back, p);
    }
    Associative(Filter(s[..i], p), head, Filter(s[i + 1..], p));
  }

  lemma {:induction false} FilterMap<A, B>(s: seq<A>, f: A -> B, p: A -> bool, q: B -> bool)
    requires forall x :: x in s ==> q(f(x)) == p(x)
    ensures Filter(Map(s, f), q) == Map(Filter(s, p), f)
  {
    if s != [] {
      FilterMap(s[1..], f, p, q);
      assert Map(s, f)[1..] == Map(s[1..], f);
      if p(s[0]) {
        assert Filter(s, p)[1..] == Filter(s[1..], p);
      }
    }
  }

  // ----- Somes -----

  lemma {:induction false} SomesMembers<T>(s: seq<Option<T>>, x: T)
    ensures x in Somes(s) <==> Some(x) in s
  {
    if s != [] {
      SomesMembers(s[1..], x);
      assert s == [s[0]] + s[1..];
    }
  }

  lemma SomesOne<T>(x: Option<T>)
    ensures Somes([x]) == if x.Some? then [x.value] else []
  {
    assert [x][1..] == [];
  }

  lemma {:induction false} SomesAppend<T>(a: seq<Option<T>>, b: seq<Option<T>>)
    ensures Somes(a + b) == Somes(a) + Somes(b)
  {
    if a == [] {
      assert a + b == b;
    } else {
      SomesAppend(a[1..], b);
      assert (a + b)[1..] == a[1..] + b;
      var head := if a[0].Some? then [a[0].value] else [];
      assert Somes(a + b) == head + Somes(a[1..] + b);
      assert Somes(a) == head + Somes(a[1..]);
    }
  }

  /** A present value comes from a place of the input, and the present values before it from before that place. */
  lemma {:induction false} SomesPlace<T>(s: seq<Option<T>>, i: nat) returns (k: nat)
    requires i < |Somes(s)|
    ensures k < |s| && s[k] == Some(Somes(s)[i])
    ensures forall j :: 0 <= j < k && s[j].Some? ==> s[j].value in Somes(s)[..i]
  {
    if s[0].Some? && i == 0 {
      k := 0;
    } else {
      var t, n := Somes(s[1..]), if s[0].Some? then 1 else 0;
      var later := SomesPlace(s[1..], i - n);
      k := later + 1;
      forall j | 0 <= j < k && s[j].Some?
        ensures s[j].value in Somes(s)[..i]
      {
        if j > 0 {
          assert s[1..][j - 1] == s[j];
          var q :| 0 <= q < i - n && t[q] == s[j].value;
          assert Somes(s)[..i][q + n] == t[q];
        } else {
          assert Somes(s)[..i][0] == s[0].value;
        }
      }
    }
  }

  // ----- Some element -----

  /** Some element meets the condition. */
  ghost predicate Any<T(!new)>(s: seq<T>, p: T -> bool) {
    exists x :: x in s && p(x)
  }

  lemma {:induction false} AnyMap<A(!new), B(!new)>(s: seq<A>, f: A -> B, p: B -> bool, q: A -> bool)
    requires forall x :: x in s ==> p(f(x)) == q(x)
    ensures Any(Map(s, f), p) <==> Any(s, q)
  {
    var t := Map(s, f);
    forall y | y in t && p(y)
      ensures Any(s, q)
    {
      var i :| 0 <= i < |t| && t[i] == y;
      assert s[i] in s;
    }
    forall x | x in s && q(x)
      ensures Any(t, p)
    {
      var i :| 0 <= i < |s| && s[i] == x;
      assert t[i] in t && p(t[i]);
    }
  }

  lemma {:induction false} AnySomes<T(!new)>(s: seq<Option<T>>, p: T -> bool, q: Option<T> -> bool)
    requires forall x :: q(x) == (x.Some? && p(x.value))
    ensures Any(Somes(s), p) <==> Any(s, q)
  {
    forall x: T
      ensures x in Somes(s) <==> Some(x) in s
    {
      SomesMembers(s, x);
    }
    forall x | x in Somes(s) && p(x)
      ensures Any(s, q)
    {
      assert q(Some(x));
    }
  }

  // ----- First occurrences -----

  lemma {:induction false} FirstOccurrencesKeys<T, K>(s: seq<T>, key: T -> K, k: K)
    ensures HasKey(FirstOccurrences(s, key), key, k) <==> HasKey(s, key, k)
  {
    if s != [] {
      var front, last := s[..|s| - 1], s[|s| - 1];
      FirstOccurrencesKeys(front, key, k);
      var r := FirstOccurrences(front, key);
      HasKeyAppend(front, last, key, k);
      assert s == front + [last];
      if HasKey(front, key, key(last)) {
        assert FirstOccurrences(s, key) == r;
      } else {
        HasKeyAppend(r, last, key, k);
      }
    }
  }

  lemma HasKeyAppend<T, K>(s: seq<T>, x: T, key: T -> K, k: K)
    ensures HasKey(s + [x], key, k) <==> HasKey(s, key, k) || key(x) == k
  {
    var t := s + [x];
    assert t[|s|] == x;
    assert forall i :: 0 <= i < |s| ==> t[i] == s[i];
  }

  /** The kept elements have distinct keys, and hold each key of the input. */
  lemma {:induction false} FirstOccurrencesDistinct<T, K>(s: seq<T>, key: T -> K)
    ensures var r := FirstOccurrences(s, key); forall i, j :: 0 <= i < j < |r| ==> key(r[i]) != key(r[j])
  {
    if s != [] {
      var front := s[..|s| - 1];
      FirstOccurrencesDistinct(front, key);
      var last := s[|s| - 1];
      if !HasKey(front, key, key(last)) {
        FirstOccurrencesKeys(front, key, key(last));
        var r := FirstOccurrences(front, key);
        forall i | 0 <= i < |r|
          ensures key(r[i]) != key(last)
        {
          assert HasKey(r, key, key(r[i]));
        }
      }
    }
  }

  /** An element is kept exactly when it stands first among those with its key. */
  lemma {:induction false} FirstOccurrencesMembers<T, K>(s: seq<T>, key: T -> K, x: T)
    ensures x in FirstOccurrences(s, key)
       <==> exists i :: 0 <= i < |s| && s[i] == x && !HasKey(s[..i], key, key(x))
  {
    if s != [] {
      var front, last := s[..|s| - 1], s[|s| - 1];
      FirstOccurrencesMembers(front, key, x);
      if x in FirstOccurrences(front, key) {
        var i :| 0 <= i < |front| && front[i] == x && !HasKey(front[..i], key, key(x));
        assert s[i] == x && s[..i] == front[..i];
      } else if x in FirstOccurrences(s, key) {
        assert s[|front|] == x && s[..|front|] == front;
      }
      if i :| 0 <= i < |s| && s[i] == x && !HasKey(s[..i], key, key(x)) {
        if i < |front| {
          assert front[i] == x && front[..i] == s[..i];
        } else {
          assert s[..i] == front;
        }
      }
    }
  }

  /** No element before place `p` has the key of the element there. */
  ghost predicate IsFirstPlace<T, K>(s: seq<T>, key: T -> K, p: nat) {
    p < |s| && forall j :: 0 <= j < p ==> key(s[j]) != key(s[p])
  }

  /** The places of `s` at which a key stands for the first time, from the lowest up. */
  ghost predicate AreFirstPlaces<T, K>(places: seq<nat>, s: seq<T>, key: T -> K) {
    && (forall i, j :: 0 <= i < j < |places| ==> places[i] < places[j])
    && (forall p :: p in places <==> IsFirstPlace(s, key, p))
  }

  lemma FirstPlacesSnoc<T, K>(places: seq<nat>, s: seq<T>, x: T, key: T -> K)
    requires AreFirstPlaces(places, s, key)
    ensures AreFirstPlaces(if HasKey(s, key, key(x)) then places else places + [|s|], s + [x], key)
  {
    var t := s + [x];
    var places' := if HasKey(s, key, key(x)) then places else places + [|s|];
    assert forall j :: 0 <= j < |s| ==> t[j] == s[j];
    forall p: nat
      ensures p in places' <==> IsFirstPlace(t, key, p)
    {
      assert p in places <==> IsFirstPlace(s, key, p);
      if p == |s| {
        assert HasKey(s, key, key(x)) <==> !IsFirstPlace(t, key, p);
      }
    }
    forall i, j | 0 <= i < j < |places'|
      ensures places'[i] < places'[j]
    {
      assert places[i] in places;
    }
  }

  ghost function FirstPlaces<T, K>(s: seq<T>, key: T -> K): (places: seq<nat>)
    ensures forall k :: 0 <= k < |places| ==> places[k] < |s|
  {
    if s == [] then []
    else
      var front, last := s[..|s| - 1], s[|s| - 1];
      if HasKey(front, key, key(last)) then FirstPlaces(front, key) else FirstPlaces(front, key) + [|front|]
  }

  lemma {:induction false} FirstPlacesAreFirst<T, K>(s: seq<T>, key: T -> K)
    ensures AreFirstPlaces(FirstPlaces(s, key), s, key)
  {
    if s != [] {
      var front, last := s[..|s| - 1], s[|s| - 1];
      FirstPlacesAreFirst(front, key);
      assert s == front + [last];
      FirstPlacesSnoc(FirstPlaces(front, key), front, last, key);
    }
  }

  /** The elements of `r` are those of `s` at the places. */
  ghost predicate StandAt<T>(r: seq<T>, s: seq<T>, places: seq<nat>) {
    |r| == |places| && forall k :: 0 <= k < |r| ==> places[k] < |s| && r[k] == s[places[k]]
  }

  lemma StandSnoc<T>(r: seq<T>, s: seq<T>, places: seq<nat>)
    requires s != [] && StandAt(r, s[..|s| - 1], places)
    ensures StandAt(r, s, places) && StandAt(r + [s[|s| - 1]], s, places + [|s| - 1])
  {
  }

  lemma {:induction false} FirstOccurrencesStand<T, K>(s: seq<T>, key: T -> K)
    ensures StandAt(FirstOccurrences(s, key), s, FirstPlaces(s, key))
  {
    if s != [] {
      var front := s[..|s| - 1];
      FirstOccurrencesStand(front, key);
      StandSnoc(FirstOccurrences(front, key), s, FirstPlaces(front, key));
    }
  }

  /** The kept elements stand in input order: they are those at the first places of each key. */
  lemma FirstOccurrencesInOrder<T, K>(s: seq<T>, key: T -> K) returns (places: seq<nat>)
    ensures AreFirstPlaces(places, s, key)
    ensures StandAt(FirstOccurrences(s, key), s, places)
  {
    places := FirstPlaces(s, key);
    FirstPlacesAreFirst(s, key);
    FirstOccurrencesStand(s, key);
  }

  /** A present value stands at place `p`, and none before it has its key. */
  ghost predicate IsFirstPresent<T, K>(s: seq<Option<T>>, key: T -> K, p: nat) {
    p < |s| && s[p].Some? && forall j :: 0 <= j < p && s[j].Some? ==> key(s[j].value) != key(s[p].value)
  }

  /** The places of the present values, from the lowest up. */
  ghost predicate ArePresentPlaces<T>(places: seq<nat>, s: seq<Option<T>>) {
    && (forall i, j :: 0 <= i < j < |places| ==> places[i] < places[j])
    && (forall p: nat :: p in places <==> p < |s| && s[p].Some?)
  }

  ghost predicate PresentAt<T>(r: seq<T>, s: seq<Option<T>>, places: seq<nat>) {
    |r| == |places| && forall k :: 0 <= k < |r| ==> places[k] < |s| && s[places[k]] == Some(r[k])
  }

  lemma PresentSnoc<T>(s: seq<Option<T>>, places: seq<nat>, x: Option<T>)
    requires ArePresentPlaces(places, s) && PresentAt(Somes(s), s, places)
    ensures var places' := places + if x.Some? then [|s|] else [];
            ArePresentPlaces(places', s + [x]) && PresentAt(Somes(s + [x]), s + [x], places')
  {
    var t := s + [x];
    var places' := places + if x.Some? then [|s|] else [];
    SomesAppend(s, [x]);
    assert forall p :: 0 <= p < |s| ==> t[p] == s[p];
    forall i, j | 0 <= i < j < |places'|
      ensures places'[i] < places'[j]
    {
      assert places[i] in places;
    }
    forall p: nat
      ensures p in places' <==> p < |t| && t[p].Some?
    {
      assert p in places <==> p < |s| && s[p].Some?;
    }
  }

  ghost function PresentPlaces<T>(s: seq<Option<T>>): seq<nat> {
    if s == [] then []
    else PresentPlaces(s[..|s| - 1]) + if s[|s| - 1].Some? then [|s| - 1] else []
  }

  lemma {:induction false} PresentPlacesAre<T>(s: seq<Option<T>>)
    ensures ArePresentPlaces(PresentPlaces(s), s) && PresentAt(Somes(s), s, PresentPlaces(s))
  {
    if s != [] {
      var front, last := s[..|s| - 1], s[|s| - 1];
      PresentPlacesAre(front);
      assert s == front + [last];
      PresentSnoc(front, PresentPlaces(front), last);
    }
  }

  lemma FirstOfPresent<T, K>(s: seq<Option<T>>, at: seq<nat>, key: T -> K, q: nat)
    requires ArePresentPlaces(at, s) && PresentAt(Somes(s), s, at) && q < |at|
    ensures IsFirstPlace(Somes(s), key, q) <==> IsFirstPresent(s, key, at[q])
  {
    var r := Somes(s);
    if IsFirstPlace(r, key, q) {
      forall j | 0 <= j < at[q] && s[j].Some?
        ensures key(s[j].value) != key(s[at[q]].value)
      {
        assert j in at;
        var i :| 0 <= i < |at| && at[i] == j;
      }
    }
    if IsFirstPresent(s, key, at[q]) {
      forall i | 0 <= i < q
        ensures key(r[i]) != key(r[q])
      {
        assert at[i] < at[q];
      }
    }
  }

  /** The first present values of each key stand in input order. */
  lemma FirstPresentInOrder<T, K>(s: seq<Option<T>>, key: T -> K) returns (places: seq<nat>)
    ensures forall i, j :: 0 <= i < j < |places| ==> places[i] < places[j]
    ensures forall p :: p in places <==> IsFirstPresent(s, key, p)
    ensures PresentAt(FirstOccurrences(Somes(s), key), s, places)
  {
    var at := PresentPlaces(s);
    PresentPlacesAre(s);
    var first := FirstOccurrencesInOrder(Somes(s), key);
    places := seq(|first|, k requires 0 <= k < |first| => at[first[k]]);
    forall p: nat
      ensures p in places <==> IsFirstPresent(s, key, p)
    {
      if p in places {
        var k :| 0 <= k < |places| && places[k] == p;
        assert first[k] in first;
        FirstOfPresent(s, at, key, first[k]);
      }
      if IsFirstPresent(s, key, p) {
        assert p in at;
        var q :| 0 <= q < |at| && at[q] == p;
        FirstOfPresent(s, at, key, q);
        var k :| 0 <= k < |first| && first[k] == q;
        assert places[k] == p;
      }
    }
  }

  lemma {:induction false} FirstOccurrencesMap<A, B, K>(s: seq<A>, f: A -> B, key: A -> K, key': B -> K)
    requires forall x :: x in s ==> key'(f(x)) == key(x)
    ensures FirstOccurrences(Map(s, f), key') == Map(FirstOccurrences(s, key), f)
  {
    if s != [] {
      var front, last := s[..|s| - 1], s[|s| - 1];
      FirstOccurrencesMap(front, f, key, key');
      assert Map(s, f)[..|s| - 1] == Map(front, f);
      HasKeyMap(front, f, key, key', key(last));
      MapAppend(FirstOccurrences(front, key), last, f);
    }
  }

  lemma HasKeyMap<A, B, K>(s: seq<A>, f: A -> B, key: A -> K, key': B -> K, k: K)
    requires forall x :: x in s ==> key'(f(x)) == key(x)
    ensures HasKey(Map(s, f), key', k) <==> HasKey(s, key, k)
  {
    assert forall i :: 0 <= i < |s| ==> key'(Map(s, f)[i]) == key(s[i]);
  }

  lemma MapConcat<A, B>(a: seq<A>, b: seq<A>, f: A -> B)
    ensures Map(a + b, f) == Map(a, f) + Map(b, f)
  {
    var joined, parts := Map(a + b, f), Map(a, f) + Map(b, f);
    forall i | 0 <= i < |joined|
      ensures joined[i] == parts[i]
    {
      assert joined[i] == f((a + b)[i]);
    }
  }

  lemma MapAppend<A, B>(s: seq<A>, x: A, f: A -> B)
    ensures Map(s + [x], f) == Map(s, f) + [f(x)]
  {
  }

  lemma MapPrefix<A, B>(s: seq<A>, i: nat, f: A -> B)
    requires i < |s|
    ensures Map(s[..i + 1], f) == Map(s[..i], f) + [f(s[i])]
  {
    assert s[..i + 1] == s[..i] + [s[i]];
    MapAppend(s[..i], s[i], f);
  }
}
