/**
  A list that the client reads page by page while the server's window moves with the time
  (crates/domain/src/listing.rs, web/src/components/Games.tsx).

  Each request is answered at its own server time, and the client joins the pages. A game that
  crosses the edge of the window between two requests shifts the offsets behind it.
*/
module MovingWindow {
  import opened Collections
  import opened Sequences
  import opened Sorting
  import opened Games
  import opened IsoDate
  import opened IsoGrammar
  import opened Listing

  /** `t(k)` is the server time of request `k`. */
  ghost predicate IsClock(t: nat -> int) {
    forall i: nat, j: nat :: i <= j ==> t(i) <= t(j)
  }

  /** `lists(k)` is the whole list at request `k`; no list has more than `most` games. */
  ghost predicate Fits(lists: nat -> seq<Game>, most: nat) {
    most <= USIZE_MAX && forall k: nat :: |lists(k)| <= most
  }

  /** The joined pages from request `k` on, which asks for `offset`. */
  ghost function JoinedFrom(lists: nat -> seq<Game>, most: nat, k: nat, offset: nat, size: nat): seq<Game>
    requires size >= 1 && Fits(lists, most)
    decreases most - offset
  {
    var page := Paginate(lists(k), offset, size);
    page.games + if page.nextOffset.Some? then JoinedFrom(lists, most, k + 1, page.nextOffset.value, size) else []
  }

  /** The server's list at each request. */
  function ListsAt(view: View, games: seq<Game>, t: nat -> int): nat -> seq<Game> {
    (k: nat) => ServerList(view, games, t(k))
  }

  lemma ListsFit(view: View, games: seq<Game>, t: nat -> int)
    requires |games| <= USIZE_MAX
    ensures Fits(ListsAt(view, games, t), |games|)
  {
    forall k: nat
      ensures |ListsAt(view, games, t)(k)| <= |games|
    {
      ServerListSize(view, games, t(k));
    }
  }

  ghost function Joined(view: View, games: seq<Game>, t: nat -> int, size: nat): seq<Game>
    requires size >= 1 && |games| <= USIZE_MAX
  {
    ListsFit(view, games, t);
    JoinedFrom(ListsAt(view, games, t), |games|, 0, 0, size)
  }

  /** NEW ends at its edge, and UPCOMING starts there. */
  function Edge(view: View, now: int): int {
    if view.New? then now + MAX_LOCAL_DAY_MS + CLIENT_CLOCK_MARGIN_MS else now - CLIENT_CLOCK_MARGIN_MS
  }

  function InWindow(view: View, now: int): Game -> bool {
    if view.New? then ReleasedBefore(Edge(view, now)) else ReleasedFrom(Edge(view, now))
  }

  /** The edge passes the release of the game between the two times. */
  predicate Crosses(view: View, g: Game, from: int, to: int) {
    ReleaseMs(g).Some? && Edge(view, from) <= ReleaseMs(g).value < Edge(view, to)
  }

  // ----- The sizes of the lists -----

  lemma ListSize(view: View, games: seq<Game>, now: int)
    ensures |ServerList(view, games, now)| == |Filter(games, InWindow(view, now))|
  {
    var kept := Filter(games, InWindow(view, now));
    SortMembers(kept, DateOrder(if view.New? then DateDesc else DateAsc));
    assert |multiset(ServerList(view, games, now))| == |multiset(kept)|;
  }

  /** A wider condition keeps at least as many elements, and more when it keeps another one. */
  lemma {:induction false} FilterGrows<T>(s: seq<T>, p: T -> bool, q: T -> bool)
    requires forall x :: x in s && p(x) ==> q(x)
    ensures |Filter(s, p)| <= |Filter(s, q)|
    ensures (exists x :: x in s && q(x) && !p(x)) ==> |Filter(s, p)| < |Filter(s, q)|
  {
    if s != [] {
      FilterGrows(s[1..], p, q);
      assert s == [s[0]] + s[1..];
    }
  }

  lemma ListsMove(view: View, games: seq<Game>, from: int, to: int)
    requires from <= to
    ensures var a, b := |ServerList(view, games, from)|, |ServerList(view, games, to)|;
            && (if view.New? then a <= b else b <= a)
            && ((exists g :: g in games && Crosses(view, g, from, to)) ==> a != b)
  {
    ListSize(view, games, from);
    ListSize(view, games, to);
    if view.New? {
      FilterGrows(games, InWindow(view, from), InWindow(view, to));
    } else {
      FilterGrows(games, InWindow(view, to), InWindow(view, from));
    }
    forall g | g in games && Crosses(view, g, from, to)
      ensures InWindow(view, from)(g) != InWindow(view, to)(g)
    {
    }
  }

  lemma ListStays(view: View, games: seq<Game>, from: int, to: int)
    requires from <= to && forall g :: g in games ==> !Crosses(view, g, from, to)
    ensures ServerList(view, games, to) == ServerList(view, games, from)
  {
    FilterCongruent(games, InWindow(view, from), InWindow(view, to));
  }

  // ----- Lists that stand still -----

  lemma {:induction false} JoinedIsRest(lists: nat -> seq<Game>, most: nat, k: nat, offset: nat, size: nat,
                                        list: seq<Game>)
    requires size >= 1 && Fits(lists, most)
    requires forall i: nat :: i < |list| || i == 0 ==> lists(i) == list
    requires k <= offset && (offset < |list| || k == offset == 0)
    ensures JoinedFrom(lists, most, k, offset, size) == list[offset..]
    decreases most - offset
  {
    assert lists(k) == list;
    if offset + size < |list| {
      JoinedIsRest(lists, most, k + 1, offset + size, size, list);
      assert list[offset..] == list[offset..offset + size] + list[offset + size..];
    }
  }

  // ----- Lists that move: pages of one game -----

  lemma PageOfOne(list: seq<Game>, k: nat)
    requires |list| <= USIZE_MAX
    ensures var page := Paginate(list, k, 1);
            && |page.games| == (if k < |list| then 1 else 0)
            && page.nextOffset == if k + 1 < |list| then Some(k + 1) else None
  {
  }

  /** While the lists have at most `bound` games, the requests from `k` on give at most `bound - k` of them. */
  lemma {:induction false} FewGames(lists: nat -> seq<Game>, most: nat, k: nat, bound: nat)
    requires Fits(lists, most) && forall i: nat :: k <= i ==> |lists(i)| <= bound
    ensures |JoinedFrom(lists, most, k, k, 1)| <= if k < bound then bound - k else 0
    decreases most - k
  {
    PageOfOne(lists(k), k);
    if k + 1 < |lists(k)| {
      FewGames(lists, most, k + 1, bound);
    }
  }

  /** While the lists have at least `bound` games, they give at least `bound - k`. */
  lemma {:induction false} ManyGames(lists: nat -> seq<Game>, most: nat, k: nat, bound: nat)
    requires Fits(lists, most) && forall i: nat :: k <= i ==> bound <= |lists(i)|
    ensures k <= bound ==> |JoinedFrom(lists, most, k, k, 1)| >= bound - k
    decreases most - k
  {
    PageOfOne(lists(k), k);
    if k + 1 < |lists(k)| {
      ManyGames(lists, most, k + 1, bound);
    }
  }

  lemma {:induction false} OneGameAtMost(lists: nat -> seq<Game>, most: nat, j: nat, k: nat)
    requires Fits(lists, most) && j <= k
    ensures |JoinedFrom(lists, most, j, j, 1)| <= k - j + |JoinedFrom(lists, most, k, k, 1)|
    decreases k - j
  {
    if j < k {
      PageOfOne(lists(j), j);
      OneGameAtMost(lists, most, j + 1, k);
    }
  }

  lemma {:induction false} OneGameEach(lists: nat -> seq<Game>, most: nat, j: nat, k: nat)
    requires Fits(lists, most) && j <= k
    requires forall i: nat :: j <= i < k ==> k < |lists(i)|
    ensures |JoinedFrom(lists, most, j, j, 1)| == k - j + |JoinedFrom(lists, most, k, k, 1)|
    decreases k - j
  {
    if j < k {
      PageOfOne(lists(j), j);
      OneGameEach(lists, most, j + 1, k);
    }
  }

  /** When the list gets shorter or longer before its last single page, the joined pages have another size. */
  lemma ShrinkingListIsMissed(lists: nat -> seq<Game>, most: nat, k: nat, n: nat)
    requires Fits(lists, most) && k < n && forall i: nat :: k <= i ==> |lists(i)| < n
    ensures |JoinedFrom(lists, most, 0, 0, 1)| < n
  {
    FewGames(lists, most, k, n - 1);
    OneGameAtMost(lists, most, 0, k);
  }

  lemma GrowingListIsMissed(lists: nat -> seq<Game>, most: nat, k: nat, n: nat)
    requires Fits(lists, most) && k < n && forall i: nat :: n <= |lists(i)| && (k <= i ==> n < |lists(i)|)
    ensures |JoinedFrom(lists, most, 0, 0, 1)| > n
  {
    ManyGames(lists, most, k, n + 1);
    OneGameEach(lists, most, 0, k);
  }

  // ----- Main results -----

  /** The last request that a client with pages of one game makes, as long as the list stands still. */
  function LastRequest(view: View, games: seq<Game>, now: int): nat {
    var n := |ServerList(view, games, now)|;
    if n == 0 then 0 else n - 1
  }

  lemma MovingListIsMissed(view: View, games: seq<Game>, t: nat -> int, g: Game)
    requires IsClock(t) && |games| <= USIZE_MAX
    requires g in games && Crosses(view, g, t(0), t(LastRequest(view, games, t(0))))
    ensures |Joined(view, games, t, 1)| != |ServerList(view, games, t(0))|
  {
    var n, k := |ServerList(view, games, t(0))|, LastRequest(view, games, t(0));
    var lists := ListsAt(view, games, t);
    ListsFit(view, games, t);
    ListsMove(view, games, t(0), t(k));
    forall i: nat
      ensures if view.New? then n <= |lists(i)| && (k <= i ==> n < |lists(i)|) else k <= i ==> |lists(i)| < n
    {
      ListsMove(view, games, t(0), t(i));
      if k <= i {
        ListsMove(view, games, t(k), t(i));
      }
    }
    if view.New? {
      GrowingListIsMissed(lists, |games|, k, n);
    } else {
      ShrinkingListIsMissed(lists, |games|, k, n);
    }
  }

  lemma StillListIsJoined(view: View, games: seq<Game>, t: nat -> int, size: nat)
    requires IsClock(t) && |games| <= USIZE_MAX && size >= 1
    requires forall g :: g in games ==> !Crosses(view, g, t(0), t(LastRequest(view, games, t(0))))
    ensures Joined(view, games, t, size) == ServerList(view, games, t(0))
  {
    var list, last := ServerList(view, games, t(0)), LastRequest(view, games, t(0));
    var lists := ListsAt(view, games, t);
    ListsFit(view, games, t);
    forall i: nat | i <= last
      ensures lists(i) == list
    {
      ListStays(view, games, t(0), t(i));
    }
    JoinedIsRest(lists, |games|, 0, 0, size, list);
    assert list[0..] == list;
  }

  /**
    The joined pages are the list at the time of the first request, for every page size, if and
    only if no game crosses the edge of the window until the last request that pages of one
    game would need.
  */
  lemma MovingWindowIsExact(view: View, games: seq<Game>, t: nat -> int)
    requires IsClock(t) && |games| <= USIZE_MAX
    ensures (forall size: nat :: size >= 1 ==> Joined(view, games, t, size) == ServerList(view, games, t(0)))
       <==> (forall g :: g in games ==> !Crosses(view, g, t(0), t(LastRequest(view, games, t(0)))))
  {
    var list, last := ServerList(view, games, t(0)), LastRequest(view, games, t(0));
    if forall g :: g in games ==> !Crosses(view, g, t(0), t(last)) {
      forall size: nat | size >= 1
        ensures Joined(view, games, t, size) == list
      {
        StillListIsJoined(view, games, t, size);
      }
    } else {
      var g :| g in games && Crosses(view, g, t(0), t(last));
      MovingListIsMissed(view, games, t, g);
      assert Joined(view, games, t, 1) != list;
    }
  }

  /** While no game crosses the edge, the viewer sees the direct split, as with one server time for all pages. */
  lemma StillWindowShowsTheDirectSplit(view: View, games: seq<Game>, t: nat -> int, boundary: int, size: nat)
    requires IsClock(t) && |games| <= USIZE_MAX && size >= 1
    requires forall g :: g in games ==> !Crosses(view, g, t(0), t(LastRequest(view, games, t(0))))
    requires if view.New? then boundary <= Edge(New, t(0)) else boundary >= Edge(Upcoming, t(0))
    ensures ClientSplit(view, Joined(view, games, t, size), boundary) == DirectView(view, games, boundary)
  {
    MovingWindowIsExact(view, games, t);
    SplitOfServerList(view, games, t(0), boundary);
  }

  /** The clock of two requests, one millisecond apart. */
  function TwoRequests(now: int): nat -> int {
    (k: nat) => if k == 0 then now else now + 1
  }

  lemma SortedPair(a: Game, b: Game)
    requires ReleaseMs(a).Some? && ReleaseMs(b).Some? && ReleaseMs(a).value < ReleaseMs(b).value
    ensures SortByDate([a, b], DateAsc) == [a, b]
  {
    var leq := DateOrder(DateAsc);
    SortOne(b, leq);
    assert [a, b][1..] == [b];
  }

  lemma FilterPair(a: Game, b: Game, p: Game -> bool)
    ensures Filter([a, b], p) == (if p(a) then [a] else []) + (if p(b) then [b] else [])
  {
    assert [a, b][1..] == [b];
    FilterOne(b, p);
  }

  /**
    A card is lost: the game at the edge leaves UPCOMING between two requests for one game each,
    and the later game, which the viewer should see, is on none of the two pages.
  */
  lemma AnUpcomingCardIsSkipped(now: int, release: int)
    requires MIN_MS <= Edge(Upcoming, now) < release <= MAX_MS
    ensures var games := [GameAt(Edge(Upcoming, now)), GameAt(release)];
            && ClientSplit(Upcoming, Joined(Upcoming, games, TwoRequests(now), 1), release) == []
            && DirectView(Upcoming, games, release) == [GameAt(release)]
  {
    var a, b := GameAt(Edge(Upcoming, now)), GameAt(release);
    PrintThenParse(Edge(Upcoming, now));
    PrintThenParse(release);
    SkippedPair(a, b, now);
  }

  lemma SkippedPair(a: Game, b: Game, now: int)
    requires ReleaseMs(a) == Some(Edge(Upcoming, now)) && ReleaseMs(b).Some?
    requires ReleaseMs(a).value < ReleaseMs(b).value
    ensures ClientSplit(Upcoming, Joined(Upcoming, [a, b], TwoRequests(now), 1), ReleaseMs(b).value) == []
    ensures DirectView(Upcoming, [a, b], ReleaseMs(b).value) == [b]
  {
    var lists, release := ListsAt(Upcoming, [a, b], TwoRequests(now)), ReleaseMs(b).value;
    ListsFit(Upcoming, [a, b], TwoRequests(now));
    FirstPage(a, b, now);
    SecondPage(a, b, now);
    assert JoinedFrom(lists, 2, 1, 1, 1) == [];
    assert JoinedFrom(lists, 2, 0, 0, 1) == [a];
    OneGame(a, ReleasedFrom(release), DateAsc);
    FilterPair(a, b, ReleasedFrom(release));
    assert [] + [b] == [b];
    OneGame(b, ReleasedFrom(release), DateAsc);
  }

  lemma FirstPage(a: Game, b: Game, now: int)
    requires ReleaseMs(a) == Some(Edge(Upcoming, now)) && ReleaseMs(b).Some?
    requires ReleaseMs(a).value < ReleaseMs(b).value
    ensures Paginate(ServerList(Upcoming, [a, b], now), 0, 1) == PageResult([a], 2, Some(1))
  {
    FilterPair(a, b, ReleasedFrom(Edge(Upcoming, now)));
    assert [a] + [b] == [a, b];
    SortedPair(a, b);
  }

  lemma SecondPage(a: Game, b: Game, now: int)
    requires ReleaseMs(a) == Some(Edge(Upcoming, now)) && ReleaseMs(b).Some?
    requires ReleaseMs(a).value < ReleaseMs(b).value
    ensures Paginate(ServerList(Upcoming, [a, b], now + 1), 1, 1) == PageResult([], 1, None)
  {
    FilterPair(a, b, ReleasedFrom(Edge(Upcoming, now + 1)));
    assert [] + [b] == [b];
    OneGame(b, ReleasedFrom(Edge(Upcoming, now + 1)), DateAsc);
  }
}
