/**
  What NEW and UPCOMING show, and in which order, stated over the dates of the games alone
  (crates/domain/src/listing.rs, docs/adr/0001-new-upcoming-day-split.md).
*/
module ReleaseOrder {
  import opened Collections
  import opened Sequences
  import opened Sorting
  import opened KeySort
  import opened Games
  import opened IsoDate
  import opened Listing

  function HasInstant(instant: Option<int>): Game -> bool {
    (g: Game) => DateMs(g.date) == instant
  }

  /** NEW shows the dated games before the edge, and UPCOMING every other game. */
  function Shown(view: View, edge: int): Game -> bool {
    (g: Game) => (view == New) == (DateMs(g.date).Some? && DateMs(g.date).value < edge)
  }

  /**
    The list has the games that the view shows, each as often as `games` has it. NEW is newest
    first and UPCOMING soonest first with undated games last, and games of one instant, or
    without one, keep their order.
  */
  ghost predicate IsReleaseList(view: View, games: seq<Game>, edge: int, list: seq<Game>) {
    var kept := Filter(games, Shown(view, edge));
    && multiset(list) == multiset(kept)
    && (forall i, j :: 0 <= i < j < |list| ==> InReleaseOrder(view, DateMs(list[i].date), DateMs(list[j].date)))
    && (forall instant :: Filter(list, HasInstant(instant)) == Filter(kept, HasInstant(instant)))
  }

  predicate InReleaseOrder(view: View, earlier: Option<int>, later: Option<int>) {
    && (earlier.None? ==> later.None?)
    && (earlier.Some? && later.Some? ==>
          if view == New then earlier.value >= later.value else earlier.value <= later.value)
  }

  function ViewOrder(view: View): (Game, Game) -> bool {
    DateOrder(if view == New then DateDesc else DateAsc)
  }

  lemma SameInstantIsSameRank(view: View, g: Game, h: Game)
    ensures SameRank(ViewOrder(view), g)(h) == HasInstant(DateMs(g.date))(h)
  {
    SameRankIsSameKey(ReleaseKey(), view == New, g, h);
  }

  lemma SortedIsReleaseList(view: View, kept: seq<Game>)
    ensures var list := Sort(kept, ViewOrder(view));
            && multiset(list) == multiset(kept)
            && (forall i, j :: 0 <= i < j < |list| ==> InReleaseOrder(view, DateMs(list[i].date), DateMs(list[j].date)))
  {
    KeyOrderIsTotal(ReleaseKey(), view == New);
    SortMembers(kept, ViewOrder(view));
    SortSorted(kept, ViewOrder(view));
    var list := Sort(kept, ViewOrder(view));
    forall i, j | 0 <= i < j < |list|
      ensures InReleaseOrder(view, DateMs(list[i].date), DateMs(list[j].date))
    {
      assert ViewOrder(view)(list[i], list[j]);
    }
  }

  lemma SortedKeepsInstants(view: View, kept: seq<Game>, instant: Option<int>)
    ensures Filter(Sort(kept, ViewOrder(view)), HasInstant(instant)) == Filter(kept, HasInstant(instant))
  {
    var p := HasInstant(instant);
    KeyOrderIsTotal(ReleaseKey(), view == New);
    FilterSort(kept, ViewOrder(view), p);
    FilterMembers(kept, p);
    var same := Filter(kept, p);
    forall a, b | a in same && b in same
      ensures ViewOrder(view)(a, b)
    {
      assert DateMs(a.date) == DateMs(b.date);
    }
    SortOfEquals(same, ViewOrder(view));
  }

  lemma SortedViewIs(view: View, games: seq<Game>, edge: int)
    ensures IsReleaseList(view, games, edge, Sort(Filter(games, Shown(view, edge)), ViewOrder(view)))
  {
    var kept := Filter(games, Shown(view, edge));
    SortedIsReleaseList(view, kept);
    forall instant
      ensures Filter(Sort(kept, ViewOrder(view)), HasInstant(instant)) == Filter(kept, HasInstant(instant))
    {
      SortedKeepsInstants(view, kept, instant);
    }
  }

  /** The server's list: NEW up to 37 hours after the server time, UPCOMING from 12 hours before it. */
  lemma ServerListIs(view: View, games: seq<Game>, now: int)
    ensures IsReleaseList(view, games, if view == New then now + 133200000 else now - 43200000,
                          ServerList(view, games, now))
  {
    var edge := if view == New then now + 133200000 else now - 43200000;
    FilterCongruent(games, if view == New then ReleasedBefore(edge) else ReleasedFrom(edge), Shown(view, edge));
    SortedViewIs(view, games, edge);
  }

  /** What the viewer sees, for every clock at most 12 hours off and every next midnight at most 25 hours ahead. */
  lemma ClientViewIs(view: View, games: seq<Game>, now: int, clientNow: int, boundary: int, size: nat)
    requires size >= 1 && |games| <= USIZE_MAX
    requires now - 43200000 <= clientNow <= now + 43200000 && clientNow < boundary <= clientNow + 90000000
    ensures IsReleaseList(view, games, boundary, ClientView(view, games, now, size, boundary))
  {
    ClientSeesTheDirectSplit(games, now, clientNow, boundary, size);
    assert ClientView(view, games, now, size, boundary) == DirectView(view, games, boundary);
    FilterCongruent(games, if view == New then ReleasedBefore(boundary) else ReleasedFrom(boundary),
                    Shown(view, boundary));
    SortedViewIs(view, games, boundary);
  }

  /** A view has one such list, so the two lemmas above determine what is shown. */
  lemma ReleaseListIsUnique(view: View, games: seq<Game>, edge: int, a: seq<Game>, b: seq<Game>)
    requires IsReleaseList(view, games, edge, a) && IsReleaseList(view, games, edge, b)
    ensures a == b
  {
    IsTheSort(view, games, edge, a);
    IsTheSort(view, games, edge, b);
  }

  lemma IsTheSort(view: View, games: seq<Game>, edge: int, list: seq<Game>)
    requires IsReleaseList(view, games, edge, list)
    ensures list == Sort(Filter(games, Shown(view, edge)), ViewOrder(view))
  {
    var kept, leq := Filter(games, Shown(view, edge)), ViewOrder(view);
    KeyOrderIsTotal(ReleaseKey(), view == New);
    forall g: Game
      ensures Filter(list, SameRank(leq, g)) == Filter(kept, SameRank(leq, g))
    {
      forall h: Game
        ensures SameRank(leq, g)(h) == HasInstant(DateMs(g.date))(h)
      {
        SameInstantIsSameRank(view, g, h);
      }
      FilterCongruent(list, SameRank(leq, g), HasInstant(DateMs(g.date)));
      FilterCongruent(kept, SameRank(leq, g), HasInstant(DateMs(g.date)));
    }
    SortIsTheStableSort(list, kept, leq);
  }
}
