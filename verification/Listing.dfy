/**
  Sorting, windows, paging, and merging of the game lists (crates/domain/src/listing.rs),
  and the client's split at the next local day (web/src/modules/releaseDay.ts).
*/
module Listing {
  import opened Collections
  import opened Sequences
  import opened Sorting
  import opened KeySort
  import opened Games
  import opened IsoDate
  import opened IsoGrammar

  // ----- The date sort -----

  datatype SortOrder = DateDesc | DateAsc

  function ReleaseMs(g: Game): Option<int> {
    DateMs(g.date)
  }

  function ReleaseKey(): Game -> Option<int> {
    g => ReleaseMs(g)
  }

  function DateOrder(order: SortOrder): (Game, Game) -> bool {
    KeyOrder(ReleaseKey(), order.DateDesc?)
  }

  /** `sort_by_date`: a game without a date sorts last in both directions. */
  function SortByDate(games: seq<Game>, order: SortOrder): seq<Game> {
    SortByKey(games, ReleaseKey(), order.DateDesc?)
  }

  // ----- Windows -----

  const MAX_LOCAL_DAY_MS := 25 * 60 * 60 * 1000
  const CLIENT_CLOCK_MARGIN_MS := 12 * 60 * 60 * 1000

  function HasDate(): Game -> bool {
    g => ReleaseMs(g).Some?
  }

  /** A dated game released before the instant. */
  function ReleasedBefore(end: int): Game -> bool {
    g => ReleaseMs(g).Some? && ReleaseMs(g).value < end
  }

  /** A game released at the instant or later, or without a date. */
  function ReleasedFrom(start: int): Game -> bool {
    g => ReleaseMs(g).None? || ReleaseMs(g).value >= start
  }

  function InNewWindow(games: seq<Game>, now: int): seq<Game> {
    Filter(games, ReleasedBefore(now + MAX_LOCAL_DAY_MS + CLIENT_CLOCK_MARGIN_MS))
  }

  function InUpcomingWindow(games: seq<Game>, now: int): seq<Game> {
    Filter(games, ReleasedFrom(now - CLIENT_CLOCK_MARGIN_MS))
  }

  // ----- Paging -----

  function Paginate(games: seq<Game>, offset: nat, size: nat): PageResult {
    var end := SaturatingAdd(offset, size);
    var skipped := if offset <= |games| then games[offset..] else [];
    PageResult(if size <= |skipped| then skipped[..size] else skipped,
               |games|,
               if end < |games| then Some(end) else None)
  }

  /** The client: it requests each next offset and joins the pages. */
  function FollowPages(games: seq<Game>, offset: nat, size: nat): seq<Game>
    requires size >= 1 && |games| <= USIZE_MAX
    decreases |games| - offset
  {
    var page := Paginate(games, offset, size);
    page.games + if page.nextOffset.Some? then FollowPages(games, page.nextOffset.value, size) else []
  }

  // ----- Merging -----

  /** Keeps the first game of each id, with a set of the ids seen so far. */
  method KeepFirst(games: seq<Game>) returns (kept: seq<Game>)
    ensures kept == FirstOccurrences(games, GameKey)
  {
    var seen: set<string> := {};
    kept := [];
    for i := 0 to |games|
      invariant kept == FirstOccurrences(games[..i], GameKey)
      invariant forall k :: k in seen <==> HasKey(games[..i], GameKey, k)
    {
      var game := games[i];
      assert games[..i + 1][..i] == games[..i];
      assert games[..i + 1] == games[..i] + [game];
      forall k
        ensures HasKey(games[..i + 1], GameKey, k) <==> HasKey(games[..i], GameKey, k) || game.id == k
      {
        HasKeyAppend(games[..i], game, GameKey, k);
      }
      if game.id !in seen {
        seen := seen + {game.id};
        kept := kept + [game];
      }
    }
    assert games[..|games|] == games;
  }

  /** `merge_release_grids`: the released grid, then the upcoming grid; the first of a repeated id wins. */
  method MergeReleaseGrids(released: seq<Game>, upcoming: seq<Game>) returns (merged: seq<Game>)
    ensures merged == FirstOccurrences(released + upcoming, GameKey)
  {
    merged := KeepFirst(released + upcoming);
  }

  // ----- The lists of the service and the client -----

  datatype View = New | Upcoming

  /** `release_listing` before paging: the window of the view, then its sort. */
  function ServerList(view: View, games: seq<Game>, now: int): seq<Game> {
    match view
    case New => SortByDate(InNewWindow(games, now), DateDesc)
    case Upcoming => SortByDate(InUpcomingWindow(games, now), DateAsc)
  }

  /** `splitByReleaseDay`. */
  function ClientSplit(view: View, games: seq<Game>, boundary: int): seq<Game> {
    match view
    case New => Filter(games, ReleasedBefore(boundary))
    case Upcoming => Filter(games, ReleasedFrom(boundary))
  }

  /** What the viewer sees: every page of the server list, joined and split. */
  function ClientView(view: View, games: seq<Game>, now: int, size: nat, boundary: int): seq<Game>
    requires size >= 1 && |games| <= USIZE_MAX
  {
    ServerListSize(view, games, now);
    ClientSplit(view, FollowPages(ServerList(view, games, now), 0, size), boundary)
  }

  /** The product rule: the whole merged list, split by the boundary and sorted by date. */
  function DirectView(view: View, games: seq<Game>, boundary: int): seq<Game> {
    match view
    case New => SortByDate(ClientSplit(New, games, boundary), DateDesc)
    case Upcoming => SortByDate(ClientSplit(Upcoming, games, boundary), DateAsc)
  }

  // ----- Paging joins back to the list -----

  lemma {:induction false} PagesJoin(games: seq<Game>, offset: nat, size: nat)
    requires size >= 1 && |games| <= USIZE_MAX
    ensures FollowPages(games, offset, size) == if offset <= |games| then games[offset..] else []
    decreases |games| - offset
  {
    var page := Paginate(games, offset, size);
    if page.nextOffset.Some? {
      PagesJoin(games, page.nextOffset.value, size);
      assert games[offset..] == games[offset..offset + size] + games[offset + size..];
    }
  }

  // ----- Main results -----

  lemma SplitOfServerList(view: View, games: seq<Game>, now: int, boundary: int)
    requires view.New? ==> boundary <= now + MAX_LOCAL_DAY_MS + CLIENT_CLOCK_MARGIN_MS
    requires view.Upcoming? ==> boundary >= now - CLIENT_CLOCK_MARGIN_MS
    ensures ClientSplit(view, ServerList(view, games, now), boundary) == DirectView(view, games, boundary)
  {
    match view
    case New =>
      var p, q := ReleasedBefore(now + MAX_LOCAL_DAY_MS + CLIENT_CLOCK_MARGIN_MS), ReleasedBefore(boundary);
      KeyOrderIsTotal(ReleaseKey(), true);
      FilterSort(Filter(games, p), DateOrder(DateDesc), q);
      FilterTwice(games, p, q);
    case Upcoming =>
      var p, q := ReleasedFrom(now - CLIENT_CLOCK_MARGIN_MS), ReleasedFrom(boundary);
      KeyOrderIsTotal(ReleaseKey(), false);
      FilterSort(Filter(games, p), DateOrder(DateAsc), q);
      FilterTwice(games, p, q);
  }

  /**
    For every server time, every client clock at most 12 hours off, every next local midnight
    at most 25 hours ahead of that clock, and every page size, the client shows the direct
    split of the whole list, and the two views together hold each game of the list once.
  */
  lemma ClientSeesTheDirectSplit(games: seq<Game>, now: int, clientNow: int, boundary: int, size: nat)
    requires size >= 1 && |games| <= USIZE_MAX
    requires now - CLIENT_CLOCK_MARGIN_MS <= clientNow <= now + CLIENT_CLOCK_MARGIN_MS
    requires clientNow < boundary <= clientNow + MAX_LOCAL_DAY_MS
    ensures forall view :: ClientView(view, games, now, size, boundary) == DirectView(view, games, boundary)
    ensures multiset(ClientView(New, games, now, size, boundary))
          + multiset(ClientView(Upcoming, games, now, size, boundary)) == multiset(games)
  {
    forall view
      ensures ClientView(view, games, now, size, boundary) == DirectView(view, games, boundary)
    {
      ViewIsDirect(view, games, now, boundary, size);
    }
    var new_, upcoming := ClientSplit(New, games, boundary), ClientSplit(Upcoming, games, boundary);
    SortMembers(new_, DateOrder(DateDesc));
    SortMembers(upcoming, DateOrder(DateAsc));
    FilterPartition(games, ReleasedBefore(boundary), ReleasedFrom(boundary));
  }

  lemma ViewIsDirect(view: View, games: seq<Game>, now: int, boundary: int, size: nat)
    requires size >= 1 && |games| <= USIZE_MAX
    requires view.New? ==> boundary <= now + MAX_LOCAL_DAY_MS + CLIENT_CLOCK_MARGIN_MS
    requires view.Upcoming? ==> boundary >= now - CLIENT_CLOCK_MARGIN_MS
    ensures ClientView(view, games, now, size, boundary) == DirectView(view, games, boundary)
  {
    var list := ServerList(view, games, now);
    ServerListSize(view, games, now);
    PagesJoin(list, 0, size);
    assert list[0..] == list;
    SplitOfServerList(view, games, now, boundary);
  }

  lemma ServerListSize(view: View, games: seq<Game>, now: int)
    ensures |ServerList(view, games, now)| <= |games|
  {
    var p := if view.New? then ReleasedBefore(now + MAX_LOCAL_DAY_MS + CLIENT_CLOCK_MARGIN_MS)
             else ReleasedFrom(now - CLIENT_CLOCK_MARGIN_MS);
    var kept := Filter(games, p);
    FilterMembers(games, p);
    SortMembers(kept, DateOrder(if view.New? then DateDesc else DateAsc));
    assert |multiset(ServerList(view, games, now))| == |multiset(kept)|;
  }

  // ----- The margins are exact -----

  function GameAt(ms: int): Game
    requires MIN_MS <= ms <= MAX_MS
  {
    Game("EP0001-PPSA00001_00-X", ProductCard, "", "", IsoString(ms).value, "", false, None)
  }

  lemma OneGame(g: Game, p: Game -> bool, order: SortOrder)
    ensures Filter([g], p) == if p(g) then [g] else []
    ensures SortByDate([g], order) == [g] && SortByDate([], order) == []
  {
    FilterOne(g, p);
    SortOne(g, DateOrder(order));
  }

  lemma ViewOfOneGame(view: View, ms: int, now: int, boundary: int, size: nat)
    requires size >= 1 && MIN_MS <= ms <= MAX_MS
    requires if view.New? then now + MAX_LOCAL_DAY_MS + CLIENT_CLOCK_MARGIN_MS <= ms < boundary
             else boundary <= ms < now - CLIENT_CLOCK_MARGIN_MS
    ensures ClientView(view, [GameAt(ms)], now, size, boundary) == []
    ensures DirectView(view, [GameAt(ms)], boundary) == [GameAt(ms)]
  {
    var g := GameAt(ms);
    PrintThenParse(ms);
    assert ReleaseMs(g) == Some(ms);
    if view.New? {
      OneGame(g, ReleasedBefore(now + MAX_LOCAL_DAY_MS + CLIENT_CLOCK_MARGIN_MS), DateDesc);
      OneGame(g, ReleasedBefore(boundary), DateDesc);
    } else {
      OneGame(g, ReleasedFrom(now - CLIENT_CLOCK_MARGIN_MS), DateAsc);
      OneGame(g, ReleasedFrom(boundary), DateAsc);
    }
    assert ServerList(view, [g], now) == [];
    PagesJoin([], 0, size);
  }

  /** NEW is right for every list exactly when the boundary is at most 37 hours after the server time. */
  lemma NewMarginIsExact(now: int, boundary: int, size: nat)
    requires size >= 1
    requires MIN_MS <= now + MAX_LOCAL_DAY_MS + CLIENT_CLOCK_MARGIN_MS <= MAX_MS
    ensures (forall games: seq<Game> ::
              |games| <= USIZE_MAX ==> ClientView(New, games, now, size, boundary) == DirectView(New, games, boundary))
       <==> boundary <= now + MAX_LOCAL_DAY_MS + CLIENT_CLOCK_MARGIN_MS
  {
    if boundary <= now + MAX_LOCAL_DAY_MS + CLIENT_CLOCK_MARGIN_MS {
      forall games: seq<Game> | |games| <= USIZE_MAX
        ensures ClientView(New, games, now, size, boundary) == DirectView(New, games, boundary)
      {
        ViewIsDirect(New, games, now, boundary, size);
      }
    } else {
      var ms := now + MAX_LOCAL_DAY_MS + CLIENT_CLOCK_MARGIN_MS;
      ViewOfOneGame(New, ms, now, boundary, size);
      var games := [GameAt(ms)];
      assert |games| <= USIZE_MAX && ClientView(New, games, now, size, boundary) != DirectView(New, games, boundary);
    }
  }

  /** UPCOMING is right for every list exactly when the boundary is at most 12 hours before the server time. */
  lemma UpcomingMarginIsExact(now: int, boundary: int, size: nat)
    requires size >= 1
    requires MIN_MS <= boundary <= MAX_MS
    ensures (forall games: seq<Game> ::
              |games| <= USIZE_MAX
              ==> ClientView(Upcoming, games, now, size, boundary) == DirectView(Upcoming, games, boundary))
       <==> boundary >= now - CLIENT_CLOCK_MARGIN_MS
  {
    if boundary >= now - CLIENT_CLOCK_MARGIN_MS {
      forall games: seq<Game> | |games| <= USIZE_MAX
        ensures ClientView(Upcoming, games, now, size, boundary) == DirectView(Upcoming, games, boundary)
      {
        ViewIsDirect(Upcoming, games, now, boundary, size);
      }
    } else {
      ViewOfOneGame(Upcoming, boundary, now, boundary, size);
      var games := [GameAt(boundary)];
      assert |games| <= USIZE_MAX
          && ClientView(Upcoming, games, now, size, boundary) != DirectView(Upcoming, games, boundary);
    }
  }

  // ----- Normalising the dates moves no game -----

  function NormaliseGame(): Game -> Game {
    (g: Game) => g.(date := Normalise(Some(g.date)))
  }

  lemma NormaliseKeepsRelease(g: Game)
    ensures ReleaseMs(NormaliseGame()(g)) == ReleaseMs(g)
  {
    NormaliseKeepsInstant(Some(g.date));
  }

  lemma NormaliseThenSort(games: seq<Game>, order: SortOrder)
    ensures SortByDate(Map(games, NormaliseGame()), order) == Map(SortByDate(games, order), NormaliseGame())
  {
    var leq, f := DateOrder(order), NormaliseGame();
    forall a: Game, b: Game
      ensures leq(f(a), f(b)) == leq(a, b)
    {
      NormaliseKeepsRelease(a);
      NormaliseKeepsRelease(b);
    }
    MapSort(games, leq, f, leq);
  }

  lemma NormaliseThenFilter(games: seq<Game>, p: Game -> bool)
    requires (exists end :: p == ReleasedBefore(end)) || (exists start :: p == ReleasedFrom(start))
    ensures Filter(Map(games, NormaliseGame()), p) == Map(Filter(games, p), NormaliseGame())
  {
    forall g: Game
      ensures p(NormaliseGame()(g)) == p(g)
    {
      NormaliseKeepsRelease(g);
    }
    FilterMap(games, NormaliseGame(), p, p);
  }

  /**
    The windows, the sort, the merge of the grids, and what the client shows all commute with
    normalising every date: the normalisation moves no game between lists and reorders none.
  */
  lemma NormalisingMovesNoGame(games: seq<Game>, now: int, view: View, boundary: int, size: nat)
    requires size >= 1 && |games| <= USIZE_MAX
    ensures var f := NormaliseGame(); var normalised := Map(games, f);
            && InNewWindow(normalised, now) == Map(InNewWindow(games, now), f)
            && InUpcomingWindow(normalised, now) == Map(InUpcomingWindow(games, now), f)
            && FirstOccurrences(normalised, GameKey) == Map(FirstOccurrences(games, GameKey), f)
            && ServerList(view, normalised, now) == Map(ServerList(view, games, now), f)
            && ClientView(view, normalised, now, size, boundary) == Map(ClientView(view, games, now, size, boundary), f)
  {
    var f := NormaliseGame();
    NormaliseThenFilter(games, ReleasedBefore(now + MAX_LOCAL_DAY_MS + CLIENT_CLOCK_MARGIN_MS));
    NormaliseThenFilter(games, ReleasedFrom(now - CLIENT_CLOCK_MARGIN_MS));
    FirstOccurrencesMap(games, f, GameKey, GameKey);
    NormaliseThenSort(InNewWindow(games, now), DateDesc);
    NormaliseThenSort(InUpcomingWindow(games, now), DateAsc);
    var list := ServerList(view, games, now);
    var list' := ServerList(view, Map(games, f), now);
    ServerListSize(view, games, now);
    ServerListSize(view, Map(games, f), now);
    PagesJoin(list, 0, size);
    PagesJoin(list', 0, size);
    assert list[0..] == list && list'[0..] == list';
    if view.New? {
      NormaliseThenFilter(list, ReleasedBefore(boundary));
    } else {
      NormaliseThenFilter(list, ReleasedFrom(boundary));
    }
  }
}
