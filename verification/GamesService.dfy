/**
  The paging and lookup protocols of the games service (crates/server/src/application/games.rs).

  The upstream is a value: what each Sony call answers. A cache in front of it changes when a
  call is made, not what a stable upstream answers. A lookup is lenient where a failure counts
  as an empty detail, and strict where it stays a failure.
*/
module GamesService {
  import opened Collections
  import opened Sequences
  import opened Games
  import opened IsoDate
  import opened IsoGrammar
  import opened Listing
  import opened ReleaseOrder

  datatype UpstreamError = UpstreamError(reason: string)

  const UNAVAILABLE := UpstreamError("unavailable")

  datatype LookupError = NotFound | Upstream(error: UpstreamError)

  datatype ProductRef = ProductRef(id: Option<string>, releaseDate: Option<string>)

  datatype Concept = Concept(id: Option<string>, name: string, cover: string, price: string,
                             products: Option<seq<ProductRef>>)

  datatype ProductDetail = ProductDetail(name: Option<string>, releaseDate: Option<string>,
                                         platforms: seq<string>, classification: Option<string>)

  const EMPTY_DETAIL := ProductDetail(None, None, [], None)

  datatype Candidate = Known(productId: string, concept: Concept) | Unverified(productId: string, concept: Concept)

  datatype SearchPage = SearchPage(candidates: seq<Candidate>, isLast: bool)

  datatype BrowsePage = BrowsePage(concepts: seq<Concept>, isLast: bool)

  /**
    Sony's answers: the grids, the monthly list, the details by product id, and the raw pages by
    offset. `upcomingFailsFirst` tells which failure arrives first when both grids fail.
  */
  datatype Sony = Sony(new_: Result<seq<Concept>, UpstreamError>,
                       upcoming: Result<seq<Concept>, UpstreamError>,
                       upcomingFailsFirst: bool,
                       discounted: Result<seq<Concept>, UpstreamError>,
                       monthly: Result<seq<Game>, UpstreamError>,
                       detail: string -> Result<ProductDetail, UpstreamError>,
                       search: nat -> Result<SearchPage, UpstreamError>,
                       browse: nat -> Result<BrowsePage, UpstreamError>)

  // ----- Cards -----

  /** The first product's id, else the concept id, else the empty text. */
  function ConceptProductId(c: Concept): string {
    if c.products.Some? && c.products.value != [] && c.products.value[0].id.Some? then c.products.value[0].id.value
    else c.id.GetOr("")
  }

  function FirstReleaseDate(c: Concept): Option<string> {
    if c.products.Some? && c.products.value != [] then c.products.value[0].releaseDate else None
  }

  function ConceptToGame(c: Concept, id: string): Game {
    Game(id, ProductCard, c.name, c.cover, Normalise(FirstReleaseDate(c)), c.price, false, None)
  }

  /** The card of a concept whose id is a product id. */
  function ProductCardOf(): Concept -> Option<Game> {
    (c: Concept) => if IsProductId(ConceptProductId(c)) then Some(ConceptToGame(c, ConceptProductId(c))) else None
  }

  /** UPCOMING keeps every concept with an id. */
  function UpcomingCardOf(): Concept -> Option<Game> {
    (c: Concept) =>
      var id := ConceptProductId(c);
      if id == "" then None
      else Some(ConceptToGame(c, id).(idKind := if IsProductId(id) then ProductCard else ConceptCard))
  }

  function MapConceptsToGames(concepts: seq<Concept>): seq<Game> {
    Somes(Map(concepts, ProductCardOf()))
  }

  function MapUpcomingConceptsToGames(concepts: seq<Concept>): seq<Game> {
    Somes(Map(concepts, UpcomingCardOf()))
  }

  predicate IsPs5Game(d: ProductDetail) {
    "PS5" in d.platforms && (d.classification == Some("FULL_GAME") || d.classification == Some("GAME_BUNDLE"))
  }

  function LenientDetail(sony: Sony, id: string): ProductDetail {
    match sony.detail(id) case Ok(d) => d case Err(_) => EMPTY_DETAIL
  }

  // ----- NEW and UPCOMING -----

  function WithProductDate(sony: Sony): Game -> Game {
    (g: Game) =>
      var detail := if IsProductId(g.id) then LenientDetail(sony, g.id) else EMPTY_DETAIL;
      g.(date := Normalise(detail.releaseDate))
  }

  function UpcomingDate(sony: Sony): Game -> Game {
    (g: Game) => if g.idKind == ProductCard then WithProductDate(sony)(g) else g
  }

  /** The released cards with a product date. */
  function ReleasedGrid(sony: Sony, released: seq<Concept>): seq<Game> {
    Filter(Map(MapConceptsToGames(released), WithProductDate(sony)), HasDate())
  }

  function UpcomingGrid(sony: Sony, upcoming: seq<Concept>): seq<Game> {
    Map(MapUpcomingConceptsToGames(upcoming), UpcomingDate(sony))
  }

  function BothGrids(sony: Sony, released: seq<Concept>, upcoming: seq<Concept>): seq<Game> {
    ReleasedGrid(sony, released) + UpcomingGrid(sony, upcoming)
  }

  /** Both grids, or the first failure (`try_join`). */
  function JoinGrids(sony: Sony): Result<(seq<Concept>, seq<Concept>), UpstreamError> {
    match (sony.new_, sony.upcoming)
    case (Ok(released), Ok(upcoming)) => Ok((released, upcoming))
    case (Err(e), Ok(_)) => Err(e)
    case (Ok(_), Err(e)) => Err(e)
    case (Err(e), Err(f)) => Err(if sony.upcomingFailsFirst then f else e)
  }

  function MergedGames(sony: Sony): Result<seq<Game>, UpstreamError> {
    var (released, upcoming) :- JoinGrids(sony);
    Ok(FirstOccurrences(BothGrids(sony, released, upcoming), GameKey))
  }

  /** `release_games`: both grids or no list. */
  method ReleaseGames(sony: Sony) returns (r: Result<seq<Game>, UpstreamError>)
    ensures r == MergedGames(sony)
  {
    var grids :- JoinGrids(sony);
    var (released, upcoming) := grids;
    var enriched := Map(MapConceptsToGames(released), WithProductDate(sony));
    var announced := Map(MapUpcomingConceptsToGames(upcoming), UpcomingDate(sony));
    var merged := MergeReleaseGrids(Filter(enriched, HasDate()), announced);
    r := Ok(merged);
  }

  /**
    `release_listing`. The caller gets a page exactly when both grids were read: the games of
    the view's list at the places from `offset` on, `size` at most, the size of that list, and
    the offset behind the page exactly when games remain there. The list is NEW up to 37 hours
    after the server time, newest first, or UPCOMING from 12 hours before it, soonest first. A `Vec` has at most
    `usize::MAX` elements.
  */
  method ReleaseListing(sony: Sony, view: View, now: int, offset: nat, size: nat)
    returns (r: Result<PageResult, UpstreamError>)
    ensures r.Ok? <==> sony.new_.Ok? && sony.upcoming.Ok?
    ensures r.Err? ==>
              Err(r.error) == if sony.new_.Ok? || (sony.upcoming.Err? && sony.upcomingFailsFirst) then sony.upcoming
                              else sony.new_
    ensures r.Ok? ==>
              var list, page := ServerList(view, MergedGames(sony).value, now), r.value;
              && IsReleaseList(view, MergedGames(sony).value,
                               if view == New then now + 133200000 else now - 43200000, list)
              && page.totalCount == |list|
              && |page.games| == Min(size, if offset <= |list| then |list| - offset else 0)
              && (forall i :: 0 <= i < |page.games| ==> page.games[i] == list[offset + i])
              && (|list| <= USIZE_MAX ==>
                    page.nextOffset == if offset + size < |list| then Some(offset + size) else None)
  {
    var games :- ReleaseGames(sony);
    ServerListIs(view, games, now);
    r := Ok(Paginate(ServerList(view, games, now), offset, size));
  }

  // ----- The paging loop of search and BROWSE -----

  /** A raw page after its lookups. */
  datatype Narrowed = Narrowed(games: seq<Game>, isLast: bool)

  datatype PageAnswer = PageAnswer(result: Result<PageResult, UpstreamError>, offsets: seq<nat>)

  type Reader = nat -> Result<Narrowed, UpstreamError>

  const RAW_PAGE_BOUND: nat := 3

  /** Reads on while a page narrows to nothing, `left` raw pages at most. */
  function ReadUpTo(read: Reader, offset: nat, size: nat, left: nat): PageAnswer
    requires left >= 1
    decreases left
  {
    match read(offset)
    case Err(e) => PageAnswer(Err(e), [offset])
    case Ok(page) =>
      var next := if page.isLast then None else Some(SaturatingAdd(offset, size));
      if next.Some? && page.games == [] && left > 1 then
        var rest := ReadUpTo(read, next.value, size, left - 1);
        PageAnswer(rest.result, [offset] + rest.offsets)
      else
        PageAnswer(Ok(PageResult(page.games, |page.games|, next)), [offset])
  }

  // ----- Search -----

  /** A candidate that only names its product is checked against the detail. */
  function ResolveCandidate(sony: Sony): Candidate -> Option<Game> {
    (c: Candidate) =>
      var detail := LenientDetail(sony, c.productId);
      if c.Unverified? && !IsPs5Game(detail) then None
      else Some(ConceptToGame(c.concept, c.productId).(date := Normalise(detail.releaseDate)))
  }

  function NarrowSearch(sony: Sony, candidates: seq<Candidate>): seq<Game> {
    Somes(Map(candidates, ResolveCandidate(sony)))
  }

  function SearchPageAt(sony: Sony, offset: nat): Result<Narrowed, UpstreamError> {
    var page :- sony.search(offset);
    Ok(Narrowed(NarrowSearch(sony, page.candidates), page.isLast))
  }

  function SearchReader(sony: Sony): Reader {
    (offset: nat) => SearchPageAt(sony, offset)
  }

  /** `search_games`, with the raw offsets that it reads. */
  method SearchGames(sony: Sony, offset: nat, size: nat)
    returns (r: Result<PageResult, UpstreamError>, offsets: seq<nat>)
    ensures PageAnswer(r, offsets) == ReadUpTo(SearchReader(sony), offset, size, RAW_PAGE_BOUND)
  {
    var rawOffset := offset;
    var pagesLeft := RAW_PAGE_BOUND;
    offsets := [];
    while true
      invariant 1 <= pagesLeft
      invariant StillToRead(SearchReader(sony), offset, size, offsets, rawOffset, pagesLeft)
      decreases pagesLeft
    {
      var answer := sony.search(rawOffset);
      if answer.Err? {
        return Err(answer.error), offsets + [rawOffset];
      }
      var found := answer.value;
      var next := if found.isLast then None else Some(SaturatingAdd(rawOffset, size));
      var games := NarrowSearch(sony, found.candidates);
      if next.Some? && games == [] && pagesLeft > 1 {
        OneMoreRead(SearchReader(sony), offset, size, offsets, rawOffset, pagesLeft);
        offsets := offsets + [rawOffset];
        rawOffset := next.value;
        pagesLeft := pagesLeft - 1;
      } else {
        return Ok(PageResult(games, |games|, next)), offsets + [rawOffset];
      }
    }
  }

  /** The answer to the request is the answer from `rawOffset` on, after the offsets read so far. */
  ghost predicate StillToRead(read: Reader, offset: nat, size: nat, offsets: seq<nat>, rawOffset: nat, left: nat)
    requires left >= 1
  {
    var rest := ReadUpTo(read, rawOffset, size, left);
    PageAnswer(rest.result, offsets + rest.offsets) == ReadUpTo(read, offset, size, RAW_PAGE_BOUND)
  }

  lemma OneMoreRead(read: Reader, offset: nat, size: nat, offsets: seq<nat>, rawOffset: nat, left: nat)
    requires left > 1 && StillToRead(read, offset, size, offsets, rawOffset, left)
    requires read(rawOffset).Ok? && read(rawOffset).value.games == [] && !read(rawOffset).value.isLast
    ensures StillToRead(read, offset, size, offsets + [rawOffset], SaturatingAdd(rawOffset, size), left - 1)
  {
    var rest := ReadUpTo(read, SaturatingAdd(rawOffset, size), size, left - 1);
    assert offsets + ([rawOffset] + rest.offsets) == offsets + [rawOffset] + rest.offsets;
  }

  // ----- BROWSE -----

  const BROWSE_MAX_CANDIDATES: nat := 3

  function ValidProductId(): ProductRef -> Option<string> {
    (p: ProductRef) => if p.id.Some? && IsProductId(p.id.value) then Some(p.id.value) else None
  }

  function SameText(): string -> string {
    (s: string) => s
  }

  /** A PS5 title id has `PPSA` after the publisher part. */
  function IsPs5Title(): string -> bool {
    (id: string) => |id| >= 11 && id[7..11] == "PPSA"
  }

  function IsOtherTitle(): string -> bool {
    (id: string) => !IsPs5Title()(id)
  }

  /** The product ids to try, PS5 titles first, otherwise in Sony's order. */
  function BrowseCandidateIds(c: Concept): seq<string> {
    var ids := FirstOccurrences(Somes(Map(c.products.GetOr([]), ValidProductId())), SameText());
    var ordered := Filter(ids, IsPs5Title()) + Filter(ids, IsOtherTitle());
    if |ordered| <= BROWSE_MAX_CANDIDATES then ordered else ordered[..BROWSE_MAX_CANDIDATES]
  }

  datatype Resolution = Card(game: Game) | Dropped | Failed

  function BrowseCard(c: Concept, id: string, detail: ProductDetail): Game {
    ConceptToGame(c, id).(date := Normalise(detail.releaseDate))
  }

  function ResolveFrom(sony: Sony, c: Concept, ids: seq<string>): Resolution {
    if ids == [] then Dropped
    else match sony.detail(ids[0])
         case Err(_) => Failed
         case Ok(detail) =>
           if IsPs5Game(detail) then Card(BrowseCard(c, ids[0], detail)) else ResolveFrom(sony, c, ids[1..])
  }

  function Resolve(sony: Sony): Concept -> Resolution {
    (c: Concept) => ResolveFrom(sony, c, BrowseCandidateIds(c))
  }

  /** `resolve_browse_concept`: the first candidate whose detail proves a PS5 game becomes the card. */
  method ResolveBrowseConcept(sony: Sony, c: Concept) returns (r: Resolution)
    ensures r == Resolve(sony)(c)
  {
    var ids := BrowseCandidateIds(c);
    for i := 0 to |ids|
      invariant ResolveFrom(sony, c, ids[i..]) == ResolveFrom(sony, c, ids)
    {
      assert ids[i..][1..] == ids[i + 1..];
      var answer := sony.detail(ids[i]);
      if answer.Err? {
        return Failed;
      }
      if IsPs5Game(answer.value) {
        return Card(BrowseCard(c, ids[i], answer.value));
      }
    }
    r := Dropped;
  }

  function CardGame(): Resolution -> Option<Game> {
    (r: Resolution) => if r.Card? then Some(r.game) else None
  }

  function BrowseGames(resolved: seq<Resolution>): seq<Game> {
    FirstOccurrences(Somes(Map(resolved, CardGame())), GameKey)
  }

  /** A page without a game fails when one of its lookups failed. */
  function BrowsePageAt(sony: Sony, offset: nat): Result<Narrowed, UpstreamError> {
    var page :- sony.browse(offset);
    var resolved := Map(page.concepts, Resolve(sony));
    var games := BrowseGames(resolved);
    if Failed in resolved && games == [] then Err(UNAVAILABLE) else Ok(Narrowed(games, page.isLast))
  }

  function BrowseReader(sony: Sony): Reader {
    (offset: nat) => BrowsePageAt(sony, offset)
  }

  /** One raw BROWSE page: its lookups, the count of failed ones, and the games by first id. */
  method ResolvePage(sony: Sony, concepts: seq<Concept>) returns (games: seq<Game>, failed: nat)
    ensures games == BrowseGames(Map(concepts, Resolve(sony)))
    ensures failed > 0 <==> Failed in Map(concepts, Resolve(sony))
  {
    var resolved: seq<Resolution> := [];
    failed := 0;
    for i := 0 to |concepts|
      invariant resolved == Map(concepts[..i], Resolve(sony))
      invariant failed > 0 <==> Failed in resolved
    {
      var one := ResolveBrowseConcept(sony, concepts[i]);
      MapPrefix(concepts, i, Resolve(sony));
      resolved := resolved + [one];
      if one.Failed? {
        failed := failed + 1;
      }
    }
    assert resolved == Map(concepts, Resolve(sony)) by {
      assert concepts[..|concepts|] == concepts;
    }
    games := KeepFirst(Somes(Map(resolved, CardGame())));
  }

  method ReadRawPage(sony: Sony, offset: nat) returns (r: Result<Narrowed, UpstreamError>)
    ensures r == BrowsePageAt(sony, offset)
  {
    var page :- sony.browse(offset);
    var games, failed := ResolvePage(sony, page.concepts);
    r := if failed > 0 && games == [] then Err(UNAVAILABLE) else Ok(Narrowed(games, page.isLast));
  }

  /** `read_browse_page`, with the raw offsets that it reads. */
  method ReadBrowsePage(sony: Sony, offset: nat, size: nat)
    returns (r: Result<PageResult, UpstreamError>, offsets: seq<nat>)
    ensures PageAnswer(r, offsets) == ReadUpTo(BrowseReader(sony), offset, size, RAW_PAGE_BOUND)
  {
    var rawOffset := offset;
    var pagesLeft := RAW_PAGE_BOUND;
    offsets := [];
    while true
      invariant 1 <= pagesLeft
      invariant StillToRead(BrowseReader(sony), offset, size, offsets, rawOffset, pagesLeft)
      decreases pagesLeft
    {
      var answer := ReadRawPage(sony, rawOffset);
      if answer.Err? {
        return Err(answer.error), offsets + [rawOffset];
      }
      var page := answer.value;
      var next := if page.isLast then None else Some(SaturatingAdd(rawOffset, size));
      if next.Some? && page.games == [] && pagesLeft > 1 {
        OneMoreRead(BrowseReader(sony), offset, size, offsets, rawOffset, pagesLeft);
        offsets := offsets + [rawOffset];
        rawOffset := next.value;
        pagesLeft := pagesLeft - 1;
      } else {
        return Ok(PageResult(page.games, |page.games|, next)), offsets + [rawOffset];
      }
    }
  }

  // ----- The game page -----

  function FindId(games: seq<Game>, id: string): Option<Game> {
    if games == [] then None
    else if games[0].id == id then Some(games[0])
    else FindId(games[1..], id)
  }

  function NamesId(id: string): Concept -> bool {
    (c: Concept) => ConceptProductId(c) == id
  }

  /** `find_in_feature`. */
  function FindInFeature(grid: Result<seq<Concept>, UpstreamError>, id: string): Result<Option<Game>, UpstreamError> {
    var concepts :- grid;
    Ok(FindId(MapConceptsToGames(Filter(concepts, NamesId(id))), id))
  }

  /** `enrich_with_detail`, as far as the date: a detail with a date replaces the card's date. */
  function EnrichWithDetail(sony: Sony, g: Game): Game {
    var detail := if IsProductId(g.id) then LenientDetail(sony, g.id) else EMPTY_DETAIL;
    g.(date := if detail.releaseDate.Some? then Normalise(detail.releaseDate) else g.date)
  }

  /** `by_product_id`: only a product that Sony proves to be no PS5 game is not found. */
  function ByProductId(sony: Sony, id: string): Result<Game, LookupError> {
    if !IsProductId(id) then Err(NotFound)
    else match sony.detail(id)
         case Err(e) => Err(Upstream(e))
         case Ok(detail) =>
           if detail.platforms == [] || !IsPs5Game(detail) then Err(NotFound)
           else if detail.name.None? then Err(Upstream(UNAVAILABLE))
           else Ok(Game(id, ProductCard, detail.name.value, "", Normalise(detail.releaseDate), "", false, None))
  }

  /** The lists in their order, each with its answer for the id. */
  function ListAnswers(sony: Sony, id: string): seq<Result<Option<Game>, UpstreamError>> {
    [match sony.new_ case Ok(concepts) => Ok(FindId(MapConceptsToGames(concepts), id)) case Err(e) => Err(e),
     FindInFeature(sony.upcoming, id),
     FindInFeature(sony.discounted, id),
     match sony.monthly case Ok(games) => Ok(FindId(games, id)) case Err(e) => Err(e)]
  }

  /** The first list that fails or has the id decides, and the product decides when none does. */
  function LookUpFrom(sony: Sony, id: string,
                      answers: seq<Result<Option<Game>, UpstreamError>>): Result<Game, LookupError> {
    if answers == [] then ByProductId(sony, id)
    else match answers[0]
         case Err(e) => Err(Upstream(e))
         case Ok(Some(g)) => Ok(EnrichWithDetail(sony, g))
         case Ok(None) => LookUpFrom(sony, id, answers[1..])
  }

  function LookUp(sony: Sony, id: string): Result<Game, LookupError> {
    LookUpFrom(sony, id, ListAnswers(sony, id))
  }

  /** `game_by_id`: NEW, then UPCOMING, DISCOUNTED, and MONTHLY, then the product itself. */
  method GameById(sony: Sony, id: string) returns (r: Result<Game, LookupError>)
    ensures r == LookUp(sony, id)
  {
    ghost var answers := ListAnswers(sony, id);
    if sony.new_.Err? {
      return Err(Upstream(sony.new_.error));
    }
    var base := FindId(MapConceptsToGames(sony.new_.value), id);
    if base.Some? {
      return Ok(EnrichWithDetail(sony, base.value));
    }
    var grids := [sony.upcoming, sony.discounted];
    for i := 0 to 2
      invariant LookUpFrom(sony, id, answers[i + 1..]) == LookUp(sony, id)
    {
      assert answers[i + 1..][1..] == answers[i + 2..];
      var found := FindInFeature(grids[i], id);
      if found.Err? {
        return Err(Upstream(found.error));
      }
      if found.value.Some? {
        return Ok(EnrichWithDetail(sony, found.value.value));
      }
    }
    assert answers[3..][1..] == [];
    if sony.monthly.Err? {
      return Err(Upstream(sony.monthly.error));
    }
    var monthly := FindId(sony.monthly.value, id);
    if monthly.Some? {
      return Ok(EnrichWithDetail(sony, monthly.value));
    }
    r := ByProductId(sony, id);
  }
}
