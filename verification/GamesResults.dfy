/**
  Results about the games service: no raw page is lost or read twice, and an outage is never
  a miss (crates/server/src/application/games.rs).
*/
module GamesResults {
  import opened Collections
  import opened Sequences
  import opened Games
  import opened IsoDate
  import opened IsoGrammar
  import opened Listing
  import opened ReleaseOrder
  import opened GamesService

  // ----- The conditions, spelled out -----

  /** A successful detail proves a PS5 game. */
  predicate IsProven(sony: Sony, id: string) {
    && sony.detail(id).Ok? && "PS5" in sony.detail(id).value.platforms
    && sony.detail(id).value.classification in [Some("FULL_GAME"), Some("GAME_BUNDLE")]
  }

  /** A successful detail disproves a PS5 game. */
  predicate IsDisproven(sony: Sony, id: string) {
    && sony.detail(id).Ok?
    && ("PS5" !in sony.detail(id).value.platforms
        || sony.detail(id).value.classification !in [Some("FULL_GAME"), Some("GAME_BUNDLE")])
  }

  /** The date of the product's own detail in its normal form, or the empty text. */
  function OwnDate(sony: Sony, id: string): string {
    if sony.detail(id).Ok? then Normalise(sony.detail(id).value.releaseDate) else ""
  }

  /** The date of a concept in a list: that of its first product in its normal form, or the empty text. */
  function GridDate(c: Concept): string {
    if c.products.Some? && |c.products.value| > 0 then Normalise(c.products.value[0].releaseDate) else ""
  }

  /** A concept goes by the id of its first product, else by its own id, else by the empty text. */
  predicate GoesBy(c: Concept, id: string) {
    if c.products.Some? && |c.products.value| > 0 && c.products.value[0].id.Some? then
      Some(id) == c.products.value[0].id
    else if c.id.Some? then Some(id) == c.id
    else id == ""
  }

  lemma GoesByIsItsId(c: Concept, id: string)
    ensures ConceptProductId(c) == id <==> GoesBy(c, id)
  {
  }

  // ----- One answer of the paging loop -----

  /** Every raw page before the last one read narrowed to nothing, and the last one is the answer. */
  lemma {:induction false} ReadUpToReads(read: Reader, offset: nat, size: nat, left: nat)
    requires left >= 1
    ensures var a := ReadUpTo(read, offset, size, left); var n := |a.offsets|;
            && 1 <= n <= left && a.offsets[0] == offset
            && (forall k :: 0 <= k < n - 1 ==>
                  && a.offsets[k + 1] == SaturatingAdd(a.offsets[k], size)
                  && read(a.offsets[k]).Ok? && read(a.offsets[k]).value == Narrowed([], false))
            && match read(a.offsets[n - 1])
               case Err(e) => a.result == Err(e)
               case Ok(page) =>
                 && (page.games == [] && !page.isLast ==> n == left)
                 && a.result == Ok(PageResult(page.games, |page.games|,
                                              if page.isLast then None
                                              else Some(Min(a.offsets[n - 1] + size, 0xFFFF_FFFF_FFFF_FFFF))))
    decreases left
  {
    var a := ReadUpTo(read, offset, size, left);
    if read(offset).Ok? {
      var page := read(offset).value;
      if !page.isLast && page.games == [] && left > 1 {
        ReadUpToReads(read, SaturatingAdd(offset, size), size, left - 1);
        var rest := ReadUpTo(read, SaturatingAdd(offset, size), size, left - 1);
        forall k | 0 <= k < |a.offsets| - 1
          ensures a.offsets[k + 1] == SaturatingAdd(a.offsets[k], size)
          ensures read(a.offsets[k]).Ok? && read(a.offsets[k]).value == Narrowed([], false)
        {
          assert a.offsets[k + 1] == rest.offsets[k];
          if k > 0 {
            assert a.offsets[k] == rest.offsets[k - 1];
          }
        }
      }
    }
  }

  // ----- A stable upstream -----

  /** The offset of a page: a multiple of the page size. */
  function PageStart(k: nat, size: nat): nat {
    if k == 0 then 0 else PageStart(k - 1, size) + size
  }

  lemma {:induction false} PageStartIsMultiple(k: nat, size: nat)
    ensures PageStart(k, size) == k * size
  {
    if k > 0 {
      PageStartIsMultiple(k - 1, size);
    }
  }

  lemma {:induction false} PageStartGrows(k: nat, n: nat, size: nat)
    requires k <= n
    ensures PageStart(k, size) <= PageStart(n, size)
    decreases n - k
  {
    if k < n {
      PageStartGrows(k, n - 1, size);
    }
  }

  /** The raw pages of a stable upstream, after narrowing, at the multiples of the page size. */
  ghost predicate Stable(read: Reader, size: nat, pages: seq<seq<Game>>) {
    && size >= 1 && |pages| >= 1 && PageStart(|pages|, size) <= USIZE_MAX
    && forall k :: 0 <= k < |pages| ==> read(PageStart(k, size)) == Ok(Narrowed(pages[k], k == |pages| - 1))
  }

  /** The page that an answer from page `k` on ends with. */
  function LastRead(pages: seq<seq<Game>>, k: nat, left: nat): (m: nat)
    requires k < |pages| && left >= 1
    ensures k <= m < |pages| && m < k + left
    ensures forall j :: k <= j < m ==> pages[j] == []
    decreases left
  {
    if pages[k] == [] && k < |pages| - 1 && left > 1 then LastRead(pages, k + 1, left - 1) else k
  }

  function OffsetsFrom(k: nat, m: nat, size: nat): seq<nat>
    requires k <= m
    decreases m - k
  {
    if k == m then [] else [PageStart(k, size)] + OffsetsFrom(k + 1, m, size)
  }

  lemma NextPageOffset(k: nat, n: nat, size: nat)
    requires k < n && PageStart(n, size) <= USIZE_MAX
    ensures SaturatingAdd(PageStart(k, size), size) == PageStart(k + 1, size)
  {
    PageStartGrows(k + 1, n, size);
  }

  /** The answer that reads the pages from `k` to `m` and gives the games of page `m`. */
  function AnswerEndingAt(pages: seq<seq<Game>>, k: nat, m: nat, size: nat): PageAnswer
    requires k <= m < |pages|
  {
    PageAnswer(Ok(PageResult(pages[m], |pages[m]|, if m == |pages| - 1 then None else Some(PageStart(m + 1, size)))),
               OffsetsFrom(k, m + 1, size))
  }

  lemma ReadsHere(read: Reader, size: nat, pages: seq<seq<Game>>, k: nat, left: nat)
    requires Stable(read, size, pages) && k < |pages| && left >= 1
    requires pages[k] != [] || k == |pages| - 1 || left == 1
    ensures ReadUpTo(read, PageStart(k, size), size, left) == AnswerEndingAt(pages, k, k, size)
  {
    NextPageOffset(k, |pages|, size);
    assert OffsetsFrom(k + 1, k + 1, size) == [];
    assert OffsetsFrom(k, k + 1, size) == [PageStart(k, size)];
  }

  lemma ReadsOn(read: Reader, size: nat, pages: seq<seq<Game>>, k: nat, left: nat)
    requires Stable(read, size, pages) && k < |pages| - 1 && pages[k] == [] && left > 1
    ensures var rest := ReadUpTo(read, PageStart(k + 1, size), size, left - 1);
            ReadUpTo(read, PageStart(k, size), size, left)
            == PageAnswer(rest.result, [PageStart(k, size)] + rest.offsets)
  {
    NextPageOffset(k, |pages|, size);
  }

  lemma {:induction false} AnswerOfStable(read: Reader, size: nat, pages: seq<seq<Game>>, k: nat, left: nat)
    requires Stable(read, size, pages) && k < |pages| && left >= 1
    ensures ReadUpTo(read, PageStart(k, size), size, left) == AnswerEndingAt(pages, k, LastRead(pages, k, left), size)
    decreases left
  {
    if pages[k] == [] && k < |pages| - 1 && left > 1 {
      AnswerOfStable(read, size, pages, k + 1, left - 1);
      ReadsOn(read, size, pages, k, left);
    } else {
      ReadsHere(read, size, pages, k, left);
    }
  }

  /** The answers of a client that requests `offset` and then follows each next offset to the end. */
  ghost predicate FollowsOffsets(read: Reader, size: nat, offset: nat, answers: seq<PageAnswer>)
    decreases |answers|
  {
    && answers != []
    && answers[0] == ReadUpTo(read, offset, size, RAW_PAGE_BOUND)
    && answers[0].result.Ok?
    && match answers[0].result.value.nextOffset
       case None => |answers| == 1
       case Some(next) => FollowsOffsets(read, size, next, answers[1..])
  }

  function AllOffsets(answers: seq<PageAnswer>): seq<nat> {
    if answers == [] then [] else answers[0].offsets + AllOffsets(answers[1..])
  }

  function AllGames(answers: seq<PageAnswer>): seq<Game> {
    if answers == [] then []
    else (if answers[0].result.Ok? then answers[0].result.value.games else []) + AllGames(answers[1..])
  }

  lemma {:induction false} OffsetsJoin(k: nat, m: nat, n: nat, size: nat)
    requires k <= m <= n
    ensures OffsetsFrom(k, m, size) + OffsetsFrom(m, n, size) == OffsetsFrom(k, n, size)
    decreases m - k
  {
    if k < m {
      OffsetsJoin(k + 1, m, n, size);
      assert OffsetsFrom(k, m, size) + OffsetsFrom(m, n, size)
          == [PageStart(k, size)] + (OffsetsFrom(k + 1, m, size) + OffsetsFrom(m, n, size));
    }
  }

  /** The offsets of the pages from `k` to `m` are the multiples of the page size. */
  lemma {:induction false} OffsetsAreMultiples(k: nat, m: nat, size: nat)
    requires k <= m
    ensures |OffsetsFrom(k, m, size)| == m - k
    ensures forall i :: 0 <= i < m - k ==> OffsetsFrom(k, m, size)[i] == (k + i) * size
    decreases m - k
  {
    if k < m {
      OffsetsAreMultiples(k + 1, m, size);
      PageStartIsMultiple(k, size);
      forall i | 0 < i < m - k
        ensures OffsetsFrom(k, m, size)[i] == (k + i) * size
      {
        assert OffsetsFrom(k, m, size)[i] == OffsetsFrom(k + 1, m, size)[i - 1];
        assert k + 1 + (i - 1) == k + i;
      }
    }
  }

  /** The games of the pages from `k` on. */
  function GamesFrom(pages: seq<seq<Game>>, k: nat): seq<Game>
    requires k <= |pages|
    decreases |pages| - k
  {
    if k == |pages| then [] else pages[k] + GamesFrom(pages, k + 1)
  }

  lemma {:induction false} GamesFromIsFlatten(pages: seq<seq<Game>>, k: nat)
    requires k <= |pages|
    ensures GamesFrom(pages, k) == Flatten(pages[k..])
    decreases |pages| - k
  {
    if k < |pages| {
      GamesFromIsFlatten(pages, k + 1);
      assert pages[k..][1..] == pages[k + 1..];
    }
  }

  lemma AllPagesAreFlatten(pages: seq<seq<Game>>)
    ensures GamesFrom(pages, 0) == Flatten(pages)
  {
    GamesFromIsFlatten(pages, 0);
    assert pages[0..] == pages;
  }

  lemma {:induction false} EmptyPagesJoin(pages: seq<seq<Game>>, k: nat, m: nat)
    requires k <= m < |pages| && forall j :: k <= j < m ==> pages[j] == []
    ensures GamesFrom(pages, k) == pages[m] + GamesFrom(pages, m + 1)
    decreases m - k
  {
    if k < m {
      EmptyPagesJoin(pages, k + 1, m);
    }
  }

  lemma JoinRest(pages: seq<seq<Game>>, k: nat, m: nat, size: nat, offsets: seq<nat>, games: seq<Game>)
    requires k <= m < |pages| && forall j :: k <= j < m ==> pages[j] == []
    requires offsets == OffsetsFrom(m + 1, |pages|, size) && games == GamesFrom(pages, m + 1)
    ensures OffsetsFrom(k, m + 1, size) + offsets == OffsetsFrom(k, |pages|, size)
    ensures pages[m] + games == GamesFrom(pages, k)
  {
    EmptyPagesJoin(pages, k, m);
    OffsetsJoin(k, m + 1, |pages|, size);
  }

  /** Each answer has the games of the last page that it reads, and the next one goes on behind it. */
  ghost predicate ReadsOnward(size: nat, pages: seq<seq<Game>>, k: nat, answers: seq<PageAnswer>)
    requires k < |pages|
    decreases |answers|
  {
    var m := LastRead(pages, k, RAW_PAGE_BOUND);
    && answers != [] && answers[0] == AnswerEndingAt(pages, k, m, size)
    && if m == |pages| - 1 then |answers| == 1 else ReadsOnward(size, pages, m + 1, answers[1..])
  }

  lemma {:induction false} FollowingReadsOnward(read: Reader, size: nat, pages: seq<seq<Game>>, k: nat,
                                                answers: seq<PageAnswer>)
    requires Stable(read, size, pages) && k < |pages|
    requires FollowsOffsets(read, size, PageStart(k, size), answers)
    ensures ReadsOnward(size, pages, k, answers)
    decreases |answers|
  {
    AnswerOfStable(read, size, pages, k, RAW_PAGE_BOUND);
    var m := LastRead(pages, k, RAW_PAGE_BOUND);
    if m < |pages| - 1 {
      FollowingReadsOnward(read, size, pages, m + 1, answers[1..]);
    }
  }

  lemma {:induction false} ReadingOnwardJoins(size: nat, pages: seq<seq<Game>>, k: nat, answers: seq<PageAnswer>)
    requires k < |pages| && ReadsOnward(size, pages, k, answers)
    ensures AllOffsets(answers) == OffsetsFrom(k, |pages|, size) && AllGames(answers) == GamesFrom(pages, k)
    decreases |answers|
  {
    var m := LastRead(pages, k, RAW_PAGE_BOUND);
    if m < |pages| - 1 {
      ReadingOnwardJoins(size, pages, m + 1, answers[1..]);
    } else {
      assert answers[1..] == [];
    }
    JoinRest(pages, k, m, size, AllOffsets(answers[1..]), AllGames(answers[1..]));
  }

  /**
    A client that follows the offsets of a stable upstream makes the server read every raw
    page exactly once and in order, and the joined answers are the games of all raw pages.
  */
  lemma EveryRawPageOnce(read: Reader, size: nat, pages: seq<seq<Game>>, answers: seq<PageAnswer>)
    requires Stable(read, size, pages) && FollowsOffsets(read, size, 0, answers)
    ensures |AllOffsets(answers)| == |pages| && forall k :: 0 <= k < |pages| ==> AllOffsets(answers)[k] == k * size
    ensures AllGames(answers) == Flatten(pages)
  {
    FollowingReadsOnward(read, size, pages, 0, answers);
    ReadingOnwardJoins(size, pages, 0, answers);
    AllPagesAreFlatten(pages);
    OffsetsAreMultiples(0, |pages|, size);
  }

  /** Each answer reads one to three raw pages, and all but the last of those narrowed to nothing. */
  lemma {:induction false} EachAnswerReadsUpToThree(read: Reader, size: nat, offset: nat, answers: seq<PageAnswer>,
                                                    i: nat)
    requires FollowsOffsets(read, size, offset, answers) && i < |answers|
    ensures 1 <= |answers[i].offsets| <= 3
    ensures forall k :: 0 <= k < |answers[i].offsets| - 1 ==> read(answers[i].offsets[k]) == Ok(Narrowed([], false))
    decreases |answers|
  {
    if i == 0 {
      ReadUpToReads(read, offset, size, RAW_PAGE_BOUND);
    } else {
      EachAnswerReadsUpToThree(read, size, answers[0].result.value.nextOffset.value, answers[1..], i - 1);
    }
  }

  /** Such a client reaches the end: its answers exist. */
  lemma {:induction false} ClientReachesTheEnd(read: Reader, size: nat, pages: seq<seq<Game>>, k: nat)
    returns (answers: seq<PageAnswer>)
    requires Stable(read, size, pages) && k < |pages|
    ensures FollowsOffsets(read, size, PageStart(k, size), answers)
    decreases |pages| - k
  {
    AnswerOfStable(read, size, pages, k, RAW_PAGE_BOUND);
    var m := LastRead(pages, k, RAW_PAGE_BOUND);
    var first := ReadUpTo(read, PageStart(k, size), size, RAW_PAGE_BOUND);
    if m < |pages| - 1 {
      var rest := ClientReachesTheEnd(read, size, pages, m + 1);
      answers := [first] + rest;
      assert answers[1..] == rest;
    } else {
      answers := [first];
    }
  }

  // ----- Search -----

  ghost predicate StableSearch(sony: Sony, size: nat, raw: seq<seq<Candidate>>) {
    && size >= 1 && |raw| >= 1 && PageStart(|raw|, size) <= USIZE_MAX
    && forall k :: 0 <= k < |raw| ==> sony.search(PageStart(k, size)) == Ok(SearchPage(raw[k], k == |raw| - 1))
  }

  function NarrowAll(sony: Sony, raw: seq<seq<Candidate>>): (pages: seq<seq<Game>>)
    ensures |pages| == |raw| && forall k :: 0 <= k < |raw| ==> pages[k] == NarrowSearch(sony, raw[k])
  {
    seq(|raw|, k requires 0 <= k < |raw| => NarrowSearch(sony, raw[k]))
  }

  lemma NarrowAppend(sony: Sony, a: seq<Candidate>, b: seq<Candidate>)
    ensures NarrowSearch(sony, a + b) == NarrowSearch(sony, a) + NarrowSearch(sony, b)
  {
    var f := ResolveCandidate(sony);
    MapConcat(a, b, f);
    SomesAppend(Map(a, f), Map(b, f));
  }

  lemma {:induction false} NarrowFlatten(sony: Sony, raw: seq<seq<Candidate>>)
    ensures Flatten(NarrowAll(sony, raw)) == NarrowSearch(sony, Flatten(raw))
  {
    if raw != [] {
      NarrowFlatten(sony, raw[1..]);
      assert NarrowAll(sony, raw)[1..] == NarrowAll(sony, raw[1..]);
      NarrowAppend(sony, raw[0], Flatten(raw[1..]));
    }
  }

  /** A candidate stays when Sony named it as a PS5 game, or when its own detail proves one. */
  function Keeps(sony: Sony): Candidate -> bool {
    (c: Candidate) => c.Known? || IsProven(sony, c.productId)
  }

  /** The card of a concept under a product id, with the date of the product's own detail. */
  predicate IsCardOfConcept(sony: Sony, c: Concept, id: string, g: Game) {
    g == Game(id, ProductCard, c.name, c.cover, OwnDate(sony, id), c.price, false, None)
  }

  predicate IsCardOfCandidate(sony: Sony, c: Candidate, g: Game) {
    IsCardOfConcept(sony, c.concept, c.productId, g)
  }

  lemma CandidateIsResolved(sony: Sony, c: Candidate)
    ensures ResolveCandidate(sony)(c).Some? <==> Keeps(sony)(c)
    ensures ResolveCandidate(sony)(c).Some? ==> IsCardOfCandidate(sony, c, ResolveCandidate(sony)(c).value)
  {
  }

  /** Each card is that of one kept candidate, in the order of the candidates. */
  ghost predicate AreCardsOf(sony: Sony, kept: seq<Candidate>, games: seq<Game>) {
    |games| == |kept| && forall i :: 0 <= i < |games| ==> IsCardOfCandidate(sony, kept[i], games[i])
  }

  lemma {:induction false} NarrowKeeps(sony: Sony, candidates: seq<Candidate>)
    ensures AreCardsOf(sony, Filter(candidates, Keeps(sony)), NarrowSearch(sony, candidates))
  {
    if candidates != [] {
      var c, rest := candidates[0], candidates[1..];
      NarrowKeeps(sony, rest);
      CandidateIsResolved(sony, c);
      FilterHead(candidates, Keeps(sony));
      NarrowHead(sony, candidates);
    }
  }

  lemma NarrowHead(sony: Sony, candidates: seq<Candidate>)
    requires candidates != []
    ensures var first := ResolveCandidate(sony)(candidates[0]);
            NarrowSearch(sony, candidates)
            == (if first.Some? then [first.value] else []) + NarrowSearch(sony, candidates[1..])
  {
    var found := Map(candidates, ResolveCandidate(sony));
    assert found[1..] == Map(candidates[1..], ResolveCandidate(sony));
  }

  /**
    A client that follows the offsets of a stable search makes the server read the offsets 0,
    size, 2 * size, and so on, once each. The joined answers are the cards of exactly the
    candidates that Sony named as PS5 games or that their own detail proves, in Sony's order.
  */
  lemma SearchLosesNothing(sony: Sony, size: nat, raw: seq<seq<Candidate>>, answers: seq<PageAnswer>)
    requires StableSearch(sony, size, raw) && FollowsOffsets(SearchReader(sony), size, 0, answers)
    ensures |AllOffsets(answers)| == |raw| && forall k :: 0 <= k < |raw| ==> AllOffsets(answers)[k] == k * size
    ensures AreCardsOf(sony, Filter(Flatten(raw), Keeps(sony)), AllGames(answers))
  {
    var pages := NarrowAll(sony, raw);
    SearchIsStable(sony, size, raw);
    EveryRawPageOnce(SearchReader(sony), size, pages, answers);
    NarrowFlatten(sony, raw);
    NarrowKeeps(sony, Flatten(raw));
  }

  /** The joined search answers have a card with an id exactly when a kept candidate names it. */
  lemma SearchedIdsAre(sony: Sony, size: nat, raw: seq<seq<Candidate>>, answers: seq<PageAnswer>, id: string)
    requires StableSearch(sony, size, raw) && FollowsOffsets(SearchReader(sony), size, 0, answers)
    ensures Any(AllGames(answers), HasId(id))
       <==> exists c :: c in Flatten(raw) && c.productId == id && (c.Known? || IsProven(sony, id))
  {
    SearchLosesNothing(sony, size, raw, answers);
    var kept, games := Filter(Flatten(raw), Keeps(sony)), AllGames(answers);
    FilterMembers(Flatten(raw), Keeps(sony));
    IdsOfCards(sony, kept, games, id);
    assert forall c :: c in kept && c.productId == id <==>
             c in Flatten(raw) && c.productId == id && (c.Known? || IsProven(sony, id));
  }

  lemma IdsOfCards(sony: Sony, kept: seq<Candidate>, games: seq<Game>, id: string)
    requires AreCardsOf(sony, kept, games)
    ensures Any(games, HasId(id)) <==> exists c :: c in kept && c.productId == id
  {
    if Any(games, HasId(id)) {
      var g :| g in games && HasId(id)(g);
      var i :| 0 <= i < |games| && games[i] == g;
      assert kept[i] in kept && kept[i].productId == id;
    }
    if c :| c in kept && c.productId == id {
      var i :| 0 <= i < |kept| && kept[i] == c;
      assert games[i] in games && HasId(id)(games[i]);
    }
  }

  lemma SearchIsStable(sony: Sony, size: nat, raw: seq<seq<Candidate>>)
    requires StableSearch(sony, size, raw)
    ensures Stable(SearchReader(sony), size, NarrowAll(sony, raw))
  {
    var pages := NarrowAll(sony, raw);
    forall k | 0 <= k < |pages|
      ensures SearchReader(sony)(PageStart(k, size)) == Ok(Narrowed(pages[k], k == |pages| - 1))
    {
      assert sony.search(PageStart(k, size)) == Ok(SearchPage(raw[k], k == |raw| - 1));
    }
  }

  // ----- BROWSE: an outage is never an empty genre -----

  /** The product details that the resolution of a concept reads. */
  function DetailsRead(sony: Sony, ids: seq<string>): seq<string> {
    if ids == [] then []
    else if IsDisproven(sony, ids[0]) then [ids[0]] + DetailsRead(sony, ids[1..])
    else [ids[0]]
  }

  /** The first `n` candidates are all disproven. */
  predicate AllDisproven(sony: Sony, ids: seq<string>, n: nat)
    requires n <= |ids|
  {
    forall k :: 0 <= k < n ==> IsDisproven(sony, ids[k])
  }

  /** The resolution of a concept by its candidates, each of which is proven, disproven, or fails. */
  ghost predicate ResolvesTo(sony: Sony, c: Concept, ids: seq<string>, r: Resolution) {
    match r
    case Card(g) => exists k: nat ::
        k < |ids| && AllDisproven(sony, ids, k) && IsProven(sony, ids[k]) && IsCardOfConcept(sony, c, ids[k], g)
    case Failed => exists k: nat :: k < |ids| && AllDisproven(sony, ids, k) && sony.detail(ids[k]).Err?
    case Dropped => AllDisproven(sony, ids, |ids|)
  }

  /** The first candidate that is not disproven decides: its proof gives the card, and its failure the failure. */
  lemma {:induction false} ResolutionIs(sony: Sony, c: Concept, ids: seq<string>)
    ensures ResolvesTo(sony, c, ids, ResolveFrom(sony, c, ids))
  {
    if ids != [] {
      var r := ResolveFrom(sony, c, ids);
      if IsDisproven(sony, ids[0]) {
        ResolutionIs(sony, c, ids[1..]);
        assert r == ResolveFrom(sony, c, ids[1..]);
        forall k: nat | k <= |ids[1..]| && AllDisproven(sony, ids[1..], k)
          ensures AllDisproven(sony, ids, k + 1)
        {
          assert forall i :: 0 < i < k + 1 ==> ids[i] == ids[1..][i - 1];
        }
        match r
        case Card(g) =>
          var k: nat :| k < |ids[1..]| && AllDisproven(sony, ids[1..], k) && IsProven(sony, ids[1..][k])
                     && IsCardOfConcept(sony, c, ids[1..][k], g);
          assert ids[k + 1] == ids[1..][k];
        case Failed =>
          var k: nat :| k < |ids[1..]| && AllDisproven(sony, ids[1..], k) && sony.detail(ids[1..][k]).Err?;
          assert ids[k + 1] == ids[1..][k];
        case Dropped =>
      } else {
        assert AllDisproven(sony, ids, 0);
      }
    }
  }

  lemma {:induction false} FailedExactlyOnFailure(sony: Sony, c: Concept, ids: seq<string>)
    ensures ResolveFrom(sony, c, ids) == Failed <==> exists id :: id in DetailsRead(sony, ids) && sony.detail(id).Err?
  {
    if ids != [] {
      FailedExactlyOnFailure(sony, c, ids[1..]);
    }
  }

  /** The games of each raw BROWSE page, narrowed page by page. */
  function NarrowBrowse(sony: Sony, raw: seq<seq<Concept>>): (pages: seq<seq<Game>>)
    ensures |pages| == |raw|
    ensures forall k :: 0 <= k < |raw| ==> pages[k] == BrowseGames(Map(raw[k], Resolve(sony)))
  {
    seq(|raw|, k requires 0 <= k < |raw| => BrowseGames(Map(raw[k], Resolve(sony))))
  }

  /** A stable upstream on which no raw page fails: a page with a failed lookup still has a game. */
  ghost predicate StableBrowse(sony: Sony, size: nat, raw: seq<seq<Concept>>) {
    && size >= 1 && |raw| >= 1 && PageStart(|raw|, size) <= USIZE_MAX
    && (forall k :: 0 <= k < |raw| ==> sony.browse(PageStart(k, size)) == Ok(BrowsePage(raw[k], k == |raw| - 1)))
    && (forall k :: 0 <= k < |raw| && NarrowBrowse(sony, raw)[k] == [] ==> Failed !in Map(raw[k], Resolve(sony)))
  }

  lemma BrowseIsStable(sony: Sony, size: nat, raw: seq<seq<Concept>>)
    requires StableBrowse(sony, size, raw)
    ensures Stable(BrowseReader(sony), size, NarrowBrowse(sony, raw))
  {
    var pages := NarrowBrowse(sony, raw);
    forall k | 0 <= k < |pages|
      ensures BrowseReader(sony)(PageStart(k, size)) == Ok(Narrowed(pages[k], k == |pages| - 1))
    {
      assert sony.browse(PageStart(k, size)) == Ok(BrowsePage(raw[k], k == |raw| - 1));
    }
  }

  /**
    A client that follows the BROWSE offsets makes the server read every raw page exactly once
    and in order, and the joined answers are the page-wise narrowing of all raw concepts.
  */
  lemma BrowseLosesNothing(sony: Sony, size: nat, raw: seq<seq<Concept>>, answers: seq<PageAnswer>)
    requires StableBrowse(sony, size, raw) && FollowsOffsets(BrowseReader(sony), size, 0, answers)
    ensures |AllOffsets(answers)| == |raw| && forall k :: 0 <= k < |raw| ==> AllOffsets(answers)[k] == k * size
    ensures AllGames(answers) == Flatten(NarrowBrowse(sony, raw))
  {
    BrowseIsStable(sony, size, raw);
    EveryRawPageOnce(BrowseReader(sony), size, NarrowBrowse(sony, raw), answers);
  }

  lemma {:induction false} DetailsReadAreCandidates(sony: Sony, ids: seq<string>, id: string)
    requires id in DetailsRead(sony, ids)
    ensures id in ids
  {
    if id != ids[0] {
      DetailsReadAreCandidates(sony, ids[1..], id);
    }
  }

  /** When the details of all candidates succeed, no raw page fails. */
  lemma DetailsMakeBrowseStable(sony: Sony, size: nat, raw: seq<seq<Concept>>)
    requires size >= 1 && |raw| >= 1 && PageStart(|raw|, size) <= USIZE_MAX
    requires forall k :: 0 <= k < |raw| ==> sony.browse(PageStart(k, size)) == Ok(BrowsePage(raw[k], k == |raw| - 1))
    requires forall k, c, id :: 0 <= k < |raw| && c in raw[k] && id in BrowseCandidateIds(c) ==> sony.detail(id).Ok?
    ensures StableBrowse(sony, size, raw)
  {
    forall k | 0 <= k < |raw|
      ensures Failed !in Map(raw[k], Resolve(sony))
    {
      forall i | 0 <= i < |raw[k]|
        ensures Map(raw[k], Resolve(sony))[i] != Failed
      {
        ResolvedWithoutFailure(sony, raw[k][i]);
      }
    }
  }

  lemma ResolvedWithoutFailure(sony: Sony, c: Concept)
    requires forall id :: id in BrowseCandidateIds(c) ==> sony.detail(id).Ok?
    ensures Resolve(sony)(c) != Failed
  {
    var ids := BrowseCandidateIds(c);
    FailedExactlyOnFailure(sony, c, ids);
    forall id | id in DetailsRead(sony, ids)
      ensures sony.detail(id).Ok?
    {
      DetailsReadAreCandidates(sony, ids, id);
    }
  }

  /** An empty successful BROWSE answer: no product lookup failed on any raw page that it read. */
  lemma EmptyBrowseIsNoOutage(sony: Sony, offset: nat, size: nat, id: string)
    requires var a := ReadUpTo(BrowseReader(sony), offset, size, RAW_PAGE_BOUND);
             a.result.Ok? && a.result.value.games == []
    ensures var a := ReadUpTo(BrowseReader(sony), offset, size, RAW_PAGE_BOUND);
            forall k, c :: 0 <= k < |a.offsets| ==>
              && sony.browse(a.offsets[k]).Ok?
              && (c in sony.browse(a.offsets[k]).value.concepts && id in DetailsRead(sony, BrowseCandidateIds(c)) ==>
                    sony.detail(id).Ok?)
  {
    var a := ReadUpTo(BrowseReader(sony), offset, size, RAW_PAGE_BOUND);
    forall k, c | 0 <= k < |a.offsets|
      ensures sony.browse(a.offsets[k]).Ok?
      ensures c in sony.browse(a.offsets[k]).value.concepts && id in DetailsRead(sony, BrowseCandidateIds(c)) ==>
                sony.detail(id).Ok?
    {
      EmptyAnswerReadsEmptyPages(BrowseReader(sony), offset, size, k);
      EmptyPageHasNoFailure(sony, a.offsets[k]);
      if c in sony.browse(a.offsets[k]).value.concepts {
        FailedExactlyOnFailure(sony, c, BrowseCandidateIds(c));
      }
    }
  }

  lemma EmptyAnswerReadsEmptyPages(read: Reader, offset: nat, size: nat, k: nat)
    requires var a := ReadUpTo(read, offset, size, RAW_PAGE_BOUND);
             a.result.Ok? && a.result.value.games == [] && k < |a.offsets|
    ensures var page := read(ReadUpTo(read, offset, size, RAW_PAGE_BOUND).offsets[k]);
            page.Ok? && page.value.games == []
  {
    ReadUpToReads(read, offset, size, RAW_PAGE_BOUND);
  }

  lemma EmptyPageHasNoFailure(sony: Sony, offset: nat)
    requires BrowsePageAt(sony, offset).Ok? && BrowsePageAt(sony, offset).value.games == []
    ensures sony.browse(offset).Ok?
    ensures forall c :: c in sony.browse(offset).value.concepts ==> Resolve(sony)(c) != Failed
  {
    var concepts := sony.browse(offset).value.concepts;
    var resolved := Map(concepts, Resolve(sony));
    assert Failed !in resolved;
    forall c | c in concepts
      ensures Resolve(sony)(c) != Failed
    {
      var i :| 0 <= i < |concepts| && concepts[i] == c;
      assert resolved[i] == Resolve(sony)(c);
    }
  }

  // ----- The game page: not found is a proof, never an outage -----

  lemma {:induction false} FindIdIs(games: seq<Game>, id: string)
    ensures FindId(games, id).None? <==> forall g :: g in games ==> g.id != id
    ensures FindId(games, id).Some? ==> FindId(games, id).value.id == id && FindId(games, id).value in games
  {
    if games != [] {
      FindIdIs(games[1..], id);
      assert games == [games[0]] + games[1..];
    }
  }

  /** A product card with the id is in the list exactly when a concept names the id and the id is a product id. */
  lemma CardsOfConcepts(concepts: seq<Concept>, id: string)
    ensures (exists g: Game :: g in MapConceptsToGames(concepts) && g.id == id)
       <==> IsProductId(id) && exists c :: c in concepts && GoesBy(c, id)
  {
    forall c: Concept
      ensures ConceptProductId(c) == id <==> GoesBy(c, id)
    {
      GoesByIsItsId(c, id);
    }
    var cards := Map(concepts, ProductCardOf());
    if exists g: Game :: g in Somes(cards) && g.id == id {
      var g: Game :| g in Somes(cards) && g.id == id;
      SomesMembers(cards, g);
      var i :| 0 <= i < |cards| && cards[i] == Some(g);
      assert concepts[i] in concepts;
    }
    if IsProductId(id) && exists c :: c in concepts && ConceptProductId(c) == id {
      var c :| c in concepts && ConceptProductId(c) == id;
      var i :| 0 <= i < |concepts| && concepts[i] == c;
      assert cards[i] == Some(ConceptToGame(c, id));
      SomesMembers(cards, ConceptToGame(c, id));
    }
  }

  predicate GridLacks(grid: Result<seq<Concept>, UpstreamError>, id: string) {
    grid.Ok? && !(IsProductId(id) && exists c :: c in grid.value && GoesBy(c, id))
  }

  predicate MonthlyLacks(monthly: Result<seq<Game>, UpstreamError>, id: string) {
    monthly.Ok? && forall g :: g in monthly.value ==> g.id != id
  }

  lemma FeatureLacks(grid: Result<seq<Concept>, UpstreamError>, id: string)
    ensures FindInFeature(grid, id) == Ok(None) <==> GridLacks(grid, id)
  {
    if grid.Ok? {
      var matching := Filter(grid.value, NamesId(id));
      FilterMembers(grid.value, NamesId(id));
      FindIdIs(MapConceptsToGames(matching), id);
      CardsOfConcepts(matching, id);
    }
  }

  lemma NewLacks(sony: Sony, id: string)
    ensures ListAnswers(sony, id)[0] == Ok(None) <==> GridLacks(sony.new_, id)
  {
    if sony.new_.Ok? {
      FindIdIs(MapConceptsToGames(sony.new_.value), id);
      CardsOfConcepts(sony.new_.value, id);
    }
  }

  lemma {:induction false} NotFoundFrom(sony: Sony, id: string, answers: seq<Result<Option<Game>, UpstreamError>>)
    ensures LookUpFrom(sony, id, answers) == Err(NotFound)
       <==> (forall k :: 0 <= k < |answers| ==> answers[k] == Ok(None)) && ByProductId(sony, id) == Err(NotFound)
  {
    if answers != [] {
      NotFoundFrom(sony, id, answers[1..]);
      assert forall k :: 0 <= k < |answers[1..]| ==> answers[1..][k] == answers[k + 1];
      if answers[0] == Ok(None) && forall k :: 0 <= k < |answers[1..]| ==> answers[1..][k] == Ok(None) {
        assert forall k :: 0 < k < |answers| ==> answers[k] == answers[1..][k - 1];
      }
    }
  }

  /**
    The game page answers not-found exactly when every list was read and lacks the id, and
    the id is no product id or a successful detail disproves a PS5 game.
  */
  lemma NotFoundIsAProof(sony: Sony, id: string)
    ensures LookUp(sony, id) == Err(NotFound)
       <==> && GridLacks(sony.new_, id) && GridLacks(sony.upcoming, id) && GridLacks(sony.discounted, id)
            && MonthlyLacks(sony.monthly, id)
            && (!IsProductId(id) || IsDisproven(sony, id))
  {
    var answers := ListAnswers(sony, id);
    NotFoundFrom(sony, id, answers);
    NewLacks(sony, id);
    FeatureLacks(sony.upcoming, id);
    FeatureLacks(sony.discounted, id);
    if sony.monthly.Ok? {
      FindIdIs(sony.monthly.value, id);
    }
    assert (forall k :: 0 <= k < |answers| ==> answers[k] == Ok(None))
      <==> answers[0] == Ok(None) && answers[1] == Ok(None) && answers[2] == Ok(None) && answers[3] == Ok(None);
  }

  /** What one list says about an id. */
  datatype Verdict = Has | Lacks | Fails

  ghost function GridVerdict(grid: Result<seq<Concept>, UpstreamError>, id: string): Verdict {
    if grid.Err? then Fails
    else if IsProductId(id) && exists c :: c in grid.value && GoesBy(c, id) then Has
    else Lacks
  }

  ghost function MonthlyVerdict(monthly: Result<seq<Game>, UpstreamError>, id: string): Verdict {
    if monthly.Err? then Fails else if exists g :: g in monthly.value && g.id == id then Has else Lacks
  }

  /** NEW, UPCOMING, DISCOUNTED, and MONTHLY, in the order in which they are read. */
  ghost function Verdicts(sony: Sony, id: string): seq<Verdict> {
    [GridVerdict(sony.new_, id), GridVerdict(sony.upcoming, id), GridVerdict(sony.discounted, id),
     MonthlyVerdict(sony.monthly, id)]
  }

  /** The first list that does not lack the id decides. */
  ghost predicate Decides(verdicts: seq<Verdict>, verdict: Verdict) {
    exists k :: 0 <= k < |verdicts| && verdicts[k] == verdict && forall j :: 0 <= j < k ==> verdicts[j] == Lacks
  }

  predicate AnswersLike(answer: Result<Option<Game>, UpstreamError>, id: string, verdict: Verdict) {
    match verdict
    case Fails => answer.Err?
    case Lacks => answer == Ok(None)
    case Has => answer.Ok? && answer.value.Some? && answer.value.value.id == id
  }

  lemma FeatureAnswersLike(grid: Result<seq<Concept>, UpstreamError>, id: string)
    ensures AnswersLike(FindInFeature(grid, id), id, GridVerdict(grid, id))
  {
    FeatureLacks(grid, id);
    if grid.Ok? {
      FindIdIs(MapConceptsToGames(Filter(grid.value, NamesId(id))), id);
    }
  }

  lemma NewAnswersLike(sony: Sony, id: string)
    ensures AnswersLike(ListAnswers(sony, id)[0], id, GridVerdict(sony.new_, id))
  {
    NewLacks(sony, id);
    if sony.new_.Ok? {
      FindIdIs(MapConceptsToGames(sony.new_.value), id);
    }
  }

  lemma MonthlyAnswersLike(sony: Sony, id: string)
    ensures AnswersLike(ListAnswers(sony, id)[3], id, MonthlyVerdict(sony.monthly, id))
  {
    if sony.monthly.Ok? {
      FindIdIs(sony.monthly.value, id);
    }
  }

  lemma ListsAnswerLike(sony: Sony, id: string)
    ensures var answers, verdicts := ListAnswers(sony, id), Verdicts(sony, id);
            forall k :: 0 <= k < 4 ==> AnswersLike(answers[k], id, verdicts[k])
  {
    NewAnswersLike(sony, id);
    FeatureAnswersLike(sony.upcoming, id);
    FeatureAnswersLike(sony.discounted, id);
    MonthlyAnswersLike(sony, id);
  }

  lemma {:induction false} FoundFrom(sony: Sony, id: string, answers: seq<Result<Option<Game>, UpstreamError>>,
                                     verdicts: seq<Verdict>)
    requires |answers| == |verdicts| && forall k :: 0 <= k < |answers| ==> AnswersLike(answers[k], id, verdicts[k])
    ensures var r := LookUpFrom(sony, id, answers);
            && (Decides(verdicts, Has) ==> r.Ok? && r.value.id == id)
            && (Decides(verdicts, Fails) ==> r.Err? && r.error.Upstream?)
            && ((forall k :: 0 <= k < |verdicts| ==> verdicts[k] == Lacks) ==> r == ByProductId(sony, id))
  {
    if answers != [] {
      assert forall k :: 0 <= k < |answers[1..]| ==>
               answers[1..][k] == answers[k + 1] && verdicts[1..][k] == verdicts[k + 1];
      FoundFrom(sony, id, answers[1..], verdicts[1..]);
      forall verdict | verdicts[0] == Lacks && Decides(verdicts, verdict) && verdict != Lacks
        ensures Decides(verdicts[1..], verdict)
      {
        var k :| 0 <= k < |verdicts| && verdicts[k] == verdict && forall j :: 0 <= j < k ==> verdicts[j] == Lacks;
        assert verdicts[1..][k - 1] == verdict;
      }
    }
  }

  /**
    The game page, in all cases. The first list that does not lack the id decides: with a card
    of the id, or with its failure. When all lists lack it, the page is found exactly when the
    product's own detail proves a PS5 game and names it.
  */
  lemma GamePageIs(sony: Sony, id: string)
    ensures var r, verdicts := LookUp(sony, id), Verdicts(sony, id);
            && (Decides(verdicts, Has) ==> r.Ok? && r.value.id == id)
            && (Decides(verdicts, Fails) ==> r.Err? && r.error.Upstream?)
            && ((forall k :: 0 <= k < 4 ==> verdicts[k] == Lacks) ==>
                  && (r.Ok? <==> IsProductId(id) && IsProven(sony, id) && sony.detail(id).value.name.Some?)
                  && (r.Ok? ==> r.value.id == id && Some(r.value.name) == sony.detail(id).value.name))
  {
    ListsAnswerLike(sony, id);
    FoundFrom(sony, id, ListAnswers(sony, id), Verdicts(sony, id));
  }

  lemma {:induction false} FoundDate(sony: Sony, id: string, answers: seq<Result<Option<Game>, UpstreamError>>)
    requires IsProductId(id) && sony.detail(id).Ok? && sony.detail(id).value.releaseDate.Some?
    requires forall k :: 0 <= k < |answers| && answers[k].Ok? && answers[k].value.Some? ==>
               answers[k].value.value.id == id
    ensures LookUpFrom(sony, id, answers).Ok? ==> LookUpFrom(sony, id, answers).value.date == OwnDate(sony, id)
  {
    if answers != [] {
      FoundDate(sony, id, answers[1..]);
    }
  }

  /** Wherever the page is found, a date of the product's own detail replaces the date of the list. */
  lemma GamePageHasTheOwnDate(sony: Sony, id: string)
    requires IsProductId(id) && sony.detail(id).Ok? && sony.detail(id).value.releaseDate.Some?
    ensures LookUp(sony, id).Ok? ==> LookUp(sony, id).value.date == OwnDate(sony, id)
  {
    ListsAnswerLike(sony, id);
    var answers, verdicts := ListAnswers(sony, id), Verdicts(sony, id);
    forall k | 0 <= k < |answers| && answers[k].Ok? && answers[k].value.Some?
      ensures answers[k].value.value.id == id
    {
      assert AnswersLike(answers[k], id, verdicts[k]);
    }
    FoundDate(sony, id, answers);
  }

  lemma {:induction false} FoundAt(sony: Sony, id: string, answers: seq<Result<Option<Game>, UpstreamError>>, k: nat)
    requires k < |answers| && answers[k].Ok? && answers[k].value.Some?
    requires forall j :: 0 <= j < k ==> answers[j] == Ok(None)
    ensures LookUpFrom(sony, id, answers) == Ok(EnrichWithDetail(sony, answers[k].value.value))
  {
    if k > 0 {
      FoundAt(sony, id, answers[1..], k - 1);
    }
  }

  ghost predicate IsGridDate(grid: Result<seq<Concept>, UpstreamError>, id: string, date: string) {
    grid.Ok? && exists c :: c in grid.value && GoesBy(c, id) && date == GridDate(c)
  }

  /** The date of a card with the id in one of the four lists. */
  ghost predicate IsListDate(sony: Sony, id: string, list: nat, date: string) {
    if list == 0 then IsGridDate(sony.new_, id, date)
    else if list == 1 then IsGridDate(sony.upcoming, id, date)
    else if list == 2 then IsGridDate(sony.discounted, id, date)
    else sony.monthly.Ok? && exists g :: g in sony.monthly.value && g.id == id && g.date == date
  }

  lemma CardDateIs(concepts: seq<Concept>, g: Game)
    requires g in MapConceptsToGames(concepts)
    ensures exists c :: c in concepts && GoesBy(c, g.id) && g.date == GridDate(c)
  {
    var cards := Map(concepts, ProductCardOf());
    SomesMembers(cards, g);
    var i :| 0 <= i < |cards| && cards[i] == Some(g);
    assert concepts[i] in concepts;
    GoesByIsItsId(concepts[i], g.id);
  }

  lemma FeatureDate(grid: Result<seq<Concept>, UpstreamError>, id: string)
    ensures var r := FindInFeature(grid, id); r.Ok? && r.value.Some? ==> IsGridDate(grid, id, r.value.value.date)
  {
    if grid.Ok? {
      var matching := Filter(grid.value, NamesId(id));
      FilterMembers(grid.value, NamesId(id));
      FindIdIs(MapConceptsToGames(matching), id);
      if FindId(MapConceptsToGames(matching), id).Some? {
        CardDateIs(matching, FindId(MapConceptsToGames(matching), id).value);
      }
    }
  }

  lemma NewDate(sony: Sony, id: string)
    ensures var r := ListAnswers(sony, id)[0]; r.Ok? && r.value.Some? ==> IsGridDate(sony.new_, id, r.value.value.date)
  {
    if sony.new_.Ok? {
      var cards := MapConceptsToGames(sony.new_.value);
      FindIdIs(cards, id);
      if FindId(cards, id).Some? {
        CardDateIs(sony.new_.value, FindId(cards, id).value);
      }
    }
  }

  lemma ListDateIs(sony: Sony, id: string, list: nat)
    requires list < 4 && ListAnswers(sony, id)[list].Ok? && ListAnswers(sony, id)[list].value.Some?
    ensures IsListDate(sony, id, list, ListAnswers(sony, id)[list].value.value.date)
  {
    NewDate(sony, id);
    FeatureDate(sony.upcoming, id);
    FeatureDate(sony.discounted, id);
    if sony.monthly.Ok? {
      FindIdIs(sony.monthly.value, id);
    }
  }

  /** Without a date in the product's own detail, the page keeps the date of the first list that has the id. */
  lemma GamePageKeepsTheListDate(sony: Sony, id: string, list: nat)
    requires list < 4 && Verdicts(sony, id)[list] == Has && forall j :: 0 <= j < list ==> Verdicts(sony, id)[j] == Lacks
    requires !(IsProductId(id) && sony.detail(id).Ok? && sony.detail(id).value.releaseDate.Some?)
    ensures LookUp(sony, id).Ok? && IsListDate(sony, id, list, LookUp(sony, id).value.date)
  {
    ListsAnswerLike(sony, id);
    var answers, verdicts := ListAnswers(sony, id), Verdicts(sony, id);
    forall j | 0 <= j < list
      ensures answers[j] == Ok(None)
    {
      assert AnswersLike(answers[j], id, verdicts[j]);
    }
    assert AnswersLike(answers[list], id, verdicts[list]);
    FoundAt(sony, id, answers, list);
    ListDateIs(sony, id, list);
  }

  // ----- BROWSE cards lead to a game page -----

  lemma {:induction false} ResolvedCard(sony: Sony, c: Concept, ids: seq<string>)
    ensures ResolveFrom(sony, c, ids).Card? ==>
              var g := ResolveFrom(sony, c, ids).game;
              g.id in ids && IsProven(sony, g.id)
  {
    if ids != [] {
      ResolvedCard(sony, c, ids[1..]);
      assert ids == [ids[0]] + ids[1..];
    }
  }

  lemma CandidateIdsAreProductIds(c: Concept)
    ensures |BrowseCandidateIds(c)| <= 3
    ensures forall id :: id in BrowseCandidateIds(c) ==> IsProductId(id)
  {
    var found := Map(c.products.GetOr([]), ValidProductId());
    var ids := FirstOccurrences(Somes(found), SameText());
    FilterMembers(ids, IsPs5Title());
    FilterMembers(ids, IsOtherTitle());
    forall id | id in BrowseCandidateIds(c)
      ensures IsProductId(id)
    {
      assert id in Filter(ids, IsPs5Title()) + Filter(ids, IsOtherTitle());
      assert id in ids;
      FirstOccurrencesMembers(Somes(found), SameText(), id);
      SomesMembers(found, id);
      var i :| 0 <= i < |found| && found[i] == Some(id);
    }
  }

  /** The valid product ids of a concept. */
  ghost predicate NamesProduct(c: Concept, id: string) {
    IsProductId(id) && exists p :: p in c.products.GetOr([]) && p.id == Some(id)
  }

  lemma ProductsOfConcept(c: Concept, id: string)
    ensures id in FirstOccurrences(Somes(Map(c.products.GetOr([]), ValidProductId())), SameText())
       <==> NamesProduct(c, id)
  {
    var products := c.products.GetOr([]);
    var found := Map(products, ValidProductId());
    FirstOccurrencesKeys(Somes(found), SameText(), id);
    KeyIsMember(Somes(found), id);
    KeyIsMember(FirstOccurrences(Somes(found), SameText()), id);
    SomesMembers(found, id);
    if Some(id) in found {
      var i :| 0 <= i < |found| && found[i] == Some(id);
      assert products[i] in products;
    }
    if NamesProduct(c, id) {
      var p :| p in products && p.id == Some(id);
      var i :| 0 <= i < |products| && products[i] == p;
      assert found[i] == Some(id);
    }
  }

  lemma KeyIsMember(s: seq<string>, id: string)
    ensures HasKey(s, SameText(), id) <==> id in s
  {
    if id in s {
      var i :| 0 <= i < |s| && s[i] == id;
      assert SameText()(s[i]) == id;
    }
  }

  /**
    The candidates are distinct, PS5 titles come first, and a valid product id of the concept
    is left out only for three others, which are all PS5 titles when the omitted one is.
  */
  lemma CandidatesArePreferred(c: Concept)
    ensures var r := BrowseCandidateIds(c);
            && (forall i, j :: 0 <= i < j < |r| ==> r[i] != r[j])
            && (forall i, j :: 0 <= i < j < |r| && IsPs5Title()(r[j]) ==> IsPs5Title()(r[i]))
            && (forall id :: NamesProduct(c, id) && id !in r ==>
                  |r| == 3
                  && (IsPs5Title()(id) ==> forall i :: 0 <= i < |r| ==> IsPs5Title()(r[i])))
  {
    var ids := FirstOccurrences(Somes(Map(c.products.GetOr([]), ValidProductId())), SameText());
    FirstOccurrencesDistinct(Somes(Map(c.products.GetOr([]), ValidProductId())), SameText());
    var ps5, other := Filter(ids, IsPs5Title()), Filter(ids, IsOtherTitle());
    FilterDistinct(ids, IsPs5Title());
    FilterDistinct(ids, IsOtherTitle());
    FilterMembers(ids, IsPs5Title());
    FilterMembers(ids, IsOtherTitle());
    PreferredOrder(ps5, other, BrowseCandidateIds(c));
    forall id | NamesProduct(c, id)
      ensures id in ps5 + other
      ensures IsPs5Title()(id) ==> id in ps5
    {
      ProductsOfConcept(c, id);
    }
  }

  predicate Distinct(s: seq<string>) {
    forall i, j :: 0 <= i < j < |s| ==> s[i] != s[j]
  }

  lemma {:induction false} FilterDistinct(s: seq<string>, p: string -> bool)
    requires forall i, j :: 0 <= i < j < |s| ==> SameText()(s[i]) != SameText()(s[j])
    ensures Distinct(Filter(s, p))
  {
    if s != [] {
      FilterDistinct(s[1..], p);
      FilterMembers(s[1..], p);
      FilterHead(s, p);
      forall x | x in s[1..]
        ensures x != s[0]
      {
        var i :| 0 <= i < |s[1..]| && s[1..][i] == x;
        assert SameText()(s[0]) != SameText()(s[i + 1]);
      }
    }
  }

  /** Of the preferred texts and the others, the first three. */
  lemma PreferredOrder(ps5: seq<string>, other: seq<string>, r: seq<string>)
    requires Distinct(ps5) && Distinct(other)
    requires (forall x :: x in ps5 ==> IsPs5Title()(x)) && (forall x :: x in other ==> !IsPs5Title()(x))
    requires r == if |ps5 + other| <= BROWSE_MAX_CANDIDATES then ps5 + other else (ps5 + other)[..BROWSE_MAX_CANDIDATES]
    ensures forall i, j :: 0 <= i < j < |r| ==> r[i] != r[j]
    ensures forall i, j :: 0 <= i < j < |r| && IsPs5Title()(r[j]) ==> IsPs5Title()(r[i])
    ensures forall id :: id in ps5 + other && id !in r ==>
              && |r| == BROWSE_MAX_CANDIDATES
              && (id in ps5 ==> forall i :: 0 <= i < |r| ==> IsPs5Title()(r[i]))
  {
    var all := ps5 + other;
    forall i | 0 <= i < |r|
      ensures r[i] == all[i] && (i < |ps5| <==> IsPs5Title()(r[i]))
    {
      assert if i < |ps5| then all[i] in ps5 else all[i] in other;
    }
    if |r| >= |ps5| {
      forall id | id in ps5
        ensures id in r
      {
        var k :| 0 <= k < |ps5| && ps5[k] == id;
        assert r[k] == id;
      }
    }
  }

  /** Every card of every successful BROWSE answer leads to a game page that is not a miss. */
  lemma BrowseCardIsNeverNotFound(sony: Sony, offset: nat, size: nat, g: Game)
    requires var a := ReadUpTo(BrowseReader(sony), offset, size, RAW_PAGE_BOUND);
             a.result.Ok? && g in a.result.value.games
    ensures LookUp(sony, g.id) != Err(NotFound)
  {
    var a := ReadUpTo(BrowseReader(sony), offset, size, RAW_PAGE_BOUND);
    ReadUpToReads(BrowseReader(sony), offset, size, RAW_PAGE_BOUND);
    var last := a.offsets[|a.offsets| - 1];
    assert BrowseReader(sony)(last) == BrowsePageAt(sony, last);
    PageCardIsProved(sony, last, g);
    NotFoundIsAProof(sony, g.id);
  }

  lemma PageCardIsProved(sony: Sony, offset: nat, g: Game)
    requires BrowsePageAt(sony, offset).Ok? && g in BrowsePageAt(sony, offset).value.games
    ensures IsProductId(g.id) && IsProven(sony, g.id)
  {
    var concepts := sony.browse(offset).value.concepts;
    var resolved := Map(concepts, Resolve(sony));
    var cards := Map(resolved, CardGame());
    FirstOccurrencesMembers(Somes(cards), GameKey, g);
    SomesMembers(cards, g);
    var i :| 0 <= i < |cards| && cards[i] == Some(g);
    assert resolved[i] == Card(g) && resolved[i] == Resolve(sony)(concepts[i]);
    ResolvedCard(sony, concepts[i], BrowseCandidateIds(concepts[i]));
    CandidateIdsAreProductIds(concepts[i]);
  }

  // ----- NEW and UPCOMING -----

  /** A NEW concept names the product id, and the product's own release date parses. */
  ghost predicate IsDatedRelease(sony: Sony, released: seq<Concept>, id: string) {
    && IsProductId(id) && (exists c :: c in released && GoesBy(c, id))
    && sony.detail(id).Ok? && InstantOf(sony.detail(id).value.releaseDate).Some?
  }

  /** An UPCOMING concept names the id, product or not. */
  ghost predicate IsAnnounced(upcoming: seq<Concept>, id: string) {
    id != "" && exists c :: c in upcoming && GoesBy(c, id)
  }

  function HasId(id: string): Game -> bool {
    (g: Game) => g.id == id
  }

  function MayHaveId(id: string): Option<Game> -> bool {
    (g: Option<Game>) => g.Some? && g.value.id == id
  }

  lemma WithProductDateIs(sony: Sony, g: Game)
    requires IsProductId(g.id)
    ensures var dated := WithProductDate(sony)(g);
            && dated == g.(date := OwnDate(sony, g.id))
            && (HasDate()(dated) <==>
                  sony.detail(g.id).Ok? && InstantOf(sony.detail(g.id).value.releaseDate).Some?)
  {
    NormaliseKeepsInstant(LenientDetail(sony, g.id).releaseDate);
  }

  lemma ProductCardsHaveProductIds(concepts: seq<Concept>, g: Game)
    requires g in MapConceptsToGames(concepts)
    ensures IsProductId(g.id)
  {
    CardsOfConcepts(concepts, g.id);
  }

  function IsDatedCard(sony: Sony, id: string): Game -> bool {
    (g: Game) => g.id == id && sony.detail(id).Ok? && InstantOf(sony.detail(id).value.releaseDate).Some?
  }

  function IsDatedWithId(id: string): Game -> bool {
    (g: Game) => g.id == id && HasDate()(g)
  }

  lemma ReleasedIds(sony: Sony, released: seq<Concept>, id: string)
    ensures Any(ReleasedGrid(sony, released), HasId(id)) <==> IsDatedRelease(sony, released, id)
  {
    var cards := MapConceptsToGames(released);
    forall g | g in cards
      ensures IsDatedWithId(id)(WithProductDate(sony)(g)) == IsDatedCard(sony, id)(g)
    {
      ProductCardsHaveProductIds(released, g);
      WithProductDateIs(sony, g);
    }
    AnyMap(cards, WithProductDate(sony), IsDatedWithId(id), IsDatedCard(sony, id));
    AnyFilter(Map(cards, WithProductDate(sony)), HasDate(), HasId(id), IsDatedWithId(id));
    CardsOfConcepts(released, id);
  }

  lemma AnyFilter(s: seq<Game>, keep: Game -> bool, p: Game -> bool, q: Game -> bool)
    requires forall g :: q(g) == (p(g) && keep(g))
    ensures Any(Filter(s, keep), p) <==> Any(s, q)
  {
    FilterMembers(s, keep);
  }

  function NamesAnyId(id: string): Concept -> bool {
    (c: Concept) => GoesBy(c, id) && id != ""
  }

  lemma UpcomingCardIs(c: Concept, id: string)
    ensures MayHaveId(id)(UpcomingCardOf()(c)) == NamesAnyId(id)(c)
    ensures UpcomingCardOf()(c).Some? && IsProductId(UpcomingCardOf()(c).value.id) ==>
              UpcomingCardOf()(c).value.idKind == ProductCard
  {
    GoesByIsItsId(c, id);
  }

  lemma UpcomingDateKeepsId(sony: Sony, g: Game)
    ensures UpcomingDate(sony)(g).id == g.id
  {
    assert WithProductDate(sony)(g).id == g.id;
  }

  lemma AnnouncedIds(sony: Sony, upcoming: seq<Concept>, id: string)
    ensures Any(UpcomingGrid(sony, upcoming), HasId(id)) <==> IsAnnounced(upcoming, id)
  {
    forall c | c in upcoming
      ensures MayHaveId(id)(UpcomingCardOf()(c)) == NamesAnyId(id)(c)
    {
      UpcomingCardIs(c, id);
    }
    AnyMap(upcoming, UpcomingCardOf(), MayHaveId(id), NamesAnyId(id));
    AnySomes(Map(upcoming, UpcomingCardOf()), HasId(id), MayHaveId(id));
    forall g: Game
      ensures HasId(id)(UpcomingDate(sony)(g)) == HasId(id)(g)
    {
      UpcomingDateKeepsId(sony, g);
    }
    AnyMap(MapUpcomingConceptsToGames(upcoming), UpcomingDate(sony), HasId(id), HasId(id));
    AnyAnnounced(upcoming, id);
  }

  lemma AnyAnnounced(upcoming: seq<Concept>, id: string)
    ensures Any(upcoming, NamesAnyId(id)) <==> IsAnnounced(upcoming, id)
  {
  }

  /**
    The merged list exists exactly when both grids were read. It holds each id at most once,
    and an id exactly when a NEW concept names it as a product whose own release date parses,
    or an UPCOMING concept names it. A released product without a product date is dropped.
  */
  lemma MergedIdsAre(sony: Sony, id: string)
    ensures MergedGames(sony).Ok? <==> sony.new_.Ok? && sony.upcoming.Ok?
    ensures MergedGames(sony).Ok? ==>
              var games := MergedGames(sony).value;
              && (forall i, j :: 0 <= i < j < |games| ==> games[i].id != games[j].id)
              && (Any(games, HasId(id))
                  <==> IsDatedRelease(sony, sony.new_.value, id) || IsAnnounced(sony.upcoming.value, id))
  {
    if MergedGames(sony).Ok? {
      var released, upcoming := sony.new_.value, sony.upcoming.value;
      var a, b := ReleasedGrid(sony, released), UpcomingGrid(sony, upcoming);
      FirstGamesOf(a + b);
      ReleasedIds(sony, released, id);
      AnnouncedIds(sony, upcoming, id);
      KeptIds(a, b, FirstOccurrences(a + b, GameKey), id);
    }
  }

  lemma FirstCardsStandFirst(a: seq<Game>, b: seq<Game>, i: nat, j: nat)
    requires var games := FirstOccurrences(a + b, GameKey); i < j < |games| && Any(a, HasId(games[j].id))
    ensures Any(a, HasId(FirstOccurrences(a + b, GameKey)[i].id))
  {
    var games := FirstOccurrences(a + b, GameKey);
    var places := FirstOccurrencesInOrder(a + b, GameKey);
    var g :| g in a && HasId(games[j].id)(g);
    var q :| 0 <= q < |a| && a[q] == g;
    assert places[j] in places && GameKey((a + b)[q]) == GameKey((a + b)[places[j]]);
    assert places[j] <= q && places[i] < places[j];
    assert games[i] == a[places[i]] && HasId(games[i].id)(games[i]);
  }

  /** The released products of the NEW grid stand before all other cards of the merged list. */
  lemma ReleasedStandFirst(sony: Sony, i: nat, j: nat)
    requires MergedGames(sony).Ok? && i < j < |MergedGames(sony).value|
    requires IsDatedRelease(sony, sony.new_.value, MergedGames(sony).value[j].id)
    ensures IsDatedRelease(sony, sony.new_.value, MergedGames(sony).value[i].id)
  {
    var a, b := ReleasedGrid(sony, sony.new_.value), UpcomingGrid(sony, sony.upcoming.value);
    ReleasedIds(sony, sony.new_.value, MergedGames(sony).value[j].id);
    ReleasedIds(sony, sony.new_.value, MergedGames(sony).value[i].id);
    FirstCardsStandFirst(a, b, i, j);
  }

  lemma KeptIds(a: seq<Game>, b: seq<Game>, games: seq<Game>, id: string)
    requires forall g :: g in a + b ==> exists h :: h in games && h.id == g.id
    requires forall g :: g in games ==> g in a + b
    ensures Any(games, HasId(id)) <==> Any(a, HasId(id)) || Any(b, HasId(id))
  {
    assert forall g :: g in a + b <==> g in a || g in b;
    forall g | g in a + b && g.id == id
      ensures Any(games, HasId(id))
    {
      var h :| h in games && h.id == g.id;
      assert HasId(id)(h);
    }
    assert forall g :: g in games ==> g in a || g in b;
  }

  lemma IsOfProduct(sony: Sony, g: Game)
    requires IsProductId(g.id) && g.idKind == ProductCard
    ensures UpcomingDate(sony)(g) == WithProductDate(sony)(g)
  {
  }

  /** The card of a product comes from a concept that goes by its id, with the product's own date. */
  ghost predicate IsProductCardOf(sony: Sony, concepts: seq<Concept>, g: Game) {
    exists c :: c in concepts && GoesBy(c, g.id) && IsCardOfConcept(sony, c, g.id, g)
  }

  lemma ReleasedCards(sony: Sony, released: seq<Concept>, g: Game)
    requires g in ReleasedGrid(sony, released)
    ensures IsProductCardOf(sony, released, g)
  {
    var cards, found := MapConceptsToGames(released), Map(released, ProductCardOf());
    var dated := Map(cards, WithProductDate(sony));
    FilterMembers(dated, HasDate());
    var i :| 0 <= i < |dated| && dated[i] == g;
    SomesMembers(found, cards[i]);
    var k :| 0 <= k < |found| && found[k] == Some(cards[i]);
    GoesByIsItsId(released[k], g.id);
    WithProductDateIs(sony, cards[i]);
    assert released[k] in released;
  }

  lemma UpcomingCards(sony: Sony, upcoming: seq<Concept>, g: Game)
    requires g in UpcomingGrid(sony, upcoming) && IsProductId(g.id)
    ensures IsProductCardOf(sony, upcoming, g)
  {
    var found := Map(upcoming, UpcomingCardOf());
    var cards := Somes(found);
    var grid := Map(cards, UpcomingDate(sony));
    var i :| 0 <= i < |grid| && grid[i] == g;
    SomesMembers(found, cards[i]);
    var k :| 0 <= k < |found| && found[k] == Some(cards[i]);
    UpcomingDateKeepsId(sony, cards[i]);
    GoesByIsItsId(upcoming[k], g.id);
    IsOfProduct(sony, cards[i]);
    WithProductDateIs(sony, cards[i]);
    assert upcoming[k] in upcoming;
  }

  /** The card of every product in the merged list has the product's own date, in its normal form. */
  lemma MergedProductsHaveTheirOwnDate(sony: Sony, g: Game)
    requires MergedGames(sony).Ok? && g in MergedGames(sony).value && IsProductId(g.id)
    ensures IsProductCardOf(sony, sony.new_.value, g) || IsProductCardOf(sony, sony.upcoming.value, g)
    ensures g.date == OwnDate(sony, g.id)
  {
    var a, b := ReleasedGrid(sony, sony.new_.value), UpcomingGrid(sony, sony.upcoming.value);
    FirstGamesOf(a + b);
    assert g in a || g in b;
    if g in a {
      ReleasedCards(sony, sony.new_.value, g);
    } else {
      UpcomingCards(sony, sony.upcoming.value, g);
    }
  }

  lemma ReleasedAreProducts(sony: Sony, released: seq<Concept>, g: Game)
    requires g in ReleasedGrid(sony, released)
    ensures IsProductId(g.id)
  {
    var cards := MapConceptsToGames(released);
    var dated := Map(cards, WithProductDate(sony));
    FilterMembers(dated, HasDate());
    var i :| 0 <= i < |dated| && dated[i] == g;
    ProductCardsHaveProductIds(released, cards[i]);
  }

  /** The card of a concept that is no product: its date is that of its first product in the grid. */
  ghost predicate IsAnnouncement(c: Concept, g: Game) {
    GoesBy(c, g.id) && g == Game(g.id, ConceptCard, c.name, c.cover, GridDate(c), c.price, false, None)
  }

  lemma AnnouncementIs(sony: Sony, c: Concept, card: Game)
    requires UpcomingCardOf()(c) == Some(card) && !IsProductId(card.id)
    ensures UpcomingDate(sony)(card) == card && IsAnnouncement(c, card) && card.id != ""
  {
    GoesByIsItsId(c, card.id);
  }

  lemma FirstInSecond(a: seq<Game>, b: seq<Game>, g: Game) returns (p: nat)
    requires g in FirstOccurrences(a + b, GameKey) && g !in a
    ensures p < |b| && b[p] == g && forall q :: 0 <= q < p ==> b[q].id != g.id
  {
    FirstOccurrencesMembers(a + b, GameKey, g);
    var i :| 0 <= i < |a + b| && (a + b)[i] == g && !HasKey((a + b)[..i], GameKey, GameKey(g));
    assert forall n :: 0 <= n < |a| ==> (a + b)[n] in a;
    p := i - |a|;
    forall q | 0 <= q < p
      ensures b[q].id != g.id
    {
      assert GameKey((a + b)[..i][|a| + q]) == b[q].id;
    }
  }

  /** A card of the UPCOMING grid whose id is no product id, and that is the first with its id. */
  lemma FirstAnnouncementIs(sony: Sony, upcoming: seq<Concept>, p: nat) returns (k: nat)
    requires var grid := UpcomingGrid(sony, upcoming);
             p < |grid| && !IsProductId(grid[p].id) && forall q :: 0 <= q < p ==> grid[q].id != grid[p].id
    ensures k < |upcoming| && IsAnnouncement(upcoming[k], UpcomingGrid(sony, upcoming)[p])
    ensures forall j :: 0 <= j < k ==> !GoesBy(upcoming[j], UpcomingGrid(sony, upcoming)[p].id)
  {
    var grid, cards := UpcomingGrid(sony, upcoming), MapUpcomingConceptsToGames(upcoming);
    forall q | 0 <= q <= p
      ensures grid[q].id == cards[q].id
    {
      UpcomingDateKeepsId(sony, cards[q]);
    }
    k := SomesPlace(Map(upcoming, UpcomingCardOf()), p);
    AnnouncementIs(sony, upcoming[k], cards[p]);
    forall j | 0 <= j < k
      ensures !GoesBy(upcoming[j], cards[p].id)
    {
      UpcomingCardIs(upcoming[j], cards[p].id);
      assert UpcomingCardOf()(upcoming[j]).Some? ==> UpcomingCardOf()(upcoming[j]).value in cards[..p];
    }
  }

  /**
    Every other card of the merged list is the card of the first UPCOMING concept that goes by
    its id, with the date of the grid.
  */
  lemma MergedAnnouncementsAre(sony: Sony, g: Game) returns (k: nat)
    requires MergedGames(sony).Ok? && g in MergedGames(sony).value && !IsProductId(g.id)
    ensures k < |sony.upcoming.value| && IsAnnouncement(sony.upcoming.value[k], g)
    ensures forall j :: 0 <= j < k ==> !GoesBy(sony.upcoming.value[j], g.id)
  {
    var a, b := ReleasedGrid(sony, sony.new_.value), UpcomingGrid(sony, sony.upcoming.value);
    assert g !in a by {
      if g in a {
        ReleasedAreProducts(sony, sony.new_.value, g);
      }
    }
    var p := FirstInSecond(a, b, g);
    k := FirstAnnouncementIs(sony, sony.upcoming.value, p);
  }

  lemma FirstGamesOf(grids: seq<Game>)
    ensures var games := FirstOccurrences(grids, GameKey);
            && (forall i, j :: 0 <= i < j < |games| ==> games[i].id != games[j].id)
            && (forall g :: g in grids ==> exists h :: h in games && h.id == g.id)
            && (forall g :: g in games ==> g in grids)
  {
    var games := FirstOccurrences(grids, GameKey);
    forall i, j | 0 <= i < j < |games|
      ensures games[i].id != games[j].id
    {
      FirstOccurrencesDistinct(grids, GameKey);
      assert GameKey(games[i]) != GameKey(games[j]);
    }
    forall g | g in grids
      ensures exists h :: h in games && h.id == g.id
    {
      KeptForEachId(grids, g);
    }
    forall g | g in games
      ensures g in grids
    {
      FirstOccurrencesMembers(grids, GameKey, g);
    }
  }

  lemma KeptForEachId(grids: seq<Game>, g: Game)
    requires g in grids
    ensures exists h :: h in FirstOccurrences(grids, GameKey) && h.id == g.id
  {
    var games := FirstOccurrences(grids, GameKey);
    var i :| 0 <= i < |grids| && grids[i] == g;
    FirstOccurrencesKeys(grids, GameKey, g.id);
    assert GameKey(grids[i]) == g.id;
    var j :| 0 <= j < |games| && GameKey(games[j]) == g.id;
    assert games[j] in games;
  }

  /**
    From the two grids to the screen: with both grids read, each viewer sees the merged list
    split at the own next local day, each game of it in exactly one of the two views.
  */
  lemma ViewersSeeTheMergedList(sony: Sony, now: int, clientNow: int, boundary: int, size: nat)
    requires size >= 1 && MergedGames(sony).Ok? && |MergedGames(sony).value| <= USIZE_MAX
    requires now - CLIENT_CLOCK_MARGIN_MS <= clientNow <= now + CLIENT_CLOCK_MARGIN_MS
    requires clientNow < boundary <= clientNow + MAX_LOCAL_DAY_MS
    ensures var games := MergedGames(sony).value;
            var new_ := ClientView(New, games, now, size, boundary);
            var upcoming := ClientView(Upcoming, games, now, size, boundary);
            && new_ == DirectView(New, games, boundary) && upcoming == DirectView(Upcoming, games, boundary)
            && multiset(new_) + multiset(upcoming) == multiset(games)
            && forall g :: g in games ==> multiset(games)[g] == 1
  {
    var games := MergedGames(sony).value;
    ClientSeesTheDirectSplit(games, now, clientNow, boundary, size);
    MergedIdsAre(sony, "");
    forall g | g in games
      ensures multiset(games)[g] == 1
    {
      OnceInMultiset(games, g);
    }
  }

  lemma OnceInMultiset(games: seq<Game>, g: Game)
    requires g in games && forall i, j :: 0 <= i < j < |games| ==> games[i].id != games[j].id
    ensures multiset(games)[g] == 1
  {
    var i :| 0 <= i < |games| && games[i] == g;
    var front, back := games[..i], games[i + 1..];
    assert games == front + [g] + back;
    assert g !in front && g !in back;
    assert multiset(games) == multiset(front) + multiset{g} + multiset(back);
  }
}
