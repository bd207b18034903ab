# Verification of the PS5 store browser

The repository is a browser for the PlayStation 5 store: a Rust service that reads Sony's lists, search, and account
pages, and a web client that sorts, splits, and prefetches them. This project models the parts of both that hold an
argument, and proves that argument.

| module | what it models |
|---|---|
| `Calendar`, `Digits`, `Texts` | the proleptic Gregorian calendar, decimal digits, and white space, from their definitions |
| `IsoDate`, `IsoGrammar` | the date cursor and printer of `js.rs`, and the grammar of the accepted texts |
| `Sequences`, `Sorting`, `KeySort` | filtering, first occurrences, and the stable sort that the libraries promise |
| `Games`, `Listing` | game cards, the date sort, the windows, paging, the merge, and the client's day split |
| `ReleaseOrder` | what NEW and UPCOMING show, and in which order, stated over the dates of the games alone |
| `MovingWindow` | the same list read page by page while the window moves with the server time |
| `GamesService`, `GamesResults`, `BrowsePages` | the paging loops, the BROWSE lookups, and the game page of `games.rs` |
| `Cache`, `CacheRuns`, `CacheLife`, `CacheLru` | the shared-lookup cache: its locked sections, its runs, the life of its entries, and its least-recently-used list |
| `InFlight` | one shared computation per key while it runs |
| `Scheduler`, `Wishlist` | bounded concurrent lookups in virtual time, and the wishlist deadlines on top |
| `Titles`, `Retry`, `Numbers`, `Prices`, `Collation` | the small parsers, comparators, and the retry loop |
| `Prefetch` | the tab prefetch of the client as interleaved loops |

How to read it:

- Code that changes state step by step is a class or a method with a loop (`Cursor`, `Store`, `PendingGuard`, `Runs`, the
  paging loops, the pool). Each method is proved equal to a function, and the lemmas are about that function.
- Concurrency is a transition system. An event is a locked section or one resumption of a task; a run is any sequence of
  events, so each theorem about runs holds for every interleaving.
- A library sort is the unique stable sort (`Sorting.StableSortIsUnique`), not an algorithm.
- The upstream is a value of type `Sony`, or an arbitrary step input. Clocks are integers in milliseconds.
- The calendar of the `jiff` crate is not part of this model. `Calendar` defines day numbers from the calendar rules, and
  the timestamp range is -377705023201000 to 253402207200999 milliseconds.

Results that a reader would not expect from the documentation:

- The documented date grammar is wider than the code. A bare year or a year and month takes no western offset: the dash
  starts the next date field, so `2024-03:00` is rejected (`YearWithWesternOffset`). `DocumentedTextIsRead` gives the
  exact condition, which is the missing day and time.
- A failure does not stop the prefetch for good: `AStartAfterAHalt` is a run in which a loop of an overlapping run starts
  one more request. `HaltIsFinal` gives the exact condition: no loop waits behind the check at its top.
- A client that reads UPCOMING while the server's window moves can lose a card that it should show
  (`AnUpcomingCardIsSkipped`). `MovingWindowIsExact` gives the exact condition: no game crosses the edge of the window
  before the last request.
- The 12 hours of clock margin and the 25 hours of a local day are exact: each view is right for every list if and only if
  the boundary lies within the margin (`NewMarginIsExact`, `UpcomingMarginIsExact`).

`dafny verify dfyconfig.toml` checks the whole project.

## Model

| member | source | states |
|---|---|---|
| `Calendar.CivilOf` | crates/domain/src/js.rs:89-106 | every day number has a valid calendar date with that number |
| `Calendar.EpochDaysInjective` | crates/domain/src/js.rs:89-106 | two calendar dates with one day number are the same date |
| `Calendar.CivilOfEpochDays` | crates/domain/src/js.rs:114-117 | the calendar date of a date's day number is that date |
| `Calendar.EpochDaysClosed` | crates/domain/src/js.rs:89-106 | the day number of every date in closed form, with the year starting in March |
| `Calendar.YearBounds` | crates/domain/src/js.rs:33-35 | a date is before year y exactly when its day number is below that of January 1 of y |
| `IsoDate.Cursor.Digits` | crates/domain/src/js.rs:179-187 | exactly `count` digits, with their value, and the cursor behind them; fails exactly when they are not there |
| `IsoDate.Cursor.Year` | crates/domain/src/js.rs:190-203 | four digits, or a sign and six; -000000 fails |
| `IsoDate.Cursor.FractionMs` | crates/domain/src/js.rs:207-223 | consumes the whole digit run and counts its first three digits as milliseconds |
| `IsoDate.Cursor.Offset` | crates/domain/src/js.rs:227-244 | the offset in seconds east, none as 0, hours to 23 and minutes to 59 |
| `IsoDate.Cursor.Time` | crates/domain/src/js.rs:68-79 | the optional time after `T`, `t`, or a space |
| `IsoDate.Cursor.EatAny` | crates/domain/src/js.rs:160-168 | advances by one exactly when the next character is an option |
| `IsoDate.ParseDateMs` | crates/domain/src/js.rs:50-109 | the cursor parser computes the function that the grammar theorems are about, on every text |
| `IsoGrammar.ParserIsTheGrammar` | crates/domain/src/js.rs:24-31 | a text is parsed exactly when it is a text of the grammar whose instant is in range, and the result is the arithmetic instant |
| `IsoGrammar.FieldsMsIsArithmetic` | crates/domain/src/js.rs:89-108 | day rollover, 24:00, offsets, and every overflow check together are first of month plus day minus one plus time minus offset, failing exactly outside the timestamp range |
| `IsoGrammar.FractionTruncates` | crates/domain/src/js.rs:205-223 | the fraction is truncated to milliseconds, never rounded |
| `IsoGrammar.DocumentedTextIsRead` | crates/domain/src/js.rs:24-35 | a text of the documented form is read if and only if it takes its offset and its instant is in range |
| `IsoGrammar.WesternOffsetAfterShortDateIsRejected` | crates/domain/src/js.rs:58-63 | a western offset after a bare year or month always rejects the text |
| `IsoGrammar.YearWithWesternOffset` | crates/domain/src/js.rs:29 | the input 2024-03:00 has the documented form and is rejected |
| `IsoGrammar.PrintThenParse` | crates/domain/src/js.rs:111-134 | every instant of the range, negative years and leap years included, parses back from its printed form |
| `IsoGrammar.PrintedForm` | crates/domain/src/js.rs:111-134 | the printed text has the form YYYY-MM-DDTHH:MM:SS.sssZ, with a sign and six digits before year 0 |
| `IsoGrammar.NormaliseKeepsInstant` | crates/domain/src/mapper.rs:29-43 | the normalised date parses to the instant of the original, and is the empty text exactly when there is none, for every text |
| `IsoGrammar.NormalFormIsTheInstant` | crates/domain/src/mapper.rs:29-43 | two values have one normal form exactly when they have one instant: printing is injective |
| `IsoGrammar.NormaliseTwice` | crates/domain/src/mapper.rs:29-43 | normalising twice equals normalising once |
| `IsoDate.UtcFullYearIs` | crates/domain/src/js.rs:136-143 | the year of an instant is the one whose January 1 is the last at or before it |
| `Sorting.FilterSort` | crates/domain/src/listing.rs:29-43 | filtering commutes with the stable sort for every total preorder |
| `Sorting.StableSortIsUnique` | crates/domain/src/listing.rs:29-43 | a sorted, stable rearrangement is unique, so any library sort gives this result |
| `Sequences.FirstOccurrencesInOrder` | crates/domain/src/listing.rs:97-107 | keeping the first element of each key keeps the input order: the kept places increase, and are exactly those whose key stands at no earlier place |
| `KeySort.KeyOrderIsTotal` | crates/domain/src/listing.rs:34-40 | the comparator is a total preorder, and swapping its arguments reverses its answer |
| `KeySort.UnkeyedSortLast` | crates/domain/src/listing.rs:29-43 | in both directions the result is the sorted elements with a key, then those without in input order |
| `KeySort.SortByKeyIs` | crates/domain/src/listing.rs:29-43 | the sort is a stable permutation in key order |
| `Listing.MergeReleaseGrids` | crates/domain/src/listing.rs:95-107 | the loop with a seen set keeps exactly the first game of each id, released grid first |
| `Listing.PagesJoin` | crates/domain/src/listing.rs:45-57 | following the next offsets joins to the rest of the list, for every page size from 1 and every offset |
| `Listing.SplitOfServerList` | web/src/modules/releaseDay.ts:13-30 | splitting a windowed and sorted server list is sorting the direct split of the whole list |
| `Listing.ClientSeesTheDirectSplit` | crates/domain/src/listing.rs:59-93 | for every clock within 12 hours and every next midnight within 25, both views equal the direct split of the merged list, and together they hold each game once |
| `ReleaseOrder.ServerListIs` | crates/domain/src/listing.rs:78-93 | NEW holds exactly the games dated before 37 hours after the server time, newest first, and UPCOMING the others from 12 hours before it, soonest first with undated games last; games of one instant keep the merged order |
| `ReleaseOrder.ClientViewIs` | web/src/modules/releaseDay.ts:13-30 | what the viewer sees is the same kind of list, cut at the own next midnight |
| `ReleaseOrder.ReleaseListIsUnique` | crates/domain/src/listing.rs:29-43 | a view, its games, and its edge have one such list |
| `Listing.NewMarginIsExact` | crates/domain/src/listing.rs:78-83 | NEW is right for every list if and only if the boundary is at most 37 hours after the server time |
| `Listing.UpcomingMarginIsExact` | crates/domain/src/listing.rs:88-93 | UPCOMING is right for every list if and only if the boundary is at least the server time minus 12 hours |
| `Listing.NormalisingMovesNoGame` | crates/domain/src/mapper.rs:32-35 | windows, merge, sort, and the client's view each commute with normalising every date |
| `MovingWindow.MovingWindowIsExact` | crates/domain/src/listing.rs:45-93 | with an own server time for each request, the joined pages are the list of the first request for every page size if and only if no game crosses the edge of the window until the last single-game page |
| `MovingWindow.StillWindowShowsTheDirectSplit` | web/src/components/Games.tsx:63-67 | under that condition each view is the direct split of the merged list |
| `MovingWindow.AnUpcomingCardIsSkipped` | web/src/components/Games.tsx:63-67 | a run of two requests one millisecond apart that loses a card of UPCOMING |
| `GamesService.ReleaseGames` | crates/server/src/application/games.rs:359-391 | the merged list of both grids with product dates; a failure of either grid fails it, with the failure that arrives first |
| `GamesService.ReleaseListing` | crates/server/src/application/games.rs:395-407 | a page exactly when both grids are read, else the failure that arrives first: the games, at the places from the offset on, of the one list with the contents and the order of `ReleaseOrder.ServerListIs`, the size of the list, and a next offset exactly when games remain |
| `GamesService.SearchGames` | crates/server/src/application/games.rs:481-516 | the search loop reads and answers like the bounded reading that the paging theorems are about |
| `GamesService.ResolveBrowseConcept` | crates/server/src/application/games.rs:673-692 | the first candidate that a detail proves becomes the card; a failed lookup before that fails the concept |
| `GamesService.ResolvePage` | crates/server/src/application/games.rs:705-722 | the games of one raw page by first id, and whether a lookup failed |
| `GamesService.ReadBrowsePage` | crates/server/src/application/games.rs:699-750 | the BROWSE loop reads and answers like the bounded reading |
| `GamesService.GameById` | crates/server/src/application/games.rs:636-654 | NEW, UPCOMING, DISCOUNTED, MONTHLY, then the product, each failure propagated |
| `Games.ProductIdIs` | crates/domain/src/product_id.rs:8-40 | a product id, place by place |
| `GamesResults.ReadUpToReads` | crates/server/src/application/games.rs:481-516 | the raw pages read are consecutive, all before the last narrowed to nothing, the answer has the games, the count, the saturated next offset, or the failure of the last, and an empty answer with more to come used the whole bound |
| `GamesResults.EveryRawPageOnce` | crates/server/src/application/games.rs:478-516 | a client that follows the offsets makes the server read every raw page exactly once and in order, and joins all their games |
| `GamesResults.EachAnswerReadsUpToThree` | crates/server/src/application/games.rs:478-516 | each answer reads one to three raw pages, all but the last narrowed to nothing |
| `GamesResults.ClientReachesTheEnd` | crates/server/src/application/games.rs:478-516 | on a stable upstream such a client always reaches the last page |
| `GamesResults.SearchLosesNothing` | crates/server/src/application/games.rs:481-516 | the offsets read are 0, size, 2 * size, and so on, once each, and the joined answers are one card for each kept raw candidate in order, with its id, its name, and the date of its own detail; a known product is kept, and an unverified one exactly when a successful detail says PS5 and full game or bundle |
| `GamesResults.SearchedIdsAre` | crates/server/src/application/games.rs:446-476 | the joined answers hold an id exactly when a candidate names it as known, or as unverified with such a detail |
| `GamesResults.BrowseLosesNothing` | crates/server/src/application/games.rs:694-750 | BROWSE reads the same offsets once each, and the joined answers are the page-wise narrowing of all raw concepts |
| `GamesResults.DetailsMakeBrowseStable` | crates/server/src/application/games.rs:694-727 | when the details of all candidates succeed, no raw BROWSE page fails |
| `BrowsePages.PageFailsExactly` | crates/server/src/application/games.rs:705-727 | a raw BROWSE page fails with its request, or exactly when a lookup that decides one of its concepts failed and none of its concepts is shown |
| `BrowsePages.PageGamesInOrder` | crates/server/src/application/games.rs:699-722 | its games are in concept order the cards of the concepts that are shown under an id of no earlier concept, each with the date of its own detail |
| `GamesResults.FailedExactlyOnFailure` | crates/server/src/application/games.rs:673-692 | a concept fails exactly when a detail that its resolution reads fails |
| `GamesResults.ResolutionIs` | crates/server/src/application/games.rs:670-692 | the first candidate that no successful detail disproves decides a concept: its proof gives the card, its failure the failure, and without one the concept is dropped |
| `GamesResults.EmptyBrowseIsNoOutage` | crates/server/src/application/games.rs:694-727 | behind an empty successful BROWSE answer no product lookup failed on any raw page it read |
| `GamesResults.NotFoundIsAProof` | crates/server/src/application/games.rs:605-654 | the game page is not found if and only if every list was read without the id, and the id is no product id or a successful detail disproves a PS5 game |
| `GamesResults.GamePageIs` | crates/server/src/application/games.rs:605-654 | the first of the four lists that does not lack the id decides: it gives a game with the id, or its failure; when all lack it, the product's own detail decides by a proof, a disproof, a missing name, or a failure |
| `GamesResults.GamePageHasTheOwnDate` | crates/server/src/application/games.rs:537-573 | wherever the game was found, a date of its own detail is the date of the page |
| `GamesResults.GamePageKeepsTheListDate` | crates/server/src/application/games.rs:555-561 | without such a date the page keeps the date of the first list that has the id |
| `GamesResults.BrowseCardIsNeverNotFound` | crates/server/src/application/games.rs:670-692 | the id of every BROWSE card of a stable upstream never gets not-found |
| `GamesResults.CandidateIdsAreProductIds` | crates/domain/src/listing.rs:230-258 | at most three candidates, all product ids |
| `GamesResults.CandidatesArePreferred` | crates/domain/src/listing.rs:239-258 | the candidates are distinct, PS5 titles first, and an omitted id gave way to three at least as preferred |
| `BrowsePages.CandidatesInOrder` | crates/domain/src/listing.rs:239-258 | among PS5 titles and among other titles the candidates stand in Sony's order: what is tried before a candidate is a candidate before it |
| `GamesResults.CardsOfConcepts` | crates/domain/src/listing.rs:109-119 | a list has a card with an id exactly when a concept names it and it is a product id |
| `GamesResults.MergedIdsAre` | crates/server/src/application/games.rs:354-391 | the merged list exists exactly when both grids do, holds each id at most once, and holds an id exactly when a NEW concept names it as a product whose own release date parses, or an UPCOMING concept names it |
| `GamesResults.MergedProductsHaveTheirOwnDate` | crates/server/src/application/games.rs:349-390 | each product card of the merged list is the card of a concept that names it, with the normalised date of its own product detail |
| `GamesResults.ReleasedStandFirst` | crates/domain/src/listing.rs:95-107 | in the merged list the released products of the NEW grid stand before all other cards |
| `GamesResults.MergedAnnouncementsAre` | crates/server/src/application/games.rs:354-391 | every other card of the merged list is that of the first UPCOMING concept that goes by its id, with the date of the grid |
| `GamesResults.ViewersSeeTheMergedList` | crates/server/src/application/games.rs:393-407 | from grids to screen: every viewer sees the merged list split at the own next day, each game in one view |
| `Cache.Store.Fresh` | crates/server/src/application/cache.rs:258-280 | a usable entry moves to the newest number, an expired one goes, and the maps stay inverse |
| `Cache.Store.EvictOver` | crates/server/src/application/cache.rs:301-308 | evicts least recently used entries until the capacity is met; the early return is never taken |
| `Cache.Store.GetWith` | crates/server/src/application/cache.rs:127-198 | joins the usable lookup or starts one under a new number, and the size stays within the capacity |
| `Cache.Store.CompleteLookup` | crates/server/src/application/cache.rs:228-242 | sets the expiry of its own entry only, drops it for a zero life, and changes nothing else |
| `Cache.Store.RemoveEntryOf` | crates/server/src/application/cache.rs:294-299 | removes the entry only when the lookup filled it, in both maps |
| `Cache.PendingGuard.Drop` | crates/server/src/application/cache.rs:200-214 | removes the pending entry exactly while armed |
| `Cache.RunTask` | crates/server/src/application/cache.rs:171-182 | a task records its outcome and disarms the guard, or its panic removes its own entry |
| `CacheRuns.MapsAgreeInEveryRun` | crates/server/src/application/cache.rs:72-77 | in every run the two maps are inverse, no number passes the counter, and the size is within the capacity |
| `CacheRuns.LateEndsLeaveOtherEntries` | crates/server/src/application/cache.rs:228-246 | a lookup that ends or panics late never changes an entry of another lookup |
| `CacheRuns.CallersGetFreshOutcomesOfTheirKey` | crates/server/src/application/cache.rs:120-141 | each outcome came from a lookup for the caller's key, and a completed one is joined strictly inside its own life, never with a zero life or after a panic |
| `CacheLife.CallJoinsExactly` | crates/server/src/application/cache.rs:127-141 | in every run a call joins a lookup, and starts none, if and only if that lookup is the latest of the key, was not evicted, did not panic, and still runs or ended with a positive life that is not over |
| `CacheRuns.TwoLookupsMeanEviction` | crates/server/src/application/cache.rs:120-198 | two lookups for one key run together only if the older pending entry was evicted |
| `CacheRuns.OlderEntryIsGone` | crates/server/src/application/cache.rs:260-299 | the entry of a key never belongs to an older lookup once a later one started |
| `CacheRuns.OneLookupPerKeyWithinCapacity` | crates/server/src/application/cache.rs:120-198 | in every run whose callers ask for no more keys than the capacity, two lookups for one key never run together |
| `CacheLru.GetRefines` | crates/server/src/application/cache.rs:154-198 | a call of the numbered maps is a call of the plain list, with the same answer |
| `CacheLru.EndRefines` | crates/server/src/application/cache.rs:228-246 | the end of a lookup leaves the order of the list alone, and changes its own slot only |
| `CacheLru.EvictRefines` | crates/server/src/application/cache.rs:301-308 | the eviction loop keeps exactly the most recently used keys |
| `CacheLru.RunsRefineTheList` | crates/server/src/application/cache.rs:249-309 | after every event of every run the maps hold what the least-recently-used list holds, in its order |
| `CacheLru.ListRunExists` | crates/server/src/application/cache.rs:249-309 | every run of the cache has its run of the list, up to each event |
| `InFlight.Runs.JoinOrStart` | crates/server/src/application/in_flight.rs:66-102 | joins the running computation of the key, or enters a new one |
| `InFlight.Runs.DropGuard` | crates/server/src/application/in_flight.rs:116-139 | removes the entry only when this run made it |
| `InFlight.EntryExactlyWhileRunning` | crates/server/src/application/in_flight.rs:60-139 | in every run a key has an entry exactly while one computation for it runs, never two, and callers wait for their own key |
| `Scheduler.InOrderBounded` | crates/server/src/application/bounded.rs:16-35 | the pool with the final sort gives each output at the place of its item; what it does is a schedule that collects all items, within the time bound |
| `Scheduler.SortedByIndex` | crates/server/src/application/bounded.rs:33-34 | sorting outputs collected in any order by index restores the input order |
| `Scheduler.EverySchedule` | crates/server/src/application/bounded.rs:5-15 | every schedule has at most `limit` lookups in flight, idles no slot while an item waits, and takes at most (sum + (limit - 1) * longest) / limit |
| `Scheduler.EveryScheduleTakesItsTime` | crates/server/src/application/bounded.rs:16-35 | a schedule that has collected all items took at least sum / limit and at least the longest time |
| `Scheduler.NeverStuck` | crates/server/src/application/bounded.rs:16-35 | a schedule with an item left can always take a step |
| `Wishlist.EnrichWishlist` | crates/server/src/application/account.rs:118-153 | `elapsed` is the end of a schedule of all lookups with 6 slots; one card per entry in order under its id, which shows the store's game exactly when that end is within 12 s and the product lookup gave one within 5 s, else the minimal card; above 72 s of capped lookup time every card is minimal |
| `Wishlist.EveryScheduleMeetsTheDeadline` | crates/server/src/application/account.rs:29-34 | every schedule of lookups with at most 47 s of capped lookup time stays within 12 s |
| `Wishlist.EveryScheduleMissesTheDeadline` | crates/server/src/application/account.rs:29-34 | every schedule of lookups with more than 72 s of capped lookup time ends after the 12 s |
| `Wishlist.LookupsTakeTheirTime` | crates/server/src/application/account.rs:131-148 | a product entry takes the time of its lookup, 5 s at most, and a concept entry none |
| `Titles.SqueezeWords` | crates/domain/src/critic_match.rs:109-127 | the word loop with its gap flag computes the squeezing that the lemmas below are about |
| `Titles.SqueezedGap` | crates/domain/src/critic_match.rs:109-127 | a gap of other characters joins what stands on its two sides with one space, and with nothing on one side it goes |
| `Titles.SqueezedIsTitle` | crates/domain/src/critic_match.rs:109-127 | its result is empty, or non-empty words with single spaces, of letters and numbers only |
| `Titles.SqueezedKeepsLetters` | crates/domain/src/critic_match.rs:109-127 | it keeps every letter and number, in order |
| `Titles.StripEditionSuffixes` | crates/domain/src/critic_match.rs:131-152 | the loop terminates, and removes the longest suffix each time until none matches |
| `Titles.LongestIsUnique` | crates/domain/src/critic_match.rs:135-143 | the longest matching suffix is unique |
| `Titles.StrippedTitle` | crates/domain/src/critic_match.rs:131-152 | on a title the result is a title, the input is the result with whole suffixes behind it, and the result ends with no suffix after a space |
| `Titles.LongestGoesFirst` | crates/domain/src/critic_match.rs:131-152 | a title with a suffix behind it, where no longer suffix ends the text, has the stripped form of the title |
| `Titles.StrippingIsIdempotent` | crates/domain/src/critic_match.rs:131-152 | stripping twice is stripping once |
| `Titles.StrippingIsAFunction` | crates/domain/src/critic_match.rs:131-152 | each title has one stripped form |
| `Titles.ScoreIgnoresOrder` | crates/domain/src/critic_match.rs:60-89 | the matched score does not change under any reordering of the candidates |
| `Titles.ScoreIsTheOneRating` | crates/domain/src/critic_match.rs:60-89 | a title with a name has a score if and only if exactly one candidate has that name, a release within one year, and a rating from three reviews or more, and the score is its rating |
| `Retry.SendRetrying` | crates/server/src/sources/transport.rs:120-161 | at most `retries + 1` requests, stopping at the first deciding answer and never after one, with the outcome of the last attempt and the exact time passed |
| `Retry.AttemptIs` | crates/server/src/sources/transport.rs:128-157 | the time, the outcome, and the deciding power of one attempt in terms of the service's reply and the timeout |
| `Retry.CallIsBounded` | crates/server/src/sources/transport.rs:92-99 | that time is at most (retries + 1) * timeout + retries * longest delay |
| `Retry.DelayIsClamped` | crates/server/src/sources/transport.rs:192-201 | a digit run of any length gives its seconds clamped to the maximum; the saturation never shows |
| `Numbers.IsDecimalLiteral` | crates/server/src/http/params.rs:210-239 | the index scanner decides the predicate that the grammar theorem is about |
| `Numbers.ScannerIsTheGrammar` | crates/server/src/http/params.rs:210-239 | it accepts exactly digits, an optional fraction, and an optional exponent, with a mantissa digit |
| `Numbers.RadixNumber` | crates/server/src/http/params.rs:198-208 | the rounding fold, with its overflow to infinity, is exact, or both it and the true value are above the safe integers |
| `Numbers.RadixDigitIs` | crates/server/src/http/params.rs:198-208 | a character is the digit of value v exactly when it stands at place v of the sixteen digits, in either case |
| `Numbers.JsNumber` | crates/server/src/http/params.rs:166-196 | on every text, after trim, prefix, and sign, the rounded double passes the same integer checks as the number that the text denotes |
| `Numbers.IntegerIn` | crates/server/src/http/params.rs:135-152 | a text is accepted exactly when the number that it denotes is a safe integer in range, and decodes to it |
| `Numbers.PlainIntegersAre` | crates/server/src/http/params.rs:135-152 | a digit run is accepted as its value exactly when that is a safe integer in range, with a plus sign too; with a minus sign only as 0 |
| `Numbers.RadixIntegersAre` | crates/server/src/http/params.rs:166-183 | the digits behind each of the six prefixes denote their value in that radix, and anything else behind one is no number |
| `Numbers.SignedRadixIsRejected` | crates/server/src/http/params.rs:172-194 | a signed hexadecimal, octal, or binary literal is no number |
| `Texts.TrimIs` | crates/domain/src/js.rs:250-252 | trimming takes white space off both ends, as much as there is, and nothing else |
| `Prices.ScannerIsThePattern` | web/src/modules/sortGames.ts:21-41 | a text has a price exactly when it fits the pattern, and its amount is that of every way to fit it |
| `Prices.AmountRoundTrip` | web/src/modules/sortGames.ts:21-41 | every amount, with or without the euro sign on either side, with or without groups, with no-break spaces, parses to the double of exactly that amount |
| `Prices.FreeAmountsAre` | web/src/modules/sortGames.ts:31-69 | a price is 0 for the word free, for an included game, and for the labels essential and extra, in any case of letters, and else the amount of its text |
| `Prices.PriceSortIs` | web/src/modules/sortGames.ts:60-104 | the price sort is a stable permutation by exact amount, up to amounts with one nearest double, unpriced games last in both directions |
| `Prices.DateSortIs` | web/src/modules/sortGames.ts:71-104 | the date sort is a permutation in date order, undated games last in both directions, games of one instant in input order |
| `Collation.LocaleCompareReverses` | crates/domain/src/js.rs:254-273 | swapping the texts reverses the answer, and equal means that all three weight sequences agree |
| `Collation.LocaleCompareTransitive` | crates/domain/src/js.rs:254-273 | the order is transitive on all texts |
| `Collation.PrimaryRanges` | crates/domain/src/js.rs:275-326 | symbols, digits, letters, and the rest have disjoint primary ranges in this order |
| `Collation.AsciiOrderIsExact` | crates/domain/src/js.rs:254-277 | two printable ASCII texts are equal in the order exactly when they are the same text |
| `Collation.FirstDifferenceDecides` | crates/domain/src/js.rs:254-273 | behind any common part the first two printable characters that differ in more than case decide: symbols in their order, then 0 to 9, then A to Z |
| `Collation.PrefixComesFirst` | crates/domain/src/js.rs:254-273 | a text stands before its continuations |
| `Collation.LowerCaseFirst` | crates/domain/src/js.rs:254-273 | of two texts that are one but for case the one with the first lower-case letter stands first |
| `Collation.PlainLetterFirst` | crates/domain/src/js.rs:328-394 | each accented letter of Latin-1 follows its plain letter and precedes every other letter |
| `Collation.NarrowGenres` | crates/domain/src/listing.rs:216-228 | the loop with a seen set gives the menu that the next lemma is about |
| `Collation.GenreMenuIs` | crates/domain/src/listing.rs:212-228 | the menu is stably sorted by name and holds exactly the first valid entry of each key |
| `Prefetch.NextTab` | web/src/modules/prefetchTabs.ts:22-29 | the first tab of the order that is uncovered and allowed, or none exactly when there is none |
| `Prefetch.OnePrefetchAtATime` | web/src/modules/prefetchRunner.ts:252-286 | over every interleaving of overlapping loops at most one prefetch is in flight |
| `Prefetch.StartsAreQuietAndInOrder` | web/src/modules/prefetchRunner.ts:264-273 | a loop at its choice starts a tab if and only if nothing fetches, its own view has settled, and the tab is the first of the order without data, without an open view, and with access |
| `Prefetch.DeniedAndHaltedExactly` | web/src/modules/prefetchRunner.ts:274-284 | in every run access is denied exactly after a sign-out or a 401 of a signed-in tab, and the session is halted exactly after any other failure |
| `Prefetch.NoSignedInStartAfterDenial` | web/src/modules/prefetchRunner.ts:100-105 | after a sign-out, or after a 401 of the wishlist or the purchases, neither of the two is ever started again |
| `Prefetch.NoStartAfterSuccess` | web/src/modules/prefetchRunner.ts:134-149 | after a successful request for a tab, no loop starts it again before its data is discarded or a later request for it fails |
| `Prefetch.StartsAfterHalt` | web/src/modules/prefetchRunner.ts:264-285 | a prefetch that starts after a halt comes from a loop that had passed the check at its top before the halt |
| `Prefetch.OneStartPerLoopAfterHalt` | web/src/modules/prefetchRunner.ts:264-285 | each such loop starts at most one prefetch |
| `Prefetch.AStartAfterAHalt` | web/src/modules/prefetchRunner.ts:252-286 | a run in which a prefetch starts after the failure that should stop it for good |
| `Prefetch.HaltIsFinal` | web/src/modules/prefetchRunner.ts:252-286 | from a halted state some continuation starts a prefetch if and only if a loop stands by behind the check at its top |

## Left out

- HTTP routing, handlers, logging, static files, and the React components: plumbing over libraries.
- Sony and IGDB requests, JSON decoding, and prices, genres, media, and the other card fields: I/O and field copying.
- DISCOUNTED and MONTHLY listings, `narrow_search_entries`, and the purchased list: one filter and one sort of parts that are proved here.
- Unicode tables: NFKD, lower-casing, and categories. The word loop takes an abstract predicate for letters and numbers, and the critic match an abstract normalisation.
- UTF-8: text is a sequence of characters instead of bytes. Every scanner here reads ASCII only, so other bytes match nothing either way.
- Floating point beyond a monotone rounding that is exact up to 2^53: the double of a literal with a fraction or an exponent, and the rounding of a price to a double, are parameters.
- The name sort of the client: `Intl.Collator` is a library.
- The V8 behaviour that `js.rs` ports, and the `jiff` calendar code: the model follows the code's own rules.
- Listing.ClientSeesTheDirectSplit: reads all pages at one server time; `MovingWindow` gives each request its own, over an unchanged merged list.
- The cache in front of the games service: the service reads a stable upstream, and `CacheRuns` covers the cache alone.
- Wrap-around of the `u64` counters, and a lock poisoned by a panic.
- The futures polling below `in_order_bounded`: time passes in steps, and the lookups are started in input order. A limit of 0 is not used by the program.
- In the prefetch: paused (offline) fetches, the abort of the HTTP request, and the check of a view that is about to join.
- The pool, the date parser, and the number scanner are split into more methods than the original has, each a consecutive part of one function.
