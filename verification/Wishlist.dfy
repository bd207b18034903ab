/**
  The wishlist cards with their store lookups and deadlines
  (crates/server/src/application/account.rs, crates/domain/src/library.rs).
*/
module Wishlist {
  import opened Collections
  import opened Sequences
  import opened Games
  import opened Scheduler

  datatype WishlistId = ProductEntry(id: string) | ConceptEntry(id: string)

  datatype WishlistEntry = WishlistEntry(id: WishlistId, name: string, imageUrl: string)

  const ENRICH_CONCURRENCY: nat := 6
  const ENTRY_TIMEOUT: nat := 5000
  const TOTAL_TIMEOUT: nat := 12000

  /** What the store would answer for an entry, and after how many milliseconds. */
  datatype Answer = Answer(duration: nat, game: Option<Game>)

  /** The minimal card of an entry. */
  function WishlistCard(entry: WishlistEntry): Game {
    Game(entry.id.id, if entry.id.ProductEntry? then ProductCard else ConceptCard,
         entry.name, entry.imageUrl, "", "", false, None)
  }

  function CardOf(): WishlistEntry -> Game {
    (entry: WishlistEntry) => WishlistCard(entry)
  }

  /** The store's game under the wishlist id, with a missing name or cover from the entry. */
  function MergeEntry(entry: WishlistEntry, found: Option<Game>): Game {
    match found
    case None => WishlistCard(entry)
    case Some(game) =>
      game.(id := entry.id.id,
            name := if game.name == "" then entry.name else game.name,
            url := if game.url == "" then entry.imageUrl else game.url)
  }

  /** `enrich_entry`: a concept entry makes no lookup, and a slow one is cut at its deadline. */
  function EnrichEntry(entry: WishlistEntry, answer: Answer): Job<Game> {
    match entry.id
    case ProductEntry(_) =>
      if answer.duration <= ENTRY_TIMEOUT then Job(answer.duration, MergeEntry(entry, answer.game))
      else Job(ENTRY_TIMEOUT, MergeEntry(entry, None))
    case ConceptEntry(_) => Job(0, MergeEntry(entry, None))
  }

  function Lookups(entries: seq<WishlistEntry>, answers: seq<Answer>): (jobs: seq<Job<Game>>)
    requires |entries| == |answers|
    ensures |jobs| == |entries|
  {
    seq(|entries|, i requires 0 <= i < |entries| => EnrichEntry(entries[i], answers[i]))
  }

  /** The time of an entry's lookup, cut at 5 seconds. A concept entry makes none. */
  function LookupTime(entry: WishlistEntry, answer: Answer): nat {
    if entry.id.ConceptEntry? then 0 else if answer.duration <= 5000 then answer.duration else 5000
  }

  /** The lookup times of the first `n` entries together. */
  function LookupTimes(entries: seq<WishlistEntry>, answers: seq<Answer>, n: nat): nat
    requires n <= |entries| == |answers|
  {
    if n == 0 then 0 else LookupTimes(entries, answers, n - 1) + LookupTime(entries[n - 1], answers[n - 1])
  }

  lemma {:induction false} LookupsTakeTheirTime(entries: seq<WishlistEntry>, answers: seq<Answer>, n: nat)
    requires n <= |entries| == |answers|
    ensures TotalTo(Lookups(entries, answers), n) == LookupTimes(entries, answers, n)
    ensures forall i :: 0 <= i < n ==> Lookups(entries, answers)[i].duration == LookupTime(entries[i], answers[i])
  {
    if n > 0 {
      LookupsTakeTheirTime(entries, answers, n - 1);
    }
  }

  lemma LookupsAreCapped(entries: seq<WishlistEntry>, answers: seq<Answer>)
    requires |entries| == |answers|
    ensures Longest(Lookups(entries, answers)) <= 5000
  {
    LookupsTakeTheirTime(entries, answers, |entries|);
  }

  /** In every schedule of the lookups, 47 seconds of lookup time end within the total deadline. */
  lemma EveryScheduleMeetsTheDeadline(entries: seq<WishlistEntry>, answers: seq<Answer>,
                                      events: seq<Event>, states: seq<Sched>, k: nat)
    requires |entries| == |answers| && LookupTimes(entries, answers, |entries|) <= 47000
    requires IsSchedule(Lookups(entries, answers), ENRICH_CONCURRENCY, events, states) && k < |states|
    ensures states[k].now <= 12000
  {
    LookupsAreCapped(entries, answers);
    LookupsTakeTheirTime(entries, answers, |entries|);
    EverySchedule(Lookups(entries, answers), ENRICH_CONCURRENCY, events, states, k);
  }

  /** In every schedule of the lookups, more than 72 seconds of lookup time end after the total deadline. */
  lemma EveryScheduleMissesTheDeadline(entries: seq<WishlistEntry>, answers: seq<Answer>,
                                       events: seq<Event>, states: seq<Sched>, k: nat)
    requires |entries| == |answers| && LookupTimes(entries, answers, |entries|) > 72000
    requires IsSchedule(Lookups(entries, answers), ENRICH_CONCURRENCY, events, states) && k < |states|
    requires |states[k].finished| == |entries|
    ensures states[k].now > 12000
  {
    LookupsTakeTheirTime(entries, answers, |entries|);
    EveryScheduleTakesItsTime(Lookups(entries, answers), ENRICH_CONCURRENCY, events, states, k);
  }

  /**
    The card of an entry: always under the entry's id, the store's game exactly when the list
    and a product lookup end in time with one, else the minimal card.
  */
  predicate IsCardOf(entry: WishlistEntry, answer: Answer, inTime: bool, card: Game) {
    && card.id == entry.id.id
    && if inTime && entry.id.ProductEntry? && answer.duration <= 5000 && answer.game.Some? then
         var game := answer.game.value;
         && card.price == game.price && card.date == game.date && card.idKind == game.idKind
         && (game.name != "" ==> card.name == game.name) && (game.name == "" ==> card.name == entry.name)
         && (game.url != "" ==> card.url == game.url) && (game.url == "" ==> card.url == entry.imageUrl)
       else
         && card.idKind == (if entry.id.ProductEntry? then ProductCard else ConceptCard)
         && card.name == entry.name && card.url == entry.imageUrl && card.price == "" && card.date == ""
  }

  lemma CardsAreOfTheirEntries(entries: seq<WishlistEntry>, answers: seq<Answer>)
    requires |entries| == |answers|
    ensures var enriched, minimal := Map(Lookups(entries, answers), OutputOf()), Map(entries, CardOf());
            && |enriched| == |minimal| == |entries|
            && forall i :: 0 <= i < |entries| ==>
                 && IsCardOf(entries[i], answers[i], true, enriched[i])
                 && IsCardOf(entries[i], answers[i], false, minimal[i])
  {
    forall i | 0 <= i < |entries|
      ensures IsCardOf(entries[i], answers[i], true, Map(Lookups(entries, answers), OutputOf())[i])
      ensures IsCardOf(entries[i], answers[i], false, Map(entries, CardOf())[i])
    {
      CardIsOfItsEntry(entries[i], answers[i]);
      assert Lookups(entries, answers)[i] == EnrichEntry(entries[i], answers[i]);
    }
  }

  lemma CardIsOfItsEntry(entry: WishlistEntry, answer: Answer)
    ensures IsCardOf(entry, answer, true, EnrichEntry(entry, answer).output)
    ensures IsCardOf(entry, answer, false, WishlistCard(entry))
  {
  }

  /**
    `enrich_wishlist`, for every order in which the lookups can end. `trace` is the schedule of
    all lookups to the end, which the deadline may cut, and `elapsed` is the time of its last
    state. There is one card per entry in order, under the id of the entry: the enriched ones
    exactly when the schedule takes at most the total deadline, else the minimal ones.
  */
  method EnrichWishlist(entries: seq<WishlistEntry>, answers: seq<Answer>)
    returns (cards: seq<Game>, elapsed: nat, ghost trace: Trace)
    requires |entries| == |answers|
    ensures IsSchedule(Lookups(entries, answers), ENRICH_CONCURRENCY, trace.events, trace.states)
    ensures var last := trace.states[|trace.events|]; last.now == elapsed && |last.finished| == |entries|
    ensures |cards| == |entries|
    ensures forall i :: 0 <= i < |entries| ==> IsCardOf(entries[i], answers[i], elapsed <= 12000, cards[i])
    ensures LookupTimes(entries, answers, |entries|) <= 47000 ==> elapsed <= 12000
    ensures LookupTimes(entries, answers, |entries|) > 72000 ==> elapsed > 12000
  {
    var jobs := Lookups(entries, answers);
    var results;
    results, elapsed, trace := InOrderBounded(jobs, ENRICH_CONCURRENCY);
    if LookupTimes(entries, answers, |entries|) <= 47000 {
      EveryScheduleMeetsTheDeadline(entries, answers, trace.events, trace.states, |trace.events|);
    } else if LookupTimes(entries, answers, |entries|) > 72000 {
      EveryScheduleMissesTheDeadline(entries, answers, trace.events, trace.states, |trace.events|);
    }
    CardsAreOfTheirEntries(entries, answers);
    cards := if elapsed <= TOTAL_TIMEOUT then results else Map(entries, CardOf());
  }
}
