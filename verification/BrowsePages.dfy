/**
  What one raw BROWSE page shows, and in which order: the candidates of a concept, its card,
  and the games of the page (crates/domain/src/listing.rs, crates/server/src/application/games.rs).
*/
module BrowsePages {
  import opened Collections
  import opened Sequences
  import opened Games
  import opened GamesService
  import opened GamesResults

  // ----- The order of the candidates -----

  predicate NamesPs5Title(id: string) {
    |id| >= 11 && id[7] == 'P' && id[8] == 'P' && id[9] == 'S' && id[10] == 'A'
  }

  /** The concept names `x` for the first time before `y`. */
  ghost predicate IsNamedBefore(c: Concept, x: string, y: string) {
    var products := c.products.GetOr([]);
    exists i ::
      && 0 <= i < |products| && products[i].id == Some(x)
      && forall j :: 0 <= j <= i ==> products[j].id != Some(y)
  }

  /** PS5 titles stand before others, and each of the two kinds stands in Sony's order. */
  ghost predicate IsTriedBefore(c: Concept, x: string, y: string) {
    if NamesPs5Title(x) == NamesPs5Title(y) then IsNamedBefore(c, x, y) else NamesPs5Title(x)
  }

  ghost predicate Precedes(s: seq<string>, x: string, y: string) {
    exists i, j :: 0 <= i < j < |s| && s[i] == x && s[j] == y
  }

  lemma {:induction false} FirstPlaceOf(found: seq<Option<string>>, x: string, i: nat) returns (p: nat)
    requires i < |found| && found[i] == Some(x)
    ensures p <= i && found[p] == Some(x) && IsFirstPresent(found, SameText(), p)
  {
    if j :| 0 <= j < i && found[j] == Some(x) {
      p := FirstPlaceOf(found, x, j);
    } else {
      p := i;
    }
  }

  lemma PlaceOfProduct(c: Concept, x: string) returns (p: nat)
    requires NamesProduct(c, x)
    ensures var products := c.products.GetOr([]);
            p < |products| && products[p].id == Some(x)
            && IsFirstPresent(Map(products, ValidProductId()), SameText(), p)
            && forall i :: 0 <= i < |products| && products[i].id == Some(x) ==> p <= i
  {
    var products := c.products.GetOr([]);
    var product :| product in products && product.id == Some(x);
    var i :| 0 <= i < |products| && products[i] == product;
    var found := Map(products, ValidProductId());
    p := FirstPlaceOf(found, x, i);
    forall i | 0 <= i < p
      ensures products[i].id != Some(x)
    {
      assert found[i].Some? ==> SameText()(found[i].value) != SameText()(found[p].value);
    }
  }

  function DistinctIds(c: Concept): seq<string> {
    FirstOccurrences(Somes(Map(c.products.GetOr([]), ValidProductId())), SameText())
  }

  lemma IdsInOrder(c: Concept, x: string, y: string)
    requires NamesProduct(c, x) && NamesProduct(c, y) && IsNamedBefore(c, x, y)
    ensures Precedes(DistinctIds(c), x, y)
  {
    var found := Map(c.products.GetOr([]), ValidProductId());
    var places := FirstPresentInOrder(found, SameText());
    var p := PlaceOfProduct(c, x);
    var q := PlaceOfProduct(c, y);
    assert p < q;
    assert p in places && q in places;
    PrecedesAtPlaces(DistinctIds(c), found, places, p, q);
  }

  lemma PrecedesAtPlaces(r: seq<string>, found: seq<Option<string>>, places: seq<nat>, p: nat, q: nat)
    requires PresentAt(r, found, places) && forall i, j :: 0 <= i < j < |places| ==> places[i] < places[j]
    requires p in places && q in places && p < q < |found| && found[p].Some? && found[q].Some?
    ensures Precedes(r, found[p].value, found[q].value)
  {
    var i :| 0 <= i < |places| && places[i] == p;
    var j :| 0 <= j < |places| && places[j] == q;
    assert r[i] == found[p].value && r[j] == found[q].value;
  }

  lemma FilterPrecedes(s: seq<string>, p: string -> bool, x: string, y: string)
    requires Precedes(s, x, y) && p(x) && p(y)
    ensures Precedes(Filter(s, p), x, y)
  {
    var i, j :| 0 <= i < j < |s| && s[i] == x && s[j] == y;
    var back := s[i + 1..];
    FilterAround(s, p, i);
    FilterMembers(back, p);
    assert back[j - i - 1] == y;
    var k :| 0 <= k < |Filter(back, p)| && Filter(back, p)[k] == y;
    var n := |Filter(s[..i], p)|;
    assert Filter(s, p)[n] == x && Filter(s, p)[n + 1 + k] == y;
  }

  lemma TitleIs(id: string)
    ensures IsPs5Title()(id) == NamesPs5Title(id) && IsOtherTitle()(id) == !NamesPs5Title(id)
  {
    if |id| >= 11 {
      assert id[7..11] == [id[7], id[8], id[9], id[10]];
    }
  }

  lemma KindsPrecede(c: Concept, x: string, y: string)
    requires NamesProduct(c, x) && NamesProduct(c, y) && IsTriedBefore(c, x, y)
    ensures Precedes(Filter(DistinctIds(c), IsPs5Title()) + Filter(DistinctIds(c), IsOtherTitle()), x, y)
  {
    var ids := DistinctIds(c);
    var ps5, other := Filter(ids, IsPs5Title()), Filter(ids, IsOtherTitle());
    TitleIs(x);
    TitleIs(y);
    if NamesPs5Title(x) != NamesPs5Title(y) {
      ProductsOfConcept(c, x);
      ProductsOfConcept(c, y);
      FilterMembers(ids, IsPs5Title());
      FilterMembers(ids, IsOtherTitle());
      MembersPrecede(ps5, other, x, y);
    } else {
      IdsInOrder(c, x, y);
      FilterPrecedes(ids, if NamesPs5Title(x) then IsPs5Title() else IsOtherTitle(), x, y);
      PrecedesInJoin(ps5, other, x, y);
    }
  }

  lemma MembersPrecede(a: seq<string>, b: seq<string>, x: string, y: string)
    requires x in a && y in b
    ensures Precedes(a + b, x, y)
  {
    var i :| 0 <= i < |a| && a[i] == x;
    var j :| 0 <= j < |b| && b[j] == y;
    assert (a + b)[i] == x && (a + b)[|a| + j] == y;
  }

  lemma PrecedesInJoin(a: seq<string>, b: seq<string>, x: string, y: string)
    requires Precedes(a, x, y) || Precedes(b, x, y)
    ensures Precedes(a + b, x, y)
  {
    if Precedes(a, x, y) {
      var i, j :| 0 <= i < j < |a| && a[i] == x && a[j] == y;
      assert (a + b)[i] == x && (a + b)[j] == y;
    } else {
      var i, j :| 0 <= i < j < |b| && b[i] == x && b[j] == y;
      assert (a + b)[|a| + i] == x && (a + b)[|a| + j] == y;
    }
  }

  lemma CandidatesAreNamed(c: Concept, id: string)
    requires id in BrowseCandidateIds(c)
    ensures NamesProduct(c, id)
  {
    var ids := DistinctIds(c);
    FilterMembers(ids, IsPs5Title());
    FilterMembers(ids, IsOtherTitle());
    assert id in Filter(ids, IsPs5Title()) + Filter(ids, IsOtherTitle());
    ProductsOfConcept(c, id);
  }

  lemma FirstTextsAreDistinct(names: seq<string>)
    ensures Distinct(FirstOccurrences(names, SameText()))
  {
    FirstOccurrencesDistinct(names, SameText());
    var r := FirstOccurrences(names, SameText());
    forall i, j | 0 <= i < j < |r|
      ensures r[i] != r[j]
    {
      assert SameText()(r[i]) != SameText()(r[j]);
    }
  }

  lemma OrderedAreDistinct(ids: seq<string>)
    requires Distinct(ids)
    ensures Distinct(Filter(ids, IsPs5Title()) + Filter(ids, IsOtherTitle()))
  {
    FilterDistinct(ids, IsPs5Title());
    FilterDistinct(ids, IsOtherTitle());
    FilterMembers(ids, IsPs5Title());
    FilterMembers(ids, IsOtherTitle());
    var ps5, other := Filter(ids, IsPs5Title()), Filter(ids, IsOtherTitle());
    forall i, j | 0 <= i < |ps5| && 0 <= j < |other|
      ensures ps5[i] != other[j]
    {
      assert ps5[i] in ps5 && other[j] in other;
    }
  }

  lemma PrefixPrecedes(s: seq<string>, n: nat, x: string, y: string)
    requires n <= |s| && Distinct(s) && Precedes(s, x, y) && y in s[..n]
    ensures Precedes(s[..n], x, y)
  {
    var i, j :| 0 <= i < j < |s| && s[i] == x && s[j] == y;
    var k :| 0 <= k < n && s[..n][k] == y;
    assert s[k] == s[j];
    assert s[..n][i] == x;
  }

  /** Of two products that the concept names, the one that is tried before a candidate is a candidate before it. */
  lemma CandidatesInOrder(c: Concept, x: string, y: string)
    requires NamesProduct(c, x) && IsTriedBefore(c, x, y) && y in BrowseCandidateIds(c)
    ensures Precedes(BrowseCandidateIds(c), x, y)
  {
    var ordered := Filter(DistinctIds(c), IsPs5Title()) + Filter(DistinctIds(c), IsOtherTitle());
    CandidatesAreNamed(c, y);
    KindsPrecede(c, x, y);
    FirstTextsAreDistinct(Somes(Map(c.products.GetOr([]), ValidProductId())));
    OrderedAreDistinct(DistinctIds(c));
    PrefixPrecedes(ordered, |BrowseCandidateIds(c)|, x, y);
  }

  // ----- The games of a page -----

  /** The first candidate that is not disproven is `id`, and its detail proves a PS5 game. */
  ghost predicate ShowsAs(sony: Sony, c: Concept, id: string) {
    var ids := BrowseCandidateIds(c);
    exists k: nat :: k < |ids| && ids[k] == id && AllDisproven(sony, ids, k) && IsProven(sony, id)
  }

  /** The detail of the first candidate that is not disproven fails. */
  ghost predicate FailsFor(sony: Sony, c: Concept) {
    var ids := BrowseCandidateIds(c);
    exists k: nat :: k < |ids| && AllDisproven(sony, ids, k) && sony.detail(ids[k]).Err?
  }

  lemma FirstUndecidedIsUnique(sony: Sony, ids: seq<string>, k: nat, l: nat)
    requires k < |ids| && l < |ids| && AllDisproven(sony, ids, k) && AllDisproven(sony, ids, l)
    requires !IsDisproven(sony, ids[k]) && !IsDisproven(sony, ids[l])
    ensures k == l
  {
  }

  lemma ResolvedIs(sony: Sony, c: Concept)
    ensures var r := Resolve(sony)(c);
            && (r.Failed? <==> FailsFor(sony, c))
            && (forall id :: ShowsAs(sony, c, id) <==> r.Card? && r.game.id == id)
            && (r.Card? ==> IsCardOfConcept(sony, c, r.game.id, r.game))
  {
    var ids, r := BrowseCandidateIds(c), Resolve(sony)(c);
    ResolutionIs(sony, c, ids);
    forall id | ShowsAs(sony, c, id)
      ensures r.Card? && r.game.id == id
    {
      var k: nat :| k < |ids| && ids[k] == id && AllDisproven(sony, ids, k) && IsProven(sony, id);
      if r.Failed? {
        var l: nat :| l < |ids| && AllDisproven(sony, ids, l) && sony.detail(ids[l]).Err?;
        FirstUndecidedIsUnique(sony, ids, k, l);
      } else if r.Card? {
        var l: nat :| l < |ids| && AllDisproven(sony, ids, l) && IsProven(sony, ids[l])
                      && IsCardOfConcept(sony, c, ids[l], r.game);
        FirstUndecidedIsUnique(sony, ids, k, l);
      }
    }
    if FailsFor(sony, c) && r.Card? {
      var k: nat :| k < |ids| && AllDisproven(sony, ids, k) && sony.detail(ids[k]).Err?;
      var l: nat :| l < |ids| && AllDisproven(sony, ids, l) && IsProven(sony, ids[l])
                    && IsCardOfConcept(sony, c, ids[l], r.game);
      FirstUndecidedIsUnique(sony, ids, k, l);
    }
  }

  /** The place of the first concept of the page that is shown under its id. */
  ghost predicate IsShownPlace(sony: Sony, concepts: seq<Concept>, p: nat) {
    && p < |concepts|
    && exists id :: ShowsAs(sony, concepts[p], id) && forall j :: 0 <= j < p ==> !ShowsAs(sony, concepts[j], id)
  }

  lemma ShownPlaceIs(sony: Sony, concepts: seq<Concept>, p: nat)
    ensures IsFirstPresent(Map(Map(concepts, Resolve(sony)), CardGame()), GameKey, p)
       <==> IsShownPlace(sony, concepts, p)
  {
    var cards := Map(Map(concepts, Resolve(sony)), CardGame());
    forall j | 0 <= j < |concepts|
      ensures forall id :: ShowsAs(sony, concepts[j], id) <==> cards[j].Some? && cards[j].value.id == id
    {
      ResolvedIs(sony, concepts[j]);
    }
    if IsFirstPresent(cards, GameKey, p) {
      var id := GameKey(cards[p].value);
      forall j | 0 <= j < p
        ensures !ShowsAs(sony, concepts[j], id)
      {
        assert cards[j].Some? ==> GameKey(cards[j].value) != id;
      }
      assert ShowsAs(sony, concepts[p], id);
    }
    if IsShownPlace(sony, concepts, p) {
      var id :| ShowsAs(sony, concepts[p], id) && forall j :: 0 <= j < p ==> !ShowsAs(sony, concepts[j], id);
      assert cards[p].Some? && GameKey(cards[p].value) == id;
      forall j | 0 <= j < p && cards[j].Some?
        ensures GameKey(cards[j].value) != id
      {
        assert !ShowsAs(sony, concepts[j], id);
      }
    }
  }

  /**
    The games of a raw page, in the order of its concepts: one card for each concept that is
    shown under an id of no earlier concept.
  */
  lemma PageGamesInOrder(sony: Sony, concepts: seq<Concept>) returns (places: seq<nat>)
    ensures forall i, j :: 0 <= i < j < |places| ==> places[i] < places[j]
    ensures forall p :: p in places <==> IsShownPlace(sony, concepts, p)
    ensures var games := BrowseGames(Map(concepts, Resolve(sony)));
            && |games| == |places|
            && forall k :: 0 <= k < |games| ==>
                 && places[k] < |concepts| && ShowsAs(sony, concepts[places[k]], games[k].id)
                 && IsCardOfConcept(sony, concepts[places[k]], games[k].id, games[k])
  {
    var cards := Map(Map(concepts, Resolve(sony)), CardGame());
    places := FirstPresentInOrder(cards, GameKey);
    forall p: nat
      ensures p in places <==> IsShownPlace(sony, concepts, p)
    {
      ShownPlaceIs(sony, concepts, p);
    }
    var games := BrowseGames(Map(concepts, Resolve(sony)));
    forall k | 0 <= k < |games|
      ensures ShowsAs(sony, concepts[places[k]], games[k].id)
      ensures IsCardOfConcept(sony, concepts[places[k]], games[k].id, games[k])
    {
      assert cards[places[k]] == Some(games[k]);
      ResolvedIs(sony, concepts[places[k]]);
    }
  }

  /** A raw page fails with its request, or when a lookup failed and no concept of it is shown. */
  lemma PageFailsExactly(sony: Sony, offset: nat)
    ensures sony.browse(offset).Err? ==> BrowsePageAt(sony, offset) == Err(sony.browse(offset).error)
    ensures sony.browse(offset).Ok? ==>
              var page, r := sony.browse(offset).value, BrowsePageAt(sony, offset);
              && (r.Err? <==>
                    && (exists c :: c in page.concepts && FailsFor(sony, c))
                    && (forall c, id :: c in page.concepts ==> !ShowsAs(sony, c, id)))
              && (r.Ok? ==> r.value == Narrowed(BrowseGames(Map(page.concepts, Resolve(sony))), page.isLast))
  {
    if sony.browse(offset).Ok? {
      var concepts := sony.browse(offset).value.concepts;
      SomeFails(sony, concepts);
      NoneShown(sony, concepts);
    }
  }

  lemma SomeFails(sony: Sony, concepts: seq<Concept>)
    ensures Failed in Map(concepts, Resolve(sony)) <==> exists c :: c in concepts && FailsFor(sony, c)
  {
    var resolved := Map(concepts, Resolve(sony));
    forall i | 0 <= i < |concepts|
      ensures resolved[i] == Failed <==> FailsFor(sony, concepts[i])
    {
      ResolvedIs(sony, concepts[i]);
    }
    if Failed in resolved {
      var i :| 0 <= i < |resolved| && resolved[i] == Failed;
      assert concepts[i] in concepts;
    }
    if c :| c in concepts && FailsFor(sony, c) {
      var i :| 0 <= i < |concepts| && concepts[i] == c;
      assert resolved[i] == Failed;
    }
  }

  lemma NoneShown(sony: Sony, concepts: seq<Concept>)
    ensures BrowseGames(Map(concepts, Resolve(sony))) == []
       <==> forall c, id :: c in concepts ==> !ShowsAs(sony, c, id)
  {
    var resolved := Map(concepts, Resolve(sony));
    var cards := Map(resolved, CardGame());
    forall i | 0 <= i < |concepts|
      ensures cards[i].Some? <==> exists id :: ShowsAs(sony, concepts[i], id)
    {
      ResolvedIs(sony, concepts[i]);
      if cards[i].Some? {
        assert ShowsAs(sony, concepts[i], cards[i].value.id);
      }
    }
    NoGames(cards);
    forall c, id | c in concepts && ShowsAs(sony, c, id)
      ensures exists i :: 0 <= i < |cards| && cards[i].Some?
    {
      var i :| 0 <= i < |concepts| && concepts[i] == c;
      assert cards[i].Some?;
    }
    if i :| 0 <= i < |cards| && cards[i].Some? {
      var id :| ShowsAs(sony, concepts[i], id);
      assert concepts[i] in concepts;
    }
  }

  lemma NoGames(cards: seq<Option<Game>>)
    ensures FirstOccurrences(Somes(cards), GameKey) == [] <==> forall i :: 0 <= i < |cards| ==> cards[i].None?
  {
    var all := Somes(cards);
    if i :| 0 <= i < |cards| && cards[i].Some? {
      SomesMembers(cards, cards[i].value);
      var k :| 0 <= k < |all| && all[k] == cards[i].value;
      FirstOccurrencesKeys(all, GameKey, GameKey(all[k]));
    }
    if FirstOccurrences(all, GameKey) != [] {
      assert all != [];
      SomesMembers(cards, all[0]);
    }
  }
}
