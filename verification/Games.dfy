/**
  The game card, its ids, and one response page: the fields that the list rules read
  (crates/domain/src/game.rs, crates/domain/src/id.rs, crates/domain/src/product_id.rs).
*/
module Games {
  import opened Collections
  import opened Texts

  datatype IdKind = ProductCard | ConceptCard

  datatype Game = Game(id: string, idKind: IdKind, name: string, url: string, date: string, price: string,
                       plusIncluded: bool, plusLabel: Option<string>)

  datatype PageResult = PageResult(games: seq<Game>, totalCount: nat, nextOffset: Option<nat>)

  /** The largest `usize` of the server, where the offsets saturate. */
  const USIZE_MAX: nat := 0xFFFF_FFFF_FFFF_FFFF

  function SaturatingAdd(a: nat, b: nat): nat {
    if a + b > USIZE_MAX then USIZE_MAX else a + b
  }

  function GameKey(g: Game): string {
    g.id
  }

  const PRODUCT_ID_PATTERN := "AA9999-AAAA99999_00-"

  /** A product SKU id: the pattern, then any text. */
  predicate IsProductId(id: string) {
    && |id| >= |PRODUCT_ID_PATTERN|
    && forall i :: 0 <= i < |PRODUCT_ID_PATTERN| ==> FitsPattern(PRODUCT_ID_PATTERN[i], id[i])
  }

  /** The places of the pattern one by one, as in EP0006-PPSA04874_00-X. */
  lemma ProductIdIs(id: string)
    ensures IsProductId(id)
       <==> && |id| >= 20 && id[6] == '-' && id[16] == '_' && id[17] == id[18] == '0' && id[19] == '-'
            && (forall i :: 0 <= i < 2 || 7 <= i < 11 ==> 'A' <= id[i] <= 'Z')
            && (forall i :: 2 <= i < 6 || 11 <= i < 16 ==> '0' <= id[i] <= '9')
  {
    var pattern := PRODUCT_ID_PATTERN;
    assert |pattern| == 20;
    assert forall i :: 0 <= i < 20 ==>
             pattern[i] == if i < 2 || 7 <= i < 11 then 'A' else if i < 6 || 11 <= i < 16 then '9'
                           else if i == 6 || i == 19 then '-' else if i == 16 then '_' else '0';
  }
}
