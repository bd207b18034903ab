/**
  Price texts and the client's sorts (web/src/modules/sortGames.ts).

  A price is counted in whole cents, so `parsePrice` is exact here. `PriceText` is the price
  pattern as a grammar: `PriceCents` scans a text, and is proved to accept exactly the texts
  of the grammar.
*/
module Prices {
  import opened Collections
  import opened Sequences
  import opened Sorting
  import opened KeySort
  import opened Digits
  import opened Games
  import opened IsoDate
  import opened Listing
  import opened ReleaseOrder
  import opened Texts

  const EURO: char := '\U{20AC}'

  // ----- The pattern as a scanner -----

  function AfterEuro(s: string): string {
    if s != "" && s[0] == EURO then (if |s| > 1 && IsJsSpace(s[1]) then s[2..] else s[1..]) else s
  }

  /** A separator and three digits. */
  predicate StartsGroup(s: string) {
    |s| >= 4 && s[0] in " ." && AllDigits(s[1..4])
  }

  /** The digits of the leading groups, and the text after them. */
  function TakeGroups(s: string): (r: (string, string))
    ensures AllDigits(r.0)
  {
    if StartsGroup(s) then
      var (digits, rest) := TakeGroups(s[4..]);
      (s[1..4] + digits, rest)
    else
      ("", s)
  }

  /** The cents after a decimal comma, and the text after them. */
  function TakeCents(s: string): Option<(nat, string)> {
    if s != "" && s[0] == ',' then
      var n := DigitRun(s[1..]);
      if n == 1 then Some((Value(s[1..][..n]) * 10, s[1..][n..]))
      else if n == 2 then Some((Value(s[1..][..n]), s[1..][n..]))
      else None
    else
      Some((0, s))
  }

  predicate IsTail(s: string) {
    s == "" || s == [EURO] || (|s| == 2 && IsJsSpace(s[0]) && s[1] == EURO)
  }

  /** The whole euros, with or without groups, and the text after them. */
  function TakeWhole(t: string): Option<(nat, string)> {
    var n := DigitRun(t);
    if n == 0 then None else
    var (groups, rest) := if n <= 3 then TakeGroups(t[n..]) else ("", t[n..]);
    Some((Value(t[..n] + groups), rest))
  }

  /** The amount of a trimmed text that fits the pattern, in cents. */
  function PriceCents(s: string): Option<nat> {
    var (euros, afterWhole) :- TakeWhole(AfterEuro(s));
    var (cents, rest) :- TakeCents(afterWhole);
    if IsTail(rest) then Some(euros * 100 + cents) else None
  }

  // ----- The pattern as a grammar -----

  datatype Group = Group(separator: char, digits: string)

  /** `space` is the white space between the euro sign and the number, if there is any. */
  datatype EuroText = NoEuro | EuroSign(space: string)

  datatype PriceText = PriceText(lead: EuroText, head: string, groups: seq<Group>, cents: Option<string>,
                                 trail: EuroText)

  predicate IsEuroText(e: EuroText) {
    e.EuroSign? ==> e.space == "" || (|e.space| == 1 && IsJsSpace(e.space[0]))
  }

  predicate IsGroup(g: Group) {
    g.separator in " ." && |g.digits| == 3 && AllDigits(g.digits)
  }

  predicate IsPriceText(p: PriceText) {
    && IsEuroText(p.lead) && IsEuroText(p.trail)
    && p.head != "" && AllDigits(p.head)
    && (p.groups != [] ==> |p.head| <= 3)
    && (forall i :: 0 <= i < |p.groups| ==> IsGroup(p.groups[i]))
    && (p.cents.Some? ==> 1 <= |p.cents.value| <= 2 && AllDigits(p.cents.value))
  }

  function LeadThen(e: EuroText, rest: string): string {
    match e case NoEuro => rest case EuroSign(space) => [EURO] + (space + rest)
  }

  function GroupsThen(groups: seq<Group>, rest: string): string {
    if groups == [] then rest else [groups[0].separator] + (groups[0].digits + GroupsThen(groups[1..], rest))
  }

  function CentsThen(cents: Option<string>, rest: string): string {
    match cents case None => rest case Some(digits) => "," + (digits + rest)
  }

  function TrailString(e: EuroText): string {
    match e case NoEuro => "" case EuroSign(space) => space + [EURO]
  }

  function Render(p: PriceText): string {
    LeadThen(p.lead, p.head + GroupsThen(p.groups, CentsThen(p.cents, TrailString(p.trail))))
  }

  function GroupDigits(groups: seq<Group>): string {
    if groups == [] then "" else groups[0].digits + GroupDigits(groups[1..])
  }

  lemma {:induction false} GroupDigitsAreDigits(groups: seq<Group>)
    requires forall i :: 0 <= i < |groups| ==> IsGroup(groups[i])
    ensures AllDigits(GroupDigits(groups))
  {
    if groups != [] {
      GroupDigitsAreDigits(groups[1..]);
    }
  }

  /** One digit after the comma counts tens of cents. */
  function CentsOf(cents: Option<string>): nat
    requires cents.Some? ==> AllDigits(cents.value)
  {
    match cents case None => 0 case Some(digits) => if |digits| == 1 then Value(digits) * 10 else Value(digits)
  }

  function Euros(head: string, groups: seq<Group>): nat
    requires AllDigits(head) && forall i :: 0 <= i < |groups| ==> IsGroup(groups[i])
  {
    GroupDigitsAreDigits(groups);
    Value(head + GroupDigits(groups))
  }

  function Cents(p: PriceText): nat
    requires IsPriceText(p)
  {
    Euros(p.head, p.groups) * 100 + CentsOf(p.cents)
  }

  // ----- The scanner reads the grammar -----

  lemma {:induction false} ReadGroups(groups: seq<Group>, rest: string)
    requires forall i :: 0 <= i < |groups| ==> IsGroup(groups[i])
    requires !StartsGroup(rest)
    ensures TakeGroups(GroupsThen(groups, rest)) == (GroupDigits(groups), rest)
  {
    if groups != [] {
      ReadGroups(groups[1..], rest);
      var tail := GroupsThen(groups[1..], rest);
      var s := GroupsThen(groups, rest);
      assert s[1..4] == groups[0].digits && s[4..] == tail;
    }
  }

  lemma TailsAreTails(e: EuroText)
    requires IsEuroText(e)
    ensures IsTail(TrailString(e)) && !StartsGroup(TrailString(e))
    ensures TrailString(e) == "" || !IsDigit(TrailString(e)[0])
    ensures !(TrailString(e) != "" && TrailString(e)[0] == ',')
  {
  }

  lemma ReadCents(cents: Option<string>, rest: string)
    requires cents.Some? ==> 1 <= |cents.value| <= 2 && AllDigits(cents.value)
    requires rest == "" || (!IsDigit(rest[0]) && rest[0] != ',')
    ensures TakeCents(CentsThen(cents, rest)) == Some((CentsOf(cents), rest))
  {
    if cents.Some? {
      var s := CentsThen(cents, rest);
      assert s[1..] == cents.value + rest;
      RunOfDigits(cents.value, rest);
      assert (cents.value + rest)[..|cents.value|] == cents.value;
      assert (cents.value + rest)[|cents.value|..] == rest;
    }
  }

  lemma ReadLead(e: EuroText, rest: string)
    requires IsEuroText(e) && rest != "" && IsDigit(rest[0])
    ensures AfterEuro(LeadThen(e, rest)) == rest
  {
    if e.EuroSign? {
      var s := LeadThen(e, rest);
      assert s[1..] == e.space + rest;
      if e.space != "" {
        assert s[2..] == rest;
      }
    }
  }

  predicate IsWhole(head: string, groups: seq<Group>) {
    && head != "" && AllDigits(head) && (groups != [] ==> |head| <= 3)
    && forall i :: 0 <= i < |groups| ==> IsGroup(groups[i])
  }

  lemma ReadWhole(head: string, groups: seq<Group>, tail: string)
    requires IsWhole(head, groups) && !StartsGroup(tail) && (tail == "" || !IsDigit(tail[0]))
    ensures TakeWhole(head + GroupsThen(groups, tail)) == Some((Euros(head, groups), tail))
  {
    var after := GroupsThen(groups, tail);
    var t := head + after;
    assert after == "" || !IsDigit(after[0]);
    RunOfDigits(head, after);
    assert t[..|head|] == head && t[|head|..] == after;
    ReadGroups(groups, tail);
  }

  lemma AfterNumber(cents: Option<string>, trail: EuroText)
    requires IsEuroText(trail)
    ensures var tail := CentsThen(cents, TrailString(trail)); !StartsGroup(tail) && (tail == "" || !IsDigit(tail[0]))
  {
    TailsAreTails(trail);
  }

  lemma CentsOfParts(s: string, t: string, euros: nat, tail: string, cents: nat, trail: string, total: nat)
    requires AfterEuro(s) == t && TakeWhole(t) == Some((euros, tail))
    requires TakeCents(tail) == Some((cents, trail)) && IsTail(trail) && total == euros * 100 + cents
    ensures PriceCents(s) == Some(total)
  {
  }

  /** Every text of the grammar is read as its amount. */
  lemma GrammarIsRead(p: PriceText)
    requires IsPriceText(p)
    ensures PriceCents(Render(p)) == Some(Cents(p))
  {
    var trail := TrailString(p.trail);
    var tail := CentsThen(p.cents, trail);
    var t := p.head + GroupsThen(p.groups, tail);
    assert AfterEuro(Render(p)) == t by {
      ReadLead(p.lead, t);
    }
    assert TakeWhole(t) == Some((Euros(p.head, p.groups), tail)) by {
      AfterNumber(p.cents, p.trail);
      ReadWhole(p.head, p.groups, tail);
    }
    assert IsTail(trail) && TakeCents(tail) == Some((CentsOf(p.cents), trail)) by {
      TailsAreTails(p.trail);
      ReadCents(p.cents, trail);
    }
    CentsOfParts(Render(p), t, Euros(p.head, p.groups), tail, CentsOf(p.cents), trail, Cents(p));
  }

  // ----- The grammar covers what the scanner accepts -----

  lemma {:induction false} WriteGroups(s: string) returns (groups: seq<Group>)
    ensures forall i :: 0 <= i < |groups| ==> IsGroup(groups[i])
    ensures s == GroupsThen(groups, TakeGroups(s).1) && GroupDigits(groups) == TakeGroups(s).0
  {
    if StartsGroup(s) {
      var rest := WriteGroups(s[4..]);
      groups := [Group(s[0], s[1..4])] + rest;
      assert groups[1..] == rest;
      assert s == [s[0]] + (s[1..4] + s[4..]);
    } else {
      groups := [];
    }
  }

  lemma WriteLead(s: string) returns (lead: EuroText)
    ensures IsEuroText(lead) && s == LeadThen(lead, AfterEuro(s))
  {
    if s != "" && s[0] == EURO {
      var space := if |s| > 1 && IsJsSpace(s[1]) then [s[1]] else "";
      lead := EuroSign(space);
      assert s == [s[0]] + (space + AfterEuro(s));
    } else {
      lead := NoEuro;
    }
  }

  lemma WriteCents(s: string) returns (cents: Option<string>)
    requires TakeCents(s).Some?
    ensures cents.Some? ==> 1 <= |cents.value| <= 2 && AllDigits(cents.value)
    ensures s == CentsThen(cents, TakeCents(s).value.1) && CentsOf(cents) == TakeCents(s).value.0
  {
    if s != "" && s[0] == ',' {
      var n := DigitRun(s[1..]);
      cents := Some(s[1..][..n]);
      assert s == [s[0]] + (s[1..][..n] + s[1..][n..]);
    } else {
      cents := None;
    }
  }

  lemma WriteTrail(s: string) returns (trail: EuroText)
    requires IsTail(s)
    ensures IsEuroText(trail) && s == TrailString(trail)
  {
    if s == "" {
      trail := NoEuro;
    } else if |s| == 1 {
      trail := EuroSign("");
      assert s == "" + [EURO];
    } else {
      trail := EuroSign([s[0]]);
      assert s == [s[0]] + [EURO];
    }
  }

  lemma WriteWhole(t: string) returns (head: string, groups: seq<Group>)
    requires TakeWhole(t).Some?
    ensures IsWhole(head, groups) && t == head + GroupsThen(groups, TakeWhole(t).value.1)
  {
    var n := DigitRun(t);
    head, groups := t[..n], [];
    if n <= 3 {
      groups := WriteGroups(t[n..]);
    }
    assert t == t[..n] + t[n..];
  }

  /** Every text that the scanner accepts is a text of the grammar. */
  lemma AcceptedIsPriceText(s: string) returns (p: PriceText)
    requires PriceCents(s).Some?
    ensures IsPriceText(p) && Render(p) == s
  {
    var afterWhole := TakeWhole(AfterEuro(s)).value.1;
    var lead := WriteLead(s);
    var head, groups := WriteWhole(AfterEuro(s));
    var cents := WriteCents(afterWhole);
    var trail := WriteTrail(TakeCents(afterWhole).value.1);
    p := PriceText(lead, head, groups, cents, trail);
  }

  /** The scanner accepts exactly the texts of the price pattern, with their amount. */
  lemma ScannerIsThePattern(s: string)
    ensures PriceCents(s).Some? <==> exists p :: IsPriceText(p) && Render(p) == s
    ensures forall p :: IsPriceText(p) && Render(p) == s ==> PriceCents(s) == Some(Cents(p))
  {
    if PriceCents(s).Some? {
      var p := AcceptedIsPriceText(s);
      assert IsPriceText(p) && Render(p) == s;
    }
    forall p | IsPriceText(p) && Render(p) == s
      ensures PriceCents(s) == Some(Cents(p))
    {
      GrammarIsRead(p);
    }
  }

  // ----- parsePrice -----

  function PlainSpaces(text: string): string {
    if text == "" then ""
    else [if text[0] == '\U{A0}' || text[0] == '\U{202F}' then ' ' else text[0]] + PlainSpaces(text[1..])
  }

  function Normalised(text: string): string {
    Trim(PlainSpaces(text), IsJsSpace)
  }

  predicate IsFree(s: string) {
    |s| == 4 && LowerAscii(s[0]) == 'f' && LowerAscii(s[1]) == 'r' && LowerAscii(s[2]) == 'e' && LowerAscii(s[3]) == 'e'
  }

  /** The exact decimal of a price text, in cents. */
  function ExactPrice(text: string): Option<nat> {
    var normalized := Normalised(text);
    if IsFree(normalized) then Some(0) else PriceCents(normalized)
  }

  /**
    The place of the nearest double of an amount among the doubles: rounding keeps the order,
    but may join amounts.
  */
  ghost predicate IsRounding(round: nat -> int) {
    forall a: nat, b: nat :: a <= b ==> round(a) <= round(b)
  }

  function Rounded(round: nat -> int, amount: Option<nat>): Option<int> {
    match amount case None => None case Some(cents) => Some(round(cents))
  }

  /** `parsePrice`: the double of the exact decimal. */
  function ParsePrice(round: nat -> int, text: string): Option<int> {
    Rounded(round, ExactPrice(text))
  }

  // ----- Amounts and their texts -----

  /** The digits of a number, without leading zeros. */
  function Decimal(n: nat): (s: string)
    ensures s != "" && AllDigits(s)
  {
    if n < 10 then [DigitChar(n)] else Decimal(n / 10) + [DigitChar(n % 10)]
  }

  lemma {:induction false} ValueOfDecimal(n: nat)
    ensures Value(Decimal(n)) == n
  {
    if n >= 10 {
      ValueOfDecimal(n / 10);
      assert Decimal(n)[..|Decimal(n)| - 1] == Decimal(n / 10);
    } else {
      assert Decimal(n)[..0] == "";
    }
  }

  function Threes(digits: string, separator: char): (groups: seq<Group>)
    requires |digits| % 3 == 0 && AllDigits(digits) && separator in " ."
    ensures forall i :: 0 <= i < |groups| ==> IsGroup(groups[i])
    ensures GroupDigits(groups) == digits
  {
    if digits == "" then []
    else
      var rest := Threes(digits[3..], separator);
      assert digits == digits[..3] + digits[3..];
      var groups := [Group(separator, digits[..3])] + rest;
      assert groups[1..] == rest;
      groups
  }

  /** How many digits stand before the first group. */
  function HeadSize(n: nat): nat {
    if n % 3 == 0 && n > 0 then 3 else n % 3
  }

  datatype Style = Style(lead: EuroText, trail: EuroText, separator: Option<char>, centDigits: nat)

  predicate ShowsCents(digits: nat, cents: nat) {
    digits == 2 || (digits == 1 && cents % 10 == 0) || (digits == 0 && cents == 0)
  }

  /** A style can show the amount: two digits always, one for whole tens of cents, none for whole euros. */
  predicate Shows(style: Style, amount: nat) {
    && IsEuroText(style.lead) && IsEuroText(style.trail)
    && (style.separator.Some? ==> style.separator.value in " .")
    && ShowsCents(style.centDigits, amount % 100)
  }

  /** The text of an amount: its euros with or without groups, then its cents. */
  function PriceOf(style: Style, amount: nat): (p: PriceText)
    requires Shows(style, amount)
    ensures IsPriceText(p)
  {
    var euros, cents := Decimal(amount / 100), amount % 100;
    var h := if style.separator.Some? then HeadSize(|euros|) else |euros|;
    PriceText(style.lead, euros[..h],
              if style.separator.Some? then Threes(euros[h..], style.separator.value) else [],
              if style.centDigits == 0 then None
              else if style.centDigits == 1 then Some(Pad(cents / 10, 1)) else Some(Pad(cents, 2)),
              style.trail)
  }

  lemma CentsOfPrice(style: Style, amount: nat)
    requires Shows(style, amount)
    ensures Cents(PriceOf(style, amount)) == amount
  {
    var euros, cents := Decimal(amount / 100), amount % 100;
    var p := PriceOf(style, amount);
    assert Euros(p.head, p.groups) == amount / 100 by {
      assert p.head + GroupDigits(p.groups) == euros;
      ValueOfDecimal(amount / 100);
    }
    assert CentsOf(p.cents) == cents by {
      CentDigits(style, cents, p.cents);
    }
  }

  lemma CentDigits(style: Style, cents: nat, digits: Option<string>)
    requires cents <= 99 && ShowsCents(style.centDigits, cents)
    requires digits == if style.centDigits == 0 then None
                       else if style.centDigits == 1 then Some(Pad(cents / 10, 1)) else Some(Pad(cents, 2))
    ensures CentsOf(digits) == cents
  {
    PowersOfTen();
    assert Pow10(1) == 10;
    ValueOfPad(cents / 10, 1);
    ValueOfPad(cents, 2);
  }

  lemma DigitIsNoLetter(c: char)
    requires IsDigit(c) || c == EURO
    ensures LowerAscii(c) != 'f'
  {
  }

  /** Every amount in every style parses back from a text that normalises to the rendering. */
  lemma NormalisedRoundTrip(style: Style, amount: nat, text: string)
    requires Shows(style, amount) && Normalised(text) == Render(PriceOf(style, amount))
    ensures ExactPrice(text) == Some(amount)
  {
    var p := PriceOf(style, amount);
    GrammarIsRead(p);
    CentsOfPrice(style, amount);
    StartsTidy(p);
    DigitIsNoLetter(Render(p)[0]);
  }

  predicate IsNoBreakSpace(c: char) {
    c == '\U{A0}' || c == '\U{202F}'
  }

  /** No no-break space, and no white space at the end. */
  predicate TidyEnd(s: string) {
    (forall i :: 0 <= i < |s| ==> !IsNoBreakSpace(s[i])) && (s != "" ==> !IsJsSpace(s[|s| - 1]))
  }

  lemma StartsTidy(p: PriceText)
    requires IsPriceText(p)
    ensures Render(p) != "" && (IsDigit(Render(p)[0]) || Render(p)[0] == EURO)
  {
  }

  lemma TidyDigits(digits: string, rest: string)
    requires AllDigits(digits) && TidyEnd(rest)
    ensures TidyEnd(digits + rest)
  {
    var s := digits + rest;
    forall i | 0 <= i < |s|
      ensures !IsNoBreakSpace(s[i])
    {
      assert s[i] == if i < |digits| then digits[i] else rest[i - |digits|];
    }
  }

  lemma {:induction false} TidyGroups(groups: seq<Group>, rest: string)
    requires (forall i :: 0 <= i < |groups| ==> IsGroup(groups[i])) && TidyEnd(rest)
    ensures TidyEnd(GroupsThen(groups, rest))
  {
    if groups != [] {
      TidyGroups(groups[1..], rest);
      TidyDigits(groups[0].digits, GroupsThen(groups[1..], rest));
    }
  }

  lemma TidyTail(cents: Option<string>, trail: EuroText)
    requires cents.Some? ==> AllDigits(cents.value)
    requires trail.EuroSign? ==> trail.space in ["", " "]
    ensures TidyEnd(CentsThen(cents, TrailString(trail)))
  {
    if cents.Some? {
      TidyDigits(cents.value, TrailString(trail));
    }
  }

  lemma RenderIsTidy(p: PriceText)
    requires IsPriceText(p)
    requires p.lead.EuroSign? ==> p.lead.space in ["", " "]
    requires p.trail.EuroSign? ==> p.trail.space in ["", " "]
    ensures TidyEnd(Render(p))
  {
    var tail := CentsThen(p.cents, TrailString(p.trail));
    TidyTail(p.cents, p.trail);
    TidyGroups(p.groups, tail);
    TidyDigits(p.head, GroupsThen(p.groups, tail));
  }

  /** `text` is `plain` with any of its spaces as a no-break space. */
  predicate SpacedLike(text: string, plain: string) {
    && |text| == |plain|
    && forall i :: 0 <= i < |text| ==> text[i] == plain[i] || (plain[i] == ' ' && IsNoBreakSpace(text[i]))
  }

  lemma {:induction false} PlainSpacesOf(text: string, plain: string)
    requires SpacedLike(text, plain) && forall i :: 0 <= i < |plain| ==> !IsNoBreakSpace(plain[i])
    ensures PlainSpaces(text) == plain
  {
    if text != "" {
      PlainSpacesOf(text[1..], plain[1..]);
      assert plain == [plain[0]] + plain[1..];
    }
  }

  lemma TidyIsNormal(text: string, plain: string)
    requires TidyEnd(plain) && plain != "" && !IsJsSpace(plain[0]) && SpacedLike(text, plain)
    ensures Normalised(text) == plain
  {
    PlainSpacesOf(text, plain);
    assert TrimLeft(plain, IsJsSpace) == plain && TrimRight(plain, IsJsSpace) == plain;
  }

  lemma ExactRoundTrip(style: Style, amount: nat, text: string)
    requires Shows(style, amount)
    requires style.lead.EuroSign? ==> style.lead.space in ["", " "]
    requires style.trail.EuroSign? ==> style.trail.space in ["", " "]
    requires SpacedLike(text, Render(PriceOf(style, amount)))
    ensures ExactPrice(text) == Some(amount)
  {
    var plain := Render(PriceOf(style, amount));
    assert Normalised(text) == plain by {
      RenderIsTidy(PriceOf(style, amount));
      StartsTidy(PriceOf(style, amount));
      TidyIsNormal(text, plain);
    }
    NormalisedRoundTrip(style, amount, text);
  }

  /**
    Every amount, with or without the euro sign on either side, with or without groups, and
    with any of its spaces as a no-break space, parses to the double of exactly that amount.
  */
  lemma AmountRoundTrip(round: nat -> int, style: Style, amount: nat, text: string)
    requires Shows(style, amount)
    requires style.lead.EuroSign? ==> style.lead.space in ["", " "]
    requires style.trail.EuroSign? ==> style.trail.space in ["", " "]
    requires SpacedLike(text, Render(PriceOf(style, amount)))
    ensures ExactPrice(text) == Some(amount) && ParsePrice(round, text) == Some(round(amount))
  {
    ExactRoundTrip(style, amount, text);
  }

  // ----- The sorts -----

  predicate IsPlusIncludedLabel(upsell: string) {
    upsell == "essential" || upsell == "extra"
  }

  function LowerAll(s: string): string {
    if s == "" then "" else [LowerAscii(s[0])] + LowerAll(s[1..])
  }

  /** The exact amount of a game, in cents: a game the viewer gets at no cost counts as 0. */
  function AmountOf(g: Game): Option<nat> {
    var upsell := LowerAll(Trim(g.plusLabel.GetOr(""), IsJsSpace));
    if g.plusIncluded || IsPlusIncludedLabel(upsell) then Some(0) else ExactPrice(g.price)
  }

  /** The text is the lower-case word, with any of its letters in upper case. */
  predicate IsInAnyCase(s: string, word: string) {
    |s| == |word| && forall i :: 0 <= i < |s| ==> s[i] == word[i] || s[i] as int + 32 == word[i] as int
  }

  lemma {:induction false} LowerIsWord(s: string, word: string)
    requires forall i :: 0 <= i < |word| ==> 'a' <= word[i] <= 'z'
    ensures LowerAll(s) == word <==> IsInAnyCase(s, word)
  {
    if s != "" && word != "" {
      LowerIsWord(s[1..], word[1..]);
      assert word == [word[0]] + word[1..] && LowerAll(s)[1..] == LowerAll(s[1..]);
      if IsInAnyCase(s[1..], word[1..]) {
        assert forall i :: 0 < i < |s| ==> s[i] == s[1..][i - 1] && word[i] == word[1..][i - 1];
      }
      if IsInAnyCase(s, word) {
        assert forall i :: 0 <= i < |s| - 1 ==> s[1..][i] == s[i + 1] && word[1..][i] == word[i + 1];
      }
    }
  }

  /** What costs nothing: the word Free, an included game, and the labels Essential and Extra, in any case. */
  lemma FreeAmountsAre(g: Game)
    ensures ExactPrice(g.price)
         == if IsInAnyCase(Normalised(g.price), "free") then Some(0) else PriceCents(Normalised(g.price))
    ensures AmountOf(g)
         == var upsell := Trim(g.plusLabel.GetOr(""), IsJsSpace);
            if g.plusIncluded || IsInAnyCase(upsell, "essential") || IsInAnyCase(upsell, "extra") then Some(0)
            else ExactPrice(g.price)
  {
    var upsell := Trim(g.plusLabel.GetOr(""), IsJsSpace);
    LowerIsWord(upsell, "essential");
    LowerIsWord(upsell, "extra");
  }

  /** `priceKey`. */
  function PriceKey(round: nat -> int): Game -> Option<int> {
    (g: Game) => Rounded(round, AmountOf(g))
  }

  datatype SortField = DateField | PriceField

  /** `sortGames` by date or by price. */
  function SortGames(round: nat -> int, games: seq<Game>, field: SortField, descending: bool): seq<Game> {
    SortByKey(games, if field.DateField? then ReleaseKey() else PriceKey(round), descending)
  }

  /**
    The date sort is a permutation, newest or soonest first, with undated games last in both
    directions, and games of one instant keep their order.
  */
  lemma DateSortIs(round: nat -> int, games: seq<Game>, descending: bool, instant: Option<int>)
    ensures var r := SortGames(round, games, DateField, descending);
            && multiset(r) == multiset(games)
            && (forall i, j :: 0 <= i < j < |r| ==>
                  InReleaseOrder(if descending then New else Upcoming, DateMs(r[i].date), DateMs(r[j].date)))
            && Filter(r, HasInstant(instant)) == Filter(games, HasInstant(instant))
  {
    var view := if descending then New else Upcoming;
    assert SortGames(round, games, DateField, descending) == Sort(games, ViewOrder(view));
    SortedIsReleaseList(view, games);
    SortedKeepsInstants(view, games, instant);
  }

  /** The game of amount `a` may stand before the game of amount `b`. */
  predicate InPriceOrder(round: nat -> int, a: nat, b: nat, descending: bool) {
    (if descending then a >= b else a <= b) || round(a) == round(b)
  }

  /**
    The price sort is a stable permutation by exact amount, up to amounts with one nearest
    double, with unpriced games last in both directions.
  */
  lemma PriceSortIs(round: nat -> int, games: seq<Game>, descending: bool)
    requires IsRounding(round)
    ensures var r := SortGames(round, games, PriceField, descending); var key := PriceKey(round);
            && multiset(r) == multiset(games)
            && (forall i, j :: 0 <= i < j < |r| && AmountOf(r[i]).Some? && AmountOf(r[j]).Some? ==>
                  InPriceOrder(round, AmountOf(r[i]).value, AmountOf(r[j]).value, descending))
            && StableFor(r, games, KeyOrder(key, descending))
            && r == SortByKey(Filter(games, Keyed(key)), key, descending) + Filter(games, Unkeyed(key))
  {
    var key := PriceKey(round);
    SortByKeyIs(games, key, descending);
    UnkeyedSortLast(games, key, descending);
    var r := SortGames(round, games, PriceField, descending);
    forall i, j | 0 <= i < j < |r| && AmountOf(r[i]).Some? && AmountOf(r[j]).Some?
      ensures InPriceOrder(round, AmountOf(r[i]).value, AmountOf(r[j]).value, descending)
    {
      var a, b := AmountOf(r[i]).value, AmountOf(r[j]).value;
      assert key(r[i]) == Some(round(a)) && key(r[j]) == Some(round(b));
    }
  }
}
