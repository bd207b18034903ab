/**
  The text order of the genre menu (crates/domain/src/js.rs, crates/domain/src/listing.rs).
*/
module Collation {
  import opened Collections
  import opened Digits
  import opened Sequences
  import opened Sorting
  import opened KeySort
  import opened Texts

  datatype CollationKey = CollationKey(primary: nat, secondary: nat, tertiary: nat)

  const ASCII_SYMBOL_ORDER := " _-,;:!?.'\"()[]{}@*/\\&#%`^+<=>|~$"

  const DIGIT_BASE: nat := 100
  const LETTER_BASE: nat := 200
  const OTHER_BASE: nat := 1000

  const ACUTE: nat := 1
  const GRAVE: nat := 2
  const CIRCUMFLEX: nat := 4
  const RING: nat := 6
  const DIAERESIS: nat := 7
  const TILDE: nat := 9
  const CEDILLA: nat := 11

  predicate IsControl(c: char) {
    (c as int) < 0x20 || 0x7F <= c as int <= 0x9F
  }

  predicate IsAsciiLetter(c: char) {
    'a' <= c <= 'z' || 'A' <= c <= 'Z'
  }

  /** The index of a character in a text, searched from `i`. */
  function Position(s: string, c: char, i: nat): (r: Option<nat>)
    requires i <= |s|
    ensures r.Some? ==> i <= r.value < |s| && s[r.value] == c
    ensures r.None? ==> forall k :: i <= k < |s| ==> s[k] != c
    decreases |s| - i
  {
    if i == |s| then None else if s[i] == c then Some(i) else Position(s, c, i + 1)
  }

  /** The upper-case Latin-1 letters with an accent, from U+00C0: base letter and accent, or a blank. */
  const LATIN_BASES: seq<(char, nat)> := [
    ('A', GRAVE), ('A', ACUTE), ('A', CIRCUMFLEX), ('A', TILDE), ('A', DIAERESIS), ('A', RING), (' ', 0),
    ('C', CEDILLA), ('E', GRAVE), ('E', ACUTE), ('E', CIRCUMFLEX), ('E', DIAERESIS),
    ('I', GRAVE), ('I', ACUTE), ('I', CIRCUMFLEX), ('I', DIAERESIS),
    (' ', 0), ('N', TILDE), ('O', GRAVE), ('O', ACUTE), ('O', CIRCUMFLEX), ('O', TILDE), ('O', DIAERESIS), (' ', 0),
    (' ', 0), ('U', GRAVE), ('U', ACUTE), ('U', CIRCUMFLEX), ('U', DIAERESIS), ('Y', ACUTE), (' ', 0), (' ', 0)]

  /** `latin_base`: a letter without its accent, and the accent. Lower case stands 32 places after upper case. */
  function LatinBase(c: char): (char, nat) {
    var n := c as int;
    if n == 0xFF then ('y', DIAERESIS)
    else if 0xC0 <= n < 0xE0 && LATIN_BASES[n - 0xC0].1 != 0 then LATIN_BASES[n - 0xC0]
    else if 0xE0 <= n < 0xFF && LATIN_BASES[n - 0xE0].1 != 0 then
      ((LATIN_BASES[n - 0xE0].0 as int + 32) as char, LATIN_BASES[n - 0xE0].1)
    else (c, 0)
  }

  /** `collation_key`: control characters are ignored. */
  function KeyOf(c: char): Option<CollationKey> {
    if IsControl(c) then None
    else match Position(ASCII_SYMBOL_ORDER, c, 0)
         case Some(index) => Some(CollationKey(index, 0, 0))
         case None =>
           if IsDigit(c) then Some(CollationKey(DIGIT_BASE + (c as nat - '0' as nat), 0, 0))
           else
             var (base, accent) := LatinBase(c);
             if IsAsciiLetter(base) then
               Some(CollationKey(LETTER_BASE + (LowerAscii(base) as nat - 'a' as nat), accent,
                                 if 'A' <= base <= 'Z' then 1 else 0))
             else Some(CollationKey(OTHER_BASE + c as nat, 0, 0))
  }

  function KeyFunction(): char -> Option<CollationKey> {
    (c: char) => KeyOf(c)
  }

  function KeysOf(s: string): seq<CollationKey> {
    Somes(Map(s, KeyFunction()))
  }

  datatype Level = Primary | Secondary | Tertiary

  function Weight(level: Level): CollationKey -> nat {
    (k: CollationKey) =>
      match level case Primary => k.primary case Secondary => k.secondary case Tertiary => k.tertiary
  }

  function Weights(s: string, level: Level): seq<nat> {
    Map(KeysOf(s), Weight(level))
  }

  /** The order of two number sequences: the first difference decides, and a prefix comes first. */
  function Lexicographic(a: seq<nat>, b: seq<nat>): Ordering {
    if a == [] then (if b == [] then Equal else Less)
    else if b == [] then Greater
    else if a[0] != b[0] then (if a[0] < b[0] then Less else Greater)
    else Lexicographic(a[1..], b[1..])
  }

  function Then(first: Ordering, second: Ordering): Ordering {
    if first == Equal then second else first
  }

  /** `locale_compare_en`. */
  function LocaleCompare(a: string, b: string): Ordering {
    Then(Lexicographic(Weights(a, Primary), Weights(b, Primary)),
         Then(Lexicographic(Weights(a, Secondary), Weights(b, Secondary)),
              Lexicographic(Weights(a, Tertiary), Weights(b, Tertiary))))
  }

  // ----- The order is a total preorder -----

  function Reverse(o: Ordering): Ordering {
    match o case Less => Greater case Equal => Equal case Greater => Less
  }

  lemma {:induction false} LexicographicReverses(a: seq<nat>, b: seq<nat>)
    ensures Lexicographic(b, a) == Reverse(Lexicographic(a, b))
    ensures Lexicographic(a, b) == Equal <==> a == b
  {
    if a != [] && b != [] {
      LexicographicReverses(a[1..], b[1..]);
      assert a == [a[0]] + a[1..] && b == [b[0]] + b[1..];
    }
  }

  lemma {:induction false} LexicographicTransitive(a: seq<nat>, b: seq<nat>, c: seq<nat>)
    requires Lexicographic(a, b) != Greater && Lexicographic(b, c) != Greater
    ensures Lexicographic(a, c) != Greater
    ensures Lexicographic(a, b) == Less || Lexicographic(b, c) == Less ==> Lexicographic(a, c) == Less
  {
    if a != [] && b != [] && c != [] && a[0] == b[0] == c[0] {
      LexicographicTransitive(a[1..], b[1..], c[1..]);
    }
  }

  /** Swapping the texts turns the answer round, and equal means that all three weight sequences agree. */
  lemma LocaleCompareReverses(a: string, b: string)
    ensures LocaleCompare(b, a) == Reverse(LocaleCompare(a, b))
    ensures LocaleCompare(a, b) == Equal <==> forall level :: Weights(a, level) == Weights(b, level)
  {
    forall level
      ensures Lexicographic(Weights(b, level), Weights(a, level))
           == Reverse(Lexicographic(Weights(a, level), Weights(b, level)))
      ensures Lexicographic(Weights(a, level), Weights(b, level)) == Equal <==> Weights(a, level) == Weights(b, level)
    {
      LexicographicReverses(Weights(a, level), Weights(b, level));
    }
    assert (forall level :: Weights(a, level) == Weights(b, level))
      <==> Weights(a, Primary) == Weights(b, Primary) && Weights(a, Secondary) == Weights(b, Secondary)
           && Weights(a, Tertiary) == Weights(b, Tertiary) by {
      if Weights(a, Primary) == Weights(b, Primary) && Weights(a, Secondary) == Weights(b, Secondary)
         && Weights(a, Tertiary) == Weights(b, Tertiary) {
        forall level
          ensures Weights(a, level) == Weights(b, level)
        {
          match level case Primary => case Secondary => case Tertiary =>
        }
      }
    }
  }

  /** One level of the order, and the levels below it when that level ties. */
  lemma LevelTransitive(a: seq<nat>, b: seq<nat>, c: seq<nat>, ab: Ordering, bc: Ordering, ac: Ordering)
    requires Then(Lexicographic(a, b), ab) != Greater && Then(Lexicographic(b, c), bc) != Greater
    requires a == b == c ==> ac != Greater
    ensures Then(Lexicographic(a, c), ac) != Greater
  {
    LexicographicTransitive(a, b, c);
    LexicographicReverses(a, b);
    LexicographicReverses(b, c);
  }

  lemma LocaleCompareTransitive(a: string, b: string, c: string)
    requires LocaleCompare(a, b) != Greater && LocaleCompare(b, c) != Greater
    ensures LocaleCompare(a, c) != Greater
  {
    var pa, pb, pc := Weights(a, Primary), Weights(b, Primary), Weights(c, Primary);
    var sa, sb, sc := Weights(a, Secondary), Weights(b, Secondary), Weights(c, Secondary);
    var ta, tb, tc := Weights(a, Tertiary), Weights(b, Tertiary), Weights(c, Tertiary);
    LexicographicReverses(pa, pb);
    LexicographicReverses(pb, pc);
    LexicographicReverses(sa, sb);
    LexicographicReverses(sb, sc);
    if pa == pb == pc {
      if sa == sb == sc {
        LexicographicTransitive(ta, tb, tc);
      }
      LevelTransitive(sa, sb, sc, Lexicographic(ta, tb), Lexicographic(tb, tc), Lexicographic(ta, tc));
    }
    LevelTransitive(pa, pb, pc, Then(Lexicographic(sa, sb), Lexicographic(ta, tb)),
                    Then(Lexicographic(sb, sc), Lexicographic(tb, tc)),
                    Then(Lexicographic(sa, sc), Lexicographic(ta, tc)));
  }

  // ----- The primary ranges -----

  datatype Kind = Ignored | Symbol | Digit | Letter | Other

  function KindOf(c: char): Kind {
    if IsControl(c) then Ignored
    else if c in ASCII_SYMBOL_ORDER then Symbol
    else if IsDigit(c) then Digit
    else if IsAsciiLetter(LatinBase(c).0) then Letter
    else Other
  }

  /** Symbols, digits, letters, and the rest have disjoint primary ranges, in this order. */
  lemma PrimaryRanges(c: char)
    ensures KeyOf(c).None? <==> KindOf(c).Ignored?
    ensures KeyOf(c).Some? ==>
              var p := KeyOf(c).value.primary;
              && (KindOf(c).Symbol? <==> p < DIGIT_BASE)
              && (KindOf(c).Digit? <==> DIGIT_BASE <= p < LETTER_BASE)
              && (KindOf(c).Letter? <==> LETTER_BASE <= p < OTHER_BASE)
              && (KindOf(c).Other? <==> OTHER_BASE <= p)
  {
    var position := Position(ASCII_SYMBOL_ORDER, c, 0);
    assert |ASCII_SYMBOL_ORDER| == 33;
    assert c in ASCII_SYMBOL_ORDER <==> position.Some?;
  }

  /** Every printable ASCII character is a symbol, a digit, or a letter: none falls to the other characters. */
  lemma AsciiIsCovered(c: char)
    requires ' ' <= c <= '~'
    ensures KindOf(c).Symbol? || KindOf(c).Digit? || KindOf(c).Letter?
  {
  }

  predicate IsPrintableAscii(s: string) {
    forall i :: 0 <= i < |s| ==> ' ' <= s[i] <= '~'
  }

  /** The printable ASCII character with these weights. */
  function CharOf(primary: nat, tertiary: nat): char {
    if primary < |ASCII_SYMBOL_ORDER| then ASCII_SYMBOL_ORDER[primary]
    else if DIGIT_BASE <= primary < DIGIT_BASE + 10 then (primary - DIGIT_BASE + '0' as nat) as char
    else if LETTER_BASE <= primary < LETTER_BASE + 26 then
      (primary - LETTER_BASE + if tertiary == 1 then 'A' as nat else 'a' as nat) as char
    else ' '
  }

  lemma AsciiKeyIsInvertible(c: char)
    requires ' ' <= c <= '~'
    ensures KeyOf(c).Some? && CharOf(KeyOf(c).value.primary, KeyOf(c).value.tertiary) == c
  {
    AsciiIsCovered(c);
    assert |ASCII_SYMBOL_ORDER| == 33;
  }

  /** A printable ASCII character has a key of its own. */
  lemma AsciiKeysAreApart(c: char, d: char)
    requires ' ' <= c <= '~' && ' ' <= d <= '~'
    ensures KeyOf(c).Some? && KeyOf(d).Some?
    ensures var k, l := KeyOf(c).value, KeyOf(d).value; k.primary == l.primary && k.tertiary == l.tertiary ==> c == d
  {
    AsciiKeyIsInvertible(c);
    AsciiKeyIsInvertible(d);
  }

  lemma {:induction false} KeysOfAscii(s: string)
    requires IsPrintableAscii(s)
    ensures |KeysOf(s)| == |s|
    ensures forall i :: 0 <= i < |s| ==> Some(KeysOf(s)[i]) == KeyOf(s[i])
  {
    if s != "" {
      KeysOfAscii(s[1..]);
      AsciiKeysAreApart(s[0], s[0]);
      assert Map(s, KeyFunction())[1..] == Map(s[1..], KeyFunction());
      assert KeysOf(s) == [KeyOf(s[0]).value] + KeysOf(s[1..]);
    }
  }

  /** On printable ASCII the order is exact: no two different texts are equal in it. */
  lemma AsciiOrderIsExact(a: string, b: string)
    requires IsPrintableAscii(a) && IsPrintableAscii(b)
    ensures LocaleCompare(a, b) == Equal <==> a == b
  {
    LocaleCompareReverses(a, b);
    KeysOfAscii(a);
    KeysOfAscii(b);
    if LocaleCompare(a, b) == Equal {
      var primary, primary' := Weights(a, Primary), Weights(b, Primary);
      var tertiary, tertiary' := Weights(a, Tertiary), Weights(b, Tertiary);
      assert primary == primary' && tertiary == tertiary';
      forall i | 0 <= i < |a|
        ensures a[i] == b[i]
      {
        AsciiKeysAreApart(a[i], b[i]);
        assert primary[i] == KeysOf(a)[i].primary && primary'[i] == KeysOf(b)[i].primary;
        assert tertiary[i] == KeysOf(a)[i].tertiary && tertiary'[i] == KeysOf(b)[i].tertiary;
      }
    }
  }

  // ----- The direction of the order -----

  lemma {:induction false} LexicographicPrefix(common: seq<nat>, a: seq<nat>, b: seq<nat>)
    ensures Lexicographic(common + a, common + b) == Lexicographic(a, b)
  {
    if common == [] {
      assert common + a == a && common + b == b;
    } else {
      LexicographicPrefix(common[1..], a, b);
      assert (common + a)[1..] == common[1..] + a && (common + b)[1..] == common[1..] + b;
    }
  }

  lemma WeightsAppend(a: string, b: string, level: Level)
    ensures Weights(a + b, level) == Weights(a, level) + Weights(b, level)
  {
    MapConcat(a, b, KeyFunction());
    SomesAppend(Map(a, KeyFunction()), Map(b, KeyFunction()));
    MapConcat(KeysOf(a), KeysOf(b), Weight(level));
  }

  lemma WeightsOfChar(c: char, level: Level)
    requires KeyOf(c).Some?
    ensures Weights([c], level) == [Weight(level)(KeyOf(c).value)]
  {
    assert Map([c], KeyFunction()) == [KeyOf(c)];
    SomesOne(KeyOf(c));
  }

  /** One level of two texts that share a first part, in which one character each follows. */
  lemma CompareAfter(common: string, c: char, a: string, d: char, b: string, level: Level)
    requires KeyOf(c).Some? && KeyOf(d).Some?
    ensures var w := Weight(level);
            Lexicographic(Weights(common + ([c] + a), level), Weights(common + ([d] + b), level))
            == Lexicographic([w(KeyOf(c).value)] + Weights(a, level), [w(KeyOf(d).value)] + Weights(b, level))
  {
    WeightsAppend(common, [c] + a, level);
    WeightsAppend(common, [d] + b, level);
    WeightsAppend([c], a, level);
    WeightsAppend([d], b, level);
    WeightsOfChar(c, level);
    WeightsOfChar(d, level);
    LexicographicPrefix(Weights(common, level), Weights([c] + a, level), Weights([d] + b, level));
  }

  /** The printable ASCII characters that are no digits and no letters, in their order. */
  const SYMBOLS := " _-,;:!?.'\"()[]{}@*/\\&#%`^+<=>|~$"

  function GroupOf(c: char): nat {
    if '0' <= c <= '9' then 1 else if 'a' <= c <= 'z' || 'A' <= c <= 'Z' then 2 else 0
  }

  /** Symbols stand before digits and digits before letters; digits count up, and letters go from A to Z. */
  ghost predicate StandsBefore(c: char, d: char) {
    if GroupOf(c) != GroupOf(d) then GroupOf(c) < GroupOf(d)
    else if GroupOf(c) == 0 then exists n :: 0 <= n <= |SYMBOLS| && c in SYMBOLS[..n] && d !in SYMBOLS[..n]
    else if GroupOf(c) == 1 then c < d
    else LowerAscii(c) < LowerAscii(d)
  }

  lemma PositionIsFirst(s: string, c: char, n: nat)
    requires n <= |s|
    ensures c in s[..n] <==> Position(s, c, 0).Some? && Position(s, c, 0).value < n
  {
    var position := Position(s, c, 0);
    if position.Some? && position.value < n {
      assert s[..n][position.value] == c;
    }
    if c in s[..n] {
      var k :| 0 <= k < n && s[..n][k] == c;
      FirstPosition(s, c, 0, k);
    }
  }

  lemma {:induction false} FirstPosition(s: string, c: char, i: nat, k: nat)
    requires i <= k < |s| && s[k] == c
    ensures Position(s, c, i).Some? && Position(s, c, i).value <= k
    decreases |s| - i
  {
    if s[i] != c {
      FirstPosition(s, c, i + 1, k);
    }
  }

  lemma SymbolsAreNoLetters(k: nat)
    requires k < |SYMBOLS|
    ensures GroupOf(SYMBOLS[k]) == 0
  {
  }

  lemma IsNoSymbol(c: char)
    requires GroupOf(c) != 0
    ensures Position(ASCII_SYMBOL_ORDER, c, 0) == None
  {
    var position := Position(ASCII_SYMBOL_ORDER, c, 0);
    if position.Some? {
      assert SYMBOLS == ASCII_SYMBOL_ORDER;
      SymbolsAreNoLetters(position.value);
    }
  }

  lemma PrimaryOfSymbol(c: char)
    requires ' ' <= c <= '~' && GroupOf(c) == 0
    ensures var position := Position(ASCII_SYMBOL_ORDER, c, 0);
            position.Some? && position.value < 33 && KeyOf(c) == Some(CollationKey(position.value, 0, 0))
  {
    AsciiIsCovered(c);
    assert |ASCII_SYMBOL_ORDER| == 33;
  }

  lemma PrimaryOfDigit(c: char)
    requires GroupOf(c) == 1
    ensures KeyOf(c) == Some(CollationKey(100 + (c as nat - '0' as nat), 0, 0))
  {
    IsNoSymbol(c);
  }

  lemma PrimaryOfLetter(c: char)
    requires GroupOf(c) == 2
    ensures KeyOf(c) == Some(CollationKey(200 + (LowerAscii(c) as nat - 'a' as nat), 0, if c <= 'Z' then 1 else 0))
  {
    IsNoSymbol(c);
  }

  lemma PrimaryOfGroup(c: char)
    requires ' ' <= c <= '~'
    ensures KeyOf(c).Some?
    ensures var p := KeyOf(c).value.primary;
            if GroupOf(c) == 0 then p < 33 else if GroupOf(c) == 1 then 100 <= p < 110 else 200 <= p
  {
    if GroupOf(c) == 0 {
      PrimaryOfSymbol(c);
    } else if GroupOf(c) == 1 {
      PrimaryOfDigit(c);
    } else {
      PrimaryOfLetter(c);
    }
  }

  lemma SymbolsStandBefore(c: char, d: char, n: nat)
    requires ' ' <= c <= '~' && ' ' <= d <= '~' && GroupOf(c) == GroupOf(d) == 0
    requires n <= |SYMBOLS| && c in SYMBOLS[..n] && d !in SYMBOLS[..n]
    ensures KeyOf(c).Some? && KeyOf(d).Some? && KeyOf(c).value.primary < KeyOf(d).value.primary
  {
    assert SYMBOLS == ASCII_SYMBOL_ORDER;
    PositionIsFirst(ASCII_SYMBOL_ORDER, c, n);
    PositionIsFirst(ASCII_SYMBOL_ORDER, d, n);
    PrimaryOfSymbol(c);
    PrimaryOfSymbol(d);
  }

  lemma PrimaryStandsBefore(c: char, d: char)
    requires ' ' <= c <= '~' && ' ' <= d <= '~' && StandsBefore(c, d)
    ensures KeyOf(c).Some? && KeyOf(d).Some? && KeyOf(c).value.primary < KeyOf(d).value.primary
  {
    if GroupOf(c) != GroupOf(d) {
      PrimaryOfGroup(c);
      PrimaryOfGroup(d);
    } else if GroupOf(c) == 0 {
      var n :| 0 <= n <= |SYMBOLS| && c in SYMBOLS[..n] && d !in SYMBOLS[..n];
      SymbolsStandBefore(c, d, n);
    } else if GroupOf(c) == 1 {
      PrimaryOfDigit(c);
      PrimaryOfDigit(d);
    } else {
      PrimaryOfLetter(c);
      PrimaryOfLetter(d);
    }
  }

  /** Behind a common part of any kind the first two printable ASCII characters that differ in more than case decide. */
  lemma FirstDifferenceDecides(common: string, c: char, a: string, d: char, b: string)
    requires ' ' <= c <= '~' && ' ' <= d <= '~' && StandsBefore(c, d)
    ensures LocaleCompare(common + ([c] + a), common + ([d] + b)) == Less
  {
    PrimaryStandsBefore(c, d);
    CompareAfter(common, c, a, d, b, Primary);
  }

  /** A text comes before every continuation of it that has a character with a weight. */
  lemma PrefixComesFirst(common: string, c: char, b: string)
    requires ' ' <= c <= '~'
    ensures LocaleCompare(common, common + ([c] + b)) == Less
  {
    AsciiKeysAreApart(c, c);
    WeightsAppend(common, [c] + b, Primary);
    WeightsAppend([c], b, Primary);
    WeightsOfChar(c, Primary);
    assert common + "" == common;
    LexicographicPrefix(Weights(common, Primary), [], Weights([c] + b, Primary));
    assert Weights(common, Primary) + [] == Weights(common, Primary);
  }

  /** Two texts of one weight sequence at a level, with one more character each in front that ties too. */
  lemma TieAfter(common: string, c: char, a: string, d: char, b: string, level: Level)
    requires KeyOf(c).Some? && KeyOf(d).Some? && Weights(a, level) == Weights(b, level)
    requires Weight(level)(KeyOf(c).value) == Weight(level)(KeyOf(d).value)
    ensures Lexicographic(Weights(common + ([c] + a), level), Weights(common + ([d] + b), level)) == Equal
  {
    CompareAfter(common, c, a, d, b, level);
    LexicographicReverses([Weight(level)(KeyOf(c).value)] + Weights(a, level),
                          [Weight(level)(KeyOf(d).value)] + Weights(b, level));
  }

  /** Printable ASCII texts that are one but for case. */
  predicate AreOneButForCase(a: string, b: string) {
    && IsPrintableAscii(a) && IsPrintableAscii(b) && |a| == |b|
    && forall i :: 0 <= i < |a| ==> LowerAscii(a[i]) == LowerAscii(b[i])
  }

  lemma CaseKeepsKey(c: char, d: char)
    requires ' ' <= c <= '~' && ' ' <= d <= '~' && LowerAscii(c) == LowerAscii(d)
    ensures KeyOf(c).Some? && KeyOf(d).Some?
    ensures KeyOf(c).value.primary == KeyOf(d).value.primary && KeyOf(c).value.secondary == KeyOf(d).value.secondary
  {
    if c == d {
      PrimaryOfGroup(c);
    } else {
      PrimaryOfLetter(c);
      PrimaryOfLetter(d);
    }
  }

  lemma CaseKeepsWeights(a: string, b: string, level: Level)
    requires AreOneButForCase(a, b) && !level.Tertiary?
    ensures Weights(a, level) == Weights(b, level)
  {
    KeysOfAscii(a);
    KeysOfAscii(b);
    forall i | 0 <= i < |a|
      ensures Weights(a, level)[i] == Weights(b, level)[i]
    {
      CaseKeepsKey(a[i], b[i]);
    }
  }

  /** Of two such texts the one with the first lower-case letter comes first. */
  lemma LowerCaseFirst(common: string, c: char, a: string, b: string)
    requires 'a' <= c <= 'z' && AreOneButForCase(a, b)
    ensures LocaleCompare(common + ([c] + a), common + ([(c as int - 32) as char] + b)) == Less
  {
    var d := (c as int - 32) as char;
    PrimaryOfLetter(c);
    PrimaryOfLetter(d);
    CaseKeepsWeights(a, b, Primary);
    CaseKeepsWeights(a, b, Secondary);
    TieAfter(common, c, a, d, b, Primary);
    TieAfter(common, c, a, d, b, Secondary);
    CompareAfter(common, c, a, d, b, Tertiary);
  }

  /** The lower-case letters of Latin-1 with an accent, and the same letters without. */
  const ACCENTED := "\U{E0}\U{E1}\U{E2}\U{E3}\U{E4}\U{E5}\U{E7}\U{E8}\U{E9}\U{EA}\U{EB}\U{EC}\U{ED}\U{EE}"
                  + "\U{EF}\U{F1}\U{F2}\U{F3}\U{F4}\U{F5}\U{F6}\U{F9}\U{FA}\U{FB}\U{FC}\U{FD}\U{FF}"
  const PLAIN := "aaaaaaceeeeiiiinooooouuuuyy"

  predicate IsAccented(c: char, base: char) {
    c as int >= 0xE0 && LatinBase(c).0 == base && LatinBase(c).1 > 0
  }

  lemma FirstAccented(k: nat)
    requires k < 14
    ensures |ACCENTED| == |PLAIN| == 27 && IsAccented(ACCENTED[k], PLAIN[k])
  {
  }

  lemma LastAccented(k: nat)
    requires 14 <= k < 27
    ensures |ACCENTED| == |PLAIN| == 27 && IsAccented(ACCENTED[k], PLAIN[k])
  {
  }

  lemma SymbolsAreAscii(k: nat)
    requires k < |SYMBOLS|
    ensures SYMBOLS[k] <= '~'
  {
  }

  lemma AccentedKey(k: nat)
    requires k < |PLAIN|
    ensures |ACCENTED| == |PLAIN| && KeyOf(ACCENTED[k]).Some?
    ensures KeyOf(ACCENTED[k]).value.primary == 200 + (PLAIN[k] as nat - 'a' as nat)
    ensures KeyOf(ACCENTED[k]).value.secondary > 0
  {
    if k < 14 {
      FirstAccented(k);
    } else {
      LastAccented(k);
    }
    var position := Position(ASCII_SYMBOL_ORDER, ACCENTED[k], 0);
    if position.Some? {
      assert SYMBOLS == ASCII_SYMBOL_ORDER;
      SymbolsAreAscii(position.value);
    }
  }

  /** A letter with an accent follows the plain letter, and stands with it before all other letters. */
  lemma PlainLetterFirst(common: string, k: nat, a: string)
    requires k < |PLAIN|
    ensures |ACCENTED| == |PLAIN| && LocaleCompare(common + ([PLAIN[k]] + a), common + ([ACCENTED[k]] + a)) == Less
  {
    AccentedKey(k);
    PrimaryOfLetter(PLAIN[k]);
    TieAfter(common, PLAIN[k], a, ACCENTED[k], a, Primary);
    CompareAfter(common, PLAIN[k], a, ACCENTED[k], a, Secondary);
  }

  // ----- The genre menu -----

  datatype Genre = Genre(key: string, name: string)

  predicate IsGenreChar(c: char) {
    'A' <= c <= 'Z' || '0' <= c <= '9' || c == '_' || c == '/' || c == '-'
  }

  /** A genre key: 1 to 64 characters of the key alphabet. */
  predicate IsGenreKey(key: string) {
    1 <= |key| <= 64 && forall i :: 0 <= i < |key| ==> IsGenreChar(key[i])
  }

  function HasGenreKey(): Genre -> bool {
    (g: Genre) => IsGenreKey(g.key)
  }

  function GenreKeyOf(): Genre -> string {
    (g: Genre) => g.key
  }

  function NameOrder(): (Genre, Genre) -> bool {
    (a: Genre, b: Genre) => LocaleCompare(a.name, b.name) != Greater
  }

  function NarrowedGenres(genres: seq<Genre>): seq<Genre> {
    Sort(FirstOccurrences(Filter(genres, HasGenreKey()), GenreKeyOf()), NameOrder())
  }

  /** `narrow_genres`: an entry stays when its key is valid and not seen before. */
  method NarrowGenres(genres: seq<Genre>) returns (r: seq<Genre>)
    ensures r == NarrowedGenres(genres)
  {
    var seen: set<string> := {};
    var kept: seq<Genre> := [];
    ghost var valid: seq<Genre> := [];
    for i := 0 to |genres|
      invariant valid == Filter(genres[..i], HasGenreKey())
      invariant kept == FirstOccurrences(valid, GenreKeyOf())
      invariant forall k :: k in seen <==> HasKey(valid, GenreKeyOf(), k)
    {
      var genre := genres[i];
      assert genres[..i + 1] == genres[..i] + [genre];
      FilterAppend(genres[..i], [genre], HasGenreKey());
      FilterOne(genre, HasGenreKey());
      if IsGenreKey(genre.key) {
        forall k
          ensures HasKey(valid + [genre], GenreKeyOf(), k) <==> HasKey(valid, GenreKeyOf(), k) || genre.key == k
        {
          HasKeyAppend(valid, genre, GenreKeyOf(), k);
        }
        assert (valid + [genre])[..|valid|] == valid;
        if genre.key !in seen {
          seen := seen + {genre.key};
          kept := kept + [genre];
        }
        valid := valid + [genre];
      }
    }
    assert genres[..|genres|] == genres;
    r := Sort(kept, NameOrder());
  }

  lemma NameOrderIsTotal()
    ensures TotalPreorder(NameOrder())
  {
    var leq := NameOrder();
    forall a: Genre, b: Genre
      ensures leq(a, b) || leq(b, a)
    {
      LocaleCompareReverses(a.name, b.name);
    }
    forall a: Genre, b: Genre, c: Genre | leq(a, b) && leq(b, c)
      ensures leq(a, c)
    {
      LocaleCompareTransitive(a.name, b.name, c.name);
    }
  }

  /**
    The menu is sorted by name, equal names keep Sony's order, and it holds exactly the first
    valid entry of each key.
  */
  lemma GenreMenuIs(genres: seq<Genre>, g: Genre)
    ensures Sorted(NarrowedGenres(genres), NameOrder())
    ensures var valid := Filter(genres, HasGenreKey());
            && StableFor(NarrowedGenres(genres), FirstOccurrences(valid, GenreKeyOf()), NameOrder())
            && (g in NarrowedGenres(genres)
                <==> exists i :: 0 <= i < |valid| && valid[i] == g && !HasKey(valid[..i], GenreKeyOf(), g.key))
    ensures multiset(NarrowedGenres(genres))[g] <= 1
  {
    var valid := Filter(genres, HasGenreKey());
    var kept := FirstOccurrences(valid, GenreKeyOf());
    NameOrderIsTotal();
    SortSorted(kept, NameOrder());
    SortStable(kept, NameOrder());
    SortMembership(kept, NameOrder(), g);
    FirstOccurrencesMembers(valid, GenreKeyOf(), g);
    SortMembers(kept, NameOrder());
    FirstOccurrencesDistinct(valid, GenreKeyOf());
    AtMostOnce(kept, g);
  }

  lemma {:induction false} AtMostOnce(s: seq<Genre>, g: Genre)
    requires forall i, j :: 0 <= i < j < |s| ==> GenreKeyOf()(s[i]) != GenreKeyOf()(s[j])
    ensures multiset(s)[g] <= 1
  {
    if s != [] {
      var t := s[1..];
      assert s == [s[0]] + t;
      AtMostOnce(t, g);
      if s[0] == g {
        assert g !in t by {
          forall i | 0 <= i < |t|
            ensures t[i] != g
          {
            assert GenreKeyOf()(s[0]) != GenreKeyOf()(s[i + 1]);
          }
        }
        assert g !in multiset(t);
      }
    }
  }
}
