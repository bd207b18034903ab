/**
  Numbers in query values, decoded like JavaScript `Number(text)`
  (crates/server/src/http/params.rs).

  `DecimalLiteral` specifies the scanner, a `Literal` is an independent definition of its
  grammar (the decimal form of section 7.1.4.1 of ECMA-262), and the radix part shows that
  rounding in the fold never changes which integers are accepted.
*/
module Numbers {
  import opened Collections
  import opened Digits
  import opened Texts

  // ----- The decimal scanner -----

  /** The text after an optional exponent, or nothing when the exponent has no digit. */
  function AfterExponent(s: string): Option<string> {
    if !StartsWithAny(s, "eE") then Some(s)
    else
      var digits := if StartsWithAny(s[1..], "+-") then s[2..] else s[1..];
      var n := DigitRun(digits);
      if n == 0 then None else Some(digits[n..])
  }

  /** The count of digits after a decimal point, and the text after them. */
  function TakeFraction(s: string): (nat, string) {
    if StartsWithAny(s, ".") then
      var n := DigitRun(s[1..]);
      (n, s[1..][n..])
    else
      (0, s)
  }

  predicate DecimalLiteral(text: string) {
    var whole := DigitRun(text);
    var (fraction, afterFraction) := TakeFraction(text[whole..]);
    whole + fraction > 0 && AfterExponent(afterFraction) == Some("")
  }

  /** The length of the digit run at `i`, and the index after it. */
  method SkipDigits(text: string, i: nat) returns (count: nat, end: nat)
    requires i <= |text|
    ensures count == DigitRun(text[i..]) && end == i + count
  {
    end := i;
    while end < |text| && IsDigit(text[end])
      invariant i <= end <= |text|
      invariant forall k :: i <= k < end ==> IsDigit(text[k])
    {
      end := end + 1;
    }
    count := end - i;
    RunOf(text[i..], count);
  }

  /** `is_decimal_literal`. */
  method IsDecimalLiteral(text: string) returns (accepted: bool)
    ensures accepted == DecimalLiteral(text)
  {
    var mantissa, i := SkipDigits(text, 0);
    assert mantissa == DigitRun(text) by {
      assert text[0..] == text;
    }
    var fraction: nat;
    fraction, i := SkipFraction(text, i);
    mantissa := mantissa + fraction;
    if mantissa == 0 {
      return false;
    }
    accepted := ExponentEnds(text, i);
  }

  method SkipFraction(text: string, start: nat) returns (count: nat, end: nat)
    requires start <= |text|
    ensures start <= end <= |text| && (count, text[end..]) == TakeFraction(text[start..])
  {
    if start < |text| && text[start] == '.' {
      assert text[start..][1..] == text[start + 1..];
      count, end := SkipDigits(text, start + 1);
      assert text[start + 1..][count..] == text[end..];
    } else {
      count, end := 0, start;
    }
  }

  method ExponentEnds(text: string, start: nat) returns (ends: bool)
    requires start <= |text|
    ensures ends == (AfterExponent(text[start..]) == Some(""))
  {
    var i := start;
    ghost var s := text[start..];
    if i < |text| && (text[i] == 'e' || text[i] == 'E') {
      i := i + 1;
      assert s[1..] == text[i..];
      if i < |text| && (text[i] == '+' || text[i] == '-') {
        i := i + 1;
        assert s[2..] == text[i..];
      }
      ghost var first := i;
      var digits: nat;
      digits, i := SkipDigits(text, i);
      assert text[first..][digits..] == text[i..];
      if digits == 0 {
        return false;
      }
    }
    ends := i == |text|;
  }

  // ----- The grammar -----

  datatype Exponent = Exponent(letter: char, sign: string, digits: string)

  datatype Literal = Literal(whole: string, fraction: Option<string>, exponent: Option<Exponent>)

  predicate IsExponent(e: Exponent) {
    e.letter in "eE" && e.sign in ["", "+", "-"] && e.digits != "" && AllDigits(e.digits)
  }

  /** Digits, an optional fraction, an optional exponent, and at least one mantissa digit. */
  predicate IsLiteral(l: Literal) {
    && AllDigits(l.whole)
    && (l.fraction.Some? ==> AllDigits(l.fraction.value))
    && (l.exponent.Some? ==> IsExponent(l.exponent.value))
    && (l.whole != "" || (l.fraction.Some? && l.fraction.value != ""))
  }

  function ExponentString(e: Option<Exponent>): string {
    match e case None => "" case Some(x) => [x.letter] + (x.sign + x.digits)
  }

  function FractionThen(f: Option<string>, rest: string): string {
    match f case None => rest case Some(digits) => "." + (digits + rest)
  }

  function Render(l: Literal): string {
    l.whole + FractionThen(l.fraction, ExponentString(l.exponent))
  }

  lemma RunThenRest(digits: string, rest: string)
    requires AllDigits(digits) && (rest == "" || !IsDigit(rest[0]))
    ensures DigitRun(digits + rest) == |digits| && (digits + rest)[|digits|..] == rest
  {
    RunOfDigits(digits, rest);
  }

  lemma ReadExponent(e: Option<Exponent>)
    requires e.Some? ==> IsExponent(e.value)
    ensures AfterExponent(ExponentString(e)) == Some("")
    ensures ExponentString(e) == "" || ExponentString(e)[0] in "eE"
  {
    if e.Some? {
      var x := e.value;
      var s := ExponentString(e);
      RunThenRest(x.digits, "");
      assert x.digits + "" == x.digits;
      assert s[1..] == x.sign + x.digits;
      if x.sign == "" {
        assert s[1..] == x.digits && IsDigit(x.digits[0]);
      } else {
        assert s[2..] == x.digits;
      }
    }
  }

  /** Every literal of the grammar is accepted. */
  lemma LiteralIsAccepted(l: Literal)
    requires IsLiteral(l)
    ensures DecimalLiteral(Render(l))
  {
    var tail := ExponentString(l.exponent);
    ReadExponent(l.exponent);
    var rest := FractionThen(l.fraction, tail);
    RunThenRest(l.whole, rest);
    if l.fraction.Some? {
      RunThenRest(l.fraction.value, tail);
      assert rest[1..] == l.fraction.value + tail;
    }
  }

  lemma WriteExponent(s: string) returns (e: Option<Exponent>)
    requires AfterExponent(s) == Some("")
    ensures e.Some? ==> IsExponent(e.value)
    ensures s == ExponentString(e)
  {
    if StartsWithAny(s, "eE") {
      var sign := if StartsWithAny(s[1..], "+-") then [s[1]] else "";
      var digits := s[1 + |sign|..];
      assert s == [s[0]] + (sign + digits);
      assert digits[..DigitRun(digits)] == digits;
      e := Some(Exponent(s[0], sign, digits));
    } else {
      e := None;
    }
  }

  /** Every accepted text is a literal of the grammar. */
  lemma AcceptedIsLiteral(text: string) returns (l: Literal)
    requires DecimalLiteral(text)
    ensures IsLiteral(l) && Render(l) == text
  {
    var n := DigitRun(text);
    assert text == text[..n] + text[n..];
    var fraction := WriteFraction(text[n..]);
    var exponent := WriteExponent(TakeFraction(text[n..]).1);
    l := Literal(text[..n], fraction, exponent);
  }

  lemma WriteFraction(s: string) returns (f: Option<string>)
    ensures f.Some? ==> AllDigits(f.value) && |f.value| == TakeFraction(s).0
    ensures f.None? ==> TakeFraction(s).0 == 0
    ensures s == FractionThen(f, TakeFraction(s).1)
  {
    if StartsWithAny(s, ".") {
      var n := DigitRun(s[1..]);
      assert s == "." + (s[1..][..n] + s[1..][n..]);
      f := Some(s[1..][..n]);
    } else {
      f := None;
    }
  }

  /** The scanner accepts exactly the grammar. */
  lemma ScannerIsTheGrammar(text: string)
    ensures DecimalLiteral(text) <==> exists l :: IsLiteral(l) && Render(l) == text
  {
    if DecimalLiteral(text) {
      var l := AcceptedIsLiteral(text);
      assert IsLiteral(l) && Render(l) == text;
    }
    forall l | IsLiteral(l) && Render(l) == text
      ensures DecimalLiteral(text)
    {
      LiteralIsAccepted(l);
    }
  }

  // ----- Doubles -----

  const MAX_SAFE_INTEGER := 9007199254740991

  /** A double as far as the integer check reads it. A missing number is NaN. */
  datatype Double = Whole(value: int) | Fraction | Infinite

  predicate AtMost(x: Double, y: Double) {
    y.Infinite? || (x.Whole? && y.Whole? && x.value <= y.value)
  }

  /** Rounding of natural numbers to the nearest double: monotone, and exact up to 2^53. */
  ghost predicate IsRounding(round: nat -> Double) {
    && (forall a: nat, b: nat :: a <= b ==> AtMost(round(a), round(b)))
    && (forall a: nat :: a <= MAX_SAFE_INTEGER + 1 ==> round(a) == Whole(a))
    && (forall a: nat :: !round(a).Fraction?)
  }

  /** `parse` reads a decimal literal: a plain digit run is rounded once, and no literal is below 0. */
  ghost predicate IsParse(round: nat -> Double, parse: string -> Double) {
    && (forall s :: s != "" && AllDigits(s) ==> parse(s) == round(Value(s)))
    && (forall s :: parse(s).Whole? ==> parse(s).value >= 0)
  }

  /** The double is the exact number, or both are above the safe integers. */
  predicate AgreesOrIsHuge(d: Double, exact: nat) {
    || d == Whole(exact)
    || (exact > MAX_SAFE_INTEGER && (d.Infinite? || (d.Whole? && d.value > MAX_SAFE_INTEGER)))
  }

  lemma RoundedOnce(round: nat -> Double, exact: nat)
    requires IsRounding(round)
    ensures AgreesOrIsHuge(round(exact), exact)
  {
    if exact > MAX_SAFE_INTEGER {
      assert AtMost(round(MAX_SAFE_INTEGER + 1), round(exact));
    }
  }

  // ----- Radix literals -----

  /** `char::to_digit`. */
  function ToDigit(c: char, radix: nat): Option<nat> {
    var v := if '0' <= c <= '9' then c as nat - '0' as nat
             else if 'a' <= c <= 'z' then c as nat - 'a' as nat + 10
             else if 'A' <= c <= 'Z' then c as nat - 'A' as nat + 10
             else radix;
    if v < radix then Some(v) else None
  }

  /** The digit of value `v` is the one at place `v`, in lower or upper case. */
  lemma RadixDigitIs(c: char, radix: nat, v: nat)
    requires 2 <= radix <= 16
    ensures ToDigit(c, radix) == Some(v)
       <==> v < radix && (c == "0123456789abcdef"[v] || c == "0123456789ABCDEF"[v])
  {
  }

  predicate RadixDigits(s: string, radix: nat) {
    s != "" && forall i :: 0 <= i < |s| ==> ToDigit(s[i], radix).Some?
  }

  /** The exact value of the first `n` digits. */
  function TrueValue(s: string, radix: nat, n: nat): nat
    requires n <= |s| && forall i :: 0 <= i < |s| ==> ToDigit(s[i], radix).Some?
  {
    if n == 0 then 0 else TrueValue(s, radix, n - 1) * radix + ToDigit(s[n - 1], radix).value
  }

  /** `value * radix + digit` in doubles: each of the two operations rounds. */
  function Folded(round: nat -> Double, value: Double, radix: nat, digit: nat): Double
    requires value.Whole? ==> value.value >= 0
  {
    if !value.Whole? then value else Plus(round, round(value.value * radix), digit)
  }

  function Plus(round: nat -> Double, x: Double, digit: nat): Double {
    if x.Whole? && x.value >= 0 then round(x.value + digit) else x
  }

  /** `radix_number`. */
  method RadixNumber(round: nat -> Double, digits: string, radix: nat) returns (r: Option<Double>)
    requires IsRounding(round) && 2 <= radix
    ensures r.Some? <==> RadixDigits(digits, radix)
    ensures r.Some? ==> AgreesOrIsHuge(r.value, TrueValue(digits, radix, |digits|))
  {
    if digits == "" {
      return None;
    }
    var value := Whole(0);
    for i := 0 to |digits|
      invariant forall k :: 0 <= k < i ==> ToDigit(digits[k], radix).Some?
      invariant AgreesOrIsHuge(value, TrueValue(digits[..i], radix, i))
    {
      var digit := ToDigit(digits[i], radix);
      if digit.None? {
        return None;
      }
      ghost var exact := TrueValue(digits[..i], radix, i);
      PrefixValue(digits[..i + 1], digits[..i], radix, i);
      FoldStep(round, value, exact, radix, digit.value);
      value := Folded(round, value, radix, digit.value);
    }
    assert digits[..|digits|] == digits;
    r := Some(value);
  }

  lemma {:induction false} PrefixValue(s: string, t: string, radix: nat, n: nat)
    requires n <= |t| <= |s| && t == s[..|t|]
    requires forall i :: 0 <= i < |s| ==> ToDigit(s[i], radix).Some?
    ensures TrueValue(s, radix, n) == TrueValue(t, radix, n)
  {
    if n > 0 {
      PrefixValue(s, t, radix, n - 1);
    }
  }

  lemma FoldStep(round: nat -> Double, value: Double, exact: nat, radix: nat, digit: nat)
    requires IsRounding(round) && 2 <= radix && AgreesOrIsHuge(value, exact)
    ensures AgreesOrIsHuge(Folded(round, value, radix, digit), exact * radix + digit)
  {
    ProductIsLarger(exact, radix);
    if value.Whole? {
      ProductIsLarger(value.value, radix);
      RoundedProduct(round, value.value * radix, exact * radix);
      RoundedSum(round, round(value.value * radix), exact * radix, digit);
    }
  }

  lemma ProductIsLarger(x: nat, radix: nat)
    requires radix >= 1
    ensures x * radix >= x
  {
    assert x * radix == x + x * (radix - 1);
  }

  lemma RoundedProduct(round: nat -> Double, product: nat, exact: nat)
    requires IsRounding(round)
    requires product == exact || (product > MAX_SAFE_INTEGER && exact > MAX_SAFE_INTEGER)
    ensures AgreesOrIsHuge(round(product), exact)
  {
    RoundedOnce(round, product);
  }

  lemma RoundedSum(round: nat -> Double, x: Double, exact: nat, digit: nat)
    requires IsRounding(round) && AgreesOrIsHuge(x, exact)
    ensures AgreesOrIsHuge(Plus(round, x, digit), exact + digit)
  {
    if x.Whole? {
      RoundedOnce(round, x.value + digit);
    }
  }

  // ----- Whole texts -----

  const RADIX_PREFIXES: seq<(string, nat)> := [("0x", 16), ("0X", 16), ("0o", 8), ("0O", 8), ("0b", 2), ("0B", 2)]

  /** The radix that the first two characters name. */
  function RadixOf(t: string): Option<nat> {
    if |t| < 2 || t[0] != '0' then None
    else if t[1] in "xX" then Some(16)
    else if t[1] in "oO" then Some(8)
    else if t[1] in "bB" then Some(2)
    else None
  }

  function Signed(negative: bool, d: Double): Double {
    if d.Whole? && negative then Whole(-d.value) else d
  }

  /**
    The number that a text denotes, without rounding of its integers. The double of a literal
    with a fraction or an exponent is `parse`'s.
  */
  function ExactNumber(parse: string -> Double, text: string): Option<Double> {
    var t := Trim(text, IsJsSpace);
    if t == "" then Some(Whole(0))
    else if RadixOf(t).Some? then
      var radix := RadixOf(t).value;
      if RadixDigits(t[2..], radix) then Some(Whole(TrueValue(t[2..], radix, |t| - 2))) else None
    else
      var unsigned := if StartsWithAny(t, "+-") then t[1..] else t;
      if unsigned == "Infinity" then Some(Infinite)
      else if !DecimalLiteral(unsigned) then None
      else Some(Signed(t[0] == '-', if AllDigits(unsigned) then Whole(Value(unsigned)) else parse(unsigned)))
  }

  /** `integer_in` on a decoded number. */
  function SafeInteger(number: Option<Double>, min: nat, max: Option<nat>): Option<nat> {
    if number.None? || !number.value.Whole? then None
    else
      var v := number.value.value;
      if v > MAX_SAFE_INTEGER || v < -MAX_SAFE_INTEGER || v < 0 then None
      else if v < min || (max.Some? && v > max.value) then None
      else Some(v)
  }

  /** The double may stand for the exact number in every integer check. */
  ghost predicate SameIntegers(a: Option<Double>, b: Option<Double>) {
    forall min, max :: SafeInteger(a, min, max) == SafeInteger(b, min, max)
  }

  lemma AgreementDecides(d: Double, exact: nat, negative: bool)
    requires AgreesOrIsHuge(d, exact)
    ensures SameIntegers(Some(Signed(negative, d)), Some(Signed(negative, Whole(exact))))
  {
  }

  /** The first prefix of the table that the text starts with. */
  method FindRadix(t: string) returns (r: Option<nat>)
    ensures r == RadixOf(t)
  {
    for i := 0 to |RADIX_PREFIXES|
      invariant forall k :: 0 <= k < i ==> !(RADIX_PREFIXES[k].0 <= t)
    {
      if RADIX_PREFIXES[i].0 <= t {
        PrefixNamesRadix(t, i);
        return Some(RADIX_PREFIXES[i].1);
      }
    }
    NoPrefixNoRadix(t);
    r := None;
  }

  lemma PrefixNamesRadix(t: string, i: nat)
    requires i < |RADIX_PREFIXES| && RADIX_PREFIXES[i].0 <= t
    ensures RadixOf(t) == Some(RADIX_PREFIXES[i].1)
  {
    var prefix := RADIX_PREFIXES[i].0;
    assert |prefix| == 2 && t[0] == prefix[0] && t[1] == prefix[1];
  }

  lemma NoPrefixNoRadix(t: string)
    requires forall k :: 0 <= k < |RADIX_PREFIXES| ==> !(RADIX_PREFIXES[k].0 <= t)
    ensures RadixOf(t) == None
  {
    var p := RADIX_PREFIXES;
    forall k | 0 <= k < |p|
      ensures p[k].0[0] == '0' && !(|t| >= 2 && t[0] == '0' && t[1] == p[k].0[1])
    {
      TwoCharacterPrefix(t, p[k].0);
    }
    assert p[0].0[1] == 'x' && p[1].0[1] == 'X' && p[2].0[1] == 'o' && p[3].0[1] == 'O' && p[4].0[1] == 'b'
        && p[5].0[1] == 'B';
  }

  lemma TwoCharacterPrefix(t: string, prefix: string)
    requires |prefix| == 2
    ensures prefix <= t <==> |t| >= 2 && t[0] == prefix[0] && t[1] == prefix[1]
  {
  }

  /** `js_number`: what it decodes and the number that the text denotes pass the same integer checks. */
  method JsNumber(round: nat -> Double, parse: string -> Double, text: string) returns (r: Option<Double>)
    requires IsRounding(round) && IsParse(round, parse)
    ensures r.Some? <==> ExactNumber(parse, text).Some?
    ensures SameIntegers(r, ExactNumber(parse, text))
  {
    var t := Trim(text, IsJsSpace);
    if t == "" {
      return Some(Whole(0));
    }
    var radix := FindRadix(t);
    if radix.Some? {
      r := RadixNumber(round, t[2..], radix.value);
      if r.Some? {
        AgreementDecides(r.value, TrueValue(t[2..], radix.value, |t| - 2), false);
      }
      return;
    }
    var negative := t[0] == '-';
    var unsigned := if t[0] == '+' || t[0] == '-' then t[1..] else t;
    if unsigned == "Infinity" {
      return Some(Infinite);
    }
    var literal := IsDecimalLiteral(unsigned);
    if !literal {
      return None;
    }
    if AllDigits(unsigned) {
      PlainDigitsAgree(round, parse, unsigned, negative);
    }
    r := Some(Signed(negative, parse(unsigned)));
  }

  lemma PlainDigitsAgree(round: nat -> Double, parse: string -> Double, digits: string, negative: bool)
    requires IsRounding(round) && IsParse(round, parse) && DecimalLiteral(digits) && AllDigits(digits)
    ensures SameIntegers(Some(Signed(negative, parse(digits))), Some(Signed(negative, Whole(Value(digits)))))
  {
    RoundedOnce(round, Value(digits));
    AgreementDecides(parse(digits), Value(digits), negative);
  }

  /**
    `integer_in` on a text: it is accepted exactly when the number that it denotes is a safe
    integer in range, and then decodes to that number, for every rounding.
  */
  method IntegerIn(round: nat -> Double, parse: string -> Double, text: string, min: nat, max: Option<nat>)
    returns (r: Option<nat>)
    requires IsRounding(round) && IsParse(round, parse)
    ensures r == SafeInteger(ExactNumber(parse, text), min, max)
  {
    var number := JsNumber(round, parse, text);
    r := SafeInteger(number, min, max);
  }

  lemma DigitsAreALiteral(digits: string)
    requires digits != "" && AllDigits(digits)
    ensures DecimalLiteral(digits) && RadixOf(digits) == None
  {
    RunOf(digits, |digits|);
  }

  /** What a digit run, a signed one, and an empty text decode to. */
  lemma PlainIntegersAre(parse: string -> Double, text: string, digits: string, min: nat, max: Option<nat>)
    requires digits != "" && AllDigits(digits)
    ensures var t, v, r := Trim(text, IsJsSpace), Value(digits), SafeInteger(ExactNumber(parse, text), min, max);
            var inRange := min <= v <= 9007199254740991 && (max.Some? ==> v <= max.value);
            && (t == digits || t == "+" + digits ==> r == if inRange then Some(v) else None)
            && (t == "-" + digits ==> r == if inRange && v == 0 then Some(0) else None)
            && (t == "" ==> r == if min == 0 then Some(0) else None)
  {
    DigitsAreALiteral(digits);
    var t := Trim(text, IsJsSpace);
    if t == "+" + digits || t == "-" + digits {
      assert t[1..] == digits;
    }
  }

  /** What the digits behind a radix prefix decode to. */
  lemma RadixIntegersAre(parse: string -> Double, text: string, letter: char, digits: string)
    requires letter in "xXoObB" && Trim(text, IsJsSpace) == ['0', letter] + digits
    ensures var radix := if letter in "xX" then 16 else if letter in "oO" then 8 else 2;
            ExactNumber(parse, text)
            == if RadixDigits(digits, radix) then Some(Whole(TrueValue(digits, radix, |digits|))) else None
  {
    assert (['0', letter] + digits)[2..] == digits;
  }

  /** A radix literal takes no sign. */
  lemma SignedRadixIsRejected(parse: string -> Double, text: string)
    requires var t := Trim(text, IsJsSpace); StartsWithAny(t, "+-") && RadixOf(t[1..]).Some?
    ensures ExactNumber(parse, text) == None
  {
    var t := Trim(text, IsJsSpace);
    var unsigned := t[1..];
    assert DigitRun(unsigned) == 1 by {
      assert unsigned[..1] == ['0'];
      RunOf(unsigned, 1);
    }
    assert unsigned[1..][0] == unsigned[1];
    assert unsigned[0] != "Infinity"[0];
  }
}
