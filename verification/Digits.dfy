/**
  Runs of ASCII decimal digits and the numbers that they write.
*/
module Digits {
  predicate IsDigit(c: char) {
    '0' <= c <= '9'
  }

  predicate AllDigits(s: string) {
    forall i :: 0 <= i < |s| ==> IsDigit(s[i])
  }

  function DigitValue(c: char): nat
    requires IsDigit(c)
  {
    c as int - '0' as int
  }

  function DigitChar(v: nat): char
    requires v <= 9
  {
    ('0' as int + v) as char
  }

  function Value(s: string): nat
    requires AllDigits(s)
  {
    if s == [] then 0 else 10 * Value(s[..|s| - 1]) + DigitValue(s[|s| - 1])
  }

  lemma ValueSnoc(s: string, c: char)
    requires AllDigits(s) && IsDigit(c)
    ensures AllDigits(s + [c]) && Value(s + [c]) == 10 * Value(s) + DigitValue(c)
  {
    assert (s + [c])[..|s|] == s;
  }

  /** The last `n` decimal digits of `v`, with leading zeros. */
  function Pad(v: nat, n: nat): (s: string)
    ensures |s| == n && AllDigits(s)
  {
    if n == 0 then "" else Pad(v / 10, n - 1) + [DigitChar(v % 10)]
  }

  function Pow10(n: nat): nat {
    if n == 0 then 1 else 10 * Pow10(n - 1)
  }

  lemma {:induction false} ValueOfPad(v: nat, n: nat)
    requires v < Pow10(n)
    ensures Value(Pad(v, n)) == v
  {
    if n > 0 {
      ValueOfPad(v / 10, n - 1);
      assert Pad(v, n)[..n - 1] == Pad(v / 10, n - 1);
    }
  }

  lemma {:induction false} PadOfValue(s: string)
    requires AllDigits(s)
    ensures Value(s) < Pow10(|s|) && Pad(Value(s), |s|) == s
  {
    if s != [] {
      PadOfValue(s[..|s| - 1]);
    }
  }

  lemma PowersOfTen()
    ensures Pow10(2) == 100 && Pow10(3) == 1000 && Pow10(4) == 10000 && Pow10(6) == 1000000
  {
    assert Pow10(4) == 100 * Pow10(2);
    assert Pow10(6) == 100 * Pow10(4);
  }

  /** The length of the longest prefix of digits. */
  function DigitRun(s: string): (n: nat)
    ensures n <= |s| && AllDigits(s[..n])
    ensures n < |s| ==> !IsDigit(s[n])
  {
    if s != "" && IsDigit(s[0]) then
      assert s[1..][..DigitRun(s[1..])] == s[1..1 + DigitRun(s[1..])];
      1 + DigitRun(s[1..])
    else
      0
  }

  lemma RunOf(s: string, n: nat)
    requires n <= |s| && AllDigits(s[..n]) && (n < |s| ==> !IsDigit(s[n]))
    ensures DigitRun(s) == n
  {
    var run := DigitRun(s);
    PrefixDigits(s, n);
    PrefixDigits(s, run);
  }

  lemma PrefixDigits(s: string, n: nat)
    requires n <= |s| && AllDigits(s[..n])
    ensures forall k :: 0 <= k < n ==> IsDigit(s[k])
  {
    forall k | 0 <= k < n
      ensures IsDigit(s[k])
    {
      assert s[..n][k] == s[k];
    }
  }

  lemma {:induction false} RunOfDigits(digits: string, rest: string)
    requires AllDigits(digits) && (rest == "" || !IsDigit(rest[0]))
    ensures DigitRun(digits + rest) == |digits|
  {
    if digits == "" {
      assert digits + rest == rest;
    } else {
      RunOfDigits(digits[1..], rest);
      assert (digits + rest)[1..] == digits[1..] + rest;
    }
  }

  lemma {:induction false} ValueSplits(s: string, k: nat)
    requires AllDigits(s) && k <= |s|
    ensures Value(s) == Value(s[..k]) * Pow10(|s| - k) + Value(s[k..])
  {
    if k == |s| {
      assert s[..k] == s;
    } else {
      var t := s[..|s| - 1];
      ValueSplits(t, k);
      assert t[..k] == s[..k] && t[k..] == s[k..][..|s| - k - 1];
      ShiftDigit(Value(s[..k]), Pow10(|t| - k), Value(t[k..]));
    }
  }

  lemma ShiftDigit(high: nat, power: nat, low: nat)
    ensures 10 * (high * power + low) == high * (10 * power) + 10 * low
  {
  }
}
