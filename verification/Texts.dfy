/**
  White space, trimming, and first characters of texts, as the parsers share them.
*/
module Texts {
  import opened Digits

  /** The Unicode White_Space property, which Rust trims. */
  predicate IsRustSpace(c: char) {
    || c == ' ' || '\t' <= c <= '\r' || c == '\U{85}' || c == '\U{A0}' || c == '\U{1680}'
    || '\U{2000}' <= c <= '\U{200A}' || c == '\U{2028}' || c == '\U{2029}' || c == '\U{202F}' || c == '\U{205F}'
    || c == '\U{3000}'
  }

  /** JavaScript white space: the byte order mark too, and no next-line character. */
  predicate IsJsSpace(c: char) {
    (IsRustSpace(c) && c != '\U{85}') || c == '\U{FEFF}'
  }

  function TrimLeft(s: string, isSpace: char -> bool): string {
    if s != "" && isSpace(s[0]) then TrimLeft(s[1..], isSpace) else s
  }

  function TrimRight(s: string, isSpace: char -> bool): string {
    if s != "" && isSpace(s[|s| - 1]) then TrimRight(s[..|s| - 1], isSpace) else s
  }

  function Trim(s: string, isSpace: char -> bool): string {
    TrimRight(TrimLeft(s, isSpace), isSpace)
  }

  /** Trimming takes white space off both ends, as much as there is. */
  lemma TrimIs(s: string, isSpace: char -> bool) returns (front: string, back: string)
    ensures s == front + Trim(s, isSpace) + back
    ensures forall i :: 0 <= i < |front| ==> isSpace(front[i])
    ensures forall i :: 0 <= i < |back| ==> isSpace(back[i])
    ensures var t := Trim(s, isSpace); t != "" ==> !isSpace(t[0]) && !isSpace(t[|t| - 1])
  {
    front := TrimmedLeft(s, isSpace);
    back := TrimmedRight(TrimLeft(s, isSpace), isSpace);
    assert front + (Trim(s, isSpace) + back) == front + Trim(s, isSpace) + back;
  }

  lemma {:induction false} TrimmedLeft(s: string, isSpace: char -> bool) returns (front: string)
    ensures s == front + TrimLeft(s, isSpace) && forall i :: 0 <= i < |front| ==> isSpace(front[i])
    ensures TrimLeft(s, isSpace) != "" ==> !isSpace(TrimLeft(s, isSpace)[0])
  {
    front := "";
    if s != "" && isSpace(s[0]) {
      var rest := TrimmedLeft(s[1..], isSpace);
      front := [s[0]] + rest;
    }
  }

  lemma {:induction false} TrimmedRight(s: string, isSpace: char -> bool) returns (back: string)
    ensures s == TrimRight(s, isSpace) + back && forall i :: 0 <= i < |back| ==> isSpace(back[i])
    ensures var t := TrimRight(s, isSpace); t != "" ==> t[0] == s[0] && !isSpace(t[|t| - 1])
  {
    back := "";
    if s != "" && isSpace(s[|s| - 1]) {
      var rest := TrimmedRight(s[..|s| - 1], isSpace);
      back := rest + [s[|s| - 1]];
    }
  }

  predicate IsUpper(c: char) {
    'A' <= c <= 'Z'
  }

  /** One character of a pattern: `A` an upper-case letter, `9` a digit, else itself. */
  predicate FitsPattern(p: char, c: char) {
    if p == 'A' then IsUpper(c) else if p == '9' then IsDigit(c) else c == p
  }

  predicate Fits(pattern: string, s: string) {
    |s| == |pattern| && forall i :: 0 <= i < |s| ==> FitsPattern(pattern[i], s[i])
  }

  lemma FitsAppend(p: string, q: string, s: string, t: string)
    requires Fits(p, s) && Fits(q, t)
    ensures Fits(p + q, s + t)
  {
  }

  function LowerAscii(c: char): char {
    if 'A' <= c <= 'Z' then (c as int + 32) as char else c
  }

  predicate StartsWithAny(s: string, options: string) {
    s != "" && s[0] in options
  }
}
