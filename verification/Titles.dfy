/**
  The normalised title and the critic score match (crates/domain/src/critic_match.rs).

  The Unicode steps before the word loop are not part of this model: the loop takes the
  lower-case text and an abstract predicate for letters and numbers.
*/
module Titles {
  import opened Collections
  import opened Sequences

  const EDITION_SUFFIXES: seq<string> := [
    "ps5 edition",
    "playstation 5 edition",
    "ps5 version",
    "digital edition",
    "standard edition",
    "deluxe edition",
    "digital deluxe edition",
    "ultimate edition",
    "premium edition",
    "complete edition",
    "definitive edition",
    "special edition",
    "gold edition",
    "collectors edition",
    "game of the year edition",
    "goty edition",
    "ps4 ps5",
    "ps4 and ps5",
    "ps5",
    "playstation 5"
  ]

  // ----- The word loop -----

  /**
    Each run of other characters becomes one space, and the ends have none: a kept character
    takes a space when an earlier one was kept and the character just before it was not.
  */
  function Squeeze(s: string, keep: char -> bool): string {
    if s == [] then ""
    else
      var front, c := s[..|s| - 1], s[|s| - 1];
      var r := Squeeze(front, keep);
      if !keep(c) then r
      else if r != "" && !keep(front[|front| - 1]) then r + " " + [c]
      else r + [c]
  }

  method SqueezeWords(lower: string, keep: char -> bool) returns (words: string)
    ensures words == Squeeze(lower, keep)
  {
    words := "";
    var gap := false;
    for i := 0 to |lower|
      invariant words == Squeeze(lower[..i], keep)
      invariant words != "" ==> i > 0 && gap == !keep(lower[i - 1])
    {
      assert lower[..i + 1][..i] == lower[..i];
      if keep(lower[i]) {
        if gap && words != "" {
          words := words + " ";
        }
        gap := false;
        words := words + [lower[i]];
      } else {
        gap := true;
      }
    }
    assert lower[..|lower|] == lower;
  }

  /** Non-empty words with single spaces between them. */
  predicate IsTitle(s: string) {
    && s != "" && s[0] != ' ' && s[|s| - 1] != ' '
    && forall i :: 0 < i < |s| ==> s[i - 1] != ' ' || s[i] != ' '
  }

  /** The word loop gives a title or nothing, and adds only spaces. */
  lemma {:induction false} SqueezedIsTitle(s: string, keep: char -> bool)
    requires !keep(' ')
    ensures var r := Squeeze(s, keep);
            && (r == "" || (IsTitle(r) && keep(r[|r| - 1])))
            && forall i :: 0 <= i < |r| ==> keep(r[i]) || r[i] == ' '
  {
    if s != [] {
      SqueezedIsTitle(s[..|s| - 1], keep);
    }
  }

  lemma FilterSnoc(r: string, c: char, keep: char -> bool)
    ensures Filter(r + [c], keep) == Filter(r, keep) + if keep(c) then [c] else []
  {
    FilterAppend(r, [c], keep);
    FilterOne(c, keep);
  }

  /** The word loop keeps every letter and number, in order. */
  lemma {:induction false} SqueezedKeepsLetters(s: string, keep: char -> bool)
    requires !keep(' ')
    ensures Filter(Squeeze(s, keep), keep) == Filter(s, keep)
  {
    if s != [] {
      var front, c := s[..|s| - 1], s[|s| - 1];
      var r := Squeeze(front, keep);
      SqueezedKeepsLetters(front, keep);
      FilterSnoc(front, c, keep);
      assert s == front + [c];
      FilterSnoc(r, c, keep);
      FilterSnoc(r, ' ', keep);
      FilterSnoc(r + [' '], c, keep);
    }
  }

  lemma {:induction false} SqueezedWord(word: string, keep: char -> bool)
    requires forall i :: 0 <= i < |word| ==> keep(word[i])
    ensures Squeeze(word, keep) == word
  {
    if word != "" {
      SqueezedWord(word[..|word| - 1], keep);
    }
  }

  lemma {:induction false} NothingSqueezed(s: string, keep: char -> bool)
    ensures Squeeze(s, keep) == "" <==> forall i :: 0 <= i < |s| ==> !keep(s[i])
  {
    if s != "" {
      var front := s[..|s| - 1];
      NothingSqueezed(front, keep);
      assert s == front + [s[|s| - 1]];
    }
  }

  lemma {:induction false} GapAtEnd(a: string, gap: string, keep: char -> bool)
    requires forall i :: 0 <= i < |gap| ==> !keep(gap[i])
    ensures Squeeze(a + gap, keep) == Squeeze(a, keep)
  {
    if gap == "" {
      assert a + gap == a;
    } else {
      GapAtEnd(a, gap[..|gap| - 1], keep);
      assert (a + gap)[..|a + gap| - 1] == a + gap[..|gap| - 1];
    }
  }

  function Joined(a: string, b: string): string {
    if a == "" then b else if b == "" then a else a + " " + b
  }

  /** A gap of other characters joins what stands on its two sides with one space. */
  lemma {:induction false} SqueezedGap(a: string, gap: string, b: string, keep: char -> bool)
    requires gap != "" && forall i :: 0 <= i < |gap| ==> !keep(gap[i])
    ensures Squeeze(a + gap + b, keep) == Joined(Squeeze(a, keep), Squeeze(b, keep))
  {
    var s := a + gap + b;
    if b == "" {
      assert s == a + gap;
      GapAtEnd(a, gap, keep);
    } else {
      var front, c := b[..|b| - 1], b[|b| - 1];
      SqueezedGap(a, gap, front, keep);
      assert s[..|s| - 1] == a + gap + front && s[|s| - 1] == c;
      if keep(c) {
        NothingSqueezed(front, keep);
        KeptAfterGap(Squeeze(a, keep), Squeeze(front, keep), c, front == "" || !keep(front[|front| - 1]));
      }
    }
  }

  /** One kept character behind two joined parts, after a gap or not. */
  lemma KeptAfterGap(a: string, b: string, c: char, gap: bool)
    requires b == "" ==> gap
    ensures var r := Joined(a, b);
            (if r != "" && gap then r + " " + [c] else r + [c])
            == Joined(a, if b != "" && gap then b + " " + [c] else b + [c])
  {
    if a != "" && b != "" {
      Associative(a + " ", b + " ", [c]);
      Associative(a + " ", b, " ");
      Associative(a + " ", b, [c]);
    }
  }

  // ----- Edition suffixes -----

  predicate EndsWith(s: string, suffix: string) {
    |suffix| <= |s| && s[|s| - |suffix|..] == suffix
  }

  /** The title ends with a space and the suffix. */
  predicate Removable(s: string, suffix: string) {
    EndsWith(s, suffix) && |suffix| < |s| && s[|s| - |suffix| - 1] == ' '
  }

  function Rest(s: string, suffix: string): string
    requires Removable(s, suffix)
  {
    s[..|s| - |suffix| - 1]
  }

  function TrimEnd(s: string): string {
    if s != "" && s[|s| - 1] == ' ' then TrimEnd(s[..|s| - 1]) else s
  }

  ghost predicate IsLongest(s: string, suffix: string) {
    && suffix in EDITION_SUFFIXES && Removable(s, suffix)
    && forall other :: other in EDITION_SUFFIXES && Removable(s, other) ==> |other| <= |suffix|
  }

  /** `stripped` is `s` after the loop: the longest suffix goes, until none can. */
  ghost predicate StripsTo(s: string, stripped: string)
    decreases |s|
  {
    if exists suffix :: IsLongest(s, suffix) then
      exists suffix :: IsLongest(s, suffix) && StripsTo(Trimmed(s, suffix), stripped)
    else
      stripped == s
  }

  function Trimmed(s: string, suffix: string): (r: string)
    requires Removable(s, suffix)
    ensures |r| < |s|
  {
    TrimEndShortens(Rest(s, suffix));
    TrimEnd(Rest(s, suffix))
  }

  lemma {:induction false} TrimEndShortens(s: string)
    ensures |TrimEnd(s)| <= |s| && TrimEnd(s) <= s
  {
    if s != "" && s[|s| - 1] == ' ' {
      TrimEndShortens(s[..|s| - 1]);
    }
  }

  method LongestSuffix(s: string) returns (longest: Option<string>)
    ensures longest.Some? ==> IsLongest(s, longest.value)
    ensures longest.None? ==> forall suffix :: suffix in EDITION_SUFFIXES ==> !Removable(s, suffix)
  {
    longest := None;
    for i := 0 to |EDITION_SUFFIXES|
      invariant longest.Some? ==> longest.value in EDITION_SUFFIXES && Removable(s, longest.value)
      invariant forall k :: 0 <= k < i && Removable(s, EDITION_SUFFIXES[k]) ==>
                  longest.Some? && |EDITION_SUFFIXES[k]| <= |longest.value|
    {
      var suffix := EDITION_SUFFIXES[i];
      if Removable(s, suffix) && (longest.None? || |suffix| >= |longest.value|) {
        longest := Some(suffix);
      }
    }
  }

  /** `strip_edition_suffixes`. */
  method StripEditionSuffixes(title: string) returns (current: string)
    ensures StripsTo(title, current)
  {
    current := title;
    var longest := LongestSuffix(current);
    while longest.Some?
      invariant forall r :: StripsTo(current, r) ==> StripsTo(title, r)
      invariant longest.Some? ==> IsLongest(current, longest.value)
      invariant longest.None? ==> forall suffix :: suffix in EDITION_SUFFIXES ==> !Removable(current, suffix)
      decreases |current|
    {
      var next := Trimmed(current, longest.value);
      forall r | StripsTo(next, r)
        ensures StripsTo(title, r)
      {
        StripStep(current, longest.value, r);
      }
      current := next;
      longest := LongestSuffix(current);
    }
    StripEnd(current);
  }

  lemma StripStep(s: string, suffix: string, stripped: string)
    requires IsLongest(s, suffix) && StripsTo(Trimmed(s, suffix), stripped)
    ensures StripsTo(s, stripped)
  {
  }

  lemma StripEnd(s: string)
    requires forall suffix :: suffix in EDITION_SUFFIXES ==> !Removable(s, suffix)
    ensures StripsTo(s, s)
  {
  }

  // ----- Results about the suffixes -----

  /** Two suffixes of one length cannot both end a title, so the longest is unique. */
  lemma LongestIsUnique(s: string, a: string, b: string)
    requires IsLongest(s, a) && IsLongest(s, b)
    ensures a == b
  {
  }

  /** The title with each suffix behind it, after one space each. */
  function WithSuffixes(title: string, suffixes: seq<string>): string
    decreases |suffixes|
  {
    if suffixes == [] then title else WithSuffixes(title + " " + suffixes[0], suffixes[1..])
  }

  lemma RestOfTitle(s: string, suffix: string)
    requires IsTitle(s) && Removable(s, suffix)
    ensures IsTitle(Rest(s, suffix)) && Trimmed(s, suffix) == Rest(s, suffix)
    ensures s == Rest(s, suffix) + " " + suffix
  {
    RemovableIsSuffix(s, suffix);
    var r := Rest(s, suffix);
    assert s[|r|] == ' ';
    assert r != "" by {
      assert s[0] != ' ';
    }
    assert s[|r| - 1] != ' ';
  }

  lemma {:induction false} SuffixesSnoc(title: string, suffixes: seq<string>, last: string)
    ensures WithSuffixes(title, suffixes + [last]) == WithSuffixes(title, suffixes) + " " + last
    decreases |suffixes|
  {
    if suffixes == [] {
      assert ([] + [last])[1..] == [];
    } else {
      SuffixesSnoc(title + " " + suffixes[0], suffixes[1..], last);
      assert (suffixes + [last])[1..] == suffixes[1..] + [last];
    }
  }

  /**
    On a title the result is a title, the input is the result with whole edition suffixes
    behind it, and no suffix can be removed any more.
  */
  lemma {:induction false} StrippedTitle(s: string, stripped: string) returns (removed: seq<string>)
    requires IsTitle(s) && StripsTo(s, stripped)
    ensures IsTitle(stripped)
    ensures s == WithSuffixes(stripped, removed) && forall x :: x in removed ==> x in EDITION_SUFFIXES
    ensures forall rest, suffix :: suffix in EDITION_SUFFIXES ==> stripped != rest + " " + suffix
    decreases |s|
  {
    if exists suffix :: IsLongest(s, suffix) {
      var suffix :| IsLongest(s, suffix) && StripsTo(Trimmed(s, suffix), stripped);
      RestOfTitle(s, suffix);
      var earlier := StrippedTitle(Rest(s, suffix), stripped);
      removed := earlier + [suffix];
      SuffixesSnoc(stripped, earlier, suffix);
    } else {
      removed := [];
      NoLongestNoneRemovable(s);
      forall rest, suffix | suffix in EDITION_SUFFIXES
        ensures s != rest + " " + suffix
      {
        if s == rest + " " + suffix {
          SuffixIsRemovable(rest, suffix);
        }
      }
    }
  }

  lemma SuffixIsRemovable(rest: string, suffix: string)
    ensures Removable(rest + " " + suffix, suffix) && Rest(rest + " " + suffix, suffix) == rest
  {
    var s := rest + " " + suffix;
    assert s[|s| - |suffix|..] == suffix;
    assert s[..|rest|] == rest;
  }

  /** No edition suffix that ends the text after a space is longer. */
  ghost predicate IsLongestEnd(s: string, suffix: string) {
    && suffix in EDITION_SUFFIXES
    && forall rest, other :: other in EDITION_SUFFIXES && s == rest + " " + other ==> |other| <= |suffix|
  }

  lemma LongestEndIsLongest(rest: string, suffix: string)
    requires IsLongestEnd(rest + " " + suffix, suffix)
    ensures IsLongest(rest + " " + suffix, suffix)
  {
    var s := rest + " " + suffix;
    SuffixIsRemovable(rest, suffix);
    forall other | other in EDITION_SUFFIXES && Removable(s, other)
      ensures |other| <= |suffix|
    {
      RemovableIsSuffix(s, other);
    }
  }

  /** Of all suffixes that end a title the longest goes, and the loop goes on with the rest. */
  lemma LongestGoesFirst(rest: string, suffix: string, stripped: string)
    requires IsTitle(rest) && IsLongestEnd(rest + " " + suffix, suffix)
    ensures StripsTo(rest + " " + suffix, stripped) <==> StripsTo(rest, stripped)
  {
    var s := rest + " " + suffix;
    LongestEndIsLongest(rest, suffix);
    assert Trimmed(s, suffix) == rest by {
      SuffixIsRemovable(rest, suffix);
    }
    if StripsTo(s, stripped) {
      StripsOnlyTo(s, suffix, stripped);
    } else if StripsTo(rest, stripped) {
      StripStep(s, suffix, stripped);
    }
  }

  lemma StripsOnlyTo(s: string, suffix: string, stripped: string)
    requires IsLongest(s, suffix) && StripsTo(s, stripped)
    ensures StripsTo(Trimmed(s, suffix), stripped)
  {
    var other :| IsLongest(s, other) && StripsTo(Trimmed(s, other), stripped);
    LongestIsUnique(s, suffix, other);
  }

  lemma RemovableIsSuffix(s: string, suffix: string)
    requires Removable(s, suffix)
    ensures s == Rest(s, suffix) + " " + suffix
  {
    var r := Rest(s, suffix);
    assert s == s[..|r|] + s[|r|..] && s[|r|..] == " " + suffix;
  }

  lemma NoLongestNoneRemovable(s: string)
    requires !exists suffix :: IsLongest(s, suffix)
    ensures forall suffix :: suffix in EDITION_SUFFIXES ==> !Removable(s, suffix)
  {
    forall suffix | suffix in EDITION_SUFFIXES
      ensures !Removable(s, suffix)
    {
      if Removable(s, suffix) {
        var longest := SomeLongest(s, suffix, |EDITION_SUFFIXES|);
        assert IsLongest(s, longest);
      }
    }
  }

  lemma {:induction false} SomeLongest(s: string, suffix: string, n: nat) returns (longest: string)
    requires n <= |EDITION_SUFFIXES| && suffix in EDITION_SUFFIXES && Removable(s, suffix)
    ensures longest in EDITION_SUFFIXES && Removable(s, longest)
    ensures forall k :: 0 <= k < n && Removable(s, EDITION_SUFFIXES[k]) ==> |EDITION_SUFFIXES[k]| <= |longest|
  {
    if n == 0 {
      longest := suffix;
    } else {
      var shorter := SomeLongest(s, suffix, n - 1);
      var last := EDITION_SUFFIXES[n - 1];
      longest := if Removable(s, last) && |last| > |shorter| then last else shorter;
      forall k | 0 <= k < n && Removable(s, EDITION_SUFFIXES[k])
        ensures |EDITION_SUFFIXES[k]| <= |longest|
      {
        if k < n - 1 {
          assert |EDITION_SUFFIXES[k]| <= |shorter|;
        }
      }
    }
  }

  /** The loop has one result for each title, and stripping it again changes nothing. */
  lemma {:induction false} StrippingIsIdempotent(s: string, once: string, twice: string)
    requires StripsTo(s, once) && StripsTo(once, twice)
    ensures twice == once
    decreases |s|
  {
    if exists suffix :: IsLongest(s, suffix) {
      var suffix :| IsLongest(s, suffix) && StripsTo(Trimmed(s, suffix), once);
      StrippingIsIdempotent(Trimmed(s, suffix), once, twice);
    }
  }

  lemma {:induction false} StrippingIsAFunction(s: string, a: string, b: string)
    requires StripsTo(s, a) && StripsTo(s, b)
    ensures a == b
    decreases |s|
  {
    if exists suffix :: IsLongest(s, suffix) {
      var x :| IsLongest(s, x) && StripsTo(Trimmed(s, x), a);
      var y :| IsLongest(s, y) && StripsTo(Trimmed(s, y), b);
      LongestIsUnique(s, x, y);
      StrippingIsAFunction(Trimmed(s, x), a, b);
    }
  }

  // ----- The critic score -----

  const MIN_CRITIC_COUNT: nat := 3

  datatype CriticCandidate = CriticCandidate(name: string, releaseYear: Option<int>, rating: Option<int>,
                                             ratingCount: nat)

  /** The same normalised name, a release within one year, and a score from enough reviews. */
  function Qualifies(normalize: string -> string, name: string, year: int): CriticCandidate -> bool {
    (c: CriticCandidate) =>
      && c.releaseYear.Some? && -1 <= c.releaseYear.value - year <= 1
      && c.rating.Some? && c.ratingCount >= MIN_CRITIC_COUNT
      && normalize(c.name) == name
  }

  /** `match_critic_score`. */
  function MatchCriticScore(normalize: string -> string, title: string, year: int,
                            candidates: seq<CriticCandidate>): Option<int> {
    var name := normalize(title);
    if name == "" then None
    else
      var qualified := Filter(candidates, Qualifies(normalize, name, year));
      if |qualified| == 1 then qualified[0].rating else None
  }

  lemma {:induction false} FilterCounts<T>(s: seq<T>, p: T -> bool, x: T)
    ensures multiset(Filter(s, p))[x] == if p(x) then multiset(s)[x] else 0
  {
    if s != [] {
      FilterCounts(s[1..], p, x);
      assert s == [s[0]] + s[1..];
      assert multiset(s) == multiset{s[0]} + multiset(s[1..]);
      var head := if p(s[0]) then multiset{s[0]} else multiset{};
      assert multiset(Filter(s, p)) == head + multiset(Filter(s[1..], p)) by {
        FilterHead(s, p);
      }
    }
  }

  /** The score does not change under any reordering of the candidates. */
  lemma ScoreIgnoresOrder(normalize: string -> string, title: string, year: int,
                          a: seq<CriticCandidate>, b: seq<CriticCandidate>)
    requires multiset(a) == multiset(b)
    ensures MatchCriticScore(normalize, title, year, a) == MatchCriticScore(normalize, title, year, b)
  {
    var p := Qualifies(normalize, normalize(title), year);
    var qa, qb := Filter(a, p), Filter(b, p);
    forall x
      ensures multiset(qa)[x] == multiset(qb)[x]
    {
      FilterCounts(a, p, x);
      FilterCounts(b, p, x);
    }
    assert multiset(qa) == multiset(qb);
    assert |qa| == |multiset(qa)| == |multiset(qb)| == |qb|;
    if |qa| == 1 {
      assert qa[0] in multiset(qb);
      assert qb == [qb[0]];
    }
  }

  /** The title's name, a release at most one year off, and a score from at least three reviews. */
  function IsTrusted(normalize: string -> string, title: string, year: int): CriticCandidate -> bool {
    (c: CriticCandidate) =>
      && normalize(c.name) == normalize(title) && c.rating.Some? && c.ratingCount >= 3
      && c.releaseYear in [Some(year - 1), Some(year), Some(year + 1)]
  }

  ghost predicate IsTheOne<T>(s: seq<T>, p: T -> bool, i: nat) {
    i < |s| && p(s[i]) && forall j :: 0 <= j < |s| && j != i ==> !p(s[j])
  }

  /**
    A title that normalises to a name has a score exactly when one candidate, counted with
    repeats, is trusted, and the score is the rating of that candidate.
  */
  lemma ScoreIsTheOneRating(normalize: string -> string, title: string, year: int, candidates: seq<CriticCandidate>,
                            score: int)
    ensures MatchCriticScore(normalize, title, year, candidates) == Some(score)
       <==> && normalize(title) != ""
            && exists i: nat :: IsTheOne(candidates, IsTrusted(normalize, title, year), i)
                             && candidates[i].rating == Some(score)
  {
    var p, trusted := Qualifies(normalize, normalize(title), year), IsTrusted(normalize, title, year);
    FilterCongruent(candidates, p, trusted);
    OneQualifies(candidates, trusted);
    forall i: nat | IsTheOne(candidates, trusted, i)
      ensures Filter(candidates, trusted) == [candidates[i]]
    {
      OnlyOneQualifies(candidates, trusted, i);
    }
  }

  lemma TwoQualify<T(!new)>(s: seq<T>, p: T -> bool, i: nat, j: nat)
    requires i < j < |s| && p(s[i]) && p(s[j])
    ensures |Filter(s, p)| >= 2
  {
    FilterAround(s, p, i);
    var back := s[i + 1..];
    FilterMembers(back, p);
    assert back[j - i - 1] == s[j];
    assert s[j] in Filter(back, p);
  }

  lemma OnlyOneQualifies<T(!new)>(s: seq<T>, p: T -> bool, i: nat)
    requires IsTheOne(s, p, i)
    ensures Filter(s, p) == [s[i]]
  {
    FilterAround(s, p, i);
    FilterNone(s[..i], p);
    FilterNone(s[i + 1..], p);
  }

  lemma OneQualifies<T(!new)>(s: seq<T>, p: T -> bool)
    ensures |Filter(s, p)| == 1 <==> exists i: nat :: IsTheOne(s, p, i)
  {
    if |Filter(s, p)| == 1 {
      FilterMembers(s, p);
      assert Filter(s, p)[0] in s;
      var i :| 0 <= i < |s| && s[i] == Filter(s, p)[0];
      assert s[i] in Filter(s, p);
      forall j | 0 <= j < |s| && j != i
        ensures !p(s[j])
      {
        if p(s[j]) {
          TwoQualify(s, p, if i < j then i else j, if i < j then j else i);
        }
      }
      assert IsTheOne(s, p, i);
    }
    if i: nat :| IsTheOne(s, p, i) {
      OnlyOneQualifies(s, p, i);
    }
  }
}
