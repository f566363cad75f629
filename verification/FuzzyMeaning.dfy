/**
  What the fuzzy matcher's notions come to: when two characters are the same letter, what the
  case of letters changes, and what a score counts.
 */
module FuzzyMeaning {
  import opened Options
  import opened FuzzyMatch

  // ---- Letters -----------------------------------------------------------------------------------

  /** The upper and the lower case of one ASCII letter. */
  predicate UpperAndLower(a: char, b: char) {
    'A' <= a <= 'Z' && b as int == a as int + 32
  }

  /** Two characters are the same letter exactly when they are equal or differ in ASCII case only. */
  lemma SameLetterIff(a: char, b: char)
    ensures SameLetter(a, b) <==> a == b || UpperAndLower(a, b) || UpperAndLower(b, a)
  {}

  predicate CaseOnly(a: char, b: char) {
    a == b || UpperAndLower(a, b) || UpperAndLower(b, a)
  }

  /** The two strings differ in the case of letters only. */
  predicate Recased(x: string, y: string) {
    |x| == |y| && forall i | 0 <= i < |x| :: CaseOnly(x[i], y[i])
  }

  lemma CaseIsNothing(a: char, b: char, c: char)
    requires CaseOnly(a, b)
    ensures SameLetter(a, c) <==> SameLetter(b, c)
    ensures SameLetter(c, a) <==> SameLetter(c, b)
  {}

  // ---- The case of the pattern ---------------------------------------------------------------------

  lemma SameAlignments(x: string, y: string, str: string, al: seq<nat>)
    requires Recased(x, y)
    ensures Alignment(x, str, al) <==> Alignment(y, str, al)
  {
    hide SameLetter, CaseOnly;
    forall i, c | 0 <= i < |x|
      ensures SameLetter(x[i], c) <==> SameLetter(y[i], c)
    {
      CaseIsNothing(x[i], y[i], c);
    }
  }

  lemma SameValues(x: string, y: string, str: string, al: seq<nat>)
    requires Recased(x, y)
    ensures Value(x, str, al) == Value(y, str, al)
  {
    hide Score, Alignment, Recased, Wrap;
    SameAlignments(x, y, str, al);
    RecasedLength(x, y);
  }

  lemma RecasedLength(x: string, y: string)
    requires Recased(x, y)
    ensures |x| == |y|
  {}

  lemma SamePicks(x: string, y: string, str: string, best: Option<seq<nat>>, more: Option<seq<nat>>)
    requires Recased(x, y)
    ensures Pick(x, str, best, more) == Pick(y, str, best, more)
  {
    hide Value, Recased;
    if best.Some? {
      SameValues(x, y, str, best.value);
    }
    if more.Some? {
      SameValues(x, y, str, more.value);
    }
  }

  lemma {:induction false} SameSearches(x: string, y: string, str: string, prefix: seq<nat>, from: nat, count: nat)
    requires Recased(x, y) && |prefix| <= |x| == |y|
    ensures Search(x, str, prefix, from, count) == Search(y, str, prefix, from, count)
    decreases |str| - from, 1
  {
    hide Scan, Recased;
    if count + 1 < LIMIT && |prefix| < |x| && from < |str| {
      SameScans(x, y, str, prefix, from, count + 1, None);
    }
  }

  lemma {:induction false} SameScans(x: string, y: string, str: string, cur: seq<nat>, s: nat, count: nat,
                                     best: Option<seq<nat>>)
    requires Recased(x, y) && |cur| <= |x| == |y|
    ensures Scan(x, str, cur, s, count, best) == Scan(y, str, cur, s, count, best)
    decreases |str| - s, 0
  {
    hide Search, Pick, Value, SameLetter, CaseOnly;
    if |cur| == |x| {
      SameValues(x, y, str, cur);
      if best.Some? {
        SameValues(x, y, str, best.value);
      }
    } else if s < |str| {
      CaseIsNothing(x[|cur|], y[|cur|], str[s]);
      if SameLetter(x[|cur|], str[s]) {
        SameSearches(x, y, str, cur, s + 1, count);
        var (skipped, after) := Search(x, str, cur, s + 1, count);
        SamePicks(x, y, str, best, skipped);
        SameScans(x, y, str, cur + [s], s + 1, after, Pick(x, str, best, skipped));
      } else {
        SameScans(x, y, str, cur, s + 1, count, best);
      }
    }
  }

  /** Changing the case of letters of the pattern changes neither what is found nor its score. */
  lemma PatternCaseDoesNotMatter(x: string, y: string, str: string, al: seq<nat>)
    requires Recased(x, y)
    ensures |x| == |y| && (IsSubsequence(x, str) <==> IsSubsequence(y, str))
    ensures Search(x, str, [], 0, 0) == Search(y, str, [], 0, 0) && Value(x, str, al) == Value(y, str, al)
  {
    hide Search, Value, Alignment, Recased;
    RecasedLength(x, y);
    SameSearches(x, y, str, [], 0, 0);
    SameValues(x, y, str, al);
    forall a: seq<nat>
      ensures Alignment(x, str, a) <==> Alignment(y, str, a)
    {
      SameAlignments(x, y, str, a);
    }
  }

  /** Changing the case of letters of the string does not change whether there is a match. */
  lemma StringCaseDoesNotMatter(pattern: string, x: string, y: string)
    requires Recased(x, y)
    ensures IsSubsequence(pattern, x) <==> IsSubsequence(pattern, y)
  {
    hide SameLetter, CaseOnly;
    forall i, c | 0 <= i < |x|
      ensures SameLetter(c, x[i]) <==> SameLetter(c, y[i])
    {
      CaseIsNothing(x[i], y[i], c);
    }
    forall al: seq<nat>
      ensures Alignment(pattern, x, al) <==> Alignment(pattern, y, al)
    {}
  }

  // ---- What a score counts ---------------------------------------------------------------------------

  /** The match comes right after the one before. */
  predicate IsAdjacent(m: seq<Index8>, i: nat)
    requires i < |m|
  {
    i > 0 && m[i] as int == m[i - 1] as int + 1
  }

  /** It is on a capital after a small letter. */
  predicate IsHump(str: string, m: seq<Index8>, i: nat)
    requires i < |m| && Inside(str, m)
  {
    m[i] > 0 && 'a' <= str[m[i] - 1] <= 'z' && 'A' <= str[m[i]] <= 'Z'
  }

  /** It comes after an underscore or a blank. */
  predicate IsSeparated(str: string, m: seq<Index8>, i: nat)
    requires i < |m| && Inside(str, m)
  {
    m[i] > 0 && (str[m[i] - 1] == '_' || str[m[i] - 1] == ' ')
  }

  function Adjacent(m: seq<Index8>, n: nat): set<nat>
    requires n <= |m|
  {
    set i: nat | i < n && IsAdjacent(m, i)
  }

  function Humps(str: string, m: seq<Index8>, n: nat): set<nat>
    requires n <= |m| && Inside(str, m)
  {
    set i: nat | i < n && IsHump(str, m, i)
  }

  function Separated(str: string, m: seq<Index8>, n: nat): set<nat>
    requires n <= |m| && Inside(str, m)
  {
    set i: nat | i < n && IsSeparated(str, m, i)
  }

  function OnFirst(m: seq<Index8>, n: nat): set<nat>
    requires n <= |m|
  {
    set i: nat | i < n && m[i] == 0
  }

  function One(b: bool): nat {
    if b then 1 else 0
  }

  lemma GrowsByOne(s: set<nat>, t: set<nat>, n: nat, isIn: bool)
    requires n !in s && t == if isIn then s + {n} else s
    ensures |t| == |s| + One(isIn)
  {}

  lemma BonusIs(str: string, m: seq<Index8>, i: nat)
    requires i < |m| && Inside(str, m)
    ensures Bonus(str, m, i) == 15 * One(IsAdjacent(m, i)) + 30 * One(IsHump(str, m, i))
                                + 30 * One(IsSeparated(str, m, i)) + 15 * One(m[i] == 0)
  {}

  lemma OneMoreAdjacent(m: seq<Index8>, k: nat)
    requires k < |m|
    ensures |Adjacent(m, k + 1)| == |Adjacent(m, k)| + One(IsAdjacent(m, k))
  {
    hide IsAdjacent, One;
    GrowsByOne(Adjacent(m, k), Adjacent(m, k + 1), k, IsAdjacent(m, k));
  }

  lemma OneMoreHump(str: string, m: seq<Index8>, k: nat)
    requires k < |m| && Inside(str, m)
    ensures |Humps(str, m, k + 1)| == |Humps(str, m, k)| + One(IsHump(str, m, k))
  {
    hide IsHump, One, Inside;
    GrowsByOne(Humps(str, m, k), Humps(str, m, k + 1), k, IsHump(str, m, k));
  }

  lemma OneMoreSeparated(str: string, m: seq<Index8>, k: nat)
    requires k < |m| && Inside(str, m)
    ensures |Separated(str, m, k + 1)| == |Separated(str, m, k)| + One(IsSeparated(str, m, k))
  {
    hide IsSeparated, One, Inside;
    GrowsByOne(Separated(str, m, k), Separated(str, m, k + 1), k, IsSeparated(str, m, k));
  }

  lemma OneMoreFirst(m: seq<Index8>, k: nat)
    requires k < |m|
    ensures |OnFirst(m, k + 1)| == |OnFirst(m, k)| + One(m[k] == 0)
  {
    hide One;
    GrowsByOne(OnFirst(m, k), OnFirst(m, k + 1), k, m[k] == 0);
  }

  lemma NoneYet(str: string, m: seq<Index8>)
    requires Inside(str, m)
    ensures |Adjacent(m, 0)| == |Humps(str, m, 0)| == |Separated(str, m, 0)| == |OnFirst(m, 0)| == 0
  {}

  lemma {:induction false} BonusesCount(str: string, m: seq<Index8>, n: nat)
    requires n <= |m| && Inside(str, m)
    ensures Bonuses(str, m, n) ==
      15 * |Adjacent(m, n)| + 30 * |Humps(str, m, n)| + 30 * |Separated(str, m, n)| + 15 * |OnFirst(m, n)|
  {
    hide IsAdjacent, IsHump, IsSeparated, Inside, Bonus, One, Adjacent, Humps, Separated, OnFirst;
    if n == 0 {
      NoneYet(str, m);
    } else {
      BonusesCount(str, m, n - 1);
      BonusIs(str, m, n - 1);
      OneMoreAdjacent(m, n - 1);
      OneMoreHump(str, m, n - 1);
      OneMoreSeparated(str, m, n - 1);
      OneMoreFirst(m, n - 1);
    }
  }

  /**
    A score is 100, less five for each of at most three characters before the first match, less one for each
    unmatched character, plus 15 for each adjacent match, 30 for each hump, 30 for each match after a separator
    and 15 for a match on the first character.
   */
  lemma ScoreCounts(str: string, m: seq<Index8>)
    requires |m| > 0 && Inside(str, m)
    ensures Score(str, m) == 100 - 5 * (if m[0] < 3 then m[0] else 3) - (|str| - |m|)
      + 15 * |Adjacent(m, |m|)| + 30 * |Humps(str, m, |m|)| + 30 * |Separated(str, m, |m|)| + 15 * |OnFirst(m, |m|)|
  {
    hide Bonuses, Inside, Adjacent, Humps, Separated, OnFirst;
    BonusesCount(str, m, |m|);
  }
}
