/**
  The fuzzy string matcher: a plain subsequence test, and a scored search that branches at
  every match, shares one call counter across the whole recursion and reports byte-sized
  match positions. Strings are C strings, that is, sequences without a terminator inside.
 */
module FuzzyMatch {
  import opened Options

  const BUFFER := 256
  const LIMIT := 10

  type Index8 = x: nat | x < 256

  function Lower(c: char): char {
    if 'A' <= c <= 'Z' then (c as int + 32) as char else c
  }

  predicate SameLetter(a: char, b: char) {
    Lower(a) == Lower(b)
  }

  // ---- Alignments -------------------------------------------------------------------------

  /** Positions in str for the first letters of the pattern: increasing, each on its letter. */
  predicate Aligned(pattern: string, str: string, al: seq<nat>) {
    && |al| <= |pattern|
    && (forall i | 0 <= i < |al| :: al[i] < |str| && SameLetter(pattern[i], str[al[i]]))
    && (forall i, j | 0 <= i < j < |al| :: al[i] < al[j])
  }

  /** A whole alignment that starts with the given positions and has the others at `from` or later. */
  ghost predicate Completes(pattern: string, str: string, al: seq<nat>, prefix: seq<nat>, from: nat) {
    && |al| == |pattern| && Aligned(pattern, str, al) && prefix <= al
    && forall i | |prefix| <= i < |al| :: al[i] >= from
  }

  ghost predicate Alignment(pattern: string, str: string, al: seq<nat>) {
    |al| == |pattern| && Aligned(pattern, str, al)
  }

  /** Always take the next letter that fits. */
  function Greedy(pattern: string, str: string, prefix: seq<nat>, from: nat): Option<seq<nat>>
    requires |prefix| <= |pattern|
    decreases |str| - from
  {
    if |prefix| == |pattern| then Some(prefix)
    else if from >= |str| then None
    else if SameLetter(pattern[|prefix|], str[from]) then Greedy(pattern, str, prefix + [from], from + 1)
    else Greedy(pattern, str, prefix, from + 1)
  }

  ghost predicate Ready(pattern: string, str: string, prefix: seq<nat>, from: nat) {
    Aligned(pattern, str, prefix) && forall i | 0 <= i < |prefix| :: prefix[i] < from
  }

  lemma {:induction false} GreedySound(pattern: string, str: string, prefix: seq<nat>, from: nat)
    requires Ready(pattern, str, prefix, from) && Greedy(pattern, str, prefix, from).Some?
    ensures Completes(pattern, str, Greedy(pattern, str, prefix, from).value, prefix, from)
    decreases |str| - from
  {
    if |prefix| < |pattern| && from < |str| {
      if SameLetter(pattern[|prefix|], str[from]) {
        GreedySound(pattern, str, prefix + [from], from + 1);
      } else {
        GreedySound(pattern, str, prefix, from + 1);
      }
    }
  }

  /** If any alignment exists, the greedy one does: an exchange argument. */
  lemma {:induction false} GreedyComplete(pattern: string, str: string, prefix: seq<nat>, from: nat, al: seq<nat>)
    requires Ready(pattern, str, prefix, from) && Completes(pattern, str, al, prefix, from)
    ensures Greedy(pattern, str, prefix, from).Some?
    decreases |str| - from
  {
    var k := |prefix|;
    if k < |pattern| {
      assert al[k] < |str|;
      if SameLetter(pattern[k], str[from]) {
        var moved := al[k := from];
        assert Completes(pattern, str, moved, prefix + [from], from + 1) by {
          assert moved[..k + 1] == prefix + [from];
        }
        GreedyComplete(pattern, str, prefix + [from], from + 1, moved);
      } else {
        GreedyComplete(pattern, str, prefix, from + 1, al);
      }
    }
  }

  /** The plain test is a search for a subsequence, no more and no less. */
  method FuzzyMatchSimple(pattern: string, str: string) returns (matched: bool)
    ensures matched <==> exists al: seq<nat> :: Alignment(pattern, str, al)
  {
    var p, s := 0, 0;
    ghost var taken: seq<nat> := [];
    while p < |pattern| && s < |str|
      invariant 0 <= p <= |pattern| && 0 <= s <= |str| && |taken| == p
      invariant Greedy(pattern, str, taken, s) == Greedy(pattern, str, [], 0)
    {
      if SameLetter(pattern[p], str[s]) {
        p := p + 1;
        taken := taken + [s];
      }
      s := s + 1;
    }
    matched := p == |pattern|;
    GreedyDecides(pattern, str);
  }

  lemma GreedyDecides(pattern: string, str: string)
    ensures Greedy(pattern, str, [], 0).Some? <==> exists al: seq<nat> :: Alignment(pattern, str, al)
  {
    if al: seq<nat> :| Alignment(pattern, str, al) {
      assert Completes(pattern, str, al, [], 0);
      GreedyComplete(pattern, str, [], 0, al);
    }
    if Greedy(pattern, str, [], 0).Some? {
      GreedySound(pattern, str, [], 0);
      assert Alignment(pattern, str, Greedy(pattern, str, [], 0).value);
    }
  }

  // ---- Scores --------------------------------------------------------------------------------

  /** Positions as they are stored: modulo 256. */
  function Wrap(al: seq<nat>): (r: seq<Index8>)
    ensures |r| == |al|
  {
    seq(|al|, i requires 0 <= i < |al| => al[i] % 256)
  }

  predicate Separator(c: char) {
    c == '_' || c == ' '
  }

  predicate IsLower(c: char) { 'a' <= c <= 'z' }

  predicate IsUpper(c: char) { 'A' <= c <= 'Z' }

  predicate Inside(str: string, m: seq<Index8>) {
    forall i | 0 <= i < |m| :: m[i] < |str|
  }

  /** The bonuses of match i: next to the previous one, start of a word, first letter. */
  function Bonus(str: string, m: seq<Index8>, i: nat): int
    requires i < |m| && Inside(str, m)
  {
    (if i > 0 && m[i] as int == m[i - 1] as int + 1 then 15 else 0) +
    if m[i] > 0 then
      (if IsLower(str[m[i] - 1]) && IsUpper(str[m[i]]) then 30 else 0) + (if Separator(str[m[i] - 1]) then 30 else 0)
    else 15
  }

  function Bonuses(str: string, m: seq<Index8>, n: nat): int
    requires n <= |m| && Inside(str, m)
  {
    if n == 0 then 0 else Bonuses(str, m, n - 1) + Bonus(str, m, n - 1)
  }

  function LeadingPenalty(first: Index8): int {
    if -5 * (first as int) < -15 then -15 else -5 * (first as int)
  }

  function Score(str: string, m: seq<Index8>): int
    requires |m| > 0 && Inside(str, m)
  {
    100 + LeadingPenalty(m[0]) - (|str| - |m|) + Bonuses(str, m, |m|)
  }

  /** The score of a whole alignment, from its stored positions. */
  ghost function AlignmentScore(pattern: string, str: string, al: seq<nat>): int
    requires Alignment(pattern, str, al) && |pattern| > 0
  {
    WrapInside(pattern, str, al);
    Score(str, Wrap(al))
  }

  lemma WrapInside(pattern: string, str: string, al: seq<nat>)
    requires Aligned(pattern, str, al)
    ensures Inside(str, Wrap(al))
  {
    hide SameLetter;
  }

  lemma {:induction false} BonusesOfPrefix(str: string, m: seq<Index8>, n: nat, k: nat)
    requires k <= n <= |m| && Inside(str, m)
    ensures Inside(str, m[..n]) && Bonuses(str, m[..n], k) == Bonuses(str, m, k)
  {
    if k > 0 {
      BonusesOfPrefix(str, m, n, k - 1);
    }
  }

  /** The scoring part of fuzzy_match_recursive. */
  method ComputeScore(str: string, matches: array<Index8>, nextMatch: nat) returns (score: int)
    requires 0 < nextMatch <= matches.Length && Inside(str, matches[..nextMatch])
    ensures score == Score(str, matches[..nextMatch])
  {
    ghost var m := matches[..nextMatch];
    score := 100;
    var penalty: int := -5 * (matches[0] as int);
    if penalty < -15 {
      penalty := -15;
    }
    score := score + penalty;
    var unmatched := |str| - nextMatch;
    score := score - unmatched;
    for i := 0 to nextMatch
      invariant score == 100 + LeadingPenalty(m[0]) - (|str| - |m|) + Bonuses(str, m, i)
    {
      var currIdx := matches[i];
      assert currIdx == m[i] < |str|;
      if i > 0 {
        var prevIdx := matches[i - 1];
        if currIdx as int == prevIdx as int + 1 {
          score := score + 15;
        }
      }
      if currIdx > 0 {
        var neighbor, curr := str[currIdx - 1], str[currIdx];
        if IsLower(neighbor) && IsUpper(curr) {
          score := score + 30;
        }
        if Separator(neighbor) {
          score := score + 30;
        }
      } else {
        score := score + 15;
      }
    }
  }

  // ---- The scored search --------------------------------------------------------------------------

  function Min(a: int, b: int): int {
    if a < b then a else b
  }

  /** The number of calls, bounded by the calls that were within the limit. */
  predicate CallsBounded(before: nat, after: nat, own: nat, letters: nat) {
    after - before <= own + (Min(after, LIMIT - 1) - Min(before, LIMIT - 1)) * letters
  }

  /** What a successful search reports. */
  ghost predicate Reports(pattern: string, str: string, prefix: seq<nat>, from: nat,
                          best: seq<nat>, stored: seq<Index8>, score: int) {
    && |pattern| > 0 && Completes(pattern, str, best, prefix, from)
    && |pattern| <= |stored| && stored[..|pattern|] == Wrap(best)
    && score == AlignmentScore(pattern, str, best)
  }

  /** No completion of the prefix beats the score. */
  ghost predicate Unbeaten(pattern: string, str: string, prefix: seq<nat>, from: nat, score: int) {
    |pattern| > 0 &&
    forall al: seq<nat> | Completes(pattern, str, al, prefix, from) :: AlignmentScore(pattern, str, al) <= score
  }

  ghost predicate Beats(pattern: string, str: string, al: seq<nat>, score: int) {
    Alignment(pattern, str, al) && |pattern| > 0 && AlignmentScore(pattern, str, al) <= score
  }

  /** Every completion of the prefix either goes on from here or is no better than the best found by skipping. */
  ghost predicate Covered(pattern: string, str: string, prefix: seq<nat>, from: nat,
                          cur: seq<nat>, s: nat, any: bool, score: int) {
    forall al: seq<nat> | Completes(pattern, str, al, prefix, from) ::
      Completes(pattern, str, al, cur, s) || (any && Beats(pattern, str, al, score))
  }

  // ---- Steps of the search, one lemma each ----------------------------------------------------------

  lemma ReadyTake(pattern: string, str: string, cur: seq<nat>, s: nat)
    requires |cur| < |pattern| && s < |str| && SameLetter(pattern[|cur|], str[s]) && Ready(pattern, str, cur, s)
    ensures Ready(pattern, str, cur + [s], s + 1)
  {
    hide SameLetter;
  }

  lemma WrapAppend(cur: seq<nat>, s: nat)
    ensures Wrap(cur + [s]) == Wrap(cur) + [s % 256]
  {}

  lemma GrownTake(prefix: seq<nat>, from: nat, cur: seq<nat>, s: nat)
    requires Grown(prefix, from, cur, s)
    ensures Grown(prefix, from, cur + [s], s + 1)
  {}

  lemma TakeLetter(pattern: string, str: string, prefix: seq<nat>, from: nat, cur: seq<nat>, s: nat)
    requires |cur| < |pattern| && s < |str| && SameLetter(pattern[|cur|], str[s])
    requires Ready(pattern, str, cur, s) && Grown(prefix, from, cur, s)
    ensures Ready(pattern, str, cur + [s], s + 1) && Grown(prefix, from, cur + [s], s + 1)
    ensures Greedy(pattern, str, cur + [s], s + 1) == Greedy(pattern, str, cur, s)
    ensures Wrap(cur + [s]) == Wrap(cur) + [s % 256]
  {
    hide SameLetter, Ready, Grown, Wrap;
    ReadyTake(pattern, str, cur, s);
    GrownTake(prefix, from, cur, s);
    WrapAppend(cur, s);
  }

  lemma SkipLetter(pattern: string, str: string, prefix: seq<nat>, from: nat, cur: seq<nat>, s: nat)
    requires |cur| < |pattern| && s < |str| && Ready(pattern, str, cur, s) && Grown(prefix, from, cur, s)
    ensures Ready(pattern, str, cur, s + 1) && Grown(prefix, from, cur, s + 1)
    ensures !SameLetter(pattern[|cur|], str[s]) ==> Greedy(pattern, str, cur, s + 1) == Greedy(pattern, str, cur, s)
  {
    hide SameLetter;
  }

  /** The current positions extend the prefix by positions at `from` or later. */
  predicate Grown(prefix: seq<nat>, from: nat, cur: seq<nat>, s: nat) {
    prefix <= cur && from <= s && forall i | |prefix| <= i < |cur| :: from <= cur[i] < s
  }

  lemma CompletesWidens(pattern: string, str: string, prefix: seq<nat>, from: nat, cur: seq<nat>, s: nat, al: seq<nat>)
    requires Grown(prefix, from, cur, s) && Completes(pattern, str, al, cur, s)
    ensures Completes(pattern, str, al, prefix, from)
  {
    hide SameLetter, Aligned;
    forall i | |prefix| <= i < |al|
      ensures al[i] >= from
    {
      if i < |cur| {
        assert al[i] == cur[i];
      }
    }
  }

  lemma ReportsWidens(pattern: string, str: string, prefix: seq<nat>, from: nat, cur: seq<nat>, s: nat,
                      best: seq<nat>, stored: seq<Index8>, score: int)
    requires Grown(prefix, from, cur, s) && Reports(pattern, str, cur, s, best, stored, score)
    ensures Reports(pattern, str, prefix, from, best, stored, score)
  {
    hide Grown, Completes, AlignmentScore, Alignment;
    CompletesWidens(pattern, str, prefix, from, cur, s, best);
    CompletesIsAlignment(pattern, str, prefix, from, best);
  }

  lemma CompletesIsAlignment(pattern: string, str: string, prefix: seq<nat>, from: nat, al: seq<nat>)
    requires Completes(pattern, str, al, prefix, from)
    ensures Alignment(pattern, str, al)
  {
    hide Aligned;
  }

  /** A completion either uses the letter at s or leaves it out. */
  lemma CompletesSplits(pattern: string, str: string, cur: seq<nat>, s: nat, al: seq<nat>)
    requires |cur| < |pattern| && s < |str| && Completes(pattern, str, al, cur, s)
    ensures Completes(pattern, str, al, cur + [s], s + 1) || Completes(pattern, str, al, cur, s + 1)
    ensures !SameLetter(pattern[|cur|], str[s]) ==> Completes(pattern, str, al, cur, s + 1)
  {
    hide SameLetter;
    var k := |cur|;
    if al[k] == s {
      assert al[..k + 1] == cur + [s];
    }
  }

  /** What the call that skips the letter at s contributes, when it was not cut short. */
  ghost predicate SkipExplored(pattern: string, str: string, cur: seq<nat>, next: nat, ok: bool, score: int) {
    if ok then Unbeaten(pattern, str, cur, next, score)
    else forall al: seq<nat> :: !Completes(pattern, str, al, cur, next)
  }

  lemma SkipIsExplored(pattern: string, str: string, cur: seq<nat>, next: nat, ok: bool, score: int)
    requires Ready(pattern, str, cur, next)
    requires ok ==> Unbeaten(pattern, str, cur, next, score)
    requires !ok ==> Greedy(pattern, str, cur, next).None?
    ensures SkipExplored(pattern, str, cur, next, ok, score)
  {
    hide Ready, Unbeaten, Completes, Greedy;
    if !ok {
      forall al: seq<nat>
        ensures !Completes(pattern, str, al, cur, next)
      {
        if Completes(pattern, str, al, cur, next) {
          GreedyComplete(pattern, str, cur, next, al);
        }
      }
    }
  }

  lemma UnbeatenBeats(pattern: string, str: string, cur: seq<nat>, s: nat, al: seq<nat>, score: int)
    requires Unbeaten(pattern, str, cur, s, score) && Completes(pattern, str, al, cur, s)
    ensures Beats(pattern, str, al, score)
  {
    hide Completes, AlignmentScore, Alignment;
    CompletesIsAlignment(pattern, str, cur, s, al);
  }

  lemma BeatsWeakens(pattern: string, str: string, al: seq<nat>, low: int, high: int)
    requires Beats(pattern, str, al, low) && low <= high
    ensures Beats(pattern, str, al, high)
  {
    hide AlignmentScore, Alignment;
  }

  /** Taking the letter at s, after trying to skip it, keeps every completion accounted for. */
  lemma CoveredTake(pattern: string, str: string, prefix: seq<nat>, from: nat, cur: seq<nat>, s: nat,
                    any: bool, score: int, ok: bool, skipScore: int)
    requires |cur| < |pattern| && s < |str|
    requires Covered(pattern, str, prefix, from, cur, s, any, score)
    requires SkipExplored(pattern, str, cur, s + 1, ok, skipScore)
    ensures Covered(pattern, str, prefix, from, cur + [s], s + 1, any || ok, Better(any, score, ok, skipScore))
  {
    hide Completes, Beats, Unbeaten;
    var result := Better(any, score, ok, skipScore);
    forall al: seq<nat> | Completes(pattern, str, al, prefix, from)
      ensures Completes(pattern, str, al, cur + [s], s + 1) || ((any || ok) && Beats(pattern, str, al, result))
    {
      if Completes(pattern, str, al, cur, s) {
        CompletesSplits(pattern, str, cur, s, al);
        if Completes(pattern, str, al, cur, s + 1) {
          UnbeatenBeats(pattern, str, cur, s + 1, al, skipScore);
          BeatsWeakens(pattern, str, al, skipScore, result);
        }
      } else {
        BeatsWeakens(pattern, str, al, score, result);
      }
    }
  }

  /** The better of the best so far and a new candidate. */
  function Better(any: bool, score: int, ok: bool, candidate: int): int {
    if ok && (!any || candidate > score) then candidate else score
  }

  lemma CoveredSkip(pattern: string, str: string, prefix: seq<nat>, from: nat, cur: seq<nat>, s: nat,
                    any: bool, score: int)
    requires |cur| < |pattern| && s < |str| && !SameLetter(pattern[|cur|], str[s])
    requires Covered(pattern, str, prefix, from, cur, s, any, score)
    ensures Covered(pattern, str, prefix, from, cur, s + 1, any, score)
  {
    hide Completes, Beats, SameLetter;
    forall al: seq<nat> | Completes(pattern, str, al, prefix, from)
      ensures Completes(pattern, str, al, cur, s + 1) || (any && Beats(pattern, str, al, score))
    {
      if Completes(pattern, str, al, cur, s) {
        CompletesSplits(pattern, str, cur, s, al);
      }
    }
  }

  lemma CoveredStart(pattern: string, str: string, prefix: seq<nat>, from: nat)
    ensures Covered(pattern, str, prefix, from, prefix, from, false, 0)
    ensures Grown(prefix, from, prefix, from)
  {}

  /** At the end of the loop the greedy alignment is complete; it or the best skipped one wins. */
  lemma WinnerUnbeaten(pattern: string, str: string, prefix: seq<nat>, from: nat, cur: seq<nat>, s: nat,
                       any: bool, score: int, own: int, result: int)
    requires |cur| == |pattern| > 0 && Alignment(pattern, str, cur) && own == AlignmentScore(pattern, str, cur)
    requires Covered(pattern, str, prefix, from, cur, s, any, score)
    requires own <= result && (any ==> score <= result)
    ensures Unbeaten(pattern, str, prefix, from, result)
  {
    hide AlignmentScore, Alignment, Completes;
    forall al: seq<nat> | Completes(pattern, str, al, prefix, from)
      ensures Alignment(pattern, str, al) && AlignmentScore(pattern, str, al) <= result
    {
      CompletesIsAlignment(pattern, str, prefix, from, al);
      if Completes(pattern, str, al, cur, s) {
        SamePositions(pattern, str, al, cur, s);
      }
    }
  }

  lemma SamePositions(pattern: string, str: string, al: seq<nat>, cur: seq<nat>, s: nat)
    requires |cur| == |pattern| && Completes(pattern, str, al, cur, s)
    ensures al == cur
  {
    hide Aligned;
  }

  /** The loop has run through the whole pattern: its own alignment can be reported. */
  lemma OwnReport(pattern: string, str: string, prefix: seq<nat>, from: nat, cur: seq<nat>, s: nat, stored: seq<Index8>)
    requires |cur| == |pattern| > 0 && Ready(pattern, str, cur, s) && Grown(prefix, from, cur, s)
    requires |pattern| <= |stored| && stored[..|pattern|] == Wrap(cur)
    ensures Alignment(pattern, str, cur) && Inside(str, Wrap(cur))
    ensures Score(str, Wrap(cur)) == AlignmentScore(pattern, str, cur)
    ensures Reports(pattern, str, prefix, from, cur, stored, AlignmentScore(pattern, str, cur))
    ensures Greedy(pattern, str, cur, s) == Some(cur)
  {
    hide SameLetter, Score;
    WrapInside(pattern, str, cur);
    assert Completes(pattern, str, cur, cur, s);
    CompletesWidens(pattern, str, prefix, from, cur, s, cur);
  }

  /** A reported alignment means that the greedy one exists. */
  lemma ReportedMeansGreedy(pattern: string, str: string, prefix: seq<nat>, from: nat,
                            best: seq<nat>, stored: seq<Index8>, score: int)
    requires Ready(pattern, str, prefix, from) && Reports(pattern, str, prefix, from, best, stored, score)
    ensures Greedy(pattern, str, prefix, from).Some?
  {
    hide Ready, Completes, Greedy, AlignmentScore;
    GreedyComplete(pattern, str, prefix, from, best);
  }

  lemma GreedyExhausted(pattern: string, str: string, cur: seq<nat>)
    requires |cur| < |pattern|
    ensures Greedy(pattern, str, cur, |str|).None?
  {}

  lemma CallCut(before: nat, letters: nat)
    ensures CallsBounded(before, before + 1, 1, letters)
    ensures CallsBounded(before, before, 0, letters)
  {
    assert (Min(before + 1, LIMIT - 1) - Min(before, LIMIT - 1)) * letters >= 0;
  }

  lemma CallsAdd(before: nat, middle: nat, after: nat, own: nat, letters: nat)
    requires CallsBounded(before, middle, own, letters) && CallsBounded(middle, after, 1, letters)
    ensures CallsBounded(before, after, own + 1, letters)
  {
    var x, y, z := Min(before, LIMIT - 1), Min(middle, LIMIT - 1), Min(after, LIMIT - 1);
    assert (y - x) * letters + (z - y) * letters == (z - x) * letters;
  }

  lemma CallsOfOneCall(before: nat, after: nat, own: nat, letters: nat)
    requires CallsBounded(before + 1, after, own, letters) && before + 1 < LIMIT && own <= letters
    ensures CallsBounded(before, after, 1, letters)
  {
    var x, z := Min(before, LIMIT - 1), Min(after, LIMIT - 1);
    assert Min(before + 1, LIMIT - 1) == x + 1;
    assert (z - (x + 1)) * letters + letters == (z - x) * letters;
  }

  /** The whole search starts with an unused budget. */
  lemma CallsInAll(calls: nat, letters: nat)
    requires CallsBounded(0, calls, 1, letters)
    ensures calls <= 1 + 9 * letters
  {
    assert (Min(calls, LIMIT - 1) - Min(0, LIMIT - 1)) * letters <= 9 * letters;
  }

  // ---- The search as a function ---------------------------------------------------------------------

  /** The score of an alignment, and zero for anything else. */
  ghost function Value(pattern: string, str: string, al: seq<nat>): int {
    if Alignment(pattern, str, al) && |pattern| > 0 then AlignmentScore(pattern, str, al) else 0
  }

  /** The best recursive result so far, after one more. */
  ghost function Pick(pattern: string, str: string, sofar: Option<seq<nat>>, more: Option<seq<nat>>): Option<seq<nat>> {
    if more.Some? && (sofar.None? || Value(pattern, str, more.value) > Value(pattern, str, sofar.value)) then more
    else sofar
  }

  /** One call with its budget: the alignment it reports, if any, and the counter afterwards. */
  ghost function Search(pattern: string, str: string, prefix: seq<nat>, from: nat, count: nat): (Option<seq<nat>>, nat)
    requires |prefix| <= |pattern|
    decreases |str| - from, 1
  {
    if count + 1 >= LIMIT || |prefix| == |pattern| || from >= |str| then (None, count + 1)
    else Scan(pattern, str, prefix, from, count + 1, None)
  }

  /** The rest of a call's loop, with the best recursive result so far. */
  ghost function Scan(pattern: string, str: string, cur: seq<nat>, s: nat, count: nat, best: Option<seq<nat>>)
      : (Option<seq<nat>>, nat)
    requires |cur| <= |pattern|
    decreases |str| - s, 0
  {
    if |cur| == |pattern| then
      (if best.Some? && Value(pattern, str, best.value) > Value(pattern, str, cur) then best else Some(cur), count)
    else if s >= |str| then (best, count)
    else if SameLetter(pattern[|cur|], str[s]) then
      var (skipped, after) := Search(pattern, str, cur, s + 1, count);
      Scan(pattern, str, cur + [s], s + 1, after, Pick(pattern, str, best, skipped))
    else Scan(pattern, str, cur, s + 1, count, best)
  }

  function Maybe(any: bool, al: seq<nat>): Option<seq<nat>> {
    if any then Some(al) else None
  }

  lemma SearchStarts(pattern: string, str: string, prefix: seq<nat>, from: nat, count: nat)
    requires |prefix| <= |pattern|
    ensures Search(pattern, str, prefix, from, count)
         == if count + 1 >= LIMIT || |prefix| == |pattern| || from >= |str| then (None, count + 1)
            else Scan(pattern, str, prefix, from, count + 1, None)
  {
    hide Scan;
  }

  lemma ScanMoves(pattern: string, str: string, cur: seq<nat>, s: nat, count: nat, best: Option<seq<nat>>)
    requires |cur| < |pattern| && s < |str|
    ensures var (skipped, after) := Search(pattern, str, cur, s + 1, count);
      Scan(pattern, str, cur, s, count, best)
      == if SameLetter(pattern[|cur|], str[s])
         then Scan(pattern, str, cur + [s], s + 1, after, Pick(pattern, str, best, skipped))
         else Scan(pattern, str, cur, s + 1, count, best)
  {
    hide Search, Pick, SameLetter;
  }

  lemma ScanEnds(pattern: string, str: string, cur: seq<nat>, s: nat, count: nat, best: Option<seq<nat>>)
    requires |cur| <= |pattern| && (|cur| == |pattern| || s >= |str|)
    ensures Scan(pattern, str, cur, s, count, best) ==
      (if |cur| < |pattern| || (best.Some? && Value(pattern, str, best.value) > Value(pattern, str, cur)) then best
       else Some(cur), count)
  {
    hide Value;
  }

  lemma ReportedValue(pattern: string, str: string, prefix: seq<nat>, from: nat,
                      best: seq<nat>, stored: seq<Index8>, score: int)
    requires Reports(pattern, str, prefix, from, best, stored, score)
    ensures Value(pattern, str, best) == score
  {
    hide AlignmentScore, Wrap, Aligned;
  }

  lemma OwnValue(pattern: string, str: string, cur: seq<nat>)
    requires |pattern| > 0 && Alignment(pattern, str, cur)
    ensures Value(pattern, str, cur) == AlignmentScore(pattern, str, cur)
  {
    hide AlignmentScore, Alignment;
  }

  lemma PickIsMaybe(pattern: string, str: string, any: bool, al: seq<nat>, score: int,
                    ok: bool, other: seq<nat>, otherScore: int)
    requires any ==> Value(pattern, str, al) == score
    requires ok ==> Value(pattern, str, other) == otherScore
    ensures Pick(pattern, str, Maybe(any, al), Maybe(ok, other))
         == Maybe(any || ok, if ok && (!any || otherScore > score) then other else al)
  {
    hide Value;
  }

  // ---- The search on buffers --------------------------------------------------------------------------

  /** The recursive call that skips the letter at s, and the choice of the best result so far. */
  method TrySkip(pattern: string, p: nat, str: string, s: nat, matches: array<Index8>, nextMatch: nat, count0: nat,
                 any0: bool, bestMatches: array<Index8>, score0: int,
                 ghost prefix: seq<nat>, ghost from: nat, ghost cur: seq<nat>, ghost best0: seq<nat>)
      returns (any: bool, score: int, count: nat, ghost best: seq<nat>)
    requires bestMatches.Length == BUFFER && bestMatches != matches
    requires nextMatch == p == |cur| < |pattern| && s < |str| && p <= matches.Length && matches[..p] == Wrap(cur)
    requires Ready(pattern, str, cur, s + 1) && Grown(prefix, from, cur, s + 1)
    requires any0 ==> Reports(pattern, str, prefix, from, best0, bestMatches[..], score0)
    requires count0 < LIMIT && |pattern| <= BUFFER ==> Covered(pattern, str, prefix, from, cur, s, any0, score0)
    modifies bestMatches
    ensures count > count0 && CallsBounded(count0, count, 1, |pattern|)
    ensures any ==> Reports(pattern, str, prefix, from, best, bestMatches[..], score)
    ensures count < LIMIT && |pattern| <= BUFFER ==> Covered(pattern, str, prefix, from, cur + [s], s + 1, any, score)
    ensures |pattern| <= BUFFER ==>
      var (skipped, after) := Search(pattern, str, cur, s + 1, count0);
      count == after && Maybe(any, best) == Pick(pattern, str, Maybe(any0, best0), skipped)
    decreases |str| - s, 0
  {
    hide Ready, Grown, Greedy, Reports, Covered, Unbeaten, Beats, CallsBounded, Wrap, AlignmentScore, SkipExplored;
    hide Search, Pick;
    any, score, best := any0, score0, best0;
    var recursiveMatches := new Index8[BUFFER];
    var ok, recursiveScore;
    ghost var skipped;
    var safe;
    ok, recursiveScore, count, safe, skipped :=
      FuzzyMatchRecursive(pattern, p, str, s + 1, matches, recursiveMatches, nextMatch, count0, cur);
    if any0 {
      ReportedValue(pattern, str, prefix, from, best0, bestMatches[..], score0);
    }
    if ok {
      ReportedValue(pattern, str, cur, s + 1, skipped, recursiveMatches[..], recursiveScore);
    }
    PickIsMaybe(pattern, str, any0, best0, score0, ok, skipped, recursiveScore);
    if count < LIMIT && |pattern| <= BUFFER {
      SkipIsExplored(pattern, str, cur, s + 1, ok, recursiveScore);
      CoveredTake(pattern, str, prefix, from, cur, s, any0, score0, ok, recursiveScore);
    }
    if ok {
      if !any || recursiveScore > score {
        ghost var stored := recursiveMatches[..];
        ReportsWidens(pattern, str, prefix, from, cur, s + 1, skipped, stored, recursiveScore);
        forall i | 0 <= i < BUFFER {
          bestMatches[i] := recursiveMatches[i];
        }
        assert bestMatches[..] == stored;
        score, best := recursiveScore, skipped;
      }
      any := true;
    }
  }

  /** May the call at `from` copy its result out of a 256-byte array without reading past its end? */
  ghost predicate Safe(pattern: string, str: string, prefix: seq<nat>, from: nat,
                       length: nat, found: bool, best: seq<nat>)
    requires |prefix| <= |pattern|
  {
    length <= BUFFER || !found || Greedy(pattern, str, prefix, from) == Some(best)
  }

  /**
    fuzzy_match_recursive. The ghost parameter holds the unwrapped positions behind srcMatches; `safe` says that
    no copy read past the end of an array.
   */
  method FuzzyMatchRecursive(pattern: string, p0: nat, str: string, s0: nat, src: array?<Index8>,
                             matches: array<Index8>, next0: nat, count0: nat, ghost prefix: seq<nat>)
      returns (found: bool, score: int, count: nat, safe: bool, ghost best: seq<nat>)
    requires src != matches
    requires next0 == p0 == |prefix| <= |pattern| && s0 <= |str| && Ready(pattern, str, prefix, s0)
    requires src == null ==> p0 == 0
    requires src != null ==> p0 <= src.Length && src[..p0] == Wrap(prefix)
    modifies matches
    ensures safe <==> Safe(pattern, str, prefix, s0, matches.Length, found, best)
    ensures count > count0 && CallsBounded(count0, count, 1, |pattern|)
    ensures found <==>
      (count0 + 1 < LIMIT && p0 < |pattern| <= matches.Length && Greedy(pattern, str, prefix, s0).Some?)
    ensures found && safe ==> Reports(pattern, str, prefix, s0, best, matches[..], score)
    ensures found ==> Beats(pattern, str, Greedy(pattern, str, prefix, s0).value, score)
    ensures found && count < LIMIT && |pattern| <= BUFFER ==> Unbeaten(pattern, str, prefix, s0, score)
    ensures |pattern| <= matches.Length && |pattern| <= BUFFER ==>
      Search(pattern, str, prefix, s0, count0) == (Maybe(found, best), count)
    decreases |str| - s0, 1
  {
    hide Ready, Grown, Greedy, Reports, Covered, Unbeaten, Beats, CallsBounded, Wrap, AlignmentScore;
    hide SkipExplored, Score, SameLetter, Inside, Alignment, Search, Scan, Pick, Value;
    found, score, best, safe := false, 0, [], true;
    SearchStarts(pattern, str, prefix, s0, count0);
    count := count0 + 1;
    CallCut(count0, |pattern|);
    if count >= LIMIT {
      return;
    }
    if p0 == |pattern| || s0 == |str| {
      if p0 < |pattern| {
        GreedyExhausted(pattern, str, prefix);
      }
      return;
    }

    var recursiveMatch := false;
    var bestRecursiveMatches := new Index8[BUFFER];
    var bestRecursiveScore := 0;
    ghost var bestSkipped: seq<nat> := [];
    ghost var bestStored := bestRecursiveMatches[..];

    var firstMatch := true;
    var p, s, nextMatch := p0, s0, next0;
    ghost var cur: seq<nat> := prefix;
    CoveredStart(pattern, str, prefix, s0);
    CallCut(count, |pattern|);
    while p < |pattern| && s < |str|
      invariant p0 <= p == nextMatch == |cur| <= |pattern| && s0 <= s <= |str|
      invariant p <= matches.Length || p == p0
      invariant |pattern| <= matches.Length && |pattern| <= BUFFER ==>
        Scan(pattern, str, cur, s, count, Maybe(recursiveMatch, bestSkipped))
        == Search(pattern, str, prefix, s0, count0)
      invariant Ready(pattern, str, cur, s) && Grown(prefix, s0, cur, s)
      invariant firstMatch && src != null ==> cur == prefix
      invariant !(firstMatch && src != null) ==> p <= matches.Length && matches[..p] == Wrap(cur)
      invariant src != null ==> src[..p0] == Wrap(prefix)
      invariant Greedy(pattern, str, cur, s) == Greedy(pattern, str, prefix, s0)
      invariant count >= count0 + 1 && CallsBounded(count0 + 1, count, p - p0, |pattern|)
      invariant bestRecursiveMatches[..] == bestStored
      invariant recursiveMatch ==> Reports(pattern, str, prefix, s0, bestSkipped, bestStored, bestRecursiveScore)
      invariant count < LIMIT && |pattern| <= BUFFER ==>
        Covered(pattern, str, prefix, s0, cur, s, recursiveMatch, bestRecursiveScore)
      decreases |str| - s
    {
      SkipLetter(pattern, str, prefix, s0, cur, s);
      ScanMoves(pattern, str, cur, s, count, Maybe(recursiveMatch, bestSkipped));
      if SameLetter(pattern[p], str[s]) {
        if nextMatch >= matches.Length {
          CallsOfOneCall(count0, count, p - p0, |pattern|);
          return;
        }
        if firstMatch && src != null {
          forall i | 0 <= i < nextMatch {
            matches[i] := src[i];
          }
          firstMatch := false;
          assert matches[..p] == src[..p0];
        }
        assert bestRecursiveMatches[..] == bestStored;
        ghost var before := count;
        recursiveMatch, bestRecursiveScore, count, bestSkipped :=
          TrySkip(pattern, p, str, s, matches, nextMatch, count,
            recursiveMatch, bestRecursiveMatches, bestRecursiveScore,
            prefix, s0, cur, bestSkipped);
        bestStored := bestRecursiveMatches[..];
        CallsAdd(count0 + 1, before, count, p - p0, |pattern|);
        TakeLetter(pattern, str, prefix, s0, cur, s);
        matches[nextMatch] := s % 256;
        nextMatch := nextMatch + 1;
        p := p + 1;
        cur := cur + [s];
        assert matches[..p] == Wrap(cur);
      } else {
        if count < LIMIT && |pattern| <= BUFFER {
          CoveredSkip(pattern, str, prefix, s0, cur, s, recursiveMatch, bestRecursiveScore);
        }
      }
      s := s + 1;
    }

    CallsOfOneCall(count0, count, p - p0, |pattern|);
    ScanEnds(pattern, str, cur, s, count, Maybe(recursiveMatch, bestSkipped));
    if recursiveMatch {
      ReportedValue(pattern, str, prefix, s0, bestSkipped, bestStored, bestRecursiveScore);
      ReportedMeansGreedy(pattern, str, prefix, s0, bestSkipped, bestStored, bestRecursiveScore);
    }
    var matched := p == |pattern|;
    ghost var own := 0;
    if matched {
      OwnReport(pattern, str, prefix, s0, cur, s, matches[..]);
      OwnValue(pattern, str, cur);
      score := ComputeScore(str, matches, nextMatch);
      best, own := cur, score;
    } else {
      GreedyExhausted(pattern, str, cur);
    }
    if recursiveMatch && (!matched || bestRecursiveScore > score) {
      safe := matches.Length <= BUFFER;
      forall i | 0 <= i < matches.Length && i < BUFFER {
        matches[i] := bestRecursiveMatches[i];
      }
      score, best, found := bestRecursiveScore, bestSkipped, true;
      if safe {
        assert matches[..] == bestStored[..matches.Length];
        ReportsShortened(pattern, str, prefix, s0, best, bestStored, matches[..], score);
      }
    } else {
      found := matched;
    }
    if found {
      OwnBeaten(pattern, str, cur, own, score);
      if count < LIMIT && |pattern| <= BUFFER {
        WinnerUnbeaten(pattern, str, prefix, s0, cur, s, recursiveMatch, bestRecursiveScore, own, score);
      }
    }
  }

  lemma OwnBeaten(pattern: string, str: string, cur: seq<nat>, own: int, score: int)
    requires |pattern| > 0 && Alignment(pattern, str, cur) && own == AlignmentScore(pattern, str, cur) && own <= score
    ensures Beats(pattern, str, cur, score)
  {
    hide AlignmentScore, Alignment;
  }

  lemma ReportsShortened(pattern: string, str: string, prefix: seq<nat>, from: nat,
                         best: seq<nat>, long: seq<Index8>, short: seq<Index8>, score: int)
    requires Reports(pattern, str, prefix, from, best, long, score)
    requires |pattern| <= |short| <= |long| && short == long[..|short|]
    ensures Reports(pattern, str, prefix, from, best, short, score)
  {
    hide Completes, AlignmentScore, Wrap;
    assert short[..|pattern|] == long[..|pattern|];
  }

  // ---- The budget -------------------------------------------------------------------------------------

  /** The calls that a search without a budget makes. */
  function Calls(pattern: string, p: nat, str: string, s: nat): (r: nat)
    requires p <= |pattern|
    ensures r >= 1
    decreases |str| - s, 1
  {
    if p == |pattern| || s >= |str| then 1 else 1 + Skips(pattern, p, str, s)
  }

  /** Of these, the calls made by the rest of a loop: one search for each letter that can be skipped. */
  function Skips(pattern: string, p: nat, str: string, s: nat): nat
    requires p <= |pattern|
    decreases |str| - s, 0
  {
    if p == |pattern| || s >= |str| then 0
    else if SameLetter(pattern[p], str[s]) then Calls(pattern, p, str, s + 1) + Skips(pattern, p + 1, str, s + 1)
    else Skips(pattern, p, str, s + 1)
  }

  /** The counter ends below the limit only if nothing was cut, and then it has counted every call. */
  predicate Counted(before: nat, calls: nat, after: nat) {
    if before + calls < LIMIT then after == before + calls else after >= LIMIT
  }

  lemma {:induction false} SearchCounts(pattern: string, str: string, prefix: seq<nat>, from: nat, count: nat)
    requires |prefix| <= |pattern|
    ensures Counted(count, Calls(pattern, |prefix|, str, from), Search(pattern, str, prefix, from, count).1)
    decreases |str| - from, 1
  {
    hide Scan, Skips;
    if count + 1 < LIMIT && |prefix| < |pattern| && from < |str| {
      ScanCounts(pattern, str, prefix, from, count + 1, None);
    }
  }

  lemma {:induction false} ScanCounts(pattern: string, str: string, cur: seq<nat>, s: nat, count: nat,
                                      best: Option<seq<nat>>)
    requires |cur| <= |pattern|
    ensures Counted(count, Skips(pattern, |cur|, str, s), Scan(pattern, str, cur, s, count, best).1)
    decreases |str| - s, 0
  {
    hide Search, Calls, Pick, Value, SameLetter;
    if |cur| < |pattern| && s < |str| {
      if SameLetter(pattern[|cur|], str[s]) {
        SearchCounts(pattern, str, cur, s + 1, count);
        var (skipped, after) := Search(pattern, str, cur, s + 1, count);
        ScanCounts(pattern, str, cur + [s], s + 1, after, Pick(pattern, str, best, skipped));
      } else {
        ScanCounts(pattern, str, cur, s + 1, count, best);
      }
    }
  }

  predicate Occurs(c: char, pattern: string) {
    exists i | 0 <= i < |pattern| :: SameLetter(pattern[i], c)
  }

  /** How many characters of str, from s on, are letters of the pattern. */
  function Fitting(pattern: string, str: string, s: nat): nat
    decreases |str| - s
  {
    if s >= |str| then 0 else (if Occurs(str[s], pattern) then 1 else 0) + Fitting(pattern, str, s + 1)
  }

  function Power(n: nat): (r: nat)
    ensures r >= 1
  {
    if n == 0 then 1 else 2 * Power(n - 1)
  }

  /** Each fitting character at most doubles the number of calls. */
  lemma {:induction false} SkipsBounded(pattern: string, p: nat, str: string, s: nat)
    requires p <= |pattern|
    ensures Skips(pattern, p, str, s) < Power(Fitting(pattern, str, s))
    ensures Calls(pattern, p, str, s) <= Power(Fitting(pattern, str, s))
    decreases |str| - s
  {
    hide SameLetter;
    if p < |pattern| && s < |str| {
      SkipsBounded(pattern, p, str, s + 1);
      if SameLetter(pattern[p], str[s]) {
        assert Occurs(str[s], pattern);
        SkipsBounded(pattern, p + 1, str, s + 1);
      }
    }
  }

  /** With at most three fitting characters the budget is never reached. */
  lemma FewFittingSuffice(pattern: string, str: string)
    requires Fitting(pattern, str, 0) <= 3
    ensures Calls(pattern, 0, str, 0) < LIMIT
  {
    hide Calls, Fitting;
    SkipsBounded(pattern, 0, str, 0);
    assert Power(0) == 1 && Power(1) == 2 && Power(2) == 4 && Power(3) == 8;
  }

  // ---- The public entry ------------------------------------------------------------------------------

  ghost predicate IsSubsequence(pattern: string, str: string) {
    exists al: seq<nat> :: Alignment(pattern, str, al)
  }

  /** No alignment at all scores more. */
  ghost predicate Best(pattern: string, str: string, score: int) {
    |pattern| > 0 && forall al: seq<nat> | Alignment(pattern, str, al) :: AlignmentScore(pattern, str, al) <= score
  }

  lemma AlignmentCompletesNothing(pattern: string, str: string, al: seq<nat>)
    requires Alignment(pattern, str, al)
    ensures Completes(pattern, str, al, [], 0)
  {
    hide Aligned;
  }

  lemma UnbeatenIsBest(pattern: string, str: string, score: int)
    requires Unbeaten(pattern, str, [], 0, score)
    ensures Best(pattern, str, score)
  {
    hide Completes, AlignmentScore, Alignment;
    forall al: seq<nat> | Alignment(pattern, str, al)
      ensures AlignmentScore(pattern, str, al) <= score
    {
      AlignmentCompletesNothing(pattern, str, al);
    }
  }

  /** Strings of at most 256 characters have positions that fit the stored bytes. */
  lemma ShortStringsDoNotWrap(pattern: string, str: string, al: seq<nat>)
    requires Aligned(pattern, str, al) && |str| <= 256
    ensures |Wrap(al)| == |al| && forall i | 0 <= i < |al| :: Wrap(al)[i] == al[i]
  {
    hide SameLetter;
  }

  /** fuzzy_match: an exact subsequence test whose score is that of the reported positions. */
  method FuzzyMatch(pattern: string, str: string, matches: array<Index8>)
      returns (found: bool, score: int, calls: nat, safe: bool, ghost best: seq<nat>)
    modifies matches
    ensures found <==> 0 < |pattern| <= matches.Length && IsSubsequence(pattern, str)
    ensures safe <==> Safe(pattern, str, [], 0, matches.Length, found, best)
    ensures found && safe ==>
      (Alignment(pattern, str, best) && matches[..|pattern|] == Wrap(best) &&
       score == AlignmentScore(pattern, str, best))
    ensures found && safe && |str| <= 256 ==> forall i | 0 <= i < |pattern| :: matches[i] == best[i]
    ensures found ==> exists g :: Greedy(pattern, str, [], 0) == Some(g) && Beats(pattern, str, g, score)
    ensures calls <= 1 + 9 * |pattern|
    ensures |pattern| <= matches.Length && |pattern| <= BUFFER ==>
      && Search(pattern, str, [], 0, 0) == (Maybe(found, best), calls)
      && (calls < LIMIT <==> Calls(pattern, 0, str, 0) < LIMIT)
    ensures found && |pattern| <= BUFFER && Calls(pattern, 0, str, 0) < LIMIT ==> Best(pattern, str, score)
    ensures found && |pattern| <= BUFFER && Fitting(pattern, str, 0) <= 3 ==> Best(pattern, str, score)
  {
    hide Calls, Fitting;
    hide Greedy, Reports, Unbeaten, Beats, AlignmentScore, Alignment, Wrap, Best, CallsBounded, Search, Safe;
    StartReady(pattern, str);
    found, score, calls, safe, best := FuzzyMatchRecursive(pattern, 0, str, 0, null, matches, 0, 0, []);
    GreedyDecides(pattern, str);
    SearchCounts(pattern, str, [], 0, 0);
    if Fitting(pattern, str, 0) <= 3 {
      FewFittingSuffice(pattern, str);
    }
    if found {
      if calls < LIMIT && |pattern| <= BUFFER {
        UnbeatenIsBest(pattern, str, score);
      }
      if safe {
        ReportMeans(pattern, str, best, matches[..], score);
        if |str| <= 256 {
          AlignmentIsAligned(pattern, str, best);
          ShortStringsDoNotWrap(pattern, str, best);
          assert forall i | 0 <= i < |pattern| :: matches[i] == matches[..|pattern|][i];
        }
      }
    }
    CallsInAll(calls, |pattern|);
  }

  lemma StartReady(pattern: string, str: string)
    ensures Ready(pattern, str, [], 0)
  {}

  lemma AlignmentIsAligned(pattern: string, str: string, al: seq<nat>)
    requires Alignment(pattern, str, al)
    ensures Aligned(pattern, str, al) && |al| == |pattern|
  {
    hide Aligned;
  }

  lemma ReportMeans(pattern: string, str: string, best: seq<nat>, stored: seq<Index8>, score: int)
    requires Reports(pattern, str, [], 0, best, stored, score)
    ensures Alignment(pattern, str, best) && |pattern| > 0 && score == AlignmentScore(pattern, str, best)
    ensures |pattern| <= |stored| && stored[..|pattern|] == Wrap(best)
  {
    hide Aligned, AlignmentScore, Wrap;
  }
}
