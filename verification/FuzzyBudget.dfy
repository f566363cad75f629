/**
  A name on which the budget of the fuzzy matcher runs out before the best alignment is seen.
 */
module FuzzyBudget {
  import opened Options
  import opened FuzzyMatch

  const LETTER := "a"

  /** Nine letters that fit, then one after a separator, which is worth more. */
  const NAME := "xaaaaaaaaa_a"

  lemma NameLetters(i: nat)
    requires i < 12
    ensures |NAME| == 12 && (NAME[i] == 'a' <==> 1 <= i <= 9 || i == 11)
    ensures i == 0 ==> NAME[i] == 'x'
    ensures i == 10 ==> NAME[i] == '_'
  {}

  lemma LetterValue(i: nat)
    requires 1 <= i <= 9 || i == 11
    ensures Alignment(LETTER, NAME, [i])
    ensures Value(LETTER, NAME, [i]) == 89 - (if i < 3 then 5 * i else 15) + (if i == 11 then 30 else 0)
  {
    NameLetters(i);
    NameLetters(i - 1);
    assert Alignment(LETTER, NAME, [i]);
    assert Wrap([i]) == [i];
    assert Bonuses(NAME, [i], 0) == 0;
    assert Bonuses(NAME, [i], 1) == Bonus(NAME, [i], 0);
  }

  /** The i-th call starts at position i, and the tenth is cut. */
  lemma {:induction false} CutSearch(i: nat)
    requires 1 <= i <= 10
    ensures Search(LETTER, NAME, [], i, i - 1) == (if i == 10 then None else Some([i]), 10)
    decreases 10 - i
  {
    hide Search, Scan, Value, Alignment;
    SearchStarts(LETTER, NAME, [], i, i - 1);
    NameLetters(i);
    if i < 10 {
      CutSearch(i + 1);
      ScanMoves(LETTER, NAME, [], i, i, None);
      assert [] + [i] == [i];
      LetterValue(i);
      if i < 9 {
        LetterValue(i + 1);
      }
      ScanEnds(LETTER, NAME, [i], i + 1, 10, if i == 9 then None else Some([i + 1]));
    }
  }

  /** The search reports 84 although an alignment is worth 104. */
  lemma BudgetMissesTheBest()
    ensures Search(LETTER, NAME, [], 0, 0) == (Some([1]), 10) && Value(LETTER, NAME, [1]) == 84
    ensures Alignment(LETTER, NAME, [11]) && Value(LETTER, NAME, [11]) == 104
    ensures !Best(LETTER, NAME, 84) && Calls(LETTER, 0, NAME, 0) >= LIMIT
  {
    hide Search, Scan, Value, Alignment, Calls, AlignmentScore;
    NameLetters(0);
    SearchStarts(LETTER, NAME, [], 0, 0);
    ScanMoves(LETTER, NAME, [], 0, 1, None);
    SearchStarts(LETTER, NAME, [], 1, 0);
    CutSearch(1);
    LetterValue(1);
    LetterValue(11);
    OwnValue(LETTER, NAME, [11]);
    SearchCounts(LETTER, NAME, [], 0, 0);
  }

  /** One letter that fits, then one after a separator. */
  const SHORT_NAME := "xa_a"

  lemma ShortNameValues()
    ensures Alignment(LETTER, SHORT_NAME, [1]) && Value(LETTER, SHORT_NAME, [1]) == 92
    ensures Alignment(LETTER, SHORT_NAME, [3]) && Value(LETTER, SHORT_NAME, [3]) == 112
  {
    assert Wrap([1]) == [1] && Wrap([3]) == [3];
    assert Bonuses(SHORT_NAME, [1], 0) == 0 && Bonuses(SHORT_NAME, [3], 0) == 0;
    assert Bonuses(SHORT_NAME, [1], 1) == Bonus(SHORT_NAME, [1], 0);
    assert Bonuses(SHORT_NAME, [3], 1) == Bonus(SHORT_NAME, [3], 0);
  }

  lemma ShortNameSearch()
    ensures Search(LETTER, SHORT_NAME, [], 0, 0) == (Some([3]), 3)
  {
    hide Search, Scan, Value, Alignment;
    ShortNameValues();
    SearchStarts(LETTER, SHORT_NAME, [], 4, 2);
    ScanEnds(LETTER, SHORT_NAME, [3], 4, 3, None);
    ScanMoves(LETTER, SHORT_NAME, [], 3, 2, None);
    assert [] + [3] == [3] && [] + [1] == [1];
    ScanMoves(LETTER, SHORT_NAME, [], 2, 2, None);
    SearchStarts(LETTER, SHORT_NAME, [], 2, 1);
    ScanEnds(LETTER, SHORT_NAME, [1], 2, 3, Some([3]));
    ScanMoves(LETTER, SHORT_NAME, [], 1, 1, None);
    ScanMoves(LETTER, SHORT_NAME, [], 0, 1, None);
    SearchStarts(LETTER, SHORT_NAME, [], 0, 0);
  }

  /** A skipped letter wins, so with a longer result buffer the copy reads past the end of its source. */
  lemma LongBufferIsUnsafe(length: nat)
    ensures Search(LETTER, SHORT_NAME, [], 0, 0).0 == Some([3]) && Greedy(LETTER, SHORT_NAME, [], 0) == Some([1])
    ensures Safe(LETTER, SHORT_NAME, [], 0, length, true, [3]) <==> length <= BUFFER
  {
    ShortNameSearch();
    assert Greedy(LETTER, SHORT_NAME, [1], 2) == Some([1]);
    assert [] + [1] == [1];
    assert Greedy(LETTER, SHORT_NAME, [], 1) == Some([1]);
  }
}
