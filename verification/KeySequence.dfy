/**
  Which numbers the key tables hold: the outputs of the four generators, started at the seed,
  in the order they come, with the rejected ones left out.
 */
module KeySequence {
  import opened KeySchedule

  /** The next state of each generator, written out. */
  function Step(kind: Kind, x: nat): Word {
    match kind
    case BC => (0x8088405 * x + 1) % 0x1_0000_0000
    case AC => (0x41C64E6D * x + 12345) % 0x8000_0000
    case MY => (0x41C64E6D * x + 12345) % 0x1_0000_0000
    case VC => (0x343FD * x + 0x269EC3) % 0x8000_0000
  }

  /** The state of a generator n steps after the seed. */
  function After(kind: Kind, seed: Word, n: nat): Word {
    if n == 0 then seed else Step(kind, After(kind, seed, n - 1))
  }

  /** A 32-bit state as a signed number, divided by 0x10000 toward zero. */
  function Quotient(x: Word): int {
    if x < 0x8000_0000 then x / 0x10000 else -((0x1_0000_0000 - x) / 0x10000)
  }

  /** What the n-th draw returns. */
  function Drawn(kind: Kind, seed: Word, n: nat): int {
    if kind.AC? then After(kind, seed, n) else Quotient(After(kind, seed, n))
  }

  function KindOf(i: nat): Kind {
    [BC, AC, MY, VC][i % 4]
  }

  // ---- What it means that a row follows a generator ----------------------------------------------

  /** Draw number `at` is the first one after `prev` that is not among the used values, and v is that draw. */
  ghost predicate EntryFollows(kind: Kind, seed: Word, used: seq<int>, prev: nat, v: int, at: nat) {
    && prev < at && v == Drawn(kind, seed, at) && v !in used
    && forall m | prev < m < at :: Drawn(kind, seed, m) in used
  }

  function Previous(start: nat, at: seq<nat>, j: nat): nat
    requires j <= |at|
  {
    if j == 0 then start else at[j - 1]
  }

  /** Entry j is draw at[j]: the first one after entry j - 1 that is not among the first j of `compared`. */
  ghost predicate RowFollows(kind: Kind, seed: Word, start: nat, compared: seq<int>, row: seq<int>, at: seq<nat>) {
    && |at| == |row| <= |compared|
    && forall j | 0 <= j < |row| ::
         EntryFollows(kind, seed, compared[..j], Previous(start, at, j), row[j], at[j])
  }

  /** Where row i starts: at the seed, or where the row before it of the same generator ended. */
  function Start(at: seq<seq<nat>>, i: nat): nat
    requires i < |at| + 4 && forall k | 0 <= k < |at| :: |at[k]| == COLUMNS
  {
    if i < 4 then 0 else at[i - 4][COLUMNS - 1]
  }

  /** Every row follows its generator, and is compared with row 0. */
  ghost predicate TableFollows(seed: Word, rows: seq<seq<int>>, at: seq<seq<nat>>) {
    && Rows(rows) && |at| == |rows| && (forall k | 0 <= k < |at| :: |at[k]| == COLUMNS)
    && forall i | 0 <= i < |rows| :: RowFollows(KindOf(i), seed, Start(at, i), rows[0], rows[i], at[i])
  }

  // ---- The model's generators are these ----------------------------------------------------------

  lemma StepIs(kind: Kind, s: Word)
    ensures Advance(kind, s) == Step(kind, s)
  {
    AdvanceIsNext(kind, s);
    WordModuli();
  }

  lemma {:induction false} RunIs(kind: Kind, seed: Word, a: nat, s: Word, n: nat)
    requires s == After(kind, seed, a)
    ensures Run(kind, s, n) == After(kind, seed, a + n)
    decreases n
  {
    hide Advance, Step;
    if n > 0 {
      StepIs(kind, s);
      RunIs(kind, seed, a + 1, Advance(kind, s), n - 1);
    }
  }

  lemma OutputIs(kind: Kind, seed: Word, n: nat)
    requires n >= 1
    ensures Output(kind, After(kind, seed, n)) == Drawn(kind, seed, n)
  {}

  /** One retry loop takes the first draw that is not among the used values. */
  lemma DrawFollows(kind: Kind, seed: Word, s: Word, prev: nat, used: seq<int>) returns (at: nat)
    requires s == After(kind, seed, prev) && |used| < COLUMNS
    ensures var (s', v) := Draw(Whole, kind, s, used);
      s' == After(kind, seed, at) && EntryFollows(kind, seed, used, prev, v, at)
  {
    hide Draw, After, Output, Drawn, Run;
    var n := Distance(Whole, kind, s, used);
    at := prev + n;
    DrawStopsAtFirstFresh(Whole, kind, s, used);
    RunIs(kind, seed, prev, s, n);
    OutputIs(kind, seed, at);
    forall m | prev < m < at
      ensures Drawn(kind, seed, m) in used
    {
      assert !Fresh(Whole, kind, s, used, m - prev);
      RunIs(kind, seed, prev, s, m - prev);
      OutputIs(kind, seed, m);
    }
  }

  // ---- Rows --------------------------------------------------------------------------------------

  lemma RowGrows(kind: Kind, seed: Word, start: nat, compared: seq<int>, row: seq<int>, at: seq<nat>, v: int, n: nat)
    requires RowFollows(kind, seed, start, compared, row, at) && |row| < |compared|
    requires EntryFollows(kind, seed, compared[..|row|], Previous(start, at, |at|), v, n)
    ensures RowFollows(kind, seed, start, compared, row + [v], at + [n])
  {
    hide EntryFollows;
    var row', at' := row + [v], at + [n];
    forall j | 0 <= j < |row'|
      ensures EntryFollows(kind, seed, compared[..j], Previous(start, at', j), row'[j], at'[j])
    {
      assert Previous(start, at', j) == Previous(start, at, j);
    }
  }

  lemma MovedTwice(g: Generator, s: Word, s': Word)
    ensures g.Moved(s).Moved(s') == g.Moved(s') && g.Moved(s).kind == g.kind && g.Moved(s).Current() == s
    ensures g.Moved(g.Current()) == g
  {}

  lemma {:induction false} FillFollows(g: Generator, rows: seq<seq<int>>, row: seq<int>, seed: Word, start: nat,
                                       compared: seq<int>, at: seq<nat>) returns (full: seq<nat>)
    requires Rows(rows) && |row| <= COLUMNS
    requires compared == if |rows| == 0 then FillRow(g, rows, row).1 else rows[0]
    requires RowFollows(g.kind, seed, start, compared, row, at)
    requires g.Current() == After(g.kind, seed, Previous(start, at, |at|))
    ensures |full| == COLUMNS && RowFollows(g.kind, seed, start, compared, FillRow(g, rows, row).1, full)
    ensures FillRow(g, rows, row).0 == g.Moved(After(g.kind, seed, full[COLUMNS - 1]))
    decreases COLUMNS - |row|
  {
    hide Draw, After, RowFollows, EntryFollows;
    SameLength(g.kind, seed, start, compared, row, at);
    if |row| == COLUMNS {
      full := at;
      MovedTwice(g, g.Current(), g.Current());
    } else {
      var used := Compared(rows, row);
      assert used == compared[..|row|];
      var n := DrawFollows(g.kind, seed, g.Current(), Previous(start, at, |at|), used);
      var (s, v) := Draw(Whole, g.kind, g.Current(), used);
      RowGrows(g.kind, seed, start, compared, row, at, v, n);
      MovedTwice(g, s, s);
      full := FillFollows(g.Moved(s), rows, row + [v], seed, start, compared, at + [n]);
      MovedTwice(g, s, After(g.kind, seed, full[COLUMNS - 1]));
    }
  }

  lemma SameLength(kind: Kind, seed: Word, start: nat, compared: seq<int>, row: seq<int>, at: seq<nat>)
    requires RowFollows(kind, seed, start, compared, row, at)
    ensures |at| == |row| <= |compared|
  {
    hide EntryFollows;
  }

  // ---- The table -----------------------------------------------------------------------------------

  function SeedOf(g: Generator, kind: Kind): Word {
    match kind
    case BC => g.bc
    case AC => g.ac
    case MY => g.my
    case VC => g.vc
  }

  /** Each generator stands where its last row ended. */
  ghost predicate Stands(g: Generator, seed: Word, at: seq<seq<nat>>) {
    && (forall k | 0 <= k < |at| :: |at[k]| == COLUMNS)
    && forall i | |at| <= i < |at| + 4 :: SeedOf(g, KindOf(i)) == After(KindOf(i), seed, Start(at, i))
  }

  lemma KindIs(i: nat)
    ensures KindOfRow(i) == KindOf(i)
  {}

  lemma OtherKinds(i: nat, j: nat)
    requires i < j < i + 4
    ensures KindOf(i) != KindOf(j) && KindOf(i + 4) == KindOf(i)
  {}

  lemma StandsNext(g: Generator, seed: Word, at: seq<seq<nat>>, row: seq<nat>)
    requires Stands(g, seed, at) && |row| == COLUMNS
    ensures Stands(g.(kind := KindOf(|at|)).Moved(After(KindOf(|at|), seed, row[COLUMNS - 1])), seed, at + [row])
  {
    hide After;
    var n, at' := |at|, at + [row];
    var g' := g.(kind := KindOf(n)).Moved(After(KindOf(n), seed, row[COLUMNS - 1]));
    forall i | n + 1 <= i < n + 5
      ensures SeedOf(g', KindOf(i)) == After(KindOf(i), seed, Start(at', i))
    {
      if i < n + 4 {
        OtherKinds(n, i);
        assert Start(at', i) == Start(at, i);
        SeedUntouched(g.(kind := KindOf(n)), KindOf(i), After(KindOf(n), seed, row[COLUMNS - 1]));
      } else {
        OtherKinds(n, n + 1);
        assert Start(at', i) == row[COLUMNS - 1];
      }
    }
  }

  lemma SeedUntouched(g: Generator, kind: Kind, s: Word)
    requires kind != g.kind
    ensures SeedOf(g.Moved(s), kind) == SeedOf(g, kind)
  {}

  lemma TableGrows(seed: Word, rows: seq<seq<int>>, at: seq<seq<nat>>, row: seq<int>, full: seq<nat>)
    requires TableFollows(seed, rows, at) && |rows| < ROWS && |row| == |full| == COLUMNS
    requires RowFollows(KindOf(|rows|), seed, Start(at, |rows|), if |rows| == 0 then row else rows[0], row, full)
    ensures TableFollows(seed, rows + [row], at + [full])
  {
    hide RowFollows;
    var rows', at' := rows + [row], at + [full];
    forall i | 0 <= i < |rows'|
      ensures RowFollows(KindOf(i), seed, Start(at', i), rows'[0], rows'[i], at'[i])
    {
      assert Start(at', i) == Start(at, i);
    }
  }

  lemma NoEntries(kind: Kind, seed: Word, start: nat, compared: seq<int>)
    ensures RowFollows(kind, seed, start, compared, [], [])
  {}

  lemma CurrentIs(g: Generator, kind: Kind)
    ensures g.(kind := kind).Current() == SeedOf(g, kind)
  {}

  lemma {:induction false} FillTableFollows(g: Generator, rows: seq<seq<int>>, seed: Word, at: seq<seq<nat>>)
      returns (full: seq<seq<nat>>)
    requires Rows(rows) && TableFollows(seed, rows, at) && Stands(g, seed, at)
    ensures TableFollows(seed, FillTable(g, rows).1, full) && |full| == ROWS && Stands(FillTable(g, rows).0, seed, full)
    decreases ROWS - |rows|
  {
    hide FillRow, After, RowFollows, KindOf, KindOfRow;
    var n := |rows|;
    if n == ROWS {
      full := at;
    } else {
      KindIs(n);
      var g1 := g.(kind := KindOf(n));
      var (g2, row) := FillRow(g1, rows, []);
      var compared := if n == 0 then row else rows[0];
      NoEntries(KindOf(n), seed, Start(at, n), compared);
      CurrentIs(g, KindOf(n));
      var entries := FillFollows(g1, rows, [], seed, Start(at, n), compared, []);
      TableGrows(seed, rows, at, row, entries);
      StandsNext(g, seed, at, entries);
      full := FillTableFollows(g2, rows + [row], seed, at + [entries]);
    }
  }

  lemma Begins(seed: Word)
    ensures TableFollows(seed, [], []) && Stands(Started(seed), seed, [])
  {}

  /**
    Every row of the key table lists, in order, the draws of generator i mod 4 from where row i - 4 ended (the
    seed for the first four), leaving out exactly those already among the first entries of row 0. The index
    table goes on with the draws of the second generator.
   */
  lemma TablesFollowTheSeed(seed: Word) returns (at: seq<seq<nat>>)
    ensures TableFollows(seed, KeyTable(seed), at) && |at| == ROWS
    ensures forall k | 0 <= k < INDICES ::
      IndexTable(seed)[k] == Drawn(AC, seed, at[13][COLUMNS - 1] + 1 + k) % 0x800
  {
    hide FillTable, TableFollows, FillIndex, After;
    Begins(seed);
    at := FillTableFollows(Started(seed), [], seed, []);
    TableLengths(seed, KeyTable(seed), at);
    IndexTableNeverRetries(seed);
    var s := FillTable(Started(seed), []).0.ac;
    assert KindOf(17) == AC && Start(at, 17) == at[13][COLUMNS - 1];
    assert s == After(AC, seed, at[13][COLUMNS - 1]);
    forall k | 0 <= k < INDICES
      ensures IndexTable(seed)[k] == Drawn(AC, seed, at[13][COLUMNS - 1] + 1 + k) % 0x800
    {
      RunIs(AC, seed, at[13][COLUMNS - 1], s, k + 1);
    }
  }

  lemma TableLengths(seed: Word, rows: seq<seq<int>>, at: seq<seq<nat>>)
    requires TableFollows(seed, rows, at)
    ensures Rows(rows) && |at| == |rows| && forall k | 0 <= k < |at| :: |at[k]| == COLUMNS
  {
    hide RowFollows;
  }

  /** Nothing is left out before the first entry of a row. */
  lemma {:induction false} FirstEntries(seed: Word, i: nat) returns (at: seq<seq<nat>>)
    requires i < ROWS
    ensures TableFollows(seed, KeyTable(seed), at) && |at| == ROWS
    ensures at[i][0] == Start(at, i) + 1 && KeyTable(seed)[i][0] == Drawn(KindOf(i), seed, Start(at, i) + 1)
  {
    hide KeyTable, KindOf, Drawn;
    at := TablesFollowTheSeed(seed);
    var row := KeyTable(seed)[i];
    assert RowFollows(KindOf(i), seed, Start(at, i), KeyTable(seed)[0], row, at[i]);
    assert EntryFollows(KindOf(i), seed, KeyTable(seed)[0][..0], Start(at, i), row[0], at[i][0]);
    assert Drawn(KindOf(i), seed, Start(at, i) + 1) !in KeyTable(seed)[0][..0];
  }

  /** The first entries of the first four rows, from the seed alone. */
  lemma FirstColumn(seed: Word)
    ensures KeyTable(seed)[0][0] == Quotient((0x8088405 * seed + 1) % 0x1_0000_0000)
    ensures KeyTable(seed)[1][0] == (0x41C64E6D * seed + 12345) % 0x8000_0000
    ensures KeyTable(seed)[2][0] == Quotient((0x41C64E6D * seed + 12345) % 0x1_0000_0000)
    ensures KeyTable(seed)[3][0] == Quotient((0x343FD * seed + 0x269EC3) % 0x8000_0000)
  {
    hide KeyTable, TableFollows, Quotient;
    var a0 := FirstEntries(seed, 0);
    var a1 := FirstEntries(seed, 1);
    var a2 := FirstEntries(seed, 2);
    var a3 := FirstEntries(seed, 3);
    forall kind: Kind
      ensures After(kind, seed, 1) == Step(kind, seed)
    {
      assert After(kind, seed, 0) == seed;
    }
  }
}
