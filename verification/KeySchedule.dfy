/**
  The four generators of RoseRandomNumber and, as functions, the tables that
  PacketCodec::changeSeed fills from them by drawing until a fresh value appears.

  A seed is a 32-bit word. Arithmetic on it wraps; the sign only matters to the division
  by 0x10000, which truncates toward zero.
 */
module KeySchedule {
  import opened LinearCongruence

  const WORD := 0x1_0000_0000
  const HALF := 0x8000_0000
  const ROWS := 0x10
  const COLUMNS := 0x800
  const INDICES := 0x200

  type Word = x: nat | x < 0x1_0000_0000

  datatype Kind = BC | AC | MY | VC

  function Signed(s: Word): int {
    if s < HALF then s else s - WORD
  }

  function TruncatedQuotient(x: int, d: nat): int
    requires d > 0
  {
    if x >= 0 then x / d else -((-x) / d)
  }

  function Multiplier(kind: Kind): nat {
    match kind
    case BC => 0x8088405
    case AC => 0x41C64E6D
    case MY => 0x41C64E6D
    case VC => 0x343FD
  }

  function Increment(kind: Kind): nat {
    match kind
    case BC => 1
    case AC => 12345
    case MY => 12345
    case VC => 0x269EC3
  }

  /** AC and VC clear the sign bit of the new seed. */
  function Bits(kind: Kind): nat {
    if kind.AC? || kind.VC? then 31 else 32
  }

  /** The next seed: a wrapping 32-bit step, then the mask where there is one. */
  function Advance(kind: Kind, s: Word): Word {
    var word := Next(Multiplier(kind), Increment(kind), WORD, s);
    if Bits(kind) == 31 then word % HALF else word
  }

  function Output(kind: Kind, s: Word): int {
    if kind.AC? then Signed(s) else TruncatedQuotient(Signed(s), 0x10000)
  }

  /** How the caller looks at a draw: as it is (key table) or its low 11 bits (index table). */
  datatype Reader = Whole | Low11

  function Show(reader: Reader, kind: Kind, s: Word): int {
    if reader.Whole? then Output(kind, s) else Output(kind, s) % 0x800
  }

  function Run(kind: Kind, s: Word, n: nat): Word
    decreases n
  {
    if n == 0 then s else Run(kind, Advance(kind, s), n - 1)
  }

  // ---- A fresh value always comes ------------------------------------------------------

  lemma WordModuli()
    ensures Pow2(31) == HALF && Pow2(32) == WORD
  {
    assert Pow2(8) == 0x100;
    assert Pow2(16) == 0x1_0000;
    assert Pow2(24) == 0x100_0000;
  }

  lemma AdvanceIsNext(kind: Kind, s: Word)
    ensures Advance(kind, s) == Next(Multiplier(kind), Increment(kind), Pow2(Bits(kind)), s)
    ensures FullPeriodParameters(Multiplier(kind), Increment(kind))
  {
    hide Pow2, Next;
    WordModuli();
    NextNested(Multiplier(kind), Increment(kind), s);
  }

  lemma NextNested(a: nat, c: nat, s: Word)
    ensures Next(a, c, WORD, s) % HALF == Next(a, c, HALF, s)
  {
    NestedRemainder(a * s + c);
  }

  lemma NestedRemainder(x: nat)
    ensures x % WORD % HALF == x % HALF
  {}

  lemma {:induction false} RunIsOrbit(kind: Kind, s: Word, n: nat)
    requires s < Pow2(Bits(kind))
    ensures Run(kind, s, n) == Orbit(Multiplier(kind), Increment(kind), Pow2(Bits(kind)), s, n)
    decreases n
  {
    hide Next, Advance, Multiplier, Increment, Pow2, Bits;
    if n > 0 {
      AdvanceIsNext(kind, s);
      var a, c, m := Multiplier(kind), Increment(kind), Pow2(Bits(kind));
      assert Orbit(a, c, m, s, 0) == s;
      assert Orbit(a, c, m, s, 1) == Advance(kind, s);
      RunIsOrbit(kind, Advance(kind, s), n - 1);
      OrbitComposes(a, c, m, s, 1, n - 1);
    }
  }

  lemma {:induction false} ElementsSize(s: seq<int>)
    ensures |set x | x in s| <= |s|
  {
    if |s| > 0 {
      var last := |s| - 1;
      ElementsSize(s[..last]);
      assert (set x | x in s) == (set x | x in s[..last]) + {s[last]};
    }
  }

  lemma UnusedValue(used: seq<int>) returns (v: nat)
    requires |used| < COLUMNS
    ensures v < COLUMNS && v !in used
  {
    var taken := set x | x in used;
    ElementsSize(used);
    BelowSize(COLUMNS);
    var all: set<int> := set x: nat | x in Below(COLUMNS) :: x as int;
    assert |all| == COLUMNS by {
      assert all == Below(COLUMNS);
    }
    if all <= taken {
      SubsetSize(all, taken);
    }
    var w :| w in all && w !in taken;
    v := w;
  }

  lemma {:induction false} SubsetSize<T>(s: set<T>, t: set<T>)
    requires s <= t
    ensures |s| <= |t|
  {
    assert t == s + (t - s);
  }

  predicate Fresh(reader: Reader, kind: Kind, s: Word, used: seq<int>, n: nat) {
    n >= 1 && Show(reader, kind, Run(kind, s, n)) !in used
  }

  /** Whatever the seed and whichever values are taken, some later draw is fresh. */
  lemma FreshComes(reader: Reader, kind: Kind, s: Word, used: seq<int>) returns (n: nat)
    requires |used| < COLUMNS
    ensures Fresh(reader, kind, s, used, n)
  {
    var v := UnusedValue(used);
    var target := if kind.AC? then v else v * 0x10000;
    assert Show(reader, kind, target) == v;
    hide Advance, Show, Next;
    WordModuli();
    AdvanceIsNext(kind, s);
    var first := Advance(kind, s);
    var k := OrbitReaches(Multiplier(kind), Increment(kind), Bits(kind), first, target);
    RunIsOrbit(kind, first, k);
    n := k + 1;
  }

  predicate FirstFresh(reader: Reader, kind: Kind, s: Word, used: seq<int>, n: nat) {
    Fresh(reader, kind, s, used, n) && forall m: nat | m < n :: !Fresh(reader, kind, s, used, m)
  }

  lemma {:induction false} FirstFreshBelow(reader: Reader, kind: Kind, s: Word, used: seq<int>, n: nat)
      returns (first: nat)
    requires Fresh(reader, kind, s, used, n)
    ensures FirstFresh(reader, kind, s, used, first)
  {
    hide Fresh;
    if m: nat :| m < n && Fresh(reader, kind, s, used, m) {
      first := FirstFreshBelow(reader, kind, s, used, m);
    } else {
      first := n;
    }
  }

  /** The measure of a retry loop: steps along the cycle to the next unused value. */
  ghost function Distance(reader: Reader, kind: Kind, s: Word, used: seq<int>): (n: nat)
    requires |used| < COLUMNS
    ensures FirstFresh(reader, kind, s, used, n)
  {
    assert exists n: nat :: FirstFresh(reader, kind, s, used, n) by {
      var some := FreshComes(reader, kind, s, used);
      var first := FirstFreshBelow(reader, kind, s, used, some);
    }
    var n: nat :| FirstFresh(reader, kind, s, used, n);
    n
  }

  lemma FirstFreshUnique(reader: Reader, kind: Kind, s: Word, used: seq<int>, n: nat, m: nat)
    requires FirstFresh(reader, kind, s, used, n) && FirstFresh(reader, kind, s, used, m)
    ensures n == m
  {
    hide Fresh;
  }

  /** A draw that is not fresh brings the generator one step nearer. */
  lemma RetryShortensDistance(reader: Reader, kind: Kind, s: Word, used: seq<int>)
    requires |used| < COLUMNS && Show(reader, kind, Advance(kind, s)) in used
    ensures Distance(reader, kind, Advance(kind, s), used) + 1 == Distance(reader, kind, s, used)
  {
    hide Show, Advance;
    var s' := Advance(kind, s);
    var n := Distance(reader, kind, s', used);
    forall m: nat | m < n + 1
      ensures !Fresh(reader, kind, s, used, m)
    {
      if m > 0 {
        assert Run(kind, s, m) == Run(kind, s', m - 1);
        if m > 1 {
          assert !Fresh(reader, kind, s', used, m - 1);
        }
      }
    }
    assert Run(kind, s, n + 1) == Run(kind, s', n);
    FirstFreshUnique(reader, kind, s, used, n + 1, Distance(reader, kind, s, used));
  }

  /** The do-while loop of changeSeed: draw until the value is not among the used ones. */
  function Draw(reader: Reader, kind: Kind, s: Word, used: seq<int>): (r: (Word, int))
    requires |used| < COLUMNS
    ensures r.1 == Show(reader, kind, r.0) && r.1 !in used
    decreases Distance(reader, kind, s, used)
  {
    var s' := Advance(kind, s);
    var v := Show(reader, kind, s');
    if v in used then
      RetryShortensDistance(reader, kind, s, used);
      Draw(reader, kind, s', used)
    else
      (s', v)
  }

  /** Draw skips nothing: it stops at the first fresh value of the generator's sequence. */
  lemma {:induction false} DrawStopsAtFirstFresh(reader: Reader, kind: Kind, s: Word, used: seq<int>)
    requires |used| < COLUMNS
    ensures Draw(reader, kind, s, used).0 == Run(kind, s, Distance(reader, kind, s, used))
    decreases Distance(reader, kind, s, used)
  {
    hide Show, Advance;
    var s' := Advance(kind, s);
    if Show(reader, kind, s') in used {
      RetryShortensDistance(reader, kind, s, used);
      DrawStopsAtFirstFresh(reader, kind, s', used);
    } else {
      assert Run(kind, s, 1) == Run(kind, s', 0) == s';
      FirstFreshUnique(reader, kind, s, used, 1, Distance(reader, kind, s, used));
    }
  }

  // ---- The tables -------------------------------------------------------------------------

  /** The generator object: four independent seeds, one of them selected. */
  datatype Generator = Generator(kind: Kind, bc: Word, ac: Word, my: Word, vc: Word) {
    function Current(): Word {
      match kind
      case BC => bc
      case AC => ac
      case MY => my
      case VC => vc
    }

    function Moved(s: Word): Generator {
      match kind
      case BC => this.(bc := s)
      case AC => this.(ac := s)
      case MY => this.(my := s)
      case VC => this.(vc := s)
    }
  }

  function Started(seed: Word): Generator {
    Generator(BC, seed, seed, seed, seed)
  }

  function KindOfRow(i: nat): Kind {
    match i % 4
    case 0 => BC
    case 1 => AC
    case 2 => MY
    case _ => VC
  }

  predicate Rows(rows: seq<seq<int>>) {
    |rows| <= ROWS && forall i | 0 <= i < |rows| :: |rows[i]| == COLUMNS
  }

  /** What find_DupTABLE(value, 0, j) compares with: row 0 up to column j, for every row. */
  function Compared(rows: seq<seq<int>>, row: seq<int>): (used: seq<int>)
    requires Rows(rows) && |row| <= COLUMNS
    ensures |used| == |row|
  {
    if |rows| == 0 then row else rows[0][..|row|]
  }

  function FillRow(g: Generator, rows: seq<seq<int>>, row: seq<int>): (r: (Generator, seq<int>))
    requires Rows(rows) && |row| <= COLUMNS
    ensures |r.1| == COLUMNS && row <= r.1
    decreases COLUMNS - |row|
  {
    if |row| == COLUMNS then (g, row)
    else
      var (s, v) := Draw(Whole, g.kind, g.Current(), Compared(rows, row));
      FillRow(g.Moved(s), rows, row + [v])
  }

  function FillTable(g: Generator, rows: seq<seq<int>>): (r: (Generator, seq<seq<int>>))
    requires Rows(rows)
    ensures Rows(r.1) && |r.1| == ROWS && rows <= r.1
    decreases ROWS - |rows|
  {
    if |rows| == ROWS then (g, rows)
    else
      var (g', row) := FillRow(g.(kind := KindOfRow(|rows|)), rows, []);
      FillTable(g', rows + [row])
  }

  function FillIndex(s: Word, acc: seq<int>): (r: seq<int>)
    requires |acc| <= INDICES
    ensures |r| == INDICES && acc <= r
    decreases INDICES - |acc|
  {
    if |acc| == INDICES then acc
    else
      var (s', v) := Draw(Low11, AC, s, acc);
      FillIndex(s', acc + [v])
  }

  function KeyTable(seed: Word): (r: seq<seq<int>>)
    ensures Rows(r) && |r| == ROWS
  {
    FillTable(Started(seed), []).1
  }

  function IndexTable(seed: Word): (r: seq<int>)
    ensures |r| == INDICES
  {
    FillIndex(FillTable(Started(seed), []).0.ac, [])
  }

  // ---- What the tables look like --------------------------------------------------------------

  predicate Distinct(s: seq<int>) {
    forall i, j | 0 <= i < j < |s| :: s[i] != s[j]
  }

  lemma {:induction false} FirstRowDistinct(g: Generator, row: seq<int>)
    requires |row| <= COLUMNS && Distinct(row)
    ensures Distinct(FillRow(g, [], row).1)
    decreases COLUMNS - |row|
  {
    hide Draw;
    if |row| < COLUMNS {
      var (s, v) := Draw(Whole, g.kind, g.Current(), Compared([], row));
      FirstRowDistinct(g.Moved(s), row + [v]);
    }
  }

  predicate AvoidsFirstRow(first: seq<int>, row: seq<int>) {
    |row| <= |first| && forall j | 0 <= j < |row| :: row[j] !in first[..j]
  }

  lemma {:induction false} LaterRowAvoidsFirst(g: Generator, rows: seq<seq<int>>, row: seq<int>)
    requires Rows(rows) && |rows| > 0 && |row| <= COLUMNS && AvoidsFirstRow(rows[0], row)
    ensures AvoidsFirstRow(rows[0], FillRow(g, rows, row).1)
    decreases COLUMNS - |row|
  {
    hide Draw;
    if |row| < COLUMNS {
      var (s, v) := Draw(Whole, g.kind, g.Current(), Compared(rows, row));
      LaterRowAvoidsFirst(g.Moved(s), rows, row + [v]);
    }
  }

  predicate WellMixed(rows: seq<seq<int>>) {
    |rows| > 0 ==>
      && Distinct(rows[0])
      && forall i | 1 <= i < |rows| :: AvoidsFirstRow(rows[0], rows[i])
  }

  lemma {:induction false} TableWellMixed(g: Generator, rows: seq<seq<int>>)
    requires Rows(rows) && WellMixed(rows)
    ensures WellMixed(FillTable(g, rows).1)
    decreases ROWS - |rows|
  {
    hide FillRow, Distinct, AvoidsFirstRow;
    if |rows| < ROWS {
      var g1 := g.(kind := KindOfRow(|rows|));
      var (g', row) := FillRow(g1, rows, []);
      if |rows| == 0 {
        assert rows == [];
        EmptyIsDistinct();
        FirstRowDistinct(g1, []);
      } else {
        EmptyAvoids(rows[0]);
        LaterRowAvoidsFirst(g1, rows, []);
      }
      TableWellMixed(g', rows + [row]);
    }
  }

  lemma EmptyIsDistinct()
    ensures Distinct([])
  {}

  lemma EmptyAvoids(first: seq<int>)
    ensures AvoidsFirstRow(first, [])
  {}

  /** Row 0 repeats no value, and entry j of any later row is not among row 0's first j. */
  lemma KeyTableWellMixed(seed: Word)
    ensures WellMixed(KeyTable(seed))
  {
    hide FillTable;
    TableWellMixed(Started(seed), []);
  }

  // ---- The index table never retries -----------------------------------------------------

  lemma LowBitsStep(s: Word)
    ensures Advance(AC, s) % 0x800 == Next(0x41C64E6D, 12345, 0x800, s % 0x800)
    ensures Output(AC, Advance(AC, s)) % 0x800 == Advance(AC, s) % 0x800
  {
    var q, r := s / 0x800, s % 0x800;
    var y := 0x41C64E6D * r + 12345;
    assert 0x41C64E6D * s + 12345 == y + 0x800 * (0x41C64E6D * q);
    MasksKeepLowBits(y + 0x800 * (0x41C64E6D * q));
    MultipleVanishes(y, 0x41C64E6D * q);
  }

  lemma MasksKeepLowBits(x: nat)
    ensures x % WORD % HALF % 0x800 == x % 0x800
  {}

  lemma MultipleVanishes(y: nat, q: nat)
    ensures (y + 0x800 * q) % 0x800 == y % 0x800
  {}

  lemma {:induction false} LowBitsRun(s: Word, n: nat)
    ensures Run(AC, s, n) % 0x800 == Orbit(0x41C64E6D, 12345, 0x800, s % 0x800, n)
    decreases n
  {
    hide Advance, Next;
    if n > 0 {
      var s' := Advance(AC, s);
      LowBitsStep(s);
      LowBitsRun(s', n - 1);
      var x := s % 0x800;
      assert Orbit(0x41C64E6D, 12345, 0x800, x, 0) == x;
      assert Orbit(0x41C64E6D, 12345, 0x800, x, 1) == s' % 0x800;
      OrbitComposes(0x41C64E6D, 12345, 0x800, x, 1, n - 1);
    }
  }

  lemma LowBitsDistinct(s: Word, i: nat, j: nat)
    requires i < j && j - i < 0x800
    ensures Run(AC, s, i) % 0x800 != Run(AC, s, j) % 0x800
  {
    LowBitsRun(s, i);
    LowBitsRun(s, j);
    assert Pow2(11) == 0x800;
    OrbitDistinct(0x41C64E6D, 12345, 11, s % 0x800, i, j);
  }

  lemma {:induction false} RunSplits(kind: Kind, s: Word, n: nat)
    ensures Run(kind, s, n + 1) == Advance(kind, Run(kind, s, n))
    decreases n
  {
    hide Advance;
    if n > 0 {
      RunSplits(kind, Advance(kind, s), n - 1);
    }
  }

  /** The i-th index is the i-th draw: every draw is kept. */
  predicate EveryDrawKept(s: Word, acc: seq<int>) {
    forall i | 0 <= i < |acc| :: acc[i] == Run(AC, s, i + 1) % 0x800
  }

  lemma {:induction false} IndexFillKeepsEveryDraw(start: Word, s: Word, acc: seq<int>)
    requires |acc| <= INDICES && s == Run(AC, start, |acc|) && EveryDrawKept(start, acc)
    ensures EveryDrawKept(start, FillIndex(s, acc))
    decreases INDICES - |acc|
  {
    hide Advance, Output;
    if |acc| < INDICES {
      var n := |acc|;
      var s' := Advance(AC, s);
      RunSplits(AC, start, n);
      LowBitsStep(s);
      var v := Show(Low11, AC, s');
      assert v == Run(AC, start, n + 1) % 0x800;
      forall i | 0 <= i < n
        ensures acc[i] != v
      {
        LowBitsDistinct(start, i + 1, n + 1);
      }
      assert Draw(Low11, AC, s, acc) == (s', v);
      IndexFillKeepsEveryDraw(start, s', acc + [v]);
    }
  }

  /** 512 pairwise distinct indices below 0x800, and not one draw was rejected. */
  lemma IndexTableNeverRetries(seed: Word)
    ensures EveryDrawKept(FillTable(Started(seed), []).0.ac, IndexTable(seed))
    ensures Distinct(IndexTable(seed))
    ensures forall i | 0 <= i < INDICES :: 0 <= IndexTable(seed)[i] < COLUMNS
  {
    hide FillTable, FillIndex;
    var s := FillTable(Started(seed), []).0.ac;
    IndexFillKeepsEveryDraw(s, s, []);
    var t := IndexTable(seed);
    forall i, j | 0 <= i < j < |t|
      ensures t[i] != t[j]
    {
      LowBitsDistinct(s, i + 1, j + 1);
    }
  }
}
