/**
  Saving an inventory: saveCharacter compares the stored rows of a character with the items in
  memory, and deletes, updates and inserts rows accordingly. The table is a list of rows; the
  database puts no uniqueness constraint on (character, slot).
 */
module SaveCharacter {
  import opened Options

  const MAX_ITEMS := 140

  /** An item in memory. Type, refine and durability have 8 bits, id, gem and life 16, count 32. */
  datatype Item = Item(
    kind: nat, id: nat, isCreated: bool, gemOpt: nat, durability: nat, life: nat,
    hasSocket: bool, isAppraised: bool, refine: nat, count: nat, isStackable: bool)
  {
    predicate Fits() {
      kind < 0x100 && id < 0x1_0000 && gemOpt < 0x1_0000 && refine < 0x100 && count < 0x1_0000_0000
    }

    predicate Occupied() {
      id != 0
    }
  }

  const NO_ITEM: Item := Item(0, 0, false, 0, 0, 0, false, false, 0, 0, false)

  /** A row of the inventory table. The columns are wider than the fields they are read into. */
  datatype Row = Row(
    charId: nat, slot: nat, itemid: nat, itemtype: nat, amount: nat, refine: nat, gemOpt: nat, socket: nat)

  type Inventory = items: seq<Item> | |items| == MAX_ITEMS witness seq(MAX_ITEMS, i => NO_ITEM)

  /** Item(row): the narrower fields keep the low bits. */
  function FromRow(row: Row): Item {
    Item(row.itemtype % 0x100, row.itemid % 0x1_0000, false, row.gemOpt % 0x1_0000, 0, 1000,
         row.socket != 0, true, row.refine % 0x100, row.amount % 0x1_0000_0000, false)
  }

  /** commitToUpdate and commitToInsert set the same six columns. */
  function Written(row: Row, item: Item): Row {
    row.(itemid := item.id, itemtype := item.kind, amount := item.count, refine := item.refine,
         gemOpt := item.gemOpt, socket := if item.hasSocket then 1 else 0)
  }

  function NewRow(charId: nat, slot: nat, item: Item): Row {
    Written(Row(charId, slot, 0, 0, 0, 0, 0, 0), item)
  }

  /** The fields a row stores. */
  predicate SamePersistent(a: Item, b: Item) {
    && a.kind == b.kind && a.id == b.id && a.count == b.count && a.refine == b.refine
    && a.gemOpt == b.gemOpt && a.hasSocket == b.hasSocket
  }

  predicate AllFit(items: Inventory) {
    forall i | 0 <= i < MAX_ITEMS :: items[i].Fits()
  }

  lemma WrittenReadsBack(row: Row, item: Item)
    requires item.Fits()
    ensures SamePersistent(FromRow(Written(row, item)), item)
  {}

  // ---- What saving does, as functions of the table ---------------------------------------------

  function SetOf(s: seq<nat>): set<nat> {
    set x | x in s
  }

  predicate Of(row: Row, charId: nat, slot: nat) {
    row.charId == charId && row.slot == slot
  }

  /** The slot of a row holds nothing any more, or never could. */
  predicate Doomed(items: Inventory, slot: nat) {
    slot >= MAX_ITEMS || !items[slot].Occupied()
  }

  predicate Outdated(items: Inventory, row: Row) {
    !Doomed(items, row.slot) && items[row.slot] != FromRow(row)
  }

  function Kept(rows: seq<Row>, charId: nat, doomed: set<nat>): seq<Row> {
    if |rows| == 0 then []
    else
      var n := |rows| - 1;
      var rest := Kept(rows[..n], charId, doomed);
      if rows[n].charId == charId && rows[n].slot in doomed then rest else rest + [rows[n]]
  }

  function Rewritten(rows: seq<Row>, charId: nat, items: Inventory, changed: set<nat>): (r: seq<Row>)
    requires forall x | x in changed :: x < MAX_ITEMS
    ensures |r| == |rows|
  {
    seq(|rows|, i requires 0 <= i < |rows| =>
      if rows[i].charId == charId && rows[i].slot in changed then Written(rows[i], items[rows[i].slot]) else rows[i])
  }

  function Inserted(charId: nat, items: Inventory, slots: seq<nat>): (r: seq<Row>)
    requires forall i | 0 <= i < |slots| :: slots[i] < MAX_ITEMS
    ensures |r| == |slots|
  {
    seq(|slots|, i requires 0 <= i < |slots| => NewRow(charId, slots[i], items[slots[i]]))
  }

  predicate Stored(rows: seq<Row>, charId: nat, slot: nat) {
    exists i | 0 <= i < |rows| :: Of(rows[i], charId, slot)
  }

  function DoomedSlots(rows: seq<Row>, charId: nat, items: Inventory): set<nat> {
    set i | 0 <= i < |rows| && rows[i].charId == charId && Doomed(items, rows[i].slot) :: rows[i].slot
  }

  function OutdatedSlots(rows: seq<Row>, charId: nat, items: Inventory): (r: set<nat>)
    ensures forall x | x in r :: x < MAX_ITEMS && items[x].Occupied()
  {
    set i | 0 <= i < |rows| && rows[i].charId == charId && Outdated(items, rows[i]) :: rows[i].slot
  }

  /** The occupied slots below n without a row, in order. */
  function MissingSlots(rows: seq<Row>, charId: nat, items: Inventory, n: nat): (r: seq<nat>)
    requires n <= MAX_ITEMS
    ensures forall i | 0 <= i < |r| :: r[i] < n && items[r[i]].Occupied() && !Stored(rows, charId, r[i])
  {
    if n == 0 then []
    else
      var rest := MissingSlots(rows, charId, items, n - 1);
      if items[n - 1].Occupied() && !Stored(rows, charId, n - 1) then rest + [n - 1] else rest
  }

  /** The table after saveCharacter. */
  function Saved(rows: seq<Row>, charId: nat, items: Inventory): seq<Row> {
    var kept := Kept(rows, charId, DoomedSlots(rows, charId, items));
    var current := Rewritten(kept, charId, items, OutdatedSlots(rows, charId, items));
    current + Inserted(charId, items, MissingSlots(rows, charId, items, MAX_ITEMS))
  }

  // ---- Counting rows ----------------------------------------------------------------------------

  function Count(rows: seq<Row>, charId: nat, slot: nat): nat {
    if |rows| == 0 then 0
    else Count(rows[..|rows| - 1], charId, slot) + if Of(rows[|rows| - 1], charId, slot) then 1 else 0
  }

  /** The rows of everybody else, in order. */
  function Others(rows: seq<Row>, charId: nat): seq<Row> {
    if |rows| == 0 then []
    else
      var n := |rows| - 1;
      if rows[n].charId == charId then Others(rows[..n], charId) else Others(rows[..n], charId) + [rows[n]]
  }

  lemma {:induction false} CountAppend(a: seq<Row>, b: seq<Row>, charId: nat, slot: nat)
    ensures Count(a + b, charId, slot) == Count(a, charId, slot) + Count(b, charId, slot)
    decreases |b|
  {
    if |b| == 0 {
      assert a + b == a;
    } else {
      var n := |b| - 1;
      CountAppend(a, b[..n], charId, slot);
      assert (a + b)[..|a| + n] == a + b[..n];
    }
  }

  lemma {:induction false} OthersAppend(a: seq<Row>, b: seq<Row>, charId: nat)
    ensures Others(a + b, charId) == Others(a, charId) + Others(b, charId)
    decreases |b|
  {
    if |b| == 0 {
      assert a + b == a;
    } else {
      var n := |b| - 1;
      OthersAppend(a, b[..n], charId);
      assert (a + b)[..|a| + n] == a + b[..n];
    }
  }

  lemma {:induction false} StoredIsCounted(rows: seq<Row>, charId: nat, slot: nat)
    ensures Stored(rows, charId, slot) <==> Count(rows, charId, slot) > 0
    decreases |rows|
  {
    if |rows| > 0 {
      var n := |rows| - 1;
      StoredIsCounted(rows[..n], charId, slot);
      if Stored(rows[..n], charId, slot) {
        var i :| 0 <= i < n && Of(rows[..n][i], charId, slot);
        assert Of(rows[i], charId, slot);
      }
    }
  }

  lemma {:induction false} KeptCounts(rows: seq<Row>, charId: nat, doomed: set<nat>, slot: nat)
    ensures Count(Kept(rows, charId, doomed), charId, slot) == if slot in doomed then 0 else Count(rows, charId, slot)
    ensures Others(Kept(rows, charId, doomed), charId) == Others(rows, charId)
    decreases |rows|
  {
    if |rows| > 0 {
      var n := |rows| - 1;
      KeptCounts(rows[..n], charId, doomed, slot);
      CountAppend(Kept(rows[..n], charId, doomed), [rows[n]], charId, slot);
      OthersAppend(Kept(rows[..n], charId, doomed), [rows[n]], charId);
      CountOne(rows[n], charId, slot);
    }
  }

  lemma CountEmpty(charId: nat, slot: nat)
    ensures Count([], charId, slot) == 0 && Others([], charId) == []
  {}

  lemma InsertedEmpty(charId: nat, items: Inventory)
    ensures Inserted(charId, items, []) == []
  {}

  lemma CountOne(row: Row, charId: nat, slot: nat)
    ensures Count([row], charId, slot) == if Of(row, charId, slot) then 1 else 0
    ensures Others([row], charId) == if row.charId == charId then [] else [row]
  {
    assert [row][..0] == [];
  }

  lemma {:induction false} RewrittenCounts(rows: seq<Row>, charId: nat, items: Inventory, changed: set<nat>, slot: nat)
    requires forall x | x in changed :: x < MAX_ITEMS
    ensures Count(Rewritten(rows, charId, items, changed), charId, slot) == Count(rows, charId, slot)
    ensures Others(Rewritten(rows, charId, items, changed), charId) == Others(rows, charId)
    decreases |rows|
  {
    if |rows| > 0 {
      var n := |rows| - 1;
      RewrittenCounts(rows[..n], charId, items, changed, slot);
      assert Rewritten(rows, charId, items, changed)[..n] == Rewritten(rows[..n], charId, items, changed);
    }
  }

  lemma {:induction false} MissingCounts(rows: seq<Row>, charId: nat, items: Inventory, n: nat, slot: nat)
    requires n <= MAX_ITEMS
    ensures Count(Inserted(charId, items, MissingSlots(rows, charId, items, n)), charId, slot)
         == if slot < n && items[slot].Occupied() && !Stored(rows, charId, slot) then 1 else 0
    ensures Others(Inserted(charId, items, MissingSlots(rows, charId, items, n)), charId) == []
  {
    hide Inserted, Stored, Count, Others;
    CountEmpty(charId, slot);
    InsertedEmpty(charId, items);
    if n > 0 {
      MissingCounts(rows, charId, items, n - 1, slot);
      if items[n - 1].Occupied() && !Stored(rows, charId, n - 1) {
        var rest := MissingSlots(rows, charId, items, n - 1);
        var row := NewRow(charId, n - 1, items[n - 1]);
        InsertedAppend(charId, items, rest, n - 1);
        CountAppend(Inserted(charId, items, rest), [row], charId, slot);
        OthersAppend(Inserted(charId, items, rest), [row], charId);
        CountOne(row, charId, slot);
      }
    }
  }

  // ---- The table after saving ----------------------------------------------------------------------

  lemma NotDoomedIffStored(rows: seq<Row>, charId: nat, items: Inventory, slot: nat)
    ensures slot in DoomedSlots(rows, charId, items) <==> Doomed(items, slot) && Stored(rows, charId, slot)
  {
    if Doomed(items, slot) && Stored(rows, charId, slot) {
      var i :| 0 <= i < |rows| && Of(rows[i], charId, slot);
    }
  }

  /** Occupied slots have the rows they had, or one new row; all other slots have none. */
  lemma SavedCounts(rows: seq<Row>, charId: nat, items: Inventory, slot: nat)
    ensures Count(Saved(rows, charId, items), charId, slot)
         == if Doomed(items, slot) then 0 else if Stored(rows, charId, slot) then Count(rows, charId, slot) else 1
    ensures Others(Saved(rows, charId, items), charId) == Others(rows, charId)
  {
    hide Kept, Rewritten, Inserted, MissingSlots, DoomedSlots, OutdatedSlots, Count, Others, Stored;
    var doomed, changed := DoomedSlots(rows, charId, items), OutdatedSlots(rows, charId, items);
    var kept := Kept(rows, charId, doomed);
    var added := Inserted(charId, items, MissingSlots(rows, charId, items, MAX_ITEMS));
    NotDoomedIffStored(rows, charId, items, slot);
    StoredIsCounted(rows, charId, slot);
    KeptCounts(rows, charId, doomed, slot);
    RewrittenCounts(kept, charId, items, changed, slot);
    MissingCounts(rows, charId, items, MAX_ITEMS, slot);
    CountAppend(Rewritten(kept, charId, items, changed), added, charId, slot);
    OthersAppend(Rewritten(kept, charId, items, changed), added, charId);
  }

  /** A row that reads back to the item in its slot. */
  ghost predicate Reads(items: Inventory, row: Row) {
    !Doomed(items, row.slot) && SamePersistent(FromRow(row), items[row.slot])
  }

  ghost predicate AllRead(rows: seq<Row>, charId: nat, items: Inventory) {
    forall i | 0 <= i < |rows| && rows[i].charId == charId :: Reads(items, rows[i])
  }

  lemma {:induction false} KeptRows(rows: seq<Row>, charId: nat, doomed: set<nat>, row: Row)
    requires row in Kept(rows, charId, doomed)
    ensures row in rows && (row.charId == charId ==> row.slot !in doomed)
    decreases |rows|
  {
    var n := |rows| - 1;
    if row != rows[n] {
      KeptRows(rows[..n], charId, doomed, row);
    } else if row.charId == charId && row.slot in doomed {
      KeptRows(rows[..n], charId, doomed, row);
    }
  }

  /** A row that stays: it is rewritten, or it already agrees with memory. */
  lemma KeptRowReads(rows: seq<Row>, charId: nat, items: Inventory, row: Row)
    requires AllFit(items) && row in rows && row.charId == charId
    requires row.slot !in DoomedSlots(rows, charId, items)
    ensures row.slot in OutdatedSlots(rows, charId, items) ==> Reads(items, Written(row, items[row.slot]))
    ensures row.slot !in OutdatedSlots(rows, charId, items) ==> Reads(items, row)
  {
    hide FromRow, Written, SamePersistent;
    var i :| 0 <= i < |rows| && rows[i] == row;
    assert !Doomed(items, row.slot);
    WrittenReadsBack(row, items[row.slot]);
    WrittenSlot(row, items[row.slot]);
    if row.slot !in OutdatedSlots(rows, charId, items) {
      assert !Outdated(items, rows[i]);
      SamePersistentReflexive(items[row.slot]);
    }
  }

  lemma WrittenSlot(row: Row, item: Item)
    ensures Written(row, item).slot == row.slot && Written(row, item).charId == row.charId
  {}

  lemma SamePersistentReflexive(item: Item)
    ensures SamePersistent(item, item)
  {}

  /** After saving, every row of the character reads back to the item in its slot. */
  lemma SavedReads(rows: seq<Row>, charId: nat, items: Inventory)
    requires AllFit(items)
    ensures AllRead(Saved(rows, charId, items), charId, items)
  {
    hide Kept, MissingSlots, DoomedSlots, OutdatedSlots, FromRow, Written, Stored, SamePersistent;
    var doomed, changed := DoomedSlots(rows, charId, items), OutdatedSlots(rows, charId, items);
    var kept := Kept(rows, charId, doomed);
    var missing := MissingSlots(rows, charId, items, MAX_ITEMS);
    var saved := Saved(rows, charId, items);
    forall i | 0 <= i < |saved| && saved[i].charId == charId
      ensures Reads(items, saved[i])
    {
      if i < |kept| {
        if kept[i].charId == charId && kept[i].slot in changed {
          WrittenSlot(kept[i], items[kept[i].slot]);
        }
        KeptRows(rows, charId, doomed, kept[i]);
        KeptRowReads(rows, charId, items, kept[i]);
      } else {
        var slot := missing[i - |kept|];
        var blank := Row(charId, slot, 0, 0, 0, 0, 0, 0);
        WrittenReadsBack(blank, items[slot]);
        WrittenSlot(blank, items[slot]);
      }
    }
  }

  /** One row per occupied slot, each reading back to its item, and none anywhere else. */
  ghost predicate Mirrors(rows: seq<Row>, charId: nat, items: Inventory) {
    && AllRead(rows, charId, items)
    && forall slot: nat :: Count(rows, charId, slot) == if Doomed(items, slot) then 0 else 1
  }

  /** No occupied slot had two rows. */
  ghost predicate SingleRows(rows: seq<Row>, charId: nat, items: Inventory) {
    forall slot: nat | !Doomed(items, slot) :: Count(rows, charId, slot) <= 1
  }

  /** Saving makes the table mirror the inventory exactly when no occupied slot had two rows before. */
  lemma SavedMirrors(rows: seq<Row>, charId: nat, items: Inventory)
    requires AllFit(items)
    ensures Mirrors(Saved(rows, charId, items), charId, items) <==> SingleRows(rows, charId, items)
    ensures Others(Saved(rows, charId, items), charId) == Others(rows, charId)
  {
    hide Saved, Count, Stored, Others, Doomed, AllRead;
    SavedReads(rows, charId, items);
    SavedCounts(rows, charId, items, 0);
    forall slot: nat
      ensures Count(Saved(rows, charId, items), charId, slot)
        == if Doomed(items, slot) then 0 else if Count(rows, charId, slot) > 0 then Count(rows, charId, slot) else 1
    {
      SavedCounts(rows, charId, items, slot);
      StoredIsCounted(rows, charId, slot);
    }
  }

  /** After saving, each column of each row of the character holds the field of the item in its slot. */
  lemma SavedColumns(rows: seq<Row>, charId: nat, items: Inventory, i: nat)
    requires AllFit(items) && i < |Saved(rows, charId, items)| && Saved(rows, charId, items)[i].charId == charId
    ensures var row := Saved(rows, charId, items)[i];
      && row.slot < 140 && items[row.slot].id != 0
      && row.itemid % 0x1_0000 == items[row.slot].id && row.itemtype % 0x100 == items[row.slot].kind
      && row.amount % 0x1_0000_0000 == items[row.slot].count && row.refine % 0x100 == items[row.slot].refine
      && row.gemOpt % 0x1_0000 == items[row.slot].gemOpt && (row.socket != 0 <==> items[row.slot].hasSocket)
  {
    hide Saved;
    SavedReads(rows, charId, items);
    assert Reads(items, Saved(rows, charId, items)[i]);
  }

  lemma {:induction false} KeptStays(rows: seq<Row>, charId: nat, doomed: set<nat>, row: Row)
    requires row in rows && !(row.charId == charId && row.slot in doomed)
    ensures row in Kept(rows, charId, doomed)
    decreases |rows|
  {
    var n := |rows| - 1;
    if row != rows[n] {
      KeptStays(rows[..n], charId, doomed, row);
    }
  }

  /** A row of another character, or of an occupied slot whose rows all agree with memory, stays as it is. */
  lemma AgreeingRowStays(rows: seq<Row>, charId: nat, items: Inventory, row: Row)
    requires row in rows
    requires row.charId == charId ==> !Doomed(items, row.slot)
    requires row.charId == charId ==>
      forall i | 0 <= i < |rows| && Of(rows[i], charId, row.slot) :: items[row.slot] == FromRow(rows[i])
    ensures row in Saved(rows, charId, items)
  {
    hide Kept, Inserted, MissingSlots, FromRow, Written;
    var kept := Kept(rows, charId, DoomedSlots(rows, charId, items));
    KeptStays(rows, charId, DoomedSlots(rows, charId, items), row);
    var current := Rewritten(kept, charId, items, OutdatedSlots(rows, charId, items));
    var k :| 0 <= k < |kept| && kept[k] == row;
    assert current[k] == row;
  }

  /** The condition can fail: two rows for one occupied slot both stay, whatever is in memory. */
  lemma TwoRowsStay(charId: nat, items: Inventory, slot: nat, row: Row)
    requires AllFit(items) && slot < MAX_ITEMS && items[slot].Occupied() && Of(row, charId, slot)
    ensures Count([row, row], charId, slot) == Count(Saved([row, row], charId, items), charId, slot) == 2
    ensures !Mirrors(Saved([row, row], charId, items), charId, items)
  {
    hide Saved, AllRead;
    assert [row, row] == [row] + [row];
    CountAppend([row], [row], charId, slot);
    CountOne(row, charId, slot);
    StoredIsCounted([row, row], charId, slot);
    SavedCounts([row, row], charId, items, slot);
  }

  // ---- Loading -------------------------------------------------------------------------------------

  /** What buildItem does: an item, nothing because its script does not load, or a throw for want of a definition. */
  datatype Build = Success | NoScript | Undefined

  type Builder = (nat, nat) -> Build

  function Built(kind: nat, id: nat): Item {
    Item(kind, id, false, 0, 0, 1000, false, true, 0, 1, 10 <= kind <= 13)
  }

  function BuildOf(row: Row, builds: Builder): Build {
    builds(row.itemtype % 0x100, row.itemid % 0x1_0000)
  }

  /** loadFromRow: a new item if it can be built, else the one in the slot; then the other columns. */
  function Loaded(item: Item, row: Row, builds: Builder): Item {
    var base := if BuildOf(row, builds).Success? then Built(row.itemtype % 0x100, row.itemid % 0x1_0000) else item;
    base.(count := row.amount % 0x1_0000_0000, refine := row.refine % 0x100, gemOpt := row.gemOpt % 0x1_0000,
          hasSocket := row.socket != 0)
  }

  /** loadFromResult over the rows of one character, in the order the database returns them; None when it throws. */
  function Load(rows: seq<Row>, charId: nat, builds: Builder): Option<Inventory> {
    if |rows| == 0 then Some(seq(MAX_ITEMS, i => NO_ITEM))
    else
      var row := rows[|rows| - 1];
      var before := Load(rows[..|rows| - 1], charId, builds);
      if before.None? || row.charId != charId || row.slot >= MAX_ITEMS then before
      else if BuildOf(row, builds).Undefined? then None
      else Some(before.value[row.slot := Loaded(before.value[row.slot], row, builds)])
  }

  /** Every item that has a row has a definition. */
  ghost predicate Defined(rows: seq<Row>, charId: nat, items: Inventory, builds: Builder) {
    forall slot | 0 <= slot < MAX_ITEMS && Count(rows, charId, slot) > 0 :: !BuildOfItem(items[slot], builds).Undefined?
  }

  function BuildOfItem(item: Item, builds: Builder): Build {
    builds(item.kind, item.id)
  }

  lemma DefinedStep(rows: seq<Row>, charId: nat, items: Inventory, builds: Builder)
    requires |rows| > 0
    ensures var row, rest := rows[|rows| - 1], rows[..|rows| - 1];
      Defined(rows, charId, items, builds) <==>
        Defined(rest, charId, items, builds) &&
        (row.charId == charId && row.slot < MAX_ITEMS ==> !BuildOfItem(items[row.slot], builds).Undefined?)
  {
    var row, rest := rows[|rows| - 1], rows[..|rows| - 1];
    assert forall slot ::
      Count(rows, charId, slot) == Count(rest, charId, slot) + if Of(row, charId, slot) then 1 else 0;
    if row.charId == charId {
      assert Of(row, charId, row.slot);
    }
  }

  lemma {:induction false} LoadThrows(rows: seq<Row>, charId: nat, items: Inventory, builds: Builder)
    requires AllRead(rows, charId, items)
    ensures Load(rows, charId, builds).Some? <==> Defined(rows, charId, items, builds)
    decreases |rows|
  {
    hide Loaded, Defined;
    if |rows| == 0 {
      NothingIsDefined(rows, charId, items, builds);
    } else {
      var n := |rows| - 1;
      assert AllRead(rows[..n], charId, items);
      LoadThrows(rows[..n], charId, items, builds);
      DefinedStep(rows, charId, items, builds);
      if rows[n].charId == charId {
        assert Reads(items, rows[n]);
      }
    }
  }

  lemma NothingIsDefined(rows: seq<Row>, charId: nat, items: Inventory, builds: Builder)
    requires rows == []
    ensures Defined(rows, charId, items, builds)
  {}

  lemma {:induction false} LoadSlot(rows: seq<Row>, charId: nat, items: Inventory, slot: nat, builds: Builder)
    requires AllRead(rows, charId, items) && slot < MAX_ITEMS && Load(rows, charId, builds).Some?
    ensures var back := Load(rows, charId, builds).value[slot];
      if Count(rows, charId, slot) == 0 then back == NO_ITEM
      else if BuildOfItem(items[slot], builds).Success? then SamePersistent(back, items[slot])
      else back.id == 0
    decreases |rows|
  {
    if |rows| > 0 {
      var n := |rows| - 1;
      assert AllRead(rows[..n], charId, items);
      LoadSlot(rows[..n], charId, items, slot, builds);
      if rows[n].charId == charId {
        assert Reads(items, rows[n]);
      }
    }
  }

  /** Every item in memory has a definition. */
  predicate AllDefined(items: Inventory, builds: Builder) {
    forall slot | 0 <= slot < MAX_ITEMS && items[slot].Occupied() :: !BuildOfItem(items[slot], builds).Undefined?
  }

  lemma SavedAreOccupied(rows: seq<Row>, charId: nat, items: Inventory, slot: nat)
    requires slot < MAX_ITEMS
    ensures Count(Saved(rows, charId, items), charId, slot) > 0 <==> items[slot].Occupied()
  {
    hide Saved, Count, Stored;
    SavedCounts(rows, charId, items, slot);
    StoredIsCounted(rows, charId, slot);
  }

  lemma SavedDefined(rows: seq<Row>, charId: nat, items: Inventory, builds: Builder)
    ensures Defined(Saved(rows, charId, items), charId, items, builds) <==> AllDefined(items, builds)
  {
    hide Saved, Count;
    forall slot: nat | slot < MAX_ITEMS
      ensures Count(Saved(rows, charId, items), charId, slot) > 0 <==> items[slot].Occupied()
    {
      SavedAreOccupied(rows, charId, items, slot);
    }
  }

  /** Loading after saving throws exactly when some item in memory has no definition. */
  lemma SavedLoads(rows: seq<Row>, charId: nat, items: Inventory, builds: Builder)
    requires AllFit(items)
    ensures Load(Saved(rows, charId, items), charId, builds).Some? <==> AllDefined(items, builds)
  {
    hide Saved, Load, AllRead, Defined, AllDefined;
    SavedReads(rows, charId, items);
    LoadThrows(Saved(rows, charId, items), charId, items, builds);
    SavedDefined(rows, charId, items, builds);
  }

  /** If it does not throw, it restores the persistent fields of exactly those items that can be built. */
  lemma SaveThenLoad(rows: seq<Row>, charId: nat, items: Inventory, slot: nat, builds: Builder)
    requires AllFit(items) && slot < MAX_ITEMS && AllDefined(items, builds)
    ensures Load(Saved(rows, charId, items), charId, builds).Some?
    ensures var item, back := items[slot], Load(Saved(rows, charId, items), charId, builds).value[slot];
      if item.Occupied() then (SamePersistent(back, item) <==> BuildOfItem(item, builds).Success?) else back == NO_ITEM
  {
    hide Saved, Load, Count, AllRead, AllDefined;
    SavedReads(rows, charId, items);
    SavedLoads(rows, charId, items, builds);
    SavedAreOccupied(rows, charId, items, slot);
    LoadSlot(Saved(rows, charId, items), charId, items, slot, builds);
  }

  /** An item whose script does not load is lost: its slot comes back without it. */
  lemma UnbuildableIsLost(rows: seq<Row>, charId: nat, items: Inventory, slot: nat)
    requires AllFit(items) && slot < MAX_ITEMS && items[slot].Occupied()
    ensures var back := Load(Saved(rows, charId, items), charId, (kind, id) => NoScript);
      back.Some? && !SamePersistent(back.value[slot], items[slot])
  {
    hide Saved, Load, SamePersistent;
    SaveThenLoad(rows, charId, items, slot, (kind, id) => NoScript);
  }

  // ---- The program -----------------------------------------------------------------------------------

  /** The inventory table and the statements saveCharacter runs on it. */
  class InventoryTable {
    var rows: seq<Row>

    method Delete(charId: nat, slot: nat)
      modifies this
      ensures rows == Kept(old(rows), charId, {slot})
    {
      var result: seq<Row> := [];
      for i := 0 to |rows|
        invariant result == Kept(rows[..i], charId, {slot})
      {
        assert rows[..i + 1][..i] == rows[..i];
        if !(rows[i].charId == charId && rows[i].slot == slot) {
          result := result + [rows[i]];
        }
      }
      assert rows[..|rows|] == rows;
      rows := result;
    }

    method Update(charId: nat, slot: nat, items: Inventory)
      requires slot < MAX_ITEMS
      modifies this
      ensures rows == Rewritten(old(rows), charId, items, {slot})
    {
      var result: seq<Row> := [];
      for i := 0 to |rows|
        invariant |result| == i && result == Rewritten(rows, charId, items, {slot})[..i]
      {
        result := result + [if Of(rows[i], charId, slot) then Written(rows[i], items[slot]) else rows[i]];
      }
      rows := result;
    }

    /** The three lists of the diff. */
    method Diff(charId: nat, items: Inventory) returns (toDelete: seq<nat>, toUpdate: seq<nat>, toInsert: seq<nat>)
      ensures SetOf(toDelete) == DoomedSlots(rows, charId, items)
      ensures SetOf(toUpdate) == OutdatedSlots(rows, charId, items)
      ensures toInsert == MissingSlots(rows, charId, items, MAX_ITEMS)
      ensures forall k | 0 <= k < |toUpdate| :: toUpdate[k] < MAX_ITEMS
    {
      hide FromRow, DoomedSlots, OutdatedSlots, Stored, SetOf;
      toDelete, toUpdate, toInsert := [], [], [];
      NothingYet(charId, items);
      var modified: set<nat> := {};
      for i := 0 to |rows|
        invariant SetOf(toDelete) == DoomedSlots(rows[..i], charId, items)
        invariant SetOf(toUpdate) == OutdatedSlots(rows[..i], charId, items)
        invariant forall k | 0 <= k < |toUpdate| :: toUpdate[k] < MAX_ITEMS
        invariant forall slot: nat :: slot in modified <==> Stored(rows[..i], charId, slot)
      {
        var row := rows[i];
        PrefixGrows(rows, i, charId, items);
        if row.charId == charId {
          if row.slot >= MAX_ITEMS || !items[row.slot].Occupied() {
            SetOfAppend(toDelete, row.slot);
            toDelete := toDelete + [row.slot];
          } else if items[row.slot] != FromRow(row) {
            SetOfAppend(toUpdate, row.slot);
            toUpdate := toUpdate + [row.slot];
          }
          modified := modified + {row.slot};
        }
      }
      assert rows[..|rows|] == rows;
      for i := 0 to MAX_ITEMS
        invariant toInsert == MissingSlots(rows, charId, items, i)
      {
        if items[i].Occupied() && i !in modified {
          toInsert := toInsert + [i];
        }
      }
    }

    /** saveCharacter, the inventory part. */
    method Save(charId: nat, items: Inventory)
      modifies this
      ensures rows == Saved(old(rows), charId, items)
    {
      hide Kept, Rewritten, Inserted, DoomedSlots, OutdatedSlots, MissingSlots, NewRow;
      ghost var before := rows;
      var toDelete, toUpdate, toInsert := Diff(charId, items);
      KeptNothing(rows, charId);
      assert SetOf(toDelete[..0]) == {} && SetOf(toUpdate[..0]) == {};
      for i := 0 to |toDelete|
        invariant rows == Kept(before, charId, SetOf(toDelete[..i]))
      {
        Delete(charId, toDelete[i]);
        KeptTwice(before, charId, SetOf(toDelete[..i]), toDelete[i]);
        assert SetOf(toDelete[..i + 1]) == SetOf(toDelete[..i]) + {toDelete[i]};
      }
      assert toDelete[..|toDelete|] == toDelete;
      ghost var kept := rows;
      RewrittenNothing(rows, charId, items);
      for i := 0 to |toUpdate|
        invariant forall x | x in SetOf(toUpdate[..i]) :: x < MAX_ITEMS
        invariant rows == Rewritten(kept, charId, items, SetOf(toUpdate[..i]))
      {
        Update(charId, toUpdate[i], items);
        RewrittenTwice(kept, charId, items, SetOf(toUpdate[..i]), toUpdate[i]);
        assert SetOf(toUpdate[..i + 1]) == SetOf(toUpdate[..i]) + {toUpdate[i]};
      }
      assert toUpdate[..|toUpdate|] == toUpdate;
      ghost var current := rows;
      for i := 0 to |toInsert|
        invariant rows == current + Inserted(charId, items, toInsert[..i])
      {
        rows := rows + [NewRow(charId, toInsert[i], items[toInsert[i]])];
        InsertedAppend(charId, items, toInsert[..i], toInsert[i]);
        assert toInsert[..i + 1] == toInsert[..i] + [toInsert[i]];
      }
      assert toInsert[..|toInsert|] == toInsert;
    }

    /** loadFromResult into a new inventory; rows of slots that do not exist are passed over. */
    method LoadFromResult(charId: nat, builds: Builder) returns (ok: bool, items: array<Item>)
      ensures fresh(items) && ok == Load(rows, charId, builds).Some?
      ensures ok ==> items[..] == Load(rows, charId, builds).value
    {
      hide Loaded, BuildOf;
      items := new Item[MAX_ITEMS](i => NO_ITEM);
      assert items[..] == seq(MAX_ITEMS, i => NO_ITEM);
      for i := 0 to |rows|
        invariant Load(rows[..i], charId, builds) == Some(items[..])
      {
        var row := rows[i];
        assert rows[..i + 1][..i] == rows[..i];
        if row.charId == charId && row.slot < MAX_ITEMS {
          if BuildOf(row, builds).Undefined? {
            ThrowIsFinal(rows, i + 1, charId, builds);
            return false, items;
          }
          items[row.slot] := Loaded(items[row.slot], row, builds);
        }
      }
      assert rows[..|rows|] == rows;
      ok := true;
    }
  }

  lemma {:induction false} ThrowIsFinal(rows: seq<Row>, i: nat, charId: nat, builds: Builder)
    requires i <= |rows| && Load(rows[..i], charId, builds).None?
    ensures Load(rows, charId, builds).None?
    decreases |rows|
  {
    hide Loaded, BuildOf;
    if i < |rows| {
      var n := |rows| - 1;
      assert rows[..n][..i] == rows[..i];
      ThrowIsFinal(rows[..n], i, charId, builds);
    } else {
      assert rows[..i] == rows;
    }
  }

  lemma NothingYet(charId: nat, items: Inventory)
    ensures DoomedSlots([], charId, items) == OutdatedSlots([], charId, items) == SetOf([]) == {}
    ensures forall slot :: !Stored([], charId, slot)
  {}

  lemma SetOfAppend(s: seq<nat>, x: nat)
    ensures SetOf(s + [x]) == SetOf(s) + {x}
  {}

  lemma PrefixGrows(rows: seq<Row>, i: nat, charId: nat, items: Inventory)
    requires i < |rows|
    ensures DoomedSlots(rows[..i + 1], charId, items) == DoomedSlots(rows[..i], charId, items) +
      if rows[i].charId == charId && Doomed(items, rows[i].slot) then {rows[i].slot} else {}
    ensures OutdatedSlots(rows[..i + 1], charId, items) == OutdatedSlots(rows[..i], charId, items) +
      if rows[i].charId == charId && Outdated(items, rows[i]) then {rows[i].slot} else {}
    ensures forall slot ::
      Stored(rows[..i + 1], charId, slot) <==> Stored(rows[..i], charId, slot) || Of(rows[i], charId, slot)
  {
    hide Doomed, Outdated;
    var a, b := rows[..i], rows[..i + 1];
    assert forall k | 0 <= k < i :: a[k] == b[k];
    assert b[i] == rows[i];
    forall slot | Stored(b, charId, slot)
      ensures Stored(a, charId, slot) || Of(rows[i], charId, slot)
    {
      var k :| 0 <= k < |b| && Of(b[k], charId, slot);
      if k < i {
        assert Of(a[k], charId, slot);
      }
    }
    forall slot | Stored(a, charId, slot)
      ensures Stored(b, charId, slot)
    {
      var k :| 0 <= k < |a| && Of(a[k], charId, slot);
      assert Of(b[k], charId, slot);
    }
    if Of(rows[i], charId, rows[i].slot) {
      assert Of(b[i], charId, rows[i].slot);
    }
  }

  lemma {:induction false} KeptNothing(rows: seq<Row>, charId: nat)
    ensures Kept(rows, charId, {}) == rows
    decreases |rows|
  {
    if |rows| > 0 {
      KeptNothing(rows[..|rows| - 1], charId);
    }
  }

  lemma {:induction false} KeptAppend(a: seq<Row>, row: Row, charId: nat, doomed: set<nat>)
    ensures Kept(a + [row], charId, doomed)
         == Kept(a, charId, doomed) + if row.charId == charId && row.slot in doomed then [] else [row]
  {
    assert (a + [row])[..|a|] == a;
  }

  lemma {:induction false} KeptTwice(rows: seq<Row>, charId: nat, doomed: set<nat>, slot: nat)
    ensures Kept(Kept(rows, charId, doomed), charId, {slot}) == Kept(rows, charId, doomed + {slot})
    decreases |rows|
  {
    if |rows| > 0 {
      var n := |rows| - 1;
      KeptTwice(rows[..n], charId, doomed, slot);
      KeptAppend(Kept(rows[..n], charId, doomed), rows[n], charId, {slot});
    }
  }

  lemma RewrittenNothing(rows: seq<Row>, charId: nat, items: Inventory)
    ensures Rewritten(rows, charId, items, {}) == rows
  {}

  lemma WrittenTwice(row: Row, item: Item)
    ensures Written(Written(row, item), item) == Written(row, item)
  {}

  lemma RewrittenTwice(rows: seq<Row>, charId: nat, items: Inventory, changed: set<nat>, slot: nat)
    requires slot < MAX_ITEMS && forall x | x in changed :: x < MAX_ITEMS
    ensures Rewritten(Rewritten(rows, charId, items, changed), charId, items, {slot})
         == Rewritten(rows, charId, items, changed + {slot})
  {
    hide Written;
    forall i | 0 <= i < |rows|
      ensures Rewritten(Rewritten(rows, charId, items, changed), charId, items, {slot})[i]
           == Rewritten(rows, charId, items, changed + {slot})[i]
    {
      if rows[i].slot < MAX_ITEMS {
        WrittenSlot(rows[i], items[rows[i].slot]);
        WrittenTwice(rows[i], items[rows[i].slot]);
      }
    }
  }

  lemma InsertedAppend(charId: nat, items: Inventory, slots: seq<nat>, slot: nat)
    requires slot < MAX_ITEMS && forall i | 0 <= i < |slots| :: slots[i] < MAX_ITEMS
    ensures Inserted(charId, items, slots + [slot])
         == Inserted(charId, items, slots) + [NewRow(charId, slot, items[slot])]
  {
    hide NewRow;
  }
}
