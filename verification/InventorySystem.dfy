/**
  Moving items: swap, equip, drop, add and remove on the 140 slots of a character. Scripts
  answer arbitrarily. The point is conservation: no sequence of moves creates or loses items.
 */
module InventorySystem {
  import opened SaveCharacter

  const FIRST_BAG_SLOT := 12

  /** What a character holds and what lies on the ground. */
  datatype Bag = Bag(items: Inventory, ground: seq<Item>)

  /** How many of one item an entry stands for. */
  function Worth(item: Item, kind: nat, id: nat): nat {
    if item.kind == kind && item.id == id then item.count else 0
  }

  function Total(items: seq<Item>, kind: nat, id: nat): nat {
    if |items| == 0 then 0 else Total(items[..|items| - 1], kind, id) + Worth(items[|items| - 1], kind, id)
  }

  function Everything(bag: Bag, kind: nat, id: nat): nat {
    Total(bag.items, kind, id) + Total(bag.ground, kind, id)
  }

  // ---- Operations ------------------------------------------------------------------------------

  /** The first empty slot at or after `from`, or 0 when there is none. */
  function NextEmptyFrom(items: Inventory, from: nat): (slot: nat)
    requires FIRST_BAG_SLOT <= from <= MAX_ITEMS
    ensures slot < MAX_ITEMS
    ensures slot != 0 ==> from <= slot && items[slot].id == 0 && forall i | from <= i < slot :: items[i].id != 0
    ensures slot == 0 <==> forall i | from <= i < MAX_ITEMS :: items[i].id != 0
    decreases MAX_ITEMS - from
  {
    if from == MAX_ITEMS then 0 else if items[from].id == 0 then from else NextEmptyFrom(items, from + 1)
  }

  function NextEmpty(items: Inventory): (slot: nat)
    ensures slot < MAX_ITEMS
  {
    NextEmptyFrom(items, FIRST_BAG_SLOT)
  }

  predicate SwapRefused(a: nat, b: nat) {
    a >= MAX_ITEMS || b >= MAX_ITEMS || a == b
  }

  /** A zero slot stands for the next empty one. */
  function Resolved(items: Inventory, slot: nat): (r: nat)
    requires slot < MAX_ITEMS
    ensures r < MAX_ITEMS
  {
    if slot == 0 then NextEmpty(items) else slot
  }

  function Swapped(items: Inventory, a: nat, b: nat): Inventory {
    if SwapRefused(a, b) then items
    else
      var x, y := Resolved(items, a), Resolved(items, b);
      items[x := items[y]][y := items[x]]
  }

  /** The destination is looked at first; only then is the array indexed with the source slot, unchecked. */
  predicate EquipSafe(to: nat, from: nat) {
    to < 1 || to >= FIRST_BAG_SLOT || from < MAX_ITEMS
  }

  /** processEquip; the two answers are only asked for when there is an item to ask. */
  function Equipped(bag: Bag, to: nat, from: nat, unequipOk: bool, equipOk: bool): Bag
    requires EquipSafe(to, from)
  {
    if to < 1 || to >= FIRST_BAG_SLOT then bag
    else if (bag.items[to].Occupied() && !unequipOk) || (bag.items[from].Occupied() && !equipOk) then bag
    else bag.(items := Swapped(bag.items, to, from))
  }

  /** dropItem: part of a stack, or the whole of it; asking for more than there is drops what there is. */
  function DroppedFrom(bag: Bag, slot: nat, quantity: nat): Bag {
    if slot == 0 || slot >= MAX_ITEMS then bag
    else
      var item := bag.items[slot];
      if quantity < item.count then
        Bag(bag.items[slot := item.(count := item.count - quantity)], bag.ground + [item.(count := quantity)])
      else
        Bag(bag.items[slot := NO_ITEM], bag.ground + [item])
  }

  /** addItem: refused exactly when no bag slot is empty. */
  function AddedTo(bag: Bag, item: Item): Bag {
    var slot := NextEmpty(bag.items);
    if slot == 0 then bag else bag.(items := bag.items[slot := item])
  }

  // ---- Conservation --------------------------------------------------------------------------------

  lemma {:induction false} TotalUpdate(items: seq<Item>, i: nat, item: Item, kind: nat, id: nat)
    requires i < |items|
    ensures Total(items[i := item], kind, id) + Worth(items[i], kind, id)
         == Total(items, kind, id) + Worth(item, kind, id)
  {
    hide Worth;
    var n := |items| - 1;
    if i < n {
      TotalUpdate(items[..n], i, item, kind, id);
      assert items[i := item][..n] == items[..n][i := item];
    } else {
      assert items[i := item][..n] == items[..n];
    }
  }

  lemma TotalAppend(items: seq<Item>, item: Item, kind: nat, id: nat)
    ensures Total(items + [item], kind, id) == Total(items, kind, id) + Worth(item, kind, id)
  {
    assert (items + [item])[..|items|] == items;
  }

  lemma SwapConserves(items: Inventory, a: nat, b: nat, kind: nat, id: nat)
    ensures Total(Swapped(items, a, b), kind, id) == Total(items, kind, id)
  {
    hide Worth, Total, NextEmpty;
    if !SwapRefused(a, b) {
      var x, y := Resolved(items, a), Resolved(items, b);
      TotalUpdate(items, x, items[y], kind, id);
      TotalUpdate(items[x := items[y]], y, items[x], kind, id);
    }
  }

  lemma DropConserves(bag: Bag, slot: nat, quantity: nat, kind: nat, id: nat)
    ensures Everything(DroppedFrom(bag, slot, quantity), kind, id) == Everything(bag, kind, id)
  {
    hide Total;
    if 0 < slot < MAX_ITEMS {
      var item := bag.items[slot];
      var less := item.(count := if quantity < item.count then item.count - quantity else 0);
      TotalUpdate(bag.items, slot, less, kind, id);
      TotalUpdate(bag.items, slot, NO_ITEM, kind, id);
      TotalAppend(bag.ground, item.(count := quantity), kind, id);
      TotalAppend(bag.ground, item, kind, id);
    }
  }

  /** An added item counts in full, or nothing changes at all. */
  lemma AddCounts(bag: Bag, item: Item, kind: nat, id: nat)
    requires id != 0
    ensures Everything(AddedTo(bag, item), kind, id)
         == Everything(bag, kind, id) + if NextEmpty(bag.items) == 0 then 0 else Worth(item, kind, id)
    ensures NextEmpty(bag.items) == 0 ==> AddedTo(bag, item) == bag
  {
    var slot := NextEmpty(bag.items);
    if slot != 0 {
      TotalUpdate(bag.items, slot, item, kind, id);
    }
  }

  datatype Move =
    | Swap(a: nat, b: nat)
    | Equip(to: nat, from: nat, unequipOk: bool, equipOk: bool)
    | Drop(slot: nat, quantity: nat)

  /** Slots as the packets may legally name them. */
  predicate InRange(m: Move) {
    m.Equip? ==> EquipSafe(m.to, m.from)
  }

  function Next(bag: Bag, m: Move): Bag
    requires InRange(m)
  {
    match m
    case Swap(a, b) => bag.(items := Swapped(bag.items, a, b))
    case Equip(to, from, unequipOk, equipOk) => Equipped(bag, to, from, unequipOk, equipOk)
    case Drop(slot, quantity) => DroppedFrom(bag, slot, quantity)
  }

  function After(bag: Bag, moves: seq<Move>): Bag
    requires forall i | 0 <= i < |moves| :: InRange(moves[i])
    decreases |moves|
  {
    if |moves| == 0 then bag else After(Next(bag, moves[0]), moves[1..])
  }

  /** Over every run of moves, the number of each item held or on the ground is constant. */
  lemma {:induction false} MovesConserve(bag: Bag, moves: seq<Move>, kind: nat, id: nat)
    requires forall i | 0 <= i < |moves| :: InRange(moves[i])
    ensures Everything(After(bag, moves), kind, id) == Everything(bag, kind, id)
    decreases |moves|
  {
    hide Swapped, DroppedFrom, Total;
    if |moves| > 0 {
      match moves[0] {
        case Swap(a, b) => SwapConserves(bag.items, a, b, kind, id);
        case Equip(to, from, _, _) => SwapConserves(bag.items, to, from, kind, id);
        case Drop(slot, quantity) => DropConserves(bag, slot, quantity, kind, id);
      }
      MovesConserve(Next(bag, moves[0]), moves[1..], kind, id);
    }
  }

  // ---- The object ------------------------------------------------------------------------------------

  class Holder {
    const items: array<Item>
    var ground: seq<Item>

    constructor ()
      ensures Valid() && fresh(items) && State() == Bag(seq(MAX_ITEMS, i => NO_ITEM), [])
    {
      items := new Item[MAX_ITEMS](i => NO_ITEM);
      ground := [];
      new;
      assert items[..] == seq(MAX_ITEMS, i => NO_ITEM);
    }

    ghost predicate Valid() {
      items.Length == MAX_ITEMS
    }

    ghost function State(): Bag
      requires Valid()
      reads this, items
    {
      Bag(items[..], ground)
    }

    method FindNextEmptySlot() returns (slot: nat)
      requires Valid()
      ensures slot == NextEmpty(items[..])
    {
      for i := FIRST_BAG_SLOT to MAX_ITEMS
        invariant NextEmpty(items[..]) == NextEmptyFrom(items[..], i)
      {
        if items[i].id == 0 {
          return i;
        }
      }
      slot := 0;
    }

    method SwapItems(a: nat, b: nat) returns (ok: bool, x: nat, y: nat)
      requires Valid()
      modifies items
      ensures ok == !SwapRefused(a, b)
      ensures ok ==> x == Resolved(old(items[..]), a) && y == Resolved(old(items[..]), b)
      ensures State() == old(State()).(items := Swapped(old(items[..]), a, b))
    {
      hide NextEmpty;
      x, y := a, b;
      if a >= MAX_ITEMS || b >= MAX_ITEMS || a == b {
        return false, x, y;
      }
      if x == 0 { x := FindNextEmptySlot(); }
      if y == 0 { y := FindNextEmptySlot(); }
      items[x], items[y] := items[y], items[x];
      ok := true;
    }

    /** `safe` says that no slot outside the array was read. */
    method ProcessEquip(to: nat, from: nat, unequipOk: bool, equipOk: bool) returns (safe: bool)
      requires Valid()
      modifies items
      ensures safe <==> EquipSafe(to, from)
      ensures safe ==> State() == Equipped(old(State()), to, from, unequipOk, equipOk)
    {
      hide Swapped;
      safe := true;
      if to < 1 || to >= FIRST_BAG_SLOT {
        return;
      }
      if from >= MAX_ITEMS {
        return false;
      }
      var unequip := if items[to].Occupied() then unequipOk else true;
      var equip := if items[from].Occupied() then equipOk else true;
      if !equip || !unequip {
        return;
      }
      var ok, x, y := SwapItems(to, from);
    }

    method RemoveItem(slot: nat) returns (item: Item)
      requires Valid()
      modifies items
      ensures if slot == 0 || slot >= MAX_ITEMS then item == NO_ITEM && items[..] == old(items[..])
              else item == old(items[slot]) && items[..] == old(items[..])[slot := NO_ITEM]
    {
      if slot == 0 || slot >= MAX_ITEMS {
        return NO_ITEM;
      }
      item := items[slot];
      items[slot] := NO_ITEM;
    }

    method DropItem(slot: nat, quantity: nat)
      requires Valid()
      modifies this, items
      ensures State() == DroppedFrom(old(State()), slot, quantity)
    {
      if slot == 0 || slot >= MAX_ITEMS {
        return;
      }
      var held := items[slot].count;
      var count := if held < quantity then held else quantity;
      var dropped := NO_ITEM;
      if count < held {
        items[slot] := items[slot].(count := held - count);
        dropped := items[slot].(count := count);
      } else {
        dropped := RemoveItem(slot);
      }
      ground := ground + [dropped];
    }

    method AddItem(item: Item) returns (ok: bool)
      requires Valid()
      modifies items
      ensures ok == (NextEmpty(old(items[..])) != 0)
      ensures State() == AddedTo(old(State()), item)
    {
      var slot := FindNextEmptySlot();
      ok := slot != 0;
      if ok {
        items[slot] := item;
      }
    }
  }
}
