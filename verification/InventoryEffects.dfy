/**
  Where items end up: what each inventory operation does to each slot and to the ground.
 */
module InventoryEffects {
  import opened SaveCharacter
  import opened InventorySystem

  /** The slot found is the first empty one from 12 on; 0 means that there is none. */
  lemma FirstEmptySlot(items: Inventory)
    ensures var slot := NextEmpty(items);
      if slot == 0 then forall i | 12 <= i < 140 :: items[i].id != 0
      else 12 <= slot < 140 && items[slot].id == 0 && forall i | 12 <= i < slot :: items[i].id != 0
  {}

  /** A slot named 0 stands for the first empty bag slot. */
  function Named(items: Inventory, slot: nat): nat {
    if slot == 0 then NextEmpty(items) else slot
  }

  /** The two slots exchange what they hold; all others keep it. */
  lemma SwapExchanges(items: Inventory, a: nat, b: nat, i: nat)
    requires i < 140
    ensures var after, x, y := Swapped(items, a, b), Named(items, a), Named(items, b);
      if a >= 140 || b >= 140 || a == b then after == items
      else
        && x < 140 && y < 140 && after[x] == items[y] && after[y] == items[x]
        && (i != x && i != y ==> after[i] == items[i])
  {}

  /** An equip swaps destination and source if both scripts asked agree; a bad destination is refused. */
  lemma EquipSwaps(bag: Bag, to: nat, from: nat, unequipOk: bool, equipOk: bool)
    requires EquipSafe(to, from)
    ensures Equipped(bag, to, from, unequipOk, equipOk) ==
      if 1 <= to < 12 && from < 140 && (bag.items[to].id == 0 || unequipOk) && (bag.items[from].id == 0 || equipOk)
      then Bag(Swapped(bag.items, to, from), bag.ground)
      else bag
  {
    hide Swapped;
  }

  /** A drop puts as many as asked for, but no more than there are, on the ground; the rest stays in the slot. */
  lemma DropSplits(bag: Bag, slot: nat, quantity: nat, i: nat)
    requires i < 140
    ensures var after := DroppedFrom(bag, slot, quantity);
      if slot == 0 || slot >= 140 then after == bag
      else
        var item := bag.items[slot];
        var dropped := if quantity < item.count then quantity else item.count;
        && after.ground == bag.ground + [item.(count := dropped)]
        && after.items[slot] == (if dropped == item.count then NO_ITEM else item.(count := item.count - dropped))
        && (i != slot ==> after.items[i] == bag.items[i])
  {}

  /** An added item lands in the first empty bag slot, and nowhere when the bag is full. */
  lemma AddLandsFirst(bag: Bag, item: Item, i: nat)
    requires i < 140
    ensures var after, slot := AddedTo(bag, item), NextEmpty(bag.items);
      if slot == 0 then after == bag
      else
        && after.items[slot] == item && after.ground == bag.ground
        && (i != slot ==> after.items[i] == bag.items[i])
  {}
}
