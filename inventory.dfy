/**
  `Inventory` (Assets/Scripts/Inventory/Inventory.cs): a fixed-length list of
  item stacks, slot `i` created with slot id `i`. The list is the field
  `slots`, which callers read directly where the game calls `GetInventory()`.
 */
module Inventories {
  import opened Wrappers
  import opened Stacks
  import opened InventorySpec

  class Inventory {
    var slots: seq<ItemStack>

    /** Slot ids are stable: slot `k` keeps the id `k` it was built with. */
    ghost predicate Valid()
      reads this
    {
      forall k :: 0 <= k < |slots| ==> slots[k].slotId == k
    }

    /** `Inventory(nSize)`: `nSize` empty stacks, one per slot; none for a negative size. */
    constructor (nSize: int)
      ensures Valid()
      ensures |slots| == if nSize < 0 then 0 else nSize
      ensures forall k :: 0 <= k < |slots| ==> slots[k] == EmptyStack(k)
    {
      var items: seq<ItemStack> := [];
      var i := 0;
      while i < nSize
        invariant 0 <= i && (i <= nSize || i == 0)
        invariant |items| == i
        invariant forall k :: 0 <= k < i ==> items[k] == EmptyStack(k)
      {
        items := items + [EmptyStack(i)];
        i := i + 1;
      }
      slots := items;
    }

    /**
      `AddItem(stack)`: returns whether the stack found a home, and `rest`, the
      argument as the call leaves it (its count cut to the overflow of every
      same-item slot it filled on the way).
     */
    method AddItem(stack: ItemStack) returns (added: bool, rest: ItemStack)
      requires Valid()
      modifies this
      ensures Valid()
      ensures AddOutcome(added, slots, rest) == AddFrom(old(slots), 0, stack)
    {
      rest := stack;
      var i := 0;
      while i < |slots|
        invariant 0 <= i <= |slots|
        invariant AddFrom(slots, i, rest) == AddFrom(old(slots), 0, stack)
      {
        if IsStackEmpty(slots[i]) {
          slots := slots[i := SetStack(slots[i], rest)];
          return true, rest;
        }
        if AreItemsEqual(rest, slots[i]) {
          if IsItemAddable(slots[i], rest.count) {
            slots := slots[i := IncreaseStack(slots[i], rest.count)];
            return true, rest;
          } else {
            var difference := (slots[i].count + rest.count) - slots[i].item.value.maxStackSize;
            slots := slots[i := SetItemCount(slots[i], slots[i].item.value.maxStackSize)];
            rest := SetItemCount(rest, difference);
          }
        }
        i := i + 1;
      }
      return false, rest;
    }

    /** `GetStackInSlot(nIndex)`: the stack at that index; slot `nIndex` carries id `nIndex`. */
    method GetStackInSlot(index: int) returns (s: ItemStack)
      requires 0 <= index < |slots|
      ensures s == slots[index]
      ensures Valid() ==> s.slotId == index
    {
      s := slots[index];
    }

    /**
      `GetStackInSlot(oStack)`: the first slot, in index order, whose id is the
      argument's id, or `None` (the game's null) when there is none. The slot is
      returned by index, which is what the game's reference denotes.
     */
    method GetStackInSlotOf(stack: ItemStack) returns (found: Option<nat>)
      ensures found.Some? ==>
        && found.value < |slots|
        && slots[found.value].slotId == stack.slotId
        && forall j :: 0 <= j < found.value ==> slots[j].slotId != stack.slotId
      ensures found.None? <==> forall j :: 0 <= j < |slots| ==> slots[j].slotId != stack.slotId
      ensures Valid() && 0 <= stack.slotId < |slots| ==> found == Some(stack.slotId)
    {
      var i := 0;
      while i < |slots|
        invariant 0 <= i <= |slots|
        invariant forall j :: 0 <= j < i ==> slots[j].slotId != stack.slotId
      {
        if slots[i].slotId == stack.slotId {
          return Some(i);
        }
        i := i + 1;
      }
      assert 0 <= stack.slotId < |slots| ==> slots[stack.slotId].slotId != stack.slotId;
      return None;
    }
  }
}
