/**
  The loot transfer shared by `ChestSimple.GetChestContents`
  (Assets/Scripts/Interactables/ChestSimple.cs) and `Enemy.GetChestContents`
  (Assets/Scripts/Enemy/Enemy.cs): every loot slot, in index order, is offered
  to the player's `AddItem` and then cleared, whether or not it fitted.
 */
module Loot {
  import opened Wrappers
  import opened Stacks
  import opened InventorySpec
  import opened Inventories

  /** The text shown when a collection finds nothing. */
  const EmptyChestText := "The chest is empty."

  /** The player's slots after the transfer, and the leftovers that did not fit and are dropped. */
  datatype TransferOutcome = TransferOutcome(player: seq<ItemStack>, dropped: seq<ItemStack>)

  /** Offers each loot stack in turn to `AddItem` on the player's slots. */
  function TransferAll(loot: seq<ItemStack>, player: seq<ItemStack>): (r: TransferOutcome)
    ensures |r.player| == |player|
    ensures forall j :: 0 <= j < |player| ==> r.player[j].slotId == player[j].slotId
    ensures |r.dropped| <= |loot|
  {
    if loot == [] then TransferOutcome(player, [])
    else
      var a := AddFrom(player, 0, loot[0]);
      var t := TransferAll(loot[1..], a.slots);
      TransferOutcome(t.player, (if a.added then [] else [a.rest]) + t.dropped)
  }

  /** Every loot slot emptied with `SetStack(new ItemStack())`; slot ids stay. */
  function ClearAll(loot: seq<ItemStack>): seq<ItemStack>
  {
    seq(|loot|, k requires 0 <= k < |loot| => SetStack(loot[k], NoStack))
  }

  /** Whether some loot slot holds something: what turns the "items obtained" text on. */
  predicate AnyLoot(loot: seq<ItemStack>)
  {
    exists k :: 0 <= k < |loot| && !IsStackEmpty(loot[k])
  }

  /**
    Nothing is created or lost in a transfer: for every item, what the player
    ends with plus what was dropped is what the player and the loot held.
   */
  lemma {:induction false} TransferConserves(loot: seq<ItemStack>, player: seq<ItemStack>, title: string)
    ensures var r := TransferAll(loot, player);
      Total(r.player, title) + Total(r.dropped, title) == Total(player, title) + Total(loot, title)
  {
    if loot != [] {
      var a := AddFrom(player, 0, loot[0]);
      var t := TransferAll(loot[1..], a.slots);
      var left := if a.added then [] else [a.rest];
      AddConserves(player, 0, loot[0], title);
      TransferConserves(loot[1..], a.slots, title);
      TotalAppend(left, t.dropped, title);
      assert Total(left, title) == if a.added then 0 else Count(a.rest, title) by {
        if !a.added {
          assert left[1..] == [];
        }
      }
    }
  }

  /** The stacking invariant holds of the player's slots after a transfer of well-formed loot. */
  lemma {:induction false} TransferKeepsBound(loot: seq<ItemStack>, player: seq<ItemStack>)
    requires forall j :: 0 <= j < |player| ==> StackOk(player[j])
    requires forall j :: 0 <= j < |loot| ==> StackOk(loot[j])
    ensures var r := TransferAll(loot, player);
      forall j :: 0 <= j < |r.player| ==> StackOk(r.player[j])
  {
    if loot != [] {
      var a := AddFrom(player, 0, loot[0]);
      AddKeepsBound(player, 0, loot[0]);
      TransferKeepsBound(loot[1..], a.slots);
      assert TransferAll(loot, player).player == TransferAll(loot[1..], a.slots).player;
    }
  }

  /** Cleared loot holds nothing, keeps its length and slot ids, and clearing it again changes nothing. */
  lemma ClearAllEmpties(loot: seq<ItemStack>)
    ensures |ClearAll(loot)| == |loot|
    ensures forall k :: 0 <= k < |loot| ==>
      ClearAll(loot)[k].slotId == loot[k].slotId && ClearAll(loot)[k].item.None? && ClearAll(loot)[k].count == 0
    ensures !AnyLoot(ClearAll(loot))
    ensures ClearAll(ClearAll(loot)) == ClearAll(loot)
  {
  }

  /** Offering only item-less stacks drops nothing that holds an item. */
  lemma {:induction false} TransferNothingDropsNothing(loot: seq<ItemStack>, player: seq<ItemStack>)
    requires forall k :: 0 <= k < |loot| ==> loot[k].item.None?
    ensures forall k :: 0 <= k < |TransferAll(loot, player).dropped| ==>
      TransferAll(loot, player).dropped[k].item.None?
  {
    if loot != [] {
      var a := AddFrom(player, 0, loot[0]);
      var t := TransferAll(loot[1..], a.slots);
      TransferNothingDropsNothing(loot[1..], a.slots);
      var left := if a.added then [] else [a.rest];
      assert a.rest.item == loot[0].item;
      assert TransferAll(loot, player).dropped == left + t.dropped;
      forall k | 0 <= k < |left + t.dropped|
        ensures (left + t.dropped)[k].item.None?
      {
        if k >= |left| {
          assert (left + t.dropped)[k] == t.dropped[k - |left|];
          assert t.dropped[k - |left|].item.None?;
        } else {
          assert (left + t.dropped)[k] == a.rest;
          assert loot[0].item.None?;
        }
      }
    }
  }

  /**
    A second collection: the loot is already cleared, so nothing is found,
    the loot stays as it is, and the player gains and loses nothing of any item.
   */
  lemma SecondCollection(loot: seq<ItemStack>, player: seq<ItemStack>, title: string)
    ensures var cleared := ClearAll(loot);
      && !AnyLoot(cleared)
      && ClearAll(cleared) == cleared
      && Total(TransferAll(cleared, player).player, title) == Total(player, title)
  {
    var cleared := ClearAll(loot);
    ClearAllEmpties(loot);
    TotalOfItemless(cleared, title);
    TransferNothingDropsNothing(cleared, player);
    TotalOfItemless(TransferAll(cleared, player).dropped, title);
    TransferConserves(cleared, player, title);
  }

  /** Stacks without an item count for nothing. */
  lemma {:induction false} TotalOfItemless(stacks: seq<ItemStack>, title: string)
    requires forall k :: 0 <= k < |stacks| ==> stacks[k].item.None?
    ensures Total(stacks, title) == 0
  {
    if stacks != [] {
      TotalOfItemless(stacks[1..], title);
    }
  }

  /** One more loot slot offered: the transfer of the rest starts from the slots that one `AddItem` leaves. */
  lemma TransferStep(loot: seq<ItemStack>, i: nat, player: seq<ItemStack>)
    requires i < |loot|
    ensures TransferAll(loot[i..], player).player == TransferAll(loot[i + 1..], AddFrom(player, 0, loot[i]).slots).player
  {
    assert loot[i..][1..] == loot[i + 1..];
  }

  /**
    One pass of the loop body: the loot slot at index `i`, found again by its
    slot id, is offered to the player's `AddItem` and then cleared. Returns
    whether it held something.
   */
  method TakeSlot(loot: Inventory, player: Inventory, i: nat) returns (nonEmpty: bool)
    requires loot != player
    requires loot.Valid() && player.Valid()
    requires i < |loot.slots|
    modifies loot, player
    ensures loot.Valid() && player.Valid()
    ensures loot.slots == old(loot.slots)[i := SetStack(old(loot.slots)[i], NoStack)]
    ensures player.slots == AddFrom(old(player.slots), 0, old(loot.slots)[i]).slots
    ensures nonEmpty == !IsStackEmpty(old(loot.slots)[i])
  {
    var slot := loot.GetStackInSlotOf(loot.slots[i]);
    var j := slot.value;
    nonEmpty := !IsStackEmpty(loot.slots[j]);
    var added, rest := player.AddItem(loot.slots[j]);
    loot.slots := loot.slots[j := SetStack(loot.slots[j], NoStack)];
  }

  /**
    The transfer loop: every loot slot, in index order, goes through
    `TakeSlot`. Returns whether any loot slot held something when it was
    visited.
   */
  method TakeContents(loot: Inventory, player: Inventory) returns (found: bool)
    requires loot != player
    requires loot.Valid() && player.Valid()
    modifies loot, player
    ensures loot.Valid() && player.Valid()
    ensures loot.slots == ClearAll(old(loot.slots))
    ensures player.slots == TransferAll(old(loot.slots), old(player.slots)).player
    ensures found == AnyLoot(old(loot.slots))
  {
    ghost var before := loot.slots;
    found := false;
    var i := 0;
    while i < |loot.slots|
      invariant 0 <= i <= |loot.slots| == |before|
      invariant loot.Valid() && player.Valid()
      invariant forall k :: 0 <= k < i ==> loot.slots[k] == ClearAll(before)[k]
      invariant forall k :: i <= k < |loot.slots| ==> loot.slots[k] == before[k]
      invariant TransferAll(before[i..], player.slots).player
        == TransferAll(before, old(player.slots)).player
      invariant found == exists k :: 0 <= k < i && !IsStackEmpty(before[k])
    {
      TransferStep(before, i, player.slots);
      var nonEmpty := TakeSlot(loot, player, i);
      found := found || nonEmpty;
      i := i + 1;
    }
    assert loot.slots == ClearAll(before);
  }
}
