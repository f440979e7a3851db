/**
  The stacking rules of `Inventory.AddItem` (Assets/Scripts/Inventory/Inventory.cs),
  as a function over the slot sequence, and what they guarantee: the slot
  count and slot ids never change, no item is created or lost, a call
  succeeds exactly when some slot can take the whole stack, and only the
  slots the rules name are touched.
 */
module InventorySpec {
  import opened Wrappers
  import opened Stacks

  /** What one `AddItem` call produces: its result, the new slots, and the argument's new state. */
  datatype AddOutcome = AddOutcome(added: bool, slots: seq<ItemStack>, rest: ItemStack)

  /**
    `AddItem(s)` resumed at slot `k`: the first empty slot takes the whole
    stack; a slot holding the same item takes it if it fits, and is otherwise
    filled to its maximum while the stack keeps the overflow and the scan goes
    on to the next slot.
   */
  function AddFrom(slots: seq<ItemStack>, k: nat, s: ItemStack): (r: AddOutcome)
    requires k <= |slots|
    ensures |r.slots| == |slots|
    ensures forall j :: 0 <= j < |slots| ==> r.slots[j].slotId == slots[j].slotId
    ensures forall j :: 0 <= j < k ==> r.slots[j] == slots[j]
    ensures r.rest.slotId == s.slotId && r.rest.item == s.item
    decreases |slots| - k
  {
    if k == |slots| then
      AddOutcome(false, slots, s)
    else if IsStackEmpty(slots[k]) then
      AddOutcome(true, slots[k := SetStack(slots[k], s)], s)
    else if AreItemsEqual(s, slots[k]) then
      if IsItemAddable(slots[k], s.count) then
        AddOutcome(true, slots[k := IncreaseStack(slots[k], s.count)], s)
      else
        var max := slots[k].item.value.maxStackSize;
        var difference := (slots[k].count + s.count) - max;
        AddFrom(slots[k := SetItemCount(slots[k], max)], k + 1, SetItemCount(s, difference))
    else
      AddFrom(slots, k + 1, s)
  }

  /** A non-empty stack of the item titled `title`. */
  predicate Holds(x: ItemStack, title: string)
  {
    !IsStackEmpty(x) && x.item.value.title == title
  }

  /** Whether some stack is empty. */
  function HasEmpty(stacks: seq<ItemStack>): (b: bool)
    ensures b <==> exists j :: 0 <= j < |stacks| && IsStackEmpty(stacks[j])
  {
    stacks != [] && (IsStackEmpty(stacks[0]) || HasEmpty(stacks[1..]))
  }

  /** Whether some stack holds the item titled `title`. */
  function HasMatch(stacks: seq<ItemStack>, title: string): (b: bool)
    ensures b <==> exists j :: 0 <= j < |stacks| && Holds(stacks[j], title)
  {
    stacks != [] && (Holds(stacks[0], title) || HasMatch(stacks[1..], title))
  }

  /** The spare room, up to each slot's own maximum, of the stacks holding `title`. */
  function Room(stacks: seq<ItemStack>, title: string): (room: int)
    ensures !HasMatch(stacks, title) ==> room == 0
  {
    if stacks == [] then 0
    else
      (if Holds(stacks[0], title) then stacks[0].item.value.maxStackSize - stacks[0].count else 0)
      + Room(stacks[1..], title)
  }

  /** Well-formed stacks never have negative room. */
  lemma {:induction false} RoomNonNegative(stacks: seq<ItemStack>, title: string)
    requires forall j :: 0 <= j < |stacks| ==> StackOk(stacks[j])
    ensures Room(stacks, title) >= 0
  {
    if stacks != [] {
      RoomNonNegative(stacks[1..], title);
    }
  }

  /**
    Item conservation: what the slots gain of any item, plus what the argument
    still holds when the call fails, is exactly what the argument brought.
   */
  lemma {:induction false} AddConserves(slots: seq<ItemStack>, k: nat, s: ItemStack, title: string)
    requires k <= |slots|
    ensures var r := AddFrom(slots, k, s);
      Total(r.slots, title) + (if r.added then 0 else Count(r.rest, title))
      == Total(slots, title) + Count(s, title)
    decreases |slots| - k
  {
    if k == |slots| {
    } else if IsStackEmpty(slots[k]) {
      TotalUpdate(slots, k, SetStack(slots[k], s), title);
    } else if AreItemsEqual(s, slots[k]) {
      if IsItemAddable(slots[k], s.count) {
        TotalUpdate(slots, k, IncreaseStack(slots[k], s.count), title);
      } else {
        var max := slots[k].item.value.maxStackSize;
        var difference := (slots[k].count + s.count) - max;
        TotalUpdate(slots, k, SetItemCount(slots[k], max), title);
        AddConserves(slots[k := SetItemCount(slots[k], max)], k + 1, SetItemCount(s, difference), title);
      }
    } else {
      AddConserves(slots, k + 1, s, title);
    }
  }

  /**
    When a call succeeds: exactly when some slot from `k` on is empty, or the
    same-item slots have room for the whole stack between them. Overflow
    fills on the way never decide the outcome on their own.
   */
  lemma {:induction false} AddSucceedsIff(slots: seq<ItemStack>, k: nat, s: ItemStack)
    requires k <= |slots|
    requires forall j :: k <= j < |slots| ==> StackOk(slots[j])
    ensures AddFrom(slots, k, s).added
      <==> HasEmpty(slots[k..])
           || (s.item.Some? && HasMatch(slots[k..], s.item.value.title)
               && s.count <= Room(slots[k..], s.item.value.title))
    decreases |slots| - k
  {
    if k < |slots| {
      assert slots[k..][1..] == slots[k + 1..];
      if IsStackEmpty(slots[k]) {
      } else if AreItemsEqual(s, slots[k]) {
        var title := s.item.value.title;
        RoomNonNegative(slots[k + 1..], title);
        if !IsItemAddable(slots[k], s.count) {
          var max := slots[k].item.value.maxStackSize;
          var difference := (slots[k].count + s.count) - max;
          var next := slots[k := SetItemCount(slots[k], max)];
          assert next[k + 1..] == slots[k + 1..];
          assert Holds(slots[k], title);
          assert Room(slots[k..], title) == max - slots[k].count + Room(slots[k + 1..], title);
          AddSucceedsIff(next, k + 1, SetItemCount(s, difference));
        }
      } else {
        AddSucceedsIff(slots, k + 1, s);
      }
    }
  }

  /**
    The stacking invariant survives a call: when every slot and the argument
    respect their maximum stack size, so do the new slots and what is left of
    the argument.
   */
  lemma {:induction false} AddKeepsBound(slots: seq<ItemStack>, k: nat, s: ItemStack)
    requires k <= |slots|
    requires forall j :: 0 <= j < |slots| ==> StackOk(slots[j])
    requires StackOk(s)
    ensures var r := AddFrom(slots, k, s);
      (forall j :: 0 <= j < |r.slots| ==> StackOk(r.slots[j])) && StackOk(r.rest)
    decreases |slots| - k
  {
    if k < |slots| && !IsStackEmpty(slots[k]) {
      if AreItemsEqual(s, slots[k]) && !IsItemAddable(slots[k], s.count) {
        var max := slots[k].item.value.maxStackSize;
        var difference := (slots[k].count + s.count) - max;
        AddKeepsBound(slots[k := SetItemCount(slots[k], max)], k + 1, SetItemCount(s, difference));
      } else if !AreItemsEqual(s, slots[k]) {
        AddKeepsBound(slots, k + 1, s);
      }
    }
  }

  /**
    Which slots a call touches. A slot that changes either held the same item
    and is now filled to exactly its maximum (an overflow) or grew by exactly
    what was left of the argument (where it landed), or is the first empty
    slot, which now holds exactly what was left of the argument.
   */
  lemma {:induction false} AddTouches(slots: seq<ItemStack>, k: nat, s: ItemStack)
    requires k <= |slots|
    ensures var r := AddFrom(slots, k, s);
      forall j :: k <= j < |slots| && r.slots[j] != slots[j] ==>
        || (AreItemsEqual(s, slots[j]) && !IsStackEmpty(slots[j])
            && (|| r.slots[j] == SetItemCount(slots[j], slots[j].item.value.maxStackSize)
                || (r.added && r.slots[j] == IncreaseStack(slots[j], r.rest.count))))
        || (IsStackEmpty(slots[j]) && r.added && r.slots[j] == SetStack(slots[j], r.rest)
            && forall i :: k <= i < j ==> !IsStackEmpty(slots[i]))
    decreases |slots| - k
  {
    if k < |slots| && !IsStackEmpty(slots[k]) {
      if AreItemsEqual(s, slots[k]) && !IsItemAddable(slots[k], s.count) {
        var max := slots[k].item.value.maxStackSize;
        var difference := (slots[k].count + s.count) - max;
        AddTouches(slots[k := SetItemCount(slots[k], max)], k + 1, SetItemCount(s, difference));
      } else if !AreItemsEqual(s, slots[k]) {
        AddTouches(slots, k + 1, s);
      }
    }
  }

  /** When a call fails, no slot was empty and every same-item slot is now full. */
  lemma {:induction false} AddFailsFull(slots: seq<ItemStack>, k: nat, s: ItemStack)
    requires k <= |slots|
    ensures var r := AddFrom(slots, k, s);
      !r.added ==>
        forall j :: k <= j < |slots| ==>
          && !IsStackEmpty(slots[j])
          && (AreItemsEqual(s, slots[j]) ==> r.slots[j].count == slots[j].item.value.maxStackSize)
    decreases |slots| - k
  {
    if k < |slots| && !IsStackEmpty(slots[k]) {
      if AreItemsEqual(s, slots[k]) && !IsItemAddable(slots[k], s.count) {
        var max := slots[k].item.value.maxStackSize;
        var difference := (slots[k].count + s.count) - max;
        AddFailsFull(slots[k := SetItemCount(slots[k], max)], k + 1, SetItemCount(s, difference));
      } else if !AreItemsEqual(s, slots[k]) {
        AddFailsFull(slots, k + 1, s);
      }
    }
  }

  /**
    The first home wins: when every slot from `k` up to `j` is occupied, either
    by another item or by the same item already at its maximum, and slot `j`
    is empty, or holds the same item with room for the whole count, the call
    succeeds, slot `j` alone changes (taking the stack, or growing by exactly
    its count) and the argument is left as it was.
   */
  lemma {:induction false} AddLandsAt(slots: seq<ItemStack>, k: nat, j: nat, s: ItemStack)
    requires k <= j < |slots|
    requires forall i :: k <= i < j ==>
      && !IsStackEmpty(slots[i])
      && (AreItemsEqual(s, slots[i]) ==>
            slots[i].count == slots[i].item.value.maxStackSize && !IsItemAddable(slots[i], s.count))
    requires IsStackEmpty(slots[j]) || (AreItemsEqual(s, slots[j]) && IsItemAddable(slots[j], s.count))
    ensures var r := AddFrom(slots, k, s);
      && r.added && r.rest == s
      && r.slots == slots[j := if IsStackEmpty(slots[j]) then SetStack(slots[j], s)
                              else IncreaseStack(slots[j], s.count)]
    decreases j - k
  {
    if k < j {
      if AreItemsEqual(s, slots[k]) {
        var max := slots[k].item.value.maxStackSize;
        var difference := (slots[k].count + s.count) - max;
        assert slots[k := SetItemCount(slots[k], max)] == slots;
        assert SetItemCount(s, difference) == s;
      }
      AddLandsAt(slots, k + 1, j, s);
    }
  }

  /**
    A worked example: in two empty slots, adding 50 of an item that stacks to
    64 and then 20 more fills the first slot to 64 and puts the overflow of 6
    in the second slot within the same call.
   */
  lemma OverflowContinuesInSameCall()
    ensures var a := Item("A", 64);
      var first := AddFrom([EmptyStack(0), EmptyStack(1)], 0, ItemStack(0, Some(a), 50));
      var second := AddFrom(first.slots, 0, ItemStack(0, Some(a), 20));
      && first.added && first.slots == [ItemStack(0, Some(a), 50), EmptyStack(1)]
      && second.added && second.slots == [ItemStack(0, Some(a), 64), ItemStack(1, Some(a), 6)]
  {
    var a := Item("A", 64);
    var slots := [ItemStack(0, Some(a), 50), EmptyStack(1)];
    var filled := slots[0 := SetItemCount(slots[0], 64)];
    assert AddFrom(slots, 0, ItemStack(0, Some(a), 20)) == AddFrom(filled, 1, ItemStack(0, Some(a), 6));
  }
}
