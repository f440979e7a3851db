/**
  Items and item stacks.

  The game's `Item` and `ItemStack` classes are not part of this model; what
  follows gives each `ItemStack` operation the meaning its call sites in
  `Inventory`, `Gun`, `ChestSimple` and `Enemy` rely on, and nothing more.
 */
module Stacks {
  import opened Wrappers

  /** A static item definition: its unique display title and how many fit in one slot. */
  datatype Item = Item(title: string, maxStackSize: int)

  /**
    One inventory slot. `slotId` is fixed when the inventory is built; `item` is
    `None` for a slot that holds nothing (the game's null item).
   */
  datatype ItemStack = ItemStack(slotId: int, item: Option<Item>, count: int)

  /** `new ItemStack(id)`: the empty stack an inventory puts in slot `id`. */
  function EmptyStack(slotId: int): ItemStack
  {
    ItemStack(slotId, None, 0)
  }

  /**
    `new ItemStack()`: the contents a cleared slot receives. Only its item and
    count are ever copied out of it, so its slot id is immaterial.
   */
  const NoStack: ItemStack := EmptyStack(0)

  /** `IsStackEmpty`: no item, or a count of zero. */
  predicate IsStackEmpty(s: ItemStack)
  {
    s.item.None? || s.count == 0
  }

  /** `SetStack`: the slot takes over the other stack's item and count and keeps its own id. */
  function SetStack(slot: ItemStack, from: ItemStack): ItemStack
  {
    slot.(item := from.item, count := from.count)
  }

  /** `AreItemsEqual`: both stacks hold an item, and the titles agree. */
  predicate AreItemsEqual(a: ItemStack, b: ItemStack)
  {
    a.item.Some? && b.item.Some? && a.item.value.title == b.item.value.title
  }

  /** `IsItemAddable(n)`: `n` more fit under the slot's own maximum stack size. */
  predicate IsItemAddable(slot: ItemStack, n: int)
  {
    slot.item.Some? && slot.count + n <= slot.item.value.maxStackSize
  }

  /** `IncreaseStack(n)` */
  function IncreaseStack(s: ItemStack, n: int): ItemStack
  {
    s.(count := s.count + n)
  }

  /** `SetItemCount(n)` */
  function SetItemCount(s: ItemStack, n: int): ItemStack
  {
    s.(count := n)
  }

  /** `DecreaseStack(n)`: no clamping and no clearing of the item is assumed. */
  function DecreaseStack(s: ItemStack, n: int): ItemStack
  {
    s.(count := s.count - n)
  }

  /**
    The stacking invariant the design asks of every stack: no item means a
    count of zero, and an item's count lies between zero and its maximum.
   */
  predicate StackOk(s: ItemStack)
  {
    && (s.item.None? ==> s.count == 0)
    && (s.item.Some? ==> 0 <= s.count <= s.item.value.maxStackSize)
  }

  /** How many of the item titled `title` the stack holds. */
  function Count(s: ItemStack, title: string): int
  {
    if s.item.Some? && s.item.value.title == title then s.count else 0
  }

  /** How many of the item titled `title` a sequence of stacks holds in all. */
  function Total(stacks: seq<ItemStack>, title: string): int
  {
    if stacks == [] then 0 else Count(stacks[0], title) + Total(stacks[1..], title)
  }

  /** Replacing one stack changes the total by exactly the difference of the two stacks. */
  lemma {:induction false} TotalUpdate(stacks: seq<ItemStack>, k: nat, x: ItemStack, title: string)
    requires k < |stacks|
    ensures Total(stacks[k := x], title) == Total(stacks, title) - Count(stacks[k], title) + Count(x, title)
  {
    if k > 0 {
      assert stacks[k := x][1..] == stacks[1..][k - 1 := x];
      TotalUpdate(stacks[1..], k - 1, x, title);
    } else {
      assert stacks[k := x][1..] == stacks[1..];
    }
  }

  /** Totals add up over concatenation. */
  lemma {:induction false} TotalAppend(a: seq<ItemStack>, b: seq<ItemStack>, title: string)
    ensures Total(a + b, title) == Total(a, title) + Total(b, title)
  {
    if a != [] {
      assert (a + b)[1..] == a[1..] + b;
      TotalAppend(a[1..], b, title);
    } else {
      assert a + b == b;
    }
  }
}
