/**
  Which inventory slot each UI slot of a container shows: the slot layouts
  built by the `PlayerContainer` and `ChestContainer` constructors
  (Assets/Scripts/Inventory/Containers/). `Container.AddSlot` is not part of
  this model; it is taken to append one entry (inventory, index, panel) to the
  container's slot list, and the hotbar size and the "has hotbar" switch,
  which the game reads from its inventory manager, are parameters.
 */
module Containers {

  /** Which inventory a UI slot reads from. */
  datatype Owner = PlayerInventory | ArmourInventory | ChestInventory

  /** The prefab panel a UI slot is placed in. */
  datatype Panel = MainPanel | PlayerPanel | HotbarPanel | ArmourPanel

  /** One UI slot: the inventory and index it shows, and where it sits. */
  datatype SlotEntry = SlotEntry(owner: Owner, index: int, panel: Panel)

  /** How many times `for (i = 0; i < n; i++)` runs. */
  function Times(n: int): nat
  {
    if n < 0 then 0 else n
  }

  /** `n` entries showing indices `start`, `start + 1`, ... of one inventory, in one panel. */
  function Block(owner: Owner, start: int, n: nat, panel: Panel): (b: seq<SlotEntry>)
    ensures |b| == n
    ensures forall i :: 0 <= i < n ==> b[i] == SlotEntry(owner, start + i, panel)
  {
    if n == 0 then [] else Block(owner, start, n - 1, panel) + [SlotEntry(owner, start + n - 1, panel)]
  }

  /** The `PlayerContainer` layout: main panel, then (with a hotbar) hotbar and armour panels. */
  function PlayerLayout(nSlots: int, hotbarSize: int, hasHotbar: bool): seq<SlotEntry>
  {
    Block(PlayerInventory, hotbarSize, Times(nSlots), MainPanel)
    + if hasHotbar then
        Block(PlayerInventory, 0, Times(hotbarSize), HotbarPanel) + Block(ArmourInventory, 0, 2, ArmourPanel)
      else []
  }

  /** The `ChestContainer` layout: chest panel, player panel, then (with a hotbar) hotbar panel. */
  function ChestLayout(nSlots: int, inventorySize: int, hotbarSize: int, hasHotbar: bool): seq<SlotEntry>
  {
    Block(ChestInventory, 0, Times(nSlots), MainPanel)
    + Block(PlayerInventory, hotbarSize, Times(inventorySize - hotbarSize), PlayerPanel)
    + if hasHotbar then Block(PlayerInventory, 0, Times(hotbarSize), HotbarPanel) else []
  }

  /** The indices, in layout order, that the entries show of one inventory. */
  function IndicesOf(entries: seq<SlotEntry>, owner: Owner): seq<int>
  {
    if entries == [] then []
    else (if entries[0].owner == owner then [entries[0].index] else []) + IndicesOf(entries[1..], owner)
  }

  /** `n` consecutive indices from `start`. */
  function Span(start: int, n: nat): (s: seq<int>)
    ensures |s| == n
  {
    if n == 0 then [] else Span(start, n - 1) + [start + n - 1]
  }

  /** A span holds each index in its range exactly once, and nothing else. */
  lemma {:induction false} SpanOnce(start: int, n: nat, x: int)
    ensures multiset(Span(start, n))[x] == if start <= x < start + n then 1 else 0
  {
    if n > 0 {
      var before, last := Span(start, n - 1), start + n - 1;
      SpanOnce(start, n - 1, x);
      assert multiset(Span(start, n))[x] == multiset(before)[x] + multiset([last])[x];
    }
  }

  /**
    The indices from `hotbarSize` up to `size`, followed by those below
    `hotbarSize`, show every index `0 .. size - 1` exactly once.
   */
  lemma UpperThenLower(size: int, hotbarSize: int, x: int)
    requires 0 <= hotbarSize <= size
    ensures multiset(Span(hotbarSize, Times(size - hotbarSize)) + Span(0, Times(hotbarSize)))[x]
      == if 0 <= x < size then 1 else 0
  {
    var upper, lower := Span(hotbarSize, Times(size - hotbarSize)), Span(0, Times(hotbarSize));
    assert multiset(upper + lower)[x] == multiset(upper)[x] + multiset(lower)[x];
    SpanOnce(hotbarSize, Times(size - hotbarSize), x);
    SpanOnce(0, Times(hotbarSize), x);
  }

  lemma {:induction false} IndicesOfAppend(a: seq<SlotEntry>, b: seq<SlotEntry>, owner: Owner)
    ensures IndicesOf(a + b, owner) == IndicesOf(a, owner) + IndicesOf(b, owner)
  {
    if a != [] {
      assert (a + b)[1..] == a[1..] + b;
      IndicesOfAppend(a[1..], b, owner);
    } else {
      assert a + b == b;
    }
  }

  /** A block shows the span of its own inventory and nothing of any other. */
  lemma {:induction false} IndicesOfBlock(owner: Owner, start: int, n: nat, panel: Panel, other: Owner)
    ensures IndicesOf(Block(owner, start, n, panel), other) == if owner == other then Span(start, n) else []
  {
    if n > 0 {
      var last := [SlotEntry(owner, start + n - 1, panel)];
      IndicesOfBlock(owner, start, n - 1, panel, other);
      IndicesOfAppend(Block(owner, start, n - 1, panel), last, other);
      assert IndicesOf(last, other) == if owner == other then [start + n - 1] else [] by {
        assert last[1..] == [];
      }
    }
  }

  /** What the player container shows of each inventory, in layout order. */
  lemma PlayerIndices(nSlots: int, hotbarSize: int, hasHotbar: bool, o: Owner)
    ensures IndicesOf(PlayerLayout(nSlots, hotbarSize, hasHotbar), o)
      == if o == PlayerInventory then
           Span(hotbarSize, Times(nSlots)) + (if hasHotbar then Span(0, Times(hotbarSize)) else [])
         else if o == ArmourInventory && hasHotbar then Span(0, 2)
         else []
  {
    var main := Block(PlayerInventory, hotbarSize, Times(nSlots), MainPanel);
    var hotbar := Block(PlayerInventory, 0, Times(hotbarSize), HotbarPanel);
    var armour := Block(ArmourInventory, 0, 2, ArmourPanel);
    var rest := if hasHotbar then hotbar + armour else [];
    IndicesOfAppend(main, rest, o);
    IndicesOfAppend(hotbar, armour, o);
    IndicesOfBlock(PlayerInventory, hotbarSize, Times(nSlots), MainPanel, o);
    IndicesOfBlock(PlayerInventory, 0, Times(hotbarSize), HotbarPanel, o);
    IndicesOfBlock(ArmourInventory, 0, 2, ArmourPanel, o);
  }

  /**
    With a hotbar and `nSlots = inventorySize - hotbarSize`, as the player
    passes it, the main and hotbar panels together show every player index
    `0 .. inventorySize - 1` exactly once and no other.
   */
  lemma PlayerCoversOnce(inventorySize: int, hotbarSize: int, x: int)
    requires 0 <= hotbarSize <= inventorySize
    ensures multiset(IndicesOf(PlayerLayout(inventorySize - hotbarSize, hotbarSize, true), PlayerInventory))[x]
      == if 0 <= x < inventorySize then 1 else 0
  {
    var upper, lower := Span(hotbarSize, Times(inventorySize - hotbarSize)), Span(0, Times(hotbarSize));
    assert IndicesOf(PlayerLayout(inventorySize - hotbarSize, hotbarSize, true), PlayerInventory) == upper + lower by {
      PlayerIndices(inventorySize - hotbarSize, hotbarSize, true, PlayerInventory);
    }
    UpperThenLower(inventorySize, hotbarSize, x);
  }

  /** The armour panel shows only indices 0 and 1, both inside the two-slot armour inventory. */
  lemma ArmourInBounds(nSlots: int, hotbarSize: int, hasHotbar: bool)
    ensures forall x :: x in IndicesOf(PlayerLayout(nSlots, hotbarSize, hasHotbar), ArmourInventory) ==> 0 <= x < 2
  {
    PlayerIndices(nSlots, hotbarSize, hasHotbar, ArmourInventory);
  }

  /**
    Without a hotbar only the main panel is built: a player index is shown
    exactly when it lies in `hotbarSize .. hotbarSize + nSlots - 1`, so those
    below the hotbar size appear nowhere.
   */
  lemma PlayerWithoutHotbar(nSlots: int, hotbarSize: int, x: int)
    ensures PlayerLayout(nSlots, hotbarSize, false) == Block(PlayerInventory, hotbarSize, Times(nSlots), MainPanel)
    ensures x in IndicesOf(PlayerLayout(nSlots, hotbarSize, false), PlayerInventory)
      <==> hotbarSize <= x < hotbarSize + nSlots
  {
    PlayerIndices(nSlots, hotbarSize, false, PlayerInventory);
    SpanOnce(hotbarSize, Times(nSlots), x);
  }

  /** Entries come panel by panel: main, then hotbar, then armour (with a hotbar). */
  lemma PlayerOrder(nSlots: int, hotbarSize: int, hasHotbar: bool)
    ensures var layout := PlayerLayout(nSlots, hotbarSize, hasHotbar);
      var n, h := Times(nSlots), Times(hotbarSize);
      && |layout| == n + (if hasHotbar then h + 2 else 0)
      && (forall i :: 0 <= i < n ==> layout[i] == SlotEntry(PlayerInventory, hotbarSize + i, MainPanel))
      && (hasHotbar ==> forall i :: 0 <= i < h ==> layout[n + i] == SlotEntry(PlayerInventory, i, HotbarPanel))
      && (hasHotbar ==>
            layout[n + h] == SlotEntry(ArmourInventory, 0, ArmourPanel)
            && layout[n + h + 1] == SlotEntry(ArmourInventory, 1, ArmourPanel))
  {
  }

  /** What the chest container shows of each inventory, in layout order. */
  lemma ChestIndices(nSlots: int, inventorySize: int, hotbarSize: int, hasHotbar: bool, o: Owner)
    ensures IndicesOf(ChestLayout(nSlots, inventorySize, hotbarSize, hasHotbar), o)
      == if o == ChestInventory then Span(0, Times(nSlots))
         else if o == PlayerInventory then
           Span(hotbarSize, Times(inventorySize - hotbarSize)) + (if hasHotbar then Span(0, Times(hotbarSize)) else [])
         else []
  {
    var chest := Block(ChestInventory, 0, Times(nSlots), MainPanel);
    var main := Block(PlayerInventory, hotbarSize, Times(inventorySize - hotbarSize), PlayerPanel);
    var hotbar := if hasHotbar then Block(PlayerInventory, 0, Times(hotbarSize), HotbarPanel) else [];
    IndicesOfAppend(chest + main, hotbar, o);
    IndicesOfAppend(chest, main, o);
    IndicesOfBlock(ChestInventory, 0, Times(nSlots), MainPanel, o);
    IndicesOfBlock(PlayerInventory, hotbarSize, Times(inventorySize - hotbarSize), PlayerPanel, o);
    IndicesOfBlock(PlayerInventory, 0, Times(hotbarSize), HotbarPanel, o);
  }

  /** Every chest slot is shown exactly once, and no other chest index. */
  lemma ChestCoversChest(nSlots: int, inventorySize: int, hotbarSize: int, hasHotbar: bool, x: int)
    ensures multiset(IndicesOf(ChestLayout(nSlots, inventorySize, hotbarSize, hasHotbar), ChestInventory))[x]
      == if 0 <= x < nSlots then 1 else 0
  {
    ChestIndices(nSlots, inventorySize, hotbarSize, hasHotbar, ChestInventory);
    SpanOnce(0, Times(nSlots), x);
  }

  /**
    With a hotbar and `hotbarSize <= inventorySize`, every player index
    `0 .. inventorySize - 1` is shown exactly once and no other.
   */
  lemma ChestCoversPlayer(nSlots: int, inventorySize: int, hotbarSize: int, x: int)
    requires 0 <= hotbarSize <= inventorySize
    ensures multiset(IndicesOf(ChestLayout(nSlots, inventorySize, hotbarSize, true), PlayerInventory))[x]
      == if 0 <= x < inventorySize then 1 else 0
  {
    var upper, lower := Span(hotbarSize, Times(inventorySize - hotbarSize)), Span(0, Times(hotbarSize));
    assert IndicesOf(ChestLayout(nSlots, inventorySize, hotbarSize, true), PlayerInventory) == upper + lower by {
      ChestIndices(nSlots, inventorySize, hotbarSize, true, PlayerInventory);
    }
    UpperThenLower(inventorySize, hotbarSize, x);
  }

  /**
    Without a hotbar the player panel shows exactly the indices from the hotbar
    size up to the inventory size, so those below the hotbar size appear
    nowhere; the chest panel shows exactly the chest's own indices.
   */
  lemma ChestWithoutHotbar(nSlots: int, inventorySize: int, hotbarSize: int, x: int)
    requires 0 <= hotbarSize <= inventorySize
    ensures var layout := ChestLayout(nSlots, inventorySize, hotbarSize, false);
      && (x in IndicesOf(layout, PlayerInventory) <==> hotbarSize <= x < inventorySize)
      && (x in IndicesOf(layout, ChestInventory) <==> 0 <= x < nSlots)
  {
    ChestIndices(nSlots, inventorySize, hotbarSize, false, PlayerInventory);
    ChestIndices(nSlots, inventorySize, hotbarSize, false, ChestInventory);
    SpanOnce(hotbarSize, Times(inventorySize - hotbarSize), x);
    SpanOnce(0, Times(nSlots), x);
  }

  /** Entries come panel by panel: chest, then player, then hotbar (with a hotbar). */
  lemma ChestOrder(nSlots: int, inventorySize: int, hotbarSize: int, hasHotbar: bool)
    ensures var layout := ChestLayout(nSlots, inventorySize, hotbarSize, hasHotbar);
      var n, m, h := Times(nSlots), Times(inventorySize - hotbarSize), Times(hotbarSize);
      && |layout| == n + m + (if hasHotbar then h else 0)
      && (forall i :: 0 <= i < n ==> layout[i] == SlotEntry(ChestInventory, i, MainPanel))
      && (forall i :: n <= i < n + m ==> layout[i] == SlotEntry(PlayerInventory, hotbarSize + (i - n), PlayerPanel))
      && (hasHotbar ==> forall i :: n + m <= i < n + m + h ==> layout[i] == SlotEntry(PlayerInventory, i - (n + m), HotbarPanel))
  {
  }

  /**
    One constructor loop, `for (i = 0; i < count; i++) AddSlot(inventory, start + i, panel)`:
    appends `count` entries (none for a negative count).
   */
  method AddSlots(entries: seq<SlotEntry>, owner: Owner, start: int, count: int, panel: Panel)
    returns (r: seq<SlotEntry>)
    ensures r == entries + Block(owner, start, Times(count), panel)
  {
    r := entries;
    var i := 0;
    while i < count
      invariant 0 <= i && (i <= count || i == 0)
      invariant r == entries + Block(owner, start, i, panel)
    {
      r := r + [SlotEntry(owner, start + i, panel)];
      i := i + 1;
    }
  }

  class PlayerContainer {
    var slots: seq<SlotEntry>

    /** `PlayerContainer(oInventory, oPlayerInventory, nSlots)` */
    constructor (nSlots: int, hotbarSize: int, hasHotbar: bool)
      ensures slots == PlayerLayout(nSlots, hotbarSize, hasHotbar)
    {
      var entries := AddSlots([], PlayerInventory, hotbarSize, nSlots, MainPanel);
      if hasHotbar {
        entries := AddSlots(entries, PlayerInventory, 0, hotbarSize, HotbarPanel);
        entries := AddSlots(entries, ArmourInventory, 0, 2, ArmourPanel);
      }
      slots := entries;
    }
  }

  class ChestContainer {
    var slots: seq<SlotEntry>

    /** `ChestContainer(oInventory, oPlayerInventory, nSlots)` */
    constructor (nSlots: int, inventorySize: int, hotbarSize: int, hasHotbar: bool)
      ensures slots == ChestLayout(nSlots, inventorySize, hotbarSize, hasHotbar)
    {
      var entries := AddSlots([], ChestInventory, 0, nSlots, MainPanel);
      entries := AddSlots(entries, PlayerInventory, hotbarSize, inventorySize - hotbarSize, PlayerPanel);
      if hasHotbar {
        entries := AddSlots(entries, PlayerInventory, 0, hotbarSize, HotbarPanel);
      }
      slots := entries;
    }
  }
}
