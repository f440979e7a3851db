/**
  `ChestSimple` (Assets/Scripts/Interactables/ChestSimple.cs): a chest that,
  when interacted with, hands its whole contents to the player. The sprite,
  the timer and the interaction base class are not part of this model; the two
  "item obtained" text widgets are kept as their enabled flags, and the first
  one's text.
 */
module Chests {
  import opened Stacks
  import opened Inventories
  import opened Loot

  class ChestSimple {
    const inventory: Inventory
    var text1Enabled: bool
    var text2Enabled: bool
    var text1: string

    /** `Awake`: a fresh chest inventory of the configured size. */
    constructor (inventorySize: int, text1: string)
      ensures fresh(inventory) && inventory.Valid()
      ensures |inventory.slots| == if inventorySize < 0 then 0 else inventorySize
      ensures !text1Enabled && !text2Enabled && this.text1 == text1
    {
      inventory := new Inventory(inventorySize);
      text1Enabled, text2Enabled := false, false;
      this.text1 := text1;
    }

    /**
      `GetChestContents`: every chest slot goes to the player's `AddItem` and
      is then emptied; leftovers are dropped. Both texts come on when some slot
      held something; otherwise the first text, if still off, is turned on
      reading "The chest is empty.".
     */
    method GetChestContents(player: Inventory)
      requires inventory != player
      requires inventory.Valid() && player.Valid()
      modifies this, inventory, player
      ensures inventory.Valid() && player.Valid()
      ensures inventory.slots == ClearAll(old(inventory.slots))
      ensures player.slots == TransferAll(old(inventory.slots), old(player.slots)).player
      ensures text1Enabled
      ensures text2Enabled == (old(text2Enabled) || AnyLoot(old(inventory.slots)))
      ensures text1 == if old(text1Enabled) || AnyLoot(old(inventory.slots)) then old(text1) else EmptyChestText
    {
      var found := TakeContents(inventory, player);
      if found {
        text1Enabled := true;
        text2Enabled := true;
      }
      if !text1Enabled {
        text1 := EmptyChestText;
        text1Enabled := true;
      }
    }
  }
}
