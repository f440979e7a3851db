/**
  `Enemy` (Assets/Scripts/Enemy/Enemy.cs) as a source of loot: when
  interacted with it hands its whole inventory to the player. Health, the
  timer, the collider and the sprite are not part of this model; the "item
  obtained" text widget is kept as its enabled flag and its text.
 */
module Enemies {
  import opened Stacks
  import opened Inventories
  import opened Loot

  class Enemy {
    const inventory: Inventory
    var textEnabled: bool
    var text: string

    /** `Awake`: a fresh loot inventory of the configured size. */
    constructor (inventorySize: int, text: string)
      ensures fresh(inventory) && inventory.Valid()
      ensures |inventory.slots| == if inventorySize < 0 then 0 else inventorySize
      ensures !textEnabled && this.text == text
    {
      inventory := new Inventory(inventorySize);
      textEnabled := false;
      this.text := text;
    }

    /**
      `GetChestContents`: every loot slot goes to the player's `AddItem` and is
      then emptied; leftovers are dropped. The text comes on when some slot held
      something; otherwise, if still off, it is turned on reading
      "The chest is empty.".
     */
    method GetChestContents(player: Inventory)
      requires inventory != player
      requires inventory.Valid() && player.Valid()
      modifies this, inventory, player
      ensures inventory.Valid() && player.Valid()
      ensures inventory.slots == ClearAll(old(inventory.slots))
      ensures player.slots == TransferAll(old(inventory.slots), old(player.slots)).player
      ensures textEnabled
      ensures text == if old(textEnabled) || AnyLoot(old(inventory.slots)) then old(text) else EmptyChestText
    {
      var found := TakeContents(inventory, player);
      if found {
        textEnabled := true;
      }
      if !textEnabled {
        text := EmptyChestText;
        textEnabled := true;
      }
    }
  }
}
