# Slot inventory, ammo bookkeeping and loot transfer — a Dafny model

This project models the slot-based inventory of a small Unity game, along with the game code that reads and changes it:

- **`Inventory`**: a fixed-length list of item stacks. Slot `i` is created with slot id `i`. Its operations are:
  - `AddItem`, which applies the stacking rules;
  - a lookup by index and a lookup by slot id;
  - `GetInventory`.
- **`Gun`**: the ammo bookkeeping (`CheckCurrentAmmo`, `UpdateCurrentAmmo`), the bullet pool (`Allocate`) and the firing gate in `Update`.
- **`ChestSimple` and `Enemy`**: `GetChestContents` offers every loot slot, in order, to the player's `AddItem`, then empties the slot. Leftovers are dropped, and the "item obtained" text reports whether anything was found.
- **`PlayerContainer` and `ChestContainer`**: the constructors decide which inventory index each UI slot shows.

Each imperative routine is a Dafny method over a class. The method is proved against a specification function on sequences, and the game's promises are proved about that function as lemmas:

| File | Contents |
|---|---|
| `wrappers.dfy` | the `Option` type |
| `stacks.dfy` | `Item` and `ItemStack` values, the stack operations `Inventory` calls, and item totals |
| `inventory_spec.dfy` | `AddFrom`, the stacking rules as a function, with conservation, success, bound and locality lemmas |
| `inventory.dfy` | class `Inventory` |
| `gun.dfy` | class `Gun`, with `FirstInactive`, `FirstAmmoSlot`, `UseAmmo` and `AmmoScan` |
| `loot.dfy` | `TransferAll` and `ClearAll`, plus the shared transfer loop `TakeContents` |
| `chest_simple.dfy`, `enemy.dfy` | the two `GetChestContents` |
| `containers.dfy` | the two container layouts, with coverage and order lemmas |

Some game classes are not part of this model: `ItemStack`, `Item`, `Container` and `InventoryManager`. Their operations get only the meaning their call sites rely on, stated in `stacks.dfy` and `containers.dfy`:

- `SetStack` copies the item and the count, and the slot keeps its own id.
- `AreItemsEqual` compares titles of two present items.
- `IsItemAddable(n)` is assumed to mean `count + n <= maxStackSize` of the slot's item.
- `IsStackEmpty` means no item or a zero count.
- `Container.AddSlot` appends one (inventory, index, panel) entry.

Because `SetStack` keeps slot ids, every `Inventory` operation preserves `Inventory.Valid()`, which says slot `k` has id `k`.

`AddItem` handles overflow this way. When a same-item slot lacks room, the slot is filled to its maximum and the argument keeps the overflow. The scan then **goes on in the same call** (`Inventory.cs:76-88` has no `return`), so the overflow can land in a later empty or same-item slot straight away. `InventorySpec.OverflowContinuesInSameCall` works this through on two slots.

## Model

| member | source | states |
|---|---|---|
| Inventories.Inventory.constructor | Assets/Scripts/Inventory/Inventory.cs:29-37 | `nSize` slots (none for a negative size); slot `k` is the empty stack with id `k` |
| Inventories.Inventory.AddItem | Assets/Scripts/Inventory/Inventory.cs:48-93 | the result, the new slots and the argument's new state are exactly `AddFrom(old slots, 0, stack)`; slot ids stay valid |
| Inventories.Inventory.GetStackInSlot | Assets/Scripts/Inventory/Inventory.cs:104-108 | returns the element at that index, whose slot id is the index |
| Inventories.Inventory.GetStackInSlotOf | Assets/Scripts/Inventory/Inventory.cs:119-133 | the first slot in index order whose id equals the argument's id; `None` (null) exactly when no slot has that id; in a valid inventory the slot at that index |
| InventorySpec.AddFrom | Assets/Scripts/Inventory/Inventory.cs:48-93 | the number of slots, their order and their ids never change; slots before the resume point are untouched; the argument keeps its item and id |
| InventorySpec.AddLandsAt | Assets/Scripts/Inventory/Inventory.cs:51-74 | when every slot before `j` holds another item or the same item already at its maximum, and slot `j` is empty or holds the same item with room for the whole count, the call returns true; slot `j` takes the stack or grows by exactly its count; no other slot changes; the argument is untouched |
| InventorySpec.AddTouches | Assets/Scripts/Inventory/Inventory.cs:51-88 | a slot that changes either held the same item and is now exactly at its maximum (overflow, line 83) or grew by exactly what was left of the argument (line 70), or is the first empty slot, now holding what was left of the argument (line 57) |
| InventorySpec.AddFailsFull | Assets/Scripts/Inventory/Inventory.cs:76-92 | when the call returns false, no slot was empty and every same-item slot has been filled to its maximum |
| InventorySpec.AddSucceedsIff | Assets/Scripts/Inventory/Inventory.cs:51-92 | the call returns true if and only if some slot is empty, or the same-item slots together have room for the whole count |
| InventorySpec.AddConserves | Assets/Scripts/Inventory/Inventory.cs:51-88 | for every item, the slots' gain plus what the argument still holds on failure equals what the argument brought |
| InventorySpec.AddKeepsBound | Assets/Scripts/Inventory/Inventory.cs:76-88 | if every slot and the argument are within their max stack size, so are the new slots and the leftover |
| InventorySpec.RoomNonNegative | Assets/Scripts/Inventory/Inventory.cs:67 | well-formed same-item slots never have negative spare room |
| InventorySpec.OverflowContinuesInSameCall | Assets/Scripts/Inventory/Inventory.cs:76-89 | with max 64, adding 50 and then 20 to two empty slots leaves 64 and 6: the overflow is placed in the same call |
| InventorySpec.HasEmpty | Assets/Scripts/Inventory/Inventory.cs:54 | true exactly when some slot is empty |
| InventorySpec.HasMatch | Assets/Scripts/Inventory/Inventory.cs:64 | true exactly when some slot holds the named item |
| Stacks.TotalUpdate | Assets/Scripts/Inventory/Inventory.cs:54-86 | replacing one slot changes an item's total by exactly the difference of the two stacks |
| Stacks.TotalAppend | Assets/Scripts/Interactables/ChestSimple.cs:135-150 | item totals add up over concatenated stack lists |
| Guns.FirstInactive | Assets/Scripts/Weapons/Gun.cs:143-157 | the lowest index whose bullet is inactive, every earlier bullet being active; `None` exactly when all are active |
| Guns.ActivateOne | Assets/Scripts/Weapons/Gun.cs:143-153 | an allocation never deactivates a bullet, activates at most one, and changes nothing exactly when the pool is full |
| Guns.Gun.Allocate | Assets/Scripts/Weapons/Gun.cs:140-158 | returns `FirstInactive` of the pool and activates exactly that bullet; returns null on a full pool |
| Guns.Gun.constructor | Assets/Scripts/Weapons/Gun.cs:61-88 | every pooled bullet starts inactive; current ammo 0 and ammo stack -1 |
| Guns.FirstAmmoSlot | Assets/Scripts/Weapons/Gun.cs:173-192 | the first slot in index order holding a non-empty stack of the ammo item, every earlier slot not; `None` exactly when there is none |
| Guns.Gun.CheckCurrentAmmo | Assets/Scripts/Weapons/Gun.cs:164-206 | the ammo stack becomes the first ammo slot's id and the current ammo its count; with none, 0 and -1 (the reset never cancels a found match) |
| Guns.Gun.UpdateCurrentAmmo | Assets/Scripts/Weapons/Gun.cs:214-239 | only non-empty ammo slots whose id is the current ammo stack lose `nAmount`; every other slot is unchanged; the current ammo follows the last such slot's new count |
| Guns.AmmoScanNone | Assets/Scripts/Weapons/Gun.cs:229-235 | with no matching slot, the current ammo is left as it was |
| Guns.AmmoScanOne | Assets/Scripts/Weapons/Gun.cs:229-235 | with exactly one matching slot, the current ammo ends as that slot's new count |
| Guns.UseFirstAmmo | Assets/Scripts/Weapons/Gun.cs:173-239 | after `CheckCurrentAmmo`, in a valid inventory, `UpdateCurrentAmmo(n)` lowers that one slot by exactly `n`, and the current ammo is its new count |
| Guns.NoAmmoStackNoChange | Assets/Scripts/Weapons/Gun.cs:229-235 | with ammo stack -1 and non-negative slot ids, no slot and not the current ammo changes |
| Guns.Gun.Update | Assets/Scripts/Weapons/Gun.cs:105-132 | a bullet is allocated only with the inventory closed, fire pressed and at least one round; a shot happens only when allocation succeeds; only then does the first ammo slot lose the ammo usage |
| Loot.TransferAll | Assets/Scripts/Interactables/ChestSimple.cs:135-150 | the player's slot count and slot ids never change; at most one leftover per loot slot |
| Loot.TransferConserves | Assets/Scripts/Interactables/ChestSimple.cs:146 | for every item, what the player ends with plus what was dropped equals what the player and the loot held |
| Loot.TransferKeepsBound | Assets/Scripts/Interactables/ChestSimple.cs:146 | well-formed loot keeps the player's stacks within their max stack size |
| Loot.ClearAllEmpties | Assets/Scripts/Interactables/ChestSimple.cs:149 | every loot slot ends empty with its slot id kept; the slot count is unchanged; clearing again changes nothing |
| Loot.TransferNothingDropsNothing | Assets/Scripts/Interactables/ChestSimple.cs:146 | offering item-less stacks drops nothing that holds an item |
| Loot.TotalOfItemless | Assets/Scripts/Interactables/ChestSimple.cs:149 | cleared stacks count for nothing of any item |
| Loot.SecondCollection | Assets/Scripts/Interactables/ChestSimple.cs:135-150 | a second collection finds nothing, leaves the loot as it is, and gives the player nothing |
| Loot.TakeSlot | Assets/Scripts/Interactables/ChestSimple.cs:137-149 | one loop pass: the slot, found again by its slot id, goes to the player's `AddItem` (the player's slots become `AddFrom` of it), and is then emptied; reports whether it held something |
| Loot.TakeContents | Assets/Scripts/Interactables/ChestSimple.cs:135-150 | every loot slot, resolved by slot id, goes to `AddItem` in index order and is then cleared; the player ends with `TransferAll`; reports whether any slot was non-empty |
| Chests.ChestSimple.constructor | Assets/Scripts/Interactables/ChestSimple.cs:74-81 | a fresh, valid chest inventory of the configured size; texts off |
| Chests.ChestSimple.GetChestContents | Assets/Scripts/Interactables/ChestSimple.cs:132-158 | the chest is cleared and the player gets `TransferAll`; both texts come on if anything was found; otherwise text 1, if off, comes on reading "The chest is empty." |
| Enemies.Enemy.constructor | Assets/Scripts/Enemy/Enemy.cs:75-85 | a fresh, valid loot inventory of the configured size; text off |
| Enemies.Enemy.GetChestContents | Assets/Scripts/Enemy/Enemy.cs:148-174 | the loot is cleared and the player gets `TransferAll`; the text comes on if anything was found; otherwise, if off, it comes on reading "The chest is empty." |
| Containers.Block | Assets/Scripts/Inventory/Containers/PlayerContainer.cs:29-33 | entry `i` of a constructor loop shows index `start + i` of its inventory in its panel |
| Containers.SpanOnce | Assets/Scripts/Inventory/Containers/ChestContainer.cs:29-33 | a consecutive run shows each index in its range exactly once and nothing else |
| Containers.IndicesOfBlock | Assets/Scripts/Inventory/Containers/PlayerContainer.cs:29-50 | a loop's entries show a consecutive run of their own inventory's indices and nothing of any other |
| Containers.AddSlots | Assets/Scripts/Inventory/Containers/PlayerContainer.cs:29-33 | one constructor loop appends `count` entries for indices `start ..`, none for a negative count |
| Containers.PlayerContainer.constructor | Assets/Scripts/Inventory/Containers/PlayerContainer.cs:26-60 | the slots built are exactly `PlayerLayout`: main, then hotbar and armour only with a hotbar |
| Containers.PlayerIndices | Assets/Scripts/Inventory/Containers/PlayerContainer.cs:29-50 | the main panel shows player indices `hotbarSize + i`; with a hotbar, the hotbar shows `0 .. hotbarSize-1` and the armour panel shows armour indices 0 and 1 |
| Containers.UpperThenLower | Assets/Scripts/Inventory/Containers/PlayerContainer.cs:29-43 | the indices from the hotbar size up, followed by those below it, show every index below the inventory size exactly once |
| Containers.PlayerCoversOnce | Assets/Scripts/Inventory/Containers/PlayerContainer.cs:29-43 | with `nSlots = inventorySize - hotbarSize`, as passed at Assets/Scripts/Player/Player.cs:400, every player index is shown exactly once and no other |
| Containers.ArmourInBounds | Assets/Scripts/Inventory/Containers/PlayerContainer.cs:46-50 | the armour panel shows only indices 0 and 1, inside the two-slot armour inventory built at Assets/Scripts/Player/Player.cs:156 |
| Containers.PlayerWithoutHotbar | Assets/Scripts/Inventory/Containers/PlayerContainer.cs:29-33 | without a hotbar only the main panel is built; a player index is shown exactly when it lies in `hotbarSize .. hotbarSize + nSlots - 1`, so those below the hotbar size are shown nowhere |
| Containers.PlayerOrder | Assets/Scripts/Inventory/Containers/PlayerContainer.cs:29-50 | entries come main, then hotbar, then armour, each with its index |
| Containers.ChestContainer.constructor | Assets/Scripts/Inventory/Containers/ChestContainer.cs:26-59 | the slots built are exactly `ChestLayout`: chest, player main, then hotbar only with a hotbar |
| Containers.ChestIndices | Assets/Scripts/Inventory/Containers/ChestContainer.cs:29-51 | the chest panel shows chest indices `0 .. nSlots-1`; the player panel shows `hotbarSize .. inventorySize-1`; with a hotbar, the hotbar shows `0 .. hotbarSize-1` |
| Containers.ChestCoversChest | Assets/Scripts/Inventory/Containers/ChestContainer.cs:29-33 | each chest slot is shown exactly once when the chest's own size is passed, as at Assets/Scripts/Interactables/Chest.cs:107 |
| Containers.ChestCoversPlayer | Assets/Scripts/Inventory/Containers/ChestContainer.cs:36-51 | with a hotbar and `hotbarSize <= inventorySize`, every player index is shown exactly once and no other |
| Containers.ChestWithoutHotbar | Assets/Scripts/Inventory/Containers/ChestContainer.cs:36-58 | without a hotbar, a player index is shown exactly when it lies in `hotbarSize .. inventorySize-1`, and a chest index exactly when it lies in `0 .. nSlots-1` |
| Containers.ChestOrder | Assets/Scripts/Inventory/Containers/ChestContainer.cs:29-51 | entries come chest, then player main, then hotbar, each with its index |

## Left out

- `ItemStack` and `Item` are not part of this model. Their operations have the meanings listed above, and `IsItemAddable(n)` is an assumption: `count + n <= maxStackSize`.
- Integer width: counts and indices are unbounded integers. The 32-bit overflow of `int` in the game is not modelled.
- `DecreaseStack` is assumed to subtract without clamping and to keep the item. A count can therefore go negative when the ammo usage exceeds the stack.
- References to `ItemStack` objects are modelled as values:
  - `AddItem`'s change to its argument is its `rest` result.
  - `GetStackInSlot(ItemStack)` returns the slot's index (`None` for null), not an alias to the slot.
- `GetInventory` is the field `Inventory.slots`, read directly.
- Inventories.Inventory.GetStackInSlot: the game throws on an index out of range; the model requires a valid index instead.
- Guns.Gun.Update requires a valid player inventory. Every inventory the game builds is valid, and the ammo stack is a slot id, so the statement about which slot is drawn needs it.
- Guns.Gun.Update: the inventory-open state and the mouse button are parameters. Bullets that deactivate themselves between frames are outside the model; `Update` sees the pool as it is.
- `InventoryManager` is replaced by parameters: the player inventory, the hotbar size and the has-hotbar switch.
- Hotbar UI refresh (`UpdateSlots`), bullet transforms, `Instantiate`, sprites, timers, health and text widgets other than their enabled flags and text are engine calls. They are left out.
- The demo loops that seed inventories at start-up are not modelled, except as repeated `AddItem` calls.
- The `Player`, `Chest` and `EnemyComplex` behaviour outside the calls cited above (movement, aiming, opening containers) is not part of this model.
