/**
  The gun's ammo bookkeeping and bullet pool (Assets/Scripts/Weapons/Gun.cs).
  The pool is the array of the pooled bullets' active flags; the player's
  inventory, which the game fetches from its inventory manager, is passed in.
 */
module Guns {
  import opened Wrappers
  import opened Stacks
  import opened InventorySpec
  import opened Inventories

  /** The lowest index of an inactive bullet, if any. */
  function FirstInactive(active: seq<bool>): (r: Option<nat>)
    ensures r.Some? ==>
      && r.value < |active| && !active[r.value]
      && forall j :: 0 <= j < r.value ==> active[j]
    ensures r.None? ==> forall j :: 0 <= j < |active| ==> active[j]
  {
    if active == [] then None
    else if !active[0] then Some(0)
    else match FirstInactive(active[1..])
      case None => None
      case Some(k) => Some(k + 1)
  }

  /** The pool after a successful or failed allocation. */
  function Activate(active: seq<bool>): seq<bool>
  {
    match FirstInactive(active)
    case Some(k) => active[k := true]
    case None => active
  }

  /**
    An allocation never deactivates a bullet and activates at most one, the
    lowest-index inactive one; a full pool is left as it is.
   */
  lemma ActivateOne(active: seq<bool>)
    ensures |Activate(active)| == |active|
    ensures forall j :: 0 <= j < |active| && active[j] ==> Activate(active)[j]
    ensures forall i, j ::
      (0 <= i < |active| && 0 <= j < |active| && !active[i] && Activate(active)[i]
       && !active[j] && Activate(active)[j]) ==> i == j
    ensures FirstInactive(active).None? <==> Activate(active) == active
  {
  }

  /** The first slot, in index order, holding a non-empty stack of the item titled `title`. */
  function FirstAmmoSlot(slots: seq<ItemStack>, title: string): (r: Option<nat>)
    ensures r.Some? ==>
      && r.value < |slots| && Holds(slots[r.value], title)
      && forall j :: 0 <= j < r.value ==> !Holds(slots[j], title)
    ensures r.None? ==> forall j :: 0 <= j < |slots| ==> !Holds(slots[j], title)
  {
    if slots == [] then None
    else if Holds(slots[0], title) then Some(0)
    else match FirstAmmoSlot(slots[1..], title)
      case None => None
      case Some(k) => Some(k + 1)
  }

  /** A slot `UpdateCurrentAmmo` draws from: ammo, in the slot whose id is the current ammo stack. */
  predicate Drawn(s: ItemStack, title: string, stackId: int)
  {
    Holds(s, title) && s.slotId == stackId
  }

  /** The slots after `UpdateCurrentAmmo(n)`: each drawn slot loses `n`, every other slot is kept. */
  function UseAmmo(slots: seq<ItemStack>, title: string, stackId: int, n: int): seq<ItemStack>
  {
    seq(|slots|, j requires 0 <= j < |slots| =>
      if Drawn(slots[j], title, stackId) then DecreaseStack(slots[j], n) else slots[j])
  }

  /** The gun's current ammo after `UpdateCurrentAmmo(n)` scans `slots`, starting from `current`. */
  function AmmoScan(slots: seq<ItemStack>, title: string, stackId: int, n: int, current: int): int
  {
    if slots == [] then current
    else
      AmmoScan(slots[1..], title, stackId, n,
               if Drawn(slots[0], title, stackId) then slots[0].count - n else current)
  }

  /** With no drawn slot, the scan leaves the current ammo as it was. */
  lemma {:induction false} AmmoScanNone(slots: seq<ItemStack>, title: string, stackId: int, n: int, current: int)
    requires forall j :: 0 <= j < |slots| ==> !Drawn(slots[j], title, stackId)
    ensures AmmoScan(slots, title, stackId, n, current) == current
  {
    if slots != [] {
      AmmoScanNone(slots[1..], title, stackId, n, current);
    }
  }

  /** With exactly one drawn slot, the current ammo ends as that slot's new count. */
  lemma {:induction false} AmmoScanOne(slots: seq<ItemStack>, p: nat, title: string, stackId: int, n: int, current: int)
    requires p < |slots| && Drawn(slots[p], title, stackId)
    requires forall j :: 0 <= j < |slots| && j != p ==> !Drawn(slots[j], title, stackId)
    ensures AmmoScan(slots, title, stackId, n, current) == slots[p].count - n
  {
    if p == 0 {
      AmmoScanNone(slots[1..], title, stackId, n, slots[0].count - n);
    } else {
      AmmoScanOne(slots[1..], p - 1, title, stackId, n, current);
    }
  }

  /**
    In an inventory whose slot `k` has id `k`, drawing from the first ammo
    slot's id decrements that slot alone, by exactly `n`, and leaves the gun's
    current ammo at that slot's new count.
   */
  lemma UseFirstAmmo(slots: seq<ItemStack>, title: string, n: int, current: int)
    requires forall k :: 0 <= k < |slots| ==> slots[k].slotId == k
    requires FirstAmmoSlot(slots, title).Some?
    ensures var p := FirstAmmoSlot(slots, title).value;
      && UseAmmo(slots, title, p, n) == slots[p := DecreaseStack(slots[p], n)]
      && AmmoScan(slots, title, p, n, current) == slots[p].count - n
  {
    var p := FirstAmmoSlot(slots, title).value;
    AmmoScanOne(slots, p, title, p, n, current);
  }

  /** With no ammo stack (id -1) and non-negative slot ids, `UpdateCurrentAmmo` changes nothing. */
  lemma NoAmmoStackNoChange(slots: seq<ItemStack>, title: string, n: int, current: int)
    requires forall k :: 0 <= k < |slots| ==> slots[k].slotId >= 0
    ensures UseAmmo(slots, title, -1, n) == slots
    ensures AmmoScan(slots, title, -1, n, current) == current
  {
    AmmoScanNone(slots, title, -1, n, current);
  }

  class Gun {
    /** The ammo item this gun needs. */
    const ammo: Item
    /** How much ammo one shot uses. */
    const ammoUsage: int
    /** The active flag of each pooled bullet. */
    const pool: array<bool>
    var currentAmmo: int
    /** The slot id of the ammo stack in use, or -1 for none. */
    var currentAmmoStack: int

    /** The field initialisers and `Awake`: every pooled bullet starts inactive. */
    constructor (ammo: Item, ammoUsage: int, poolSize: nat)
      ensures this.ammo == ammo && this.ammoUsage == ammoUsage
      ensures fresh(pool) && pool.Length == poolSize
      ensures forall i :: 0 <= i < poolSize ==> !pool[i]
      ensures currentAmmo == 0 && currentAmmoStack == -1
    {
      this.ammo := ammo;
      this.ammoUsage := ammoUsage;
      currentAmmo := 0;
      currentAmmoStack := -1;
      var bullets := new bool[poolSize];
      for i := 0 to poolSize
        invariant forall j :: 0 <= j < i ==> !bullets[j]
      {
        bullets[i] := false;
      }
      pool := bullets;
    }

    /** `Allocate`: activates and returns the lowest-index inactive bullet, or `None` (null). */
    method Allocate() returns (bullet: Option<nat>)
      modifies pool
      ensures bullet == FirstInactive(old(pool[..]))
      ensures pool[..] == Activate(old(pool[..]))
    {
      for i := 0 to pool.Length
        invariant pool[..] == old(pool[..])
        invariant forall j :: 0 <= j < i ==> pool[j]
      {
        if !pool[i] {
          pool[i] := true;
          return Some(i);
        }
      }
      return None;
    }

    /**
      `CheckCurrentAmmo`: the first non-empty stack of the ammo item gives the
      current ammo stack (its slot id) and the current ammo (its count); with
      none, the ammo is 0 and the stack -1.
     */
    method CheckCurrentAmmo(inv: Inventory)
      modifies this
      ensures match FirstAmmoSlot(inv.slots, ammo.title)
        case Some(k) => currentAmmoStack == inv.slots[k].slotId && currentAmmo == inv.slots[k].count
        case None => currentAmmoStack == -1 && currentAmmo == 0
    {
      var hasAmmo := false;
      var i := 0;
      while i < |inv.slots|
        invariant 0 <= i <= |inv.slots|
        invariant !hasAmmo
        invariant forall j :: 0 <= j < i ==> !Holds(inv.slots[j], ammo.title)
      {
        var s := inv.GetStackInSlot(i);
        if !IsStackEmpty(s) && s.item.Some? {
          if s.item.value.title == ammo.title {
            currentAmmoStack := s.slotId;
            currentAmmo := s.count;
            hasAmmo := true;
            break;
          }
        }
        hasAmmo := false;
        i := i + 1;
      }
      if !hasAmmo {
        currentAmmo := 0;
        currentAmmoStack := -1;
      }
    }

    /**
      `UpdateCurrentAmmo(nAmount)`: every non-empty ammo stack whose slot id is
      the current ammo stack loses `amount`, and the current ammo follows its
      new count; every other slot is left alone.
     */
    method UpdateCurrentAmmo(inv: Inventory, amount: int)
      modifies this, inv
      ensures currentAmmoStack == old(currentAmmoStack)
      ensures inv.slots == UseAmmo(old(inv.slots), ammo.title, currentAmmoStack, amount)
      ensures currentAmmo == AmmoScan(old(inv.slots), ammo.title, currentAmmoStack, amount, old(currentAmmo))
    {
      ghost var before := inv.slots;
      var i := 0;
      while i < |inv.slots|
        invariant 0 <= i <= |inv.slots| == |before|
        invariant currentAmmoStack == old(currentAmmoStack)
        invariant forall j :: 0 <= j < i ==> inv.slots[j] == UseAmmo(before, ammo.title, currentAmmoStack, amount)[j]
        invariant forall j :: i <= j < |inv.slots| ==> inv.slots[j] == before[j]
        invariant AmmoScan(before[i..], ammo.title, currentAmmoStack, amount, currentAmmo)
          == AmmoScan(before, ammo.title, currentAmmoStack, amount, old(currentAmmo))
      {
        assert before[i..][1..] == before[i + 1..];
        var s := inv.GetStackInSlot(i);
        if !IsStackEmpty(s) && s.item.Some? {
          if s.item.value.title == ammo.title {
            if s.slotId == currentAmmoStack {
              inv.slots := inv.slots[i := DecreaseStack(s, amount)];
              currentAmmo := inv.slots[i].count;
            }
          }
        }
        i := i + 1;
      }
      assert inv.slots == UseAmmo(before, ammo.title, currentAmmoStack, amount);
    }

    /**
      The firing gate of `Update`, with the inventory-open state and the fire
      button as inputs: the ammo is refreshed; a bullet is allocated only when
      the inventory is closed, fire is pressed and there is at least one round;
      and only when the allocation succeeds is the ammo stack drawn down by the
      ammo usage. Returns the bullet fired, if any.
     */
    method Update(inventoryOpen: bool, firePressed: bool, inv: Inventory) returns (shot: Option<nat>)
      requires inv.Valid()
      modifies this, pool, inv
      ensures inv.Valid()
      ensures var found := FirstAmmoSlot(old(inv.slots), ammo.title);
        var loaded := if found.Some? then old(inv.slots)[found.value].count else 0;
        var tries := !inventoryOpen && firePressed && loaded >= 1;
        && shot == (if tries then FirstInactive(old(pool[..])) else None)
        && pool[..] == (if tries then Activate(old(pool[..])) else old(pool[..]))
        && currentAmmoStack == (if found.Some? then found.value else -1)
        && inv.slots == (if shot.Some?
                         then old(inv.slots)[found.value := DecreaseStack(old(inv.slots)[found.value], ammoUsage)]
                         else old(inv.slots))
        && currentAmmo == (if shot.Some? then loaded - ammoUsage else loaded)
    {
      CheckCurrentAmmo(inv);
      shot := None;
      if !inventoryOpen {
        if firePressed && currentAmmo >= 1 {
          var bullet := Allocate();
          if bullet.Some? {
            UseFirstAmmo(inv.slots, ammo.title, ammoUsage, currentAmmo);
            UpdateCurrentAmmo(inv, ammoUsage);
            shot := bullet;
          }
        }
      }
    }
  }
}
