/** Health pickups (`Item`) and the `ItemSpawner` that drops them inside the
    arena on a fixed cadence, up to a fixed number at a time. */
module Pickups {
  import opened Numeric
  import opened Geometry
  import opened Placement
  import opened Target

  const ItemSize: int := 50
  const HealPercent: real := 0.05

  datatype Item = Item(rect: Rect, destroyed: bool, healPercent: real)

  function NewItem(x: int, y: int): (i: Item)
    ensures !i.destroyed && i.healPercent == HealPercent
    ensures i.rect == Rect(x, y, ItemSize, ItemSize)
  {
    Item(Rect(x, y, ItemSize, ItemSize), false, HealPercent)
  }

  /** The health a pickup restores: its share of the package's maximum,
      truncated to a whole number. */
  function HealAmount(i: Item, pack: Package): int
  {
    Trunc(pack.maxHp as real * i.healPercent)
  }

  /** `Item.on_click`: a live item heals the package by its share of the
      maximum, never past the maximum, and is used up; a used item does
      nothing. */
  function OnClick(i: Item, pack: Package): (r: (Item, Package))
    ensures r.0.destroyed
    ensures i.destroyed ==> r == (i, pack)
    ensures !i.destroyed ==> r.0 == i.(destroyed := true)
    ensures !i.destroyed ==> r.1 == pack.(hp := r.1.hp)
    ensures !i.destroyed ==> r.1.hp <= pack.maxHp as real
    ensures !i.destroyed ==> (r.1.hp == pack.hp + HealAmount(i, pack) as real || r.1.hp == pack.maxHp as real)
    ensures !i.destroyed ==> r.1.hp <= pack.hp + HealAmount(i, pack) as real
  {
    if i.destroyed then (i, pack)
    else
      var healed := pack.hp + HealAmount(i, pack) as real;
      (i.(destroyed := true), pack.(hp := if healed < pack.maxHp as real then healed else pack.maxHp as real))
  }

  /** A pickup heals at most once: clicking it again changes nothing. */
  lemma OnClickOnce(i: Item, pack: Package, other: Package)
    ensures var r := OnClick(i, pack); OnClick(r.0, other) == (r.0, other)
  {
  }

  /** A pickup never lowers the health of a package that is not over its
      maximum, and keeps it within the maximum. */
  lemma OnClickHeals(i: Item, pack: Package)
    requires 0.0 <= i.healPercent && 0 <= pack.maxHp
    requires pack.hp <= pack.maxHp as real
    ensures pack.hp <= OnClick(i, pack).1.hp <= pack.maxHp as real
  {
    assert 0.0 <= pack.maxHp as real * i.healPercent;
  }

  /** Scenario: a fresh pickup on a package at 50 of 100 health heals 5. */
  lemma OnClickHealsFivePercent(pack: Package)
    requires pack.maxHp == 100 && pack.hp == 50.0
    ensures OnClick(NewItem(0, 0), pack).1.hp == 55.0
  {
    assert 100.0 * HealPercent == 5 as real;
    TruncOfWhole(5);
  }

  datatype ItemSpawner = ItemSpawner(timer: real, interval: real, maxItems: int, items: seq<Item>)

  const NewItemSpawner: ItemSpawner := ItemSpawner(0.0, 2.0, 5, [])

  /** The arena leaves room for `spawn_item`'s two `randint` ranges. */
  predicate HasRoom(arena: Rect)
  {
    arena.Left() + 10 <= arena.Right() - ItemSize && arena.Top() + 10 <= arena.Bottom() - ItemSize
  }

  /** `spawn_item`: a fresh pickup at a random place at least 10 pixels in
      from the left and top edges and wholly inside the arena. */
  function SpawnItem(s: ItemSpawner, arena: Rect, dx: nat, dy: nat): (s': ItemSpawner)
    requires HasRoom(arena)
    ensures |s'.items| == |s.items| + 1 && s'.items[..|s.items|] == s.items
    ensures var i := s'.items[|s.items|];
            && !i.destroyed && i.healPercent == HealPercent
            && i.rect.w == ItemSize && i.rect.h == ItemSize
            && arena.Left() + 10 <= i.rect.x && arena.Top() + 10 <= i.rect.y
            && arena.Contains(i.rect)
    ensures s' == s.(items := s'.items)
  {
    var x := RandInt(arena.Left() + 10, arena.Right() - ItemSize, dx);
    var y := RandInt(arena.Top() + 10, arena.Bottom() - ItemSize, dy);
    s.(items := s.items + [NewItem(x, y)])
  }

  /** Every allowed position is a possible drop. */
  lemma SpawnItemCoversRange(s: ItemSpawner, arena: Rect, x: int, y: int)
    requires HasRoom(arena)
    requires arena.Left() + 10 <= x <= arena.Right() - ItemSize
    requires arena.Top() + 10 <= y <= arena.Bottom() - ItemSize
    ensures SpawnItem(s, arena, (x - arena.Left() - 10) as nat, (y - arena.Top() - 10) as nat).items[|s.items|]
         == NewItem(x, y)
  {
    RandIntCoversRange(arena.Left() + 10, arena.Right() - ItemSize, x);
    RandIntCoversRange(arena.Top() + 10, arena.Bottom() - ItemSize, y);
  }

  /** The spawn rule of `ItemSpawner.update`. */
  predicate Spawns(s: ItemSpawner, dt: real)
  {
    s.timer + dt >= s.interval && |s.items| < s.maxItems
  }

  /** `ItemSpawner.update(dt)`: exactly one pickup is added when the timer
      runs out while there are fewer than the maximum; the timer restarts
      whenever it runs out. Cadence and cap never change. */
  function Update(s: ItemSpawner, arena: Rect, dt: real, dx: nat, dy: nat): (s': ItemSpawner)
    requires Spawns(s, dt) ==> HasRoom(arena)
    ensures |s'.items| == |s.items| + (if Spawns(s, dt) then 1 else 0)
    ensures s'.items[..|s.items|] == s.items
    ensures s'.timer == (if s.timer + dt >= s.interval then 0.0 else s.timer + dt)
    ensures s'.interval == s.interval && s'.maxItems == s.maxItems
  {
    var t := s.timer + dt;
    if t >= s.interval then
      var s0 := s.(timer := 0.0);
      if |s.items| < s.maxItems then SpawnItem(s0, arena, dx, dy) else s0
    else s.(timer := t)
  }

  /** The pickup count never exceeds the maximum once it is within it. */
  lemma UpdateKeepsCap(s: ItemSpawner, arena: Rect, dt: real, dx: nat, dy: nat)
    requires Spawns(s, dt) ==> HasRoom(arena)
    requires |s.items| <= s.maxItems
    ensures |Update(s, arena, dt, dx, dy).items| <= Update(s, arena, dt, dx, dy).maxItems
  {
  }
}
