/** One frame of `Game.run`, from the difficulty update to the
    package-destroyed check: the shooter's input, the pickups under the
    click, enemy spawning, each enemy's behaviour, its bullets against the
    package, the click against the enemy, and the bounty for each kill. */
module Frame {
  import opened Numeric
  import opened Geometry
  import Difficulty
  import Shooter
  import opened Target
  import opened Enemies
  import Placement
  import Spawning
  import Pickups

  // ---- Bullets against the package ----

  /** `Bullet.update`: one step along the velocity. */
  function Advance(b: Bullet, dt: real): (b': Bullet)
    ensures b'.pos == b.pos.Plus(b.vel.Times(dt))
    ensures b' == b.(pos := b'.pos)
  {
    b.(pos := b.pos.Plus(b.vel.Times(dt)))
  }

  function SqDistTo(v: Vec, p: Point): real
  {
    (v.x - p.x as real) * (v.x - p.x as real) + (v.y - p.y as real) * (v.y - p.y as real)
  }

  /** `bullet.pos.distance_to(package.rect.center) < bullet.radius + 20`,
      compared on squares. */
  predicate HitsPackage(b: Bullet, pack: Package)
  {
    var reach := b.radius + 20;
    reach > 0 && SqDistTo(b.pos, pack.rect.Center()) < (reach * reach) as real
  }

  /** The advanced bullets that miss, in order. */
  function Misses(bs: seq<Bullet>, pack: Package, dt: real): (r: seq<Bullet>)
    ensures |r| <= |bs|
    ensures forall i :: 0 <= i < |r| ==> !HitsPackage(r[i], pack)
  {
    if |bs| == 0 then []
    else
      var b := Advance(bs[|bs| - 1], dt);
      Misses(bs[..|bs| - 1], pack, dt) + (if HitsPackage(b, pack) then [] else [b])
  }

  /** A bullet is kept exactly when it is one of the advanced bullets and
      misses the package. */
  lemma {:induction false} MissesExactly(bs: seq<Bullet>, pack: Package, dt: real, x: Bullet)
    ensures x in Misses(bs, pack, dt)
        <==> (exists i :: 0 <= i < |bs| && x == Advance(bs[i], dt)) && !HitsPackage(x, pack)
  {
    if |bs| > 0 {
      var n := |bs| - 1;
      MissesExactly(bs[..n], pack, dt, x);
      assert forall i :: 0 <= i < n ==> bs[..n][i] == bs[i];
      if x in Misses(bs, pack, dt) && x !in Misses(bs[..n], pack, dt) {
        assert x == Advance(bs[n], dt);
      }
    }
  }

  /** The total damage of the advanced bullets that hit. */
  function HitDamage(bs: seq<Bullet>, pack: Package, dt: real): real
  {
    if |bs| == 0 then 0.0
    else
      var b := Advance(bs[|bs| - 1], dt);
      HitDamage(bs[..|bs| - 1], pack, dt) + (if HitsPackage(b, pack) then b.dmg else 0.0)
  }

  /** Every bullet is either kept (advanced) or spent on the package. */
  lemma {:induction false} BulletsAccountedFor(bs: seq<Bullet>, pack: Package, dt: real)
    ensures |Misses(bs, pack, dt)| == |bs| - HitCount(bs, pack, dt)
  {
    if |bs| > 0 {
      BulletsAccountedFor(bs[..|bs| - 1], pack, dt);
    }
  }

  function HitCount(bs: seq<Bullet>, pack: Package, dt: real): (n: nat)
    ensures n <= |bs|
  {
    if |bs| == 0 then 0
    else HitCount(bs[..|bs| - 1], pack, dt) + (if HitsPackage(Advance(bs[|bs| - 1], dt), pack) then 1 else 0)
  }

  /** Bullets with non-negative damage never heal the package. */
  lemma {:induction false} HitDamageNonNegative(bs: seq<Bullet>, pack: Package, dt: real)
    requires forall i :: 0 <= i < |bs| ==> bs[i].dmg >= 0.0
    ensures HitDamage(bs, pack, dt) >= 0.0
  {
    if |bs| > 0 {
      HitDamageNonNegative(bs[..|bs| - 1], pack, dt);
    }
  }

  /** The bullet loop of `run` over `enemy.bullets[:]`: each bullet moves,
      and one that reaches the package takes its damage off and is removed. */
  method ResolveBullets(bs: seq<Bullet>, pack: Package, dt: real) returns (kept: seq<Bullet>, pack': Package)
    ensures kept == Misses(bs, pack, dt)
    ensures pack' == pack.(hp := pack.hp - HitDamage(bs, pack, dt))
  {
    kept := [];
    pack' := pack;
    var i := 0;
    while i < |bs|
      invariant 0 <= i <= |bs|
      invariant kept == Misses(bs[..i], pack, dt)
      invariant pack' == pack.(hp := pack.hp - HitDamage(bs[..i], pack, dt))
    {
      var b := Advance(bs[i], dt);
      assert bs[..i + 1][..i] == bs[..i];
      if HitsPackage(b, pack') {
        pack' := pack'.(hp := pack'.hp - b.dmg);
      } else {
        kept := kept + [b];
      }
      i := i + 1;
    }
    assert bs[..|bs|] == bs;
  }

  // ---- Pickups under the click ----

  /** The click reaches a pickup: the shooter fired, the pickup is live and
      the point is inside it. */
  predicate Picks(shot: Shooter.Shot, i: Pickups.Item)
  {
    shot.Fired? && !i.destroyed && i.rect.CollidePoint(shot.at)
  }

  function Touch(i: Pickups.Item, pack: Package, shot: Shooter.Shot): (Pickups.Item, Package)
  {
    if Picks(shot, i) then Pickups.OnClick(i, pack) else (i, pack)
  }

  /** The pickup loop of `run` as written: it removes used pickups from the
      list it is iterating over, so the loop index moves past the pickup
      that slid into the removed one's place. */
  function ItemLoopAsWritten(items: seq<Pickups.Item>, i: nat, pack: Package, shot: Shooter.Shot)
    : (r: (seq<Pickups.Item>, Package))
    ensures |r.0| <= |items|
    ensures r.1 == pack.(hp := r.1.hp)
    decreases |items| - i
  {
    if i >= |items| then (items, pack)
    else
      var t := Touch(items[i], pack, shot);
      if t.0.destroyed then ItemLoopAsWritten(items[..i] + items[i + 1..], i + 1, t.1, shot)
      else ItemLoopAsWritten(items[..i] + [t.0] + items[i + 1..], i + 1, t.1, shot)
  }

  /** Reference for the pickups left after a click: the live ones the
      click does not reach, in order. */
  function Untouched(items: seq<Pickups.Item>, shot: Shooter.Shot): (r: seq<Pickups.Item>)
    ensures |r| <= |items|
  {
    if |items| == 0 then []
    else
      var i := items[|items| - 1];
      Untouched(items[..|items| - 1], shot) + (if i.destroyed || Picks(shot, i) then [] else [i])
  }

  /** A pickup is left exactly when it was in the list, live, and out of
      the click's reach. */
  lemma {:induction false} UntouchedExactly(items: seq<Pickups.Item>, shot: Shooter.Shot, x: Pickups.Item)
    ensures x in Untouched(items, shot) <==> x in items && !x.destroyed && !Picks(shot, x)
  {
    if |items| > 0 {
      var n := |items| - 1;
      UntouchedExactly(items[..n], shot, x);
      assert items == items[..n] + [items[n]];
    }
  }

  /** The pickup loop as intended: every pickup is looked at once, a
      clicked one heals, and used ones leave the list, which ends up as
      `Untouched`. */
  function ItemPass(items: seq<Pickups.Item>, pack: Package, shot: Shooter.Shot): (r: (seq<Pickups.Item>, Package))
    ensures r.0 == Untouched(items, shot)
    ensures r.1 == pack.(hp := r.1.hp)
  {
    if |items| == 0 then ([], pack)
    else
      var front := ItemPass(items[..|items| - 1], pack, shot);
      var t := Touch(items[|items| - 1], front.1, shot);
      (front.0 + (if t.0.destroyed then [] else [t.0]), t.1)
  }

  /** Without a shot the pass only clears out used pickups and leaves the
      package alone. */
  lemma {:induction false} ItemPassWithoutShot(items: seq<Pickups.Item>, pack: Package)
    ensures ItemPass(items, pack, Shooter.NoShot).1 == pack
  {
    if |items| > 0 {
      ItemPassWithoutShot(items[..|items| - 1], pack);
    }
  }

  /** With a package within its maximum, the pass never lowers its health
      and never lifts it past the maximum. */
  lemma {:induction false} ItemPassHeals(items: seq<Pickups.Item>, pack: Package, shot: Shooter.Shot)
    requires 0 <= pack.maxHp && pack.hp <= pack.maxHp as real
    requires forall k :: 0 <= k < |items| ==> 0.0 <= items[k].healPercent
    ensures pack.hp <= ItemPass(items, pack, shot).1.hp <= pack.maxHp as real
  {
    if |items| > 0 {
      var n := |items| - 1;
      assert forall k :: 0 <= k < n ==> items[..n][k] == items[k];
      ItemPassHeals(items[..n], pack, shot);
      var front := ItemPass(items[..n], pack, shot);
      Pickups.OnClickHeals(items[n], front.1);
    }
  }

  /** Counterexample: two overlapping pickups under one click with the
      package at 50 of 100. As written, the first heals to 55 and is
      removed, the second slides into its place and is skipped, and stays.
      As intended, both heal, to 60, and both are used up. */
  lemma ItemLoopSkipsAfterRemoval()
    ensures var items := [Pickups.NewItem(0, 0), Pickups.NewItem(0, 0)];
            var pack := Package(100, 50.0, 0, Rect(500, 500, 125, 75));
            var shot := Shooter.Fired(Point(10, 10), 10.0);
            && ItemLoopAsWritten(items, 0, pack, shot) == ([Pickups.NewItem(0, 0)], pack.(hp := 55.0))
            && ItemPass(items, pack, shot) == ([], pack.(hp := 60.0))
  {
    var items := [Pickups.NewItem(0, 0), Pickups.NewItem(0, 0)];
    var pack := Package(100, 50.0, 0, Rect(500, 500, 125, 75));
    var shot := Shooter.Fired(Point(10, 10), 10.0);
    assert 100.0 * Pickups.HealPercent == 5 as real;
    TruncOfWhole(5);
    assert Pickups.HealAmount(items[0], pack) == 5;
    var healed := pack.(hp := 55.0);
    assert Touch(items[0], pack, shot) == (items[0].(destroyed := true), healed);
    assert items[..0] + items[1..] == [items[1]];
    assert ItemLoopAsWritten(items, 0, pack, shot) == ItemLoopAsWritten([items[1]], 1, healed, shot);
    assert Pickups.HealAmount(items[1], healed) == 5;
    assert items[..1] == [items[0]];
    assert ItemPass(items[..1], pack, shot) == ([], healed);
  }

  // ---- Enemies ----

  /** The click reaches an enemy: the shooter fired, the enemy is alive and
      the point is inside its rectangle. */
  predicate Struck(shot: Shooter.Shot, e: Enemy)
  {
    shot.Fired? && !e.destroyed && e.rect.CollidePoint(shot.at)
  }

  /** What the click alone does to an enemy. */
  function Clicked(e: Enemy, shot: Shooter.Shot): Enemy
  {
    if Struck(shot, e) then TakeDamage(e, shot.damage) else e
  }

  /** One enemy's turn in the loop of `run`: `update`, its bullets against
      the package, then the click against it. Health, stats, position, kind
      and the `destroyed` mark come out as the click alone leaves them. */
  function EnemyTurn(e: Enemy, pack: Package, dt: real, arena: Rect, unit: Vec -> Vec, shot: Shooter.Shot)
    : (r: (Enemy, Package))
    requires e.stats.attkSpd != 0.0
    ensures SameBody(r.0, Clicked(e, shot))
    ensures r.0.hp == (if Struck(shot, e) then e.hp - shot.damage else e.hp)
    ensures r.0.destroyed <==> e.destroyed || (Struck(shot, e) && e.hp - shot.damage <= 0.0)
    ensures r.1.maxHp == pack.maxHp && r.1.rect == pack.rect
    ensures var u := Update(e, pack, dt, arena, unit);
            r.0.bullets == Misses(u.0.bullets, u.1, dt) && r.1.hp == u.1.hp - HitDamage(u.0.bullets, u.1, dt)
  {
    var u := Update(e, pack, dt, arena, unit);
    var kept := Misses(u.0.bullets, u.1, dt);
    var hit := u.1.(hp := u.1.hp - HitDamage(u.0.bullets, u.1, dt));
    var e1 := u.0.(bullets := kept);
    assert SameBody(e1, e);
    (if Struck(shot, e1) then TakeDamage(e1, shot.damage) else e1, hit)
  }

  /** Reference for the survivors: the enemies as the click leaves them,
      in order, without those that end up destroyed. */
  function Alive(es: seq<Enemy>, shot: Shooter.Shot): (r: seq<Enemy>)
    ensures |r| <= |es|
  {
    if |es| == 0 then []
    else
      var c := Clicked(es[|es| - 1], shot);
      Alive(es[..|es| - 1], shot) + (if c.destroyed then [] else [c])
  }

  /** No survivor is destroyed. */
  lemma {:induction false} AliveUndestroyed(es: seq<Enemy>, shot: Shooter.Shot)
    ensures forall k :: 0 <= k < |Alive(es, shot)| ==> !Alive(es, shot)[k].destroyed
  {
    if |es| > 0 {
      AliveUndestroyed(es[..|es| - 1], shot);
    }
  }

  /** Survivors keep their stats, so valid enemies stay valid. */
  lemma {:induction false} AliveKeepsValid(es: seq<Enemy>, shot: Shooter.Shot)
    requires forall k :: 0 <= k < |es| ==> Valid(es[k])
    ensures forall k :: 0 <= k < |Alive(es, shot)| ==> Valid(Alive(es, shot)[k])
  {
    if |es| > 0 {
      var n := |es| - 1;
      assert forall k :: 0 <= k < n ==> es[..n][k] == es[k];
      AliveKeepsValid(es[..n], shot);
    }
  }

  /** Unlike the pickups, no enemy is skipped: every live enemy under the
      click takes the damage, and survives exactly when health remains. */
  lemma {:induction false} AliveStrikesAll(es: seq<Enemy>, shot: Shooter.Shot, k: int)
    requires 0 <= k < |es| && Struck(shot, es[k])
    ensures TakeDamage(es[k], shot.damage) in Alive(es, shot) <==> es[k].hp - shot.damage > 0.0
  {
    var n := |es| - 1;
    if k < n {
      AliveStrikesAll(es[..n], shot, k);
    } else if es[k].hp - shot.damage <= 0.0 {
      AliveUndestroyed(es[..n], shot);
    }
  }

  /** Without a shot nothing is destroyed by the loop: every live enemy
      survives, unchanged in body, and no bounty is paid. */
  lemma {:induction false} AliveWithoutShot(es: seq<Enemy>)
    requires forall k :: 0 <= k < |es| ==> !es[k].destroyed
    ensures Alive(es, Shooter.NoShot) == es
  {
    if |es| > 0 {
      var n := |es| - 1;
      AliveWithoutShot(es[..n]);
      assert es[..n] + [es[n]] == es;
    }
  }

  /** The enemy loop of `run`, over a copy of the spawner's list: every
      enemy takes its turn, the destroyed ones leave the list, and each of
      them is counted for the bounty. The survivors are, in order, those of
      `Alive`, each with the same body; the kills are the rest. */
  method ResolveEnemies(es: seq<Enemy>, pack: Package, dt: real, arena: Rect, unit: Vec -> Vec, shot: Shooter.Shot)
    returns (alive: seq<Enemy>, pack': Package, kills: nat)
    requires forall k :: 0 <= k < |es| ==> es[k].stats.attkSpd != 0.0
    ensures |alive| == |Alive(es, shot)| && kills == |es| - |alive|
    ensures forall k :: 0 <= k < |alive| ==> SameBody(alive[k], Alive(es, shot)[k])
    ensures pack'.maxHp == pack.maxHp && pack'.rect == pack.rect
  {
    alive, pack', kills := [], pack, 0;
    var i := 0;
    while i < |es|
      invariant 0 <= i <= |es|
      invariant |alive| == |Alive(es[..i], shot)| && kills == i - |alive|
      invariant forall k :: 0 <= k < |alive| ==> SameBody(alive[k], Alive(es[..i], shot)[k])
      invariant pack'.maxHp == pack.maxHp && pack'.rect == pack.rect
    {
      assert es[..i + 1][..i] == es[..i];
      var t := EnemyTurn(es[i], pack', dt, arena, unit, shot);
      if t.0.destroyed {
        kills := kills + 1;
      } else {
        alive := alive + [t.0];
      }
      pack' := t.1;
      i := i + 1;
    }
    assert es[..|es|] == es;
  }

  // ---- The frame ----

  datatype Game = Game(
    difficulty: Difficulty.Timer,
    player: Shooter.Player,
    items: Pickups.ItemSpawner,
    spawner: Spawning.Spawner,
    pack: Package,
    arena: Rect)

  /** What one frame reads from outside: the frame time, the events, the
      tick count, the pointer, the critical-hit draw, the pickup and enemy
      placement draws, and the vector normalisation. */
  datatype Inputs = Inputs(
    dt: real,
    events: seq<Shooter.Event>,
    now: int,
    pointer: Point,
    roll: real,
    itemDx: nat,
    itemDy: nat,
    draw: Spawning.SpawnDraw,
    unit: Vec -> Vec)

  datatype Outcome = Continue | Menu

  /** The arena has room for pickups, which also makes every spawn side
      drawable. */
  predicate Roomy(arena: Rect)
  {
    Pickups.HasRoom(arena)
  }

  /** What a frame relies on and keeps: a valid shooter, a roomy arena, and
      live enemies whose attack speeds divide one. */
  predicate GameOk(g: Game)
  {
    && Shooter.Valid(g.player)
    && Roomy(g.arena)
    && (forall k :: 0 <= k < |g.spawner.enemies| ==> Valid(g.spawner.enemies[k]) && !g.spawner.enemies[k].destroyed)
  }

  /** Lines 55 and 70-110 of `Game.run`. The package-destroyed check
      returns to the menu exactly when the package's health is gone. */
  method Step(g: Game, inp: Inputs) returns (g': Game, outcome: Outcome)
    requires GameOk(g)
    ensures outcome == Menu <==> g'.pack.hp <= 0.0
    ensures GameOk(g')
    ensures g'.difficulty == Difficulty.Update(g.difficulty, inp.dt)
    ensures g'.arena == g.arena && g'.pack.maxHp == g.pack.maxHp && g'.pack.rect == g.pack.rect
    ensures g'.player.wallet == g.player.wallet + g.player.moneyBounty
              * (|Spawning.Update(g.spawner, g.arena, inp.dt, Difficulty.Multiplier(g'.difficulty), inp.draw).enemies|
                 - |g'.spawner.enemies|)
  {
    var d := Difficulty.Update(g.difficulty, inp.dt);
    var fired := Shooter.Update(g.player, inp.events, inp.now, inp.pointer, inp.roll);
    var player := fired.0;
    var shot := fired.1;

    var items := Pickups.Update(g.items, g.arena, inp.dt, inp.itemDx, inp.itemDy);
    var picked := ItemPass(items.items, g.pack, shot);
    items := items.(items := picked.0);

    var multi := Difficulty.Multiplier(d);
    var spawner := Spawning.Update(g.spawner, g.arena, inp.dt, multi, inp.draw);
    SpawnedValid(g.spawner, g.arena, inp.dt, multi, inp.draw);
    var alive, pack, kills := ResolveEnemies(spawner.enemies, picked.1, inp.dt, g.arena, inp.unit, shot);
    AliveKeepsValid(spawner.enemies, shot);
    AliveUndestroyed(spawner.enemies, shot);

    player := player.(wallet := player.wallet + player.moneyBounty * kills);
    g' := Game(d, player, items, spawner.(enemies := alive), pack, g.arena);
    outcome := if pack.hp <= 0.0 then Menu else Continue;
  }

  /** After the spawner's update every enemy is still valid and alive. */
  lemma SpawnedValid(s: Spawning.Spawner, arena: Rect, dt: real, multi: real, draw: Spawning.SpawnDraw)
    requires 1.0 <= multi && Roomy(arena)
    requires forall k :: 0 <= k < |s.enemies| ==> Valid(s.enemies[k]) && !s.enemies[k].destroyed
    ensures Spawning.Spawns(s, dt) ==> Placement.SideFits(arena, draw.side)
    ensures var s' := Spawning.Update(s, arena, dt, multi, draw);
            forall k :: 0 <= k < |s'.enemies| ==> Valid(s'.enemies[k]) && !s'.enemies[k].destroyed
  {
    var s' := Spawning.Update(s, arena, dt, multi, draw);
    if Spawning.Spawns(s, dt) {
      var p := Placement.SpawnPos(arena, draw.side, draw.dx, draw.dy, Placement.DefaultMargin);
      ScaledNewEnemy(p.x, p.y, if draw.melee then MeleeKind else RangeKind, multi);
      assert s'.enemies == s.enemies + [ApplyDifficulty(NewEnemy(p.x, p.y, if draw.melee then MeleeKind else RangeKind), multi)];
    } else {
      assert s'.enemies == s.enemies;
    }
  }
}
