/** `Enemy` and its `Bullet`s: health, the melee and ranged attack rules
    driven by `attack_timer`, and the per-frame kinematics. Normalising a
    vector needs a square root, so the caller supplies `unit`, standing for
    `Vector2.normalize`; distance tests are made on squared distances. */
module Enemies {
  import opened Numeric
  import opened Geometry
  import opened Target

  const EnemySize: int := 50
  const BulletSpeed: int := 400
  const BulletRadius: int := 4
  const DesiredRadius: int := 250
  const Tolerance: int := 10

  /** The two behaviour strings `update` dispatches on; any other string idles. */
  const MeleeKind: string := "melee"
  const RangeKind: string := "range"

  datatype Bullet = Bullet(pos: Vec, vel: Vec, dmg: real, speed: int, radius: int)

  /** The stats `apply_difficulty` scales. */
  datatype Stats = Stats(
    maxHp: int,
    dmg: real,
    attkSpd: real,
    critRate: real,
    critDmg: real,
    spd: real,
    maxSpd: real)

  datatype Enemy = Enemy(
    stats: Stats,
    hp: real,
    vel: Vec,
    acc: Vec,
    attackTimer: real,
    rect: Rect,
    destroyed: bool,
    behaviour: string,
    bullets: seq<Bullet>,
    visible: bool)

  /** Attack speed divides one, and the speed cap is a length. */
  predicate Valid(e: Enemy)
  {
    e.stats.attkSpd > 0.0 && e.stats.maxSpd >= 0.0
  }

  const BaseStats: Stats := Stats(100, 1.0, 1.0, 1.0, 1.0, 50.0, 50.0)

  /** `Enemy(x, y, e_type)`: full health, hidden, no bullets. */
  function NewEnemy(x: int, y: int, kind: string): (e: Enemy)
    ensures Valid(e) && !e.destroyed && !e.visible && e.bullets == []
    ensures e.hp == e.stats.maxHp as real == 100.0
    ensures e.rect == Rect(x, y, EnemySize, EnemySize) && e.behaviour == kind
  {
    Enemy(BaseStats, 100.0, Zero, Zero, 0.0, Rect(x, y, EnemySize, EnemySize), false, kind, [], false)
  }

  /** `take_damage`: health drops by exactly `dmg`; the enemy is marked
      destroyed once health is at or below zero, and the mark is never
      cleared. Nothing else changes. */
  function TakeDamage(e: Enemy, dmg: real): (e': Enemy)
    ensures e'.hp == e.hp - dmg
    ensures e'.destroyed <==> e.destroyed || e'.hp <= 0.0
    ensures e' == e.(hp := e'.hp, destroyed := e'.destroyed)
  {
    var hp := e.hp - dmg;
    e.(hp := hp, destroyed := e.destroyed || hp <= 0.0)
  }

  /** For non-negative damage, "destroyed exactly when health is gone" is kept. */
  lemma TakeDamageKeepsDeathFlag(e: Enemy, dmg: real)
    requires e.destroyed <==> e.hp <= 0.0
    requires dmg >= 0.0
    ensures TakeDamage(e, dmg).destroyed <==> TakeDamage(e, dmg).hp <= 0.0
    ensures TakeDamage(e, dmg).hp <= e.hp
  {
  }

  /** `apply_difficulty`: max health is scaled and truncated, health is reset
      to it (never below zero), and every other stat is scaled by `mult`. */
  function ApplyDifficulty(e: Enemy, mult: real): (e': Enemy)
    ensures e'.stats.maxHp == Trunc(e.stats.maxHp as real * mult)
    ensures e'.hp == (if e'.stats.maxHp > 0 then e'.stats.maxHp as real else 0.0)
    ensures e'.stats.dmg == e.stats.dmg * mult && e'.stats.attkSpd == e.stats.attkSpd * mult
    ensures e'.stats.spd == e.stats.spd * mult && e'.stats.maxSpd == e'.stats.spd
    ensures e'.stats.critRate == e.stats.critRate * mult && e'.stats.critDmg == e.stats.critDmg * mult
    ensures e' == e.(stats := e'.stats, hp := e'.hp)
  {
    var s := e.stats;
    var maxHp := Trunc(s.maxHp as real * mult);
    var spd := s.spd * mult;
    e.(stats := Stats(maxHp, s.dmg * mult, s.attkSpd * mult, s.critRate * mult, s.critDmg * mult, spd, spd),
       hp := if maxHp > 0 then maxHp as real else 0.0)
  }

  /** A spawned enemy under a multiplier of at least one is valid, alive,
      at full health of at least 100, and no weaker than the base enemy. */
  lemma ScaledNewEnemy(x: int, y: int, kind: string, mult: real)
    requires 1.0 <= mult
    ensures var e := ApplyDifficulty(NewEnemy(x, y, kind), mult);
            && Valid(e) && !e.destroyed && e.hp == e.stats.maxHp as real && e.stats.maxHp >= 100
            && e.stats.dmg >= 1.0 && e.stats.attkSpd >= 1.0 && e.stats.maxSpd >= 50.0
  {
    TruncOfGrowth(100, mult);
  }

  /** Vector from this enemy's centre to the package centre. */
  function ToPackage(e: Enemy, pack: Package): Vec
  {
    ToVec(pack.rect.Center()).Minus(ToVec(e.rect.Center()))
  }

  function SqDistToPackage(e: Enemy, pack: Package): int
  {
    SqDist(pack.rect.Center(), e.rect.Center())
  }

  /** The attack timer has reached `1 / attk_spd`. */
  predicate Ready(e: Enemy)
    requires e.stats.attkSpd != 0.0
  {
    e.attackTimer >= 1.0 / e.stats.attkSpd
  }

  /** The ranged stand-off band: distance within [240, 260]. */
  predicate InBand(e: Enemy, pack: Package)
  {
    (DesiredRadius - Tolerance) * (DesiredRadius - Tolerance)
      <= SqDistToPackage(e, pack)
      <= (DesiredRadius + Tolerance) * (DesiredRadius + Tolerance)
  }

  /** Acceleration of magnitude `max_spd` toward the package. */
  function Approach(e: Enemy, pack: Package, unit: Vec -> Vec): Vec
  {
    unit(ToPackage(e, pack)).Times(e.stats.maxSpd)
  }

  /** The speed clamp of `enemy_mov`: a velocity longer than `cap` is
      rescaled to length `cap` along its own direction. */
  function Clamp(v: Vec, cap: real, unit: Vec -> Vec): (r: Vec)
    ensures v == Zero && cap >= 0.0 ==> r == Zero
    ensures cap >= 0.0 && v.SqLength() <= cap * cap ==> r == v
  {
    if cap < 0.0 || v.SqLength() > cap * cap then unit(v).Times(cap) else v
  }

  /** Fields no step of `update` touches: stats, health, position, kind. */
  predicate SameBody(a: Enemy, b: Enemy)
  {
    a.stats == b.stats && a.hp == b.hp && a.rect == b.rect && a.destroyed == b.destroyed
    && a.behaviour == b.behaviour
  }

  /** `enemy_mov`: velocity takes the acceleration, is clamped to `max_spd`,
      and the acceleration is spent. The rectangle's displacement is not
      part of this model. */
  function Move(e: Enemy, dt: real, unit: Vec -> Vec): (e': Enemy)
    ensures e'.acc == Zero
    ensures e' == e.(vel := e'.vel, acc := Zero)
  {
    e.(vel := Clamp(e.vel.Plus(e.acc.Times(dt)), e.stats.maxSpd, unit), acc := Zero)
  }

  /** An enemy at rest stays at rest through `enemy_mov`. */
  lemma MoveAtRest(e: Enemy, dt: real, unit: Vec -> Vec)
    requires e.stats.maxSpd >= 0.0 && e.vel == Zero && e.acc == Zero
    ensures Move(e, dt, unit) == e
  {
    assert e.vel.Plus(e.acc.Times(dt)) == Zero;
  }

  /** `Enemy.shoot`: a bullet from this enemy's centre toward the package
      centre, carrying the enemy's damage. */
  function Fire(e: Enemy, pack: Package, unit: Vec -> Vec): (b: Bullet)
    ensures b.dmg == e.stats.dmg && b.pos == ToVec(e.rect.Center())
    ensures b.speed == BulletSpeed && b.radius == BulletRadius
  {
    var from := ToVec(e.rect.Center());
    Bullet(from, unit(ToVec(pack.rect.Center()).Minus(from)).Times(BulletSpeed as real),
           e.stats.dmg, BulletSpeed, BulletRadius)
  }

  /** The bullet an enemy fires depends only on its position and stats. */
  lemma FireDependsOnBody(a: Enemy, b: Enemy, pack: Package, unit: Vec -> Vec)
    requires a.rect == b.rect && a.stats == b.stats
    ensures Fire(a, pack, unit) == Fire(b, pack, unit)
  {
  }

  /** `behaviour_melee`, including its own call of `enemy_mov`: in contact
      the enemy stops and, once its timer reaches `1 / attk_spd`, takes
      exactly `dmg` off the package and restarts the timer. */
  function Melee(e: Enemy, pack: Package, dt: real, unit: Vec -> Vec): (r: (Enemy, Package))
    requires e.stats.attkSpd != 0.0
    ensures r.1 == (if e.rect.CollideRect(pack.rect) && Ready(e) then pack.(hp := pack.hp - e.stats.dmg) else pack)
    ensures r.0.attackTimer == (if e.rect.CollideRect(pack.rect) && Ready(e) then 0.0 else e.attackTimer)
    ensures r.0.acc == Zero && r.0.bullets == e.bullets && r.0.visible == e.visible
    ensures e.rect.CollideRect(pack.rect) && e.stats.maxSpd >= 0.0 ==> r.0.vel == Zero
    ensures SameBody(r.0, e)
  {
    if e.rect.CollideRect(pack.rect) then
      var halted := e.(vel := Zero, acc := Zero);
      var timed := if Ready(e) then halted.(attackTimer := 0.0) else halted;
      assert e.stats.maxSpd >= 0.0 ==> Move(timed, dt, unit) == timed by {
        if e.stats.maxSpd >= 0.0 { MoveAtRest(timed, dt, unit); }
      }
      (Move(timed, dt, unit), if Ready(e) then pack.(hp := pack.hp - e.stats.dmg) else pack)
    else
      var e1 := if SqDistToPackage(e, pack) > 1 then e.(acc := Approach(e, pack, unit)) else e;
      (Move(e1, dt, unit), pack)
  }

  /** `behaviour_range`, including its own call of `enemy_mov`: outside the
      band it closes in or backs off; inside it stops and, once its timer
      reaches `1 / attk_spd`, appends exactly one bullet and restarts the timer. */
  function Range(e: Enemy, pack: Package, dt: real, unit: Vec -> Vec): (e': Enemy)
    requires e.stats.attkSpd != 0.0
    ensures e'.bullets == (if InBand(e, pack) && Ready(e) then e.bullets + [Fire(e, pack, unit)] else e.bullets)
    ensures e'.attackTimer == (if InBand(e, pack) && Ready(e) then 0.0 else e.attackTimer)
    ensures e'.acc == Zero && e'.visible == e.visible
    ensures InBand(e, pack) && e.stats.maxSpd >= 0.0 ==> e'.vel == Zero
    ensures SameBody(e', e)
  {
    var d2 := SqDistToPackage(e, pack);
    if d2 > (DesiredRadius + Tolerance) * (DesiredRadius + Tolerance) then
      Move(e.(acc := Approach(e, pack, unit)), dt, unit)
    else if d2 < (DesiredRadius - Tolerance) * (DesiredRadius - Tolerance) then
      Move(e.(acc := Approach(e, pack, unit).Negated()), dt, unit)
    else
      var halted := e.(vel := Zero, acc := Zero);
      var shot := if Ready(e) then halted.(bullets := e.bullets + [Fire(e, pack, unit)], attackTimer := 0.0)
                  else halted;
      assert e.stats.maxSpd >= 0.0 ==> Move(shot, dt, unit) == shot by {
        if e.stats.maxSpd >= 0.0 { MoveAtRest(shot, dt, unit); }
      }
      Move(shot, dt, unit)
  }

  /** Hidden enemies steer toward the package and become visible once
      their rectangle is inside the arena. */
  function Reveal(e: Enemy, pack: Package, arena: Rect, unit: Vec -> Vec): (e': Enemy)
    ensures e'.visible <==> e.visible || arena.Contains(e.rect)
    ensures e' == e.(acc := e'.acc, visible := e'.visible)
  {
    if e.visible then e
    else
      var e1 := if SqDistToPackage(e, pack) > 1 then e.(acc := Approach(e, pack, unit)) else e;
      if arena.Contains(e1.rect) then e1.(visible := true) else e1
  }

  /** The melee attack rule for one frame of `update`. */
  predicate MeleeStrikes(e: Enemy, pack: Package, dt: real)
    requires e.stats.attkSpd != 0.0
  {
    e.behaviour == MeleeKind && e.rect.CollideRect(pack.rect) && e.attackTimer + dt >= 1.0 / e.stats.attkSpd
  }

  /** The ranged attack rule for one frame of `update`. */
  predicate RangeFires(e: Enemy, pack: Package, dt: real)
    requires e.stats.attkSpd != 0.0
  {
    e.behaviour == RangeKind && InBand(e, pack) && e.attackTimer + dt >= 1.0 / e.stats.attkSpd
  }

  /** The enemy stands still this frame: in contact (melee) or in the band (range). */
  predicate Halts(e: Enemy, pack: Package)
  {
    || (e.behaviour == MeleeKind && e.rect.CollideRect(pack.rect))
    || (e.behaviour == RangeKind && InBand(e, pack))
  }

  /** `Enemy.update`: the timer advances, hidden enemies steer in, the
      behaviour chosen by the `behaviour` string runs (melee and range call
      `enemy_mov` themselves), and `enemy_mov` runs once more. Health,
      stats and the `destroyed` mark are left alone. */
  function Update(e: Enemy, pack: Package, dt: real, arena: Rect, unit: Vec -> Vec): (r: (Enemy, Package))
    requires e.stats.attkSpd != 0.0
    ensures r.1 == (if MeleeStrikes(e, pack, dt) then pack.(hp := pack.hp - e.stats.dmg) else pack)
    ensures r.0.attackTimer
         == (if MeleeStrikes(e, pack, dt) || RangeFires(e, pack, dt) then 0.0 else e.attackTimer + dt)
    ensures r.0.acc == Zero
    ensures r.0.visible <==> e.visible || arena.Contains(e.rect)
    ensures SameBody(r.0, e)
  {
    var e1 := Reveal(e.(attackTimer := e.attackTimer + dt), pack, arena, unit);
    assert SameBody(e1, e) && e1.attackTimer == e.attackTimer + dt;
    if e.behaviour == MeleeKind then
      assert !RangeFires(e, pack, dt) by { assert MeleeKind[0] != RangeKind[0]; }
      var r := Melee(e1, pack, dt, unit);
      (Move(r.0, dt, unit), r.1)
    else if e.behaviour == RangeKind then
      (Move(Range(e1, pack, dt, unit), dt, unit), pack)
    else
      (Move(e1, dt, unit), pack)
  }

  /** The ranged rule: a frame appends exactly one bullet, carrying the
      enemy's damage, when the ranged enemy is in the band and its timer is
      due; otherwise the bullet list is unchanged. */
  lemma UpdateBullets(e: Enemy, pack: Package, dt: real, arena: Rect, unit: Vec -> Vec)
    requires e.stats.attkSpd != 0.0
    ensures Update(e, pack, dt, arena, unit).0.bullets
         == (if RangeFires(e, pack, dt) then e.bullets + [Fire(e, pack, unit)] else e.bullets)
  {
    if e.behaviour == MeleeKind {
      MeleeKeepsBullets(e, pack, dt, arena, unit);
    } else if e.behaviour == RangeKind {
      RangeBullets(e, pack, dt, arena, unit);
    } else {
      IdleNeverAttacks(e, pack, dt, arena, unit);
    }
  }

  lemma MeleeKeepsBullets(e: Enemy, pack: Package, dt: real, arena: Rect, unit: Vec -> Vec)
    requires e.stats.attkSpd != 0.0 && e.behaviour == MeleeKind
    ensures !RangeFires(e, pack, dt)
    ensures Update(e, pack, dt, arena, unit).0.bullets == e.bullets
  {
    assert MeleeKind[0] != RangeKind[0];
    UpdateMeleeShape(e, pack, dt, arena, unit);
    var e1 := Reveal(e.(attackTimer := e.attackTimer + dt), pack, arena, unit);
    assert e1.bullets == e.bullets;
    assert Melee(e1, pack, dt, unit).0.bullets == e.bullets;
  }

  lemma RangeBullets(e: Enemy, pack: Package, dt: real, arena: Rect, unit: Vec -> Vec)
    requires e.stats.attkSpd != 0.0 && e.behaviour == RangeKind
    ensures Update(e, pack, dt, arena, unit).0.bullets
         == (if RangeFires(e, pack, dt) then e.bullets + [Fire(e, pack, unit)] else e.bullets)
  {
    UpdateRangeShape(e, pack, dt, arena, unit);
    var e1 := Reveal(e.(attackTimer := e.attackTimer + dt), pack, arena, unit);
    assert SameBody(e1, e) && e1.bullets == e.bullets && e1.attackTimer == e.attackTimer + dt;
    FireDependsOnBody(e1, e, pack, unit);
    BandDependsOnBody(e1, e, pack);
    assert RangeFires(e, pack, dt) == (InBand(e1, pack) && Ready(e1));
    var e2 := Range(e1, pack, dt, unit);
    assert Move(e2, dt, unit).bullets == e2.bullets;
  }

  lemma BandDependsOnBody(a: Enemy, b: Enemy, pack: Package)
    requires a.rect == b.rect
    ensures InBand(a, pack) == InBand(b, pack)
  {
  }

  /** The melee branch of `Update`: reveal, melee behaviour, then movement. */
  lemma UpdateMeleeShape(e: Enemy, pack: Package, dt: real, arena: Rect, unit: Vec -> Vec)
    requires e.stats.attkSpd != 0.0 && e.behaviour == MeleeKind
    ensures Update(e, pack, dt, arena, unit).0
         == Move(Melee(Reveal(e.(attackTimer := e.attackTimer + dt), pack, arena, unit), pack, dt, unit).0, dt, unit)
  {
    var e1 := Reveal(e.(attackTimer := e.attackTimer + dt), pack, arena, unit);
    var r := Melee(e1, pack, dt, unit);
    assert Update(e, pack, dt, arena, unit).0 == Move(r.0, dt, unit);
  }

  /** The range branch of `Update`: reveal, range behaviour, then movement. */
  lemma UpdateRangeShape(e: Enemy, pack: Package, dt: real, arena: Rect, unit: Vec -> Vec)
    requires e.stats.attkSpd != 0.0 && e.behaviour == RangeKind
    ensures Update(e, pack, dt, arena, unit).0
         == Move(Range(Reveal(e.(attackTimer := e.attackTimer + dt), pack, arena, unit), pack, dt, unit), dt, unit)
  {
    assert MeleeKind[0] != RangeKind[0];
    var e1 := Reveal(e.(attackTimer := e.attackTimer + dt), pack, arena, unit);
    assert Update(e, pack, dt, arena, unit).0 == Move(Range(e1, pack, dt, unit), dt, unit);
  }

  /** A melee enemy touching the package ends the frame with no velocity,
      through both calls of `enemy_mov`. */
  lemma MeleeContactHalts(e: Enemy, pack: Package, dt: real, arena: Rect, unit: Vec -> Vec)
    requires e.stats.attkSpd != 0.0 && e.stats.maxSpd >= 0.0
    requires e.behaviour == MeleeKind && e.rect.CollideRect(pack.rect)
    ensures Update(e, pack, dt, arena, unit).0.vel == Zero
  {
    var e1 := Reveal(e.(attackTimer := e.attackTimer + dt), pack, arena, unit);
    assert SameBody(e1, e);
    var e2 := Melee(e1, pack, dt, unit).0;
    assert e2.vel == Zero && e2.acc == Zero && e2.stats.maxSpd >= 0.0;
    UpdateMeleeShape(e, pack, dt, arena, unit);
    MoveAtRest(e2, dt, unit);
  }

  /** A ranged enemy inside the band ends the frame with no velocity,
      through both calls of `enemy_mov`. */
  lemma RangeBandHalts(e: Enemy, pack: Package, dt: real, arena: Rect, unit: Vec -> Vec)
    requires e.stats.attkSpd != 0.0 && e.stats.maxSpd >= 0.0
    requires e.behaviour == RangeKind && InBand(e, pack)
    ensures Update(e, pack, dt, arena, unit).0.vel == Zero
  {
    var e1 := Reveal(e.(attackTimer := e.attackTimer + dt), pack, arena, unit);
    assert SameBody(e1, e);
    var e2 := Range(e1, pack, dt, unit);
    assert e2.vel == Zero && e2.acc == Zero && e2.stats.maxSpd >= 0.0;
    UpdateRangeShape(e, pack, dt, arena, unit);
    MoveAtRest(e2, dt, unit);
  }

  /** Scenario: a melee enemy with damage 10 and attack speed 1 pressed
      against a package at 100 health, over two half-second frames, strikes
      once, at the second frame, and the package ends at 90. */
  lemma MeleeStrikesOncePerSecond(e: Enemy, pack: Package, arena: Rect, unit: Vec -> Vec)
    requires e.behaviour == MeleeKind && e.stats.dmg == 10.0 && e.stats.attkSpd == 1.0 && e.attackTimer == 0.0
    requires e.rect.CollideRect(pack.rect) && pack.hp == 100.0
    ensures var r1 := Update(e, pack, 0.5, arena, unit);
            var r2 := Update(r1.0, r1.1, 0.5, arena, unit);
            r1.1.hp == 100.0 && r2.1.hp == 90.0 && r2.0.attackTimer == 0.0
  {
    var r1 := Update(e, pack, 0.5, arena, unit);
    assert !MeleeStrikes(e, pack, 0.5);
    assert r1.0.attackTimer == 0.5 && SameBody(r1.0, e);
    assert MeleeStrikes(r1.0, r1.1, 0.5);
  }

  /** An idle enemy (any other behaviour string) never attacks. */
  lemma IdleNeverAttacks(e: Enemy, pack: Package, dt: real, arena: Rect, unit: Vec -> Vec)
    requires e.stats.attkSpd != 0.0
    requires e.behaviour != MeleeKind && e.behaviour != RangeKind
    ensures Update(e, pack, dt, arena, unit).1 == pack
    ensures Update(e, pack, dt, arena, unit).0.bullets == e.bullets
  {
  }
}
