/** `EnemySpawner`: a timer that adds one difficulty-scaled enemy per
    interval while there is room, and a cadence and cap that compound with
    the difficulty multiplier on every frame. */
module Spawning {
  import opened Numeric
  import opened Geometry
  import opened Placement
  import opened Enemies

  datatype Spawner = Spawner(timer: real, interval: real, maxEnemies: int, enemies: seq<Enemy>)

  const NewSpawner: Spawner := Spawner(0.0, 5.0, 10, [])

  /** The random choices of one `spawn_enemy` call: the side and the two
      coordinate draws of `get_random_spawn_pos`, and melee or range. */
  datatype SpawnDraw = SpawnDraw(side: Side, dx: nat, dy: nat, melee: bool)

  /** `spawn_enemy`: a new enemy at a random spawn position, of the drawn
      kind, scaled by the multiplier, appended to the list. */
  function SpawnEnemy(s: Spawner, arena: Rect, mult: real, draw: SpawnDraw): (s': Spawner)
    requires SideFits(arena, draw.side)
    ensures |s'.enemies| == |s.enemies| + 1 && s'.enemies[..|s.enemies|] == s.enemies
    ensures var e := s'.enemies[|s.enemies|];
            && e.behaviour == (if draw.melee then MeleeKind else RangeKind)
            && e.rect.w == EnemySize && e.rect.h == EnemySize
            && Point(e.rect.x, e.rect.y) == SpawnPos(arena, draw.side, draw.dx, draw.dy, DefaultMargin)
            && !e.visible && !e.destroyed && e.bullets == []
            && e.stats.maxHp == Trunc(100.0 * mult) && e.stats.dmg == mult
    ensures s' == s.(enemies := s'.enemies)
  {
    var p := SpawnPos(arena, draw.side, draw.dx, draw.dy, DefaultMargin);
    var kind := if draw.melee then MeleeKind else RangeKind;
    s.(enemies := s.enemies + [ApplyDifficulty(NewEnemy(p.x, p.y, kind), mult)])
  }

  /** The end of every `update`: the interval is divided by the multiplier, */
  function Quicken(interval: real, multi: real): real
    requires multi != 0.0
  {
    interval / multi
  }

  /** and the cap is multiplied by it and truncated. */
  function Grow(cap: int, multi: real): int
  {
    Trunc(cap as real * multi)
  }

  lemma GrowNeverShrinks(cap: int, multi: real)
    requires 0 <= cap && 1.0 <= multi
    ensures cap <= Grow(cap, multi)
  {
    TruncOfGrowth(cap, multi);
  }

  /** The spawn rule of `update`: the timer has run out and there is room. */
  predicate Spawns(s: Spawner, dt: real)
  {
    s.timer + dt >= s.interval && |s.enemies| < s.maxEnemies
  }

  /** `EnemySpawner.update(dt, multi)`: at most one enemy is added, exactly
      when the timer runs out while there is room; the timer restarts
      whenever it runs out, room or not; then the interval is divided by
      the multiplier and the cap multiplied and truncated, every frame. */
  function Update(s: Spawner, arena: Rect, dt: real, multi: real, draw: SpawnDraw): (s': Spawner)
    requires multi != 0.0
    requires Spawns(s, dt) ==> SideFits(arena, draw.side)
    ensures |s'.enemies| == |s.enemies| + (if Spawns(s, dt) then 1 else 0)
    ensures s'.enemies[..|s.enemies|] == s.enemies
    ensures s'.timer == (if s.timer + dt >= s.interval then 0.0 else s.timer + dt)
    ensures s'.interval == Quicken(s.interval, multi) && s'.maxEnemies == Grow(s.maxEnemies, multi)
  {
    var t := s.timer + dt;
    var s1 := if t >= s.interval then
                var s0 := s.(timer := 0.0);
                if |s.enemies| < s.maxEnemies then SpawnEnemy(s0, arena, multi, draw) else s0
              else s.(timer := t);
    s1.(interval := Quicken(s.interval, multi), maxEnemies := Grow(s.maxEnemies, multi))
  }

  /** A spawn decision never takes the population past the cap in force
      when it was made. */
  lemma UpdateRespectsCap(s: Spawner, arena: Rect, dt: real, multi: real, draw: SpawnDraw)
    requires multi != 0.0
    requires Spawns(s, dt) ==> SideFits(arena, draw.side)
    requires |s.enemies| <= s.maxEnemies
    ensures |Update(s, arena, dt, multi, draw).enemies| <= s.maxEnemies
  {
  }

  /** Under a multiplier of at least one the cap never shrinks, and a
      positive interval never grows. */
  lemma UpdateNeverEases(s: Spawner, arena: Rect, dt: real, multi: real, draw: SpawnDraw)
    requires 1.0 <= multi
    requires Spawns(s, dt) ==> SideFits(arena, draw.side)
    requires 0 <= s.maxEnemies && 0.0 < s.interval
    ensures var s' := Update(s, arena, dt, multi, draw);
            s.maxEnemies <= s'.maxEnemies && 0.0 < s'.interval <= s.interval
  {
    GrowNeverShrinks(s.maxEnemies, multi);
    assert s.interval / multi * multi == s.interval;
  }

  /** The spawn interval after `n` frames under the same multiplier. */
  function Cadence(interval: real, multi: real, n: nat): real
    requires multi != 0.0
  {
    if n == 0 then interval else Quicken(Cadence(interval, multi, n - 1), multi)
  }

  /** The enemy cap after `n` frames under the same multiplier. */
  function CapAfter(cap: int, multi: real, n: nat): int
  {
    if n == 0 then cap else Grow(CapAfter(cap, multi, n - 1), multi)
  }

  /** The compounding is per frame, not per level: after `n` frames the
      interval has been divided by `multi` `n` times. */
  lemma {:induction false} IntervalCompoundsPerFrame(interval: real, multi: real, n: nat)
    requires 0.0 < multi
    ensures Cadence(interval, multi, n) * Pow(multi, n) == interval
  {
    if n > 0 {
      IntervalCompoundsPerFrame(interval, multi, n - 1);
      CancelDivision(Cadence(interval, multi, n - 1), multi, Pow(multi, n - 1));
    }
  }

  /** Under a multiplier of at least one the cap only grows, frame after
      frame. */
  lemma {:induction false} CapNeverShrinks(cap: int, multi: real, n: nat)
    requires 0 <= cap && 1.0 <= multi
    ensures cap <= CapAfter(cap, multi, n)
  {
    if n > 0 {
      CapNeverShrinks(cap, multi, n - 1);
      GrowNeverShrinks(CapAfter(cap, multi, n - 1), multi);
    }
  }

  lemma CancelDivision(i: real, m: real, p: real)
    requires m != 0.0
    ensures (i / m) * (m * p) == i * p
  {
    assert (i / m) * m == i;
  }

  /** `n` consecutive `update` calls under the same multiplier, with the
      given frame times and draws. */
  function Run(s: Spawner, arena: Rect, dts: seq<real>, multi: real, draws: seq<SpawnDraw>): Spawner
    requires multi != 0.0 && |draws| == |dts|
    requires forall i :: 0 <= i < |draws| ==> SideFits(arena, draws[i].side)
  {
    if |dts| == 0 then s
    else Update(Run(s, arena, dts[..|dts| - 1], multi, draws[..|draws| - 1]), arena, dts[|dts| - 1], multi, draws[|draws| - 1])
  }

  /** Whatever the frames spawn, the cadence and cap after a run are those of
      `Cadence` and `CapAfter`: the escalation does not depend on spawning. */
  lemma {:induction false} RunEscalatesPerFrame(s: Spawner, arena: Rect, dts: seq<real>, multi: real, draws: seq<SpawnDraw>)
    requires multi != 0.0 && |draws| == |dts|
    requires forall i :: 0 <= i < |draws| ==> SideFits(arena, draws[i].side)
    ensures (Run(s, arena, dts, multi, draws).interval, Run(s, arena, dts, multi, draws).maxEnemies)
         == (Cadence(s.interval, multi, |dts|), CapAfter(s.maxEnemies, multi, |dts|))
  {
    if |dts| > 0 {
      var n := |dts| - 1;
      assert forall i :: 0 <= i < n ==> draws[..n][i] == draws[i];
      RunEscalatesPerFrame(s, arena, dts[..n], multi, draws[..n]);
      var prev := Run(s, arena, dts[..n], multi, draws[..n]);
      var next := Update(prev, arena, dts[n], multi, draws[n]);
      assert Run(s, arena, dts, multi, draws) == next;
    }
  }

  /** Scenario: at level zero (multiplier one) a fresh spawner keeps its
      five-second cadence and cap of ten; after five seconds it spawns. */
  lemma LevelZeroSpawnsEveryFiveSeconds(arena: Rect, draw: SpawnDraw)
    requires SideFits(arena, draw.side)
    ensures var s := Update(NewSpawner, arena, 5.0, 1.0, draw);
            |s.enemies| == 1 && s.timer == 0.0 && s.interval == 5.0 && s.maxEnemies == 10
  {
    TruncOfWhole(10);
  }
}
