/** `Player`: the magazine, fire cooldown and reload machine of the shooter.
    Times are the millisecond tick count, passed in as `now`; the pointer
    position and the critical-hit draw in [0, 1) are passed in as well. */
module Shooter {
  import opened Numeric
  import opened Geometry

  datatype Player = Player(
    maxAmmo: int,
    bullets: int,
    dmg: int,
    attkSpd: real,
    reloadSpd: real,
    critRate: real,
    critDmg: real,
    wallet: int,
    reloading: bool,
    nextShotTime: int,
    reloadFinishTime: int,
    moneyBounty: int)

  /** Magazine within bounds and positive speeds (the speeds divide 1000). */
  predicate Valid(p: Player)
  {
    0 <= p.bullets <= p.maxAmmo && p.attkSpd > 0.0 && p.reloadSpd > 0.0
  }

  /** A fresh shooter; the first shot is allowed 300 ms after creation. */
  function NewPlayer(now: int): (p: Player)
    ensures Valid(p) && p.bullets == p.maxAmmo && !p.reloading
    ensures p.wallet == 0 && p.nextShotTime == now + 300
  {
    Player(6, 6, 10, 2.0, 1.0, 0.1, 0.5, 0, false, now + 300, 0, 10)
  }

  /** What a fire attempt hands to the frame: nothing, or the pointer
      position with the damage to apply there. */
  datatype Shot = NoShot | Fired(at: Point, damage: real)

  datatype Key = KeyR | KeyEscape | OtherKey

  datatype Event = MouseDown(button: int) | KeyDown(key: Key) | QuitEvent | OtherEvent

  /** Milliseconds between shots and milliseconds a reload takes. */
  function Cooldown(p: Player): int
    requires p.attkSpd != 0.0
  {
    Trunc(1000.0 / p.attkSpd)
  }

  function ReloadTime(p: Player): int
    requires p.reloadSpd != 0.0
  {
    Trunc(1000.0 / p.reloadSpd)
  }

  /** Damage of a shot: a draw below the crit rate adds `dmg * critDmg`. */
  function ShotDamage(p: Player, roll: real): (d: real)
    ensures roll < p.critRate ==> d == p.dmg as real * (1.0 + p.critDmg)
    ensures roll >= p.critRate ==> d == p.dmg as real
  {
    p.dmg as real + p.dmg as real * (if roll < p.critRate then p.critDmg else 0.0)
  }

  /** `start_reload`: ignored while a reload runs; otherwise the reload is
      due `ReloadTime` ms from now. The magazine is not touched. */
  function StartReload(p: Player, now: int): (q: Player)
    requires p.reloadSpd != 0.0
    ensures q.reloading
    ensures p.reloading ==> q == p
    ensures !p.reloading ==> q == p.(reloading := true, reloadFinishTime := now + ReloadTime(p))
  {
    if p.reloading then p
    else p.(reloading := true, reloadFinishTime := now + ReloadTime(p))
  }

  /** `shoot`: refused while reloading or cooling down (nothing changes),
      turned into a reload on an empty magazine, otherwise spends exactly
      one round and starts the cooldown. */
  function Shoot(p: Player, now: int, pointer: Point, roll: real): (r: (Player, Shot))
    requires p.attkSpd != 0.0 && p.reloadSpd != 0.0
    ensures r.1.Fired? <==> !p.reloading && now >= p.nextShotTime && p.bullets > 0
    ensures p.reloading || now < p.nextShotTime ==> r.0 == p
    ensures !p.reloading && now >= p.nextShotTime && p.bullets <= 0 ==>
              r.0 == StartReload(p, now) && r.0.reloading && r.0.bullets == p.bullets
    ensures r.1.Fired? ==>
              && r.1 == Fired(pointer, ShotDamage(p, roll))
              && r.0 == p.(bullets := p.bullets - 1, nextShotTime := now + Cooldown(p))
  {
    if p.reloading then (p, NoShot)
    else if now < p.nextShotTime then (p, NoShot)
    else if p.bullets <= 0 then (StartReload(p, now), NoShot)
    else (p.(bullets := p.bullets - 1, nextShotTime := now + Cooldown(p)),
          Fired(pointer, ShotDamage(p, roll)))
  }

  /** The first part of `update`: a due reload refills the magazine. */
  function FinishReload(p: Player, now: int): (q: Player)
    ensures p.reloading && now >= p.reloadFinishTime ==>
              q == p.(bullets := p.maxAmmo, reloading := false)
    ensures !(p.reloading && now >= p.reloadFinishTime) ==> q == p
  {
    if p.reloading && now >= p.reloadFinishTime then p.(bullets := p.maxAmmo, reloading := false)
    else p
  }

  predicate IsLeftClick(e: Event)
  {
    e.MouseDown? && e.button == 1
  }

  /** The event scan of `update`: the first left click fires and ends the
      scan; an `r` key before it starts a reload. */
  function HandleEvents(p: Player, events: seq<Event>, now: int, pointer: Point, roll: real): (r: (Player, Shot))
    requires p.attkSpd != 0.0 && p.reloadSpd != 0.0
    ensures Valid(p) ==> Valid(r.0)
    ensures r.0.attkSpd == p.attkSpd && r.0.reloadSpd == p.reloadSpd
    ensures r.0.bullets == p.bullets || (r.1.Fired? && r.0.bullets == p.bullets - 1)
    ensures r.1.Fired? ==> exists i :: 0 <= i < |events| && IsLeftClick(events[i])
    ensures r.0.maxAmmo == p.maxAmmo && r.0.wallet == p.wallet && r.0.moneyBounty == p.moneyBounty
    decreases |events|
  {
    if |events| == 0 then (p, NoShot)
    else if IsLeftClick(events[0]) then Shoot(p, now, pointer, roll)
    else
      var p' := if events[0] == KeyDown(KeyR) then StartReload(p, now) else p;
      var r := HandleEvents(p', events[1..], now, pointer, roll);
      assert r.1.Fired? ==> exists i :: 0 <= i < |events[1..]| && IsLeftClick(events[1..][i]);
      r
  }

  /** `Player.update(events)`. */
  function Update(p: Player, events: seq<Event>, now: int, pointer: Point, roll: real): (r: (Player, Shot))
    requires p.attkSpd != 0.0 && p.reloadSpd != 0.0
    ensures Valid(p) ==> Valid(r.0)
    ensures r.0.attkSpd == p.attkSpd && r.0.reloadSpd == p.reloadSpd
    ensures r.1.Fired? ==> exists i :: 0 <= i < |events| && IsLeftClick(events[i])
    ensures r.0.maxAmmo == p.maxAmmo && r.0.wallet == p.wallet && r.0.moneyBounty == p.moneyBounty
  {
    HandleEvents(FinishReload(p, now), events, now, pointer, roll)
  }

  /** No round is ever fired while a reload is running. */
  lemma NoFireWhileReloading(p: Player, now: int, pointer: Point, roll: real)
    requires Valid(p) && p.reloading && now < p.reloadFinishTime
    ensures Shoot(p, now, pointer, roll) == (p, NoShot)
  {
  }

  /** Right after a shot, any further attempt before the cooldown ends is
      refused and changes nothing. */
  lemma CooldownRefusesSecondShot(p: Player, now: int, later: int, pointer: Point, roll: real, roll2: real)
    requires Valid(p)
    requires Shoot(p, now, pointer, roll).1.Fired?
    requires later < now + Cooldown(p)
    ensures var q := Shoot(p, now, pointer, roll).0;
            Shoot(q, later, pointer, roll2) == (q, NoShot)
  {
  }

  /** An empty magazine: the attempt starts a reload and hits nothing; once
      the reload is due the next update refills the magazine. */
  lemma EmptyMagazineReloads(p: Player, now: int, pointer: Point, roll: real)
    requires Valid(p) && !p.reloading && p.bullets == 0 && now >= p.nextShotTime
    ensures var q := Shoot(p, now, pointer, roll);
            && q.1 == NoShot && q.0.reloading && q.0.bullets == 0
            && FinishReload(q.0, now + ReloadTime(p)).bullets == p.maxAmmo
            && !FinishReload(q.0, now + ReloadTime(p)).reloading
  {
  }

  /** Asking for a reload twice is the same as asking once. */
  lemma StartReloadIdempotent(p: Player, now: int, later: int)
    requires p.reloadSpd != 0.0
    ensures StartReload(StartReload(p, now), later) == StartReload(p, now)
  {
  }

  /** A frame without a left click never fires. */
  lemma NoClickNoShot(p: Player, events: seq<Event>, now: int, pointer: Point, roll: real)
    requires Valid(p)
    requires forall i :: 0 <= i < |events| ==> !IsLeftClick(events[i])
    ensures Update(p, events, now, pointer, roll).1 == NoShot
  {
  }
}
