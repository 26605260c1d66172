/** `Upgrade`: the catalog of purchasable stat upgrades with escalating
    costs, and the button click that buys them, locked from press to
    release so that holding the mouse button buys once. */
module Shop {
  import opened Numeric
  import opened Geometry
  import opened Shooter
  import opened Target

  /** The nine catalog keys, in the catalog's (and the buttons') order. */
  datatype Stat = MaxHp | Armor | Dmg | MaxAmmo | AttkSpd | ReloadSpd | CritRate | CritDmg | MoneyGain

  const Order: seq<Stat> := [MaxHp, Armor, Dmg, MaxAmmo, AttkSpd, ReloadSpd, CritRate, CritDmg, MoneyGain]

  /** Which object carries the attribute. The package is asked first; of
      the nine keys it carries `max_hp` and `armor`, the shooter the rest,
      so no key falls through to "not found". */
  datatype Owner = OnPackage | OnPlayer

  function OwnerOf(s: Stat): Owner
  {
    if s == MaxHp || s == Armor then OnPackage else OnPlayer
  }

  /** Stats held as whole numbers; the others are floats. */
  predicate IsWhole(s: Stat)
  {
    s in {MaxHp, Armor, Dmg, MaxAmmo, MoneyGain}
  }

  datatype Mod = IntMod(n: int) | RealMod(x: real)

  datatype Entry = Entry(title: string, cost: int, mod: Mod)

  type Catalog = map<Stat, Entry>

  const CostStep: int := 10

  /** An increment fits its stat: whole stats take whole increments, float
      stats take float increments of at least 0.01, so that rounding to two
      places never swallows a purchase. */
  predicate ModFits(s: Stat, m: Mod)
  {
    if IsWhole(s) then m.IntMod? && m.n >= 0 else m.RealMod? && m.x >= 0.01
  }

  /** Every key is present with a fitting increment. */
  predicate CatalogOk(c: Catalog)
  {
    forall s: Stat :: s in c && ModFits(s, c[s].mod)
  }

  /** The entries `Upgrade` starts with: every key at cost 10. */
  const InitialEntries: Catalog := map[
    MaxHp := Entry("Max HP", 10, IntMod(10)),
    Armor := Entry("Armor", 10, IntMod(1)),
    Dmg := Entry("Damage", 10, IntMod(10)),
    MaxAmmo := Entry("Max Ammo", 10, IntMod(1)),
    AttkSpd := Entry("Attack Speed", 10, RealMod(0.5)),
    ReloadSpd := Entry("Reload Speed", 10, RealMod(0.5)),
    CritRate := Entry("Crit Rate", 10, RealMod(0.01)),
    CritDmg := Entry("Crit Damage", 10, RealMod(0.1)),
    MoneyGain := Entry("Money Gain", 10, IntMod(10))]

  lemma InitialEntriesFit()
    ensures CatalogOk(InitialEntries)
    ensures forall s: Stat :: InitialEntries[s].cost == 10
  {
    forall s: Stat ensures s in InitialEntries && ModFits(s, InitialEntries[s].mod) && InitialEntries[s].cost == 10 {
      match s
      case MaxHp => case Armor => case Dmg => case MaxAmmo => case AttkSpd =>
      case ReloadSpd => case CritRate => case CritDmg => case MoneyGain =>
    }
  }

  /** The catalog `Upgrade` starts with, well formed, every key at cost 10. */
  function DefaultCatalog(): (c: Catalog)
    ensures CatalogOk(c)
    ensures forall s: Stat :: c[s].cost == 10
  {
    InitialEntriesFit();
    InitialEntries
  }

  /** The current value of a stat, read from its owner. */
  function StatValue(player: Player, pack: Package, s: Stat): real
  {
    match s
    case MaxHp => pack.maxHp as real
    case Armor => pack.armor as real
    case Dmg => player.dmg as real
    case MaxAmmo => player.maxAmmo as real
    case AttkSpd => player.attkSpd
    case ReloadSpd => player.reloadSpd
    case CritRate => player.critRate
    case CritDmg => player.critDmg
    case MoneyGain => player.moneyBounty as real
  }

  /** What a purchase sets the stat to: `round(current + mod, 2)`, which
      leaves a whole number whole. */
  function Upgraded(current: real, m: Mod): real
  {
    match m
    case IntMod(n) => current + n as real
    case RealMod(x) => Round2(current + x)
  }

  /** `setattr(target, stat, round(current + mod, 2))` on the owner. */
  function Apply(player: Player, pack: Package, s: Stat, m: Mod): (r: (Player, Package))
    requires ModFits(s, m)
    ensures StatValue(r.0, r.1, s) == Upgraded(StatValue(player, pack, s), m)
    ensures forall t: Stat :: t != s ==> StatValue(r.0, r.1, t) == StatValue(player, pack, t)
    ensures OwnerOf(s) == OnPlayer ==> r.1 == pack
    ensures OwnerOf(s) == OnPackage ==> r.0 == player
    ensures r.0.bullets == player.bullets && r.0.wallet == player.wallet && r.0.reloading == player.reloading
    ensures r.0.nextShotTime == player.nextShotTime && r.0.reloadFinishTime == player.reloadFinishTime
    ensures r.1.hp == pack.hp && r.1.rect == pack.rect
  {
    match s
    case MaxHp => (player, pack.(maxHp := pack.maxHp + m.n))
    case Armor => (player, pack.(armor := pack.armor + m.n))
    case Dmg => (player.(dmg := player.dmg + m.n), pack)
    case MaxAmmo => (player.(maxAmmo := player.maxAmmo + m.n), pack)
    case AttkSpd => (player.(attkSpd := Round2(player.attkSpd + m.x)), pack)
    case ReloadSpd => (player.(reloadSpd := Round2(player.reloadSpd + m.x)), pack)
    case CritRate => (player.(critRate := Round2(player.critRate + m.x)), pack)
    case CritDmg => (player.(critDmg := Round2(player.critDmg + m.x)), pack)
    case MoneyGain => (player.(moneyBounty := player.moneyBounty + m.n), pack)
  }

  /** `add_upgrade`: with enough money, exactly the chosen stat is raised
      by its increment, the cost is paid and the next cost is ten more;
      otherwise nothing changes. */
  function AddUpgrade(c: Catalog, player: Player, pack: Package, s: Stat): (r: (Catalog, Player, Package))
    requires CatalogOk(c)
    ensures player.wallet < c[s].cost ==> r == (c, player, pack)
    ensures player.wallet >= c[s].cost ==>
              && r.1.wallet == player.wallet - c[s].cost
              && r.0 == c[s := c[s].(cost := c[s].cost + CostStep)]
              && StatValue(r.1, r.2, s) == Upgraded(StatValue(player, pack, s), c[s].mod)
    ensures forall t: Stat :: t != s ==> StatValue(r.1, r.2, t) == StatValue(player, pack, t)
    ensures r.1.bullets == player.bullets && r.1.reloading == player.reloading
    ensures r.2.hp == pack.hp && r.2.rect == pack.rect
  {
    var e := c[s];
    if player.wallet < e.cost then (c, player, pack)
    else
      var up := Apply(player, pack, s, e.mod);
      (c[s := e.(cost := e.cost + CostStep)], up.0.(wallet := up.0.wallet - e.cost), up.1)
  }

  /** A purchase keeps the catalog well formed and changes no increment or
      title. */
  lemma AddUpgradeKeepsCatalog(c: Catalog, player: Player, pack: Package, s: Stat)
    requires CatalogOk(c)
    ensures var c' := AddUpgrade(c, player, pack, s).0;
            && CatalogOk(c')
            && forall t: Stat :: c'[t].mod == c[t].mod && c'[t].title == c[t].title
  {
  }

  /** A purchase never makes the wallet negative, never breaks the
      shooter's invariant, and never makes an upgraded stat smaller. */
  lemma AddUpgradeKeepsPlayerValid(c: Catalog, player: Player, pack: Package, s: Stat)
    requires CatalogOk(c) && Valid(player) && player.wallet >= 0
    ensures var r := AddUpgrade(c, player, pack, s);
            Valid(r.1) && r.1.wallet >= 0 && StatValue(player, pack, s) <= StatValue(r.1, r.2, s)
  {
    var r := AddUpgrade(c, player, pack, s);
    if player.wallet >= c[s].cost {
      assert StatValue(r.1, r.2, s) == Upgraded(StatValue(player, pack, s), c[s].mod);
    }
  }

  /** Scenario: buying `max_hp` at cost 10 with 15 in the wallet leaves 5,
      raises the package's maximum by 10 and the next price to 20. */
  lemma BuyMaxHpScenario(player: Player, pack: Package)
    requires player.wallet == 15
    ensures var r := AddUpgrade(DefaultCatalog(), player, pack, MaxHp);
            r.1.wallet == 5 && r.2.maxHp == pack.maxHp + 10 && r.0[MaxHp].cost == 20
  {
  }

  /** Scenario: with 5 in the wallet nothing can be bought from the
      default catalog. */
  lemma TooPoorScenario(player: Player, pack: Package, s: Stat)
    requires player.wallet == 5
    ensures AddUpgrade(DefaultCatalog(), player, pack, s) == (DefaultCatalog(), player, pack)
  {
  }

  datatype Button = Button(rect: Rect, stat: Stat)

  /** `create_buttons`: one 280 by 50 button per key, 60 pixels apart. */
  function LayoutButtons(posx: int, posy: int): (bs: seq<Button>)
    ensures |bs| == |Order|
    ensures forall i :: 0 <= i < |bs| ==> bs[i] == Button(Rect(posx + 10, posy + 10 + 60 * i, 280, 50), Order[i])
  {
    seq(|Order|, i requires 0 <= i < |Order| => Button(Rect(posx + 10, posy + 10 + 60 * i, 280, 50), Order[i]))
  }

  /** The laid-out buttons do not overlap, so a point is over at most one. */
  lemma LayoutDisjoint(posx: int, posy: int, p: Point, i: int, j: int)
    requires 0 <= i < j < |Order|
    ensures var bs := LayoutButtons(posx, posy);
            !(bs[i].rect.CollidePoint(p) && bs[j].rect.CollidePoint(p))
  {
  }

  datatype Upgrades = Upgrades(catalog: Catalog, buttons: seq<Button>, locked: bool)

  /** A new shop starts locked: a press carried over from before is
      ignored until the button is released. */
  function NewUpgrades(posx: int, posy: int): (u: Upgrades)
    ensures u.locked && u.catalog == DefaultCatalog() && |u.buttons| == |Order|
  {
    Upgrades(DefaultCatalog(), LayoutButtons(posx, posy), true)
  }

  /** The scan of `click` over the buttons: every button under the pointer
      buys its stat and sets the lock. */
  function ClickButtons(c: Catalog, bs: seq<Button>, player: Player, pack: Package, p: Point, locked: bool)
    : (r: (Catalog, Player, Package, bool))
    requires CatalogOk(c)
    ensures CatalogOk(r.0)
    ensures r.3 <==> locked || exists i :: 0 <= i < |bs| && bs[i].rect.CollidePoint(p)
    ensures (forall i :: 0 <= i < |bs| ==> !bs[i].rect.CollidePoint(p)) ==> r == (c, player, pack, locked)
    decreases |bs|
  {
    if |bs| == 0 then (c, player, pack, locked)
    else
      var step := if bs[0].rect.CollidePoint(p) then AddUpgrade(c, player, pack, bs[0].stat) else (c, player, pack);
      AddUpgradeKeepsCatalog(c, player, pack, bs[0].stat);
      var r := ClickButtons(step.0, bs[1..], step.1, step.2, p, locked || bs[0].rect.CollidePoint(p));
      assert (exists i :: 0 <= i < |bs[1..]| && bs[1..][i].rect.CollidePoint(p))
         ==> exists i :: 0 <= i < |bs| && bs[i].rect.CollidePoint(p);
      r
  }

  /** `Upgrade.click`: a press while unlocked runs the scan; a release
      unlocks; a press while locked does nothing. */
  function Click(u: Upgrades, player: Player, pack: Package, p: Point, pressed: bool): (r: (Upgrades, Player, Package))
    requires CatalogOk(u.catalog)
    ensures CatalogOk(r.0.catalog) && r.0.buttons == u.buttons
    ensures !pressed ==> r == (u.(locked := false), player, pack)
    ensures pressed && u.locked ==> r == (u, player, pack)
    ensures pressed && !u.locked ==>
              (r.0.locked <==> exists i :: 0 <= i < |u.buttons| && u.buttons[i].rect.CollidePoint(p))
  {
    if pressed && !u.locked then
      var r := ClickButtons(u.catalog, u.buttons, player, pack, p, false);
      (u.(catalog := r.0, locked := r.3), r.1, r.2)
    else if !pressed then (u.(locked := false), player, pack)
    else (u, player, pack)
  }

  /** When exactly one button is under the pointer, the scan is that one
      purchase and sets the lock. */
  lemma {:induction false} ScanWithOneHit(c: Catalog, bs: seq<Button>, player: Player, pack: Package, p: Point, locked: bool, i: int)
    requires CatalogOk(c)
    requires 0 <= i < |bs| && bs[i].rect.CollidePoint(p)
    requires forall j :: 0 <= j < |bs| && j != i ==> !bs[j].rect.CollidePoint(p)
    ensures var a := AddUpgrade(c, player, pack, bs[i].stat);
            ClickButtons(c, bs, player, pack, p, locked) == (a.0, a.1, a.2, true)
    decreases |bs|
  {
    assert forall j :: 0 <= j < |bs[1..]| ==> bs[1..][j] == bs[j + 1];
    if i > 0 {
      ScanWithOneHit(c, bs[1..], player, pack, p, locked, i - 1);
    } else {
      AddUpgradeKeepsCatalog(c, player, pack, bs[0].stat);
    }
  }

  /** With the buttons as `create_buttons` lays them out, a click over a
      button buys exactly that button's upgrade, once. */
  lemma ClickBuysOne(u: Upgrades, player: Player, pack: Package, p: Point, posx: int, posy: int, i: int)
    requires CatalogOk(u.catalog) && !u.locked && u.buttons == LayoutButtons(posx, posy)
    requires 0 <= i < |u.buttons| && u.buttons[i].rect.CollidePoint(p)
    ensures var a := AddUpgrade(u.catalog, player, pack, u.buttons[i].stat);
            Click(u, player, pack, p, true) == (u.(catalog := a.0, locked := true), a.1, a.2)
  {
    forall j | 0 <= j < |u.buttons| && j != i
      ensures !u.buttons[j].rect.CollidePoint(p)
    {
      if j < i { LayoutDisjoint(posx, posy, p, j, i); } else { LayoutDisjoint(posx, posy, p, i, j); }
    }
    ScanWithOneHit(u.catalog, u.buttons, player, pack, p, false, i);
  }

  /** Holding the mouse button down over a button buys once: every later
      frame with the button still pressed changes nothing. */
  lemma HeldPressBuysOnce(u: Upgrades, player: Player, pack: Package, p: Point, q: Point, i: int)
    requires CatalogOk(u.catalog) && !u.locked
    requires 0 <= i < |u.buttons| && u.buttons[i].rect.CollidePoint(p)
    ensures var r1 := Click(u, player, pack, p, true);
            Click(r1.0, r1.1, r1.2, q, true) == r1
  {
  }

  /** A press that misses every button leaves the shop unlocked, so sliding
      onto a button with the mouse still down then buys. */
  lemma MissKeepsUnlocked(u: Upgrades, player: Player, pack: Package, p: Point)
    requires CatalogOk(u.catalog) && !u.locked
    requires forall i :: 0 <= i < |u.buttons| ==> !u.buttons[i].rect.CollidePoint(p)
    ensures Click(u, player, pack, p, true) == (u, player, pack)
  {
  }
}
