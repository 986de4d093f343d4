/** The value-level half of persistence.js: the upgrade table and its effect
    formulas, the cost formula, and the merge and migration of saved upgrade
    levels. */
module Upgrades {
  import opened Common

  const FIRE_RATE: string := "fireRate"
  const PROJECTILE_SPEED: string := "projectileSpeed"
  const MOVE_SPEED: string := "moveSpeed"
  const HEALTH: string := "health"
  /** The retired upgrade whose level is carried over to projectileSpeed. */
  const LEGACY_DAMAGE: string := "damage"

  /** A row of UPGRADES (the display name and description are left out). */
  datatype Upgrade = Upgrade(maxLevel: nat, baseCost: nat, costMultiplier: real)

  const UPGRADES: map<string, Upgrade> := map[
    FIRE_RATE := Upgrade(5, 200, 1.5),
    PROJECTILE_SPEED := Upgrade(3, 300, 2.0),
    MOVE_SPEED := Upgrade(4, 240, 1.8),
    HEALTH := Upgrade(3, 400, 2.5)]

  /** The level of every upgrade at the start of a save, and after resetUpgrades. */
  const DEFAULT_LEVELS: map<string, int> := map[FIRE_RATE := 0, PROJECTILE_SPEED := 0, MOVE_SPEED := 0, HEALTH := 0]

  /** Levels hold at least the four upgrades (a save may add other keys). */
  predicate HasAllKeys(levels: map<string, int>)
  {
    FIRE_RATE in levels && PROJECTILE_SPEED in levels && MOVE_SPEED in levels && HEALTH in levels
  }

  /** fireRate's effect, the cooldown multiplier: 1.0 falling to 0.25 at level 5. */
  function FireRateEffect(level: int): (m: real)
    ensures 0 <= level <= 5 ==> 0.25 <= m <= 1.0
    ensures level == 0 ==> m == 1.0
    ensures level == 5 ==> m == 0.25
  {
    1.0 - level as real * 0.15
  }

  /** projectileSpeed's effect: 1.0 rising to 2.2 at level 3. */
  function ProjectileSpeedEffect(level: int): (m: real)
    ensures 0 <= level <= 3 ==> 1.0 <= m <= 2.2
    ensures level == 0 ==> m == 1.0
    ensures level == 3 ==> m == 2.2
  {
    1.0 + level as real * 0.4
  }

  /** moveSpeed's effect: 1.0 rising to 1.8 at level 4. */
  function MoveSpeedEffect(level: int): (m: real)
    ensures 0 <= level <= 4 ==> 1.0 <= m <= 1.8
    ensures level == 0 ==> m == 1.0
    ensures level == 4 ==> m == 1.8
  {
    1.0 + level as real * 0.2
  }

  /** health's effect: the number of extra lives, 0 to 3. */
  function HealthEffect(level: int): (n: int)
    ensures 0 <= level <= 3 ==> 0 <= n <= 3
  {
    level
  }

  /** Every effect moves the same way as its level: the cooldown multiplier falls,
      the speed multipliers and extra lives rise. */
  lemma EffectsMonotone(a: int, b: int)
    requires a <= b
    ensures FireRateEffect(b) <= FireRateEffect(a)
    ensures ProjectileSpeedEffect(a) <= ProjectileSpeedEffect(b)
    ensures MoveSpeedEffect(a) <= MoveSpeedEffect(b)
    ensures HealthEffect(a) <= HealthEffect(b)
  {
  }

  function Pow(m: real, n: nat): (p: real)
    ensures m >= 1.0 ==> p >= 1.0
    ensures m > 0.0 ==> p > 0.0
  {
    if n == 0 then 1.0 else m * Pow(m, n - 1)
  }

  /** `Math.pow(m, n)` for any integer exponent. */
  function PowInt(m: real, n: int): real
    requires m > 0.0
  {
    if n >= 0 then Pow(m, n) else 1.0 / Pow(m, -n)
  }

  /** getUpgradeCost: nothing at or above the maximum level, otherwise
      floor(baseCost · multiplier^level). An unknown key is an error in the
      program (it reads a field of undefined), so the key must be a known one. */
  function UpgradeCost(key: string, level: int): (c: Option<int>)
    requires key in UPGRADES
    ensures c.None? <==> level >= UPGRADES[key].maxLevel
    ensures level == 0 ==> c == Some(UPGRADES[key].baseCost)
  {
    var u := UPGRADES[key];
    if level >= u.maxLevel then None
    else Some((u.baseCost as real * PowInt(u.costMultiplier, level)).Floor)
  }

  /** A base of at least 200 grown by a factor of at least 1.5 grows by at least 100. */
  lemma GrowthStep(b: real, p: real, m: real)
    requires b >= 200.0 && p >= 1.0 && m >= 1.5
    ensures b * (m * p) >= b * p + 100.0
  {
    assert b * p >= 200.0;
    assert b * (m * p) == (b * p) * m;
    assert (b * p) * m >= (b * p) * 1.5;
  }

  /** Each further level of an upgrade costs strictly more than the one before. */
  lemma UpgradeCostIncreasing(key: string, level: nat)
    requires key in UPGRADES
    requires level + 1 < UPGRADES[key].maxLevel
    ensures UpgradeCost(key, level).Some? && UpgradeCost(key, level + 1).Some?
    ensures UpgradeCost(key, level).value < UpgradeCost(key, level + 1).value
  {
    var u := UPGRADES[key];
    assert u.baseCost >= 200 && u.costMultiplier >= 1.5;
    GrowthStep(u.baseCost as real, Pow(u.costMultiplier, level), u.costMultiplier);
  }

  // ---------------------------------------------------------------------------
  // Saved upgrade levels
  // ---------------------------------------------------------------------------

  /** The migration in loadProgress: a saved `damage` level moves to projectileSpeed. */
  function Migrate(parsed: map<string, int>): (m: map<string, int>)
    ensures LEGACY_DAMAGE !in m
    ensures LEGACY_DAMAGE in parsed ==> PROJECTILE_SPEED in m && m[PROJECTILE_SPEED] == parsed[LEGACY_DAMAGE]
    ensures forall k :: k in parsed && k != LEGACY_DAMAGE && (k != PROJECTILE_SPEED || LEGACY_DAMAGE !in parsed) ==>
      k in m && m[k] == parsed[k]
    ensures forall k :: k in m ==> k in parsed || k == PROJECTILE_SPEED
  {
    if LEGACY_DAMAGE in parsed then parsed[PROJECTILE_SPEED := parsed[LEGACY_DAMAGE]] - {LEGACY_DAMAGE}
    else parsed
  }

  /** `{ ...upgradelevels, ...parsed }`: saved levels override, every other level stays. */
  function MergeLevels(levels: map<string, int>, parsed: map<string, int>): (m: map<string, int>)
    ensures m.Keys == levels.Keys + parsed.Keys
    ensures forall k :: k in parsed ==> m[k] == parsed[k]
    ensures forall k :: k in levels && k !in parsed ==> m[k] == levels[k]
  {
    levels + parsed
  }

  /** Loading never loses one of the four upgrades. */
  lemma MergeKeepsKeys(levels: map<string, int>, parsed: map<string, int>)
    requires HasAllKeys(levels)
    ensures HasAllKeys(MergeLevels(levels, Migrate(parsed)))
  {
  }
}
