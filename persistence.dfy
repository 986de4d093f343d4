/** The stateful half of persistence.js: applying upgrade effects to the game,
    buying and resetting upgrades, the life counter, and loading a save from the
    cookie string. Writing cookies and the shop's DOM are not part of the model. */
module Persistence {
  import opened Common
  import opened Upgrades
  import opened Cookies
  import opened State

  const CREDITS_COOKIE: string := "kruptins_credits"
  const UPGRADES_COOKIE: string := "kruptins_upgrades"

  // ---------------------------------------------------------------------------
  // The purse: credits, upgrade levels and lives as values
  // ---------------------------------------------------------------------------

  /** The part of the game state the shop reads and writes. */
  datatype Purse = Purse(credits: int, levels: map<string, int>, lives: int, maxLives: int)

  /** A purse as a run keeps it: credits are never owed, every upgrade is within
      its levels, the life cap is one plus the health level, and the lives are
      within the cap. */
  predicate PurseOk(p: Purse)
  {
    p.credits >= 0 && HasAllKeys(p.levels) &&
    (forall k :: k in UPGRADES ==> k in p.levels && 0 <= p.levels[k] <= UPGRADES[k].maxLevel) &&
    p.maxLives == 1 + HealthEffect(p.levels[HEALTH]) &&
    0 <= p.lives <= p.maxLives
  }

  /** The life cap applyUpgrades derives from the levels, and the lives it clamps to it. */
  function MaxLivesFor(levels: map<string, int>): int
    requires HEALTH in levels
  {
    1 + HealthEffect(levels[HEALTH])
  }

  /** purchaseUpgrade on a purse: whether the purchase went through, and the purse after. */
  function Purchased(p: Purse, key: string): (bool, Purse)
    requires key in UPGRADES && HasAllKeys(p.levels)
  {
    var cost := UpgradeCost(key, p.levels[key]);
    if cost.None? || p.credits < cost.value then (false, p)
    else
      var levels := p.levels[key := p.levels[key] + 1];
      var maxLives := MaxLivesFor(levels);
      var clamped := MinInt(p.lives, maxLives);
      var lives := if key == HEALTH && maxLives > p.maxLives then MinInt(clamped + 1, maxLives) else clamped;
      (true, Purse(p.credits - cost.value, levels, lives, maxLives))
  }

  /** A purchase goes through exactly when the upgrade is below its maximum level
      and the credits cover its cost; then the cost is paid and the level rises by
      one; a refused purchase changes nothing. */
  lemma PurchaseSpends(p: Purse, key: string)
    requires key in UPGRADES && HasAllKeys(p.levels)
    ensures Purchased(p, key).0 <==>
      p.levels[key] < UPGRADES[key].maxLevel && p.credits >= UpgradeCost(key, p.levels[key]).value
    ensures !Purchased(p, key).0 ==> Purchased(p, key).1 == p
    ensures Purchased(p, key).0 ==>
      Purchased(p, key).1.credits == p.credits - UpgradeCost(key, p.levels[key]).value &&
      Purchased(p, key).1.levels == p.levels[key := p.levels[key] + 1]
  {
  }

  /** Purchases keep a purse well-formed: credits never go negative and no level
      passes its maximum. */
  lemma PurchaseKeepsPurseOk(p: Purse, key: string)
    requires key in UPGRADES && PurseOk(p)
    ensures PurseOk(Purchased(p, key).1)
  {
    var cost := UpgradeCost(key, p.levels[key]);
    if cost.Some? && p.credits >= cost.value {
      var q := Purchased(p, key).1;
      forall k | k in UPGRADES
        ensures k in q.levels && 0 <= q.levels[k] <= UPGRADES[k].maxLevel
      {
        if k == key {
          assert p.levels[key] < UPGRADES[key].maxLevel;
        }
      }
    }
  }

  /** Buying health on a well-formed purse raises the life cap by one and grants
      that life at once; buying anything else leaves the lives alone. */
  lemma HealthPurchaseGrantsLife(p: Purse, key: string)
    requires key in UPGRADES && PurseOk(p) && Purchased(p, key).0
    ensures key == HEALTH ==>
      Purchased(p, key).1.maxLives == p.maxLives + 1 && Purchased(p, key).1.lives == p.lives + 1
    ensures key != HEALTH ==>
      Purchased(p, key).1.maxLives == p.maxLives && Purchased(p, key).1.lives == p.lives
  {
  }

  /** loseLife on a life count: whether the run is over, and the lives left. */
  function LifeLost(lives: int): (bool, int)
  {
    if lives > 1 then (false, lives - 1) else (true, 0)
  }

  /** The lives left after `k` lives lost in a row. */
  function LivesAfter(lives: int, k: nat): int
    decreases k
  {
    if k == 0 then lives else LivesAfter(LifeLost(lives).1, k - 1)
  }

  /** With `n` lives a run survives exactly n - 1 lost lives: each of them leaves
      one life fewer and does not end the run, and the next one ends it. */
  lemma {:induction false} LivesLast(n: int, k: nat)
    requires 1 <= n && k < n
    ensures LivesAfter(n, k) == n - k
    ensures LifeLost(LivesAfter(n, k)).0 <==> k == n - 1
  {
    if k > 0 {
      LivesLast(n - 1, k - 1);
    }
  }

  // ---------------------------------------------------------------------------
  // The operations on the game
  // ---------------------------------------------------------------------------

  /** The purse of the running game. */
  function PurseOf(g: Game): Purse
    reads g
  {
    Purse(g.credits, g.upgradeLevels, g.playerLives, g.maxLives)
  }

  /** applyUpgrades: the three multipliers become the effects of the current
      levels, the life cap becomes one plus the health level, and the lives are
      clamped to it. */
  method ApplyUpgrades(g: Game)
    requires HasAllKeys(g.upgradeLevels)
    modifies g`moveSpeedMultiplier, g`blasterCooldownMultiplier, g`projectileSpeedMultiplier, g`maxLives, g`playerLives
    ensures g.moveSpeedMultiplier == Some(MoveSpeedEffect(g.upgradeLevels[MOVE_SPEED]))
    ensures g.blasterCooldownMultiplier == Some(FireRateEffect(g.upgradeLevels[FIRE_RATE]))
    ensures g.projectileSpeedMultiplier == Some(ProjectileSpeedEffect(g.upgradeLevels[PROJECTILE_SPEED]))
    ensures g.maxLives == MaxLivesFor(g.upgradeLevels)
    ensures g.playerLives == MinInt(old(g.playerLives), g.maxLives)
  {
    g.moveSpeedMultiplier := Some(MoveSpeedEffect(g.upgradeLevels[MOVE_SPEED]));
    g.blasterCooldownMultiplier := Some(FireRateEffect(g.upgradeLevels[FIRE_RATE]));
    g.projectileSpeedMultiplier := Some(ProjectileSpeedEffect(g.upgradeLevels[PROJECTILE_SPEED]));
    g.maxLives := 1 + HealthEffect(g.upgradeLevels[HEALTH]);
    if g.playerLives > g.maxLives {
      g.playerLives := g.maxLives;
    }
  }

  /** purchaseUpgrade: the purse changes as `Purchased` says, and a purchase that
      goes through re-applies the upgrade effects. */
  method PurchaseUpgrade(g: Game, key: string) returns (ok: bool)
    requires key in UPGRADES && HasAllKeys(g.upgradeLevels)
    modifies g`credits, g`upgradeLevels, g`moveSpeedMultiplier, g`blasterCooldownMultiplier,
      g`projectileSpeedMultiplier, g`maxLives, g`playerLives
    ensures (ok, PurseOf(g)) == Purchased(old(PurseOf(g)), key)
    ensures HasAllKeys(g.upgradeLevels)
    ensures ok ==> (g.moveSpeedMultiplier == Some(MoveSpeedEffect(g.upgradeLevels[MOVE_SPEED])) &&
      g.blasterCooldownMultiplier == Some(FireRateEffect(g.upgradeLevels[FIRE_RATE])) &&
      g.projectileSpeedMultiplier == Some(ProjectileSpeedEffect(g.upgradeLevels[PROJECTILE_SPEED])))
    ensures !ok ==> unchanged(g)
  {
    var cost := UpgradeCost(key, g.upgradeLevels[key]);
    if cost.None? {
      return false;
    }
    if g.credits >= cost.value {
      g.credits := g.credits - cost.value;
      g.upgradeLevels := g.upgradeLevels[key := g.upgradeLevels[key] + 1];
      if key == HEALTH {
        var oldMaxLives := g.maxLives;
        ApplyUpgrades(g);
        if g.maxLives > oldMaxLives {
          g.playerLives := MinInt(g.playerLives + 1, g.maxLives);
        }
      } else {
        ApplyUpgrades(g);
      }
      return true;
    }
    return false;
  }

  /** resetUpgrades: every level back to 0, no credits, effects re-applied. */
  method ResetUpgrades(g: Game)
    modifies g`credits, g`upgradeLevels, g`moveSpeedMultiplier, g`blasterCooldownMultiplier,
      g`projectileSpeedMultiplier, g`maxLives, g`playerLives
    ensures g.upgradeLevels == DEFAULT_LEVELS && g.credits == 0
    ensures g.moveSpeedMultiplier == Some(1.0) && g.blasterCooldownMultiplier == Some(1.0) &&
      g.projectileSpeedMultiplier == Some(1.0)
    ensures g.maxLives == 1 && g.playerLives == MinInt(old(g.playerLives), 1)
  {
    g.upgradeLevels := DEFAULT_LEVELS;
    g.credits := 0;
    ApplyUpgrades(g);
  }

  /** resetLives: a full set of lives. */
  method ResetLives(g: Game)
    modifies g`playerLives
    ensures g.playerLives == g.maxLives
  {
    g.playerLives := g.maxLives;
  }

  /** loseLife: one life fewer while more than one is left, otherwise none left
      and the run is over. */
  method LoseLife(g: Game) returns (over: bool)
    modifies g`playerLives
    ensures (over, g.playerLives) == LifeLost(old(g.playerLives))
  {
    if g.playerLives > 1 {
      g.playerLives := g.playerLives - 1;
      return false;
    }
    g.playerLives := 0;
    return true;
  }

  /** loadProgress over the cookie string. A credits entry replaces the credits
      with its parsed value; an upgrades entry with a value, when `parsed` holds what
      JSON.parse made of it (None: the parse threw), is migrated and merged over the current
      levels; the effects are re-applied in every case. */
  method LoadProgress(g: Game, cookie: string, parsed: Option<map<string, int>>)
    requires HasAllKeys(g.upgradeLevels)
    modifies g`credits, g`upgradeLevels, g`moveSpeedMultiplier, g`blasterCooldownMultiplier,
      g`projectileSpeedMultiplier, g`maxLives, g`playerLives
    ensures g.credits == LoadedCredits(CookieLookup(Split(cookie, ';'), CREDITS_COOKIE), old(g.credits))
    ensures g.upgradeLevels ==
      if CookieLookup(Split(cookie, ';'), UPGRADES_COOKIE).Value? && parsed.Some?
      then MergeLevels(old(g.upgradeLevels), Migrate(parsed.value))
      else old(g.upgradeLevels)
    ensures HasAllKeys(g.upgradeLevels)
    ensures g.maxLives == MaxLivesFor(g.upgradeLevels) && g.playerLives == MinInt(old(g.playerLives), g.maxLives)
    ensures g.moveSpeedMultiplier == Some(MoveSpeedEffect(g.upgradeLevels[MOVE_SPEED]))
    ensures g.blasterCooldownMultiplier == Some(FireRateEffect(g.upgradeLevels[FIRE_RATE]))
    ensures g.projectileSpeedMultiplier == Some(ProjectileSpeedEffect(g.upgradeLevels[PROJECTILE_SPEED]))
  {
    var savedCredits := GetCookie(cookie, CREDITS_COOKIE);
    if savedCredits != NotFound {
      g.credits := LoadedCredits(savedCredits, g.credits);
    }
    var savedUpgrades := GetCookie(cookie, UPGRADES_COOKIE);
    // An entry without '=' hands JSON.parse undefined, which throws: no merge.
    if savedUpgrades.Value? && parsed.Some? {
      MergeKeepsKeys(g.upgradeLevels, parsed.value);
      g.upgradeLevels := MergeLevels(g.upgradeLevels, Migrate(parsed.value));
    }
    ApplyUpgrades(g);
  }

}
