/** The blaster of the Attack of the Kruptins build (attack-of-the-kruptins/weapons.js):
    the same flight rules as `Weapons`, with its own speed and cooldown, both
    scaled by the purchased upgrades, and with a hit on the player handed to the
    build's damage hook instead of ending the run. */
module KruptinsWeapons {
  import opened Common
  import opened Projectiles
  import opened Upgrades
  import opened State

  /** Base speed of a player shot in this build. */
  const SHOT_SPEED: real := 10.0
  /** Base seconds the blaster stays locked after a shot in this build. */
  const BLASTER_COOLDOWN_TIME: real := 1.4

  /** The shot speed and cooldown a shot uses, given the multipliers applyUpgrades set. */
  function ShotSpeed(projectileSpeedMultiplier: Option<real>): real
  {
    SHOT_SPEED * OrOne(projectileSpeedMultiplier)
  }

  function CooldownTime(blasterCooldownMultiplier: Option<real>): real
  {
    BLASTER_COOLDOWN_TIME * OrOne(blasterCooldownMultiplier)
  }

  /** spawnShot: while the blaster cools down nothing happens; otherwise one shot
      leaves the muzzle at the upgraded speed and the blaster locks for the
      upgraded cooldown. */
  method SpawnShot(g: Game)
    modifies g`shots, g`blasterCooldown
    ensures old(g.blasterCooldown) > 0.0 ==>
      g.shots == old(g.shots) && g.blasterCooldown == old(g.blasterCooldown)
    ensures old(g.blasterCooldown) <= 0.0 ==>
      g.shots == old(g.shots) + [Muzzle(g.posX, g.posY, g.dirX, g.dirY, ShotSpeed(g.projectileSpeedMultiplier))] &&
      g.blasterCooldown == CooldownTime(g.blasterCooldownMultiplier)
  {
    if g.blasterCooldown > 0.0 {
      return;
    }
    var speed := SHOT_SPEED * OrOne(g.projectileSpeedMultiplier);
    g.shots := g.shots + [Muzzle(g.posX, g.posY, g.dirX, g.dirY, speed)];
    g.blasterCooldown := BLASTER_COOLDOWN_TIME * OrOne(g.blasterCooldownMultiplier);
  }

  /** With the multipliers applyUpgrades derives from legal upgrade levels, a shot
      flies between 10 and 22 cells per second per unit of facing, and the
      blaster locks for between 0.35 and 1.4 seconds: each purchase makes shots
      faster and the lock shorter. */
  lemma UpgradedBlaster(speedLevel: int, rateLevel: int)
    requires 0 <= speedLevel <= UPGRADES[PROJECTILE_SPEED].maxLevel
    requires 0 <= rateLevel <= UPGRADES[FIRE_RATE].maxLevel
    ensures SHOT_SPEED <= ShotSpeed(Some(ProjectileSpeedEffect(speedLevel))) <= 22.0
    ensures 0.35 <= CooldownTime(Some(FireRateEffect(rateLevel))) <= BLASTER_COOLDOWN_TIME
    ensures speedLevel < UPGRADES[PROJECTILE_SPEED].maxLevel ==>
      ShotSpeed(Some(ProjectileSpeedEffect(speedLevel))) < ShotSpeed(Some(ProjectileSpeedEffect(speedLevel + 1)))
    ensures rateLevel < UPGRADES[FIRE_RATE].maxLevel ==>
      CooldownTime(Some(FireRateEffect(rateLevel + 1))) < CooldownTime(Some(FireRateEffect(rateLevel)))
  {
  }

  /** moveShots: both lists fly for `dt` as in `Weapons.MoveShots`; each enemy
      shot reaching the player calls the damage hook once, when god mode is off
      and the hook exists. Returns the number of those calls. */
  method MoveShots(g: Game, dt: real, damageHookDefined: bool) returns (damageCalls: nat)
    modifies g`shots, g`enemyShots
    ensures g.shots == Survivors(g.world, old(g.shots), dt, None)
    ensures g.enemyShots == Survivors(g.world, old(g.enemyShots), dt, Some((g.posX, g.posY)))
    ensures damageCalls ==
      if !g.debugGodMode && damageHookDefined then PlayerHits(g.world, old(g.enemyShots), dt, Some((g.posX, g.posY)))
      else 0
  {
    var kept, _ := MoveShotList(g.world, g.shots, dt, None);
    g.shots := kept;
    var keptEnemy, hits := MoveShotList(g.world, g.enemyShots, dt, Some((g.posX, g.posY)));
    g.enemyShots := keptEnemy;
    damageCalls := if !g.debugGodMode && damageHookDefined then hits else 0;
  }

  /** updateBlasterCooldown: as in `Weapons`. */
  method UpdateBlasterCooldown(g: Game, dt: real)
    modifies g`blasterCooldown
    ensures g.blasterCooldown == CooldownAfter(old(g.blasterCooldown), dt)
  {
    if g.blasterCooldown > 0.0 {
      g.blasterCooldown := g.blasterCooldown - dt;
      if g.blasterCooldown < 0.0 {
        g.blasterCooldown := 0.0;
      }
    }
  }
}
