/** The player's blaster of weapons.js: firing, moving both shot lists, and the
    cooldown between shots. */
module Weapons {
  import opened Common
  import opened Projectiles
  import opened State
  import opened Ui

  /** Speed of a player shot, in cells per second per unit of facing length. */
  const SHOT_SPEED: real := 18.0
  /** Seconds the blaster stays locked after a shot. */
  const BLASTER_COOLDOWN_TIME: real := 1.0

  /** spawnShot: while the blaster cools down nothing happens; otherwise one shot
      leaves the muzzle along the facing and the blaster locks for a full
      cooldown. */
  method SpawnShot(g: Game)
    modifies g`shots, g`blasterCooldown
    ensures old(g.blasterCooldown) > 0.0 ==>
      g.shots == old(g.shots) && g.blasterCooldown == old(g.blasterCooldown)
    ensures old(g.blasterCooldown) <= 0.0 ==>
      g.shots == old(g.shots) + [Muzzle(g.posX, g.posY, g.dirX, g.dirY, SHOT_SPEED)] &&
      g.blasterCooldown == BLASTER_COOLDOWN_TIME
  {
    if g.blasterCooldown > 0.0 {
      return;
    }
    g.shots := g.shots + [Muzzle(g.posX, g.posY, g.dirX, g.dirY, SHOT_SPEED)];
    g.blasterCooldown := BLASTER_COOLDOWN_TIME;
  }

  /** moveShots: both lists fly for `dt`; the player's shots cannot hit the
      player, enemy shots can, and an enemy shot reaching the player ends the
      run unless god mode is on. */
  method MoveShots(g: Game, dt: real)
    modifies g`shots, g`enemyShots, g`gameOverCountdown
    ensures g.shots == Survivors(g.world, old(g.shots), dt, None)
    ensures g.enemyShots == Survivors(g.world, old(g.enemyShots), dt, Some((g.posX, g.posY)))
    ensures g.gameOverCountdown ==
      if PlayerHits(g.world, old(g.enemyShots), dt, Some((g.posX, g.posY))) > 0 && !g.debugGodMode
      then GAME_OVER_DELAY
      else old(g.gameOverCountdown)
  {
    var kept, _ := MoveShotList(g.world, g.shots, dt, None);
    g.shots := kept;
    var keptEnemy, hits := MoveShotList(g.world, g.enemyShots, dt, Some((g.posX, g.posY)));
    g.enemyShots := keptEnemy;
    if hits > 0 && !g.debugGodMode {
      TriggerGameOver(g);
    }
  }

  /** updateBlasterCooldown: a running cooldown counts down by `dt`, never below 0. */
  method UpdateBlasterCooldown(g: Game, dt: real)
    modifies g`blasterCooldown
    ensures g.blasterCooldown == CooldownAfter(old(g.blasterCooldown), dt)
  {
    if g.blasterCooldown > 0.0 {
      g.blasterCooldown := g.blasterCooldown - dt;
      if g.blasterCooldown < 0.0 {
        g.blasterCooldown := 0.0;
      }
    }
  }

  /** After a shot, frames of non-negative length keep the blaster locked until
      they add up to BLASTER_COOLDOWN_TIME, and unlock it from then on. */
  lemma ShotLocksBlaster(dts: seq<real>)
    requires forall k :: 0 <= k < |dts| ==> dts[k] >= 0.0
    ensures Total(dts) < BLASTER_COOLDOWN_TIME <==> CooldownOver(BLASTER_COOLDOWN_TIME, dts) > 0.0
  {
    CooldownRunsOut(BLASTER_COOLDOWN_TIME, dts);
  }
}
