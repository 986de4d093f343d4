/** The countdown half of ui.js's drawGameOverScreen. It calls start_new_run,
    so it sits above GameCore; triggerGameOver, which the weapons call, is in
    `Ui`. */
module GameOver {
  import opened Common
  import opened Tiles
  import opened State
  import opened WorldGeneration
  import opened GameCore
  import Ui

  /** The countdown is either off (-1) or still running (above zero): the
      value the scripts start with, the value triggerGameOver sets and the
      values drawGameOverScreen leaves. */
  predicate CountdownOk(c: real) {
    c == -1.0 || c > 0.0
  }

  /** The countdown a frame of drawGameOverScreen leaves behind, from the one
      it found and the frame's step: untouched when off, lowered by dt while
      time remains, and back to -1 once it runs out. */
  function CountdownAfter(c: real, dt: real): (r: real)
    ensures c < 0.0 ==> r == c
    ensures c >= 0.0 ==> CountdownOk(r)
    ensures c >= 0.0 && r != -1.0 ==> r == c - dt && r > 0.0
  {
    if c < 0.0 then c
    else if c - dt <= 0.0 then -1.0
    else c - dt
  }

  /** With a fixed positive frame step, a countdown of c lasts exactly the
      frames needed to spend it: after n frames it is c - n*dt while that is
      still positive, and the frame after the last such one ends it. */
  function CountdownAfterFrames(c: real, dt: real, n: nat): real
  {
    if n == 0 then c else CountdownAfter(CountdownAfterFrames(c, dt, n - 1), dt)
  }

  lemma {:induction false} CountdownRunsDown(c: real, dt: real, n: nat)
    requires c > 0.0 && dt > 0.0
    requires c - (n as real) * dt > 0.0
    ensures CountdownAfterFrames(c, dt, n) == c - (n as real) * dt
  {
    if n > 0 {
      assert c - ((n - 1) as real) * dt > 0.0 by {
        assert ((n - 1) as real) * dt <= (n as real) * dt;
      }
      CountdownRunsDown(c, dt, n - 1);
    }
  }

  /** The frame after the countdown is spent ends it and the game restarts. */
  lemma CountdownEnds(c: real, dt: real, n: nat)
    requires c > 0.0 && dt > 0.0
    requires c - (n as real) * dt > 0.0 && c - ((n + 1) as real) * dt <= 0.0
    ensures CountdownAfterFrames(c, dt, n) > 0.0
    ensures CountdownAfterFrames(c, dt, n + 1) == -1.0
  {
    CountdownRunsDown(c, dt, n);
  }

  /** drawGameOverScreen: nothing happens and the result is false while the
      countdown is off. Otherwise the frame's step is taken off it and the
      result is true; once it is spent a new run starts and the countdown is
      off again. The overlay drawing is left out. */
  method DrawGameOverScreen(g: Game, dt: real, startDraw: TileDraw, draws: seq<TileDraw>) returns (active: bool)
    requires |draws| == 4 && g.TileRefsOk() && g.ColoursOk()
    modifies g`kills, g`roomsCleared, g`playerLives, g`clears, g`maxDifficulty, g`enemies, g`shots,
             g`enemyShots, g`gameOverCountdown, g`blockingWalls, g`tiles, g`wallIdCounter, g`wallColors,
             g`currentTile, g`prevTile, g`world, g`tilePositions, g`posX, g`posY, g`dirX, g`dirY, g`planeX, g`planeY
    ensures active <==> old(g.gameOverCountdown) >= 0.0
    ensures g.gameOverCountdown == CountdownAfter(old(g.gameOverCountdown), dt)
    ensures !active || g.gameOverCountdown != -1.0 ==> unchanged(g`kills, g`roomsCleared, g`playerLives, g`clears,
              g`maxDifficulty, g`enemies, g`shots, g`enemyShots, g`blockingWalls, g`tiles, g`wallIdCounter,
              g`wallColors, g`currentTile, g`prevTile, g`world, g`tilePositions, g`posX, g`posY, g`dirX,
              g`dirY, g`planeX, g`planeY)
    ensures active && g.gameOverCountdown == -1.0 ==>
              g.kills == 0 && g.roomsCleared == 0 && g.clears == 0 && g.credits == old(g.credits) &&
              g.playerLives == g.maxLives && g.enemies == [] && g.shots == [] && g.enemyShots == [] &&
              AtStart(g, old(|g.tiles|))
  {
    if g.gameOverCountdown < 0.0 {
      return false;
    }
    g.gameOverCountdown := g.gameOverCountdown - dt;
    if g.gameOverCountdown <= 0.0 {
      StartNewRun(g, startDraw, draws);
      g.gameOverCountdown := -1.0;
    }
    return true;
  }
}
