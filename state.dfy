/** The global state of the game: every top-level `let` of world-generation.js,
    enemies.js, weapons.js, game-core.js, persistence.js, ui.js and controls.js,
    gathered as the fields of one object. The operations that change it live in
    one module per source file and take the game as their first parameter. */
module State {
  import opened Common
  import opened Tiles
  import opened Projectiles
  import opened EnemyModel
  import opened Upgrades

  /** The colour WALL_COLOR holds for the boundary ring. */
  const BOUNDARY_COLOR: Rgb := Rgb(0, 0, 0)
  /** The colour WALL_COLOR holds for exit blocks. */
  const BLOCK_COLOR: Rgb := Rgb(128, 128, 128)

  /** An entry of `activeTouches`: a touch that started on the joystick, or a
      look touch on the right half of the screen. */
  datatype TouchRecord =
    | JoystickTouch(jLastX: real, jLastY: real)
    | LookTouch(startX: real, lastX: real, totalDrag: real, startTime: real)

  /** The four direction flags the joystick sets. */
  datatype TouchFlags = TouchFlags(fwd: bool, back: bool, left: bool, right: bool)

  /** The joystick's centre on screen and its radius. */
  datatype JoyCenter = JoyCenter(cx: real, cy: real, r: real)

  class Game {
    // world-generation.js
    /** WORLD[y][x]; WORLD_H and WORLD_W are its two lengths. */
    var world: array2<int>
    var wallColors: map<int, Rgb>
    var wallIdCounter: int
    /** Every tile generated so far, addressed by TileId. */
    var tiles: seq<Tile>
    var currentTile: Option<TileId>
    var prevTile: Option<TileId>
    var tilePositions: map<TileId, Origin>
    var blockingWalls: map<TileId, set<Block>>

    // enemies.js
    var kills: int
    var clears: int
    var maxDifficulty: real
    var roomsCleared: int
    var credits: int
    var enemies: seq<Enemy>

    // weapons.js
    var shots: seq<Shot>
    var enemyShots: seq<Shot>
    var blasterCooldown: real

    // game-core.js
    var posX: real
    var posY: real
    var dirX: real
    var dirY: real
    var planeX: real
    var planeY: real
    /** The canvas size W x H. */
    var screenW: int
    var screenH: int
    var zBuf: array<real>
    /** loop.lastNow */
    var lastNow: real

    // persistence.js
    var upgradeLevels: map<string, int>
    var playerLives: int
    var maxLives: int
    /** window.MOVE_SPEED_MULTIPLIER and friends, unset until applyUpgrades runs. */
    var moveSpeedMultiplier: Option<real>
    var blasterCooldownMultiplier: Option<real>
    var projectileSpeedMultiplier: Option<real>

    // ui.js
    var gameOverCountdown: real

    // controls.js
    var keys: set<string>
    var pointerLocked: bool
    var mouseLookDelta: real
    var mouseLookBuffer: seq<real>
    var debugGodMode: bool
    var activeTouches: map<int, TouchRecord>
    var touchFlags: TouchFlags
    var joyActive: bool
    var joyTouchId: Option<int>
    var joyCenter: Option<JoyCenter>
    var joyX: real
    var joyY: real

    /** The state as the scripts' top-level declarations leave it, before init. */
    constructor(w: nat, h: nat, now: real)
      ensures world.Length0 == 0 && world.Length1 == 0
      ensures wallColors == map[BOUNDARY_ID := BOUNDARY_COLOR, BLOCK_COLOR_ID := BLOCK_COLOR]
      ensures wallIdCounter == FIRST_WALL_ID
      ensures tiles == [] && currentTile == None && prevTile == None
      ensures tilePositions == map[] && blockingWalls == map[]
      ensures kills == 0 && clears == 0 && roomsCleared == 0 && credits == 0 && maxDifficulty == 0.0
      ensures enemies == [] && shots == [] && enemyShots == [] && blasterCooldown == 0.0
      ensures posX == 8.0 && posY == 8.0 && dirX == 1.0 && dirY == 0.0 && planeX == 0.0 && planeY == 0.66
      ensures screenW == w && screenH == h && zBuf.Length == w && lastNow == now
      ensures upgradeLevels == DEFAULT_LEVELS
      ensures playerLives == 1 && maxLives == 1
      ensures moveSpeedMultiplier == None && blasterCooldownMultiplier == None && projectileSpeedMultiplier == None
      ensures gameOverCountdown == -1.0
      ensures keys == {} && !pointerLocked && mouseLookDelta == 0.0 && mouseLookBuffer == [] && !debugGodMode
      ensures activeTouches == map[] && touchFlags == TouchFlags(false, false, false, false)
      ensures !joyActive && joyTouchId == None && joyCenter == None && joyX == 0.0 && joyY == 0.0
      ensures ColoursOk() && TileRefsOk()
    {
      world := new int[0, 0];
      wallColors := map[BOUNDARY_ID := BOUNDARY_COLOR, BLOCK_COLOR_ID := BLOCK_COLOR];
      wallIdCounter := FIRST_WALL_ID;
      tiles := [];
      currentTile := None;
      prevTile := None;
      tilePositions := map[];
      blockingWalls := map[];
      kills := 0;
      clears := 0;
      maxDifficulty := 0.0;
      roomsCleared := 0;
      credits := 0;
      enemies := [];
      shots := [];
      enemyShots := [];
      blasterCooldown := 0.0;
      posX, posY := 8.0, 8.0;
      dirX, dirY := 1.0, 0.0;
      planeX, planeY := 0.0, 0.66;
      screenW, screenH := w, h;
      zBuf := new real[w];
      lastNow := now;
      upgradeLevels := DEFAULT_LEVELS;
      playerLives := 1;
      maxLives := 1;
      moveSpeedMultiplier := None;
      blasterCooldownMultiplier := None;
      projectileSpeedMultiplier := None;
      gameOverCountdown := -1.0;
      keys := {};
      pointerLocked := false;
      mouseLookDelta := 0.0;
      mouseLookBuffer := [];
      debugGodMode := false;
      activeTouches := map[];
      touchFlags := TouchFlags(false, false, false, false);
      joyActive := false;
      joyTouchId := None;
      joyCenter := None;
      joyX, joyY := 0.0, 0.0;
    }

    /** WALL_COLOR keeps its two reserved entries, and every other key is a wall
        id already handed out, so the next id is unused. */
    predicate ColoursOk()
      reads this`wallColors, this`wallIdCounter
    {
      BOUNDARY_ID in wallColors && wallColors[BOUNDARY_ID] == BOUNDARY_COLOR &&
      BLOCK_COLOR_ID in wallColors && wallColors[BLOCK_COLOR_ID] == BLOCK_COLOR &&
      wallIdCounter >= FIRST_WALL_ID &&
      forall k :: k in wallColors ==> k == BOUNDARY_ID || k == BLOCK_COLOR_ID || FIRST_WALL_ID <= k < wallIdCounter
    }

    /** Every tile the state refers to exists: the centre and previous tile, the
        positioned tiles, the neighbours of every tile and the tile of every enemy. */
    predicate TileRefsOk()
      reads this`currentTile, this`prevTile, this`tilePositions, this`tiles, this`enemies
    {
      (currentTile.Some? ==> currentTile.value < |tiles|) &&
      (prevTile.Some? ==> prevTile.value < |tiles|) &&
      (forall id :: id in tilePositions ==> id < |tiles|) &&
      (forall i, d :: 0 <= i < |tiles| && d in tiles[i].neighbors ==> tiles[i].neighbors[d] < |tiles|) &&
      (forall k :: 0 <= k < |enemies| ==> enemies[k].tile < |tiles|)
    }
  }

  /** The tile references stay valid when no tile is added or removed, no
      neighbour link changes, the centre, the previous tile and the positions
      stay put, and every enemy left was an enemy before. */
  twostate lemma RefsKept(g: Game)
    requires old(g.TileRefsOk())
    requires g.currentTile == old(g.currentTile) && g.prevTile == old(g.prevTile)
    requires g.tilePositions == old(g.tilePositions) && |g.tiles| == old(|g.tiles|)
    requires forall i :: 0 <= i < |g.tiles| ==> g.tiles[i].neighbors == old(g.tiles[i].neighbors)
    requires forall k :: 0 <= k < |g.enemies| ==> g.enemies[k] in old(g.enemies)
    ensures g.TileRefsOk()
  {
    forall k | 0 <= k < |g.enemies|
      ensures g.enemies[k].tile < |g.tiles|
    {
      var j :| 0 <= j < old(|g.enemies|) && old(g.enemies[j]) == g.enemies[k];
    }
  }
}
