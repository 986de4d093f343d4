# Attack of the Kruptins: a verified model of the game's simulation core

This project models, in Dafny, the discrete simulation logic of the browser
raycasting game *Attack of the Kruptins*. It leaves out the drawing.

All of the game's global variables are fields of one class, `State.Game`:
- the 58x58 `WORLD` grid, as an `array2<int>`;
- the wall-colour map and the wall-id counter;
- the tiles, held in an arena `seq<Tile>` and referred to by index;
- `tile_positions` and `blockingWalls`;
- the kill, clear and room counters and the credits;
- the enemy and shot arrays and the blaster cooldown;
- the camera;
- the upgrade levels, lives and multipliers;
- the game-over countdown;
- the input state.

Each source file's operations are methods in one module. Each method declares exactly the fields it may change, and states their new values and the invariants it keeps. The pure parts are functions with lemmas about them.

- **World generation** (`Tiles`, `GridBuild`, `WorldGeneration`)
  - Direction turns and `generate_tile`'s open sides.
  - The wall-id counter.
  - `empty_world`, the door and rectangle carving, and the room and hall builders.
  - Exit blocks (id 999) and their `blockingWalls` record.
  - `rebuild_world`, `generate_neighbors_for_center` and `back_side_of_current`.
  - `can_move` and `which_tile_contains`.
- **Enemies** (`EnemyModel`, `EnemyRules`, `Enemies`)
  - How difficulty maps to colour, speed and fire rate.
  - The tiered enemy-count bracket.
  - The spawn-placement tests and the bounded 50-try search.
  - The kill/despawn protocol. `EnemyRules` carries its ledger invariant: a room is counted as cleared at most once, and only after it was spawned.
  - Leaving and entering rooms.
  - The non-drawing part of `updateEnemies`: chasing, ranged fire, contact and shot hits.
- **Frame step** (`GameCore`, `Raycast`)
  - The DDA ray march behind `renderFrame`, with its step guard and its divide-by-zero guards, and the column span it yields.
  - Mouse and key turning.
  - Axis-separated collision movement.
  - `ensure_neighbors_visible` and `enter_neighbor`, which re-centre the world and translate the player and the player's shots.
  - `start_new_run`.
- **Weapons** (`Projectiles`, `Weapons`, `KruptinsWeapons`)
  - The two alternative `weapons.js` files, each as its own module over shared shot arithmetic.
  - Each has the cooldown gate, the fixed-size sub-stepping of every shot, and removal on a wall, on the time-to-live or on a player hit.
- **Economy** (`Upgrades`, `Persistence`, `Cookies`)
  - The upgrade effect curves and the cost formula.
  - Purchase, lives and the save-game merge and migration.
  - The cookie-string lookup, and the round trip of credits through a cookie.
- **Input and game over** (`Controls`, `Ui`, `GameOver`)
  - The keys set and the mouse-look smoothing buffer.
  - Touch tracking and tap classification.
  - The virtual joystick.
  - `triggerGameOver` and the countdown in `drawGameOverScreen`.

Several inputs come from outside the model and are parameters of the operations that use them:
- `Math.random` draws are records (`TileDraw`, `SpawnDraw` and others).
- `performance.now` readings are a `now` argument.
- `Math.sqrt`, `Math.hypot`, `Math.cos` and `Math.sin` are values whose defining property the caller supplies, for example `r >= 0 && r * r == v`.

Numbers are reals. JavaScript's `x | 0` is `Common.ToInt32`, which truncates toward zero and then wraps to 32 bits.

The model follows the code as written, with two exceptions. Both are reported under "## Findings", and the model keeps the as-written version beside the corrected one:
- **L halls.** `GridBuild.BuildTileAt` carves L halls with the corrected `GridBuild.BuildHallL`, not with the legs of world-generation.js:177-186.
- **Wall ids.** `WorldGeneration.GenerateTile` takes its wall id through `WorldGeneration.SkipReserved`, so it never hands out the reserved ids 7 and 999. The code at world-generation.js:69-74 hands out 999 to the 990th tile of a session.

Two behaviours of the code are easy to misread, and the model keeps them as written:
- **`enemyColorForDifficulty` at difficulty 0.5.** enemies.js:26-42 takes its second branch at exactly 0.5 and returns `[180, 80, 255]`. `[80, 180, 255]` is only the limit from below. `EnemyModel.EnemyColorJumpsAtMidpoint` shows the jump.
- **The ray march's 4096-step guard running out.** The loop at game-core.js:75-82 then leaves the id of the last cell read in `tile_id`, not `BOUNDARY_ID`. `Raycast.RayMeetsWall` shows that on the game's grid a ray meets a wall first, so the guard never runs out.

## Model

| member | source | states |
|---|---|---|
| Common.Trunc | world-generation.js:341 | the integer part of a number lies within one of it, below it for non-negative numbers and above it for negative ones (truncation toward zero) |
| Common.ToInt32 | world-generation.js:341 | `x \| 0` always yields a signed 32-bit integer, and equals the truncation whenever that already fits |
| Common.Round | enemies.js:275 | Math.round yields an integer within half of its argument, halves going up |
| Common.HypotBelow | enemies.js:126 | comparing Math.hypot of a vector with a bound is the same as comparing squared lengths |
| Tiles.LeftOf | world-generation.js:13 | turning left rotates the unit step (dx, dy) to (dy, -dx) |
| Tiles.RightOf | world-generation.js:13 | turning right rotates the unit step (dx, dy) to (-dy, dx) |
| Tiles.Opposite | world-generation.js:13 | the opposite side is the negated unit step |
| Tiles.TurnsCompose | world-generation.js:12-13 | left and right undo each other, two quarter turns make the opposite, and a side differs from its left, right and opposite |
| Tiles.OpenSidesShape | world-generation.js:81-89 | every generated kind keeps its entry door; room3 opens all four sides, a dead end one, a corridor exactly two (straight-on, left or right of the entry) |
| Tiles.PickKind | world-generation.js:77-80 | the weighted walk over the kinds picks room3 up to 0.30, dead end up to 0.42, straight up to 0.70, left turn up to 0.85 and right turn above |
| Tiles.SlotOrigin | world-generation.js:196 | the slot beside the centre in direction d lies one tile step away along that direction |
| Tiles.SlotsDistinct | world-generation.js:196 | the four side slots differ from the centre slot and from each other |
| Tiles.CanMoveIsCellTest | world-generation.js:340-344 | inside the grid can_move tests exactly the cell under the point; a point off the grid is refused |
| Tiles.Slide | game-core.js:233-235 | each coordinate either stays or takes the new value when the cell it moves into is open |
| Tiles.SlideStaysOpen | game-core.js:233-235 | a slide that starts on an open cell ends on an open cell |
| Projectiles.Advance | weapons.js:67-70 | one sub-step keeps the velocity and ages the shot by the step length |
| Projectiles.AdvanceCompose | weapons.js:66-70 | two sub-steps in a row move a shot as one step of their total length |
| Projectiles.FlightSurvivor | weapons.js:64-72 | a shot that survives a frame of dt seconds has made one straight move of dt at its own velocity, sits on a passable cell and is within its 1.2 s lifetime |
| Projectiles.PlayerShotNeverHitsPlayer | weapons.js:62-73 | the player's own shots are never reported as hitting the player |
| Projectiles.SurvivorsInvariant | weapons.js:60-96 | a frame never adds shots, and every shot it keeps is on a passable cell and within its lifetime |
| Projectiles.NoPlayerHitsWithoutPlayer | weapons.js:62-73 | the player-shot loop never counts a hit on the player |
| Projectiles.FlyShot | weapons.js:64-72 | the sub-stepping loop for one shot ends exactly as the flight function says (wall, expiry, player hit or still flying) |
| Projectiles.SurvivorsAt | weapons.js:62-63 | the survivors of a suffix start with the flight of its first shot |
| Projectiles.MoveShotList | weapons.js:62-95 | walking the array backwards and splicing out finished shots leaves exactly the survivors in order, and counts exactly the shots that reached the player |
| Projectiles.CooldownAfter | weapons.js:98-103 | a cooldown that is not running stays as it is; a running one never goes below 0, never rises, and while still positive has lost exactly dt |
| Projectiles.CooldownAfterCompose | weapons.js:98-103 | two frames of decay are one frame of their combined length |
| Projectiles.CooldownRunsOut | weapons.js:98-103 | a running cooldown stays positive (by exactly the time left) until the frames add up to its length, and is 0 from then on |
| Projectiles.CooldownStaysOut | weapons.js:98-103 | a spent cooldown stays at 0 |
| Projectiles.Muzzle | weapons.js:50-54 | a new shot starts 0.8 along the facing and 0.2 along its right vector, flies along the facing at the shot speed, and has age 0 |
| Projectiles.OrOne | attack-of-the-kruptins/weapons.js:72 | an unset or zero multiplier reads as 1, any other is kept |
| Upgrades.FireRateEffect | persistence.js:13 | the cooldown multiplier is 1.0 at level 0, 0.25 at level 5, and within those bounds in between |
| Upgrades.ProjectileSpeedEffect | persistence.js:20 | the shot speed multiplier is 1.0 at level 0, 2.2 at level 3, and within those bounds in between |
| Upgrades.MoveSpeedEffect | persistence.js:30 | the walking speed multiplier is 1.0 at level 0, 1.8 at level 4, and within those bounds in between |
| Upgrades.HealthEffect | persistence.js:38 | levels 0 to 3 grant 0 to 3 extra lives |
| Upgrades.EffectsMonotone | persistence.js:5-40 | a higher level never lengthens the cooldown and never lowers a speed or the extra lives |
| Upgrades.UpgradeCost | persistence.js:125-131 | there is no price exactly when the level has reached the maximum; level 0 costs the base cost |
| Upgrades.UpgradeCostIncreasing | persistence.js:125-131 | each further level of an upgrade costs strictly more than the one before |
| Upgrades.Migrate | persistence.js:91-96 | a saved `damage` level becomes the projectileSpeed level and disappears; every other saved level is kept; no other key is added |
| Upgrades.MergeLevels | persistence.js:97 | saved levels override the current ones, the rest stay, and the keys are the union |
| Upgrades.MergeKeepsKeys | persistence.js:87-101 | loading saved levels never loses one of the four upgrades |
| GridBuild.TileCellStaysInSquare | world-generation.js:188-194 | building a tile never changes a cell outside its own 18x18 square |
| GridBuild.TileCellCoversSquare | world-generation.js:168-186 | a tile's border cells, and a hall's interior cells, come out the same whatever they held before |
| GridBuild.LHallDoorsReachCentre | world-generation.js:177-186 | in the corrected L hall, each of its two doors opens onto a corridor that is open all the way to the centre cell |
| GridBuild.DrawBorderBox | world-generation.js:119-122 | exactly the one-cell frame of the square takes the wall id; every other cell keeps its value |
| GridBuild.FillInterior | world-generation.js:124-126 | exactly the 16x16 inside of the square takes the wall id; every other cell keeps its value |
| GridBuild.FillBlock | world-generation.js:143-147 | exactly the n x n pillar block takes the wall id; every other cell keeps its value |
| GridBuild.CarveRect | world-generation.js:128-134 | exactly the rectangle between the corners, put in order and clamped inside the outer ring, is cleared; every other cell keeps its value |
| GridBuild.CarveDoor | world-generation.js:111-117 | exactly the five cells of the door centred on the given edge are cleared; every other cell keeps its value |
| GridBuild.CarveDoors | world-generation.js:165 | exactly the door cells of every open side are cleared, whatever order the sides are visited in |
| GridBuild.BuildRoom | world-generation.js:136-166 | each cell ends as the room layout says: doors open, then border and pillars (centre 5x5 or four 2x2) in the wall id, the rest untouched |
| GridBuild.BuildHallStraight | world-generation.js:168-175 | each cell ends as the straight-hall layout says: a solid square with a three-wide corridor along the entry axis and the doors open |
| GridBuild.CarveLeg | world-generation.js:181-184 | exactly the three-wide corridor from the given side's edge to the centre is cleared |
| GridBuild.BuildHallL | world-generation.js:177-186 | each cell ends as the corrected L-hall layout says: a solid square with legs toward the entry side and the turn side and the doors open |
| GridBuild.BuildTileAt | world-generation.js:188-194 | each cell ends as the layout chosen by the tile's kind says (rooms, dead ends and the start room as rooms; L halls as the corrected BuildHallL carves them) |
| GridBuild.BuildHallLAsWritten | world-generation.js:177-186 | each cell ends as the source's L-hall code lays it out: the entry leg toward north or west and the turn leg toward south or east, whatever the orientation |
| GridBuild.AsWrittenLHallWallsOffSouthDoor | world-generation.js:181-184 | as written, an L hall entered from the south that turns east has a wall right behind its open south door |
| GridBuild.AsWrittenLHallOpensBothDoorsOnlyTwice | world-generation.js:181-184 | as written, only two of the eight L-hall configurations open the cells behind both doors |
| EnemyModel.FadeInRange | enemies.js:31-32 | a channel fading between 180 and 255 over t in [0, 1] stays within those bounds after rounding |
| EnemyModel.EnemyColor | enemies.js:26-42 | for a difficulty in [0, 1] every channel is in [80, 255]; red is pinned at 80 below 0.5 and green at 80 from 0.5 on |
| EnemyModel.EnemyColorLandmarks | enemies.js:26-42 | the colour is [80, 255, 180] at difficulty 0, [180, 80, 255] at 0.5 and [255, 80, 180] at 1 |
| EnemyModel.EnemyColorJumpsAtMidpoint | enemies.js:27-40 | just below 0.5 the colour is blue with red 80, while at 0.5 red jumps to 180 |
| EnemyModel.EnemySpeed | enemies.js:44-46 | the speed is 1.0 at difficulty 0, 3.5 at difficulty 1, and in between for difficulties in between |
| EnemyModel.EnemySpeedMonotone | enemies.js:44-46 | a harder enemy is never slower |
| EnemyModel.RangedFireRate | enemies.js:48-52 | the interval is 3, 2 or 1 seconds: 3 exactly below 0.33 and 1 exactly from 0.66 |
| EnemyModel.RangedFireRateNonIncreasing | enemies.js:48-52 | a harder ranged enemy never fires less often |
| EnemyModel.EnemyCountBracket | enemies.js:328-360 | the bracket starts at 1 or more and spans two or three counts: (1, 2) up to 4 rooms, (11, 13) for 71 to 80, then one higher per ten rooms |
| EnemyModel.EnemyCountMinMonotone | enemies.js:328-360 | clearing more rooms never lowers either end of the bracket |
| EnemyModel.EnemyCountAt85 | enemies.js:355-359 | at 85 cleared rooms the bracket is (12, 14) |
| EnemyModel.ScaledDrawInRange | enemies.js:363 | the floor of a draw scaled by n is one of 0 .. n-1 |
| EnemyModel.EnemyCount | enemies.js:362-363 | the count picked lies inside the bracket and is at least 1 |
| EnemyModel.NotObscuredByPillars | enemies.js:129-169 | the pillar test is true exactly when the tile has no pillars or no position, or the point keeps half a cell clear of every pillar |
| EnemyModel.ClearPointOffPillarCells | enemies.js:129-169 | a point the pillar test accepts does not lie on a pillar cell |
| EnemyModel.SpawnPointCellOpen | enemies.js:117-169 | a point inside the room and clear of the pillars lies on a cell that build_room does not paint |
| EnemyModel.SpawnCoordinate | enemies.js:171-177 | a candidate point lies in [origin+2, origin+16) on each axis, so it always passes the inside-room test |
| EnemyModel.FirstValidSpotIsFirst | enemies.js:185-191 | the spot found is the first candidate that passes all three tests; none is found exactly when every candidate fails |
| EnemyModel.NormalDifficultyCap | enemies.js:235-236 | a normal enemy's ceiling is in [0.05, 1] and reaches 1 from twelve cleared rooms |
| EnemyModel.RangedDifficultyCap | enemies.js:196-200 | a ranged enemy's ceiling is in [0, 1]: 0 at twelve cleared rooms and 1 from twenty-four |
| EnemyModel.ScaledRoll | enemies.js:205 | a draw scaled by a ceiling in [0, 1] stays in [0, 1) |
| EnemyModel.MakeEnemy | enemies.js:205-253 | the new enemy is alive at the spot, with a difficulty in [0, 1) and the colour and speed of that difficulty; it is ranged exactly when asked, and then cannot fire for three seconds |
| EnemyModel.AttemptSpawnEnemy | enemies.js:179-260 | no enemy for a tile without a position; otherwise an enemy exactly when one of the fifty candidates passes all three tests and the type is allowed, built at the first such candidate |
| EnemyModel.CreditValue | enemies.js:271-279 | a kill is worth 50 to 100 credits for a normal enemy and 60 to 120 for a ranged one |
| EnemyModel.CreditValueMonotone | enemies.js:271-279 | a harder enemy of the same type is never worth less |
| EnemyModel.RangedFireStep | enemies.js:423-448 | a shot needs a telegraph that has lasted 0.3 s, and resets the timer; a telegraph starts exactly when the fire interval has passed since the last shot |
| EnemyModel.NoDoubleFire | enemies.js:423-448 | after a shot, a second step at the same instant does not fire again |
| State.Game.constructor | game-core.js:40-45 | the state the scripts' top-level declarations leave: camera at (8, 8) facing east with plane 0.66, wall ids from 10, the two reserved wall colours, no tiles, enemies or shots, one life, the countdown off and no input held |
| WorldGeneration.IssueAsWrittenKeepsBelow | world-generation.js:69-74 | a colour stored under an id below the counter is never changed by later calls |
| WorldGeneration.AsWrittenOverwritesBlockColour | world-generation.js:69-74 | as written, the call that finds the counter at 999 stores its rainbow colour under BLOCK_COLOR_ID, and it stays there |
| WorldGeneration.AsWrittenBlockColourLost | world-generation.js:22-23 | from the initial colours, the 990th wall id handed out is 999, after which exit blocks are no longer grey |
| WorldGeneration.NextWallIdWithColorAsWritten | world-generation.js:69-74 | as written: the id handed out is the counter, the counter moves up by one, and the colour is stored under the id |
| WorldGeneration.SkipReserved | world-generation.js:18-23 | the corrected id is never a reserved one (7 or 999) and is the counter or the next value |
| WorldGeneration.FixedKeepsReservedColours | world-generation.js:18-23 | however many ids the corrected allocation hands out, the boundary and exit-block colours are unchanged |
| WorldGeneration.NextWallIdWithColor | world-generation.js:69-74 | corrected: a fresh id that is not reserved and has no colour yet is handed out and coloured; the reserved colours survive |
| WorldGeneration.NewTileShape | world-generation.js:76-100 | a generated tile keeps its entry door and its kind's open sides, has a pillar layout exactly when it is a room3 or dead end, is never the start room, and starts with no neighbours, spawn or blocks |
| WorldGeneration.GenerateTile | world-generation.js:76-100 | the new tile is appended to the arena, built as the draws say, with the counter's wall id stepped past the reserved ids (the corrected allocation) and coloured with the drawn colour; the counter moves one past it and no other tile changes |
| WorldGeneration.EmptyWorld | world-generation.js:102-109 | a fresh 58x58 grid with BOUNDARY_ID on the outer ring and 0 everywhere else |
| WorldGeneration.BlockAt | world-generation.js:216-247 | the block at offset i (from -2 to 2) lies in the strip two cells beyond the door, tagged with that side |
| WorldGeneration.RecordedBlocksAreExitCells | world-generation.js:266-282 | the cells removeExitBlocks clears are exactly the cells createExitBlocks sealed |
| WorldGeneration.SealStrip | world-generation.js:216-250 | exactly the in-grid cells of the strip beyond one door take BLOCK_COLOR_ID and are recorded, tagged with that side |
| WorldGeneration.ExitCellAddSide | world-generation.js:208-251 | sealing one more side adds exactly that side's strip |
| WorldGeneration.CreateExitBlocks | world-generation.js:198-264 | nothing changes for a tile that is not a positioned room; otherwise exactly the exit cells beyond its doors turn into blocks and are recorded, and every door is marked blocked |
| WorldGeneration.RemoveExitBlocks | world-generation.js:266-282 | nothing changes without a record; otherwise exactly the recorded cells are cleared, the tile's blocked sides are forgotten and its record is deleted |
| WorldGeneration.PlaceTile | world-generation.js:290-291 | one build_tile_at step paints the tile's square over the grid and records its position |
| WorldGeneration.NeighbourPlacementsStep | world-generation.js:301-308 | each side visited extends the placements by that side's neighbour, if it has one |
| WorldGeneration.PlaceNeighbours | world-generation.js:301-308 | the neighbour loop draws every neighbour of the centre at the slot of its side |
| WorldGeneration.LayOutTiles | world-generation.js:285-308 | the grid is a fresh empty world with the centre, the previous tile and the neighbours painted in that order, and positions record where each was drawn |
| WorldGeneration.PlaceHead | world-generation.js:289-300 | the centre is drawn at slot (1, 1), then the previous tile in the slot behind it |
| WorldGeneration.RecreateExitBlocks | world-generation.js:310-315 | exactly the positioned rooms with active enemies are sealed again: their exit cells become blocks and their doors are marked blocked; everything else stays |
| WorldGeneration.SealAgain | world-generation.js:311-315 | one turn of the recreation loop seals tile t exactly when it is a room with active enemies |
| WorldGeneration.RebuildWorld | world-generation.js:284-316 | the grid holds the laid-out tiles with the exit cells of rooms with active enemies sealed; those rooms are the only ones with block records; positions and tile references are consistent |
| WorldGeneration.PlacedIdsInRange | world-generation.js:284-316 | every tile given a position exists |
| WorldGeneration.PositionsOfSnoc | world-generation.js:291 | drawing one more tile records its slot and leaves the other positions alone |
| WorldGeneration.NeighbourPositions | world-generation.js:301-308 | each neighbour ends up positioned at the slot of its side; every other tile keeps the position the earlier placements gave it |
| WorldGeneration.NeighbourPlaced | world-generation.js:301-308 | drawing the neighbour on one more side puts it at that side's slot and moves no other tile, the neighbours being distinct |
| WorldGeneration.NeighbourNotPlaced | world-generation.js:301-308 | a side without a neighbour draws nothing and moves no tile |
| WorldGeneration.LayoutPositions | world-generation.js:284-308 | after the rebuild, the centre is at slot (1, 1), the previous tile behind it and each neighbour at its side's slot; no other tile has a position |
| WorldGeneration.PaintedOutsideSquares | world-generation.js:102-109 | a cell outside every drawn square keeps its empty-world value |
| WorldGeneration.PaintedByOwnSquare | world-generation.js:188-194 | a cell inside exactly one drawn square holds what that tile draws over the empty world |
| WorldGeneration.SlotSquaresDisjoint | world-generation.js:196 | two slots whose squares share a cell are the same slot |
| WorldGeneration.NeighbourPlacementsShape | world-generation.js:301-308 | the neighbour placements sit at the slots of distinct sides |
| WorldGeneration.PlacementOnGrid | world-generation.js:289-308 | every placement is at one of the nine slots |
| WorldGeneration.PlacementsApart | world-generation.js:289-308 | two placements are at different slots, given that the centre has no neighbour on the back side |
| WorldGeneration.PlacementsAtDistinctSlots | world-generation.js:289-308 | every placement is at a slot of its own |
| WorldGeneration.LayoutCellOfSlot | world-generation.js:284-308 | after the drawing, each placed tile's square holds exactly what that tile draws over the empty world |
| WorldGeneration.SideOrderComplete | world-generation.js:320 | every side of a tile is met somewhere in the order its open sides are iterated |
| WorldGeneration.FirstIndex | world-generation.js:320 | the position found lies in the list and, when inside it, holds the side sought |
| WorldGeneration.FirstIndexFirst | world-generation.js:320 | no position before the one found holds the side |
| WorldGeneration.FirstIndexFound | world-generation.js:320 | a side that occurs in the list is found inside it |
| WorldGeneration.FirstIndexAt | world-generation.js:320 | a side at position k with none before it is found at k |
| WorldGeneration.GeneratedSidesListed | world-generation.js:84-89 | a generated tile's open sides are exactly the sides in its kind's `new Set([...])`, and the loop meets them in that Set's insertion order |
| WorldGeneration.ColourAdded | world-generation.js:70-72 | storing the colour of the next generated tile under its fresh wall id keeps every colour stored before the call and records the new one |
| WorldGeneration.NeighbourSkipped | world-generation.js:320-321 | a closed side, the back side, or a side met again leaves the tiles, the neighbours and the tiles added as they were |
| WorldGeneration.NeighbourAdded | world-generation.js:320-323 | generating the tile for the next open side other than the back side appends it at the next arena index, facing back, under the next wall id, records it as the neighbour on that side, and keeps every other old tile |
| WorldGeneration.OldTilesStillKept | world-generation.js:322-323 | appending a tile and setting the centre's neighbours leaves the tiles from before the call, other than the centre, unchanged |
| WorldGeneration.SideMet | world-generation.js:320-321 | after meeting the side at position k, the sides with a neighbour are exactly the open sides other than the back side among the first k + 1 met |
| WorldGeneration.FirstMeeting | world-generation.js:320 | the side met at position k without a neighbour yet is met there for the first time, so it is added after every side added before it |
| WorldGeneration.TileAdded | world-generation.js:322-323 | the appended tile becomes the neighbour on its side, at the next arena index, shaped as generate_tile makes it facing back, under the next wall id |
| WorldGeneration.SlotAdded | world-generation.js:323 | the j-th side given a neighbour maps to the j-th tile appended, and only sides given one have a neighbour |
| WorldGeneration.ShapeAdded | world-generation.js:322 | every neighbour is a tile generated for its side, facing back to the centre |
| WorldGeneration.WallIdAdded | world-generation.js:70 | the j-th tile appended has the j-th wall id handed out |
| WorldGeneration.WallIdsIncrease | world-generation.js:69-74 | the ids handed out by successive calls strictly increase, each at least the counter before its call and below the counter after it, so no two tiles share one |
| WorldGeneration.NeighbourAddedToGame | world-generation.js:322-323 | generating and recording the neighbour for side k extends the loop invariant on the game: tiles, neighbours, wall-id counter and stored colours |
| WorldGeneration.AddNeighbour | world-generation.js:322-323 | one turn that generates a tile keeps the loop invariant for one more side |
| WorldGeneration.NeighbourStep | world-generation.js:320-324 | one turn of the loop keeps the invariant for one more side, whether the side is generated or skipped |
| WorldGeneration.NeighboursInOrder | world-generation.js:320-324 | after the loop the invariant covers every side of the iteration order: each open side but the back side has its generated neighbour, in the order met |
| WorldGeneration.AllSidesMet | world-generation.js:320-321 | once every side is met, the sides with a neighbour are exactly the open sides other than the back side |
| WorldGeneration.AddedOrder | world-generation.js:320-323 | the neighbours are distinct tiles, and one comes before another in the arena exactly when its side comes first in the Set's insertion order |
| WorldGeneration.AddedAreNeighbours | world-generation.js:322-323 | each neighbour is a fresh unspawned tile generated for its side, and every appended tile is one of the neighbours |
| WorldGeneration.NeighboursResult | world-generation.js:318-325 | the state after the loop is what generate_neighbors_for_center promises of the state before it |
| WorldGeneration.SetNeighbours | world-generation.js:319 | only the centre's neighbour map changes, and tile references stay valid |
| WorldGeneration.GenerateNeighborsForCenter | world-generation.js:318-325 | the centre gets a neighbour on exactly its open sides other than the back side. Each is a fresh, unspawned tile generated for its side and facing back toward it. They are distinct and appended in the Set's insertion order (generate_tile's list, or `[1, 0, 2]` for the start room). They take consecutive wall ids, the counter moves past them and their colours are stored beside the old ones. No old tile other than the centre changes |
| WorldGeneration.DirOfOffset | world-generation.js:333-337 | the side reported is exactly the one whose unit step is the offset; no side for any other offset |
| WorldGeneration.SlotStepToSide | world-generation.js:332 | the offset from the centre slot to the slot on side d is d's unit step |
| WorldGeneration.BackSideFindsPrevSlot | world-generation.js:327-338 | after a rebuild with the previous tile behind the centre on side d, back_side_of_current finds d; with no previous tile it finds nothing |
| WorldGeneration.ReportedSideOpen | world-generation.js:359-362 | a side which_tile_contains reports names another tile and is never a blocked exit |
| WorldGeneration.WhichTileContains | world-generation.js:346-368 | nothing is found when no square holds the point; otherwise the answer is the one Answer gives for a tile whose square holds the point |
| WorldGeneration.InsideOneSlotOnly | world-generation.js:349 | the squares of two different slots never overlap |
| WorldGeneration.BlockedExitRefused | world-generation.js:359-364 | moving into a neighbour across a blocked exit is refused; across an open one the neighbour and its side are reported |
| EnemyRules.CountZero | enemies.js:315 | nothing is counted exactly when no element passes the filter |
| EnemyRules.CountAppend | enemies.js:315 | the count over a concatenation is the sum of the counts |
| EnemyRules.CountUpdate | enemies.js:315 | replacing one element changes the count by that element's contribution only |
| EnemyRules.CountPointwise | enemies.js:315 | a list whose passing places all pass in another counts no more, and strictly fewer when one place passes only in the other |
| EnemyRules.AliveInZero | enemies.js:315-317 | a tile's alive count is zero exactly when none of its enemies is alive |
| EnemyRules.AliveOnly | enemies.js:302 | the pruned list holds exactly the alive enemies of the list |
| EnemyRules.AliveOnlyCounts | enemies.js:487 | pruning keeps every alive enemy: as many in all and as many on each tile |
| EnemyRules.ClearedKeepsNeighbours | enemies.js:319-320 | clearing a tile keeps every tile's neighbours |
| EnemyRules.ClearKeepsLedger | enemies.js:317-323 | clearing an active tile moves it from the active rooms to the cleared ones, leaving the spawned rooms alone |
| EnemyRules.SameFlagsSameCounts | world-generation.js:260-281 | changing a tile's exit blocks or neighbours leaves both room counts alone |
| EnemyRules.BountyRetire | enemies.js:267-297 | killing an alive enemy earns its bounty; despawning it earns nothing |
| EnemyRules.BountyBounds | enemies.js:271-281 | every enemy killed earns 50 to 120 credits |
| EnemyRules.HitAll | enemies.js:474-482 | one shot kills exactly the alive enemies within ENEMY_RADIUS, leaving every other enemy as it was |
| EnemyRules.HitAllFromAt | enemies.js:474-482 | after the hit tests from index i on, an enemy is killed exactly when it was among them, alive and in reach |
| EnemyRules.HitAllFromStep | enemies.js:474-482 | testing one more enemy kills it when it is alive and in reach |
| EnemyRules.HitAllFromEnds | enemies.js:474-482 | the backward enemy loop ends as HitAll says |
| EnemyRules.HitsFromStep | enemies.js:474-482 | the shot reaches an enemy from index i on exactly when it reaches enemy i or one after it |
| EnemyRules.HitsFromStart | enemies.js:473-483 | a hit found over the whole list is a hit from index 0; none from the end |
| EnemyRules.Resolve | enemies.js:471-484 | the shot pass keeps the enemy list's length |
| EnemyRules.ResolveShape | enemies.js:471-484 | the shot pass only kills alive enemies; every kept shot is one of the shots; no kept shot is within reach of an enemy still alive |
| EnemyRules.ResolveKillsPerShot | enemies.js:471-484 | every shot removed killed an enemy, so the alive enemies drop by at least the number of shots removed |
| EnemyRules.StepEnemy | enemies.js:401-468 | a frame keeps an enemy's life state, tile, difficulty, speed and type and ages its animation; an enemy that is not alive is untouched; a shot is fired only by a ranged enemy whose telegraph has run, from its new position toward the player at ENEMY_SHOT_SPEED |
| EnemyRules.StepStaysOpen | enemies.js:419-420 | an enemy that starts its frame on an open cell ends it on one |
| EnemyRules.EnemyShotSpeed | enemies.js:434-442 | an enemy shot flies at exactly ENEMY_SHOT_SPEED, straight toward the player |
| EnemyRules.StepsAt | enemies.js:401-402 | the k-th frame is enemy k's own, measured from its own position |
| EnemyRules.StepsIdle | enemies.js:403 | an enemy that is not alive is skipped: unchanged and no shot |
| EnemyRules.ReachesIsContact | enemies.js:451 | the hypot contact test is the squared-distance test against 0.7 |
| EnemyRules.TouchesFromStep | enemies.js:451 | some enemy from index i on reaches the player exactly when enemy i or a later one does |
| EnemyRules.TouchesFromStart | enemies.js:451 | contact anywhere in the list is contact from index 0; none from the end |
| EnemyRules.AnyTouchesIsContact | enemies.js:451-466 | contact happens exactly when some alive enemy is within 0.7 of the player |
| EnemyRules.ExitCheckKeepsLedger | enemies.js:311-326 | the check counts a room exactly when it takes the room off the active rooms, keeps the ledger, and touches no other tile |
| EnemyRules.ClearedFromAt | enemies.js:317-320 | tile k of the cleared suffix is cleared exactly when it is one of the emptied tiles |
| EnemyRules.ClearedTilesAt | enemies.js:317-320 | tile i after a pass is cleared exactly when it is one of the emptied tiles |
| EnemyRules.RetireStep | enemies.js:267-297 | retiring one alive enemy lowers only its own tile's alive count, by one, and can add only its own tile to the emptied ones |
| EnemyRules.ClearedAdd | enemies.js:317-323 | emptying one more tile clears it, drops its record, counts it once and clears the cells its record covered |
| EnemyRules.SettledAfterRetire | enemies.js:267-297 | one retirement followed by the check on its tile keeps the pass settled, clearing only the emptied tile's cells |
| EnemyRules.PassStarts | enemies.js:299-300 | before any retirement nothing is emptied and nothing is earned |
| EnemyRules.BountyNone | enemies.js:281 | an unchanged list earns nothing |
| EnemyRules.ResolveStep | enemies.js:471-484 | handling shot i-1 of the backward loop matches one unfolding of Resolve |
| EnemyRules.ResolveLast | enemies.js:471-484 | Resolve handles the last shot first |
| EnemyRules.DespawnedIn | enemies.js:300 | despawning spends exactly the alive enemies of the tile; the list keeps its length |
| EnemyRules.DespawnCounts | enemies.js:299-302 | despawning tile t retires exactly its alive enemies: t is emptied and every other tile's count stays |
| EnemyRules.DespawnLeavesNone | enemies.js:299-302 | after despawning t and pruning, no enemy of t remains, and every enemy left was there before |
| EnemyRules.DespawnClears | enemies.js:299-309 | a despawn empties tile t alone when it was sealed with an enemy alive, and no tile otherwise |
| EnemyRules.ClearTileKeepsLedger | enemies.js:305-307 | clearing a tile, counting it only if it was active, keeps the ledger |
| EnemyRules.DespawnSettles | enemies.js:299-309 | after the despawn loop, unsealing t gives the same rooms as unsealing it at the start, and t counts as cleared exactly when it was sealed with an enemy alive |
| EnemyRules.WaveSpawns | enemies.js:366-395 | every enemy of a wave is alive, belongs to the room, stands at a valid spawn point, has a difficulty in [0, 1] and is ranged only once unlocked; at most one per draw, none without a position |
| EnemyRules.SpawnKeepsLedger | enemies.js:367-368 | a fresh room marked spawned, and sealed if its wave is in, keeps the ledger |
| EnemyRules.SpawnedKeepsLedger | enemies.js:367-368 | marking one unspawned room spawned keeps the ledger |
| EnemyRules.StepAllKeepsAlive | enemies.js:401-468 | a frame moves enemies but never changes who is alive or which room they belong to |
| Enemies.CheckAndUpdateExitBlocks | enemies.js:311-326 | a sealed tile with no alive enemy is unsealed, loses its exit blocks and counts as a cleared room; any other tile is untouched; the room ledger is kept |
| Enemies.ProgressAfterStateChange | enemies.js:262-265 | every retirement counts as a clear, a kill also as a kill |
| Enemies.KillEnemy | enemies.js:267-288 | an alive enemy becomes killed, pays CreditValue, counts a kill and a clear and has its tile checked; any other enemy changes nothing |
| Enemies.DespawnEnemy | enemies.js:290-297 | an alive enemy becomes spent, counts a clear but no kill and no credits, and has its tile checked |
| Enemies.RetireOne | enemies.js:267-297 | one kill or despawn inside a pass keeps the pass's counters, rooms and world in step with the enemies retired so far |
| Enemies.HitEnemyAt | enemies.js:475-481 | shot s kills enemy ei exactly when it is alive and within ENEMY_RADIUS |
| Enemies.HitEnemiesWith | enemies.js:474-482 | the inner loop leaves the enemies as HitAll says and reports a hit exactly when some alive enemy was in reach |
| Enemies.ResolveShotHits | enemies.js:471-484 | the shot pass leaves the shots and enemies as Resolve says, with every kill's bounty, counters and room clear accounted for |
| Enemies.UnsealTile | enemies.js:305-308 | the tile is no longer active and only the cells its exit blocks covered are opened |
| Enemies.PruneSpent | enemies.js:302 | after a despawn only alive enemies remain, none of the tile left, each one from before |
| Enemies.SpendEnemiesIn | enemies.js:300 | every alive enemy of the tile is spent, the others are untouched, and no credits are paid |
| Enemies.DespawnEnemiesInTile | enemies.js:299-309 | leaving a room spends its alive enemies (clears without kills or credits), prunes the list to the alive enemies, none of that room, unseals it and opens its exit blocks; the room counts as cleared only if it was sealed with an enemy alive; the ledger and tile references are kept |
| Enemies.SpawnWave | enemies.js:376-388 | the spawn loop builds exactly the wave Wave describes: one attempt per draw, ranged when unlocked and the roll is below 0.4 |
| Enemies.AddWave | enemies.js:371-388 | the wave is pushed after the enemies already present, every one on the room |
| Enemies.SealIfOccupied | enemies.js:390-394 | the room is marked active and sealed with exactly its exit blocks when an enemy of it is in the list; otherwise nothing changes |
| Enemies.SpawnRoom | enemies.js:368-394 | a fresh room is marked spawned, gets as many attempts as getEnemyCountForRoom draws, and is sealed when an enemy of it is present; the ledger and tile references are kept |
| Enemies.MaybeSpawnEnemiesFor | enemies.js:366-395 | corridors, the start room and rooms already spawned are left alone; any other room is spawned as SpawnRoom says; existing enemies are kept as a prefix |
| Enemies.StepOne | enemies.js:402-466 | one alive enemy's frame is the k-th of Steps, and `near` is the contact test before it moved |
| Enemies.StepList | enemies.js:401-468 | the backward enemy loop yields StepAll's enemies, ShotsFired's shots in push order, and contact exactly when AnyTouches holds |
| Enemies.StepEnemies | enemies.js:401-468 | enemies take their frame, their shots join the enemy shots, and contact starts the game-over countdown unless god mode is on |
| Enemies.SettleShots | enemies.js:470-487 | after the frame the shots are resolved, the list is pruned to the alive enemies, credits grow by the bounty, kills and clears by the number killed, and only the cleared rooms' exit cells are opened |
| Enemies.UpdateEnemies | enemies.js:397-488 | nothing changes without enemies; otherwise the frame, the shot pass and the pruning compose as StepAll, Resolve and AliveOnly say, with every counter and the room ledger kept in step |
| Cookies.TrimStart | persistence.js:63 | leading whitespace is removed: the result is no longer and does not start with whitespace |
| Cookies.TrimEnd | persistence.js:63 | trailing whitespace is removed: the result is no longer and does not end with whitespace |
| Cookies.TrimIdle | persistence.js:63 | trim leaves a string without leading or trailing whitespace unchanged |
| Cookies.IndexOf | persistence.js:61 | the index found holds the separator and no earlier position does |
| Cookies.SplitJoin | persistence.js:61-63 | joining the pieces of a split gives the string back, and no piece holds the separator |
| Cookies.JoinSplit | persistence.js:61-63 | splitting pieces joined with a separator none of them holds gives the pieces back |
| Cookies.IndexOfAfterFree | persistence.js:63 | the first separator in `a + c + b` is the one after a, when a holds none |
| Cookies.GetCookie | persistence.js:60-69 | getCookie returns the value of the first ';'-separated entry whose trimmed name equals the name, undefined for an entry without '=', and null when no entry matches |
| Cookies.CookieReadBack | persistence.js:55-69 | an entry `name=value` written after entries without that name is read back as its value, whatever spaces come before it |
| Cookies.EntryReadBack | persistence.js:55-69 | a single entry `name=value` reads back as value |
| Cookies.TrimStartPad | persistence.js:63 | trimming removes exactly the leading spaces before a token |
| Cookies.LookupSkips | persistence.js:62-67 | entries that do not carry the name do not affect the lookup |
| Cookies.DigitPrefix | persistence.js:83 | the digit prefix is a prefix of the text, made only of digits |
| Cookies.DigitsValue | persistence.js:83 | a run of decimal digits has a non-negative value |
| Cookies.NatToString | persistence.js:73 | the decimal text of a count is non-empty and made only of digits |
| Cookies.NatToStringValue | persistence.js:73 | the digits written for n have the value n |
| Cookies.CreditsRoundTrip | persistence.js:72-85 | `parseInt(credits.toString(), 10) \|\| 0` gives back every non-negative credit count |
| Cookies.DigitPrefixAll | persistence.js:83 | a text made only of digits is its own digit prefix |
| Cookies.LoadedCredits | persistence.js:81-85 | a missing cookie leaves the credits as they were, an entry without '=' (NaN) reads as 0, and a digit string reads as its value |
| Cookies.DigitsParse | persistence.js:83 | `parseInt(text, 10)` of a non-empty digit string is the number those digits write |
| Persistence.PurchaseSpends | persistence.js:125-161 | a purchase goes through exactly when the upgrade is below its maximum level and the credits cover its cost; it then pays the cost and raises the level by one; a refused purchase changes nothing |
| Persistence.PurchaseKeepsPurseOk | persistence.js:125-161 | purchases never drive the credits negative, never take a level past its maximum, and keep the lives within the cap |
| Persistence.HealthPurchaseGrantsLife | persistence.js:144-151 | buying health raises the life cap by one and grants that life at once; buying anything else leaves the lives and cap alone |
| Persistence.LivesLast | persistence.js:183-191 | with n lives a run survives exactly n - 1 lost lives, each leaving one life fewer, and the next one ends the run |
| Persistence.ApplyUpgrades | persistence.js:109-122 | the three multipliers become the effects of the current levels, the life cap becomes one plus the health level, and the lives are clamped to it |
| Persistence.PurchaseUpgrade | persistence.js:134-161 | the credits, levels and lives change as Purchased says, the effects are re-applied on success, and a refused purchase changes nothing |
| Persistence.ResetUpgrades | persistence.js:164-177 | every level back to 0, no credits, every multiplier 1 and a life cap of 1 |
| Persistence.ResetLives | persistence.js:179-181 | the lives are refilled to the cap |
| Persistence.LoseLife | persistence.js:183-191 | one life fewer while more than one is left; otherwise no lives are left and the run is over |
| Persistence.LoadProgress | persistence.js:79-107 | a credits cookie sets the credits as LoadedCredits reads it; an upgrades cookie with a value that parses is migrated and merged over the current levels, keeping all four keys; the effects are re-applied in every case |
| GameCore.FrameDt | game-core.js:153-155 | the frame's step never exceeds 0.05 s, is the elapsed time when that is positive and shorter, 0.016 s when no time passed, and positive whenever the clock did not run backwards |
| GameCore.LookAngle | game-core.js:166-175 | no turn without a look delta; otherwise a turn in the delta's direction, at most 0.005 rad per unit, twice the desktop sensitivity on a touch screen |
| GameCore.RotatedProducts | game-core.js:177-185 | a rotation keeps the dot and cross products of two vectors |
| GameCore.RotatedShape | game-core.js:177-185 | a camera whose facing and plane are another's rotated by a true rotation has the same lengths, angle and orientation |
| GameCore.TurnKeepsShape | game-core.js:177-185 | a turn by a true rotation keeps the facing's and the plane's lengths, their angle and their orientation, and so the field of view |
| GameCore.TurnsCompose | game-core.js:177-185 | two turns in a row are one turn by the sum of the angles |
| GameCore.RotatedTwice | game-core.js:177-185 | rotating a vector twice is rotating it once by the sum of the angles, given by the addition formulas |
| GameCore.TurnUndone | game-core.js:177-185 | turning back by the opposite angle restores the camera |
| GameCore.Turn | game-core.js:179-184 | facing and plane are both rotated, each from its components before the turn |
| GameCore.LookAndTurn | game-core.js:166-185 | the look delta is used up, and a non-zero turn rotates facing and plane by LookAngle |
| GameCore.ForwardFollowsFacing | game-core.js:194-198 | W alone walks along the facing |
| GameCore.StrafeCrossesFacing | game-core.js:204-214 | A walks at right angles to the facing, and D exactly the other way |
| GameCore.OppositeKeysCancel | game-core.js:194-203 | W and S together count as moving but give a zero move vector |
| GameCore.JoystickUpWalksForward | game-core.js:216-226 | pushing the stick straight up walks along the facing |
| GameCore.ProductAtMost | game-core.js:231 | two factors at most m multiply to at most m squared |
| GameCore.FactorAtMostOne | game-core.js:231 | p q = r at most q with q positive leaves p at most 1 |
| GameCore.NormalisedAtMostOne | game-core.js:231 | dividing a vector by the larger of 1 and its length leaves it no longer than one |
| GameCore.StillWithinStep | game-core.js:229 | standing still is within any step |
| GameCore.HeadingWithinStep | game-core.js:231-233 | the point the player heads for is within one step length |
| GameCore.AxisMovesWithinStep | game-core.js:234-235 | keeping or taking each coordinate of a target within one step ends within one step |
| GameCore.GatherMove | game-core.js:189-226 | the move vector and moving flag are the keys' share plus, on a touch screen, the joystick's share outside its dead zone |
| GameCore.SlideTo | game-core.js:234-235 | the player moves as Slide says and never onto a wall cell from an open one |
| GameCore.Walk | game-core.js:186-236 | when a key or the joystick moves the player, the player slides toward the heading; the player never walks onto a wall from an open cell and never further than one step length |
| GameCore.NextTile | game-core.js:116-122 | the tile entered is the previous tile across the back side, otherwise the neighbour on that side, which exists exactly when the side has one and sits at that side's slot; never the current tile |
| GameCore.ShiftKeepsOffsets | game-core.js:141-146 | a shifted shot keeps its offset from the player shifted alike, its velocity and its age |
| GameCore.ShiftUndone | game-core.js:143-146 | shifting back undoes a shift |
| GameCore.ShiftShots | game-core.js:143-146 | every shot moves by as much as the entered tile's origin did |
| GameCore.FlagsKeepLedger | world-generation.js:76-100 | tiles that keep their active and spawned flags, plus fresh tiles with neither, keep the room ledger |
| GameCore.Relayout | game-core.js:137 | rebuild_world positions the tiles as the layout says, seals exactly the positioned tiles with enemies, and keeps every tile reference valid |
| GameCore.RebuildAround | game-core.js:135-136 | the tile entered lands at the centre slot, the previous tile at the slot of the side it was left through, and each fresh neighbour at its side's slot; the entered tile gets a neighbour on every open side but that one |
| GameCore.FreshNeighbours | game-core.js:135 | the entered tile keeps everything but its neighbours, gets a neighbour on exactly its open sides other than the back side, each a distinct new unspawned tile; old tiles keep their spawn and enemy flags |
| GameCore.MakePrevious | game-core.js:133 | the current tile becomes the previous one |
| GameCore.MakeCurrent | game-core.js:148 | the tile entered becomes the current one |
| GameCore.Recentre | game-core.js:129-148 | after the despawn, the world is rebuilt around the tile entered, its back side is the one crossed, and the player and every shot keep their place relative to that tile |
| GameCore.CrossInto | game-core.js:124-148 | crossing despawns the room left, so none of its enemies remain and it is no longer active, without kills or credits, and recentres on the tile entered |
| GameCore.SpawnArrival | game-core.js:149 | the spawn in the tile entered keeps the layout and ledger and adds only enemies of that tile after those already present |
| GameCore.EnterNeighbor | game-core.js:115-150 | nothing changes when no tile lies that way; otherwise the room left keeps no enemies and is no longer active, the tile entered becomes current with the old one as previous, the player and shots keep their place relative to it, and no kill or credit is counted |
| GameCore.Arrive | game-core.js:124-149 | the crossing then the spawn: the layout, the player's place in the tile and the room-left guarantees of CrossInto all survive the spawn |
| GameCore.EnsureNeighborsVisible | game-core.js:109-113 | the player crosses only when which_tile_contains puts them in another tile on a side of the current tile; the current tile changes only through that side, never one whose exit is blocked, into the tile NextTile names |
| GameCore.MakeStartRoom | game-core.js:323-329 | the start room is a fresh tile with doors north, east and south only, no pillars, marked spawned, made the current tile |
| GameCore.RebuildStart | game-core.js:333 | without a previous tile only the start room and its neighbours are positioned, at their slots, and nothing is sealed |
| GameCore.LayOutStart | game-core.js:331-333 | the start room gets a neighbour on each of its doors, no previous tile, and a world that seals nothing |
| GameCore.ResetRun | game-core.js:295-321 | the run's counters, lives, enemies, both shot lists, the countdown and the exit blocks are reset; the credits are kept |
| GameCore.BuildStartWorld | game-core.js:323-333 | the map of a fresh run: the start room at the centre with its three neighbours and nothing sealed |
| GameCore.BuildStart | game-core.js:323-339 | the map of a fresh run, and the player in the middle of the start room facing east |
| GameCore.PlacePlayer | game-core.js:335-339 | the player stands in the middle of the start room, facing east with the camera plane at 0.66 |
| GameCore.StartNewRun | game-core.js:294-340 | a fresh run: counters, lives, enemies, shots, countdown and exit blocks reset, credits kept, start room built and the player placed at its middle |
| Raycast.DeltaDist | game-core.js:65-67 | the distance between grid lines along a ray is positive: the reciprocal of the component's size, or INF when the ray does not move on that axis |
| Raycast.Advance | game-core.js:77-81 | one march step moves exactly one cell along one axis, stops with BOUNDARY_ID outside the grid or on the non-empty cell it enters, and otherwise stands on an empty cell |
| Raycast.MarchFinishes | game-core.js:76-82 | a ray inside the grid with enough guard left always stops |
| Raycast.MarchReports | game-core.js:76-82 | a stopped march reports BOUNDARY_ID outside the grid and the non-empty cell it stands on inside it |
| Raycast.RayMeetsWall | game-core.js:64-82 | on a grid narrower than the 4096-step guard, every ray stops on a wall cell or at the boundary and reports it honestly |
| Raycast.CastRay | game-core.js:64-82 | the march loop ends in the probe Marched describes |
| Raycast.NonZero | game-core.js:85-86 | `rayDir \|\| 1e-9` is never zero |
| Raycast.PerpDist | game-core.js:84-87 | the wall distance is always positive |
| Raycast.Rows | game-core.js:90-91 | drawStart is never above the screen and drawEnd never below it |
| Raycast.Span | game-core.js:89-91 | the wall's rows at any distance lie on the screen |
| Raycast.MulMonotone | game-core.js:96 | multiplying by a non-negative factor keeps order |
| Raycast.DivNonNegative | game-core.js:89 | dividing a non-negative value by a positive one stays non-negative |
| Raycast.DivAntitone | game-core.js:89-95 | dividing by more gives less |
| Raycast.MulBetween | game-core.js:96 | a factor in [0, 1] keeps a non-negative value between 0 and itself |
| Raycast.TruncBetween | game-core.js:89 | truncating a value in [0, c] stays in [0, c] |
| Raycast.TruncMonotone | game-core.js:89-91 | truncation keeps order |
| Raycast.ToInt32Ordered | game-core.js:89-91 | `\| 0` on values that cannot wrap keeps order and sign |
| Raycast.HalfHeightOnScreen | game-core.js:280 | HALF_H is a row of the screen |
| Raycast.RowsHoldHorizon | game-core.js:90-91 | a wall's rows always hold the horizon row HALF_H |
| Raycast.RowsNest | game-core.js:90-91 | a shorter wall's rows lie within a taller wall's |
| Raycast.SpanHoldsHorizon | game-core.js:89-91 | while `(H / perp) \| 0` does not wrap, a wall's span holds the horizon row |
| Raycast.SpanShrinksWithDistance | game-core.js:89-91 | a farther wall's span lies within a nearer wall's |
| Raycast.Shade | game-core.js:95 | the shade factor lies in [0.4, 1] |
| Raycast.ShadeSaturates | game-core.js:95 | walls up to 1.5 away are at full brightness and walls 4.5 or more away at the 0.4 floor |
| Raycast.ShadeFades | game-core.js:95 | walls never get brighter with distance |
| Raycast.ScaleDims | game-core.js:94-96 | scaling a channel by a factor in [0, 1] keeps it a channel no brighter than before |
| Raycast.ScaledBetween | game-core.js:96 | a scaled channel stays within 0 and the original channel |
| Raycast.ProductBounds | game-core.js:96 | a channel times a factor in [0, 1] lies within 0 and the channel |
| Raycast.ProductsOrdered | game-core.js:96 | the same factor keeps two channels in order |
| Raycast.ColumnColourInRange | game-core.js:93-96 | with a palette of true colours every column colour is a true colour, no brighter than the wall's palette entry (white when it has none), and a y-side hit is never brighter than an x-side hit at the same distance |
| Raycast.ChannelDims | game-core.js:94-96 | one channel through the y-side dimming and the shade is never brighter than through the shade alone, nor than the channel |
| Raycast.ScaleOrdered | game-core.js:96 | a brighter channel stays at least as bright after the same scaling |
| Raycast.ScaledOrdered | game-core.js:96 | the truncated products of two ordered channels stay ordered |
| Raycast.CastColumn | game-core.js:59-96 | a column gets the distance, rows and colour of ColumnAt, with a positive distance and rows on the screen |
| Raycast.RenderFrame | game-core.js:58-103 | zBuf holds, for every column, that column's positive wall distance |
| Weapons.SpawnShot | weapons.js:46-58 | while the blaster cools down nothing happens; otherwise one shot leaves the muzzle along the facing at SHOT_SPEED and the blaster locks for a full cooldown |
| Weapons.MoveShots | weapons.js:60-96 | both lists keep exactly the shots that survive the frame; player shots never hit the player; an enemy shot reaching the player starts the game-over countdown unless god mode is on |
| Weapons.UpdateBlasterCooldown | weapons.js:98-103 | a running cooldown counts down by dt and never below 0 |
| Weapons.ShotLocksBlaster | weapons.js:98-103 | after a shot the blaster stays locked exactly while the frames add up to less than BLASTER_COOLDOWN_TIME |
| KruptinsWeapons.SpawnShot | attack-of-the-kruptins/weapons.js:62-84 | while the blaster cools down nothing happens; otherwise one shot leaves the muzzle at the upgraded speed and the blaster locks for the upgraded cooldown |
| KruptinsWeapons.UpgradedBlaster | attack-of-the-kruptins/weapons.js:72-83 | with legal upgrade levels a shot flies at 10 to 22 and the blaster locks for 0.35 to 1.4 s; each purchase makes shots strictly faster and the lock strictly shorter |
| KruptinsWeapons.MoveShots | attack-of-the-kruptins/weapons.js:86-122 | both lists keep exactly the shots that survive the frame; each enemy shot reaching the player calls the damage hook once, when god mode is off and the hook exists |
| KruptinsWeapons.UpdateBlasterCooldown | attack-of-the-kruptins/weapons.js:124-129 | a running cooldown counts down by dt and never below 0 |
| Ui.TriggerGameOver | ui.js:14-17 | the game-over countdown starts at 1.2 s unless god mode is on |
| GameOver.CountdownAfter | ui.js:19-37 | an off countdown stays off; a running one is lowered by the frame's step while time remains and returns to -1 once spent, so it is always off or positive |
| GameOver.CountdownRunsDown | ui.js:19-37 | with a fixed step the countdown after n frames is c - n dt while that is positive |
| GameOver.CountdownEnds | ui.js:19-37 | the frame after the countdown is spent turns it off again |
| GameOver.DrawGameOverScreen | ui.js:19-37 | the overlay is active exactly while the countdown runs; a frame lowers it; once spent a new run starts with the credits kept and the countdown off; until then nothing else changes |
| Controls.HeldIffLastDown | controls.js:125-137 | after any run of key events a key is held exactly when its latest event was a keydown, or it had no event and was held before |
| Controls.KeyDown | controls.js:125-134 | the code is held from now on; KeyR starts a new run with the credits kept, and any other key changes nothing else |
| Controls.KeyUp | controls.js:135-137 | the code is no longer held |
| Controls.ClampMovement | controls.js:108 | a movement is clamped to [-50, 50], kept as it is inside that range and set to the nearer bound outside it |
| Controls.PushKeepsBuffer | controls.js:111-114 | a push keeps at most three clamped entries, the latest ones in order, the newest last |
| Controls.SumWithin | controls.js:117 | n entries within [-50, 50] sum to within [-50 n, 50 n] |
| Controls.MeanWithin | controls.js:117 | the average of clamped movements lies in [-50, 50] |
| Controls.MouseMove | controls.js:103-121 | ignored unless the pointer is locked; otherwise the clamped movement is pushed and the buffer's average added to the look delta, which so changes by at most 50, the buffer staying at most three clamped entries |
| Controls.PointerLockChange | controls.js:88-93 | mouse look follows whether the canvas holds the pointer lock |
| Controls.MouseDown | controls.js:464-468 | the main button fires the blaster unless it cools down; any other button does nothing |
| Controls.ToggleGodMode | controls.js:470-478 | god mode flips |
| Controls.StartedTracks | controls.js:155-182 | after touchstart exactly the touches tracked before and the new touches on the joystick or right of the middle are tracked, and a record whose touch was not in the event is kept |
| Controls.TouchStart | controls.js:155-182 | the records become those Started describes |
| Controls.StartedKeepsTouchesOk | controls.js:155-182 | touchstart keeps every look touch's drag at least its displacement |
| Controls.Dragged | controls.js:191-194 | a drag keeps the look touch's start, moves its last point, never lowers its total drag and keeps it covering the displacement |
| Controls.MovedKeeps | controls.js:185-201 | touchmove tracks the same touches, never changes a joystick record or a look touch's start, never lowers a drag, and keeps the drag covering the displacement |
| Controls.TouchMove | controls.js:185-201 | each changed look touch adds its horizontal step to its drag and 1.5 times it to the look delta |
| Controls.TapStaysNear | controls.js:210-214 | a tap never ends 10 pixels or more from where it started |
| Controls.EndStep | controls.js:205-217 | one more touch of touchend deletes its record, and a tap among the touches so far is a tap among the earlier ones or this one |
| Controls.TouchEnd | controls.js:204-218 | every changed touch's record is deleted, and the blaster fires, once at most, exactly when one of them was a tap and the blaster was ready |
| Controls.TouchCancel | controls.js:220-225 | every changed touch's record is deleted and no other |
| Controls.ScaledLength | controls.js:309-317 | scaling a vector of length dist by k scales its squared length by k squared |
| Controls.ScaledTwice | controls.js:314-325 | scaling by m / d then dividing by r is one scaling |
| Controls.DivideIsScale | controls.js:324-325 | dividing by r is scaling by 1 / r |
| Controls.SquareAtMost | controls.js:310-313 | squaring keeps the order of non-negative reals |
| Controls.OnRing | controls.js:313-325 | beyond the ring the vector is exactly 0.78 long |
| Controls.InsideRing | controls.js:311-325 | inside the ring the vector is at most 0.78 long |
| Controls.JoyVectorCapped | controls.js:307-325 | the joystick vector is never longer than 0.78, and exactly 0.78 whenever the thumb is beyond the ring |
| Controls.ThumbDistSq | controls.js:307-309 | the squared thumb distance is never negative |
| Controls.ThumbVectorCapped | controls.js:305-325 | wherever the thumb is, the vector stays within the 0.78 ring |
| Controls.Flags | controls.js:327-330 | the direction flags never claim both forward and back, nor both left and right, and are all off within 0.22 of the centre |
| Controls.ResetJoystick | controls.js:293-303 | the thumb is centred, no flag is set and the joystick is released |
| Controls.UpdateJoystick | controls.js:305-331 | nothing without a centre; otherwise the vector of the thumb, capped at the 0.78 ring, with the flags for it |
| Controls.JoystickTouchStart | controls.js:334-359 | unless a touch already drives the joystick, the first changed touch takes it, the centre is read and the vector follows that touch |
| Controls.FirstWithId | controls.js:364-371 | the index found holds the identifier and no earlier one does; none is found only when no touch has it |
| Controls.JoystickTouchMove | controls.js:361-372 | while active, the vector follows the first current touch that is the joystick's own; otherwise nothing changes |
| Controls.JoystickRelease | controls.js:374-395 | the joystick resets exactly when its own touch is among the changed ones; otherwise nothing changes |

## Left out

- GridBuild.BuildTileAt: carves L halls with the corrected `GridBuild.BuildHallL`, not with the legs world-generation.js:177-186 carves. The as-written legs are `GridBuild.BuildHallLAsWritten`, reported under "## Findings".
- WorldGeneration.GenerateTile: takes its wall id through `WorldGeneration.SkipReserved`, so the 990th tile of a session gets 1000 where world-generation.js:69-74 gives it 999. The as-written allocation is `WorldGeneration.NextWallIdWithColorAsWritten`, reported under "## Findings". Every caller of GenerateTile, up to `GameCore.StartNewRun`, inherits the corrected ids, and the invariant `State.Game.ColoursOk`, which keeps the exit-block colour grey, holds only under them.
- Canvas output is not modelled: `drawEnemies`, `drawShots`, `drawSprites`, `drawBlaster`, the tinted and flash canvases, and the `fillRect` calls of `renderFrame`. The model stops at the `zBuf` depth and the span and shade of each column.
- Browser plumbing is not modelled, because it only draws or registers handlers; the state each handler changes is modelled:
  - `resizeToWindow`, the `MOBILE` user-agent test and the choice of control scheme;
  - `createTouchUI` and the upgrade button and menu (including the `KeyU` toggle `toggleUpgradeMenu`);
  - pointer-lock requests and `addEventListener` registration;
  - `updateHUD` and the `update*UI` functions.
- audio.js is not modelled: its playback is asynchronous and foreign.
- Cookie writing is not modelled: `setCookie`, the `document.cookie` assignment, the autosave timer and the unload hooks. `JSON.parse` is a parameter of `Persistence.LoadProgress`, where `None` stands for the parse throwing.
- `Math.random`, `hsvToRgb` and `rand_rainbow` are replaced by given draws and colours, so no probability is stated: not the 40% ranged chance, not the pillar roll, not the kind weights.
- Floating-point rounding is not modelled: arithmetic is exact over the reals. `Math.cos`, `Math.sin`, `Math.sqrt` and `Math.hypot` are parameters constrained only by the property the proof needs.
- `zBuf` is a `Float32Array` in the source. Its float32 rounding and its lazy re-allocation on resize are not modelled; the model's `zBuf` already has the screen width.
- `requestAnimationFrame` scheduling is not modelled, and neither is the order of the calls inside `loop`. Each step of the frame is its own method, and they are not composed into one.
- The blaster sway animation, the upgrade notification timer and the invincibility flash are left out, because they only draw.
- `Controls.UpdateJoystick`: the source computes a NaN direction when the stick's radius is zero. The model requires a positive radius, as the game's constant gives.
- `Controls.TouchStart`, `Controls.TouchMove` and `Controls.TouchEnd` read the clock once per event rather than once per touch, because the source calls `performance.now` in the same synchronous loop.
- `Controls.JoystickTouchStart`: with an empty `changedTouches` the source would throw on the first element; the model does nothing.
- The ranged-enemy contact test at enemies.js:451 has no god-mode check, unlike the melee one. `triggerGameOver` checks god mode itself, so `Enemies.StepEnemies` uses a single condition for both, with the same effect.
- `Weapons.MoveShots`: the source may call `triggerGameOver` several times in one frame. The call is idempotent, so the model calls it once.
- The player's shots in controls.js go through `spawnShot` from weapons.js, which `Weapons.SpawnShot` models. The alternative `KruptinsWeapons.SpawnShot` is its own module, as the two files are alternative versions.

## Findings

| source | as written | input that shows it | evidently intended | confidence | as-written member | corrected member |
|---|---|---|---|---|---|---|
| world-generation.js:177-186 | `build_hall_L` always carves the entry leg toward the north or west edge and the turn leg toward the south or east edge, whatever the orientation | an L hall entered from the south that turns east: the cell just inside its south door stays wall. Only 2 of the 8 configurations open the cells behind both doors | each leg runs from the door on its own side to the centre | not executed | GridBuild.BuildHallLAsWritten (with GridBuild.AsWrittenLHallWallsOffSouthDoor and GridBuild.AsWrittenLHallOpensBothDoorsOnlyTwice) | GridBuild.BuildHallL (with GridBuild.LHallDoorsReachCentre) |
| world-generation.js:69-74 | `next_wall_id_with_color` hands out the counter whatever its value, and the counter starts at 10 and is never reset | the 990th tile of a session gets wall id 999, the exit-block id, and its rainbow colour replaces the grey of the exit blocks | wall ids skip the reserved ids, so the block colour stays grey | not executed | WorldGeneration.NextWallIdWithColorAsWritten (with WorldGeneration.AsWrittenOverwritesBlockColour and WorldGeneration.AsWrittenBlockColourLost) | WorldGeneration.NextWallIdWithColor (with WorldGeneration.SkipReserved and WorldGeneration.FixedKeepsReservedColours) |
