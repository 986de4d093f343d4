/** The state-changing half of world-generation.js: wall ids and colours, tile
    generation, the empty world, the exit blocks that seal a room while its
    enemies live, the re-centring of the 3x3 layout, and the queries on it. */
module WorldGeneration {
  import opened Common
  import opened Tiles
  import opened GridBuild
  import opened State

  // ---------------------------------------------------------------------------
  // Wall ids and their colours
  // ---------------------------------------------------------------------------

  /** The WALL_COLOR entries that successive calls of next_wall_id_with_color,
      as written, leave behind: call i hands out `counter + i` and stores the
      i-th colour drawn under it. */
  function IssueAsWritten(colors: map<int, Rgb>, counter: int, palette: seq<Rgb>): map<int, Rgb>
    decreases |palette|
  {
    if palette == [] then colors
    else IssueAsWritten(colors[counter := palette[0]], counter + 1, palette[1..])
  }

  /** Entries below the counter are never touched again. */
  lemma {:induction false} IssueAsWrittenKeepsBelow(colors: map<int, Rgb>, counter: int, palette: seq<Rgb>, k: int)
    requires k < counter && k in colors
    ensures k in IssueAsWritten(colors, counter, palette)
    ensures IssueAsWritten(colors, counter, palette)[k] == colors[k]
    decreases |palette|
  {
    if palette != [] {
      IssueAsWrittenKeepsBelow(colors[counter := palette[0]], counter + 1, palette[1..], k);
    }
  }

  /** As written, the call that finds the counter at 999 stores its rainbow
      colour under BLOCK_COLOR_ID, and that entry is never restored. */
  lemma {:induction false} AsWrittenOverwritesBlockColour(colors: map<int, Rgb>, counter: int, palette: seq<Rgb>)
    requires counter <= BLOCK_COLOR_ID < counter + |palette|
    ensures BLOCK_COLOR_ID in IssueAsWritten(colors, counter, palette)
    ensures IssueAsWritten(colors, counter, palette)[BLOCK_COLOR_ID] == palette[BLOCK_COLOR_ID - counter]
    decreases |palette|
  {
    if counter == BLOCK_COLOR_ID {
      IssueAsWrittenKeepsBelow(colors[counter := palette[0]], counter + 1, palette[1..], BLOCK_COLOR_ID);
    } else {
      AsWrittenOverwritesBlockColour(colors[counter := palette[0]], counter + 1, palette[1..]);
    }
  }

  /** From the initial WALL_COLOR and counter, the 990th tile generated takes
      wall id 999; unless its rainbow colour happens to be grey, exit blocks are
      no longer drawn grey. The counter is never reset, so a long session gets there. */
  lemma AsWrittenBlockColourLost(palette: seq<Rgb>)
    requires |palette| >= BLOCK_COLOR_ID - FIRST_WALL_ID + 1
    requires palette[BLOCK_COLOR_ID - FIRST_WALL_ID] != BLOCK_COLOR
    ensures BLOCK_COLOR_ID in IssueAsWritten(map[BOUNDARY_ID := BOUNDARY_COLOR, BLOCK_COLOR_ID := BLOCK_COLOR], FIRST_WALL_ID, palette)
    ensures IssueAsWritten(map[BOUNDARY_ID := BOUNDARY_COLOR, BLOCK_COLOR_ID := BLOCK_COLOR], FIRST_WALL_ID, palette)[BLOCK_COLOR_ID] != BLOCK_COLOR
  {
    AsWrittenOverwritesBlockColour(map[BOUNDARY_ID := BOUNDARY_COLOR, BLOCK_COLOR_ID := BLOCK_COLOR], FIRST_WALL_ID, palette);
  }

  /** next_wall_id_with_color as written: hand out the counter, whatever it is. */
  method NextWallIdWithColorAsWritten(g: Game, color: Rgb) returns (wid: int)
    modifies g`wallIdCounter, g`wallColors
    ensures wid == old(g.wallIdCounter) && g.wallIdCounter == wid + 1
    ensures g.wallColors == old(g.wallColors)[wid := color]
  {
    wid := g.wallIdCounter;
    g.wallIdCounter := g.wallIdCounter + 1;
    g.wallColors := g.wallColors[wid := color];
  }

  /** The corrected id choice: step over the two ids WALL_COLOR reserves. */
  function SkipReserved(c: int): (wid: int)
    ensures wid != BOUNDARY_ID && wid != BLOCK_COLOR_ID
    ensures c <= wid <= c + 1
  {
    if c == BOUNDARY_ID || c == BLOCK_COLOR_ID then c + 1 else c
  }

  /** The counter after k calls of the corrected next_wall_id_with_color from
      counter c; call j hands out SkipReserved(WallIdAfter(c, j)). */
  function WallIdAfter(c: int, k: nat): int
  {
    if k == 0 then c else SkipReserved(WallIdAfter(c, k - 1)) + 1
  }

  /** Successive calls hand out strictly increasing ids, each above every
      counter value before it, so no two calls share an id. */
  lemma {:induction false} WallIdsIncrease(c: int, j: nat, k: nat)
    requires j < k
    ensures WallIdAfter(c, j) <= SkipReserved(WallIdAfter(c, j)) < WallIdAfter(c, k)
    ensures SkipReserved(WallIdAfter(c, j)) < SkipReserved(WallIdAfter(c, k))
  {
    if j + 1 < k {
      WallIdsIncrease(c, j, k - 1);
    }
  }

  /** WALL_COLOR after successive calls of the corrected next_wall_id_with_color. */
  function IssueFixed(colors: map<int, Rgb>, counter: int, palette: seq<Rgb>): map<int, Rgb>
    decreases |palette|
  {
    if palette == [] then colors
    else IssueFixed(colors[SkipReserved(counter) := palette[0]], SkipReserved(counter) + 1, palette[1..])
  }

  /** However many tiles are generated, the corrected allocation never changes
      the colours of the boundary and of exit blocks. */
  lemma {:induction false} FixedKeepsReservedColours(colors: map<int, Rgb>, counter: int, palette: seq<Rgb>)
    requires BOUNDARY_ID in colors && BLOCK_COLOR_ID in colors
    ensures BOUNDARY_ID in IssueFixed(colors, counter, palette)
    ensures BLOCK_COLOR_ID in IssueFixed(colors, counter, palette)
    ensures IssueFixed(colors, counter, palette)[BOUNDARY_ID] == colors[BOUNDARY_ID]
    ensures IssueFixed(colors, counter, palette)[BLOCK_COLOR_ID] == colors[BLOCK_COLOR_ID]
    decreases |palette|
  {
    if palette != [] {
      FixedKeepsReservedColours(colors[SkipReserved(counter) := palette[0]], SkipReserved(counter) + 1, palette[1..]);
    }
  }

  /** next_wall_id_with_color, corrected: a fresh id that is neither reserved
      nor already coloured; the reserved colours survive. */
  method NextWallIdWithColor(g: Game, color: Rgb) returns (wid: int)
    requires g.ColoursOk()
    modifies g`wallIdCounter, g`wallColors
    ensures wid == SkipReserved(old(g.wallIdCounter)) && g.wallIdCounter == wid + 1
    ensures wid !in old(g.wallColors) && wid >= FIRST_WALL_ID
    ensures g.wallColors == old(g.wallColors)[wid := color]
    ensures g.ColoursOk()
  {
    wid := SkipReserved(g.wallIdCounter);
    g.wallIdCounter := wid + 1;
    g.wallColors := g.wallColors[wid := color];
  }

  // ---------------------------------------------------------------------------
  // Tile generation
  // ---------------------------------------------------------------------------

  /** The random draws generate_tile makes: the kind, the wall colour (the hue
      rand_rainbow turns into a colour), and the variety, which is drawn only
      for a room3 or a dead end. */
  datatype TileDraw = TileDraw(kindRoll: real, color: Rgb, varietyRoll: real)

  /** The tile generate_tile builds for entry side `orient`, given its wall id. */
  function NewTile(orient: Dir, draw: TileDraw, wid: int): Tile
  {
    var kind := KindForRoll(draw.kindRoll);
    var variety :=
      if kind == Room3 || kind == Dead then
        Some(if draw.varietyRoll < 0.5 then CenterPillar else CornerPillars)
      else None;
    Tile(orient, kind, OpenSidesFor(kind, orient), wid, draw.color, map[], false, {}, false, variety, false)
  }

  /** A freshly generated tile keeps its entry door, has the open sides of its
      kind, has a pillar layout exactly when it is a room3 or a dead end, is never
      the start room and starts with no neighbours, no spawn and no blocks. */
  lemma NewTileShape(orient: Dir, draw: TileDraw, wid: int)
    ensures NewTile(orient, draw, wid).orient == orient
    ensures orient in NewTile(orient, draw, wid).openSides
    ensures NewTile(orient, draw, wid).openSides == OpenSidesFor(NewTile(orient, draw, wid).kind, orient)
    ensures NewTile(orient, draw, wid).kind != StartRoom && !NewTile(orient, draw, wid).isStart
    ensures NewTile(orient, draw, wid).variety.Some? <==>
      NewTile(orient, draw, wid).kind == Room3 || NewTile(orient, draw, wid).kind == Dead
    ensures NewTile(orient, draw, wid).neighbors == map[] && NewTile(orient, draw, wid).exitBlocks == {}
    ensures !NewTile(orient, draw, wid).spawned && !NewTile(orient, draw, wid).hasActiveEnemies
  {
    OpenSidesShape(KindForRoll(draw.kindRoll), orient);
  }

  /** generate_tile: pick the kind, open its sides, take a wall id and colour,
      and give a room3 or dead end its variety. The tile joins the arena. */
  method GenerateTile(g: Game, orient: Dir, draw: TileDraw) returns (id: TileId)
    requires g.ColoursOk() && g.TileRefsOk()
    modifies g`tiles, g`wallIdCounter, g`wallColors
    ensures id == old(|g.tiles|) && |g.tiles| == id + 1 && g.tiles[..id] == old(g.tiles)
    ensures g.tiles[id] == NewTile(orient, draw, g.tiles[id].wallId)
    ensures g.tiles[id].wallId == SkipReserved(old(g.wallIdCounter)) && g.wallIdCounter == g.tiles[id].wallId + 1
    ensures g.tiles[id].wallId !in old(g.wallColors)
    ensures g.wallColors == old(g.wallColors)[g.tiles[id].wallId := draw.color]
    ensures g.ColoursOk() && g.TileRefsOk()
  {
    var kind := PickKind(draw.kindRoll);
    var sides := OpenSidesFor(kind, orient);
    var wid := NextWallIdWithColor(g, draw.color);
    var variety: Option<Variety> := None;
    if kind == Room3 || kind == Dead {
      variety := Some(if draw.varietyRoll < 0.5 then CenterPillar else CornerPillars);
    }
    id := |g.tiles|;
    g.tiles := g.tiles + [Tile(orient, kind, sides, wid, draw.color, map[], false, {}, false, variety, false)];
    assert g.tiles[..id] == old(g.tiles);
  }

  // ---------------------------------------------------------------------------
  // The empty world
  // ---------------------------------------------------------------------------

  /** The outer ring of an ht x wd grid. */
  predicate OnRing(ht: int, wd: int, y: int, x: int)
  {
    y == 0 || y == ht - 1 || x == 0 || x == wd - 1
  }

  /** empty_world: a new 58x58 grid, BOUNDARY_ID on its outer ring and 0 inside. */
  method EmptyWorld(g: Game)
    modifies g`world
    ensures fresh(g.world)
    ensures g.world.Length0 == WORLD_SIZE && g.world.Length1 == WORLD_SIZE
    ensures forall y, x :: 0 <= y < WORLD_SIZE && 0 <= x < WORLD_SIZE ==>
      g.world[y, x] == if OnRing(WORLD_SIZE, WORLD_SIZE, y, x) then BOUNDARY_ID else 0
  {
    var w := new int[WORLD_SIZE, WORLD_SIZE]((y, x) => 0);
    for x := 0 to WORLD_SIZE
      invariant forall yy, xx :: 0 <= yy < WORLD_SIZE && 0 <= xx < WORLD_SIZE ==>
        w[yy, xx] == if (yy == 0 || yy == WORLD_SIZE - 1) && xx < x then BOUNDARY_ID else 0
    {
      w[0, x] := BOUNDARY_ID;
      w[WORLD_SIZE - 1, x] := BOUNDARY_ID;
    }
    for y := 0 to WORLD_SIZE
      invariant forall yy, xx :: 0 <= yy < WORLD_SIZE && 0 <= xx < WORLD_SIZE ==>
        w[yy, xx] == if yy == 0 || yy == WORLD_SIZE - 1 || ((xx == 0 || xx == WORLD_SIZE - 1) && yy < y)
                     then BOUNDARY_ID else 0
    {
      w[y, 0] := BOUNDARY_ID;
      w[y, WORLD_SIZE - 1] := BOUNDARY_ID;
    }
    g.world := w;
  }

  // ---------------------------------------------------------------------------
  // Exit blocks
  // ---------------------------------------------------------------------------

  predicate InGrid(w: array2<int>, y: int, x: int)
  {
    0 <= y < w.Length0 && 0 <= x < w.Length1
  }

  /** The cells createExitBlocks places beyond the door on `side` of a tile at
      `o`, two cells out from the edge, across the door's width, up to (not
      including) offset `n` from the door's centre line. */
  predicate InStripBelow(side: Dir, o: Origin, n: int, y: int, x: int)
  {
    var cx := o.ox + HALF_TILE;
    var cy := o.oy + HALF_TILE;
    if side == 0 then y == o.oy - BLOCK_OFFSET && cx - DOOR_HALF <= x < cx + n && x <= cx + DOOR_HALF
    else if side == 2 then y == o.oy + TILE - 1 + BLOCK_OFFSET && cx - DOOR_HALF <= x < cx + n && x <= cx + DOOR_HALF
    else if side == 1 then x == o.ox + TILE - 1 + BLOCK_OFFSET && cy - DOOR_HALF <= y < cy + n && y <= cy + DOOR_HALF
    else x == o.ox - BLOCK_OFFSET && cy - DOOR_HALF <= y < cy + n && y <= cy + DOOR_HALF
  }

  /** The whole five-cell strip beyond the door on `side`. */
  predicate InStrip(side: Dir, o: Origin, y: int, x: int)
  {
    InStripBelow(side, o, DOOR_HALF + 1, y, x)
  }

  /** A grid cell createExitBlocks seals for a room at `o` with doors `sides`. */
  predicate ExitCell(w: array2<int>, sides: set<Dir>, o: Origin, y: int, x: int)
  {
    InGrid(w, y, x) &&
    ((0 in sides && InStrip(0, o, y, x)) || (1 in sides && InStrip(1, o, y, x)) ||
     (2 in sides && InStrip(2, o, y, x)) || (3 in sides && InStrip(3, o, y, x)))
  }

  /** A block createExitBlocks records: in the grid, beyond one of the doors, and
      tagged with that door's side. */
  predicate IsExitBlock(w: array2<int>, sides: set<Dir>, o: Origin, b: Block)
  {
    InGrid(w, b.y, b.x) && b.side in sides && InStrip(b.side, o, b.y, b.x)
  }

  /** A recorded block lies on cell (y, x). */
  predicate Covers(blocks: set<Block>, y: int, x: int)
  {
    Block(x, y, 0) in blocks || Block(x, y, 1) in blocks ||
    Block(x, y, 2) in blocks || Block(x, y, 3) in blocks
  }

  /** The block at offset i from the centre line of the strip beyond `side`. */
  function BlockAt(side: Dir, o: Origin, i: int): (b: Block)
    ensures b.side == side
    ensures -DOOR_HALF <= i <= DOOR_HALF ==> InStrip(side, o, b.y, b.x)
  {
    var cx := o.ox + HALF_TILE;
    var cy := o.oy + HALF_TILE;
    if side == 0 then Block(cx + i, o.oy - BLOCK_OFFSET, side)
    else if side == 2 then Block(cx + i, o.oy + TILE - 1 + BLOCK_OFFSET, side)
    else if side == 1 then Block(o.ox + TILE - 1 + BLOCK_OFFSET, cy + i, side)
    else Block(o.ox - BLOCK_OFFSET, cy + i, side)
  }

  /** The cells removeExitBlocks clears are exactly the cells createExitBlocks
      sealed: a set of blocks recorded for a room covers a grid cell just when
      that cell is one of the room's exit cells. */
  lemma RecordedBlocksAreExitCells(w: array2<int>, sides: set<Dir>, o: Origin, blocks: set<Block>, y: int, x: int)
    requires forall b :: b in blocks <==> IsExitBlock(w, sides, o, b)
    requires InGrid(w, y, x)
    ensures Covers(blocks, y, x) <==> ExitCell(w, sides, o, y, x)
  {
    if ExitCell(w, sides, o, y, x) {
      var s: Dir :| s in sides && InStrip(s, o, y, x);
      assert IsExitBlock(w, sides, o, Block(x, y, s));
    }
  }

  /** One side's pass of createExitBlocks: the in-grid cells of the strip
      beyond the door on `side`, written with BLOCK_COLOR_ID and returned as
      blocks tagged with that side. */
  method SealStrip(w: array2<int>, side: Dir, o: Origin) returns (blocks: set<Block>)
    modifies w
    ensures forall b :: b in blocks <==> InGrid(w, b.y, b.x) && b.side == side && InStrip(side, o, b.y, b.x)
    ensures forall y, x :: InGrid(w, y, x) ==>
      w[y, x] == if InStrip(side, o, y, x) then BLOCK_COLOR_ID else old(w[y, x])
  {
    blocks := {};
    var i := -DOOR_HALF;
    while i <= DOOR_HALF
      invariant -DOOR_HALF <= i <= DOOR_HALF + 1
      invariant forall b :: b in blocks <==>
        InGrid(w, b.y, b.x) && b.side == side && InStripBelow(side, o, i, b.y, b.x)
      invariant forall y, x :: InGrid(w, y, x) ==>
        w[y, x] == if InStripBelow(side, o, i, y, x) then BLOCK_COLOR_ID else old(w[y, x])
    {
      var b := BlockAt(side, o, i);
      if 0 <= b.x < w.Length1 && 0 <= b.y < w.Length0 {
        blocks := blocks + {b};
        w[b.y, b.x] := BLOCK_COLOR_ID;
      }
      i := i + 1;
    }
  }

  /** Sealing one more side adds exactly that side's strip. */
  lemma ExitCellAddSide(w: array2<int>, done: set<Dir>, side: Dir, o: Origin, y: int, x: int)
    ensures ExitCell(w, done + {side}, o, y, x) <==>
      ExitCell(w, done, o, y, x) || (InGrid(w, y, x) && InStrip(side, o, y, x))
  {
  }

  /** createExitBlocks: for a positioned room, record the in-grid cells two
      beyond each door, write BLOCK_COLOR_ID into them and mark every door as
      blocked; anything else is left alone. Each side's blocks are written as
      they are found (the source collects all of them first, then writes them:
      the grid ends the same). */
  method CreateExitBlocks(g: Game, id: TileId)
    requires id < |g.tiles|
    modifies g.world, g`blockingWalls, g`tiles
    ensures !IsRoom(old(g.tiles[id])) || id !in g.tilePositions ==>
      g.blockingWalls == old(g.blockingWalls) && g.tiles == old(g.tiles) &&
      forall y, x :: InGrid(g.world, y, x) ==> g.world[y, x] == old(g.world[y, x])
    ensures IsRoom(old(g.tiles[id])) && id in g.tilePositions ==>
      id in g.blockingWalls && g.blockingWalls == old(g.blockingWalls)[id := g.blockingWalls[id]] &&
      (forall b :: b in g.blockingWalls[id] <==>
        IsExitBlock(g.world, old(g.tiles[id]).openSides, g.tilePositions[id], b)) &&
      g.tiles == old(g.tiles)[id := old(g.tiles[id]).(exitBlocks := old(g.tiles[id]).exitBlocks + old(g.tiles[id]).openSides)] &&
      forall y, x :: InGrid(g.world, y, x) ==>
        g.world[y, x] == if ExitCell(g.world, old(g.tiles[id]).openSides, g.tilePositions[id], y, x)
                         then BLOCK_COLOR_ID else old(g.world[y, x])
  {
    var t := g.tiles[id];
    if !IsRoom(t) || id !in g.tilePositions {
      return;
    }
    var o := g.tilePositions[id];
    var w := g.world;
    var blocks: set<Block> := {};
    var todo := t.openSides;
    while todo != {}
      modifies w
      invariant todo <= t.openSides
      invariant forall b :: b in blocks <==> IsExitBlock(w, t.openSides - todo, o, b)
      invariant forall y, x :: InGrid(w, y, x) ==>
        w[y, x] == if ExitCell(w, t.openSides - todo, o, y, x) then BLOCK_COLOR_ID else old(w[y, x])
      decreases |todo|
    {
      var side :| side in todo;
      ghost var done := t.openSides - todo;
      var strip := SealStrip(w, side, o);
      blocks := blocks + strip;
      todo := todo - {side};
      assert t.openSides - todo == done + {side};
      forall y, x | InGrid(w, y, x)
        ensures w[y, x] == if ExitCell(w, t.openSides - todo, o, y, x) then BLOCK_COLOR_ID else old(w[y, x])
      {
        ExitCellAddSide(w, done, side, o, y, x);
      }
    }
    g.blockingWalls := g.blockingWalls[id := blocks];
    g.tiles := g.tiles[id := t.(exitBlocks := t.exitBlocks + t.openSides)];
  }

  /** removeExitBlocks: with no record for the tile nothing happens; otherwise
      every recorded block inside the grid is cleared to 0, the tile's blocked
      sides are forgotten and the record is deleted. */
  method RemoveExitBlocks(g: Game, id: TileId)
    requires id < |g.tiles|
    modifies g.world, g`blockingWalls, g`tiles
    ensures id !in old(g.blockingWalls) ==>
      g.blockingWalls == old(g.blockingWalls) && g.tiles == old(g.tiles) &&
      forall y, x :: InGrid(g.world, y, x) ==> g.world[y, x] == old(g.world[y, x])
    ensures id in old(g.blockingWalls) ==>
      g.blockingWalls == old(g.blockingWalls) - {id} &&
      g.tiles == old(g.tiles)[id := old(g.tiles[id]).(exitBlocks := {})] &&
      forall y, x :: InGrid(g.world, y, x) ==>
        g.world[y, x] == if Covers(old(g.blockingWalls[id]), y, x) then 0 else old(g.world[y, x])
  {
    if id !in g.blockingWalls {
      return;
    }
    var blocks := g.blockingWalls[id];
    var w := g.world;
    var todo := blocks;
    while todo != {}
      modifies w
      invariant todo <= blocks
      invariant forall y, x :: InGrid(w, y, x) ==>
        w[y, x] == if Covers(blocks - todo, y, x) then 0 else old(w[y, x])
      decreases |todo|
    {
      var b :| b in todo;
      if 0 <= b.x < w.Length1 && 0 <= b.y < w.Length0 {
        w[b.y, b.x] := 0;
      }
      todo := todo - {b};
    }
    g.tiles := g.tiles[id := g.tiles[id].(exitBlocks := {})];
    g.blockingWalls := g.blockingWalls - {id};
  }

  // ---------------------------------------------------------------------------
  // Re-centring the 3x3 layout
  // ---------------------------------------------------------------------------

  /** The centre's neighbours on sides below `n`, in compass order, each at its slot. */
  function NeighbourPlacements(nbrs: map<Dir, TileId>, n: nat): seq<(TileId, Origin)>
    requires n <= 4
  {
    if n == 0 then []
    else
      var d: Dir := n - 1;
      NeighbourPlacements(nbrs, n - 1) + (if d in nbrs then [(nbrs[d], SlotOrigin(d))] else [])
  }

  /** The first placements of rebuild_world (centre and previous tile), then the neighbours'. */
  function HeadPlacements(center: TileId, prev: Option<TileId>, back: Option<Dir>): seq<(TileId, Origin)>
  {
    [(center, GridOrigin(1, 1))] + (if prev.Some? && back.Some? then [(prev.value, SlotOrigin(back.value))] else [])
  }

  /** The order rebuild_world draws in: the centre at slot (1, 1), the previous
      tile in the slot behind the centre, then the centre's neighbours at their
      compass slots. */
  function Placements(center: TileId, centerTile: Tile, prev: Option<TileId>, back: Option<Dir>): seq<(TileId, Origin)>
  {
    HeadPlacements(center, prev, back) + NeighbourPlacements(centerTile.neighbors, 4)
  }

  predicate PlacedIn(tiles: seq<Tile>, ps: seq<(TileId, Origin)>)
  {
    forall k :: 0 <= k < |ps| ==> ps[k].0 < |tiles|
  }

  /** Cell (y, x) after empty_world and a build_tile_at for each placement in turn. */
  function Painted(tiles: seq<Tile>, ps: seq<(TileId, Origin)>, y: int, x: int): int
    requires PlacedIn(tiles, ps)
  {
    if ps == [] then (if OnRing(WORLD_SIZE, WORLD_SIZE, y, x) then BOUNDARY_ID else 0)
    else
      var p := ps[|ps| - 1];
      TileCell(tiles[p.0], p.1.ox, p.1.oy, Painted(tiles, ps[..|ps| - 1], y, x), y, x)
  }

  /** tile_positions after the placements: each tile at the slot it was last drawn at. */
  function PositionsOf(ps: seq<(TileId, Origin)>): map<TileId, Origin>
  {
    if ps == [] then map[] else PositionsOf(ps[..|ps| - 1])[ps[|ps| - 1].0 := ps[|ps| - 1].1]
  }

  /** A slot of the 3x3 layout. */
  predicate IsSlot(o: Origin)
  {
    exists tx, ty :: 0 <= tx < GRID_SIDE && 0 <= ty < GRID_SIDE && o == GridOrigin(tx, ty)
  }

  /** The grid and tile_positions after empty_world and the placements `ps`. */
  ghost predicate Drawn(g: Game, ps: seq<(TileId, Origin)>)
    reads g`world, g`tiles, g`tilePositions, g.world
  {
    g.world.Length0 == WORLD_SIZE && g.world.Length1 == WORLD_SIZE &&
    PlacedIn(g.tiles, ps) &&
    (forall y, x :: InGrid(g.world, y, x) ==> g.world[y, x] == Painted(g.tiles, ps, y, x)) &&
    g.tilePositions == PositionsOf(ps)
  }

  /** One `build_tile_at(ox, oy, t); tile_positions.set(t, [ox, oy])` step of rebuild_world. */
  method PlaceTile(g: Game, id: TileId, o: Origin, ghost ps: seq<(TileId, Origin)>)
    requires id < |g.tiles| && Drawn(g, ps)
    requires 0 <= o.ox && o.ox + TILE <= WORLD_SIZE && 0 <= o.oy && o.oy + TILE <= WORLD_SIZE
    modifies g.world, g`tilePositions
    ensures Drawn(g, ps + [(id, o)])
  {
    BuildTileAt(g.world, o.ox, o.oy, g.tiles[id]);
    g.tilePositions := g.tilePositions[id := o];
    assert (ps + [(id, o)])[..|ps|] == ps;
  }

  /** The placements for sides below n + 1 extend those below n by side n's. */
  lemma NeighbourPlacementsStep(nbrs: map<Dir, TileId>, head: seq<(TileId, Origin)>, n: nat)
    requires n < 4
    ensures head + NeighbourPlacements(nbrs, n + 1) ==
      (head + NeighbourPlacements(nbrs, n)) + (if n in nbrs then [(nbrs[n], SlotOrigin(n))] else [])
  {
  }

  /** The `for (const [side, n] of center.neighbors)` loop of rebuild_world. */
  method PlaceNeighbours(g: Game, nbrs: map<Dir, TileId>, ghost head: seq<(TileId, Origin)>)
    returns (ghost ps: seq<(TileId, Origin)>)
    requires forall d :: d in nbrs ==> nbrs[d] < |g.tiles|
    requires Drawn(g, head)
    modifies g.world, g`tilePositions
    ensures ps == head + NeighbourPlacements(nbrs, 4)
    ensures Drawn(g, ps)
  {
    ps := head;
    for n := 0 to 4
      invariant ps == head + NeighbourPlacements(nbrs, n)
      invariant Drawn(g, ps)
    {
      NeighbourPlacementsStep(nbrs, head, n);
      var d: Dir := n;
      if d in nbrs {
        PlaceTile(g, nbrs[d], SlotOrigin(d), ps);
        ps := ps + [(nbrs[d], SlotOrigin(d))];
      }
    }
  }

  /** The drawing half of rebuild_world: a fresh empty world, the centre, the
      previous tile behind it, then every neighbour at its slot. The neighbours
      are visited in compass order; the source visits them in the order they
      were generated, and since the slots are disjoint the grid is the same. */
  method LayOutTiles(g: Game, center: TileId, prev: Option<TileId>, back: Option<Dir>)
    requires g.TileRefsOk() && center < |g.tiles| && (prev.Some? ==> prev.value < |g.tiles|)
    modifies g`world, g`tilePositions
    ensures fresh(g.world) && g.world.Length0 == WORLD_SIZE && g.world.Length1 == WORLD_SIZE
    ensures PlacedIn(g.tiles, Placements(center, g.tiles[center], prev, back))
    ensures g.tilePositions == PositionsOf(Placements(center, g.tiles[center], prev, back))
    ensures forall y, x :: InGrid(g.world, y, x) ==>
      g.world[y, x] == Painted(g.tiles, Placements(center, g.tiles[center], prev, back), y, x)
  {
    EmptyWorld(g);
    g.tilePositions := map[];
    var ps := PlaceHead(g, center, prev, back);
    ps := PlaceNeighbours(g, g.tiles[center].neighbors, ps);
  }

  /** The first draws of rebuild_world on an empty world: the centre at slot
      (1, 1), then the previous tile in the slot behind it. */
  method PlaceHead(g: Game, center: TileId, prev: Option<TileId>, back: Option<Dir>)
    returns (ghost ps: seq<(TileId, Origin)>)
    requires center < |g.tiles| && (prev.Some? ==> prev.value < |g.tiles|) && Drawn(g, [])
    modifies g.world, g`tilePositions
    ensures ps == HeadPlacements(center, prev, back) && Drawn(g, ps)
  {
    ps := [];
    PlaceTile(g, center, GridOrigin(1, 1), ps);
    ps := ps + [(center, GridOrigin(1, 1))];
    if prev.Some? && back.Some? {
      var tx, ty := 1 + DX(back.value), 1 + DY(back.value);
      if 0 <= tx < GRID_SIDE && 0 <= ty < GRID_SIDE {
        PlaceTile(g, prev.value, GridOrigin(tx, ty), ps);
        ps := ps + [(prev.value, SlotOrigin(back.value))];
      }
    }
  }

  /** A tile the exit-block recreation seals: a room with active enemies. */
  predicate Seals(ts: seq<Tile>, t: TileId)
  {
    t < |ts| && ts[t].hasActiveEnemies && IsRoom(ts[t])
  }

  /** A cell sealed by one of the tiles `ids` at their positions. */
  predicate SealedCell(w: array2<int>, ts: seq<Tile>, pos: map<TileId, Origin>, ids: set<TileId>, y: int, x: int)
  {
    exists t :: t in ids && t in pos && Seals(ts, t) && ExitCell(w, ts[t].openSides, pos[t], y, x)
  }

  lemma SealedCellAdd(w: array2<int>, ts: seq<Tile>, pos: map<TileId, Origin>, ids: set<TileId>, t: TileId, y: int, x: int)
    ensures SealedCell(w, ts, pos, ids + {t}, y, x) <==>
      SealedCell(w, ts, pos, ids, y, x) || (t in pos && Seals(ts, t) && ExitCell(w, ts[t].openSides, pos[t], y, x))
  {
    if SealedCell(w, ts, pos, ids + {t}, y, x) {
      var u :| u in ids + {t} && u in pos && Seals(ts, u) && ExitCell(w, ts[u].openSides, pos[u], y, x);
      if u != t {
        assert SealedCell(w, ts, pos, ids, y, x);
      }
    }
  }

  /** The sealed tile `t` after the recreation: its doors are marked blocked. */
  function Sealed(t: Tile): Tile
  {
    t.(exitBlocks := t.exitBlocks + t.openSides)
  }

  /** The last loop of rebuild_world: createExitBlocks for every positioned
      tile with active enemies. */
  method RecreateExitBlocks(g: Game)
    requires forall t :: t in g.tilePositions ==> t < |g.tiles|
    modifies g.world, g`blockingWalls, g`tiles
    ensures |g.tiles| == old(|g.tiles|)
    ensures forall t :: 0 <= t < |g.tiles| ==>
      g.tiles[t] == if t in g.tilePositions && Seals(old(g.tiles), t) then Sealed(old(g.tiles[t])) else old(g.tiles[t])
    ensures forall t :: t in g.blockingWalls <==>
      t in old(g.blockingWalls) || (t in g.tilePositions && Seals(old(g.tiles), t))
    ensures forall t :: t in g.tilePositions && Seals(old(g.tiles), t) ==>
      forall b :: b in g.blockingWalls[t] <==> IsExitBlock(g.world, old(g.tiles[t]).openSides, g.tilePositions[t], b)
    ensures forall t :: t in old(g.blockingWalls) && !(t in g.tilePositions && Seals(old(g.tiles), t)) ==>
      g.blockingWalls[t] == old(g.blockingWalls[t])
    ensures forall y, x :: InGrid(g.world, y, x) ==>
      g.world[y, x] == if SealedCell(g.world, old(g.tiles), g.tilePositions, g.tilePositions.Keys, y, x)
                       then BLOCK_COLOR_ID else old(g.world[y, x])
  {
    ghost var ts := g.tiles;
    ghost var bw := g.blockingWalls;
    var pos := g.tilePositions;
    var todo := pos.Keys;
    while todo != {}
      invariant todo <= pos.Keys
      invariant |g.tiles| == |ts|
      invariant forall t :: 0 <= t < |ts| ==>
        g.tiles[t] == if t in pos.Keys - todo && Seals(ts, t) then Sealed(ts[t]) else ts[t]
      invariant forall t :: t in g.blockingWalls <==> t in bw || (t in pos.Keys - todo && Seals(ts, t))
      invariant forall t :: t in pos.Keys - todo && Seals(ts, t) ==>
        forall b :: b in g.blockingWalls[t] <==> IsExitBlock(g.world, ts[t].openSides, pos[t], b)
      invariant forall t :: t in bw && !(t in pos.Keys - todo && Seals(ts, t)) ==> g.blockingWalls[t] == bw[t]
      invariant forall y, x :: InGrid(g.world, y, x) ==>
        g.world[y, x] == if SealedCell(g.world, ts, pos, pos.Keys - todo, y, x) then BLOCK_COLOR_ID else old(g.world[y, x])
      decreases |todo|
    {
      var t :| t in todo;
      ghost var done := pos.Keys - todo;
      SealAgain(g, ts, bw, done, t);
      todo := todo - {t};
      assert pos.Keys - todo == done + {t};
      forall y, x | InGrid(g.world, y, x)
        ensures g.world[y, x] == if SealedCell(g.world, ts, pos, pos.Keys - todo, y, x) then BLOCK_COLOR_ID else old(g.world[y, x])
      {
        SealedCellAdd(g.world, ts, pos, done, t, y, x);
      }
    }
  }

  /** One turn of rebuild_world's last loop: tile t, not yet visited, is
      sealed again when it has active enemies; the tiles `done` already were. */
  method SealAgain(g: Game, ghost ts: seq<Tile>, ghost bw: map<TileId, set<Block>>, ghost done: set<TileId>, t: TileId)
    requires t in g.tilePositions && t !in done && done <= g.tilePositions.Keys
    requires forall u :: u in g.tilePositions ==> u < |g.tiles|
    requires |g.tiles| == |ts|
    requires forall u :: 0 <= u < |ts| ==> g.tiles[u] == if u in done && Seals(ts, u) then Sealed(ts[u]) else ts[u]
    requires forall u :: u in g.blockingWalls <==> u in bw || (u in done && Seals(ts, u))
    requires forall u :: u in done && Seals(ts, u) ==>
      forall b :: b in g.blockingWalls[u] <==> IsExitBlock(g.world, ts[u].openSides, g.tilePositions[u], b)
    requires forall u :: u in bw && !(u in done && Seals(ts, u)) ==> g.blockingWalls[u] == bw[u]
    modifies g.world, g`blockingWalls, g`tiles
    ensures |g.tiles| == |ts|
    ensures forall u :: 0 <= u < |ts| ==> g.tiles[u] == if u in done + {t} && Seals(ts, u) then Sealed(ts[u]) else ts[u]
    ensures forall u :: u in g.blockingWalls <==> u in bw || (u in done + {t} && Seals(ts, u))
    ensures forall u :: u in done + {t} && Seals(ts, u) ==>
      forall b :: b in g.blockingWalls[u] <==> IsExitBlock(g.world, ts[u].openSides, g.tilePositions[u], b)
    ensures forall u :: u in bw && !(u in done + {t} && Seals(ts, u)) ==> g.blockingWalls[u] == bw[u]
    ensures forall y, x :: InGrid(g.world, y, x) ==>
      g.world[y, x] == if Seals(ts, t) && ExitCell(g.world, ts[t].openSides, g.tilePositions[t], y, x)
                       then BLOCK_COLOR_ID else old(g.world[y, x])
  {
    if g.tiles[t].hasActiveEnemies {
      CreateExitBlocks(g, t);
    }
  }

  /** rebuild_world: lay the tiles out around `center`, forget every tile
      position and exit block, then seal again every positioned room with
      active enemies. */
  method RebuildWorld(g: Game, center: TileId, prev: Option<TileId>, back: Option<Dir>)
    requires g.TileRefsOk() && center < |g.tiles| && (prev.Some? ==> prev.value < |g.tiles|)
    modifies g`world, g`tilePositions, g`blockingWalls, g`tiles
    ensures fresh(g.world) && g.world.Length0 == WORLD_SIZE && g.world.Length1 == WORLD_SIZE
    ensures g.tilePositions == PositionsOf(Placements(center, old(g.tiles[center]), prev, back))
    ensures PlacedIn(old(g.tiles), Placements(center, old(g.tiles[center]), prev, back))
    ensures |g.tiles| == old(|g.tiles|)
    ensures forall t :: 0 <= t < |g.tiles| ==>
      g.tiles[t] == if t in g.tilePositions && Seals(old(g.tiles), t) then Sealed(old(g.tiles[t])) else old(g.tiles[t])
    ensures forall t :: t in g.blockingWalls <==> t in g.tilePositions && Seals(old(g.tiles), t)
    ensures forall t :: t in g.tilePositions && Seals(old(g.tiles), t) ==>
      forall b :: b in g.blockingWalls[t] <==> IsExitBlock(g.world, old(g.tiles[t]).openSides, g.tilePositions[t], b)
    ensures forall y, x :: InGrid(g.world, y, x) ==>
      g.world[y, x] == if SealedCell(g.world, old(g.tiles), g.tilePositions, g.tilePositions.Keys, y, x)
                       then BLOCK_COLOR_ID
                       else Painted(old(g.tiles), Placements(center, old(g.tiles[center]), prev, back), y, x)
    ensures g.TileRefsOk()
  {
    LayOutTiles(g, center, prev, back);
    g.blockingWalls := map[];
    PlacedIdsInRange(g.tiles, Placements(center, g.tiles[center], prev, back));
    RecreateExitBlocks(g);
  }

  /** Every tile given a position by the placements exists. */
  lemma {:induction false} PlacedIdsInRange(tiles: seq<Tile>, ps: seq<(TileId, Origin)>)
    requires PlacedIn(tiles, ps)
    ensures forall t :: t in PositionsOf(ps) ==> t < |tiles|
  {
    if ps != [] {
      PlacedIdsInRange(tiles, ps[..|ps| - 1]);
    }
  }

  /** Drawing one more tile gives it the slot it was drawn at and leaves every
      other tile's position alone. */
  lemma PositionsOfSnoc(ps: seq<(TileId, Origin)>, p: (TileId, Origin))
    ensures PositionsOf(ps + [p]) == PositionsOf(ps)[p.0 := p.1]
  {
    assert (ps + [p])[..|ps|] == ps;
  }

  /** tile_positions after the centre, the previous tile and the neighbours
      on the sides below `n`: each of those neighbours sits at the slot of its
      side, and every other tile where the head placements left it. */
  lemma {:induction false} NeighbourPositions(head: seq<(TileId, Origin)>, nbrs: map<Dir, TileId>, n: nat)
    requires n <= 4
    requires forall d, e :: d in nbrs && e in nbrs && d != e ==> nbrs[d] != nbrs[e]
    ensures NeighboursPlaced(head, nbrs, n)
  {
    if n == 0 {
      assert head + NeighbourPlacements(nbrs, n) == head;
    } else {
      NeighbourPositions(head, nbrs, n - 1);
      var d: Dir := n - 1;
      if d in nbrs {
        NeighbourPlaced(head, nbrs, n);
      } else {
        NeighbourNotPlaced(head, nbrs, n);
      }
    }
  }

  /** The neighbours on the sides below `n` sit at the slots of their sides,
      and every other tile where the head placements left it. */
  ghost predicate NeighboursPlaced(head: seq<(TileId, Origin)>, nbrs: map<Dir, TileId>, n: nat)
    requires n <= 4
  {
    (forall d: Dir :: d < n && d in nbrs ==>
      nbrs[d] in PositionsOf(head + NeighbourPlacements(nbrs, n)) &&
      PositionsOf(head + NeighbourPlacements(nbrs, n))[nbrs[d]] == SlotOrigin(d)) &&
    (forall t :: (forall d: Dir :: d < n && d in nbrs ==> nbrs[d] != t) ==>
      (t in PositionsOf(head + NeighbourPlacements(nbrs, n)) <==> t in PositionsOf(head)) &&
      (t in PositionsOf(head) ==> PositionsOf(head + NeighbourPlacements(nbrs, n))[t] == PositionsOf(head)[t]))
  }

  /** The step of NeighbourPositions for a side with a neighbour. */
  lemma NeighbourPlaced(head: seq<(TileId, Origin)>, nbrs: map<Dir, TileId>, n: nat)
    requires 0 < n <= 4 && (n - 1) as Dir in nbrs && NeighboursPlaced(head, nbrs, n - 1)
    requires forall d, e :: d in nbrs && e in nbrs && d != e ==> nbrs[d] != nbrs[e]
    ensures NeighboursPlaced(head, nbrs, n)
  {
    var d: Dir := n - 1;
    var front := head + NeighbourPlacements(nbrs, n - 1);
    assert head + NeighbourPlacements(nbrs, n) == front + [(nbrs[d], SlotOrigin(d))];
    PositionsOfSnoc(front, (nbrs[d], SlotOrigin(d)));
    var before, after := PositionsOf(front), PositionsOf(head + NeighbourPlacements(nbrs, n));
    assert after == before[nbrs[d] := SlotOrigin(d)];
    forall e: Dir | e < n && e in nbrs
      ensures nbrs[e] in after && after[nbrs[e]] == SlotOrigin(e)
    {
      if e != d {
        assert nbrs[e] != nbrs[d];
      }
    }
    forall t | forall e: Dir :: e < n && e in nbrs ==> nbrs[e] != t
      ensures (t in after <==> t in PositionsOf(head)) &&
              (t in PositionsOf(head) ==> after[t] == PositionsOf(head)[t])
    {
      assert nbrs[d] != t;
    }
  }

  /** The step of NeighbourPositions for a side without a neighbour. */
  lemma NeighbourNotPlaced(head: seq<(TileId, Origin)>, nbrs: map<Dir, TileId>, n: nat)
    requires 0 < n <= 4 && (n - 1) as Dir !in nbrs && NeighboursPlaced(head, nbrs, n - 1)
    ensures NeighboursPlaced(head, nbrs, n)
  {
    var front := head + NeighbourPlacements(nbrs, n - 1);
    assert head + NeighbourPlacements(nbrs, n) == front;
    forall e: Dir | e < n && e in nbrs
      ensures nbrs[e] in PositionsOf(front) && PositionsOf(front)[nbrs[e]] == SlotOrigin(e)
    {
      assert e < n - 1;
    }
  }

  /** After rebuild_world the centre is at slot (1, 1), the previous tile at
      the slot behind it and every neighbour at the slot of its side, as long
      as these are different tiles; no other tile has a position. */
  lemma LayoutPositions(center: TileId, ct: Tile, prev: Option<TileId>, back: Option<Dir>)
    requires prev.Some? ==> prev.value != center
    requires forall d :: d in ct.neighbors ==> ct.neighbors[d] != center && prev != Some(ct.neighbors[d])
    requires forall d, e :: d in ct.neighbors && e in ct.neighbors && d != e ==> ct.neighbors[d] != ct.neighbors[e]
    ensures var pos := PositionsOf(Placements(center, ct, prev, back));
      center in pos && pos[center] == GridOrigin(1, 1) &&
      (prev.Some? && back.Some? ==> prev.value in pos && pos[prev.value] == SlotOrigin(back.value)) &&
      (forall d :: d in ct.neighbors ==> ct.neighbors[d] in pos && pos[ct.neighbors[d]] == SlotOrigin(d)) &&
      (forall t :: t in pos ==> t == center || (prev.Some? && back.Some? && t == prev.value) ||
                                exists d :: d in ct.neighbors && ct.neighbors[d] == t)
  {
    var head := HeadPlacements(center, prev, back);
    NeighbourPositions(head, ct.neighbors, 4);
    PositionsOfSnoc([], (center, GridOrigin(1, 1)));
    assert [] + [(center, GridOrigin(1, 1))] == [(center, GridOrigin(1, 1))];
    if prev.Some? && back.Some? {
      PositionsOfSnoc([(center, GridOrigin(1, 1))], (prev.value, SlotOrigin(back.value)));
      assert PositionsOf(head) == map[center := GridOrigin(1, 1), prev.value := SlotOrigin(back.value)];
    } else {
      assert PositionsOf(head) == map[center := GridOrigin(1, 1)];
    }
  }

  /** The empty world's value at (y, x). */
  function EmptyCell(y: int, x: int): int
  {
    if OnRing(WORLD_SIZE, WORLD_SIZE, y, x) then BOUNDARY_ID else 0
  }

  /** A cell outside every placement's square keeps its empty-world value. */
  lemma {:induction false} PaintedOutsideSquares(tiles: seq<Tile>, ps: seq<(TileId, Origin)>, y: int, x: int)
    requires PlacedIn(tiles, ps)
    requires forall j :: 0 <= j < |ps| ==> !InSquare(ps[j].1.ox, ps[j].1.oy, y, x)
    ensures Painted(tiles, ps, y, x) == EmptyCell(y, x)
  {
    if ps != [] {
      var p := ps[|ps| - 1];
      PaintedOutsideSquares(tiles, ps[..|ps| - 1], y, x);
      TileCellStaysInSquare(tiles[p.0], p.1.ox, p.1.oy, Painted(tiles, ps[..|ps| - 1], y, x), y, x);
    }
  }

  /** A cell inside the square of exactly one placement holds what that tile's
      builder draws over the empty world, whatever was drawn before or after. */
  lemma {:induction false} PaintedByOwnSquare(tiles: seq<Tile>, ps: seq<(TileId, Origin)>, k: nat, y: int, x: int)
    requires PlacedIn(tiles, ps) && k < |ps|
    requires InSquare(ps[k].1.ox, ps[k].1.oy, y, x)
    requires forall j :: 0 <= j < |ps| && j != k ==> !InSquare(ps[j].1.ox, ps[j].1.oy, y, x)
    ensures Painted(tiles, ps, y, x) == TileCell(tiles[ps[k].0], ps[k].1.ox, ps[k].1.oy, EmptyCell(y, x), y, x)
  {
    var p := ps[|ps| - 1];
    var front := ps[..|ps| - 1];
    if k == |ps| - 1 {
      PaintedOutsideSquares(tiles, front, y, x);
    } else {
      PaintedByOwnSquare(tiles, front, k, y, x);
      TileCellStaysInSquare(tiles[p.0], p.1.ox, p.1.oy, Painted(tiles, front, y, x), y, x);
    }
  }

  /** Two slots of the layout whose squares share a cell are the same slot. */
  lemma SlotSquaresDisjoint(tx: int, ty: int, ux: int, uy: int, y: int, x: int)
    requires InSquare(GridOrigin(tx, ty).ox, GridOrigin(tx, ty).oy, y, x)
    requires InSquare(GridOrigin(ux, uy).ox, GridOrigin(ux, uy).oy, y, x)
    ensures tx == ux && ty == uy
  {
    assert TILE * (tx - ux) < TILE && TILE * (ux - tx) < TILE;
    assert TILE * (ty - uy) < TILE && TILE * (uy - ty) < TILE;
  }

  /** `p` places the neighbour on some side below `n` at that side's slot. */
  predicate AtSideSlot(nbrs: map<Dir, TileId>, n: int, p: (TileId, Origin))
  {
    exists e: Dir :: e < n && e in nbrs && p == (nbrs[e], SlotOrigin(e))
  }

  /** The neighbour placements are at the slots of distinct sides of the centre. */
  lemma {:induction false} NeighbourPlacementsShape(nbrs: map<Dir, TileId>, n: nat)
    requires n <= 4
    ensures forall j :: 0 <= j < |NeighbourPlacements(nbrs, n)| ==> AtSideSlot(nbrs, n, NeighbourPlacements(nbrs, n)[j])
    ensures forall i, j :: 0 <= i < j < |NeighbourPlacements(nbrs, n)| ==>
      NeighbourPlacements(nbrs, n)[i].1 != NeighbourPlacements(nbrs, n)[j].1
  {
    if n > 0 {
      NeighbourPlacementsShape(nbrs, n - 1);
      var d: Dir := n - 1;
      var front := NeighbourPlacements(nbrs, n - 1);
      var all := NeighbourPlacements(nbrs, n);
      assert all[..|front|] == front;
      forall i, j | 0 <= i < j < |all|
        ensures all[i].1 != all[j].1
      {
        if j == |front| {
          assert AtSideSlot(nbrs, n - 1, front[i]);
          var e: Dir :| e < n - 1 && e in nbrs && front[i] == (nbrs[e], SlotOrigin(e));
          SlotsDistinct(d, e);
        } else {
          assert all[i] == front[i] && all[j] == front[j];
        }
      }
      forall j | 0 <= j < |all|
        ensures AtSideSlot(nbrs, n, all[j])
      {
        if j < |front| {
          assert all[j] == front[j];
          assert AtSideSlot(nbrs, n - 1, front[j]);
          var e: Dir :| e < n - 1 && e in nbrs && front[j] == (nbrs[e], SlotOrigin(e));
          assert e < n && e in nbrs && all[j] == (nbrs[e], SlotOrigin(e));
        } else {
          assert d < n && d in nbrs && all[j] == (nbrs[d], SlotOrigin(d));
        }
      }
    }
  }

  /** The j-th placement of rebuild_world is at one of the nine slots. */
  lemma PlacementOnGrid(center: TileId, ct: Tile, prev: Option<TileId>, back: Option<Dir>, j: nat)
    requires j < |Placements(center, ct, prev, back)|
    ensures IsSlot(Placements(center, ct, prev, back)[j].1)
  {
    var head := HeadPlacements(center, prev, back);
    var nb := NeighbourPlacements(ct.neighbors, 4);
    var ps := Placements(center, ct, prev, back);
    assert ps == head + nb;
    if j == 0 {
      assert ps[j].1 == GridOrigin(1, 1);
    } else if j < |head| {
      assert ps[j].1 == GridOrigin(1 + DX(back.value), 1 + DY(back.value));
    } else {
      NeighbourPlacementsShape(ct.neighbors, 4);
      assert ps[j] == nb[j - |head|];
      assert AtSideSlot(ct.neighbors, 4, nb[j - |head|]);
      var e: Dir :| e < 4 && e in ct.neighbors && nb[j - |head|] == (ct.neighbors[e], SlotOrigin(e));
      assert ps[j].1 == GridOrigin(1 + DX(e), 1 + DY(e));
    }
  }

  /** Two placements of rebuild_world at different positions in the order
      are at different slots, as long as the centre has no neighbour on the
      side the previous tile takes. */
  lemma PlacementsApart(center: TileId, ct: Tile, prev: Option<TileId>, back: Option<Dir>, i: nat, j: nat)
    requires prev.Some? && back.Some? ==> back.value !in ct.neighbors
    requires i < j < |Placements(center, ct, prev, back)|
    ensures Placements(center, ct, prev, back)[i].1 != Placements(center, ct, prev, back)[j].1
  {
    var head := HeadPlacements(center, prev, back);
    var nb := NeighbourPlacements(ct.neighbors, 4);
    var ps := Placements(center, ct, prev, back);
    assert ps == head + nb;
    if j >= |head| {
      NeighbourPlacementsShape(ct.neighbors, 4);
      assert ps[j] == nb[j - |head|];
      assert AtSideSlot(ct.neighbors, 4, nb[j - |head|]);
      var e: Dir :| e < 4 && e in ct.neighbors && nb[j - |head|] == (ct.neighbors[e], SlotOrigin(e));
      if i >= |head| {
        assert ps[i] == nb[i - |head|];
      } else if i == 1 {
        SlotsDistinct(back.value, e);
      } else {
        SlotsDistinct(e, e);
      }
    } else {
      SlotsDistinct(back.value, back.value);
    }
  }

  /** Every placement of rebuild_world is at a slot of its own, as long as the
      centre has no neighbour on the side the previous tile takes (which
      generate_neighbors_for_center guarantees by skipping that side). */
  lemma PlacementsAtDistinctSlots(center: TileId, ct: Tile, prev: Option<TileId>, back: Option<Dir>)
    requires prev.Some? && back.Some? ==> back.value !in ct.neighbors
    ensures forall j :: 0 <= j < |Placements(center, ct, prev, back)| ==>
      exists tx, ty :: 0 <= tx < GRID_SIDE && 0 <= ty < GRID_SIDE &&
        Placements(center, ct, prev, back)[j].1 == GridOrigin(tx, ty)
    ensures forall i, j :: 0 <= i < j < |Placements(center, ct, prev, back)| ==>
      Placements(center, ct, prev, back)[i].1 != Placements(center, ct, prev, back)[j].1
  {
    forall j | 0 <= j < |Placements(center, ct, prev, back)|
      ensures IsSlot(Placements(center, ct, prev, back)[j].1)
    {
      PlacementOnGrid(center, ct, prev, back, j);
    }
    forall i, j | 0 <= i < j < |Placements(center, ct, prev, back)|
      ensures Placements(center, ct, prev, back)[i].1 != Placements(center, ct, prev, back)[j].1
    {
      PlacementsApart(center, ct, prev, back, i, j);
    }
  }

  /** After rebuild_world's drawing, the square of each placed tile holds exactly
      what that tile's builder draws over the empty world. */
  lemma LayoutCellOfSlot(tiles: seq<Tile>, center: TileId, prev: Option<TileId>, back: Option<Dir>, k: nat, y: int, x: int)
    requires center < |tiles| && PlacedIn(tiles, Placements(center, tiles[center], prev, back))
    requires prev.Some? && back.Some? ==> back.value !in tiles[center].neighbors
    requires k < |Placements(center, tiles[center], prev, back)|
    requires InSquare(Placements(center, tiles[center], prev, back)[k].1.ox, Placements(center, tiles[center], prev, back)[k].1.oy, y, x)
    ensures var p := Placements(center, tiles[center], prev, back)[k];
      Painted(tiles, Placements(center, tiles[center], prev, back), y, x) == TileCell(tiles[p.0], p.1.ox, p.1.oy, EmptyCell(y, x), y, x)
  {
    var ps := Placements(center, tiles[center], prev, back);
    PlacementsAtDistinctSlots(center, tiles[center], prev, back);
    forall j | 0 <= j < |ps| && j != k
      ensures !InSquare(ps[j].1.ox, ps[j].1.oy, y, x)
    {
      var tx, ty :| 0 <= tx < GRID_SIDE && 0 <= ty < GRID_SIDE && ps[j].1 == GridOrigin(tx, ty);
      var ux, uy :| 0 <= ux < GRID_SIDE && 0 <= uy < GRID_SIDE && ps[k].1 == GridOrigin(ux, uy);
      if j < k {
        assert ps[j].1 != ps[k].1;
      } else {
        assert ps[k].1 != ps[j].1;
      }
      if InSquare(ps[j].1.ox, ps[j].1.oy, y, x) {
        SlotSquaresDisjoint(tx, ty, ux, uy, y, x);
        assert false;
      }
    }
    PaintedByOwnSquare(tiles, ps, k, y, x);
  }

  // ---------------------------------------------------------------------------
  // Neighbours, the side behind the centre and the tile around a point
  // ---------------------------------------------------------------------------

  /** The sides a tile's `open_sides` Set was filled with, in insertion order:
      generate_tile's list for each kind (the entry side first, then straight
      on, left and right) and start_new_run's `[1, 0, 2]`. */
  function KindSides(t: Tile): seq<Dir>
  {
    match t.kind
    case Room3 => [t.orient, Opposite(t.orient), LeftOf(t.orient), RightOf(t.orient)]
    case Dead => [t.orient]
    case Straight => [t.orient, Opposite(t.orient)]
    case LLeft => [t.orient, LeftOf(t.orient)]
    case LRight => [t.orient, RightOf(t.orient)]
    case StartRoom => [1, 0, 2]
  }

  /** The order in which `for (const side of t.open_sides)` meets the sides: a
      Set yields its elements in insertion order, so KindSides first; the
      compass order after it only reaches sides KindSides leaves out, and no
      tile the game makes has one (GeneratedSidesListed). */
  function SideOrder(t: Tile): seq<Dir>
  {
    KindSides(t) + [0, 1, 2, 3]
  }

  /** Every side is met somewhere in SideOrder. */
  lemma SideOrderComplete(t: Tile, d: Dir)
    ensures d in SideOrder(t)
  {
    assert SideOrder(t)[|KindSides(t)| + d] == d;
  }

  /** The position of the first `d` in `s`, or |s| when there is none. */
  function FirstIndex(s: seq<Dir>, d: Dir): (i: nat)
    ensures i <= |s| && (i < |s| ==> s[i] == d)
  {
    if s == [] then 0 else if s[0] == d then 0 else 1 + FirstIndex(s[1..], d)
  }

  /** No `d` comes before FirstIndex(s, d). */
  lemma {:induction false} FirstIndexFirst(s: seq<Dir>, d: Dir, j: nat)
    requires j < FirstIndex(s, d)
    ensures s[j] != d
  {
    if j > 0 {
      FirstIndexFirst(s[1..], d, j - 1);
    }
  }

  /** A `d` that occurs in `s` is found. */
  lemma {:induction false} FirstIndexFound(s: seq<Dir>, d: Dir) returns (i: nat)
    requires d in s
    ensures i == FirstIndex(s, d) && i < |s|
  {
    if s[0] == d {
      i := 0;
    } else {
      assert d in s[1..];
      var i' := FirstIndexFound(s[1..], d);
      i := i' + 1;
    }
  }

  /** A `d` at position k with none before it is the first one. */
  lemma {:induction false} FirstIndexAt(s: seq<Dir>, d: Dir, k: nat)
    requires k < |s| && s[k] == d && d !in s[..k]
    ensures FirstIndex(s, d) == k
  {
    if k > 0 {
      assert s[0] == s[..k][0];
      assert s[1..][..k - 1] == s[..k][1..];
      FirstIndexAt(s[1..], d, k - 1);
    }
  }

  /** A generated tile's open sides are exactly the sides its kind lists, so
      its sides are met in generate_tile's order. */
  lemma GeneratedSidesListed(orient: Dir, draw: TileDraw, wid: int, d: Dir)
    ensures d in NewTile(orient, draw, wid).openSides <==> d in KindSides(NewTile(orient, draw, wid))
    ensures d in KindSides(NewTile(orient, draw, wid)) ==>
      FirstIndex(SideOrder(NewTile(orient, draw, wid)), d) == FirstIndex(KindSides(NewTile(orient, draw, wid)), d)
  {
    var t := NewTile(orient, draw, wid);
    var ks := KindSides(t);
    if d in ks {
      var i := FirstIndexFound(ks, d);
      forall j | 0 <= j < i
        ensures SideOrder(t)[..i][j] != d
      {
        FirstIndexFirst(ks, d, j);
      }
      FirstIndexAt(SideOrder(t), d, i);
    }
  }

  /** What generate_neighbors_for_center starts from: the centre, its tile
      and the arena before the call, the side not to generate, the draws of
      each side's tile, and the wall-id counter and colours before the call. */
  datatype NeighbourRun = NeighbourRun(center: TileId, c0: Tile, old0: seq<Tile>, back: Option<Dir>,
                                       draws: seq<TileDraw>, w0: int, colours0: map<int, Rgb>)

  /** The tile-arena state of generate_neighbors_for_center after the first
      `k` sides of SideOrder: tiles before the call are as they were except the
      centre, whose neighbours are `nbrs`; `added` lists the sides given a
      neighbour, in the order the tiles were generated, the j-th of them being
      arena tile |old0| + j, facing back towards the centre, with the j-th wall
      id handed out. */
  predicate NeighboursIn(ts: seq<Tile>, r: NeighbourRun, nbrs: map<Dir, TileId>, added: seq<Dir>, k: nat)
  {
    |ts| == |r.old0| + |added| && OldTilesKept(ts, r, nbrs) && SidesMet(r, nbrs, k) &&
    AddedTiles(ts, r, nbrs, added) && AddedInOrder(r, added, k)
  }

  /** The arena before the call, with only the centre's neighbours replaced. */
  predicate OldTilesKept(ts: seq<Tile>, r: NeighbourRun, nbrs: map<Dir, TileId>)
  {
    r.center < |r.old0| <= |ts| && r.c0 == r.old0[r.center] && |r.draws| == 4 &&
    (forall i :: 0 <= i < |r.old0| && i != r.center ==> ts[i] == r.old0[i]) &&
    ts[r.center] == r.c0.(neighbors := nbrs)
  }

  /** The sides with a neighbour are the open sides other than the back side
      among the first k of SideOrder. */
  predicate SidesMet(r: NeighbourRun, nbrs: map<Dir, TileId>, k: nat)
  {
    k <= |SideOrder(r.c0)| &&
    forall d: Dir :: d in nbrs <==> d in SideOrder(r.c0)[..k] && d in r.c0.openSides && r.back != Some(d)
  }

  /** The j-th side added has the j-th new tile, generated for it, and the
      j-th new tile has the j-th wall id. */
  predicate AddedTiles(ts: seq<Tile>, r: NeighbourRun, nbrs: map<Dir, TileId>, added: seq<Dir>)
  {
    |r.old0| + |added| == |ts| && |r.draws| == 4 &&
    AddedSlots(r, nbrs, added) && AddedShapes(ts, r, nbrs) && AddedWallIds(ts, r)
  }

  /** The j-th side added has the j-th new tile, and only the sides added
      have one. */
  predicate AddedSlots(r: NeighbourRun, nbrs: map<Dir, TileId>, added: seq<Dir>)
  {
    (forall j :: 0 <= j < |added| ==> added[j] in nbrs && nbrs[added[j]] == |r.old0| + j) &&
    (forall d :: d in nbrs ==> d in added)
  }

  /** Each neighbour is a new tile generated for its side. */
  predicate AddedShapes(ts: seq<Tile>, r: NeighbourRun, nbrs: map<Dir, TileId>)
    requires |r.draws| == 4
  {
    forall d :: d in nbrs ==>
      |r.old0| <= nbrs[d] < |ts| && ts[nbrs[d]] == NewTile(Opposite(d), r.draws[d], ts[nbrs[d]].wallId)
  }

  /** The j-th new tile has the j-th wall id. */
  predicate AddedWallIds(ts: seq<Tile>, r: NeighbourRun)
  {
    forall i :: |r.old0| <= i < |ts| ==> ts[i].wallId == SkipReserved(WallIdAfter(r.w0, i - |r.old0|))
  }

  /** The sides were added in the order SideOrder meets them, all before k. */
  predicate AddedInOrder(r: NeighbourRun, added: seq<Dir>, k: nat)
  {
    (forall j, l :: 0 <= j < l < |added| ==>
      FirstIndex(SideOrder(r.c0), added[j]) < FirstIndex(SideOrder(r.c0), added[l])) &&
    (forall j :: 0 <= j < |added| ==> FirstIndex(SideOrder(r.c0), added[j]) < k)
  }

  /** NeighboursIn on the game, with the counter after |added| wall ids, the
      colours before the call kept, and each new tile's colour stored. */
  predicate NeighboursSoFar(g: Game, r: NeighbourRun, nbrs: map<Dir, TileId>, added: seq<Dir>, k: nat)
    reads g`currentTile, g`prevTile, g`tilePositions, g`tiles, g`enemies, g`wallColors, g`wallIdCounter
  {
    NeighboursIn(g.tiles, r, nbrs, added, k) && g.ColoursOk() && g.TileRefsOk() &&
    g.wallIdCounter == WallIdAfter(r.w0, |added|) && ColoursSoFar(g.tiles, g.wallColors, r)
  }

  /** The colours from before the call are kept and every new tile's colour
      is stored under its wall id. */
  predicate ColoursSoFar(ts: seq<Tile>, colours: map<int, Rgb>, r: NeighbourRun)
  {
    (forall c :: c in r.colours0 ==> c in colours && colours[c] == r.colours0[c]) &&
    (forall i :: |r.old0| <= i < |ts| ==> ts[i].wallId in colours && colours[ts[i].wallId] == ts[i].color)
  }

  /** Storing the next tile's colour under its fresh wall id keeps ColoursSoFar. */
  lemma ColourAdded(before: seq<Tile>, mid: seq<Tile>, ts: seq<Tile>, colours: map<int, Rgb>, r: NeighbourRun,
                    nbrs: map<Dir, TileId>)
    requires ColoursSoFar(before, colours, r) && r.center < |r.old0| <= |before|
    requires |mid| == |before| + 1 && mid[..|before|] == before && mid[|before|].wallId !in colours
    requires ts == mid[r.center := mid[r.center].(neighbors := nbrs)]
    ensures ColoursSoFar(ts, colours[mid[|before|].wallId := mid[|before|].color], r)
  {
    var colours' := colours[mid[|before|].wallId := mid[|before|].color];
    forall i | |r.old0| <= i < |ts|
      ensures ts[i].wallId in colours' && colours'[ts[i].wallId] == ts[i].color
    {
      if i < |before| {
        assert ts[i] == mid[i] == mid[..|before|][i];
      }
    }
  }

  /** Before the loop: the centre has no neighbours and nothing is generated. */
  lemma NeighboursStart(ts: seq<Tile>, r: NeighbourRun)
    requires r.center < |r.old0| && r.c0 == r.old0[r.center] && |r.draws| == 4
    requires ts == r.old0[r.center := r.c0.(neighbors := map[])]
    ensures NeighboursIn(ts, r, map[], [], 0)
  {
  }

  /** A side that is closed, is the back side or already has its neighbour is
      passed over. */
  lemma NeighbourSkipped(ts: seq<Tile>, r: NeighbourRun, nbrs: map<Dir, TileId>, added: seq<Dir>, k: nat)
    requires NeighboursIn(ts, r, nbrs, added, k) && k < |SideOrder(r.c0)|
    requires var s := SideOrder(r.c0)[k]; !(s in r.c0.openSides && r.back != Some(s) && s !in nbrs)
    ensures NeighboursIn(ts, r, nbrs, added, k + 1)
  {
    var order := SideOrder(r.c0);
    assert order[..k + 1] == order[..k] + [order[k]];
  }

  /** Appending the tile generated for the side at position k and recording
      it as the centre's neighbour there extends the state by that side. */
  lemma NeighbourAdded(before: seq<Tile>, mid: seq<Tile>, ts: seq<Tile>, r: NeighbourRun,
                       nbrs: map<Dir, TileId>, added: seq<Dir>, k: nat)
    requires NeighboursIn(before, r, nbrs, added, k) && k < |SideOrder(r.c0)|
    requires var s := SideOrder(r.c0)[k]; s in r.c0.openSides && r.back != Some(s) && s !in nbrs
    requires |mid| == |before| + 1 && mid[..|before|] == before
    requires var s := SideOrder(r.c0)[k];
      mid[|before|] == NewTile(Opposite(s), r.draws[s], mid[|before|].wallId)
    requires mid[|before|].wallId == SkipReserved(WallIdAfter(r.w0, |added|))
    requires var s := SideOrder(r.c0)[k];
      ts == mid[r.center := mid[r.center].(neighbors := nbrs[s := |before|])]
    ensures var s := SideOrder(r.c0)[k];
      NeighboursIn(ts, r, nbrs[s := |before|], added + [s], k + 1)
  {
    var s := SideOrder(r.c0)[k];
    forall i | 0 <= i < |before|
      ensures mid[i] == before[i]
    {
      assert mid[i] == mid[..|before|][i];
    }
    OldTilesStillKept(before, mid, ts, r, nbrs, nbrs[s := |before|]);
    SideMet(r, nbrs, k, |before|);
    FirstMeeting(r, nbrs, k);
    TileAdded(before, mid, ts, r, nbrs, added, s);
  }

  /** Adding a tile keeps the tiles from before the call. */
  lemma OldTilesStillKept(before: seq<Tile>, mid: seq<Tile>, ts: seq<Tile>, r: NeighbourRun,
                          nbrs: map<Dir, TileId>, nbrs': map<Dir, TileId>)
    requires OldTilesKept(before, r, nbrs)
    requires |mid| == |before| + 1 && forall i :: 0 <= i < |before| ==> mid[i] == before[i]
    requires ts == mid[r.center := mid[r.center].(neighbors := nbrs')]
    ensures OldTilesKept(ts, r, nbrs')
  {
    forall i | 0 <= i < |r.old0| && i != r.center
      ensures ts[i] == r.old0[i]
    {
      assert ts[i] == mid[i] == before[i];
    }
  }

  /** Meeting an open side other than the back side adds it to the sides met. */
  lemma SideMet(r: NeighbourRun, nbrs: map<Dir, TileId>, k: nat, id: TileId)
    requires SidesMet(r, nbrs, k) && k < |SideOrder(r.c0)|
    requires var s := SideOrder(r.c0)[k]; s in r.c0.openSides && r.back != Some(s)
    ensures SidesMet(r, nbrs[SideOrder(r.c0)[k] := id], k + 1)
  {
    var order := SideOrder(r.c0);
    assert order[..k + 1] == order[..k] + [order[k]];
  }

  /** The side met at position k, open, not the back side and still without a
      neighbour, is met there for the first time, after every side added. */
  lemma FirstMeeting(r: NeighbourRun, nbrs: map<Dir, TileId>, k: nat)
    requires SidesMet(r, nbrs, k) && k < |SideOrder(r.c0)|
    requires var s := SideOrder(r.c0)[k]; s in r.c0.openSides && r.back != Some(s) && s !in nbrs
    ensures forall added :: AddedInOrder(r, added, k) ==> AddedInOrder(r, added + [SideOrder(r.c0)[k]], k + 1)
  {
    var order := SideOrder(r.c0);
    var s := order[k];
    assert s !in order[..k];
    FirstIndexAt(order, s, k);
    forall added | AddedInOrder(r, added, k)
      ensures AddedInOrder(r, added + [s], k + 1)
    {
      var added' := added + [s];
      forall j | 0 <= j < |added|
        ensures added'[j] == added[j]
      {
      }
    }
  }

  /** The new tile is the next one added, under the next wall id. */
  lemma TileAdded(before: seq<Tile>, mid: seq<Tile>, ts: seq<Tile>, r: NeighbourRun,
                  nbrs: map<Dir, TileId>, added: seq<Dir>, s: Dir)
    requires AddedTiles(before, r, nbrs, added) && |before| == |r.old0| + |added| && s !in nbrs
    requires r.center < |r.old0|
    requires |mid| == |before| + 1 && forall i :: 0 <= i < |before| ==> mid[i] == before[i]
    requires mid[|before|] == NewTile(Opposite(s), r.draws[s], mid[|before|].wallId)
    requires mid[|before|].wallId == SkipReserved(WallIdAfter(r.w0, |added|))
    requires ts == mid[r.center := mid[r.center].(neighbors := nbrs[s := |before|])]
    ensures AddedTiles(ts, r, nbrs[s := |before|], added + [s])
  {
    SlotAdded(r, nbrs, added, s);
    ShapeAdded(before, mid, ts, r, nbrs, s);
    WallIdAdded(before, mid, ts, r, |added|);
  }

  lemma SlotAdded(r: NeighbourRun, nbrs: map<Dir, TileId>, added: seq<Dir>, s: Dir)
    requires AddedSlots(r, nbrs, added) && s !in nbrs
    ensures AddedSlots(r, nbrs[s := |r.old0| + |added|], added + [s])
  {
    var nbrs' := nbrs[s := |r.old0| + |added|];
    var added' := added + [s];
    forall j | 0 <= j < |added'|
      ensures added'[j] in nbrs' && nbrs'[added'[j]] == |r.old0| + j
    {
      if j < |added| {
        assert added'[j] == added[j] != s;
      }
    }
    forall d | d in nbrs'
      ensures d in added'
    {
      if d != s {
        assert d in added;
      }
    }
  }

  lemma ShapeAdded(before: seq<Tile>, mid: seq<Tile>, ts: seq<Tile>, r: NeighbourRun, nbrs: map<Dir, TileId>, s: Dir)
    requires |r.draws| == 4 && AddedShapes(before, r, nbrs) && r.center < |r.old0| <= |before|
    requires |mid| == |before| + 1 && forall i :: 0 <= i < |before| ==> mid[i] == before[i]
    requires mid[|before|] == NewTile(Opposite(s), r.draws[s], mid[|before|].wallId)
    requires ts == mid[r.center := mid[r.center].(neighbors := nbrs[s := |before|])]
    ensures AddedShapes(ts, r, nbrs[s := |before|])
  {
    var nbrs' := nbrs[s := |before|];
    forall d | d in nbrs'
      ensures |r.old0| <= nbrs'[d] < |ts| && ts[nbrs'[d]] == NewTile(Opposite(d), r.draws[d], ts[nbrs'[d]].wallId)
    {
      if d != s {
        assert ts[nbrs[d]] == mid[nbrs[d]] == before[nbrs[d]];
      }
    }
  }

  lemma WallIdAdded(before: seq<Tile>, mid: seq<Tile>, ts: seq<Tile>, r: NeighbourRun, n: nat)
    requires AddedWallIds(before, r) && |before| == |r.old0| + n && r.center < |r.old0|
    requires |mid| == |before| + 1 && forall i :: 0 <= i < |before| ==> mid[i] == before[i]
    requires mid[|before|].wallId == SkipReserved(WallIdAfter(r.w0, n))
    requires |ts| == |mid| && forall i :: r.center < i < |ts| ==> ts[i] == mid[i]
    ensures AddedWallIds(ts, r)
  {
    forall i | |r.old0| <= i < |ts|
      ensures ts[i].wallId == SkipReserved(WallIdAfter(r.w0, i - |r.old0|))
    {
      if i < |before| {
        assert ts[i] == before[i];
      }
    }
  }

  /** Once every side is met, the sides with a neighbour are all the open
      sides other than the back side. */
  lemma AllSidesMet(r: NeighbourRun, nbrs: map<Dir, TileId>)
    requires SidesMet(r, nbrs, |SideOrder(r.c0)|)
    ensures GeneratedSides(r.c0, r.back, nbrs)
  {
    var order := SideOrder(r.c0);
    assert order[..|order|] == order;
    forall d: Dir
      ensures d in nbrs <==> d in r.c0.openSides && r.back != Some(d)
    {
      SideOrderComplete(r.c0, d);
    }
  }

  /** The neighbours' arena indices follow the order their sides are met. */
  lemma AddedOrder(ts: seq<Tile>, r: NeighbourRun, nbrs: map<Dir, TileId>, added: seq<Dir>)
    requires AddedTiles(ts, r, nbrs, added) && AddedInOrder(r, added, |SideOrder(r.c0)|)
    ensures GeneratedOrder(r.c0, nbrs)
  {
    forall d, e | d in nbrs && e in nbrs
      ensures nbrs[d] < nbrs[e] <==> FirstIndex(SideOrder(r.c0), d) < FirstIndex(SideOrder(r.c0), e)
      ensures d != e ==> nbrs[d] != nbrs[e]
    {
      var j :| 0 <= j < |added| && added[j] == d;
      var l :| 0 <= l < |added| && added[l] == e;
    }
  }

  /** Every new tile is the neighbour of some side, fresh from generate_tile. */
  lemma AddedAreNeighbours(ts: seq<Tile>, r: NeighbourRun, nbrs: map<Dir, TileId>, added: seq<Dir>)
    requires AddedTiles(ts, r, nbrs, added)
    ensures GeneratedTiles(|r.old0|, r.draws, ts, nbrs)
  {
    forall i | |r.old0| <= i < |ts|
      ensures i in nbrs.Values && !ts[i].spawned && !ts[i].hasActiveEnemies
    {
      var d := added[i - |r.old0|];
      assert d in nbrs && nbrs[d] == i;
      assert ts[i] == NewTile(Opposite(d), r.draws[d], ts[i].wallId);
    }
  }

  /** One turn of the loop of generate_neighbors_for_center, at position k of
      SideOrder: on an open side other than the back side,
      `center.neighbors.set(side, generate_tile(opposite(side)))`. */
  method NeighbourStep(g: Game, r: NeighbourRun, nbrs: map<Dir, TileId>, ghost added: seq<Dir>,
                       order: seq<Dir>, k: nat)
    returns (nbrs': map<Dir, TileId>, ghost added': seq<Dir>)
    requires order == SideOrder(r.c0) && k < |order| && NeighboursSoFar(g, r, nbrs, added, k)
    modifies g`tiles, g`wallIdCounter, g`wallColors
    ensures NeighboursSoFar(g, r, nbrs', added', k + 1)
  {
    var s := order[k];
    if s in g.tiles[r.center].openSides && r.back != Some(s) && s !in nbrs {
      nbrs', added' := AddNeighbour(g, r, nbrs, added, order, k);
    } else {
      NeighbourSkipped(g.tiles, r, nbrs, added, k);
      nbrs', added' := nbrs, added;
    }
  }

  /** The turn of that loop that generates the neighbour for the side at
      position k. */
  method AddNeighbour(g: Game, r: NeighbourRun, nbrs: map<Dir, TileId>, ghost added: seq<Dir>,
                      order: seq<Dir>, k: nat)
    returns (nbrs': map<Dir, TileId>, ghost added': seq<Dir>)
    requires order == SideOrder(r.c0) && k < |order| && NeighboursSoFar(g, r, nbrs, added, k)
    requires order[k] in r.c0.openSides && r.back != Some(order[k]) && order[k] !in nbrs
    modifies g`tiles, g`wallIdCounter, g`wallColors
    ensures NeighboursSoFar(g, r, nbrs', added', k + 1)
  {
    var s := order[k];
    ghost var before := g.tiles;
    ghost var colours := g.wallColors;
    var id := GenerateTile(g, Opposite(s), r.draws[s]);
    ghost var mid := g.tiles;
    nbrs' := nbrs[s := id];
    added' := added + [s];
    SetNeighbours(g, r.center, nbrs');
    NeighbourAddedToGame(g, before, mid, colours, r, nbrs, added, k);
  }

  /** The state after one generated neighbour, in terms of the tiles and
      colours from before it. */
  lemma NeighbourAddedToGame(g: Game, before: seq<Tile>, mid: seq<Tile>, colours: map<int, Rgb>, r: NeighbourRun,
                             nbrs: map<Dir, TileId>, added: seq<Dir>, k: nat)
    requires NeighboursIn(before, r, nbrs, added, k) && ColoursSoFar(before, colours, r) && k < |SideOrder(r.c0)|
    requires var s := SideOrder(r.c0)[k]; s in r.c0.openSides && r.back != Some(s) && s !in nbrs
    requires |mid| == |before| + 1 && mid[..|before|] == before
    requires var s := SideOrder(r.c0)[k];
      mid[|before|] == NewTile(Opposite(s), r.draws[s], mid[|before|].wallId)
    requires mid[|before|].wallId == SkipReserved(WallIdAfter(r.w0, |added|)) && mid[|before|].wallId !in colours
    requires var s := SideOrder(r.c0)[k];
      g.tiles == mid[r.center := mid[r.center].(neighbors := nbrs[s := |before|])]
    requires g.wallIdCounter == mid[|before|].wallId + 1
    requires g.wallColors == colours[mid[|before|].wallId := mid[|before|].color]
    requires g.ColoursOk() && g.TileRefsOk()
    ensures var s := SideOrder(r.c0)[k];
      NeighboursSoFar(g, r, nbrs[s := |before|], added + [s], k + 1)
  {
    var s := SideOrder(r.c0)[k];
    NeighbourAdded(before, mid, g.tiles, r, nbrs, added, k);
    ColourAdded(before, mid, g.tiles, colours, r, nbrs[s := |before|]);
  }

  /** `center.neighbors` replaced by `nbrs`, every entry an existing tile. */
  method SetNeighbours(g: Game, center: TileId, nbrs: map<Dir, TileId>)
    requires center < |g.tiles| && g.ColoursOk() && g.TileRefsOk()
    requires forall d :: d in nbrs ==> nbrs[d] < |g.tiles|
    modifies g`tiles
    ensures g.tiles == old(g.tiles)[center := old(g.tiles[center]).(neighbors := nbrs)]
    ensures g.ColoursOk() && g.TileRefsOk()
  {
    g.tiles := g.tiles[center := g.tiles[center].(neighbors := nbrs)];
  }

  /** What generate_neighbors_for_center makes of the tiles `ts0`, the wall-id
      counter `w0` and the wall colours `colours0`, giving `ts`, `w` and
      `colours`. */
  ghost predicate NeighboursGenerated(ts0: seq<Tile>, w0: int, colours0: map<int, Rgb>, center: TileId,
                                      back: Option<Dir>, draws: seq<TileDraw>,
                                      ts: seq<Tile>, w: int, colours: map<int, Rgb>)
  {
    GeneratedKeeps(ts0, center, ts) &&
    GeneratedSides(ts0[center], back, ts[center].neighbors) &&
    GeneratedTiles(|ts0|, draws, ts, ts[center].neighbors) &&
    GeneratedOrder(ts0[center], ts[center].neighbors) &&
    GeneratedIds(|ts0|, w0, colours0, ts, w, colours)
  }

  /** Among the old tiles only the centre's neighbours change. */
  ghost predicate GeneratedKeeps(ts0: seq<Tile>, center: TileId, ts: seq<Tile>)
  {
    center < |ts0| <= |ts| &&
    (forall i :: 0 <= i < |ts0| && i != center ==> ts[i] == ts0[i]) &&
    ts[center] == ts0[center].(neighbors := ts[center].neighbors)
  }

  /** The sides with a neighbour are the open sides of the centre `c0` other
      than the back side. */
  ghost predicate GeneratedSides(c0: Tile, back: Option<Dir>, nbrs: map<Dir, TileId>)
  {
    forall d: Dir :: d in nbrs <==> d in c0.openSides && back != Some(d)
  }

  /** Each neighbour is a new tile generated for its side, facing back to the
      centre; every tile from index n0 on is one of them and none of them has
      been spawned. */
  ghost predicate GeneratedTiles(n0: nat, draws: seq<TileDraw>, ts: seq<Tile>, nbrs: map<Dir, TileId>)
  {
    |draws| == 4 &&
    (forall d :: d in nbrs ==>
      n0 <= nbrs[d] < |ts| && ts[nbrs[d]] == NewTile(Opposite(d), draws[d], ts[nbrs[d]].wallId)) &&
    (forall i :: n0 <= i < |ts| ==> i in nbrs.Values && !ts[i].spawned && !ts[i].hasActiveEnemies)
  }

  /** The neighbours are all different tiles, appended in the order their
      sides are met in SideOrder(c0). */
  ghost predicate GeneratedOrder(c0: Tile, nbrs: map<Dir, TileId>)
  {
    (forall d, e :: d in nbrs && e in nbrs ==>
      (nbrs[d] < nbrs[e] <==> FirstIndex(SideOrder(c0), d) < FirstIndex(SideOrder(c0), e))) &&
    (forall d, e :: d in nbrs && e in nbrs && d != e ==> nbrs[d] != nbrs[e])
  }

  /** The tiles from index n0 on take the wall ids after w0 in turn, the
      counter `w` moves past them, their colours are stored and the old
      colours are kept. */
  ghost predicate GeneratedIds(n0: nat, w0: int, colours0: map<int, Rgb>, ts: seq<Tile>, w: int, colours: map<int, Rgb>)
  {
    n0 <= |ts| &&
    (forall i :: n0 <= i < |ts| ==> ts[i].wallId == SkipReserved(WallIdAfter(w0, i - n0))) &&
    (forall i :: n0 <= i < |ts| ==> ts[i].wallId in colours && colours[ts[i].wallId] == ts[i].color) &&
    w == WallIdAfter(w0, |ts| - n0) &&
    (forall c :: c in colours0 ==> c in colours && colours[c] == colours0[c])
  }

  /** generate_neighbors_for_center: forget the centre's neighbours, then,
      meeting its open sides in the Set's insertion order, give every one but
      the back side a freshly generated neighbour facing back towards the
      centre. The neighbours are appended to the arena in that order, take the
      next wall ids in turn and store their colours. `draws[d]` is the
      randomness of the tile generated for side d. */
  method GenerateNeighborsForCenter(g: Game, center: TileId, back: Option<Dir>, draws: seq<TileDraw>)
    requires center < |g.tiles| && |draws| == 4
    requires g.ColoursOk() && g.TileRefsOk()
    modifies g`tiles, g`wallIdCounter, g`wallColors
    ensures NeighboursGenerated(old(g.tiles), old(g.wallIdCounter), old(g.wallColors), center, back, draws,
                                g.tiles, g.wallIdCounter, g.wallColors)
    ensures g.ColoursOk() && g.TileRefsOk()
  {
    var r := NeighbourRun(center, g.tiles[center], g.tiles, back, draws, g.wallIdCounter, g.wallColors);
    SetNeighbours(g, center, map[]);
    NeighboursStart(g.tiles, r);
    var nbrs, added := NeighboursInOrder(g, r);
    NeighboursResult(g.tiles, g.wallIdCounter, g.wallColors, r, nbrs, added);
  }

  /** The state after the loop is what generate_neighbors_for_center promises,
      `r` holding the state before the call. */
  lemma NeighboursResult(ts: seq<Tile>, w: int, colours: map<int, Rgb>, r: NeighbourRun,
                         nbrs: map<Dir, TileId>, added: seq<Dir>)
    requires NeighboursIn(ts, r, nbrs, added, |SideOrder(r.c0)|)
    requires ColoursSoFar(ts, colours, r) && w == WallIdAfter(r.w0, |added|)
    ensures NeighboursGenerated(r.old0, r.w0, r.colours0, r.center, r.back, r.draws, ts, w, colours)
  {
    assert ts[r.center].neighbors == nbrs;
    KeptGenerated(ts, r, nbrs);
    AllSidesMet(r, nbrs);
    AddedOrder(ts, r, nbrs, added);
    AddedAreNeighbours(ts, r, nbrs, added);
    IdsGenerated(ts, w, colours, r, |added|);
  }

  lemma KeptGenerated(ts: seq<Tile>, r: NeighbourRun, nbrs: map<Dir, TileId>)
    requires OldTilesKept(ts, r, nbrs)
    ensures GeneratedKeeps(r.old0, r.center, ts)
  {
  }

  lemma IdsGenerated(ts: seq<Tile>, w: int, colours: map<int, Rgb>, r: NeighbourRun, n: nat)
    requires AddedWallIds(ts, r) && ColoursSoFar(ts, colours, r)
    requires |ts| == |r.old0| + n && w == WallIdAfter(r.w0, n)
    ensures GeneratedIds(|r.old0|, r.w0, r.colours0, ts, w, colours)
  {
  }

  /** The loop of generate_neighbors_for_center over the sides in SideOrder. */
  method NeighboursInOrder(g: Game, r: NeighbourRun) returns (nbrs: map<Dir, TileId>, ghost added: seq<Dir>)
    requires NeighboursSoFar(g, r, map[], [], 0)
    modifies g`tiles, g`wallIdCounter, g`wallColors
    ensures NeighboursSoFar(g, r, nbrs, added, |SideOrder(r.c0)|)
  {
    var order := SideOrder(r.c0);
    nbrs, added := map[], [];
    for k := 0 to |order|
      invariant NeighboursSoFar(g, r, nbrs, added, k)
    {
      nbrs, added := NeighbourStep(g, r, nbrs, added, order, k);
    }
  }

  /** The compass side of a slot offset (dx, dy), if it is one of the four. */
  function DirOfOffset(dx: int, dy: int): (r: Option<Dir>)
    ensures forall d: Dir :: r == Some(d) <==> dx == DX(d) && dy == DY(d)
  {
    if dx == 0 && dy == -1 then Some(0)
    else if dx == 1 && dy == 0 then Some(1)
    else if dx == 0 && dy == 1 then Some(2)
    else if dx == -1 && dy == 0 then Some(3)
    else None
  }

  /** `((to - from) / TILE) | 0` on both axes: the slot offset between two origins. */
  function SlotStep(from: Origin, to: Origin): (int, int)
  {
    (ToInt32((to.ox - from.ox) as real / TILE as real), ToInt32((to.oy - from.oy) as real / TILE as real))
  }

  /** The offset from the centre slot to the slot on side d is (DX(d), DY(d)). */
  lemma SlotStepToSide(d: Dir)
    ensures SlotStep(GridOrigin(1, 1), SlotOrigin(d)) == (DX(d), DY(d))
  {
    var o := SlotOrigin(d);
    assert (o.ox - GridOrigin(1, 1).ox) as real / TILE as real == DX(d) as real;
    assert (o.oy - GridOrigin(1, 1).oy) as real / TILE as real == DY(d) as real;
    assert Trunc(DX(d) as real) == DX(d) && Trunc(DY(d) as real) == DY(d);
  }

  /** back_side_of_current on explicit state: the side of the current tile on
      which the previous tile sits, when both are positioned next to each other. */
  function BackSide(cur: Option<TileId>, prev: Option<TileId>, pos: map<TileId, Origin>): Option<Dir>
  {
    if prev.None? || cur.None? || cur.value !in pos || prev.value !in pos then None
    else
      var step := SlotStep(pos[cur.value], pos[prev.value]);
      DirOfOffset(step.0, step.1)
  }

  function BackSideOfCurrent(g: Game): Option<Dir>
    reads g`currentTile, g`prevTile, g`tilePositions
  {
    BackSide(g.currentTile, g.prevTile, g.tilePositions)
  }

  /** After a rebuild that put the centre in slot (1, 1) and the previous tile
      behind it on side d, back_side_of_current finds d again; without a
      previous tile it finds nothing. */
  lemma BackSideFindsPrevSlot(cur: TileId, prev: Option<TileId>, pos: map<TileId, Origin>, d: Dir)
    requires cur in pos && pos[cur] == GridOrigin(1, 1)
    requires prev.Some? ==> prev.value in pos && pos[prev.value] == SlotOrigin(d)
    ensures BackSide(Some(cur), prev, pos) == if prev.Some? then Some(d) else None
  {
    SlotStepToSide(d);
  }

  /** which_tile_contains' test: (x, y) strictly inside the square at `o`, short
      of its last row and column. */
  predicate InsideTile(o: Origin, x: real, y: real)
  {
    o.ox as real < x < (o.ox + TILE - 1) as real && o.oy as real < y < (o.oy + TILE - 1) as real
  }

  /** What which_tile_contains reports once it has found tile `t` around the
      point: the tile and the side it lies on from the current tile, or nothing
      when that side's exit is blocked. */
  function Answer(cur: TileId, curTile: Tile, pos: map<TileId, Origin>, t: TileId): (Option<TileId>, Option<Dir>)
    requires cur in pos && t in pos
  {
    if t == cur then (Some(t), None)
    else
      var step := SlotStep(pos[cur], pos[t]);
      var d := DirOfOffset(step.0, step.1);
      if d.Some? && d.value in curTile.exitBlocks then (None, None) else (Some(t), d)
  }

  /** `r` is what which_tile_contains reports for some positioned tile whose
      square holds (x, y), `cur` being the current tile and `curTile` its record. */
  predicate ReportsTileAround(pos: map<TileId, Origin>, cur: TileId, curTile: Tile, x: real, y: real,
                              r: (Option<TileId>, Option<Dir>))
    requires cur in pos
  {
    exists t :: t in pos && InsideTile(pos[t], x, y) && r == Answer(cur, curTile, pos, t)
  }

  /** A side which_tile_contains reports is never one whose exit is blocked. */
  lemma ReportedSideOpen(pos: map<TileId, Origin>, cur: TileId, curTile: Tile, x: real, y: real,
                         r: (Option<TileId>, Option<Dir>))
    requires cur in pos && ReportsTileAround(pos, cur, curTile, x, y, r) && r.1.Some?
    ensures r.0.Some? && r.0.value != cur
    ensures r.1.value !in curTile.exitBlocks
  {
    var t :| t in pos && InsideTile(pos[t], x, y) && r == Answer(cur, curTile, pos, t);
  }

  /** which_tile_contains over tile_positions, with `cur` the current tile and
      `curTile` its record: the first positioned tile whose square holds
      (x, y), as Answer reports it, or nothing when no square holds it. */
  method WhichTileContains(pos: map<TileId, Origin>, cur: TileId, curTile: Tile, x: real, y: real)
    returns (r: (Option<TileId>, Option<Dir>))
    requires cur in pos
    ensures (forall t :: t in pos ==> !InsideTile(pos[t], x, y)) ==> r == (None, None)
    ensures r != (None, None) ==> ReportsTileAround(pos, cur, curTile, x, y, r)
    ensures (exists t :: t in pos && InsideTile(pos[t], x, y)) ==> ReportsTileAround(pos, cur, curTile, x, y, r)
  {
    var todo := pos.Keys;
    while todo != {}
      invariant todo <= pos.Keys
      invariant forall t :: t in pos.Keys - todo ==> !InsideTile(pos[t], x, y)
      decreases |todo|
    {
      var t :| t in todo;
      var o := pos[t];
      if o.ox as real < x < (o.ox + TILE - 1) as real && o.oy as real < y < (o.oy + TILE - 1) as real {
        if t == cur {
          return (Some(t), None);
        }
        var c := pos[cur];
        var dx := ToInt32((o.ox - c.ox) as real / TILE as real);
        var dy := ToInt32((o.oy - c.oy) as real / TILE as real);
        var d := DirOfOffset(dx, dy);
        if d.Some? && d.value in curTile.exitBlocks {
          return (None, None);
        }
        return (Some(t), d);
      }
      todo := todo - {t};
    }
    return (None, None);
  }

  /** The squares which_tile_contains tests at two different slots never
      overlap, so the tile it finds is the only candidate. */
  lemma InsideOneSlotOnly(tx: int, ty: int, ux: int, uy: int, x: real, y: real)
    requires InsideTile(GridOrigin(tx, ty), x, y) && InsideTile(GridOrigin(ux, uy), x, y)
    ensures tx == ux && ty == uy
  {
    assert (TILE * (tx - ux)) as real < (TILE - 1) as real;
    assert (TILE * (ux - tx)) as real < (TILE - 1) as real;
    assert (TILE * (ty - uy)) as real < (TILE - 1) as real;
    assert (TILE * (uy - ty)) as real < (TILE - 1) as real;
  }

  /** Moving into a neighbour across a side whose exit is blocked is refused. */
  lemma BlockedExitRefused(cur: TileId, curTile: Tile, pos: map<TileId, Origin>, t: TileId, d: Dir)
    requires cur in pos && t in pos && t != cur
    requires pos[cur] == GridOrigin(1, 1) && pos[t] == SlotOrigin(d)
    ensures Answer(cur, curTile, pos, t) == if d in curTile.exitBlocks then (None, None) else (Some(t), Some(d))
  {
    SlotStepToSide(d);
  }
}
