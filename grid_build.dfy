/** The drawing half of world-generation.js: the procedures that write one tile's
    walls, pillars, corridors and doors into the world grid `WORLD[y][x]`
    (an `array2` whose first index is the row). Each procedure is specified
    cell by cell: a cell takes the new value exactly when it lies in the region
    the procedure paints, and keeps its old value otherwise. */
module GridBuild {
  import opened Common
  import opened Tiles

  // ---------------------------------------------------------------------------
  // Regions of a tile whose top-left cell is (ox, oy)
  // ---------------------------------------------------------------------------

  predicate InSquare(ox: int, oy: int, y: int, x: int)
  {
    ox <= x < ox + TILE && oy <= y < oy + TILE
  }

  /** The one-cell frame draw_border_box paints. */
  predicate OnBorder(ox: int, oy: int, y: int, x: int)
  {
    InSquare(ox, oy, y, x) &&
    (x == ox || x == ox + TILE - 1 || y == oy || y == oy + TILE - 1)
  }

  /** The 16x16 block fill_interior paints. */
  predicate InInterior(ox: int, oy: int, y: int, x: int)
  {
    ox < x < ox + TILE - 1 && oy < y < oy + TILE - 1
  }

  /** The five border cells carve_door opens on `edge`, centred on the edge. */
  predicate InDoor(edge: Dir, ox: int, oy: int, y: int, x: int)
  {
    var cx := ox + HALF_TILE;
    var cy := oy + HALF_TILE;
    if edge == 0 then y == oy && cx - DOOR_HALF <= x <= cx + DOOR_HALF
    else if edge == 2 then y == oy + TILE - 1 && cx - DOOR_HALF <= x <= cx + DOOR_HALF
    else if edge == 1 then x == ox + TILE - 1 && cy - DOOR_HALF <= y <= cy + DOOR_HALF
    else x == ox && cy - DOOR_HALF <= y <= cy + DOOR_HALF
  }

  /** The doors of every side in `sides`. */
  predicate InDoors(sides: set<Dir>, ox: int, oy: int, y: int, x: int)
  {
    (0 in sides && InDoor(0, ox, oy, y, x)) || (1 in sides && InDoor(1, ox, oy, y, x)) ||
    (2 in sides && InDoor(2, ox, oy, y, x)) || (3 in sides && InDoor(3, ox, oy, y, x))
  }

  /** The rectangle carve_rect opens: corners put in order, then clamped to the
      cells inside the outer ring of the grid. */
  predicate InRect(wd: int, ht: int, x0: int, y0: int, x1: int, y1: int, y: int, x: int)
  {
    MaxInt(1, MinInt(x0, x1)) <= x <= MinInt(wd - 2, MaxInt(x0, x1)) &&
    MaxInt(1, MinInt(y0, y1)) <= y <= MinInt(ht - 2, MaxInt(y0, y1))
  }

  /** An n x n block whose top-left cell is (px, py). */
  predicate InBlock(px: int, py: int, n: int, y: int, x: int)
  {
    px <= x < px + n && py <= y < py + n
  }

  /** Offsets of the four 2x2 pillars of a corners room. */
  const CORNER_OFFSETS: seq<(int, int)> := [(4, 4), (TILE - 6, 4), (4, TILE - 6), (TILE - 6, TILE - 6)]

  /** The first `k` corner pillars. */
  predicate InCornersBelow(k: nat, ox: int, oy: int, y: int, x: int)
    requires k <= |CORNER_OFFSETS|
  {
    k > 0 &&
    (InCornersBelow(k - 1, ox, oy, y, x) ||
     InBlock(ox + CORNER_OFFSETS[k - 1].0, oy + CORNER_OFFSETS[k - 1].1, 2, y, x))
  }

  /** The pillars of a room: a 5x5 block around the centre, four 2x2 blocks, or none. */
  predicate InPillars(v: Option<Variety>, ox: int, oy: int, y: int, x: int)
  {
    match v
    case None => false
    case Some(CenterPillar) => InBlock(ox + HALF_TILE - 2, oy + HALF_TILE - 2, 5, y, x)
    case Some(CornerPillars) => InCornersBelow(4, ox, oy, y, x)
  }

  /** The three-wide corridor from the edge on side `d` to the centre line. */
  predicate InLeg(d: Dir, ox: int, oy: int, y: int, x: int)
  {
    var cx := ox + HALF_TILE;
    var cy := oy + HALF_TILE;
    if d == 0 then cx - PATH_HALF <= x <= cx + PATH_HALF && oy + 1 <= y <= cy
    else if d == 2 then cx - PATH_HALF <= x <= cx + PATH_HALF && cy <= y <= oy + TILE - 2
    else if d == 1 then cx <= x <= ox + TILE - 2 && cy - PATH_HALF <= y <= cy + PATH_HALF
    else ox + 1 <= x <= cx && cy - PATH_HALF <= y <= cy + PATH_HALF
  }

  /** The corridor of a straight hall: a three-wide band through the centre, from
      the first interior row (column) to the last. */
  predicate InStraightPath(orient: Dir, ox: int, oy: int, y: int, x: int)
  {
    var cx := ox + HALF_TILE;
    var cy := oy + HALF_TILE;
    if orient == 0 || orient == 2 then
      cx - PATH_HALF <= x <= cx + PATH_HALF && oy + 1 <= y <= oy + TILE - 2
    else
      ox + 1 <= x <= ox + TILE - 2 && cy - PATH_HALF <= y <= cy + PATH_HALF
  }

  // ---------------------------------------------------------------------------
  // What each builder leaves in a cell whose previous value was `prev`
  // ---------------------------------------------------------------------------

  /** build_room: border and pillars in the tile's wall id, doors open. */
  function RoomCell(t: Tile, ox: int, oy: int, prev: int, y: int, x: int): int
  {
    if InDoors(t.openSides, ox, oy, y, x) then 0
    else if OnBorder(ox, oy, y, x) || InPillars(t.variety, ox, oy, y, x) then t.wallId
    else prev
  }

  /** A hall: the whole square in the wall id except the carved corridor and the doors. */
  function HallCell(t: Tile, carved: bool, ox: int, oy: int, prev: int, y: int, x: int): int
  {
    if InDoors(t.openSides, ox, oy, y, x) || carved then 0
    else if OnBorder(ox, oy, y, x) || InInterior(ox, oy, y, x) then t.wallId
    else prev
  }

  function StraightCell(t: Tile, ox: int, oy: int, prev: int, y: int, x: int): int
  {
    HallCell(t, InStraightPath(t.orient, ox, oy, y, x), ox, oy, prev, y, x)
  }

  /** An L hall with a corridor leg toward the entry side and one toward the turn side. */
  function LHallCell(t: Tile, turn: Dir, ox: int, oy: int, prev: int, y: int, x: int): int
  {
    HallCell(t, InLeg(t.orient, ox, oy, y, x) || InLeg(turn, ox, oy, y, x), ox, oy, prev, y, x)
  }

  /** build_tile_at: the builder chosen by the tile's kind (a start room is built as a room). */
  function TileCell(t: Tile, ox: int, oy: int, prev: int, y: int, x: int): int
  {
    match t.kind
    case Room3 => RoomCell(t, ox, oy, prev, y, x)
    case Dead => RoomCell(t, ox, oy, prev, y, x)
    case StartRoom => RoomCell(t, ox, oy, prev, y, x)
    case Straight => StraightCell(t, ox, oy, prev, y, x)
    case LLeft => LHallCell(t, LeftOf(t.orient), ox, oy, prev, y, x)
    case LRight => LHallCell(t, RightOf(t.orient), ox, oy, prev, y, x)
  }

  /** A tile never paints outside its own 18x18 square. */
  lemma TileCellStaysInSquare(t: Tile, ox: int, oy: int, prev: int, y: int, x: int)
    requires !InSquare(ox, oy, y, x)
    ensures TileCell(t, ox, oy, prev, y, x) == prev
  {
    if t.variety == Some(CornerPillars) {
      assert !InCornersBelow(0, ox, oy, y, x);
      assert !InCornersBelow(1, ox, oy, y, x);
      assert !InCornersBelow(2, ox, oy, y, x);
      assert !InCornersBelow(3, ox, oy, y, x);
      assert !InCornersBelow(4, ox, oy, y, x);
    }
  }

  /** Inside its square, what a tile paints does not depend on what was there before. */
  lemma TileCellCoversSquare(t: Tile, ox: int, oy: int, p: int, q: int, y: int, x: int)
    requires OnBorder(ox, oy, y, x) || (InInterior(ox, oy, y, x) && !IsRoom(t))
    ensures TileCell(t, ox, oy, p, y, x) == TileCell(t, ox, oy, q, y, x)
  {
  }

  /** How many steps the centre cell lies in from the door on side `d`: the
      centre is cell 9 of 0..17, so 9 from the north and west edges and 8 from
      the south and east edges. */
  function LegLength(d: Dir): int
  {
    if d == 0 || d == 3 then HALF_TILE else TILE - 1 - HALF_TILE
  }

  /** The cell `k` steps in from the door on side `d`, along the centre line
      (k = 0 is the door cell itself, k = LegLength(d) the centre). */
  function LegCell(d: Dir, ox: int, oy: int, k: int): (int, int)
  {
    var cx := ox + HALF_TILE;
    var cy := oy + HALF_TILE;
    if d == 0 then (oy + k, cx)
    else if d == 2 then (oy + TILE - 1 - k, cx)
    else if d == 1 then (cy, ox + TILE - 1 - k)
    else (cy, ox + k)
  }

  /** Every door of an L hall opens onto a corridor that runs straight to the
      centre: the door cell and every cell between it and the centre are open. */
  lemma {:induction false} LHallDoorsReachCentre(t: Tile, turn: Dir, ox: int, oy: int, prev: int, d: Dir, k: int)
    requires d in t.openSides && (d == t.orient || d == turn)
    requires 0 <= k <= LegLength(d)
    ensures LHallCell(t, turn, ox, oy, prev, LegCell(d, ox, oy, k).0, LegCell(d, ox, oy, k).1) == 0
  {
    var c := LegCell(d, ox, oy, k);
    if k == 0 {
      assert InDoor(d, ox, oy, c.0, c.1);
    } else {
      assert InLeg(d, ox, oy, c.0, c.1);
    }
  }

  // ---------------------------------------------------------------------------
  // The builders
  // ---------------------------------------------------------------------------

  /** draw_border_box */
  method DrawBorderBox(w: array2<int>, ox: int, oy: int, wid: int)
    requires 0 <= ox && ox + TILE <= w.Length1 && 0 <= oy && oy + TILE <= w.Length0
    modifies w
    ensures forall y, x :: 0 <= y < w.Length0 && 0 <= x < w.Length1 ==>
      w[y, x] == if OnBorder(ox, oy, y, x) then wid else old(w[y, x])
  {
    var x := ox;
    while x < ox + TILE
      invariant ox <= x <= ox + TILE
      invariant forall yy, xx :: 0 <= yy < w.Length0 && 0 <= xx < w.Length1 ==>
        w[yy, xx] == if (yy == oy || yy == oy + TILE - 1) && ox <= xx < x then wid else old(w[yy, xx])
    {
      w[oy, x] := wid;
      w[oy + TILE - 1, x] := wid;
      x := x + 1;
    }
    var y := oy;
    while y < oy + TILE
      invariant oy <= y <= oy + TILE
      invariant forall yy, xx :: 0 <= yy < w.Length0 && 0 <= xx < w.Length1 ==>
        w[yy, xx] ==
          if ((yy == oy || yy == oy + TILE - 1) && ox <= xx < ox + TILE) ||
             ((xx == ox || xx == ox + TILE - 1) && oy <= yy < y)
          then wid else old(w[yy, xx])
    {
      w[y, ox] := wid;
      w[y, ox + TILE - 1] := wid;
      y := y + 1;
    }
  }

  /** fill_interior */
  method FillInterior(w: array2<int>, ox: int, oy: int, wid: int)
    requires 0 <= ox && ox + TILE <= w.Length1 && 0 <= oy && oy + TILE <= w.Length0
    modifies w
    ensures forall y, x :: 0 <= y < w.Length0 && 0 <= x < w.Length1 ==>
      w[y, x] == if InInterior(ox, oy, y, x) then wid else old(w[y, x])
  {
    var y := oy + 1;
    while y < oy + TILE - 1
      invariant oy + 1 <= y <= oy + TILE - 1
      invariant forall yy, xx :: 0 <= yy < w.Length0 && 0 <= xx < w.Length1 ==>
        w[yy, xx] == if ox < xx < ox + TILE - 1 && oy < yy < y then wid else old(w[yy, xx])
    {
      var x := ox + 1;
      while x < ox + TILE - 1
        invariant ox + 1 <= x <= ox + TILE - 1
        invariant forall yy, xx :: 0 <= yy < w.Length0 && 0 <= xx < w.Length1 ==>
          w[yy, xx] ==
            if (ox < xx < ox + TILE - 1 && oy < yy < y) || (yy == y && ox < xx < x)
            then wid else old(w[yy, xx])
      {
        w[y, x] := wid;
        x := x + 1;
      }
      y := y + 1;
    }
  }

  /** The pillar loops of build_room: paint an n x n block. */
  method FillBlock(w: array2<int>, px: int, py: int, n: int, wid: int)
    requires 0 <= px && px + n <= w.Length1 && 0 <= py && py + n <= w.Length0
    modifies w
    ensures forall y, x :: 0 <= y < w.Length0 && 0 <= x < w.Length1 ==>
      w[y, x] == if InBlock(px, py, n, y, x) then wid else old(w[y, x])
  {
    var y := py;
    while y < py + n
      invariant py <= y && (n >= 0 ==> y <= py + n)
      invariant forall yy, xx :: 0 <= yy < w.Length0 && 0 <= xx < w.Length1 ==>
        w[yy, xx] == if px <= xx < px + n && py <= yy < y then wid else old(w[yy, xx])
    {
      var x := px;
      while x < px + n
        invariant px <= x <= px + n
        invariant forall yy, xx :: 0 <= yy < w.Length0 && 0 <= xx < w.Length1 ==>
          w[yy, xx] ==
            if (px <= xx < px + n && py <= yy < y) || (yy == y && px <= xx < x)
            then wid else old(w[yy, xx])
      {
        w[y, x] := wid;
        x := x + 1;
      }
      y := y + 1;
    }
  }

  /** carve_rect */
  method CarveRect(w: array2<int>, x0: int, y0: int, x1: int, y1: int)
    modifies w
    ensures forall y, x :: 0 <= y < w.Length0 && 0 <= x < w.Length1 ==>
      w[y, x] == if InRect(w.Length1, w.Length0, x0, y0, x1, y1, y, x) then 0 else old(w[y, x])
  {
    var ax0, ax1 := x0, x1;
    if ax0 > ax1 {
      ax0, ax1 := ax1, ax0;
    }
    var ay0, ay1 := y0, y1;
    if ay0 > ay1 {
      ay0, ay1 := ay1, ay0;
    }
    ax0 := MaxInt(1, ax0);
    ay0 := MaxInt(1, ay0);
    ax1 := MinInt(w.Length1 - 2, ax1);
    ay1 := MinInt(w.Length0 - 2, ay1);
    var y := ay0;
    while y <= ay1
      invariant ay0 <= y <= MaxInt(ay0, ay1 + 1)
      invariant forall yy, xx :: 0 <= yy < w.Length0 && 0 <= xx < w.Length1 ==>
        w[yy, xx] == if ax0 <= xx <= ax1 && ay0 <= yy < y then 0 else old(w[yy, xx])
    {
      var x := ax0;
      while x <= ax1
        invariant ax0 <= x <= MaxInt(ax0, ax1 + 1)
        invariant forall yy, xx :: 0 <= yy < w.Length0 && 0 <= xx < w.Length1 ==>
          w[yy, xx] ==
            if (ax0 <= xx <= ax1 && ay0 <= yy < y) || (yy == y && ax0 <= xx < x)
            then 0 else old(w[yy, xx])
      {
        w[y, x] := 0;
        x := x + 1;
      }
      y := y + 1;
    }
  }

  /** carve_door */
  method CarveDoor(w: array2<int>, edge: Dir, ox: int, oy: int)
    requires 0 <= ox && ox + TILE <= w.Length1 && 0 <= oy && oy + TILE <= w.Length0
    modifies w
    ensures forall y, x :: 0 <= y < w.Length0 && 0 <= x < w.Length1 ==>
      w[y, x] == if InDoor(edge, ox, oy, y, x) then 0 else old(w[y, x])
  {
    var cx, cy := ox + HALF_TILE, oy + HALF_TILE;
    var i := -DOOR_HALF;
    if edge == 0 || edge == 2 {
      var y := if edge == 0 then oy else oy + TILE - 1;
      while i <= DOOR_HALF
        invariant -DOOR_HALF <= i <= DOOR_HALF + 1
        invariant forall yy, xx :: 0 <= yy < w.Length0 && 0 <= xx < w.Length1 ==>
          w[yy, xx] == if yy == y && cx - DOOR_HALF <= xx < cx + i then 0 else old(w[yy, xx])
      {
        w[y, cx + i] := 0;
        i := i + 1;
      }
    } else {
      var x := if edge == 1 then ox + TILE - 1 else ox;
      while i <= DOOR_HALF
        invariant -DOOR_HALF <= i <= DOOR_HALF + 1
        invariant forall yy, xx :: 0 <= yy < w.Length0 && 0 <= xx < w.Length1 ==>
          w[yy, xx] == if xx == x && cy - DOOR_HALF <= yy < cy + i then 0 else old(w[yy, xx])
      {
        w[cy + i, x] := 0;
        i := i + 1;
      }
    }
  }

  /** The `for (const side of tile.open_sides) carve_door(...)` loop every builder ends with. */
  method CarveDoors(w: array2<int>, sides: set<Dir>, ox: int, oy: int)
    requires 0 <= ox && ox + TILE <= w.Length1 && 0 <= oy && oy + TILE <= w.Length0
    modifies w
    ensures forall y, x :: 0 <= y < w.Length0 && 0 <= x < w.Length1 ==>
      w[y, x] == if InDoors(sides, ox, oy, y, x) then 0 else old(w[y, x])
  {
    var todo := sides;
    while todo != {}
      invariant todo <= sides
      invariant forall y, x :: 0 <= y < w.Length0 && 0 <= x < w.Length1 ==>
        w[y, x] == if InDoors(sides - todo, ox, oy, y, x) then 0 else old(w[y, x])
      decreases |todo|
    {
      var side :| side in todo;
      CarveDoor(w, side, ox, oy);
      todo := todo - {side};
    }
  }

  /** build_room: border, pillars by variety, then the doors. */
  method BuildRoom(w: array2<int>, ox: int, oy: int, t: Tile)
    requires 0 <= ox && ox + TILE <= w.Length1 && 0 <= oy && oy + TILE <= w.Length0
    modifies w
    ensures forall y, x :: 0 <= y < w.Length0 && 0 <= x < w.Length1 ==>
      w[y, x] == RoomCell(t, ox, oy, old(w[y, x]), y, x)
  {
    DrawBorderBox(w, ox, oy, t.wallId);
    if t.variety == Some(CenterPillar) {
      FillBlock(w, ox + HALF_TILE - 2, oy + HALF_TILE - 2, 5, t.wallId);
    } else if t.variety == Some(CornerPillars) {
      var k := 0;
      while k < |CORNER_OFFSETS|
        invariant 0 <= k <= |CORNER_OFFSETS|
        invariant forall y, x :: 0 <= y < w.Length0 && 0 <= x < w.Length1 ==>
          w[y, x] ==
            if OnBorder(ox, oy, y, x) || InCornersBelow(k, ox, oy, y, x) then t.wallId
            else old(w[y, x])
      {
        FillBlock(w, ox + CORNER_OFFSETS[k].0, oy + CORNER_OFFSETS[k].1, 2, t.wallId);
        k := k + 1;
      }
    }
    CarveDoors(w, t.openSides, ox, oy);
  }

  /** build_hall_straight */
  method BuildHallStraight(w: array2<int>, ox: int, oy: int, t: Tile)
    requires 0 <= ox && ox + TILE <= w.Length1 && 0 <= oy && oy + TILE <= w.Length0
    modifies w
    ensures forall y, x :: 0 <= y < w.Length0 && 0 <= x < w.Length1 ==>
      w[y, x] == StraightCell(t, ox, oy, old(w[y, x]), y, x)
  {
    DrawBorderBox(w, ox, oy, t.wallId);
    FillInterior(w, ox, oy, t.wallId);
    var cx, cy := ox + HALF_TILE, oy + HALF_TILE;
    if t.orient == 0 || t.orient == 2 {
      CarveRect(w, cx - PATH_HALF, oy + 1, cx + PATH_HALF, oy + TILE - 2);
    } else {
      CarveRect(w, ox + 1, cy - PATH_HALF, ox + TILE - 2, cy + PATH_HALF);
    }
    CarveDoors(w, t.openSides, ox, oy);
  }

  /** Carve the corridor leg from the edge on side `d` to the centre. */
  method CarveLeg(w: array2<int>, d: Dir, ox: int, oy: int)
    requires 0 <= ox && ox + TILE <= w.Length1 && 0 <= oy && oy + TILE <= w.Length0
    modifies w
    ensures forall y, x :: 0 <= y < w.Length0 && 0 <= x < w.Length1 ==>
      w[y, x] == if InLeg(d, ox, oy, y, x) then 0 else old(w[y, x])
  {
    var cx, cy := ox + HALF_TILE, oy + HALF_TILE;
    if d == 0 {
      CarveRect(w, cx - PATH_HALF, oy + 1, cx + PATH_HALF, cy);
    } else if d == 2 {
      CarveRect(w, cx - PATH_HALF, cy, cx + PATH_HALF, oy + TILE - 2);
    } else if d == 1 {
      CarveRect(w, cx, cy - PATH_HALF, ox + TILE - 2, cy + PATH_HALF);
    } else {
      CarveRect(w, ox + 1, cy - PATH_HALF, cx, cy + PATH_HALF);
    }
  }

  /** build_hall_L, with the entry leg carved toward the entry side and the turn
      leg toward the turn side (see the as-written variant below). */
  method BuildHallL(w: array2<int>, ox: int, oy: int, t: Tile, turn: Dir)
    requires 0 <= ox && ox + TILE <= w.Length1 && 0 <= oy && oy + TILE <= w.Length0
    modifies w
    ensures forall y, x :: 0 <= y < w.Length0 && 0 <= x < w.Length1 ==>
      w[y, x] == LHallCell(t, turn, ox, oy, old(w[y, x]), y, x)
  {
    DrawBorderBox(w, ox, oy, t.wallId);
    FillInterior(w, ox, oy, t.wallId);
    CarveLeg(w, t.orient, ox, oy);
    CarveLeg(w, turn, ox, oy);
    CarveDoors(w, t.openSides, ox, oy);
  }

  /** build_tile_at: dispatch on the kind. */
  method BuildTileAt(w: array2<int>, ox: int, oy: int, t: Tile)
    requires 0 <= ox && ox + TILE <= w.Length1 && 0 <= oy && oy + TILE <= w.Length0
    modifies w
    ensures forall y, x :: 0 <= y < w.Length0 && 0 <= x < w.Length1 ==>
      w[y, x] == TileCell(t, ox, oy, old(w[y, x]), y, x)
  {
    if t.kind == Room3 || t.kind == Dead {
      BuildRoom(w, ox, oy, t);
    } else if t.kind == Straight {
      BuildHallStraight(w, ox, oy, t);
    } else if t.kind == LLeft {
      BuildHallL(w, ox, oy, t, LeftOf(t.orient));
    } else if t.kind == LRight {
      BuildHallL(w, ox, oy, t, RightOf(t.orient));
    } else {
      BuildRoom(w, ox, oy, t);
    }
  }

  // ---------------------------------------------------------------------------
  // build_hall_L as written in world-generation.js
  // ---------------------------------------------------------------------------

  /** The leg build_hall_L carves for the entry side: north for entries 0 and 2,
      west for entries 1 and 3. */
  function AsWrittenEntryLeg(orient: Dir): Dir
  {
    if orient == 0 || orient == 2 then 0 else 3
  }

  /** The leg build_hall_L carves for the turn side: south for turns 0 and 2,
      east for turns 1 and 3. */
  function AsWrittenTurnLeg(turn: Dir): Dir
  {
    if turn == 0 || turn == 2 then 2 else 1
  }

  function LHallCellAsWritten(t: Tile, turn: Dir, ox: int, oy: int, prev: int, y: int, x: int): int
  {
    HallCell(t, InLeg(AsWrittenEntryLeg(t.orient), ox, oy, y, x) ||
                InLeg(AsWrittenTurnLeg(turn), ox, oy, y, x), ox, oy, prev, y, x)
  }

  /** build_hall_L exactly as the source writes its two carve_rect calls. */
  method BuildHallLAsWritten(w: array2<int>, ox: int, oy: int, t: Tile, turn: Dir)
    requires 0 <= ox && ox + TILE <= w.Length1 && 0 <= oy && oy + TILE <= w.Length0
    modifies w
    ensures forall y, x :: 0 <= y < w.Length0 && 0 <= x < w.Length1 ==>
      w[y, x] == LHallCellAsWritten(t, turn, ox, oy, old(w[y, x]), y, x)
  {
    DrawBorderBox(w, ox, oy, t.wallId);
    FillInterior(w, ox, oy, t.wallId);
    var cx, cy := ox + HALF_TILE, oy + HALF_TILE;
    if t.orient == 0 || t.orient == 2 {
      CarveRect(w, cx - PATH_HALF, oy + 1, cx + PATH_HALF, cy);
    } else {
      CarveRect(w, ox + 1, cy - PATH_HALF, cx, cy + PATH_HALF);
    }
    if turn == 0 || turn == 2 {
      CarveRect(w, cx - PATH_HALF, cy, cx + PATH_HALF, oy + TILE - 2);
    } else {
      CarveRect(w, cx, cy - PATH_HALF, ox + TILE - 2, cy + PATH_HALF);
    }
    CarveDoors(w, t.openSides, ox, oy);
  }

  /** As written, an L hall entered from the south that turns left (east) gets its
      north and east legs carved: its south door opens onto a wall cell. */
  lemma AsWrittenLHallWallsOffSouthDoor()
    ensures
      var t := Tile(2, LLeft, OpenSidesFor(LLeft, 2), FIRST_WALL_ID, Rgb(0, 0, 0),
                    map[], false, {}, false, None, false);
      var o := GridOrigin(1, 1);
      var door := LegCell(2, o.ox, o.oy, 0);
      var behind := LegCell(2, o.ox, o.oy, 1);
      LHallCellAsWritten(t, LeftOf(2), o.ox, o.oy, 0, door.0, door.1) == 0 &&
      LHallCellAsWritten(t, LeftOf(2), o.ox, o.oy, 0, behind.0, behind.1) == FIRST_WALL_ID
  {
    var o := GridOrigin(1, 1);
    var behind := LegCell(2, o.ox, o.oy, 1);
    assert !InLeg(0, o.ox, o.oy, behind.0, behind.1);
    assert !InLeg(1, o.ox, o.oy, behind.0, behind.1);
  }

  /** The cell just inside the door on side `d`. */
  function BehindDoor(d: Dir, ox: int, oy: int): (int, int)
  {
    LegCell(d, ox, oy, 1)
  }

  /** As written, of the eight L halls (four entries, each turning left or right)
      only two open the cells behind both of their doors: entry north turning
      east, and entry west turning south. */
  lemma AsWrittenLHallOpensBothDoorsOnlyTwice(t: Tile, turn: Dir, ox: int, oy: int, prev: int)
    requires turn == LeftOf(t.orient) || turn == RightOf(t.orient)
    requires t.wallId != 0
    ensures
      (LHallCellAsWritten(t, turn, ox, oy, prev, BehindDoor(t.orient, ox, oy).0, BehindDoor(t.orient, ox, oy).1) == 0 &&
       LHallCellAsWritten(t, turn, ox, oy, prev, BehindDoor(turn, ox, oy).0, BehindDoor(turn, ox, oy).1) == 0)
      <==> ((t.orient == 0 && turn == 1) || (t.orient == 3 && turn == 2))
  {
    var o := t.orient;
    if o == 0 {
    } else if o == 1 {
    } else if o == 2 {
    } else {
    }
  }
}
