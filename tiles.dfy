/** The vocabulary of world-generation.js: grid constants, compass directions,
    tile kinds and the tile record, the grid slots, and the collision test. */
module Tiles {
  import opened Common

  const TILE: int := 18
  const DOOR_W: int := 4
  const PATH_W: int := 3
  const BORDER: int := 2
  const GRID_SIDE: int := 3
  /** WORLD_W and WORLD_H as empty_world sets them. */
  const WORLD_SIZE: int := BORDER * 2 + TILE * GRID_SIDE
  const BOUNDARY_ID: int := 7
  const BLOCK_COLOR_ID: int := 999
  /** The first wall id handed out by next_wall_id_with_color. */
  const FIRST_WALL_ID: int := 10
  /** `(TILE / 2) | 0`: offset of a tile's centre column and row from its origin. */
  const HALF_TILE: int := 9
  /** `(DOOR_W / 2) | 0`: a door spans the centre cell and this many on each side. */
  const DOOR_HALF: int := 2
  /** `PATH_W >> 1`: a corridor spans the centre line and this many on each side. */
  const PATH_HALF: int := 1
  /** How far beyond a room's edge the exit blocks are placed. */
  const BLOCK_OFFSET: int := 2

  /** 0 = north, 1 = east, 2 = south, 3 = west. */
  type Dir = d: int | 0 <= d < 4

  function DX(d: Dir): int
  {
    [0, 1, 0, -1][d]
  }

  /** Rows grow southward, so north is -1. */
  function DY(d: Dir): int
  {
    [-1, 0, 1, 0][d]
  }

  /** A quarter turn counter-clockwise as seen on the map. */
  function LeftOf(d: Dir): (r: Dir)
    ensures DX(r) == DY(d) && DY(r) == -DX(d)
  {
    (d + 3) % 4
  }

  /** A quarter turn clockwise as seen on the map. */
  function RightOf(d: Dir): (r: Dir)
    ensures DX(r) == -DY(d) && DY(r) == DX(d)
  {
    (d + 1) % 4
  }

  /** The side facing away. */
  function Opposite(d: Dir): (r: Dir)
    ensures DX(r) == -DX(d) && DY(r) == -DY(d)
  {
    (d + 2) % 4
  }

  /** Turning left undoes turning right, two quarter turns make a half turn,
      and the four directions are pairwise distinct unit steps. */
  lemma TurnsCompose(d: Dir)
    ensures LeftOf(RightOf(d)) == d && RightOf(LeftOf(d)) == d
    ensures Opposite(Opposite(d)) == d
    ensures LeftOf(LeftOf(d)) == Opposite(d) && RightOf(RightOf(d)) == Opposite(d)
    ensures d != LeftOf(d) && d != RightOf(d) && d != Opposite(d) && LeftOf(d) != RightOf(d)
  {
    if d == 0 {
    } else if d == 1 {
    } else if d == 2 {
    } else {
    }
  }

  datatype Kind = Room3 | Dead | Straight | LLeft | LRight | StartRoom

  /** The pillar layout of a room: one 5x5 block in the centre, or four 2x2 blocks. */
  datatype Variety = CenterPillar | CornerPillars

  /** Index of a tile in the game's tile arena. */
  type TileId = nat

  /** A tile of the endless map. `exitBlocks` is the set of sides marked blocked;
      `neighbors` maps a side to the tile generated behind it. */
  datatype Tile = Tile(
    orient: Dir,
    kind: Kind,
    openSides: set<Dir>,
    wallId: int,
    color: Rgb,
    neighbors: map<Dir, TileId>,
    spawned: bool,
    exitBlocks: set<Dir>,
    hasActiveEnemies: bool,
    variety: Option<Variety>,
    isStart: bool)

  /** isRoom: the kinds that hold enemies and can be sealed. */
  predicate IsRoom(t: Tile)
  {
    t.kind == Room3 || t.kind == Dead || t.kind == StartRoom
  }

  /** The doors generate_tile opens for a kind entered from side `o`. */
  function OpenSidesFor(kind: Kind, o: Dir): set<Dir>
  {
    match kind
    case Room3 => {o, Opposite(o), LeftOf(o), RightOf(o)}
    case Dead => {o}
    case Straight => {o, Opposite(o)}
    case LLeft => {o, LeftOf(o)}
    case LRight => {o, RightOf(o)}
    case StartRoom => {o}
  }

  /** Every generated tile keeps the door it is entered by; a room3 opens on all
      four sides, a dead end on one, a corridor on exactly two, and the second
      door of a corridor is the straight-on side or the side it turns to. */
  lemma OpenSidesShape(kind: Kind, o: Dir)
    ensures o in OpenSidesFor(kind, o)
    ensures kind == Room3 ==> OpenSidesFor(kind, o) == {0, 1, 2, 3}
    ensures kind == Dead ==> |OpenSidesFor(kind, o)| == 1
    ensures kind == Straight ==> OpenSidesFor(kind, o) - {o} == {Opposite(o)}
    ensures kind == LLeft ==> OpenSidesFor(kind, o) - {o} == {LeftOf(o)}
    ensures kind == LRight ==> OpenSidesFor(kind, o) - {o} == {RightOf(o)}
    ensures kind in {Straight, LLeft, LRight} ==> |OpenSidesFor(kind, o)| == 2
  {
    if o == 0 {
    } else if o == 1 {
    } else if o == 2 {
    } else {
    }
  }

  const KINDS: seq<Kind> := [Room3, Dead, Straight, LLeft, LRight]
  const WEIGHTS: seq<real> := [0.30, 0.12, 0.28, 0.15, 0.15]

  /** The running total of the first `i` weights. */
  function Cumulative(i: nat): real
    requires i <= |WEIGHTS|
  {
    if i == 0 then 0.0 else Cumulative(i - 1) + WEIGHTS[i - 1]
  }

  /** The kind a draw `r` selects: room3 below 0.30, dead end up to 0.42, straight up
      to 0.70, left turn up to 0.85, right turn up to 1.0. */
  function KindForRoll(r: real): Kind
  {
    if r <= 0.30 then Room3
    else if r <= 0.42 then Dead
    else if r <= 0.70 then Straight
    else if r <= 0.85 then LLeft
    else if r <= 1.0 then LRight
    else Room3
  }

  /** The weighted choice of generate_tile: walk the weights, accumulating, and
      stop at the first kind whose running total reaches the draw. */
  method PickKind(r: real) returns (kind: Kind)
    ensures kind == KindForRoll(r)
  {
    assert Cumulative(1) == 0.30 && Cumulative(2) == 0.42 && Cumulative(3) == 0.70;
    assert Cumulative(4) == 0.85 && Cumulative(5) == 1.0;
    var acc := 0.0;
    kind := KINDS[0];
    var i := 0;
    while i < |KINDS|
      invariant 0 <= i <= |KINDS|
      invariant acc == Cumulative(i)
      invariant i == 0 || r > acc
      invariant kind == Room3
    {
      acc := acc + WEIGHTS[i];
      if r <= acc {
        kind := KINDS[i];
        return;
      }
      i := i + 1;
    }
  }

  /** Top-left cell of a slot of the 3x3 layout. */
  datatype Origin = Origin(ox: int, oy: int)

  function GridOrigin(tx: int, ty: int): Origin
  {
    Origin(BORDER + tx * TILE, BORDER + ty * TILE)
  }

  /** The slot next to the centre slot in direction `d`, as rebuild_world places it. */
  function SlotOrigin(d: Dir): (o: Origin)
    ensures o.ox - GridOrigin(1, 1).ox == TILE * DX(d)
    ensures o.oy - GridOrigin(1, 1).oy == TILE * DY(d)
  {
    GridOrigin(1 + DX(d), 1 + DY(d))
  }

  /** The four side slots are distinct from each other and from the centre slot. */
  lemma SlotsDistinct(d: Dir, e: Dir)
    ensures SlotOrigin(d) != GridOrigin(1, 1)
    ensures SlotOrigin(d) == SlotOrigin(e) <==> d == e
  {
  }

  /** A cell of the world grid, with the side of the room it seals. */
  datatype Block = Block(x: int, y: int, side: Dir)

  /** can_move: the point lies on a cell of the grid that holds no wall. */
  predicate CanMove(w: array2<int>, nx: real, ny: real)
    reads w
  {
    var xi := ToInt32(nx);
    var yi := ToInt32(ny);
    0 <= yi < w.Length0 && 0 <= xi < w.Length1 && w[yi, xi] == 0
  }

  /** Inside the grid, can_move tests exactly the cell under the point; a point
      left of or above the grid (by at least one cell) or past its far edge is
      refused whatever the cells hold. */
  lemma CanMoveIsCellTest(w: array2<int>, nx: real, ny: real)
    requires w.Length0 < TWO_31 && w.Length1 < TWO_31
    ensures 0.0 <= nx < w.Length1 as real && 0.0 <= ny < w.Length0 as real ==>
      (CanMove(w, nx, ny) <==> w[ny.Floor, nx.Floor] == 0)
    ensures -(TWO_31 as real) <= nx <= -1.0 ==> !CanMove(w, nx, ny)
    ensures -(TWO_31 as real) <= ny <= -1.0 ==> !CanMove(w, nx, ny)
    ensures w.Length1 as real <= nx < TWO_31 as real ==> !CanMove(w, nx, ny)
    ensures w.Length0 as real <= ny < TWO_31 as real ==> !CanMove(w, nx, ny)
  {
    if nx <= -1.0 && -(TWO_31 as real) <= nx {
      assert Trunc(nx) <= -1;
    }
    if ny <= -1.0 && -(TWO_31 as real) <= ny {
      assert Trunc(ny) <= -1;
    }
  }

  /** The axis-separated collision commit the player and the enemies use: the
      x component is kept when (nx, y) is open, then the y component when
      (x', ny) is open. */
  function Slide(w: array2<int>, x: real, y: real, nx: real, ny: real): (p: (real, real))
    reads w
    ensures p.0 == x || (p.0 == nx && CanMove(w, nx, y))
    ensures p.1 == y || (p.1 == ny && CanMove(w, p.0, ny))
  {
    var x' := if CanMove(w, nx, y) then nx else x;
    var y' := if CanMove(w, x', ny) then ny else y;
    (x', y')
  }

  /** A slide never ends on a wall cell when it starts on an open one. */
  lemma SlideStaysOpen(w: array2<int>, x: real, y: real, nx: real, ny: real)
    requires CanMove(w, x, y)
    ensures CanMove(w, Slide(w, x, y, nx, ny).0, Slide(w, x, y, nx, ny).1)
  {
  }
}
