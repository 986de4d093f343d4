/** The wall pass of renderFrame in game-core.js: for every screen column a ray
    leaves the player's position, is stepped cell by cell through the world
    grid by a digital differential analyser until it meets a non-empty cell or
    leaves the grid, and gives that column its wall distance, wall span and
    colour. Only the distance is kept (in zBuf); the span and colour only feed
    the canvas. */
module Raycast {
  import opened Common
  import opened Tiles
  import opened State
  import opened WorldGeneration

  /** The step guard of the march. */
  const MAX_STEPS: int := 4096
  /** INF: the delta distance along an axis the ray does not move on. */
  const FAR: real := 1e30
  /** What `rayDir || 1e-9` divides by when the component is 0. */
  const TINY_DIR: real := 1e-9
  /** The distance a non-positive perpendicular distance is replaced by. */
  const MIN_DIST: real := 1e-6
  /** The factor each channel of a wall hit on a y-side is scaled by. */
  const Y_SIDE_DIM: real := 0.75
  /** WALL_COLOR's fallback for an id it does not know. */
  const WHITE: Rgb := Rgb(255, 255, 255)

  /** The fixed part of a ray: its step direction on each axis and the distance
      along the ray between two grid lines of that axis. */
  datatype Ray = Ray(stepX: int, stepY: int, deltaX: real, deltaY: real)

  /** The moving part of a ray: the cell it is in, the ray distance to the next
      x and y grid lines, the axis of the last grid line crossed, the cell
      value read and whether the march is over. */
  datatype Probe = Probe(mapX: int, mapY: int, sideX: real, sideY: real, side: int, tileId: int, hit: bool)

  /** deltaDist for a ray component: |1 / d|, or FAR when d is 0. */
  function DeltaDist(d: real): (r: real)
    ensures r > 0.0
    ensures d != 0.0 ==> r * (if d < 0.0 then -d else d) == 1.0
    ensures d == 0.0 ==> r == FAR
  {
    if d != 0.0 then (if 1.0 / d < 0.0 then -(1.0 / d) else 1.0 / d) else FAR
  }

  function RayFor(rdx: real, rdy: real): Ray
  {
    Ray(if rdx < 0.0 then -1 else 1, if rdy < 0.0 then -1 else 1, DeltaDist(rdx), DeltaDist(rdy))
  }

  /** The probe before the first step: the cell under the player (`pos | 0`)
      and the ray distance to that cell's first grid line on each axis. */
  function StartProbe(posX: real, posY: real, ray: Ray): Probe
  {
    var mx := ToInt32(posX);
    var my := ToInt32(posY);
    Probe(mx, my,
          if ray.stepX < 0 then (posX - mx as real) * ray.deltaX else (mx as real + 1.0 - posX) * ray.deltaX,
          if ray.stepY < 0 then (posY - my as real) * ray.deltaY else (my as real + 1.0 - posY) * ray.deltaY,
          0, 0, false)
  }

  /** A finished probe reports honestly: outside the grid it carries
      BOUNDARY_ID, inside it the non-empty cell it stopped on. */
  predicate HitOk(w: array2<int>, p: Probe)
    reads w
  {
    if InGrid(w, p.mapY, p.mapX) then p.tileId == w[p.mapY, p.mapX] && p.tileId != 0
    else p.tileId == BOUNDARY_ID
  }

  /** One turn of the march: cross the nearer grid line, then stop outside the
      grid or on a non-empty cell. */
  function Advance(w: array2<int>, ray: Ray, p: Probe): (q: Probe)
    reads w
    ensures q.hit ==> HitOk(w, q)
    ensures !q.hit ==> InGrid(w, q.mapY, q.mapX) && w[q.mapY, q.mapX] == 0
    ensures (q.mapX == p.mapX + ray.stepX && q.mapY == p.mapY) || (q.mapX == p.mapX && q.mapY == p.mapY + ray.stepY)
  {
    var q := if p.sideX < p.sideY then p.(sideX := p.sideX + ray.deltaX, mapX := p.mapX + ray.stepX, side := 0)
             else p.(sideY := p.sideY + ray.deltaY, mapY := p.mapY + ray.stepY, side := 1);
    if !InGrid(w, q.mapY, q.mapX) then q.(hit := true, tileId := BOUNDARY_ID)
    else q.(tileId := w[q.mapY, q.mapX], hit := w[q.mapY, q.mapX] != 0)
  }

  /** The march from `p` with `guard` turns already taken. */
  function Marched(w: array2<int>, ray: Ray, p: Probe, guard: nat): Probe
    reads w
    decreases MAX_STEPS - guard
  {
    if p.hit || guard >= MAX_STEPS then p else Marched(w, ray, Advance(w, ray, p), guard + 1)
  }

  /** The cells a ray in the grid can still enter, counted along each axis up
      to the far edge in its step direction. */
  function Room(w: array2<int>, ray: Ray, p: Probe): int
  {
    (if ray.stepX == 1 then w.Length1 - p.mapX else p.mapX + 1) +
    (if ray.stepY == 1 then w.Length0 - p.mapY else p.mapY + 1)
  }

  predicate UnitSteps(ray: Ray)
  {
    (ray.stepX == 1 || ray.stepX == -1) && (ray.stepY == 1 || ray.stepY == -1)
  }

  /** Every turn inside the grid uses up one cell of Room, so a ray in the grid
      with enough guard left always finishes. */
  lemma {:induction false} MarchFinishes(w: array2<int>, ray: Ray, p: Probe, guard: nat)
    requires UnitSteps(ray)
    requires !p.hit ==> InGrid(w, p.mapY, p.mapX) && guard + Room(w, ray, p) <= MAX_STEPS + 1
    ensures Marched(w, ray, p, guard).hit
    decreases MAX_STEPS - guard
  {
    if !p.hit {
      var q := Advance(w, ray, p);
      assert Room(w, ray, q) == Room(w, ray, p) - 1;
      MarchFinishes(w, ray, q, guard + 1);
    }
  }

  /** Whatever the march stops on, it reports honestly. */
  lemma {:induction false} MarchReports(w: array2<int>, ray: Ray, p: Probe, guard: nat)
    requires p.hit ==> HitOk(w, p)
    ensures Marched(w, ray, p, guard).hit ==> HitOk(w, Marched(w, ray, p, guard))
    decreases MAX_STEPS - guard
  {
    if !p.hit && guard < MAX_STEPS {
      MarchReports(w, ray, Advance(w, ray, p), guard + 1);
    }
  }

  /** On any grid with fewer than MAX_STEPS cells across its two sides, the
      step guard never ends a ray: from any start the ray meets a non-empty
      cell or leaves the grid, and then carries BOUNDARY_ID. */
  lemma RayMeetsWall(w: array2<int>, posX: real, posY: real, rdx: real, rdy: real)
    requires w.Length0 + w.Length1 <= MAX_STEPS
    ensures Marched(w, RayFor(rdx, rdy), StartProbe(posX, posY, RayFor(rdx, rdy)), 0).hit
    ensures HitOk(w, Marched(w, RayFor(rdx, rdy), StartProbe(posX, posY, RayFor(rdx, rdy)), 0))
  {
    var ray := RayFor(rdx, rdy);
    var p := StartProbe(posX, posY, ray);
    var q := Advance(w, ray, p);
    assert Marched(w, ray, p, 0) == Marched(w, ray, q, 1);
    MarchFinishes(w, ray, q, 1);
    MarchReports(w, ray, q, 1);
  }

  /** The march loop of renderFrame for one ray. */
  method CastRay(w: array2<int>, posX: real, posY: real, rdx: real, rdy: real) returns (ray: Ray, p: Probe)
    ensures ray == RayFor(rdx, rdy)
    ensures p == Marched(w, ray, StartProbe(posX, posY, ray), 0)
  {
    ray := RayFor(rdx, rdy);
    var start := StartProbe(posX, posY, ray);
    var mapX, mapY, sideDistX, sideDistY := start.mapX, start.mapY, start.sideX, start.sideY;
    var stepX, stepY, deltaDistX, deltaDistY := ray.stepX, ray.stepY, ray.deltaX, ray.deltaY;
    var hit, side, tileId, guard := false, 0, 0, 0;
    while !hit && guard < MAX_STEPS
      invariant 0 <= guard <= MAX_STEPS
      invariant Marched(w, ray, Probe(mapX, mapY, sideDistX, sideDistY, side, tileId, hit), guard) ==
                Marched(w, ray, start, 0)
      decreases MAX_STEPS - guard
    {
      ghost var before := Probe(mapX, mapY, sideDistX, sideDistY, side, tileId, hit);
      guard := guard + 1;
      if sideDistX < sideDistY {
        sideDistX, mapX, side := sideDistX + deltaDistX, mapX + stepX, 0;
      } else {
        sideDistY, mapY, side := sideDistY + deltaDistY, mapY + stepY, 1;
      }
      if mapY < 0 || mapY >= w.Length0 || mapX < 0 || mapX >= w.Length1 {
        hit, tileId := true, BOUNDARY_ID;
        assert Probe(mapX, mapY, sideDistX, sideDistY, side, tileId, hit) == Advance(w, ray, before);
        break;
      }
      tileId := w[mapY, mapX];
      if tileId != 0 {
        hit := true;
      }
      assert Probe(mapX, mapY, sideDistX, sideDistY, side, tileId, hit) == Advance(w, ray, before);
    }
    p := Probe(mapX, mapY, sideDistX, sideDistY, side, tileId, hit);
  }

  // ---------------------------------------------------------------------------
  // From the march to the column
  // ---------------------------------------------------------------------------

  /** `rayDir || 1e-9`. */
  function NonZero(d: real): (r: real)
    ensures r != 0.0
  {
    if d != 0.0 then d else TINY_DIR
  }

  /** perpWallDist: the distance to the wall along the camera direction, from
      the grid line the ray crossed last; a non-positive value becomes MIN_DIST. */
  function PerpDist(posX: real, posY: real, rdx: real, rdy: real, ray: Ray, p: Probe): (d: real)
    ensures d > 0.0
  {
    var raw := if p.side == 0 then (p.mapX as real - posX + (1 - ray.stepX) as real / 2.0) / NonZero(rdx)
               else (p.mapY as real - posY + (1 - ray.stepY) as real / 2.0) / NonZero(rdy);
    if raw > 0.0 then raw else MIN_DIST
  }

  function HalfHeight(h: int): int
  {
    ToInt32(h as real / 2.0)
  }

  /** lineHeight: the wall's height in rows, `(h / perp) | 0`. */
  function LineHeight(h: int, perp: real): int
    requires perp > 0.0
  {
    ToInt32(h as real / perp)
  }

  /** The rows drawStart..drawEnd of a wall lineHeight rows tall, centred on
      HALF_H and clamped to a screen h rows tall. */
  function Rows(h: int, lineHeight: int): (s: (int, int))
    ensures 0 <= s.0 && s.1 <= h - 1
  {
    (MaxInt(0, ToInt32(-(lineHeight as real) / 2.0 + HalfHeight(h) as real)),
     MinInt(h - 1, ToInt32(lineHeight as real / 2.0 + HalfHeight(h) as real)))
  }

  /** drawStart..drawEnd for a wall at distance `perp`. */
  function Span(h: int, perp: real): (s: (int, int))
    requires perp > 0.0
    ensures 0 <= s.0 && s.1 <= h - 1
  {
    Rows(h, LineHeight(h, perp))
  }

  // Real arithmetic facts, each stated on plain variables so that the
  // truncation and wrap-around of `| 0` stay out of their proofs.

  lemma MulMonotone(x: real, y: real, c: real)
    requires x <= y && c >= 0.0
    ensures x * c <= y * c && c * x <= c * y
  {
  }

  lemma DivNonNegative(a: real, b: real)
    requires a >= 0.0 && b > 0.0
    ensures a / b >= 0.0
  {
  }

  /** Dividing by more gives less. */
  lemma DivAntitone(a: real, b: real, c: real)
    requires a >= 0.0 && 0.0 < b <= c
    ensures a / c <= a / b
  {
  }

  lemma MulBetween(c: real, f: real)
    requires c >= 0.0 && 0.0 <= f <= 1.0
    ensures 0.0 <= c * f <= c
  {
  }

  lemma TruncBetween(t: real, c: int)
    requires 0.0 <= t <= c as real
    ensures 0 <= Trunc(t) <= c
  {
  }

  /** Truncation keeps order. */
  lemma TruncMonotone(a: real, b: real)
    requires a <= b
    ensures Trunc(a) <= Trunc(b)
  {
  }

  /** `| 0` on a value that cannot wrap keeps order and sign. */
  lemma ToInt32Ordered(a: real, b: real)
    requires 0.0 <= a <= b < TWO_31 as real
    ensures 0 <= ToInt32(a) <= ToInt32(b)
  {
    TruncMonotone(a, b);
    TruncBetween(a, TWO_31);
    TruncBetween(b, TWO_31);
  }

  /** HALF_H is a row of the screen. */
  lemma HalfHeightOnScreen(h: int)
    requires 1 <= h < TWO_31
    ensures 0 <= HalfHeight(h) <= h - 1
  {
    TruncBetween(h as real / 2.0, h);
  }

  /** With lineHeight in range the rows hold the horizon row HALF_H. */
  lemma RowsHoldHorizon(h: int, lineHeight: int)
    requires 1 <= h < TWO_31 && 0 <= lineHeight < TWO_31
    ensures Rows(h, lineHeight).0 <= HalfHeight(h) <= Rows(h, lineHeight).1
  {
    var half := HalfHeight(h);
    HalfHeightOnScreen(h);
    TruncMonotone(-(lineHeight as real) / 2.0 + half as real, half as real);
    TruncMonotone(half as real, lineHeight as real / 2.0 + half as real);
  }

  /** A shorter wall's rows lie inside a taller wall's rows. */
  lemma RowsNest(h: int, tall: int, short: int)
    requires 1 <= h < TWO_31 && 0 <= short <= tall < TWO_31
    ensures Rows(h, tall).0 <= Rows(h, short).0 && Rows(h, short).1 <= Rows(h, tall).1
  {
    var half := HalfHeight(h);
    HalfHeightOnScreen(h);
    TruncMonotone(-(tall as real) / 2.0 + half as real, -(short as real) / 2.0 + half as real);
    TruncMonotone(short as real / 2.0 + half as real, tall as real / 2.0 + half as real);
  }

  /** As long as (h / perp)|0 does not wrap, the span holds the horizon row HALF_H. */
  lemma SpanHoldsHorizon(h: int, perp: real)
    requires perp > 0.0 && 1 <= h < TWO_31 && h as real / perp < TWO_31 as real
    ensures Span(h, perp).0 <= HalfHeight(h) <= Span(h, perp).1
  {
    var r := h as real / perp;
    DivNonNegative(h as real, perp);
    ToInt32Ordered(r, r);
    RowsHoldHorizon(h, LineHeight(h, perp));
  }

  /** A farther wall gets a span inside the span of a nearer one. */
  lemma SpanShrinksWithDistance(h: int, near: real, far: real)
    requires 0.0 < near <= far && 1 <= h < TWO_31 && h as real / near < TWO_31 as real
    ensures Span(h, near).0 <= Span(h, far).0 && Span(h, far).1 <= Span(h, near).1
  {
    DivAntitone(h as real, near, far);
    DivNonNegative(h as real, far);
    ToInt32Ordered(h as real / far, h as real / near);
    RowsNest(h, LineHeight(h, near), LineHeight(h, far));
  }

  /** shade: 2 / (perp + 0.5) kept within [0.4, 1]. */
  function Shade(perp: real): (s: real)
    requires perp > 0.0
    ensures 0.4 <= s <= 1.0
  {
    MaxReal(0.4, MinReal(1.0, 2.0 / (perp + 0.5)))
  }

  /** Walls up to 1.5 away are at full brightness, walls 4.5 or more away at
      the floor of 0.4. */
  lemma ShadeSaturates(perp: real)
    requires perp > 0.0
    ensures perp <= 1.5 ==> Shade(perp) == 1.0
    ensures perp >= 4.5 ==> Shade(perp) == 0.4
  {
    if perp <= 1.5 {
      DivAntitone(2.0, perp + 0.5, 2.0);
    }
    if perp >= 4.5 {
      DivAntitone(2.0, 5.0, perp + 0.5);
    }
  }

  /** Walls fade with distance. */
  lemma ShadeFades(near: real, far: real)
    requires 0.0 < near <= far
    ensures Shade(far) <= Shade(near)
  {
    DivAntitone(2.0, near + 0.5, far + 0.5);
  }

  /** `(c * f) | 0` for one colour channel. */
  function Scale(c: int, f: real): int
  {
    ToInt32(c as real * f)
  }

  predicate IsChannel(c: int)
  {
    0 <= c <= 255
  }

  predicate IsColour(c: Rgb)
  {
    IsChannel(c.r) && IsChannel(c.g) && IsChannel(c.b)
  }

  /** Scaling a channel by a factor in [0, 1] keeps it a channel, no brighter. */
  lemma ScaleDims(c: int, f: real)
    requires 0 <= c <= 255 && 0.0 <= f <= 1.0
    ensures 0 <= Scale(c, f) <= c
  {
    ScaledBetween(c, f, c as real * f);
  }

  lemma ScaledBetween(c: int, f: real, t: real)
    requires 0 <= c <= 255 && 0.0 <= f <= 1.0 && t == c as real * f
    ensures 0 <= ToInt32(t) <= c
  {
    ProductBounds(c, f, t);
    ToInt32Ordered(t, c as real);
    TruncBetween(c as real, c);
  }

  lemma ProductBounds(c: int, f: real, t: real)
    requires 0 <= c && 0.0 <= f <= 1.0 && t == c as real * f
    ensures 0.0 <= t <= c as real
  {
    MulBetween(c as real, f);
  }

  lemma ProductsOrdered(d: int, c: int, s: real, t: real, u: real)
    requires d <= c && 0.0 <= s && t == d as real * s && u == c as real * s
    ensures t <= u
  {
    MulMonotone(d as real, c as real, s);
  }

  /** The wall's colour before shading: WALL_COLOR's entry (white when there is
      none), each channel scaled by 0.75 on a y-side hit. */
  function BaseColour(colors: map<int, Rgb>, tileId: int, side: int): Rgb
  {
    var b := if tileId in colors then colors[tileId] else WHITE;
    if side == 1 then Rgb(Scale(b.r, Y_SIDE_DIM), Scale(b.g, Y_SIDE_DIM), Scale(b.b, Y_SIDE_DIM)) else b
  }

  function Tint(b: Rgb, shade: real): Rgb
  {
    Rgb(Scale(b.r, shade), Scale(b.g, shade), Scale(b.b, shade))
  }

  /** With a palette of true colours, every column colour is a true colour no
      brighter than the wall's palette entry, and a y-side hit is never
      brighter than an x-side hit on the same wall at the same distance. */
  lemma ColumnColourInRange(colors: map<int, Rgb>, tileId: int, side: int, perp: real)
    requires forall k :: k in colors ==> IsColour(colors[k])
    requires perp > 0.0
    ensures IsColour(Tint(BaseColour(colors, tileId, side), Shade(perp)))
    ensures var c := Tint(BaseColour(colors, tileId, side), Shade(perp));
            var b := if tileId in colors then colors[tileId] else WHITE;
            c.r <= b.r && c.g <= b.g && c.b <= b.b
    ensures var c1 := Tint(BaseColour(colors, tileId, 1), Shade(perp));
            var c0 := Tint(BaseColour(colors, tileId, 0), Shade(perp));
            c1.r <= c0.r && c1.g <= c0.g && c1.b <= c0.b
  {
    var b := if tileId in colors then colors[tileId] else WHITE;
    var s := Shade(perp);
    ChannelDims(b.r, s);
    ChannelDims(b.g, s);
    ChannelDims(b.b, s);
  }

  /** One channel through the y-side dimming and the shading. */
  lemma ChannelDims(c: int, s: real)
    requires 0 <= c <= 255 && 0.0 <= s <= 1.0
    ensures 0 <= Scale(Scale(c, Y_SIDE_DIM), s) <= Scale(c, s) <= c
  {
    ScaleDims(c, Y_SIDE_DIM);
    ScaleDims(c, s);
    ScaleDims(Scale(c, Y_SIDE_DIM), s);
    ScaleOrdered(Scale(c, Y_SIDE_DIM), c, s);
  }

  /** A brighter channel stays at least as bright after the same scaling. */
  lemma ScaleOrdered(d: int, c: int, s: real)
    requires 0 <= d <= c <= 255 && 0.0 <= s <= 1.0
    ensures Scale(d, s) <= Scale(c, s)
  {
    ScaledOrdered(d, c, s, d as real * s, c as real * s);
  }

  lemma ScaledOrdered(d: int, c: int, s: real, t: real, u: real)
    requires 0 <= d <= c <= 255 && 0.0 <= s <= 1.0 && t == d as real * s && u == c as real * s
    ensures ToInt32(t) <= ToInt32(u)
  {
    ProductsOrdered(d, c, s, t, u);
    ProductBounds(d, s, t);
    ProductBounds(c, s, u);
    ToInt32Ordered(t, u);
  }

  /** What renderFrame computes for screen column x. */
  datatype Column = Column(perp: real, drawStart: int, drawEnd: int, colour: Rgb)

  /** The camera ray through column x of a screen sw columns wide. */
  function CameraRay(dirX: real, dirY: real, planeX: real, planeY: real, sw: int, x: int): (real, real)
    requires sw > 0
  {
    var cameraX := 2.0 * x as real / sw as real - 1.0;
    (dirX + planeX * cameraX, dirY + planeY * cameraX)
  }

  function ColumnOf(w: array2<int>, colors: map<int, Rgb>, posX: real, posY: real, rdx: real, rdy: real, sh: int): Column
    reads w
  {
    var ray := RayFor(rdx, rdy);
    var p := Marched(w, ray, StartProbe(posX, posY, ray), 0);
    var perp := PerpDist(posX, posY, rdx, rdy, ray, p);
    var span := Span(sh, perp);
    Column(perp, span.0, span.1, Tint(BaseColour(colors, p.tileId, p.side), Shade(perp)))
  }

  /** Column x of the frame the game's camera sees. */
  function ColumnAt(g: Game, x: int): Column
    reads g, g.world
    requires g.screenW > 0
  {
    var rd := CameraRay(g.dirX, g.dirY, g.planeX, g.planeY, g.screenW, x);
    ColumnOf(g.world, g.wallColors, g.posX, g.posY, rd.0, rd.1, g.screenH)
  }

  /** The body of renderFrame's column loop, drawing left out. */
  method CastColumn(g: Game, x: int) returns (col: Column)
    requires 0 <= x < g.screenW
    ensures col == ColumnAt(g, x)
    ensures col.perp > 0.0 && 0 <= col.drawStart && col.drawEnd <= g.screenH - 1
  {
    var rayDir := CameraRay(g.dirX, g.dirY, g.planeX, g.planeY, g.screenW, x);
    var ray, p := CastRay(g.world, g.posX, g.posY, rayDir.0, rayDir.1);
    var perpWallDist := PerpDist(g.posX, g.posY, rayDir.0, rayDir.1, ray, p);
    assert perpWallDist > 0.0;
    var span := Span(g.screenH, perpWallDist);
    var colour := Tint(BaseColour(g.wallColors, p.tileId, p.side), Shade(perpWallDist));
    col := Column(perpWallDist, span.0, span.1, colour);
  }

  /** renderFrame's wall pass: zBuf[x] gets the wall distance of column x. */
  method RenderFrame(g: Game)
    requires g.zBuf.Length == g.screenW
    modifies g.zBuf
    ensures forall x :: 0 <= x < g.screenW ==> g.zBuf[x] == ColumnAt(g, x).perp && g.zBuf[x] > 0.0
  {
    var x := 0;
    while x < g.screenW
      invariant 0 <= x <= g.screenW
      invariant forall k :: 0 <= k < x ==> g.zBuf[k] == ColumnAt(g, k).perp && g.zBuf[k] > 0.0
    {
      var col := CastColumn(g, x);
      g.zBuf[x] := col.perp;
      x := x + 1;
    }
  }
}
