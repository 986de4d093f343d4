/** game-core.js outside the renderer: the frame's time step, mouse look and
    turning, walking with wall sliding, crossing into a neighbouring tile
    (enter_neighbor and ensure_neighbors_visible) and start_new_run.
    Math.cos, Math.sin and Math.sqrt are parameters; the random draws the
    world generator and the spawner consume are passed in as sequences. */
module GameCore {
  import opened Common
  import opened Tiles
  import opened Projectiles
  import opened EnemyModel
  import opened State
  import opened WorldGeneration
  import opened EnemyRules
  import opened Enemies
  import opened Persistence

  // ---------------------------------------------------------------------------
  // Frame timing
  // ---------------------------------------------------------------------------

  /** The longest step a frame takes, in seconds. */
  const MAX_DT: real := 0.05
  /** The step taken when no time is measured between two frames. */
  const FALLBACK_DT: real := 0.016

  /** `Math.min(0.05, (now - loop.lastNow) / 1000 || 0.016)`: the frame's step
      in seconds from two millisecond clock readings. It never exceeds 0.05, is
      the elapsed time when that is positive and shorter, and is 0.016 when no
      time has passed. */
  function FrameDt(now: real, lastNow: real): (dt: real)
    ensures dt <= MAX_DT
    ensures now - lastNow >= 1000.0 * MAX_DT ==> dt == MAX_DT
    ensures 0.0 < now - lastNow <= 1000.0 * MAX_DT ==> dt == (now - lastNow) / 1000.0
    ensures now == lastNow ==> dt == FALLBACK_DT
    ensures now >= lastNow ==> dt > 0.0
  {
    var elapsed := (now - lastNow) / 1000.0;
    MinReal(MAX_DT, if elapsed != 0.0 then elapsed else FALLBACK_DT)
  }

  // ---------------------------------------------------------------------------
  // Looking and turning
  // ---------------------------------------------------------------------------

  /** Radians per unit of mouse-look delta, with a mouse and on a touch screen. */
  const DESKTOP_LOOK: real := 0.0025
  const MOBILE_LOOK: real := 0.005

  /** The turn one frame makes for the look delta gathered since the last one:
      none without a delta, otherwise in the delta's direction, at most 0.005
      radians per unit, and twice as much on a touch screen as with a mouse. */
  function LookAngle(delta: real, mobile: bool): (rot: real)
    ensures rot == 0.0 <==> delta == 0.0
    ensures (rot > 0.0 <==> delta > 0.0) && (rot < 0.0 <==> delta < 0.0)
    ensures -MOBILE_LOOK * AbsReal(delta) <= rot <= MOBILE_LOOK * AbsReal(delta)
    ensures mobile ==> rot == 2.0 * delta * DESKTOP_LOOK
  {
    delta * (if mobile then MOBILE_LOOK else DESKTOP_LOOK)
  }

  /** The view: where the player faces, and the camera plane across it. */
  datatype Camera = Camera(dirX: real, dirY: real, planeX: real, planeY: real)

  function CameraOf(g: Game): Camera
    reads g`dirX, g`dirY, g`planeX, g`planeY
  {
    Camera(g.dirX, g.dirY, g.planeX, g.planeY)
  }

  /** Facing and plane both rotated by the angle whose cosine and sine are
      (c, s), each from its components before the turn. */
  function Turned(cam: Camera, c: real, s: real): Camera
  {
    Camera(RotX(cam.dirX, cam.dirY, c, s), RotY(cam.dirX, cam.dirY, c, s),
           RotX(cam.planeX, cam.planeY, c, s), RotY(cam.planeX, cam.planeY, c, s))
  }

  /** The x and y components of (x, y) rotated by the angle whose cosine and
      sine are (c, s). */
  function RotX(x: real, y: real, c: real, s: real): real
  {
    x * c - y * s
  }

  function RotY(x: real, y: real, c: real, s: real): real
  {
    x * s + y * c
  }

  /** The squared lengths of the facing and the plane, their dot product and
      their cross product: together they fix the field of view. */
  function Shape(cam: Camera): (real, real, real, real)
  {
    (Dot(cam.dirX, cam.dirY, cam.dirX, cam.dirY),
     Dot(cam.planeX, cam.planeY, cam.planeX, cam.planeY),
     Dot(cam.dirX, cam.dirY, cam.planeX, cam.planeY),
     Cross(cam.dirX, cam.dirY, cam.planeX, cam.planeY))
  }

  /** The dot product of (x, y) and (u, v). */
  function Dot(x: real, y: real, u: real, v: real): real
  {
    x * u + y * v
  }

  /** The cross product of (x, y) and (u, v). */
  function Cross(x: real, y: real, u: real, v: real): real
  {
    x * v - y * u
  }

  /** Rotating (x, y) and (u, v) by the same rotation (c² + s² = 1) keeps
      their dot product and their cross product. */
  lemma RotatedProducts(x: real, y: real, u: real, v: real, c: real, s: real, x': real, y': real, u': real, v': real)
    requires c * c + s * s == 1.0
    requires x' == x * c - y * s && y' == x * s + y * c && u' == u * c - v * s && v' == u * s + v * c
    ensures Dot(x', y', u', v') == Dot(x, y, u, v)
    ensures Cross(x', y', u', v') == Cross(x, y, u, v)
  {
    assert Dot(x', y', u', v') == (x * c - y * s) * (u * c - v * s) + (x * s + y * c) * (u * s + v * c);
    assert (x * c - y * s) * (u * c - v * s) + (x * s + y * c) * (u * s + v * c) == (x * u + y * v) * (c * c + s * s);
    assert Cross(x', y', u', v') == (x * c - y * s) * (u * s + v * c) - (x * s + y * c) * (u * c - v * s);
    assert (x * c - y * s) * (u * s + v * c) - (x * s + y * c) * (u * c - v * s) == (x * v - y * u) * (c * c + s * s);
  }

  /** A turn by a true rotation (c² + s² = 1) keeps the field of view: the
      facing and the plane keep their lengths, stay at the same angle to each
      other and on the same side of each other. */
  lemma TurnKeepsShape(cam: Camera, c: real, s: real)
    requires c * c + s * s == 1.0
    ensures Shape(Turned(cam, c, s)) == Shape(cam)
  {
    RotatedShape(cam, Turned(cam, c, s), c, s);
  }

  /** The shape of a camera `t` whose facing and plane are those of `cam`
      rotated by (c, s). */
  lemma RotatedShape(cam: Camera, t: Camera, c: real, s: real)
    requires c * c + s * s == 1.0
    requires t.dirX == cam.dirX * c - cam.dirY * s && t.dirY == cam.dirX * s + cam.dirY * c
    requires t.planeX == cam.planeX * c - cam.planeY * s && t.planeY == cam.planeX * s + cam.planeY * c
    ensures Shape(t) == Shape(cam)
  {
    var x, y, u, v := cam.dirX, cam.dirY, cam.planeX, cam.planeY;
    RotatedProducts(x, y, x, y, c, s, t.dirX, t.dirY, t.dirX, t.dirY);
    RotatedProducts(u, v, u, v, c, s, t.planeX, t.planeY, t.planeX, t.planeY);
    RotatedProducts(x, y, u, v, c, s, t.dirX, t.dirY, t.planeX, t.planeY);
  }

  /** Two turns in a row are one turn by the sum of the angles, with the
      cosine and sine of the sum given by the addition formulas. */
  lemma TurnsCompose(cam: Camera, c1: real, s1: real, c2: real, s2: real)
    ensures Turned(Turned(cam, c1, s1), c2, s2) == Turned(cam, c1 * c2 - s1 * s2, s1 * c2 + c1 * s2)
  {
    RotatedTwice(cam.dirX, cam.dirY, c1, s1, c2, s2);
    RotatedTwice(cam.planeX, cam.planeY, c1, s1, c2, s2);
  }

  /** Rotating (x, y) twice is rotating it once by the sum of the angles. */
  lemma RotatedTwice(x: real, y: real, c1: real, s1: real, c2: real, s2: real)
    ensures RotX(RotX(x, y, c1, s1), RotY(x, y, c1, s1), c2, s2) == RotX(x, y, c1 * c2 - s1 * s2, s1 * c2 + c1 * s2)
    ensures RotY(RotX(x, y, c1, s1), RotY(x, y, c1, s1), c2, s2) == RotY(x, y, c1 * c2 - s1 * s2, s1 * c2 + c1 * s2)
  {
    assert (x * c1 - y * s1) * c2 - (x * s1 + y * c1) * s2 == x * (c1 * c2 - s1 * s2) - y * (s1 * c2 + c1 * s2);
    assert (x * c1 - y * s1) * s2 + (x * s1 + y * c1) * c2 == x * (s1 * c2 + c1 * s2) + y * (c1 * c2 - s1 * s2);
  }

  /** Turning by the opposite angle undoes a true rotation. */
  lemma TurnUndone(cam: Camera, c: real, s: real)
    requires c * c + s * s == 1.0
    ensures Turned(Turned(cam, c, s), c, -s) == cam
  {
    TurnsCompose(cam, c, s, c, -s);
    assert c * c - s * -s == 1.0 && s * c + c * -s == 0.0;
  }

  /** The rotation block of loop(): facing and plane turned by (c, s), each
      x component saved before it is overwritten. */
  method Turn(g: Game, c: real, s: real)
    modifies g`dirX, g`dirY, g`planeX, g`planeY
    ensures CameraOf(g) == Turned(old(CameraOf(g)), c, s)
  {
    var oldDirX := g.dirX;
    g.dirX := g.dirX * c - g.dirY * s;
    g.dirY := oldDirX * s + g.dirY * c;
    var oldPlaneX := g.planeX;
    g.planeX := g.planeX * c - g.planeY * s;
    g.planeY := oldPlaneX * s + g.planeY * c;
  }

  /** The look part of loop(): the gathered mouse-look delta becomes a turn
      (with the desktop or the touch-screen sensitivity) and is used up, and a
      non-zero turn rotates the facing and the plane. */
  method LookAndTurn(g: Game, mobile: bool, cos: real -> real, sin: real -> real)
    modifies g`mouseLookDelta, g`dirX, g`dirY, g`planeX, g`planeY
    ensures g.mouseLookDelta == 0.0
    ensures var rot := LookAngle(old(g.mouseLookDelta), mobile);
      CameraOf(g) == if rot != 0.0 then Turned(old(CameraOf(g)), cos(rot), sin(rot)) else old(CameraOf(g))
  {
    var rot := 0.0;
    if !mobile && g.mouseLookDelta != 0.0 {
      rot := rot + g.mouseLookDelta * DESKTOP_LOOK;
      g.mouseLookDelta := 0.0;
    }
    if mobile && g.mouseLookDelta != 0.0 {
      rot := rot + g.mouseLookDelta * MOBILE_LOOK;
      g.mouseLookDelta := 0.0;
    }
    assert rot == LookAngle(old(g.mouseLookDelta), mobile);
    if rot != 0.0 {
      Turn(g, cos(rot), sin(rot));
    }
  }

  // ---------------------------------------------------------------------------
  // Walking
  // ---------------------------------------------------------------------------

  /** MOVE_SPEED, in cells per second before loop()'s factor of 3. */
  const MOVE_SPEED: real := 3.2
  /** The joystick is ignored while both its components are within 0.1. */
  const JOY_DEAD_ZONE: real := 0.1

  /** `v` when the flag is set, nothing otherwise. */
  function When(b: bool, v: real): real
  {
    if b then v else 0.0
  }

  /** The keyboard's share of the move vector: W adds the facing, S takes it
      away, A adds it turned a quarter left (dirY, -dirX) and D a quarter right
      (-dirY, dirX); the flag says whether any of the four is held. */
  function KeyMove(keys: set<string>, dirX: real, dirY: real): (m: (real, real, bool))
  {
    var w, s, a, d := "KeyW" in keys, "KeyS" in keys, "KeyA" in keys, "KeyD" in keys;
    (When(w, dirX) - When(s, dirX) + When(a, dirY) - When(d, dirY),
     When(w, dirY) - When(s, dirY) - When(a, dirX) + When(d, dirX),
     w || s || a || d)
  }

  /** The joystick's share: outside the dead zone, the stick (x right, y down
      on screen) turned into the player's frame so that pushing it up walks
      forward, divided by the larger of 1 and its length. */
  function JoyMove(jx: real, jy: real, dirX: real, dirY: real, sqrt: real -> real): (m: (real, real, bool))
  {
    if AbsReal(jx) > JOY_DEAD_ZONE || AbsReal(jy) > JOY_DEAD_ZONE then
      var mag := MaxReal(1.0, sqrt(jx * jx + jy * jy));
      ((dirX * -jy + -dirY * jx) / mag, (dirY * -jy + dirX * jx) / mag, true)
    else (0.0, 0.0, false)
  }

  /** The move vector of loop() and whether the player is moving: the keys,
      plus on a touch screen the joystick. */
  function MoveVector(keys: set<string>, mobile: bool, jx: real, jy: real, dirX: real, dirY: real,
                      sqrt: real -> real): (real, real, bool)
  {
    var k := KeyMove(keys, dirX, dirY);
    var j := if mobile then JoyMove(jx, jy, dirX, dirY, sqrt) else (0.0, 0.0, false);
    (k.0 + j.0, k.1 + j.1, k.2 || j.2)
  }

  /** W alone walks along the facing. */
  lemma ForwardFollowsFacing(dirX: real, dirY: real)
    ensures KeyMove({"KeyW"}, dirX, dirY) == (dirX, dirY, true)
  {
  }

  /** A and D walk across the facing, in opposite directions. */
  lemma StrafeCrossesFacing(keys: set<string>, dirX: real, dirY: real)
    requires "KeyA" in keys && "KeyW" !in keys && "KeyS" !in keys && "KeyD" !in keys
    ensures var m := KeyMove(keys, dirX, dirY);
      m.0 * dirX + m.1 * dirY == 0.0 && m.2
    ensures var m := KeyMove(keys, dirX, dirY);
      var n := KeyMove(keys - {"KeyA"} + {"KeyD"}, dirX, dirY);
      n.0 == -m.0 && n.1 == -m.1
  {
  }

  /** Opposite keys cancel: with W and S held (and neither A nor D) the player
      counts as moving but the vector is zero. */
  lemma OppositeKeysCancel(keys: set<string>, dirX: real, dirY: real)
    requires "KeyW" in keys && "KeyS" in keys && "KeyA" !in keys && "KeyD" !in keys
    ensures KeyMove(keys, dirX, dirY) == (0.0, 0.0, true)
  {
  }

  /** Pushing the joystick straight up walks forward, faster the further it
      is pushed (up to its full length). */
  lemma JoystickUpWalksForward(jy: real, dirX: real, dirY: real, sqrt: real -> real)
    requires jy < -JOY_DEAD_ZONE
    ensures var m := JoyMove(0.0, jy, dirX, dirY, sqrt);
      m.2 && m.0 == (-jy / MaxReal(1.0, sqrt(jy * jy))) * dirX && m.1 == (-jy / MaxReal(1.0, sqrt(jy * jy))) * dirY
    ensures -jy / MaxReal(1.0, sqrt(jy * jy)) > 0.0
  {
    var mag := MaxReal(1.0, sqrt(0.0 * 0.0 + jy * jy));
    assert 0.0 * 0.0 + jy * jy == jy * jy;
    var k := -jy / mag;
    assert (dirX * -jy + -dirY * 0.0) / mag == k * dirX;
    assert (dirY * -jy + dirX * 0.0) / mag == k * dirY;
  }

  /** `MOVE_SPEED * dt * 3 * (window.MOVE_SPEED_MULTIPLIER || 1.0)`. */
  function StepLength(dt: real, multiplier: Option<real>): real
  {
    MOVE_SPEED * dt * 3.0 * OrOne(multiplier)
  }

  /** The point the player heads for: the move vector divided by the larger of
      1 and its length (so never longer than one), times the step length. */
  function Heading(posX: real, posY: real, mx: real, my: real, step: real, sqrt: real -> real): (real, real)
  {
    var mag := MaxReal(1.0, sqrt(mx * mx + my * my));
    (posX + (mx / mag) * step, posY + (my / mag) * step)
  }

  /** `sqrt` is the square root on the non-negative reals. */
  ghost predicate IsSqrt(sqrt: real -> real)
  {
    forall v :: v >= 0.0 ==> sqrt(v) >= 0.0 && sqrt(v) * sqrt(v) == v
  }

  /** u and v no larger than m multiply to no more than m². */
  lemma ProductAtMost(u: real, v: real, m: real)
    requires 0.0 <= u <= m && 0.0 <= v <= m
    ensures u * v <= m * m
  {
  }

  /** p q = r <= q with q positive leaves p at most 1. */
  lemma FactorAtMostOne(p: real, q: real, r: real)
    requires q > 0.0 && p * q == r && r <= q
    ensures p <= 1.0
  {
  }

  /** Dividing (x, y) by the larger of 1 and its length `root` leaves a
      vector no longer than one. */
  lemma NormalisedAtMostOne(x: real, y: real, root: real)
    requires root >= 0.0 && root * root == x * x + y * y
    ensures var mag := MaxReal(1.0, root);
      (x / mag) * (x / mag) + (y / mag) * (y / mag) <= 1.0
  {
    var mag := MaxReal(1.0, root);
    var u, v := x / mag, y / mag;
    assert u * mag == x && v * mag == y;
    assert (u * u + v * v) * (mag * mag) == x * x + y * y;
    ProductAtMost(root, root, mag);
    ProductAtMost(1.0, 1.0, mag);
    FactorAtMostOne(u * u + v * v, mag * mag, x * x + y * y);
  }

  /** (x1, y1) is no further than `step` from (x0, y0). */
  predicate WithinStep(x0: real, y0: real, x1: real, y1: real, step: real)
  {
    (x1 - x0) * (x1 - x0) + (y1 - y0) * (y1 - y0) <= step * step
  }

  /** Standing still is within any step. */
  lemma StillWithinStep(x: real, y: real, step: real)
    ensures WithinStep(x, y, x, y, step)
  {
    assert step * step >= 0.0;
  }

  /** The heading (nx, ny) is within one step of the player. */
  lemma HeadingWithinStep(posX: real, posY: real, mx: real, my: real, step: real, sqrt: real -> real, nx: real, ny: real)
    requires IsSqrt(sqrt)
    requires nx == Heading(posX, posY, mx, my, step, sqrt).0 && ny == Heading(posX, posY, mx, my, step, sqrt).1
    ensures WithinStep(posX, posY, nx, ny, step)
  {
    var root := sqrt(mx * mx + my * my);
    NormalisedAtMostOne(mx, my, root);
    var mag := MaxReal(1.0, root);
    var u, v := mx / mag, my / mag;
    assert nx - posX == u * step && ny - posY == v * step;
    assert (u * step) * (u * step) + (v * step) * (v * step) == (u * u + v * v) * (step * step);
    assert step * step >= 0.0;
  }

  /** A move that keeps or takes each coordinate of a target within one step
      ends within one step, as a wall slide does. */
  lemma AxisMovesWithinStep(x: real, y: real, nx: real, ny: real, px: real, py: real, step: real)
    requires WithinStep(x, y, nx, ny, step)
    requires (px == x || px == nx) && (py == y || py == ny)
    ensures WithinStep(x, y, px, py, step)
  {
    assert (nx - x) * (nx - x) >= 0.0 && (ny - y) * (ny - y) >= 0.0;
  }

  /** The move-vector part of loop(): W, S, A and D in turn, then on a touch
      screen the joystick's share once it is out of its dead zone. */
  method GatherMove(g: Game, mobile: bool, sqrt: real -> real) returns (moveX: real, moveY: real, isMoving: bool)
    ensures moveX == MoveVector(g.keys, mobile, g.joyX, g.joyY, g.dirX, g.dirY, sqrt).0
    ensures moveY == MoveVector(g.keys, mobile, g.joyX, g.joyY, g.dirX, g.dirY, sqrt).1
    ensures isMoving == MoveVector(g.keys, mobile, g.joyX, g.joyY, g.dirX, g.dirY, sqrt).2
  {
    var w, s, a, d := "KeyW" in g.keys, "KeyS" in g.keys, "KeyA" in g.keys, "KeyD" in g.keys;
    var dirX, dirY := g.dirX, g.dirY;
    moveX, moveY, isMoving := 0.0, 0.0, false;
    if w {
      moveX, moveY, isMoving := moveX + dirX, moveY + dirY, true;
    }
    assert moveX == When(w, dirX) && moveY == When(w, dirY);
    if s {
      moveX, moveY, isMoving := moveX - dirX, moveY - dirY, true;
    }
    assert moveX == When(w, dirX) - When(s, dirX) && moveY == When(w, dirY) - When(s, dirY);
    if a {
      moveX, moveY, isMoving := moveX + dirY, moveY + -dirX, true;
    }
    assert moveX == When(w, dirX) - When(s, dirX) + When(a, dirY);
    assert moveY == When(w, dirY) - When(s, dirY) - When(a, dirX);
    if d {
      moveX, moveY, isMoving := moveX + -dirY, moveY + dirX, true;
    }
    ghost var k := KeyMove(g.keys, dirX, dirY);
    assert moveX == k.0 && moveY == k.1 && isMoving == k.2;
    if mobile {
      var joy := JoyMove(g.joyX, g.joyY, g.dirX, g.dirY, sqrt);
      if joy.2 {
        moveX, moveY, isMoving := moveX + joy.0, moveY + joy.1, true;
      } else {
        assert joy.0 == 0.0 && joy.1 == 0.0;
      }
    }
  }

  /** The commit of loop()'s walk toward (nx, ny): the x move is kept only when
      (nx, posY) is open, then the y move only when (posX, ny) is. */
  method SlideTo(g: Game, nx: real, ny: real)
    modifies g`posX, g`posY
    ensures g.posX == Slide(g.world, old(g.posX), old(g.posY), nx, ny).0
    ensures g.posY == Slide(g.world, old(g.posX), old(g.posY), nx, ny).1
    ensures CanMove(g.world, old(g.posX), old(g.posY)) ==> CanMove(g.world, g.posX, g.posY)
  {
    if CanMove(g.world, nx, g.posY) {
      g.posX := nx;
    }
    if CanMove(g.world, g.posX, ny) {
      g.posY := ny;
    }
    if CanMove(g.world, old(g.posX), old(g.posY)) {
      SlideStaysOpen(g.world, old(g.posX), old(g.posY), nx, ny);
    }
  }

  /** The walking part of loop(): when a movement key is held or the joystick
      is out of its dead zone, the player slides toward the heading, the x
      move kept only when (nx, posY) is open and then the y move only when
      (posX, ny) is. The player never walks onto a wall cell from an open one,
      and never further than one step. */
  method Walk(g: Game, dt: real, mobile: bool, sqrt: real -> real)
    modifies g`posX, g`posY
    ensures var m := MoveVector(g.keys, mobile, g.joyX, g.joyY, g.dirX, g.dirY, sqrt);
      var h := Heading(old(g.posX), old(g.posY), m.0, m.1, StepLength(dt, g.moveSpeedMultiplier), sqrt);
      g.posX == (if m.2 then Slide(g.world, old(g.posX), old(g.posY), h.0, h.1).0 else old(g.posX)) &&
      g.posY == (if m.2 then Slide(g.world, old(g.posX), old(g.posY), h.0, h.1).1 else old(g.posY))
    ensures CanMove(g.world, old(g.posX), old(g.posY)) ==> CanMove(g.world, g.posX, g.posY)
    ensures IsSqrt(sqrt) ==> WithinStep(old(g.posX), old(g.posY), g.posX, g.posY, StepLength(dt, g.moveSpeedMultiplier))
  {
    var move := StepLength(dt, g.moveSpeedMultiplier);
    var moveX, moveY, isMoving := GatherMove(g, mobile, sqrt);
    if isMoving {
      var h := Heading(g.posX, g.posY, moveX, moveY, move, sqrt);
      var nx, ny := h.0, h.1;
      if IsSqrt(sqrt) {
        HeadingWithinStep(g.posX, g.posY, moveX, moveY, move, sqrt, nx, ny);
      }
      SlideTo(g, nx, ny);
      if IsSqrt(sqrt) {
        AxisMovesWithinStep(old(g.posX), old(g.posY), nx, ny, g.posX, g.posY, move);
      }
    } else {
      StillWithinStep(g.posX, g.posY, move);
    }
  }

  // ---------------------------------------------------------------------------
  // Crossing into a neighbouring tile: enter_neighbor and ensure_neighbors_visible
  // ---------------------------------------------------------------------------

  /** What every rebuild leaves: the current tile at the centre slot (1, 1), the
      previous tile positioned elsewhere, and each neighbour of the current
      tile positioned at the slot of its side. */
  predicate LaidOut(g: Game)
    reads g`currentTile, g`prevTile, g`tilePositions, g`tiles, g`enemies, g`wallColors, g`wallIdCounter
  {
    g.TileRefsOk() && g.ColoursOk() &&
    g.currentTile.Some? &&
    g.currentTile.value in g.tilePositions && g.tilePositions[g.currentTile.value] == GridOrigin(1, 1) &&
    (g.prevTile.Some? ==> g.prevTile.value != g.currentTile.value && g.prevTile.value in g.tilePositions) &&
    forall d :: d in g.tiles[g.currentTile.value].neighbors ==>
      g.tiles[g.currentTile.value].neighbors[d] != g.currentTile.value &&
      g.tiles[g.currentTile.value].neighbors[d] in g.tilePositions &&
      g.tilePositions[g.tiles[g.currentTile.value].neighbors[d]] == SlotOrigin(d)
  }

  /** The tile enter_neighbor walks into through side `direction`: the previous
      tile when that side is the one behind the current tile, otherwise the
      neighbour on that side, if any. */
  function NextTile(g: Game, direction: Dir): (r: Option<TileId>)
    reads g`currentTile, g`prevTile, g`tilePositions, g`tiles, g`enemies, g`wallColors, g`wallIdCounter
    requires LaidOut(g)
    ensures r.Some? ==> r.value < |g.tiles| && r.value in g.tilePositions && r.value != g.currentTile.value
    ensures BackSideOfCurrent(g) != Some(direction) ==>
      (r.Some? <==> direction in g.tiles[g.currentTile.value].neighbors)
    ensures r.Some? && BackSideOfCurrent(g) != Some(direction) ==>
      g.tilePositions[r.value] == SlotOrigin(direction)
  {
    if BackSideOfCurrent(g) == Some(direction) && g.prevTile.Some? then g.prevTile
    else if direction in g.tiles[g.currentTile.value].neighbors then Some(g.tiles[g.currentTile.value].neighbors[direction])
    else None
  }

  /** A shot carried along when the world is laid out again: its position
      moves as the entered tile's origin did, from `from` to `to`. */
  function ShiftedShot(s: Shot, from: Origin, to: Origin): Shot
  {
    s.(x := s.x - from.ox as real + to.ox as real, y := s.y - from.oy as real + to.oy as real)
  }

  function ShiftedShots(ss: seq<Shot>, from: Origin, to: Origin): seq<Shot>
  {
    seq(|ss|, k requires 0 <= k < |ss| => ShiftedShot(ss[k], from, to))
  }

  /** A shifted shot keeps its place relative to a player shifted alike, its
      velocity and its age. */
  lemma ShiftKeepsOffsets(ss: seq<Shot>, from: Origin, to: Origin, px: real, py: real, k: nat)
    requires k < |ss|
    ensures |ShiftedShots(ss, from, to)| == |ss|
    ensures var s := ShiftedShots(ss, from, to)[k];
      s.x - (px - from.ox as real + to.ox as real) == ss[k].x - px &&
      s.y - (py - from.oy as real + to.oy as real) == ss[k].y - py &&
      s.vx == ss[k].vx && s.vy == ss[k].vy && s.t == ss[k].t
  {
  }

  /** Shifting back undoes a shift. */
  lemma ShiftUndone(ss: seq<Shot>, from: Origin, to: Origin)
    ensures ShiftedShots(ShiftedShots(ss, from, to), to, from) == ss
  {
    var back := ShiftedShots(ShiftedShots(ss, from, to), to, from);
    assert forall k :: 0 <= k < |ss| ==> back[k] == ss[k];
  }

  /** The loop of enter_neighbor over `shots`, moving each shot as the entered
      tile's origin moved. */
  method ShiftShots(g: Game, from: Origin, to: Origin)
    modifies g`shots
    ensures g.shots == ShiftedShots(old(g.shots), from, to)
  {
    var i := 0;
    while i < |g.shots|
      invariant 0 <= i <= |g.shots| == |old(g.shots)|
      invariant forall k :: 0 <= k < i ==> g.shots[k] == ShiftedShot(old(g.shots)[k], from, to)
      invariant forall k :: i <= k < |g.shots| ==> g.shots[k] == old(g.shots)[k]
    {
      g.shots := g.shots[i := ShiftedShot(g.shots[i], from, to)];
      i := i + 1;
    }
  }

  /** Tiles that keep the active and spawned flags of `ts0`, followed by fresh
      tiles that are neither, keep the ledger of rooms. */
  lemma FlagsKeepLedger(ts0: seq<Tile>, ts: seq<Tile>, rc: int)
    requires LedgerOf(ts0, rc) && |ts| >= |ts0|
    requires forall i :: 0 <= i < |ts0| ==>
      ts[i].hasActiveEnemies == ts0[i].hasActiveEnemies && ts[i].spawned == ts0[i].spawned
    requires forall i :: |ts0| <= i < |ts| ==> !ts[i].hasActiveEnemies && !ts[i].spawned
    ensures LedgerOf(ts, rc)
  {
    var n := |ts0|;
    var active := (t: Tile) => t.hasActiveEnemies;
    var spawned := (t: Tile) => t.spawned;
    assert ts == ts[..n] + ts[n..];
    CountAppend(ts[..n], ts[n..], active);
    CountAppend(ts[..n], ts[n..], spawned);
    CountZero(ts[n..], active);
    CountPointwise(ts0, ts[..n], active);
    CountPointwise(ts[..n], ts0, active);
    CountPointwise(ts0, ts[..n], spawned);
    CountPointwise(ts[..n], ts0, spawned);
  }

  /** rebuild_world seen from the layout: where the tiles are put, which are
      sealed, and which tiles change; the cells of the new world are left out. */
  method Relayout(g: Game, center: TileId, prev: Option<TileId>, back: Option<Dir>)
    requires g.TileRefsOk() && center < |g.tiles| && (prev.Some? ==> prev.value < |g.tiles|)
    modifies g`world, g`tilePositions, g`blockingWalls, g`tiles
    ensures fresh(g.world) && g.TileRefsOk()
    ensures g.tilePositions == PositionsOf(Placements(center, old(g.tiles[center]), prev, back))
    ensures |g.tiles| == old(|g.tiles|)
    ensures forall t :: 0 <= t < |g.tiles| ==>
      g.tiles[t] == if t in g.tilePositions && Seals(old(g.tiles), t) then Sealed(old(g.tiles[t])) else old(g.tiles[t])
    ensures forall t :: t in g.blockingWalls <==> t in g.tilePositions && Seals(old(g.tiles), t)
  {
    RebuildWorld(g, center, prev, back);
  }

  /** generate_neighbors_for_center and rebuild_world for the tile entered,
      `back` being the side it is entered from and the previous tile already
      recorded: the tile lands at slot (1, 1), the previous tile at the slot on
      side `back`, and each fresh neighbour at the slot of its side. */
  method RebuildAround(g: Game, next: TileId, back: Dir, draws: seq<TileDraw>)
    requires |draws| == 4 && g.TileRefsOk() && g.ColoursOk() && next < |g.tiles|
    requires g.prevTile.Some? && g.prevTile.value != next
    modifies g`tiles, g`wallIdCounter, g`wallColors, g`world, g`tilePositions, g`blockingWalls
    ensures fresh(g.world)
    ensures g.TileRefsOk() && g.ColoursOk()
    ensures next in g.tilePositions && g.tilePositions[next] == GridOrigin(1, 1)
    ensures g.prevTile.value in g.tilePositions && g.tilePositions[g.prevTile.value] == SlotOrigin(back)
    ensures forall d :: d in g.tiles[next].neighbors ==>
      g.tiles[next].neighbors[d] != next && g.tiles[next].neighbors[d] in g.tilePositions &&
      g.tilePositions[g.tiles[next].neighbors[d]] == SlotOrigin(d)
    ensures forall d: Dir :: d in g.tiles[next].neighbors <==> d in old(g.tiles[next].openSides) && d != back
    ensures |g.tiles| >= old(|g.tiles|)
    ensures forall i :: 0 <= i < old(|g.tiles|) ==>
      g.tiles[i].hasActiveEnemies == old(g.tiles[i].hasActiveEnemies) && g.tiles[i].spawned == old(g.tiles[i].spawned)
    ensures forall i :: old(|g.tiles|) <= i < |g.tiles| ==> !g.tiles[i].hasActiveEnemies && !g.tiles[i].spawned
  {
    FreshNeighbours(g, next, Some(back), draws);
    ghost var ts1 := g.tiles;
    Relayout(g, next, g.prevTile, Some(back));
    LayoutPositions(next, ts1[next], g.prevTile, Some(back));
    assert g.tiles[next].neighbors == ts1[next].neighbors;
  }

  /** generate_neighbors_for_center seen from the layout: which sides get a
      neighbour, that the neighbours are new and distinct tiles, and which
      tiles have been spawned. */
  method FreshNeighbours(g: Game, next: TileId, back: Option<Dir>, draws: seq<TileDraw>)
    requires |draws| == 4 && g.TileRefsOk() && g.ColoursOk() && next < |g.tiles|
    modifies g`tiles, g`wallIdCounter, g`wallColors
    ensures g.TileRefsOk() && g.ColoursOk() && |g.tiles| >= old(|g.tiles|)
    ensures g.tiles[next] == old(g.tiles[next]).(neighbors := g.tiles[next].neighbors)
    ensures forall d: Dir :: d in g.tiles[next].neighbors <==> d in old(g.tiles[next].openSides) && back != Some(d)
    ensures forall d :: d in g.tiles[next].neighbors ==> old(|g.tiles|) <= g.tiles[next].neighbors[d] < |g.tiles|
    ensures forall d, e :: d in g.tiles[next].neighbors && e in g.tiles[next].neighbors && d != e ==>
      g.tiles[next].neighbors[d] != g.tiles[next].neighbors[e]
    ensures forall i :: 0 <= i < old(|g.tiles|) ==>
      g.tiles[i].hasActiveEnemies == old(g.tiles[i].hasActiveEnemies) && g.tiles[i].spawned == old(g.tiles[i].spawned)
    ensures forall i :: old(|g.tiles|) <= i < |g.tiles| ==> !g.tiles[i].hasActiveEnemies && !g.tiles[i].spawned
  {
    GenerateNeighborsForCenter(g, next, back, draws);
  }

  /** `prev_tile = old_center` of enter_neighbor. */
  method MakePrevious(g: Game)
    requires g.TileRefsOk()
    modifies g`prevTile
    ensures g.prevTile == g.currentTile && g.TileRefsOk()
  {
    g.prevTile := g.currentTile;
  }

  /** `current_tile = next_tile` of enter_neighbor. */
  method MakeCurrent(g: Game, next: TileId)
    requires g.TileRefsOk() && next < |g.tiles|
    modifies g`currentTile
    ensures g.currentTile == Some(next) && g.TileRefsOk()
  {
    g.currentTile := Some(next);
  }

  /** The part of enter_neighbor after the despawn: the old centre becomes the
      previous tile, the tile entered gets fresh neighbours on every open side
      but the one it is entered from, the world is rebuilt around it, and the
      player and every shot move by as much as that tile's origin did. */
  method Recentre(g: Game, direction: Dir, next: TileId, draws: seq<TileDraw>)
    requires |draws| == 4 && g.TileRefsOk() && g.ColoursOk()
    requires g.currentTile.Some? && next < |g.tiles| && next != g.currentTile.value && next in g.tilePositions
    modifies g`prevTile, g`currentTile, g`tiles, g`wallIdCounter, g`wallColors, g`world, g`tilePositions,
             g`blockingWalls, g`posX, g`posY, g`shots
    ensures g.prevTile == old(g.currentTile) && g.currentTile == Some(next) && fresh(g.world)
    ensures LaidOut(g) && BackSideOfCurrent(g) == Some(Opposite(direction))
    ensures g.posX - g.tilePositions[next].ox as real == old(g.posX - g.tilePositions[next].ox as real)
    ensures g.posY - g.tilePositions[next].oy as real == old(g.posY - g.tilePositions[next].oy as real)
    ensures g.shots == ShiftedShots(old(g.shots), old(g.tilePositions[next]), g.tilePositions[next])
    ensures |g.tiles| >= old(|g.tiles|)
    ensures forall i :: 0 <= i < old(|g.tiles|) ==>
      g.tiles[i].hasActiveEnemies == old(g.tiles[i].hasActiveEnemies) && g.tiles[i].spawned == old(g.tiles[i].spawned)
    ensures forall i :: old(|g.tiles|) <= i < |g.tiles| ==> !g.tiles[i].hasActiveEnemies && !g.tiles[i].spawned
    ensures forall d: Dir :: d in g.tiles[next].neighbors <==> d in old(g.tiles[next].openSides) && d != Opposite(direction)
  {
    var from := g.tilePositions[next];
    var back := Opposite(direction);
    MakePrevious(g);
    RebuildAround(g, next, back, draws);
    var to := g.tilePositions[next];
    g.posX := g.posX - from.ox as real + to.ox as real;
    g.posY := g.posY - from.oy as real + to.oy as real;
    ShiftShots(g, from, to);
    MakeCurrent(g, next);
    BackSideFindsPrevSlot(next, g.prevTile, g.tilePositions, back);
  }

  /** enter_neighbor once the tile entered is known, up to the spawn: the
      enemies still alive in the current tile are despawned, then the world is
      recentred on the tile entered. */
  method CrossInto(g: Game, direction: Dir, next: TileId, draws: seq<TileDraw>)
    requires LaidOut(g) && |draws| == 4
    requires next < |g.tiles| && next in g.tilePositions && next != g.currentTile.value
    modifies g`enemies, g`credits, g`kills, g`clears, g.world, g`tiles, g`blockingWalls, g`roomsCleared,
             g`prevTile, g`currentTile, g`wallIdCounter, g`wallColors, g`world, g`tilePositions,
             g`posX, g`posY, g`shots
    ensures g.prevTile == old(g.currentTile) && g.currentTile == Some(next) && fresh(g.world)
    ensures LaidOut(g) && BackSideOfCurrent(g) == Some(Opposite(direction))
    ensures g.posX - g.tilePositions[next].ox as real == old(g.posX - g.tilePositions[next].ox as real)
    ensures g.posY - g.tilePositions[next].oy as real == old(g.posY - g.tilePositions[next].oy as real)
    ensures g.shots == ShiftedShots(old(g.shots), old(g.tilePositions[next]), g.tilePositions[next])
    ensures g.kills == old(g.kills) && g.credits == old(g.credits)
    ensures old(g.roomsCleared) <= g.roomsCleared <= old(g.roomsCleared) + 1
    ensures !g.tiles[old(g.currentTile.value)].hasActiveEnemies
    ensures forall k :: 0 <= k < |g.enemies| ==> g.enemies[k].tile != old(g.currentTile.value)
    ensures forall d: Dir :: d in g.tiles[next].neighbors <==> d in old(g.tiles[next].openSides) && d != Opposite(direction)
    ensures old(Ledger(g)) ==> Ledger(g)
  {
    var cur := g.currentTile.value;
    DespawnEnemiesInTile(g, cur);
    ghost var ts1 := g.tiles;
    Recentre(g, direction, next, draws);
    if old(Ledger(g)) {
      FlagsKeepLedger(ts1, g.tiles, g.roomsCleared);
    }
  }

  /** The last step of enter_neighbor: maybeSpawnEnemiesFor on the tile just
      entered. It keeps the layout and the ledger, and adds only enemies of
      that tile. */
  method SpawnArrival(g: Game, countRoll: real, spawnDraws: seq<SpawnDraw>, now: real)
    requires LaidOut(g) && g.roomsCleared >= 0 && IsRandom(countRoll)
    requires |spawnDraws| >= EnemyCountBracket(g.roomsCleared).1
    requires forall k :: 0 <= k < |spawnDraws| ==> SpawnDrawOk(spawnDraws[k])
    modifies g`enemies, g.world, g`blockingWalls, g`tiles
    ensures LaidOut(g)
    ensures |g.tiles| == old(|g.tiles|)
    ensures forall i :: 0 <= i < |g.tiles| && i != g.currentTile.value ==> g.tiles[i] == old(g.tiles[i])
    ensures g.tiles[g.currentTile.value].neighbors == old(g.tiles[g.currentTile.value].neighbors)
    ensures |g.enemies| >= |old(g.enemies)| && g.enemies[..|old(g.enemies)|] == old(g.enemies)
    ensures forall k :: |old(g.enemies)| <= k < |g.enemies| ==> g.enemies[k].tile == g.currentTile.value
    ensures old(Ledger(g)) ==> Ledger(g)
  {
    var next := g.currentTile.value;
    MaybeSpawnEnemiesFor(g, next, countRoll, spawnDraws, now);
  }

  /** enter_neighbor(direction): when there is a tile that way, the enemies
      still alive in the current tile are despawned, the current tile becomes
      the previous one, the world is rebuilt around the tile entered with the
      player and the shots carried along, and that tile's room is spawned.
      Leaving a room leaves none of its enemies behind and it no longer counts
      as active; the player keeps their place within the tile entered. */
  method EnterNeighbor(g: Game, direction: Dir, draws: seq<TileDraw>, countRoll: real,
                       spawnDraws: seq<SpawnDraw>, now: real)
    requires LaidOut(g) && |draws| == 4
    requires g.roomsCleared >= 0 && IsRandom(countRoll)
    requires |spawnDraws| >= EnemyCountBracket(g.roomsCleared + 1).1
    requires forall k :: 0 <= k < |spawnDraws| ==> SpawnDrawOk(spawnDraws[k])
    modifies g`enemies, g`credits, g`kills, g`clears, g.world, g`tiles, g`blockingWalls, g`roomsCleared,
             g`prevTile, g`currentTile, g`wallIdCounter, g`wallColors, g`world, g`tilePositions,
             g`posX, g`posY, g`shots
    ensures old(NextTile(g, direction)).None? ==> unchanged(g) && unchanged(g.world)
    ensures old(NextTile(g, direction)).Some? ==>
      var next := old(NextTile(g, direction)).value;
      var left := old(g.currentTile.value);
      g.prevTile == Some(left) && g.currentTile == Some(next) &&
      LaidOut(g) && BackSideOfCurrent(g) == Some(Opposite(direction)) &&
      g.posX - g.tilePositions[next].ox as real == old(g.posX - g.tilePositions[next].ox as real) &&
      g.posY - g.tilePositions[next].oy as real == old(g.posY - g.tilePositions[next].oy as real) &&
      g.shots == ShiftedShots(old(g.shots), old(g.tilePositions[next]), g.tilePositions[next]) &&
      g.kills == old(g.kills) && g.credits == old(g.credits) &&
      !g.tiles[left].hasActiveEnemies &&
      (forall k :: 0 <= k < |g.enemies| ==> g.enemies[k].tile != left) &&
      (forall d: Dir :: d in g.tiles[next].neighbors <==> d in old(g.tiles[next].openSides) && d != Opposite(direction))
    ensures old(Ledger(g)) ==> Ledger(g)
  {
    var backDir := BackSideOfCurrent(g);
    var cur := g.currentTile.value;
    var next: TileId;
    if backDir == Some(direction) && g.prevTile.Some? {
      next := g.prevTile.value;
    } else {
      if direction !in g.tiles[cur].neighbors {
        return;
      }
      next := g.tiles[cur].neighbors[direction];
    }
    assert NextTile(g, direction) == Some(next);
    Arrive(g, direction, next, draws, countRoll, spawnDraws, now);
  }

  /** enter_neighbor once the tile entered, `next`, is known: the crossing,
      then the spawn in the room entered. */
  method Arrive(g: Game, direction: Dir, next: TileId, draws: seq<TileDraw>, countRoll: real,
                spawnDraws: seq<SpawnDraw>, now: real)
    requires LaidOut(g) && |draws| == 4
    requires next < |g.tiles| && next in g.tilePositions && next != g.currentTile.value
    requires g.roomsCleared >= 0 && IsRandom(countRoll)
    requires |spawnDraws| >= EnemyCountBracket(g.roomsCleared + 1).1
    requires forall k :: 0 <= k < |spawnDraws| ==> SpawnDrawOk(spawnDraws[k])
    modifies g`enemies, g`credits, g`kills, g`clears, g.world, g`tiles, g`blockingWalls, g`roomsCleared,
             g`prevTile, g`currentTile, g`wallIdCounter, g`wallColors, g`world, g`tilePositions,
             g`posX, g`posY, g`shots
    ensures g.prevTile == old(g.currentTile) && g.currentTile == Some(next)
    ensures LaidOut(g) && BackSideOfCurrent(g) == Some(Opposite(direction))
    ensures g.posX - g.tilePositions[next].ox as real == old(g.posX - g.tilePositions[next].ox as real)
    ensures g.posY - g.tilePositions[next].oy as real == old(g.posY - g.tilePositions[next].oy as real)
    ensures g.shots == ShiftedShots(old(g.shots), old(g.tilePositions[next]), g.tilePositions[next])
    ensures g.kills == old(g.kills) && g.credits == old(g.credits)
    ensures !g.tiles[old(g.currentTile.value)].hasActiveEnemies
    ensures forall k :: 0 <= k < |g.enemies| ==> g.enemies[k].tile != old(g.currentTile.value)
    ensures forall d: Dir :: d in g.tiles[next].neighbors <==> d in old(g.tiles[next].openSides) && d != Opposite(direction)
    ensures old(Ledger(g)) ==> Ledger(g)
  {
    var cur := g.currentTile.value;
    ghost var rc0 := g.roomsCleared;
    CrossInto(g, direction, next, draws);
    EnemyCountMinMonotone(g.roomsCleared, rc0 + 1);
    ghost var es1 := g.enemies;
    SpawnArrival(g, countRoll, spawnDraws, now);
    forall k | 0 <= k < |g.enemies|
      ensures g.enemies[k].tile != cur
    {
      if k < |es1| {
        assert g.enemies[k] == g.enemies[..|es1|][k];
      }
    }
  }

  /** ensure_neighbors_visible: when which_tile_contains finds the player in
      another tile's square, on a side of the current tile, that tile is
      entered. The side crossed, if any, is returned; the current tile only
      ever changes across a side whose exit is not blocked. */
  method EnsureNeighborsVisible(g: Game, draws: seq<TileDraw>, countRoll: real,
                                spawnDraws: seq<SpawnDraw>, now: real) returns (ghost crossed: Option<Dir>)
    requires LaidOut(g) && |draws| == 4
    requires g.roomsCleared >= 0 && IsRandom(countRoll)
    requires |spawnDraws| >= EnemyCountBracket(g.roomsCleared + 1).1
    requires forall k :: 0 <= k < |spawnDraws| ==> SpawnDrawOk(spawnDraws[k])
    modifies g`enemies, g`credits, g`kills, g`clears, g.world, g`tiles, g`blockingWalls, g`roomsCleared,
             g`prevTile, g`currentTile, g`wallIdCounter, g`wallColors, g`world, g`tilePositions,
             g`posX, g`posY, g`shots
    ensures LaidOut(g)
    ensures crossed.None? ==> unchanged(g) && unchanged(g.world)
    ensures crossed.Some? ==> crossed.value !in old(g.tiles[g.currentTile.value].exitBlocks)
    ensures g.currentTile != old(g.currentTile) ==>
      crossed.Some? && g.currentTile == old(NextTile(g, crossed.value)) && g.prevTile == old(g.currentTile)
    ensures old(Ledger(g)) ==> Ledger(g)
  {
    var r := WhichTileContains(g.tilePositions, g.currentTile.value, g.tiles[g.currentTile.value], g.posX, g.posY);
    crossed := None;
    if r.0.Some? && r.0.value != g.currentTile.value && r.1.Some? {
      ReportedSideOpen(g.tilePositions, g.currentTile.value, g.tiles[g.currentTile.value], g.posX, g.posY, r);
      crossed := r.1;
      EnterNeighbor(g, r.1.value, draws, countRoll, spawnDraws, now);
    }
  }

  // ---------------------------------------------------------------------------
  // A fresh run: start_new_run
  // ---------------------------------------------------------------------------

  /** The start room of start_new_run: a tile generated with its entry on the
      west side, made the current tile and turned into the start room, with
      doors north, east and south only (no rear door), no pillars, and marked
      spawned so that it never gets enemies. */
  method MakeStartRoom(g: Game, startDraw: TileDraw) returns (c: TileId)
    requires g.TileRefsOk() && g.ColoursOk()
    modifies g`tiles, g`wallIdCounter, g`wallColors, g`currentTile
    ensures c == old(|g.tiles|) && |g.tiles| == c + 1 && g.tiles[..c] == old(g.tiles) && g.currentTile == Some(c)
    ensures g.tiles[c].kind == StartRoom && g.tiles[c].openSides == {0, 1, 2} && g.tiles[c].isStart
    ensures g.tiles[c].variety == None && g.tiles[c].spawned && !g.tiles[c].hasActiveEnemies
    ensures g.tiles[c].neighbors == map[] && g.tiles[c].exitBlocks == {}
    ensures g.TileRefsOk() && g.ColoursOk()
    ensures old(Ledger(g)) ==> Ledger(g)
  {
    c := GenerateTile(g, 3, startDraw);
    ghost var ts1 := g.tiles;
    g.currentTile := Some(c);
    var t := g.tiles[c];
    g.tiles := g.tiles[c := t.(kind := StartRoom, openSides := {1, 0, 2}, isStart := true, variety := None, spawned := true)];
    if old(Ledger(g)) {
      FlagsKeepLedger(old(g.tiles), ts1, g.roomsCleared);
      SpawnedKeepsLedger(ts1, g.roomsCleared, c, g.tiles);
    }
  }

  /** The world start_new_run lays out around the start room `c`, which has
      no previous tile: the room at slot (1, 1) and its neighbours at their
      sides' slots, nothing else positioned and nothing sealed. */
  method RebuildStart(g: Game, c: TileId)
    requires g.TileRefsOk() && g.ColoursOk() && g.currentTile == Some(c) && g.prevTile == None
    requires !g.tiles[c].hasActiveEnemies
    requires forall d :: d in g.tiles[c].neighbors ==>
      g.tiles[c].neighbors[d] != c && !g.tiles[g.tiles[c].neighbors[d]].hasActiveEnemies
    requires forall d, e :: d in g.tiles[c].neighbors && e in g.tiles[c].neighbors && d != e ==>
      g.tiles[c].neighbors[d] != g.tiles[c].neighbors[e]
    modifies g`world, g`tilePositions, g`blockingWalls, g`tiles
    ensures LaidOut(g) && g.blockingWalls == map[] && g.tiles == old(g.tiles)
    ensures forall t :: t in g.tilePositions <==> t == c || t in g.tiles[c].neighbors.Values
  {
    ghost var ts1 := g.tiles;
    Relayout(g, c, None, None);
    LayoutPositions(c, ts1[c], None, None);
    forall t | t in g.tilePositions
      ensures !Seals(ts1, t)
    {
    }
    assert g.tiles == ts1;
    forall t
      ensures t in g.tilePositions <==> t == c || t in g.tiles[c].neighbors.Values
    {
      if t in g.tiles[c].neighbors.Values {
        var d :| d in ts1[c].neighbors && ts1[c].neighbors[d] == t;
      }
    }
  }

  /** The rest of start_new_run's layout: neighbours for the start room on
      every open side (its west side, the back, has no door), no previous
      tile, and the world rebuilt around it, which seals nothing. */
  method LayOutStart(g: Game, c: TileId, draws: seq<TileDraw>)
    requires |draws| == 4 && g.TileRefsOk() && g.ColoursOk()
    requires g.currentTile == Some(c) && !g.tiles[c].hasActiveEnemies
    modifies g`tiles, g`wallIdCounter, g`wallColors, g`prevTile, g`world, g`tilePositions, g`blockingWalls
    ensures LaidOut(g) && g.prevTile == None && g.blockingWalls == map[]
    ensures g.tiles[c] == old(g.tiles[c]).(neighbors := g.tiles[c].neighbors)
    ensures forall d: Dir :: d in g.tiles[c].neighbors <==> d in old(g.tiles[c].openSides) && d != 3
    ensures forall t :: t in g.tilePositions <==> t == c || t in g.tiles[c].neighbors.Values
    ensures old(Ledger(g)) ==> Ledger(g)
  {
    FreshNeighbours(g, c, Some(3), draws);
    g.prevTile := None;
    if old(Ledger(g)) {
      FlagsKeepLedger(old(g.tiles), g.tiles, g.roomsCleared);
    }
    RebuildStart(g, c);
  }

  /** How start_new_run leaves the map: the current tile is the start room,
      newly made, with neighbours on its three doors and no previous tile;
      only it and those neighbours are positioned, and nothing is sealed. */
  ghost predicate StartWorld(g: Game, c: TileId)
    reads g`currentTile, g`prevTile, g`tilePositions, g`tiles, g`enemies, g`wallColors, g`wallIdCounter,
          g`blockingWalls
  {
    LaidOut(g) && g.currentTile == Some(c) && g.prevTile == None && g.blockingWalls == map[] &&
    g.tiles[c].kind == StartRoom && g.tiles[c].isStart && g.tiles[c].spawned && g.tiles[c].variety == None &&
    !g.tiles[c].hasActiveEnemies && g.tiles[c].openSides == {0, 1, 2} &&
    (forall d: Dir :: d in g.tiles[c].neighbors <==> d != 3) &&
    (forall t :: t in g.tilePositions <==> t == c || t in g.tiles[c].neighbors.Values)
  }

  /** How start_new_run leaves the map and the player: the world of
      StartWorld, and the player standing in the middle of the start room
      facing east. */
  ghost predicate AtStart(g: Game, c: TileId)
    reads g
  {
    StartWorld(g, c) &&
    InsideTile(g.tilePositions[c], g.posX, g.posY) &&
    g.posX - g.tilePositions[c].ox as real == TILE as real / 2.0 &&
    g.posY - g.tilePositions[c].oy as real == TILE as real / 2.0 &&
    CameraOf(g) == Camera(1.0, 0.0, 0.0, 0.66)
  }

  /** The resets of start_new_run: the run's counters, the lives (twice, as
      the source does), the enemies, both shot lists, the game-over countdown
      and the exit blocks; the credits are kept. */
  method ResetRun(g: Game)
    modifies g`kills, g`roomsCleared, g`playerLives, g`clears, g`maxDifficulty, g`enemies, g`shots,
             g`enemyShots, g`gameOverCountdown, g`blockingWalls
    ensures g.kills == 0 && g.roomsCleared == 0 && g.clears == 0 && g.maxDifficulty == 0.0
    ensures g.playerLives == g.maxLives
    ensures g.enemies == [] && g.shots == [] && g.enemyShots == [] && g.gameOverCountdown == -1.0
    ensures g.blockingWalls == map[]
    ensures old(g.TileRefsOk()) ==> g.TileRefsOk()
    ensures old(Ledger(g)) ==> Ledger(g)
  {
    g.kills := 0;
    g.roomsCleared := 0;
    ResetLives(g);
    g.clears, g.maxDifficulty := 0, 0.0;
    g.enemies := [];
    g.shots := [];
    g.enemyShots := [];
    g.gameOverCountdown := -1.0;
    g.blockingWalls := map[];
    ResetLives(g);
    assert g.tiles == old(g.tiles) && g.currentTile == old(g.currentTile) && g.prevTile == old(g.prevTile) &&
      g.tilePositions == old(g.tilePositions);
  }

  /** The map half of start_new_run: the start room, its neighbours and the
      world around it. */
  method BuildStartWorld(g: Game, startDraw: TileDraw, draws: seq<TileDraw>) returns (c: TileId)
    requires |draws| == 4 && g.TileRefsOk() && g.ColoursOk()
    modifies g`tiles, g`wallIdCounter, g`wallColors, g`currentTile, g`prevTile, g`world, g`tilePositions,
             g`blockingWalls
    ensures c == old(|g.tiles|) && StartWorld(g, c)
    ensures old(Ledger(g)) ==> Ledger(g)
  {
    c := MakeStartRoom(g, startDraw);
    LayOutStart(g, c, draws);
  }

  /** The building half of start_new_run: the world of BuildStartWorld, then
      the player in the middle of the start room facing east. */
  method BuildStart(g: Game, startDraw: TileDraw, draws: seq<TileDraw>)
    requires |draws| == 4 && g.TileRefsOk() && g.ColoursOk()
    modifies g`tiles, g`wallIdCounter, g`wallColors, g`currentTile, g`prevTile, g`world, g`tilePositions,
             g`blockingWalls, g`posX, g`posY, g`dirX, g`dirY, g`planeX, g`planeY
    ensures AtStart(g, old(|g.tiles|))
    ensures old(Ledger(g)) ==> Ledger(g)
  {
    var c := BuildStartWorld(g, startDraw, draws);
    PlacePlayer(g, g.tilePositions[c]);
  }

  /** The player of start_new_run: in the middle of the square at `o`, facing
      east, with the camera plane to the south. */
  method PlacePlayer(g: Game, o: Origin)
    modifies g`posX, g`posY, g`dirX, g`dirY, g`planeX, g`planeY
    ensures InsideTile(o, g.posX, g.posY)
    ensures g.posX - o.ox as real == TILE as real / 2.0 && g.posY - o.oy as real == TILE as real / 2.0
    ensures CameraOf(g) == Camera(1.0, 0.0, 0.0, 0.66)
  {
    g.posX := o.ox as real + TILE as real * 0.5;
    g.posY := o.oy as real + TILE as real * 0.5;
    g.dirX, g.dirY := 1.0, 0.0;
    g.planeX, g.planeY := 0.0, 0.66;
  }

  /** start_new_run: a fresh run. The run's counters, the lives, the enemies,
      both shot lists, the game-over countdown and the exit blocks are reset
      and the credits kept; the start room is built as the current tile with
      the world laid out around it, and the player stands in its middle. */
  method StartNewRun(g: Game, startDraw: TileDraw, draws: seq<TileDraw>)
    requires |draws| == 4 && g.TileRefsOk() && g.ColoursOk()
    modifies g`kills, g`roomsCleared, g`playerLives, g`clears, g`maxDifficulty, g`enemies, g`shots,
             g`enemyShots, g`gameOverCountdown, g`blockingWalls, g`tiles, g`wallIdCounter, g`wallColors,
             g`currentTile, g`prevTile, g`world, g`tilePositions, g`posX, g`posY, g`dirX, g`dirY, g`planeX, g`planeY
    ensures g.kills == 0 && g.roomsCleared == 0 && g.clears == 0 && g.maxDifficulty == 0.0
    ensures g.credits == old(g.credits) && g.playerLives == g.maxLives
    ensures g.enemies == [] && g.shots == [] && g.enemyShots == [] && g.gameOverCountdown == -1.0
    ensures AtStart(g, old(|g.tiles|))
    ensures old(Ledger(g)) ==> Ledger(g)
  {
    ghost var n := |g.tiles|;
    ResetRun(g);
    assert |g.tiles| == n;
    BuildStart(g, startDraw, draws);
  }
}
