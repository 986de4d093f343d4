/** The input handlers of controls.js, as the state each one changes: the held
    keys, mouse-look smoothing, the look-and-shoot touches and the on-screen
    joystick. The browser events become parameters: a key code, a mouse
    movement, the list of changed touches with the screen point of each, and
    the joystick's on-screen centre and radius. */
module Controls {
  import opened Common
  import opened Projectiles
  import opened State
  import opened WorldGeneration
  import opened GameCore
  import opened Weapons

  // ---------------------------------------------------------------------------
  // Keys
  // ---------------------------------------------------------------------------

  /** A keydown or keyup event and the `e.code` it carries. */
  datatype KeyEvent = Down(code: string) | Up(code: string)

  /** The held-key set after one event: keydown adds the code, keyup removes it. */
  function ApplyKey(keys: set<string>, e: KeyEvent): set<string>
  {
    match e
    case Down(c) => keys + {c}
    case Up(c) => keys - {c}
  }

  /** The held-key set after a sequence of events, oldest first. */
  function KeysAfter(keys: set<string>, es: seq<KeyEvent>): set<string>
  {
    if es == [] then keys else ApplyKey(KeysAfter(keys, es[..|es| - 1]), es[|es| - 1])
  }

  /** A key is held after a run of events exactly when its latest event was a
      keydown, or it has no event and was held before. */
  lemma {:induction false} HeldIffLastDown(keys: set<string>, es: seq<KeyEvent>, c: string)
    ensures c in KeysAfter(keys, es) <==>
      (exists k :: 0 <= k < |es| && es[k] == Down(c) && forall j :: k < j < |es| ==> es[j].code != c) ||
      (c in keys && forall j :: 0 <= j < |es| ==> es[j].code != c)
  {
    if es != [] {
      var n := |es| - 1;
      var front := es[..n];
      HeldIffLastDown(keys, front, c);
      assert forall j :: 0 <= j < n ==> front[j] == es[j];
      if es[n].code != c {
        assert KeysAfter(keys, es) == ApplyKey(KeysAfter(keys, front), es[n]);
      } else if es[n] == Down(c) {
        assert c in KeysAfter(keys, es);
      } else {
        assert c !in KeysAfter(keys, es);
      }
    }
  }

  /** The keydown listener: the code is held from now on, and KeyR starts a new
      run. The KeyU upgrade-menu toggle is browser UI and is left out. */
  method KeyDown(g: Game, code: string, startDraw: TileDraw, draws: seq<TileDraw>)
    requires |draws| == 4 && g.TileRefsOk() && g.ColoursOk()
    modifies g`keys, g`kills, g`roomsCleared, g`playerLives, g`clears, g`maxDifficulty, g`enemies, g`shots,
             g`enemyShots, g`gameOverCountdown, g`blockingWalls, g`tiles, g`wallIdCounter, g`wallColors,
             g`currentTile, g`prevTile, g`world, g`tilePositions, g`posX, g`posY, g`dirX, g`dirY, g`planeX, g`planeY
    ensures g.keys == ApplyKey(old(g.keys), Down(code))
    ensures code != "KeyR" ==> unchanged(g`kills, g`roomsCleared, g`playerLives, g`clears, g`maxDifficulty,
              g`enemies, g`shots, g`enemyShots, g`gameOverCountdown, g`blockingWalls, g`tiles, g`wallIdCounter,
              g`wallColors, g`currentTile, g`prevTile, g`world, g`tilePositions, g`posX, g`posY, g`dirX,
              g`dirY, g`planeX, g`planeY)
    ensures code == "KeyR" ==>
              g.kills == 0 && g.roomsCleared == 0 && g.clears == 0 && g.credits == old(g.credits) &&
              g.enemies == [] && g.shots == [] && g.enemyShots == [] && g.gameOverCountdown == -1.0 &&
              AtStart(g, old(|g.tiles|))
  {
    g.keys := g.keys + {code};
    if code == "KeyR" {
      StartNewRun(g, startDraw, draws);
    }
  }

  /** The keyup listener: the code is no longer held. */
  method KeyUp(g: Game, code: string)
    modifies g`keys
    ensures g.keys == ApplyKey(old(g.keys), Up(code))
  {
    g.keys := g.keys - {code};
  }

  // ---------------------------------------------------------------------------
  // Mouse look
  // ---------------------------------------------------------------------------

  /** The smoothing buffer's length and the largest movement one event counts. */
  const MOUSE_BUFFER_SIZE: nat := 3
  const MAX_MOUSE_DELTA: real := 50.0

  /** An event's movementX clamped to [-50, 50]. */
  function ClampMovement(x: real): (c: real)
    ensures -MAX_MOUSE_DELTA <= c <= MAX_MOUSE_DELTA
    ensures -MAX_MOUSE_DELTA <= x <= MAX_MOUSE_DELTA ==> c == x
    ensures x > MAX_MOUSE_DELTA ==> c == MAX_MOUSE_DELTA
    ensures x < -MAX_MOUSE_DELTA ==> c == -MAX_MOUSE_DELTA
  {
    MaxReal(-MAX_MOUSE_DELTA, MinReal(MAX_MOUSE_DELTA, x))
  }

  /** The buffer after a push, with the oldest entry shifted out once it
      grows past three. */
  function Pushed(b: seq<real>, v: real): seq<real>
  {
    var b' := b + [v];
    if |b'| > MOUSE_BUFFER_SIZE then b'[1..] else b'
  }

  /** The sum `reduce` folds from left to right. */
  function Sum(b: seq<real>): real
  {
    if b == [] then 0.0 else Sum(b[..|b| - 1]) + b[|b| - 1]
  }

  /** The simple average the handler adds to the look delta. */
  function Mean(b: seq<real>): real
    requires b != []
  {
    Sum(b) / (|b| as real)
  }

  /** Every entry lies in [-50, 50]. */
  predicate WithinClamp(b: seq<real>)
  {
    forall i :: 0 <= i < |b| ==> -MAX_MOUSE_DELTA <= b[i] <= MAX_MOUSE_DELTA
  }

  /** A buffer the handler can leave behind: at most three clamped entries. */
  predicate BufferOk(b: seq<real>)
  {
    |b| <= MOUSE_BUFFER_SIZE && WithinClamp(b)
  }

  /** A push keeps the buffer at most three clamped entries, the newest last;
      the entries kept are the latest ones, oldest dropped first. */
  lemma PushKeepsBuffer(b: seq<real>, x: real)
    requires BufferOk(b)
    ensures var p := Pushed(b, ClampMovement(x));
      BufferOk(p) && p != [] && p[|p| - 1] == ClampMovement(x) &&
      |p| == MinInt(|b| + 1, MOUSE_BUFFER_SIZE) &&
      p == (b + [ClampMovement(x)])[|b| + 1 - |p|..]
  {
    var c := ClampMovement(x);
    var b' := b + [c];
    assert b'[|b|] == c;
    if |b'| > MOUSE_BUFFER_SIZE {
      assert Pushed(b, c) == b'[1..];
      assert forall i :: 0 <= i < |b'[1..]| ==> b'[1..][i] == b'[i + 1];
    } else {
      assert Pushed(b, c) == b' == b'[0..];
    }
    assert forall i :: 0 <= i < |b'| ==> -MAX_MOUSE_DELTA <= b'[i] <= MAX_MOUSE_DELTA;
  }

  /** n entries within [-m, m] sum to within [-n m, n m]. */
  lemma {:induction false} SumWithin(b: seq<real>)
    requires WithinClamp(b)
    ensures -MAX_MOUSE_DELTA * (|b| as real) <= Sum(b) <= MAX_MOUSE_DELTA * (|b| as real)
  {
    if b != [] {
      SumWithin(b[..|b| - 1]);
    }
  }

  /** The average of clamped movements is itself within [-50, 50]. */
  lemma MeanWithin(b: seq<real>)
    requires b != [] && WithinClamp(b)
    ensures -MAX_MOUSE_DELTA <= Mean(b) <= MAX_MOUSE_DELTA
  {
    SumWithin(b);
    var n := |b| as real;
    var s := Sum(b);
    assert Mean(b) * n == s;
  }

  /** The mousemove listener: ignored unless the pointer is locked; otherwise
      the clamped movement joins the smoothing buffer and the buffer's average
      is added to the look delta, which so changes by at most 50. */
  method MouseMove(g: Game, movementX: real)
    modifies g`mouseLookBuffer, g`mouseLookDelta
    ensures !g.pointerLocked ==> unchanged(g`mouseLookBuffer, g`mouseLookDelta)
    ensures g.pointerLocked ==> g.mouseLookBuffer == Pushed(old(g.mouseLookBuffer), ClampMovement(movementX))
    ensures g.pointerLocked ==>
              g.mouseLookBuffer != [] && g.mouseLookDelta == old(g.mouseLookDelta) + Mean(g.mouseLookBuffer)
    ensures old(BufferOk(g.mouseLookBuffer)) ==>
              BufferOk(g.mouseLookBuffer) &&
              -MAX_MOUSE_DELTA <= g.mouseLookDelta - old(g.mouseLookDelta) <= MAX_MOUSE_DELTA
  {
    if !g.pointerLocked {
      return;
    }
    var m := ClampMovement(movementX);
    g.mouseLookBuffer := g.mouseLookBuffer + [m];
    if |g.mouseLookBuffer| > MOUSE_BUFFER_SIZE {
      g.mouseLookBuffer := g.mouseLookBuffer[1..];
    }
    g.mouseLookDelta := g.mouseLookDelta + Mean(g.mouseLookBuffer);
    if old(BufferOk(g.mouseLookBuffer)) {
      PushKeepsBuffer(old(g.mouseLookBuffer), movementX);
      MeanWithin(g.mouseLookBuffer);
    }
  }

  /** onPointerLockChange: mouse look follows whether the canvas holds the
      pointer lock, which the browser reports as `locked`. */
  method PointerLockChange(g: Game, locked: bool)
    modifies g`pointerLocked
    ensures g.pointerLocked == locked
  {
    g.pointerLocked := locked;
  }

  /** The mousedown listener of setupMouseShootEvents: the main button fires
      the blaster, which does nothing while it cools down. */
  method MouseDown(g: Game, button: int)
    modifies g`shots, g`blasterCooldown
    ensures button == 0 && old(g.blasterCooldown) <= 0.0 ==>
              g.shots == old(g.shots) + [Muzzle(g.posX, g.posY, g.dirX, g.dirY, SHOT_SPEED)] &&
              g.blasterCooldown == BLASTER_COOLDOWN_TIME
    ensures button != 0 || old(g.blasterCooldown) > 0.0 ==>
              g.shots == old(g.shots) && g.blasterCooldown == old(g.blasterCooldown)
  {
    if button == 0 {
      SpawnShot(g);
    }
  }

  /** toggleGodMode: god mode flips; the debug banner is left out. */
  method ToggleGodMode(g: Game)
    modifies g`debugGodMode
    ensures g.debugGodMode == !old(g.debugGodMode)
  {
    g.debugGodMode := !g.debugGodMode;
  }

  // ---------------------------------------------------------------------------
  // Look-and-shoot touches
  // ---------------------------------------------------------------------------

  /** A touch of `e.changedTouches`: its identifier, its screen point and
      whether the point lies on the joystick element. */
  datatype TouchPoint = TouchPoint(id: int, x: real, y: real, onJoystick: bool)

  /** The longest tap, in milliseconds, and the most a tap may drag, in pixels. */
  const TAP_THRESHOLD: real := 200.0
  const DRAG_THRESHOLD: real := 10.0
  /** Look delta per pixel a look touch drags. */
  const TOUCH_LOOK_GAIN: real := 1.5

  /** touchstart's record of one touch: the joystick claims the touches on it,
      the look control the ones right of the middle of the window; the rest
      are not tracked. */
  function StartOne(m: map<int, TouchRecord>, t: TouchPoint, innerWidth: real, now: real): map<int, TouchRecord>
  {
    if t.onJoystick then m[t.id := JoystickTouch(t.x, t.y)]
    else if t.x > innerWidth / 2.0 then m[t.id := LookTouch(t.x, t.x, 0.0, now)]
    else m
  }

  /** The touches touchstart keeps a record of. */
  predicate Claimed(t: TouchPoint, innerWidth: real)
  {
    t.onJoystick || t.x > innerWidth / 2.0
  }

  /** The records after touchstart has taken the changed touches in order. */
  function Started(m: map<int, TouchRecord>, ts: seq<TouchPoint>, innerWidth: real, now: real): map<int, TouchRecord>
  {
    if ts == [] then m else StartOne(Started(m, ts[..|ts| - 1], innerWidth, now), ts[|ts| - 1], innerWidth, now)
  }

  /** After touchstart exactly the touches tracked before and the claimed new
      ones are tracked, and a record whose touch was not in the event is kept. */
  lemma {:induction false} StartedTracks(m: map<int, TouchRecord>, ts: seq<TouchPoint>, innerWidth: real, now: real)
    ensures forall id :: id in Started(m, ts, innerWidth, now) <==>
      id in m || exists k :: 0 <= k < |ts| && ts[k].id == id && Claimed(ts[k], innerWidth)
    ensures forall id :: id in m && (forall k :: 0 <= k < |ts| ==> ts[k].id != id) ==>
      Started(m, ts, innerWidth, now)[id] == m[id]
  {
    if ts != [] {
      var n := |ts| - 1;
      StartedTracks(m, ts[..n], innerWidth, now);
      forall id | id in m && (forall k :: 0 <= k < |ts| ==> ts[k].id != id)
        ensures Started(m, ts, innerWidth, now)[id] == m[id]
      {
        assert forall k :: 0 <= k < n ==> ts[..n][k].id != id;
      }
      forall id
        ensures id in Started(m, ts, innerWidth, now) <==>
          id in m || exists k :: 0 <= k < |ts| && ts[k].id == id && Claimed(ts[k], innerWidth)
      {
        if exists k :: 0 <= k < |ts| && ts[k].id == id && Claimed(ts[k], innerWidth) {
          var k :| 0 <= k < |ts| && ts[k].id == id && Claimed(ts[k], innerWidth);
          if k < n {
            assert ts[..n][k] == ts[k];
          }
        }
        if exists k :: 0 <= k < n && ts[..n][k].id == id && Claimed(ts[..n][k], innerWidth) {
          var k :| 0 <= k < n && ts[..n][k].id == id && Claimed(ts[..n][k], innerWidth);
          assert ts[k] == ts[..n][k];
        }
      }
    }
  }

  /** The touchstart listener: record each changed touch the joystick or the
      look control claims, a look touch with its start point, no drag yet and
      the clock reading `now`. */
  method TouchStart(g: Game, ts: seq<TouchPoint>, innerWidth: real, now: real)
    modifies g`activeTouches
    ensures g.activeTouches == Started(old(g.activeTouches), ts, innerWidth, now)
  {
    var i := 0;
    while i < |ts|
      invariant 0 <= i <= |ts|
      invariant g.activeTouches == Started(old(g.activeTouches), ts[..i], innerWidth, now)
    {
      assert ts[..i + 1][..i] == ts[..i];
      var t := ts[i];
      if t.onJoystick {
        g.activeTouches := g.activeTouches[t.id := JoystickTouch(t.x, t.y)];
      } else if t.x > innerWidth / 2.0 {
        g.activeTouches := g.activeTouches[t.id := LookTouch(t.x, t.x, 0.0, now)];
      }
      i := i + 1;
    }
    assert ts[..i] == ts;
  }

  /** A look record whose total drag covers at least how far it is from its
      start, as every look touch keeps: the drag only adds up the steps. */
  predicate DragCovers(r: TouchRecord)
  {
    r.LookTouch? ==> r.totalDrag >= AbsReal(r.lastX - r.startX)
  }

  /** Every tracked look touch's drag covers its displacement. */
  predicate TouchesOk(m: map<int, TouchRecord>)
  {
    forall id :: id in m ==> DragCovers(m[id])
  }

  /** touchstart keeps the drag bookkeeping sound. */
  lemma {:induction false} StartedKeepsTouchesOk(m: map<int, TouchRecord>, ts: seq<TouchPoint>, innerWidth: real, now: real)
    requires TouchesOk(m)
    ensures TouchesOk(Started(m, ts, innerWidth, now))
  {
    if ts != [] {
      StartedKeepsTouchesOk(m, ts[..|ts| - 1], innerWidth, now);
    }
  }

  /** touchmove's update of one look record for a touch now at x. */
  function Dragged(r: TouchRecord, x: real): (r': TouchRecord)
    requires r.LookTouch?
    ensures r'.LookTouch? && r'.startX == r.startX && r'.startTime == r.startTime && r'.lastX == x
    ensures r'.totalDrag >= r.totalDrag
    ensures DragCovers(r) ==> DragCovers(r')
  {
    LookTouch(r.startX, x, r.totalDrag + AbsReal(x - r.lastX), r.startTime)
  }

  /** The records after touchmove has taken the changed touches in order. */
  function MovedTouches(m: map<int, TouchRecord>, ts: seq<TouchPoint>): map<int, TouchRecord>
  {
    if ts == [] then m
    else
      var m' := MovedTouches(m, ts[..|ts| - 1]);
      var t := ts[|ts| - 1];
      if t.id in m' && m'[t.id].LookTouch? then m'[t.id := Dragged(m'[t.id], t.x)] else m'
  }

  /** The look delta touchmove adds: 1.5 per pixel each look touch moved. */
  function LookGained(m: map<int, TouchRecord>, ts: seq<TouchPoint>): real
  {
    if ts == [] then 0.0
    else
      var m' := MovedTouches(m, ts[..|ts| - 1]);
      var t := ts[|ts| - 1];
      LookGained(m, ts[..|ts| - 1]) +
        (if t.id in m' && m'[t.id].LookTouch? then (t.x - m'[t.id].lastX) * TOUCH_LOOK_GAIN else 0.0)
  }

  /** touchmove tracks the same touches, never changes a joystick record or a
      look touch's start, never lowers a drag, and keeps the bookkeeping sound. */
  lemma {:induction false} MovedKeeps(m: map<int, TouchRecord>, ts: seq<TouchPoint>)
    ensures MovedTouches(m, ts).Keys == m.Keys
    ensures forall id :: id in m && m[id].JoystickTouch? ==> MovedTouches(m, ts)[id] == m[id]
    ensures forall id :: id in m && m[id].LookTouch? ==>
      MovedTouches(m, ts)[id].LookTouch? && MovedTouches(m, ts)[id].startX == m[id].startX &&
      MovedTouches(m, ts)[id].startTime == m[id].startTime &&
      MovedTouches(m, ts)[id].totalDrag >= m[id].totalDrag
    ensures TouchesOk(m) ==> TouchesOk(MovedTouches(m, ts))
  {
    if ts != [] {
      MovedKeeps(m, ts[..|ts| - 1]);
    }
  }

  /** The touchmove listener: each changed look touch adds its horizontal step
      to its drag and, times 1.5, to the look delta; other touches are left to
      the joystick's own listeners. */
  method TouchMove(g: Game, ts: seq<TouchPoint>)
    modifies g`activeTouches, g`mouseLookDelta
    ensures g.activeTouches == MovedTouches(old(g.activeTouches), ts)
    ensures g.mouseLookDelta == old(g.mouseLookDelta) + LookGained(old(g.activeTouches), ts)
  {
    var i := 0;
    while i < |ts|
      invariant 0 <= i <= |ts|
      invariant g.activeTouches == MovedTouches(old(g.activeTouches), ts[..i])
      invariant g.mouseLookDelta == old(g.mouseLookDelta) + LookGained(old(g.activeTouches), ts[..i])
    {
      assert ts[..i + 1][..i] == ts[..i];
      var t := ts[i];
      if t.id in g.activeTouches && g.activeTouches[t.id].LookTouch? {
        var r := g.activeTouches[t.id];
        var dx := t.x - r.lastX;
        g.activeTouches := g.activeTouches[t.id := LookTouch(r.startX, t.x, r.totalDrag + AbsReal(dx), r.startTime)];
        g.mouseLookDelta := g.mouseLookDelta + dx * TOUCH_LOOK_GAIN;
      }
      i := i + 1;
    }
    assert ts[..i] == ts;
  }

  /** A look touch ending at `now` is a tap: shorter than 200 ms and dragged
      less than 10 pixels. */
  predicate IsTap(r: TouchRecord, now: real)
  {
    r.LookTouch? && now - r.startTime < TAP_THRESHOLD && r.totalDrag < DRAG_THRESHOLD
  }

  /** A tap never ends further than 10 pixels from where it started. */
  lemma TapStaysNear(r: TouchRecord, now: real)
    requires DragCovers(r) && IsTap(r, now)
    ensures -DRAG_THRESHOLD < r.lastX - r.startX < DRAG_THRESHOLD
  {
  }

  /** The identifiers of a list of touches. */
  function IdsOf(ts: seq<TouchPoint>): set<int>
  {
    set k | 0 <= k < |ts| :: ts[k].id
  }

  /** Some touch of the event ends a tracked tap. */
  predicate Tapped(m: map<int, TouchRecord>, ts: seq<TouchPoint>, now: real)
  {
    exists k :: 0 <= k < |ts| && ts[k].id in m && IsTap(m[ts[k].id], now)
  }

  /** One more touch of touchend: the records of the touches taken so far are
      gone, and a tap among all of them is a tap among the earlier ones or
      this one's record, if it is still there. */
  lemma EndStep(m: map<int, TouchRecord>, ts: seq<TouchPoint>, i: nat, now: real)
    requires i < |ts|
    ensures m - IdsOf(ts[..i + 1]) == (m - IdsOf(ts[..i])) - {ts[i].id}
    ensures Tapped(m, ts[..i + 1], now) <==>
      Tapped(m, ts[..i], now) ||
      (ts[i].id in m - IdsOf(ts[..i]) && IsTap((m - IdsOf(ts[..i]))[ts[i].id], now))
  {
    var pre, cur := ts[..i], ts[..i + 1];
    assert IdsOf(cur) == IdsOf(pre) + {ts[i].id} by {
      assert cur[i] == ts[i];
      forall k | 0 <= k < i
        ensures cur[k] == pre[k]
      {
      }
    }
  }

  /** The touchend listener: every changed touch's record is deleted, and a
      look touch that was a tap fires the blaster. Since a shot starts the
      cooldown, one event fires at most one shot. */
  method TouchEnd(g: Game, ts: seq<TouchPoint>, now: real)
    modifies g`activeTouches, g`shots, g`blasterCooldown
    ensures g.activeTouches == old(g.activeTouches) - IdsOf(ts)
    ensures Tapped(old(g.activeTouches), ts, now) && old(g.blasterCooldown) <= 0.0 ==>
              g.shots == old(g.shots) + [Muzzle(g.posX, g.posY, g.dirX, g.dirY, SHOT_SPEED)] &&
              g.blasterCooldown == BLASTER_COOLDOWN_TIME
    ensures !Tapped(old(g.activeTouches), ts, now) || old(g.blasterCooldown) > 0.0 ==>
              g.shots == old(g.shots) && g.blasterCooldown == old(g.blasterCooldown)
  {
    var i := 0;
    while i < |ts|
      invariant 0 <= i <= |ts|
      invariant g.activeTouches == old(g.activeTouches) - IdsOf(ts[..i])
      invariant Tapped(old(g.activeTouches), ts[..i], now) && old(g.blasterCooldown) <= 0.0 ==>
                  g.shots == old(g.shots) + [Muzzle(g.posX, g.posY, g.dirX, g.dirY, SHOT_SPEED)] &&
                  g.blasterCooldown == BLASTER_COOLDOWN_TIME
      invariant !Tapped(old(g.activeTouches), ts[..i], now) || old(g.blasterCooldown) > 0.0 ==>
                  g.shots == old(g.shots) && g.blasterCooldown == old(g.blasterCooldown)
    {
      EndStep(old(g.activeTouches), ts, i, now);
      var t := ts[i];
      if t.id in g.activeTouches {
        var r := g.activeTouches[t.id];
        if r.LookTouch? && now - r.startTime < TAP_THRESHOLD && r.totalDrag < DRAG_THRESHOLD {
          SpawnShot(g);
        }
      }
      g.activeTouches := g.activeTouches - {t.id};
      i := i + 1;
    }
    assert ts[..i] == ts;
  }

  /** The touchcancel listener: every changed touch's record is deleted. */
  method TouchCancel(g: Game, ids: seq<int>)
    modifies g`activeTouches
    ensures g.activeTouches == old(g.activeTouches) - set k | 0 <= k < |ids| :: ids[k]
  {
    var i := 0;
    while i < |ids|
      invariant 0 <= i <= |ids|
      invariant g.activeTouches == old(g.activeTouches) - set k | 0 <= k < i :: ids[k]
    {
      g.activeTouches := g.activeTouches - {ids[i]};
      i := i + 1;
    }
  }

  // ---------------------------------------------------------------------------
  // Joystick
  // ---------------------------------------------------------------------------

  /** The share of the radius the thumb may travel, and the deflection a
      direction flag needs. */
  const JOY_REACH: real := 0.78
  const JOY_FLAG: real := 0.22

  /** updateJoystick's vector for a thumb (dx, dy) from the centre, `dist`
      away, on a joystick of radius r: the offset in radii, pulled back onto
      the 0.78 ring when it reaches beyond. */
  function JoyVector(dx: real, dy: real, r: real, dist: real): (real, real)
    requires r > 0.0
  {
    var maxDist := r * JOY_REACH;
    if dist > maxDist then ((dx * maxDist / dist) / r, (dy * maxDist / dist) / r)
    else (dx / r, dy / r)
  }

  /** (dx k, dy k) has squared length k² dist² when dist is the length of (dx, dy). */
  lemma ScaledLength(dx: real, dy: real, dist: real, k: real)
    requires dist * dist == dx * dx + dy * dy
    ensures Sq(dx * k) + Sq(dy * k) == (dist * k) * (dist * k)
  {
    calc {
      Sq(dx * k) + Sq(dy * k);
      (dx * dx + dy * dy) * (k * k);
      (dist * dist) * (k * k);
    }
  }

  /** Scaling by m / d and then dividing by r is scaling by m / d / r. */
  lemma ScaledTwice(a: real, m: real, d: real, r: real)
    requires d > 0.0 && r > 0.0
    ensures (a * m / d) / r == a * (m / d / r)
  {
  }

  /** Dividing by r is scaling by 1 / r. */
  lemma DivideIsScale(a: real, r: real)
    requires r > 0.0
    ensures a / r == a * (1.0 / r)
  {
  }

  /** Squaring keeps the order of non-negative reals. */
  lemma SquareAtMost(q: real, b: real)
    requires 0.0 <= q <= b
    ensures q * q <= b * b
  {
    assert q * q <= b * q <= b * b;
  }

  /** Beyond the ring, the offset pulled back onto it and measured in radii
      is exactly 0.78 long. */
  lemma OnRing(dx: real, dy: real, r: real, dist: real, vx: real, vy: real)
    requires r > 0.0 && IsHypot(dx, dy, dist) && dist > r * JOY_REACH
    requires vx == (dx * (r * JOY_REACH) / dist) / r && vy == (dy * (r * JOY_REACH) / dist) / r
    ensures Sq(vx) + Sq(vy) == Sq(JOY_REACH)
  {
    var m := r * JOY_REACH;
    var k := m / dist / r;
    ScaledTwice(dx, m, dist, r);
    ScaledTwice(dy, m, dist, r);
    ScaledLength(dx, dy, dist, k);
    assert dist * (m / dist) == m;
    assert dist * k == JOY_REACH;
  }

  /** Inside the ring, the offset measured in radii is at most 0.78 long. */
  lemma InsideRing(dx: real, dy: real, r: real, dist: real, vx: real, vy: real)
    requires r > 0.0 && IsHypot(dx, dy, dist) && dist <= r * JOY_REACH
    requires vx == dx / r && vy == dy / r
    ensures Sq(vx) + Sq(vy) <= Sq(JOY_REACH)
  {
    var k := 1.0 / r;
    DivideIsScale(dx, r);
    DivideIsScale(dy, r);
    ScaledLength(dx, dy, dist, k);
    var q := dist * k;
    assert q * r == dist;
    assert 0.0 <= q <= JOY_REACH;
    SquareAtMost(q, JOY_REACH);
  }

  /** The joystick vector never reaches further than 0.78, and is exactly
      0.78 long whenever the thumb is beyond the ring. */
  lemma JoyVectorCapped(dx: real, dy: real, r: real, dist: real)
    requires r > 0.0 && IsHypot(dx, dy, dist)
    ensures Sq(JoyVector(dx, dy, r, dist).0) + Sq(JoyVector(dx, dy, r, dist).1) <= Sq(JOY_REACH)
    ensures dist > r * JOY_REACH ==>
      Sq(JoyVector(dx, dy, r, dist).0) + Sq(JoyVector(dx, dy, r, dist).1) == Sq(JOY_REACH)
  {
    var v := JoyVector(dx, dy, r, dist);
    if dist > r * JOY_REACH {
      OnRing(dx, dy, r, dist, v.0, v.1);
    } else {
      InsideRing(dx, dy, r, dist, v.0, v.1);
    }
  }

  /** The squared distance of (x, y) from the joystick's centre. */
  function ThumbDistSq(c: JoyCenter, x: real, y: real): (d: real)
    ensures d >= 0.0
  {
    Sq(x - c.cx) + Sq(y - c.cy)
  }

  /** updateJoystick's vector for a thumb at (x, y) on the joystick `c`,
      `dist` away from its centre. */
  function ThumbVector(c: JoyCenter, x: real, y: real, dist: real): (real, real)
    requires c.r > 0.0
  {
    JoyVector(x - c.cx, y - c.cy, c.r, dist)
  }

  /** Wherever the thumb is, the vector stays within the 0.78 ring. */
  lemma ThumbVectorCapped(c: JoyCenter, x: real, y: real, dist: real)
    requires c.r > 0.0 && dist >= 0.0 && dist * dist == ThumbDistSq(c, x, y)
    ensures Sq(ThumbVector(c, x, y, dist).0) + Sq(ThumbVector(c, x, y, dist).1) <= Sq(JOY_REACH)
  {
    JoyVectorCapped(x - c.cx, y - c.cy, c.r, dist);
  }

  /** The four direction flags for a joystick vector. */
  function Flags(jx: real, jy: real): (f: TouchFlags)
    ensures !(f.fwd && f.back) && !(f.left && f.right)
    ensures -JOY_FLAG <= jx <= JOY_FLAG && -JOY_FLAG <= jy <= JOY_FLAG ==> f == TouchFlags(false, false, false, false)
  {
    TouchFlags(jy < -JOY_FLAG, jy > JOY_FLAG, jx < -JOY_FLAG, jx > JOY_FLAG)
  }

  /** What the joystick listeners keep: the vector within the 0.78 ring, the
      flags matching it, a touch identifier exactly while active, and a known
      centre with a positive radius while active. */
  predicate JoyOk(g: Game)
    reads g`joyX, g`joyY, g`touchFlags, g`joyActive, g`joyTouchId, g`joyCenter
  {
    Sq(g.joyX) + Sq(g.joyY) <= Sq(JOY_REACH) && g.touchFlags == Flags(g.joyX, g.joyY) &&
    (g.joyActive <==> g.joyTouchId.Some?) &&
    (g.joyCenter.Some? ==> g.joyCenter.value.r > 0.0) &&
    (g.joyActive ==> g.joyCenter.Some?)
  }

  /** resetJoystick: thumb centred, no flags, and the joystick released. */
  method ResetJoystick(g: Game)
    requires g.joyCenter.Some? ==> g.joyCenter.value.r > 0.0
    modifies g`joyX, g`joyY, g`touchFlags, g`joyActive, g`joyTouchId
    ensures g.joyX == 0.0 && g.joyY == 0.0 && g.touchFlags == TouchFlags(false, false, false, false)
    ensures !g.joyActive && g.joyTouchId == None
    ensures JoyOk(g)
  {
    g.touchFlags := TouchFlags(false, false, false, false);
    g.joyX, g.joyY := 0.0, 0.0;
    g.joyActive := false;
    g.joyTouchId := None;
  }

  /** updateJoystick: nothing without a centre; otherwise the vector of the
      thumb at (x, y) and the flags for it. The thumb's CSS position is left out. */
  method UpdateJoystick(g: Game, x: real, y: real, sqrt: real -> real)
    requires IsSqrt(sqrt) && (g.joyCenter.Some? ==> g.joyCenter.value.r > 0.0)
    modifies g`joyX, g`joyY, g`touchFlags
    ensures g.joyCenter == None ==> unchanged(g`joyX, g`joyY, g`touchFlags)
    ensures g.joyCenter.Some? ==>
              var c := g.joyCenter.value;
              g.joyX == ThumbVector(c, x, y, sqrt(ThumbDistSq(c, x, y))).0 &&
              g.joyY == ThumbVector(c, x, y, sqrt(ThumbDistSq(c, x, y))).1
    ensures g.joyCenter.Some? ==> g.touchFlags == Flags(g.joyX, g.joyY)
    ensures g.joyCenter.Some? ==> Sq(g.joyX) + Sq(g.joyY) <= Sq(JOY_REACH)
  {
    if g.joyCenter == None {
      return;
    }
    var c := g.joyCenter.value;
    var dist := sqrt(ThumbDistSq(c, x, y));
    var v := ThumbVector(c, x, y, dist);
    ThumbVectorCapped(c, x, y, dist);
    g.joyX, g.joyY := v.0, v.1;
    g.touchFlags := TouchFlags(g.joyY < -JOY_FLAG, g.joyY > JOY_FLAG, g.joyX < -JOY_FLAG, g.joyX > JOY_FLAG);
  }

  /** The touchstart listeners of the joystick and its thumb: unless a touch
      already drives it, the first changed touch takes the joystick, the
      centre and radius are read, and the vector follows that touch. */
  method JoystickTouchStart(g: Game, ts: seq<TouchPoint>, center: JoyCenter, sqrt: real -> real)
    requires IsSqrt(sqrt) && center.r > 0.0 && JoyOk(g)
    modifies g`joyActive, g`joyTouchId, g`joyCenter, g`joyX, g`joyY, g`touchFlags
    ensures g.joyActive == (old(g.joyActive) || ts != [])
    ensures old(g.joyActive) || ts == [] ==>
              unchanged(g`joyActive, g`joyTouchId, g`joyCenter, g`joyX, g`joyY, g`touchFlags)
    ensures !old(g.joyActive) && ts != [] ==> g.joyTouchId == Some(ts[0].id) && g.joyCenter == Some(center)
    ensures JoyOk(g)
  {
    if g.joyActive || ts == [] {
      return;
    }
    g.joyActive := true;
    g.joyTouchId := Some(ts[0].id);
    g.joyCenter := Some(center);
    UpdateJoystick(g, ts[0].x, ts[0].y, sqrt);
  }

  /** The first touch of the list that has the given identifier, if any. */
  function FirstWithId(ts: seq<TouchPoint>, id: int): (r: Option<nat>)
    ensures r.Some? ==> r.value < |ts| && ts[r.value].id == id
    ensures r.Some? ==> forall k :: 0 <= k < r.value ==> ts[k].id != id
    ensures r.None? ==> forall k :: 0 <= k < |ts| ==> ts[k].id != id
  {
    if ts == [] then None
    else if ts[0].id == id then Some(0)
    else match FirstWithId(ts[1..], id)
      case None => None
      case Some(k) => Some(k + 1)
  }

  /** The joystick's touchmove listener: while active, the vector follows the
      first of the current touches that is the joystick's own. */
  method JoystickTouchMove(g: Game, touches: seq<TouchPoint>, sqrt: real -> real)
    requires IsSqrt(sqrt) && JoyOk(g)
    modifies g`joyX, g`joyY, g`touchFlags
    ensures !g.joyActive || FirstWithId(touches, g.joyTouchId.value).None? ==>
              unchanged(g`joyX, g`joyY, g`touchFlags)
    ensures g.joyActive && FirstWithId(touches, g.joyTouchId.value).Some? ==>
              var t := touches[FirstWithId(touches, g.joyTouchId.value).value];
              var c := g.joyCenter.value;
              g.joyX == ThumbVector(c, t.x, t.y, sqrt(ThumbDistSq(c, t.x, t.y))).0 &&
              g.joyY == ThumbVector(c, t.x, t.y, sqrt(ThumbDistSq(c, t.x, t.y))).1
    ensures JoyOk(g)
  {
    if !g.joyActive {
      return;
    }
    var id := g.joyTouchId.value;
    var i := 0;
    while i < |touches|
      invariant 0 <= i <= |touches|
      invariant forall k :: 0 <= k < i ==> touches[k].id != id
    {
      if touches[i].id == id {
        assert FirstWithId(touches, id) == Some(i);
        UpdateJoystick(g, touches[i].x, touches[i].y, sqrt);
        return;
      }
      i := i + 1;
    }
  }

  /** The joystick's touchend and touchcancel listeners: when its own touch
      is among the changed ones, the joystick is reset. */
  method JoystickRelease(g: Game, ts: seq<TouchPoint>)
    requires JoyOk(g)
    modifies g`joyX, g`joyY, g`touchFlags, g`joyActive, g`joyTouchId
    ensures old(g.joyTouchId) == None ==> unchanged(g`joyX, g`joyY, g`touchFlags, g`joyActive, g`joyTouchId)
    ensures old(g.joyTouchId).Some? && old(g.joyTouchId).value in IdsOf(ts) ==>
              !g.joyActive && g.joyX == 0.0 && g.joyY == 0.0 && g.touchFlags == TouchFlags(false, false, false, false)
    ensures old(g.joyTouchId).Some? && old(g.joyTouchId).value !in IdsOf(ts) ==>
              unchanged(g`joyX, g`joyY, g`touchFlags, g`joyActive, g`joyTouchId)
    ensures JoyOk(g)
  {
    var i := 0;
    while i < |ts|
      invariant 0 <= i <= |ts|
      invariant forall k :: 0 <= k < i ==> Some(ts[k].id) != g.joyTouchId
    {
      if Some(ts[i].id) == g.joyTouchId {
        ResetJoystick(g);
        return;
      }
      i := i + 1;
    }
  }
}
