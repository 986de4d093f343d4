/** The value-level half of enemies.js: the enemy record, how difficulty maps to
    colour, speed, fire rate and bounty, the tiered enemy count, the spawn
    placement tests and the bounded spawn search, and a ranged enemy's
    telegraph-then-fire timer. */
module EnemyModel {
  import opened Common
  import opened Tiles
  import opened GridBuild

  const ENEMY_RADIUS: real := 0.35
  /** Declared beside ENEMY_RADIUS in enemies.js; the shot module uses the same value. */
  const CONTACT_RADIUS: real := 0.35 + 0.35
  const TELEGRAPH_DURATION: real := 0.3
  const MAX_ATTEMPTS: nat := 50
  /** The distance from the player attemptSpawnEnemy asks of a spawn point. */
  const SPAWN_MIN_DISTANCE: real := 7.0
  /** Rooms to clear before ranged enemies appear, and over which difficulty ramps. */
  const RAMP_ROOMS: nat := 12
  /** Below this distance to the player an enemy does not move. */
  const MIN_CHASE_DIST: real := 0.0001

  datatype LifeState = Alive | Killed | Spent

  /** The firing timer of a ranged enemy. */
  datatype RangedState = RangedState(lastShotTime: real, fireRate: real, telegraphStart: real, isTelegraphing: bool)

  datatype Behaviour = Normal | Ranged(timer: RangedState)

  /** An enemy: the tile it belongs to, its position, the colour, speed and
      difficulty it was spawned with, and where it is in its life cycle. */
  datatype Enemy = Enemy(
    tile: TileId,
    x: real,
    y: real,
    anim: real,
    color: Rgb,
    speed: real,
    difficulty: real,
    state: LifeState,
    behaviour: Behaviour)

  predicate InUnit(d: real)
  {
    0.0 <= d <= 1.0
  }

  predicate ChannelInRange(c: int)
  {
    80 <= c <= 255
  }

  /** A channel that fades linearly between 180 and 255 over t in [0, 1] stays in range. */
  lemma FadeInRange(t: real)
    ensures 0.0 <= t <= 1.0 ==> 180 <= Round(180.0 + 75.0 * t) <= 255
    ensures 0.0 <= t <= 1.0 ==> 180 <= Round(180.0 + 75.0 * (1.0 - t)) <= 255
  {
  }

  /** enemyColorForDifficulty: green at 0 fading to blue below 0.5, then from
      purple at 0.5 to red at 1. Every channel of a difficulty in [0, 1] lies in
      [80, 255]; red is pinned at 80 in the lower half and green in the upper half. */
  function EnemyColor(d: real): (c: Rgb)
    ensures InUnit(d) ==> ChannelInRange(c.r) && ChannelInRange(c.g) && ChannelInRange(c.b)
    ensures d < 0.5 ==> c.r == 80
    ensures d >= 0.5 ==> c.g == 80
  {
    if d < 0.5 then
      var t := d / 0.5;
      FadeInRange(t);
      Rgb(80, Round(180.0 + 75.0 * (1.0 - t)), Round(180.0 + 75.0 * t))
    else
      var t := (d - 0.5) / 0.5;
      FadeInRange(t);
      Rgb(Round(180.0 + 75.0 * t), 80, Round(180.0 + 75.0 * (1.0 - t)))
  }

  /** The colours at the ends and the midpoint of the difficulty range. */
  lemma EnemyColorLandmarks()
    ensures EnemyColor(0.0) == Rgb(80, 255, 180)
    ensures EnemyColor(0.5) == Rgb(180, 80, 255)
    ensures EnemyColor(1.0) == Rgb(255, 80, 180)
  {
    assert Round(255.0) == 255 && Round(180.0) == 180;
  }

  /** Approaching 0.5 from below, the colour tends to blue [80, 180, 255]; at 0.5
      itself the upper branch gives [180, 80, 255], so the colour jumps there. */
  lemma EnemyColorJumpsAtMidpoint(d: real)
    requires 0.4999 <= d < 0.5
    ensures EnemyColor(d).r == 80 && EnemyColor(d).b == 255
    ensures EnemyColor(0.5).r == 180
  {
    var t := d / 0.5;
    assert 0.9998 <= t < 1.0;
    assert 254.985 <= 180.0 + 75.0 * t < 255.0;
  }

  /** enemySpeedForDifficulty: 1.0 at difficulty 0 up to 3.5 at difficulty 1. */
  function EnemySpeed(d: real): (s: real)
    ensures InUnit(d) ==> 1.0 <= s <= 3.5
    ensures d == 0.0 ==> s == 1.0
    ensures d == 1.0 ==> s == 3.5
  {
    1.0 + 2.5 * d
  }

  /** A harder enemy is never slower. */
  lemma EnemySpeedMonotone(d1: real, d2: real)
    requires d1 <= d2
    ensures EnemySpeed(d1) <= EnemySpeed(d2)
  {
  }

  /** getRangedEnemyFireRate: seconds between shots, by difficulty band. */
  function RangedFireRate(d: real): (r: real)
    ensures r == 1.0 || r == 2.0 || r == 3.0
    ensures d < 0.33 <==> r == 3.0
    ensures d >= 0.66 <==> r == 1.0
  {
    if d < 0.33 then 3.0
    else if d < 0.66 then 2.0
    else 1.0
  }

  /** A harder ranged enemy never fires less often. */
  lemma RangedFireRateNonIncreasing(d1: real, d2: real)
    requires d1 <= d2
    ensures RangedFireRate(d2) <= RangedFireRate(d1)
  {
  }

  /** The [min, max] bracket getEnemyCountForRoom draws from. */
  function EnemyCountBracket(rc: nat): (b: (int, int))
    ensures 1 <= b.0 && b.0 + 1 <= b.1 <= b.0 + 2
    ensures rc <= 4 ==> b == (1, 2)
    ensures 71 <= rc <= 80 ==> b == (11, 13)
    ensures rc > 80 ==> b.0 == 11 + (rc - 81) / 10 + 1 && b.1 == b.0 + 2
  {
    if rc <= 4 then (1, 2)
    else if rc <= 9 then (2, 3)
    else if rc <= 14 then (2, 4)
    else if rc <= 18 then (3, 5)
    else if rc <= 24 then (4, 6)
    else if rc <= 29 then (5, 7)
    else if rc <= 36 then (6, 8)
    else if rc <= 40 then (7, 9)
    else if rc <= 50 then (8, 10)
    else if rc <= 60 then (9, 11)
    else if rc <= 70 then (10, 12)
    else if rc <= 80 then (11, 13)
    else
      var tier := (rc - 81) / 10 + 1;
      (11 + tier, 13 + tier)
  }

  /** Clearing more rooms never lowers the least number of enemies in a room. */
  lemma EnemyCountMinMonotone(a: nat, b: nat)
    requires a <= b
    ensures EnemyCountBracket(a).0 <= EnemyCountBracket(b).0
    ensures EnemyCountBracket(a).1 <= EnemyCountBracket(b).1
  {
    if a > 80 {
      assert (a - 81) / 10 <= (b - 81) / 10;
    }
  }

  lemma EnemyCountAt85()
    ensures EnemyCountBracket(85) == (12, 14)
  {
  }

  /** `Math.floor(r * n)` for a draw r in [0, 1) is one of 0 .. n-1. */
  lemma ScaledDrawInRange(r: real, n: nat)
    requires IsRandom(r) && n >= 1
    ensures 0 <= (r * n as real).Floor < n
  {
    assert r * n as real < n as real;
  }

  /** getEnemyCountForRoom: a uniform pick from the bracket, using the draw `roll`. */
  function EnemyCount(rc: nat, roll: real): (n: int)
    requires IsRandom(roll)
    ensures EnemyCountBracket(rc).0 <= n <= EnemyCountBracket(rc).1
    ensures n >= 1
  {
    var b := EnemyCountBracket(rc);
    ScaledDrawInRange(roll, b.1 - b.0 + 1);
    b.0 + (roll * (b.1 - b.0 + 1) as real).Floor
  }

  // ---------------------------------------------------------------------------
  // Spawn placement
  // ---------------------------------------------------------------------------

  /** isCoordinateInsideRoom: strictly inside the room's walls. */
  predicate IsInsideRoom(x: real, y: real, o: Origin)
  {
    x > (o.ox + 1) as real && x < (o.ox + TILE - 1) as real &&
    y > (o.oy + 1) as real && y < (o.oy + TILE - 1) as real
  }

  /** isCoordinateFarFromPlayer: `sqrt(dx² + dy²) >= minDistance`, which for a
      non-negative minDistance is the same comparison on squares. */
  predicate IsFarFromPlayer(x: real, y: real, px: real, py: real, minDistance: real)
    requires minDistance >= 0.0
  {
    Sq(x - px) + Sq(y - py) >= Sq(minDistance)
  }

  /** A point within the half-cell margin of an n x n pillar whose top-left cell is (px, py). */
  predicate NearPillar(x: real, y: real, px: int, py: int, n: int)
  {
    x >= px as real - 0.5 && x < (px + n) as real + 0.5 &&
    y >= py as real - 0.5 && y < (py + n) as real + 0.5
  }

  /** isCoordinateNotObscuredByPillars, as a predicate: true when the tile has no
      pillars or no position, otherwise the point keeps clear of every pillar. */
  predicate ClearOfPillars(x: real, y: real, v: Option<Variety>, origin: Option<Origin>)
  {
    match v
    case None => true
    case Some(CenterPillar) =>
      origin.None? || !NearPillar(x, y, origin.value.ox + HALF_TILE - 2, origin.value.oy + HALF_TILE - 2, 5)
    case Some(CornerPillars) =>
      origin.None? ||
      forall k :: 0 <= k < |CORNER_OFFSETS| ==>
        !NearPillar(x, y, origin.value.ox + CORNER_OFFSETS[k].0, origin.value.oy + CORNER_OFFSETS[k].1, 2)
  }

  /** isCoordinateNotObscuredByPillars: the corner case walks the four offsets and
      returns false at the first pillar the point is near. */
  method NotObscuredByPillars(x: real, y: real, v: Option<Variety>, origin: Option<Origin>) returns (clear: bool)
    ensures clear == ClearOfPillars(x, y, v, origin)
  {
    if v.None? || origin.None? {
      return true;
    }
    var o := origin.value;
    if v.value == CenterPillar {
      var px := o.ox + HALF_TILE - 2;
      var py := o.oy + HALF_TILE - 2;
      return !NearPillar(x, y, px, py, 5);
    }
    var k := 0;
    while k < |CORNER_OFFSETS|
      invariant 0 <= k <= |CORNER_OFFSETS|
      invariant forall j :: 0 <= j < k ==> !NearPillar(x, y, o.ox + CORNER_OFFSETS[j].0, o.oy + CORNER_OFFSETS[j].1, 2)
    {
      if NearPillar(x, y, o.ox + CORNER_OFFSETS[k].0, o.oy + CORNER_OFFSETS[k].1, 2) {
        return false;
      }
      k := k + 1;
    }
    return true;
  }

  /** A point near no pillar lies on a cell that is not a pillar cell. */
  lemma ClearPointOffPillarCells(x: real, y: real, v: Option<Variety>, o: Origin)
    requires ClearOfPillars(x, y, v, Some(o))
    ensures !InPillars(v, o.ox, o.oy, y.Floor, x.Floor)
  {
    if v == Some(CornerPillars) {
      var cx, cy := x.Floor, y.Floor;
      forall k | 0 <= k < |CORNER_OFFSETS|
        ensures !InBlock(o.ox + CORNER_OFFSETS[k].0, o.oy + CORNER_OFFSETS[k].1, 2, cy, cx)
      {
        assert !NearPillar(x, y, o.ox + CORNER_OFFSETS[k].0, o.oy + CORNER_OFFSETS[k].1, 2);
      }
      assert !InBlock(o.ox + CORNER_OFFSETS[0].0, o.oy + CORNER_OFFSETS[0].1, 2, cy, cx);
      assert !InBlock(o.ox + CORNER_OFFSETS[1].0, o.oy + CORNER_OFFSETS[1].1, 2, cy, cx);
      assert !InBlock(o.ox + CORNER_OFFSETS[2].0, o.oy + CORNER_OFFSETS[2].1, 2, cy, cx);
      assert !InBlock(o.ox + CORNER_OFFSETS[3].0, o.oy + CORNER_OFFSETS[3].1, 2, cy, cx);
      assert !InCornersBelow(0, o.ox, o.oy, cy, cx);
      assert !InCornersBelow(1, o.ox, o.oy, cy, cx);
      assert !InCornersBelow(2, o.ox, o.oy, cy, cx);
      assert !InCornersBelow(3, o.ox, o.oy, cy, cx);
    }
  }

  /** A spawn point inside the room and clear of the pillars stands on a cell that
      build_room leaves as it was (open, in a freshly emptied world): neither on
      the border nor on a pillar. */
  lemma SpawnPointCellOpen(t: Tile, x: real, y: real, o: Origin, prev: int)
    requires IsInsideRoom(x, y, o) && ClearOfPillars(x, y, t.variety, Some(o))
    ensures RoomCell(t, o.ox, o.oy, prev, y.Floor, x.Floor) == prev
  {
    ClearPointOffPillarCells(x, y, t.variety, o);
    var cx, cy := x.Floor, y.Floor;
    assert o.ox + 1 <= cx <= o.ox + TILE - 2 && o.oy + 1 <= cy <= o.oy + TILE - 2;
    assert !OnBorder(o.ox, o.oy, cy, cx);
    assert !InDoor(0, o.ox, o.oy, cy, cx) && !InDoor(1, o.ox, o.oy, cy, cx);
    assert !InDoor(2, o.ox, o.oy, cy, cx) && !InDoor(3, o.ox, o.oy, cy, cx);
  }

  /** generateRandomSpawnCoordinate: a point of [o+2, o+16) on each axis, from two
      draws. Such a point always passes isCoordinateInsideRoom. */
  function SpawnCoordinate(o: Origin, r: (real, real)): (p: (real, real))
    ensures IsRandom(r.0) && IsRandom(r.1) ==>
      (o.ox + 2) as real <= p.0 < (o.ox + TILE - 2) as real &&
      (o.oy + 2) as real <= p.1 < (o.oy + TILE - 2) as real &&
      IsInsideRoom(p.0, p.1, o)
  {
    (o.ox as real + 2.0 + r.0 * (TILE - 4) as real, o.oy as real + 2.0 + r.1 * (TILE - 4) as real)
  }

  /** All three tests attemptSpawnEnemy applies to a candidate point. */
  predicate ValidSpawn(p: (real, real), o: Origin, v: Option<Variety>, px: real, py: real)
  {
    IsInsideRoom(p.0, p.1, o) && IsFarFromPlayer(p.0, p.1, px, py, SPAWN_MIN_DISTANCE) &&
    ClearOfPillars(p.0, p.1, v, Some(o))
  }

  /** The first candidate, drawn from `rolls` in order, that passes all three tests. */
  function FirstValidSpot(o: Origin, v: Option<Variety>, px: real, py: real, rolls: seq<(real, real)>): Option<(real, real)>
  {
    if rolls == [] then None
    else if ValidSpawn(SpawnCoordinate(o, rolls[0]), o, v, px, py) then Some(SpawnCoordinate(o, rolls[0]))
    else FirstValidSpot(o, v, px, py, rolls[1..])
  }

  /** The spot found is one of the candidates, passes all three tests, and every
      earlier candidate failed one of them; no spot is found only when every
      candidate fails. */
  lemma {:induction false} FirstValidSpotIsFirst(o: Origin, v: Option<Variety>, px: real, py: real, rolls: seq<(real, real)>)
    ensures FirstValidSpot(o, v, px, py, rolls).None? <==>
      forall k :: 0 <= k < |rolls| ==> !ValidSpawn(SpawnCoordinate(o, rolls[k]), o, v, px, py)
    ensures FirstValidSpot(o, v, px, py, rolls).Some? ==>
      exists k :: 0 <= k < |rolls| && FirstValidSpot(o, v, px, py, rolls).value == SpawnCoordinate(o, rolls[k]) &&
        ValidSpawn(SpawnCoordinate(o, rolls[k]), o, v, px, py) &&
        forall j :: 0 <= j < k ==> !ValidSpawn(SpawnCoordinate(o, rolls[j]), o, v, px, py)
  {
    if rolls != [] {
      FirstValidSpotIsFirst(o, v, px, py, rolls[1..]);
      if !ValidSpawn(SpawnCoordinate(o, rolls[0]), o, v, px, py) {
        if FirstValidSpot(o, v, px, py, rolls).Some? {
          var k :| 0 <= k < |rolls[1..]| && FirstValidSpot(o, v, px, py, rolls[1..]).value == SpawnCoordinate(o, rolls[1..][k]) &&
            ValidSpawn(SpawnCoordinate(o, rolls[1..][k]), o, v, px, py) &&
            forall j :: 0 <= j < k ==> !ValidSpawn(SpawnCoordinate(o, rolls[1..][j]), o, v, px, py);
          assert forall j :: 0 < j < k + 1 ==> rolls[j] == rolls[1..][j - 1];
        } else {
          assert forall k :: 0 < k < |rolls| ==> rolls[k] == rolls[1..][k - 1];
        }
      } else {
        assert FirstValidSpot(o, v, px, py, rolls).value == SpawnCoordinate(o, rolls[0]);
      }
    }
  }

  /** The difficulty ceiling of a normal enemy: rises to 1 over the first twelve
      cleared rooms, never below 0.05. */
  function NormalDifficultyCap(rc: nat): (m: real)
    ensures 0.05 <= m <= 1.0
    ensures rc >= RAMP_ROOMS ==> m == 1.0
  {
    MaxReal(0.05, MinReal(1.0, rc as real / RAMP_ROOMS as real))
  }

  /** The difficulty ceiling of a ranged enemy: rises from 0 at twelve cleared rooms
      to 1 at twenty-four. */
  function RangedDifficultyCap(rc: nat): (m: real)
    requires rc >= RAMP_ROOMS
    ensures 0.0 <= m <= 1.0
    ensures rc == RAMP_ROOMS ==> m == 0.0
    ensures rc >= 2 * RAMP_ROOMS ==> m == 1.0
  {
    MinReal(1.0, (rc - RAMP_ROOMS) as real / RAMP_ROOMS as real)
  }

  /** A draw in [0, 1) scaled by a ceiling in [0, 1] stays in [0, 1). */
  lemma ScaledRoll(roll: real, cap: real)
    requires IsRandom(roll) && 0.0 <= cap <= 1.0
    ensures 0.0 <= roll * cap < 1.0
  {
    assert roll * (1.0 - cap) >= 0.0;
    assert roll * cap == roll - roll * (1.0 - cap);
  }

  /** The enemy record attemptSpawnEnemy builds at a found spot: a difficulty drawn
      below the ceiling for its type, and the colour, speed (and, for a ranged
      enemy, fire rate) that follow from it. A ranged enemy cannot fire for its
      first three seconds. */
  function MakeEnemy(tile: TileId, p: (real, real), isRanged: bool, rc: nat, roll: real, now: real): (e: Enemy)
    requires !isRanged || rc >= RAMP_ROOMS
    requires IsRandom(roll)
    ensures e.tile == tile && e.x == p.0 && e.y == p.1 && e.state == Alive && e.anim == 0.0
    ensures 0.0 <= e.difficulty < 1.0
    ensures e.color == EnemyColor(e.difficulty) && e.speed == EnemySpeed(e.difficulty)
    ensures isRanged <==> e.behaviour.Ranged?
    ensures isRanged ==> e.behaviour.timer == RangedState(now + 3.0, RangedFireRate(e.difficulty), -1.0, false)
  {
    var cap := if isRanged then RangedDifficultyCap(rc) else NormalDifficultyCap(rc);
    var d := roll * cap;
    ScaledRoll(roll, cap);
    Enemy(tile, p.0, p.1, 0.0, EnemyColor(d), EnemySpeed(d), d, Alive,
          if isRanged then Ranged(RangedState(now + 3.0, RangedFireRate(d), -1.0, false)) else Normal)
  }

  /** attemptSpawnEnemy: try at most fifty candidate points, two draws each, and
      build an enemy at the first one that passes all three tests. A tile with no
      position yields nothing, and so does a ranged request before twelve rooms
      are cleared (that check is made only once a spot is found). */
  method AttemptSpawnEnemy(tile: TileId, origin: Option<Origin>, v: Option<Variety>, isRanged: bool,
                           rc: nat, px: real, py: real, rolls: seq<(real, real)>, roll: real, now: real)
    returns (e: Option<Enemy>)
    requires |rolls| == MAX_ATTEMPTS
    requires IsRandom(roll)
    ensures origin.None? ==> e.None?
    ensures origin.Some? ==>
      (e.Some? <==> FirstValidSpot(origin.value, v, px, py, rolls).Some? && (!isRanged || rc >= RAMP_ROOMS))
    ensures e.Some? ==>
      origin.Some? && (!isRanged || rc >= RAMP_ROOMS) &&
      e.value == MakeEnemy(tile, FirstValidSpot(origin.value, v, px, py, rolls).value, isRanged, rc, roll, now)
  {
    if origin.None? {
      return None;
    }
    var o := origin.value;
    var attempt := 0;
    while attempt < MAX_ATTEMPTS
      invariant 0 <= attempt <= MAX_ATTEMPTS
      invariant FirstValidSpot(o, v, px, py, rolls) == FirstValidSpot(o, v, px, py, rolls[attempt..])
    {
      assert rolls[attempt..][1..] == rolls[attempt + 1..];
      var p := SpawnCoordinate(o, rolls[attempt]);
      var clear := NotObscuredByPillars(p.0, p.1, v, Some(o));
      if IsInsideRoom(p.0, p.1, o) && IsFarFromPlayer(p.0, p.1, px, py, SPAWN_MIN_DISTANCE) && clear {
        if isRanged && rc < RAMP_ROOMS {
          return None;
        }
        return Some(MakeEnemy(tile, p, isRanged, rc, roll, now));
      }
      attempt := attempt + 1;
    }
    return None;
  }

  /** The bounty killEnemy awards: 50 to 100 credits for a normal enemy, 60 to 120
      for a ranged one, rising with difficulty. */
  function CreditValue(e: Enemy): (c: int)
    ensures InUnit(e.difficulty) && e.behaviour.Normal? ==> 50 <= c <= 100
    ensures InUnit(e.difficulty) && e.behaviour.Ranged? ==> 60 <= c <= 120
  {
    if e.behaviour.Ranged? then Round(60.0 + e.difficulty * 60.0) else Round(50.0 + e.difficulty * 50.0)
  }

  /** A harder enemy of the same type is never worth less. */
  lemma CreditValueMonotone(e1: Enemy, e2: Enemy)
    requires e1.behaviour.Ranged? == e2.behaviour.Ranged?
    requires e1.difficulty <= e2.difficulty
    ensures CreditValue(e1) <= CreditValue(e2)
  {
  }

  /** The shooting part of updateEnemies for one ranged enemy at time `now`: start
      telegraphing once fireRate seconds have passed since the last shot; fire
      (the second component) once telegraphing has lasted TELEGRAPH_DURATION,
      which restarts the timer. A shot needs a telegraph begun in an earlier frame. */
  function RangedFireStep(r: RangedState, now: real): (out: (RangedState, bool))
    ensures out.1 ==> r.isTelegraphing && now - r.telegraphStart >= TELEGRAPH_DURATION
    ensures out.1 ==> out.0 == RangedState(now, r.fireRate, -1.0, false)
    ensures !out.1 && out.0.isTelegraphing ==> out.0.lastShotTime == r.lastShotTime
    ensures !out.1 && !r.isTelegraphing ==>
      (out.0.isTelegraphing <==> now - r.lastShotTime >= r.fireRate)
    ensures out.0.fireRate == r.fireRate
  {
    var r1 := if !r.isTelegraphing && now - r.lastShotTime >= r.fireRate
              then r.(isTelegraphing := true, telegraphStart := now) else r;
    if r1.isTelegraphing && now - r1.telegraphStart >= TELEGRAPH_DURATION then
      (RangedState(now, r1.fireRate, -1.0, false), true)
    else (r1, false)
  }

  /** Two frames at the same instant never fire twice: a shot resets the timer, so
      the next shot waits for a full fire interval and a telegraph. */
  lemma NoDoubleFire(r: RangedState, now: real)
    requires RangedFireStep(r, now).1
    ensures !RangedFireStep(RangedFireStep(r, now).0, now).1
  {
    assert TELEGRAPH_DURATION > 0.0;
  }

  /** Player-enemy contact in updateEnemies: `hypot(dx, dy) < PLAYER_RADIUS + ENEMY_RADIUS`. */
  predicate TouchesPlayer(e: Enemy, px: real, py: real)
  {
    Sq(px - e.x) + Sq(py - e.y) < Sq(CONTACT_RADIUS)
  }

  /** A player shot at (sx, sy) hits an enemy when its squared distance is strictly
      below ENEMY_RADIUS squared. */
  predicate ShotHitsEnemy(sx: real, sy: real, e: Enemy)
  {
    Sq(sx - e.x) + Sq(sy - e.y) < ENEMY_RADIUS * ENEMY_RADIUS
  }
}
