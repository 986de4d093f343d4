/** The rules of enemies.js as functions and lemmas: counting alive enemies,
    the ledger of rooms, the bounty, one player shot against the enemy list and
    the whole shot pass, an enemy's frame, the exit-block check, and where a
    pass of retirements stands. The operations that follow these rules, on the
    game state, live in `Enemies`. */
module EnemyRules {
  import opened Common
  import opened Tiles
  import opened Projectiles
  import opened EnemyModel
  import opened State
  import opened WorldGeneration
  import opened Ui


  // ---------------------------------------------------------------------------
  // Counting
  // ---------------------------------------------------------------------------

  /** How many elements of `xs` satisfy `p`. */
  function Count<T>(xs: seq<T>, p: T -> bool): (n: nat)
    ensures n <= |xs|
  {
    if xs == [] then 0 else Count(xs[..|xs| - 1], p) + (if p(xs[|xs| - 1]) then 1 else 0)
  }

  /** Nothing is counted exactly when no element satisfies `p`. */
  lemma {:induction false} CountZero<T>(xs: seq<T>, p: T -> bool)
    ensures Count(xs, p) == 0 <==> forall k :: 0 <= k < |xs| ==> !p(xs[k])
  {
    if xs != [] {
      CountZero(xs[..|xs| - 1], p);
      assert forall k :: 0 <= k < |xs| - 1 ==> xs[..|xs| - 1][k] == xs[k];
    }
  }

  lemma {:induction false} CountAppend<T>(a: seq<T>, b: seq<T>, p: T -> bool)
    ensures Count(a + b, p) == Count(a, p) + Count(b, p)
    decreases |b|
  {
    if b == [] {
      assert a + b == a;
    } else {
      CountAppend(a, b[..|b| - 1], p);
      assert (a + b)[..|a + b| - 1] == a + b[..|b| - 1];
    }
  }

  /** Replacing one element changes the count by that element's contribution only. */
  lemma CountUpdate<T>(xs: seq<T>, k: nat, x: T, p: T -> bool)
    requires k < |xs|
    ensures Count(xs[k := x], p) == Count(xs, p) - (if p(xs[k]) then 1 else 0) + (if p(x) then 1 else 0)
  {
    assert xs == xs[..k] + [xs[k]] + xs[k + 1..];
    assert xs[k := x] == xs[..k] + [x] + xs[k + 1..];
    assert [xs[k]][..0] == [] && [x][..0] == [];
    CountAppend(xs[..k] + [xs[k]], xs[k + 1..], p);
    CountAppend(xs[..k], [xs[k]], p);
    CountAppend(xs[..k] + [x], xs[k + 1..], p);
    CountAppend(xs[..k], [x], p);
  }

  /** When every element satisfying `p` in `b` satisfies it in `a` at the same
      place, `b` counts no more than `a`, and strictly fewer when some place
      satisfies it in `a` only. */
  lemma {:induction false} CountPointwise<T>(a: seq<T>, b: seq<T>, p: T -> bool)
    requires |a| == |b|
    requires forall k :: 0 <= k < |b| && p(b[k]) ==> p(a[k])
    ensures Count(b, p) <= Count(a, p)
    ensures (exists k :: 0 <= k < |a| && p(a[k]) && !p(b[k])) ==> Count(b, p) < Count(a, p)
  {
    if a != [] {
      var n := |a| - 1;
      CountPointwise(a[..n], b[..n], p);
      if exists k :: 0 <= k < |a| && p(a[k]) && !p(b[k]) {
        var k :| 0 <= k < |a| && p(a[k]) && !p(b[k]);
        if k < n {
          assert a[..n][k] == a[k] && b[..n][k] == b[k];
        }
      }
    }
  }

  predicate IsAlive(e: Enemy)
  {
    e.state == Alive
  }

  /** How many enemies are alive. */
  function AliveCount(es: seq<Enemy>): nat
  {
    Count(es, IsAlive)
  }

  /** How many alive enemies belong to tile t: the aliveCount of checkAndUpdateExitBlocks. */
  function AliveIn(es: seq<Enemy>, t: TileId): nat
  {
    Count(es, (e: Enemy) => e.tile == t && e.state == Alive)
  }

  lemma AliveInZero(es: seq<Enemy>, t: TileId)
    ensures AliveIn(es, t) == 0 <==> forall k :: 0 <= k < |es| ==> !(es[k].tile == t && es[k].state == Alive)
  {
    CountZero(es, (e: Enemy) => e.tile == t && e.state == Alive);
  }

  /** `enemies.filter(e => e.state === 'alive')`. */
  function AliveOnly(es: seq<Enemy>): (r: seq<Enemy>)
    ensures forall k :: 0 <= k < |r| ==> r[k].state == Alive
    ensures forall e :: e in r <==> e in es && e.state == Alive
  {
    if es == [] then []
    else AliveOnly(es[..|es| - 1]) + (if es[|es| - 1].state == Alive then [es[|es| - 1]] else [])
  }

  /** Pruning keeps every alive enemy: as many in all, and as many on each tile. */
  lemma {:induction false} AliveOnlyCounts(es: seq<Enemy>, t: TileId)
    ensures |AliveOnly(es)| == AliveCount(es) == AliveCount(AliveOnly(es))
    ensures AliveIn(AliveOnly(es), t) == AliveIn(es, t)
  {
    if es != [] {
      var front := es[..|es| - 1];
      var last := es[|es| - 1];
      AliveOnlyCounts(front, t);
      var tail := if last.state == Alive then [last] else [];
      assert tail == [] || tail[..0] == [];
      CountAppend(AliveOnly(front), tail, IsAlive);
      CountAppend(AliveOnly(front), tail, (e: Enemy) => e.tile == t && e.state == Alive);
    }
  }

  // ---------------------------------------------------------------------------
  // The ledger of rooms
  // ---------------------------------------------------------------------------

  /** Tiles whose room is sealed with enemies in it. */
  function ActiveRooms(ts: seq<Tile>): nat
  {
    Count(ts, (t: Tile) => t.hasActiveEnemies)
  }

  /** Tiles whose enemies have been spawned (or that may never spawn). */
  function SpawnedRooms(ts: seq<Tile>): nat
  {
    Count(ts, (t: Tile) => t.spawned)
  }

  /** A room can be counted as cleared at most once per wave: only a spawned
      tile is ever active, and the rooms cleared plus the rooms still active
      never exceed the rooms spawned. */
  predicate LedgerOf(ts: seq<Tile>, rc: int)
  {
    rc >= 0 &&
    rc + ActiveRooms(ts) <= SpawnedRooms(ts) &&
    forall i :: 0 <= i < |ts| && ts[i].hasActiveEnemies ==> ts[i].spawned
  }

  predicate Ledger(g: Game)
    reads g`tiles, g`roomsCleared
  {
    LedgerOf(g.tiles, g.roomsCleared)
  }

  /** The tile once its enemies are gone: no longer active, its exit blocks
      dropped when it had a record of them. */
  function Cleared(t: Tile, hadRecord: bool): Tile
  {
    t.(hasActiveEnemies := false, exitBlocks := if hadRecord then {} else t.exitBlocks)
  }

  /** Clearing a tile keeps every tile's neighbours. */
  lemma ClearedKeepsNeighbours(ts: seq<Tile>, t: nat, hadRecord: bool)
    requires t < |ts|
    ensures forall i :: 0 <= i < |ts| ==> ts[t := Cleared(ts[t], hadRecord)][i].neighbors == ts[i].neighbors
  {
  }

  /** Clearing one active tile moves it from the active rooms to the cleared ones. */
  lemma ClearKeepsLedger(ts: seq<Tile>, i: nat, hadRecord: bool)
    requires i < |ts| && ts[i].hasActiveEnemies
    ensures ActiveRooms(ts[i := Cleared(ts[i], hadRecord)]) == ActiveRooms(ts) - 1
    ensures SpawnedRooms(ts[i := Cleared(ts[i], hadRecord)]) == SpawnedRooms(ts)
  {
    CountUpdate(ts, i, Cleared(ts[i], hadRecord), (t: Tile) => t.hasActiveEnemies);
    CountUpdate(ts, i, Cleared(ts[i], hadRecord), (t: Tile) => t.spawned);
  }

  /** Changing a tile's exit blocks or neighbours leaves both room counts alone. */
  lemma SameFlagsSameCounts(ts: seq<Tile>, i: nat, t: Tile)
    requires i < |ts| && t.hasActiveEnemies == ts[i].hasActiveEnemies && t.spawned == ts[i].spawned
    ensures ActiveRooms(ts[i := t]) == ActiveRooms(ts) && SpawnedRooms(ts[i := t]) == SpawnedRooms(ts)
  {
    CountUpdate(ts, i, t, (t: Tile) => t.hasActiveEnemies);
    CountUpdate(ts, i, t, (t: Tile) => t.spawned);
  }

  // ---------------------------------------------------------------------------
  // Credits
  // ---------------------------------------------------------------------------

  /** The credits earned between two versions of the enemy list: the bounty of
      every enemy alive in `a` and killed in `b`. */
  function Bounty(a: seq<Enemy>, b: seq<Enemy>): int
    requires |a| == |b|
  {
    if a == [] then 0
    else
      var n := |a| - 1;
      Bounty(a[..n], b[..n]) + (if a[n].state == Alive && b[n].state == Killed then CreditValue(a[n]) else 0)
  }

  /** Retiring the alive enemy k of `b` earns its bounty when it is killed and
      nothing when it is despawned. */
  lemma {:induction false} BountyRetire(a: seq<Enemy>, b: seq<Enemy>, k: nat, st: LifeState)
    requires |a| == |b| && k < |b| && b[k].state == Alive && a[k] == b[k]
    ensures Bounty(a, b[k := b[k].(state := st)]) == Bounty(a, b) + (if st == Killed then CreditValue(b[k]) else 0)
  {
    var n := |a| - 1;
    var b' := b[k := b[k].(state := st)];
    if k < n {
      assert b'[..n] == b[..n][k := b[k].(state := st)];
      BountyRetire(a[..n], b[..n], k, st);
    } else {
      assert b'[..n] == b[..n];
    }
  }

  /** Every enemy killed between `a` and `b` is worth 50 to 120 credits. */
  lemma {:induction false} BountyBounds(a: seq<Enemy>, b: seq<Enemy>)
    requires RetiredFrom(a, b, Killed)
    requires forall k :: 0 <= k < |a| ==> InUnit(a[k].difficulty)
    ensures 50 * (AliveCount(a) - AliveCount(b)) <= Bounty(a, b) <= 120 * (AliveCount(a) - AliveCount(b))
  {
    if a != [] {
      var n := |a| - 1;
      BountyBounds(a[..n], b[..n]);
      assert a == a[..n] + [a[n]] && b == b[..n] + [b[n]];
      CountAppend(a[..n], [a[n]], IsAlive);
      CountAppend(b[..n], [b[n]], IsAlive);
    }
  }

  // ---------------------------------------------------------------------------
  // Player shots against enemies
  // ---------------------------------------------------------------------------

  /** One player shot against the list: every alive enemy within ENEMY_RADIUS is killed. */
  function HitAll(s: Shot, es: seq<Enemy>): (r: seq<Enemy>)
    ensures |r| == |es|
    ensures forall k :: 0 <= k < |es| ==>
      r[k] == if es[k].state == Alive && ShotHitsEnemy(s.x, s.y, es[k]) then es[k].(state := Killed) else es[k]
  {
    seq(|es|, k requires 0 <= k < |es| =>
      if es[k].state == Alive && ShotHitsEnemy(s.x, s.y, es[k]) then es[k].(state := Killed) else es[k])
  }

  /** The enemies after shot `s` has been checked against those at index `i` and
      later, last first. */
  function HitAllFrom(s: Shot, es: seq<Enemy>, i: nat): (r: seq<Enemy>)
    ensures |r| == |es|
    decreases |es| - i
  {
    if i >= |es| then es
    else
      var rest := HitAllFrom(s, es, i + 1);
      if es[i].state == Alive && ShotHitsEnemy(s.x, s.y, es[i]) then rest[i := es[i].(state := Killed)] else rest
  }

  /** Enemy k after the tests from index i on: killed exactly when it was reached by the checks,
      alive and in reach. */
  lemma {:induction false} HitAllFromAt(s: Shot, es: seq<Enemy>, i: nat, k: nat)
    requires k < |es|
    ensures HitAllFrom(s, es, i)[k] ==
      if k >= i && es[k].state == Alive && ShotHitsEnemy(s.x, s.y, es[k]) then es[k].(state := Killed) else es[k]
    decreases |es| - i
  {
    if i < |es| {
      HitAllFromAt(s, es, i + 1, k);
    }
  }

  /** Testing one more enemy, at index i, kills it when it is alive and in reach. */
  lemma HitAllFromStep(s: Shot, es: seq<Enemy>, i: nat)
    requires i < |es|
    ensures HitAllFrom(s, es, i + 1)[i] == es[i]
    ensures HitAllFrom(s, es, i) ==
      if es[i].state == Alive && ShotHitsEnemy(s.x, s.y, es[i])
      then HitAllFrom(s, es, i + 1)[i := es[i].(state := Killed)] else HitAllFrom(s, es, i + 1)
  {
    HitAllFromAt(s, es, i + 1, i);
  }

  /** Before any test the list is as it was; after all of them it is HitAll's. */
  lemma HitAllFromEnds(s: Shot, es: seq<Enemy>)
    ensures HitAllFrom(s, es, |es|) == es
    ensures HitAllFrom(s, es, 0) == HitAll(s, es)
  {
    forall k | 0 <= k < |es|
      ensures HitAllFrom(s, es, 0)[k] == HitAll(s, es)[k]
    {
      HitAllFromAt(s, es, 0, k);
    }
  }

  /** The shot reaches at least one alive enemy. */
  predicate AnyHit(s: Shot, es: seq<Enemy>)
  {
    exists k :: 0 <= k < |es| && es[k].state == Alive && ShotHitsEnemy(s.x, s.y, es[k])
  }

  /** The shot reaches an alive enemy at index i or later. */
  predicate HitsFrom(s: Shot, es: seq<Enemy>, i: nat)
  {
    exists j :: i <= j < |es| && es[j].state == Alive && ShotHitsEnemy(s.x, s.y, es[j])
  }

  lemma HitsFromStep(s: Shot, es: seq<Enemy>, i: nat)
    requires i < |es|
    ensures HitsFrom(s, es, i) <==> (es[i].state == Alive && ShotHitsEnemy(s.x, s.y, es[i])) || HitsFrom(s, es, i + 1)
  {
    if HitsFrom(s, es, i) {
      var j :| i <= j < |es| && es[j].state == Alive && ShotHitsEnemy(s.x, s.y, es[j]);
      if j != i {
        assert HitsFrom(s, es, i + 1);
      }
    }
  }

  lemma HitsFromStart(s: Shot, es: seq<Enemy>)
    ensures AnyHit(s, es) <==> HitsFrom(s, es, 0)
    ensures !HitsFrom(s, es, |es|)
  {
  }

  /** The shot-collision pass of updateEnemies, last shot first: each shot kills
      every alive enemy it reaches and is removed when it reached one. The result
      is the shots kept, in order, and the enemies with their new states. */
  function Resolve(ss: seq<Shot>, es: seq<Enemy>): (r: (seq<Shot>, seq<Enemy>))
    ensures |r.1| == |es|
  {
    if ss == [] then ([], es)
    else
      var s := ss[|ss| - 1];
      var rest := Resolve(ss[..|ss| - 1], HitAll(s, es));
      (rest.0 + (if AnyHit(s, es) then [] else [s]), rest.1)
  }

  /** `b` is `a` with some alive enemies moved to state `s` and nothing else changed. */
  predicate RetiredFrom(a: seq<Enemy>, b: seq<Enemy>, s: LifeState)
  {
    |a| == |b| &&
    forall k :: 0 <= k < |a| ==> b[k] == a[k] || (a[k].state == Alive && b[k] == a[k].(state := s))
  }

  /** The shot pass only kills: every enemy keeps its place and data, an alive
      one may become killed; every kept shot is one of the shots; and no kept
      shot reaches an enemy still alive afterwards. */
  lemma {:induction false} ResolveShape(ss: seq<Shot>, es: seq<Enemy>)
    ensures RetiredFrom(es, Resolve(ss, es).1, Killed)
    ensures |Resolve(ss, es).0| <= |ss|
    ensures forall s :: s in Resolve(ss, es).0 ==> s in ss
    ensures forall s, k :: s in Resolve(ss, es).0 && 0 <= k < |es| && Resolve(ss, es).1[k].state == Alive ==>
      !ShotHitsEnemy(s.x, s.y, Resolve(ss, es).1[k])
  {
    if ss != [] {
      var s := ss[|ss| - 1];
      var front := ss[..|ss| - 1];
      var es1 := HitAll(s, es);
      ResolveShape(front, es1);
      var r := Resolve(ss, es);
      assert r.1 == Resolve(front, es1).1;
      forall s', k | s' in r.0 && 0 <= k < |es| && r.1[k].state == Alive
        ensures !ShotHitsEnemy(s'.x, s'.y, r.1[k])
      {
        if s' !in Resolve(front, es1).0 {
          assert s' == s && !AnyHit(s, es);
        }
      }
    }
  }

  /** Every shot the pass removes killed at least one enemy, and every enemy dies
      at most once, so the alive enemies drop by at least the shots removed. */
  lemma {:induction false} ResolveKillsPerShot(ss: seq<Shot>, es: seq<Enemy>)
    ensures |Resolve(ss, es).1| == |es|
    ensures AliveCount(Resolve(ss, es).1) + (|ss| - |Resolve(ss, es).0|) <= AliveCount(es)
  {
    ResolveShape(ss, es);
    if ss != [] {
      var s := ss[|ss| - 1];
      var es1 := HitAll(s, es);
      ResolveKillsPerShot(ss[..|ss| - 1], es1);
      CountPointwise(es, es1, IsAlive);
      if AnyHit(s, es) {
        var k :| 0 <= k < |es| && es[k].state == Alive && ShotHitsEnemy(s.x, s.y, es[k]);
        assert IsAlive(es[k]) && !IsAlive(es1[k]);
      }
    }
  }

  // ---------------------------------------------------------------------------
  // One enemy's frame
  // ---------------------------------------------------------------------------

  /** The velocity of a shot fired along (dx, dy), whose length is h. */
  predicate AimedAt(s: Shot, dx: real, dy: real, h: real)
  {
    h > MIN_CHASE_DIST && s.vx == dx / h * ENEMY_SHOT_SPEED && s.vy == dy / h * ENEMY_SHOT_SPEED
  }

  /** An alive enemy's frame in updateEnemies, given `h = hypot(px - x, py - y)`
      measured before it moves: age the animation; unless it already stands on
      the player, step `speed · dt` towards the player, each axis only where the
      cell is open; a ranged enemy then advances its telegraph timer and, on
      firing, shoots from its new position towards where the player was. */
  function StepEnemy(w: array2<int>, e: Enemy, px: real, py: real, dt: real, now: real, h: real): (r: (Enemy, Option<Shot>))
    reads w
    requires h >= 0.0
    ensures r.0.state == e.state && r.0.tile == e.tile && r.0.difficulty == e.difficulty && r.0.speed == e.speed
    ensures e.state != Alive ==> r == (e, None)
    ensures e.state == Alive ==> r.0.anim == e.anim + dt
    ensures r.0.behaviour.Ranged? == e.behaviour.Ranged?
    ensures r.1.Some? ==>
      (e.state == Alive && e.behaviour.Ranged? && RangedFireStep(e.behaviour.timer, now).1 &&
       AimedAt(r.1.value, px - e.x, py - e.y, h) && r.1.value.x == r.0.x && r.1.value.y == r.0.y && r.1.value.t == 0.0)
  {
    if e.state != Alive then (e, None)
    else
      var dx, dy := px - e.x, py - e.y;
      var p := if h > MIN_CHASE_DIST
               then Slide(w, e.x, e.y, e.x + dx / h * (e.speed * dt), e.y + dy / h * (e.speed * dt))
               else (e.x, e.y);
      var moved := e.(anim := e.anim + dt, x := p.0, y := p.1);
      match e.behaviour
      case Normal => (moved, None)
      case Ranged(timer) =>
        var fs := RangedFireStep(timer, now);
        var shot := if fs.1 && h > MIN_CHASE_DIST
                    then Some(Shot(p.0, p.1, dx / h * ENEMY_SHOT_SPEED, dy / h * ENEMY_SHOT_SPEED, 0.0))
                    else None;
        (moved.(behaviour := Ranged(fs.0)), shot)
  }

  /** An enemy that starts its frame on an open cell ends it on one. */
  lemma StepStaysOpen(w: array2<int>, e: Enemy, px: real, py: real, dt: real, now: real, h: real)
    requires h >= 0.0 && CanMove(w, e.x, e.y)
    ensures CanMove(w, StepEnemy(w, e, px, py, dt, now, h).0.x, StepEnemy(w, e, px, py, dt, now, h).0.y)
  {
    if e.state == Alive && h > MIN_CHASE_DIST {
      var dx, dy := px - e.x, py - e.y;
      SlideStaysOpen(w, e.x, e.y, e.x + dx / h * (e.speed * dt), e.y + dy / h * (e.speed * dt));
    }
  }

  /** A ranged enemy's shot flies at exactly ENEMY_SHOT_SPEED along (dx, dy):
      scaling (dx, dy) by ENEMY_SHOT_SPEED / hypot(dx, dy) keeps its direction
      and gives it that length. */
  lemma EnemyShotSpeed(s: Shot, dx: real, dy: real, h: real)
    requires IsHypot(dx, dy, h) && AimedAt(s, dx, dy, h)
    ensures Sq(s.vx) + Sq(s.vy) == Sq(ENEMY_SHOT_SPEED)
    ensures s.vx * h == dx * ENEMY_SHOT_SPEED && s.vy * h == dy * ENEMY_SHOT_SPEED
  {
    var vx, vy, c := s.vx, s.vy, ENEMY_SHOT_SPEED;
    assert vx * h == dx * c;
    assert vy * h == dy * c;
    var lhs, hh, cc := vx * vx + vy * vy, h * h, c * c;
    assert lhs * hh == (vx * h) * (vx * h) + (vy * h) * (vy * h);
    assert lhs * hh == cc * (dx * dx + dy * dy);
    assert lhs * hh == cc * hh;
    SquareBelow(0.0, h);
    assert (lhs - cc) * hh == 0.0;
  }

  /** Every enemy's frame, in list order: its new state and the shot it fires, if any. */
  function Steps(w: array2<int>, es: seq<Enemy>, px: real, py: real, dt: real, now: real,
                 hypot: (real, real) -> real): (r: seq<(Enemy, Option<Shot>)>)
    reads w
    requires forall a, b :: hypot(a, b) >= 0.0
    ensures |r| == |es|
  {
    if es == [] then []
    else [StepEnemy(w, es[0], px, py, dt, now, hypot(px - es[0].x, py - es[0].y))] + Steps(w, es[1..], px, py, dt, now, hypot)
  }

  /** The k-th frame is enemy k's own, measured from its own position. */
  lemma {:induction false} StepsAt(w: array2<int>, es: seq<Enemy>, k: nat, px: real, py: real, dt: real, now: real,
                                   hypot: (real, real) -> real)
    requires forall a, b :: hypot(a, b) >= 0.0
    requires k < |es|
    ensures Steps(w, es, px, py, dt, now, hypot)[k] == StepEnemy(w, es[k], px, py, dt, now, hypot(px - es[k].x, py - es[k].y))
  {
    if k > 0 {
      StepsAt(w, es[1..], k - 1, px, py, dt, now, hypot);
      assert es[1..][k - 1] == es[k];
    }
  }

  /** An enemy that is not alive keeps its frame unchanged and fires nothing. */
  lemma StepsIdle(w: array2<int>, es: seq<Enemy>, k: nat, px: real, py: real, dt: real, now: real,
                  hypot: (real, real) -> real)
    requires forall a, b :: hypot(a, b) >= 0.0
    requires k < |es| && es[k].state != Alive
    ensures Steps(w, es, px, py, dt, now, hypot)[k] == (es[k], None)
  {
    StepsAt(w, es, k, px, py, dt, now, hypot);
  }

  /** The enemies of a list of frames. */
  function Movers(steps: seq<(Enemy, Option<Shot>)>): (r: seq<Enemy>)
    ensures |r| == |steps|
  {
    seq(|steps|, k requires 0 <= k < |steps| => steps[k].0)
  }

  /** The shots of the frames from index i on, in the order updateEnemies pushes
      them: from the last enemy of the list down to enemy i. */
  function ShotsOf(steps: seq<(Enemy, Option<Shot>)>, i: nat): seq<Shot>
    decreases |steps| - i
  {
    if i >= |steps| then []
    else ShotsOf(steps, i + 1) + (if steps[i].1.Some? then [steps[i].1.value] else [])
  }

  /** The enemies after every one has taken its frame (the list keeps its order). */
  function StepAll(w: array2<int>, es: seq<Enemy>, px: real, py: real, dt: real, now: real,
                   hypot: (real, real) -> real): seq<Enemy>
    reads w
    requires forall a, b :: hypot(a, b) >= 0.0
  {
    Movers(Steps(w, es, px, py, dt, now, hypot))
  }

  /** The enemy shots fired during the frame. */
  function ShotsFired(w: array2<int>, es: seq<Enemy>, px: real, py: real, dt: real, now: real,
                      hypot: (real, real) -> real): seq<Shot>
    reads w
    requires forall a, b :: hypot(a, b) >= 0.0
  {
    ShotsOf(Steps(w, es, px, py, dt, now, hypot), 0)
  }

  /** Player-enemy contact as updateEnemies tests it: an alive enemy whose
      distance to the player, `hypot(px - x, py - y)`, is below
      PLAYER_RADIUS + ENEMY_RADIUS. */
  predicate Reaches(e: Enemy, px: real, py: real, hypot: (real, real) -> real)
  {
    e.state == Alive && hypot(px - e.x, py - e.y) < PLAYER_RADIUS + ENEMY_RADIUS
  }

  /** With a true hypotenuse, the test through `hypot` is the squared-distance
      contact test. */
  lemma ReachesIsContact(e: Enemy, px: real, py: real, hypot: (real, real) -> real)
    requires IsHypotFn(hypot)
    ensures Reaches(e, px, py, hypot) <==> e.state == Alive && TouchesPlayer(e, px, py)
  {
    var dx, dy := px - e.x, py - e.y;
    assert IsHypot(dx, dy, hypot(dx, dy));
    HypotBelow(dx, dy, hypot(dx, dy), CONTACT_RADIUS);
  }

  /** Some enemy of the list reaches the player. */
  predicate AnyTouches(es: seq<Enemy>, px: real, py: real, hypot: (real, real) -> real)
  {
    exists k :: 0 <= k < |es| && Reaches(es[k], px, py, hypot)
  }

  /** Some enemy at index i or later reaches the player. */
  predicate TouchesFrom(es: seq<Enemy>, i: nat, px: real, py: real, hypot: (real, real) -> real)
  {
    exists j :: i <= j < |es| && Reaches(es[j], px, py, hypot)
  }

  lemma TouchesFromStep(es: seq<Enemy>, i: nat, px: real, py: real, hypot: (real, real) -> real)
    requires i < |es|
    ensures TouchesFrom(es, i, px, py, hypot) <==>
      Reaches(es[i], px, py, hypot) || TouchesFrom(es, i + 1, px, py, hypot)
  {
    if TouchesFrom(es, i, px, py, hypot) {
      var j :| i <= j < |es| && Reaches(es[j], px, py, hypot);
      if j != i {
        assert TouchesFrom(es, i + 1, px, py, hypot);
      }
    }
  }

  lemma TouchesFromStart(es: seq<Enemy>, px: real, py: real, hypot: (real, real) -> real)
    ensures AnyTouches(es, px, py, hypot) <==> TouchesFrom(es, 0, px, py, hypot)
    ensures !TouchesFrom(es, |es|, px, py, hypot)
  {
  }

  /** The game ends by contact exactly when some alive enemy is within the
      contact radius of the player, measured on squares. */
  lemma AnyTouchesIsContact(es: seq<Enemy>, px: real, py: real, hypot: (real, real) -> real)
    requires IsHypotFn(hypot)
    ensures AnyTouches(es, px, py, hypot) <==>
      exists k :: 0 <= k < |es| && es[k].state == Alive && TouchesPlayer(es[k], px, py)
  {
    forall k | 0 <= k < |es| {
      ReachesIsContact(es[k], px, py, hypot);
    }
  }

  // ---------------------------------------------------------------------------
  // The exit-block check and the retirement of enemies
  // ---------------------------------------------------------------------------

  /** The tiles, exit-block records and rooms-cleared counter after
      checkAndUpdateExitBlocks(t) with the enemy list `es`: a sealed tile none of
      whose enemies is alive any more is cleared, loses its record and counts as
      one more room cleared; otherwise nothing changes. */
  function ExitCheck(ts: seq<Tile>, bw: map<TileId, set<Block>>, rc: int, es: seq<Enemy>, t: TileId)
    : (r: (seq<Tile>, map<TileId, set<Block>>, int))
    requires t < |ts|
  {
    if ts[t].hasActiveEnemies && AliveIn(es, t) == 0 then (ts[t := Cleared(ts[t], t in bw)], bw - {t}, rc + 1)
    else (ts, bw, rc)
  }

  /** The check counts a room exactly when it takes it off the active rooms, so
      it keeps the ledger; it never touches another tile. */
  lemma ExitCheckKeepsLedger(ts: seq<Tile>, bw: map<TileId, set<Block>>, rc: int, es: seq<Enemy>, t: TileId)
    requires t < |ts|
    ensures var r := ExitCheck(ts, bw, rc, es, t);
      |r.0| == |ts| && (forall i :: 0 <= i < |ts| && i != t ==> r.0[i] == ts[i]) &&
      (LedgerOf(ts, rc) ==> LedgerOf(r.0, r.2)) &&
      (r.2 == rc + 1 <==> ts[t].hasActiveEnemies && AliveIn(es, t) == 0) &&
      (r.2 == rc + 1 ==> !r.0[t].hasActiveEnemies && t !in r.1)
  {
    if ts[t].hasActiveEnemies && AliveIn(es, t) == 0 {
      ClearKeepsLedger(ts, t, t in bw);
    }
  }

  /** A cell the record of tile t covers, when the record is dropped (`fires`). */
  predicate ClearsCell(bw: map<TileId, set<Block>>, t: TileId, fires: bool, y: int, x: int)
  {
    fires && t in bw && Covers(bw[t], y, x)
  }

  /** Between the state on entry and now, the check on tile t was made with the
      current enemy list: rooms as ExitCheck says, and the cells of a dropped
      record set back to 0. */
  twostate predicate ExitChecked(g: Game, t: TileId)
    reads g, g.world
  {
    t < |old(g.tiles)| && g.world == old(g.world) &&
    (g.tiles, g.blockingWalls, g.roomsCleared) ==
      ExitCheck(old(g.tiles), old(g.blockingWalls), old(g.roomsCleared), g.enemies, t) &&
    forall y, x :: InGrid(g.world, y, x) ==>
      g.world[y, x] == if ClearsCell(old(g.blockingWalls), t, old(g.tiles[t].hasActiveEnemies) && AliveIn(g.enemies, t) == 0, y, x)
                       then 0 else old(g.world[y, x])
  }

  /** The rooms and the grid are as they were on entry. */
  twostate predicate RoomsUnchanged(g: Game)
    reads g, g.world
  {
    g.world == old(g.world) && g.tiles == old(g.tiles) && g.blockingWalls == old(g.blockingWalls) &&
    g.roomsCleared == old(g.roomsCleared) &&
    forall y, x :: InGrid(g.world, y, x) ==> g.world[y, x] == old(g.world[y, x])
  }

  // ---------------------------------------------------------------------------
  // A pass of retirements
  // ---------------------------------------------------------------------------

  /** The tiles a pass of retirements has emptied, since it started from tiles
      `ts0` and enemies `es0`: sealed tiles that had an alive enemy and have none left. */
  function ClearedBy(ts0: seq<Tile>, es0: seq<Enemy>, es: seq<Enemy>): set<TileId>
  {
    set t: TileId | t < |ts0| && ts0[t].hasActiveEnemies && AliveIn(es0, t) > 0 && AliveIn(es, t) == 0
  }

  /** The tiles of `ts0` with those of `c` cleared. */
  function ClearedTiles(ts0: seq<Tile>, bw0: map<TileId, set<Block>>, c: set<TileId>): (r: seq<Tile>)
    ensures |r| == |ts0|
  {
    ClearedFrom(ts0, bw0, c, 0)
  }

  /** The tiles of `ts0` from index i on, with those of `c` cleared. */
  function ClearedFrom(ts0: seq<Tile>, bw0: map<TileId, set<Block>>, c: set<TileId>, i: nat): (r: seq<Tile>)
    requires i <= |ts0|
    ensures |r| == |ts0| - i
    decreases |ts0| - i
  {
    if i == |ts0| then []
    else [if i in c then Cleared(ts0[i], i in bw0) else ts0[i]] + ClearedFrom(ts0, bw0, c, i + 1)
  }

  lemma {:induction false} ClearedFromAt(ts0: seq<Tile>, bw0: map<TileId, set<Block>>, c: set<TileId>, i: nat, k: nat)
    requires i <= k < |ts0|
    ensures ClearedFrom(ts0, bw0, c, i)[k - i] == if k in c then Cleared(ts0[k], k in bw0) else ts0[k]
    decreases |ts0| - i
  {
    if i < k {
      ClearedFromAt(ts0, bw0, c, i + 1, k);
    }
  }

  /** Tile i of the cleared tiles: cleared exactly when it is one of `c`. */
  lemma ClearedTilesAt(ts0: seq<Tile>, bw0: map<TileId, set<Block>>, c: set<TileId>)
    ensures forall i :: 0 <= i < |ts0| ==>
      ClearedTiles(ts0, bw0, c)[i] == if i in c then Cleared(ts0[i], i in bw0) else ts0[i]
  {
    forall i | 0 <= i < |ts0|
      ensures ClearedTiles(ts0, bw0, c)[i] == if i in c then Cleared(ts0[i], i in bw0) else ts0[i]
    {
      ClearedFromAt(ts0, bw0, c, 0, i);
    }
  }

  /** A cell covered by the record of one of the tiles `c`. */
  predicate ClearedCell(bw0: map<TileId, set<Block>>, c: set<TileId>, y: int, x: int)
  {
    exists t :: t in c && t in bw0 && Covers(bw0[t], y, x)
  }

  /** The rooms after a pass of retirements that took the enemies from `es0` to
      `es`: exactly the tiles it emptied are cleared, lose their records, and
      are counted once each. */
  predicate SettledOf(ts0: seq<Tile>, bw0: map<TileId, set<Block>>, rc0: int, es0: seq<Enemy>, es: seq<Enemy>,
                      ts: seq<Tile>, bw: map<TileId, set<Block>>, rc: int)
  {
    ts == ClearedTiles(ts0, bw0, ClearedBy(ts0, es0, es)) &&
    bw == bw0 - ClearedBy(ts0, es0, es) &&
    rc == rc0 + |ClearedBy(ts0, es0, es)|
  }

  /** Retiring one alive enemy leaves every other tile's alive count alone,
      lowers its own tile's by one, and can add only its own tile to the
      emptied ones. */
  lemma RetireStep(ts0: seq<Tile>, es0: seq<Enemy>, es: seq<Enemy>, k: nat, st: LifeState)
    requires RetiredFrom(es0, es, st) && st != Alive
    requires k < |es| && es[k].state == Alive && es[k].tile < |ts0|
    ensures var es' := es[k := es[k].(state := st)];
      var u := es[k].tile;
      RetiredFrom(es0, es', st) && es0[k] == es[k] &&
      u !in ClearedBy(ts0, es0, es) &&
      ClearedBy(ts0, es0, es') ==
        (if ts0[u].hasActiveEnemies && AliveIn(es', u) == 0 then ClearedBy(ts0, es0, es) + {u} else ClearedBy(ts0, es0, es)) &&
      AliveCount(es') == AliveCount(es) - 1
  {
    var es' := es[k := es[k].(state := st)];
    var u := es[k].tile;
    CountUpdate(es, k, es[k].(state := st), IsAlive);
    forall t | true
      ensures AliveIn(es', t) == AliveIn(es, t) - (if t == u then 1 else 0)
    {
      CountUpdate(es, k, es[k].(state := st), (e: Enemy) => e.tile == t && e.state == Alive);
    }
    AliveInZero(es, u);
    AliveInZero(es0, u);
    assert es0[k] == es[k];
  }

  /** Emptying one more tile clears its tile and drops its record. */
  lemma ClearedAdd(ts0: seq<Tile>, bw0: map<TileId, set<Block>>, c: set<TileId>, u: TileId)
    requires u < |ts0| && u !in c
    ensures ClearedTiles(ts0, bw0, c + {u}) == ClearedTiles(ts0, bw0, c)[u := Cleared(ts0[u], u in bw0)]
    ensures bw0 - (c + {u}) == (bw0 - c) - {u}
    ensures |c + {u}| == |c| + 1
    ensures forall y, x :: ClearedCell(bw0, c + {u}, y, x) <==>
      ClearedCell(bw0, c, y, x) || (u in bw0 && Covers(bw0[u], y, x))
  {
    ClearedTilesAt(ts0, bw0, c + {u});
    ClearedTilesAt(ts0, bw0, c);
    forall y, x
      ensures ClearedCell(bw0, c + {u}, y, x) <==> ClearedCell(bw0, c, y, x) || (u in bw0 && Covers(bw0[u], y, x))
    {
      if ClearedCell(bw0, c + {u}, y, x) {
        var t :| t in c + {u} && t in bw0 && Covers(bw0[t], y, x);
        if t != u {
          assert ClearedCell(bw0, c, y, x);
        }
      }
      if u in bw0 && Covers(bw0[u], y, x) {
        assert u in c + {u};
      }
      if ClearedCell(bw0, c, y, x) {
        var t :| t in c && t in bw0 && Covers(bw0[t], y, x);
        assert t in c + {u};
      }
    }
  }

  /** One retirement followed by the check on its tile keeps a pass settled, and
      the cells it clears are those of the tile it may add to the emptied ones. */
  lemma SettledAfterRetire(ts0: seq<Tile>, bw0: map<TileId, set<Block>>, rc0: int, es0: seq<Enemy>, es: seq<Enemy>,
                           k: nat, st: LifeState, ts: seq<Tile>, bw: map<TileId, set<Block>>, rc: int)
    requires RetiredFrom(es0, es, st) && st != Alive
    requires k < |es| && es[k].state == Alive && es[k].tile < |ts0|
    requires SettledOf(ts0, bw0, rc0, es0, es, ts, bw, rc)
    ensures var es' := es[k := es[k].(state := st)];
      var u := es[k].tile;
      var r := ExitCheck(ts, bw, rc, es', u);
      SettledOf(ts0, bw0, rc0, es0, es', r.0, r.1, r.2) &&
      ClearedBy(ts0, es0, es) <= ClearedBy(ts0, es0, es') &&
      forall y, x :: ClearedCell(bw0, ClearedBy(ts0, es0, es'), y, x) <==>
        ClearedCell(bw0, ClearedBy(ts0, es0, es), y, x) ||
        ClearsCell(bw, u, ts[u].hasActiveEnemies && AliveIn(es', u) == 0, y, x)
  {
    var es' := es[k := es[k].(state := st)];
    var u := es[k].tile;
    RetireStep(ts0, es0, es, k, st);
    var c := ClearedBy(ts0, es0, es);
    ClearedTilesAt(ts0, bw0, c);
    assert ts[u] == ts0[u];
    assert u in bw <==> u in bw0;
    if ts[u].hasActiveEnemies && AliveIn(es', u) == 0 {
      ClearedAdd(ts0, bw0, c, u);
      assert u in bw ==> bw[u] == bw0[u];
    }
  }

  /** The grid's cells as a map from (y, x) to their value. */
  ghost function Snapshot(w: array2<int>): (m: map<(int, int), int>)
    reads w
    ensures forall y, x :: InGrid(w, y, x) ==> (y, x) in m && m[(y, x)] == w[y, x]
  {
    map y, x | 0 <= y < w.Length0 && 0 <= x < w.Length1 :: (y, x) := w[y, x]
  }

  /** Where a pass of retirements started: the rooms and their records, the
      rooms-cleared counter, the enemies, the three progress counters, the grid
      and whether the ledger of rooms held. */
  datatype PassStart = PassStart(tiles: seq<Tile>, walls: map<TileId, set<Block>>, rooms: int,
                                 enemies: seq<Enemy>, credits: int, kills: int, clears: int,
                                 grid: map<(int, int), int>, ledger: bool)

  ghost function StartOf(g: Game): PassStart
    reads g, g.world
  {
    PassStart(g.tiles, g.blockingWalls, g.roomsCleared, g.enemies, g.credits, g.kills, g.clears,
              Snapshot(g.world), Ledger(g))
  }

  /** Where a pass of retirements from `p` stands: it moved alive enemies to
      state `st`, the rooms are settled, the bounty and the counters follow the
      enemies it retired, the ledger still holds if it held, and the grid is
      the starting one with every cell of an emptied room's record set to 0. */
  ghost predicate PassState(g: Game, p: PassStart, st: LifeState)
    reads g, g.world
  {
    st != Alive && RetiredFrom(p.enemies, g.enemies, st) &&
    (forall k :: 0 <= k < |p.enemies| ==> p.enemies[k].tile < |p.tiles|) &&
    SettledOf(p.tiles, p.walls, p.rooms, p.enemies, g.enemies, g.tiles, g.blockingWalls, g.roomsCleared) &&
    g.credits == p.credits + Bounty(p.enemies, g.enemies) &&
    g.clears == p.clears + (AliveCount(p.enemies) - AliveCount(g.enemies)) &&
    g.kills == p.kills + (if st == Killed then AliveCount(p.enemies) - AliveCount(g.enemies) else 0) &&
    (p.ledger ==> Ledger(g)) &&
    forall y, x :: InGrid(g.world, y, x) ==>
      (y, x) in p.grid &&
      g.world[y, x] == if ClearedCell(p.walls, ClearedBy(p.tiles, p.enemies, g.enemies), y, x) then 0 else p.grid[(y, x)]
  }

  /** Before any retirement a pass is settled: nothing emptied, nothing earned. */
  lemma PassStarts(g: Game, st: LifeState)
    requires st != Alive && forall k :: 0 <= k < |g.enemies| ==> g.enemies[k].tile < |g.tiles|
    ensures ClearedBy(g.tiles, g.enemies, g.enemies) == {}
    ensures PassState(g, StartOf(g), st)
  {
    assert ClearedBy(g.tiles, g.enemies, g.enemies) == {};
    ClearedTilesAt(g.tiles, g.blockingWalls, {});
    assert ClearedTiles(g.tiles, g.blockingWalls, {}) == g.tiles;
    assert g.blockingWalls - {} == g.blockingWalls;
    BountyNone(g.enemies);
  }

  lemma {:induction false} BountyNone(a: seq<Enemy>)
    ensures Bounty(a, a) == 0
  {
    if a != [] {
      BountyNone(a[..|a| - 1]);
    }
  }

  /** The shot pass over ss[..i] handles shot i-1 first, against `es`: the
      enemies become `es'` and the shot joins `kept` unless it hit. */
  lemma ResolveStep(ss: seq<Shot>, es0: seq<Enemy>, i: nat, es: seq<Enemy>, kept: seq<Shot>,
                    es': seq<Enemy>, kept': seq<Shot>)
    requires 0 < i <= |ss|
    requires Resolve(ss, es0).0 == Resolve(ss[..i], es).0 + kept && Resolve(ss, es0).1 == Resolve(ss[..i], es).1
    requires es' == HitAll(ss[i - 1], es)
    requires kept' == if AnyHit(ss[i - 1], es) then kept else [ss[i - 1]] + kept
    ensures Resolve(ss, es0).0 == Resolve(ss[..i - 1], es').0 + kept' && Resolve(ss, es0).1 == Resolve(ss[..i - 1], es').1
  {
    var s := ss[i - 1];
    var rest := Resolve(ss[..i - 1], es');
    ResolveLast(ss[..i], es, ss[..i - 1], s);
    if AnyHit(s, es) {
      assert rest.0 + [] == rest.0;
    } else {
      assert rest.0 + [s] + kept == rest.0 + kept';
    }
  }

  /** One unfolding of Resolve: the last shot of `pre` is handled first. */
  lemma ResolveLast(pre: seq<Shot>, es: seq<Enemy>, front: seq<Shot>, s: Shot)
    requires pre == front + [s]
    ensures Resolve(pre, es).0 == Resolve(front, HitAll(s, es)).0 + (if AnyHit(s, es) then [] else [s])
    ensures Resolve(pre, es).1 == Resolve(front, HitAll(s, es)).1
  {
    assert pre[..|pre| - 1] == front && pre[|pre| - 1] == s;
  }

  // ---------------------------------------------------------------------------
  // Despawning a tile
  // ---------------------------------------------------------------------------

  /** The enemies after the loop of despawnEnemiesInTile(t): every alive enemy
      of t is spent, every other enemy is as it was. */
  function DespawnedIn(es: seq<Enemy>, t: TileId): (r: seq<Enemy>)
    ensures |r| == |es|
  {
    seq(|es|, k requires 0 <= k < |es| => if es[k].tile == t && es[k].state == Alive then es[k].(state := Spent) else es[k])
  }

  /** Despawning tile t retires exactly its alive enemies: it empties t, leaves
      every other tile's alive count alone, and lowers the total by t's count. */
  lemma {:induction false} DespawnCounts(es: seq<Enemy>, t: TileId)
    ensures RetiredFrom(es, DespawnedIn(es, t), Spent)
    ensures AliveIn(DespawnedIn(es, t), t) == 0
    ensures forall u :: u != t ==> AliveIn(DespawnedIn(es, t), u) == AliveIn(es, u)
    ensures AliveCount(DespawnedIn(es, t)) == AliveCount(es) - AliveIn(es, t)
  {
    if es != [] {
      var n := |es| - 1;
      var r := DespawnedIn(es, t);
      DespawnCounts(es[..n], t);
      assert r[..n] == DespawnedIn(es[..n], t);
      forall u | u != t
        ensures AliveIn(r, u) == AliveIn(es, u)
      {
        assert AliveIn(r[..n], u) == AliveIn(es[..n], u);
      }
    }
  }

  /** Despawning tile t leaves none of its enemies in the pruned list, and
      every enemy left was in the list before. */
  lemma DespawnLeavesNone(es: seq<Enemy>, t: TileId)
    ensures forall e :: e in AliveOnly(DespawnedIn(es, t)) ==> e.tile != t && e in es
  {
    var r := DespawnedIn(es, t);
    forall e | e in AliveOnly(r)
      ensures e.tile != t && e in es
    {
      var k :| 0 <= k < |r| && r[k] == e;
    }
  }

  /** The tiles a despawn of t empties: t alone when it was sealed and still had
      an alive enemy, otherwise none. */
  lemma DespawnClears(ts: seq<Tile>, es: seq<Enemy>, t: TileId)
    requires t < |ts|
    ensures ClearedBy(ts, es, DespawnedIn(es, t)) ==
      if ts[t].hasActiveEnemies && AliveIn(es, t) > 0 then {t} else {}
  {
    DespawnCounts(es, t);
    var c := ClearedBy(ts, es, DespawnedIn(es, t));
    forall u | u in c
      ensures u == t
    {
    }
  }

  /** Clearing tile i, counting it only when it was active, keeps the ledger. */
  lemma ClearTileKeepsLedger(ts: seq<Tile>, rc: int, i: TileId, hadRecord: bool, counted: bool)
    requires LedgerOf(ts, rc) && i < |ts| && (counted ==> ts[i].hasActiveEnemies)
    ensures LedgerOf(ts[i := Cleared(ts[i], hadRecord)], rc + (if counted then 1 else 0))
  {
    CountUpdate(ts, i, Cleared(ts[i], hadRecord), (t: Tile) => t.hasActiveEnemies);
    CountUpdate(ts, i, Cleared(ts[i], hadRecord), (t: Tile) => t.spawned);
  }

  /** After the spending pass of despawnEnemiesInTile, unsealing tile t gives
      the same rooms as unsealing it in the starting state: the tile is cleared
      once, its record is gone, its exit cells are the ones the record covered,
      and it counts as cleared exactly when it was sealed with an enemy alive. */
  lemma DespawnSettles(ts0: seq<Tile>, bw0: map<TileId, set<Block>>, rc0: int, es0: seq<Enemy>, t: TileId,
                       ts: seq<Tile>, bw: map<TileId, set<Block>>, rc: int)
    requires t < |ts0|
    requires SettledOf(ts0, bw0, rc0, es0, DespawnedIn(es0, t), ts, bw, rc)
    ensures |ts| == |ts0|
    ensures ts[t := Cleared(ts[t], t in bw)] == ts0[t := Cleared(ts0[t], t in bw0)]
    ensures bw - {t} == bw0 - {t}
    ensures rc == rc0 + (if ts0[t].hasActiveEnemies && AliveIn(es0, t) > 0 then 1 else 0)
    ensures forall y, x ::
      (ClearedCell(bw0, ClearedBy(ts0, es0, DespawnedIn(es0, t)), y, x) || (t in bw && Covers(bw[t], y, x))) <==>
      (t in bw0 && Covers(bw0[t], y, x))
    ensures LedgerOf(ts0, rc0) ==> LedgerOf(ts0[t := Cleared(ts0[t], t in bw0)], rc)
  {
    DespawnClears(ts0, es0, t);
    var c := ClearedBy(ts0, es0, DespawnedIn(es0, t));
    ClearedTilesAt(ts0, bw0, c);
    if c == {} {
      assert ts == ts0;
    } else {
      assert ts == ts0[t := Cleared(ts0[t], t in bw0)];
    }
    forall y, x
      ensures (ClearedCell(bw0, c, y, x) || (t in bw && Covers(bw[t], y, x))) <==> (t in bw0 && Covers(bw0[t], y, x))
    {
      assert ClearedCell(bw0, c, y, x) <==> c == {t} && t in bw0 && Covers(bw0[t], y, x);
    }
    if LedgerOf(ts0, rc0) {
      ClearTileKeepsLedger(ts0, rc0, t, t in bw0, c != {});
    }
  }

  // ---------------------------------------------------------------------------
  // A room's wave
  // ---------------------------------------------------------------------------

  /** What one enemy of a wave draws: the roll that may make it ranged, its
      MAX_ATTEMPTS candidate spots and its difficulty roll. */
  datatype SpawnDraw = SpawnDraw(rangedRoll: real, spots: seq<(real, real)>, difficultyRoll: real)

  predicate SpawnDrawOk(d: SpawnDraw)
  {
    IsRandom(d.difficultyRoll) && |d.spots| == MAX_ATTEMPTS
  }

  /** `canSpawnRanged && Math.random() < 0.4`: ranged enemies only once they are
      unlocked, then two times in five. */
  predicate IsRangedDraw(rc: int, d: SpawnDraw)
  {
    rc >= RAMP_ROOMS && d.rangedRoll < 0.4
  }

  /** The enemies the spawn loop of maybeSpawnEnemiesFor adds for tile t, in
      order: one attempt per draw, kept when the attempt finds a spot. */
  function Wave(t: TileId, o: Option<Origin>, v: Option<Variety>, rc: nat, px: real, py: real,
                draws: seq<SpawnDraw>, now: real): seq<Enemy>
    requires forall k :: 0 <= k < |draws| ==> SpawnDrawOk(draws[k])
  {
    if draws == [] || o.None? then []
    else
      var d := draws[|draws| - 1];
      assert SpawnDrawOk(d);
      var spot := FirstValidSpot(o.value, v, px, py, d.spots);
      Wave(t, o, v, rc, px, py, draws[..|draws| - 1], now) +
        (if spot.Some? then [MakeEnemy(t, spot.value, IsRangedDraw(rc, d), rc, d.difficultyRoll, now)] else [])
  }

  /** Every enemy of a wave is alive, belongs to the room, stands inside it,
      at least SPAWN_MIN_DISTANCE from the player and clear of its pillars, has
      a difficulty in [0, 1), and is ranged only once ranged enemies are
      unlocked; there is at most one per draw and none without a position. */
  lemma {:induction false} WaveSpawns(t: TileId, o: Option<Origin>, v: Option<Variety>, rc: nat, px: real, py: real,
                                      draws: seq<SpawnDraw>, now: real)
    requires forall k :: 0 <= k < |draws| ==> SpawnDrawOk(draws[k])
    ensures |Wave(t, o, v, rc, px, py, draws, now)| <= |draws|
    ensures o.None? ==> Wave(t, o, v, rc, px, py, draws, now) == []
    ensures forall e :: e in Wave(t, o, v, rc, px, py, draws, now) ==>
      o.Some? && e.state == Alive && e.tile == t && ValidSpawn((e.x, e.y), o.value, v, px, py) &&
      InUnit(e.difficulty) && (e.behaviour.Ranged? ==> rc >= RAMP_ROOMS)
  {
    if draws != [] && o.Some? {
      var d := draws[|draws| - 1];
      WaveSpawns(t, o, v, rc, px, py, draws[..|draws| - 1], now);
      FirstValidSpotIsFirst(o.value, v, px, py, d.spots);
    }
  }

  /** A fresh room marked spawned, and sealed when its wave is in, keeps the
      ledger: it enters the spawned rooms as it enters the active ones. */
  lemma SpawnKeepsLedger(ts: seq<Tile>, rc: int, i: TileId, active: bool)
    requires LedgerOf(ts, rc) && i < |ts| && !ts[i].spawned
    ensures LedgerOf(ts[i := ts[i].(spawned := true, hasActiveEnemies := active)], rc)
  {
    CountUpdate(ts, i, ts[i].(spawned := true, hasActiveEnemies := active), (t: Tile) => t.hasActiveEnemies);
    CountUpdate(ts, i, ts[i].(spawned := true, hasActiveEnemies := active), (t: Tile) => t.spawned);
  }

  /** Marking one unspawned room spawned keeps the ledger, whatever its
      other fields then hold. */
  lemma SpawnedKeepsLedger(ts0: seq<Tile>, rc: int, i: TileId, ts: seq<Tile>)
    requires LedgerOf(ts0, rc) && i < |ts0| && !ts0[i].spawned
    requires |ts| == |ts0| && ts[i].spawned && forall k :: 0 <= k < |ts| && k != i ==> ts[k] == ts0[k]
    ensures LedgerOf(ts, rc)
  {
    var u := ts0[i].(spawned := true, hasActiveEnemies := ts[i].hasActiveEnemies);
    SpawnKeepsLedger(ts0, rc, i, ts[i].hasActiveEnemies);
    SameFlagsSameCounts(ts0[i := u], i, ts[i]);
    assert ts0[i := u][i := ts[i]] == ts;
  }

  // ---------------------------------------------------------------------------
  // A frame of the whole list
  // ---------------------------------------------------------------------------

  /** A frame moves enemies but never changes who is alive or which room they belong to. */
  lemma StepAllKeepsAlive(w: array2<int>, es: seq<Enemy>, px: real, py: real, dt: real, now: real,
                          hypot: (real, real) -> real)
    requires forall a, b :: hypot(a, b) >= 0.0
    ensures AliveCount(StepAll(w, es, px, py, dt, now, hypot)) == AliveCount(es)
    ensures forall k :: 0 <= k < |es| ==>
      StepAll(w, es, px, py, dt, now, hypot)[k].tile == es[k].tile &&
      StepAll(w, es, px, py, dt, now, hypot)[k].state == es[k].state
  {
    var r := StepAll(w, es, px, py, dt, now, hypot);
    forall k | 0 <= k < |es| ensures r[k].tile == es[k].tile && r[k].state == es[k].state {
      StepsAt(w, es, k, px, py, dt, now, hypot);
    }
    CountPointwise(es, r, IsAlive);
    CountPointwise(r, es, IsAlive);
  }
}
