/** The enemy life cycle and room-clear protocol of enemies.js, as operations
    on the game state: the alive -> killed / spent transitions and the counters
    they feed, the exit-block check after each one, despawning a room, spawning
    a room's wave, and the per-frame update (chase, ranged fire, contact, shot
    hits). What each operation must achieve is stated with `EnemyRules`. */
module Enemies {
  import opened Common
  import opened Tiles
  import opened Projectiles
  import opened EnemyModel
  import opened State
  import opened WorldGeneration
  import opened Ui
  import opened EnemyRules

  // ---------------------------------------------------------------------------
  // Retiring one enemy
  // ---------------------------------------------------------------------------

  /** checkAndUpdateExitBlocks: when the tile is sealed and no enemy of it is
      alive, unseal it, drop its exit blocks and count the room. */
  method CheckAndUpdateExitBlocks(g: Game, t: TileId)
    requires t < |g.tiles|
    modifies g.world, g`tiles, g`blockingWalls, g`roomsCleared
    ensures ExitChecked(g, t)
    ensures old(Ledger(g)) ==> Ledger(g)
  {
    ExitCheckKeepsLedger(g.tiles, g.blockingWalls, g.roomsCleared, g.enemies, t);
    if !g.tiles[t].hasActiveEnemies {
      return;
    }
    var aliveCount := AliveIn(g.enemies, t);
    if aliveCount == 0 {
      ghost var ts, bw := g.tiles, g.blockingWalls;
      g.tiles := g.tiles[t := g.tiles[t].(hasActiveEnemies := false)];
      RemoveExitBlocks(g, t);
      g.roomsCleared := g.roomsCleared + 1;
      assert g.tiles == ts[t := Cleared(ts[t], t in bw)];
      assert g.blockingWalls == bw - {t};
    }
  }

  /** progressAfterStateChange: every retirement counts as cleared, a kill also as a kill. */
  method ProgressAfterStateChange(g: Game, wasKill: bool)
    modifies g`clears, g`kills
    ensures g.clears == old(g.clears) + 1
    ensures g.kills == old(g.kills) + (if wasKill then 1 else 0)
  {
    g.clears := g.clears + 1;
    if wasKill {
      g.kills := g.kills + 1;
    }
  }

  /** killEnemy: an alive enemy becomes killed and pays its bounty, the kill is
      counted, and its tile is checked for being cleared; any other enemy is
      left alone. */
  method KillEnemy(g: Game, k: nat)
    requires k < |g.enemies| && g.enemies[k].tile < |g.tiles|
    modifies g`enemies, g`credits, g`kills, g`clears, g.world, g`tiles, g`blockingWalls, g`roomsCleared
    ensures old(g.enemies[k].state) != Alive ==>
      g.enemies == old(g.enemies) && g.credits == old(g.credits) && g.kills == old(g.kills) &&
      g.clears == old(g.clears) && RoomsUnchanged(g)
    ensures old(g.enemies[k].state) == Alive ==>
      g.enemies == old(g.enemies)[k := old(g.enemies[k]).(state := Killed)] &&
      g.credits == old(g.credits) + CreditValue(old(g.enemies[k])) &&
      g.kills == old(g.kills) + 1 && g.clears == old(g.clears) + 1 &&
      ExitChecked(g, old(g.enemies[k]).tile)
    ensures old(Ledger(g)) ==> Ledger(g)
  {
    var e := g.enemies[k];
    if e.state != Alive {
      return;
    }
    g.enemies := g.enemies[k := e.(state := Killed)];
    g.credits := g.credits + CreditValue(e);
    ProgressAfterStateChange(g, true);
    CheckAndUpdateExitBlocks(g, e.tile);
  }

  /** despawnEnemy: an alive enemy becomes spent without a bounty or a kill,
      and its tile is checked for being cleared. */
  method DespawnEnemy(g: Game, k: nat)
    requires k < |g.enemies| && g.enemies[k].tile < |g.tiles|
    modifies g`enemies, g`clears, g`kills, g.world, g`tiles, g`blockingWalls, g`roomsCleared
    ensures g.kills == old(g.kills)
    ensures old(g.enemies[k].state) != Alive ==>
      g.enemies == old(g.enemies) && g.clears == old(g.clears) && RoomsUnchanged(g)
    ensures old(g.enemies[k].state) == Alive ==>
      g.enemies == old(g.enemies)[k := old(g.enemies[k]).(state := Spent)] &&
      g.clears == old(g.clears) + 1 && ExitChecked(g, old(g.enemies[k]).tile)
    ensures old(Ledger(g)) ==> Ledger(g)
  {
    var e := g.enemies[k];
    if e.state != Alive {
      return;
    }
    g.enemies := g.enemies[k := e.(state := Spent)];
    ProgressAfterStateChange(g, false);
    CheckAndUpdateExitBlocks(g, e.tile);
  }

  /** One retirement inside a pass, a kill or a despawn: the pass stays settled. */
  method RetireOne(g: Game, k: nat, st: LifeState, ghost p: PassStart)
    requires PassState(g, p, st)
    requires k < |g.enemies| && g.enemies[k].state == Alive
    modifies g`enemies, g`credits, g`kills, g`clears, g.world, g`tiles, g`blockingWalls, g`roomsCleared
    ensures PassState(g, p, st)
    ensures g.enemies == old(g.enemies)[k := old(g.enemies[k]).(state := st)]
    ensures st == Spent ==> g.credits == old(g.credits)
  {
    ghost var es := g.enemies;
    ghost var ts, bw, rc := g.tiles, g.blockingWalls, g.roomsCleared;
    ghost var u := es[k].tile;
    ghost var es' := es[k := es[k].(state := st)];
    RetireStep(p.tiles, p.enemies, es, k, st);
    SettledAfterRetire(p.tiles, p.walls, p.rooms, p.enemies, es, k, st, ts, bw, rc);
    BountyRetire(p.enemies, es, k, st);
    if st == Killed {
      KillEnemy(g, k);
    } else {
      DespawnEnemy(g, k);
    }
    assert g.enemies == es';
    assert (g.tiles, g.blockingWalls, g.roomsCleared) == ExitCheck(ts, bw, rc, es', u);
    assert SettledOf(p.tiles, p.walls, p.rooms, p.enemies, g.enemies, g.tiles, g.blockingWalls, g.roomsCleared);
    assert g.credits == p.credits + Bounty(p.enemies, g.enemies);
    assert g.clears == p.clears + (AliveCount(p.enemies) - AliveCount(g.enemies));
    forall y, x | InGrid(g.world, y, x)
      ensures (y, x) in p.grid &&
        g.world[y, x] == if ClearedCell(p.walls, ClearedBy(p.tiles, p.enemies, g.enemies), y, x) then 0 else p.grid[(y, x)]
    {
      assert ClearedCell(p.walls, ClearedBy(p.tiles, p.enemies, es'), y, x) <==>
        ClearedCell(p.walls, ClearedBy(p.tiles, p.enemies, es), y, x) ||
        ClearsCell(bw, u, ts[u].hasActiveEnemies && AliveIn(es', u) == 0, y, x);
    }
  }

  /** One step of the inner loop: shot `s` against enemy `ei`, which dies when
      it is alive and within reach. */
  method HitEnemyAt(g: Game, s: Shot, ei: nat, ghost es1: seq<Enemy>, ghost p: PassStart)
    returns (killed: bool)
    requires PassState(g, p, Killed)
    requires ei < |es1| && g.enemies == HitAllFrom(s, es1, ei + 1)
    modifies g`enemies, g`credits, g`kills, g`clears, g.world, g`tiles, g`blockingWalls, g`roomsCleared
    ensures PassState(g, p, Killed)
    ensures g.enemies == HitAllFrom(s, es1, ei)
    ensures killed == (es1[ei].state == Alive && ShotHitsEnemy(s.x, s.y, es1[ei]))
  {
    HitAllFromStep(s, es1, ei);
    var e := g.enemies[ei];
    killed := e.state == Alive && ShotHitsEnemy(s.x, s.y, e);
    if killed {
      RetireOne(g, ei, Killed, p);
    }
  }

  /** The inner loop of the shot pass: shot `s` against every enemy, last first,
      killing each alive one within reach. */
  method HitEnemiesWith(g: Game, s: Shot, ghost p: PassStart) returns (hit: bool)
    requires PassState(g, p, Killed)
    modifies g`enemies, g`credits, g`kills, g`clears, g.world, g`tiles, g`blockingWalls, g`roomsCleared
    ensures PassState(g, p, Killed)
    ensures g.enemies == HitAll(s, old(g.enemies)) && hit == AnyHit(s, old(g.enemies))
  {
    ghost var es1 := g.enemies;
    hit := false;
    HitAllFromEnds(s, es1);
    HitsFromStart(s, es1);
    var ei := |g.enemies|;
    while ei > 0
      invariant 0 <= ei <= |es1| == |g.enemies|
      invariant PassState(g, p, Killed)
      invariant g.enemies == HitAllFrom(s, es1, ei)
      invariant hit <==> HitsFrom(s, es1, ei)
    {
      ei := ei - 1;
      HitsFromStep(s, es1, ei);
      var killed := HitEnemyAt(g, s, ei, es1, p);
      hit := hit || killed;
    }
    HitAllFromEnds(s, es1);
    HitsFromStart(s, es1);
  }

  /** The shot-collision pass of updateEnemies: every player shot, last first,
      kills the alive enemies within reach and is spliced out when it killed
      one. Each kill pays its bounty and checks its tile. */
  method ResolveShotHits(g: Game)
    requires forall k :: 0 <= k < |g.enemies| ==> g.enemies[k].tile < |g.tiles|
    modifies g`shots, g`enemies, g`credits, g`kills, g`clears, g.world, g`tiles, g`blockingWalls, g`roomsCleared
    ensures (g.shots, g.enemies) == Resolve(old(g.shots), old(g.enemies))
    ensures PassState(g, old(StartOf(g)), Killed)
  {
    ghost var ss0, es0 := g.shots, g.enemies;
    ghost var p := StartOf(g);
    ghost var kept: seq<Shot> := [];
    PassStarts(g, Killed);
    assert ss0[..|ss0|] == ss0;
    assert Resolve(ss0, es0).0 + [] == Resolve(ss0, es0).0;
    var shots := g.shots;
    var si := |shots|;
    while si > 0
      invariant 0 <= si <= |ss0|
      invariant shots == ss0[..si] + kept
      invariant Resolve(ss0, es0).0 == Resolve(ss0[..si], g.enemies).0 + kept
      invariant Resolve(ss0, es0).1 == Resolve(ss0[..si], g.enemies).1
      invariant PassState(g, p, Killed)
      invariant g.shots == ss0
    {
      si := si - 1;
      SpliceShot(ss0, si, kept);
      var s := shots[si];
      ghost var es, kept0 := g.enemies, kept;
      var hit := HitEnemiesWith(g, s, p);
      if hit {
        shots := shots[..si] + shots[si + 1..];
      } else {
        kept := [s] + kept;
      }
      ResolveStep(ss0, es0, si + 1, es, kept0, g.enemies, kept);
    }
    g.shots := shots;
  }

  // ---------------------------------------------------------------------------
  // Leaving a room: despawnEnemiesInTile
  // ---------------------------------------------------------------------------

  /** The end of despawnEnemiesInTile: the tile is no longer active and its exit
      blocks are removed. */
  method UnsealTile(g: Game, t: TileId)
    requires t < |g.tiles|
    modifies g.world, g`blockingWalls, g`tiles
    ensures g.tiles == old(g.tiles)[t := Cleared(old(g.tiles[t]), t in old(g.blockingWalls))]
    ensures g.blockingWalls == old(g.blockingWalls) - {t}
    ensures forall y, x :: InGrid(g.world, y, x) ==>
      g.world[y, x] == if t in old(g.blockingWalls) && Covers(old(g.blockingWalls[t]), y, x) then 0 else old(g.world[y, x])
  {
    g.tiles := g.tiles[t := g.tiles[t].(hasActiveEnemies := false)];
    RemoveExitBlocks(g, t);
  }

  /** The pruning step of despawnEnemiesInTile: only the alive enemies stay,
      none of them from tile t, each one of the list before the despawn. */
  method PruneSpent(g: Game, ghost es0: seq<Enemy>, t: TileId)
    requires g.enemies == DespawnedIn(es0, t)
    modifies g`enemies
    ensures g.enemies == AliveOnly(DespawnedIn(es0, t))
    ensures forall k :: 0 <= k < |g.enemies| ==> g.enemies[k].tile != t && g.enemies[k] in es0
  {
    g.enemies := AliveOnly(g.enemies);
    DespawnLeavesNone(es0, t);
    assert forall k :: 0 <= k < |g.enemies| ==> g.enemies[k] in AliveOnly(DespawnedIn(es0, t));
  }

  /** The loop of despawnEnemiesInTile: every alive enemy of tile t is spent
      through despawnEnemy, in list order, which pays no bounty. */
  method SpendEnemiesIn(g: Game, t: TileId)
    requires forall k :: 0 <= k < |g.enemies| ==> g.enemies[k].tile < |g.tiles|
    modifies g`enemies, g`credits, g`kills, g`clears, g.world, g`tiles, g`blockingWalls, g`roomsCleared
    ensures g.enemies == DespawnedIn(old(g.enemies), t)
    ensures PassState(g, old(StartOf(g)), Spent)
    ensures g.credits == old(g.credits)
  {
    ghost var p := StartOf(g);
    ghost var es0 := g.enemies;
    PassStarts(g, Spent);
    var k := 0;
    while k < |g.enemies|
      invariant 0 <= k <= |g.enemies| == |es0|
      invariant PassState(g, p, Spent)
      invariant forall j :: 0 <= j < |es0| ==> g.enemies[j] == if j < k then DespawnedIn(es0, t)[j] else es0[j]
      invariant g.credits == p.credits
    {
      var e := g.enemies[k];
      if e.tile == t && e.state == Alive {
        RetireOne(g, k, Spent, p);
      }
      k := k + 1;
    }
    assert g.enemies == DespawnedIn(es0, t);
  }

  /** despawnEnemiesInTile: every alive enemy of the room being left is spent
      (cleared, but no kill and no bounty), the list is pruned to the alive
      enemies, and the room is unsealed. The room counts as cleared only when
      it was sealed with an enemy still alive in it. */
  method DespawnEnemiesInTile(g: Game, t: TileId)
    requires t < |g.tiles|
    requires forall k :: 0 <= k < |g.enemies| ==> g.enemies[k].tile < |g.tiles|
    modifies g`enemies, g`credits, g`kills, g`clears, g.world, g`tiles, g`blockingWalls, g`roomsCleared
    ensures g.enemies == AliveOnly(DespawnedIn(old(g.enemies), t))
    ensures forall k :: 0 <= k < |g.enemies| ==> g.enemies[k].tile != t
    ensures old(g.TileRefsOk()) ==> g.TileRefsOk()
    ensures g.kills == old(g.kills) && g.credits == old(g.credits)
    ensures g.clears == old(g.clears) + AliveIn(old(g.enemies), t)
    ensures g.roomsCleared ==
      old(g.roomsCleared) + (if old(g.tiles[t].hasActiveEnemies) && AliveIn(old(g.enemies), t) > 0 then 1 else 0)
    ensures g.tiles == old(g.tiles)[t := Cleared(old(g.tiles[t]), t in old(g.blockingWalls))]
    ensures g.blockingWalls == old(g.blockingWalls) - {t}
    ensures forall y, x :: InGrid(g.world, y, x) ==>
      g.world[y, x] == if t in old(g.blockingWalls) && Covers(old(g.blockingWalls[t]), y, x) then 0 else old(g.world[y, x])
    ensures old(Ledger(g)) ==> Ledger(g)
  {
    ghost var p := StartOf(g);
    ghost var es0 := g.enemies;
    SpendEnemiesIn(g, t);
    DespawnCounts(es0, t);
    DespawnSettles(p.tiles, p.walls, p.rooms, es0, t, g.tiles, g.blockingWalls, g.roomsCleared);
    PruneSpent(g, es0, t);
    UnsealTile(g, t);
    if old(g.TileRefsOk()) {
      ClearedKeepsNeighbours(old(g.tiles), t, t in old(g.blockingWalls));
      RefsKept(g);
    }
  }

  // ---------------------------------------------------------------------------
  // Entering a room: maybeSpawnEnemiesFor
  // ---------------------------------------------------------------------------

  /** `tilePositions.get(t)`. */
  function OriginOf(positions: map<TileId, Origin>, t: TileId): Option<Origin>
  {
    if t in positions then Some(positions[t]) else None
  }

  /** Some enemy of the list belongs to tile t: `enemies.some(e => e.tile === t)`. */
  predicate AnyOnTile(es: seq<Enemy>, t: TileId)
  {
    exists k :: 0 <= k < |es| && es[k].tile == t
  }

  /** The spawn loop of maybeSpawnEnemiesFor for tile t, whose origin is `o`:
      one attempt per draw, ranged when ranged enemies are unlocked and the
      draw's roll is below 0.4; each enemy found is pushed in turn. */
  method SpawnWave(t: TileId, o: Option<Origin>, v: Option<Variety>, rc: nat, px: real, py: real,
                   draws: seq<SpawnDraw>, now: real) returns (wave: seq<Enemy>)
    requires forall k :: 0 <= k < |draws| ==> SpawnDrawOk(draws[k])
    ensures wave == Wave(t, o, v, rc, px, py, draws, now)
  {
    var canSpawnRanged := rc >= RAMP_ROOMS;
    wave := [];
    var i := 0;
    while i < |draws|
      invariant 0 <= i <= |draws|
      invariant wave == Wave(t, o, v, rc, px, py, draws[..i], now)
    {
      var d := draws[i];
      assert draws[..i + 1][..i] == draws[..i];
      var isRanged := canSpawnRanged && d.rangedRoll < 0.4;
      var e := AttemptSpawnEnemy(t, o, v, isRanged, rc, px, py, d.spots, d.difficultyRoll, now);
      if e.Some? {
        wave := wave + [e.value];
      }
      i := i + 1;
    }
    assert draws[..i] == draws;
  }

  /** The middle of maybeSpawnEnemiesFor: `count` spawn attempts for room t,
      whose enemies are pushed after those already in the list. */
  method AddWave(g: Game, t: TileId, v: Option<Variety>, count: nat, draws: seq<SpawnDraw>, now: real)
    requires count <= |draws| && g.roomsCleared >= 0
    requires forall k :: 0 <= k < |draws| ==> SpawnDrawOk(draws[k])
    modifies g`enemies
    ensures g.enemies == old(g.enemies) + Wave(t, OriginOf(g.tilePositions, t), v, g.roomsCleared, g.posX, g.posY, draws[..count], now)
    ensures forall k :: |old(g.enemies)| <= k < |g.enemies| ==> g.enemies[k].tile == t
  {
    var wave := SpawnWave(t, OriginOf(g.tilePositions, t), v, g.roomsCleared, g.posX, g.posY, draws[..count], now);
    WaveSpawns(t, OriginOf(g.tilePositions, t), v, g.roomsCleared, g.posX, g.posY, draws[..count], now);
    g.enemies := g.enemies + wave;
    assert forall k :: |old(g.enemies)| <= k < |g.enemies| ==> g.enemies[k] in wave;
  }

  /** The end of maybeSpawnEnemiesFor: when an enemy of the room t is in the list,
      the room is marked active and sealed with its exit blocks. */
  method SealIfOccupied(g: Game, t: TileId)
    requires t < |g.tiles| && IsRoom(g.tiles[t])
    modifies g.world, g`blockingWalls, g`tiles
    ensures |g.tiles| == old(|g.tiles|) && forall i :: 0 <= i < |g.tiles| && i != t ==> g.tiles[i] == old(g.tiles[i])
    ensures g.tiles[t].spawned == old(g.tiles[t].spawned) && g.tiles[t].neighbors == old(g.tiles[t].neighbors)
    ensures g.tiles[t].hasActiveEnemies <==> AnyOnTile(g.enemies, t) || old(g.tiles[t].hasActiveEnemies)
    ensures AnyOnTile(g.enemies, t) && t in g.tilePositions ==>
      t in g.blockingWalls &&
      (forall b :: b in g.blockingWalls[t] <==> IsExitBlock(g.world, old(g.tiles[t]).openSides, g.tilePositions[t], b)) &&
      forall y, x :: InGrid(g.world, y, x) ==>
        g.world[y, x] == if ExitCell(g.world, old(g.tiles[t]).openSides, g.tilePositions[t], y, x)
                         then BLOCK_COLOR_ID else old(g.world[y, x])
    ensures !(AnyOnTile(g.enemies, t) && t in g.tilePositions) ==>
      g.blockingWalls == old(g.blockingWalls) &&
      forall y, x :: InGrid(g.world, y, x) ==> g.world[y, x] == old(g.world[y, x])
  {
    if exists k :: 0 <= k < |g.enemies| && g.enemies[k].tile == t {
      var marked := g.tiles[t].(hasActiveEnemies := true);
      assert marked.openSides == g.tiles[t].openSides && IsRoom(marked) == IsRoom(g.tiles[t]);
      g.tiles := g.tiles[t := marked];
      CreateExitBlocks(g, t);
    }
  }

  /** maybeSpawnEnemiesFor past its guard, for a room t that is neither the
      start room nor spawned: t is marked spawned and gets its wave, as many
      attempts as getEnemyCountForRoom draws for the rooms cleared so far, and
      is sealed with its exit blocks when an enemy of it is then in the list. */
  method SpawnRoom(g: Game, t: TileId, countRoll: real, draws: seq<SpawnDraw>, now: real)
    requires t < |g.tiles| && IsRoom(g.tiles[t]) && !g.tiles[t].isStart && !g.tiles[t].spawned
    requires g.roomsCleared >= 0 && IsRandom(countRoll)
    requires |draws| >= EnemyCount(g.roomsCleared, countRoll)
    requires forall k :: 0 <= k < |draws| ==> SpawnDrawOk(draws[k])
    modifies g`enemies, g.world, g`blockingWalls, g`tiles
    ensures g.enemies == old(g.enemies) +
      Wave(t, OriginOf(g.tilePositions, t), old(g.tiles[t]).variety, g.roomsCleared, g.posX, g.posY,
           draws[..EnemyCount(g.roomsCleared, countRoll)], now)
    ensures |g.tiles| == |old(g.tiles)| && forall i :: 0 <= i < |g.tiles| && i != t ==> g.tiles[i] == old(g.tiles[i])
    ensures g.tiles[t].spawned && g.tiles[t].neighbors == old(g.tiles[t].neighbors)
    ensures g.tiles[t].hasActiveEnemies <==> AnyOnTile(g.enemies, t) || old(g.tiles[t].hasActiveEnemies)
    ensures AnyOnTile(g.enemies, t) && t in g.tilePositions ==>
      t in g.blockingWalls &&
      (forall b :: b in g.blockingWalls[t] <==> IsExitBlock(g.world, old(g.tiles[t]).openSides, g.tilePositions[t], b)) &&
      forall y, x :: InGrid(g.world, y, x) ==>
        g.world[y, x] == if ExitCell(g.world, old(g.tiles[t]).openSides, g.tilePositions[t], y, x)
                         then BLOCK_COLOR_ID else old(g.world[y, x])
    ensures !(AnyOnTile(g.enemies, t) && t in g.tilePositions) ==>
      g.blockingWalls == old(g.blockingWalls) &&
      forall y, x :: InGrid(g.world, y, x) ==> g.world[y, x] == old(g.world[y, x])
    ensures forall k :: |old(g.enemies)| <= k < |g.enemies| ==> g.enemies[k].tile == t
    ensures old(g.TileRefsOk()) ==> g.TileRefsOk()
    ensures old(Ledger(g)) ==> Ledger(g)
  {
    var tile := g.tiles[t];
    g.tiles := g.tiles[t := tile.(spawned := true)];
    AddWave(g, t, tile.variety, EnemyCount(g.roomsCleared, countRoll), draws, now);
    SealIfOccupied(g, t);
    if old(Ledger(g)) {
      SpawnedKeepsLedger(old(g.tiles), g.roomsCleared, t, g.tiles);
    }
  }

  /** maybeSpawnEnemiesFor: a room that is not the start room and has not been
      spawned yet is spawned as SpawnRoom says; corridors, the start room and
      spawned rooms are left alone. */
  method MaybeSpawnEnemiesFor(g: Game, t: TileId, countRoll: real, draws: seq<SpawnDraw>, now: real)
    requires t < |g.tiles| && g.roomsCleared >= 0 && IsRandom(countRoll)
    requires |draws| >= EnemyCount(g.roomsCleared, countRoll)
    requires forall k :: 0 <= k < |draws| ==> SpawnDrawOk(draws[k])
    modifies g`enemies, g.world, g`blockingWalls, g`tiles
    ensures !IsRoom(old(g.tiles[t])) || old(g.tiles[t]).isStart || old(g.tiles[t]).spawned ==>
      g.enemies == old(g.enemies) && g.tiles == old(g.tiles) && g.blockingWalls == old(g.blockingWalls) &&
      forall y, x :: InGrid(g.world, y, x) ==> g.world[y, x] == old(g.world[y, x])
    ensures IsRoom(old(g.tiles[t])) && !old(g.tiles[t]).isStart && !old(g.tiles[t]).spawned ==>
      g.enemies == old(g.enemies) +
        Wave(t, OriginOf(g.tilePositions, t), old(g.tiles[t]).variety, g.roomsCleared, g.posX, g.posY,
             draws[..EnemyCount(g.roomsCleared, countRoll)], now) &&
      |g.tiles| == |old(g.tiles)| &&
      (forall i :: 0 <= i < |g.tiles| && i != t ==> g.tiles[i] == old(g.tiles[i])) &&
      g.tiles[t].spawned &&
      (g.tiles[t].hasActiveEnemies <==> AnyOnTile(g.enemies, t) || old(g.tiles[t].hasActiveEnemies)) &&
      (AnyOnTile(g.enemies, t) && t in g.tilePositions ==>
        t in g.blockingWalls &&
        (forall b :: b in g.blockingWalls[t] <==> IsExitBlock(g.world, old(g.tiles[t]).openSides, g.tilePositions[t], b)) &&
        forall y, x :: InGrid(g.world, y, x) ==>
          g.world[y, x] == if ExitCell(g.world, old(g.tiles[t]).openSides, g.tilePositions[t], y, x)
                           then BLOCK_COLOR_ID else old(g.world[y, x])) &&
      (!(AnyOnTile(g.enemies, t) && t in g.tilePositions) ==>
        g.blockingWalls == old(g.blockingWalls) &&
        forall y, x :: InGrid(g.world, y, x) ==> g.world[y, x] == old(g.world[y, x]))
    ensures |g.tiles| == old(|g.tiles|) && forall i :: 0 <= i < |g.tiles| ==> g.tiles[i].neighbors == old(g.tiles[i].neighbors)
    ensures |g.enemies| >= |old(g.enemies)| && g.enemies[..|old(g.enemies)|] == old(g.enemies)
    ensures forall k :: |old(g.enemies)| <= k < |g.enemies| ==> g.enemies[k].tile == t
    ensures old(g.TileRefsOk()) ==> g.TileRefsOk()
    ensures old(Ledger(g)) ==> Ledger(g)
  {
    var tile := g.tiles[t];
    if !IsRoom(tile) || tile.isStart || tile.spawned {
      return;
    }
    SpawnRoom(g, t, countRoll, draws, now);
  }

  // ---------------------------------------------------------------------------
  // The frame: updateEnemies
  // ---------------------------------------------------------------------------

  /** One turn of updateEnemies' loop on an alive enemy `e`, the i-th of `es0`:
      its frame, and whether it was within reach of the player before it moved. */
  method StepOne(w: array2<int>, ghost es0: seq<Enemy>, i: nat, e: Enemy, px: real, py: real, dt: real, now: real,
                 hypot: (real, real) -> real) returns (step: (Enemy, Option<Shot>), near: bool)
    requires forall a, b :: hypot(a, b) >= 0.0
    requires i < |es0| && e == es0[i] && e.state == Alive
    ensures step == Steps(w, es0, px, py, dt, now, hypot)[i]
    ensures near == Reaches(e, px, py, hypot)
  {
    StepsAt(w, es0, i, px, py, dt, now, hypot);
    var dist := hypot(px - e.x, py - e.y);
    step := StepEnemy(w, e, px, py, dt, now, dist);
    near := dist < PLAYER_RADIUS + ENEMY_RADIUS;
  }

  /** The per-enemy loop of updateEnemies, last enemy first, on the list `es0`
      in the world `w` with the player at (px, py): every alive enemy takes its
      frame, ranged enemies' shots are collected in the order they are pushed,
      and `touched` records whether an alive enemy was within reach of the
      player, measured before it moved. `hypot` stands for Math.hypot. */
  method StepList(w: array2<int>, es0: seq<Enemy>, px: real, py: real, dt: real, now: real,
                  hypot: (real, real) -> real) returns (es: seq<Enemy>, shots: seq<Shot>, touched: bool)
    requires forall a, b :: hypot(a, b) >= 0.0
    ensures es == StepAll(w, es0, px, py, dt, now, hypot)
    ensures shots == ShotsFired(w, es0, px, py, dt, now, hypot)
    ensures touched == AnyTouches(es0, px, py, hypot)
  {
    es, shots, touched := es0, [], false;
    ghost var steps := Steps(w, es0, px, py, dt, now, hypot);
    var i := |es|;
    while i > 0
      invariant 0 <= i <= |es| == |es0|
      invariant forall k :: 0 <= k < i ==> es[k] == es0[k]
      invariant forall k :: i <= k < |es| ==> es[k] == steps[k].0
      invariant shots == ShotsOf(steps, i)
      invariant touched == TouchesFrom(es0, i, px, py, hypot)
    {
      i := i - 1;
      var e := es[i];
      TouchesFromStep(es0, i, px, py, hypot);
      if e.state == Alive {
        var step, near := StepOne(w, es0, i, e, px, py, dt, now, hypot);
        es := es[i := step.0];
        if step.1.Some? {
          shots := shots + [step.1.value];
        }
        if near {
          touched := true;
        }
      } else {
        StepsIdle(w, es0, i, px, py, dt, now, hypot);
      }
    }
    TouchesFromStart(es0, px, py, hypot);
    assert es == Movers(steps);
  }

  /** updateEnemies' loop on the game: the enemies take their frames, their
      shots join the enemy shots, and contact ends the run through
      triggerGameOver unless god mode is on. */
  method StepEnemies(g: Game, dt: real, now: real, hypot: (real, real) -> real)
    requires forall a, b :: hypot(a, b) >= 0.0
    modifies g`enemies, g`enemyShots, g`gameOverCountdown
    ensures g.enemies == StepAll(g.world, old(g.enemies), g.posX, g.posY, dt, now, hypot)
    ensures g.enemyShots == old(g.enemyShots) + ShotsFired(g.world, old(g.enemies), g.posX, g.posY, dt, now, hypot)
    ensures g.gameOverCountdown ==
      if AnyTouches(old(g.enemies), g.posX, g.posY, hypot) && !g.debugGodMode then GAME_OVER_DELAY
      else old(g.gameOverCountdown)
  {
    var es, shots, touched := StepList(g.world, g.enemies, g.posX, g.posY, dt, now, hypot);
    g.enemies, g.enemyShots := es, g.enemyShots + shots;
    if touched {
      TriggerGameOver(g);
    }
  }

  /** The end of updateEnemies, once every enemy has moved: the player's shots
      are resolved against the enemies (each kill paying its bounty and
      possibly clearing its room), and the list is pruned to the enemies still
      alive. */
  method SettleShots(g: Game)
    requires forall k :: 0 <= k < |g.enemies| ==> g.enemies[k].tile < |g.tiles|
    modifies g`enemies, g`shots, g`credits, g`kills, g`clears, g.world, g`tiles, g`blockingWalls, g`roomsCleared
    ensures
      var r := Resolve(old(g.shots), old(g.enemies));
      g.shots == r.0 && g.enemies == AliveOnly(r.1) &&
      g.credits == old(g.credits) + Bounty(old(g.enemies), r.1) &&
      g.kills == old(g.kills) + (old(AliveCount(g.enemies)) - |g.enemies|) &&
      g.clears == old(g.clears) + (old(AliveCount(g.enemies)) - |g.enemies|) &&
      SettledOf(old(g.tiles), old(g.blockingWalls), old(g.roomsCleared), old(g.enemies), r.1, g.tiles, g.blockingWalls, g.roomsCleared) &&
      forall y, x :: InGrid(g.world, y, x) ==>
        g.world[y, x] == if ClearedCell(old(g.blockingWalls), ClearedBy(old(g.tiles), old(g.enemies), r.1), y, x) then 0
                         else old(g.world[y, x])
    ensures old(Ledger(g)) ==> Ledger(g)
  {
    ghost var p := StartOf(g);
    ResolveShotHits(g);
    assert PassState(g, p, Killed);
    AliveOnlyCounts(g.enemies, 0);
    g.enemies := AliveOnly(g.enemies);
  }

  /** updateEnemies: nothing happens without enemies. Otherwise every enemy
      takes its frame, then the player's shots are resolved against the moved
      enemies (each kill paying its bounty and possibly clearing its room), and
      the list is pruned to the enemies still alive. */
  method UpdateEnemies(g: Game, dt: real, now: real, hypot: (real, real) -> real)
    requires forall a, b :: hypot(a, b) >= 0.0
    requires forall k :: 0 <= k < |g.enemies| ==> g.enemies[k].tile < |g.tiles|
    modifies g`enemies, g`enemyShots, g`gameOverCountdown, g`shots, g`credits, g`kills, g`clears,
      g.world, g`tiles, g`blockingWalls, g`roomsCleared
    ensures old(g.enemies) == [] ==> unchanged(g) && unchanged(g.world)
    ensures old(g.enemies) != [] ==>
      var es1 := old(StepAll(g.world, g.enemies, g.posX, g.posY, dt, now, hypot));
      var r := Resolve(old(g.shots), es1);
      g.shots == r.0 && g.enemies == AliveOnly(r.1) &&
      g.enemyShots == old(g.enemyShots + ShotsFired(g.world, g.enemies, g.posX, g.posY, dt, now, hypot)) &&
      g.gameOverCountdown ==
        (if old(AnyTouches(g.enemies, g.posX, g.posY, hypot)) && !g.debugGodMode then GAME_OVER_DELAY
         else old(g.gameOverCountdown)) &&
      g.credits == old(g.credits) + Bounty(es1, r.1) &&
      g.kills == old(g.kills) + (old(AliveCount(g.enemies)) - |g.enemies|) &&
      g.clears == old(g.clears) + (old(AliveCount(g.enemies)) - |g.enemies|) &&
      SettledOf(old(g.tiles), old(g.blockingWalls), old(g.roomsCleared), es1, r.1, g.tiles, g.blockingWalls, g.roomsCleared) &&
      forall y, x :: InGrid(g.world, y, x) ==>
        g.world[y, x] == if ClearedCell(old(g.blockingWalls), ClearedBy(old(g.tiles), es1, r.1), y, x) then 0
                         else old(g.world[y, x])
    ensures old(Ledger(g)) ==> Ledger(g)
  {
    if |g.enemies| == 0 {
      return;
    }
    ghost var fired := ShotsFired(g.world, g.enemies, g.posX, g.posY, dt, now, hypot);
    StepAllKeepsAlive(g.world, g.enemies, g.posX, g.posY, dt, now, hypot);
    StepEnemies(g, dt, now, hypot);
    assert g.enemyShots == old(g.enemyShots) + fired;
    SettleShots(g);
  }
}
