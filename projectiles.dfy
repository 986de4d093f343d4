/** What weapons.js and attack-of-the-kruptins/weapons.js share: the shot record,
    the fixed-size sub-stepping of a shot through one frame, and the cooldown
    decay. The two files differ only in spawn constants and in how an enemy
    shot that reaches the player is reported; those parts live in `Weapons`
    and `KruptinsWeapons`. */
module Projectiles {
  import opened Common
  import opened Tiles

  const SHOT_TTL: real := 1.2
  /** The sub-step length of moveShots. */
  const STEP: real := 0.025
  const PLAYER_RADIUS: real := 0.35
  /** The speed of a ranged enemy's shot. */
  const ENEMY_SHOT_SPEED: real := 12.0

  /** A projectile: position, velocity and age in seconds. */
  datatype Shot = Shot(x: real, y: real, vx: real, vy: real, t: real)

  /** How a shot's flight through one frame ends. */
  datatype Flight = Flying(s: Shot) | HitWall | Expired | HitPlayer

  /** The number of sub-steps left for `remain` seconds (an upper bound). */
  function SubSteps(remain: real): nat
  {
    if remain <= 0.0 then 0 else (remain / STEP).Floor + 1
  }

  lemma SubStepsDecrease(remain: real)
    requires remain > 0.0
    ensures SubSteps(remain - MinReal(STEP, remain)) < SubSteps(remain)
  {
    if remain > STEP {
      var q := remain / STEP;
      assert (remain - STEP) / STEP == q - 1.0;
      assert (q - 1.0).Floor == q.Floor - 1;
    }
  }

  /** The shot after one sub-step of `d` seconds. */
  function Advance(s: Shot, d: real): (s': Shot)
    ensures s'.vx == s.vx && s'.vy == s.vy && s'.t == s.t + d
  {
    Shot(s.x + s.vx * d, s.y + s.vy * d, s.vx, s.vy, s.t + d)
  }

  /** `Math.hypot(dx, dy) < PLAYER_RADIUS`, compared on squares. */
  predicate NearPlayer(s: Shot, px: real, py: real)
  {
    Sq(s.x - px) + Sq(s.y - py) < Sq(PLAYER_RADIUS)
  }

  /** The `while (remain > 0)` loop of moveShots for one shot. Each sub-step lasts
      min(STEP, remain); the shot is dropped, without moving, when the target
      point is not passable; dropped after moving once its age exceeds the TTL;
      and, for enemy shots (`player` present), dropped when it comes within
      PLAYER_RADIUS of the player. */
  function Fly(w: array2<int>, s: Shot, remain: real, player: Option<(real, real)>): Flight
    reads w
    decreases SubSteps(remain)
  {
    if remain <= 0.0 then Flying(s)
    else
      var d := MinReal(STEP, remain);
      var s' := Advance(s, d);
      if !CanMove(w, s'.x, s'.y) then HitWall
      else
        if s'.t > SHOT_TTL then Expired
        else if player.Some? && NearPlayer(s', player.value.0, player.value.1) then HitPlayer
        else
          SubStepsDecrease(remain);
          Fly(w, s', remain - d, player)
  }

  /** Two sub-steps in a row move a shot as one step of their total length. */
  lemma AdvanceCompose(s: Shot, a: real, b: real)
    ensures Advance(Advance(s, a), b) == Advance(s, a + b)
  {
    var m := Advance(s, a);
    assert m.x == s.x + s.vx * a && m.vx == s.vx;
    assert m.y == s.y + s.vy * a && m.vy == s.vy;
    assert s.x + s.vx * a + s.vx * b == s.x + s.vx * (a + b);
    assert s.y + s.vy * a + s.vy * b == s.y + s.vy * (a + b);
  }

  /** A shot that survives a frame of `dt > 0` seconds has made exactly one
      straight move of dt seconds at its own velocity (so it has aged by dt),
      sits on a passable cell and has not outlived its TTL. */
  lemma {:induction false} FlightSurvivor(w: array2<int>, s: Shot, remain: real, player: Option<(real, real)>)
    requires remain > 0.0
    requires Fly(w, s, remain, player).Flying?
    ensures Fly(w, s, remain, player).s == Advance(s, remain)
    ensures CanMove(w, Advance(s, remain).x, Advance(s, remain).y) && Advance(s, remain).t <= SHOT_TTL
    decreases SubSteps(remain)
  {
    var d := MinReal(STEP, remain);
    var s' := Advance(s, d);
    SubStepsDecrease(remain);
    assert Fly(w, s, remain, player) == Fly(w, s', remain - d, player);
    if remain - d > 0.0 {
      FlightSurvivor(w, s', remain - d, player);
      AdvanceCompose(s, d, remain - d);
    } else {
      assert Fly(w, s', remain - d, player) == Flying(s');
    }
  }

  /** Without a player to hit, a shot is never reported as hitting one. */
  lemma {:induction false} PlayerShotNeverHitsPlayer(w: array2<int>, s: Shot, remain: real)
    ensures Fly(w, s, remain, None) != HitPlayer
    decreases SubSteps(remain)
  {
    if remain > 0.0 {
      var d := MinReal(STEP, remain);
      SubStepsDecrease(remain);
      PlayerShotNeverHitsPlayer(w, Advance(s, d), remain - d);
    }
  }

  /** The shots of `ss` that survive the frame, in order, after their flight. */
  function Survivors(w: array2<int>, ss: seq<Shot>, dt: real, player: Option<(real, real)>): seq<Shot>
    reads w
  {
    if ss == [] then []
    else
      var f := Fly(w, ss[0], dt, player);
      (if f.Flying? then [f.s] else []) + Survivors(w, ss[1..], dt, player)
  }

  /** How many shots of `ss` end their flight at the player. */
  function PlayerHits(w: array2<int>, ss: seq<Shot>, dt: real, player: Option<(real, real)>): nat
    reads w
  {
    if ss == [] then 0
    else (if Fly(w, ss[0], dt, player) == HitPlayer then 1 else 0) + PlayerHits(w, ss[1..], dt, player)
  }

  /** No shot is ever added by a frame, and every shot kept after a frame of
      dt > 0 is on a passable cell and within its TTL. */
  lemma {:induction false} SurvivorsInvariant(w: array2<int>, ss: seq<Shot>, dt: real, player: Option<(real, real)>)
    requires dt > 0.0
    ensures |Survivors(w, ss, dt, player)| <= |ss|
    ensures forall k :: 0 <= k < |Survivors(w, ss, dt, player)| ==>
      CanMove(w, Survivors(w, ss, dt, player)[k].x, Survivors(w, ss, dt, player)[k].y) &&
      Survivors(w, ss, dt, player)[k].t <= SHOT_TTL
  {
    if ss != [] {
      SurvivorsInvariant(w, ss[1..], dt, player);
      var f := Fly(w, ss[0], dt, player);
      if f.Flying? {
        FlightSurvivor(w, ss[0], dt, player);
      }
    }
  }

  /** Player shots never count a hit on the player. */
  lemma {:induction false} NoPlayerHitsWithoutPlayer(w: array2<int>, ss: seq<Shot>, dt: real)
    ensures PlayerHits(w, ss, dt, None) == 0
  {
    if ss != [] {
      PlayerShotNeverHitsPlayer(w, ss[0], dt);
      NoPlayerHitsWithoutPlayer(w, ss[1..], dt);
    }
  }

  /** The inner `while (remain > 0)` loop of moveShots for one shot: sub-step it
      through `dt` seconds and report how its flight ends. */
  method FlyShot(w: array2<int>, s0: Shot, dt: real, player: Option<(real, real)>) returns (f: Flight)
    ensures f == Fly(w, s0, dt, player)
  {
    var s := s0;
    var remain := dt;
    while remain > 0.0
      invariant Fly(w, s, remain, player) == Fly(w, s0, dt, player)
      decreases SubSteps(remain)
    {
      var d := MinReal(STEP, remain);
      var next := Advance(s, d);
      if !CanMove(w, next.x, next.y) {
        return HitWall;
      }
      SubStepsDecrease(remain);
      s := next;
      remain := remain - d;
      if s.t > SHOT_TTL {
        return Expired;
      }
      if player.Some? && NearPlayer(s, player.value.0, player.value.1) {
        return HitPlayer;
      }
    }
    f := Flying(s);
  }

  /** Survivors and PlayerHits of `ss[i..]` take shot i's flight first. */
  lemma SurvivorsAt(w: array2<int>, ss: seq<Shot>, i: nat, dt: real, player: Option<(real, real)>)
    requires i < |ss|
    ensures Survivors(w, ss[i..], dt, player) ==
      (if Fly(w, ss[i], dt, player).Flying? then [Fly(w, ss[i], dt, player).s] else []) + Survivors(w, ss[i + 1..], dt, player)
    ensures PlayerHits(w, ss[i..], dt, player) ==
      (if Fly(w, ss[i], dt, player) == HitPlayer then 1 else 0) + PlayerHits(w, ss[i + 1..], dt, player)
  {
    assert ss[i..][1..] == ss[i + 1..];
  }

  /** Splicing shot i out of `ss[..i + 1] + kept`, or keeping it, leaves the
      shots before i followed by what is kept. */
  lemma SpliceShot(ss: seq<Shot>, i: nat, kept: seq<Shot>)
    requires i < |ss|
    ensures (ss[..i + 1] + kept)[i] == ss[i]
    ensures (ss[..i + 1] + kept)[..i] == ss[..i] && (ss[..i + 1] + kept)[i + 1..] == kept
    ensures (ss[..i + 1] + kept)[..i] + (ss[..i + 1] + kept)[i + 1..] == ss[..i] + kept
    ensures ss[..i + 1] + kept == ss[..i] + ([ss[i]] + kept)
  {
    var a := ss[..i + 1] + kept;
    assert a[..i] == ss[..i];
    assert a[i + 1..] == kept;
    assert ss[..i + 1] == ss[..i] + [ss[i]];
  }

  /** One of the two loops of moveShots: walk the shot array from the end,
      fly each shot, splice out the ones whose flight ends, and count those
      that end at the player. */
  method MoveShotList(w: array2<int>, shots: seq<Shot>, dt: real, player: Option<(real, real)>)
    returns (kept: seq<Shot>, hits: nat)
    ensures kept == Survivors(w, shots, dt, player)
    ensures hits == PlayerHits(w, shots, dt, player)
  {
    kept := shots;
    hits := 0;
    var i := |shots|;
    while i > 0
      invariant 0 <= i <= |shots|
      invariant kept == shots[..i] + Survivors(w, shots[i..], dt, player)
      invariant hits == PlayerHits(w, shots[i..], dt, player)
    {
      i := i - 1;
      ghost var rest := Survivors(w, shots[i + 1..], dt, player);
      SurvivorsAt(w, shots, i, dt, player);
      SpliceShot(shots, i, rest);
      var f := FlyShot(w, kept[i], dt, player);
      if f.Flying? {
        kept := kept[..i] + [f.s] + kept[i + 1..];
        assert Survivors(w, shots[i..], dt, player) == [f.s] + rest;
      } else {
        kept := kept[..i] + kept[i + 1..];
        assert Survivors(w, shots[i..], dt, player) == rest;
        if f == HitPlayer {
          hits := hits + 1;
        }
      }
    }
  }

  /** updateBlasterCooldown: a running cooldown is decreased by dt and clamped at 0. */
  function CooldownAfter(cd: real, dt: real): (r: real)
    ensures cd <= 0.0 ==> r == cd
    ensures cd > 0.0 ==> r >= 0.0
    ensures cd > 0.0 && dt >= 0.0 ==> r <= cd
    ensures cd > 0.0 && r > 0.0 ==> r == cd - dt
  {
    if cd > 0.0 then MaxReal(0.0, cd - dt) else cd
  }

  /** Two frames of cooldown decay with non-negative lengths are one frame of their total length. */
  lemma CooldownAfterCompose(cd: real, a: real, b: real)
    requires a >= 0.0 && b >= 0.0
    ensures CooldownAfter(CooldownAfter(cd, a), b) == CooldownAfter(cd, a + b)
  {
  }

  /** The cooldown after a run of frames of the given lengths. */
  function CooldownOver(cd: real, dts: seq<real>): real
    decreases |dts|
  {
    if dts == [] then cd else CooldownOver(CooldownAfter(cd, dts[0]), dts[1..])
  }

  function Total(dts: seq<real>): real
  {
    if dts == [] then 0.0 else dts[0] + Total(dts[1..])
  }

  /** A running cooldown ends exactly when the frames since it started add up to
      its length: before that it is still positive (so the blaster stays
      locked), from then on it is 0. */
  lemma {:induction false} CooldownRunsOut(cd: real, dts: seq<real>)
    requires cd > 0.0
    requires forall k :: 0 <= k < |dts| ==> dts[k] >= 0.0
    ensures Total(dts) < cd ==> CooldownOver(cd, dts) == cd - Total(dts) > 0.0
    ensures Total(dts) >= cd ==> CooldownOver(cd, dts) == 0.0
    decreases |dts|
  {
    if dts != [] {
      var next := CooldownAfter(cd, dts[0]);
      if next > 0.0 {
        CooldownRunsOut(next, dts[1..]);
      } else {
        CooldownStaysOut(dts[1..]);
        TotalNonNegative(dts[1..]);
      }
    }
  }

  lemma {:induction false} CooldownStaysOut(dts: seq<real>)
    ensures CooldownOver(0.0, dts) == 0.0
  {
    if dts != [] {
      CooldownStaysOut(dts[1..]);
    }
  }

  lemma {:induction false} TotalNonNegative(dts: seq<real>)
    requires forall k :: 0 <= k < |dts| ==> dts[k] >= 0.0
    ensures Total(dts) >= 0.0
  {
    if dts != [] {
      TotalNonNegative(dts[1..]);
    }
  }

  /** How far ahead of the player, and how far to its right, spawnShot puts a new shot. */
  const FORWARD: real := 0.8
  const RIGHT_OFFSET: real := 0.2

  /** The shot spawnShot fires for a player at (px, py) facing (dx, dy): it starts
      FORWARD along the facing and RIGHT_OFFSET along the right vector (-dy, dx),
      both measured in units of the facing's length, and flies along the facing
      at `speed` times its length, with age 0. */
  function Muzzle(px: real, py: real, dx: real, dy: real, speed: real): (s: Shot)
    ensures s.t == 0.0 && s.vx == dx * speed && s.vy == dy * speed
    ensures (s.x - px) * dx + (s.y - py) * dy == FORWARD * (dx * dx + dy * dy)
    ensures (s.x - px) * -dy + (s.y - py) * dx == RIGHT_OFFSET * (dx * dx + dy * dy)
  {
    var ox, oy := dx * FORWARD + -dy * RIGHT_OFFSET, dy * FORWARD + dx * RIGHT_OFFSET;
    assert ox * dx + oy * dy == FORWARD * (dx * dx + dy * dy);
    assert ox * -dy + oy * dx == RIGHT_OFFSET * (dx * dx + dy * dy);
    Shot(px + ox, py + oy, dx * speed, dy * speed, 0.0)
  }

  /** `window.X || 1.0`: an unset or zero multiplier reads as 1. */
  function OrOne(m: Option<real>): (r: real)
    ensures r != 0.0
    ensures m.Some? && m.value != 0.0 ==> r == m.value
  {
    if m.Some? && m.value != 0.0 then m.value else 1.0
  }
}
