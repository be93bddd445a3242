/**
 * The per-frame rules of `CaptainForever` (captain_forever/game.py) as
 * functions on a `World` value: one function per phase of
 * `_process_game_logic`, composed into `Tick`, plus the initial world built
 * by the constructor. The `Game` module's class runs the same phases with
 * loops over its list fields and is proved to agree with these functions;
 * the properties of the game are proved here, about the functions.
 */
module Simulation {
  import opened Wrappers
  import opened Geometry
  import opened Models

  /** CaptainForever.ENEMY_SPAWN_DISTANCE */
  const ENEMY_SPAWN_DISTANCE := 400.0
  /** Where the player ship is created. */
  const PLAYER_START := Vec(400.0, 400.0)
  /** Enemies placed by the constructor. */
  const INITIAL_ENEMIES := 3
  /** Pacing stops at this many enemies. */
  const MAX_ENEMIES := 8
  /** Added to the spawn counter each paced tick. */
  const SPAWN_STEP := 5
  /** The counter must exceed this much per live enemy before a spawn. */
  const SPAWN_PACE := 125

  /** Bounding radii of the sprites: player ship, enemy ship, bullet, fire. */
  datatype Radii = Radii(player: real, ship: real, bullet: real, fire: real)

  /** What stays fixed for a game: screen size, sprite radii, and the turn per rotate call. */
  datatype Arena = Arena(width: int, height: int, radii: Radii, turn: Turn)

  predicate ValidArena(a: Arena)
  {
    a.width > 0 && a.height > 0
  }

  /** The player slot: a live ship, or the fire it was turned into. */
  datatype Player = Alive(ship: Ship) | Wrecked(fire: Body)

  function PlayerBody(p: Player): Body
  {
    match p
    case Alive(s) => s.body
    case Wrecked(f) => f
  }

  /**
   * Everything `_process_game_logic` reads or writes, plus the remaining
   * stream of random positions that `_spawn_enemy` draws from.
   */
  datatype World = World(
    player: Player,
    npcShips: seq<Npc>,
    bullets: seq<Body>,
    npcBullets: seq<Body>,
    fires: seq<Body>,
    spawnCounter: int,
    messageFlag: string,
    message: string,
    samples: seq<Vec>)

  /** The fixed text after the flag. */
  const MessageTail := "! \n To exit, press escape \n To start a new game, press enter"

  /** `_end_game_message`: the text shown once the game is decided. */
  function EndMessage(flag: string): (m: string)
    ensures |m| == 4 + |flag| + |MessageTail|
    ensures m[..4] == "You " && m[4..4 + |flag|] == flag && m[4 + |flag|..] == MessageTail
  {
    "You " + flag + MessageTail
  }

  /** Different flags give different messages, and no message is empty. */
  lemma EndMessageInjective(f: string, g: string)
    ensures EndMessage(f) != ""
    ensures EndMessage(f) == EndMessage(g) ==> f == g
  {
    if EndMessage(f) == EndMessage(g) {
      assert |f| == |g|;
      assert f == EndMessage(f)[4..4 + |f|];
    }
  }

  // ------------------------------------------------------------ construction

  /** Accepted by the constructor: strictly farther than ENEMY_SPAWN_DISTANCE from the start. */
  predicate FarFromStart(p: Vec)
  {
    SqDist(p, PLAYER_START) > ENEMY_SPAWN_DISTANCE * ENEMY_SPAWN_DISTANCE
  }

  function CountFar(samples: seq<Vec>): nat
    decreases |samples|
  {
    if samples == [] then 0 else (if FarFromStart(samples[0]) then 1 else 0) + CountFar(samples[1..])
  }

  /** One rejection-sampling loop of the constructor: skip samples until one is far enough. */
  function DrawFar(samples: seq<Vec>): (r: (Vec, seq<Vec>))
    requires CountFar(samples) >= 1
    ensures FarFromStart(r.0)
    ensures CountFar(r.1) == CountFar(samples) - 1
    decreases |samples|
  {
    if FarFromStart(samples[0]) then (samples[0], samples[1..]) else DrawFar(samples[1..])
  }

  /**
   * A draw consumes a non-empty prefix of the stream: the samples before the
   * last one it reads are all too near, and the last one is the position
   * returned.
   */
  lemma {:induction false} DrawFarSuffix(samples: seq<Vec>)
    requires CountFar(samples) >= 1
    ensures var (p, rest) := DrawFar(samples);
      && p in samples && |rest| < |samples| && rest == samples[|samples| - |rest|..]
      && p == samples[|samples| - |rest| - 1]
      && (forall i :: 0 <= i < |samples| - |rest| - 1 ==> !FarFromStart(samples[i]))
    decreases |samples|
  {
    if !FarFromStart(samples[0]) {
      DrawFarSuffix(samples[1..]);
    }
  }

  /** The constructor's `for _ in range(n)` around `DrawFar`. */
  function DrawEnemies(samples: seq<Vec>, n: nat): (r: (seq<Vec>, seq<Vec>))
    requires CountFar(samples) >= n
    ensures |r.0| == n && CountFar(r.1) == CountFar(samples) - n
  {
    if n == 0 then ([], samples)
    else
      var (found, rest) := DrawEnemies(samples, n - 1);
      var (p, rest') := DrawFar(rest);
      (found + [p], rest')
  }

  /**
   * The constructor's draws: every accepted position is farther than
   * ENEMY_SPAWN_DISTANCE from the start and comes from the stream, and what
   * is left is the unread end of the stream.
   */
  lemma {:induction false} DrawEnemiesFacts(samples: seq<Vec>, n: nat)
    requires CountFar(samples) >= n
    ensures var (found, rest) := DrawEnemies(samples, n);
      && (forall p :: p in found ==> FarFromStart(p) && p in samples)
      && |rest| <= |samples| && rest == samples[|samples| - |rest|..]
  {
    if n > 0 {
      DrawEnemiesFacts(samples, n - 1);
      var (found, rest) := DrawEnemies(samples, n - 1);
      DrawFarSuffix(rest);
      var (p, rest') := DrawFar(rest);
      SuffixOfSuffix(samples, rest, rest');
    }
  }

  /** What is left after two draws is what is left of the original stream. */
  lemma SuffixOfSuffix(s: seq<Vec>, t: seq<Vec>, u: seq<Vec>)
    requires |t| <= |s| && t == s[|s| - |t|..]
    requires |u| <= |t| && u == t[|t| - |u|..]
    ensures u == s[|s| - |u|..]
    ensures forall p :: p in t ==> p in s
  {
    forall p | p in t ensures p in s {
      var i :| 0 <= i < |t| && t[i] == p;
      assert s[|s| - |t| + i] == p;
    }
  }

  /** An enemy per position, all of the enemy sprite's radius. */
  function NpcsAt(ps: seq<Vec>, radius: real): (r: seq<Npc>)
    ensures |r| == |ps|
    ensures forall i :: 0 <= i < |ps| ==> r[i] == NewNpc(ps[i], radius)
  {
    seq(|ps|, i requires 0 <= i < |ps| => NewNpc(ps[i], radius))
  }

  /** One more round of the constructor's sampling. */
  lemma DrawEnemiesNext(samples: seq<Vec>, n: nat, found: seq<Vec>, rest: seq<Vec>, p: Vec, rest': seq<Vec>)
    requires CountFar(samples) >= n + 1
    requires DrawEnemies(samples, n) == (found, rest)
    requires CountFar(rest) >= 1 && DrawFar(rest) == (p, rest')
    ensures DrawEnemies(samples, n + 1) == (found + [p], rest')
  {
  }

  /** One more enemy placed by the constructor. */
  lemma NpcsAtNext(ps: seq<Vec>, p: Vec, radius: real)
    ensures NpcsAt(ps + [p], radius) == NpcsAt(ps, radius) + [NewNpc(p, radius)]
  {
  }

  /** `CaptainForever.__init__` with its random positions drawn from `samples`. */
  function InitialWorld(samples: seq<Vec>, a: Arena): World
    requires CountFar(samples) >= INITIAL_ENEMIES
  {
    var (found, rest) := DrawEnemies(samples, INITIAL_ENEMIES);
    World(Alive(NewShip(PLAYER_START, a.radii.player)), NpcsAt(found, a.radii.ship),
          [], [], [], 0, "", "", rest)
  }

  // ---------------------------------------------------------------- movement

  /** The per-enemy measurements fit the enemies and the player's position. */
  predicate AimsFit(w: World, aims: seq<Aim>)
  {
    |aims| == |w.npcShips|
    && forall i :: 0 <= i < |aims| ==> AimFits(w.npcShips[i], PlayerBody(w.player).pos, aims[i])
  }

  /**
   * Every enemy moves toward the player's position as it was before the
   * player moved; the bullets they fire are collected in enemy order.
   */
  function MoveEnemies(es: seq<Npc>, aims: seq<Aim>, target: Vec, a: Arena): (r: (seq<Npc>, seq<Body>))
    requires ValidArena(a) && |aims| == |es|
    requires forall i :: 0 <= i < |es| ==> AimFits(es[i], target, aims[i])
    ensures |r.0| == |es| && |r.1| <= |es|
    decreases |es|
  {
    if es == [] then ([], [])
    else
      var n := |es| - 1;
      var (moved, shots) := MoveEnemies(es[..n], aims[..n], target, a);
      var (e, shot) := NpcMove(es[n], target, aims[n], a.turn, a.width, a.height, a.radii.bullet);
      (moved + [e], shots + (if shot.Some? then [shot.value] else []))
  }

  /** The movement of one more enemy, in list order. */
  lemma MoveEnemiesNext(es: seq<Npc>, aims: seq<Aim>, target: Vec, a: Arena, i: int)
    requires ValidArena(a) && |aims| == |es| && 0 <= i < |es|
    requires forall j :: 0 <= j < |es| ==> AimFits(es[j], target, aims[j])
    ensures var (e, shot) := NpcMove(es[i], target, aims[i], a.turn, a.width, a.height, a.radii.bullet);
      && MoveEnemies(es[..i + 1], aims[..i + 1], target, a).0 == MoveEnemies(es[..i], aims[..i], target, a).0 + [e]
      && MoveEnemies(es[..i + 1], aims[..i + 1], target, a).1
         == MoveEnemies(es[..i], aims[..i], target, a).1 + (if shot.Some? then [shot.value] else [])
  {
    assert es[..i + 1][..i] == es[..i] && aims[..i + 1][..i] == aims[..i];
  }

  /** Each enemy is moved by its own rule, and every enemy ends inside the arena. */
  lemma {:induction false} MoveEnemiesPointwise(es: seq<Npc>, aims: seq<Aim>, target: Vec, a: Arena, i: int)
    requires ValidArena(a) && |aims| == |es|
    requires forall j :: 0 <= j < |es| ==> AimFits(es[j], target, aims[j])
    requires 0 <= i < |es|
    ensures MoveEnemies(es, aims, target, a).0[i]
         == NpcMove(es[i], target, aims[i], a.turn, a.width, a.height, a.radii.bullet).0
    ensures InTorus(MoveEnemies(es, aims, target, a).0[i].ship.body.pos, a.width, a.height)
    decreases |es|
  {
    var n := |es| - 1;
    if i < n {
      MoveEnemiesPointwise(es[..n], aims[..n], target, a, i);
    }
  }

  /** An enemy fires this tick when it is aimed and its delay passes 1000 * BULLET_DELAY. */
  predicate FiresNow(e: Npc, aim: Aim)
  {
    Aimed(aim) && e.delay + DELAY_STEP > 1000 * BULLET_DELAY
  }

  /**
   * The bullets the enemies fire in one movement loop, independently of how
   * they move: one per firing enemy, in enemy order, each starting at its
   * enemy and moving along the enemy's heading at BULLET_SPEED (an aimed
   * enemy is stopped before it fires).
   */
  function Volley(es: seq<Npc>, aims: seq<Aim>, radius: real): seq<Body>
    requires |aims| == |es|
    decreases |es|
  {
    if es == [] then []
    else
      var n := |es| - 1;
      var e := es[n];
      Volley(es[..n], aims[..n], radius) + (if FiresNow(e, aims[n]) then [EnemyShot(e, radius)] else [])
  }

  /** The bullet a stopped enemy fires: at the enemy, along its heading at BULLET_SPEED. */
  function EnemyShot(e: Npc, radius: real): Body
  {
    Body(e.ship.body.pos, Scale(e.ship.dir, BULLET_SPEED), radius)
  }

  /** The volley holds the shot of every firing enemy, and nothing else. */
  lemma {:induction false} VolleyMembers(es: seq<Npc>, aims: seq<Aim>, radius: real)
    requires |aims| == |es|
    ensures forall i :: 0 <= i < |es| && FiresNow(es[i], aims[i]) ==> EnemyShot(es[i], radius) in Volley(es, aims, radius)
    ensures forall b :: b in Volley(es, aims, radius) ==>
      exists i :: 0 <= i < |es| && FiresNow(es[i], aims[i]) && b == EnemyShot(es[i], radius)
    decreases |es|
  {
    if es != [] {
      var n := |es| - 1;
      VolleyMembers(es[..n], aims[..n], radius);
      var v0 := Volley(es[..n], aims[..n], radius);
      forall i | 0 <= i < |es| && FiresNow(es[i], aims[i])
        ensures EnemyShot(es[i], radius) in Volley(es, aims, radius)
      {
        if i < n {
          assert es[..n][i] == es[i] && aims[..n][i] == aims[i];
        }
      }
      forall b | b in Volley(es, aims, radius)
        ensures exists i :: 0 <= i < |es| && FiresNow(es[i], aims[i]) && b == EnemyShot(es[i], radius)
      {
        if b in v0 {
          var i :| 0 <= i < n && FiresNow(es[..n][i], aims[..n][i]) && b == EnemyShot(es[..n][i], radius);
          assert es[..n][i] == es[i] && aims[..n][i] == aims[i];
        } else {
          assert FiresNow(es[n], aims[n]) && b == EnemyShot(es[n], radius);
        }
      }
    }
  }

  /** The bullets collected by the enemy movement are exactly the volley. */
  lemma {:induction false} MoveEnemiesShots(es: seq<Npc>, aims: seq<Aim>, target: Vec, a: Arena)
    requires ValidArena(a) && |aims| == |es|
    requires forall i :: 0 <= i < |es| ==> AimFits(es[i], target, aims[i])
    ensures MoveEnemies(es, aims, target, a).1 == Volley(es, aims, a.radii.bullet)
    decreases |es|
  {
    if es != [] {
      var n := |es| - 1;
      MoveEnemiesShots(es[..n], aims[..n], target, a);
      if Aimed(aims[n]) {
        NpcMoveAimed(es[n], target, aims[n], a.turn, a.width, a.height, a.radii.bullet);
      } else {
        NpcMoveTurning(es[n], target, aims[n], a.turn, a.width, a.height, a.radii.bullet);
      }
    }
  }

  function MoveBullets(bs: seq<Body>): (r: seq<Body>)
    ensures |r| == |bs| && forall i :: 0 <= i < |bs| ==> r[i] == MoveBullet(bs[i])
  {
    seq(|bs|, i requires 0 <= i < |bs| => MoveBullet(bs[i]))
  }

  function MoveBodies(bs: seq<Body>, width: int, height: int): (r: seq<Body>)
    requires width > 0 && height > 0
    ensures |r| == |bs| && forall i :: 0 <= i < |bs| ==> r[i] == MoveBody(bs[i], width, height)
  {
    seq(|bs|, i requires 0 <= i < |bs| => MoveBody(bs[i], width, height))
  }

  function MovePlayer(p: Player, width: int, height: int): Player
    requires width > 0 && height > 0
  {
    match p
    case Alive(s) => Alive(s.(body := MoveBody(s.body, width, height)))
    case Wrecked(f) => Wrecked(MoveBody(f, width, height))
  }

  /**
   * The movement loop over `get_game_objects()`: enemies, then player bullets,
   * then the enemy bullets that existed before this tick (bullets fired during
   * the loop are appended to the live list but not moved), then fires, then
   * the player.
   */
  function MovePhase(w: World, aims: seq<Aim>, a: Arena): World
    requires ValidArena(a) && AimsFit(w, aims)
  {
    var (moved, shots) := MoveEnemies(w.npcShips, aims, PlayerBody(w.player).pos, a);
    w.(npcShips := moved,
       bullets := MoveBullets(w.bullets),
       npcBullets := MoveBullets(w.npcBullets) + shots,
       fires := MoveBodies(w.fires, a.width, a.height),
       player := MovePlayer(w.player, a.width, a.height))
  }

  // ----------------------------------------------------------------- contact

  predicate Contact(es: seq<Npc>, p: Body)
  {
    exists i :: 0 <= i < |es| && Collides(es[i].ship.body, p)
  }

  /** The player slot becomes a fire where the player was, and the game is lost. */
  function Lose(w: World, a: Arena): World
  {
    w.(player := Wrecked(StaticObject(PlayerBody(w.player).pos, a.radii.fire)),
       messageFlag := "lost",
       message := EndMessage("lost"))
  }

  /** The enemy-player check: the first enemy touching the player destroys it. */
  function ContactPhase(w: World, a: Arena): World
  {
    if Contact(w.npcShips, PlayerBody(w.player)) then Lose(w, a) else w
  }

  // ---------------------------------------------------------------- spawning

  /** `_spawn_enemy`'s loop ends at a sample nearer than ENEMY_SPAWN_DISTANCE. */
  predicate TooClose(p: Vec, target: Vec)
  {
    SqDist(p, target) < ENEMY_SPAWN_DISTANCE * ENEMY_SPAWN_DISTANCE
  }

  /**
   * `_spawn_enemy` over a finite stream: every sample at least
   * ENEMY_SPAWN_DISTANCE away becomes an enemy, and the first nearer sample
   * is consumed and ends the loop (as does the end of the stream). Returns the
   * accepted positions and the rest of the stream.
   */
  function SpawnRun(samples: seq<Vec>, target: Vec): (r: (seq<Vec>, seq<Vec>))
    ensures |r.0| <= |samples|
    decreases |samples|
  {
    if samples == [] then ([], [])
    else if TooClose(samples[0], target) then ([], samples[1..])
    else
      var (more, rest) := SpawnRun(samples[1..], target);
      ([samples[0]] + more, rest)
  }

  /**
   * What a spawn run consumes: a prefix of accepted samples, each at least
   * ENEMY_SPAWN_DISTANCE away, then (if the stream lasts) exactly one nearer
   * sample that is thrown away.
   */
  lemma {:induction false} SpawnRunShape(samples: seq<Vec>, target: Vec)
    ensures var (found, rest) := SpawnRun(samples, target);
      && found == samples[..|found|]
      && (forall p :: p in found ==> !TooClose(p, target))
      && (|found| < |samples| ==> TooClose(samples[|found|], target) && rest == samples[|found| + 1..])
      && (|found| == |samples| ==> rest == [])
    decreases |samples|
  {
    if samples != [] && !TooClose(samples[0], target) {
      SpawnRunShape(samples[1..], target);
    }
  }

  function SpawnEnemy(w: World, a: Arena): World
  {
    var (found, rest) := SpawnRun(w.samples, PlayerBody(w.player).pos);
    w.(npcShips := w.npcShips + NpcsAt(found, a.radii.ship), samples := rest)
  }

  /** Spawn pacing: below MAX_ENEMIES the counter grows by SPAWN_STEP and may trigger a spawn. */
  function SpawnPhase(w: World, a: Arena): World
  {
    if |w.npcShips| < MAX_ENEMIES then
      var counter := w.spawnCounter + SPAWN_STEP;
      if counter > |w.npcShips| * SPAWN_PACE then SpawnEnemy(w.(spawnCounter := 0), a)
      else w.(spawnCounter := counter)
    else w
  }

  /**
   * With fewer than 8 enemies the counter goes up by 5 and, once it exceeds
   * 125 per enemy, resets and a spawn run adds its accepted samples; with 8
   * or more nothing changes. Only enemies are added, at the end of the list.
   */
  lemma SpawnPhaseEffect(w: World, a: Arena)
    ensures var r := SpawnPhase(w, a);
      && (|w.npcShips| >= MAX_ENEMIES ==> r == w)
      && (|w.npcShips| < MAX_ENEMIES && w.spawnCounter + SPAWN_STEP <= |w.npcShips| * SPAWN_PACE ==>
            r == w.(spawnCounter := w.spawnCounter + SPAWN_STEP))
      && (|w.npcShips| < MAX_ENEMIES && w.spawnCounter + SPAWN_STEP > |w.npcShips| * SPAWN_PACE ==>
            r.spawnCounter == 0
            && r.npcShips == w.npcShips + NpcsAt(SpawnRun(w.samples, PlayerBody(w.player).pos).0, a.radii.ship)
            && r.samples == SpawnRun(w.samples, PlayerBody(w.player).pos).1
            && (forall i :: |w.npcShips| <= i < |r.npcShips| ==>
                  !TooClose(r.npcShips[i].ship.body.pos, PlayerBody(w.player).pos)))
      && r.player == w.player && r.bullets == w.bullets && r.npcBullets == w.npcBullets
      && r.fires == w.fires && r.message == w.message && r.messageFlag == w.messageFlag
  {
    var target := PlayerBody(w.player).pos;
    SpawnRunShape(w.samples, target);
    var found := SpawnRun(w.samples, target).0;
    forall i | |w.npcShips| <= i < |w.npcShips| + |found|
      ensures !TooClose((w.npcShips + NpcsAt(found, a.radii.ship))[i].ship.body.pos, target)
    {
      assert found[i - |w.npcShips|] in found;
    }
  }

  // ----------------------------------------------------------------- pruning

  /** The bullets that are not past any edge, in their original order. */
  function KeepInside(bs: seq<Body>, width: int, height: int): seq<Body>
    decreases |bs|
  {
    if bs == [] then []
    else
      var n := |bs| - 1;
      KeepInside(bs[..n], width, height) + (if InRect(bs[n].pos, width, height) then [bs[n]] else [])
  }

  /**
   * Pruning keeps exactly the in-bounds bullets, each as often as it occurred,
   * and works piecewise (so relative order is kept).
   */
  lemma {:induction false} KeepInsideExact(bs: seq<Body>, width: int, height: int)
    ensures forall b :: b in KeepInside(bs, width, height) ==> InRect(b.pos, width, height)
    ensures forall b :: multiset(KeepInside(bs, width, height))[b]
                     == if InRect(b.pos, width, height) then multiset(bs)[b] else 0
    decreases |bs|
  {
    if bs != [] {
      var n := |bs| - 1;
      KeepInsideExact(bs[..n], width, height);
      assert bs == bs[..n] + [bs[n]];
    }
  }

  /** Pruning one more bullet of the walked copy. */
  lemma KeepInsideNext(bs: seq<Body>, i: int, width: int, height: int)
    requires 0 <= i < |bs|
    ensures KeepInside(bs[..i + 1], width, height)
         == KeepInside(bs[..i], width, height) + (if InRect(bs[i].pos, width, height) then [bs[i]] else [])
  {
    assert bs[..i + 1][..i] == bs[..i];
  }

  lemma {:induction false} KeepInsideConcat(xs: seq<Body>, ys: seq<Body>, width: int, height: int)
    ensures KeepInside(xs + ys, width, height) == KeepInside(xs, width, height) + KeepInside(ys, width, height)
    decreases |ys|
  {
    if ys == [] {
      assert xs + ys == xs;
    } else {
      var n := |ys| - 1;
      KeepInsideConcat(xs, ys[..n], width, height);
      assert (xs + ys)[..|xs + ys| - 1] == xs + ys[..n];
    }
  }

  /** Out-of-bounds pruning of both bullet lists; nothing else changes. */
  function PrunePhase(w: World, a: Arena): World
  {
    w.(bullets := KeepInside(w.bullets, a.width, a.height),
       npcBullets := KeepInside(w.npcBullets, a.width, a.height))
  }

  // ---------------------------------------------------------- bullet hits

  /** The enemies a bullet misses, in order. */
  function Spared(es: seq<Npc>, b: Body): seq<Npc>
    decreases |es|
  {
    if es == [] then []
    else
      var n := |es| - 1;
      Spared(es[..n], b) + (if Collides(es[n].ship.body, b) then [] else [es[n]])
  }

  /** The enemies a bullet hits, in order. */
  function Struck(es: seq<Npc>, b: Body): seq<Npc>
    decreases |es|
  {
    if es == [] then []
    else
      var n := |es| - 1;
      Struck(es[..n], b) + (if Collides(es[n].ship.body, b) then [es[n]] else [])
  }

  /**
   * The bullet-enemy pass: for each player bullet in turn, every enemy still
   * alive that it touches is removed. Returns the survivors and the removed
   * enemies in removal order. Bullets are not used up.
   */
  function HitResolve(bs: seq<Body>, es: seq<Npc>): (seq<Npc>, seq<Npc>)
    decreases |bs|
  {
    if bs == [] then (es, [])
    else
      var n := |bs| - 1;
      var (alive, killed) := HitResolve(bs[..n], es);
      (Spared(alive, bs[n]), killed + Struck(alive, bs[n]))
  }

  /** One more enemy examined by the inner loop of the hit pass. */
  lemma SplitNext(alive: seq<Npc>, k: int, b: Body)
    requires 0 <= k < |alive|
    ensures Spared(alive[..k + 1], b)
         == Spared(alive[..k], b) + (if Collides(alive[k].ship.body, b) then [] else [alive[k]])
    ensures Struck(alive[..k + 1], b)
         == Struck(alive[..k], b) + (if Collides(alive[k].ship.body, b) then [alive[k]] else [])
  {
    assert alive[..k + 1][..k] == alive[..k];
  }

  /** The hit pass over one more bullet. */
  lemma HitResolveNext(bs: seq<Body>, i: int, es: seq<Npc>)
    requires 0 <= i < |bs|
    ensures var (alive, killed) := HitResolve(bs[..i], es);
      HitResolve(bs[..i + 1], es) == (Spared(alive, bs[i]), killed + Struck(alive, bs[i]))
  {
    assert bs[..i + 1][..i] == bs[..i];
  }

  /** True when some bullet of `bs` touches the enemy. */
  predicate HitBy(e: Npc, bs: seq<Body>)
  {
    exists j :: 0 <= j < |bs| && Collides(e.ship.body, bs[j])
  }

  lemma {:induction false} SplitByBullet(es: seq<Npc>, b: Body)
    ensures multiset(Spared(es, b)) + multiset(Struck(es, b)) == multiset(es)
    ensures forall e :: e in Spared(es, b) ==> e in es && !Collides(e.ship.body, b)
    ensures forall e :: e in Struck(es, b) ==> e in es && Collides(e.ship.body, b)
    decreases |es|
  {
    if es != [] {
      var n := |es| - 1;
      SplitByBullet(es[..n], b);
      assert es == es[..n] + [es[n]];
    }
  }

  /** Being hit by one more bullet. */
  lemma HitByAppend(e: Npc, bs: seq<Body>, b: Body)
    ensures HitBy(e, bs + [b]) <==> HitBy(e, bs) || Collides(e.ship.body, b)
  {
    if HitBy(e, bs) {
      var j :| 0 <= j < |bs| && Collides(e.ship.body, bs[j]);
      assert (bs + [b])[j] == bs[j];
    }
    if Collides(e.ship.body, b) {
      assert (bs + [b])[|bs|] == b;
    }
    if HitBy(e, bs + [b]) {
      var j :| 0 <= j < |bs| + 1 && Collides(e.ship.body, (bs + [b])[j]);
      if j < |bs| { assert (bs + [b])[j] == bs[j]; }
    }
  }

  /**
   * The pass splits the enemies without loss or duplication: survivors touch
   * no bullet, every removed enemy touches one.
   */
  lemma {:induction false} HitResolvePartition(bs: seq<Body>, es: seq<Npc>)
    ensures multiset(HitResolve(bs, es).0) + multiset(HitResolve(bs, es).1) == multiset(es)
    ensures forall e :: e in HitResolve(bs, es).0 ==> e in es && !HitBy(e, bs)
    ensures forall e :: e in HitResolve(bs, es).1 ==> e in es && HitBy(e, bs)
    decreases |bs|
  {
    if bs != [] {
      var n := |bs| - 1;
      var prev := bs[..n];
      assert bs == prev + [bs[n]];
      HitResolvePartition(prev, es);
      var alive := HitResolve(prev, es).0;
      var killed := HitResolve(prev, es).1;
      SplitByBullet(alive, bs[n]);
      forall e | e in Spared(alive, bs[n]) ensures e in es && !HitBy(e, bs) {
        HitByAppend(e, prev, bs[n]);
      }
      forall e | e in killed + Struck(alive, bs[n]) ensures e in es && HitBy(e, bs) {
        HitByAppend(e, prev, bs[n]);
      }
    }
  }

  /** The enemies no bullet touches, in their original order. */
  function Untouched(es: seq<Npc>, bs: seq<Body>): seq<Npc>
    decreases |es|
  {
    if es == [] then []
    else
      var n := |es| - 1;
      Untouched(es[..n], bs) + (if HitBy(es[n], bs) then [] else [es[n]])
  }

  lemma {:induction false} UntouchedExtend(es: seq<Npc>, bs: seq<Body>, b: Body)
    ensures Spared(Untouched(es, bs), b) == Untouched(es, bs + [b])
    decreases |es|
  {
    if es != [] {
      var n := |es| - 1;
      UntouchedExtend(es[..n], bs, b);
      var e := es[n];
      HitByAppend(e, bs, b);
      var u := Untouched(es[..n], bs);
      if !HitBy(e, bs) {
        assert Untouched(es, bs) == u + [e];
        assert (u + [e])[..|u|] == u;
      } else {
        assert Untouched(es, bs) == u;
      }
    }
  }

  lemma UntouchedNoBullets(es: seq<Npc>)
    ensures Untouched(es, []) == es
    decreases |es|
  {
    if es != [] {
      UntouchedNoBullets(es[..|es| - 1]);
    }
  }

  /** The survivors are exactly the untouched enemies, in their original order. */
  lemma {:induction false} HitResolveSurvivors(bs: seq<Body>, es: seq<Npc>)
    ensures HitResolve(bs, es).0 == Untouched(es, bs)
    decreases |bs|
  {
    if bs == [] {
      UntouchedNoBullets(es);
    } else {
      var n := |bs| - 1;
      HitResolveSurvivors(bs[..n], es);
      UntouchedExtend(es, bs[..n], bs[n]);
      assert bs[..n] + [bs[n]] == bs;
    }
  }

  /** A fire where each removed enemy was. */
  function Wrecks(killed: seq<Npc>, radius: real): (r: seq<Body>)
    ensures |r| == |killed|
    ensures forall i :: 0 <= i < |killed| ==> r[i] == StaticObject(killed[i].ship.body.pos, radius)
  {
    seq(|killed|, i requires 0 <= i < |killed| => StaticObject(killed[i].ship.body.pos, radius))
  }

  lemma WrecksConcat(xs: seq<Npc>, ys: seq<Npc>, radius: real)
    ensures Wrecks(xs + ys, radius) == Wrecks(xs, radius) + Wrecks(ys, radius)
  {
  }

  function HitPhase(w: World, a: Arena): World
  {
    var (alive, killed) := HitResolve(w.bullets, w.npcShips);
    w.(npcShips := alive, fires := w.fires + Wrecks(killed, a.radii.fire))
  }

  // ------------------------------------------------------- damage to player

  /**
   * The enemy-bullet pass. A bullet touching the player while the player is a
   * live ship is removed and costs one hit point; at zero the player becomes a
   * fire. Returns the player, the bullets kept, and whether the game was lost.
   */
  function Damage(p: Player, bs: seq<Body>, fireRadius: real): (Player, seq<Body>, bool)
    decreases |bs|
  {
    if bs == [] then (p, [], false)
    else
      var n := |bs| - 1;
      var (q, kept, lost) := Damage(p, bs[..n], fireRadius);
      if Collides(PlayerBody(q), bs[n]) && q.Alive? then
        var hurt := ReduceHealth(q.ship);
        if hurt.health == 0 then (Wrecked(StaticObject(hurt.body.pos, fireRadius)), kept, true)
        else (Alive(hurt), kept, lost)
      else (q, kept + [bs[n]], lost)
  }

  /** The enemy-bullet pass only removes bullets, and keeps the player's position. */
  lemma {:induction false} DamageKeeps(p: Player, bs: seq<Body>, fireRadius: real)
    ensures multiset(Damage(p, bs, fireRadius).1) <= multiset(bs)
    ensures PlayerBody(Damage(p, bs, fireRadius).0).pos == PlayerBody(p).pos
    decreases |bs|
  {
    if bs != [] {
      var n := |bs| - 1;
      DamageKeeps(p, bs[..n], fireRadius);
      assert bs == bs[..n] + [bs[n]];
    }
  }

  /** The enemy-bullet pass over one more bullet. */
  lemma DamageNext(p: Player, bs: seq<Body>, i: int, fireRadius: real)
    requires 0 <= i < |bs|
    ensures var (q, kept, lost) := Damage(p, bs[..i], fireRadius);
      Damage(p, bs[..i + 1], fireRadius)
      == if Collides(PlayerBody(q), bs[i]) && q.Alive? then
           var hurt := ReduceHealth(q.ship);
           if hurt.health == 0 then (Wrecked(StaticObject(hurt.body.pos, fireRadius)), kept, true)
           else (Alive(hurt), kept, lost)
         else (q, kept + [bs[i]], lost)
  {
    assert bs[..i + 1][..i] == bs[..i];
  }

  /**
   * Each bullet removed costs exactly one hit point and the game is lost
   * exactly when a live player is turned into a fire, which burns where the
   * ship was. While the player survives, no bullet left touches it.
   */
  lemma {:induction false} DamageEffect(p: Player, bs: seq<Body>, fireRadius: real)
    requires p.Alive? ==> p.ship.health >= 1
    ensures var (q, kept, lost) := Damage(p, bs, fireRadius);
      && (q.Alive? ==> p.Alive? && q.ship.health == p.ship.health - (|bs| - |kept|) && q.ship.health >= 1
                       && q.ship.dir == p.ship.dir && q.ship.body == p.ship.body
                       && (forall b :: b in kept ==> !Collides(PlayerBody(q), b)))
      && (lost <==> p.Alive? && q.Wrecked?)
      && (lost ==> |bs| - |kept| == p.ship.health && q.fire == StaticObject(PlayerBody(p).pos, fireRadius))
    decreases |bs|
  {
    if bs != [] {
      var n := |bs| - 1;
      DamageEffect(p, bs[..n], fireRadius);
      assert bs == bs[..n] + [bs[n]];
    }
  }

  /** Only bullets that touch the player are removed by the enemy-bullet pass. */
  lemma {:induction false} DamageRemovesHitsOnly(p: Player, bs: seq<Body>, fireRadius: real)
    ensures var kept := Damage(p, bs, fireRadius).1;
      forall b :: b in multiset(bs) - multiset(kept) ==> Collides(PlayerBody(p), b)
    decreases |bs|
  {
    if bs != [] {
      var n := |bs| - 1;
      var x := bs[n];
      DamageRemovesHitsOnly(p, bs[..n], fireRadius);
      DamageKeeps(p, bs[..n], fireRadius);
      DamageAliveBody(p, bs[..n], fireRadius);
      assert bs == bs[..n] + [x];
      var (q0, kept0, lost0) := Damage(p, bs[..n], fireRadius);
      var kept := Damage(p, bs, fireRadius).1;
      if Collides(PlayerBody(q0), x) && q0.Alive? {
        assert multiset(bs) - multiset(kept) == (multiset(bs[..n]) - multiset(kept0)) + multiset{x};
      } else {
        assert multiset(bs) - multiset(kept) == multiset(bs[..n]) - multiset(kept0);
      }
    }
  }

  /**
   * When the player survives the pass, exactly the touching bullets are gone
   * and every other bullet is kept as often as it occurred.
   */
  lemma {:induction false} DamageKeepsMisses(p: Player, bs: seq<Body>, fireRadius: real)
    ensures var (q, kept, lost) := Damage(p, bs, fireRadius);
      q.Alive? ==> forall b :: multiset(kept)[b] == if Collides(PlayerBody(p), b) then 0 else multiset(bs)[b]
    decreases |bs|
  {
    if bs != [] {
      var n := |bs| - 1;
      var x := bs[n];
      DamageKeepsMisses(p, bs[..n], fireRadius);
      DamageAliveBody(p, bs[..n], fireRadius);
      assert bs == bs[..n] + [x];
      assert multiset(bs) == multiset(bs[..n]) + multiset{x};
    }
  }

  /** While the player survives the pass its body is untouched; only its health drops. */
  lemma {:induction false} DamageAliveBody(p: Player, bs: seq<Body>, fireRadius: real)
    ensures var q := Damage(p, bs, fireRadius).0;
      q.Alive? ==> p.Alive? && q.ship.body == p.ship.body && q.ship.dir == p.ship.dir
    decreases |bs|
  {
    if bs != [] {
      DamageAliveBody(p, bs[..|bs| - 1], fireRadius);
    }
  }

  /** A player that is already a fire ignores enemy bullets: nothing is removed. */
  lemma {:induction false} DamageWrecked(p: Player, bs: seq<Body>, fireRadius: real)
    requires p.Wrecked?
    ensures Damage(p, bs, fireRadius) == (p, bs, false)
    decreases |bs|
  {
    if bs != [] {
      var n := |bs| - 1;
      DamageWrecked(p, bs[..n], fireRadius);
      assert bs == bs[..n] + [bs[n]];
    }
  }

  function DamagePhase(w: World, a: Arena): World
  {
    var (q, kept, lost) := Damage(w.player, w.npcBullets, a.radii.fire);
    var w' := w.(player := q, npcBullets := kept);
    if lost then w'.(messageFlag := "lost", message := EndMessage("lost")) else w'
  }

  // ------------------------------------------------------------------- outcome

  /** With no enemies left the game is won; the player slot is always truthy. */
  function WinPhase(w: World): World
  {
    if w.npcShips == [] then w.(messageFlag := "won", message := EndMessage("won")) else w
  }

  // ---------------------------------------------------------------------- tick

  /** The phases that run only while no message is shown: movement, contact, spawn pacing. */
  function Active(w: World, aims: seq<Aim>, a: Arena): World
    requires ValidArena(a) && AimsFit(w, aims)
  {
    SpawnPhase(ContactPhase(MovePhase(w, aims, a), a), a)
  }

  /** The phases that always run: pruning, bullet hits, enemy fire, the win check. */
  function Settle(w: World, a: Arena): World
  {
    WinPhase(DamagePhase(HitPhase(PrunePhase(w, a), a), a))
  }

  /**
   * `_process_game_logic`: movement, contact and spawn pacing run only while
   * there is no message; pruning, hits, damage and the win check always run.
   */
  function Tick(w: World, aims: seq<Aim>, a: Arena): World
    requires ValidArena(a)
    requires w.message == "" ==> AimsFit(w, aims)
  {
    Settle(if w.message == "" then Active(w, aims, a) else w, a)
  }

  // ----------------------------------------------------------------- invariant

  /**
   * What holds between ticks: a live player has hit points left; a flag is
   * empty, "lost" or "won" and the message is the one it selects; a lost game
   * has a wrecked player and a won game no enemies; a wrecked player means the
   * game is decided; enemies lie inside the arena; the remaining random
   * positions are valid draws; the spawn counter is not negative.
   */
  predicate Consistent(w: World, a: Arena)
  {
    && (w.player.Alive? ==> w.player.ship.health >= 1)
    && (w.player.Wrecked? ==> w.messageFlag != "")
    && (w.messageFlag == "" || w.messageFlag == "lost" || w.messageFlag == "won")
    && w.message == (if w.messageFlag == "" then "" else EndMessage(w.messageFlag))
    && (w.messageFlag == "lost" ==> w.player.Wrecked?)
    && (w.messageFlag == "won" ==> w.npcShips == [])
    && (forall i :: 0 <= i < |w.npcShips| ==> InTorus(w.npcShips[i].ship.body.pos, a.width, a.height))
    && (forall i :: 0 <= i < |w.samples| ==> IsSample(w.samples[i], a.width, a.height))
    && w.spawnCounter >= 0
  }

  /**
   * The constructor's world: a fresh player at the start position, three
   * fresh enemies each farther than ENEMY_SPAWN_DISTANCE from it, no bullets
   * or fires, counter zero, no message, and the invariant.
   */
  lemma InitialWorldShape(samples: seq<Vec>, a: Arena)
    requires ValidArena(a) && CountFar(samples) >= INITIAL_ENEMIES
    requires forall i :: 0 <= i < |samples| ==> IsSample(samples[i], a.width, a.height)
    ensures var w := InitialWorld(samples, a);
      && w.player == Alive(Ship(Body(PLAYER_START, Zero, a.radii.player), UP, SHIP_HEALTH))
      && |w.npcShips| == INITIAL_ENEMIES
      && (forall i :: 0 <= i < |w.npcShips| ==>
            w.npcShips[i].delay == 0 && w.npcShips[i].ship.health == NPC_HEALTH
            && FarFromStart(w.npcShips[i].ship.body.pos))
      && w.bullets == [] && w.npcBullets == [] && w.fires == []
      && w.spawnCounter == 0 && w.message == ""
      && Consistent(w, a)
  {
    DrawEnemiesFacts(samples, INITIAL_ENEMIES);
    DrawnAreSamples(samples, INITIAL_ENEMIES, a);
  }

  /** Positions drawn from a stream of valid samples, and what is left of it, are valid samples. */
  lemma DrawnAreSamples(samples: seq<Vec>, n: nat, a: Arena)
    requires CountFar(samples) >= n
    requires forall i :: 0 <= i < |samples| ==> IsSample(samples[i], a.width, a.height)
    ensures var (found, rest) := DrawEnemies(samples, n);
      && (forall i :: 0 <= i < |found| ==> IsSample(found[i], a.width, a.height))
      && (forall i :: 0 <= i < |rest| ==> IsSample(rest[i], a.width, a.height))
  {
    DrawEnemiesFacts(samples, n);
    var (found, rest) := DrawEnemies(samples, n);
    forall i | 0 <= i < |found| ensures IsSample(found[i], a.width, a.height) {
      assert found[i] in found;
    }
    forall i | 0 <= i < |rest| ensures IsSample(rest[i], a.width, a.height) {
      assert rest[i] == samples[|samples| - |rest| + i];
    }
  }

  /**
   * Movement keeps every list's length except that enemy shots are appended
   * to the enemy bullets: the old enemy bullets move one step each, every
   * enemy ends inside the arena, and the player keeps its health and heading.
   */
  lemma MovePhaseEffect(w: World, aims: seq<Aim>, a: Arena)
    requires ValidArena(a) && AimsFit(w, aims)
    ensures var r := MovePhase(w, aims, a);
      && |r.npcShips| == |w.npcShips| && |r.bullets| == |w.bullets| && |r.fires| == |w.fires|
      && |w.npcBullets| <= |r.npcBullets| <= |w.npcBullets| + |w.npcShips|
      && (forall i :: 0 <= i < |w.npcBullets| ==> r.npcBullets[i] == MoveBullet(w.npcBullets[i]))
      && r.npcBullets[|w.npcBullets|..] == Volley(w.npcShips, aims, a.radii.bullet)
      && (forall i :: 0 <= i < |w.bullets| ==> r.bullets[i] == MoveBullet(w.bullets[i]))
      && (forall i :: 0 <= i < |w.fires| ==> r.fires[i] == MoveBody(w.fires[i], a.width, a.height))
      && PlayerBody(r.player) == MoveBody(PlayerBody(w.player), a.width, a.height)
      && (forall i :: 0 <= i < |r.npcShips| ==> InTorus(r.npcShips[i].ship.body.pos, a.width, a.height))
      && (forall i :: 0 <= i < |r.fires| ==> InTorus(r.fires[i].pos, a.width, a.height))
      && InTorus(PlayerBody(r.player).pos, a.width, a.height)
      && r.player.Alive? == w.player.Alive?
      && (r.player.Alive? ==> r.player.ship.health == w.player.ship.health && r.player.ship.dir == w.player.ship.dir)
      && r.samples == w.samples && r.spawnCounter == w.spawnCounter
      && r.messageFlag == w.messageFlag && r.message == w.message
  {
    var target := PlayerBody(w.player).pos;
    MoveEnemiesShots(w.npcShips, aims, target, a);
    forall i | 0 <= i < |w.npcShips|
      ensures InTorus(MoveEnemies(w.npcShips, aims, target, a).0[i].ship.body.pos, a.width, a.height)
    {
      MoveEnemiesPointwise(w.npcShips, aims, target, a, i);
    }
  }

  lemma MovePhaseConsistent(w: World, aims: seq<Aim>, a: Arena)
    requires ValidArena(a) && AimsFit(w, aims) && Consistent(w, a)
    ensures Consistent(MovePhase(w, aims, a), a)
  {
    MovePhaseEffect(w, aims, a);
  }

  /** A touching enemy destroys the player and decides the game as lost. */
  lemma ContactPhaseConsistent(w: World, a: Arena)
    requires Consistent(w, a)
    ensures var r := ContactPhase(w, a);
      && Consistent(r, a)
      && (Contact(w.npcShips, PlayerBody(w.player)) ==> r.messageFlag == "lost" && r.player.Wrecked?)
      && (w.player.Alive? ==> (Contact(w.npcShips, PlayerBody(w.player)) <==> r.player.Wrecked?))
      && PlayerBody(r.player).pos == PlayerBody(w.player).pos
  {
    EndMessageInjective("lost", "");
  }

  lemma SpawnPhaseConsistent(w: World, a: Arena)
    requires Consistent(w, a) && w.messageFlag != "won"
    ensures Consistent(SpawnPhase(w, a), a)
  {
    SpawnPhaseEffect(w, a);
    var target := PlayerBody(w.player).pos;
    SpawnRunShape(w.samples, target);
    var (found, rest) := SpawnRun(w.samples, target);
    var r := SpawnPhase(w, a);
    if |w.npcShips| < MAX_ENEMIES && w.spawnCounter + SPAWN_STEP > |w.npcShips| * SPAWN_PACE {
      forall i | 0 <= i < |r.npcShips| ensures InTorus(r.npcShips[i].ship.body.pos, a.width, a.height) {
        if i >= |w.npcShips| {
          var k := i - |w.npcShips|;
          assert r.npcShips[i].ship.body.pos == found[k];
          assert found[k] == w.samples[k];
        }
      }
      forall i | 0 <= i < |rest| ensures IsSample(rest[i], a.width, a.height) {
        assert rest[i] == w.samples[|found| + 1 + i];
      }
    }
  }

  lemma HitPhaseConsistent(w: World, a: Arena)
    requires Consistent(w, a)
    ensures Consistent(HitPhase(w, a), a)
  {
    HitResolvePartition(w.bullets, w.npcShips);
    var r := HitPhase(w, a);
    forall i | 0 <= i < |r.npcShips| ensures InTorus(r.npcShips[i].ship.body.pos, a.width, a.height) {
      assert r.npcShips[i] in w.npcShips;
    }
    if w.messageFlag == "won" {
      assert multiset(r.npcShips) == multiset{};
    }
  }

  /**
   * Enemy fire: the invariant is kept, and the game becomes lost exactly when
   * a live player is turned into a fire.
   */
  lemma DamagePhaseConsistent(w: World, a: Arena)
    requires Consistent(w, a)
    ensures var r := DamagePhase(w, a);
      && Consistent(r, a)
      && (w.player.Alive? && r.player.Wrecked? <==> Damage(w.player, w.npcBullets, a.radii.fire).2)
      && r.npcShips == w.npcShips && r.bullets == w.bullets && r.fires == w.fires
  {
    DamageEffect(w.player, w.npcBullets, a.radii.fire);
    DamageKeeps(w.player, w.npcBullets, a.radii.fire);
    if w.player.Wrecked? {
      DamageWrecked(w.player, w.npcBullets, a.radii.fire);
    }
  }

  lemma WinPhaseConsistent(w: World, a: Arena)
    requires Consistent(w, a)
    ensures Consistent(WinPhase(w), a)
  {
  }

  lemma ActiveConsistent(w: World, aims: seq<Aim>, a: Arena)
    requires ValidArena(a) && Consistent(w, a) && w.message == "" && AimsFit(w, aims)
    ensures Consistent(Active(w, aims, a), a)
  {
    MovePhaseConsistent(w, aims, a);
    var moved := MovePhase(w, aims, a);
    ContactPhaseConsistent(moved, a);
    var contact := ContactPhase(moved, a);
    assert contact.messageFlag != "won";
    SpawnPhaseConsistent(contact, a);
  }

  /**
   * The always-run phases keep the invariant and leave the game over exactly
   * when the player is destroyed or no enemy is left, and won exactly when
   * no enemy is left.
   */
  lemma SettleConsistent(w: World, a: Arena)
    requires Consistent(w, a)
    ensures var r := Settle(w, a);
      && Consistent(r, a)
      && (r.message != "" <==> r.player.Wrecked? || r.npcShips == [])
      && (r.messageFlag == "won" <==> r.npcShips == [])
  {
    var pruned := PrunePhase(w, a);
    HitPhaseConsistent(pruned, a);
    var hit := HitPhase(pruned, a);
    DamagePhaseConsistent(hit, a);
    var damaged := DamagePhase(hit, a);
    WinPhaseConsistent(damaged, a);
    EndMessageInjective(damaged.messageFlag, "");
    EndMessageInjective("won", "");
  }

  /**
   * After any tick the invariant still holds, and the game is over (a message
   * is shown) exactly when the player has been destroyed or no enemy is left;
   * it is marked won exactly when no enemy is left, even if the player was
   * destroyed in the same tick.
   */
  lemma TickConsistent(w: World, aims: seq<Aim>, a: Arena)
    requires ValidArena(a) && Consistent(w, a)
    requires w.message == "" ==> AimsFit(w, aims)
    ensures var r := Tick(w, aims, a);
      && Consistent(r, a)
      && (r.message != "" <==> r.player.Wrecked? || r.npcShips == [])
      && (r.messageFlag == "won" <==> r.npcShips == [])
  {
    if w.message == "" {
      ActiveConsistent(w, aims, a);
      SettleConsistent(Active(w, aims, a), a);
    } else {
      SettleConsistent(w, a);
    }
  }

  /**
   * Once the game is decided the world is frozen apart from the bullet and
   * hit passes: nothing moves, no enemy appears, bullets are only removed,
   * the counter and the random stream are untouched, fires are only added,
   * and the game stays decided.
   */
  lemma TickAfterEnd(w: World, aims: seq<Aim>, a: Arena)
    requires ValidArena(a) && Consistent(w, a) && w.message != ""
    ensures var r := Tick(w, aims, a);
      && r.message != ""
      && multiset(r.bullets) <= multiset(w.bullets) && multiset(r.npcBullets) <= multiset(w.npcBullets)
      && (forall e :: e in r.npcShips ==> e in w.npcShips)
      && r.spawnCounter == w.spawnCounter && r.samples == w.samples
      && |w.fires| <= |r.fires| && r.fires[..|w.fires|] == w.fires
      && PlayerBody(r.player).pos == PlayerBody(w.player).pos
      && (w.player.Wrecked? ==> r.player == w.player)
  {
    var pruned := PrunePhase(w, a);
    HitResolvePartition(pruned.bullets, pruned.npcShips);
    var hit := HitPhase(pruned, a);
    DamageEffect(hit.player, hit.npcBullets, a.radii.fire);
    DamageKeeps(hit.player, hit.npcBullets, a.radii.fire);
    if hit.player.Wrecked? {
      DamageWrecked(hit.player, hit.npcBullets, a.radii.fire);
    }
    assert w.messageFlag != "";
    EndMessageInjective("lost", "");
    EndMessageInjective("won", "");
    SettleShrinksBullets(w, a);
  }

  /** The always-run phases never add a bullet to either list, nor move one. */
  lemma SettleShrinksBullets(w: World, a: Arena)
    ensures multiset(Settle(w, a).bullets) <= multiset(w.bullets)
    ensures multiset(Settle(w, a).npcBullets) <= multiset(w.npcBullets)
  {
    KeepInsideExact(w.bullets, a.width, a.height);
    KeepInsideExact(w.npcBullets, a.width, a.height);
    var hit := HitPhase(PrunePhase(w, a), a);
    DamageKeeps(hit.player, hit.npcBullets, a.radii.fire);
  }

  /** After the always-run phases every bullet of either side lies inside the closed screen rectangle. */
  lemma SettleBulletsInside(w: World, a: Arena)
    ensures var r := Settle(w, a);
      && (forall b :: b in r.bullets ==> InRect(b.pos, a.width, a.height))
      && (forall b :: b in r.npcBullets ==> InRect(b.pos, a.width, a.height))
  {
    var pruned := PrunePhase(w, a);
    KeepInsideExact(w.bullets, a.width, a.height);
    KeepInsideExact(w.npcBullets, a.width, a.height);
    var hit := HitPhase(pruned, a);
    DamageKeeps(hit.player, hit.npcBullets, a.radii.fire);
    forall b | b in DamagePhase(hit, a).npcBullets ensures InRect(b.pos, a.width, a.height) {
      assert b in multiset(hit.npcBullets);
    }
  }

  /** After a tick every bullet of either side lies inside the closed screen rectangle. */
  lemma TickBulletsInside(w: World, aims: seq<Aim>, a: Arena)
    requires ValidArena(a) && (w.message == "" ==> AimsFit(w, aims))
    ensures var r := Tick(w, aims, a);
      && (forall b :: b in r.bullets ==> InRect(b.pos, a.width, a.height))
      && (forall b :: b in r.npcBullets ==> InRect(b.pos, a.width, a.height))
  {
    SettleBulletsInside(if w.message == "" then Active(w, aims, a) else w, a);
  }
}
