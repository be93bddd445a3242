/**
 * The `CaptainForever` game object (captain_forever/game.py): its lists of
 * enemies, bullets and fires, the player slot, the spawn counter and the
 * end-of-game message, updated in place by the phases of one frame. Every
 * method is proved to leave the object in the state the matching function
 * of the `Simulation` module describes.
 */
module Game {
  import opened Geometry
  import opened Models
  import opened Simulation
  import opened Sequences

  class CaptainForever {
    /** Screen size, sprite radii and the player's turn rate; fixed for a game. */
    const arena: Arena
    var player: Player
    var npcShips: seq<Npc>
    var bullets: seq<Body>
    var npcBullets: seq<Body>
    var fires: seq<Body>
    var spawnCounter: int
    var messageFlag: string
    var message: string
    /** The positions `get_random_position` will return next, in order. */
    var samples: seq<Vec>

    /** The whole mutable state as a value. */
    function State(): World
      reads this
    {
      World(player, npcShips, bullets, npcBullets, fires, spawnCounter, messageFlag, message, samples)
    }

    /**
     * A new game: player at the start position, then three enemies, each at
     * the first random position farther than ENEMY_SPAWN_DISTANCE from it.
     */
    constructor (randomPositions: seq<Vec>, a: Arena)
      requires ValidArena(a) && CountFar(randomPositions) >= INITIAL_ENEMIES
      ensures arena == a && State() == InitialWorld(randomPositions, a)
    {
      var ships, rest, found := PlaceEnemies(randomPositions, INITIAL_ENEMIES, a.radii.ship);
      arena := a;
      message := "";
      fires := [];
      npcShips := ships;
      npcBullets := [];
      bullets := [];
      player := Alive(NewShip(PLAYER_START, a.radii.player));
      spawnCounter := 0;
      messageFlag := "";
      samples := rest;
    }

    /**
     * The constructor's `for` loop: INITIAL_ENEMIES enemies, each at the next
     * position far enough from the start. Returns the enemies and the
     * positions not yet drawn.
     */
    static method PlaceEnemies(randomPositions: seq<Vec>, count: nat, radius: real)
      returns (ships: seq<Npc>, rest: seq<Vec>, found: seq<Vec>)
      requires CountFar(randomPositions) >= count
      ensures (found, rest) == DrawEnemies(randomPositions, count)
      ensures ships == NpcsAt(found, radius)
    {
      ships := [];
      rest := randomPositions;
      found := [];
      for n := 0 to count
        invariant DrawEnemies(randomPositions, n) == (found, rest)
        invariant ships == NpcsAt(found, radius)
      {
        ghost var before := rest;
        var position;
        position, rest := DrawFarPosition(rest);
        DrawEnemiesNext(randomPositions, n, found, before, position, rest);
        NpcsAtNext(found, position, radius);
        ships := ships + [NewNpc(position, radius)];
        found := found + [position];
      }
    }

    /**
     * One `while True` loop of the constructor: draw until a position is far
     * enough; returns it and the positions not yet drawn.
     */
    static method DrawFarPosition(randomPositions: seq<Vec>) returns (position: Vec, rest: seq<Vec>)
      requires CountFar(randomPositions) >= 1
      ensures (position, rest) == DrawFar(randomPositions)
    {
      rest := randomPositions;
      while true
        invariant CountFar(rest) >= 1 && DrawFar(rest) == DrawFar(randomPositions)
        decreases |rest|
      {
        position := rest[0];
        rest := rest[1..];
        if FarFromStart(position) {
          break;
        }
      }
    }

    /** `is_running`: the player slot still holds a ship. */
    function IsRunning(): (r: bool)
      reads this
      ensures Consistent(State(), arena) ==> (r ==> messageFlag != "lost") && (!r ==> message != "")
    {
      EndMessageInjective(messageFlag, "");
      player.Alive?
    }

    /** `get_game_objects`: enemies, player bullets, enemy bullets, fires, then the player. */
    function GameObjects(): (r: seq<Body>)
      reads this
      ensures |r| == |npcShips| + |bullets| + |npcBullets| + |fires| + 1
      ensures forall i :: 0 <= i < |npcShips| ==> r[i] == npcShips[i].ship.body
      ensures r[|npcShips|..|npcShips| + |bullets|] == bullets
      ensures r[|npcShips| + |bullets|..|npcShips| + |bullets| + |npcBullets|] == npcBullets
      ensures r[|r| - 1 - |fires|..|r| - 1] == fires
      ensures r[|r| - 1] == PlayerBody(player)
    {
      var ships := seq(|npcShips|, i requires 0 <= i < |npcShips| reads this => npcShips[i].ship.body);
      ships + bullets + npcBullets + fires + [PlayerBody(player)]
    }

    /** `_end_game_message`: the message for the current flag. */
    method EndGameMessage()
      modifies this
      ensures message == EndMessage(messageFlag)
      ensures State() == old(State()).(message := EndMessage(old(messageFlag)))
    {
      message := EndMessage(messageFlag);
    }

    /** The player ship's fire callback: its bullet joins the player bullets. */
    method PlayerShoot()
      requires player.Alive?
      modifies this
      ensures State() == old(State()).(bullets := old(bullets) + [Shoot(old(player).ship, arena.radii.bullet)])
    {
      bullets := bullets + [Shoot(player.ship, arena.radii.bullet)];
    }

    /** `_process_game_logic`: one frame of the game. */
    method ProcessGameLogic(aims: seq<Aim>)
      requires ValidArena(arena)
      requires message == "" ==> AimsFit(State(), aims)
      modifies this
      ensures State() == Tick(old(State()), aims, arena)
    {
      if message == "" {
        MoveEntities(aims);
        CheckContact();
        PaceSpawning();
      }
      PruneBullets();
      ResolveBulletHits();
      ResolveEnemyFire();
      CheckVictory();
    }

    /**
     * The movement loop over `get_game_objects()`, one list at a time in its
     * order: the enemies toward the player's current position, the player
     * bullets, the enemy bullets that were there before the loop, the fires,
     * and last the player.
     */
    method MoveEntities(aims: seq<Aim>)
      requires ValidArena(arena) && AimsFit(State(), aims)
      modifies this
      ensures State() == MovePhase(old(State()), aims, arena)
    {
      var before := |npcBullets|;
      MoveEnemyShips(aims);
      MovePlayerBullets();
      MoveEnemyBullets(before);
      MoveFires();
      player := MovePlayer(player, arena.width, arena.height);
    }

    /** Each enemy moves and may fire; its bullets join the enemy bullet list. */
    method MoveEnemyShips(aims: seq<Aim>)
      requires ValidArena(arena) && AimsFit(State(), aims)
      modifies this
      ensures State() == old(State()).(npcShips := npcShips, npcBullets := npcBullets)
      ensures var (moved, shots) := MoveEnemies(old(npcShips), aims, old(PlayerBody(player).pos), arena);
        npcShips == moved && npcBullets == old(npcBullets) + shots
    {
      var moved, shots := MoveEach(npcShips, aims, PlayerBody(player).pos, arena);
      npcShips := moved;
      npcBullets := npcBullets + shots;
    }

    /**
     * The enemy part of the movement loop: each enemy in turn moves toward
     * the target and may fire; returns the moved enemies and the bullets
     * fired, in order.
     */
    static method MoveEach(es: seq<Npc>, aims: seq<Aim>, target: Vec, a: Arena)
      returns (moved: seq<Npc>, shots: seq<Body>)
      requires ValidArena(a) && |aims| == |es|
      requires forall i :: 0 <= i < |es| ==> AimFits(es[i], target, aims[i])
      ensures (moved, shots) == MoveEnemies(es, aims, target, a)
    {
      moved := es;
      shots := [];
      for i := 0 to |es|
        invariant |moved| == |es| && moved[i..] == es[i..]
        invariant moved[..i] == MoveEnemies(es[..i], aims[..i], target, a).0
        invariant shots == MoveEnemies(es[..i], aims[..i], target, a).1
      {
        MoveEnemiesNext(es, aims, target, a, i);
        var (e, shot) := NpcMove(moved[i], target, aims[i], a.turn, a.width, a.height, a.radii.bullet);
        moved := moved[i := e];
        if shot.Some? {
          shots := shots + [shot.value];
        }
        assert moved[..i + 1] == moved[..i] + [e];
      }
      PrefixAll(es);
      PrefixAll(aims);
      PrefixAll(moved);
    }

    method MovePlayerBullets()
      modifies this
      ensures bullets == MoveBullets(old(bullets))
      ensures State() == old(State()).(bullets := bullets)
    {
      for i := 0 to |bullets|
        invariant |bullets| == |old(bullets)| && bullets[i..] == old(bullets)[i..]
        invariant forall j :: 0 <= j < i ==> bullets[j] == MoveBullet(old(bullets)[j])
        invariant State() == old(State()).(bullets := bullets)
      {
        bullets := bullets[i := MoveBullet(bullets[i])];
      }
    }

    /** Moves the first `count` enemy bullets: those fired during this loop stay put. */
    method MoveEnemyBullets(count: nat)
      requires count <= |npcBullets|
      modifies this
      ensures npcBullets == MoveBullets(old(npcBullets)[..count]) + old(npcBullets)[count..]
      ensures State() == old(State()).(npcBullets := npcBullets)
    {
      for i := 0 to count
        invariant |npcBullets| == |old(npcBullets)| && npcBullets[i..] == old(npcBullets)[i..]
        invariant forall j :: 0 <= j < i ==> npcBullets[j] == MoveBullet(old(npcBullets)[j])
        invariant State() == old(State()).(npcBullets := npcBullets)
      {
        npcBullets := npcBullets[i := MoveBullet(npcBullets[i])];
      }
    }

    method MoveFires()
      requires ValidArena(arena)
      modifies this
      ensures fires == MoveBodies(old(fires), arena.width, arena.height)
      ensures State() == old(State()).(fires := fires)
    {
      for i := 0 to |fires|
        invariant |fires| == |old(fires)| && fires[i..] == old(fires)[i..]
        invariant forall j :: 0 <= j < i ==> fires[j] == MoveBody(old(fires)[j], arena.width, arena.height)
        invariant State() == old(State()).(fires := fires)
      {
        fires := fires[i := MoveBody(fires[i], arena.width, arena.height)];
      }
    }

    /** The enemy-player check: the first enemy touching the player ends the game. */
    method CheckContact()
      modifies this
      ensures State() == ContactPhase(old(State()), arena)
    {
      for i := 0 to |npcShips|
        invariant State() == old(State())
        invariant forall j :: 0 <= j < i ==> !Collides(npcShips[j].ship.body, PlayerBody(player))
      {
        if Collides(npcShips[i].ship.body, PlayerBody(player)) {
          player := Wrecked(StaticObject(PlayerBody(player).pos, arena.radii.fire));
          messageFlag := "lost";
          EndGameMessage();
          return;
        }
      }
    }

    /** Spawn pacing, scaled by the number of enemies left. */
    method PaceSpawning()
      modifies this
      ensures State() == SpawnPhase(old(State()), arena)
    {
      if |npcShips| < MAX_ENEMIES {
        spawnCounter := spawnCounter + SPAWN_STEP;
        if spawnCounter > |npcShips| * SPAWN_PACE {
          spawnCounter := 0;
          SpawnEnemy();
        }
      }
    }

    /**
     * `_spawn_enemy`: draw positions, adding an enemy at each one at least
     * ENEMY_SPAWN_DISTANCE from the player, until one is nearer.
     */
    method SpawnEnemy()
      modifies this
      ensures State() == Simulation.SpawnEnemy(old(State()), arena)
    {
      var target := PlayerBody(player).pos;
      ghost var accepted: seq<Vec> := [];
      while samples != []
        invariant SpawnRun(old(samples), target).0 == accepted + SpawnRun(samples, target).0
        invariant SpawnRun(old(samples), target).1 == SpawnRun(samples, target).1
        invariant npcShips == old(npcShips) + NpcsAt(accepted, arena.radii.ship)
        invariant State() == old(State()).(npcShips := npcShips, samples := samples)
        decreases |samples|
      {
        var position := samples[0];
        samples := samples[1..];
        if TooClose(position, target) {
          break;
        }
        npcShips := npcShips + [NewNpc(position, arena.radii.ship)];
        accepted := accepted + [position];
      }
    }

    /** Remove the bullets of either side that have left the screen. */
    method PruneBullets()
      modifies this
      ensures State() == PrunePhase(old(State()), arena)
    {
      bullets := PruneOutside(bullets, arena.width, arena.height);
      npcBullets := PruneOutside(npcBullets, arena.width, arena.height);
    }

    /**
     * One pruning loop on values: it walks a copy of the list and removes each
     * bullet outside the closed screen rectangle from the live list.
     */
    static method PruneOutside(shots: seq<Body>, width: int, height: int) returns (live: seq<Body>)
      ensures live == KeepInside(shots, width, height)
    {
      live := shots;
      var kept: seq<Body> := [];
      for i := 0 to |shots|
        invariant kept == KeepInside(shots[..i], width, height)
        invariant live == kept + shots[i..]
      {
        KeepInsideNext(shots, i, width, height);
        if !InRect(shots[i].pos, width, height) {
          DropNext(live, kept, shots, i);
          live := live[..|kept|] + live[|kept| + 1..];
        } else {
          KeepNext(kept, shots, i);
          kept := kept + [shots[i]];
        }
      }
      assert live == kept;
      PrefixAll(shots);
    }

    /**
     * For each player bullet, every enemy still alive that it touches is
     * removed and replaced by a fire at its position.
     */
    method ResolveBulletHits()
      modifies this
      ensures State() == HitPhase(old(State()), arena)
    {
      var alive, wrecks := HitEach(bullets, npcShips, arena.radii.fire);
      npcShips := alive;
      fires := fires + wrecks;
    }

    /** The outer loop of the hit pass on values, over a copy of the player bullets. */
    static method HitEach(shots: seq<Body>, es: seq<Npc>, fireRadius: real)
      returns (alive: seq<Npc>, wrecks: seq<Body>)
      ensures alive == HitResolve(shots, es).0
      ensures wrecks == Wrecks(HitResolve(shots, es).1, fireRadius)
    {
      alive, wrecks := es, [];
      ghost var killed: seq<Npc> := [];
      for i := 0 to |shots|
        invariant (alive, killed) == HitResolve(shots[..i], es)
        invariant wrecks == Wrecks(killed, fireRadius)
      {
        HitResolveNext(shots, i, es);
        var spared, burning := RemoveHitBy(alive, shots[i], fireRadius);
        WrecksConcat(killed, Struck(alive, shots[i]), fireRadius);
        killed := killed + Struck(alive, shots[i]);
        alive, wrecks := spared, wrecks + burning;
      }
      PrefixAll(shots);
    }

    /**
     * The inner loop, over a copy of the live enemies, for one bullet: each
     * enemy it touches leaves the live list and a fire marks its position.
     */
    static method RemoveHitBy(alive: seq<Npc>, b: Body, fireRadius: real)
      returns (live: seq<Npc>, wrecks: seq<Body>)
      ensures live == Spared(alive, b)
      ensures wrecks == Wrecks(Struck(alive, b), fireRadius)
    {
      live, wrecks := alive, [];
      var spared: seq<Npc> := [];
      for k := 0 to |alive|
        invariant spared == Spared(alive[..k], b)
        invariant live == spared + alive[k..]
        invariant wrecks == Wrecks(Struck(alive[..k], b), fireRadius)
      {
        SplitNext(alive, k, b);
        if Collides(alive[k].ship.body, b) {
          var position := alive[k].ship.body.pos;
          DropNext(live, spared, alive, k);
          live := live[..|spared|] + live[|spared| + 1..];
          WrecksConcat(Struck(alive[..k], b), [alive[k]], fireRadius);
          wrecks := wrecks + [StaticObject(position, fireRadius)];
        } else {
          KeepNext(spared, alive, k);
          spared := spared + [alive[k]];
        }
      }
      assert live == spared;
      PrefixAll(alive);
    }

    /**
     * Enemy bullets that touch the player while it is still a ship are
     * removed and cost a hit point; at zero the player becomes a fire and the
     * game is lost.
     */
    method ResolveEnemyFire()
      modifies this
      ensures State() == DamagePhase(old(State()), arena)
    {
      var hurt, kept, lost := DamageEach(player, npcBullets, arena.radii.fire);
      player := hurt;
      npcBullets := kept;
      if lost {
        messageFlag := "lost";
        EndGameMessage();
      }
    }

    /**
     * The enemy-bullet loop on values: each bullet touching a player that is
     * still running is removed from the live list and costs one hit point; the
     * ship becomes a fire when its health reaches zero.
     */
    static method DamageEach(p: Player, shots: seq<Body>, fireRadius: real)
      returns (q: Player, live: seq<Body>, lost: bool)
      ensures (q, live, lost) == Damage(p, shots, fireRadius)
    {
      q, live, lost := p, shots, false;
      var kept: seq<Body> := [];
      for i := 0 to |shots|
        invariant Damage(p, shots[..i], fireRadius) == (q, kept, lost)
        invariant live == kept + shots[i..]
      {
        DamageNext(p, shots, i, fireRadius);
        var b := shots[i];
        if Collides(PlayerBody(q), b) && q.Alive? {
          DropNext(live, kept, shots, i);
          live := live[..|kept|] + live[|kept| + 1..];
          var hurt := ReduceHealth(q.ship);
          q := Alive(hurt);
          if hurt.health == 0 {
            q := Wrecked(StaticObject(hurt.body.pos, fireRadius));
            lost := true;
          }
        } else {
          KeepNext(kept, shots, i);
          kept := kept + [b];
        }
      }
      assert live == kept;
      PrefixAll(shots);
    }

    /** With no enemy left the game is won, whatever happened earlier in the frame. */
    method CheckVictory()
      modifies this
      ensures State() == WinPhase(old(State()))
    {
      if npcShips == [] {
        messageFlag := "won";
        EndGameMessage();
      }
    }
  }
}
