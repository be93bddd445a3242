/**
 * Entity rules of captain_forever/models.py: the moving game object, ships,
 * enemy ships with their steering and fire control, and bullets.
 *
 * Each Python method that updates an object's fields is a function from the
 * old record to the new one (plus the bullet it hands to its callback, if
 * any). Sprites are not modelled: the bounding radius is a field set when the
 * object is made. Trigonometry is not modelled either: rotation uses a
 * supplied cosine and sine of Ship.MANEUVERABILITY (3 degrees), and the enemy's
 * heading error and distance to the player are supplied as an `Aim`.
 */
module Models {
  import opened Wrappers
  import opened Geometry

  /** Ship.ACCELERATION */
  const ACCELERATION := 0.2
  /** Ship.BULLET_SPEED */
  const BULLET_SPEED := 9.0
  /** Hit points a Ship starts with. */
  const SHIP_HEALTH := 3
  /** Hit points an NPCShip starts with. */
  const NPC_HEALTH := 2
  /** NPCShip.BULLET_DELAY: an enemy fires once its delay exceeds 1000 times this. */
  const BULLET_DELAY := 1
  /** Added to an enemy's delay on every fire attempt. */
  const DELAY_STEP := 9
  /** Heading errors within this many degrees count as aimed. */
  const AIM_TOLERANCE := 3.0
  /** Farther than this, an aimed enemy closes in. */
  const APPROACH_DISTANCE := 300.0
  /** Nearer than this, an aimed enemy backs off. */
  const RETREAT_DISTANCE := 150.0
  /** Speed of an enemy that closes in or backs off. */
  const NPC_SPEED := 2.0

  /** Screen "up" (the y axis points down): every ship's initial heading. */
  const UP := Vec(0.0, -1.0)

  /** GameObject: position, velocity and bounding-circle radius. */
  datatype Body = Body(pos: Vec, vel: Vec, radius: real)

  /** Ship: a body with a heading (a unit vector) and hit points. */
  datatype Ship = Ship(body: Body, dir: Vec, health: int)

  /** NPCShip: a ship with its fire-control delay. */
  datatype Npc = Npc(ship: Ship, delay: int)

  /**
   * Cosine and sine of Ship.MANEUVERABILITY, 3 degrees, the one angle a ship
   * turns by. The trigonometric values are supplied, not computed.
   */
  datatype Turn = Turn(cos: real, sin: real)

  predicate IsRotation(t: Turn)
  {
    t.cos * t.cos + t.sin * t.sin == 1.0
  }

  /**
   * What an enemy measures this tick: the signed angle in degrees from its
   * heading to the player (pygame's `angle_to`) and the distance to the player.
   */
  datatype Aim = Aim(error: real, distance: real)

  /** StaticObject: a body that never has a velocity (a fire). */
  function StaticObject(pos: Vec, radius: real): Body
  {
    Body(pos, Zero, radius)
  }

  /** A fresh Ship: at rest, facing up, full health. */
  function NewShip(pos: Vec, radius: real): Ship
  {
    Ship(Body(pos, Zero, radius), UP, SHIP_HEALTH)
  }

  /** A fresh NPCShip: a ship with two hit points and an empty delay. */
  function NewNpc(pos: Vec, radius: real): Npc
  {
    Npc(Ship(Body(pos, Zero, radius), UP, NPC_HEALTH), 0)
  }

  // ---------------------------------------------------------------- collision

  /**
   * `collides_with`: the centre distance is strictly below the sum of the
   * radii. Written on squares; `CollidesIffDistance` shows it is the same test.
   */
  predicate Collides(a: Body, b: Body)
  {
    var reach := a.radius + b.radius;
    reach > 0.0 && SqDist(a.pos, b.pos) < reach * reach
  }

  /** For whatever the centre distance d is, the squared test agrees with `d < r1 + r2`. */
  lemma CollidesIffDistance(a: Body, b: Body, d: real)
    requires d >= 0.0 && d * d == SqDist(a.pos, b.pos)
    ensures Collides(a, b) <==> d < a.radius + b.radius
  {
    if a.radius + b.radius > 0.0 {
      SquareMonotone(d, a.radius + b.radius);
    }
  }

  /** The test does not depend on which object asks. */
  lemma CollidesSymmetric(a: Body, b: Body)
    ensures Collides(a, b) <==> Collides(b, a)
  {
    var d := Sub(b.pos, a.pos);
    assert SqDist(b.pos, a.pos) == (-d.x) * (-d.x) + (-d.y) * (-d.y);
  }

  /** Objects on the same spot collide; objects exactly touching do not. */
  lemma CollisionBoundary(a: Body, b: Body)
    requires a.radius > 0.0 && b.radius > 0.0
    ensures a.pos == b.pos ==> Collides(a, b)
    ensures b.pos == Add(a.pos, Vec(a.radius + b.radius, 0.0)) ==> !Collides(a, b)
  {
  }

  // ----------------------------------------------------------------- movement

  /** `GameObject.move`: step by the velocity, then wrap onto the arena. */
  function MoveBody(b: Body, width: int, height: int): (r: Body)
    requires width > 0 && height > 0
    ensures InTorus(r.pos, width, height)
    ensures r.vel == b.vel && r.radius == b.radius
  {
    b.(pos := Wrap(Add(b.pos, b.vel), width, height))
  }

  /** `Bullet.move`: step by the velocity with no wrapping. */
  function MoveBullet(b: Body): Body
  {
    b.(pos := Add(b.pos, b.vel))
  }

  /**
   * A bullet moves as any other object exactly when its step stays inside the
   * arena; otherwise it leaves the arena instead of reappearing on the far side.
   */
  lemma BulletMoveUnwrapped(b: Body, width: int, height: int)
    requires width > 0 && height > 0
    ensures MoveBullet(b) == MoveBody(b, width, height) <==> InTorus(MoveBullet(b).pos, width, height)
    ensures MoveBullet(b).vel == b.vel
  {
    WrapFixesArena(Add(b.pos, b.vel), width, height);
  }

  // ----------------------------------------------------------- ship controls

  /** pygame's `rotate_ip` by +/- 3 degrees (clockwise on screen for +). */
  function RotateVec(v: Vec, t: Turn, clockwise: bool): Vec
  {
    var s := if clockwise then t.sin else -t.sin;
    Vec(v.x * t.cos - v.y * s, v.x * s + v.y * t.cos)
  }

  /** `Ship.rotate`: only the heading turns. */
  function Rotate(s: Ship, t: Turn, clockwise: bool): Ship
  {
    s.(dir := RotateVec(s.dir, t, clockwise))
  }

  /** Turning keeps the heading's length, and turning back undoes a turn. */
  lemma RotateIsRigid(v: Vec, t: Turn, clockwise: bool)
    requires IsRotation(t)
    ensures SqLen(RotateVec(v, t, clockwise)) == SqLen(v)
    ensures RotateVec(RotateVec(v, t, clockwise), t, !clockwise) == v
  {
    var s := if clockwise then t.sin else -t.sin;
    var c := t.cos;
    var w := RotateVec(v, t, clockwise);
    assert SqLen(w) == (v.x * v.x + v.y * v.y) * (c * c + s * s);
    assert s * s == t.sin * t.sin;
    var u := RotateVec(w, t, !clockwise);
    assert u.x == v.x * (c * c + s * s);
    assert u.y == v.y * (c * c + s * s);
  }

  /** `Ship.accelerate`: velocity += factor * (heading * ACCELERATION). */
  function Accelerate(s: Ship, factor: real): Ship
  {
    s.(body := s.body.(vel := Add(s.body.vel, Scale(Scale(s.dir, ACCELERATION), factor))))
  }

  /** `Ship.deccelerate`: velocity -= factor * (heading * ACCELERATION); it may reverse the ship. */
  function Decelerate(s: Ship, factor: real): Ship
  {
    s.(body := s.body.(vel := Sub(s.body.vel, Scale(Scale(s.dir, ACCELERATION), factor))))
  }

  /** The two thrusts with the same factor cancel, in either order, and touch nothing but velocity. */
  lemma ThrustCancels(s: Ship, factor: real)
    ensures Decelerate(Accelerate(s, factor), factor) == s
    ensures Accelerate(Decelerate(s, factor), factor) == s
    ensures Accelerate(s, factor).body.pos == s.body.pos && Accelerate(s, factor).dir == s.dir
  {
  }

  /** From rest with a unit heading, either thrust gives speed ACCELERATION * |factor|. */
  lemma ThrustFromRest(s: Ship, factor: real)
    requires s.body.vel == Zero && SqLen(s.dir) == 1.0
    ensures SqLen(Accelerate(s, factor).body.vel) == (ACCELERATION * factor) * (ACCELERATION * factor)
    ensures SqLen(Decelerate(s, factor).body.vel) == (ACCELERATION * factor) * (ACCELERATION * factor)
  {
    var k := ACCELERATION * factor;
    var a := Accelerate(s, factor).body.vel;
    assert a == Vec(s.dir.x * k, s.dir.y * k);
    assert SqLen(a) == k * k * SqLen(s.dir);
    var d := Decelerate(s, factor).body.vel;
    assert d == Vec(-(s.dir.x * k), -(s.dir.y * k));
    assert SqLen(d) == k * k * SqLen(s.dir);
  }

  /** The bullet a ship fires: at the ship, moving heading * BULLET_SPEED plus the ship's velocity. */
  function Shoot(s: Ship, bulletRadius: real): Body
  {
    Body(s.body.pos, Add(Scale(s.dir, BULLET_SPEED), s.body.vel), bulletRadius)
  }

  /** Relative to the ship, a bullet leaves along the heading at BULLET_SPEED. */
  lemma ShotLeavesAlongHeading(s: Ship, bulletRadius: real)
    requires SqLen(s.dir) == 1.0
    ensures Shoot(s, bulletRadius).pos == s.body.pos
    ensures Sub(Shoot(s, bulletRadius).vel, s.body.vel) == Scale(s.dir, BULLET_SPEED)
    ensures SqLen(Sub(Shoot(s, bulletRadius).vel, s.body.vel)) == BULLET_SPEED * BULLET_SPEED
  {
    var v := Sub(Shoot(s, bulletRadius).vel, s.body.vel);
    assert v == Scale(s.dir, BULLET_SPEED);
    assert SqLen(v) == BULLET_SPEED * BULLET_SPEED * SqLen(s.dir);
  }

  /** `reduce_health`: one hit point less, with no floor at zero. */
  function ReduceHealth(s: Ship): Ship
  {
    s.(health := s.health - 1)
  }

  // ------------------------------------------------------------ enemy ships

  /**
   * `NPCShip.shoot`: the delay grows by DELAY_STEP; once it passes
   * 1000 * BULLET_DELAY it resets and one bullet is handed to the callback.
   */
  function NpcShoot(e: Npc, bulletRadius: real): (Npc, Option<Body>)
  {
    var delay := e.delay + DELAY_STEP;
    if delay > 1000 * BULLET_DELAY then (e.(delay := 0), Some(Shoot(e.ship, bulletRadius)))
    else (e.(delay := delay), None)
  }

  /** `n` consecutive fire attempts. */
  function ShootRepeatedly(e: Npc, n: nat, bulletRadius: real): Npc
  {
    if n == 0 then e else NpcShoot(ShootRepeatedly(e, n - 1, bulletRadius), bulletRadius).0
  }

  /**
   * From an empty delay, the delay after n attempts is 9 * (n mod 112), a
   * multiple of 9 no larger than 999, and exactly every 112th attempt fires.
   */
  lemma {:induction false} FireCycle(e: Npc, n: nat, bulletRadius: real)
    requires e.delay == 0
    ensures ShootRepeatedly(e, n, bulletRadius).delay == DELAY_STEP * (n % 112)
    ensures 0 <= ShootRepeatedly(e, n, bulletRadius).delay <= 999
    ensures NpcShoot(ShootRepeatedly(e, n, bulletRadius), bulletRadius).1.Some? <==> (n + 1) % 112 == 0
  {
    if n > 0 {
      FireCycle(e, n - 1, bulletRadius);
      FireStep(ShootRepeatedly(e, n - 1, bulletRadius), (n - 1) % 112, bulletRadius);
      ModSuccessor(n - 1);
    }
    FireStep(ShootRepeatedly(e, n, bulletRadius), n % 112, bulletRadius);
    ModSuccessor(n);
  }

  /** One attempt from delay 9k: the delay becomes 9((k+1) mod 112) and only k = 111 fires. */
  lemma FireStep(e: Npc, k: nat, bulletRadius: real)
    requires k < 112 && e.delay == DELAY_STEP * k
    ensures NpcShoot(e, bulletRadius).0.delay == DELAY_STEP * ((k + 1) % 112)
    ensures NpcShoot(e, bulletRadius).1.Some? <==> k == 111
  {
  }

  lemma ModSuccessor(n: nat)
    ensures (n + 1) % 112 == ((n % 112) + 1) % 112
  {
  }

  /** Whether the heading error is within AIM_TOLERANCE. */
  predicate Aimed(aim: Aim)
  {
    -AIM_TOLERANCE <= aim.error <= AIM_TOLERANCE
  }

  /**
   * The measured distance is the distance to the player, and an aimed enemy is
   * not sitting on the player (there `normalize` of the zero vector raises).
   */
  predicate AimFits(e: Npc, target: Vec, aim: Aim)
  {
    && aim.distance >= 0.0
    && aim.distance * aim.distance == SqDist(e.ship.body.pos, target)
    && (Aimed(aim) ==> aim.distance != 0.0)
  }

  /** The velocity an aimed enemy picks from its distance band. */
  function Steer(toPlayer: Vec, distance: real): Vec
    requires distance != 0.0
  {
    if distance > APPROACH_DISTANCE then Scale(Scale(toPlayer, 1.0 / distance), NPC_SPEED)
    else if distance < RETREAT_DISTANCE then Scale(Scale(toPlayer, 1.0 / distance), -NPC_SPEED)
    else Zero
  }

  /**
   * `NPCShip.move`: an enemy not yet aimed turns toward the player (keeping its
   * velocity); an aimed one stops, attempts to fire, and picks a velocity by
   * distance band. Either way it then steps and wraps. Returns the enemy and
   * the bullet it fired, if any.
   */
  function NpcMove(e: Npc, target: Vec, aim: Aim, t: Turn, width: int, height: int, bulletRadius: real)
    : (Npc, Option<Body>)
    requires width > 0 && height > 0
    requires AimFits(e, target, aim)
  {
    var s := e.ship;
    if aim.error > AIM_TOLERANCE || aim.error < -AIM_TOLERANCE then
      var turned := Rotate(s, t, aim.error > 0.0);
      (e.(ship := turned.(body := MoveBody(turned.body, width, height))), None)
    else
      var halted := e.(ship := s.(body := s.body.(vel := Zero)));
      var (fired, shot) := NpcShoot(halted, bulletRadius);
      var steered := fired.ship.body.(vel := Steer(Sub(target, s.body.pos), aim.distance));
      (fired.(ship := fired.ship.(body := MoveBody(steered, width, height))), shot)
  }

  /** Turning enemies keep their velocity and do not fire; they never leave the arena. */
  lemma NpcMoveTurning(e: Npc, target: Vec, aim: Aim, t: Turn, width: int, height: int, bulletRadius: real)
    requires width > 0 && height > 0 && AimFits(e, target, aim)
    requires !Aimed(aim)
    ensures var (m, shot) := NpcMove(e, target, aim, t, width, height, bulletRadius);
      && shot == None
      && m.ship.body.vel == e.ship.body.vel
      && m.ship.dir == RotateVec(e.ship.dir, t, aim.error > 0.0)
      && m.ship.body.pos == Wrap(Add(e.ship.body.pos, e.ship.body.vel), width, height)
      && m.delay == e.delay && m.ship.health == e.ship.health
  {
  }

  /**
   * Aimed enemies keep their heading, fire exactly when the delay passes 1000
   * (the bullet leaving at BULLET_SPEED along the heading, since the enemy was
   * just stopped), and move at speed NPC_SPEED toward a far player, away from
   * a near one, and not at all in between.
   */
  lemma NpcMoveAimed(e: Npc, target: Vec, aim: Aim, t: Turn, width: int, height: int, bulletRadius: real)
    requires width > 0 && height > 0 && AimFits(e, target, aim)
    requires Aimed(aim)
    ensures var (m, shot) := NpcMove(e, target, aim, t, width, height, bulletRadius);
      var toPlayer := Sub(target, e.ship.body.pos);
      && m.ship.dir == e.ship.dir
      && (shot.Some? <==> e.delay + DELAY_STEP > 1000)
      && (shot.Some? ==> shot.value == Body(e.ship.body.pos, Scale(e.ship.dir, BULLET_SPEED), bulletRadius))
      && m.delay == (if shot.Some? then 0 else e.delay + DELAY_STEP)
      && (aim.distance > APPROACH_DISTANCE ==>
            m.ship.body.vel == Scale(toPlayer, NPC_SPEED / aim.distance)
            && SqLen(m.ship.body.vel) == NPC_SPEED * NPC_SPEED)
      && (aim.distance < RETREAT_DISTANCE ==>
            m.ship.body.vel == Scale(toPlayer, -NPC_SPEED / aim.distance)
            && SqLen(m.ship.body.vel) == NPC_SPEED * NPC_SPEED)
      && (RETREAT_DISTANCE <= aim.distance <= APPROACH_DISTANCE ==> m.ship.body.vel == Zero)
      && m.ship.body.pos == Wrap(Add(e.ship.body.pos, m.ship.body.vel), width, height)
  {
    var toPlayer := Sub(target, e.ship.body.pos);
    var d := aim.distance;
    if d > APPROACH_DISTANCE || d < RETREAT_DISTANCE {
      var k := if d > APPROACH_DISTANCE then NPC_SPEED else -NPC_SPEED;
      var v := Steer(toPlayer, d);
      assert v == Scale(toPlayer, k / d);
      ScaledUnitLength(toPlayer, d, k);
    }
  }

  /** Scaling a vector of length d by k / d gives length |k|. */
  lemma ScaledUnitLength(v: Vec, d: real, k: real)
    requires d != 0.0 && d * d == SqLen(v)
    ensures SqLen(Scale(v, k / d)) == k * k
  {
    var q := k / d;
    assert SqLen(Scale(v, q)) == q * q * SqLen(v);
    assert q * d == k;
    assert q * q * (d * d) == (q * d) * (q * d);
  }
}
