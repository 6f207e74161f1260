/** Phases 2 and 3 of a tick: every live ship accelerates, moves, slows down,
    wraps and may fire into its own bullet slot; then every live bullet moves,
    wraps and expires. */
module Motion {
  import opened Config
  import opened Entities
  import opened Arith
  import opened Torus

  /** A speed after one tick of thrust: gas g along a heading component t. */
  function Accelerate(v: real, g: real, t: real): real {
    v + g * SHIP_ACCEL * t / FPS
  }

  /** A coordinate after one tick at speed v. */
  function Displace(c: real, v: real): real {
    c + v / FPS
  }

  /** One ship's integration step: acceleration from gas and steer, movement
      with the new velocity, drag, and the wrap of x and y. */
  function ShipMotion(s: Ship, h: Heading, p: Physics): (r: Ship)
    ensures r.isAlive == s.isAlive
    ensures r.steer == s.steer && r.gas == s.gas && r.shoot == s.shoot
  {
    // acceleration
    var xv := Accelerate(s.xv, s.gas, -h.sin);
    var yv := Accelerate(s.yv, s.gas, h.cos);
    var av := s.av + s.steer * SHIP_TACCEL * 2.0 * PI / FPS;
    // velocity, drag, then wrap
    s.(x := Wrap(Displace(s.x, xv), p.width), y := Wrap(Displace(s.y, yv), p.height),
       a := s.a + av / FPS,
       xv := xv * p.linearDrag, yv := yv * p.linearDrag, av := av * p.angularDrag)
  }

  /** A ship slot after phase 2: dead ships are skipped. */
  function AdvanceShip(s: Ship, h: Heading, p: Physics): Ship {
    if s.isAlive then ShipMotion(s, h, p) else s
  }

  /** Bullet slot i after phase 2, given ship i after its move: a live ship
      holding shoot fires only into a dead bullet slot. */
  function ShipFire(s: Ship, b: Bullet, now: u32): (r: Bullet)
    ensures b.isAlive || !s.isAlive || s.shoot == 0 ==> r == b
    ensures r != b <==> s.isAlive && s.shoot != 0 && !b.isAlive
    ensures r != b ==> r.isAlive && r.when == now && r.x == s.x && r.y == s.y && r.a == s.a
  {
    if s.isAlive && s.shoot != 0 && !b.isAlive then Bullet(true, now, s.x, s.y, s.a) else b
  }

  function ShipPhase(w: World, now: u32, hs: seq<Heading>, p: Physics): (r: World)
    requires WellFormed(w) && |hs| == SHIP_MAX
    ensures WellFormed(r) && r.joysticks == w.joysticks
  {
    w.(ships := seq(SHIP_MAX, i requires 0 <= i < SHIP_MAX => AdvanceShip(w.ships[i], hs[i], p)),
       bullets := seq(SHIP_MAX, i requires 0 <= i < SHIP_MAX =>
                        ShipFire(AdvanceShip(w.ships[i], hs[i], p), w.bullets[i], now)))
  }

  /** Age of a bullet in milliseconds: SDL's Uint32 subtraction, which wraps
      modulo 2^32. */
  function Age(now: u32, when: u32): (d: u32)
    ensures when <= now ==> d == now - when
    ensures now < when ==> d == now - when + 0x1_0000_0000
  {
    (now - when) % 0x1_0000_0000
  }

  /** One live bullet's step: move along its fixed heading, wrap, expire once
      older than BULLET_TIME. */
  function BulletMotion(b: Bullet, now: u32, h: Heading, p: Physics): (r: Bullet)
    ensures r.when == b.when && r.a == b.a
    ensures r.isAlive <==> b.isAlive && Age(now, b.when) <= BULLET_TIME
  {
    var x := b.x + BULLET_VELOCITY * -h.sin;
    var y := b.y + BULLET_VELOCITY * h.cos;
    var moved := b.(x := Wrap(x, p.width), y := Wrap(y, p.height));
    if Age(now, b.when) > BULLET_TIME then moved.(isAlive := false) else moved
  }

  function AdvanceBullet(b: Bullet, now: u32, h: Heading, p: Physics): Bullet {
    if b.isAlive then BulletMotion(b, now, h, p) else b
  }

  function BulletPhase(w: World, now: u32, hs: seq<Heading>, p: Physics): (r: World)
    requires WellFormed(w) && |hs| == SHIP_MAX
    ensures WellFormed(r) && r.joysticks == w.joysticks && r.ships == w.ships
  {
    w.(bullets := seq(SHIP_MAX, i requires 0 <= i < SHIP_MAX => AdvanceBullet(w.bullets[i], now, hs[i], p)))
  }

  /** |g * t| <= 1 for g in [0, 1] and t in [-1, 1]. */
  lemma ThrustBounded(g: real, t: real)
    requires 0.0 <= g <= 1.0 && -1.0 <= t <= 1.0
    ensures -1.0 <= g * t <= 1.0
  {
    if t >= 0.0 {
      assert g * t <= 1.0 * t;
    } else {
      assert g * -t <= 1.0 * -t;
    }
  }

  /** Drag brings a speed of at most 241/240 back to at most 1. */
  lemma DragBounded(v: real, d: real)
    requires -241.0 / 240.0 <= v <= 241.0 / 240.0 && 0.0 <= d <= 240.0 / 241.0
    ensures -1.0 <= v * d <= 1.0
  {
    var m := 241.0 / 240.0;
    NonNegativeProduct(m - v, d);
    NonNegativeProduct(m + v, d);
    assert m * d <= 1.0;
  }

  /** One axis of a ship's step: gas g in [0, 1] along a heading component t
      in [-1, 1] changes a speed of at most 1 by at most 1/240, the coordinate
      then moves by less than the field size, so the wrap puts it back on the
      field, and drag keeps the speed at most 1. */
  lemma AxisStep(c: real, v: real, g: real, t: real, d: real, size: real)
    requires 0.5 <= size && 0.0 <= c <= size
    requires -1.0 <= v <= 1.0 && 0.0 <= g <= 1.0 && -1.0 <= t <= 1.0
    requires 0.0 <= d <= 240.0 / 241.0
    ensures 0.0 <= Wrap(Displace(c, Accelerate(v, g, t)), size) <= size
    ensures -1.0 <= Accelerate(v, g, t) * d <= 1.0
  {
    ThrustBounded(g, t);
    assert Accelerate(v, g, t) == v + (g * t) / 240.0;
    DragBounded(Accelerate(v, g, t), d);
  }

  /** The x axis of one ship step: the ship stays within [0, width] at a
      speed of at most 1. */
  lemma ShipMotionX(s: Ship, h: Heading, p: Physics)
    requires p.Valid() && ShipOk(s, p) && -1.0 <= h.sin <= 1.0
    ensures 0.0 <= ShipMotion(s, h, p).x <= p.width && -1.0 <= ShipMotion(s, h, p).xv <= 1.0
  {
    AxisStep(s.x, s.xv, s.gas, -h.sin, p.linearDrag, p.width);
  }

  /** The y axis of one ship step: the ship stays within [0, height] at a
      speed of at most 1. */
  lemma ShipMotionY(s: Ship, h: Heading, p: Physics)
    requires p.Valid() && ShipOk(s, p) && -1.0 <= h.cos <= 1.0
    ensures 0.0 <= ShipMotion(s, h, p).y <= p.height && -1.0 <= ShipMotion(s, h, p).yv <= 1.0
  {
    AxisStep(s.y, s.yv, s.gas, h.cos, p.linearDrag, p.height);
  }

  /** The velocity bound makes one wrap enough: a ship on the field with
      per-axis speed at most 1 and normalised controls stays on the field, and
      its speed stays at most 1, whatever its heading. */
  lemma ShipMotionKeepsShipOk(s: Ship, h: Heading, p: Physics)
    requires p.Valid() && ShipOk(s, p)
    requires -1.0 <= h.sin <= 1.0 && -1.0 <= h.cos <= 1.0
    ensures ShipOk(ShipMotion(s, h, p), p)
  {
    ShipMotionX(s, h, p);
    ShipMotionY(s, h, p);
  }

  /** Phase 2 keeps the invariant. */
  lemma ShipPhaseInv(w: World, now: u32, hs: seq<Heading>, p: Physics)
    requires Inv(w, p) && p.Valid() && ValidHeadings(hs)
    ensures Inv(ShipPhase(w, now, hs, p), p)
  {
    forall i | 0 <= i < SHIP_MAX ensures ShipOk(AdvanceShip(w.ships[i], hs[i], p), p) {
      if w.ships[i].isAlive {
        ShipMotionKeepsShipOk(w.ships[i], hs[i], p);
      }
    }
  }

  /** Phase 2, slot by slot: a dead ship is untouched and a live one keeps
      its liveness and controls; bullet i is written only when ship i is
      alive with shoot set and bullet i is dead; the new bullet starts at the
      ship's wrapped position and heading at time now; a live bullet is never
      overwritten. */
  lemma ShipPhaseFiring(w: World, now: u32, hs: seq<Heading>, p: Physics, i: nat)
    requires WellFormed(w) && |hs| == SHIP_MAX && i < SHIP_MAX
    ensures var r := ShipPhase(w, now, hs, p);
      (!w.ships[i].isAlive ==> r.ships[i] == w.ships[i]) &&
      r.ships[i].isAlive == w.ships[i].isAlive && r.ships[i].shoot == w.ships[i].shoot &&
      r.ships[i].steer == w.ships[i].steer && r.ships[i].gas == w.ships[i].gas &&
      (w.bullets[i].isAlive ==> r.bullets[i] == w.bullets[i]) &&
      (r.bullets[i] != w.bullets[i] <==> w.ships[i].isAlive && w.ships[i].shoot != 0 && !w.bullets[i].isAlive) &&
      (r.bullets[i] != w.bullets[i] ==>
         r.bullets[i] == Bullet(true, now, r.ships[i].x, r.ships[i].y, r.ships[i].a))
  {
  }

  /** A bullet fired in phase 2 is not expired by phase 3 of the same tick. */
  lemma FreshBulletSurvivesItsTick(b: Bullet, now: u32, h: Heading, p: Physics)
    requires b.isAlive && b.when == now
    ensures AdvanceBullet(b, now, h, p).isAlive
  {
  }

  /** Phase 3, slot by slot: a dead bullet is untouched; a live bullet keeps its
      firing time and heading, and dies exactly when its Uint32 age exceeds
      BULLET_TIME. */
  lemma BulletPhaseExpiry(w: World, now: u32, hs: seq<Heading>, p: Physics, i: nat)
    requires WellFormed(w) && |hs| == SHIP_MAX && i < SHIP_MAX
    ensures var r := BulletPhase(w, now, hs, p);
      (!w.bullets[i].isAlive ==> r.bullets[i] == w.bullets[i]) &&
      (w.bullets[i].isAlive ==>
         r.bullets[i].when == w.bullets[i].when && r.bullets[i].a == w.bullets[i].a &&
         (r.bullets[i].isAlive <==> Age(now, w.bullets[i].when) <= BULLET_TIME))
  {
  }

  /** A bullet fired at t0 is still alive after a tick at any time up to
      t0 + BULLET_TIME, and is gone after a tick at a later time, as long as
      the clock has not wrapped. */
  lemma BulletLifetime(b: Bullet, now: u32, h: Heading, p: Physics)
    requires b.isAlive && b.when <= now
    ensures AdvanceBullet(b, now, h, p).isAlive <==> now <= b.when + BULLET_TIME
  {
  }

  /** Phase 3 keeps every bullet on the field: a bullet moves 1/32 of a unit,
      less than the field size. */
  lemma BulletPhaseInv(w: World, now: u32, hs: seq<Heading>, p: Physics)
    requires Inv(w, p) && p.Valid() && ValidHeadings(hs)
    ensures Inv(BulletPhase(w, now, hs, p), p)
  {
  }
}
