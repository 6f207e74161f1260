/** The three slot tables of the arena and the values the game logic reads
    from outside (clock, controller state, random draws, trigonometry). */
module Entities {
  import opened Config

  /** A controller slot. `bound` is the source's `is_alive` flag: the
      controller drives the ship in slot `ship`. `hasDevice` stands for a
      non-null SDL joystick handle. */
  datatype Joystick = Joystick(bound: bool, hasDevice: bool, ship: int)

  /** A ship slot: position, heading, linear and angular velocity, and the
      control values last copied from its controller. */
  datatype Ship = Ship(
    isAlive: bool,
    x: real, y: real, a: real,
    xv: real, yv: real, av: real,
    steer: real, gas: real, shoot: int)

  /** Bullet slot i belongs to ship i; `when` is the tick time it was fired. */
  datatype Bullet = Bullet(isAlive: bool, when: u32, x: real, y: real, a: real)

  /** The whole game state between two ticks. */
  datatype World = World(joysticks: seq<Joystick>, ships: seq<Ship>, bullets: seq<Bullet>)

  /** What one controller reports in a tick: axis 0 (steering), axis 4 (the
      trigger used as gas) and button 0 (shoot, also the "join" button). */
  datatype Input = Input(axis0: i16, axis4: i16, button0: u8)

  /** The three `frand()` draws a binding consumes, in call order. */
  datatype Spawn = Spawn(fx: real, fy: real, fa: real)

  /** `sin` and `cos` of an entity's heading, as the maths library returns them. */
  datatype Heading = Heading(sin: real, cos: real)

  /** Constants the source computes with irrational values: the playfield size
      WIDTH/SCALE by HEIGHT/SCALE (sqrt(8/5) by sqrt(5/8)) and the per-tick
      drag factors pow(1 - SHIP_DRAG, 1/FPS) and pow(1 - SHIP_TDRAG, 1/FPS)
      (about 0.9905 and 0.8706). */
  datatype Physics = Physics(width: real, height: real, linearDrag: real, angularDrag: real)
  {
    /** Bounds that the source's actual values satisfy. */
    predicate Valid() {
      0.5 <= width && 0.5 <= height &&
      0.0 <= linearDrag <= 240.0 / 241.0 &&
      0.0 <= angularDrag <= 1.0
    }
  }

  predicate UnitDraw(f: real) { 0.0 <= f <= 1.0 }

  predicate ValidSpawns(spawns: seq<Spawn>) {
    |spawns| == JOYSTICK_MAX &&
    forall j :: 0 <= j < |spawns| ==>
      UnitDraw(spawns[j].fx) && UnitDraw(spawns[j].fy) && UnitDraw(spawns[j].fa)
  }

  predicate ValidHeadings(hs: seq<Heading>) {
    |hs| == SHIP_MAX &&
    forall i :: 0 <= i < |hs| ==> -1.0 <= hs[i].sin <= 1.0 && -1.0 <= hs[i].cos <= 1.0
  }

  /** Table sizes, and every controller's ship index names a ship slot. */
  predicate WellFormed(w: World) {
    |w.joysticks| == JOYSTICK_MAX &&
    |w.ships| == SHIP_MAX &&
    |w.bullets| == SHIP_MAX &&
    forall j :: 0 <= j < |w.joysticks| ==> 0 <= w.joysticks[j].ship < SHIP_MAX
  }

  predicate OnField(x: real, y: real, p: Physics) {
    0.0 <= x <= p.width && 0.0 <= y <= p.height
  }

  /** What holds of every ship slot between ticks: on the field, speed per
      axis at most 1 field unit per second, controls normalised. */
  predicate ShipOk(s: Ship, p: Physics) {
    OnField(s.x, s.y, p) &&
    -1.0 <= s.xv <= 1.0 && -1.0 <= s.yv <= 1.0 &&
    -1.0 <= s.steer <= 1.0 && 0.0 <= s.gas <= 1.0 && 0 <= s.shoot <= 1
  }

  /** The state invariant kept by every tick. */
  predicate Inv(w: World, p: Physics) {
    WellFormed(w) &&
    (forall j :: 0 <= j < |w.joysticks| ==> w.joysticks[j].bound ==> w.joysticks[j].hasDevice) &&
    (forall i :: 0 <= i < |w.ships| ==> ShipOk(w.ships[i], p)) &&
    (forall i :: 0 <= i < |w.bullets| ==> OnField(w.bullets[i].x, w.bullets[i].y, p))
  }

  /** Static zero-initialisation of the global tables. */
  const ZeroShip := Ship(false, 0.0, 0.0, 0.0, 0.0, 0.0, 0.0, 0.0, 0.0, 0)
  const ZeroBullet := Bullet(false, 0, 0.0, 0.0, 0.0)

  /** The state after start-up: `devices[j]` tells whether controller j could
      be opened. */
  function Initial(devices: seq<bool>): (w: World)
    requires |devices| == JOYSTICK_MAX
    ensures WellFormed(w)
    ensures forall j :: 0 <= j < JOYSTICK_MAX ==>
      !w.joysticks[j].bound && w.joysticks[j].hasDevice == devices[j]
    ensures forall i :: 0 <= i < SHIP_MAX ==> !w.ships[i].isAlive && !w.bullets[i].isAlive
  {
    World(seq(JOYSTICK_MAX, j requires 0 <= j < JOYSTICK_MAX => Joystick(false, devices[j], 0)),
          seq(SHIP_MAX, _ => ZeroShip),
          seq(SHIP_MAX, _ => ZeroBullet))
  }

  /** The start-up state satisfies the invariant on any valid playfield. */
  lemma InitialInv(devices: seq<bool>, p: Physics)
    requires |devices| == JOYSTICK_MAX && p.Valid()
    ensures Inv(Initial(devices), p)
  {
  }
}
