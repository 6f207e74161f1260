/** The game state as the source keeps it: three fixed-size tables updated in
    place, one method per phase of the per-tick game logic. Each method is
    proved against the phase function that specifies it. */
module Game {
  import opened Config
  import opened Entities
  import opened Binding
  import opened Motion
  import opened Collision
  import opened Tick

  class Arena {
    const physics: Physics
    const joysticks: array<Joystick>
    const ships: array<Ship>
    const bullets: array<Bullet>

    ghost predicate Valid()
      reads joysticks
    {
      physics.Valid() &&
      joysticks.Length == JOYSTICK_MAX && ships.Length == SHIP_MAX && bullets.Length == SHIP_MAX &&
      forall j :: 0 <= j < JOYSTICK_MAX ==> 0 <= joysticks[j].ship < SHIP_MAX
    }

    /** The tables as a value. */
    ghost function State(): World
      reads joysticks, ships, bullets
    {
      World(joysticks[..], ships[..], bullets[..])
    }

    /** Start-up: the tables begin zero-filled (static storage); every
        controller is marked unbound, remembering whether its device opened,
        and every ship and bullet is marked dead. */
    constructor (devices: seq<bool>, p: Physics)
      requires |devices| == JOYSTICK_MAX && p.Valid()
      ensures Valid() && physics == p
      ensures State() == Initial(devices) && Inv(State(), p)
    {
      physics := p;
      joysticks := new Joystick[JOYSTICK_MAX](_ => Joystick(false, false, 0));
      ships := new Ship[SHIP_MAX](_ => ZeroShip);
      bullets := new Bullet[SHIP_MAX](_ => ZeroBullet);
      new;
      for i := 0 to JOYSTICK_MAX
        invariant forall k :: 0 <= k < i ==> joysticks[k] == Joystick(false, devices[k], 0)
        invariant forall k :: i <= k < JOYSTICK_MAX ==> joysticks[k] == Joystick(false, false, 0)
        invariant forall k :: 0 <= k < SHIP_MAX ==> ships[k] == ZeroShip && bullets[k] == ZeroBullet
      {
        if devices[i] {
          joysticks[i] := joysticks[i].(bound := false, hasDevice := true);
        } else {
          joysticks[i] := joysticks[i].(bound := false);
        }
      }
      for i := 0 to SHIP_MAX
        invariant forall k :: 0 <= k < SHIP_MAX ==> ships[k] == ZeroShip && bullets[k] == ZeroBullet
        invariant forall k :: 0 <= k < JOYSTICK_MAX ==> joysticks[k] == Joystick(false, devices[k], 0)
      {
        ships[i] := ships[i].(isAlive := false);
        bullets[i] := bullets[i].(isAlive := false);
      }
      assert joysticks[..] == Initial(devices).joysticks;
      assert ships[..] == Initial(devices).ships;
      assert bullets[..] == Initial(devices).bullets;
      InitialInv(devices, p);
    }

    /** The linear scan for a free ship slot, stopping at the first dead one;
        SHIP_MAX when every slot is taken. */
    method FirstDeadShip() returns (i: nat)
      requires Valid()
      ensures i == FirstDead(ships[..])
    {
      i := 0;
      while i < SHIP_MAX
        invariant i <= SHIP_MAX
        invariant forall k :: 0 <= k < i ==> ships[k].isAlive
      {
        if !ships[i].isAlive {
          break;
        }
        i := i + 1;
      }
    }

    /** Phase 1: controllers in index order. */
    method BindJoysticks(inputs: seq<Input>, spawns: seq<Spawn>)
      requires Valid() && |inputs| == JOYSTICK_MAX && |spawns| == JOYSTICK_MAX
      modifies joysticks, ships
      ensures Valid()
      ensures State() == BindPhase(old(State()), inputs, spawns, physics)
    {
      for j := 0 to JOYSTICK_MAX
        invariant Valid()
        invariant State() == BindUpTo(old(State()), inputs, spawns, physics, j)
      {
        ServeJoystick(j, inputs[j], spawns[j]);
      }
    }

    /** Controller j's turn in phase 1. */
    method ServeJoystick(j: nat, inp: Input, sp: Spawn)
      requires Valid() && j < JOYSTICK_MAX
      modifies joysticks, ships
      ensures Valid()
      ensures State() == JoystickStep(old(State()), j, inp, sp, physics)
    {
      if !joysticks[j].hasDevice {
        return;
      }
      if joysticks[j].bound {
        var k := joysticks[j].ship;
        if !ships[k].isAlive {
          joysticks[j] := joysticks[j].(bound := false);
          return;
        }
        var steer := 0.0;
        var gas := 0.0;
        var shoot := 0;
        // input
        steer := steer - inp.axis0 as real / 32768.0;
        gas := gas + (inp.axis4 as real / 32768.0 + 1.0) / 2.0;
        shoot := shoot + inp.button0;
        // normalisation
        if steer < -1.0 { steer := -1.0; }
        if steer > 1.0 { steer := 1.0; }
        if gas > 1.0 { gas := 1.0; }
        if shoot > 1 { shoot := 1; }
        ships[k] := ships[k].(steer := steer, gas := gas, shoot := shoot);
      } else {
        if inp.button0 == 0 {
          return;
        }
        var i := FirstDeadShip();
        if i == SHIP_MAX {
          // "Out of ships.": the request is dropped
          return;
        }
        ghost var w := State();
        joysticks[j] := joysticks[j].(bound := true, ship := i);
        var s := ships[i];
        s := s.(isAlive := true);
        s := s.(x := physics.width * sp.fx);
        s := s.(y := physics.height * sp.fy);
        s := s.(a := 2.0 * PI * sp.fa);
        assert s == Claim(w.ships[i], sp, physics);
        ships[i] := s;
        assert ships[..] == w.ships[i := Claim(w.ships[i], sp, physics)];
        assert joysticks[..] == w.joysticks[j := w.joysticks[j].(bound := true, ship := i)];
      }
    }

    /** Phase 2: integrate, wrap and fire, ship by ship. */
    method MoveShips(now: u32, headings: seq<Heading>)
      requires Valid() && |headings| == SHIP_MAX
      modifies ships, bullets
      ensures Valid()
      ensures State() == ShipPhase(old(State()), now, headings, physics)
    {
      for i := 0 to SHIP_MAX
        invariant forall k :: 0 <= k < i ==>
          ships[k] == AdvanceShip(old(ships[k]), headings[k], physics) &&
          bullets[k] == ShipFire(AdvanceShip(old(ships[k]), headings[k], physics), old(bullets[k]), now)
        invariant forall k :: i <= k < SHIP_MAX ==> ships[k] == old(ships[k]) && bullets[k] == old(bullets[k])
      {
        MoveShip(i, now, headings[i]);
      }
      assert ships[..] == ShipPhase(old(State()), now, headings, physics).ships;
      assert bullets[..] == ShipPhase(old(State()), now, headings, physics).bullets;
    }

    /** Ship i's turn in phase 2: a dead ship is skipped; a live one
        accelerates, moves, slows down and wraps, then fires into bullet slot
        i if it holds shoot and that slot is free. */
    method MoveShip(i: nat, now: u32, h: Heading)
      requires Valid() && i < SHIP_MAX
      modifies ships, bullets
      ensures Valid()
      ensures ships[i] == AdvanceShip(old(ships[i]), h, physics)
      ensures bullets[i] == ShipFire(AdvanceShip(old(ships[i]), h, physics), old(bullets[i]), now)
      ensures forall k :: 0 <= k < SHIP_MAX && k != i ==> ships[k] == old(ships[k]) && bullets[k] == old(bullets[k])
    {
      if !ships[i].isAlive {
        return;
      }
      var s := ships[i];
      // acceleration
      s := s.(xv := Accelerate(s.xv, s.gas, -h.sin));
      s := s.(yv := Accelerate(s.yv, s.gas, h.cos));
      s := s.(av := s.av + s.steer * SHIP_TACCEL * 2.0 * PI / FPS);
      // velocity
      s := s.(x := Displace(s.x, s.xv));
      s := s.(y := Displace(s.y, s.yv));
      s := s.(a := s.a + s.av / FPS);
      // drag
      s := s.(xv := s.xv * physics.linearDrag);
      s := s.(yv := s.yv * physics.linearDrag);
      s := s.(av := s.av * physics.angularDrag);
      // wrap
      if s.x < 0.0 { s := s.(x := s.x + physics.width); }
      if s.x > physics.width { s := s.(x := s.x - physics.width); }
      if s.y < 0.0 { s := s.(y := s.y + physics.height); }
      if s.y > physics.height { s := s.(y := s.y - physics.height); }
      ships[i] := s;
      // shoot
      if s.shoot != 0 && !bullets[i].isAlive {
        bullets[i] := Bullet(true, now, s.x, s.y, s.a);
      }
    }

    /** Phase 3: move, wrap and expire, bullet by bullet. */
    method MoveBullets(now: u32, headings: seq<Heading>)
      requires Valid() && |headings| == SHIP_MAX
      modifies bullets
      ensures Valid()
      ensures State() == BulletPhase(old(State()), now, headings, physics)
    {
      for i := 0 to SHIP_MAX
        invariant forall k :: 0 <= k < i ==> bullets[k] == AdvanceBullet(old(bullets[k]), now, headings[k], physics)
        invariant forall k :: i <= k < SHIP_MAX ==> bullets[k] == old(bullets[k])
      {
        if !bullets[i].isAlive {
          continue;
        }
        var b := bullets[i];
        b := b.(x := b.x + BULLET_VELOCITY * -headings[i].sin);
        b := b.(y := b.y + BULLET_VELOCITY * headings[i].cos);
        // wrap
        if b.x < 0.0 { b := b.(x := b.x + physics.width); }
        if b.x > physics.width { b := b.(x := b.x - physics.width); }
        if b.y < 0.0 { b := b.(y := b.y + physics.height); }
        if b.y > physics.height { b := b.(y := b.y - physics.height); }
        // expire
        if Age(now, b.when) > BULLET_TIME {
          b := b.(isAlive := false);
        }
        bullets[i] := b;
      }
      assert bullets[..] == BulletPhase(old(State()), now, headings, physics).bullets;
    }

    /** Phase 4: every live ship against every live bullet of another ship. */
    method CollideBullets()
      requires Valid()
      modifies ships, bullets
      ensures Valid()
      ensures State() == CollidePhase(old(State()))
    {
      for j := 0 to SHIP_MAX
        invariant State() == CollideUpTo(old(State()), j)
      {
        if !ships[j].isAlive {
          continue;
        }
        ghost var start := State();
        for i := 0 to SHIP_MAX
          invariant State() == CollideRow(start, j, i)
        {
          TestPair(j, i);
        }
      }
    }

    /** The test of bullet i against ship j, inside ship j's row: on overlap
        both are marked dead in place. */
    method TestPair(j: nat, i: nat)
      requires Valid() && j < SHIP_MAX && i < SHIP_MAX
      modifies ships, bullets
      ensures Valid()
      ensures State() == CollidePair(old(State()), j, i)
    {
      var x := bullets[i].x - ships[j].x;
      var y := bullets[i].y - ships[j].y;
      if !bullets[i].isAlive {
        return;
      }
      if i == j {
        return;
      }
      if x * x + y * y < (BULLET_RADIUS + SHIP_RADIUS) * (BULLET_RADIUS + SHIP_RADIUS) {
        bullets[i] := bullets[i].(isAlive := false);
        ships[j] := ships[j].(isAlive := false);
      }
    }

    /** One tick of the game logic. */
    method Tick(now: u32, inputs: seq<Input>, spawns: seq<Spawn>,
                shipHeadings: seq<Heading>, bulletHeadings: seq<Heading>)
      requires Valid() && Inv(State(), physics)
      requires |inputs| == JOYSTICK_MAX && ValidSpawns(spawns)
      requires ValidHeadings(shipHeadings) && ValidHeadings(bulletHeadings)
      modifies joysticks, ships, bullets
      ensures Valid() && Inv(State(), physics)
      ensures State() == Step(old(State()), now, inputs, spawns, shipHeadings, bulletHeadings, physics)
    {
      StepPreservesInv(State(), now, inputs, spawns, shipHeadings, bulletHeadings, physics);
      BindJoysticks(inputs, spawns);
      MoveShips(now, shipHeadings);
      MoveBullets(now, bulletHeadings);
      CollideBullets();
    }
  }
}
