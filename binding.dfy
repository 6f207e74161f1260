/** Phase 1 of a tick: each controller, in index order, either joins the game
    by claiming the lowest dead ship slot, notices that its ship died and lets
    go of it, or copies its normalised input into its ship. */
module Binding {
  import opened Config
  import opened Entities
  import opened Controls
  import opened Arith

  /** Index of the first dead ship, or |ss| when every ship is alive. */
  function FirstDead(ss: seq<Ship>): (i: nat)
    ensures i <= |ss|
    ensures forall k :: 0 <= k < i ==> ss[k].isAlive
    ensures i < |ss| ==> !ss[i].isAlive
  {
    if ss == [] then 0
    else if !ss[0].isAlive then 0
    else 1 + FirstDead(ss[1..])
  }

  /** FirstDead reports exhaustion exactly when every slot is taken. */
  lemma FirstDeadFull(ss: seq<Ship>)
    ensures FirstDead(ss) == |ss| <==> forall k :: 0 <= k < |ss| ==> ss[k].isAlive
  {
  }

  /** The ship a newly bound controller claims: alive, placed at
      (width * fx, height * fy) with heading 2*pi*fa; every other field of the
      slot (velocities, controls) keeps what the slot held. */
  function Claim(s: Ship, sp: Spawn, p: Physics): (r: Ship)
    ensures r.isAlive
    ensures r.(isAlive := s.isAlive, x := s.x, y := s.y, a := s.a) == s
  {
    s.(isAlive := true, x := p.width * sp.fx, y := p.height * sp.fy, a := 2.0 * PI * sp.fa)
  }

  /** One controller's turn in the binding phase. */
  function JoystickStep(w: World, j: nat, inp: Input, sp: Spawn, p: Physics): (r: World)
    requires WellFormed(w) && j < JOYSTICK_MAX
    ensures WellFormed(r)
    ensures r.bullets == w.bullets
    // controllers other than j are untouched
    ensures forall k :: 0 <= k < JOYSTICK_MAX && k != j ==> r.joysticks[k] == w.joysticks[k]
    // no ship dies in this phase
    ensures forall i :: 0 <= i < SHIP_MAX && w.ships[i].isAlive ==> r.ships[i].isAlive
  {
    var js := w.joysticks[j];
    if !js.hasDevice then w
    else if js.bound then
      if !w.ships[js.ship].isAlive then
        w.(joysticks := w.joysticks[j := js.(bound := false)])
      else
        var c := ReadControls(inp);
        var s := w.ships[js.ship];
        w.(ships := w.ships[js.ship := s.(steer := c.steer, gas := c.gas, shoot := c.shoot)])
    else if inp.button0 == 0 then w
    else
      var i := FirstDead(w.ships);
      if i == SHIP_MAX then w  // "Out of ships."
      else
        w.(joysticks := w.joysticks[j := js.(bound := true, ship := i)],
           ships := w.ships[i := Claim(w.ships[i], sp, p)])
  }

  /** The binding phase applied to controllers 0 .. k-1. */
  function BindUpTo(w: World, inputs: seq<Input>, spawns: seq<Spawn>, p: Physics, k: nat): (r: World)
    requires WellFormed(w) && |inputs| == JOYSTICK_MAX && |spawns| == JOYSTICK_MAX && k <= JOYSTICK_MAX
    ensures WellFormed(r) && r.bullets == w.bullets
    ensures forall i :: 0 <= i < SHIP_MAX && w.ships[i].isAlive ==> r.ships[i].isAlive
  {
    if k == 0 then w
    else JoystickStep(BindUpTo(w, inputs, spawns, p, k - 1), k - 1, inputs[k - 1], spawns[k - 1], p)
  }

  /** The binding phase: every controller's turn, in index order. It never
      kills a ship and never touches a bullet. */
  function BindPhase(w: World, inputs: seq<Input>, spawns: seq<Spawn>, p: Physics): (r: World)
    requires WellFormed(w) && |inputs| == JOYSTICK_MAX && |spawns| == JOYSTICK_MAX
    ensures WellFormed(r) && r.bullets == w.bullets
    ensures forall i :: 0 <= i < SHIP_MAX && w.ships[i].isAlive ==> r.ships[i].isAlive
  {
    BindUpTo(w, inputs, spawns, p, JOYSTICK_MAX)
  }

  /** A controller with a device, unbound, pressing button 0 while some ship
      slot is dead binds to the lowest dead slot i: ship i comes alive at the
      drawn position and heading, keeps its velocities and controls, and no
      other ship or controller changes. */
  lemma JoinClaimsLowestDeadShip(w: World, j: nat, inp: Input, sp: Spawn, p: Physics, i: nat)
    requires WellFormed(w) && j < JOYSTICK_MAX && i < SHIP_MAX
    requires w.joysticks[j].hasDevice && !w.joysticks[j].bound && inp.button0 != 0
    requires !w.ships[i].isAlive && forall k :: 0 <= k < i ==> w.ships[k].isAlive
    ensures var r := JoystickStep(w, j, inp, sp, p);
      r.joysticks[j] == w.joysticks[j].(bound := true, ship := i) &&
      r.ships[i] == w.ships[i].(isAlive := true, x := p.width * sp.fx, y := p.height * sp.fy,
                                a := 2.0 * PI * sp.fa) &&
      (forall k :: 0 <= k < SHIP_MAX && k != i ==> r.ships[k] == w.ships[k]) &&
      r.bullets == w.bullets
  {
    assert FirstDead(w.ships) == i;
  }

  /** With every ship slot taken the join request is dropped: nothing changes
      and the controller stays unbound. */
  lemma JoinWhenFullIsDropped(w: World, j: nat, inp: Input, sp: Spawn, p: Physics)
    requires WellFormed(w) && j < JOYSTICK_MAX
    requires !w.joysticks[j].bound
    requires forall k :: 0 <= k < SHIP_MAX ==> w.ships[k].isAlive
    ensures JoystickStep(w, j, inp, sp, p) == w
  {
    FirstDeadFull(w.ships);
  }

  /** A controller without a device, or an unbound one whose button 0 is not
      pressed, changes nothing. */
  lemma IdleControllerChangesNothing(w: World, j: nat, inp: Input, sp: Spawn, p: Physics)
    requires WellFormed(w) && j < JOYSTICK_MAX
    requires !w.joysticks[j].hasDevice || (!w.joysticks[j].bound && inp.button0 == 0)
    ensures JoystickStep(w, j, inp, sp, p) == w
  {
  }

  /** A newly placed ship is on the field when the draws lie in [0, 1]. */
  lemma ClaimOnField(s: Ship, sp: Spawn, p: Physics)
    requires p.Valid() && UnitDraw(sp.fx) && UnitDraw(sp.fy) && UnitDraw(sp.fa)
    ensures OnField(Claim(s, sp, p).x, Claim(s, sp, p).y, p)
    ensures 0.0 <= Claim(s, sp, p).a <= 2.0 * PI
  {
    NonNegativeProduct(p.width, sp.fx);
    NonNegativeProduct(p.width, 1.0 - sp.fx);
    NonNegativeProduct(p.height, sp.fy);
    NonNegativeProduct(p.height, 1.0 - sp.fy);
    NonNegativeProduct(2.0 * PI, sp.fa);
    NonNegativeProduct(2.0 * PI, 1.0 - sp.fa);
  }

  /** A bound controller whose ship is dead lets go of it and writes nothing
      into any ship this tick. */
  lemma DeadShipUnbinds(w: World, j: nat, inp: Input, sp: Spawn, p: Physics)
    requires WellFormed(w) && j < JOYSTICK_MAX
    requires w.joysticks[j].hasDevice && w.joysticks[j].bound
    requires !w.ships[w.joysticks[j].ship].isAlive
    ensures var r := JoystickStep(w, j, inp, sp, p);
      r.joysticks[j] == w.joysticks[j].(bound := false) && r.ships == w.ships
  {
  }

  /** A bound controller whose ship lives copies its normalised input into that
      ship and changes nothing else. */
  lemma BoundControllerSteers(w: World, j: nat, inp: Input, sp: Spawn, p: Physics)
    requires WellFormed(w) && j < JOYSTICK_MAX
    requires w.joysticks[j].hasDevice && w.joysticks[j].bound
    requires w.ships[w.joysticks[j].ship].isAlive
    ensures var r := JoystickStep(w, j, inp, sp, p); var i := w.joysticks[j].ship;
      r.joysticks == w.joysticks &&
      r.ships[i] == w.ships[i].(steer := ReadControls(inp).steer, gas := ReadControls(inp).gas,
                                shoot := ReadControls(inp).shoot) &&
      -1.0 <= r.ships[i].steer <= 1.0 && 0.0 <= r.ships[i].gas <= 1.0 && 0 <= r.ships[i].shoot <= 1 &&
      (forall k :: 0 <= k < SHIP_MAX && k != i ==> r.ships[k] == w.ships[k])
  {
  }

  /** Every bound controller among the first k (with a device) drives a live
      ship. */
  predicate BoundShipsAlive(w: World, k: nat)
    requires WellFormed(w) && k <= JOYSTICK_MAX
  {
    forall j :: 0 <= j < k && w.joysticks[j].bound && w.joysticks[j].hasDevice ==>
      w.ships[w.joysticks[j].ship].isAlive
  }

  /** After the binding phase every bound controller drives a live ship: a
      controller's own turn leaves it either unbound or on a live ship, and
      later turns in the phase never kill a ship. */
  lemma {:induction false} BindPhaseBoundShipsAlive(w: World, inputs: seq<Input>, spawns: seq<Spawn>, p: Physics, k: nat)
    requires WellFormed(w) && |inputs| == JOYSTICK_MAX && |spawns| == JOYSTICK_MAX && k <= JOYSTICK_MAX
    ensures BoundShipsAlive(BindUpTo(w, inputs, spawns, p, k), k)
  {
    if k > 0 {
      BindPhaseBoundShipsAlive(w, inputs, spawns, p, k - 1);
      var v := BindUpTo(w, inputs, spawns, p, k - 1);
      var r := JoystickStep(v, k - 1, inputs[k - 1], spawns[k - 1], p);
      var js := v.joysticks[k - 1];
      forall j | 0 <= j < k && r.joysticks[j].bound && r.joysticks[j].hasDevice
        ensures r.ships[r.joysticks[j].ship].isAlive
      {
        if j < k - 1 {
          assert r.joysticks[j] == v.joysticks[j];
        } else if js.bound {
          assert r.joysticks[j] == js;
        } else {
          assert r.ships[FirstDead(v.ships)].isAlive;
        }
      }
    }
  }

  /** The binding phase keeps the invariant: claimed ships are placed on the
      field, copied controls are normalised, only controllers with a device
      become bound. */
  lemma {:induction false} BindPhaseInv(w: World, inputs: seq<Input>, spawns: seq<Spawn>, p: Physics, k: nat)
    requires Inv(w, p) && p.Valid() && |inputs| == JOYSTICK_MAX && ValidSpawns(spawns) && k <= JOYSTICK_MAX
    ensures var r := BindUpTo(w, inputs, spawns, p, k);
      Inv(r, p) && r.bullets == w.bullets
  {
    if k > 0 {
      BindPhaseInv(w, inputs, spawns, p, k - 1);
      JoystickStepInv(BindUpTo(w, inputs, spawns, p, k - 1), k - 1, inputs[k - 1], spawns[k - 1], p);
    }
  }

  /** One controller's turn keeps the invariant. */
  lemma JoystickStepInv(w: World, j: nat, inp: Input, sp: Spawn, p: Physics)
    requires Inv(w, p) && p.Valid() && j < JOYSTICK_MAX
    requires UnitDraw(sp.fx) && UnitDraw(sp.fy) && UnitDraw(sp.fa)
    ensures Inv(JoystickStep(w, j, inp, sp, p), p)
  {
    forall s: Ship ensures ShipOk(s, p) ==> ShipOk(Claim(s, sp, p), p) {
      ClaimOnField(s, sp, p);
    }
  }

  /** Once a turn has left ship i alive, the later turns of the binding
      phase keep ship i as it is, as long as no later controller with a device
      is still bound to slot i. A later unbound controller cannot claim slot i,
      because it is alive, and a later bound one writes into its own ship. */
  lemma {:induction false} LaterTurnsLeaveShip(w: World, inputs: seq<Input>, spawns: seq<Spawn>, p: Physics,
                                               j: nat, i: nat, k: nat)
    requires WellFormed(w) && |inputs| == JOYSTICK_MAX && |spawns| == JOYSTICK_MAX
    requires j < k <= JOYSTICK_MAX && i < SHIP_MAX
    requires var u := BindUpTo(w, inputs, spawns, p, j + 1);
      u.ships[i].isAlive &&
      forall m :: j < m < JOYSTICK_MAX ==>
        !(u.joysticks[m].hasDevice && u.joysticks[m].bound && u.joysticks[m].ship == i)
    ensures var u := BindUpTo(w, inputs, spawns, p, j + 1);
      var v := BindUpTo(w, inputs, spawns, p, k);
      v.ships[i] == u.ships[i] &&
      forall m :: k <= m < JOYSTICK_MAX ==> v.joysticks[m] == u.joysticks[m]
  {
    if k > j + 1 {
      LaterTurnsLeaveShip(w, inputs, spawns, p, j, i, k - 1);
      var v := BindUpTo(w, inputs, spawns, p, k - 1);
      var r := JoystickStep(v, k - 1, inputs[k - 1], spawns[k - 1], p);
      var js := v.joysticks[k - 1];
      if js.hasDevice && !js.bound && inputs[k - 1].button0 != 0 {
        assert FirstDead(v.ships) != i;
      }
      assert r.ships[i] == v.ships[i];
    }
  }

  /** Two controllers can end up driving one ship: controller j claims the
      lowest dead slot, which a higher-numbered controller is still bound to
      because it has not yet had its turn to notice the death; on that turn it
      finds the ship alive again and keeps it. */
  lemma TwoControllersOneShip(w: World, j: nat, inp0: Input, inp1: Input, sp0: Spawn, sp1: Spawn, p: Physics)
    requires WellFormed(w) && j + 1 < JOYSTICK_MAX
    requires w.joysticks[j].hasDevice && !w.joysticks[j].bound && inp0.button0 != 0
    requires w.joysticks[j + 1].hasDevice && w.joysticks[j + 1].bound
    requires w.joysticks[j + 1].ship == FirstDead(w.ships)
    ensures var r := JoystickStep(JoystickStep(w, j, inp0, sp0, p), j + 1, inp1, sp1, p);
      r.joysticks[j].bound && r.joysticks[j + 1].bound &&
      r.joysticks[j].ship == r.joysticks[j + 1].ship
  {
  }
}
