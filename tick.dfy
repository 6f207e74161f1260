/** One whole tick: binding and input, ship step, bullet step, collisions,
    in that order. */
module Tick {
  import opened Config
  import opened Entities
  import opened Binding
  import opened Motion
  import opened Collision

  function Step(w: World, now: u32, inputs: seq<Input>, spawns: seq<Spawn>,
                shipHeadings: seq<Heading>, bulletHeadings: seq<Heading>, p: Physics): (r: World)
    requires WellFormed(w) && |inputs| == JOYSTICK_MAX && |spawns| == JOYSTICK_MAX
    requires |shipHeadings| == SHIP_MAX && |bulletHeadings| == SHIP_MAX
    ensures WellFormed(r)
  {
    var w1 := BindPhase(w, inputs, spawns, p);
    var w2 := ShipPhase(w1, now, shipHeadings, p);
    var w3 := BulletPhase(w2, now, bulletHeadings, p);
    CollidePhase(w3)
  }

  /** Every tick keeps the invariant: every ship and bullet slot lies on the
      closed field [0, width] x [0, height], ship speeds stay at most 1 per
      axis, controls stay normalised, and only controllers with a device are
      bound. */
  lemma StepPreservesInv(w: World, now: u32, inputs: seq<Input>, spawns: seq<Spawn>,
                         shipHeadings: seq<Heading>, bulletHeadings: seq<Heading>, p: Physics)
    requires Inv(w, p) && p.Valid() && |inputs| == JOYSTICK_MAX && ValidSpawns(spawns)
    requires ValidHeadings(shipHeadings) && ValidHeadings(bulletHeadings)
    ensures Inv(Step(w, now, inputs, spawns, shipHeadings, bulletHeadings, p), p)
  {
    var w1 := BindPhase(w, inputs, spawns, p);
    BindPhaseInv(w, inputs, spawns, p, JOYSTICK_MAX);
    var w2 := ShipPhase(w1, now, shipHeadings, p);
    ShipPhaseInv(w1, now, shipHeadings, p);
    var w3 := BulletPhase(w2, now, bulletHeadings, p);
    BulletPhaseInv(w2, now, bulletHeadings, p);
    CollidePhaseInv(w3, p);
  }

  /** A join fires on stale input. The claimed slot keeps the shoot value of
      the ship that died there. Suppose controller j claims slot i, that ship
      died holding shoot, and its bullet slot is free. If no later controller
      in the same binding phase is still bound to slot i, the new ship fires
      at now in the ship step of the same tick, before its controller has
      copied any input into it. */
  lemma JoinFiresOnStaleShoot(w: World, inputs: seq<Input>, spawns: seq<Spawn>, p: Physics,
                              now: u32, hs: seq<Heading>, j: nat, i: nat)
    requires WellFormed(w) && |inputs| == JOYSTICK_MAX && |spawns| == JOYSTICK_MAX && |hs| == SHIP_MAX
    requires j < JOYSTICK_MAX && i < SHIP_MAX
    requires var u := BindUpTo(w, inputs, spawns, p, j);
      u.joysticks[j].hasDevice && !u.joysticks[j].bound && inputs[j].button0 != 0 &&
      !u.ships[i].isAlive && (forall k :: 0 <= k < i ==> u.ships[k].isAlive) &&
      u.ships[i].shoot != 0 && !w.bullets[i].isAlive &&
      forall m :: j < m < JOYSTICK_MAX ==>
        !(u.joysticks[m].hasDevice && u.joysticks[m].bound && u.joysticks[m].ship == i)
    ensures var r := ShipPhase(BindPhase(w, inputs, spawns, p), now, hs, p);
      r.bullets[i].isAlive && r.bullets[i].when == now
  {
    var u := BindUpTo(w, inputs, spawns, p, j);
    JoinClaimsLowestDeadShip(u, j, inputs[j], spawns[j], p, i);
    LaterTurnsLeaveShip(w, inputs, spawns, p, j, i, JOYSTICK_MAX);
    var v := BindPhase(w, inputs, spawns, p);
    ShipPhaseFiring(v, now, hs, p, i);
  }

  /** Bullet i lives only between a tick where ship i fired it and its expiry
      or hit; in particular a live bullet is never replaced within a tick: if
      bullet i is alive after the tick and was alive before it, it is the
      same shot (same firing time). */
  lemma LiveBulletNeverReplaced(w: World, now: u32, inputs: seq<Input>, spawns: seq<Spawn>,
                                shipHeadings: seq<Heading>, bulletHeadings: seq<Heading>, p: Physics, i: nat)
    requires WellFormed(w) && |inputs| == JOYSTICK_MAX && |spawns| == JOYSTICK_MAX
    requires |shipHeadings| == SHIP_MAX && |bulletHeadings| == SHIP_MAX && i < SHIP_MAX
    requires w.bullets[i].isAlive
    ensures Step(w, now, inputs, spawns, shipHeadings, bulletHeadings, p).bullets[i].when == w.bullets[i].when
  {
    var w1 := BindPhase(w, inputs, spawns, p);
    var w2 := ShipPhase(w1, now, shipHeadings, p);
    ShipPhaseFiring(w1, now, shipHeadings, p, i);
    var w3 := BulletPhase(w2, now, bulletHeadings, p);
    BulletPhaseExpiry(w2, now, bulletHeadings, p, i);
    CollidePhaseFacts(w3);
  }
}
