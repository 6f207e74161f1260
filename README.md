# Arena game logic of the 2010 SDL/cairo ship demo, in Dafny

The demo is a small two-dimensional arena game. Up to four joysticks each
control one ship on a wrap-around playfield. A joystick joins by pressing
button 0 and then steers, thrusts and fires. A ship's bullet kills the first
other ship it touches, in slot order, and is spent. All of the game logic sits inside `main` in `demo.c`. It
runs once per frame over three global tables of fixed size: `joysticks[4]`,
`ships[4]` and `bullets[4]`. Every slot in these tables has an `is_alive`
flag.

This project models that logic in two layers.

- **Values.** The state between ticks is a `World` value with one sequence
  per table. Each phase of a tick is a function on `World`:
  - `Binding.BindPhase`: joysticks join, let go of a dead ship, or copy
    their input into their ship.
  - `Motion.ShipPhase`: ships integrate, wrap and fire.
  - `Motion.BulletPhase`: bullets move, wrap and expire.
  - `Collision.CollidePhase`: bullets are checked against ships.

  `Tick.Step` runs the four phases in the source's order. Lemmas state what
  each phase promises.
- **State.** `Game.Arena` is a class that holds the three tables as arrays.
  It has one method per phase. The methods make the same in-place updates,
  loops and early `continue`s as the source. Each method is proved to
  produce exactly the `World` its phase function gives.

Things the source takes from outside are parameters:

- the tick clock `now` (a `u32`, in milliseconds);
- the joystick readings: axis 0, axis 4 and button 0, as `Input`;
- which joysticks could be opened at start-up;
- the three `frand()` draws used when a ship is placed, as `Spawn`;
- `sin` and `cos` of each ship's and each bullet's heading, as `Heading`.

The source computes four constants with irrational values: the field size
`WIDTH/SCALE` × `HEIGHT/SCALE`, which is √(8/5) × √(5/8), and the drag
factors `pow(1 - SHIP_DRAG, 1/FPS)` ≈ 0.9905 and `pow(1 - SHIP_TDRAG, 1/FPS)`
≈ 0.8706. They are the fields of `Physics`. `Physics.Valid` bounds them:
both sides at least 1/2, linear drag at most 240/241, angular drag in [0, 1].
The real values meet these bounds.

Positions and velocities are `real`. The collision test compares squared
lengths. `Collision.HitsMatchesRoot` proves that this gives the same
answer as the source's `sqrt` comparison.

The main invariant is `Entities.Inv`:

- every ship slot and every bullet slot lies on the closed field
  [0, width] × [0, height];
- every ship's speed is at most 1 unit per second on each axis;
- ship controls are normalised;
- only a joystick with a device is bound.

The speed bound is what lets the single conditional add or subtract of the
wrap always bring a coordinate back onto the field.

The code behaves as follows, and the model follows the code:

- The field is closed at its upper edge. The wrap tests `>` rather than
  `>=`, so a coordinate equal to the field size stays where it is
  (`Torus.WrapKeepsUpperEdge`).
- The collision test uses plain Euclidean distance. It is not wrap-aware,
  even though ships are drawn in four translated copies.
- A new binding writes only `is_alive`, `x`, `y` and `a`. The ship keeps the
  velocity and the controls that the slot held before
  (`Binding.JoinClaimsLowestDeadShip`). So it can drift on stale values. It
  can also fire in the ship step of the very tick it joins. This happens when
  the ship that died in that slot was holding shoot, its bullet slot is free,
  and no later joystick in that tick is still bound to the slot
  (`Tick.JoinFiresOnStaleShoot`). A later joystick still bound to the slot
  would first copy its own button into `shoot`.
- Two joysticks can drive one ship (`Binding.TwoControllersOneShip`). This
  happens when a lower-numbered joystick claims a freed slot before a
  higher-numbered joystick that is still bound to that slot has had its turn
  to notice the death.
- Ship j's row of bullet tests does not recheck whether ship j is still
  alive. A ship killed by one bullet still uses up every later overlapping
  bullet in the same row (`Collision.DeadShipStillStopsBullets`). Over the
  whole phase, a bullet is spent on the lowest-numbered ship, other than its
  owner, that was alive at the start of the phase and that it overlaps.
  Ships with higher numbers that it also overlaps survive it
  (`Collision.CollidePhaseFacts`).
- A bullet's age is a `Uint32` subtraction, so it wraps modulo 2^32
  (`Motion.Age`).
- A joystick learns that its ship has died at its next tick, not in the tick
  of the collision.

## Model

| member | source | states |
|---|---|---|
| `Torus.Wrap` | demo.c:309-321 | the result differs from the input by at most one field size; a coordinate on the closed field is unchanged; any coordinate in [-w, 2w] lands in [0, w] |
| `Torus.WrapKeepsUpperEdge` | demo.c:313-315 | the test is `>`, so a coordinate equal to the field size stays put, and so does 0 |
| `Torus.WrapNeedsBoundedStep` | demo.c:310-312 | a coordinate more than one field size below zero stays off the field after one wrap |
| `Entities.Initial` | demo.c:143-158 | at start-up every joystick is unbound and has a device exactly when it opened; every ship and every bullet is dead |
| `Entities.InitialInv` | demo.c:143-158 | the start-up state satisfies the invariant |
| `Controls.Normalize` | demo.c:258-263 | steer is clamped to [-1, 1] at both ends; gas and shoot are clamped only from above, to at most 1; values already in range are unchanged |
| `Controls.ReadControls` | demo.c:249-267 | controls read from a joystick give steer in [-1, 1], gas in [0, 1] and shoot in {0, 1}, with shoot 1 exactly when button 0 is pressed; the clamps never change a value from a 16-bit axis |
| `Binding.FirstDead` | demo.c:271-277 | the index of the lowest dead ship; every slot before it is alive; equal to the table size only when every slot is alive |
| `Binding.Claim` | demo.c:281-284 | a claimed slot is alive, and every field other than `is_alive`, `x`, `y` and `a` keeps its old value |
| `Binding.FirstDeadFull` | demo.c:274-277 | the scan reports exhaustion exactly when every ship is alive |
| `Binding.JoystickStep` | demo.c:233-286 | one joystick's turn: no other joystick changes, no bullet changes, no ship dies, and every ship index stays in range |
| `Binding.BindUpTo` | demo.c:233-286 | the turns of the first k joysticks keep the tables well formed, leave the bullets alone and kill no ship |
| `Binding.BindPhase` | demo.c:233-286 | the whole binding phase keeps the tables well formed, leaves the bullets alone and kills no ship |
| `Binding.JoinClaimsLowestDeadShip` | demo.c:269-284 | an unbound joystick with a device and button 0 pressed binds to the lowest dead ship i; ship i comes alive at (width·fx, height·fy) with heading 2π·fa and keeps every other field it held (velocities, steer, gas, shoot); no other ship and no bullet changes |
| `Binding.IdleControllerChangesNothing` | demo.c:234-269 | a joystick without a device, or an unbound one whose button 0 is up, changes nothing |
| `Binding.JoinWhenFullIsDropped` | demo.c:269-277 | an unbound joystick finding every ship alive changes nothing and stays unbound |
| `Binding.ClaimOnField` | demo.c:281-284 | with draws in [0, 1], a newly placed ship lies on the closed field with a heading in [0, 2π] |
| `Binding.DeadShipUnbinds` | demo.c:236-243 | a bound joystick whose ship is dead has only its bound flag cleared, and nothing is written into any ship or bullet |
| `Binding.BoundControllerSteers` | demo.c:236-267 | a bound joystick whose ship is alive copies its normalised controls into exactly that ship; nothing else changes |
| `Binding.BindPhaseBoundShipsAlive` | demo.c:233-286 | after the binding phase every bound joystick with a device drives a live ship |
| `Binding.JoystickStepInv` | demo.c:234-285 | one joystick's turn keeps the invariant |
| `Binding.BindPhaseInv` | demo.c:233-286 | the binding phase keeps the invariant and leaves the bullets alone |
| `Binding.LaterTurnsLeaveShip` | demo.c:233-286 | once a turn has left ship i alive, the later turns of the phase leave ship i and the later joysticks as they are, unless a later joystick with a device is still bound to slot i |
| `Binding.TwoControllersOneShip` | demo.c:236-279 | if joystick j claims the slot that joystick j+1 is still bound to, both end up bound to the same ship |
| `Motion.ShipPhase` | demo.c:288-331 | the ship phase leaves the joysticks alone and keeps the tables well formed |
| `Motion.ShipMotion` | demo.c:292-321 | one live ship's step keeps its liveness, steer, gas and shoot |
| `Motion.ShipFire` | demo.c:324-330 | bullet i changes exactly when ship i is alive with shoot set and the bullet is dead; the new bullet is alive, fired at `now`, at the ship's position and heading |
| `Motion.AxisStep` | demo.c:292-321 | on one axis, thrust in [0, 1] on a speed of at most 1 moves the coordinate by less than the field size; the wrap puts it back on the field; drag keeps the speed at most 1 |
| `Motion.ShipMotionX` | demo.c:292-315 | the x half of one ship step keeps the ship in [0, width] at a speed of at most 1 |
| `Motion.ShipMotionY` | demo.c:294-321 | the y half of one ship step keeps the ship in [0, height] at a speed of at most 1 |
| `Motion.ShipMotionKeepsShipOk` | demo.c:288-321 | integrating and wrapping a ship that satisfies the invariant, with any heading, gives a ship that satisfies it too |
| `Motion.ShipPhaseInv` | demo.c:288-331 | the ship phase keeps the invariant |
| `Motion.ShipPhaseFiring` | demo.c:288-331 | a dead ship is untouched; a live ship keeps its liveness, steer, gas and shoot; bullet i changes exactly when ship i is alive with shoot set and bullet i is dead; the new bullet is alive, has `when = now`, and starts at ship i's wrapped x, y, a; a live bullet is never overwritten |
| `Motion.Age` | demo.c:353 | the age `now - when` as a Uint32: the plain difference when `when <= now`, and the difference plus 2^32 otherwise |
| `Motion.BulletMotion` | demo.c:335-355 | a live bullet's step keeps its firing time and heading, and the bullet stays alive exactly when its age is at most BULLET_TIME |
| `Motion.BulletPhase` | demo.c:332-356 | the bullet phase changes only bullets |
| `Motion.FreshBulletSurvivesItsTick` | demo.c:324-355 | a bullet fired at `now` is not expired by the bullet step of the same tick |
| `Motion.BulletPhaseExpiry` | demo.c:332-356 | a dead bullet is untouched; a live bullet keeps its firing time and heading, and is alive afterwards exactly when its age is at most BULLET_TIME |
| `Motion.BulletLifetime` | demo.c:352-355 | when the clock has not wrapped, a live bullet survives a tick exactly when `now <= when + 256` |
| `Motion.BulletPhaseInv` | demo.c:335-350 | the bullet phase keeps every bullet on the field |
| `Collision.Hits` | demo.c:362-369 | an overlap lies within the radius sum on each axis |
| `Collision.HitsMatchesRoot` | demo.c:362-369 | for the non-negative root q of the squared distance, `Hits` holds exactly when q is below the sum of the radii, as the source's `sqrt` test says |
| `Collision.SquaredTestMatchesRoot` | demo.c:369 | for a non-negative root q of the squared distance, `q < r` holds exactly when `q² < r²` |
| `Collision.CollidePair` | demo.c:362-372 | one bullet-against-ship test leaves the joysticks alone and brings no ship or bullet to life |
| `Collision.CollideRow` | demo.c:361-373 | one ship's row of tests leaves the joysticks alone and brings no ship or bullet to life |
| `Collision.CollideUpTo` | demo.c:358-374 | the rows of the first k ships leave the joysticks alone and bring no ship or bullet to life |
| `Collision.CollidePhase` | demo.c:358-374 | the whole collision phase leaves the joysticks alone and brings no ship or bullet to life |
| `Collision.CollidePairFacts` | demo.c:362-372 | if bullet i is alive, is not ship j's own and overlaps ship j, both die; otherwise nothing changes; nothing but those two liveness flags can change |
| `Collision.CollideRowFacts` | demo.c:361-373 | over ship j's row, a bullet dies exactly when it was alive at the row's start, is not j's own and overlaps ship j; ship j dies exactly when such a bullet exists; nothing else changes |
| `Collision.RowHitIsClaimed` | demo.c:358-373 | when ship j's turn comes, its row meets a live overlapping bullet exactly when, at the start of the phase, some bullet overlaps ship j and no lower-numbered live ship other than its owner |
| `Collision.UpToStep` | demo.c:358-374 | one more ship's turn, skipped when that ship is dead, extends the exact outcome of the first k-1 rows to the first k |
| `Collision.CollideUpToFacts` | demo.c:358-374 | after the rows of the first k ships, a ship among them dies exactly when a bullet is spent on it, and a bullet dies exactly when it overlaps one of them, other than its owner, that was alive at the start; nothing else changes |
| `Collision.CollidePhaseFacts` | demo.c:358-374 | a bullet dies exactly when it is alive and overlaps a ship, other than its owner, that was alive at the start of the phase; a ship dies exactly when a bullet is spent on it, that is, it is the lowest-numbered such ship the bullet overlaps; only liveness changes and only to dead; afterwards no live ship overlaps a live bullet of another ship |
| `Collision.HitKillsBoth` | demo.c:369-372 | a live bullet that overlaps a live ship other than its owner, and no lower-numbered live ship other than its owner, kills that ship and is spent |
| `Collision.OwnBulletHarmless` | demo.c:367 | a live ship that no live bullet of another ship overlaps survives the phase, whatever its own bullet does |
| `Collision.DeadShipStillStopsBullets` | demo.c:361-373 | in ship j's row, two live bullets of other ships that both overlap ship j are both used up, although either one alone kills the ship |
| `Collision.CollideNeverRevives` | demo.c:358-374 | the number of live ships never increases in the collision phase |
| `Collision.CollidePhaseInv` | demo.c:358-374 | the collision phase keeps the invariant |
| `Tick.Step` | demo.c:218-375 | a whole tick keeps the tables well formed |
| `Tick.StepPreservesInv` | demo.c:233-374 | every tick keeps the invariant: all slots stay on the closed field, speeds stay at most 1, controls stay normalised, and only joysticks with a device are bound |
| `Tick.JoinFiresOnStaleShoot` | demo.c:233-331 | if joystick j claims slot i, the ship that died there still holds shoot, bullet i is free, and no later joystick with a device is bound to slot i, then after the whole binding phase the ship step of the same tick fires bullet i at `now` |
| `Tick.LiveBulletNeverReplaced` | demo.c:324-330 | a bullet that is alive at the start of a tick still has the same firing time at its end; it is never replaced by a new shot |
| `Game.Arena.constructor` | demo.c:143-158 | the start-up loops produce the initial state, and that state satisfies the invariant |
| `Game.Arena.FirstDeadShip` | demo.c:271-273 | the linear scan with `break` returns the index of the lowest dead ship, or SHIP_MAX if there is none |
| `Game.Arena.ServeJoystick` | demo.c:234-285 | one joystick's turn, done in place on the arrays, is exactly `JoystickStep` |
| `Game.Arena.BindJoysticks` | demo.c:233-286 | the joystick loop, done in place, is exactly the binding phase |
| `Game.Arena.MoveShip` | demo.c:289-330 | one ship's turn, done in place, sets ship i and bullet i to their phase-2 values and changes no other slot |
| `Game.Arena.MoveShips` | demo.c:288-331 | the ship loop, done in place, is exactly the ship phase |
| `Game.Arena.MoveBullets` | demo.c:332-356 | the bullet loop, done in place, is exactly the bullet phase |
| `Game.Arena.TestPair` | demo.c:362-372 | one bullet-against-ship test, done in place, is exactly `CollidePair` |
| `Game.Arena.CollideBullets` | demo.c:358-374 | the nested collision loops, done in place, are exactly the collision phase |
| `Game.Arena.Tick` | demo.c:218-375 | one frame of game logic equals `Step` of the old state and keeps the invariant |

## Left out

- Rendering is left out: the cairo drawing (`polygon_render`, `polygon_render_wrap`), the display matrix and the "Render Frame" block. It is output only.
- The SDL plumbing is left out, because it is I/O:
  - video and surface set-up, surface lock and flip, and frame-delay pacing;
  - the quit-key event loop and the `running` flag;
  - opening joysticks, which becomes the `devices` argument;
  - reading axes and buttons, which becomes `Input`.
- The "Out of ships." message is not modelled. The model drops the join request silently, as the game does after printing.
- `frand()` is nondeterministic. Its values come in as `Spawn`, assumed to lie in [0, 1].
- `sin`, `cos` and `pow` are not computed. Their values come in as `Heading` and `Physics`. No relation between a heading's sine, its cosine and the angle `a` is modelled.
- IEEE single-precision float rounding is not modelled; arithmetic is exact over `real`.
- `gfx/ship.c` and `gfx/bullet.c` only fill vertex tables for drawing. They are not part of this model.
- `config.h` only holds macros that `demo.c` does not include. It is not part of this model.
