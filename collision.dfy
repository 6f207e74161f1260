/** Phase 4 of a tick: for every live ship j, in index order, every bullet i
    of another ship that is still alive and lies within the sum of the radii
    kills the ship and itself. Distances are plain Euclidean ones, not
    wrap-aware. */
module Collision {
  import opened Config
  import opened Entities
  import opened Arith

  /** The overlap test, on squared lengths: the source compares
      sqrt(dx*dx + dy*dy) with the sum of the radii (see SquaredTestMatchesRoot). */
  function Hits(b: Bullet, s: Ship): (r: bool)
    // a hit lies within the square of half-side the radius sum
    ensures r ==> -(BULLET_RADIUS + SHIP_RADIUS) < b.x - s.x < BULLET_RADIUS + SHIP_RADIUS
    ensures r ==> -(BULLET_RADIUS + SHIP_RADIUS) < b.y - s.y < BULLET_RADIUS + SHIP_RADIUS
  {
    var x := b.x - s.x;
    var y := b.y - s.y;
    NonNegativeSquare(x);
    NonNegativeSquare(y);
    SquareBelow(x, BULLET_RADIUS + SHIP_RADIUS, y * y);
    SquareBelow(y, BULLET_RADIUS + SHIP_RADIUS, x * x);
    x * x + y * y < (BULLET_RADIUS + SHIP_RADIUS) * (BULLET_RADIUS + SHIP_RADIUS)
  }

  /** A square below r*r, even after adding a non-negative e, puts x inside
      (-r, r). */
  lemma SquareBelow(x: real, r: real, e: real)
    requires 0.0 < r && 0.0 <= e
    ensures x * x + e < r * r ==> -r < x < r
  {
    if x * x + e < r * r {
      if x >= r {
        NonNegativeProduct(x - r, x + r);
      } else if x <= -r {
        NonNegativeProduct(r - x, -r - x);
      }
    }
  }

  /** For a non-negative square root q of the squared distance d, the source's
      test q < r and the squared test d < r*r agree. */
  lemma SquaredTestMatchesRoot(q: real, d: real, r: real)
    requires 0.0 <= q && q * q == d && 0.0 < r
    ensures q < r <==> d < r * r
  {
    assert r * r - q * q == (r - q) * (r + q);
    if q < r {
      PositiveProduct(r - q, r + q);
    } else {
      NonNegativeProduct(q - r, r + q);
    }
  }

  /** The model's overlap test is the source's: for the non-negative square
      root q of the squared distance, Hits holds exactly when q is below the
      sum of the radii. */
  lemma HitsMatchesRoot(b: Bullet, s: Ship, q: real)
    requires 0.0 <= q && q * q == (b.x - s.x) * (b.x - s.x) + (b.y - s.y) * (b.y - s.y)
    ensures Hits(b, s) <==> q < BULLET_RADIUS + SHIP_RADIUS
  {
    SquaredTestMatchesRoot(q, q * q, BULLET_RADIUS + SHIP_RADIUS);
  }

  /** The test of bullet i against ship j. */
  function CollidePair(w: World, j: nat, i: nat): (r: World)
    requires WellFormed(w) && j < SHIP_MAX && i < SHIP_MAX
    ensures WellFormed(r) && r.joysticks == w.joysticks
    ensures forall s :: 0 <= s < SHIP_MAX && r.ships[s].isAlive ==> w.ships[s].isAlive
    ensures forall b :: 0 <= b < SHIP_MAX && r.bullets[b].isAlive ==> w.bullets[b].isAlive
  {
    if !w.bullets[i].isAlive then w
    else if i == j then w
    else if Hits(w.bullets[i], w.ships[j]) then
      w.(bullets := w.bullets[i := w.bullets[i].(isAlive := false)],
         ships := w.ships[j := w.ships[j].(isAlive := false)])
    else w
  }

  /** Ship j checked against bullets 0 .. k-1. The row does not look at ship
      j's liveness again once it has started. */
  function CollideRow(w: World, j: nat, k: nat): (r: World)
    requires WellFormed(w) && j < SHIP_MAX && k <= SHIP_MAX
    ensures WellFormed(r) && r.joysticks == w.joysticks
    ensures forall s :: 0 <= s < SHIP_MAX && r.ships[s].isAlive ==> w.ships[s].isAlive
    ensures forall b :: 0 <= b < SHIP_MAX && r.bullets[b].isAlive ==> w.bullets[b].isAlive
  {
    if k == 0 then w else CollidePair(CollideRow(w, j, k - 1), j, k - 1)
  }

  /** Ships 0 .. k-1 checked in turn; a ship dead when its turn comes is
      skipped. */
  function CollideUpTo(w: World, k: nat): (r: World)
    requires WellFormed(w) && k <= SHIP_MAX
    ensures WellFormed(r) && r.joysticks == w.joysticks
    ensures forall s :: 0 <= s < SHIP_MAX && r.ships[s].isAlive ==> w.ships[s].isAlive
    ensures forall b :: 0 <= b < SHIP_MAX && r.bullets[b].isAlive ==> w.bullets[b].isAlive
  {
    if k == 0 then w
    else
      var v := CollideUpTo(w, k - 1);
      if !v.ships[k - 1].isAlive then v else CollideRow(v, k - 1, SHIP_MAX)
  }

  /** The collision phase: every ship's row, in index order. It only ever
      kills: no ship or bullet comes alive, and the controllers are
      untouched. */
  function CollidePhase(w: World): (r: World)
    requires WellFormed(w)
    ensures WellFormed(r) && r.joysticks == w.joysticks
    ensures forall s :: 0 <= s < SHIP_MAX && r.ships[s].isAlive ==> w.ships[s].isAlive
    ensures forall b :: 0 <= b < SHIP_MAX && r.bullets[b].isAlive ==> w.bullets[b].isAlive
  {
    CollideUpTo(w, SHIP_MAX)
  }

  /** v is w with some live ships and bullets marked dead and nothing else
      changed. */
  predicate OnlyKills(v: World, w: World)
    requires WellFormed(v) && WellFormed(w)
  {
    v.joysticks == w.joysticks &&
    (forall i :: 0 <= i < SHIP_MAX ==>
       v.ships[i] == w.ships[i] || (w.ships[i].isAlive && v.ships[i] == w.ships[i].(isAlive := false))) &&
    (forall i :: 0 <= i < SHIP_MAX ==>
       v.bullets[i] == w.bullets[i] || (w.bullets[i].isAlive && v.bullets[i] == w.bullets[i].(isAlive := false)))
  }

  /** After the tests, no live ship among 0 .. k-1 overlaps a live bullet of
      another ship. */
  predicate RowsResolved(w: World, k: nat)
    requires WellFormed(w) && k <= SHIP_MAX
  {
    forall j, i :: 0 <= j < k && 0 <= i < SHIP_MAX && i != j && w.ships[j].isAlive && w.bullets[i].isAlive ==>
      !Hits(w.bullets[i], w.ships[j])
  }

  /** Ship j's row, over bullets 0 .. k-1, meets a live bullet of another
      ship that overlaps it. */
  predicate RowHit(w: World, j: nat, k: nat)
    requires WellFormed(w) && j < SHIP_MAX && k <= SHIP_MAX
  {
    exists i :: 0 <= i < k && i != j && w.bullets[i].isAlive && Hits(w.bullets[i], w.ships[j])
  }

  /** What ship j's row over bullets 0 .. k-1 does to w: each of those bullets
      that is alive, is not j's own and overlaps ship j dies; ship j dies if
      there is one such bullet, whether or not it was still alive; nothing
      else changes. */
  predicate RowOutcome(r: World, w: World, j: nat, k: nat)
    requires WellFormed(r) && WellFormed(w) && j < SHIP_MAX && k <= SHIP_MAX
  {
    r.joysticks == w.joysticks &&
    (forall s :: 0 <= s < SHIP_MAX && s != j ==> r.ships[s] == w.ships[s]) &&
    r.ships[j] == w.ships[j].(isAlive := w.ships[j].isAlive && !RowHit(w, j, k)) &&
    (forall i :: 0 <= i < SHIP_MAX ==>
       r.bullets[i] == w.bullets[i].(isAlive := w.bullets[i].isAlive && !(i < k && i != j && Hits(w.bullets[i], w.ships[j]))))
  }

  /** Live bullet i overlaps a ship among 0 .. k-1, other than its own, that
      was alive in w. */
  predicate BulletHitsBelow(w: World, i: nat, k: nat)
    requires WellFormed(w) && i < SHIP_MAX && k <= SHIP_MAX
  {
    exists j :: 0 <= j < k && j != i && w.ships[j].isAlive && Hits(w.bullets[i], w.ships[j])
  }

  /** Bullet i is spent on ship j: both are alive, j is not i's owner, and j
      is the lowest-numbered such live ship the bullet overlaps. */
  predicate Claims(w: World, i: nat, j: nat)
    requires WellFormed(w) && i < SHIP_MAX && j < SHIP_MAX
  {
    i != j && w.bullets[i].isAlive && w.ships[j].isAlive && Hits(w.bullets[i], w.ships[j]) &&
    !BulletHitsBelow(w, i, j)
  }

  /** Some bullet is spent on ship j. */
  predicate Claimed(w: World, j: nat)
    requires WellFormed(w) && j < SHIP_MAX
  {
    exists i :: 0 <= i < SHIP_MAX && Claims(w, i, j)
  }

  /** What the rows of ships 0 .. k-1 do to w: a ship among them dies exactly
      when a bullet is spent on it, a bullet dies exactly when it overlaps
      one of them that was alive and is not its owner, and nothing else
      changes. */
  predicate UpToOutcome(r: World, w: World, k: nat)
    requires WellFormed(r) && WellFormed(w) && k <= SHIP_MAX
  {
    r.joysticks == w.joysticks &&
    (forall s :: 0 <= s < SHIP_MAX ==>
       r.ships[s] == w.ships[s].(isAlive := w.ships[s].isAlive && !(s < k && Claimed(w, s)))) &&
    (forall i :: 0 <= i < SHIP_MAX ==>
       r.bullets[i] == w.bullets[i].(isAlive := w.bullets[i].isAlive && !BulletHitsBelow(w, i, k)))
  }

  /** One pair test: a live bullet of another ship that overlaps ship j kills
      both; otherwise nothing changes. Only those two slots, and only their
      liveness, can change. */
  lemma CollidePairFacts(w: World, j: nat, i: nat)
    requires WellFormed(w) && j < SHIP_MAX && i < SHIP_MAX
    ensures var r := CollidePair(w, j, i);
      (w.bullets[i].isAlive && i != j && Hits(w.bullets[i], w.ships[j]) ==>
         !r.bullets[i].isAlive && !r.ships[j].isAlive) &&
      (!(w.bullets[i].isAlive && i != j && Hits(w.bullets[i], w.ships[j])) ==> r == w)
    ensures var r := CollidePair(w, j, i);
      r.joysticks == w.joysticks &&
      (forall s :: 0 <= s < SHIP_MAX && s != j ==> r.ships[s] == w.ships[s]) &&
      (forall b :: 0 <= b < SHIP_MAX && b != i ==> r.bullets[b] == w.bullets[b]) &&
      r.ships[j] == w.ships[j].(isAlive := r.ships[j].isAlive) &&
      r.bullets[i] == w.bullets[i].(isAlive := r.bullets[i].isAlive)
  {
  }

  lemma RowHitStep(w: World, j: nat, k: nat)
    requires WellFormed(w) && j < SHIP_MAX && 0 < k <= SHIP_MAX
    ensures RowHit(w, j, k) <==>
      RowHit(w, j, k - 1) || (k - 1 != j && w.bullets[k - 1].isAlive && Hits(w.bullets[k - 1], w.ships[j]))
  {
    if RowHit(w, j, k) && !(k - 1 != j && w.bullets[k - 1].isAlive && Hits(w.bullets[k - 1], w.ships[j])) {
      var i :| 0 <= i < k && i != j && w.bullets[i].isAlive && Hits(w.bullets[i], w.ships[j]);
      assert i < k - 1;
    }
  }

  /** Ship j's row over bullets 0 .. k-1: a bullet dies exactly when it is
      alive, not j's own and overlaps ship j; ship j dies exactly when there
      is such a bullet; nothing else changes. */
  lemma {:induction false} CollideRowFacts(w: World, j: nat, k: nat)
    requires WellFormed(w) && j < SHIP_MAX && k <= SHIP_MAX
    ensures RowOutcome(CollideRow(w, j, k), w, j, k)
  {
    if k > 0 {
      CollideRowFacts(w, j, k - 1);
      var v := CollideRow(w, j, k - 1);
      var r := CollidePair(v, j, k - 1);
      CollidePairFacts(v, j, k - 1);
      RowHitStep(w, j, k);
      assert v.bullets[k - 1] == w.bullets[k - 1];
      SamePositionSameHit(v.bullets[k - 1], v.ships[j], w.bullets[k - 1], w.ships[j]);
    }
  }

  lemma BulletHitsBelowStep(w: World, i: nat, k: nat)
    requires WellFormed(w) && i < SHIP_MAX && 0 < k <= SHIP_MAX
    ensures BulletHitsBelow(w, i, k) <==>
      BulletHitsBelow(w, i, k - 1) || (k - 1 != i && w.ships[k - 1].isAlive && Hits(w.bullets[i], w.ships[k - 1]))
  {
    if BulletHitsBelow(w, i, k) && !(k - 1 != i && w.ships[k - 1].isAlive && Hits(w.bullets[i], w.ships[k - 1])) {
      var j :| 0 <= j < k && j != i && w.ships[j].isAlive && Hits(w.bullets[i], w.ships[j]);
      assert j < k - 1;
    }
  }

  /** When ship j's turn comes after rows 0 .. j-1, its row meets a live
      overlapping bullet exactly when a bullet is spent on it. */
  lemma RowHitIsClaimed(v: World, w: World, j: nat)
    requires WellFormed(v) && WellFormed(w) && j < SHIP_MAX
    requires UpToOutcome(v, w, j) && w.ships[j].isAlive
    ensures RowHit(v, j, SHIP_MAX) <==> Claimed(w, j)
  {
    assert v.ships[j] == w.ships[j];
    if RowHit(v, j, SHIP_MAX) {
      var i :| 0 <= i < SHIP_MAX && i != j && v.bullets[i].isAlive && Hits(v.bullets[i], v.ships[j]);
      assert v.bullets[i] == w.bullets[i].(isAlive := w.bullets[i].isAlive && !BulletHitsBelow(w, i, j));
      assert Claims(w, i, j);
    }
    if Claimed(w, j) {
      var i :| 0 <= i < SHIP_MAX && Claims(w, i, j);
      assert v.bullets[i] == w.bullets[i].(isAlive := w.bullets[i].isAlive && !BulletHitsBelow(w, i, j));
      assert v.bullets[i].isAlive && Hits(v.bullets[i], v.ships[j]);
    }
  }

  /** Ship k-1's turn, after the rows of ships 0 .. k-2 have had w's
      outcome: the rows of ships 0 .. k-1 have had theirs. */
  lemma UpToStep(v: World, w: World, k: nat)
    requires WellFormed(v) && WellFormed(w) && 0 < k <= SHIP_MAX
    requires UpToOutcome(v, w, k - 1)
    ensures UpToOutcome(if !v.ships[k - 1].isAlive then v else CollideRow(v, k - 1, SHIP_MAX), w, k)
  {
    assert v.ships[k - 1] == w.ships[k - 1];
    forall i | 0 <= i < SHIP_MAX
      ensures BulletHitsBelow(w, i, k) <==>
        BulletHitsBelow(w, i, k - 1) || (k - 1 != i && w.ships[k - 1].isAlive && Hits(w.bullets[i], w.ships[k - 1]))
    {
      BulletHitsBelowStep(w, i, k);
    }
    if w.ships[k - 1].isAlive {
      UpToStepLive(v, w, k);
    } else {
      assert !Claimed(w, k - 1);
    }
  }

  lemma UpToStepLive(v: World, w: World, k: nat)
    requires WellFormed(v) && WellFormed(w) && 0 < k <= SHIP_MAX
    requires UpToOutcome(v, w, k - 1) && w.ships[k - 1].isAlive
    requires forall i :: 0 <= i < SHIP_MAX ==>
      (BulletHitsBelow(w, i, k) <==> BulletHitsBelow(w, i, k - 1) || (k - 1 != i && Hits(w.bullets[i], w.ships[k - 1])))
    ensures UpToOutcome(CollideRow(v, k - 1, SHIP_MAX), w, k)
  {
    var r := CollideRow(v, k - 1, SHIP_MAX);
    CollideRowFacts(v, k - 1, SHIP_MAX);
    RowHitIsClaimed(v, w, k - 1);
    UpToShipsLive(r, v, w, k);
    UpToBulletsLive(r, v, w, k);
  }

  lemma UpToShipsLive(r: World, v: World, w: World, k: nat)
    requires WellFormed(r) && WellFormed(v) && WellFormed(w) && 0 < k <= SHIP_MAX
    requires UpToOutcome(v, w, k - 1) && w.ships[k - 1].isAlive
    requires RowOutcome(r, v, k - 1, SHIP_MAX)
    requires RowHit(v, k - 1, SHIP_MAX) <==> Claimed(w, k - 1)
    ensures forall s :: 0 <= s < SHIP_MAX ==>
      r.ships[s] == w.ships[s].(isAlive := w.ships[s].isAlive && !(s < k && Claimed(w, s)))
  {
    forall s | 0 <= s < SHIP_MAX
      ensures r.ships[s] == w.ships[s].(isAlive := w.ships[s].isAlive && !(s < k && Claimed(w, s)))
    {
      if s != k - 1 {
        assert r.ships[s] == v.ships[s];
      } else {
        assert v.ships[s] == w.ships[s];
      }
    }
  }

  lemma UpToBulletsLive(r: World, v: World, w: World, k: nat)
    requires WellFormed(r) && WellFormed(v) && WellFormed(w) && 0 < k <= SHIP_MAX
    requires UpToOutcome(v, w, k - 1) && w.ships[k - 1].isAlive
    requires RowOutcome(r, v, k - 1, SHIP_MAX)
    requires forall i :: 0 <= i < SHIP_MAX ==>
      (BulletHitsBelow(w, i, k) <==> BulletHitsBelow(w, i, k - 1) || (k - 1 != i && Hits(w.bullets[i], w.ships[k - 1])))
    ensures forall i :: 0 <= i < SHIP_MAX ==>
      r.bullets[i] == w.bullets[i].(isAlive := w.bullets[i].isAlive && !BulletHitsBelow(w, i, k))
  {
    assert v.ships[k - 1] == w.ships[k - 1];
    forall i | 0 <= i < SHIP_MAX
      ensures r.bullets[i] == w.bullets[i].(isAlive := w.bullets[i].isAlive && !BulletHitsBelow(w, i, k))
    {
      var below := BulletHitsBelow(w, i, k - 1);
      var here := k - 1 != i && Hits(w.bullets[i], w.ships[k - 1]);
      assert v.bullets[i] == w.bullets[i].(isAlive := w.bullets[i].isAlive && !below);
      SamePositionSameHit(v.bullets[i], v.ships[k - 1], w.bullets[i], w.ships[k - 1]);
      assert r.bullets[i] == v.bullets[i].(isAlive := v.bullets[i].isAlive && !here);
    }
  }

  lemma SamePositionSameHit(b: Bullet, s: Ship, b': Bullet, s': Ship)
    requires b.x == b'.x && b.y == b'.y && s.x == s'.x && s.y == s'.y
    ensures Hits(b, s) == Hits(b', s')
  {
  }

  /** The rows of ships 0 .. k-1: a ship among them dies exactly when a
      bullet is spent on it, and a bullet dies exactly when it overlaps one of
      them, other than its owner, that was alive at the start. */
  lemma {:induction false} CollideUpToFacts(w: World, k: nat)
    requires WellFormed(w) && k <= SHIP_MAX
    ensures UpToOutcome(CollideUpTo(w, k), w, k)
  {
    if k > 0 {
      CollideUpToFacts(w, k - 1);
      UpToStep(CollideUpTo(w, k - 1), w, k);
    }
  }

  /** What the collision phase does. A bullet dies exactly when it is alive
      and overlaps a live ship other than its owner; it is spent on the
      lowest-numbered such ship, and a ship dies exactly when a bullet is
      spent on it. Only liveness changes, and only from alive to dead.
      Afterwards no live ship overlaps a live bullet of another ship. */
  lemma CollidePhaseFacts(w: World)
    requires WellFormed(w)
    ensures var r := CollidePhase(w);
      (forall i :: 0 <= i < SHIP_MAX ==>
         (r.bullets[i].isAlive <==> w.bullets[i].isAlive && !BulletHitsBelow(w, i, SHIP_MAX))) &&
      (forall j :: 0 <= j < SHIP_MAX ==> (r.ships[j].isAlive <==> w.ships[j].isAlive && !Claimed(w, j)))
    ensures OnlyKills(CollidePhase(w), w) && RowsResolved(CollidePhase(w), SHIP_MAX)
  {
    CollideUpToFacts(w, SHIP_MAX);
    var r := CollidePhase(w);
    forall j, i | 0 <= j < SHIP_MAX && 0 <= i < SHIP_MAX && i != j && r.ships[j].isAlive && r.bullets[i].isAlive
      ensures !Hits(r.bullets[i], r.ships[j])
    {
      assert r.ships[j] == w.ships[j];
      assert r.bullets[i] == w.bullets[i];
      assert !BulletHitsBelow(w, i, SHIP_MAX);
    }
  }

  /** On a hit both die: a live bullet of another ship that overlaps a live
      ship, and overlaps no lower-numbered live ship other than its owner,
      kills that ship and is spent. */
  lemma HitKillsBoth(w: World, i: nat, j: nat)
    requires WellFormed(w) && i < SHIP_MAX && j < SHIP_MAX
    requires i != j && w.bullets[i].isAlive && w.ships[j].isAlive && Hits(w.bullets[i], w.ships[j])
    requires forall s :: 0 <= s < j && s != i && w.ships[s].isAlive ==> !Hits(w.bullets[i], w.ships[s])
    ensures !CollidePhase(w).bullets[i].isAlive && !CollidePhase(w).ships[j].isAlive
  {
    CollidePhaseFacts(w);
    assert Claims(w, i, j);
  }

  /** A ship's own bullet never kills it: a ship whose only overlapping live
      bullet is its own survives the phase. */
  lemma OwnBulletHarmless(w: World, j: nat)
    requires WellFormed(w) && j < SHIP_MAX && w.ships[j].isAlive
    requires forall i :: 0 <= i < SHIP_MAX && i != j && w.bullets[i].isAlive ==> !Hits(w.bullets[i], w.ships[j])
    ensures CollidePhase(w).ships[j].isAlive
  {
    CollidePhaseFacts(w);
  }

  /** Within its row a ship keeps stopping bullets after it has died: two
      bullets of other ships that both overlap ship j are both spent, although
      either one alone kills the ship. */
  lemma DeadShipStillStopsBullets(w: World, j: nat, i1: nat, i2: nat)
    requires WellFormed(w) && j < SHIP_MAX && i1 < SHIP_MAX && i2 < SHIP_MAX
    requires i1 != j && i2 != j && i1 != i2
    requires w.bullets[i1].isAlive && w.bullets[i2].isAlive
    requires Hits(w.bullets[i1], w.ships[j]) && Hits(w.bullets[i2], w.ships[j])
    ensures var r := CollideRow(w, j, SHIP_MAX);
      !r.ships[j].isAlive && !r.bullets[i1].isAlive && !r.bullets[i2].isAlive
  {
    CollideRowFacts(w, j, SHIP_MAX);
  }

  /** Number of live ships in a table. */
  function CountAlive(ss: seq<Ship>): (n: nat)
    ensures n <= |ss|
  {
    if ss == [] then 0 else (if ss[0].isAlive then 1 else 0) + CountAlive(ss[1..])
  }

  lemma {:induction false} CountAliveMonotone(a: seq<Ship>, b: seq<Ship>)
    requires |a| == |b|
    requires forall i :: 0 <= i < |a| && a[i].isAlive ==> b[i].isAlive
    ensures CountAlive(a) <= CountAlive(b)
  {
    if a != [] {
      CountAliveMonotone(a[1..], b[1..]);
    }
  }

  /** The collision phase never raises the number of live ships. */
  lemma CollideNeverRevives(w: World)
    requires WellFormed(w)
    ensures CountAlive(CollidePhase(w).ships) <= CountAlive(w.ships)
  {
    CollidePhaseFacts(w);
    CountAliveMonotone(CollidePhase(w).ships, w.ships);
  }

  /** The collision phase keeps the invariant: it changes only liveness. */
  lemma CollidePhaseInv(w: World, p: Physics)
    requires Inv(w, p)
    ensures Inv(CollidePhase(w), p)
  {
    CollidePhaseFacts(w);
    var r := CollidePhase(w);
    forall i | 0 <= i < SHIP_MAX ensures ShipOk(r.ships[i], p) && OnField(r.bullets[i].x, r.bullets[i].y, p) {
    }
  }
}
