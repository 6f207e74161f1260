/** The wrap-around playfield: a coordinate that left the interval [0, w]
    is brought back by one conditional add or subtract of w. */
module Torus {

  /** The two sequential tests of the wrap, in the order the game applies them:
      first `c < 0` adds w, then `c > w` subtracts w. */
  function Wrap(c: real, w: real): (r: real)
    // at most one adjustment by the playfield size
    ensures r == c || r == c + w || r == c - w
    // a coordinate already on the field, both edges included, is left alone
    ensures 0.0 <= c <= w ==> r == c
    // one step of at most one field size away from the field comes back onto it
    ensures 0.0 < w && -w <= c <= 2.0 * w ==> 0.0 <= r <= w
  {
    var c1 := if c < 0.0 then c + w else c;
    if c1 > w then c1 - w else c1
  }

  /** The field is closed at its upper edge: a coordinate equal to the field
      size is not wrapped to zero. */
  lemma WrapKeepsUpperEdge(w: real)
    requires 0.0 < w
    ensures Wrap(w, w) == w && Wrap(0.0, w) == 0.0
  {
  }

  /** A coordinate more than one field size below zero is not brought back:
      a single wrap is only enough for bounded steps. */
  lemma WrapNeedsBoundedStep(c: real, w: real)
    requires 0.0 < w && c < -w
    ensures Wrap(c, w) < 0.0
  {
  }
}
