/** Turning raw controller readings into the ship's control values. */
module Controls {
  import opened Entities

  /** A ship's control values. */
  datatype Command = Command(steer: real, gas: real, shoot: int)

  /** The normalisation step: steer saturates at both ends, gas and shoot only
      at the top. */
  function Normalize(steer: real, gas: real, shoot: int): (c: Command)
    ensures -1.0 <= c.steer <= 1.0 && c.gas <= 1.0 && c.shoot <= 1
    ensures -1.0 <= steer <= 1.0 ==> c.steer == steer
    ensures steer < -1.0 ==> c.steer == -1.0
    ensures steer > 1.0 ==> c.steer == 1.0
    ensures gas <= 1.0 ==> c.gas == gas
    ensures gas > 1.0 ==> c.gas == 1.0
    ensures shoot <= 1 ==> c.shoot == shoot
    ensures shoot > 1 ==> c.shoot == 1
  {
    var s1 := if steer < -1.0 then -1.0 else steer;
    var s2 := if s1 > 1.0 then 1.0 else s1;
    var g := if gas > 1.0 then 1.0 else gas;
    var sh := if shoot > 1 then 1 else shoot;
    Command(s2, g, sh)
  }

  /** Controls read from one controller: steer is minus axis 0, gas maps
      axis 4 from [-1, 1] onto [0, 1], shoot is button 0, then normalised. */
  function ReadControls(inp: Input): (c: Command)
    ensures -1.0 <= c.steer <= 1.0
    ensures 0.0 <= c.gas <= 1.0
    ensures c.shoot == 0 || c.shoot == 1
    ensures c.shoot == 1 <==> inp.button0 != 0
    // the clamps never change a value that comes from a 16-bit axis
    ensures c.steer * 32768.0 == -(inp.axis0 as real)
    ensures c.gas * 65536.0 == inp.axis4 as real + 32768.0
  {
    var steer := 0.0 - inp.axis0 as real / 32768.0;
    var gas := 0.0 + (inp.axis4 as real / 32768.0 + 1.0) / 2.0;
    var shoot := 0 + inp.button0;
    Normalize(steer, gas, shoot)
  }
}
