/** The unit conversions of the TMCM1610 module (tmcm1610.cpp), over the reals. A setpoint is
    truncated towards zero when it is stored in the process data. */
module Units {
  const PI := 3.141592653589793

  /** Conversion of a floating-point value to an integer type. */
  function Trunc(r: real): int {
    if r >= 0.0 then r.Floor else -((-r).Floor)
  }

  function Abs(r: real): real {
    if r < 0.0 then -r else r
  }

  predicate FitsInt32(i: int) {
    -0x8000_0000 <= i < 0x8000_0000
  }

  /// Commands to setpoints

  function PositionSetpoint(command: real, encoderTicks: nat): int {
    Trunc(command * encoderTicks as real / (2.0 * PI))
  }

  function VelocitySetpoint(command: real): int {
    Trunc(command * 60.0 / (2.0 * PI))
  }

  function EffortSetpoint(command: real, torqueConstant: real): int
    requires torqueConstant != 0.0
  {
    Trunc(command / torqueConstant * 1000.0)
  }

  /// Process data to states; the factor 2 is applied in 32-bit integer arithmetic

  function PositionState(ticks: int, encoderTicks: nat): real
    requires encoderTicks != 0 && FitsInt32(ticks * 2)
  {
    (ticks * 2) as real * PI / encoderTicks as real
  }

  function VelocityState(rpm: int): real
    requires FitsInt32(rpm * 2)
  {
    (rpm * 2) as real * PI / 60.0
  }

  function EffortState(milliamps: int, torqueConstant: real): real {
    milliamps as real * torqueConstant / 1000.0
  }

  /// Truncation and scaling

  lemma TruncBounds(r: real)
    ensures Abs(Trunc(r) as real) <= Abs(r)
    ensures Abs(r - Trunc(r) as real) < 1.0
    ensures r >= 0.0 ==> Trunc(r) >= 0
    ensures r <= 0.0 ==> Trunc(r) <= 0
  {
  }

  lemma TruncMonotone(a: real, b: real)
    requires a <= b
    ensures Trunc(a) <= Trunc(b)
  {
  }

  lemma TruncOfInt(i: int)
    ensures Trunc(i as real) == i
  {
  }

  /** What reading back `r` does to the command `x` when one count is worth at most `unit`. */
  predicate Reproduces(r: real, x: real, unit: real) {
    && Abs(r) <= Abs(x)
    && (x >= 0.0 ==> r >= 0.0)
    && (x <= 0.0 ==> r <= 0.0)
    && Abs(x - r) < unit
  }

  lemma MulMonotone(a: real, b: real, k: real)
    requires a <= b && k >= 0.0
    ensures a * k <= b * k
  {
  }

  lemma DivMonotone(a: real, b: real, k: real)
    requires a <= b && k > 0.0
    ensures a / k <= b / k
  {
  }

  lemma LessByProducts(a: real, b: real, k: real, ak: real, bk: real)
    requires k > 0.0 && ak == a * k && bk == b * k
    ensures a < b <==> ak < bk
    ensures a <= b <==> ak <= bk
  {
    if a < b {
      ProductLess(a, b, k);
    } else if b < a {
      ProductLess(b, a, k);
    }
  }

  lemma ProductLess(a: real, b: real, k: real)
    requires k > 0.0 && a < b
    ensures a * k < b * k
  {
    assert (b - a) * k > 0.0;
  }

  lemma Distribute(a: real, b: real, k: real)
    ensures (a - b) * k == a * k - b * k
  {
  }

  /** Counting in units of `unit == 1 / k`, without dividing; `y` is the command in counts. */
  lemma PositiveScale(x: real, k: real, r: real, unit: real, y: real)
    requires k > 0.0 && unit * k == 1.0 && y == x * k && r * k == Trunc(y) as real
    ensures Reproduces(r, x, unit)
  {
    var t := Trunc(y) as real;
    TruncBounds(y);
    Distribute(x, r, k);
    Distribute(r, x, k);
    LessByProducts(x - r, unit, k, y - t, 1.0);
    LessByProducts(r - x, unit, k, t - y, 1.0);
    LessByProducts(0.0, x, k, 0.0, y);
    LessByProducts(x, 0.0, k, y, 0.0);
    LessByProducts(0.0, r, k, 0.0, t);
    LessByProducts(r, 0.0, k, t, 0.0);
    LessByProducts(r, x, k, t, y);
    LessByProducts(x, r, k, y, t);
  }

  lemma NegativeProducts(a: real, b: real)
    ensures (-a) * (-b) == a * b
  {
  }

  lemma AnyScale(x: real, k: real, r: real, unit: real, y: real)
    requires k != 0.0 && unit * Abs(k) == 1.0 && y == x * k && r * k == Trunc(y) as real
    ensures Reproduces(r, x, unit)
  {
    if k > 0.0 {
      PositiveScale(x, k, r, unit, y);
    } else {
      NegativeProducts(x, k);
      NegativeProducts(r, k);
      PositiveScale(-x, -k, -r, unit, y);
    }
  }

  lemma DivTimes(a: real, b: real)
    requires b != 0.0
    ensures a / b * b == a
  {
  }

  /** Position: a command read back keeps its sign, never overshoots and is off by less than
      one encoder tick; a state written back gives the same ticks; larger commands never give
      smaller setpoints. */
  lemma PositionRoundTrip(command: real, encoderTicks: nat)
    requires encoderTicks != 0 && FitsInt32(PositionSetpoint(command, encoderTicks) * 2)
    ensures Reproduces(PositionState(PositionSetpoint(command, encoderTicks), encoderTicks), command,
                       2.0 * PI / encoderTicks as real)
  {
    var k := encoderTicks as real / (2.0 * PI);
    var t := PositionSetpoint(command, encoderTicks);
    PositionScale(command, encoderTicks, k);
    PositionReadBack(t, encoderTicks, k);
    AnyScale(command, k, PositionState(t, encoderTicks), 2.0 * PI / encoderTicks as real,
             command * encoderTicks as real / (2.0 * PI));
  }

  lemma PositionScale(x: real, encoderTicks: nat, k: real)
    requires encoderTicks != 0 && k == encoderTicks as real / (2.0 * PI)
    ensures k > 0.0 && 2.0 * PI / encoderTicks as real * k == 1.0
    ensures x * encoderTicks as real / (2.0 * PI) == x * k
  {
    var e := encoderTicks as real;
    DivTimes(2.0 * PI, e);
    assert 2.0 * PI / e * k == 2.0 * PI / e * e / (2.0 * PI);
  }

  lemma PositionReadBack(ticks: int, encoderTicks: nat, k: real)
    requires encoderTicks != 0 && k == encoderTicks as real / (2.0 * PI) && FitsInt32(ticks * 2)
    ensures PositionState(ticks, encoderTicks) * k == ticks as real
  {
    var e := encoderTicks as real;
    var r := PositionState(ticks, encoderTicks);
    DivTimes((ticks * 2) as real * PI, e);
    assert r * k == r * e / (2.0 * PI);
  }

  lemma PositionWriteBack(ticks: int, encoderTicks: nat)
    requires encoderTicks != 0 && FitsInt32(ticks * 2)
    ensures PositionSetpoint(PositionState(ticks, encoderTicks), encoderTicks) == ticks
  {
    var e := encoderTicks as real;
    assert (ticks * 2) as real == 2.0 * ticks as real;
    assert 2.0 * ticks as real * PI / e * e / (2.0 * PI) == ticks as real;
    TruncOfInt(ticks);
  }

  /** Velocity: as for positions, to within one revolution per minute. */
  lemma VelocityRoundTrip(command: real)
    requires FitsInt32(VelocitySetpoint(command) * 2)
    ensures Reproduces(VelocityState(VelocitySetpoint(command)), command, 2.0 * PI / 60.0)
  {
    var k := 60.0 / (2.0 * PI);
    var t := VelocitySetpoint(command) as real;
    assert command * 60.0 / (2.0 * PI) == command * k;
    assert (VelocitySetpoint(command) * 2) as real == 2.0 * t;
    AnyScale(command, k, VelocityState(VelocitySetpoint(command)), 2.0 * PI / 60.0,
             command * 60.0 / (2.0 * PI));
  }

  lemma VelocityWriteBack(rpm: int)
    requires FitsInt32(rpm * 2)
    ensures VelocitySetpoint(VelocityState(rpm)) == rpm
  {
    assert (rpm * 2) as real == 2.0 * rpm as real;
    TruncOfInt(rpm);
  }

  lemma SignOfQuotient(a: real, b: real)
    requires a > 0.0 && b > 0.0
    ensures a / b > 0.0 && a / -b < 0.0
  {
  }

  lemma EffortFactor(x: real, c: real, k: real)
    requires c != 0.0 && k * c == 1000.0
    ensures x / c * 1000.0 == x * k
    ensures x * c / 1000.0 * k == x
  {
    DivTimes(x, c);
    assert x / c * (k * c) == x / c * c * k;
    assert x * c * k == x * (k * c);
  }

  /** Effort: as for positions, to within one milliampere of torque. */
  lemma EffortRoundTrip(command: real, torqueConstant: real)
    requires torqueConstant != 0.0 && FitsInt32(EffortSetpoint(command, torqueConstant))
    ensures Reproduces(EffortState(EffortSetpoint(command, torqueConstant), torqueConstant), command,
                       Abs(torqueConstant) / 1000.0)
  {
    var c := torqueConstant;
    var k := 1000.0 / c;
    var t := EffortSetpoint(command, c) as real;
    DivTimes(1000.0, c);
    DivTimes(command, c);
    EffortFactor(command, c, k);
    EffortFactor(t, c, k);
    if c > 0.0 { SignOfQuotient(1000.0, c); } else { SignOfQuotient(1000.0, -c); NegativeProducts(k, c); }
    AnyScale(command, k, EffortState(EffortSetpoint(command, c), c), Abs(c) / 1000.0,
             command / c * 1000.0);
  }

  lemma EffortWriteBack(milliamps: int, torqueConstant: real)
    requires torqueConstant != 0.0
    ensures EffortSetpoint(EffortState(milliamps, torqueConstant), torqueConstant) == milliamps
  {
    assert milliamps as real * torqueConstant / 1000.0 / torqueConstant * 1000.0 == milliamps as real;
    TruncOfInt(milliamps);
  }

  /// Absolute scale

  /** One turn of the motor is the encoder's resolution, or one per minute. */
  lemma OneTurn(encoderTicks: nat)
    requires encoderTicks != 0 && FitsInt32(encoderTicks * 2)
    ensures PositionSetpoint(6.283185307179586, encoderTicks) == encoderTicks
    ensures PositionState(encoderTicks, encoderTicks) == 6.283185307179586
    ensures VelocitySetpoint(6.283185307179586 / 60.0) == 1
    ensures VelocityState(60) == 6.283185307179586
  {
    var e := encoderTicks as real;
    assert 2.0 * PI == 6.283185307179586;
    assert 6.283185307179586 * e / (2.0 * PI) == e;
    TruncOfInt(encoderTicks);
    assert PositionState(encoderTicks, encoderTicks) == 2.0 * e * PI / e == 2.0 * PI;
  }

  /** One ampere is a thousand counts and gives the torque constant. */
  lemma OneAmpere(torqueConstant: real)
    requires torqueConstant != 0.0
    ensures EffortSetpoint(torqueConstant, torqueConstant) == 1000
    ensures EffortState(1000, torqueConstant) == torqueConstant
  {
    assert torqueConstant / torqueConstant == 1.0;
    TruncOfInt(1000);
  }

  /// Monotonicity

  lemma ScaleMonotone(a: real, b: real, k: real, m: real)
    requires a <= b && k >= 0.0 && m > 0.0
    ensures a * k / m <= b * k / m
  {
    MulMonotone(a, b, k);
    DivMonotone(a * k, b * k, m);
  }

  /** Larger commands never give smaller setpoints. */
  lemma PositionSetpointIsMonotone(a: real, b: real, encoderTicks: nat)
    requires a <= b
    ensures PositionSetpoint(a, encoderTicks) <= PositionSetpoint(b, encoderTicks)
  {
    var e := encoderTicks as real;
    ScaleMonotone(a, b, e, 2.0 * PI);
    TruncMonotone(a * e / (2.0 * PI), b * e / (2.0 * PI));
  }

  lemma VelocitySetpointIsMonotone(a: real, b: real)
    requires a <= b
    ensures VelocitySetpoint(a) <= VelocitySetpoint(b)
  {
    ScaleMonotone(a, b, 60.0, 2.0 * PI);
    TruncMonotone(a * 60.0 / (2.0 * PI), b * 60.0 / (2.0 * PI));
  }

  lemma DivAntitone(a: real, b: real, k: real)
    requires a <= b && k < 0.0
    ensures b / k <= a / k
  {
    assert b / k == -b / -k && a / k == -a / -k;
    DivMonotone(-b, -a, -k);
  }

  /** For a positive torque constant larger commands never give smaller setpoints, for a negative
      one never larger ones. */
  lemma EffortSetpointIsMonotone(a: real, b: real, torqueConstant: real)
    requires a <= b && torqueConstant != 0.0
    ensures torqueConstant > 0.0 ==> EffortSetpoint(a, torqueConstant) <= EffortSetpoint(b, torqueConstant)
    ensures torqueConstant < 0.0 ==> EffortSetpoint(b, torqueConstant) <= EffortSetpoint(a, torqueConstant)
  {
    if torqueConstant > 0.0 {
      DivMonotone(a, b, torqueConstant);
      TruncMonotone(a / torqueConstant * 1000.0, b / torqueConstant * 1000.0);
    } else {
      DivAntitone(a, b, torqueConstant);
      TruncMonotone(b / torqueConstant * 1000.0, a / torqueConstant * 1000.0);
    }
  }

  /** What is read back of larger commands is never smaller, in any unit. */
  lemma PositionReadBackIsMonotone(a: real, b: real, encoderTicks: nat)
    requires a <= b && encoderTicks != 0
    requires FitsInt32(PositionSetpoint(a, encoderTicks) * 2) && FitsInt32(PositionSetpoint(b, encoderTicks) * 2)
    ensures PositionState(PositionSetpoint(a, encoderTicks), encoderTicks)
         <= PositionState(PositionSetpoint(b, encoderTicks), encoderTicks)
  {
    var s, t := PositionSetpoint(a, encoderTicks), PositionSetpoint(b, encoderTicks);
    PositionSetpointIsMonotone(a, b, encoderTicks);
    ScaleMonotone((s * 2) as real, (t * 2) as real, PI, encoderTicks as real);
  }

  lemma VelocityReadBackIsMonotone(a: real, b: real)
    requires a <= b && FitsInt32(VelocitySetpoint(a) * 2) && FitsInt32(VelocitySetpoint(b) * 2)
    ensures VelocityState(VelocitySetpoint(a)) <= VelocityState(VelocitySetpoint(b))
  {
    VelocitySetpointIsMonotone(a, b);
    ScaleMonotone((VelocitySetpoint(a) * 2) as real, (VelocitySetpoint(b) * 2) as real, PI, 60.0);
  }

  lemma EffortReadBackIsMonotone(a: real, b: real, torqueConstant: real)
    requires a <= b && torqueConstant != 0.0
    requires FitsInt32(EffortSetpoint(a, torqueConstant)) && FitsInt32(EffortSetpoint(b, torqueConstant))
    ensures EffortState(EffortSetpoint(a, torqueConstant), torqueConstant)
         <= EffortState(EffortSetpoint(b, torqueConstant), torqueConstant)
  {
    var s, t := EffortSetpoint(a, torqueConstant) as real, EffortSetpoint(b, torqueConstant) as real;
    EffortSetpointIsMonotone(a, b, torqueConstant);
    if torqueConstant > 0.0 {
      ScaleMonotone(s, t, torqueConstant, 1000.0);
    } else {
      ScaleMonotone(t, s, -torqueConstant, 1000.0);
    }
  }
}
