/** Angle normalisation: the robot's two implementations, and why they agree. */
module Angles {

  /** The single-precision constant, exactly. */
  const PI: real := 13176795.0 / 4194304.0
  const TWO_PI: real := 2.0 * PI

  /** Equal up to whole turns. */
  ghost predicate Congruent(a: real, b: real) {
    exists k: int :: Turned(a, b, k)
  }

  ghost predicate Turned(a: real, b: real, k: int) {
    a == b + k as real * TWO_PI
  }

  lemma CongruentShift(a: real, b: real, d: real)
    requires Congruent(a, b)
    ensures Congruent(a + d, b + d)
  {
    var k :| Turned(a, b, k);
    assert Turned(a + d, b + d, k);
  }

  lemma CongruentTransitive(a: real, b: real, c: real)
    requires Congruent(a, b) && Congruent(b, c)
    ensures Congruent(a, c)
  {
    var j :| Turned(a, b, j);
    var k :| Turned(b, c, k);
    assert (j + k) as real * TWO_PI == j as real * TWO_PI + k as real * TWO_PI;
    assert Turned(a, c, j + k);
  }

  /** `r` is `angle` brought into [-PI, PI]; the two ends of the range keep the sign of the angle. */
  ghost predicate Normalized(angle: real, r: real) {
    && Congruent(r, angle)
    && -PI <= r <= PI
    && (r == PI ==> angle > 0.0)
    && (r == -PI ==> angle < 0.0)
  }

  lemma NormalizedUnique(angle: real, r: real, s: real)
    requires Normalized(angle, r) && Normalized(angle, s)
    ensures r == s
  {
    var j :| Turned(r, angle, j);
    var k :| Turned(s, angle, k);
    assert r - s == (j - k) as real * TWO_PI;
    WholeTurns(j - k);
  }

  lemma WholeTurns(n: int)
    ensures n >= 1 ==> n as real * TWO_PI >= TWO_PI
    ensures n <= -1 ==> n as real * TWO_PI <= -TWO_PI
  {
  }

  // ----- modulo form -----

  function Truncate(r: real): int {
    if r >= 0.0 then r.Floor else -((-r).Floor)
  }

  /** The remainder with the sign of the dividend. */
  function Remainder(a: real, m: real): real
    requires m > 0.0
  {
    a - Truncate(a / m) as real * m
  }

  function NormalizeAngle(angle: real): real {
    var a := Remainder(angle, TWO_PI);
    if a > PI then a - TWO_PI else if a < -PI then a + TWO_PI else a
  }

  lemma RemainderBounds(a: real)
    ensures a >= 0.0 ==> 0.0 <= Remainder(a, TWO_PI) < TWO_PI
    ensures a <= 0.0 ==> -TWO_PI < Remainder(a, TWO_PI) <= 0.0
  {
    var q := a / TWO_PI;
    assert q * TWO_PI == a;
  }

  lemma NormalizeAngleNormalizes(angle: real)
    ensures Normalized(angle, NormalizeAngle(angle))
  {
    RemainderBounds(angle);
    var k := -Truncate(angle / TWO_PI);
    assert Remainder(angle, TWO_PI) == angle + k as real * TWO_PI;
    var r := NormalizeAngle(angle);
    var turns := if Remainder(angle, TWO_PI) > PI then k - 1 else if Remainder(angle, TWO_PI) < -PI then k + 1 else k;
    assert Turned(r, angle, turns);
  }

  /** No angle equal to this one up to whole turns is closer to zero. */
  lemma NormalizeAngleSmallest(angle: real, a: real)
    requires Congruent(a, angle)
    ensures (if NormalizeAngle(angle) < 0.0 then -NormalizeAngle(angle) else NormalizeAngle(angle))
         <= (if a < 0.0 then -a else a)
  {
    hide NormalizeAngle;
    NormalizeAngleNormalizes(angle);
    var r := NormalizeAngle(angle);
    var j :| Turned(a, angle, j);
    var k :| Turned(r, angle, k);
    assert a - r == (j - k) as real * TWO_PI;
    WholeTurns(j - k);
  }

  // ----- loop form -----

  /** Subtract, then add, whole turns until the angle is in range; the result is the modulo form's. */
  method NormalizeAngleByLoops(angle: real) returns (a: real)
    ensures a == NormalizeAngle(angle)
  {
    a := angle;
    ghost var k: int := 0;
    while a > PI
      invariant k <= 0 && Turned(a, angle, k)
      invariant k < 0 ==> a > -PI && angle > 0.0
      decreases a
    {
      a := a - TWO_PI;
      k := k - 1;
    }
    while a < -PI
      invariant Turned(a, angle, k) && a <= PI
      invariant k < 0 ==> a > -PI && angle > 0.0
      invariant k > 0 ==> a < PI && angle < 0.0
      invariant k == 0 ==> a == angle
      decreases -a
    {
      a := a + TWO_PI;
      k := k + 1;
    }
    assert Normalized(angle, a);
    NormalizeAngleNormalizes(angle);
    NormalizedUnique(angle, a, NormalizeAngle(angle));
  }
}
