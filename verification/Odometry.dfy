/** Wheel odometry from 16-bit tick counters that wrap around. */
module OdometryModel {
  import opened Grids
  import opened Angles

  newtype u16 = n: int | 0 <= n < 65536

  /** Difference modulo 2^16, read as a signed 16-bit number. */
  function TickDelta(now: u16, before: u16): int {
    var wrapped := (now as int - before as int) % 65536;
    if wrapped < 32768 then wrapped else wrapped - 65536
  }

  /** What a 16-bit counter shows after `ticks` ticks. */
  function Counter(ticks: int): u16 {
    (ticks % 65536) as u16
  }

  predicate FitsI16(n: int) {
    -32768 <= n < 32768
  }

  /** The wrapped difference is the true displacement exactly when that displacement fits in 16 bits. */
  lemma TickDeltaExact(now: int, before: int)
    ensures TickDelta(Counter(now), Counter(before)) == now - before <==> FitsI16(now - before)
  {
    var d := now - before;
    assert (now % 65536 - before % 65536) % 65536 == d % 65536 by {
      var q := now / 65536 - before / 65536;
      assert now % 65536 - before % 65536 == d - 65536 * q;
      ModuloShift(d, q);
    }
  }

  lemma ModuloShift(d: int, q: int)
    ensures (d - 65536 * q) % 65536 == d % 65536
  {
    var r := d % 65536;
    var p := d / 65536;
    assert d - 65536 * q == 65536 * (p - q) + r;
  }

  /** Fixed parameters; `cos` and `sin` stand for the program's trigonometry. */
  datatype Drive = Drive(wheelBase: real, ticksPerMeter: real, cos: real -> real, sin: real -> real)

  predicate Usable(p: Drive) {
    p.wheelBase != 0.0 && p.ticksPerMeter != 0.0
  }

  datatype State = State(prevLeft: u16, prevRight: u16, pose: Pose, initialized: bool)

  /** Turn made by a pair of tick displacements, in radians. */
  function Turn(p: Drive, dl: int, dr: int): real
    requires Usable(p)
  {
    (dr as real / p.ticksPerMeter - dl as real / p.ticksPerMeter) / p.wheelBase
  }

  /** Distance covered by the middle of the axle, in metres. */
  function Travel(p: Drive, dl: int, dr: int): real
    requires Usable(p)
  {
    (dl as real / p.ticksPerMeter + dr as real / p.ticksPerMeter) / 2.0
  }

  /** Midpoint integration of one pair of displacements. */
  function Moved(p: Drive, pose: Pose, dl: int, dr: int): Pose
    requires Usable(p)
  {
    var dist, dtheta := Travel(p, dl, dr), Turn(p, dl, dr);
    var mid := pose.theta + dtheta / 2.0;
    Pose(pose.x + dist * p.cos(mid), pose.y + dist * p.sin(mid), NormalizeAngle(pose.theta + dtheta))
  }

  /**
   How the position moves with a pair of tick displacements: along the heading half way through the turn, by the mean
   of the two wheels; opposite displacements keep it where it is.
   */
  ghost predicate MovesAlong(p: Drive, before: Pose, after: Pose, dl: int, dr: int)
    requires Usable(p)
  {
    NonZeroProduct(p.ticksPerMeter, p.wheelBase);
    var mid := before.theta + (dr - dl) as real / (p.ticksPerMeter * p.wheelBase) / 2.0;
    var dx, dy := after.x - before.x, after.y - before.y;
    && dx * p.sin(mid) == dy * p.cos(mid)
    && (p.cos(mid) * p.cos(mid) + p.sin(mid) * p.sin(mid) == 1.0 ==>
          2.0 * p.ticksPerMeter * (dx * p.cos(mid) + dy * p.sin(mid)) == (dl + dr) as real)
    && (dl == -dr ==> dx == 0.0 && dy == 0.0)
  }

  lemma NonZeroProduct(a: real, b: real)
    requires a != 0.0 && b != 0.0
    ensures a * b != 0.0
  {
  }

  lemma MovedAlong(p: Drive, pose: Pose, dl: int, dr: int)
    requires Usable(p)
    ensures MovesAlong(p, pose, Moved(p, pose, dl, dr), dl, dr)
  {
    hide NormalizeAngle, Travel, Turn, MovesAlong;
    TurnFormula(p, dl, dr);
    TravelFormula(p, dl, dr);
    OffsetAlong(p, pose, Moved(p, pose, dl, dr), dl, dr, pose.theta + Turn(p, dl, dr) / 2.0, Travel(p, dl, dr));
  }

  lemma OffsetAlong(p: Drive, before: Pose, after: Pose, dl: int, dr: int, mid: real, dist: real)
    requires Usable(p) && p.ticksPerMeter * p.wheelBase != 0.0
    requires mid == before.theta + (dr - dl) as real / (p.ticksPerMeter * p.wheelBase) / 2.0
    requires after.x == before.x + dist * p.cos(mid) && after.y == before.y + dist * p.sin(mid)
    requires 2.0 * p.ticksPerMeter * dist == (dl + dr) as real && (dl == -dr ==> dist == 0.0)
    ensures MovesAlong(p, before, after, dl, dr)
  {
    Along(after.x - before.x, after.y - before.y, dist, p.cos(mid), p.sin(mid), 2.0 * p.ticksPerMeter);
  }

  /** An offset by `dist` along the direction (c, s). */
  lemma Along(dx: real, dy: real, dist: real, c: real, s: real, scale: real)
    requires dx == dist * c && dy == dist * s
    ensures dx * s == dy * c
    ensures c * c + s * s == 1.0 ==> scale * (dx * c + dy * s) == scale * dist
    ensures dist == 0.0 ==> dx == 0.0 && dy == 0.0
  {
    if c * c + s * s == 1.0 {
      assert dx * c + dy * s == dist * (c * c + s * s);
    }
  }

  lemma MeanOfQuotients(a: real, b: real, t: real, mean: real)
    requires t != 0.0 && mean == (a / t + b / t) / 2.0
    ensures 2.0 * t * mean == a + b
    ensures a == -b ==> mean == 0.0
  {
    var q, r := a / t, b / t;
    assert q * t == a && r * t == b;
    assert 2.0 * mean == q + r;
    if a == -b {
      assert (q + r) * t == 0.0;
    }
  }

  lemma TravelFormula(p: Drive, dl: int, dr: int)
    requires Usable(p)
    ensures 2.0 * p.ticksPerMeter * Travel(p, dl, dr) == (dl + dr) as real
    ensures dl == -dr ==> Travel(p, dl, dr) == 0.0
  {
    MeanOfQuotients(dl as real, dr as real, p.ticksPerMeter, Travel(p, dl, dr));
  }

  /** The first reading, or no wheel has moved: nothing is divided. */
  predicate Still(s: State, left: u16, right: u16) {
    !s.initialized || (TickDelta(left, s.prevLeft) == 0 && TickDelta(right, s.prevRight) == 0)
  }

  function Next(p: Drive, s: State, left: u16, right: u16): State
    requires Usable(p) || Still(s, left, right)
  {
    if !s.initialized then s.(prevLeft := left, prevRight := right, initialized := true)
    else
      var dl, dr := TickDelta(left, s.prevLeft), TickDelta(right, s.prevRight);
      State(left, right, if dl == 0 && dr == 0 then s.pose else Moved(p, s.pose, dl, dr), true)
  }

  class Odometry {
    const drive: Drive
    var prevLeft: u16
    var prevRight: u16
    var pose: Pose
    var initialized: bool

    constructor (drive: Drive, startPose: Pose)
      ensures this.drive == drive && View() == State(0, 0, startPose, false)
    {
      this.drive := drive;
      prevLeft, prevRight, pose, initialized := 0, 0, startPose, false;
    }

    function View(): State
      reads this
    {
      State(prevLeft, prevRight, pose, initialized)
    }

    method Update(left: u16, right: u16) returns (result: Pose)
      requires Usable(drive) || Still(View(), left, right)
      modifies this
      ensures View() == Next(drive, old(View()), left, right) && result == pose
      ensures old(Still(View(), left, right)) ==> pose == old(pose)
      ensures !old(Still(View(), left, right)) ==>
        && -PI <= pose.theta <= PI
        && Congruent(pose.theta, old(pose.theta)
             + Turn(drive, TickDelta(left, old(prevLeft)), TickDelta(right, old(prevRight))))
        && MovesAlong(drive, old(pose), pose, TickDelta(left, old(prevLeft)), TickDelta(right, old(prevRight)))
    {
      hide NormalizeAngle, TickDelta, Travel, Turn, Congruent, MovesAlong;
      if !initialized {
        prevLeft := left;
        prevRight := right;
        initialized := true;
        return pose;
      }
      var dl := TickDelta(left, prevLeft);
      var dr := TickDelta(right, prevRight);
      prevLeft := left;
      prevRight := right;
      if dl == 0 && dr == 0 {
        return pose;
      }
      var dist := Travel(drive, dl, dr);
      var dtheta := Turn(drive, dl, dr);
      var midTheta := pose.theta + dtheta / 2.0;
      var theta := NormalizeAngleByLoops(pose.theta + dtheta);
      NormalizeAngleNormalizes(pose.theta + dtheta);
      var x := pose.x + dist * drive.cos(midTheta);
      var y := pose.y + dist * drive.sin(midTheta);
      assert Moved(drive, pose, dl, dr) == Pose(x, y, theta);
      MovedAlong(drive, pose, dl, dr);
      pose := Pose(x, y, theta);
      return pose;
    }
  }

  // ----- whole runs -----

  /** True tick counts of the two wheels at one reading. */
  datatype Ticks = Ticks(left: int, right: int)

  function Run(p: Drive, s: State, readings: seq<Ticks>): State
    requires Usable(p)
  {
    if readings == [] then s
    else Next(p, Run(p, s, readings[..|readings| - 1]), Counter(readings[|readings| - 1].left),
      Counter(readings[|readings| - 1].right))
  }

  /** Between two readings no wheel moves farther than a signed 16-bit number can say. */
  ghost predicate Slow(readings: seq<Ticks>) {
    forall i :: 0 < i < |readings| ==>
      FitsI16(readings[i].left - readings[i - 1].left) && FitsI16(readings[i].right - readings[i - 1].right)
  }

  /** Turns add up. */
  lemma TurnAdds(p: Drive, dl: int, dr: int, el: int, er: int)
    requires Usable(p)
    ensures Turn(p, dl, dr) + Turn(p, el, er) == Turn(p, dl + el, dr + er)
  {
    var t, b := p.ticksPerMeter, p.wheelBase;
    QuotientAdds(dr as real, er as real, t);
    QuotientAdds(dl as real, el as real, t);
    QuotientAdds(dr as real / t - dl as real / t, er as real / t - el as real / t, b);
  }

  lemma QuotientAdds(a: real, b: real, c: real)
    requires c != 0.0
    ensures a / c + b / c == (a + b) / c
  {
  }

  /** The turn is the difference of the wheel displacements over ticks per metre times wheel base. */
  lemma TurnFormula(p: Drive, dl: int, dr: int)
    requires Usable(p)
    ensures p.ticksPerMeter * p.wheelBase != 0.0
    ensures Turn(p, dl, dr) == (dr - dl) as real / (p.ticksPerMeter * p.wheelBase)
  {
    var t, b := p.ticksPerMeter, p.wheelBase;
    QuotientAdds(dr as real, -dl as real, t);
  }

  /**
   However long the run and however often the counters wrap, the heading is the start heading plus the turn made by
   the true wheel displacements, up to whole turns, and a heading that starts in [-PI, PI] stays there.
   */
  lemma {:induction false} HeadingIsTrue(p: Drive, s: State, readings: seq<Ticks>)
    requires Usable(p) && !s.initialized && Slow(readings) && readings != []
    ensures var end := Run(p, s, readings);
      && end.initialized
      && end.prevLeft == Counter(readings[|readings| - 1].left)
      && end.prevRight == Counter(readings[|readings| - 1].right)
      && Congruent(end.pose.theta, s.pose.theta +
           Turn(p, readings[|readings| - 1].left - readings[0].left,
             readings[|readings| - 1].right - readings[0].right))
      && (-PI <= s.pose.theta <= PI ==> -PI <= end.pose.theta <= PI)
    decreases |readings|
  {
    var n := |readings|;
    if n == 1 {
      FirstReading(p, s, readings);
    } else {
      var before := readings[..n - 1];
      HeadingIsTrue(p, s, before);
      StepHeading(p, Run(p, s, before), s.pose.theta, readings[0], readings[n - 2], readings[n - 1]);
    }
  }

  lemma FirstReading(p: Drive, s: State, readings: seq<Ticks>)
    requires Usable(p) && !s.initialized && |readings| == 1
    ensures Run(p, s, readings) == State(Counter(readings[0].left), Counter(readings[0].right), s.pose, true)
    ensures Congruent(s.pose.theta, s.pose.theta + Turn(p, 0, 0))
  {
    assert readings[..0] == [];
    assert Run(p, s, []) == s;
    TurnFormula(p, 0, 0);
    assert Turned(s.pose.theta, s.pose.theta + Turn(p, 0, 0), 0);
  }

  lemma StepHeading(p: Drive, s: State, theta0: real, first: Ticks, last: Ticks, now: Ticks)
    requires Usable(p) && s.initialized && s.prevLeft == Counter(last.left) && s.prevRight == Counter(last.right)
    requires FitsI16(now.left - last.left) && FitsI16(now.right - last.right)
    requires Congruent(s.pose.theta, theta0 + Turn(p, last.left - first.left, last.right - first.right))
    ensures var end := Next(p, s, Counter(now.left), Counter(now.right));
      && Congruent(end.pose.theta, theta0 + Turn(p, now.left - first.left, now.right - first.right))
      && (-PI <= s.pose.theta <= PI ==> -PI <= end.pose.theta <= PI)
  {
    hide Turn, Travel, Congruent, NormalizeAngle, Counter, TickDelta;
    var dl, dr := now.left - last.left, now.right - last.right;
    TickDeltaExact(now.left, last.left);
    TickDeltaExact(now.right, last.right);
    if dl != 0 || dr != 0 {
      var turn := Turn(p, dl, dr);
      var so := theta0 + Turn(p, last.left - first.left, last.right - first.right);
      TurnAdds(p, last.left - first.left, last.right - first.right, dl, dr);
      CongruentShift(s.pose.theta, so, turn);
      NormalizeAngleNormalizes(s.pose.theta + turn);
      CongruentTransitive(NormalizeAngle(s.pose.theta + turn), s.pose.theta + turn, so + turn);
    }
  }

  /** Both wheels always move alike. */
  ghost predicate Straight(readings: seq<Ticks>) {
    forall i :: 0 < i < |readings| ==>
      readings[i].left - readings[i - 1].left == readings[i].right - readings[i - 1].right
  }

  /** Driving straight, however often the counters wrap, ends at the true displacement along the start heading. */
  lemma {:induction false} StraightRun(p: Drive, s: State, readings: seq<Ticks>)
    requires Usable(p) && !s.initialized && Slow(readings) && Straight(readings) && readings != []
    requires -PI < s.pose.theta < PI
    ensures var end := Run(p, s, readings);
      var driven := (readings[|readings| - 1].left - readings[0].left) as real / p.ticksPerMeter;
      && end.initialized
      && end.prevLeft == Counter(readings[|readings| - 1].left)
      && end.prevRight == Counter(readings[|readings| - 1].right)
      && end.pose.x == s.pose.x + driven * p.cos(s.pose.theta)
      && end.pose.y == s.pose.y + driven * p.sin(s.pose.theta)
      && end.pose.theta == s.pose.theta
    decreases |readings|
  {
    hide Next, Slow;
    var n := |readings|;
    if n == 1 {
      FirstReading(p, s, readings);
      assert 0.0 / p.ticksPerMeter == 0.0;
    } else {
      var before := readings[..n - 1];
      assert Slow(before) by { SlowPrefix(readings); }
      StraightRun(p, s, before);
      var state, last, now := Run(p, s, before), readings[n - 2], readings[n - 1];
      SlowPrefix(readings);
      StraightStep(p, state, last, now);
      var d0, d1 := (last.left - readings[0].left) as real, (now.left - last.left) as real;
      QuotientAdds(d0, d1, p.ticksPerMeter);
      Distributes(d0 / p.ticksPerMeter, d1 / p.ticksPerMeter, p.cos(s.pose.theta));
      Distributes(d0 / p.ticksPerMeter, d1 / p.ticksPerMeter, p.sin(s.pose.theta));
    }
  }

  lemma SlowPrefix(readings: seq<Ticks>)
    requires Slow(readings) && |readings| > 1
    ensures var n := |readings|;
      && Slow(readings[..n - 1])
      && FitsI16(readings[n - 1].left - readings[n - 2].left) && FitsI16(readings[n - 1].right - readings[n - 2].right)
  {
  }

  lemma Distributes(a: real, b: real, c: real)
    ensures (a + b) * c == a * c + b * c
  {
  }

  lemma StraightStep(p: Drive, s: State, last: Ticks, now: Ticks)
    requires Usable(p) && s.initialized && s.prevLeft == Counter(last.left) && s.prevRight == Counter(last.right)
    requires FitsI16(now.left - last.left) && now.left - last.left == now.right - last.right
    requires -PI < s.pose.theta < PI
    ensures var driven := (now.left - last.left) as real / p.ticksPerMeter;
      Next(p, s, Counter(now.left), Counter(now.right)) == State(Counter(now.left), Counter(now.right),
        Pose(s.pose.x + driven * p.cos(s.pose.theta), s.pose.y + driven * p.sin(s.pose.theta), s.pose.theta), true)
  {
    hide Turn, Travel, NormalizeAngle, Counter, TickDelta;
    var d := now.left - last.left;
    TickDeltaExact(now.left, last.left);
    TickDeltaExact(now.right, last.right);
    TurnFormula(p, d, d);
    assert 0.0 / (p.ticksPerMeter * p.wheelBase) == 0.0;
    TravelFormula(p, d, d);
    SameTravel(Travel(p, d, d), d as real / p.ticksPerMeter, p.ticksPerMeter, d as real);
    assert Turned(s.pose.theta, s.pose.theta, 0);
    NormalizeAngleNormalizes(s.pose.theta);
    NormalizedUnique(s.pose.theta, s.pose.theta, NormalizeAngle(s.pose.theta));
  }

  lemma SameTravel(a: real, b: real, t: real, d: real)
    requires t != 0.0 && 2.0 * t * a == d + d && b == d / t
    ensures a == b
  {
    assert b * t == d;
    assert (a - b) * t == 0.0;
  }

  /** The deltas the program sees add up to the true displacement of the run. */
  function DeltaSum(counts: seq<int>): int {
    if |counts| < 2 then 0
    else DeltaSum(counts[..|counts| - 1]) + TickDelta(Counter(counts[|counts| - 1]), Counter(counts[|counts| - 2]))
  }

  lemma {:induction false} DeltasTelescope(counts: seq<int>)
    requires counts != [] && forall i :: 0 < i < |counts| ==> FitsI16(counts[i] - counts[i - 1])
    ensures DeltaSum(counts) == counts[|counts| - 1] - counts[0]
    decreases |counts|
  {
    if |counts| >= 2 {
      DeltasTelescope(counts[..|counts| - 1]);
      TickDeltaExact(counts[|counts| - 1], counts[|counts| - 2]);
    }
  }
}
