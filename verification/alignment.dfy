/** Whether a move goes with the wind (or the ocean current).

    A move is aligned when its compass angle lies within 25 degrees of the
    sampled direction, on the arc from `direction - 25` to `direction + 25`
    taken modulo 360.  The movement angle of a grid move is the angle of
    `atan2(dy, dx)` in whole degrees, which for the eight grid directions is
    a multiple of 45. */
module Alignment {
  import opened Grid

  /** `round(degrees(atan2(dy, dx))) % 360` for a grid direction.  The
      contract is the quadrant rule of `atan2`: the sign of `dy` decides the
      upper or lower half-turn and the sign of `dx` the right or left one. */
  function MovementAngle(d: Offset): (angle: int)
    requires d in Directions
    ensures 0 <= angle < 360 && angle % 45 == 0
    ensures d.dy > 0 <==> 0 < angle < 180
    ensures d.dy < 0 <==> 180 < angle
    ensures d.dx > 0 <==> angle < 90 || 270 < angle
    ensures d.dx < 0 <==> 90 < angle < 270
  {
    if d == Offset(1, 0) then 0
    else if d == Offset(1, 1) then 45
    else if d == Offset(0, 1) then 90
    else if d == Offset(-1, 1) then 135
    else if d == Offset(-1, 0) then 180
    else if d == Offset(-1, -1) then 225
    else if d == Offset(0, -1) then 270
    else 315
  }

  /** Distinct directions move at distinct angles. */
  lemma MovementAngleInjective(a: Offset, b: Offset)
    requires a in Directions && b in Directions
    requires MovementAngle(a) == MovementAngle(b)
    ensures a == b
  {
  }

  /** Python's `x % 360` for a real `x`: the representative in [0, 360). */
  function Mod360(x: real): (m: real)
    ensures 0.0 <= m < 360.0
    ensures ((x - m) / 360.0).Floor as real == (x - m) / 360.0
  {
    x - 360.0 * (x / 360.0).Floor as real
  }

  /** A value in [0, 360) that differs from `x` by whole turns is `x % 360`. */
  lemma Mod360Unique(x: real, m: real, k: int)
    requires 0.0 <= m < 360.0 && x == m + 360.0 * k as real
    ensures Mod360(x) == m
  {
    var q := x / 360.0;
    assert q == m / 360.0 + k as real;
    assert k as real <= q < k as real + 1.0;
    assert q.Floor == k;
  }

  /** The alignment test exactly as `is_aligned_with_wind` writes it: inside the arc
      from `lower` to `upper`, where the arc may wrap past 0. */
  predicate IsAligned(direction: real, angle: int) {
    var lower := Mod360(direction - 25.0);
    var upper := Mod360(direction + 25.0);
    (lower <= angle as real <= upper)
    || (lower > upper && (angle as real >= lower || angle as real <= upper))
  }

  /** The angle between two compass directions, the short way round. */
  function CircularDistance(a: real, b: real): (d: real)
    ensures 0.0 <= d <= 180.0
  {
    var m := Mod360(a - b);
    if m <= 180.0 then m else 360.0 - m
  }

  /** The lower/upper test of `is_aligned_with_wind` is the ±25 degree arc: a move is aligned
      exactly when its angle is within 25 degrees of the sampled direction,
      also when the arc wraps past 0/360. */
  lemma AlignedIffWithinArc(direction: real, angle: int)
    requires 0 <= angle < 360
    ensures IsAligned(direction, angle) <==> CircularDistance(angle as real, direction) <= 25.0
  {
    var k := (direction / 360.0).Floor;
    var w := Mod360(direction);
    Mod360Unique(direction, w, k);
    var a := angle as real;
    if w >= 25.0 {
      Mod360Unique(direction - 25.0, w - 25.0, k);
    } else {
      Mod360Unique(direction - 25.0, w + 335.0, k - 1);
    }
    if w < 335.0 {
      Mod360Unique(direction + 25.0, w + 25.0, k);
    } else {
      Mod360Unique(direction + 25.0, w - 335.0, k + 1);
    }
    if a >= w {
      Mod360Unique(a - direction, a - w, -k);
    } else {
      Mod360Unique(a - direction, a - w + 360.0, -k - 1);
    }
  }

  /** A wind from 10 degrees favours every angle from 345 round to 35, and
      neither 344 nor 36. */
  lemma AlignedAroundTen(angle: int)
    requires 0 <= angle < 360
    ensures IsAligned(10.0, angle) <==> angle <= 35 || 345 <= angle
  {
    Mod360Unique(10.0 - 25.0, 345.0, -1);
    Mod360Unique(10.0 + 25.0, 35.0, 0);
  }
}
