/** The axis step the main loop applies for one matched member entry
    (rotate.cpp:147-170). The program calls `cos` and `sin` of the group's
    angle; here their two values `c` and `s` are inputs, and coordinates are
    real numbers (no rounding). */
module Rotation {

  datatype Point = Point(x: real, y: real, z: real)

  /** The if / else-if chain on the axis character. Any character other than
      'x', 'y' or 'z' falls through every branch and changes nothing. */
  function Step(axis: char, c: real, s: real, p: Point): (q: Point)
    ensures axis != 'x' && axis != 'y' && axis != 'z' ==> q == p
    ensures axis == 'x' ==> q.x == p.x
    ensures axis == 'y' ==> q.y == p.y
    ensures axis == 'z' ==> q.z == p.z
  {
    if axis == 'x' then Point(p.x, p.y * c - p.z * s, -p.y * s + p.z * c)
    else if axis == 'y' then Point(p.x * c + p.z * s, p.y, -p.x * s + p.z * c)
    else if axis == 'z' then Point(p.x * c - p.y * s, p.x * s + p.y * c, p.z)
    else p
  }

  /** A step by the zero angle (cos 0 = 1, sin 0 = 0) changes nothing, about
      any axis. */
  lemma StepByZero(axis: char, p: Point)
    ensures Step(axis, 1.0, 0.0, p) == p
  {
    assert p.x * 1.0 == p.x && p.y * 1.0 == p.y && p.z * 1.0 == p.z;
  }

  function NormSq(p: Point): real {
    p.x * p.x + p.y * p.y + p.z * p.z
  }

  /** (a c + b s)^2 + (-a s + b c)^2 and (a c - b s)^2 + (a s + b c)^2 both
      equal (a^2 + b^2)(c^2 + s^2). */
  lemma PlaneRotationNorm(a: real, b: real, c: real, s: real)
    ensures (a * c + b * s) * (a * c + b * s) + (-a * s + b * c) * (-a * s + b * c)
         == (a * a + b * b) * (c * c + s * s)
    ensures (a * c - b * s) * (a * c - b * s) + (a * s + b * c) * (a * s + b * c)
         == (a * a + b * b) * (c * c + s * s)
  {
  }

  /** About y and about z, a step with c^2 + s^2 = 1 keeps the distance from
      the origin. */
  lemma StepKeepsNorm(axis: char, c: real, s: real, p: Point)
    requires axis == 'y' || axis == 'z'
    requires c * c + s * s == 1.0
    ensures NormSq(Step(axis, c, s, p)) == NormSq(p)
  {
    if axis == 'y' {
      PlaneRotationNorm(p.x, p.z, c, s);
    } else {
      PlaneRotationNorm(p.x, p.y, c, s);
    }
  }

  /** Rotating (a, b) to (a', b') = (a c + b s, -a s + b c) and then by
      (c, -s) gives back (a, b) scaled by k = c^2 + s^2. */
  lemma PlaneUndo(a: real, b: real, a': real, b': real, c: real, s: real, k: real)
    requires k == c * c + s * s
    requires a' == a * c + b * s && b' == -a * s + b * c
    ensures a' * c + b' * (-s) == a * k
    ensures -a' * (-s) + b' * c == b * k
  {
  }

  /** About y and about z, the step with (c, -s), the angle's negation,
      undoes the step with (c, s) when c^2 + s^2 = 1. */
  lemma StepUndo(axis: char, c: real, s: real, p: Point)
    requires axis == 'y' || axis == 'z'
    requires c * c + s * s == 1.0
    ensures Step(axis, c, -s, Step(axis, c, s, p)) == p
  {
    if axis == 'y' {
      StepUndoY(c, s, p);
    } else {
      StepUndoZ(c, s, p);
    }
  }

  lemma StepUndoY(c: real, s: real, p: Point)
    requires c * c + s * s == 1.0
    ensures Step('y', c, -s, Step('y', c, s, p)) == p
  {
    var q := Step('y', c, s, p);
    var r := Step('y', c, -s, q);
    assert q.x == p.x * c + p.z * s && q.z == -p.x * s + p.z * c;
    assert r.x == q.x * c + q.z * (-s) && r.z == -q.x * (-s) + q.z * c;
    PlaneUndo(p.x, p.z, q.x, q.z, c, s, 1.0);
    assert r.x == p.x * 1.0 && r.z == p.z * 1.0;
  }

  /** About z the plane is (y, x): (y, x) goes to (y c + x s, -y s + x c). */
  lemma StepUndoZ(c: real, s: real, p: Point)
    requires c * c + s * s == 1.0
    ensures Step('z', c, -s, Step('z', c, s, p)) == p
  {
    var q := Step('z', c, s, p);
    var r := Step('z', c, -s, q);
    assert q.y == p.y * c + p.x * s && q.x == -p.y * s + p.x * c;
    assert r.y == q.y * c + q.x * (-s) && r.x == -q.y * (-s) + q.x * c;
    PlaneUndo(p.y, p.x, q.y, q.x, c, s, 1.0);
    assert r.x == p.x * 1.0 && r.y == p.y * 1.0;
  }

  /** About x the chain uses the matrix [[c, -s], [-s, c]] on (y, z), whose
      determinant is c^2 - s^2: following (c, s) with (c, -s) scales y and z
      by c^2 - s^2 instead of restoring them. */
  lemma StepXUndoScales(c: real, s: real, p: Point)
    ensures Step('x', c, -s, Step('x', c, s, p))
         == Point(p.x, (c * c - s * s) * p.y, (c * c - s * s) * p.z)
  {
    XPlaneUndo(p.y, p.z, c, s);
  }

  lemma XPlaneUndo(a: real, b: real, c: real, s: real)
    ensures (a * c - b * s) * c - (-a * s + b * c) * (-s) == (c * c - s * s) * a
    ensures -(a * c - b * s) * (-s) + (-a * s + b * c) * c == (c * c - s * s) * b
  {
  }

  /** So the x step is not a rotation: with c = 3/5, s = 4/5 (a true cosine
      and sine pair) it moves (0, 1, 1) to (0, -1/5, -1/5), shrinking it. */
  lemma StepXShrinks()
    ensures var p := Point(0.0, 1.0, 1.0);
      var q := Step('x', 0.6, 0.8, p);
      0.6 * 0.6 + 0.8 * 0.8 == 1.0 && q == Point(0.0, -0.2, -0.2) && NormSq(q) < NormSq(p)
  {
  }
}
