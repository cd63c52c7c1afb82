/** Integer voxel geometry behind a clock face: the Bresenham line that draws a
    hand, the filled disk that clears the face, the midpoint circle, and exact
    quarter turns about the vertical axis. In the clock's local frame the face
    lies in the x/y plane and z is depth. */
module Geometry {

  /** A lattice point (Bukkit's Vector with integral coordinates). */
  datatype Vec = Vec(x: int, y: int, z: int)

  function Abs(n: int): nat { if n < 0 then -n else n }

  /** Kotlin's sign(n.toDouble()).toInt(). */
  function Sign(n: int): int { if n < 0 then -1 else if n > 0 then 1 else 0 }

  function Max(a: int, b: int): int { if a < b then b else a }

  function Min(a: int, b: int): int { if a < b then a else b }

  /** v lies between a and b, whichever is larger. */
  predicate Between(v: int, a: int, b: int) { Min(a, b) <= v <= Max(a, b) }

  lemma SignTimesAbs(n: int)
    ensures Sign(n) * Abs(n) == n
  {
  }

  /** The quotient is determined by the bracket it falls in. */
  lemma DivideBetween(n: int, d: int, q: int)
    requires d > 0 && d * q <= n < d * q + d
    ensures n / d == q
  {
    var q' := n / d;
    if q' < q {
      MultiplyMonotone(d, q' + 1, q);
      assert false;
    } else if q' > q {
      MultiplyMonotone(d, q + 1, q');
      assert false;
    }
  }

  lemma MultiplyMonotone(d: int, a: int, b: int)
    requires d >= 0 && a <= b
    ensures d * a <= d * b
  {
  }

  // ---------------------------------------------------------------------------
  // Lines (linePoints)
  // ---------------------------------------------------------------------------

  /** `i * num / den` rounded to the nearest integer, a tie rounded down: the
      offset along the minor axis of the ideal line after `i` major steps. */
  function RoundedRatio(i: int, num: int, den: int): int
    requires den > 0
  {
    (2 * i * num + den - 1) / (2 * den)
  }

  /** RoundedRatio is the integer nearest to i * num / den: it lies within half
      a step below or strictly less than half a step above it. */
  lemma RoundedRatioNearest(i: int, num: int, den: int)
    requires den > 0
    ensures -den <= 2 * den * RoundedRatio(i, num, den) - 2 * i * num < den
  {
    var n := 2 * i * num + den - 1;
    var m := RoundedRatio(i, num, den);
    assert 2 * den * m <= n < 2 * den * m + 2 * den;
  }

  /** The minor offset stays between 0 and the minor extent. */
  lemma {:induction false} RoundedRatioBounds(i: int, num: int, den: int)
    requires den > 0 && 0 <= i <= den && 0 <= num <= den
    ensures 0 <= RoundedRatio(i, num, den) <= num
  {
    var m := RoundedRatio(i, num, den);
    RoundedRatioNearest(i, num, den);
    MultiplyMonotone(2 * num, 0, i);
    MultiplyMonotone(2 * num, i, den);
    if m < 0 {
      MultiplyMonotone(2 * den, m, -1);
      assert false;
    }
    if m > num {
      MultiplyMonotone(2 * den, num + 1, m);
      assert false;
    }
  }

  /** The minor offset is 0 before the first step and the whole minor extent
      after the last. */
  lemma RoundedRatioEnds(num: int, den: int)
    requires den > 0
    ensures RoundedRatio(0, num, den) == 0
    ensures RoundedRatio(den, num, den) == num
  {
    DivideBetween(den - 1, 2 * den, 0);
    DivideBetween(2 * den * num + den - 1, 2 * den, num);
  }

  /** One more major step moves the minor offset by 0 or 1 when the minor extent
      is not larger than the major one. */
  lemma {:induction false} RoundedRatioStep(i: int, num: int, den: int)
    requires den > 0 && 0 <= num <= den
    ensures RoundedRatio(i + 1, num, den) - RoundedRatio(i, num, den) in {0, 1}
  {
    var a, b := RoundedRatio(i, num, den), RoundedRatio(i + 1, num, den);
    RoundedRatioNearest(i, num, den);
    RoundedRatioNearest(i + 1, num, den);
    assert 2 * den * (b - a) > -2 * den + 2 * num - 2 * num;
    assert 2 * den * (b - a) < 2 * den + 2 * num;
    if b - a < 0 {
      MultiplyMonotone(2 * den, b - a, -1);
    }
    if b - a > 1 {
      MultiplyMonotone(2 * den, 2, b - a);
    }
  }

  /** One pass of linePoints' loop keeps the error term equal to the distance,
      in units of 1 / (2 * major), between the ideal line and the next point
      rounded the other way, and keeps the minor offset the rounded ratio. */
  lemma BresenhamStep(k: int, m: int, error: int, major: int, minor: int)
    requires 0 <= minor <= major && major > 0
    requires m == RoundedRatio(k, minor, major)
    requires error == major + 2 * m * major - 2 * k * minor && 0 <= error < 2 * major
    ensures var e := error - 2 * minor;
      var m' := if e < 0 then m + 1 else m;
      var e' := if e < 0 then e + 2 * major else e;
      && m' == RoundedRatio(k + 1, minor, major)
      && e' == major + 2 * m' * major - 2 * (k + 1) * minor
      && 0 <= e' < 2 * major
  {
    var e := error - 2 * minor;
    var m' := if e < 0 then m + 1 else m;
    var e' := if e < 0 then e + 2 * major else e;
    assert e' == major + 2 * m' * major - 2 * (k + 1) * minor;
    DivideBetween(2 * (k + 1) * minor + major - 1, 2 * major, m');
  }

  /** Number of points linePoints returns. */
  function LineLength(x0: int, y0: int, x1: int, y1: int): nat
  {
    Max(Abs(x1 - x0), Abs(y1 - y0)) + 1
  }

  /** The i-th point of the line from (x0, y0) to (x1, y1) at depth z: one step
      along the axis of larger extent per point, and along the other axis the
      ideal line's offset rounded to the nearest integer. */
  function LinePoint(x0: int, y0: int, z: int, x1: int, y1: int, i: int): Vec
  {
    var dx, dy := Abs(x1 - x0), Abs(y1 - y0);
    if dx > dy then
      Vec(x0 + Sign(x1 - x0) * i, y0 + Sign(y1 - y0) * RoundedRatio(i, dy, dx), z)
    else if dy > 0 then
      Vec(x0 + Sign(x1 - x0) * RoundedRatio(i, dx, dy), y0 + Sign(y1 - y0) * i, z)
    else
      Vec(x0, y0, z)
  }

  /** Reference definition of the points linePoints returns, in order. */
  function Line(x0: int, y0: int, z: int, x1: int, y1: int): seq<Vec>
  {
    seq(LineLength(x0, y0, x1, y1), i => LinePoint(x0, y0, z, x1, y1, i))
  }

  /** Bresenham's algorithm as linePoints runs it: the loop walks the axis of
      larger extent (x when |dx| > |dy|, y otherwise) and the end point is added
      after the loop. */
  method LinePoints(x0: int, y0: int, z: int, x1: int, y1: int) returns (points: seq<Vec>)
    ensures points == Line(x0, y0, z, x1, y1)
  {
    var x, y;
    if Abs(x1 - x0) > Abs(y1 - y0) {
      points, x, y := WalkAlongX(x0, y0, z, x1, y1);
    } else {
      points, x, y := WalkAlongY(x0, y0, z, x1, y1);
    }
    points := points + [Vec(x, y, z)];
    assert forall i :: 0 <= i < |points| ==> points[i] == Line(x0, y0, z, x1, y1)[i];
  }

  /** The loop of linePoints when |dx| > |dy|. `error` is twice the source's
      Double error term, which starts at a half and only ever moves by whole
      numbers, so the integer form takes the same branches. */
  method WalkAlongX(x0: int, y0: int, z: int, x1: int, y1: int) returns (points: seq<Vec>, x: int, y: int)
    requires Abs(x1 - x0) > Abs(y1 - y0)
    ensures |points| + 1 == LineLength(x0, y0, x1, y1)
    ensures forall i :: 0 <= i < |points| ==> points[i] == LinePoint(x0, y0, z, x1, y1, i)
    ensures Vec(x, y, z) == LinePoint(x0, y0, z, x1, y1, |points|)
  {
    var dx := Abs(x1 - x0);
    var dy := Abs(y1 - y0);
    x, y := x0, y0;
    var sx := Sign(x1 - x0);
    var sy := Sign(y1 - y0);
    SignTimesAbs(x1 - x0);
    points := [];
    var error := dx;
    ghost var m := 0;  // steps taken along y
    while x != x1
      invariant |points| <= dx
      invariant x == x0 + sx * |points| && y == y0 + sy * m
      invariant m == RoundedRatio(|points|, dy, dx)
      invariant error == dx + 2 * m * dx - 2 * |points| * dy
      invariant 0 <= error < 2 * dx
      invariant forall i :: 0 <= i < |points| ==> points[i] == LinePoint(x0, y0, z, x1, y1, i)
      decreases dx - |points|
    {
      BresenhamStep(|points|, m, error, dx, dy);
      points := points + [Vec(x, y, z)];
      error := error - 2 * dy;
      if error < 0 {
        y := y + sy;
        m := m + 1;
        error := error + 2 * dx;
      }
      x := x + sx;
    }
    assert |points| == dx by {
      assert sx * |points| == sx * dx;
      assert sx == 1 || sx == -1;
    }
  }

  /** The loop of linePoints when |dx| <= |dy|, with the roles of x and y
      exchanged; it does not run when both extents are zero. */
  method WalkAlongY(x0: int, y0: int, z: int, x1: int, y1: int) returns (points: seq<Vec>, x: int, y: int)
    requires Abs(x1 - x0) <= Abs(y1 - y0)
    ensures |points| + 1 == LineLength(x0, y0, x1, y1)
    ensures forall i :: 0 <= i < |points| ==> points[i] == LinePoint(x0, y0, z, x1, y1, i)
    ensures Vec(x, y, z) == LinePoint(x0, y0, z, x1, y1, |points|)
  {
    var dx := Abs(x1 - x0);
    var dy := Abs(y1 - y0);
    x, y := x0, y0;
    var sx := Sign(x1 - x0);
    var sy := Sign(y1 - y0);
    SignTimesAbs(y1 - y0);
    points := [];
    var error := dy;
    ghost var m := 0;  // steps taken along x
    while y != y1
      invariant |points| <= dy
      invariant y == y0 + sy * |points| && x == x0 + sx * m
      invariant 0 <= m <= |points|
      invariant dy > 0 ==> m == RoundedRatio(|points|, dx, dy)
      invariant error == dy + 2 * m * dy - 2 * |points| * dx
      invariant dy > 0 ==> 0 <= error < 2 * dy
      invariant forall i :: 0 <= i < |points| ==> points[i] == LinePoint(x0, y0, z, x1, y1, i)
      decreases dy - |points|
    {
      BresenhamStep(|points|, m, error, dy, dx);
      points := points + [Vec(x, y, z)];
      error := error - 2 * dx;
      if error < 0 {
        x := x + sx;
        m := m + 1;
        error := error + 2 * dy;
      }
      y := y + sy;
    }
    assert |points| == dy by {
      assert sy * |points| == sy * dy;
      assert dy > 0 ==> sy == 1 || sy == -1;
    }
  }

  /** linePoints starts at (x0, y0, z), ends at (x1, y1, z), and has one point
      per step along the axis of larger extent. */
  lemma {:induction false} LineEnds(x0: int, y0: int, z: int, x1: int, y1: int)
    ensures |Line(x0, y0, z, x1, y1)| == Max(Abs(x1 - x0), Abs(y1 - y0)) + 1
    ensures Line(x0, y0, z, x1, y1)[0] == Vec(x0, y0, z)
    ensures Line(x0, y0, z, x1, y1)[|Line(x0, y0, z, x1, y1)| - 1] == Vec(x1, y1, z)
  {
    var dx, dy := Abs(x1 - x0), Abs(y1 - y0);
    SignTimesAbs(x1 - x0);
    SignTimesAbs(y1 - y0);
    if dx > dy {
      RoundedRatioEnds(dy, dx);
    } else if dy > 0 {
      RoundedRatioEnds(dx, dy);
    }
  }

  /** Consecutive points advance exactly one step along the axis of larger
      extent and zero or one step, towards the end point, along the other. */
  lemma {:induction false} LineSteps(x0: int, y0: int, z: int, x1: int, y1: int, i: int)
    requires 0 < i < LineLength(x0, y0, x1, y1)
    ensures var p, q := Line(x0, y0, z, x1, y1)[i - 1], Line(x0, y0, z, x1, y1)[i];
      if Abs(x1 - x0) > Abs(y1 - y0) then
        q.x - p.x == Sign(x1 - x0) && q.y - p.y in {0, Sign(y1 - y0)}
      else
        q.y - p.y == Sign(y1 - y0) && q.x - p.x in {0, Sign(x1 - x0)}
  {
    var dx, dy := Abs(x1 - x0), Abs(y1 - y0);
    if dx > dy {
      RoundedRatioStep(i - 1, dy, dx);
    } else {
      RoundedRatioStep(i - 1, dx, dy);
    }
  }

  /** The points of a line are pairwise distinct and 8-connected. */
  lemma {:induction false} LineSimple(x0: int, y0: int, z: int, x1: int, y1: int)
    ensures var l := Line(x0, y0, z, x1, y1);
      forall i, j :: 0 <= i < j < |l| ==> l[i] != l[j]
    ensures var l := Line(x0, y0, z, x1, y1);
      forall i :: 0 < i < |l| ==> Abs(l[i].x - l[i - 1].x) <= 1 && Abs(l[i].y - l[i - 1].y) <= 1
  {
    var l := Line(x0, y0, z, x1, y1);
    var dx, dy := Abs(x1 - x0), Abs(y1 - y0);
    forall i, j | 0 <= i < j < |l|
      ensures l[i] != l[j]
    {
      if dx > dy {
        assert Sign(x1 - x0) * i != Sign(x1 - x0) * j;
      } else if dy > 0 {
        assert Sign(y1 - y0) * i != Sign(y1 - y0) * j;
      }
    }
    forall i | 0 < i < |l|
      ensures Abs(l[i].x - l[i - 1].x) <= 1 && Abs(l[i].y - l[i - 1].y) <= 1
    {
      LineSteps(x0, y0, z, x1, y1, i);
    }
  }

  /** Every point of a line is at depth z and inside the bounding box of its
      two end points. */
  lemma {:induction false} LineInBox(x0: int, y0: int, z: int, x1: int, y1: int)
    ensures var l := Line(x0, y0, z, x1, y1);
      forall i :: 0 <= i < |l| ==> l[i].z == z && Between(l[i].x, x0, x1) && Between(l[i].y, y0, y1)
  {
    var l := Line(x0, y0, z, x1, y1);
    var dx, dy := Abs(x1 - x0), Abs(y1 - y0);
    SignTimesAbs(x1 - x0);
    SignTimesAbs(y1 - y0);
    forall i | 0 <= i < |l|
      ensures l[i].z == z && Between(l[i].x, x0, x1) && Between(l[i].y, y0, y1)
    {
      if dx > dy {
        RoundedRatioBounds(i, dy, dx);
        StepBetween(x0, x1, i);
        StepBetween(y0, y1, RoundedRatio(i, dy, dx));
      } else if dy > 0 {
        RoundedRatioBounds(i, dx, dy);
        StepBetween(y0, y1, i);
        StepBetween(x0, x1, RoundedRatio(i, dx, dy));
      }
    }
  }

  lemma StepBetween(a: int, b: int, k: int)
    requires 0 <= k <= Abs(b - a)
    ensures Between(a + Sign(b - a) * k, a, b)
  {
  }

  // ---------------------------------------------------------------------------
  // Filled disks (fillCirclePoints)
  // ---------------------------------------------------------------------------

  /** The offset (x, y) from the centre is inside the scanned square
      [-r, r]² and passes the source's test sqrt(x² + y²) < r + 1.5, written
      exactly in integers: 4(x² + y²) < (2r + 3)². */
  predicate InDisk(x: int, y: int, r: int)
  {
    -r <= x <= r && -r <= y <= r && 4 * (x * x + y * y) < (2 * r + 3) * (2 * r + 3)
  }

  /** The set fillCirclePoints returns. */
  function Disk(cx: int, cy: int, cz: int, r: int): set<Vec>
  {
    set x: int, y: int | cx - r <= x <= cx + r && cy - r <= y <= cy + r && InDisk(x - cx, y - cy, r)
      :: Vec(x, y, cz)
  }

  lemma DiskMember(cx: int, cy: int, cz: int, r: int, p: Vec)
    ensures p in Disk(cx, cy, cz, r) <==> p.z == cz && InDisk(p.x - cx, p.y - cy, r)
  {
    if p.z == cz && InDisk(p.x - cx, p.y - cy, r) {
      assert p == Vec(p.x, p.y, cz);
    }
  }

  /** The nested loops of fillCirclePoints, rows of x outside, columns of y inside. */
  method FillCirclePoints(cx: int, cy: int, cz: int, r: int) returns (points: set<Vec>)
    ensures points == Disk(cx, cy, cz, r)
  {
    points := {};
    var x := -r;
    while x <= r
      invariant r < 0 || -r <= x <= r + 1
      invariant forall p :: p in points <==> p.z == cz && InDisk(p.x - cx, p.y - cy, r) && p.x - cx < x
    {
      var y := -r;
      while y <= r
        invariant -r <= y <= r + 1
        invariant forall p :: p in points <==>
          p.z == cz && InDisk(p.x - cx, p.y - cy, r) && (p.x - cx < x || (p.x - cx == x && p.y - cy < y))
      {
        if 4 * (x * x + y * y) < (2 * r + 3) * (2 * r + 3) {
          points := points + {Vec(cx + x, cy + y, cz)};
        }
        y := y + 1;
      }
      x := x + 1;
    }
    forall p
      ensures p in points <==> p in Disk(cx, cy, cz, r)
    {
      DiskMember(cx, cy, cz, r, p);
    }
  }

  /** The disk is empty exactly when the radius is negative, and otherwise
      holds its centre. */
  lemma DiskEmptyIffNegative(cx: int, cy: int, cz: int, r: int)
    ensures Disk(cx, cy, cz, r) == {} <==> r < 0
    ensures r >= 0 ==> Vec(cx, cy, cz) in Disk(cx, cy, cz, r)
  {
    if r >= 0 {
      MultiplyMonotone(2 * r + 3, 0, 2 * r + 3);
      DiskMember(cx, cy, cz, r, Vec(cx, cy, cz));
    } else {
      forall p | p in Disk(cx, cy, cz, r)
        ensures false
      {
        DiskMember(cx, cy, cz, r, p);
      }
    }
  }

  /** The disk is closed under mirroring either axis about the centre and
      under exchanging the two axes. */
  lemma DiskSymmetric(cx: int, cy: int, cz: int, r: int, p: Vec)
    requires p in Disk(cx, cy, cz, r)
    ensures Vec(2 * cx - p.x, p.y, cz) in Disk(cx, cy, cz, r)
    ensures Vec(p.x, 2 * cy - p.y, cz) in Disk(cx, cy, cz, r)
    ensures Vec(cx + (p.y - cy), cy + (p.x - cx), cz) in Disk(cx, cy, cz, r)
  {
    var x, y := p.x - cx, p.y - cy;
    DiskMember(cx, cy, cz, r, p);
    assert (-x) * (-x) == x * x && (-y) * (-y) == y * y;
    DiskMember(cx, cy, cz, r, Vec(2 * cx - p.x, p.y, cz));
    DiskMember(cx, cy, cz, r, Vec(p.x, 2 * cy - p.y, cz));
    DiskMember(cx, cy, cz, r, Vec(cx + (p.y - cy), cy + (p.x - cx), cz));
  }

  lemma SquareMonotone(a: int, b: int)
    requires Abs(a) <= Abs(b)
    ensures a * a <= b * b
  {
    MultiplyMonotone(Abs(a), Abs(a), Abs(b));
    MultiplyMonotone(Abs(b), Abs(a), Abs(b));
    assert a * a == Abs(a) * Abs(a) && b * b == Abs(b) * Abs(b);
  }

  /** A disk of a larger radius covers one of a smaller radius. */
  lemma DiskMonotone(r1: int, r2: int, x: int, y: int)
    requires r1 <= r2 && InDisk(x, y, r1)
    ensures InDisk(x, y, r2)
  {
    SquareMonotone(2 * r1 + 3, 2 * r2 + 3);
  }

  /** The disk test only grows with the distance along each axis. */
  lemma InDiskTowardsCentre(x: int, y: int, x': int, y': int, r: int)
    requires InDisk(x, y, r) && Abs(x') <= Abs(x) && Abs(y') <= Abs(y)
    ensures InDisk(x', y', r)
  {
    SquareMonotone(x', x);
    SquareMonotone(y', y);
  }

  /** A hand drawn from the face's centre to a tip that lies in the disk of
      radius len lies wholly in the disk of any radius r >= len: it stays inside
      the square that fillCirclePoints scans and passes its distance test. */
  lemma {:induction false} HandInsideDisk(tx: int, ty: int, z: int, len: int, r: int)
    requires InDisk(tx, ty, len) && len <= r
    ensures forall p :: p in Line(0, 0, z, tx, ty) ==> p in Disk(0, 0, z, r)
  {
    LineInBox(0, 0, z, tx, ty);
    var l := Line(0, 0, z, tx, ty);
    forall i | 0 <= i < |l|
      ensures l[i] in Disk(0, 0, z, r)
    {
      InDiskTowardsCentre(tx, ty, l[i].x, l[i].y, len);
      DiskMonotone(len, r, l[i].x, l[i].y);
      DiskMember(0, 0, z, r, l[i]);
    }
  }

  // ---------------------------------------------------------------------------
  // Midpoint circle (circlePoints)
  // ---------------------------------------------------------------------------

  /** Kotlin's Int division, which truncates towards zero. */
  function TruncDiv(a: int, b: int): int
    requires b > 0
  {
    if a >= 0 then a / b else -((-a) / b)
  }

  /** The eight mirror images of the offset (x, y) about the centre, in the
      order circlePoints adds them. */
  function Octant(cx: int, cy: int, cz: int, x: int, y: int): seq<Vec>
  {
    [Vec(cx + x, cy + y, cz), Vec(cx + x, cy - y, cz), Vec(cx - x, cy + y, cz), Vec(cx - x, cy - y, cz),
     Vec(cx + y, cy + x, cz), Vec(cx + y, cy - x, cz), Vec(cx - y, cy + x, cz), Vec(cx - y, cy - x, cz)]
  }

  /** The k-th group of eight points. */
  function Batch(points: seq<Vec>, k: nat): seq<Vec>
    requires 8 * k + 8 <= |points|
  {
    points[8 * k .. 8 * k + 8]
  }

  /** Each group is closed under both axis mirrors and the axis exchange about
      the centre, hence under all eight symmetries of the square. */
  lemma OctantSymmetric(cx: int, cy: int, cz: int, x: int, y: int, p: Vec)
    requires p in Octant(cx, cy, cz, x, y)
    ensures Vec(2 * cx - p.x, p.y, cz) in Octant(cx, cy, cz, x, y)
    ensures Vec(p.x, 2 * cy - p.y, cz) in Octant(cx, cy, cz, x, y)
    ensures Vec(cx + (p.y - cy), cy + (p.x - cx), cz) in Octant(cx, cy, cz, x, y)
  {
    var o := Octant(cx, cy, cz, x, y);
    var i :| 0 <= i < 8 && o[i] == p;
    var swap := [4, 6, 5, 7, 0, 2, 1, 3];
    var mirrorX := [2, 3, 0, 1, 6, 7, 4, 5];
    var mirrorY := [1, 0, 3, 2, 5, 4, 7, 6];
    assert o[mirrorX[i]] == Vec(2 * cx - p.x, p.y, cz);
    assert o[mirrorY[i]] == Vec(p.x, 2 * cy - p.y, cz);
    assert o[swap[i]] == Vec(cx + (p.y - cy), cy + (p.x - cx), cz);
  }

  /** Every group of eight is the set of mirror images of (k, y_k) for the
      k-th step. */
  ghost predicate Mirrored(points: seq<Vec>, cx: int, cy: int, cz: int)
    requires |points| % 8 == 0
  {
    forall k :: 0 <= k < |points| / 8 ==> Batch(points, k) == Octant(cx, cy, cz, k, Batch(points, k)[0].y - cy)
  }

  /** Every step after the first has k <= y_k <= r. */
  ghost predicate Bounded(points: seq<Vec>, cy: int, r: int)
    requires |points| % 8 == 0
  {
    forall k :: 1 <= k < |points| / 8 ==> k <= Batch(points, k)[0].y - cy <= r
  }

  /** y never increases from one group to a later one. */
  ghost predicate Descending(points: seq<Vec>)
    requires |points| % 8 == 0
  {
    forall j, k :: 0 <= j <= k < |points| / 8 ==> Batch(points, k)[0].y <= Batch(points, j)[0].y
  }

  /** The shape of circlePoints' output. */
  ghost predicate CircleGroups(points: seq<Vec>, cx: int, cy: int, cz: int, r: int)
    requires |points| % 8 == 0
  {
    Mirrored(points, cx, cy, cz) && Bounded(points, cy, r) && Descending(points)
  }

  /** Appending a group leaves the earlier groups as they were. */
  lemma BatchesKept(points: seq<Vec>, group: seq<Vec>)
    requires |points| % 8 == 0 && |group| == 8
    ensures forall k :: 0 <= k < |points| / 8 ==> Batch(points + group, k) == Batch(points, k)
    ensures Batch(points + group, |points| / 8) == group
  {
    var next := points + group;
    forall k | 0 <= k < |points| / 8
      ensures Batch(next, k) == Batch(points, k)
    {
      assert next[8 * k .. 8 * k + 8] == points[8 * k .. 8 * k + 8];
    }
    assert next[|points| .. |points| + 8] == group;
  }

  /** One pass of the loop keeps the shape. */
  lemma CircleGroupsAppend(points: seq<Vec>, cx: int, cy: int, cz: int, r: int, x: nat, y: int)
    requires |points| == 8 * x && CircleGroups(points, cx, cy, cz, r)
    requires x == 0 ==> y == r
    requires x > 0 ==> x <= y <= r
    requires forall k :: 0 <= k < x ==> y <= Batch(points, k)[0].y - cy
    ensures CircleGroups(points + Octant(cx, cy, cz, x, y), cx, cy, cz, r)
    ensures forall k :: 0 <= k < x ==> Batch(points + Octant(cx, cy, cz, x, y), k) == Batch(points, k)
    ensures Batch(points + Octant(cx, cy, cz, x, y), x) == Octant(cx, cy, cz, x, y)
  {
    var group := Octant(cx, cy, cz, x, y);
    var next := points + group;
    BatchesKept(points, group);
    assert |next| / 8 == x + 1;
    assert Batch(next, x)[0].y - cy == y;
    assert Mirrored(next, cx, cy, cz) by {
      forall k | 0 <= k < x + 1
        ensures Batch(next, k) == Octant(cx, cy, cz, k, Batch(next, k)[0].y - cy)
      {
        if k < x {
          assert Batch(next, k) == Batch(points, k);
        }
      }
    }
    assert Bounded(next, cy, r) by {
      forall k | 1 <= k < x + 1
        ensures k <= Batch(next, k)[0].y - cy <= r
      {
        if k < x {
          assert Batch(next, k) == Batch(points, k);
        }
      }
    }
    assert Descending(next) by {
      forall j, k | 0 <= j <= k < x + 1
        ensures Batch(next, k)[0].y <= Batch(next, j)[0].y
      {
        if k < x {
          assert Batch(next, k) == Batch(points, k) && Batch(next, j) == Batch(points, j);
        } else if j < x {
          assert Batch(next, j) == Batch(points, j);
        }
      }
    }
  }

  /** The midpoint-circle generator: a do-while loop that adds the eight
      mirror images of (x, y), moves x one step right and y at most one step
      down, and stops once x passes y. */
  method CirclePoints(cx: int, cy: int, cz: int, r: int) returns (points: seq<Vec>)
    ensures |points| % 8 == 0 && |points| >= 8
    ensures Batch(points, 0) == Octant(cx, cy, cz, 0, r)
    ensures CircleGroups(points, cx, cy, cz, r)
    ensures r >= 0 ==> |points| <= 8 * (r + 1)
    ensures r >= 0 ==> forall i :: 0 <= i < |points| ==>
      points[i].z == cz && Abs(points[i].x - cx) <= r && Abs(points[i].y - cy) <= r
  {
    var d := TruncDiv(5 - r * 4, 4);
    var x := 0;
    var y := r;
    points := [];
    while x == 0 || x <= y
      invariant x >= 0 && |points| == 8 * x
      invariant y <= r && (x == 0 ==> y == r)
      invariant x > 0 ==> Batch(points, 0) == Octant(cx, cy, cz, 0, r)
      invariant CircleGroups(points, cx, cy, cz, r)
      invariant forall k :: 0 <= k < x ==> y <= Batch(points, k)[0].y - cy
      invariant r >= 0 ==> x <= r + 1
      decreases if x == 0 then 1 else 0, y - x + 1
    {
      CircleGroupsAppend(points, cx, cy, cz, r, x, y);
      points := points + Octant(cx, cy, cz, x, y);
      if d < 0 {
        d := d + 2 * x + 1;
      } else {
        d := d + 2 * (x - y) + 1;
        y := y - 1;
      }
      x := x + 1;
    }
    if r >= 0 {
      CircleInSquare(points, cx, cy, cz, r);
    }
  }

  /** The first group holds the four points at distance r on the axes. */
  lemma FirstGroupOnAxes(cx: int, cy: int, cz: int, r: int)
    ensures Vec(cx, cy + r, cz) in Octant(cx, cy, cz, 0, r) && Vec(cx, cy - r, cz) in Octant(cx, cy, cz, 0, r)
    ensures Vec(cx + r, cy, cz) in Octant(cx, cy, cz, 0, r) && Vec(cx - r, cy, cz) in Octant(cx, cy, cz, 0, r)
  {
  }

  /** Groups of the shape circlePoints produces lie in the square of side 2r
      around the centre. */
  lemma CircleInSquare(points: seq<Vec>, cx: int, cy: int, cz: int, r: int)
    requires r >= 0 && |points| % 8 == 0 && |points| >= 8
    requires Batch(points, 0) == Octant(cx, cy, cz, 0, r)
    requires CircleGroups(points, cx, cy, cz, r)
    ensures forall i :: 0 <= i < |points| ==>
      points[i].z == cz && Abs(points[i].x - cx) <= r && Abs(points[i].y - cy) <= r
  {
    forall i | 0 <= i < |points|
      ensures points[i].z == cz && Abs(points[i].x - cx) <= r && Abs(points[i].y - cy) <= r
    {
      var k := i / 8;
      assert points[i] == Batch(points, k)[i - 8 * k];
    }
  }

  // ---------------------------------------------------------------------------
  // Quarter turns about the vertical axis
  // ---------------------------------------------------------------------------

  /** Rotation about the vertical (y) axis by `turns` quarter turns in exact
      arithmetic: Bukkit's rotateAroundY(turns * π / 2) maps one quarter turn
      to (x, z) -> (z, -x). */
  function QuarterTurn(v: Vec, turns: int): Vec
  {
    var t := turns % 4;
    if t == 0 then v
    else if t == 1 then Vec(v.z, v.y, -v.x)
    else if t == 2 then Vec(-v.x, v.y, -v.z)
    else Vec(-v.z, v.y, v.x)
  }

  /** Turning by a and then by b is turning by a + b, so four quarter turns
      give back the original point and turning by -t undoes turning by t. */
  lemma QuarterTurnsCompose(v: Vec, a: int, b: int)
    ensures QuarterTurn(QuarterTurn(v, a), b) == QuarterTurn(v, a + b)
  {
    assert (a + b) % 4 == (a % 4 + b % 4) % 4;
  }

  lemma QuarterTurnInjective(u: Vec, v: Vec, t: int)
    requires QuarterTurn(u, t) == QuarterTurn(v, t)
    ensures u == v
  {
    QuarterTurnsCompose(u, t, -t);
    QuarterTurnsCompose(v, t, -t);
  }
}
