/**
 * 4x4 homogeneous transformation matrices over the reals (transformation.cpp):
 * the translation, rotation and scaling builders, the identity test and the
 * left-multiplying fold that composes a sequence of transformations.
 */
module Transformation {
  import Objects

  /** A homogeneous 4-vector (x, y, z, w). */
  datatype Vec4 = Vec4(x: real, y: real, z: real, w: real)
  {
    /** The component at index i, as Eigen's operator[] gives it. */
    function At(i: nat): real
      requires i < 4
    {
      if i == 0 then x else if i == 1 then y else if i == 2 then z else w
    }
  }

  /** A 4x4 matrix given by its four rows. */
  datatype Matrix4 = Matrix4(r0: Vec4, r1: Vec4, r2: Vec4, r3: Vec4)
  {
    function Row(i: nat): Vec4
      requires i < 4
    {
      if i == 0 then r0 else if i == 1 then r1 else if i == 2 then r2 else r3
    }

    /** The entry in row i and column j, as Eigen's coeff(i, j) gives it. */
    function Coeff(i: nat, j: nat): real
      requires i < 4 && j < 4
    {
      Row(i).At(j)
    }
  }

  function Dot(u: Vec4, v: Vec4): real
  {
    u.x * v.x + u.y * v.y + u.z * v.z + u.w * v.w
  }

  function Transpose(m: Matrix4): Matrix4
  {
    Matrix4(Vec4(m.r0.x, m.r1.x, m.r2.x, m.r3.x),
            Vec4(m.r0.y, m.r1.y, m.r2.y, m.r3.y),
            Vec4(m.r0.z, m.r1.z, m.r2.z, m.r3.z),
            Vec4(m.r0.w, m.r1.w, m.r2.w, m.r3.w))
  }

  /** The matrix-vector product m * v. */
  function Apply(m: Matrix4, v: Vec4): Vec4
  {
    Vec4(Dot(m.r0, v), Dot(m.r1, v), Dot(m.r2, v), Dot(m.r3, v))
  }

  /** The matrix product a * b: row i of it is row i of a times b. */
  function Mul(a: Matrix4, b: Matrix4): Matrix4
  {
    var bt := Transpose(b);
    Matrix4(Apply(bt, a.r0), Apply(bt, a.r1), Apply(bt, a.r2), Apply(bt, a.r3))
  }

  function Identity(): Matrix4
  {
    Matrix4(Vec4(1.0, 0.0, 0.0, 0.0),
            Vec4(0.0, 1.0, 0.0, 0.0),
            Vec4(0.0, 0.0, 1.0, 0.0),
            Vec4(0.0, 0.0, 0.0, 1.0))
  }

  /** The homogeneous form (x, y, z, 1) of a point. */
  function Point(x: real, y: real, z: real): Vec4
  {
    Vec4(x, y, z, 1.0)
  }

  /** translation: the identity with (tx, ty, tz, 1) as its last column. */
  function Translation(tx: real, ty: real, tz: real): (m: Matrix4)
    ensures m.r3 == Vec4(0.0, 0.0, 0.0, 1.0)
  {
    Matrix4(Vec4(1.0, 0.0, 0.0, tx),
            Vec4(0.0, 1.0, 0.0, ty),
            Vec4(0.0, 0.0, 1.0, tz),
            Vec4(0.0, 0.0, 0.0, 1.0))
  }

  /**
   * rotation about the unit axis (rx, ry, rz) by the angle whose cosine is c
   * and whose sine is s (Rodrigues' formula in homogeneous form).
   */
  function Rotation(rx: real, ry: real, rz: real, c: real, s: real): (m: Matrix4)
    ensures m.r3 == Vec4(0.0, 0.0, 0.0, 1.0)
    ensures m.r0.w == 0.0 && m.r1.w == 0.0 && m.r2.w == 0.0
  {
    Matrix4(Vec4(rx * rx + (1.0 - rx * rx) * c, rx * ry * (1.0 - c) - rz * s, rx * rz * (1.0 - c) + ry * s, 0.0),
            Vec4(ry * rx * (1.0 - c) + rz * s, ry * ry + (1.0 - ry * ry) * c, ry * rz * (1.0 - c) - rx * s, 0.0),
            Vec4(rz * rx * (1.0 - c) - ry * s, rz * ry * (1.0 - c) + rx * s, rz * rz + (1.0 - rz * rz) * c, 0.0),
            Vec4(0.0, 0.0, 0.0, 1.0))
  }

  /** scaling: diag(sx, sy, sz, 1). */
  function Scaling(sx: real, sy: real, sz: real): (m: Matrix4)
    ensures m.r3 == Vec4(0.0, 0.0, 0.0, 1.0)
    ensures m.r0.w == 0.0 && m.r1.w == 0.0 && m.r2.w == 0.0
  {
    Matrix4(Vec4(sx, 0.0, 0.0, 0.0),
            Vec4(0.0, sy, 0.0, 0.0),
            Vec4(0.0, 0.0, sz, 0.0),
            Vec4(0.0, 0.0, 0.0, 1.0))
  }

  function Add(u: Vec4, v: Vec4): Vec4
  {
    Vec4(u.x + v.x, u.y + v.y, u.z + v.z, u.w + v.w)
  }

  function Times(k: real, v: Vec4): Vec4
  {
    Vec4(v.x * k, v.y * k, v.z * k, v.w * k)
  }

  lemma DotLinear(k: real, u: Vec4, u': Vec4, v: Vec4)
    ensures Dot(Add(u, u'), v) == Dot(u, v) + Dot(u', v)
    ensures Dot(Times(k, u), v) == k * Dot(u, v)
  {
  }

  /** The transpose of b times u is the combination of the rows of b weighted by u. */
  lemma TransposeCombines(b: Matrix4, u: Vec4)
    ensures Apply(Transpose(b), u)
      == Add(Add(Add(Times(u.x, b.r0), Times(u.y, b.r1)), Times(u.z, b.r2)), Times(u.w, b.r3))
  {
    CombinesX(b, u);
    CombinesY(b, u);
    CombinesZ(b, u);
    CombinesW(b, u);
  }

  // TransposeCombines one component at a time, which keeps each proof small.
  lemma CombinesX(b: Matrix4, u: Vec4)
    ensures Apply(Transpose(b), u).x
      == Add(Add(Add(Times(u.x, b.r0), Times(u.y, b.r1)), Times(u.z, b.r2)), Times(u.w, b.r3)).x
  {
  }

  lemma CombinesY(b: Matrix4, u: Vec4)
    ensures Apply(Transpose(b), u).y
      == Add(Add(Add(Times(u.x, b.r0), Times(u.y, b.r1)), Times(u.z, b.r2)), Times(u.w, b.r3)).y
  {
  }

  lemma CombinesZ(b: Matrix4, u: Vec4)
    ensures Apply(Transpose(b), u).z
      == Add(Add(Add(Times(u.x, b.r0), Times(u.y, b.r1)), Times(u.z, b.r2)), Times(u.w, b.r3)).z
  {
  }

  lemma CombinesW(b: Matrix4, u: Vec4)
    ensures Apply(Transpose(b), u).w
      == Add(Add(Add(Times(u.x, b.r0), Times(u.y, b.r1)), Times(u.z, b.r2)), Times(u.w, b.r3)).w
  {
  }

  /** A row u times b, dotted with v, is u dotted with b times v. */
  lemma RowTimesMatrix(b: Matrix4, u: Vec4, v: Vec4)
    ensures Dot(Apply(Transpose(b), u), v) == Dot(u, Apply(b, v))
  {
    TransposeCombines(b, u);
    var x, y, z, t := Times(u.x, b.r0), Times(u.y, b.r1), Times(u.z, b.r2), Times(u.w, b.r3);
    DotLinear(u.x, b.r0, y, v);
    DotLinear(u.y, b.r1, b.r1, v);
    DotLinear(u.z, b.r2, b.r2, v);
    DotLinear(u.w, b.r3, b.r3, v);
    DotLinear(0.0, Add(x, y), z, v);
    DotLinear(0.0, Add(Add(x, y), z), t, v);
  }

  /** Multiplying by a product is multiplying by its factors, rightmost first. */
  lemma ApplyMul(a: Matrix4, b: Matrix4, v: Vec4)
    ensures Apply(Mul(a, b), v) == Apply(a, Apply(b, v))
  {
    RowTimesMatrix(b, a.r0, v);
    RowTimesMatrix(b, a.r1, v);
    RowTimesMatrix(b, a.r2, v);
    RowTimesMatrix(b, a.r3, v);
  }

  lemma TranslationMovesPoint(tx: real, ty: real, tz: real, x: real, y: real, z: real)
    ensures Apply(Translation(tx, ty, tz), Point(x, y, z)) == Point(x + tx, y + ty, z + tz)
  {
  }

  lemma ScalingScalesPoint(sx: real, sy: real, sz: real, x: real, y: real, z: real)
    ensures Apply(Scaling(sx, sy, sz), Point(x, y, z)) == Point(sx * x, sy * y, sz * z)
  {
  }

  /** translation(a) followed by translation(b), folded as b * a, is translation(a + b). */
  lemma TranslationsCompose(x1: real, y1: real, z1: real, x2: real, y2: real, z2: real)
    ensures Mul(Translation(x2, y2, z2), Translation(x1, y1, z1)) == Translation(x1 + x2, y1 + y2, z1 + z2)
  {
    var bt := Transpose(Translation(x1, y1, z1));
    assert bt == Matrix4(Vec4(1.0, 0.0, 0.0, 0.0), Vec4(0.0, 1.0, 0.0, 0.0),
                         Vec4(0.0, 0.0, 1.0, 0.0), Vec4(x1, y1, z1, 1.0));
    assert Apply(bt, Vec4(1.0, 0.0, 0.0, x2)) == Vec4(1.0, 0.0, 0.0, x1 + x2);
    assert Apply(bt, Vec4(0.0, 1.0, 0.0, y2)) == Vec4(0.0, 1.0, 0.0, y1 + y2);
    assert Apply(bt, Vec4(0.0, 0.0, 1.0, z2)) == Vec4(0.0, 0.0, 1.0, z1 + z2);
    assert Apply(bt, Vec4(0.0, 0.0, 0.0, 1.0)) == Vec4(0.0, 0.0, 0.0, 1.0);
  }

  /** Scalings compose to the component-wise product of their factors. */
  lemma ScalingsCompose(x1: real, y1: real, z1: real, x2: real, y2: real, z2: real)
    ensures Mul(Scaling(x2, y2, z2), Scaling(x1, y1, z1)) == Scaling(x1 * x2, y1 * y2, z1 * z2)
  {
  }

  lemma NeutralBuilders()
    ensures Translation(0.0, 0.0, 0.0) == Identity()
    ensures Scaling(1.0, 1.0, 1.0) == Identity()
  {
  }

  /*
   * The rows of the rotation matrix are cyclic shifts of two row shapes, Lead
   * and Next, taken over cyclic shifts of the axis; the polynomial identities
   * are proved once for these shapes.
   */

  /** Row 0 of the rotation about (a, b, d). */
  function Lead(a: real, b: real, d: real, c: real, s: real): Vec4
  {
    Vec4(a * a + (1.0 - a * a) * c, a * b * (1.0 - c) - d * s, a * d * (1.0 - c) + b * s, 0.0)
  }

  /** Row 1 of the rotation about (a, b, d). */
  function Next(a: real, b: real, d: real, c: real, s: real): Vec4
  {
    Vec4(b * a * (1.0 - c) + d * s, b * b + (1.0 - b * b) * c, b * d * (1.0 - c) - a * s, 0.0)
  }

  /** Moves the first three components one place to the right, cyclically. */
  function Shift(v: Vec4): Vec4
  {
    Vec4(v.z, v.x, v.y, v.w)
  }

  lemma ShiftKeepsDot(u: Vec4, v: Vec4)
    ensures Dot(Shift(u), Shift(v)) == Dot(u, v)
    ensures Dot(u, v) == Dot(v, u)
  {
  }

  lemma RotationRows(rx: real, ry: real, rz: real, c: real, s: real)
    ensures var m := Rotation(rx, ry, rz, c, s);
      && m.r0 == Lead(rx, ry, rz, c, s) == Shift(Shift(Next(rz, rx, ry, c, s)))
      && m.r1 == Next(rx, ry, rz, c, s) == Shift(Lead(ry, rz, rx, c, s))
      && m.r2 == Shift(Next(ry, rz, rx, c, s)) == Shift(Shift(Lead(rz, rx, ry, c, s)))
  {
  }

  lemma LeadFixesAxisPoly(a: real, b: real, d: real, c: real, s: real)
    requires a * a + b * b + d * d == 1.0
    ensures (a * a + (1.0 - a * a) * c) * a + (a * b * (1.0 - c) - d * s) * b + (a * d * (1.0 - c) + b * s) * d == a
  {
    calc {
      (a * a + (1.0 - a * a) * c) * a + (a * b * (1.0 - c) - d * s) * b + (a * d * (1.0 - c) + b * s) * d;
      a * (a * a) + a * (1.0 - a * a) * c + a * (b * b + d * d) * (1.0 - c);
      { assert b * b + d * d == 1.0 - a * a; }
      a * (a * a) + a * (1.0 - a * a) * c + a * (1.0 - a * a) * (1.0 - c);
      a;
    }
  }

  lemma LeadNormPoly(a: real, b: real, d: real, c: real, s: real)
    requires a * a + b * b + d * d == 1.0 && c * c + s * s == 1.0
    ensures (a * a + (1.0 - a * a) * c) * (a * a + (1.0 - a * a) * c)
      + (a * b * (1.0 - c) - d * s) * (a * b * (1.0 - c) - d * s)
      + (a * d * (1.0 - c) + b * s) * (a * d * (1.0 - c) + b * s) == 1.0
  {
  }

  lemma LeadNextPoly(a: real, b: real, d: real, c: real, s: real)
    requires a * a + b * b + d * d == 1.0 && c * c + s * s == 1.0
    ensures (a * a + (1.0 - a * a) * c) * (b * a * (1.0 - c) + d * s)
      + (a * b * (1.0 - c) - d * s) * (b * b + (1.0 - b * b) * c)
      + (a * d * (1.0 - c) + b * s) * (b * d * (1.0 - c) - a * s) == 0.0
  {
  }

  /*
   * The three lemmas below substitute the entries of Lead and Next, named by
   * variables, into the monomials of their dot products.
   */

  lemma LeadAxisSum(a: real, b: real, d: real, c: real, s: real, u0: real, u1: real, u2: real)
    requires u0 == a * a + (1.0 - a * a) * c && u1 == a * b * (1.0 - c) - d * s && u2 == a * d * (1.0 - c) + b * s
    ensures u0 * a + u1 * b + u2 * d
      == (a * a + (1.0 - a * a) * c) * a + (a * b * (1.0 - c) - d * s) * b + (a * d * (1.0 - c) + b * s) * d
  {
  }

  lemma LeadLeadSum(a: real, b: real, d: real, c: real, s: real, u0: real, u1: real, u2: real)
    requires u0 == a * a + (1.0 - a * a) * c && u1 == a * b * (1.0 - c) - d * s && u2 == a * d * (1.0 - c) + b * s
    ensures u0 * u0 + u1 * u1 + u2 * u2
      == (a * a + (1.0 - a * a) * c) * (a * a + (1.0 - a * a) * c)
      + (a * b * (1.0 - c) - d * s) * (a * b * (1.0 - c) - d * s)
      + (a * d * (1.0 - c) + b * s) * (a * d * (1.0 - c) + b * s)
  {
  }

  lemma LeadNextSum(a: real, b: real, d: real, c: real, s: real,
                    u0: real, u1: real, u2: real, v0: real, v1: real, v2: real)
    requires u0 == a * a + (1.0 - a * a) * c && u1 == a * b * (1.0 - c) - d * s && u2 == a * d * (1.0 - c) + b * s
    requires v0 == b * a * (1.0 - c) + d * s && v1 == b * b + (1.0 - b * b) * c && v2 == b * d * (1.0 - c) - a * s
    ensures u0 * v0 + u1 * v1 + u2 * v2
      == (a * a + (1.0 - a * a) * c) * (b * a * (1.0 - c) + d * s)
      + (a * b * (1.0 - c) - d * s) * (b * b + (1.0 - b * b) * c)
      + (a * d * (1.0 - c) + b * s) * (b * d * (1.0 - c) - a * s)
  {
  }

  lemma LeadNextDots(a: real, b: real, d: real, c: real, s: real)
    requires a * a + b * b + d * d == 1.0
    ensures Dot(Lead(a, b, d, c, s), Point(a, b, d)) == a
    ensures c * c + s * s == 1.0 ==> Dot(Lead(a, b, d, c, s), Lead(a, b, d, c, s)) == 1.0
    ensures c * c + s * s == 1.0 ==> Dot(Lead(a, b, d, c, s), Next(a, b, d, c, s)) == 0.0
  {
    var u, v := Lead(a, b, d, c, s), Next(a, b, d, c, s);
    assert Dot(u, Point(a, b, d)) == a by {
      LeadAxisSum(a, b, d, c, s, u.x, u.y, u.z);
      LeadFixesAxisPoly(a, b, d, c, s);
    }
    if c * c + s * s == 1.0 {
      assert Dot(u, u) == 1.0 by {
        LeadLeadSum(a, b, d, c, s, u.x, u.y, u.z);
        LeadNormPoly(a, b, d, c, s);
      }
      assert Dot(u, v) == 0.0 by {
        LeadNextSum(a, b, d, c, s, u.x, u.y, u.z, v.x, v.y, v.z);
        LeadNextPoly(a, b, d, c, s);
      }
    }
  }

  /** Row 0 of the rotation about (a, b, e) applied to (x, y, z, 1), where dd is the axis dotted with the point. */
  lemma LeadApply(a: real, b: real, e: real, c: real, s: real, x: real, y: real, z: real, dd: real)
    requires dd == a * x + b * y + e * z
    ensures Dot(Lead(a, b, e, c, s), Point(x, y, z)) == c * x + (1.0 - c) * dd * a + s * (b * z - e * y)
  {
    calc {
      Dot(Lead(a, b, e, c, s), Point(x, y, z));
      (a * a + (1.0 - a * a) * c) * x + (a * b * (1.0 - c) - e * s) * y + (a * e * (1.0 - c) + b * s) * z;
      c * x + (1.0 - c) * (a * x + b * y + e * z) * a + s * (b * z - e * y);
    }
  }

  /**
   * Rodrigues' rotation formula: the point p goes to
   * c p + (1 - c) (r . p) r + s (r x p), which turns p counterclockwise about
   * r by the angle whose cosine is c and whose sine is s. No unit axis is needed.
   */
  lemma RotationRodrigues(rx: real, ry: real, rz: real, c: real, s: real, x: real, y: real, z: real)
    ensures var d := rx * x + ry * y + rz * z;
      Apply(Rotation(rx, ry, rz, c, s), Point(x, y, z))
        == Point(c * x + (1.0 - c) * d * rx + s * (ry * z - rz * y),
                 c * y + (1.0 - c) * d * ry + s * (rz * x - rx * z),
                 c * z + (1.0 - c) * d * rz + s * (rx * y - ry * x))
  {
    var d := rx * x + ry * y + rz * z;
    RotationRows(rx, ry, rz, c, s);
    LeadApply(rx, ry, rz, c, s, x, y, z, d);
    LeadApply(ry, rz, rx, c, s, y, z, x, d);
    ShiftKeepsDot(Lead(ry, rz, rx, c, s), Point(y, z, x));
    LeadApply(rz, rx, ry, c, s, z, x, y, d);
    ShiftKeepsDot(Shift(Lead(rz, rx, ry, c, s)), Shift(Point(z, x, y)));
    ShiftKeepsDot(Lead(rz, rx, ry, c, s), Point(z, x, y));
  }

  /** A quarter turn about +z takes the x axis to the y axis: counterclockwise seen from +z. */
  lemma RotationQuarterTurn()
    ensures Apply(Rotation(0.0, 0.0, 1.0, 0.0, 1.0), Point(1.0, 0.0, 0.0)) == Point(0.0, 1.0, 0.0)
  {
    assert Rotation(0.0, 0.0, 1.0, 0.0, 1.0).r0 == Vec4(0.0, -1.0, 0.0, 0.0);
    assert Rotation(0.0, 0.0, 1.0, 0.0, 1.0).r1 == Vec4(1.0, 0.0, 0.0, 0.0);
  }

  /** For a unit axis, the rotation leaves every point of the axis where it is. */
  lemma RotationFixesAxis(rx: real, ry: real, rz: real, c: real, s: real)
    requires rx * rx + ry * ry + rz * rz == 1.0
    ensures Apply(Rotation(rx, ry, rz, c, s), Point(rx, ry, rz)) == Point(rx, ry, rz)
  {
    RotationRows(rx, ry, rz, c, s);
    LeadNextDots(rx, ry, rz, c, s);
    LeadNextDots(ry, rz, rx, c, s);
    LeadNextDots(rz, rx, ry, c, s);
    ShiftKeepsDot(Lead(ry, rz, rx, c, s), Point(ry, rz, rx));
    ShiftKeepsDot(Lead(rz, rx, ry, c, s), Point(rz, rx, ry));
    ShiftKeepsDot(Shift(Lead(rz, rx, ry, c, s)), Shift(Point(rz, rx, ry)));
  }

  /** The rotation's last row and last column are those of the identity. */
  lemma RotationIsLinear(rx: real, ry: real, rz: real, c: real, s: real)
    ensures var m := Rotation(rx, ry, rz, c, s);
      m.r3 == Vec4(0.0, 0.0, 0.0, 1.0) && m.r0.w == m.r1.w == m.r2.w == 0.0
  {
  }

  /**
   * For a unit axis and c*c + s*s == 1 the rotation times its transpose is the
   * identity, so its transpose is its inverse.
   */
  lemma RotationOrthogonal(rx: real, ry: real, rz: real, c: real, s: real)
    requires rx * rx + ry * ry + rz * rz == 1.0
    requires c * c + s * s == 1.0
    ensures Mul(Rotation(rx, ry, rz, c, s), Transpose(Rotation(rx, ry, rz, c, s))) == Identity()
  {
    var m := Rotation(rx, ry, rz, c, s);
    RotationRows(rx, ry, rz, c, s);
    LeadNextDots(rx, ry, rz, c, s);
    LeadNextDots(ry, rz, rx, c, s);
    LeadNextDots(rz, rx, ry, c, s);
    var l1, n1 := Lead(ry, rz, rx, c, s), Next(ry, rz, rx, c, s);
    var l2, n2 := Lead(rz, rx, ry, c, s), Next(rz, rx, ry, c, s);
    ShiftKeepsDot(l1, l1);
    ShiftKeepsDot(l1, n1);
    ShiftKeepsDot(l2, l2);
    ShiftKeepsDot(Shift(l2), Shift(l2));
    ShiftKeepsDot(l2, n2);
    ShiftKeepsDot(Shift(l2), Shift(n2));
    assert Dot(m.r0, m.r0) == 1.0 && Dot(m.r1, m.r1) == 1.0 && Dot(m.r2, m.r2) == 1.0;
    assert Dot(m.r0, m.r1) == 0.0 && Dot(m.r1, m.r2) == 0.0 && Dot(m.r2, m.r0) == 0.0;
    ShiftKeepsDot(m.r0, m.r1);
    ShiftKeepsDot(m.r1, m.r2);
    ShiftKeepsDot(m.r2, m.r0);
    assert Transpose(Transpose(m)) == m;
  }

  /** isClose of utils.h, with its tolerance made explicit. */
  predicate IsClose(a: real, b: real, tol: real) {
    a - b <= tol && b - a <= tol
  }

  /** Every entry of m is close to the identity's entry. */
  predicate NearIdentity(m: Matrix4, tol: real) {
    forall i, j | 0 <= i < 4 && 0 <= j < 4 :: IsClose(Identity().Coeff(i, j), m.Coeff(i, j), tol)
  }

  /** isIdentity: compares entry by entry, giving up at the first entry that is not close. */
  method IsIdentity(m: Matrix4, tol: real) returns (b: bool)
    ensures b <==> NearIdentity(m, tol)
  {
    var identity := Identity();
    for i := 0 to 4
      invariant forall i', j | 0 <= i' < i && 0 <= j < 4 :: IsClose(identity.Coeff(i', j), m.Coeff(i', j), tol)
    {
      for j := 0 to 4
        invariant forall j' | 0 <= j' < j :: IsClose(identity.Coeff(i, j'), m.Coeff(i, j'), tol)
      {
        if !IsClose(identity.Coeff(i, j), m.Coeff(i, j), tol) {
          return false;
        }
      }
    }
    return true;
  }

  /** With a non-negative tolerance the identity, translation(0,0,0) and scaling(1,1,1) pass. */
  lemma NeutralBuildersNearIdentity(tol: real)
    requires tol >= 0.0
    ensures NearIdentity(Identity(), tol)
    ensures NearIdentity(Translation(0.0, 0.0, 0.0), tol)
    ensures NearIdentity(Scaling(1.0, 1.0, 1.0), tol)
  {
    NeutralBuilders();
  }

  /** One entry further than the tolerance from the identity's is enough to fail. */
  lemma FarEntryNotIdentity(m: Matrix4, tol: real, i: nat, j: nat)
    requires i < 4 && j < 4
    requires m.Coeff(i, j) - Identity().Coeff(i, j) > tol || Identity().Coeff(i, j) - m.Coeff(i, j) > tol
    ensures !NearIdentity(m, tol)
  {
  }

  /** One transformation line of a format file, after its numbers are read. */
  datatype TransformSpec =
    | Translate(tx: real, ty: real, tz: real)
      /** the axis after normalisation; c and s are the cosine and sine of the angle */
    | Rotate(rx: real, ry: real, rz: real, c: real, s: real)
    | Scale(sx: real, sy: real, sz: real)

  function SpecMatrix(t: TransformSpec): Matrix4
  {
    match t
    case Translate(tx, ty, tz) => Translation(tx, ty, tz)
    case Rotate(rx, ry, rz, c, s) => Rotation(rx, ry, rz, c, s)
    case Scale(sx, sy, sz) => Scaling(sx, sy, sz)
  }

  /** The fold of computeGrandProduct: the first matrix as it is, each later one multiplied on the left. */
  function GrandProduct(ts: seq<TransformSpec>): (m: Matrix4)
    requires |ts| > 0
    ensures m.r3 == Vec4(0.0, 0.0, 0.0, 1.0)
  {
    if |ts| == 1 then SpecMatrix(ts[0])
    else Mul(SpecMatrix(ts[|ts| - 1]), GrandProduct(ts[..|ts| - 1]))
  }

  /** Applies the transformations to a point one at a time, in file order. */
  function ApplyInOrder(ts: seq<TransformSpec>, p: Vec4): Vec4
  {
    if ts == [] then p else ApplyInOrder(ts[1..], Apply(SpecMatrix(ts[0]), p))
  }

  lemma {:induction false} ApplyInOrderSnoc(ts: seq<TransformSpec>, t: TransformSpec, p: Vec4)
    ensures ApplyInOrder(ts + [t], p) == Apply(SpecMatrix(t), ApplyInOrder(ts, p))
    decreases |ts|
  {
    if ts != [] {
      assert (ts + [t])[1..] == ts[1..] + [t];
      ApplyInOrderSnoc(ts[1..], t, Apply(SpecMatrix(ts[0]), p));
    }
  }

  /** The product Tn * ... * T1 applied to a point acts as T1 first and Tn last. */
  lemma {:induction false} GrandProductAppliesInOrder(ts: seq<TransformSpec>, p: Vec4)
    requires |ts| > 0
    ensures Apply(GrandProduct(ts), p) == ApplyInOrder(ts, p)
    decreases |ts|
  {
    if |ts| == 1 {
      assert ApplyInOrder(ts[1..], Apply(SpecMatrix(ts[0]), p)) == Apply(SpecMatrix(ts[0]), p);
    } else {
      var init, last := ts[..|ts| - 1], ts[|ts| - 1];
      assert ts == init + [last];
      ApplyMul(SpecMatrix(last), GrandProduct(init), p);
      GrandProductAppliesInOrder(init, p);
      ApplyInOrderSnoc(init, last, p);
    }
  }

  /** One more line multiplies the fold on the left. */
  lemma GrandProductSnoc(init: seq<TransformSpec>, last: TransformSpec)
    requires |init| > 0
    ensures GrandProduct(init + [last]) == Mul(SpecMatrix(last), GrandProduct(init))
  {
    var ts := init + [last];
    assert ts[..|ts| - 1] == init;
  }

  /** The fold of the first i + 1 lines multiplies the fold of the first i by line i. */
  lemma GrandProductPrefix(ts: seq<TransformSpec>, i: nat)
    requires 0 < i < |ts|
    ensures GrandProduct(ts[..i + 1]) == Mul(SpecMatrix(ts[i]), GrandProduct(ts[..i]))
  {
    assert ts[..i + 1][..i] == ts[..i];
  }

  /** Three transformations in file order fold to T3 * T2 * T1. */
  lemma GrandProductOfThree(t1: TransformSpec, t2: TransformSpec, t3: TransformSpec)
    ensures GrandProduct([t1, t2, t3]) == Mul(SpecMatrix(t3), Mul(SpecMatrix(t2), SpecMatrix(t1)))
  {
    assert [t1, t2, t3] == [t1, t2] + [t3];
    assert [t1, t2] == [t1] + [t2];
    GrandProductSnoc([t1, t2], t3);
    GrandProductSnoc([t1], t2);
  }

  /** A translation line followed by another folds to the translation by their sum. */
  lemma TranslationLinesCompose(x1: real, y1: real, z1: real, x2: real, y2: real, z2: real)
    ensures GrandProduct([Translate(x1, y1, z1), Translate(x2, y2, z2)])
      == Translation(x1 + x2, y1 + y2, z1 + z2)
  {
    assert [Translate(x1, y1, z1), Translate(x2, y2, z2)] == [Translate(x1, y1, z1)] + [Translate(x2, y2, z2)];
    GrandProductSnoc([Translate(x1, y1, z1)], Translate(x2, y2, z2));
    TranslationsCompose(x1, y1, z1, x2, y2, z2);
  }

  /**
   * The library numerics a transformation line is read with: std::stod, the
   * cos and sin of <cmath>, and Eigen's normalize of the rotation axis.
   */
  datatype Numerics = Numerics(stod: string -> real, cos: real -> real, sin: real -> real,
                               normalize: (real, real, real) -> (real, real, real))

  /** A tokenised transformation line holds its tag and the numbers the tag reads: four for 'r', three otherwise. */
  predicate WellFormedSpecLine(tokens: seq<string>) {
    |tokens| >= 4 && (Objects.FirstChar(tokens[0]) == 'r' ==> |tokens| >= 5)
  }

  /**
   * The transformation a line denotes, classified by the first character of
   * its tag: 't' translates, 'r' rotates about the normalised axis by the
   * angle in radians, and every other tag scales.
   */
  function SpecOf(tokens: seq<string>, num: Numerics): (t: TransformSpec)
    requires WellFormedSpecLine(tokens)
    ensures t.Translate? <==> Objects.FirstChar(tokens[0]) == 't'
    ensures t.Rotate? <==> Objects.FirstChar(tokens[0]) == 'r'
    ensures t.Scale? <==> Objects.FirstChar(tokens[0]) != 't' && Objects.FirstChar(tokens[0]) != 'r'
    ensures t.Translate? ==> t == Translate(num.stod(tokens[1]), num.stod(tokens[2]), num.stod(tokens[3]))
    ensures t.Scale? ==> t == Scale(num.stod(tokens[1]), num.stod(tokens[2]), num.stod(tokens[3]))
    ensures t.Rotate? ==> (t.rx, t.ry, t.rz) == num.normalize(num.stod(tokens[1]), num.stod(tokens[2]), num.stod(tokens[3]))
    ensures t.Rotate? ==> t.c == num.cos(num.stod(tokens[4])) && t.s == num.sin(num.stod(tokens[4]))
  {
    var x, y, z := num.stod(tokens[1]), num.stod(tokens[2]), num.stod(tokens[3]);
    match Objects.FirstChar(tokens[0])
    case 't' => Translate(x, y, z)
    case 'r' =>
      var (rx, ry, rz) := num.normalize(x, y, z);
      var rad := num.stod(tokens[4]);
      Rotate(rx, ry, rz, num.cos(rad), num.sin(rad))
    case _ => Scale(x, y, z)
  }

  /** Any tag other than 't' and 'r' scales, an upper-case 'T' and an empty tag included. */
  lemma ScalingIsTheFallback(num: Numerics)
    ensures SpecOf(["s", "2", "3", "4"], num) == Scale(num.stod("2"), num.stod("3"), num.stod("4"))
    ensures SpecOf(["x", "2", "3", "4"], num).Scale?
    ensures SpecOf(["T", "2", "3", "4"], num).Scale?
    ensures SpecOf(["", "2", "3", "4"], num).Scale?
    ensures SpecOf(["translate", "2", "3", "4"], num) == Translate(num.stod("2"), num.stod("3"), num.stod("4"))
  {
  }

  /** The transformations of a run of lines, in file order. */
  function SpecsOf(lines: seq<seq<string>>, num: Numerics): (ts: seq<TransformSpec>)
    requires forall i | 0 <= i < |lines| :: WellFormedSpecLine(lines[i])
    ensures |ts| == |lines|
    ensures forall i | 0 <= i < |lines| :: ts[i] == SpecOf(lines[i], num)
  {
    seq(|lines|, i requires 0 <= i < |lines| => SpecOf(lines[i], num))
  }

  /**
   * computeGrandProduct's loop over the tokenised lines of a transformation
   * file: each line is classified by its tag, the first matrix is taken as
   * it is (first_run) and every later one multiplies the product on the left.
   */
  method ComputeGrandProduct(lines: seq<seq<string>>, num: Numerics) returns (product: Matrix4)
    requires |lines| > 0 && forall i | 0 <= i < |lines| :: WellFormedSpecLine(lines[i])
    ensures product == GrandProduct(SpecsOf(lines, num))
  {
    ghost var ts := SpecsOf(lines, num);
    product := Identity();
    var firstRun := true;
    for i := 0 to |lines|
      invariant firstRun <==> i == 0
      invariant i > 0 ==> product == GrandProduct(ts[..i])
    {
      var element := lines[i];
      var curr: Matrix4;
      if Objects.FirstChar(element[0]) == 't' {
        curr := Translation(num.stod(element[1]), num.stod(element[2]), num.stod(element[3]));
      } else if Objects.FirstChar(element[0]) == 'r' {
        var (rx, ry, rz) := num.normalize(num.stod(element[1]), num.stod(element[2]), num.stod(element[3]));
        var rad := num.stod(element[4]);
        curr := Rotation(rx, ry, rz, num.cos(rad), num.sin(rad));
      } else {
        curr := Scaling(num.stod(element[1]), num.stod(element[2]), num.stod(element[3]));
      }
      assert curr == SpecMatrix(ts[i]);
      if firstRun {
        assert ts[..i + 1] == [ts[0]];
        product := curr;
        firstRun := false;
        continue;
      }
      GrandProductPrefix(ts, i);
      product := Mul(curr, product);
    }
    assert ts[..|ts|] == ts;
  }
}
