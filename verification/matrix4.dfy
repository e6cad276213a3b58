/**
 css3d.matrix4: 4x4 matrices stored as 16 entries in row-major order, so
 that entry `m[4*i + j]` is row i, column j and the translation of an
 affine transform sits in entries 3, 7 and 11. The datatype names entry k
 `mk`.
 */
module Matrix4 {
  import opened Scalar
  import opened Vector3

  datatype Mat4 = Mat4(
    m0: real, m1: real, m2: real, m3: real,
    m4: real, m5: real, m6: real, m7: real,
    m8: real, m9: real, m10: real, m11: real,
    m12: real, m13: real, m14: real, m15: real)

  const Identity: Mat4 := Mat4(
    1.0, 0.0, 0.0, 0.0,
    0.0, 1.0, 0.0, 0.0,
    0.0, 0.0, 1.0, 0.0,
    0.0, 0.0, 0.0, 1.0)

  /** One entry of a product: a row of the left factor times a column of the right one. */
  function Dot4(a0: real, a1: real, a2: real, a3: real, b0: real, b1: real, b2: real, b3: real): real
  {
    a0 * b0 + a1 * b1 + a2 * b2 + a3 * b3
  }

  /** `multiply(a, b)`: the matrix product a * b. */
  function Multiply(a: Mat4, b: Mat4): Mat4
  {
    Mat4(Dot4(a.m0, a.m1, a.m2, a.m3, b.m0, b.m4, b.m8, b.m12),
         Dot4(a.m0, a.m1, a.m2, a.m3, b.m1, b.m5, b.m9, b.m13),
         Dot4(a.m0, a.m1, a.m2, a.m3, b.m2, b.m6, b.m10, b.m14),
         Dot4(a.m0, a.m1, a.m2, a.m3, b.m3, b.m7, b.m11, b.m15),
         Dot4(a.m4, a.m5, a.m6, a.m7, b.m0, b.m4, b.m8, b.m12),
         Dot4(a.m4, a.m5, a.m6, a.m7, b.m1, b.m5, b.m9, b.m13),
         Dot4(a.m4, a.m5, a.m6, a.m7, b.m2, b.m6, b.m10, b.m14),
         Dot4(a.m4, a.m5, a.m6, a.m7, b.m3, b.m7, b.m11, b.m15),
         Dot4(a.m8, a.m9, a.m10, a.m11, b.m0, b.m4, b.m8, b.m12),
         Dot4(a.m8, a.m9, a.m10, a.m11, b.m1, b.m5, b.m9, b.m13),
         Dot4(a.m8, a.m9, a.m10, a.m11, b.m2, b.m6, b.m10, b.m14),
         Dot4(a.m8, a.m9, a.m10, a.m11, b.m3, b.m7, b.m11, b.m15),
         Dot4(a.m12, a.m13, a.m14, a.m15, b.m0, b.m4, b.m8, b.m12),
         Dot4(a.m12, a.m13, a.m14, a.m15, b.m1, b.m5, b.m9, b.m13),
         Dot4(a.m12, a.m13, a.m14, a.m15, b.m2, b.m6, b.m10, b.m14),
         Dot4(a.m12, a.m13, a.m14, a.m15, b.m3, b.m7, b.m11, b.m15))
  }

  /** The identity matrix is a two-sided unit of `multiply`. */
  lemma IdentityUnit(m: Mat4)
    ensures Multiply(Identity, m) == m
    ensures Multiply(m, Identity) == m
  {
  }

  /** Entry (i, j) of (a * b) * c equals entry (i, j) of a * (b * c), for row r of a and column c of c. */
  lemma EntryAssociative(r0: real, r1: real, r2: real, r3: real,
                         b0: real, b1: real, b2: real, b3: real,
                         b4: real, b5: real, b6: real, b7: real,
                         b8: real, b9: real, b10: real, b11: real,
                         b12: real, b13: real, b14: real, b15: real,
                         c0: real, c1: real, c2: real, c3: real)
    ensures Dot4(Dot4(r0, r1, r2, r3, b0, b4, b8, b12),
                 Dot4(r0, r1, r2, r3, b1, b5, b9, b13),
                 Dot4(r0, r1, r2, r3, b2, b6, b10, b14),
                 Dot4(r0, r1, r2, r3, b3, b7, b11, b15), c0, c1, c2, c3)
         == Dot4(r0, r1, r2, r3,
                 Dot4(b0, b1, b2, b3, c0, c1, c2, c3),
                 Dot4(b4, b5, b6, b7, c0, c1, c2, c3),
                 Dot4(b8, b9, b10, b11, c0, c1, c2, c3),
                 Dot4(b12, b13, b14, b15, c0, c1, c2, c3))
  {
  }

  /** `multiply` is associative. */
  lemma MultiplyAssociative(a: Mat4, b: Mat4, c: Mat4)
    ensures Multiply(Multiply(a, b), c) == Multiply(a, Multiply(b, c))
  {
    EntryAssociative(a.m0, a.m1, a.m2, a.m3, b.m0, b.m1, b.m2, b.m3, b.m4, b.m5, b.m6, b.m7, b.m8, b.m9, b.m10, b.m11, b.m12, b.m13, b.m14, b.m15, c.m0, c.m4, c.m8, c.m12);
    EntryAssociative(a.m0, a.m1, a.m2, a.m3, b.m0, b.m1, b.m2, b.m3, b.m4, b.m5, b.m6, b.m7, b.m8, b.m9, b.m10, b.m11, b.m12, b.m13, b.m14, b.m15, c.m1, c.m5, c.m9, c.m13);
    EntryAssociative(a.m0, a.m1, a.m2, a.m3, b.m0, b.m1, b.m2, b.m3, b.m4, b.m5, b.m6, b.m7, b.m8, b.m9, b.m10, b.m11, b.m12, b.m13, b.m14, b.m15, c.m2, c.m6, c.m10, c.m14);
    EntryAssociative(a.m0, a.m1, a.m2, a.m3, b.m0, b.m1, b.m2, b.m3, b.m4, b.m5, b.m6, b.m7, b.m8, b.m9, b.m10, b.m11, b.m12, b.m13, b.m14, b.m15, c.m3, c.m7, c.m11, c.m15);
    EntryAssociative(a.m4, a.m5, a.m6, a.m7, b.m0, b.m1, b.m2, b.m3, b.m4, b.m5, b.m6, b.m7, b.m8, b.m9, b.m10, b.m11, b.m12, b.m13, b.m14, b.m15, c.m0, c.m4, c.m8, c.m12);
    EntryAssociative(a.m4, a.m5, a.m6, a.m7, b.m0, b.m1, b.m2, b.m3, b.m4, b.m5, b.m6, b.m7, b.m8, b.m9, b.m10, b.m11, b.m12, b.m13, b.m14, b.m15, c.m1, c.m5, c.m9, c.m13);
    EntryAssociative(a.m4, a.m5, a.m6, a.m7, b.m0, b.m1, b.m2, b.m3, b.m4, b.m5, b.m6, b.m7, b.m8, b.m9, b.m10, b.m11, b.m12, b.m13, b.m14, b.m15, c.m2, c.m6, c.m10, c.m14);
    EntryAssociative(a.m4, a.m5, a.m6, a.m7, b.m0, b.m1, b.m2, b.m3, b.m4, b.m5, b.m6, b.m7, b.m8, b.m9, b.m10, b.m11, b.m12, b.m13, b.m14, b.m15, c.m3, c.m7, c.m11, c.m15);
    EntryAssociative(a.m8, a.m9, a.m10, a.m11, b.m0, b.m1, b.m2, b.m3, b.m4, b.m5, b.m6, b.m7, b.m8, b.m9, b.m10, b.m11, b.m12, b.m13, b.m14, b.m15, c.m0, c.m4, c.m8, c.m12);
    EntryAssociative(a.m8, a.m9, a.m10, a.m11, b.m0, b.m1, b.m2, b.m3, b.m4, b.m5, b.m6, b.m7, b.m8, b.m9, b.m10, b.m11, b.m12, b.m13, b.m14, b.m15, c.m1, c.m5, c.m9, c.m13);
    EntryAssociative(a.m8, a.m9, a.m10, a.m11, b.m0, b.m1, b.m2, b.m3, b.m4, b.m5, b.m6, b.m7, b.m8, b.m9, b.m10, b.m11, b.m12, b.m13, b.m14, b.m15, c.m2, c.m6, c.m10, c.m14);
    EntryAssociative(a.m8, a.m9, a.m10, a.m11, b.m0, b.m1, b.m2, b.m3, b.m4, b.m5, b.m6, b.m7, b.m8, b.m9, b.m10, b.m11, b.m12, b.m13, b.m14, b.m15, c.m3, c.m7, c.m11, c.m15);
    EntryAssociative(a.m12, a.m13, a.m14, a.m15, b.m0, b.m1, b.m2, b.m3, b.m4, b.m5, b.m6, b.m7, b.m8, b.m9, b.m10, b.m11, b.m12, b.m13, b.m14, b.m15, c.m0, c.m4, c.m8, c.m12);
    EntryAssociative(a.m12, a.m13, a.m14, a.m15, b.m0, b.m1, b.m2, b.m3, b.m4, b.m5, b.m6, b.m7, b.m8, b.m9, b.m10, b.m11, b.m12, b.m13, b.m14, b.m15, c.m1, c.m5, c.m9, c.m13);
    EntryAssociative(a.m12, a.m13, a.m14, a.m15, b.m0, b.m1, b.m2, b.m3, b.m4, b.m5, b.m6, b.m7, b.m8, b.m9, b.m10, b.m11, b.m12, b.m13, b.m14, b.m15, c.m2, c.m6, c.m10, c.m14);
    EntryAssociative(a.m12, a.m13, a.m14, a.m15, b.m0, b.m1, b.m2, b.m3, b.m4, b.m5, b.m6, b.m7, b.m8, b.m9, b.m10, b.m11, b.m12, b.m13, b.m14, b.m15, c.m3, c.m7, c.m11, c.m15);
  }

  /**
   `rotationX(angle)` with `c = Math.cos(angle)` and `s = Math.sin(angle)`
   passed in; the same holds for the Y, Z and axis rotations below.
   */
  function RotationX(c: real, s: real): Mat4
  {
    Mat4(1.0, 0.0, 0.0, 0.0,
         0.0, c, -s, 0.0,
         0.0, s, c, 0.0,
         0.0, 0.0, 0.0, 1.0)
  }

  function RotationY(c: real, s: real): Mat4
  {
    Mat4(c, 0.0, s, 0.0,
         0.0, 1.0, 0.0, 0.0,
         -s, 0.0, c, 0.0,
         0.0, 0.0, 0.0, 1.0)
  }

  function RotationZ(c: real, s: real): Mat4
  {
    Mat4(c, -s, 0.0, 0.0,
         s, c, 0.0, 0.0,
         0.0, 0.0, 1.0, 0.0,
         0.0, 0.0, 0.0, 1.0)
  }

  /** `rotationAxis(axis, angle)`: the Rodrigues rotation about `axis`, with t = 1 - c. */
  function RotationAxis(axis: Vec3, c: real, s: real): Mat4
  {
    var t := 1.0 - c;
    var x, y, z := axis.x, axis.y, axis.z;
    var tx, ty := t * x, t * y;
    Mat4(tx * x + c, tx * y - s * z, tx * z + s * y, 0.0,
         tx * y + s * z, ty * y + c, ty * z - s * x, 0.0,
         tx * z - s * y, ty * z + s * x, t * z * z + c, 0.0,
         0.0, 0.0, 0.0, 1.0)
  }

  /** Rotations about one axis compose by the angle-addition formulas. */
  lemma RotationsCompose(c1: real, s1: real, c2: real, s2: real)
    ensures Multiply(RotationX(c1, s1), RotationX(c2, s2)) == RotationX(c1 * c2 - s1 * s2, s1 * c2 + c1 * s2)
    ensures Multiply(RotationY(c1, s1), RotationY(c2, s2)) == RotationY(c1 * c2 - s1 * s2, s1 * c2 + c1 * s2)
    ensures Multiply(RotationZ(c1, s1), RotationZ(c2, s2)) == RotationZ(c1 * c2 - s1 * s2, s1 * c2 + c1 * s2)
  {
  }

  /** The zero angle (c, s) = (1, 0) gives the identity, about any axis. */
  lemma RotationOfZeroAngle(axis: Vec3)
    ensures RotationX(1.0, 0.0) == Identity
    ensures RotationY(1.0, 0.0) == Identity
    ensures RotationZ(1.0, 0.0) == Identity
    ensures RotationAxis(axis, 1.0, 0.0) == Identity
  {
  }

  /** About the unit z axis, `rotationAxis` is `rotationZ`; likewise for x and y. */
  lemma RotationAxisOfBasis(c: real, s: real)
    ensures RotationAxis(Vec3(1.0, 0.0, 0.0), c, s) == RotationX(c, s)
    ensures RotationAxis(Vec3(0.0, 1.0, 0.0), c, s) == RotationY(c, s)
    ensures RotationAxis(Vec3(0.0, 0.0, 1.0), c, s) == RotationZ(c, s)
  {
  }

  /** `scale(x, y, z)`. */
  function Scale(x: real, y: real, z: real): Mat4
  {
    Mat4(x, 0.0, 0.0, 0.0,
         0.0, y, 0.0, 0.0,
         0.0, 0.0, z, 0.0,
         0.0, 0.0, 0.0, 1.0)
  }

  /** `translation(x, y, z)`. */
  function Translation(x: real, y: real, z: real): Mat4
  {
    Mat4(1.0, 0.0, 0.0, x,
         0.0, 1.0, 0.0, y,
         0.0, 0.0, 1.0, z,
         0.0, 0.0, 0.0, 1.0)
  }

  /** Translations add and scales multiply, componentwise. */
  lemma TranslationAndScaleCompose(a: Vec3, b: Vec3)
    ensures Multiply(Translation(a.x, a.y, a.z), Translation(b.x, b.y, b.z))
         == Translation(a.x + b.x, a.y + b.y, a.z + b.z)
    ensures Multiply(Scale(a.x, a.y, a.z), Scale(b.x, b.y, b.z))
         == Scale(a.x * b.x, a.y * b.y, a.z * b.z)
    ensures Translation(0.0, 0.0, 0.0) == Identity == Scale(1.0, 1.0, 1.0)
  {
  }

  /** Translating by v and then by -v cancels. */
  lemma TranslationInverse(v: Vec3)
    ensures Multiply(Translation(v.x, v.y, v.z), Translation(-v.x, -v.y, -v.z)) == Identity
    ensures Multiply(Translation(-v.x, -v.y, -v.z), Translation(v.x, v.y, v.z)) == Identity
  {
  }

  /** `right(m)`: the first column of the 3x3 block. */
  function Right(m: Mat4): Vec3
  {
    Vec3(m.m0, m.m4, m.m8)
  }

  /** `up(m)`: the negated second column (the screen's y axis points down). */
  function Up(m: Mat4): Vec3
  {
    Vec3(-m.m1, -m.m5, -m.m9)
  }

  /** `back(m)`: the third column. */
  function Back(m: Mat4): Vec3
  {
    Vec3(m.m2, m.m6, m.m10)
  }

  /** `forward(m)`: the negated third column. */
  function Forward(m: Mat4): Vec3
  {
    Vec3(-m.m2, -m.m6, -m.m10)
  }

  /** Forward is the opposite of back; on the identity the four readers give the axes. */
  lemma BasisReaders(m: Mat4)
    ensures Add(Forward(m), Back(m)) == Zero
    ensures Right(Identity) == Vec3(1.0, 0.0, 0.0)
    ensures Up(Identity) == Vec3(0.0, -1.0, 0.0)
    ensures Back(Identity) == Vec3(0.0, 0.0, 1.0)
    ensures Forward(Identity) == Vec3(0.0, 0.0, -1.0)
  {
  }

  /** `transpose(m)`: rows become columns. */
  function Transpose(m: Mat4): Mat4
  {
    Mat4(m.m0, m.m4, m.m8, m.m12,
         m.m1, m.m5, m.m9, m.m13,
         m.m2, m.m6, m.m10, m.m14,
         m.m3, m.m7, m.m11, m.m15)
  }

  /** Transposing twice gives the matrix back, and transposition reverses products. */
  lemma TransposeLaws(a: Mat4, b: Mat4)
    ensures Transpose(Transpose(a)) == a
    ensures Transpose(Multiply(a, b)) == Multiply(Transpose(b), Transpose(a))
    ensures Transpose(Identity) == Identity
  {
    TransposeProduct(a, b);
  }

  lemma TransposeProduct(a: Mat4, b: Mat4)
    ensures Transpose(Multiply(a, b)) == Multiply(Transpose(b), Transpose(a))
  {
  }

  /**
   `fastInverse(m)`: the inverse of a rigid motion, transposing the rotation
   block and rotating the negated translation back. Entries 12..15 of m are
   ignored.
   */
  function FastInverse(m: Mat4): (r: Mat4)
    ensures r.m12 == 0.0 && r.m13 == 0.0 && r.m14 == 0.0 && r.m15 == 1.0
    ensures Linear(r) == Transpose(Linear(m))
  {
    var x := -m.m3 * m.m0 + -m.m7 * m.m4 + -m.m11 * m.m8;
    var y := -m.m3 * m.m1 + -m.m7 * m.m5 + -m.m11 * m.m9;
    var z := -m.m3 * m.m2 + -m.m7 * m.m6 + -m.m11 * m.m10;
    Mat4(m.m0, m.m4, m.m8, x,
         m.m1, m.m5, m.m9, y,
         m.m2, m.m6, m.m10, z,
         0.0, 0.0, 0.0, 1.0)
  }

  /** The 3x3 block of m as a linear transform: no translation, bottom row (0, 0, 0, 1). */
  function Linear(m: Mat4): Mat4
  {
    Mat4(m.m0, m.m1, m.m2, 0.0,
         m.m4, m.m5, m.m6, 0.0,
         m.m8, m.m9, m.m10, 0.0,
         0.0, 0.0, 0.0, 1.0)
  }

  /** The columns of the 3x3 block are orthonormal: Rt * R == I. */
  predicate Orthonormal(m: Mat4)
  {
    Multiply(Transpose(Linear(m)), Linear(m)) == Identity
  }

  /** A rotation followed by a translation, the shape `fastInverse` expects. */
  predicate Rigid(m: Mat4)
  {
    Orthonormal(m) && m.m12 == 0.0 && m.m13 == 0.0 && m.m14 == 0.0 && m.m15 == 1.0
  }

  /** Column j of the 3x3 block. */
  function Column(m: Mat4, j: nat): Vec3
    requires j < 3
  {
    if j == 0 then Vec3(m.m0, m.m4, m.m8)
    else if j == 1 then Vec3(m.m1, m.m5, m.m9)
    else Vec3(m.m2, m.m6, m.m10)
  }

  /** Orthonormal columns of the 3x3 block make the matrix orthonormal. */
  lemma OrthonormalOfColumns(m: Mat4)
    requires Dot(Column(m, 0), Column(m, 0)) == 1.0
    requires Dot(Column(m, 1), Column(m, 1)) == 1.0
    requires Dot(Column(m, 2), Column(m, 2)) == 1.0
    requires Dot(Column(m, 0), Column(m, 1)) == 0.0
    requires Dot(Column(m, 0), Column(m, 2)) == 0.0
    requires Dot(Column(m, 1), Column(m, 2)) == 0.0
    ensures Orthonormal(m)
  {
  }

  /** The 3x3 block of a product is the product of the blocks when the right factor has bottom row (0, 0, 0, 1). */
  lemma LinearProduct(a: Mat4, b: Mat4)
    requires b.m12 == 0.0 && b.m13 == 0.0 && b.m14 == 0.0 && b.m15 == 1.0
    ensures Linear(Multiply(a, b)) == Multiply(Linear(a), Linear(b))
  {
  }

  /** Rigid motions are closed under `multiply`. */
  lemma RigidProduct(a: Mat4, b: Mat4)
    requires Rigid(a) && Rigid(b)
    ensures Rigid(Multiply(a, b))
  {
    var la, lb := Linear(a), Linear(b);
    LinearProduct(a, b);
    TransposeLaws(la, lb);
    MultiplyAssociative(Transpose(lb), Transpose(la), Multiply(la, lb));
    MultiplyAssociative(Transpose(la), la, lb);
    IdentityUnit(lb);
  }

  /** On a rigid motion `fastInverse` is a left inverse. */
  lemma FastInverseIsInverse(m: Mat4)
    requires Rigid(m)
    ensures Multiply(FastInverse(m), m) == Identity
  {
    var p := Multiply(Transpose(Linear(m)), Linear(m));
    assert p.m0 == 1.0 && p.m1 == 0.0 && p.m2 == 0.0;
    assert p.m4 == 0.0 && p.m5 == 1.0 && p.m6 == 0.0;
    assert p.m8 == 0.0 && p.m9 == 0.0 && p.m10 == 1.0;
  }

  /** With c^2 + s^2 = 1 the three coordinate-axis rotations are rigid motions. */
  lemma AxisRotationsRigid(c: real, s: real)
    requires c * c + s * s == 1.0
    ensures Rigid(RotationX(c, s))
    ensures Rigid(RotationY(c, s))
    ensures Rigid(RotationZ(c, s))
  {
  }

  /**
   Translating a matrix with bottom row (0, 0, 0, 1) keeps its 3x3 block and
   bottom row and adds to its translation slots, so rigid stays rigid.
   */
  lemma TranslateAffine(m: Mat4, v: Vec3)
    requires m.m12 == 0.0 && m.m13 == 0.0 && m.m14 == 0.0 && m.m15 == 1.0
    ensures Linear(Multiply(Translation(v.x, v.y, v.z), m)) == Linear(m)
    ensures Multiply(Translation(v.x, v.y, v.z), m)
         == Multiply(Translation(m.m3 + v.x, m.m7 + v.y, m.m11 + v.z), Linear(m))
    ensures Rigid(m) ==> Rigid(Multiply(Translation(v.x, v.y, v.z), m))
  {
  }

  /** The columns of an orthonormal block are unit vectors at right angles. */
  lemma OrthonormalBasis(m: Mat4)
    requires Orthonormal(m)
    ensures SquaredLength(Right(m)) == 1.0
    ensures SquaredLength(Up(m)) == 1.0
    ensures SquaredLength(Back(m)) == 1.0
    ensures Dot(Right(m), Up(m)) == 0.0 && Dot(Right(m), Back(m)) == 0.0 && Dot(Up(m), Back(m)) == 0.0
  {
    var p := Multiply(Transpose(Linear(m)), Linear(m));
    assert p.m0 == 1.0 && p.m1 == 0.0 && p.m2 == 0.0;
    assert p.m5 == 1.0 && p.m6 == 0.0 && p.m10 == 1.0;
  }

  /**
   The normalized basis readers, as `backVector()` and its siblings return
   them: forward is the opposite of back, and on an orthonormal block each
   is its column unchanged when `Math.sqrt` is exact.
   */
  lemma NormalizedBasis(m: Mat4, lib: MathLib)
    ensures Normalize(Forward(m), lib) == Times(Normalize(Back(m), lib), -1.0)
    ensures ValidSqrt(lib) && Orthonormal(m) ==>
              && Normalize(Right(m), lib) == Right(m)
              && Normalize(Up(m), lib) == Up(m)
              && Normalize(Back(m), lib) == Back(m)
  {
    assert Forward(m) == Times(Back(m), -1.0);
    NormalizeOpposite(Back(m), lib);
    if ValidSqrt(lib) && Orthonormal(m) {
      OrthonormalBasis(m);
      NormalizeOfUnit(Right(m), lib);
      NormalizeOfUnit(Up(m), lib);
      NormalizeOfUnit(Back(m), lib);
    }
  }
}
