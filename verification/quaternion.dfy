/**
 css3d.quaternion: rotations as quaternions (x, y, z, w) with w the real
 part. Only the constructor coerces w; the conversions below assign the
 fields of a fresh quaternion directly, so their results can have w = 0.
 */
module Quaternion {
  import opened Scalar
  import opened Vector3
  import opened Matrix4

  datatype Quat = Quat(x: real, y: real, z: real, w: real)

  /** `this.TOLERANCE` of every quaternion. */
  const Tolerance: real := 0.00001

  /** `new css3d.quaternion(x, y, z, w)`: a w of 0 (or an omitted one) becomes 1. */
  function Make(x: real, y: real, z: real, w: real): (r: Quat)
    ensures r.w != 0.0
    ensures r.x == x && r.y == y && r.z == z
    ensures w != 0.0 ==> r.w == w
  {
    Quat(x, y, z, if w == 0.0 then 1.0 else w)
  }

  /** `new css3d.quaternion()`: the identity rotation. */
  const Unit: Quat := Make(0.0, 0.0, 0.0, 0.0)

  function Neg(q: Quat): Quat
  {
    Quat(-q.x, -q.y, -q.z, -q.w)
  }

  /** `w*w + x*x + y*y + z*z`, the `mag2` of `normalize`. */
  function SquaredNorm(q: Quat): real
  {
    SumOfSquares(q.x, q.y, q.z, q.w)
  }

  function SumOfSquares(x: real, y: real, z: real, w: real): real
  {
    w * w + x * x + y * y + z * z
  }

  /** The tolerance gate of `normalize`: rescale only away from 0 and from 1. */
  predicate NeedsNormalizing(q: Quat)
  {
    Abs(SquaredNorm(q)) > Tolerance && Abs(SquaredNorm(q) - 1.0) > Tolerance
  }

  /** `normalize`: divides by the magnitude when the gate is open. */
  function Normalize(q: Quat, lib: MathLib): Quat
    requires SqrtPositive(lib)
  {
    var mag2 := SquaredNorm(q);
    if Abs(mag2) > Tolerance && Abs(mag2 - 1.0) > Tolerance then
      assert 0.0 < lib.sqrt(mag2);
      var mag := lib.sqrt(mag2);
      Quat(q.x / mag, q.y / mag, q.z / mag, q.w / mag)
    else
      q
  }

  /**
   With the gate closed the quaternion is left as it is; with it open the
   result, scaled back by the magnitude, is the input, and with an exact
   square root it has unit norm.
   */
  lemma NormalizeGate(q: Quat, lib: MathLib)
    requires ValidSqrt(lib)
    ensures !NeedsNormalizing(q) ==> Normalize(q, lib) == q
    ensures NeedsNormalizing(q) ==>
              var r, m := Normalize(q, lib), lib.sqrt(SquaredNorm(q));
              Quat(r.x * m, r.y * m, r.z * m, r.w * m) == q
    ensures NeedsNormalizing(q) ==> SquaredNorm(Normalize(q, lib)) == 1.0
  {
    if NeedsNormalizing(q) {
      var mag2 := SquaredNorm(q);
      var m := lib.sqrt(mag2);
      assert 0.0 < m;
      UnitAfterDivide(q.w, q.x, q.y, q.z, m);
    }
  }

  /** `getConjugate`: negates x, y, z through the constructor. */
  function GetConjugate(q: Quat): Quat
  {
    Make(-q.x, -q.y, -q.z, q.w)
  }

  /** A conjugate negates the vector part; it keeps a non-zero w and turns w = 0 into 1; conjugating twice is the identity when w is non-zero. */
  lemma ConjugateLaws(q: Quat)
    ensures var c := GetConjugate(q); c.x == -q.x && c.y == -q.y && c.z == -q.z
    ensures q.w != 0.0 ==> GetConjugate(q).w == q.w && GetConjugate(GetConjugate(q)) == q
    ensures q.w == 0.0 ==> GetConjugate(q).w == 1.0
  {
  }

  /** `multiply(rq)`: the Hamilton product this * rq, through the constructor. */
  function Multiply(a: Quat, b: Quat): Quat
  {
    Make(a.w * b.x + a.x * b.w + a.y * b.z - a.z * b.y,
         a.w * b.y + a.y * b.w + a.z * b.x - a.x * b.z,
         a.w * b.z + a.z * b.w + a.x * b.y - a.y * b.x,
         a.w * b.w - a.x * b.x - a.y * b.y - a.z * b.z)
  }

  /** The Hamilton product's real part, before the constructor sees it. */
  function ProductW(a: Quat, b: Quat): real
  {
    a.w * b.w - a.x * b.x - a.y * b.y - a.z * b.z
  }

  /** The default quaternion is a two-sided unit for quaternions with a non-zero w. */
  lemma MultiplyUnit(a: Quat)
    requires a.w != 0.0
    ensures Multiply(a, Unit) == a
    ensures Multiply(Unit, a) == a
  {
  }

  /** Norms multiply, as long as the constructor does not replace a product's w of 0. */
  lemma MultiplyNorm(a: Quat, b: Quat)
    requires ProductW(a, b) != 0.0
    ensures SquaredNorm(Multiply(a, b)) == SquaredNorm(a) * SquaredNorm(b)
  {
    FourSquares(a.x, a.y, a.z, a.w, b.x, b.y, b.z, b.w);
  }

  /** Euler's four-square identity, in the component order of `multiply`. */
  lemma FourSquares(x1: real, y1: real, z1: real, w1: real, x2: real, y2: real, z2: real, w2: real)
    ensures SumOfSquares(w1 * x2 + x1 * w2 + y1 * z2 - z1 * y2,
                         w1 * y2 + y1 * w2 + z1 * x2 - x1 * z2,
                         w1 * z2 + z1 * w2 + x1 * y2 - y1 * x2,
                         w1 * w2 - x1 * x2 - y1 * y2 - z1 * z2)
         == SumOfSquares(x1, y1, z1, w1) * SumOfSquares(x2, y2, z2, w2)
  {
  }

  /** A quaternion times its conjugate is its squared norm. */
  lemma MultiplyConjugate(a: Quat)
    requires a.w != 0.0
    ensures Multiply(a, GetConjugate(a)) == Make(0.0, 0.0, 0.0, SquaredNorm(a))
  {
    assert GetConjugate(a) == Quat(-a.x, -a.y, -a.z, a.w);
  }

  /**
   `toMatrix4`: the rotation matrix of a unit quaternion, computed from its
   components by `RotationMatrix`. The lemmas about the entries are stated
   over plain reals, where each entry is a polynomial the solver compares
   directly.
   */
  function ToMatrix4(q: Quat): Mat4
  {
    RotationMatrix(q.x, q.y, q.z, q.w)
  }

  function RotationMatrix(x: real, y: real, z: real, w: real): Mat4
  {
    var x2, y2, z2 := x * x, y * y, z * z;
    var xy, xz, yz := x * y, x * z, y * z;
    var wx, wy, wz := w * x, w * y, w * z;
    Mat4(1.0 - 2.0 * (y2 + z2), 2.0 * (xy - wz), 2.0 * (xz + wy), 0.0,
         2.0 * (xy + wz), 1.0 - 2.0 * (x2 + z2), 2.0 * (yz - wx), 0.0,
         2.0 * (xz - wy), 2.0 * (yz + wx), 1.0 - 2.0 * (x2 + y2), 0.0,
         0.0, 0.0, 0.0, 1.0)
  }

  /**
   q and -q give the same matrix, the default quaternion gives the
   identity, and the result never translates.
   */
  lemma ToMatrix4Laws(q: Quat)
    ensures ToMatrix4(Neg(q)) == ToMatrix4(q)
    ensures ToMatrix4(Unit) == Identity
    ensures Linear(ToMatrix4(q)) == ToMatrix4(q)
  {
    SignInvariant(q.w, q.x, q.y, q.z);
    assert Unit == Quat(0.0, 0.0, 0.0, 1.0);
  }

  lemma SignInvariant(w: real, x: real, y: real, z: real)
    ensures RotationMatrix(-x, -y, -z, -w) == RotationMatrix(x, y, z, w)
    ensures var m := RotationMatrix(x, y, z, w); Linear(m) == m
  {
  }

  /** A unit quaternion gives a rotation matrix. */
  lemma ToMatrix4Rigid(q: Quat)
    requires SquaredNorm(q) == 1.0
    ensures Rigid(ToMatrix4(q))
  {
    RotationBlockOrthonormal(q.w, q.x, q.y, q.z);
  }

  lemma RotationBlockOrthonormal(w: real, x: real, y: real, z: real)
    requires w * w + x * x + y * y + z * z == 1.0
    ensures Rigid(RotationMatrix(x, y, z, w))
  {
    var m := RotationMatrix(x, y, z, w);
    ColumnAIdentity(w, x, y, z, 1.0, m.m0, m.m4, m.m8);
    ColumnBIdentity(w, x, y, z, 1.0, m.m1, m.m5, m.m9);
    ColumnCIdentity(w, x, y, z, 1.0, m.m2, m.m6, m.m10);
    ColumnsABIdentity(w, x, y, z, 1.0, m.m0, m.m4, m.m8, m.m1, m.m5, m.m9);
    ColumnsACIdentity(w, x, y, z, 1.0, m.m0, m.m4, m.m8, m.m2, m.m6, m.m10);
    ColumnsBCIdentity(w, x, y, z, 1.0, m.m1, m.m5, m.m9, m.m2, m.m6, m.m10);
    OrthonormalOfColumns(m);
  }

  // The columns a, b, c of the rotation block, with each 1 of the matrix
  // written as the squared norm n, are mutually orthogonal and of squared
  // length n^2: one polynomial identity per lemma, over plain reals.

  lemma ColumnAIdentity(w: real, x: real, y: real, z: real, n: real, a0: real, a1: real, a2: real)
    requires n == w * w + x * x + y * y + z * z
    requires a0 == n - 2.0 * (y * y + z * z) && a1 == 2.0 * (x * y + w * z) && a2 == 2.0 * (x * z - w * y)
    ensures Dot(Vec3(a0, a1, a2), Vec3(a0, a1, a2)) == n * n
  {
  }

  lemma ColumnBIdentity(w: real, x: real, y: real, z: real, n: real, b0: real, b1: real, b2: real)
    requires n == w * w + x * x + y * y + z * z
    requires b0 == 2.0 * (x * y - w * z) && b1 == n - 2.0 * (x * x + z * z) && b2 == 2.0 * (y * z + w * x)
    ensures Dot(Vec3(b0, b1, b2), Vec3(b0, b1, b2)) == n * n
  {
  }

  lemma ColumnCIdentity(w: real, x: real, y: real, z: real, n: real, c0: real, c1: real, c2: real)
    requires n == w * w + x * x + y * y + z * z
    requires c0 == 2.0 * (x * z + w * y) && c1 == 2.0 * (y * z - w * x) && c2 == n - 2.0 * (x * x + y * y)
    ensures Dot(Vec3(c0, c1, c2), Vec3(c0, c1, c2)) == n * n
  {
  }

  lemma ColumnsABIdentity(w: real, x: real, y: real, z: real, n: real, a0: real, a1: real, a2: real, b0: real, b1: real, b2: real)
    requires n == w * w + x * x + y * y + z * z
    requires a0 == n - 2.0 * (y * y + z * z) && a1 == 2.0 * (x * y + w * z) && a2 == 2.0 * (x * z - w * y)
    requires b0 == 2.0 * (x * y - w * z) && b1 == n - 2.0 * (x * x + z * z) && b2 == 2.0 * (y * z + w * x)
    ensures Dot(Vec3(a0, a1, a2), Vec3(b0, b1, b2)) == 0.0
  {
  }

  lemma ColumnsACIdentity(w: real, x: real, y: real, z: real, n: real, a0: real, a1: real, a2: real, c0: real, c1: real, c2: real)
    requires n == w * w + x * x + y * y + z * z
    requires a0 == n - 2.0 * (y * y + z * z) && a1 == 2.0 * (x * y + w * z) && a2 == 2.0 * (x * z - w * y)
    requires c0 == 2.0 * (x * z + w * y) && c1 == 2.0 * (y * z - w * x) && c2 == n - 2.0 * (x * x + y * y)
    ensures Dot(Vec3(a0, a1, a2), Vec3(c0, c1, c2)) == 0.0
  {
  }

  lemma ColumnsBCIdentity(w: real, x: real, y: real, z: real, n: real, b0: real, b1: real, b2: real, c0: real, c1: real, c2: real)
    requires n == w * w + x * x + y * y + z * z
    requires b0 == 2.0 * (x * y - w * z) && b1 == n - 2.0 * (x * x + z * z) && b2 == 2.0 * (y * z + w * x)
    requires c0 == 2.0 * (x * z + w * y) && c1 == 2.0 * (y * z - w * x) && c2 == n - 2.0 * (x * x + y * y)
    ensures Dot(Vec3(b0, b1, b2), Vec3(c0, c1, c2)) == 0.0
  {
  }

  /** Which of the four branches of `fromMatrix4` runs, 0 to 3 in source order. */
  function FromMatrix4Branch(m: Mat4): nat
  {
    var tr := m.m0 + m.m5 + m.m10;
    if tr > 0.0 then 0
    else if m.m0 > m.m5 && m.m0 > m.m10 then 1
    else if m.m5 > m.m10 then 2
    else 3
  }

  /**
   The number whose square root the chosen branch takes. Every branch's
   argument is at least 1, so no clamping is needed over the reals.
   */
  function FromMatrix4Radicand(m: Mat4): (r: real)
    ensures 1.0 <= r
  {
    var tr := m.m0 + m.m5 + m.m10;
    match FromMatrix4Branch(m)
    case 0 => tr + 1.0
    case 1 => 1.0 + m.m0 - m.m5 - m.m10
    case 2 => 1.0 + m.m5 - m.m0 - m.m10
    case _ => 1.0 + m.m10 - m.m0 - m.m5
  }

  /**
   `fromMatrix4(m)`: picks the largest of w, x, y, z from the trace and the
   diagonal, takes it as a quarter of s = 2 * sqrt(radicand), and divides
   the off-diagonal sums and differences by s for the other three.
   */
  function FromMatrix4(m: Mat4, lib: MathLib): Quat
    requires SqrtPositive(lib)
  {
    var s := lib.sqrt(FromMatrix4Radicand(m)) * 2.0;
    assert 0.0 < s;
    match FromMatrix4Branch(m)
    case 0 => Quat((m.m9 - m.m6) / s, (m.m2 - m.m8) / s, (m.m4 - m.m1) / s, 0.25 * s)
    case 1 => Quat(0.25 * s, (m.m1 + m.m4) / s, (m.m2 + m.m8) / s, (m.m9 - m.m6) / s)
    case 2 => Quat((m.m1 + m.m4) / s, 0.25 * s, (m.m6 + m.m9) / s, (m.m2 - m.m8) / s)
    case _ => Quat((m.m2 + m.m8) / s, (m.m6 + m.m9) / s, 0.25 * s, (m.m4 - m.m1) / s)
  }

  /**
   `fromMatrix4` reads only the 3x3 block: two matrices with the same block
   give the same quaternion, whatever their translation slots and bottom row.
   */
  lemma FromMatrix4SameBlock(m: Mat4, n: Mat4, lib: MathLib)
    requires SqrtPositive(lib)
    requires Linear(m) == Linear(n)
    ensures FromMatrix4(m, lib) == FromMatrix4(n, lib)
  {
    assert FromMatrix4Radicand(m) == FromMatrix4Radicand(n);
    assert FromMatrix4Branch(m) == FromMatrix4Branch(n);
  }

  /** `fromMatrix4` undoes `toMatrix4` on unit quaternions, up to the sign that names the same rotation. */
  lemma FromMatrix4OfToMatrix4(q: Quat, lib: MathLib)
    requires ValidSqrt(lib)
    requires SquaredNorm(q) == 1.0
    ensures var r := FromMatrix4(ToMatrix4(q), lib); r == q || r == Neg(q)
  {
    FromRotationMatrix(q.x, q.y, q.z, q.w, lib);
  }

  lemma FromRotationMatrix(x: real, y: real, z: real, w: real, lib: MathLib)
    requires ValidSqrt(lib)
    requires w * w + x * x + y * y + z * z == 1.0
    ensures var r := FromMatrix4(RotationMatrix(x, y, z, w), lib);
            r == Quat(x, y, z, w) || r == Quat(-x, -y, -z, -w)
  {
    TraceRadicand(w, x, y, z);
    DiagonalRadicands(w, x, y, z);
    RotationNumerators(w, x, y, z);
    FromRotationEntries(RotationMatrix(x, y, z, w), x, y, z, w, lib);
  }

  /**
   The diagonal and off-diagonal entries of m are related to the quaternion (x, y, z, w)
   as those of its rotation matrix are.
   */
  predicate RotationEntriesOf(m: Mat4, x: real, y: real, z: real, w: real)
  {
    && m.m0 + m.m5 + m.m10 + 1.0 == 4.0 * (w * w)
    && 1.0 + m.m0 - m.m5 - m.m10 == 4.0 * (x * x)
    && 1.0 + m.m5 - m.m0 - m.m10 == 4.0 * (y * y)
    && 1.0 + m.m10 - m.m0 - m.m5 == 4.0 * (z * z)
    && m.m9 - m.m6 == 4.0 * w * x && m.m2 - m.m8 == 4.0 * w * y && m.m4 - m.m1 == 4.0 * w * z
    && m.m1 + m.m4 == 4.0 * x * y && m.m2 + m.m8 == 4.0 * x * z && m.m6 + m.m9 == 4.0 * y * z
  }

  /** `fromMatrix4` recovers (x, y, z, w) or its negation from a matrix with its rotation entries, whichever branch runs. */
  lemma FromRotationEntries(m: Mat4, x: real, y: real, z: real, w: real, lib: MathLib)
    requires ValidSqrt(lib)
    requires RotationEntriesOf(m, x, y, z, w)
    ensures var r := FromMatrix4(m, lib); r == Quat(x, y, z, w) || r == Quat(-x, -y, -z, -w)
  {
    match FromMatrix4Branch(m)
    case 0 => FromBranch0(m, x, y, z, w, lib);
    case 1 => FromBranch1(m, x, y, z, w, lib);
    case 2 => FromBranch2(m, x, y, z, w, lib);
    case _ => FromBranch3(m, x, y, z, w, lib);
  }

  lemma FromBranch0(m: Mat4, x: real, y: real, z: real, w: real, lib: MathLib)
    requires ValidSqrt(lib)
    requires RotationEntriesOf(m, x, y, z, w)
    requires FromMatrix4Branch(m) == 0
    ensures var r := FromMatrix4(m, lib); r == Quat(x, y, z, w) || r == Quat(-x, -y, -z, -w)
  {
    var rad := FromMatrix4Radicand(m);
    assert w != 0.0;
    var r := FromMatrix4(m, lib);
    RecoverBranch(lib, w, rad, lib.sqrt(rad) * 2.0, m.m9 - m.m6, m.m2 - m.m8, m.m4 - m.m1, x, y, z);
    if 0.0 < w {
      assert r == Quat(x, y, z, w);
    } else {
      assert r == Quat(-x, -y, -z, -w);
    }
  }

  lemma FromBranch1(m: Mat4, x: real, y: real, z: real, w: real, lib: MathLib)
    requires ValidSqrt(lib)
    requires RotationEntriesOf(m, x, y, z, w)
    requires FromMatrix4Branch(m) == 1
    ensures var r := FromMatrix4(m, lib); r == Quat(x, y, z, w) || r == Quat(-x, -y, -z, -w)
  {
    var rad := FromMatrix4Radicand(m);
    assert x != 0.0;
    var r := FromMatrix4(m, lib);
    RecoverBranch(lib, x, rad, lib.sqrt(rad) * 2.0, m.m1 + m.m4, m.m2 + m.m8, m.m9 - m.m6, y, z, w);
    if 0.0 < x {
      assert r == Quat(x, y, z, w);
    } else {
      assert r == Quat(-x, -y, -z, -w);
    }
  }

  lemma FromBranch2(m: Mat4, x: real, y: real, z: real, w: real, lib: MathLib)
    requires ValidSqrt(lib)
    requires RotationEntriesOf(m, x, y, z, w)
    requires FromMatrix4Branch(m) == 2
    ensures var r := FromMatrix4(m, lib); r == Quat(x, y, z, w) || r == Quat(-x, -y, -z, -w)
  {
    var rad := FromMatrix4Radicand(m);
    assert y != 0.0;
    var r := FromMatrix4(m, lib);
    RecoverBranch(lib, y, rad, lib.sqrt(rad) * 2.0, m.m1 + m.m4, m.m6 + m.m9, m.m2 - m.m8, x, z, w);
    if 0.0 < y {
      assert r == Quat(x, y, z, w);
    } else {
      assert r == Quat(-x, -y, -z, -w);
    }
  }

  lemma FromBranch3(m: Mat4, x: real, y: real, z: real, w: real, lib: MathLib)
    requires ValidSqrt(lib)
    requires RotationEntriesOf(m, x, y, z, w)
    requires FromMatrix4Branch(m) == 3
    ensures var r := FromMatrix4(m, lib); r == Quat(x, y, z, w) || r == Quat(-x, -y, -z, -w)
  {
    var rad := FromMatrix4Radicand(m);
    assert z != 0.0;
    var r := FromMatrix4(m, lib);
    RecoverBranch(lib, z, rad, lib.sqrt(rad) * 2.0, m.m2 + m.m8, m.m6 + m.m9, m.m4 - m.m1, x, y, w);
    if 0.0 < z {
      assert r == Quat(x, y, z, w);
    } else {
      assert r == Quat(-x, -y, -z, -w);
    }
  }

  /** On a unit quaternion's matrix the trace plus one is 4 w^2. */
  lemma TraceRadicand(w: real, x: real, y: real, z: real)
    requires w * w + x * x + y * y + z * z == 1.0
    ensures var m := RotationMatrix(x, y, z, w); m.m0 + m.m5 + m.m10 + 1.0 == 4.0 * (w * w)
  {
  }

  /** The other three radicands of `fromMatrix4` are 4 x^2, 4 y^2 and 4 z^2. */
  lemma DiagonalRadicands(w: real, x: real, y: real, z: real)
    ensures var m := RotationMatrix(x, y, z, w);
            && 1.0 + m.m0 - m.m5 - m.m10 == 4.0 * (x * x)
            && 1.0 + m.m5 - m.m0 - m.m10 == 4.0 * (y * y)
            && 1.0 + m.m10 - m.m0 - m.m5 == 4.0 * (z * z)
  {
  }

  /** The off-diagonal sums and differences are four times the pairwise products. */
  lemma RotationNumerators(w: real, x: real, y: real, z: real)
    ensures var m := RotationMatrix(x, y, z, w);
            && m.m9 - m.m6 == 4.0 * w * x && m.m2 - m.m8 == 4.0 * w * y && m.m4 - m.m1 == 4.0 * w * z
            && m.m1 + m.m4 == 4.0 * x * y && m.m2 + m.m8 == 4.0 * x * z && m.m6 + m.m9 == 4.0 * y * z
  {
  }

  /**
   One branch of `fromMatrix4` on a rotation matrix: when the radicand is
   4u^2 for the pivot component u != 0, and the three numerators are
   4u times the other components, the branch recovers u as |u| and each
   other component times the sign of u.
   */
  lemma RecoverBranch(lib: MathLib, u: real, rad: real, s: real,
                      pa: real, pb: real, pc: real, a: real, b: real, c: real)
    requires ValidSqrt(lib)
    requires u != 0.0
    requires rad == 4.0 * (u * u)
    requires s == lib.sqrt(rad) * 2.0
    requires pa == 4.0 * u * a && pb == 4.0 * u * b && pc == 4.0 * u * c
    ensures s == 4.0 * Abs(u)
    ensures 0.0 < u ==> 0.25 * s == u && pa / s == a && pb / s == b && pc / s == c
    ensures u < 0.0 ==> 0.25 * s == -u && pa / s == -a && pb / s == -b && pc / s == -c
  {
    SqrtOfSquare(lib, 2.0 * u, rad);
    assert Abs(2.0 * u) == 2.0 * Abs(u);
    if 0.0 < u {
      assert s == 4.0 * u;
      DivideOut(pa, s, a);
      DivideOut(pb, s, b);
      DivideOut(pc, s, c);
    } else {
      assert s == 4.0 * -u;
      NegatedProduct(u, a);
      NegatedProduct(u, b);
      NegatedProduct(u, c);
      DivideOut(pa, s, -a);
      DivideOut(pb, s, -b);
      DivideOut(pc, s, -c);
    }
  }

  lemma DivideOut(p: real, k: real, a: real)
    requires k != 0.0 && p == k * a
    ensures p / k == a
  {
  }

  lemma NegatedProduct(u: real, a: real)
    ensures 4.0 * u * a == (4.0 * -u) * -a
  {
  }

  /** `cosHalfTheta` of `slerp`: the four-dimensional dot product of qa and qb. */
  function HalfAngleCos(qa: Quat, qb: Quat): real
  {
    qa.w * qb.w + qa.x * qb.x + qa.y * qb.y + qa.z * qb.z
  }

  /** `sinHalfTheta` below this makes `slerp` fall back to the average. */
  const SinThreshold: real := 0.001

  /** What `slerp` returns, and the value its argument qb holds afterwards. */
  datatype SlerpOutcome = SlerpOutcome(result: Quat, target: Quat)

  /** The in-place negation of qb as written: w, x and y are negated while z is assigned to itself. */
  function FlipAsWritten(q: Quat): Quat
  {
    Quat(-q.x, -q.y, q.z, -q.w)
  }

  /**
   The three branches of `slerp` once qb has been flipped towards qa and c
   is the (non-negative) cosine: a copy of qa when |c| >= 1, the average
   when the sine of the half angle is below the threshold, and the
   spherical blend otherwise. The result's fields are assigned directly,
   so no w coercion happens.
   */
  function SlerpBranches(qa: Quat, qb: Quat, c: real, t: real, lib: MathLib): Quat
  {
    if Abs(c) >= 1.0 then
      Quat(qa.x, qa.y, qa.z, qa.w)
    else
      var halfTheta := lib.acos(c);
      var sinHalfTheta := lib.sqrt(1.0 - c * c);
      if Abs(sinHalfTheta) < SinThreshold then
        Quat(qa.x * 0.5 + qb.x * 0.5, qa.y * 0.5 + qb.y * 0.5, qa.z * 0.5 + qb.z * 0.5, qa.w * 0.5 + qb.w * 0.5)
      else
        var ratioA := lib.sin((1.0 - t) * halfTheta) / sinHalfTheta;
        var ratioB := lib.sin(t * halfTheta) / sinHalfTheta;
        Quat(qa.x * ratioA + qb.x * ratioB, qa.y * ratioA + qb.y * ratioB,
             qa.z * ratioA + qb.z * ratioB, qa.w * ratioA + qb.w * ratioB)
  }

  /** Which branch of `SlerpBranches` runs: 0 copy, 1 average, 2 blend. */
  function SlerpBranch(c: real, lib: MathLib): nat
  {
    if Abs(c) >= 1.0 then 0
    else if Abs(lib.sqrt(1.0 - c * c)) < SinThreshold then 1
    else 2
  }

  /** The value the written `slerp` leaves in qb: flipped with `FlipAsWritten` when qa . qb < 0. */
  function TargetAsWritten(qa: Quat, qb: Quat): Quat
  {
    if HalfAngleCos(qa, qb) < 0.0 then FlipAsWritten(qb) else qb
  }

  /** The evidently intended flip: all four components negated when qa . qb < 0. */
  function ShortArcTarget(qa: Quat, qb: Quat): Quat
  {
    if HalfAngleCos(qa, qb) < 0.0 then Neg(qb) else qb
  }

  /**
   `slerp(qa, qb, t)` as written: when qa . qb < 0 it flips qb in place with
   `FlipAsWritten` and negates the cosine, then runs the shared branches.
   */
  function Slerp(qa: Quat, qb: Quat, t: real, lib: MathLib): SlerpOutcome
  {
    var target := TargetAsWritten(qa, qb);
    SlerpOutcome(SlerpBranches(qa, target, Abs(HalfAngleCos(qa, qb)), t, lib), target)
  }

  /**
   `slerp` as evidently intended: the flip negates all four components, so
   the flipped target names the same rotation and the negated cosine is
   its dot product with qa. The node and camera interpolations call the
   written `Slerp`, as the source does.
   */
  function SlerpShortArc(qa: Quat, qb: Quat, t: real, lib: MathLib): SlerpOutcome
  {
    var target := ShortArcTarget(qa, qb);
    SlerpOutcome(SlerpBranches(qa, target, Abs(HalfAngleCos(qa, qb)), t, lib), target)
  }

  /**
   Both versions leave qb alone exactly when qa . qb >= 0; the written
   flip keeps z, the corrected one negates it.
   */
  lemma SlerpTarget(qa: Quat, qb: Quat, t: real, lib: MathLib)
    ensures HalfAngleCos(qa, qb) >= 0.0 ==> Slerp(qa, qb, t, lib).target == qb == SlerpShortArc(qa, qb, t, lib).target
    ensures HalfAngleCos(qa, qb) < 0.0 ==>
              var f := Slerp(qa, qb, t, lib).target;
              f.w == -qb.w && f.x == -qb.x && f.y == -qb.y && f.z == qb.z
    ensures HalfAngleCos(qa, qb) < 0.0 ==> SlerpShortArc(qa, qb, t, lib).target == Neg(qb)
  {
  }

  /** Negating qb negates the cosine. */
  lemma NegatedCosine(qa: Quat, qb: Quat)
    ensures HalfAngleCos(qa, Neg(qb)) == -HalfAngleCos(qa, qb)
  {
    assert qa.w * (-qb.w) == -(qa.w * qb.w);
    assert qa.x * (-qb.x) == -(qa.x * qb.x);
    assert qa.y * (-qb.y) == -(qa.y * qb.y);
    assert qa.z * (-qb.z) == -(qa.z * qb.z);
  }

  /** Negating qa negates the cosine. */
  lemma NegatedFirstCosine(qa: Quat, qb: Quat)
    ensures HalfAngleCos(Neg(qa), qb) == -HalfAngleCos(qa, qb)
  {
    assert (-qa.w) * qb.w == -(qa.w * qb.w);
    assert (-qa.x) * qb.x == -(qa.x * qb.x);
    assert (-qa.y) * qb.y == -(qa.y * qb.y);
    assert (-qa.z) * qb.z == -(qa.z * qb.z);
  }

  /**
   The corrected flip points qb towards qa: its dot product with qa is the
   magnitude of the original cosine, and it names qb's rotation.
   */
  lemma SlerpShortArcTarget(qa: Quat, qb: Quat, t: real, lib: MathLib)
    ensures HalfAngleCos(qa, SlerpShortArc(qa, qb, t, lib).target) == Abs(HalfAngleCos(qa, qb))
    ensures ToMatrix4(SlerpShortArc(qa, qb, t, lib).target) == ToMatrix4(qb)
  {
    NegatedCosine(qa, qb);
    ToMatrix4Laws(qb);
  }

  /** The written flip can change the rotation: for qb = (0, 0, 0.6, -0.8) the flipped target is another rotation. */
  lemma SlerpFlipAsWrittenDiffers(t: real, lib: MathLib)
    ensures var qa, qb := Quat(0.0, 0.0, 0.0, 1.0), Quat(0.0, 0.0, 0.6, -0.8);
            var f := Slerp(qa, qb, t, lib).target;
            && HalfAngleCos(qa, qb) < 0.0
            && f == Quat(0.0, 0.0, 0.6, 0.8)
            && ToMatrix4(qb).m1 == 0.96 && ToMatrix4(f).m1 == -0.96
  {
    var f := Quat(0.0, 0.0, 0.6, 0.8);
    assert ToMatrix4(f) == RotationMatrix(0.0, 0.0, 0.6, 0.8);
  }

  /** The corrected flip settles: slerping again towards the flipped target leaves it as it is. */
  lemma ShortArcSettles(qa: Quat, qb: Quat)
    ensures ShortArcTarget(qa, ShortArcTarget(qa, qb)) == ShortArcTarget(qa, qb)
  {
    NegatedCosine(qa, qb);
  }

  /**
   The written flip need not settle: for qa = (0, 0, 1, 0) and any
   qb = (x, 0, z, 0) with z < 0 the cosine z is still negative after the
   flip, which only negates x, so each further call flips qb back again.
   */
  lemma FlipAsWrittenOscillates(x: real, z: real)
    requires z < 0.0
    ensures var qa := Quat(0.0, 0.0, 1.0, 0.0);
            && TargetAsWritten(qa, Quat(x, 0.0, z, 0.0)) == Quat(-x, 0.0, z, 0.0)
            && TargetAsWritten(qa, Quat(-x, 0.0, z, 0.0)) == Quat(x, 0.0, z, 0.0)
  {
  }

  /**
   The written flip agrees with the corrected one exactly when qb.z is 0.
   Flipping twice gives qb back, and the flip turns the cosine c into
   2 qa.z qb.z - c.
   */
  lemma FlipAsWrittenLaws(qa: Quat, qb: Quat)
    ensures FlipAsWritten(qb) == Neg(qb) <==> qb.z == 0.0
    ensures FlipAsWritten(FlipAsWritten(qb)) == qb
    ensures HalfAngleCos(qa, FlipAsWritten(qb)) == 2.0 * (qa.z * qb.z) - HalfAngleCos(qa, qb)
  {
    assert qa.w * (-qb.w) == -(qa.w * qb.w);
    assert qa.x * (-qb.x) == -(qa.x * qb.x);
    assert qa.y * (-qb.y) == -(qa.y * qb.y);
  }

  /**
   What a second `slerp` from qa does to the target the first one left.
   When qa . qb >= 0 nothing was flipped and nothing is. After a flip,
   when the flipped target's cosine with qa (by `FlipAsWrittenLaws`,
   2 qa.z qb.z - qa . qb) is negative too, the target flips back to qb,
   so it alternates between two values; otherwise it stays.
   */
  lemma SlerpRetarget(qa: Quat, qb: Quat)
    ensures var c, f := HalfAngleCos(qa, qb), TargetAsWritten(qa, qb);
            && (c >= 0.0 ==> f == qb && TargetAsWritten(qa, f) == qb)
            && (c < 0.0 ==> f == FlipAsWritten(qb))
            && (c < 0.0 && HalfAngleCos(qa, f) < 0.0 ==> TargetAsWritten(qa, f) == qb)
            && (c < 0.0 && HalfAngleCos(qa, f) >= 0.0 ==> TargetAsWritten(qa, f) == f)
  {
    FlipAsWrittenLaws(qa, qb);
  }

  /** `fromMatrix4` of the half-turn about z is (0, 0, 1, 0), the z branch with radicand 4. */
  lemma HalfTurnZ(lib: MathLib)
    requires ValidSqrt(lib)
    ensures FromMatrix4(ToMatrix4(Quat(0.0, 0.0, 1.0, 0.0)), lib) == Quat(0.0, 0.0, 1.0, 0.0)
  {
    var m := ToMatrix4(Quat(0.0, 0.0, 1.0, 0.0));
    assert FromMatrix4Branch(m) == 3 && FromMatrix4Radicand(m) == 4.0;
    SqrtOfSquare(lib, 2.0, 4.0);
  }

  /**
   The two fixed cases of the shared branches: a copy of qa when |c| >= 1,
   the average of qa and the target when the half angle's sine is below
   the threshold; in both the amount t plays no part.
   */
  lemma DegenerateBranches(qa: Quat, qb: Quat, c: real, t: real, u: real, lib: MathLib)
    ensures SlerpBranch(c, lib) == 0 ==> SlerpBranches(qa, qb, c, t, lib) == qa
    ensures SlerpBranch(c, lib) == 1 ==>
              SlerpBranches(qa, qb, c, t, lib)
              == Quat((qa.x + qb.x) * 0.5, (qa.y + qb.y) * 0.5, (qa.z + qb.z) * 0.5, (qa.w + qb.w) * 0.5)
    ensures SlerpBranch(c, lib) < 2 ==> SlerpBranches(qa, qb, c, t, lib) == SlerpBranches(qa, qb, c, u, lib)
  {
  }

  /**
   `slerp` copies qa when the magnitude of the cosine is at least 1, and in
   both fixed cases returns the same value for every amount.
   */
  lemma SlerpDegenerate(qa: Quat, qb: Quat, t: real, u: real, lib: MathLib)
    ensures SlerpBranch(Abs(HalfAngleCos(qa, qb)), lib) == 0 ==>
              Slerp(qa, qb, t, lib).result == qa && SlerpShortArc(qa, qb, t, lib).result == qa
    ensures SlerpBranch(Abs(HalfAngleCos(qa, qb)), lib) < 2 ==>
              Slerp(qa, qb, t, lib) == Slerp(qa, qb, u, lib) && SlerpShortArc(qa, qb, t, lib) == SlerpShortArc(qa, qb, u, lib)
  {
    var c := Abs(HalfAngleCos(qa, qb));
    DegenerateBranches(qa, TargetAsWritten(qa, qb), c, t, u, lib);
    DegenerateBranches(qa, ShortArcTarget(qa, qb), c, t, u, lib);
  }

  /** `Math.sin(0) == 0` and `Math.sin(Math.acos(c)) == Math.sqrt(1 - c^2)` on the open interval. */
  ghost predicate SineOfArcCosine(lib: MathLib)
  {
    lib.sin(0.0) == 0.0 &&
    forall c :: -1.0 < c < 1.0 ==> lib.sin(lib.acos(c)) == lib.sqrt(1.0 - c * c)
  }

  /** In the blending branch the amount 0 gives qa. */
  lemma BlendStart(qa: Quat, qb: Quat, c: real, lib: MathLib)
    requires SineOfArcCosine(lib)
    requires SlerpBranch(c, lib) == 2
    ensures SlerpBranches(qa, qb, c, 0.0, lib) == qa
  {
    var sinHalf := lib.sqrt(1.0 - c * c);
    assert lib.sin((1.0 - 0.0) * lib.acos(c)) == sinHalf;
    assert lib.sin(0.0 * lib.acos(c)) == 0.0;
    assert sinHalf / sinHalf == 1.0;
  }

  /** In the blending branch the amount 1 gives the target. */
  lemma BlendEnd(qa: Quat, qb: Quat, c: real, lib: MathLib)
    requires SineOfArcCosine(lib)
    requires SlerpBranch(c, lib) == 2
    ensures SlerpBranches(qa, qb, c, 1.0, lib) == qb
  {
    var sinHalf := lib.sqrt(1.0 - c * c);
    assert lib.sin(1.0 * lib.acos(c)) == sinHalf;
    assert lib.sin((1.0 - 1.0) * lib.acos(c)) == 0.0;
    assert sinHalf / sinHalf == 1.0;
  }

  /**
   In the blending branch the amount 0 gives qa and the amount 1 gives the
   flipped target. For the written version that is qb's rotation when no
   flip happens or qb.z is 0; for the corrected version it always is.
   */
  lemma SlerpEndpoints(qa: Quat, qb: Quat, lib: MathLib)
    requires SineOfArcCosine(lib)
    requires SlerpBranch(Abs(HalfAngleCos(qa, qb)), lib) == 2
    ensures Slerp(qa, qb, 0.0, lib).result == qa
    ensures Slerp(qa, qb, 1.0, lib).result == Slerp(qa, qb, 1.0, lib).target
    ensures HalfAngleCos(qa, qb) >= 0.0 || qb.z == 0.0 ==> ToMatrix4(Slerp(qa, qb, 1.0, lib).result) == ToMatrix4(qb)
    ensures SlerpShortArc(qa, qb, 0.0, lib).result == qa
    ensures ToMatrix4(SlerpShortArc(qa, qb, 1.0, lib).result) == ToMatrix4(qb)
  {
    var c := Abs(HalfAngleCos(qa, qb));
    BlendStart(qa, TargetAsWritten(qa, qb), c, lib);
    BlendEnd(qa, TargetAsWritten(qa, qb), c, lib);
    BlendStart(qa, ShortArcTarget(qa, qb), c, lib);
    BlendEnd(qa, ShortArcTarget(qa, qb), c, lib);
    SlerpShortArcTarget(qa, qb, 1.0, lib);
    FlipAsWrittenLaws(qa, qb);
    ToMatrix4Laws(qb);
  }
}
