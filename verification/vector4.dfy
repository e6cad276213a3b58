/**
 css3d.vector4: homogeneous four-component vectors, plus
 `vector3.prototype.transform`, which builds one. As in Vector3, the
 operations that mutate `this` return the new value instead.
 */
module Vector4 {
  import opened Scalar
  import opened Vector3
  import opened Matrix4

  datatype Vec4 = Vec4(x: real, y: real, z: real, w: real)

  /**
   `new css3d.vector4(x, y, z, w)`. The coercions `x || 0` keep every real
   (an omitted argument is 0), while `w || 1` turns a w of 0 into 1.
   */
  function Make(x: real, y: real, z: real, w: real): (r: Vec4)
    ensures r.w != 0.0
  {
    Vec4(x, y, z, if w == 0.0 then 1.0 else w)
  }

  /** The constructor keeps its arguments exactly when w is non-zero, and is idempotent. */
  lemma MakeKeeps(x: real, y: real, z: real, w: real)
    ensures Make(x, y, z, w) == Vec4(x, y, z, w) <==> w != 0.0
    ensures Make(x, y, z, 0.0) == Vec4(x, y, z, 1.0)
    ensures var r := Make(x, y, z, w); Make(r.x, r.y, r.z, r.w) == r
  {
  }

  /** A vector the constructor can produce: w is never 0. */
  predicate Valid(v: Vec4)
  {
    v.w != 0.0
  }

  /** `homogenize`: divides x, y, z by w and sets w to 1, unless w is already 1. */
  function Homogenize(v: Vec4): (r: Vec4)
    requires Valid(v)
    ensures r.w == 1.0
  {
    if v.w != 1.0 then Vec4(v.x / v.w, v.y / v.w, v.z / v.w, 1.0) else v
  }

  /**
   Homogenizing keeps a vector whose w is 1, is idempotent, and represents
   the same point: scaling the result by the old w gives the old vector.
   */
  lemma HomogenizeLaws(v: Vec4)
    requires Valid(v)
    ensures v.w == 1.0 ==> Homogenize(v) == v
    ensures Homogenize(Homogenize(v)) == Homogenize(v)
    ensures var h := Homogenize(v); Vec4(h.x * v.w, h.y * v.w, h.z * v.w, v.w) == v
  {
  }

  /** Sum of the four squares, the radicand of `magnitude`. */
  function SquaredLength4(v: Vec4): real
  {
    (v.x * v.x) + (v.y * v.y) + (v.z * v.z) + (v.w * v.w)
  }

  /** `magnitude`. */
  function Magnitude4(v: Vec4, lib: MathLib): real
  {
    lib.sqrt(SquaredLength4(v))
  }

  /** `normalize`: divides all four components by the magnitude unless it is 0. */
  function Normalize4(v: Vec4, lib: MathLib): (r: Vec4)
    ensures Magnitude4(v, lib) == 0.0 ==> r == v
    ensures var m := Magnitude4(v, lib);
            m != 0.0 ==> Vec4(r.x * m, r.y * m, r.z * m, r.w * m) == v
  {
    var m := Magnitude4(v, lib);
    if m != 0.0 then Vec4(v.x / m, v.y / m, v.z / m, v.w / m) else v
  }

  /** A valid vector has a positive squared length. */
  lemma ValidIsNonZero(v: Vec4)
    requires Valid(v)
    ensures 0.0 < SquaredLength4(v)
  {
    SquareSign(v.x);
    SquareSign(v.y);
    SquareSign(v.z);
    SquareSign(v.w);
  }

  /** With an exact square root, normalizing a valid vector gives unit length. */
  lemma Normalize4Unit(v: Vec4, lib: MathLib)
    requires ValidSqrt(lib)
    requires Valid(v)
    ensures SquaredLength4(Normalize4(v, lib)) == 1.0
  {
    ValidIsNonZero(v);
    var m := Magnitude4(v, lib);
    assert 0.0 < m;
    UnitAfterDivide(v.x, v.y, v.z, v.w, m);
  }

  /**
   `dot` as written: the last term is the sum `this.w + b.w` where the
   product `this.w * b.w` is meant.
   */
  function Dot(a: Vec4, b: Vec4): real
  {
    (a.x * b.x) + (a.y * b.y) + (a.z * b.z) + (a.w + b.w)
  }

  /** The four-dimensional dot product `dot` evidently intends. */
  function DotProduct(a: Vec4, b: Vec4): real
  {
    (a.x * b.x) + (a.y * b.y) + (a.z * b.z) + (a.w * b.w)
  }

  /** The written `dot` differs from the dot product by w + w' - w * w'; on (0, 0, 0, 1) with itself it gives 2, not the squared length 1. */
  lemma DotAsWrittenDiffers(a: Vec4, b: Vec4)
    ensures Dot(a, b) == DotProduct(a, b) + a.w + b.w - a.w * b.w
    ensures Dot(Vec4(0.0, 0.0, 0.0, 1.0), Vec4(0.0, 0.0, 0.0, 1.0)) == 2.0
    ensures SquaredLength4(Vec4(0.0, 0.0, 0.0, 1.0)) == 1.0
  {
  }

  /** The corrected dot product is symmetric, gives the squared length on the diagonal and is linear in each argument. */
  lemma DotProductLaws(a: Vec4, b: Vec4, c: Vec4, k: real)
    ensures DotProduct(a, b) == DotProduct(b, a)
    ensures DotProduct(a, a) == SquaredLength4(a)
    ensures DotProduct(Vec4(a.x * k, a.y * k, a.z * k, a.w * k), b) == k * DotProduct(a, b)
    ensures DotProduct(Vec4(a.x + c.x, a.y + c.y, a.z + c.z, a.w + c.w), b)
         == DotProduct(a, b) + DotProduct(c, b)
  {
  }

  /**
   `cross(a, b)`: both inputs are first rebuilt with the constructor (so a
   w of 0 becomes 1) and homogenized; the result is the cross product of
   their x, y, z parts, with w = 1, normalized over all four components.
   */
  function Cross4(a: Vec4, b: Vec4, lib: MathLib): Vec4
  {
    var c := Cross(ToVector3(CrossOperand(a)), ToVector3(CrossOperand(b)));
    Normalize4(Make(c.x, c.y, c.z, 1.0), lib)
  }

  /** `new css3d.vector4(v.x, v.y, v.z, v.w).homogenize()`, the copy `cross` works on. */
  function CrossOperand(v: Vec4): Vec4
  {
    Homogenize(Make(v.x, v.y, v.z, v.w))
  }

  /**
   The x, y, z part of `cross` is perpendicular to both rebuilt inputs.
   For a vector the constructor can produce the rebuilt copy is its
   homogenized self, and an input with w = 0 acts as the same input with
   w = 1.
   */
  lemma Cross4Perpendicular(a: Vec4, b: Vec4, lib: MathLib)
    ensures Vector3.Dot(ToVector3(Cross4(a, b, lib)), ToVector3(CrossOperand(a))) == 0.0
    ensures Vector3.Dot(ToVector3(Cross4(a, b, lib)), ToVector3(CrossOperand(b))) == 0.0
    ensures Valid(a) ==> CrossOperand(a) == Homogenize(a)
    ensures a.w == 0.0 ==> Cross4(a, b, lib) == Cross4(a.(w := 1.0), b, lib)
  {
    var ha, hb := ToVector3(CrossOperand(a)), ToVector3(CrossOperand(b));
    var c := Cross(ha, hb);
    CrossPerpendicular(ha, hb);
    var m := Magnitude4(Make(c.x, c.y, c.z, 1.0), lib);
    if m != 0.0 {
      ScaledDot(c, ha, m);
      ScaledDot(c, hb, m);
    }
  }

  lemma ScaledDot(c: Vec3, a: Vec3, m: real)
    requires m != 0.0
    requires Vector3.Dot(c, a) == 0.0
    ensures Vector3.Dot(Vec3(c.x / m, c.y / m, c.z / m), a) == 0.0
  {
    DivIsMulInverse(c.x, m);
    DivIsMulInverse(c.y, m);
    DivIsMulInverse(c.z, m);
    assert Vector3.Dot(Vec3(c.x / m, c.y / m, c.z / m), a) == (1.0 / m) * Vector3.Dot(c, a);
  }

  /** `transform(matrix4)`: the row-major product m * v, passed through the constructor. */
  function Transform(v: Vec4, m: Mat4): Vec4
  {
    Make(v.x * m.m0 + v.y * m.m1 + v.z * m.m2 + v.w * m.m3,
         v.x * m.m4 + v.y * m.m5 + v.z * m.m6 + v.w * m.m7,
         v.x * m.m8 + v.y * m.m9 + v.z * m.m10 + v.w * m.m11,
         v.x * m.m12 + v.y * m.m13 + v.z * m.m14 + v.w * m.m15)
  }

  /** The bottom row is (0, 0, 0, 1): the matrix is an affine transform. */
  predicate Affine(m: Mat4)
  {
    m.m12 == 0.0 && m.m13 == 0.0 && m.m14 == 0.0 && m.m15 == 1.0
  }

  /** Affine matrices are closed under `multiply`. */
  lemma AffineProduct(a: Mat4, b: Mat4)
    requires Affine(a) && Affine(b)
    ensures Affine(Multiply(a, b))
  {
  }

  /**
   The identity fixes valid vectors; a computed w of 0 comes out as 1; and
   an affine matrix keeps w.
   */
  lemma TransformLaws(v: Vec4, b: Mat4)
    ensures Valid(v) ==> Transform(v, Identity) == v
    ensures Transform(v, Mat4(1.0, 0.0, 0.0, 0.0, 0.0, 1.0, 0.0, 0.0, 0.0, 0.0, 1.0, 0.0, 0.0, 0.0, 0.0, 0.0)) == Vec4(v.x, v.y, v.z, 1.0)
    ensures Valid(v) && Affine(b) ==> Transform(v, b).w == v.w
  {
  }

  /** The row-major product without the constructor's w coercion. */
  function Product4(v: Vec4, m: Mat4): Vec4
  {
    Vec4(Dot4(m.m0, m.m1, m.m2, m.m3, v.x, v.y, v.z, v.w),
         Dot4(m.m4, m.m5, m.m6, m.m7, v.x, v.y, v.z, v.w),
         Dot4(m.m8, m.m9, m.m10, m.m11, v.x, v.y, v.z, v.w),
         Dot4(m.m12, m.m13, m.m14, m.m15, v.x, v.y, v.z, v.w))
  }

  /** Transforming by b and then by a is transforming by a * b, for affine a and b. */
  lemma TransformCompose(v: Vec4, a: Mat4, b: Mat4)
    requires Valid(v) && Affine(a) && Affine(b)
    ensures Transform(Transform(v, b), a) == Transform(v, Multiply(a, b))
  {
    assert Transform(v, b) == Product4(v, b);
    assert Transform(Product4(v, b), a) == Product4(Product4(v, b), a);
    EntryAssociative(a.m0, a.m1, a.m2, a.m3, b.m0, b.m1, b.m2, b.m3, b.m4, b.m5, b.m6, b.m7, b.m8, b.m9, b.m10, b.m11, b.m12, b.m13, b.m14, b.m15, v.x, v.y, v.z, v.w);
    EntryAssociative(a.m4, a.m5, a.m6, a.m7, b.m0, b.m1, b.m2, b.m3, b.m4, b.m5, b.m6, b.m7, b.m8, b.m9, b.m10, b.m11, b.m12, b.m13, b.m14, b.m15, v.x, v.y, v.z, v.w);
    EntryAssociative(a.m8, a.m9, a.m10, a.m11, b.m0, b.m1, b.m2, b.m3, b.m4, b.m5, b.m6, b.m7, b.m8, b.m9, b.m10, b.m11, b.m12, b.m13, b.m14, b.m15, v.x, v.y, v.z, v.w);
    EntryAssociative(a.m12, a.m13, a.m14, a.m15, b.m0, b.m1, b.m2, b.m3, b.m4, b.m5, b.m6, b.m7, b.m8, b.m9, b.m10, b.m11, b.m12, b.m13, b.m14, b.m15, v.x, v.y, v.z, v.w);
    assert Transform(v, Multiply(a, b)) == Product4(v, Multiply(a, b));
  }

  /** `toVector3`: drops w. */
  function ToVector3(v: Vec4): (r: Vec3)
    ensures r == Vec3(v.x, v.y, v.z)
  {
    Vec3(v.x, v.y, v.z)
  }

  /**
   Dropping w undoes the constructor for every w, and building again from
   the three parts and the old w gives back any vector the constructor can
   produce.
   */
  lemma ToVector3RoundTrip(u: Vec3, w: real, v: Vec4)
    ensures ToVector3(Make(u.x, u.y, u.z, w)) == u
    ensures Valid(v) ==> var r := ToVector3(v); Make(r.x, r.y, r.z, v.w) == v
  {
  }

  /** `vector3.prototype.transform(matrix4)`: the point (x, y, z, 1) transformed. */
  function TransformVector3(v: Vec3, m: Mat4): Vec4
  {
    Make(v.x * m.m0 + v.y * m.m1 + v.z * m.m2 + m.m3,
         v.x * m.m4 + v.y * m.m5 + v.z * m.m6 + m.m7,
         v.x * m.m8 + v.y * m.m9 + v.z * m.m10 + m.m11,
         v.x * m.m12 + v.y * m.m13 + v.z * m.m14 + m.m15)
  }

  /**
   Transforming a three-vector is transforming the point with w = 1; a
   translation moves it by the translation, and the linear part of a
   matrix maps the point without moving it.
   */
  lemma TransformVector3Laws(v: Vec3, m: Mat4, t: Vec3)
    ensures TransformVector3(v, m) == Transform(Vec4(v.x, v.y, v.z, 1.0), m)
    ensures TransformVector3(v, Identity) == Vec4(v.x, v.y, v.z, 1.0)
    ensures ToVector3(TransformVector3(v, Translation(t.x, t.y, t.z))) == Add(v, t)
    ensures Affine(m) ==> ToVector3(TransformVector3(v, m)) == Add(ToVector3(TransformVector3(v, Linear(m))), Vec3(m.m3, m.m7, m.m11))
  {
  }
}
