/**
 css3d.vector3: three-component vectors. The source mutates `this` in
 `normalize` and `sub` and returns it; here each returns the new value.
 */
module Vector3 {
  import opened Scalar

  /** The constructor's `x || 0` coercion is the identity on reals. */
  datatype Vec3 = Vec3(x: real, y: real, z: real)

  const Zero: Vec3 := Vec3(0.0, 0.0, 0.0)

  function Add(a: Vec3, b: Vec3): Vec3
  {
    Vec3(a.x + b.x, a.y + b.y, a.z + b.z)
  }

  function Times(a: Vec3, k: real): Vec3
  {
    Vec3(a.x * k, a.y * k, a.z * k)
  }

  /** Sum of squares, the radicand of `magnitude`. */
  function SquaredLength(v: Vec3): real
  {
    v.x * v.x + v.y * v.y + v.z * v.z
  }

  /** Scaling a unit vector by d gives squared length d * d. */
  lemma ScaledSquaredLength(b: Vec3, d: real)
    requires SquaredLength(b) == 1.0
    ensures SquaredLength(Times(b, d)) == d * d
  {
    assert SquaredLength(Times(b, d)) == (d * d) * SquaredLength(b);
  }

  function Magnitude(v: Vec3, lib: MathLib): real
  {
    lib.sqrt(SquaredLength(v))
  }

  /** Divides by the magnitude unless it is exactly zero. */
  function Normalize(v: Vec3, lib: MathLib): (r: Vec3)
    ensures Magnitude(v, lib) == 0.0 ==> r == v
    ensures IsZero(v) ==> r == v
    ensures Magnitude(v, lib) != 0.0 ==> Times(r, Magnitude(v, lib)) == v
  {
    var m := Magnitude(v, lib);
    if m != 0.0 then Vec3(v.x / m, v.y / m, v.z / m) else v
  }

  /** A non-zero vector normalizes to unit length when `Math.sqrt` is exact. */
  lemma NormalizeUnit(v: Vec3, lib: MathLib)
    requires ValidSqrt(lib)
    requires !IsZero(v)
    ensures SquaredLength(Normalize(v, lib)) == 1.0
  {
    SquaredLengthSign(v);
    var m := Magnitude(v, lib);
    assert 0.0 < m;
    UnitAfterDivide(v.x, v.y, v.z, 0.0, m);
  }

  /** A unit vector is left as it is when `Math.sqrt` is exact. */
  lemma NormalizeOfUnit(v: Vec3, lib: MathLib)
    requires ValidSqrt(lib)
    requires SquaredLength(v) == 1.0
    ensures Normalize(v, lib) == v
  {
    SqrtOfOne(lib);
  }

  /** Normalizing the opposite vector gives the opposite of the normalized vector. */
  lemma NormalizeOpposite(v: Vec3, lib: MathLib)
    ensures Normalize(Times(v, -1.0), lib) == Times(Normalize(v, lib), -1.0)
  {
    assert SquaredLength(Times(v, -1.0)) == SquaredLength(v);
  }

  /** Moving by `steps` along d and then by `-steps` along d returns to the start. */
  lemma StepsCancel(t: Vec3, d: Vec3, steps: real)
    ensures Add(Add(t, Times(d, steps)), Times(d, -steps)) == t
  {
  }

  /** `css3d.math.lerp` applied to each component, as the node and the camera use it. */
  function LerpVector(from: Vec3, to: Vec3, t: real): Vec3
  {
    Vec3(Lerp(from.x, to.x, t), Lerp(from.y, to.y, t), Lerp(from.z, to.z, t))
  }

  /** The componentwise lerp hits both ends and is constant between equal ends. */
  lemma LerpVectorEndpoints(from: Vec3, to: Vec3, t: real)
    ensures LerpVector(from, to, 0.0) == from
    ensures LerpVector(from, to, 1.0) == to
    ensures LerpVector(from, from, t) == from
  {
    LerpEndpoints(from.x, to.x, t);
    LerpEndpoints(from.y, to.y, t);
    LerpEndpoints(from.z, to.z, t);
  }

  /** `a.dot(b)`. */
  function Dot(a: Vec3, b: Vec3): real
  {
    a.x * b.x + a.y * b.y + a.z * b.z
  }

  /** `vector3.prototype.dot2(a, b)`. */
  function Dot2(a: Vec3, b: Vec3): real
  {
    (a.x * b.x) + (a.y * b.y) + (a.z * b.z)
  }

  /** The two dot products agree and are symmetric. */
  lemma DotAgrees(a: Vec3, b: Vec3)
    ensures Dot2(a, b) == Dot(a, b) == Dot(b, a)
    ensures Dot(a, a) == SquaredLength(a)
  {
  }

  /** `vector3.prototype.cross(a, b)`: the right-hand cross product. */
  function Cross(a: Vec3, b: Vec3): Vec3
  {
    Vec3(a.y * b.z - a.z * b.y,
         a.z * b.x - a.x * b.z,
         a.x * b.y - a.y * b.x)
  }

  /** The cross product is perpendicular to both of its inputs. */
  lemma CrossPerpendicular(a: Vec3, b: Vec3)
    ensures Dot(Cross(a, b), a) == 0.0
    ensures Dot(Cross(a, b), b) == 0.0
  {
  }

  /** Swapping the inputs negates the cross product. */
  lemma CrossAntiCommutes(a: Vec3, b: Vec3)
    ensures Cross(a, b) == Times(Cross(b, a), -1.0)
    ensures Cross(a, a) == Zero
  {
  }

  /** `a.sub(b)`: the new value of `a`. */
  function Sub(a: Vec3, b: Vec3): (r: Vec3)
    ensures Add(r, b) == a
  {
    Vec3(a.x - b.x, a.y - b.y, a.z - b.z)
  }

  /** `vector3.prototype.sub2(a, b)`: a fresh `a - b`. */
  function Sub2(a: Vec3, b: Vec3): (r: Vec3)
    ensures r == Sub(a, b)
    ensures Add(r, b) == a
  {
    Vec3(a.x - b.x, a.y - b.y, a.z - b.z)
  }

  /** `isZero`: exact comparison of all three components with 0. */
  predicate IsZero(v: Vec3)
  {
    v.x == 0.0 && v.y == 0.0 && v.z == 0.0
  }

  /** The squared length is never negative, and is positive exactly off the origin. */
  lemma SquaredLengthSign(v: Vec3)
    ensures 0.0 <= SquaredLength(v)
    ensures !IsZero(v) <==> 0.0 < SquaredLength(v)
    ensures IsZero(v) <==> v == Zero
  {
    SquareSign(v.x);
    SquareSign(v.y);
    SquareSign(v.z);
  }

  /** `vector3.prototype.distance` (release build), through `Math.pow(_, 2)`. */
  function Distance(a: Vec3, b: Vec3, lib: MathLib): real
  {
    lib.sqrt(Square(a.x - b.x) + Square(a.y - b.y) + Square(a.z - b.z))
  }

  function Square(d: real): real
  {
    d * d
  }

  /** The distance is the magnitude of the difference, symmetric in its inputs. */
  lemma DistanceIsMagnitude(a: Vec3, b: Vec3, lib: MathLib)
    ensures Distance(a, b, lib) == Magnitude(Sub2(a, b), lib)
    ensures Distance(a, b, lib) == Distance(b, a, lib)
  {
    assert SquaredLength(Sub2(a, b)) == Square(a.x - b.x) + Square(a.y - b.y) + Square(a.z - b.z);
    assert Square(a.x - b.x) == Square(b.x - a.x);
    assert Square(a.y - b.y) == Square(b.y - a.y);
    assert Square(a.z - b.z) == Square(b.z - a.z);
  }
}
