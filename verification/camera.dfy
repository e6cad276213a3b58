/**
 css3d.camera: a rotation matrix, a translation and a perspective distance,
 from which `update` builds the view matrix when the camera is dirty. The
 eye sits `perspective` behind the translation along the back vector of
 the rotation, and the view matrix is the rigid inverse of the rotation
 with the eye written into its translation slots.
 */
module Camera {
  import opened Optional
  import opened Scalar
  import opened Vector3
  import opened Matrix4
  import Quaternion
  import Element

  datatype Camera = Camera(
    perspective: real,
    view: Mat4,
    rotation: Mat4,
    translation: Vec3,
    isDirty: bool)

  /** The perspective used when none (or 0) is given. */
  const DefaultPerspective: real := 800.0

  /**
   `new css3d.camera(x, y, z, perspective)`: a missing or zero perspective
   becomes 800, a missing x or y becomes 0 and a missing z becomes the
   perspective; both matrices start as the identity and the camera is dirty.
   */
  function New(x: Option<real>, y: Option<real>, z: Option<real>, perspective: Option<real>): (c: Camera)
    ensures c.perspective != 0.0
    ensures perspective.Some? && perspective.value != 0.0 ==> c.perspective == perspective.value
    ensures perspective.None? || perspective.value == 0.0 ==> c.perspective == DefaultPerspective
    ensures c.translation == Vec3(x.GetOr(0.0), y.GetOr(0.0), z.GetOr(c.perspective))
    ensures c.view == Identity && c.rotation == Identity && c.isDirty
  {
    var p := if perspective.Some? && perspective.value != 0.0 then perspective.value else DefaultPerspective;
    Camera(p, Identity, Identity, Vec3(x.GetOr(0.0), y.GetOr(0.0), z.GetOr(p)), true)
  }

  /** The default camera sits 800 in front of the origin, looking down the z axis. */
  lemma NewDefaults()
    ensures New(None, None, None, None) == Camera(800.0, Identity, Identity, Vec3(0.0, 0.0, 800.0), true)
    ensures New(None, None, None, Some(0.0)) == New(None, None, None, None)
    ensures New(None, None, None, Some(500.0)).translation == Vec3(0.0, 0.0, 500.0)
  {
  }

  // ---------------------------------------------------------------------------
  // Setters

  /** `setRotation(axis, angle)`: the axis rotation, with no special case for the angle 0. */
  function SetRotation(c: Camera, axis: Vec3, angle: real, lib: MathLib): (res: Camera)
    ensures res == c.(rotation := RotationAxis(axis, lib.cos(angle), lib.sin(angle)), isDirty := true)
    ensures lib.cos(angle) == 1.0 && lib.sin(angle) == 0.0 ==> res.rotation == Identity
  {
    RotationOfZeroAngle(axis);
    c.(rotation := RotationAxis(axis, lib.cos(angle), lib.sin(angle)), isDirty := true)
  }

  /** `setRotationXYZ(x, y, z)`: the Euler rotation Z * Y * X, always computed. */
  function SetRotationXYZ(c: Camera, x: real, y: real, z: real, lib: MathLib): (res: Camera)
    ensures res.isDirty && res.rotation == Element.EulerRotation(x, y, z, lib)
    ensures res == c.(rotation := res.rotation, isDirty := true)
  {
    c.(rotation := Element.EulerRotation(x, y, z, lib), isDirty := true)
  }

  /** `setRotationMatrix(m)`. */
  function SetRotationMatrix(c: Camera, m: Mat4): (res: Camera)
    ensures res.isDirty && res.rotation == m
    ensures res == c.(rotation := m, isDirty := true)
  {
    c.(rotation := m, isDirty := true)
  }

  /** `setTranslation(x, y, z)`. */
  function SetTranslation(c: Camera, x: real, y: real, z: real): (res: Camera)
    ensures res.isDirty && res.translation == Vec3(x, y, z)
    ensures res == c.(translation := Vec3(x, y, z), isDirty := true)
  {
    c.(translation := Vec3(x, y, z), isDirty := true)
  }

  /**
   `setViewMatrix(m)`: the rotation becomes m's 3x3 block, with zero
   translation slots and bottom row (0, 0, 0, 1), and the translation
   becomes m's translation slots.
   */
  function SetViewMatrix(c: Camera, m: Mat4): (res: Camera)
    ensures res.isDirty
    ensures res.rotation == Linear(m)
    ensures res.rotation.m3 == 0.0 && res.rotation.m7 == 0.0 && res.rotation.m11 == 0.0
    ensures res.translation == Vec3(m.m3, m.m7, m.m11)
    ensures res.perspective == c.perspective && res.view == c.view
  {
    SetTranslation(c.(rotation := Linear(m)), m.m3, m.m7, m.m11).(isDirty := true)
  }

  /**
   `setViewMatrix` takes m apart without loss when m's bottom row is
   (0, 0, 0, 1): the translation times the rotation gives m back, and a
   rigid m gives a rigid rotation.
   */
  lemma SetViewMatrixDecomposes(c: Camera, m: Mat4)
    requires m.m12 == 0.0 && m.m13 == 0.0 && m.m14 == 0.0 && m.m15 == 1.0
    ensures var res := SetViewMatrix(c, m);
            Multiply(Translation(res.translation.x, res.translation.y, res.translation.z), res.rotation) == m
    ensures Rigid(m) ==> Rigid(SetViewMatrix(c, m).rotation)
  {
    var res := SetViewMatrix(c, m);
    assert Linear(Linear(m)) == Linear(m);
  }

  // ---------------------------------------------------------------------------
  // Basis vectors and moves

  /** `backVector()`: the normalized back column of the rotation. */
  function BackVector(c: Camera, lib: MathLib): Vec3
  {
    Normalize(Back(c.rotation), lib)
  }

  /** `forwardVector()`: the normalized forward column of the rotation. */
  function ForwardVector(c: Camera, lib: MathLib): Vec3
  {
    Normalize(Forward(c.rotation), lib)
  }

  /** `rightVector()`: the normalized right column of the rotation. */
  function RightVector(c: Camera, lib: MathLib): Vec3
  {
    Normalize(Right(c.rotation), lib)
  }

  /** `upVector()`: the normalized up column of the rotation. */
  function UpVector(c: Camera, lib: MathLib): Vec3
  {
    Normalize(Up(c.rotation), lib)
  }

  /**
   The camera's forward vector is the opposite of its back vector, and with
   an orthonormal rotation each vector is its column.
   */
  lemma CameraBasis(c: Camera, lib: MathLib)
    ensures ForwardVector(c, lib) == Times(BackVector(c, lib), -1.0)
    ensures ValidSqrt(lib) && Orthonormal(c.rotation) ==>
              && RightVector(c, lib) == Right(c.rotation)
              && UpVector(c, lib) == Up(c.rotation)
              && BackVector(c, lib) == Back(c.rotation)
  {
    NormalizedBasis(c.rotation, lib);
  }

  /** `forward(steps)`: the translation moves by steps along the forward vector. */
  function MoveForward(c: Camera, steps: real, lib: MathLib): (res: Camera)
    ensures res == c.(translation := Add(c.translation, Times(ForwardVector(c, lib), steps)), isDirty := true)
  {
    var t, f := c.translation, ForwardVector(c, lib);
    var v := Add(t, Times(f, steps));
    SetTranslation(c, v.x, v.y, v.z)
  }

  /** `left(steps)`: the translation moves by steps against the right vector. */
  function MoveLeft(c: Camera, steps: real, lib: MathLib): (res: Camera)
    ensures res == c.(translation := Add(c.translation, Times(RightVector(c, lib), -steps)), isDirty := true)
  {
    var t, v := c.translation, RightVector(c, lib);
    var w := Add(t, Times(v, -steps));
    SetTranslation(c, w.x, w.y, w.z)
  }

  /** `up(steps)`: the translation moves by steps along the up vector. */
  function MoveUp(c: Camera, steps: real, lib: MathLib): (res: Camera)
    ensures res == c.(translation := Add(c.translation, Times(UpVector(c, lib), steps)), isDirty := true)
  {
    var t, v := c.translation, UpVector(c, lib);
    var w := Add(t, Times(v, steps));
    SetTranslation(c, w.x, w.y, w.z)
  }

  /**
   A move keeps the rotation, so moving back by the opposite number of steps
   uses the same direction and restores the translation.
   */
  lemma MovesUndo(c: Camera, steps: real, lib: MathLib)
    ensures MoveForward(MoveForward(c, steps, lib), -steps, lib).translation == c.translation
    ensures MoveLeft(MoveLeft(c, steps, lib), -steps, lib).translation == c.translation
    ensures MoveUp(MoveUp(c, steps, lib), -steps, lib).translation == c.translation
  {
    StepsCancel(c.translation, ForwardVector(c, lib), steps);
    StepsCancel(c.translation, RightVector(c, lib), -steps);
    StepsCancel(c.translation, UpVector(c, lib), steps);
  }

  // ---------------------------------------------------------------------------
  // Facing an element

  /**
   Where `getFaceElementMatrix` puts the camera: the element's transformed
   pivot, moved along the element's back vector by the distance (the
   perspective when no distance is given).
   */
  function FacePosition(c: Camera, e: Element.Node, distance: Option<real>, lib: MathLib): Vec3
  {
    var d := distance.GetOr(c.perspective);
    var pivot, back := Element.PivotTransformed(e), Element.BackVector(e, lib);
    Vec3(pivot.x + back.x * d, pivot.y + back.y * d, pivot.z + back.z * d)
  }

  /**
   `getFaceElementMatrix(element, distance)`: the element's total rotation
   with the face position in its translation slots.
   */
  function GetFaceElementMatrix(c: Camera, a: Element.Arena, r: Element.Ref, distance: Option<real>, n: nat, lib: MathLib)
    : (m: Mat4)
    requires Element.Rooted(a, r, n)
    ensures Linear(m) == Linear(Element.TotalRotation(a, r, n))
    ensures Vec3(m.m3, m.m7, m.m11) == FacePosition(c, a[r], distance, lib)
    ensures m.m12 == Element.TotalRotation(a, r, n).m12 && m.m13 == Element.TotalRotation(a, r, n).m13
    ensures m.m14 == Element.TotalRotation(a, r, n).m14 && m.m15 == Element.TotalRotation(a, r, n).m15
    ensures Rigid(Element.TotalRotation(a, r, n)) ==> Rigid(m)
  {
    var p := FacePosition(c, a[r], distance, lib);
    Element.TotalRotation(a, r, n).(m3 := p.x, m7 := p.y, m11 := p.z)
  }

  /**
   When the element's world matrix has an orthonormal block with a non-zero
   back column, the face position lies exactly the distance away from the
   transformed pivot, along the element's back axis.
   */
  lemma FacePositionDistance(c: Camera, e: Element.Node, distance: Option<real>, lib: MathLib)
    requires ValidSqrt(lib) && Orthonormal(e.world)
    ensures var d := distance.GetOr(c.perspective);
            FacePosition(c, e, distance, lib) == Add(Element.PivotTransformed(e), Times(Back(e.world), d))
    ensures var d := distance.GetOr(c.perspective);
            SquaredLength(Sub(FacePosition(c, e, distance, lib), Element.PivotTransformed(e))) == d * d
  {
    var d := distance.GetOr(c.perspective);
    Element.NodeBasis(e, lib);
    OrthonormalBasis(e.world);
    var b := Back(e.world);
    var pivot := Element.PivotTransformed(e);
    assert Sub(FacePosition(c, e, distance, lib), pivot) == Times(b, d);
    ScaledSquaredLength(b, d);
  }

  /**
   When the element's chain has rigid rotations, a camera placed with the
   face matrix gets, at its next `update`, a view matrix that undoes the
   placement.
   */
  lemma FaceMatrixViewInverts(c: Camera, a: Element.Arena, r: Element.Ref, distance: Option<real>, n: nat, lib: MathLib)
    requires Element.Rooted(a, r, n) && Element.ChainRigid(a, r, n)
    ensures var placed := Update(SetRotationMatrix(c, GetFaceElementMatrix(c, a, r, distance, n, lib)), lib);
            Multiply(placed.view, placed.rotation) == Identity
  {
    Element.TotalRotationRigid(a, r, n);
    UpdateInverts(SetRotationMatrix(c, GetFaceElementMatrix(c, a, r, distance, n, lib)), lib);
  }

  // ---------------------------------------------------------------------------
  // Interpolation

  /** `lerpTranslation(from, to, t)`: the translation becomes the componentwise lerp. */
  function LerpTranslation(c: Camera, from: Vec3, to: Vec3, t: real): (res: Camera)
    ensures res == c.(translation := LerpVector(from, to, t), isDirty := true)
  {
    var v := LerpVector(from, to, t);
    SetTranslation(c, v.x, v.y, v.z)
  }

  /** The translation lerp hits both ends. */
  lemma LerpTranslationEnds(c: Camera, from: Vec3, to: Vec3)
    ensures LerpTranslation(c, from, to, 0.0).translation == from
    ensures LerpTranslation(c, from, to, 1.0).translation == to
  {
    LerpVectorEndpoints(from, to, 0.0);
  }

  /** The camera after an interpolation step, and the target quaternion as `slerp` leaves it. */
  datatype Lerped = Lerped(camera: Camera, target: Option<Quaternion.Quat>)

  /**
   `lerpRotation(fromMatrix, toQuaternion, t)`: the written slerp from the
   quaternion of fromMatrix, its result's matrix stored with
   `setRotationMatrix`, and the target as that slerp leaves it.
   */
  function LerpRotation(c: Camera, fromMatrix: Mat4, toQuaternion: Quaternion.Quat, t: real, lib: MathLib): (res: Lerped)
    requires SqrtPositive(lib)
    ensures var o := Quaternion.Slerp(Quaternion.FromMatrix4(fromMatrix, lib), toQuaternion, t, lib);
            res == Lerped(c.(rotation := Quaternion.ToMatrix4(o.result), isDirty := true), Some(o.target))
  {
    var o := Quaternion.Slerp(Quaternion.FromMatrix4(fromMatrix, lib), toQuaternion, t, lib);
    Lerped(SetRotationMatrix(c, Quaternion.ToMatrix4(o.result)), Some(o.target))
  }

  /**
   `lerp(fromTranslation, toTranslation, fromRotationMatrix, toQuaternion, t)`:
   nothing happens when t is null; otherwise the translation and then the
   rotation are interpolated, each only when both of its ends are given.
   */
  function Lerp(c: Camera, fromTranslation: Option<Vec3>, toTranslation: Option<Vec3>,
                fromRotation: Option<Mat4>, toQuaternion: Option<Quaternion.Quat>, t: Option<real>, lib: MathLib)
    : (res: Lerped)
    requires SqrtPositive(lib)
    ensures t.None? ==> res == Lerped(c, toQuaternion)
    ensures var moving := t.Some? && fromTranslation.Some? && toTranslation.Some?;
            res.camera.translation
            == if moving then LerpVector(fromTranslation.value, toTranslation.value, t.value) else c.translation
    ensures var turning := t.Some? && fromRotation.Some? && toQuaternion.Some?;
            && (turning ==>
                  var o := Quaternion.Slerp(Quaternion.FromMatrix4(fromRotation.value, lib), toQuaternion.value, t.value, lib);
                  res.camera.rotation == Quaternion.ToMatrix4(o.result) && res.target == Some(o.target))
            && (!turning ==> res.camera.rotation == c.rotation && res.target == toQuaternion)
    ensures res.camera.perspective == c.perspective && res.camera.view == c.view
    ensures res.camera.isDirty == (c.isDirty || (t.Some? && ((fromTranslation.Some? && toTranslation.Some?) ||
                                                            (fromRotation.Some? && toQuaternion.Some?))))
  {
    if t.None? then Lerped(c, toQuaternion)
    else
      var c1 := if fromTranslation.Some? && toTranslation.Some?
                then LerpTranslation(c, fromTranslation.value, toTranslation.value, t.value) else c;
      if fromRotation.Some? && toQuaternion.Some? then
        LerpRotation(c1, fromRotation.value, toQuaternion.value, t.value, lib)
      else
        Lerped(c1, toQuaternion)
  }

  /**
   The closure `getFaceElementLerpFunction(element, distance)` returns: the
   camera's translation and rotation at the time of the call, the face
   position, and the quaternion of the face matrix with its translation
   slots cleared.
   */
  datatype FaceLerp = FaceLerp(
    fromTranslation: Vec3,
    toTranslation: Vec3,
    fromRotation: Mat4,
    toRotation: Quaternion.Quat)

  function GetFaceElementLerpFunction(c: Camera, a: Element.Arena, r: Element.Ref, distance: Option<real>, n: nat,
                                      lib: MathLib): (f: FaceLerp)
    requires Element.Rooted(a, r, n) && SqrtPositive(lib)
    ensures f.fromTranslation == c.translation && f.fromRotation == c.rotation
    ensures f.toTranslation == FacePosition(c, a[r], distance, lib)
    ensures f.toRotation == Quaternion.FromMatrix4(Element.TotalRotation(a, r, n), lib)
  {
    var m := GetFaceElementMatrix(c, a, r, distance, n, lib);
    Quaternion.FromMatrix4SameBlock(m.(m3 := 0.0, m7 := 0.0, m11 := 0.0), Element.TotalRotation(a, r, n), lib);
    FaceLerp(c.translation, Vec3(m.m3, m.m7, m.m11), c.rotation,
             Quaternion.FromMatrix4(m.(m3 := 0.0, m7 := 0.0, m11 := 0.0), lib))
  }

  /** Calling the face-element closure with t; it keeps the target quaternion as `slerp` left it. */
  function ApplyFaceLerp(c: Camera, f: FaceLerp, t: Option<real>, lib: MathLib): (res: (Camera, FaceLerp))
    requires SqrtPositive(lib)
    ensures res.1 == f.(toRotation := res.1.toRotation)
  {
    var o := Lerp(c, Some(f.fromTranslation), Some(f.toTranslation), Some(f.fromRotation), Some(f.toRotation), t, lib);
    (o.camera, f.(toRotation := o.target.value))
  }

  /**
   The face-element closure at amount 1 puts the camera at the face
   position, and in the slerp's blending branch gives it the rotation of
   the target as the written slerp leaves it: the face quaternion's own
   rotation when its cosine with the camera's quaternion is non-negative or
   its z is 0, the rotation of the written flip otherwise. At amount 0 it
   restores the captured translation.
   */
  lemma FaceLerpEnds(c: Camera, d: Camera, a: Element.Arena, r: Element.Ref, distance: Option<real>, n: nat, lib: MathLib)
    requires Element.Rooted(a, r, n) && SqrtPositive(lib) && Quaternion.SineOfArcCosine(lib)
    ensures var f := GetFaceElementLerpFunction(c, a, r, distance, n, lib);
            ApplyFaceLerp(d, f, Some(1.0), lib).0.translation == FacePosition(c, a[r], distance, lib)
    ensures var f := GetFaceElementLerpFunction(c, a, r, distance, n, lib);
            ApplyFaceLerp(d, f, Some(0.0), lib).0.translation == c.translation
    ensures var f := GetFaceElementLerpFunction(c, a, r, distance, n, lib);
            var qa := Quaternion.FromMatrix4(f.fromRotation, lib);
            var end := ApplyFaceLerp(d, f, Some(1.0), lib).0.rotation;
            Quaternion.SlerpBranch(Abs(Quaternion.HalfAngleCos(qa, f.toRotation)), lib) == 2 ==>
              && (Quaternion.HalfAngleCos(qa, f.toRotation) >= 0.0 || f.toRotation.z == 0.0 ==>
                    end == Quaternion.ToMatrix4(f.toRotation))
              && (Quaternion.HalfAngleCos(qa, f.toRotation) < 0.0 ==>
                    end == Quaternion.ToMatrix4(Quaternion.FlipAsWritten(f.toRotation)))
  {
    var f := GetFaceElementLerpFunction(c, a, r, distance, n, lib);
    LerpVectorEndpoints(f.fromTranslation, f.toTranslation, 0.0);
    var qa := Quaternion.FromMatrix4(f.fromRotation, lib);
    if Quaternion.SlerpBranch(Abs(Quaternion.HalfAngleCos(qa, f.toRotation)), lib) == 2 {
      Quaternion.SlerpEndpoints(qa, f.toRotation, lib);
    }
  }

  /**
   Each call of the face-element closure with an amount keeps the target as
   the written slerp left it: unchanged when its cosine with the camera's
   captured quaternion is non-negative, and otherwise flipped with z kept,
   so a later call starts from that flipped target.
   */
  lemma FaceLerpRetargets(d: Camera, f: FaceLerp, t: real, lib: MathLib)
    requires SqrtPositive(lib)
    ensures var qa := Quaternion.FromMatrix4(f.fromRotation, lib);
            var g := ApplyFaceLerp(d, f, Some(t), lib).1;
            && (Quaternion.HalfAngleCos(qa, f.toRotation) >= 0.0 ==> g == f)
            && (Quaternion.HalfAngleCos(qa, f.toRotation) < 0.0 ==>
                  g == f.(toRotation := Quaternion.FlipAsWritten(f.toRotation)))
  {
  }

  // ---------------------------------------------------------------------------
  // View matrix

  /** The eye: the translation moved back along the back vector by the perspective. */
  function Eye(c: Camera, lib: MathLib): Vec3
  {
    var b := BackVector(c, lib);
    Vec3(c.translation.x - b.x * c.perspective, c.translation.y - b.y * c.perspective, c.translation.z - b.z * c.perspective)
  }

  /**
   `update()`: a dirty camera writes the eye into the translation slots of
   its own rotation matrix, takes the rigid inverse of that as the view
   matrix and becomes clean; a clean camera is left alone.
   */
  function Update(c: Camera, lib: MathLib): (res: Camera)
    ensures !res.isDirty
    ensures !c.isDirty ==> res == c
    ensures c.isDirty ==> res.view == FastInverse(res.rotation)
    ensures c.isDirty ==> Vec3(res.rotation.m3, res.rotation.m7, res.rotation.m11) == Eye(c, lib)
    ensures c.isDirty ==> Linear(res.rotation) == Linear(c.rotation)
    ensures c.isDirty ==> res.rotation.m12 == c.rotation.m12 && res.rotation.m13 == c.rotation.m13
    ensures c.isDirty ==> res.rotation.m14 == c.rotation.m14 && res.rotation.m15 == c.rotation.m15
    ensures res.perspective == c.perspective && res.translation == c.translation
  {
    if !c.isDirty then c
    else
      var e := Eye(c, lib);
      var m := c.rotation.(m3 := e.x, m7 := e.y, m11 := e.z);
      c.(rotation := m, view := FastInverse(m), isDirty := false)
  }

  /**
   For a rigid rotation the view matrix `update` builds undoes the camera
   placement: view * placement is the identity, the eye is mapped to the
   origin, and the view's 3x3 block is the transposed rotation.
   */
  lemma UpdateInverts(c: Camera, lib: MathLib)
    requires c.isDirty && Rigid(c.rotation)
    ensures var res := Update(c, lib); Multiply(res.view, res.rotation) == Identity
    ensures Linear(Update(c, lib).view) == Transpose(Linear(c.rotation))
  {
    var res := Update(c, lib);
    assert Linear(res.rotation) == Linear(c.rotation);
    assert Rigid(res.rotation);
    FastInverseIsInverse(res.rotation);
  }

  /** With an orthonormal rotation the eye is the translation moved by `-perspective` along the back column. */
  lemma EyePosition(c: Camera, lib: MathLib)
    requires ValidSqrt(lib) && Orthonormal(c.rotation)
    ensures Eye(c, lib) == Add(c.translation, Times(Back(c.rotation), -c.perspective))
  {
    CameraBasis(c, lib);
  }

  /** With an orthonormal rotation the eye is exactly `perspective` away from the translation. */
  lemma EyeDistance(c: Camera, lib: MathLib)
    requires ValidSqrt(lib) && Orthonormal(c.rotation)
    ensures SquaredLength(Sub(c.translation, Eye(c, lib))) == c.perspective * c.perspective
  {
    EyePosition(c, lib);
    OrthonormalBasis(c.rotation);
    assert Sub(c.translation, Eye(c, lib)) == Times(Back(c.rotation), c.perspective);
    ScaledSquaredLength(Back(c.rotation), c.perspective);
  }
}
