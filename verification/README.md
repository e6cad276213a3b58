# CSS3D core in Dafny

This project models the core of CSS3D, a JavaScript engine that places DOM elements in a 3D scene through CSS 3D transforms. The model covers these parts:

- **Math kernel:**
  - `css3d.matrix4`: row-major 4x4 matrices, the rotation, scale and translation builders, the basis readers, `transpose` and the rigid `fastInverse`;
  - `css3d.quaternion`: the constructor, `normalize`, conjugate and product, the two matrix conversions and `slerp`;
  - `css3d.vector3`, including the release build's `distance`, and `css3d.vector4`;
  - the scalar helpers `lerp`, `hermite` and `smoothStep`.
- **Scene graph:**
  - `css3d.element`: nodes with pivot, scale, rotation and translation, dirty flags, parent links and the world-matrix `update`;
  - `css3d.camera`: placement, moves, facing an element, interpolation and the view matrix;
  - `css3d.collision`: the hit test of a moving point against a list of nodes;
  - `css3d.scene`: the node list, lookup by DOM id and the scene `update`.

Numbers are exact reals. `Math.sqrt`, `Math.sin`, `Math.cos` and `Math.acos` are passed in as a `Scalar.MathLib` value. A lemma that depends on one of them states, as a precondition, the property it needs: `SqrtPositive`, `ValidSqrt` or `Quaternion.SineOfArcCosine`.

Nodes live in an arena: a map from node id to node record. Parent links and child lists hold ids. Every operation returns the new arena, or for the camera the new camera, instead of mutating objects. `update` recurses up the parent chain. The model therefore carries a bound `n` together with the precondition `Element.Rooted(a, r, n)`, which says the chain reaches a root within `n` steps. `Element.UpdateFuel` proves the bound changes nothing.

Files and modules:

| file | module |
|---|---|
| option.dfy | `Optional` |
| scalar.dfy | `Scalar` |
| vector3.dfy | `Vector3` |
| matrix4.dfy | `Matrix4` |
| quaternion.dfy | `Quaternion` |
| vector4.dfy | `Vector4` (it also holds `vector3.prototype.transform`, which builds a vector4) |
| element.dfy | `Element` |
| camera.dfy | `Camera` |
| collision.dfy | `Collision` |
| scene.dfy | `Scene` |

## Model

| member | source | states |
|---|---|---|
| Scalar.SqrtOfSquare | release/css3d.js:3433-3454 | A valid square root of u*u is \|u\|. `fromMatrix4` relies on this to recover the pivot component. |
| Scalar.LerpEndpoints | src/css3d.math.js:24-27 | `lerp` returns value1 at amount 0 and value2 at amount 1, and is constant between equal ends. |
| Scalar.LerpBetween | src/css3d.math.js:24-27 | For an amount in [0,1] the result lies between the two values, in either order. |
| Scalar.HermiteIsSmoothStep | src/css3d.math.js:65-68 | `hermite` and `smoothStep` are the same cubic 3t^2 - 2t^3. |
| Scalar.SmoothStepFixedPoints | src/css3d.math.js:105-109 | The smooth step fixes 0, 1/2 and 1. |
| Scalar.SmoothStepBounded | src/css3d.math.js:105-109 | On [0,1] the smooth step stays in [0,1]. |
| Vector3.Normalize | src/css3d.vector3.js:70-79 | A zero magnitude leaves the vector unchanged. Otherwise the result scaled back by the magnitude is the input. |
| Vector3.NormalizeUnit | src/css3d.vector3.js:70-79 | With an exact square root, a non-zero vector normalizes to unit length. |
| Vector3.NormalizeOfUnit | src/css3d.vector3.js:70-79 | With an exact square root, normalizing a unit vector leaves it unchanged. |
| Vector3.NormalizeOpposite | src/css3d.vector3.js:70-79 | Normalizing -v gives minus the normalized v. |
| Vector3.DotAgrees | src/css3d.vector3.js:88-104 | `dot` and `dot2` agree, are symmetric, and give the squared length on the diagonal. |
| Vector3.CrossPerpendicular | src/css3d.vector3.js:115-123 | The cross product is orthogonal to both inputs. |
| Vector3.CrossAntiCommutes | src/css3d.vector3.js:115-123 | Swapping the inputs negates the cross product, and a x a = 0. |
| Vector3.Sub | src/css3d.vector3.js:132-138 | `sub` is the inverse of adding b: (a - b) + b = a. |
| Vector3.Sub2 | src/css3d.vector3.js:148-156 | `sub2` gives the same value as `sub` and inverts addition. |
| Vector3.SquaredLengthSign | src/css3d.vector3.js:203-206 | `isZero` holds exactly when the squared length is 0, which is exactly the origin. |
| Vector3.DistanceIsMagnitude | release/css3d.js:3981-3984 | `distance` is the magnitude of the difference and is symmetric. |
| Vector3.LerpVectorEndpoints | src/css3d.element.js:610-637 | The componentwise lerp used by the `lerp*` setters hits both ends and is constant between equal ends. |
| Matrix4.IdentityUnit | release/css3d.js:2902-2941 | `identity` is a two-sided unit of `multiply`. |
| Matrix4.MultiplyAssociative | release/css3d.js:2918-2941 | `multiply` is associative. |
| Matrix4.RotationsCompose | release/css3d.js:2948-2989 | Rotations about one coordinate axis compose by the angle-addition formulas. |
| Matrix4.RotationOfZeroAngle | release/css3d.js:2948-3010 | The zero angle (cos 1, sin 0) gives the identity about every axis. |
| Matrix4.RotationAxisOfBasis | release/css3d.js:2997-3010 | `rotationAxis` about a unit coordinate axis equals the matching `rotationX`, `rotationY` or `rotationZ`. |
| Matrix4.AxisRotationsRigid | release/css3d.js:2948-2989 | With c^2 + s^2 = 1, the coordinate-axis rotations are rigid motions. |
| Matrix4.TranslationAndScaleCompose | release/css3d.js:3019-3044 | Translations add, scales multiply componentwise, and the neutral ones are the identity. |
| Matrix4.TranslationInverse | release/css3d.js:3036-3044 | Translating by v and then by -v cancels, in both orders. |
| Matrix4.BasisReaders | release/css3d.js:3051-3084 | `forward` is the opposite of `back`. On the identity the four readers give the axes, with `up` pointing down the y axis. |
| Matrix4.OrthonormalBasis | release/css3d.js:3051-3074 | On an orthonormal block, `right`, `up` and `back` are unit vectors at right angles. |
| Matrix4.NormalizedBasis | release/css3d.js:3051-3084 | The normalized forward is minus the normalized back. On an orthonormal block, normalizing leaves each column unchanged. |
| Matrix4.TransposeLaws | release/css3d.js:3166-3174 | Transposing is an involution, reverses products and fixes the identity. |
| Matrix4.FastInverse | release/css3d.js:3182-3196 | The result has bottom row (0,0,0,1) and its 3x3 block is the transposed block of m. |
| Matrix4.FastInverseIsInverse | release/css3d.js:3182-3196 | On a rigid motion, `fastInverse` is a left inverse. |
| Matrix4.TranslateAffine | release/css3d.js:3036-3044 | Translating an affine matrix keeps its 3x3 block, adds to its translation slots and keeps it rigid. |
| Matrix4.LinearProduct | release/css3d.js:2918-2941 | When the right factor is affine, the 3x3 block of a product is the product of the blocks. |
| Matrix4.RigidProduct | release/css3d.js:2918-2941 | Rigid motions are closed under `multiply`. |
| Quaternion.Make | release/css3d.js:3263-3295 | The constructor keeps x, y, z and a non-zero w, and turns a w of 0 into 1. |
| Quaternion.NormalizeGate | release/css3d.js:3303-3314 | Inside the tolerance gate the quaternion is unchanged. Outside it, the result scaled back by the magnitude is the input, and with an exact square root it has unit norm. |
| Quaternion.ConjugateLaws | release/css3d.js:3322-3325 | The conjugate negates the vector part and keeps a non-zero w, so conjugating twice is the identity. A w of 0 becomes 1. |
| Quaternion.MultiplyUnit | release/css3d.js:3334-3342 | The default quaternion is a two-sided unit of `multiply` for every w other than 0. |
| Quaternion.MultiplyNorm | release/css3d.js:3334-3342 | Norms multiply, unless the constructor replaces a product's w of 0. |
| Quaternion.MultiplyConjugate | release/css3d.js:3322-3342 | q times its conjugate is the real quaternion of its squared norm. |
| Quaternion.ToMatrix4Laws | release/css3d.js:3469-3488 | q and -q give the same matrix, the default quaternion gives the identity, and the matrix has no translation. |
| Quaternion.ToMatrix4Rigid | release/css3d.js:3469-3488 | A unit quaternion gives a rigid rotation matrix. |
| Quaternion.FromMatrix4Radicand | release/css3d.js:3426-3461 | The number whose square root the chosen branch takes is at least 1, so the square root is never of a negative number. |
| Quaternion.FromMatrix4SameBlock | release/css3d.js:3426-3461 | `fromMatrix4` reads only the 3x3 block. |
| Quaternion.FromMatrix4OfToMatrix4 | release/css3d.js:3426-3488 | `fromMatrix4` undoes `toMatrix4` on unit quaternions, up to the sign that names the same rotation, whichever of the four branches runs. |
| Quaternion.HalfTurnZ | release/css3d.js:3426-3454 | `fromMatrix4` of the half-turn about z takes the z branch and gives exactly (0, 0, 1, 0). |
| Quaternion.SlerpTarget | release/css3d.js:3546-3589 | When qa . qb >= 0, both versions leave qb alone. Otherwise the written flip negates w, x and y but keeps z, and the corrected one negates all four. |
| Quaternion.SlerpShortArcTarget | release/css3d.js:3546-3589 | The corrected flip points qb towards qa: its dot product with qa is \|qa . qb\|. It keeps qb's rotation matrix. |
| Quaternion.SlerpFlipAsWrittenDiffers | release/css3d.js:3556 | On qa = (0,0,0,1), qb = (0,0,0.6,-0.8), the written flip turns qb into a different rotation. |
| Quaternion.FlipAsWrittenOscillates | release/css3d.js:3553-3558 | The written flip need not point qb towards qa, so repeated calls flip qb back and forth. |
| Quaternion.FlipAsWrittenLaws | release/css3d.js:3553-3558 | The written flip equals the full negation exactly when z is 0, is an involution, and turns the cosine c into 2 qa.z qb.z - c. |
| Quaternion.SlerpRetarget | release/css3d.js:3553-3558 | A second written slerp from qa leaves an unflipped target alone. A flipped target flips back to qb when its own cosine with qa is still negative, and stays otherwise. |
| Quaternion.ShortArcSettles | release/css3d.js:3553-3558 | The corrected flip is idempotent: once flipped, the target stays put. |
| Quaternion.DegenerateBranches | release/css3d.js:3560-3578 | When \|cos\| >= 1 slerp copies qa. Below the sine threshold it averages. In both cases the amount plays no part. |
| Quaternion.SlerpDegenerate | release/css3d.js:3546-3578 | `slerp` returns qa when \|qa . qb\| >= 1. In both fixed cases the result is the same for every amount, in both versions. |
| Quaternion.SlerpEndpoints | release/css3d.js:3546-3589 | In the blending branch, amount 0 gives qa and amount 1 gives the target as the slerp leaves it. For the written version that is qb's rotation when no flip happens or qb.z is 0; for the corrected version it always is. |
| Vector4.Make | src/css3d.vector4.js:31-37 | The constructor never produces w = 0. |
| Vector4.MakeKeeps | src/css3d.vector4.js:31-37 | The constructor keeps its arguments exactly when w is non-zero, maps w = 0 to 1 and is idempotent. |
| Vector4.Homogenize | src/css3d.vector4.js:45-54 | The result has w = 1. |
| Vector4.HomogenizeLaws | src/css3d.vector4.js:45-54 | `homogenize` keeps a point with w = 1 and is idempotent. The result scaled by the old w is the input. |
| Vector4.Normalize4 | src/css3d.vector4.js:73-83 | A zero magnitude leaves the vector unchanged. Otherwise the result scaled back by the magnitude is the input. |
| Vector4.Normalize4Unit | src/css3d.vector4.js:62-83 | With an exact square root, normalizing a constructed vector gives unit length. |
| Vector4.DotAsWrittenDiffers | src/css3d.vector4.js:92-96 | The written `dot` differs from the dot product by w + w' - w*w'. It gives 2 for (0,0,0,1) with itself, whose squared length is 1. |
| Vector4.DotProductLaws | src/css3d.vector4.js:92-96 | The corrected dot product is symmetric, gives the squared length on the diagonal and is linear. |
| Vector4.Cross4Perpendicular | src/css3d.vector4.js:106-119 | The x, y, z part of `cross` is orthogonal to both inputs as `cross` rebuilds and homogenizes them. A constructible input's rebuilt copy is its homogenized self, and a w of 0 acts as a w of 1. |
| Vector4.TransformLaws | src/css3d.vector4.js:128-136 | The identity fixes constructed vectors, a computed w of 0 comes out as 1, and an affine matrix keeps w. |
| Vector4.TransformCompose | src/css3d.vector4.js:128-136 | Transforming by b and then by a is transforming by a * b, for affine a and b. |
| Vector4.AffineProduct | release/css3d.js:2918-2941 | Affine matrices are closed under `multiply`. |
| Vector4.ToVector3 | src/css3d.vector4.js:144-147 | `toVector3` is the x, y, z part. |
| Vector4.ToVector3RoundTrip | src/css3d.vector4.js:144-147 | Dropping w undoes the constructor whatever w it was given, and rebuilding from the three parts and the old w gives back any constructible vector. |
| Vector4.TransformVector3Laws | src/css3d.vector3.js:165-173 | Transforming a 3-vector transforms the point with w = 1. A translation moves it by that translation. An affine matrix applies its block and then its translation slots. |
| Optional.GetOr | src/css3d.camera.js:31-49 | A missing argument takes the default and a present one is kept. |
| Element.AddChild | src/css3d.element.js:176-181 | `addChild` appends the child to p's list and points the child at p, with no duplicate or cycle check. No other node changes. |
| Element.SetParent | src/css3d.element.js:162-167 | `setParent` points c at p and appends c to p's children. No other node changes. |
| Element.SetParentKeepsOldParent | src/css3d.element.js:162-167 | A previous parent still lists the node afterwards, and p's list gains one more copy of c. |
| Element.MarkDirtyEffect | src/css3d.element.js:200-206 | Marking a list of children dirty marks exactly the listed nodes. |
| Element.SetChildrenDirty | src/css3d.element.js:200-206 | Exactly the direct children of r become dirty, and every node keeps its other fields. |
| Element.DirtyStopsAtChildren | src/css3d.element.js:200-206 | A grandchild that is not also a child keeps its dirty flag. |
| Element.SetScale | src/css3d.element.js:302-311 | The node and its children are dirtied, and `_isScaled` is false exactly for (1,1,1). |
| Element.SetTranslation | src/css3d.element.js:431-440 | The node and its children are dirtied, and `_isTranslated` is false exactly at the origin. |
| Element.SetRotation | src/css3d.element.js:332-344 | An angle of exactly 0 stores the identity and clears `_isRotated`. Any other angle stores the axis rotation. The node and its children are dirtied. |
| Element.SetRotationXYZ | src/css3d.element.js:355-378 | Three zero angles store the identity and clear `_isRotated`. Otherwise the Euler rotation Z*Y*X is stored. The node and its children are dirtied. |
| Element.SetRotationMatrix | src/css3d.element.js:387-394 | Stores m and always sets `_isRotated`. The node and its children are dirtied. |
| Element.SetPivot | src/css3d.element.js:256-268 | Only the pivot and `_isPivotChanged` (set exactly off the origin) change. No dirty flag is touched. |
| Element.SetBackfaceCulling | src/css3d.element.js:215-223 | Stores the value and raises the culling-dirty flag exactly when it differs from the last value stored. |
| Element.SetBackfaceCullingIdempotent | src/css3d.element.js:215-223 | Setting the same value twice equals setting it once. |
| Element.NewNode | src/css3d.element.js:26-82 | A new node is dirty, unparented, childless, has consistent flags and an identity local matrix. |
| Element.Depth | src/css3d.element.js:413-420 | The distance to the root is within the bound. |
| Element.RootedAcyclic | src/css3d.element.js:413-420 | A node whose chain reaches a root is not its own ancestor. |
| Element.FlagsSkipIdentity | src/css3d.element.js:719-731 | When the flags agree with the values, skipping flagged-off factors does not change the local matrix T*S*T(p)*R*T(-p). |
| Element.Update | src/css3d.element.js:716-757 | A clean node is left alone. Afterwards r and its parent are clean, no node is dirtied, only the world matrix, world normal and flag change, and only r's ancestors are touched. |
| Element.UpdateRoot | src/css3d.element.js:716-757 | A dirty root gets its local matrix, and its normal is turned by its own rotation. |
| Element.RootWorldIsTranslation | src/css3d.element.js:719-731 | A dirty root that is neither scaled nor rotated gets world == translation(t). |
| Element.UpdateChild | src/css3d.element.js:733-750 | A dirty child gets the parent's updated world matrix times the scale correction times its local matrix. Its normal is turned by the total rotation. |
| Element.UpdateFuel | src/css3d.element.js:716-757 | The chain bound is only a bound: any two that reach the root give the same update. |
| Element.TotalRotationFuel | src/css3d.element.js:413-420 | Any two bounds that reach the root give the same total rotation. |
| Element.TotalRotationRigid | src/css3d.element.js:413-420 | When every rotation on the chain to the root is rigid, the total rotation is rigid. |
| Element.UpdateAllDirty | src/css3d.element.js:716-757 | When the whole chain is dirty, the world matrix is the product, from the root down, of each node's scale correction and local matrix. |
| Element.ChildScaleInheritance | src/css3d.element.js:733-745 | Under a scaled, unrotated root, a child that does not inherit scaling gets only the parent's translation. With `inheritScaling` it gets the parent's full local matrix. |
| Element.ScaleCancels | src/css3d.element.js:737-741 | Scaling by s and then by 1/s cancels. |
| Element.RootPosition | src/css3d.element.js:459-462 | After update, a root without a used pivot sits at its translation. |
| Element.PivotStays | src/css3d.element.js:287-291 | Rotation about the pivot keeps the pivot in place: after update it maps to t + s*p, whatever the rotation. |
| Element.NodeBasis | src/css3d.element.js:470-544 | The node's forward vector is minus its back vector. On an orthonormal world block each vector is its column. |
| Element.MoveForward | src/css3d.element.js:494-503 | The translation moves by steps along the forward vector. The node and its children are dirtied. |
| Element.MoveLeft | src/css3d.element.js:524-533 | The translation moves by steps against the right vector. The node and its children are dirtied. |
| Element.MoveUp | src/css3d.element.js:554-563 | The translation moves by steps along the up vector. The node and its children are dirtied. |
| Element.MoveForwardUndo | src/css3d.element.js:494-503 | Moving forward by -steps after steps restores the translation. |
| Element.MoveLeftUndo | src/css3d.element.js:524-533 | Moving left by -steps after steps restores the translation. |
| Element.MoveUpUndo | src/css3d.element.js:554-563 | Moving up by -steps after steps restores the translation. |
| Element.LerpScale | src/css3d.element.js:610-618 | The scale becomes the componentwise lerp, and the node and its children are dirtied. |
| Element.LerpTranslation | src/css3d.element.js:629-637 | The translation becomes the componentwise lerp, and the node and its children are dirtied. |
| Element.LerpRotation | src/css3d.element.js:648-654 | Stores the matrix of the written slerp from the start matrix's quaternion, and hands back the target as that slerp leaves it: unchanged, or flipped with z kept when the cosine is negative. |
| Element.LerpRotationEnds | src/css3d.element.js:648-654 | Starting from a unit quaternion's matrix, amount 0 reproduces that matrix outside the averaging branch. In the blending branch, amount 1 gives the target's rotation when the recovered start quaternion has a non-negative cosine with it or its z is 0, and the rotation of the written flip otherwise. |
| Element.LerpRotationRetargets | src/css3d.element.js:648-654 | Stepping again towards the handed-back target: with no flip the target stays. After a flip it flips back to the original target when the flipped one still has a negative cosine, and stays otherwise. |
| Element.LerpRotationOscillates | src/css3d.element.js:648-654 | From the half-turn about z, the target (x, 0, z, 0) with z < 0 comes back as (-x, 0, z, 0), and stepping towards that gives (x, 0, z, 0) again, so the target never settles. |
| Element.Lerp | src/css3d.element.js:669-684 | A null amount changes nothing. Otherwise each of scale, translation and rotation with both ends given is interpolated, the rotation with the written slerp, and the others are kept. Pivot, world matrix and links are untouched. |
| Element.GetLerpFunction | src/css3d.element.js:695-707 | The closure captures the node's scale, translation and rotation at the time of the call. |
| Element.ApplyLerp | src/css3d.element.js:695-707 | Calling the closure changes only its target quaternion. |
| Element.LerpFunctionEnds | src/css3d.element.js:695-707 | At amount 0 the closure restores the captured scale and translation, whatever the node holds by then. At amount 1 it gives the targets. A null amount changes nothing. |
| Camera.New | src/css3d.camera.js:31-49 | A missing or zero perspective becomes 800. A missing z becomes the perspective. Both matrices start as the identity and the camera is dirty. |
| Camera.NewDefaults | src/css3d.camera.js:31-49 | The default camera sits at (0,0,800), and a perspective of 0 behaves as a missing one. |
| Camera.SetRotation | src/css3d.camera.js:64-69 | Stores the axis rotation with no zero-angle case. It is the identity when cos = 1 and sin = 0. |
| Camera.SetRotationXYZ | src/css3d.camera.js:80-92 | Stores the Euler rotation Z*Y*X and marks the camera dirty. |
| Camera.SetRotationMatrix | src/css3d.camera.js:101-106 | Stores m and marks the camera dirty. |
| Camera.SetTranslation | src/css3d.camera.js:128-135 | Stores the translation and marks the camera dirty. |
| Camera.SetViewMatrix | src/css3d.camera.js:267-278 | The rotation becomes m's 3x3 block with zero translation slots, and the translation becomes m's translation slots. |
| Camera.SetViewMatrixDecomposes | src/css3d.camera.js:267-278 | For an affine m, translation times rotation gives m back, and a rigid m gives a rigid rotation. |
| Camera.CameraBasis | src/css3d.camera.js:154-228 | Forward is minus back. On an orthonormal rotation each vector is its column. |
| Camera.MoveForward | src/css3d.camera.js:178-187 | The translation moves by steps along the forward vector, and nothing else changes but the dirty flag. |
| Camera.MoveLeft | src/css3d.camera.js:208-217 | The translation moves by steps against the right vector, and nothing else changes but the dirty flag. |
| Camera.MoveUp | src/css3d.camera.js:238-247 | The translation moves by steps along the up vector, and nothing else changes but the dirty flag. |
| Camera.MovesUndo | src/css3d.camera.js:178-247 | Each move by -steps after steps restores the translation. |
| Camera.GetFaceElementMatrix | src/css3d.camera.js:288-306 | The matrix is the element's total rotation with the face position in its translation slots, so it is rigid when the total rotation is. |
| Camera.FacePositionDistance | src/css3d.camera.js:288-306 | With an orthonormal world block, the face position lies exactly the distance away from the transformed pivot, along the back axis. |
| Camera.FaceMatrixViewInverts | src/css3d.camera.js:288-306 | With rigid rotations along the element's chain, a camera placed with the face matrix gets a view matrix that undoes the placement at its next update. |
| Camera.LerpTranslation | src/css3d.camera.js:344-352 | The translation becomes the componentwise lerp. |
| Camera.LerpTranslationEnds | src/css3d.camera.js:344-352 | The translation lerp hits both ends. |
| Camera.LerpRotation | src/css3d.camera.js:363-369 | Stores the matrix of the written slerp from the start matrix's quaternion, and hands back the target as that slerp leaves it. |
| Camera.Lerp | src/css3d.camera.js:382-394 | A null amount changes nothing. Otherwise translation and rotation are each interpolated when both ends are given, the rotation with the written slerp. The camera is dirty exactly when something was set. |
| Camera.GetFaceElementLerpFunction | src/css3d.camera.js:316-333 | The closure captures the camera's placement and the face position. Its target is the quaternion of the element's total rotation. |
| Camera.ApplyFaceLerp | src/css3d.camera.js:316-333 | Calling the closure changes only its target quaternion. |
| Camera.FaceLerpEnds | src/css3d.camera.js:316-333 | At amount 1 the camera reaches the face position. In the blending branch its rotation is the face rotation when the face quaternion has a non-negative cosine with the camera's quaternion or its z is 0, and the rotation of the written flip otherwise. At amount 0 it gets back its captured translation. |
| Camera.FaceLerpRetargets | src/css3d.camera.js:316-333 | Each call keeps the target as the written slerp leaves it: unchanged for a non-negative cosine, otherwise flipped with z kept, and the rest of the closure unchanged. |
| Camera.Update | src/css3d.camera.js:417-433 | A clean camera is unchanged. A dirty one writes the eye into its rotation's translation slots, takes the rigid inverse of that as the view matrix and becomes clean. |
| Camera.UpdateInverts | src/css3d.camera.js:417-433 | For a rigid rotation, view times placement is the identity, and the view's block is the transposed rotation. |
| Camera.EyePosition | src/css3d.camera.js:422-426 | With an orthonormal rotation, the eye is the translation moved by -perspective along the back column. |
| Camera.EyeDistance | src/css3d.camera.js:422-426 | The eye is exactly `perspective` away from the translation. |
| Collision.CollisionPoint | src/css3d.collision.js:41-45 | The collision point is the position moved by distance along the normal. |
| Collision.Hits | src/css3d.collision.js:55-72 | A node is reported exactly when it is listed and hit, in list order. Reported nodes have a DOM element, and a non-positive distance reports nothing. |
| Collision.HitsMultiplicity | src/css3d.collision.js:55-72 | Each hit node is reported as often as the list holds it, and every other node not at all. |
| Collision.GetCollisions | src/css3d.collision.js:39-78 | `getCollisions` reports exactly the listed nodes hit by the moved point, as a subsequence of the list, each as often as the list holds it. Nodes without a DOM element and non-positive distances report nothing. |
| Collision.SubsequenceBounds | src/css3d.collision.js:39-78 | The result is no longer than the list and holds only listed nodes. |
| Scene.New | src/css3d.scene.js:24-32 | A new scene has no nodes, a default camera, the normalized light (0,0,-1), shading 0.7 and depth cueing on. |
| Scene.NewLight | src/css3d.scene.js:24-32 | With an exact square root, the light is exactly (0,0,-1). |
| Scene.AddElement | src/css3d.scene.js:52-56 | Appends the node and changes nothing else. A valid scene stays valid. |
| Scene.AddElementKeepsOrder | src/css3d.scene.js:52-56 | Earlier nodes keep their places and the new node is last. |
| Scene.FirstWithId | src/css3d.scene.js:65-73 | The index is of the first node from i on with the id, or the end when there is none. |
| Scene.GetElementById | src/css3d.scene.js:65-73 | Returns null exactly when no listed node has the id, and otherwise the first such node. |
| Scene.UpdateAll | src/css3d.scene.js:114-127 | After the loop every listed node is clean, nothing was dirtied, a node that was clean is unchanged, only update-owned fields changed, and an all-clean list changes nothing. |
| Scene.UpdateKeepsUpdatable | src/css3d.scene.js:114-127 | Updating one node keeps the later nodes updatable. |
| Scene.UpdateAllReached | src/css3d.scene.js:114-127 | Each listed node ends as `Element.Update` rebuilt it in the arena the loop had reached at that node. A one-node list is exactly that node's update, and the arena reached at the end is the result. |
| Scene.Update | src/css3d.scene.js:114-127 | Every listed node and the camera are clean afterwards, only the arena and the camera change, the camera is `Camera.Update` of the old one, and each listed node holds what `Element.Update` rebuilt in the arena reached at it. |
| Scene.UpdateClean | src/css3d.scene.js:114-127 | A clean scene is unchanged, so a second update changes nothing. |

## Left out

- DOM and rendering are not part of this model:
  - `element.init`, `_createShaderElement`, `setMatrix` and the shader element;
  - the `shading`, `worldView`, `autoCenter` and `zIndex` fields.
  
  The DOM element's `id`, `offsetWidth` and `offsetHeight` are inputs, in `Element.Handle`.
- Getters that only return a field are not modelled, because the model reads the field directly. These are `getScale`, `getRotation`, `getTranslation`, `getPivot`, `getChildren`, `getWorldMatrix`, the camera and scene getters, and the like.
- Other operations not modelled:
  - `vector3.set`, `clone` and `toString`, and `matrix4.toString`;
  - `matrix4.frustum`, `projection`, `lookAt` and `toAxisAngle`;
  - `camera.lookAtElement` (it rests on `lookAt`) and `camera._calcFov`;
  - `quaternion.multiplyVector`, `fromAxisAngle`, `fromXYZ`, the quaternion basis readers and `toAxisAngle`;
  - the ajax module, `randomNumber`, and the other easing curves (`sinerp`, `bounce`, `berp`).
- Floating point is modelled as exact reals: rounding, NaN and infinities are not modelled. `Math.sqrt`, `Math.sin`, `Math.cos` and `Math.acos` are uninterpreted and passed as `Scalar.MathLib`, and no angle is ever evaluated.
- Element.Recip: gives 0 where `1 / 0` in the source gives an infinity. The contract states the reciprocal only for a non-zero scale.
- Element.Update: requires that a dirty node's parent chain reaches a root within the bound `n`. On a cyclic chain the source recurses forever.
- Aliasing is not modelled. The source shares mutable objects; the model returns fresh values, which changes a few behaviours:
  - `camera.update` writes the eye into the camera's `_rotation` itself; `Camera.Update` returns that modified rotation as the camera's new rotation.
  - `getFaceElementMatrix` writes into the matrix that `getTotalRotation` returns, which for a root element is the element's own `_rotation`. The model leaves the element unchanged.
  - The closure of `getFaceElementLerpFunction` captures the camera's `_rotation` by reference, so later writes to the translation slots reach it. `fromMatrix4` reads only the 3x3 block (`Quaternion.FromMatrix4SameBlock`), so this makes no difference to the rotation it interpolates.
- Element.LerpRotationEnds: the amount-1 end is proved only in the blending branch. In the averaging branch the result is the average, as `Quaternion.DegenerateBranches` states.
- Element.SetRotationXYZ: the `x || 0` coercions of the source are the identity on reals, so they are not modelled.
- Camera.New: the `perspective || 800` coercion is modelled as a missing-or-zero perspective, and the `null != x` defaults of x, y and z as missing arguments, both with `Optional.Option`. Other falsy values of JavaScript are not modelled.
- Camera.SetRotationXYZ: the `x || 0` coercions of the source are the identity on reals, so they are not modelled.

## Findings

| source | as written | input that shows it | evidently intended | confidence | as-written member | corrected member |
|---|---|---|---|---|---|---|
| src/css3d.vector4.js:92-96 | `dot` adds `this.w + b.w` as its last term | a = b = (0, 0, 0, 1): `dot` gives 2, but the squared length is 1 | the product `this.w * b.w` | high, not executed | Vector4.DotAsWrittenDiffers | Vector4.DotProductLaws |
| release/css3d.js:3556 | the short-arc flip of `slerp` assigns `qb.z = qb.z`, so z is not negated | qa = (0, 0, 0, 1), qb = (0, 0, 0.6, -0.8): qb becomes (0, 0, 0.6, 0.8), another rotation, so `slerp` heads for the wrong orientation | `qb.z = -qb.z`, negating all four components | high, not executed | Quaternion.SlerpFlipAsWrittenDiffers | Quaternion.SlerpShortArcTarget |
