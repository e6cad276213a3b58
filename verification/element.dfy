/**
 css3d.element: a node of the scene graph. Nodes live in an arena, a map
 from node id to node record; the parent link and the list of children
 hold ids, so the hierarchy is a plain value and every operation returns
 the new arena. A node keeps its local pivot, scale, rotation and
 translation, flags that let `update` skip identity factors, and a dirty
 flag that `update` clears when it rebuilds the world matrix.
 */
module Element {
  import opened Optional
  import opened Scalar
  import opened Vector3
  import opened Matrix4
  import Vector4
  import Quaternion

  /** The id of a node in the arena. */
  type Ref = nat

  /** The DOM element a node renders to: its `id` and its `offsetWidth` / `offsetHeight`. */
  datatype Handle = Handle(id: string, width: real, height: real)

  /**
   The state of one `css3d.element`. `backfaceCullingOld` starts as `null`;
   the shader element and the rendering-only fields (`shading`, `worldView`,
   `autoCenter`, `zIndex`) are not part of this model.
   */
  datatype Node = Node(
    dom: Option<Handle>,
    pivot: Vec3,
    world: Mat4,
    scale: Vec3,
    rotation: Mat4,
    translation: Vec3,
    parent: Option<Ref>,
    children: seq<Ref>,
    backfaceCulling: bool,
    backfaceCullingOld: Option<bool>,
    backfaceCullingDirty: bool,
    isDirty: bool,
    isScaled: bool,
    isRotated: bool,
    isTranslated: bool,
    isPivotChanged: bool,
    normal: Vec3,
    normalWorld: Vec3,
    inheritScaling: bool)

  type Arena = map<Ref, Node>

  /** `new css3d.element(domElement)`. */
  function New(dom: Option<Handle>): Node
  {
    Node(dom, Zero, Identity, Vec3(1.0, 1.0, 1.0), Identity, Zero,
         None, [], false, None, false,
         true, false, false, false, false,
         Vec3(0.0, 0.0, 1.0), Vec3(0.0, 0.0, 1.0), false)
  }

  // ---------------------------------------------------------------------------
  // Hierarchy

  /** `addChild(child)` on node p: appends the child and points it at p, with no duplicate or cycle check. */
  function AddChild(a: Arena, p: Ref, c: Ref): (res: Arena)
    requires p in a && c in a
    ensures res.Keys == a.Keys
    ensures res[p].children == a[p].children + [c]
    ensures res[c].parent == Some(p)
    ensures p != c ==> res[c] == a[c].(parent := Some(p))
    ensures p != c ==> res[p] == a[p].(children := a[p].children + [c])
    ensures forall q :: q in a && q != p && q != c ==> res[q] == a[q]
  {
    var a1 := a[p := a[p].(children := a[p].children + [c])];
    a1[c := a1[c].(parent := Some(p))]
  }

  /** `setParent(p)` on node c: sets the parent and then calls `p.addChild(c)`. */
  function SetParent(a: Arena, c: Ref, p: Ref): (res: Arena)
    requires p in a && c in a
    ensures res.Keys == a.Keys
    ensures res[p].children == a[p].children + [c]
    ensures res[c].parent == Some(p)
    ensures p != c ==> res[c] == a[c].(parent := Some(p))
    ensures forall q :: q in a && q != p && q != c ==> res[q] == a[q]
  {
    AddChild(a[c := a[c].(parent := Some(p))], p, c)
  }

  /** `setParent` does not detach the node from an earlier parent: that parent still lists it. */
  lemma SetParentKeepsOldParent(a: Arena, c: Ref, p: Ref, old_p: Ref)
    requires p in a && c in a && old_p in a
    requires old_p != p && old_p != c
    ensures SetParent(a, c, p)[old_p] == a[old_p]
    ensures c in a[old_p].children ==> c in SetParent(a, c, p)[old_p].children
    ensures multiset(SetParent(a, c, p)[p].children)[c] == multiset(a[p].children)[c] + 1
  {
    assert SetParent(a, c, p)[p].children == a[p].children + [c];
  }

  // ---------------------------------------------------------------------------
  // Dirty flags

  /** Marks every listed node that is in the arena as dirty, one after the other. */
  function MarkDirty(a: Arena, cs: seq<Ref>): Arena
    decreases |cs|
  {
    if |cs| == 0 then a
    else MarkDirty(MarkOne(a, cs[0]), cs[1..])
  }

  function MarkOne(a: Arena, c: Ref): (res: Arena)
    ensures res.Keys == a.Keys
    ensures forall q :: q in a ==> res[q] == if q == c then a[q].(isDirty := true) else a[q]
  {
    if c in a then a[c := a[c].(isDirty := true)] else a
  }

  /** Marking a list dirty marks exactly the listed nodes and nothing else. */
  lemma {:induction false} MarkDirtyEffect(a: Arena, cs: seq<Ref>)
    ensures MarkDirty(a, cs).Keys == a.Keys
    ensures forall q :: q in a ==> MarkDirty(a, cs)[q] == if q in cs then a[q].(isDirty := true) else a[q]
    decreases |cs|
  {
    if |cs| > 0 {
      var a1 := MarkOne(a, cs[0]);
      MarkDirtyEffect(a1, cs[1..]);
      forall q | q in a
        ensures MarkDirty(a, cs)[q] == if q in cs then a[q].(isDirty := true) else a[q]
      {
        assert q in cs <==> q == cs[0] || q in cs[1..];
      }
    }
  }

  /** `setChildrenDirty()`: the direct children of r become dirty; grandchildren are not visited. */
  function SetChildrenDirty(a: Arena, r: Ref): (res: Arena)
    requires r in a
    ensures res.Keys == a.Keys
    ensures forall q :: q in a ==> res[q] == if q in a[r].children then a[q].(isDirty := true) else a[q]
  {
    MarkDirtyEffect(a, a[r].children);
    MarkDirty(a, a[r].children)
  }

  /**
   The effect every transform setter has on the dirty flags: the node r is
   dirty, each of its direct children is its old self marked dirty, and
   every other node is untouched.
   */
  predicate Dirtied(a: Arena, res: Arena, r: Ref)
    requires r in a
  {
    && res.Keys == a.Keys
    && res[r].isDirty
    && forall q :: q in a && q != r ==>
         res[q] == if q in a[r].children then a[q].(isDirty := true) else a[q]
  }

  /** Stores the new state n of node r, marks it dirty and then marks its direct children dirty. */
  function Touch(a: Arena, r: Ref, n: Node): (res: Arena)
    requires r in a && n.children == a[r].children
    ensures Dirtied(a, res, r)
    ensures res[r] == n.(isDirty := true)
  {
    SetChildrenDirty(a[r := n.(isDirty := true)], r)
  }

  /** Marking the children dirty reaches the children only: a grandchild that is not also a child keeps its flag. */
  lemma DirtyStopsAtChildren(a: Arena, res: Arena, r: Ref, c: Ref, g: Ref)
    requires r in a && Dirtied(a, res, r)
    requires c in a[r].children && c in a && g in a[c].children && g in a
    requires g != r && g !in a[r].children
    ensures res[g] == a[g]
    ensures res[g].isDirty == a[g].isDirty
  {
  }

  // ---------------------------------------------------------------------------
  // Setters

  /** `setScale(x, y, z)`: dirty, with `_isScaled` false exactly for (1, 1, 1). */
  function SetScale(a: Arena, r: Ref, x: real, y: real, z: real): (res: Arena)
    requires r in a
    ensures Dirtied(a, res, r)
    ensures res[r].scale == Vec3(x, y, z)
    ensures !res[r].isScaled <==> res[r].scale == Vec3(1.0, 1.0, 1.0)
    ensures res[r] == a[r].(scale := res[r].scale, isScaled := res[r].isScaled, isDirty := true)
    ensures FlagsConsistent(a[r]) ==> FlagsConsistent(res[r])
  {
    Touch(a, r, a[r].(scale := Vec3(x, y, z), isScaled := !(x == 1.0 && y == 1.0 && z == 1.0)))
  }

  /** `setTranslation(x, y, z)`: dirty, with `_isTranslated` false exactly for the origin. */
  function SetTranslation(a: Arena, r: Ref, x: real, y: real, z: real): (res: Arena)
    requires r in a
    ensures Dirtied(a, res, r)
    ensures res[r].translation == Vec3(x, y, z)
    ensures !res[r].isTranslated <==> res[r].translation == Zero
    ensures res[r] == a[r].(translation := res[r].translation, isTranslated := res[r].isTranslated, isDirty := true)
    ensures FlagsConsistent(a[r]) ==> FlagsConsistent(res[r])
  {
    Touch(a, r, a[r].(translation := Vec3(x, y, z), isTranslated := !(x == 0.0 && y == 0.0 && z == 0.0)))
  }

  /**
   `setRotation(axis, angle)`: the axis rotation by the angle, or the
   identity with `_isRotated` false when the angle is exactly 0.
   */
  function SetRotation(a: Arena, r: Ref, axis: Vec3, angle: real, lib: MathLib): (res: Arena)
    requires r in a
    ensures Dirtied(a, res, r)
    ensures res[r].isRotated <==> angle != 0.0
    ensures angle == 0.0 ==> res[r].rotation == Identity
    ensures angle != 0.0 ==> res[r].rotation == RotationAxis(axis, lib.cos(angle), lib.sin(angle))
    ensures res[r] == a[r].(rotation := res[r].rotation, isRotated := res[r].isRotated, isDirty := true)
    ensures FlagsConsistent(a[r]) ==> FlagsConsistent(res[r])
  {
    var rotated := angle != 0.0;
    var m := if rotated then RotationAxis(axis, lib.cos(angle), lib.sin(angle)) else Identity;
    Touch(a, r, a[r].(rotation := m, isRotated := rotated))
  }

  /** The Euler rotation of `setRotationXYZ`: rotationZ(z) * rotationY(y) * rotationX(x). */
  function EulerRotation(x: real, y: real, z: real, lib: MathLib): Mat4
  {
    Multiply(Multiply(RotationZ(lib.cos(z), lib.sin(z)), RotationY(lib.cos(y), lib.sin(y))),
             RotationX(lib.cos(x), lib.sin(x)))
  }

  /**
   `setRotationXYZ(x, y, z)`: the Euler rotation Z * Y * X, or the identity
   with `_isRotated` false when all three angles are 0. The source's
   `x || 0` coercions are the identity on reals.
   */
  function SetRotationXYZ(a: Arena, r: Ref, x: real, y: real, z: real, lib: MathLib): (res: Arena)
    requires r in a
    ensures Dirtied(a, res, r)
    ensures !res[r].isRotated <==> x == 0.0 && y == 0.0 && z == 0.0
    ensures !res[r].isRotated ==> res[r].rotation == Identity
    ensures res[r].isRotated ==> res[r].rotation == EulerRotation(x, y, z, lib)
    ensures res[r] == a[r].(rotation := res[r].rotation, isRotated := res[r].isRotated, isDirty := true)
    ensures FlagsConsistent(a[r]) ==> FlagsConsistent(res[r])
  {
    var rotated := !(x == 0.0 && y == 0.0 && z == 0.0);
    var m := if rotated then EulerRotation(x, y, z, lib) else Identity;
    Touch(a, r, a[r].(rotation := m, isRotated := rotated))
  }

  /** `setRotationMatrix(m)`: stores m and always sets `_isRotated`. */
  function SetRotationMatrix(a: Arena, r: Ref, m: Mat4): (res: Arena)
    requires r in a
    ensures Dirtied(a, res, r)
    ensures res[r].isRotated && res[r].rotation == m
    ensures res[r] == a[r].(rotation := m, isRotated := true, isDirty := true)
    ensures FlagsConsistent(a[r]) ==> FlagsConsistent(res[r])
  {
    Touch(a, r, a[r].(rotation := m, isRotated := true))
  }

  /**
   `setPivot(x, y, z)`: only the pivot and `_isPivotChanged` (true exactly
   off the origin) change; no dirty flag is touched, here or on the children.
   */
  function SetPivot(a: Arena, r: Ref, x: real, y: real, z: real): (res: Arena)
    requires r in a
    ensures res.Keys == a.Keys
    ensures res[r].pivot == Vec3(x, y, z)
    ensures res[r].isPivotChanged <==> !IsZero(res[r].pivot)
    ensures res[r] == a[r].(pivot := res[r].pivot, isPivotChanged := res[r].isPivotChanged)
    ensures forall q :: q in a && q != r ==> res[q] == a[q]
    ensures FlagsConsistent(a[r]) ==> FlagsConsistent(res[r])
  {
    var p := Vec3(x, y, z);
    a[r := a[r].(pivot := p, isPivotChanged := !IsZero(p))]
  }

  /**
   `setBackfaceCulling(value)`: stores the value, and raises
   `backfaceCullingDirty` when it differs from the last value stored.
   */
  function SetBackfaceCulling(a: Arena, r: Ref, value: bool): (res: Arena)
    requires r in a
    ensures res.Keys == a.Keys
    ensures res[r].backfaceCulling == value && res[r].backfaceCullingOld == Some(value)
    ensures a[r].backfaceCullingOld != Some(value) ==> res[r].backfaceCullingDirty
    ensures a[r].backfaceCullingOld == Some(value) ==> res[r].backfaceCullingDirty == a[r].backfaceCullingDirty
    ensures res[r] == a[r].(backfaceCulling := value, backfaceCullingOld := Some(value),
                            backfaceCullingDirty := res[r].backfaceCullingDirty)
    ensures forall q :: q in a && q != r ==> res[q] == a[q]
    ensures FlagsConsistent(a[r]) ==> FlagsConsistent(res[r])
  {
    var n := a[r].(backfaceCulling := value);
    if Some(value) != n.backfaceCullingOld then
      a[r := n.(backfaceCullingDirty := true, backfaceCullingOld := Some(value))]
    else
      a[r := n]
  }

  /** Setting the same back-face culling value twice is the same as setting it once. */
  lemma SetBackfaceCullingIdempotent(a: Arena, r: Ref, value: bool)
    requires r in a
    ensures SetBackfaceCulling(SetBackfaceCulling(a, r, value), r, value) == SetBackfaceCulling(a, r, value)
  {
  }

  // ---------------------------------------------------------------------------
  // The parent chain

  /**
   The parent chain of r reaches a root within n steps, every node on it
   in the arena. `getTotalRotation` recurses along the chain, so it only
   returns when the chain is finite; the bound n stands for that.
   */
  predicate Rooted(a: Arena, r: Ref, n: nat)
    decreases n
  {
    r in a &&
    match a[r].parent
    case None => true
    case Some(p) => n > 0 && Rooted(a, p, n - 1)
  }

  /** r and the ancestors found within n steps up its parent chain. */
  function Ancestry(a: Arena, r: Ref, n: nat): set<Ref>
    decreases n
  {
    if r !in a then {}
    else
      {r} + match a[r].parent
            case Some(p) => if n > 0 then Ancestry(a, p, n - 1) else {}
            case None => {}
  }

  /** The number of steps from r up to its root. */
  function Depth(a: Arena, r: Ref, n: nat): (d: nat)
    requires Rooted(a, r, n)
    ensures d <= n
    decreases n
  {
    match a[r].parent
    case None => 0
    case Some(p) => 1 + Depth(a, p, n - 1)
  }

  /** More fuel keeps a chain rooted and does not change its depth. */
  lemma {:induction false} DepthFuel(a: Arena, r: Ref, n: nat, m: nat)
    requires Rooted(a, r, n) && n <= m
    ensures Rooted(a, r, m)
    ensures Depth(a, r, m) == Depth(a, r, n)
    decreases n
  {
    match a[r].parent
    case None =>
    case Some(p) => DepthFuel(a, p, n - 1, m - 1);
  }

  /** Every ancestor of a rooted node is rooted, and no deeper than the node. */
  lemma {:induction false} AncestorDepth(a: Arena, r: Ref, n: nat, q: Ref)
    requires Rooted(a, r, n) && q in Ancestry(a, r, n)
    ensures Rooted(a, q, n)
    ensures Depth(a, q, n) <= Depth(a, r, n)
    decreases n
  {
    if q != r {
      var p := a[r].parent.value;
      AncestorDepth(a, p, n - 1, q);
      DepthFuel(a, q, n - 1, n);
      DepthFuel(a, p, n - 1, n);
    }
  }

  /** A rooted node is not among its parent's ancestors: the chain has no cycle. */
  lemma RootedAcyclic(a: Arena, r: Ref, n: nat)
    requires Rooted(a, r, n) && a[r].parent.Some?
    ensures r !in Ancestry(a, a[r].parent.value, n - 1)
  {
    var p := a[r].parent.value;
    if r in Ancestry(a, p, n - 1) {
      AncestorDepth(a, p, n - 1, r);
      DepthFuel(a, r, n - 1, n);
      assert false;
    }
  }

  /** Two arenas with the same keys and the same parent links have the same rooted chains. */
  lemma {:induction false} RootedSame(a: Arena, b: Arena, r: Ref, n: nat)
    requires a.Keys == b.Keys
    requires forall q :: q in a ==> b[q].parent == a[q].parent
    ensures Rooted(b, r, n) <==> Rooted(a, r, n)
    ensures Ancestry(b, r, n) == Ancestry(a, r, n)
    decreases n
  {
    if r in a && a[r].parent.Some? && n > 0 {
      RootedSame(a, b, a[r].parent.value, n - 1);
    }
  }

  // ---------------------------------------------------------------------------
  // World matrix

  /**
   The local matrix `update` builds: T(t), then S(s) when scaled, then, when
   rotated, R conjugated by the pivot translation when the pivot is set.
   */
  function LocalMatrix(e: Node): Mat4
  {
    var t := Translation(e.translation.x, e.translation.y, e.translation.z);
    var ts := if e.isScaled then Multiply(t, Scale(e.scale.x, e.scale.y, e.scale.z)) else t;
    if !e.isRotated then ts
    else
      var p := e.pivot;
      var tp := if e.isPivotChanged then Multiply(ts, Translation(p.x, p.y, p.z)) else ts;
      var tpr := Multiply(tp, e.rotation);
      if e.isPivotChanged then Multiply(tpr, Translation(-p.x, -p.y, -p.z)) else tpr
  }

  /** The local matrix with every factor present: T(t) * S(s) * T(p) * R * T(-p). */
  function FullLocal(e: Node): Mat4
  {
    var p := e.pivot;
    Multiply(Multiply(Multiply(Multiply(Translation(e.translation.x, e.translation.y, e.translation.z),
                                        Scale(e.scale.x, e.scale.y, e.scale.z)),
                               Translation(p.x, p.y, p.z)),
                      e.rotation),
             Translation(-p.x, -p.y, -p.z))
  }

  /** The flags agree with the values they describe, as every setter leaves them. */
  predicate FlagsConsistent(e: Node)
  {
    && (e.isScaled <==> e.scale != Vec3(1.0, 1.0, 1.0))
    && (e.isPivotChanged <==> !IsZero(e.pivot))
    && (!e.isRotated ==> e.rotation == Identity)
  }

  /** `1 / x`; the model gives 0 where the source's division by zero gives an infinity. */
  function Recip(x: real): (r: real)
    ensures x != 0.0 ==> r * x == 1.0
  {
    if x == 0.0 then 0.0 else 1.0 / x
  }

  /** The factor that cancels the parent's scale, unless the node inherits it or the parent is not scaled. */
  function ParentUnscale(e: Node, parent: Node): Mat4
  {
    if !e.inheritScaling && parent.isScaled then
      Scale(Recip(parent.scale.x), Recip(parent.scale.y), Recip(parent.scale.z))
    else
      Identity
  }

  /** `getTotalRotation()`: the product of the local rotations from the root down to r. */
  function TotalRotation(a: Arena, r: Ref, n: nat): Mat4
    requires Rooted(a, r, n)
    decreases n
  {
    match a[r].parent
    case None => a[r].rotation
    case Some(p) => Multiply(TotalRotation(a, p, n - 1), a[r].rotation)
  }

  /** The fields `update` writes: the world matrix, the transformed normal and the dirty flag. */
  predicate SameSetup(e: Node, f: Node)
  {
    f == e.(world := f.world, normalWorld := f.normalWorld, isDirty := f.isDirty)
  }

  /** The node after `update` has rebuilt it: its world matrix, its normal turned by the total rotation, and clean. */
  function Rebuilt(e: Node, world: Mat4, totalRotation: Mat4, lib: MathLib): (f: Node)
    ensures SameSetup(e, f) && !f.isDirty
  {
    var n := Vector4.ToVector3(Vector4.TransformVector3(e.normal, totalRotation));
    e.(world := world, normalWorld := Normalize(n, lib), isDirty := false)
  }

  /**
   `update()`: a clean node is left alone. A dirty node gets the local
   matrix; with a parent, the parent's scale is cancelled first (unless
   inherited), the parent is updated, and the parent's world matrix is put
   in front. Then the normal is turned by the total rotation and the flag
   is cleared. The parent's `_isScaled` is read before its update, which
   never changes it, and so is the total rotation, which update never
   changes either.
   */
  function Update(a: Arena, r: Ref, n: nat, lib: MathLib): (res: Arena)
    requires r in a && (a[r].isDirty ==> Rooted(a, r, n))
    ensures res.Keys == a.Keys
    ensures !res[r].isDirty
    ensures !a[r].isDirty ==> res == a
    ensures forall q :: q in a ==> SameSetup(a[q], res[q])
    ensures forall q :: q in a && res[q].isDirty ==> a[q].isDirty
    ensures forall q :: q in a && q !in Ancestry(a, r, n) ==> res[q] == a[q]
    ensures forall q :: q in a && !a[q].isDirty ==> res[q] == a[q]
    ensures a[r].isDirty && a[r].parent.Some? ==> a[r].parent.value in res && !res[a[r].parent.value].isDirty
    decreases n
  {
    var e := a[r];
    if !e.isDirty then a
    else
      match e.parent
      case None => a[r := Rebuilt(e, LocalMatrix(e), TotalRotation(a, r, n), lib)]
      case Some(p) =>
        assert Rooted(a, p, n - 1);
        var local := Multiply(ParentUnscale(e, a[p]), LocalMatrix(e));
        var a1 := Update(a, p, n - 1, lib);
        RootedAcyclic(a, r, n);
        a1[r := Rebuilt(e, Multiply(a1[p].world, local), TotalRotation(a, r, n), lib)]
  }

  /** On a node whose flags agree with its values, the flags only skip identity factors. */
  lemma FlagsSkipIdentity(e: Node)
    requires FlagsConsistent(e)
    ensures LocalMatrix(e) == FullLocal(e)
  {
    var p := e.pivot;
    var t := Translation(e.translation.x, e.translation.y, e.translation.z);
    var ts := Multiply(t, Scale(e.scale.x, e.scale.y, e.scale.z));
    var tp := Multiply(ts, Translation(p.x, p.y, p.z));
    if !e.isScaled {
      IdentityUnit(t);
    }
    if !e.isPivotChanged {
      assert Translation(p.x, p.y, p.z) == Identity == Translation(-p.x, -p.y, -p.z);
      IdentityUnit(ts);
      IdentityUnit(Multiply(ts, e.rotation));
    }
    if !e.isRotated {
      IdentityUnit(tp);
      MultiplyAssociative(ts, Translation(p.x, p.y, p.z), Translation(-p.x, -p.y, -p.z));
      TranslationInverse(p);
      IdentityUnit(ts);
    }
  }

  /** A new node has consistent flags, and its local matrix is the identity. */
  lemma NewNode(dom: Option<Handle>)
    ensures FlagsConsistent(New(dom))
    ensures LocalMatrix(New(dom)) == Identity
    ensures New(dom).isDirty && New(dom).parent == None && New(dom).children == []
  {
  }

  /** What `update` gives a dirty root: its local matrix, and the normal turned by its rotation. */
  lemma UpdateRoot(a: Arena, r: Ref, n: nat, lib: MathLib)
    requires Rooted(a, r, n) && a[r].isDirty && a[r].parent.None?
    ensures Update(a, r, n, lib)[r].world == LocalMatrix(a[r])
    ensures Update(a, r, n, lib)[r].normalWorld
         == Normalize(Vector4.ToVector3(Vector4.TransformVector3(a[r].normal, a[r].rotation)), lib)
  {
  }

  /**
   What `update` gives a dirty node with a parent: the parent's world matrix
   after the parent's own update, times the scale correction, times the
   local matrix; the normal is turned by the total rotation.
   */
  lemma UpdateChild(a: Arena, r: Ref, n: nat, lib: MathLib)
    requires Rooted(a, r, n) && a[r].isDirty && a[r].parent.Some?
    ensures a[r].parent.value in a
    ensures var res, e := Update(a, r, n, lib), a[r];
            var p := e.parent.value;
            res[r].world == Multiply(res[p].world, Multiply(ParentUnscale(e, a[p]), LocalMatrix(e)))
    ensures Update(a, r, n, lib)[r].normalWorld
         == Normalize(Vector4.ToVector3(Vector4.TransformVector3(a[r].normal, TotalRotation(a, r, n))), lib)
    ensures Update(a, r, n, lib)[a[r].parent.value] == Update(a, a[r].parent.value, n - 1, lib)[a[r].parent.value]
  {
    var e := a[r];
    var p := e.parent.value;
    assert Rooted(a, p, n - 1);
    RootedAcyclic(a, r, n);
    var a1 := Update(a, p, n - 1, lib);
    var local := Multiply(ParentUnscale(e, a[p]), LocalMatrix(e));
    assert Update(a, r, n, lib) == a1[r := Rebuilt(e, Multiply(a1[p].world, local), TotalRotation(a, r, n), lib)];
    assert p in Ancestry(a, p, n - 1);
  }

  /** The fuel is only a bound: any two bounds that root the chain give the same total rotation. */
  lemma {:induction false} TotalRotationFuel(a: Arena, r: Ref, n: nat, m: nat)
    requires Rooted(a, r, n) && Rooted(a, r, m)
    ensures TotalRotation(a, r, n) == TotalRotation(a, r, m)
    decreases n
  {
    match a[r].parent
    case None =>
    case Some(p) => TotalRotationFuel(a, p, n - 1, m - 1);
  }

  /** Every node on the chain from r to its root has a rigid rotation. */
  predicate ChainRigid(a: Arena, r: Ref, n: nat)
    decreases n
  {
    r in a && Rigid(a[r].rotation) &&
    match a[r].parent
    case None => true
    case Some(p) => n > 0 && ChainRigid(a, p, n - 1)
  }

  /** When every rotation on the chain is rigid, so is the total rotation. */
  lemma {:induction false} TotalRotationRigid(a: Arena, r: Ref, n: nat)
    requires Rooted(a, r, n) && ChainRigid(a, r, n)
    ensures Rigid(TotalRotation(a, r, n))
    decreases n
  {
    match a[r].parent
    case None =>
    case Some(p) =>
      TotalRotationRigid(a, p, n - 1);
      RigidProduct(TotalRotation(a, p, n - 1), a[r].rotation);
  }

  /** A dirty root that is neither scaled nor rotated gets the translation matrix of its translation. */
  lemma RootWorldIsTranslation(a: Arena, r: Ref, n: nat, lib: MathLib)
    requires Rooted(a, r, n) && a[r].isDirty && a[r].parent.None?
    requires !a[r].isScaled && !a[r].isRotated
    ensures var t := a[r].translation; Update(a, r, n, lib)[r].world == Translation(t.x, t.y, t.z)
  {
    UpdateRoot(a, r, n, lib);
  }

  /** The fuel is only a bound: any two bounds that root the chain give the same update. */
  lemma {:induction false} UpdateFuel(a: Arena, r: Ref, n: nat, m: nat, lib: MathLib)
    requires r in a && (a[r].isDirty ==> Rooted(a, r, n) && Rooted(a, r, m))
    ensures Update(a, r, n, lib) == Update(a, r, m, lib)
    decreases n
  {
    if a[r].isDirty {
      TotalRotationFuel(a, r, n, m);
      match a[r].parent
      case None =>
      case Some(p) => UpdateFuel(a, p, n - 1, m - 1, lib);
    }
  }

  /** Every node on the chain from r to its root is dirty. */
  predicate AllDirty(a: Arena, r: Ref, n: nat)
    decreases n
  {
    r in a && a[r].isDirty &&
    match a[r].parent
    case None => true
    case Some(p) => n > 0 && AllDirty(a, p, n - 1)
  }

  /**
   The world matrix as the product down the chain: each node contributes
   its scale correction and its local matrix, the root only its local one.
   */
  function ComposedWorld(a: Arena, r: Ref, n: nat): Mat4
    requires Rooted(a, r, n)
    decreases n
  {
    match a[r].parent
    case None => LocalMatrix(a[r])
    case Some(p) => Multiply(ComposedWorld(a, p, n - 1), Multiply(ParentUnscale(a[r], a[p]), LocalMatrix(a[r])))
  }

  /** When the whole chain is dirty, `update` leaves r with the composed world matrix. */
  lemma {:induction false} UpdateAllDirty(a: Arena, r: Ref, n: nat, lib: MathLib)
    requires AllDirty(a, r, n)
    ensures Rooted(a, r, n)
    ensures Update(a, r, n, lib)[r].world == ComposedWorld(a, r, n)
    decreases n
  {
    match a[r].parent
    case None =>
      UpdateRoot(a, r, n, lib);
    case Some(p) =>
      UpdateAllDirty(a, p, n - 1, lib);
      UpdateChild(a, r, n, lib);
  }

  /** `getTotalTranslation()`: a fresh vector of the world matrix's translation slots. */
  function TotalTranslation(e: Node): Vec3
  {
    Vec3(e.world.m3, e.world.m7, e.world.m11)
  }

  /** `getPivotTransformed()`: the pivot mapped by the world matrix. */
  function PivotTransformed(e: Node): Vec3
  {
    Vector4.ToVector3(Vector4.TransformVector3(e.pivot, e.world))
  }

  /**
   A dirty root whose rotation has no translation part and whose pivot is
   unset (or unused) sits at its translation after `update`.
   */
  lemma RootPosition(a: Arena, r: Ref, n: nat, lib: MathLib)
    requires Rooted(a, r, n) && a[r].isDirty && a[r].parent.None?
    requires !a[r].isPivotChanged || !a[r].isRotated
    requires Linear(a[r].rotation) == a[r].rotation
    ensures TotalTranslation(Update(a, r, n, lib)[r]) == a[r].translation
  {
    UpdateRoot(a, r, n, lib);
  }

  /**
   Rotating about the pivot keeps the pivot in place: after `update` a
   dirty root maps its pivot p to t + s * p (s the scale when scaled, else
   1), whatever its rotation, as long as that rotation has no translation.
   */
  lemma PivotStays(a: Arena, r: Ref, n: nat, lib: MathLib)
    requires Rooted(a, r, n) && a[r].isDirty && a[r].parent.None?
    requires a[r].isRotated && a[r].isPivotChanged
    requires Linear(a[r].rotation) == a[r].rotation
    ensures var e := a[r];
            !e.isScaled ==> PivotTransformed(Update(a, r, n, lib)[r]) == Add(e.translation, e.pivot)
    ensures var e := a[r];
            e.isScaled ==> PivotTransformed(Update(a, r, n, lib)[r]) == Add(e.translation, Stretch(e.scale, e.pivot))
  {
    UpdateRoot(a, r, n, lib);
    LocalPivot(a[r]);
    var f := Update(a, r, n, lib)[r];
    assert PivotTransformed(f) == Vector4.ToVector3(Vector4.TransformVector3(a[r].pivot, LocalMatrix(a[r])));
  }

  /** The componentwise product of two vectors: p stretched by the scale factors s. */
  function Stretch(s: Vec3, p: Vec3): Vec3
  {
    Vec3(s.x * p.x, s.y * p.y, s.z * p.z)
  }

  /** Where the local matrix of a rotated node with a set pivot sends that pivot. */
  lemma LocalPivot(e: Node)
    requires e.isRotated && e.isPivotChanged
    requires Linear(e.rotation) == e.rotation
    ensures !e.isScaled ==> Vector4.ToVector3(Vector4.TransformVector3(e.pivot, LocalMatrix(e))) == Add(e.translation, e.pivot)
    ensures e.isScaled ==> Vector4.ToVector3(Vector4.TransformVector3(e.pivot, LocalMatrix(e)))
                           == Add(e.translation, Stretch(e.scale, e.pivot))
  {
    var t := e.translation;
    var sv := if e.isScaled then e.scale else Vec3(1.0, 1.0, 1.0);
    var T := Translation(t.x, t.y, t.z);
    var TS := Multiply(T, Scale(sv.x, sv.y, sv.z));
    if !e.isScaled {
      assert Scale(sv.x, sv.y, sv.z) == Identity;
      IdentityUnit(T);
    }
    var p := e.pivot;
    var m := Multiply(Multiply(Multiply(TS, Translation(p.x, p.y, p.z)), e.rotation), Translation(-p.x, -p.y, -p.z));
    assert LocalMatrix(e) == m;
    PivotConjugation(t, sv, p, e.rotation, e.(world := m));
    assert Vector4.ToVector3(Vector4.TransformVector3(e.pivot, LocalMatrix(e))) == Add(t, Stretch(sv, p));
    if !e.isScaled {
      assert Stretch(sv, p) == p;
    }
  }

  /**
   A node whose world matrix is T * S * T(p) * R * T(-p), for a translation T
   and a rotation R without translation, maps its pivot p where T * S does.
   */
  lemma PivotConjugation(t: Vec3, s: Vec3, p: Vec3, R: Mat4, f: Node)
    requires Linear(R) == R
    requires f.pivot == p
    requires f.world == Multiply(Multiply(Multiply(Multiply(Translation(t.x, t.y, t.z), Scale(s.x, s.y, s.z)),
                                                   Translation(p.x, p.y, p.z)), R),
                                 Translation(-p.x, -p.y, -p.z))
    ensures PivotTransformed(f) == Add(t, Stretch(s, p))
  {
    var T := Translation(t.x, t.y, t.z);
    var TS := Multiply(T, Scale(s.x, s.y, s.z));
    var P, Q := Translation(p.x, p.y, p.z), Translation(-p.x, -p.y, -p.z);
    var TSP := Multiply(TS, P);
    var TSPR := Multiply(TSP, R);
    var v := Vector4.Vec4(p.x, p.y, p.z, 1.0);
    var o := Vector4.Vec4(0.0, 0.0, 0.0, 1.0);
    Vector4.TransformVector3Laws(p, Multiply(TSPR, Q), Zero);
    Vector4.AffineProduct(T, Scale(s.x, s.y, s.z));
    Vector4.AffineProduct(TS, P);
    Vector4.AffineProduct(TSP, R);
    Vector4.TransformCompose(v, TSPR, Q);
    assert Vector4.Transform(v, Q) == o;
    Vector4.TransformCompose(o, TSP, R);
    assert Vector4.Transform(o, R) == o;
    Vector4.TransformCompose(o, TS, P);
    assert Vector4.Transform(o, P) == v;
    assert TS == Mat4(s.x, 0.0, 0.0, t.x, 0.0, s.y, 0.0, t.y, 0.0, 0.0, s.z, t.z, 0.0, 0.0, 0.0, 1.0);
    var st := Stretch(s, p);
    assert Vector4.Transform(v, TS) == Vector4.Vec4(t.x + st.x, t.y + st.y, t.z + st.z, 1.0);
  }

  /** Scaling by s and then by 1/s cancels, in front of any matrix. */
  lemma ScaleCancels(t: Mat4, s: Vec3, l: Mat4)
    requires s.x != 0.0 && s.y != 0.0 && s.z != 0.0
    ensures Multiply(Multiply(t, Scale(s.x, s.y, s.z)), Multiply(Scale(Recip(s.x), Recip(s.y), Recip(s.z)), l))
         == Multiply(t, l)
  {
    var S, R := Scale(s.x, s.y, s.z), Scale(Recip(s.x), Recip(s.y), Recip(s.z));
    MultiplyAssociative(t, S, Multiply(R, l));
    MultiplyAssociative(S, R, l);
    TranslationAndScaleCompose(s, Vec3(Recip(s.x), Recip(s.y), Recip(s.z)));
    assert Multiply(S, R) == Identity;
    IdentityUnit(l);
  }

  /**
   A child that does not inherit scaling is not scaled by its parent: under
   a dirty, unrotated, scaled root (no zero scale component) the child's
   world matrix is the parent's translation times the child's local matrix.
   With `inheritScaling` it is the parent's local matrix times the child's.
   */
  lemma ChildScaleInheritance(a: Arena, r: Ref, n: nat, lib: MathLib)
    requires AllDirty(a, r, n) && a[r].parent.Some?
    requires var p := a[r].parent.value;
             p in a && a[p].parent.None? && !a[p].isRotated && a[p].isScaled
    requires var s := a[a[r].parent.value].scale; s.x != 0.0 && s.y != 0.0 && s.z != 0.0
    ensures var p, res := a[r].parent.value, Update(a, r, n, lib);
            !a[r].inheritScaling ==>
              res[r].world == Multiply(Translation(a[p].translation.x, a[p].translation.y, a[p].translation.z), LocalMatrix(a[r]))
    ensures var p, res := a[r].parent.value, Update(a, r, n, lib);
            a[r].inheritScaling ==> res[r].world == Multiply(LocalMatrix(a[p]), LocalMatrix(a[r]))
  {
    var p := a[r].parent.value;
    UpdateAllDirty(a, r, n, lib);
    assert ComposedWorld(a, p, n - 1) == LocalMatrix(a[p]);
    var pt := a[p].translation;
    IdentityUnit(LocalMatrix(a[r]));
    if !a[r].inheritScaling {
      ScaleCancels(Translation(pt.x, pt.y, pt.z), a[p].scale, LocalMatrix(a[r]));
    }
  }

  // ---------------------------------------------------------------------------
  // Basis vectors and moves

  /** `backVector()`: the normalized back column of the world matrix. */
  function BackVector(e: Node, lib: MathLib): Vec3
  {
    Normalize(Back(e.world), lib)
  }

  /** `forwardVector()`: the normalized forward column of the world matrix. */
  function ForwardVector(e: Node, lib: MathLib): Vec3
  {
    Normalize(Forward(e.world), lib)
  }

  /** `rightVector()`: the normalized right column of the world matrix. */
  function RightVector(e: Node, lib: MathLib): Vec3
  {
    Normalize(Right(e.world), lib)
  }

  /** `upVector()`: the normalized up column of the world matrix. */
  function UpVector(e: Node, lib: MathLib): Vec3
  {
    Normalize(Up(e.world), lib)
  }

  /**
   The node's forward vector is the opposite of its back vector, and with a
   world matrix whose block is orthonormal each vector is its column.
   */
  lemma NodeBasis(e: Node, lib: MathLib)
    ensures ForwardVector(e, lib) == Times(BackVector(e, lib), -1.0)
    ensures ValidSqrt(lib) && Orthonormal(e.world) ==>
              && RightVector(e, lib) == Right(e.world)
              && UpVector(e, lib) == Up(e.world)
              && BackVector(e, lib) == Back(e.world)
  {
    NormalizedBasis(e.world, lib);
  }

  /**
   `forward(steps)`: the translation moves by steps along the forward
   vector read from the world matrix as it was at the last `update`.
   */
  function MoveForward(a: Arena, r: Ref, steps: real, lib: MathLib): (res: Arena)
    requires r in a
    ensures Dirtied(a, res, r)
    ensures res[r].translation == Add(a[r].translation, Times(ForwardVector(a[r], lib), steps))
    ensures res[r] == a[r].(translation := res[r].translation, isTranslated := res[r].isTranslated, isDirty := true)
  {
    var t, f := a[r].translation, ForwardVector(a[r], lib);
    var v := Add(t, Times(f, steps));
    SetTranslation(a, r, v.x, v.y, v.z)
  }

  /** `left(steps)`: the translation moves by steps against the right vector. */
  function MoveLeft(a: Arena, r: Ref, steps: real, lib: MathLib): (res: Arena)
    requires r in a
    ensures Dirtied(a, res, r)
    ensures res[r].translation == Add(a[r].translation, Times(RightVector(a[r], lib), -steps))
    ensures res[r] == a[r].(translation := res[r].translation, isTranslated := res[r].isTranslated, isDirty := true)
  {
    var t, v := a[r].translation, RightVector(a[r], lib);
    var w := Add(t, Times(v, -steps));
    SetTranslation(a, r, w.x, w.y, w.z)
  }

  /** `up(steps)`: the translation moves by steps along the up vector. */
  function MoveUp(a: Arena, r: Ref, steps: real, lib: MathLib): (res: Arena)
    requires r in a
    ensures Dirtied(a, res, r)
    ensures res[r].translation == Add(a[r].translation, Times(UpVector(a[r], lib), steps))
    ensures res[r] == a[r].(translation := res[r].translation, isTranslated := res[r].isTranslated, isDirty := true)
  {
    var t, v := a[r].translation, UpVector(a[r], lib);
    var w := Add(t, Times(v, steps));
    SetTranslation(a, r, w.x, w.y, w.z)
  }

  /**
   A move does not touch the world matrix, so the move back by the opposite
   number of steps uses the same direction and restores the translation.
   */
  lemma MoveForwardUndo(a: Arena, r: Ref, steps: real, lib: MathLib)
    requires r in a
    ensures MoveForward(MoveForward(a, r, steps, lib), r, -steps, lib)[r].translation == a[r].translation
  {
    var b := MoveForward(a, r, steps, lib);
    assert b[r].world == a[r].world;
    assert ForwardVector(b[r], lib) == ForwardVector(a[r], lib);
    StepsCancel(a[r].translation, ForwardVector(a[r], lib), steps);
  }

  lemma MoveLeftUndo(a: Arena, r: Ref, steps: real, lib: MathLib)
    requires r in a
    ensures MoveLeft(MoveLeft(a, r, steps, lib), r, -steps, lib)[r].translation == a[r].translation
  {
    var b := MoveLeft(a, r, steps, lib);
    var v := RightVector(a[r], lib);
    var t1 := Add(a[r].translation, Times(v, -steps));
    assert b[r].world == a[r].world;
    assert RightVector(b[r], lib) == v;
    assert b[r].translation == t1;
    assert MoveLeft(b, r, -steps, lib)[r].translation == Add(t1, Times(v, -(-steps)));
    StepsCancel(a[r].translation, v, -steps);
  }

  lemma MoveUpUndo(a: Arena, r: Ref, steps: real, lib: MathLib)
    requires r in a
    ensures MoveUp(MoveUp(a, r, steps, lib), r, -steps, lib)[r].translation == a[r].translation
  {
    var b := MoveUp(a, r, steps, lib);
    assert b[r].world == a[r].world;
    assert UpVector(b[r], lib) == UpVector(a[r], lib);
    StepsCancel(a[r].translation, UpVector(a[r], lib), steps);
  }

  // ---------------------------------------------------------------------------
  // Interpolation

  /** `lerpScale(from, to, t)`: the scale becomes the componentwise lerp. */
  function LerpScale(a: Arena, r: Ref, from: Vec3, to: Vec3, t: real): (res: Arena)
    requires r in a
    ensures Dirtied(a, res, r)
    ensures res[r].scale == LerpVector(from, to, t)
    ensures res[r] == a[r].(scale := res[r].scale, isScaled := res[r].isScaled, isDirty := true)
  {
    var v := LerpVector(from, to, t);
    SetScale(a, r, v.x, v.y, v.z)
  }

  /** `lerpTranslation(from, to, t)`: the translation becomes the componentwise lerp. */
  function LerpTranslation(a: Arena, r: Ref, from: Vec3, to: Vec3, t: real): (res: Arena)
    requires r in a
    ensures Dirtied(a, res, r)
    ensures res[r].translation == LerpVector(from, to, t)
    ensures res[r] == a[r].(translation := res[r].translation, isTranslated := res[r].isTranslated, isDirty := true)
  {
    var v := LerpVector(from, to, t);
    SetTranslation(a, r, v.x, v.y, v.z)
  }

  /** The arena after an interpolation step, and the target quaternion as `slerp` leaves it. */
  datatype Lerped = Lerped(arena: Arena, target: Option<Quaternion.Quat>)

  /**
   `lerpRotation(fromMatrix, toQuaternion, t)`: slerps from the quaternion
   of fromMatrix towards toQuaternion and stores the result's matrix with
   `setRotationMatrix`. The slerp is the written one, and the target comes
   back as that slerp leaves it, z unflipped.
   */
  function LerpRotation(a: Arena, r: Ref, fromMatrix: Mat4, toQuaternion: Quaternion.Quat, t: real, lib: MathLib)
    : (res: Lerped)
    requires r in a && SqrtPositive(lib)
    ensures Dirtied(a, res.arena, r)
    ensures var o := Quaternion.Slerp(Quaternion.FromMatrix4(fromMatrix, lib), toQuaternion, t, lib);
            && res.arena[r] == a[r].(rotation := Quaternion.ToMatrix4(o.result), isRotated := true, isDirty := true)
            && res.target == Some(o.target)
  {
    var o := Quaternion.Slerp(Quaternion.FromMatrix4(fromMatrix, lib), toQuaternion, t, lib);
    Lerped(SetRotationMatrix(a, r, Quaternion.ToMatrix4(o.result)), Some(o.target))
  }

  /**
   Starting from the matrix of a unit quaternion q, the amount 0 reproduces
   that matrix (outside the averaging branch). In the blending branch the
   amount 1 gives the rotation of the target as the slerp leaves it: the
   target's own rotation when the start quaternion qa that `fromMatrix4`
   recovers has a non-negative cosine with it or its z is 0, and the
   rotation of the written flip otherwise. The branch depends on q only
   through |q . target|, the same for q and -q.
   */
  lemma LerpRotationEnds(a: Arena, r: Ref, q: Quaternion.Quat, toQuaternion: Quaternion.Quat, lib: MathLib)
    requires r in a && ValidSqrt(lib) && Quaternion.SineOfArcCosine(lib)
    requires Quaternion.SquaredNorm(q) == 1.0
    requires Quaternion.SlerpBranch(Abs(Quaternion.HalfAngleCos(q, toQuaternion)), lib) != 1
    ensures LerpRotation(a, r, Quaternion.ToMatrix4(q), toQuaternion, 0.0, lib).arena[r].rotation == Quaternion.ToMatrix4(q)
    ensures var qa := Quaternion.FromMatrix4(Quaternion.ToMatrix4(q), lib);
            var end := LerpRotation(a, r, Quaternion.ToMatrix4(q), toQuaternion, 1.0, lib).arena[r].rotation;
            Quaternion.SlerpBranch(Abs(Quaternion.HalfAngleCos(q, toQuaternion)), lib) == 2 ==>
              && (Quaternion.HalfAngleCos(qa, toQuaternion) >= 0.0 || toQuaternion.z == 0.0 ==>
                    end == Quaternion.ToMatrix4(toQuaternion))
              && (Quaternion.HalfAngleCos(qa, toQuaternion) < 0.0 ==>
                    end == Quaternion.ToMatrix4(Quaternion.FlipAsWritten(toQuaternion)))
  {
    var qa := Quaternion.FromMatrix4(Quaternion.ToMatrix4(q), lib);
    Quaternion.FromMatrix4OfToMatrix4(q, lib);
    Quaternion.ToMatrix4Laws(q);
    assert Quaternion.ToMatrix4(qa) == Quaternion.ToMatrix4(q);
    Quaternion.NegatedFirstCosine(q, toQuaternion);
    assert Abs(Quaternion.HalfAngleCos(qa, toQuaternion)) == Abs(Quaternion.HalfAngleCos(q, toQuaternion));
    Quaternion.SlerpDegenerate(qa, toQuaternion, 0.0, 0.0, lib);
    if Quaternion.SlerpBranch(Abs(Quaternion.HalfAngleCos(qa, toQuaternion)), lib) == 2 {
      Quaternion.SlerpEndpoints(qa, toQuaternion, lib);
    }
  }

  /**
   A second `lerpRotation` from the same matrix towards the target the
   first one handed back: with no flip the target stays; after a flip it
   flips back to toQuaternion when the flipped target still has a negative
   cosine c' with the start quaternion, and otherwise stays.
   `Quaternion.FlipAsWrittenLaws` gives c' = 2 qa.z toQuaternion.z - c.
   */
  lemma LerpRotationRetargets(a: Arena, b: Arena, r: Ref, fromMatrix: Mat4, toQuaternion: Quaternion.Quat,
                              t: real, u: real, lib: MathLib)
    requires r in a && r in b && SqrtPositive(lib)
    ensures var qa := Quaternion.FromMatrix4(fromMatrix, lib);
            var c := Quaternion.HalfAngleCos(qa, toQuaternion);
            var first := LerpRotation(a, r, fromMatrix, toQuaternion, t, lib);
            var second := LerpRotation(b, r, fromMatrix, first.target.value, u, lib);
            var c' := Quaternion.HalfAngleCos(qa, Quaternion.FlipAsWritten(toQuaternion));
            && (c >= 0.0 ==> first.target == Some(toQuaternion) && second.target == first.target)
            && (c < 0.0 ==> first.target == Some(Quaternion.FlipAsWritten(toQuaternion)))
            && (c < 0.0 && c' < 0.0 ==> second.target == Some(toQuaternion))
            && (c < 0.0 && c' >= 0.0 ==> second.target == first.target)
  {
    Quaternion.SlerpRetarget(Quaternion.FromMatrix4(fromMatrix, lib), toQuaternion);
  }

  /**
   The alternation happens: from the half-turn about z, each step towards
   (x, 0, z, 0) with z < 0 hands back (-x, 0, z, 0), and the next step
   towards that hands back (x, 0, z, 0) again.
   */
  lemma LerpRotationOscillates(a: Arena, r: Ref, x: real, z: real, t: real, lib: MathLib)
    requires r in a && ValidSqrt(lib)
    requires z < 0.0
    ensures var from := Quaternion.ToMatrix4(Quaternion.Quat(0.0, 0.0, 1.0, 0.0));
            && LerpRotation(a, r, from, Quaternion.Quat(x, 0.0, z, 0.0), t, lib).target
               == Some(Quaternion.Quat(-x, 0.0, z, 0.0))
            && LerpRotation(a, r, from, Quaternion.Quat(-x, 0.0, z, 0.0), t, lib).target
               == Some(Quaternion.Quat(x, 0.0, z, 0.0))
  {
    var from := Quaternion.ToMatrix4(Quaternion.Quat(0.0, 0.0, 1.0, 0.0));
    Quaternion.HalfTurnZ(lib);
    Quaternion.FlipAsWrittenOscillates(x, z);
  }

  /**
   `lerp(fromScale, toScale, fromTranslation, toTranslation,
   fromRotationMatrix, toQuaternion, t)`: nothing happens when t is null;
   otherwise each of scale, translation and rotation whose two ends are both
   given is interpolated, in that order.
   */
  function Lerp(a: Arena, r: Ref, fromScale: Option<Vec3>, toScale: Option<Vec3>,
                fromTranslation: Option<Vec3>, toTranslation: Option<Vec3>,
                fromRotation: Option<Mat4>, toQuaternion: Option<Quaternion.Quat>,
                t: Option<real>, lib: MathLib): (res: Lerped)
    requires r in a && SqrtPositive(lib)
    ensures res.arena.Keys == a.Keys
    ensures t.None? ==> res == Lerped(a, toQuaternion)
    ensures var scaling := t.Some? && fromScale.Some? && toScale.Some?;
            res.arena[r].scale == if scaling then LerpVector(fromScale.value, toScale.value, t.value) else a[r].scale
    ensures var moving := t.Some? && fromTranslation.Some? && toTranslation.Some?;
            res.arena[r].translation
            == if moving then LerpVector(fromTranslation.value, toTranslation.value, t.value) else a[r].translation
    ensures var turning := t.Some? && fromRotation.Some? && toQuaternion.Some?;
            && (turning ==>
                  var o := Quaternion.Slerp(Quaternion.FromMatrix4(fromRotation.value, lib), toQuaternion.value, t.value, lib);
                  res.arena[r].rotation == Quaternion.ToMatrix4(o.result) && res.target == Some(o.target))
            && (!turning ==> res.arena[r].rotation == a[r].rotation && res.target == toQuaternion)
    ensures res.arena[r].pivot == a[r].pivot && res.arena[r].world == a[r].world
    ensures res.arena[r].parent == a[r].parent && res.arena[r].children == a[r].children
    ensures forall q :: q in a && q != r && q !in a[r].children ==> res.arena[q] == a[q]
  {
    if t.None? then Lerped(a, toQuaternion)
    else
      var a1 := if fromScale.Some? && toScale.Some?
                then LerpScale(a, r, fromScale.value, toScale.value, t.value) else a;
      var a2 := if fromTranslation.Some? && toTranslation.Some?
                then LerpTranslation(a1, r, fromTranslation.value, toTranslation.value, t.value) else a1;
      if fromRotation.Some? && toQuaternion.Some? then
        LerpRotation(a2, r, fromRotation.value, toQuaternion.value, t.value, lib)
      else
        Lerped(a2, toQuaternion)
  }

  /**
   The closure `getLerpFunction(toScale, toTranslation, toQuaternion)`
   returns: the node, copies of its scale and translation, its rotation at
   the time of the call, and the targets.
   */
  datatype LerpFunction = LerpFunction(
    node: Ref,
    fromScale: Vec3,
    toScale: Option<Vec3>,
    fromTranslation: Vec3,
    toTranslation: Option<Vec3>,
    fromRotation: Mat4,
    toQuaternion: Option<Quaternion.Quat>)

  function GetLerpFunction(a: Arena, r: Ref, toScale: Option<Vec3>, toTranslation: Option<Vec3>,
                           toQuaternion: Option<Quaternion.Quat>): (f: LerpFunction)
    requires r in a
    ensures f.node == r
    ensures f.fromScale == a[r].scale && f.fromTranslation == a[r].translation && f.fromRotation == a[r].rotation
    ensures f.toScale == toScale && f.toTranslation == toTranslation && f.toQuaternion == toQuaternion
  {
    LerpFunction(r, a[r].scale, toScale, a[r].translation, toTranslation, a[r].rotation, toQuaternion)
  }

  /**
   Calling the closure with t runs `lerp` from the captured start values,
   whatever the node holds by then; the closure keeps the target quaternion
   as `slerp` left it.
   */
  function ApplyLerp(a: Arena, f: LerpFunction, t: Option<real>, lib: MathLib): (res: (Arena, LerpFunction))
    requires f.node in a && SqrtPositive(lib)
    ensures res.0.Keys == a.Keys
    ensures res.1 == f.(toQuaternion := res.1.toQuaternion)
  {
    var o := Lerp(a, f.node, Some(f.fromScale), f.toScale, Some(f.fromTranslation), f.toTranslation,
                  Some(f.fromRotation), f.toQuaternion, t, lib);
    (o.arena, f.(toQuaternion := o.target))
  }

  /**
   The closure's amount 0 puts back the scale and translation the node had
   when the closure was made, the amount 1 gives the targets, and a null
   amount changes nothing.
   */
  lemma LerpFunctionEnds(a: Arena, b: Arena, r: Ref, toScale: Vec3, toTranslation: Vec3,
                         toQuaternion: Option<Quaternion.Quat>, lib: MathLib)
    requires r in a && r in b && SqrtPositive(lib)
    ensures var f := GetLerpFunction(a, r, Some(toScale), Some(toTranslation), toQuaternion);
            var n := ApplyLerp(b, f, Some(0.0), lib).0[r];
            n.scale == a[r].scale && n.translation == a[r].translation
    ensures var f := GetLerpFunction(a, r, Some(toScale), Some(toTranslation), toQuaternion);
            var n := ApplyLerp(b, f, Some(1.0), lib).0[r];
            n.scale == toScale && n.translation == toTranslation
    ensures var f := GetLerpFunction(a, r, Some(toScale), Some(toTranslation), toQuaternion);
            ApplyLerp(b, f, None, lib) == (b, f)
  {
    LerpVectorEndpoints(a[r].scale, toScale, 0.0);
    LerpVectorEndpoints(a[r].translation, toTranslation, 0.0);
  }
}
