/**
 css3d.scene: the list of nodes to render, the camera, and the light. The
 nodes live in the arena the scene carries; `update` brings every listed
 node and then the camera up to date.
 */
module Scene {
  import opened Optional
  import opened Scalar
  import opened Vector3
  import Element
  import Camera

  datatype Scene = Scene(
    arena: Element.Arena,
    elements: seq<Element.Ref>,
    camera: Camera.Camera,
    light: Vec3,
    shadingIntensity: real,
    depthCueing: bool)

  /** The shading intensity a new scene starts with. */
  const DefaultShadingIntensity: real := 0.7

  /**
   `new css3d.scene()`, over the arena of nodes created so far: no listed
   nodes, a default camera, the light (0, 0, -1) normalized, shading
   intensity 0.7 and depth cueing on.
   */
  function New(arena: Element.Arena, lib: MathLib): (s: Scene)
    ensures s.elements == [] && s.arena == arena
    ensures s.camera == Camera.New(None, None, None, None)
    ensures s.light == Normalize(Vec3(0.0, 0.0, -1.0), lib)
    ensures s.shadingIntensity == DefaultShadingIntensity && s.depthCueing
  {
    Scene(arena, [], Camera.New(None, None, None, None), Normalize(Vec3(0.0, 0.0, -1.0), lib),
          DefaultShadingIntensity, true)
  }

  /** With an exact square root the light of a new scene points straight down the negative z axis. */
  lemma NewLight(arena: Element.Arena, lib: MathLib)
    requires ValidSqrt(lib)
    ensures New(arena, lib).light == Vec3(0.0, 0.0, -1.0)
  {
    NormalizeOfUnit(Vec3(0.0, 0.0, -1.0), lib);
  }

  /** Every listed node is in the arena. */
  predicate Valid(s: Scene)
  {
    forall i :: 0 <= i < |s.elements| ==> s.elements[i] in s.arena
  }

  /** `addElement(element)`: appends the node at the end of the list. */
  function AddElement(s: Scene, r: Element.Ref): (res: Scene)
    requires r in s.arena
    ensures res.elements == s.elements + [r]
    ensures res == s.(elements := res.elements)
    ensures Valid(s) ==> Valid(res)
  {
    s.(elements := s.elements + [r])
  }

  /** Adding keeps every earlier node at its place and puts the new one last. */
  lemma AddElementKeepsOrder(s: Scene, r: Element.Ref)
    requires r in s.arena
    ensures var res := AddElement(s, r);
            |res.elements| == |s.elements| + 1 && res.elements[|s.elements|] == r
    ensures forall i :: 0 <= i < |s.elements| ==> AddElement(s, r).elements[i] == s.elements[i]
  {
  }

  /** The test of `getElementById`: the node has a DOM element with that id. */
  predicate HasId(a: Element.Arena, r: Element.Ref, id: string)
  {
    r in a && a[r].dom.Some? && a[r].dom.value.id == id
  }

  /** The index of the first of es[i..] with the id, or |es| when there is none. */
  function FirstWithId(a: Element.Arena, es: seq<Element.Ref>, id: string, i: nat): (k: nat)
    requires i <= |es|
    ensures i <= k <= |es|
    ensures k < |es| ==> HasId(a, es[k], id)
    ensures forall j :: i <= j < k ==> !HasId(a, es[j], id)
    decreases |es| - i
  {
    if i == |es| then |es|
    else if HasId(a, es[i], id) then i
    else FirstWithId(a, es, id, i + 1)
  }

  /**
   `getElementById(id)`: the first listed node, in insertion order, that
   has a DOM element with the id, or null when there is none.
   */
  function GetElementById(s: Scene, id: string): (res: Option<Element.Ref>)
    ensures res.None? <==> forall i :: 0 <= i < |s.elements| ==> !HasId(s.arena, s.elements[i], id)
    ensures res.Some? ==>
              exists k :: 0 <= k < |s.elements| && s.elements[k] == res.value && HasId(s.arena, res.value, id)
                          && forall j :: 0 <= j < k ==> !HasId(s.arena, s.elements[j], id)
  {
    var k := FirstWithId(s.arena, s.elements, id, 0);
    if k < |s.elements| then Some(s.elements[k]) else None
  }

  /** A listed node that is dirty reaches a root within n steps. */
  predicate Updatable(a: Element.Arena, es: seq<Element.Ref>, n: nat)
  {
    forall i :: 0 <= i < |es| ==> es[i] in a && (a[es[i]].isDirty ==> Element.Rooted(a, es[i], n))
  }

  /**
   The loop of `update` over the listed nodes, in order. Each node's update
   may also clean its ancestors; it never dirties a node and never changes
   a parent link, so the later nodes stay updatable.
   */
  function UpdateAll(a: Element.Arena, es: seq<Element.Ref>, n: nat, lib: MathLib): (res: Element.Arena)
    requires Updatable(a, es, n)
    ensures res.Keys == a.Keys
    ensures forall i :: 0 <= i < |es| ==> !res[es[i]].isDirty
    ensures forall q :: q in a ==> Element.SameSetup(a[q], res[q])
    ensures forall q :: q in a && res[q].isDirty ==> a[q].isDirty
    ensures (forall i :: 0 <= i < |es| ==> !a[es[i]].isDirty) ==> res == a
    ensures forall q :: q in a && !a[q].isDirty ==> res[q] == a[q]
    decreases |es|
  {
    if |es| == 0 then a
    else
      var a1 := Element.Update(a, es[0], n, lib);
      UpdateKeepsUpdatable(a, a1, es[1..], n);
      UpdateAll(a1, es[1..], n, lib)
  }

  /**
   The arena the loop has reached when it comes to the i-th listed node:
   the first i nodes updated in order. The nodes from i on are still
   updatable there.
   */
  function Reached(a: Element.Arena, es: seq<Element.Ref>, i: nat, n: nat, lib: MathLib): (b: Element.Arena)
    requires Updatable(a, es, n) && i <= |es|
    ensures b.Keys == a.Keys
    ensures Updatable(b, es[i..], n)
    decreases i
  {
    if i == 0 then a
    else
      var a1 := Element.Update(a, es[0], n, lib);
      UpdateKeepsUpdatable(a, a1, es[1..], n);
      assert es[1..][i - 1..] == es[i..];
      Reached(a1, es[1..], i - 1, n, lib)
  }

  /**
   What the loop leaves in each listed node is what `Element.Update` makes
   of it in the arena the loop had reached when it came to that node: the
   world matrix and normal that update rebuilds, since no later update
   touches a clean node. A list of one node is updated exactly as that
   node alone, and reaching the end of the list is the whole loop.
   */
  lemma {:induction false} UpdateAllReached(a: Element.Arena, es: seq<Element.Ref>, n: nat, lib: MathLib)
    requires Updatable(a, es, n)
    ensures forall i :: 0 <= i < |es| ==>
              UpdateAll(a, es, n, lib)[es[i]] == Element.Update(Reached(a, es, i, n, lib), es[i], n, lib)[es[i]]
    ensures |es| == 1 ==> UpdateAll(a, es, n, lib) == Element.Update(a, es[0], n, lib)
    ensures Reached(a, es, |es|, n, lib) == UpdateAll(a, es, n, lib)
  {
    forall i | 0 <= i < |es|
      ensures UpdateAll(a, es, n, lib)[es[i]] == Element.Update(Reached(a, es, i, n, lib), es[i], n, lib)[es[i]]
    {
      ReachedAt(a, es, i, n, lib);
      ReachedStep(a, es, i, n, lib);
    }
    ReachedEnd(a, es, n, lib);
  }

  /** A listed node is left as it was right after its own update. */
  lemma {:induction false} ReachedAt(a: Element.Arena, es: seq<Element.Ref>, i: nat, n: nat, lib: MathLib)
    requires Updatable(a, es, n) && i < |es|
    ensures UpdateAll(a, es, n, lib)[es[i]] == Reached(a, es, i + 1, n, lib)[es[i]]
    decreases i
  {
    var a1 := Element.Update(a, es[0], n, lib);
    UpdateKeepsUpdatable(a, a1, es[1..], n);
    UpdateAllUnfold(a, es, n, lib);
    ReachedUnfold(a, es, i, n, lib);
    if i == 0 {
      assert !a1[es[0]].isDirty;
    } else {
      ReachedAt(a1, es[1..], i - 1, n, lib);
      assert es[1..][i - 1] == es[i];
    }
  }

  /** The loop after its first step. */
  lemma UpdateAllUnfold(a: Element.Arena, es: seq<Element.Ref>, n: nat, lib: MathLib)
    requires Updatable(a, es, n) && 0 < |es|
    requires Updatable(Element.Update(a, es[0], n, lib), es[1..], n)
    ensures UpdateAll(a, es, n, lib) == UpdateAll(Element.Update(a, es[0], n, lib), es[1..], n, lib)
  {
  }

  /** The arena reached after i + 1 steps, seen from after the first step. */
  lemma ReachedUnfold(a: Element.Arena, es: seq<Element.Ref>, i: nat, n: nat, lib: MathLib)
    requires Updatable(a, es, n) && i < |es|
    requires Updatable(Element.Update(a, es[0], n, lib), es[1..], n)
    ensures Reached(a, es, i + 1, n, lib) == Reached(Element.Update(a, es[0], n, lib), es[1..], i, n, lib)
  {
  }

  /** One more step of the loop is the update of the next node. */
  lemma {:induction false} ReachedStep(a: Element.Arena, es: seq<Element.Ref>, i: nat, n: nat, lib: MathLib)
    requires Updatable(a, es, n) && i < |es|
    ensures Reached(a, es, i + 1, n, lib) == Element.Update(Reached(a, es, i, n, lib), es[i], n, lib)
    decreases i
  {
    if i > 0 {
      var a1 := Element.Update(a, es[0], n, lib);
      UpdateKeepsUpdatable(a, a1, es[1..], n);
      ReachedStep(a1, es[1..], i - 1, n, lib);
      assert es[1..][i - 1] == es[i];
    }
  }

  lemma {:induction false} ReachedEnd(a: Element.Arena, es: seq<Element.Ref>, n: nat, lib: MathLib)
    requires Updatable(a, es, n)
    ensures Reached(a, es, |es|, n, lib) == UpdateAll(a, es, n, lib)
    decreases |es|
  {
    if |es| > 0 {
      var a1 := Element.Update(a, es[0], n, lib);
      UpdateKeepsUpdatable(a, a1, es[1..], n);
      ReachedEnd(a1, es[1..], n, lib);
    }
  }

  /** An arena whose dirty flags only went down and whose parent links stayed keeps its dirty nodes rooted. */
  lemma UpdateKeepsUpdatable(a: Element.Arena, b: Element.Arena, es: seq<Element.Ref>, n: nat)
    requires Updatable(a, es, n)
    requires b.Keys == a.Keys
    requires forall q :: q in a ==> Element.SameSetup(a[q], b[q])
    requires forall q :: q in a && b[q].isDirty ==> a[q].isDirty
    ensures Updatable(b, es, n)
  {
    assert forall q :: q in a ==> b[q].parent == a[q].parent;
    forall i | 0 <= i < |es| && b[es[i]].isDirty
      ensures Element.Rooted(b, es[i], n)
    {
      Element.RootedSame(a, b, es[i], n);
    }
  }

  /**
   `update()`: updates the listed nodes in order and then the camera.
   Afterwards every listed node and the camera are clean, and each listed
   node holds what `Element.Update` rebuilt in the arena reached so far.
   */
  function Update(s: Scene, n: nat, lib: MathLib): (res: Scene)
    requires Updatable(s.arena, s.elements, n)
    ensures res.elements == s.elements && res.arena.Keys == s.arena.Keys
    ensures forall i :: 0 <= i < |res.elements| ==> !res.arena[res.elements[i]].isDirty
    ensures !res.camera.isDirty
    ensures res.camera == Camera.Update(s.camera, lib)
    ensures res == s.(arena := res.arena, camera := res.camera)
    ensures forall i :: 0 <= i < |s.elements| ==>
              res.arena[s.elements[i]]
              == Element.Update(Reached(s.arena, s.elements, i, n, lib), s.elements[i], n, lib)[s.elements[i]]
  {
    UpdateAllReached(s.arena, s.elements, n, lib);
    s.(arena := UpdateAll(s.arena, s.elements, n, lib), camera := Camera.Update(s.camera, lib))
  }

  /** A scene whose listed nodes and camera are all clean is left unchanged, and a second update changes nothing. */
  lemma UpdateClean(s: Scene, n: nat, lib: MathLib)
    requires Updatable(s.arena, s.elements, n)
    ensures (forall i :: 0 <= i < |s.elements| ==> !s.arena[s.elements[i]].isDirty) && !s.camera.isDirty ==>
              Update(s, n, lib) == s
    ensures var once := Update(s, n, lib);
            Updatable(once.arena, once.elements, n) && Update(once, n, lib) == once
  {
    var once := Update(s, n, lib);
    assert forall i :: 0 <= i < |once.elements| ==> !once.arena[once.elements[i]].isDirty;
  }
}
