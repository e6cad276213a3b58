/**
 css3d.collision: filters a list of nodes down to those a moving point
 runs into. The point is `position + normal * distance`; a node is hit when
 it renders to a DOM element, its world position is within half its width
 or height of the point, and its plane passes within `distance` of the
 point along its transformed normal.
 */
module Collision {
  import opened Optional
  import opened Scalar
  import opened Vector3
  import Element

  /** `new css3d.collision(elements)`. */
  datatype Collision = Collision(elements: seq<Element.Ref>)

  /** The collision point: the position moved by distance along the normal. */
  function CollisionPoint(position: Vec3, normal: Vec3, distance: real): (p: Vec3)
    ensures Sub(p, position) == Times(normal, distance)
  {
    Vec3(position.x + normal.x * distance, position.y + normal.y * distance, position.z + normal.z * distance)
  }

  /** Half the larger side of the node's DOM element: the radius of the hit test. */
  function Size(h: Element.Handle): real
  {
    Max(h.width / 2.0, h.height / 2.0)
  }

  /**
   Whether node e is reported for the point: it has a DOM element, the
   distance from its world position to the point is below its size, and
   the distance along its normal is below `distance` in magnitude.
   */
  predicate Hit(e: Element.Node, point: Vec3, distance: real, lib: MathLib)
  {
    && e.dom.Some?
    && var position := Element.TotalTranslation(e);
       && Distance(position, point, lib) < Size(e.dom.value)
       && Abs(Dot2(e.normalWorld, Sub(position, point))) < distance
  }

  /** xs is a subsequence of ys: ys with some entries removed, the rest in order. */
  predicate SubsequenceOf<T(==)>(xs: seq<T>, ys: seq<T>)
    decreases |ys|
  {
    if |xs| == 0 then true
    else if |ys| == 0 then false
    else (xs[0] == ys[0] && SubsequenceOf(xs[1..], ys[1..])) || SubsequenceOf(xs, ys[1..])
  }

  /** The nodes of es that are hit, in the order of es. */
  function Hits(a: Element.Arena, es: seq<Element.Ref>, point: Vec3, distance: real, lib: MathLib)
    : (res: seq<Element.Ref>)
    requires forall i :: 0 <= i < |es| ==> es[i] in a
    ensures forall q :: q in res <==> q in es && Hit(a[q], point, distance, lib)
    ensures SubsequenceOf(res, es)
    ensures forall q :: q in res ==> a[q].dom.Some?
    ensures distance <= 0.0 ==> res == []
    decreases |es|
  {
    if |es| == 0 then []
    else
      var rest := Hits(a, es[1..], point, distance, lib);
      if Hit(a[es[0]], point, distance, lib) then [es[0]] + rest else rest
  }

  /** `Hits` keeps each hit node as often as es lists it, and drops every other node. */
  lemma {:induction false} HitsMultiplicity(a: Element.Arena, es: seq<Element.Ref>, point: Vec3, distance: real,
                                            lib: MathLib)
    requires forall i :: 0 <= i < |es| ==> es[i] in a
    ensures forall q :: multiset(Hits(a, es, point, distance, lib))[q]
                        == if q in es && Hit(a[q], point, distance, lib) then multiset(es)[q] else 0
    decreases |es|
  {
    if |es| > 0 {
      HitsMultiplicity(a, es[1..], point, distance, lib);
      assert es == [es[0]] + es[1..];
      var rest := Hits(a, es[1..], point, distance, lib);
      if Hit(a[es[0]], point, distance, lib) {
        assert Hits(a, es, point, distance, lib) == [es[0]] + rest;
      } else {
        assert Hits(a, es, point, distance, lib) == rest;
      }
    }
  }

  /**
   `getCollisions(position, normal, distance)`: the listed nodes hit by the
   collision point, in list order. Nodes are only read: the world position
   is a fresh copy, so subtracting the point from it changes no node.
   */
  function GetCollisions(c: Collision, a: Element.Arena, position: Vec3, normal: Vec3, distance: real, lib: MathLib)
    : (res: seq<Element.Ref>)
    requires forall i :: 0 <= i < |c.elements| ==> c.elements[i] in a
    ensures forall q :: q in res <==>
              q in c.elements && Hit(a[q], CollisionPoint(position, normal, distance), distance, lib)
    ensures SubsequenceOf(res, c.elements)
    ensures forall q :: q in res ==> a[q].dom.Some?
    ensures distance <= 0.0 ==> res == []
    ensures forall q :: multiset(res)[q]
                        == if q in c.elements && Hit(a[q], CollisionPoint(position, normal, distance), distance, lib)
                           then multiset(c.elements)[q] else 0
  {
    HitsMultiplicity(a, c.elements, CollisionPoint(position, normal, distance), distance, lib);
    Hits(a, c.elements, CollisionPoint(position, normal, distance), distance, lib)
  }

  /** A subsequence is no longer than the sequence and keeps only its entries. */
  lemma {:induction false} SubsequenceBounds<T>(xs: seq<T>, ys: seq<T>)
    requires SubsequenceOf(xs, ys)
    ensures |xs| <= |ys|
    ensures forall x :: x in xs ==> x in ys
    decreases |ys|
  {
    if |xs| > 0 {
      if xs[0] == ys[0] && SubsequenceOf(xs[1..], ys[1..]) {
        SubsequenceBounds(xs[1..], ys[1..]);
        assert forall x :: x in xs ==> x == xs[0] || x in xs[1..];
        assert forall y :: y in ys[1..] ==> y in ys;
      } else {
        SubsequenceBounds(xs, ys[1..]);
        assert forall y :: y in ys[1..] ==> y in ys;
      }
    }
  }
}
