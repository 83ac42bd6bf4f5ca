/** Removing occluded elements from a scene before painting it
    (examples/mir_demo_server/server_example_adorning_compositor.cpp:125-176, and the same
    algorithm in src/server/compositor/occlusion.cpp), and why the picture does not change. */
module Occlusion {
  import opened Geometry

  /** A renderable.  What a transformation does to it is unknown: it may touch any pixel. */
  datatype Element = Element(id: int, position: Rectangle, transformed: bool, alpha: real, shaped: bool)

  // ----- the code

  predicate Covered(coverage: seq<Rectangle>, r: Rectangle) {
    exists i :: 0 <= i < |coverage| && coverage[i].Contains(r)
  }

  /** renderable_is_occluded: the decision, and the coverage it leaves. */
  function IsOccluded(e: Element, area: Rectangle, coverage: seq<Rectangle>): (bool, seq<Rectangle>) {
    if e.transformed then (false, coverage)
    else
      var clipped := e.position.IntersectionWith(area);
      if clipped == EMPTY_RECTANGLE then (true, coverage)
      else if Covered(coverage, clipped) then (true, coverage)
      else (false, if e.alpha == 1.0 && !e.shaped then coverage + [clipped] else coverage)
  }

  datatype Culling = Culling(kept: seq<Element>, occluded: seq<Element>, coverage: seq<Rectangle>)

  /** The scene from the top down: the last element is decided first. */
  function Cull(scene: seq<Element>, area: Rectangle, coverage: seq<Rectangle>): Culling
    decreases |scene|
  {
    if scene == [] then Culling([], [], coverage)
    else
      var top := scene[|scene| - 1];
      var below := scene[..|scene| - 1];
      var (occluded, coverage') := IsOccluded(top, area, coverage);
      var rest := Cull(below, area, coverage');
      if occluded then rest.(occluded := rest.occluded + [top]) else rest.(kept := rest.kept + [top])
  }

  function Kept(scene: seq<Element>, area: Rectangle): seq<Element> {
    Cull(scene, area, []).kept
  }

  /** renderable_is_occluded, with its loop over the coverage. */
  method RenderableIsOccluded(e: Element, area: Rectangle, coverage: seq<Rectangle>)
    returns (occluded: bool, coverage': seq<Rectangle>)
    ensures (occluded, coverage') == IsOccluded(e, area, coverage)
    ensures var clipped := e.position.IntersectionWith(area);
            && (occluded <==> !e.transformed && (clipped == EMPTY_RECTANGLE || Covered(coverage, clipped)))
            && coverage' == if !occluded && !e.transformed && !e.shaped && e.alpha == 1.0
                            then coverage + [clipped] else coverage
  {
    coverage' := coverage;
    if e.transformed {
      return false, coverage';
    }
    var clipped := e.position.IntersectionWith(area);
    if clipped == EMPTY_RECTANGLE {
      return true, coverage';
    }
    occluded := false;
    for i := 0 to |coverage|
      invariant !occluded
      invariant forall k :: 0 <= k < i ==> !coverage[k].Contains(clipped)
    {
      if coverage[i].Contains(clipped) {
        occluded := true;
        break;
      }
    }
    if !occluded && e.alpha == 1.0 && !e.shaped {
      coverage' := coverage + [clipped];
    }
  }

  class SceneElementSequence {
    var elements: seq<Element>
    var notifiedOccluded: seq<Element>

    constructor (elements: seq<Element>)
      ensures this.elements == elements && notifiedOccluded == []
    {
      this.elements, notifiedOccluded := elements, [];
    }

    /** remove_occlusions_from: walks from the top, erasing in place. */
    method RemoveOcclusions(area: Rectangle)
      modifies this
      ensures elements == Kept(old(elements), area)
      ensures notifiedOccluded == Cull(old(elements), area, []).occluded + old(notifiedOccluded)
    {
      var coverage: seq<Rectangle> := [];
      var it := |elements|;
      ghost var scene := elements;
      assert scene[..it] == scene;
      while it > 0
        invariant 0 <= it <= |elements| && it <= |scene|
        invariant elements[..it] == scene[..it]
        invariant Cull(scene[..it], area, coverage).kept + elements[it..] == Kept(scene, area)
        invariant Cull(scene[..it], area, coverage).occluded + notifiedOccluded
                  == Cull(scene, area, []).occluded + old(notifiedOccluded)
      {
        it := it - 1;
        var e := elements[it];
        assert scene[..it + 1][..it] == scene[..it] && scene[..it + 1][it] == e;
        var occluded, coverage' := RenderableIsOccluded(e, area, coverage);
        coverage := coverage';
        if occluded {
          notifiedOccluded := [e] + notifiedOccluded;
          elements := elements[..it] + elements[it + 1..];
        }
      }
    }
  }

  // ----- the picture

  /** What painting one element does to the colour of a pixel, by the compositor's own test for
      blending, which is not the test that decides about the coverage: `texel` is what an unblended
      element shows there, `blend` is any effect at all. */
  function Touch<C>(e: Element, p: Point, c: C, texel: (Element, Point) -> C, blend: (Element, Point, C) -> C): C {
    if e.transformed then blend(e, p, c)
    else if !e.position.ContainsPoint(p) then c
    else if e.shaped || e.alpha < 1.0 then blend(e, p, c)
    else texel(e, p)
  }

  /** Painting bottom to top over a background colour. */
  function Paint<C>(scene: seq<Element>, p: Point, c: C, texel: (Element, Point) -> C, blend: (Element, Point, C) -> C): C {
    if scene == [] then c
    else Paint(scene[1..], p, Touch(scene[0], p, c, texel, blend), texel, blend)
  }

  lemma {:induction false} PaintInTwoParts<C>(a: seq<Element>, b: seq<Element>, p: Point, c: C,
                                              texel: (Element, Point) -> C, blend: (Element, Point, C) -> C)
    ensures Paint(a + b, p, c, texel, blend) == Paint(b, p, Paint(a, p, c, texel, blend), texel, blend)
    decreases |a|
  {
    if a == [] {
      assert a + b == b;
    } else {
      assert (a + b)[0] == a[0] && (a + b)[1..] == a[1..] + b;
      PaintInTwoParts(a[1..], b, p, Touch(a[0], p, c, texel, blend), texel, blend);
    }
  }

  /** Where the coverage reaches, the elements above decide the pixel whatever lies below. */
  ghost predicate CoverageHides<C(!new)>(coverage: seq<Rectangle>, above: seq<Element>, p: Point,
                                         texel: (Element, Point) -> C, blend: (Element, Point, C) -> C) {
    forall i :: 0 <= i < |coverage| && coverage[i].ContainsPoint(p) ==> Hides(above, p, texel, blend)
  }

  ghost predicate Hides<C(!new)>(above: seq<Element>, p: Point,
                                 texel: (Element, Point) -> C, blend: (Element, Point, C) -> C) {
    forall c, c' :: Paint(above, p, c, texel, blend) == Paint(above, p, c', texel, blend)
  }

  /** An occluded element leaves no trace under what is above it. */
  lemma OccludedLeavesNoTrace<C(!new)>(e: Element, area: Rectangle, coverage: seq<Rectangle>, above: seq<Element>,
                                       p: Point, c: C, texel: (Element, Point) -> C, blend: (Element, Point, C) -> C)
    requires area.ContainsPoint(p) && CoverageHides(coverage, above, p, texel, blend)
    requires IsOccluded(e, area, coverage).0
    ensures Paint(above, p, Touch(e, p, c, texel, blend), texel, blend) == Paint(above, p, c, texel, blend)
  {
    var clipped := e.position.IntersectionWith(area);
    if e.position.ContainsPoint(p) {
      assert clipped.ContainsPoint(p);
      var i :| 0 <= i < |coverage| && coverage[i].Contains(clipped);
      assert coverage[i].ContainsPoint(p);
      assert Hides(above, p, texel, blend);
    }
  }

  /** An element that is kept joins what is above, and the coverage it leaves is still hidden. */
  lemma KeptJoinsCoverage<C(!new)>(e: Element, area: Rectangle, coverage: seq<Rectangle>, above: seq<Element>,
                                   p: Point, texel: (Element, Point) -> C, blend: (Element, Point, C) -> C)
    requires CoverageHides(coverage, above, p, texel, blend)
    requires !IsOccluded(e, area, coverage).0
    ensures CoverageHides(IsOccluded(e, area, coverage).1, [e] + above, p, texel, blend)
  {
    var coverage' := IsOccluded(e, area, coverage).1;
    forall i | 0 <= i < |coverage'| && coverage'[i].ContainsPoint(p)
      ensures Hides([e] + above, p, texel, blend)
    {
      assert ([e] + above)[1..] == above;
      if i < |coverage| {
        assert coverage[i].ContainsPoint(p) && Hides(above, p, texel, blend);
      } else {
        assert !e.transformed && e.alpha == 1.0 && !e.shaped && e.position.ContainsPoint(p);
      }
    }
  }

  lemma {:induction false} CullKeepsPicture<C(!new)>(scene: seq<Element>, area: Rectangle, coverage: seq<Rectangle>,
                                                     above: seq<Element>, p: Point, c: C,
                                                     texel: (Element, Point) -> C, blend: (Element, Point, C) -> C)
    requires area.ContainsPoint(p) && CoverageHides(coverage, above, p, texel, blend)
    ensures Paint(Cull(scene, area, coverage).kept + above, p, c, texel, blend)
            == Paint(scene + above, p, c, texel, blend)
    decreases |scene|
  {
    if scene == [] {
      assert [] + above == above;
    } else {
      var top, below := scene[|scene| - 1], scene[..|scene| - 1];
      var (occluded, coverage') := IsOccluded(top, area, coverage);
      var kept := Cull(below, area, coverage').kept;
      assert scene + above == below + ([top] + above);
      PaintInTwoParts(below, [top] + above, p, c, texel, blend);
      assert ([top] + above)[1..] == above;
      if occluded {
        OccludedLeavesNoTrace(top, area, coverage, above, p, Paint(below, p, c, texel, blend), texel, blend);
        PaintInTwoParts(below, above, p, c, texel, blend);
        CullKeepsPicture(below, area, coverage', above, p, c, texel, blend);
      } else {
        KeptJoinsCoverage(top, area, coverage, above, p, texel, blend);
        CullKeepsPicture(below, area, coverage', [top] + above, p, c, texel, blend);
        assert kept + [top] + above == kept + ([top] + above);
      }
    }
  }

  /** For every scene, view area and pixel of it, and whatever blending does, painting the elements
      kept gives the same colour as painting all of them. */
  lemma CullingKeepsPicture<C(!new)>(scene: seq<Element>, area: Rectangle, p: Point, background: C,
                                     texel: (Element, Point) -> C, blend: (Element, Point, C) -> C)
    requires area.ContainsPoint(p)
    ensures Paint(Kept(scene, area), p, background, texel, blend) == Paint(scene, p, background, texel, blend)
  {
    CullKeepsPicture(scene, area, [], [], p, background, texel, blend);
    assert Kept(scene, area) + [] == Kept(scene, area);
    assert scene + [] == scene;
  }

  // ----- exactly what is removed

  function Visible(e: Element, area: Rectangle): Rectangle {
    e.position.IntersectionWith(area)
  }

  /** Untransformed, without shape and at full opacity. */
  predicate Solid(e: Element) {
    !e.transformed && !e.shaped && e.alpha == 1.0
  }

  /** Some opaque element above, kept or not, shows everything this rectangle covers. */
  predicate HiddenFrom(scene: seq<Element>, n: nat, area: Rectangle, r: Rectangle) {
    exists j :: n <= j < |scene| && Solid(scene[j]) && Visible(scene[j], area).Contains(r)
  }

  predicate Invisible(scene: seq<Element>, i: nat, area: Rectangle)
    requires i < |scene|
  {
    && !scene[i].transformed
    && (Visible(scene[i], area) == EMPTY_RECTANGLE || HiddenFrom(scene, i + 1, area, Visible(scene[i], area)))
  }

  /** The first n elements that are, or are not, invisible, in order. */
  function Select(scene: seq<Element>, area: Rectangle, n: nat, invisible: bool): seq<Element>
    requires n <= |scene|
  {
    if n == 0 then []
    else Select(scene, area, n - 1, invisible)
         + if Invisible(scene, n - 1, area) == invisible then [scene[n - 1]] else []
  }

  /** The coverage built so far covers what some opaque element above hides, and no more. */
  ghost predicate CoverageExact(scene: seq<Element>, n: nat, area: Rectangle, coverage: seq<Rectangle>) {
    forall r: Rectangle :: r.NonEmpty() ==> (Covered(coverage, r) <==> HiddenFrom(scene, n, area, r))
  }

  lemma CoverageStaysExact(scene: seq<Element>, n: nat, area: Rectangle, coverage: seq<Rectangle>)
    requires 0 < n <= |scene| && CoverageExact(scene, n, area, coverage)
    ensures IsOccluded(scene[n - 1], area, coverage).0 == Invisible(scene, n - 1, area)
    ensures CoverageExact(scene, n - 1, area, IsOccluded(scene[n - 1], area, coverage).1)
  {
    forall r: Rectangle | r.NonEmpty()
      ensures Covered(IsOccluded(scene[n - 1], area, coverage).1, r) <==> HiddenFrom(scene, n - 1, area, r)
    {
      CoverageStep(scene, n, area, coverage, r);
    }
  }

  lemma CoverageStep(scene: seq<Element>, n: nat, area: Rectangle, coverage: seq<Rectangle>, r: Rectangle)
    requires 0 < n <= |scene| && CoverageExact(scene, n, area, coverage) && r.NonEmpty()
    ensures Covered(IsOccluded(scene[n - 1], area, coverage).1, r) <==> HiddenFrom(scene, n - 1, area, r)
  {
    var e := scene[n - 1];
    var clipped := Visible(e, area);
    var (occluded, coverage') := IsOccluded(e, area, coverage);
    assert HiddenFrom(scene, n - 1, area, r) <==>
           (Solid(e) && clipped.Contains(r)) || HiddenFrom(scene, n, area, r);
    if Solid(e) && clipped.Contains(r) {
      assert clipped != EMPTY_RECTANGLE;
      if occluded {
        var i :| 0 <= i < |coverage| && coverage[i].Contains(clipped);
        assert coverage[i].Contains(r);
      } else {
        assert coverage'[|coverage|].Contains(r);
      }
    } else if Covered(coverage, r) {
      var i :| 0 <= i < |coverage| && coverage[i].Contains(r);
      assert coverage'[i].Contains(r);
    }
  }

  lemma {:induction false} CullSelects(scene: seq<Element>, area: Rectangle, n: nat, coverage: seq<Rectangle>)
    requires n <= |scene| && CoverageExact(scene, n, area, coverage)
    ensures Cull(scene[..n], area, coverage).kept == Select(scene, area, n, false)
    ensures Cull(scene[..n], area, coverage).occluded == Select(scene, area, n, true)
    decreases n
  {
    if n > 0 {
      assert scene[..n][n - 1] == scene[n - 1] && scene[..n][..n - 1] == scene[..n - 1];
      CoverageStaysExact(scene, n, area, coverage);
      CullSelects(scene, area, n - 1, IsOccluded(scene[n - 1], area, coverage).1);
    }
  }

  /** An element is removed exactly when it is untransformed and either shows nothing in the view
      area or shows only what one opaque element above it shows; order is kept. */
  lemma CullingRemovesExactlyTheInvisible(scene: seq<Element>, area: Rectangle)
    ensures Kept(scene, area) == Select(scene, area, |scene|, false)
    ensures Cull(scene, area, []).occluded == Select(scene, area, |scene|, true)
  {
    assert scene[..|scene|] == scene;
    CullSelects(scene, area, |scene|, []);
  }

  lemma {:induction false} CullAgain(scene: seq<Element>, area: Rectangle, coverage: seq<Rectangle>)
    ensures var first := Cull(scene, area, coverage);
            Cull(first.kept, area, coverage) == Culling(first.kept, [], first.coverage)
    decreases |scene|
  {
    if scene != [] {
      var top, below := scene[|scene| - 1], scene[..|scene| - 1];
      var (occluded, coverage') := IsOccluded(top, area, coverage);
      CullAgain(below, area, coverage');
      var kept := Cull(below, area, coverage').kept;
      if !occluded {
        assert (kept + [top])[..|kept|] == kept;
      }
    }
  }

  /** Nothing is left to remove. */
  lemma CullingIsIdempotent(scene: seq<Element>, area: Rectangle)
    ensures Kept(Kept(scene, area), area) == Kept(scene, area)
  {
    CullAgain(scene, area, []);
  }
}
