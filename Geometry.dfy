/**
 * Rectangle geometry of the asset grid's preheat window: the part of CGRect
 * the controller uses, `differencesBetweenRects`, the preheat rectangle and
 * the hysteresis test of `updateCachedAssets`.
 *
 * Coordinates are exact reals; nothing here says anything about CGFloat
 * rounding. Only the Y axis (the scroll axis) matters for the strips.
 */
module Geometry {

  /** A CGRect: origin (x, y) and size (width, height). */
  datatype Rect = Rect(x: real, y: real, width: real, height: real) {

    function MinY(): real { y }

    function MaxY(): real { y + height }

    function MidY(): real { y + height / 2.0 }

    function MaxX(): real { x + width }

    /** CoreGraphics calls a rect with non-negative size standardized;
        view bounds and every rect built here are. */
    predicate Standard() { width >= 0.0 && height >= 0.0 }

    /** The half-open extent [minY, maxY) on the scroll axis. */
    predicate ContainsY(v: real) { y <= v < y + height }

    /** The half-open extent [minX, maxX) across the scroll axis. */
    predicate ContainsX(u: real) { x <= u < x + width }
  }

  /** CGRect.zero */
  const Zero := Rect(0.0, 0.0, 0.0, 0.0)

  function Abs(r: real): real { if r < 0.0 then -r else r }

  /** Two intervals [lo1, hi1) and [lo2, hi2) overlap with positive length. */
  predicate Overlaps(lo1: real, hi1: real, lo2: real, hi2: real) {
    lo1 < hi2 && lo2 < hi1
  }

  /**
   * CGRect.intersects, as ASSUMED by this model: both edges are compared
   * strictly, so for rects of positive width and height it holds exactly
   * when their interiors share a point (IntersectsIffSharedPoint) and rects
   * that only touch along an edge do not intersect; rects of zero width or
   * height are compared the same way, so a rect of zero size intersects a
   * rect whose interior strictly contains its point. Intersecting rects
   * always meet on the Y axis, which is all the coverage results below
   * rely on.
   */
  predicate Intersects(a: Rect, b: Rect): (r: bool)
    ensures r ==> TouchesY(a, b)
  {
    Overlaps(a.x, a.MaxX(), b.x, b.MaxX()) && Overlaps(a.MinY(), a.MaxY(), b.MinY(), b.MaxY())
  }

  lemma IntersectsIffSharedPoint(a: Rect, b: Rect)
    requires a.width > 0.0 && a.height > 0.0 && b.width > 0.0 && b.height > 0.0
    ensures Intersects(a, b) <==>
      exists u, v :: a.ContainsX(u) && a.ContainsY(v) && b.ContainsX(u) && b.ContainsY(v)
  {
    if Intersects(a, b) {
      var u := if a.x < b.x then b.x else a.x;
      var v := if a.y < b.y then b.y else a.y;
      assert a.ContainsX(u) && a.ContainsY(v) && b.ContainsX(u) && b.ContainsY(v);
    }
  }

  // ---------------------------------------------------------------------
  // differencesBetweenRects

  /** The strips of `newRect` that `oldRect` does not cover, for overlapping
      rects: first the one past old's far edge, then the one before old's
      near edge. Every strip takes new's x and width. */
  function AddedStrips(oldRect: Rect, newRect: Rect): (strips: seq<Rect>)
    ensures |strips| <= 2
    ensures forall i :: 0 <= i < |strips| ==>
      strips[i].x == newRect.x && strips[i].width == newRect.width && strips[i].height > 0.0
    ensures forall i :: 0 <= i < |strips| ==> !oldRect.ContainsY(strips[i].MinY())
  {
    (if newRect.MaxY() > oldRect.MaxY()
     then [Rect(newRect.x, oldRect.MaxY(), newRect.width, newRect.MaxY() - oldRect.MaxY())]
     else [])
    +
    (if oldRect.MinY() > newRect.MinY()
     then [Rect(newRect.x, newRect.MinY(), newRect.width, oldRect.MinY() - newRect.MinY())]
     else [])
  }

  /** The strips of `oldRect` that `newRect` no longer covers, for overlapping
      rects; these too take new's x and width, not old's. */
  function RemovedStrips(oldRect: Rect, newRect: Rect): (strips: seq<Rect>)
    ensures |strips| <= 2
    ensures forall i :: 0 <= i < |strips| ==>
      strips[i].x == newRect.x && strips[i].width == newRect.width && strips[i].height > 0.0
    ensures forall i :: 0 <= i < |strips| ==> !newRect.ContainsY(strips[i].MinY())
  {
    (if newRect.MaxY() < oldRect.MaxY()
     then [Rect(newRect.x, newRect.MaxY(), newRect.width, oldRect.MaxY() - newRect.MaxY())]
     else [])
    +
    (if oldRect.MinY() < newRect.MinY()
     then [Rect(newRect.x, oldRect.MinY(), newRect.width, newRect.MinY() - oldRect.MinY())]
     else [])
  }

  /** differencesBetweenRects(old, new) as (added, removed). */
  function Differences(oldRect: Rect, newRect: Rect): (r: (seq<Rect>, seq<Rect>))
    ensures Intersects(oldRect, newRect) ==>
      (oldRect.MinY() != newRect.MinY() || oldRect.MaxY() != newRect.MaxY() ==> r.0 + r.1 != [])
    ensures |r.0| <= 2 && |r.1| <= 2
    ensures forall i :: 0 <= i < |r.0| ==> r.0[i].x == newRect.x && r.0[i].width == newRect.width
    ensures forall i :: 0 <= i < |r.0| ==> newRect.MinY() <= r.0[i].MinY() && r.0[i].MaxY() <= newRect.MaxY()
    ensures forall i :: 0 <= i < |r.1| ==> oldRect.MinY() <= r.1[i].MinY() && r.1[i].MaxY() <= oldRect.MaxY()
    ensures Intersects(oldRect, newRect) ==>
      forall i :: 0 <= i < |r.1| ==> r.1[i].x == newRect.x && r.1[i].width == newRect.width
  {
    if Intersects(oldRect, newRect) then
      (AddedStrips(oldRect, newRect), RemovedStrips(oldRect, newRect))
    else
      ([newRect], [oldRect])
  }

  /** Some strip of `strips` covers `v` on the scroll axis. */
  predicate CoversY(strips: seq<Rect>, v: real) {
    exists i :: 0 <= i < |strips| && strips[i].ContainsY(v)
  }

  /** The closed Y ranges of the two rects meet (they overlap or touch). */
  predicate TouchesY(a: Rect, b: Rect) {
    a.MinY() <= b.MaxY() && b.MinY() <= a.MaxY()
  }

  /** The half-open Y extents of the two rects share a point. */
  predicate ShareY(a: Rect, b: Rect) {
    a.height > 0.0 && b.height > 0.0 && Overlaps(a.MinY(), a.MaxY(), b.MinY(), b.MaxY())
  }

  /** A list of strips as differencesBetweenRects produces them for
      overlapping rects, with `edge1`/`edge2` the Y coordinates every strip is
      anchored to: at most two strips, each of positive height, with `column`'s
      x and width, each starting at `edge1` or ending at `edge2`, and a second
      strip lying wholly before the first. */
  predicate StripsShape(strips: seq<Rect>, column: Rect, edge1: real, edge2: real) {
    |strips| <= 2 &&
    (forall i :: 0 <= i < |strips| ==>
       strips[i].x == column.x && strips[i].width == column.width && strips[i].height > 0.0 &&
       (strips[i].MinY() == edge1 || strips[i].MaxY() == edge2)) &&
    (|strips| == 2 ==> strips[1].MaxY() <= strips[0].MinY())
  }

  lemma DisjointReplacesWholeWindow(oldRect: Rect, newRect: Rect)
    requires !Intersects(oldRect, newRect)
    ensures Differences(oldRect, newRect) == ([newRect], [oldRect])
  {
  }

  /** For overlapping rects each list has at most two strips of positive
      height, in the order far edge first, all in new's column. */
  lemma OverlapStripsShape(oldRect: Rect, newRect: Rect)
    requires oldRect.Standard() && newRect.Standard()
    requires Intersects(oldRect, newRect)
    ensures StripsShape(Differences(oldRect, newRect).0, newRect, oldRect.MaxY(), oldRect.MinY())
    ensures StripsShape(Differences(oldRect, newRect).1, newRect, newRect.MaxY(), newRect.MinY())
  {
    assert Differences(oldRect, newRect) == (AddedStrips(oldRect, newRect), RemovedStrips(oldRect, newRect));
    AddedStripsAnchored(oldRect, newRect);
    RemovedStripsAnchored(oldRect, newRect);
  }

  lemma AddedStripsAnchored(oldRect: Rect, newRect: Rect)
    requires oldRect.Standard()
    ensures StripsShape(AddedStrips(oldRect, newRect), newRect, oldRect.MaxY(), oldRect.MinY())
  {
  }

  lemma RemovedStripsAnchored(oldRect: Rect, newRect: Rect)
    requires newRect.Standard()
    ensures StripsShape(RemovedStrips(oldRect, newRect), newRect, newRect.MaxY(), newRect.MinY())
  {
  }

  /** On the scroll axis the added strips cover exactly new minus old. */
  lemma AddedCoverY(oldRect: Rect, newRect: Rect, v: real)
    requires oldRect.Standard() && newRect.Standard() && TouchesY(oldRect, newRect)
    ensures CoversY(AddedStrips(oldRect, newRect), v) <==> newRect.ContainsY(v) && !oldRect.ContainsY(v)
  {
    var s := AddedStrips(oldRect, newRect);
    if newRect.ContainsY(v) && !oldRect.ContainsY(v) {
      if v >= oldRect.MaxY() {
        assert s[0].ContainsY(v);
      } else {
        assert s[|s| - 1].ContainsY(v);
      }
    }
  }

  /** On the scroll axis the removed strips cover exactly old minus new. */
  lemma RemovedCoverY(oldRect: Rect, newRect: Rect, v: real)
    requires oldRect.Standard() && newRect.Standard() && TouchesY(oldRect, newRect)
    ensures CoversY(RemovedStrips(oldRect, newRect), v) <==> oldRect.ContainsY(v) && !newRect.ContainsY(v)
  {
    var s := RemovedStrips(oldRect, newRect);
    if oldRect.ContainsY(v) && !newRect.ContainsY(v) {
      if v >= newRect.MaxY() {
        assert s[0].ContainsY(v);
      } else {
        assert s[|s| - 1].ContainsY(v);
      }
    }
  }

  /**
   * Set-difference equivalence of differencesBetweenRects on the scroll
   * axis: the added strips cover new \ old and the removed strips cover
   * old \ new. It holds on both branches, provided the rects do not fail to
   * intersect on the X axis alone while sharing Y extent.
   */
  lemma DifferencesCoverY(oldRect: Rect, newRect: Rect)
    requires oldRect.Standard() && newRect.Standard()
    requires Intersects(oldRect, newRect) || !ShareY(oldRect, newRect)
    ensures forall v :: CoversY(Differences(oldRect, newRect).0, v) <==> newRect.ContainsY(v) && !oldRect.ContainsY(v)
    ensures forall v :: CoversY(Differences(oldRect, newRect).1, v) <==> oldRect.ContainsY(v) && !newRect.ContainsY(v)
  {
    forall v
      ensures CoversY(Differences(oldRect, newRect).0, v) <==> newRect.ContainsY(v) && !oldRect.ContainsY(v)
      ensures CoversY(Differences(oldRect, newRect).1, v) <==> oldRect.ContainsY(v) && !newRect.ContainsY(v)
    {
      if Intersects(oldRect, newRect) {
        AddedCoverY(oldRect, newRect, v);
        RemovedCoverY(oldRect, newRect, v);
      } else {
        assert CoversY([newRect], v) <==> newRect.ContainsY(v) by {
          if newRect.ContainsY(v) { assert [newRect][0].ContainsY(v); }
        }
        assert CoversY([oldRect], v) <==> oldRect.ContainsY(v) by {
          if oldRect.ContainsY(v) { assert [oldRect][0].ContainsY(v); }
        }
      }
    }
  }

  /** Rects whose X ranges overlap with positive length (two preheat
      windows of the same view, even after a rotation changed the width) meet
      the side condition of DifferencesCoverY, and so does CGRect.zero as the
      old rect. */
  lemma SameColumnOrZeroDecidesOnY(oldRect: Rect, newRect: Rect)
    requires oldRect == Zero || Overlaps(oldRect.x, oldRect.MaxX(), newRect.x, newRect.MaxX())
    ensures Intersects(oldRect, newRect) || !ShareY(oldRect, newRect)
  {
  }

  /** What updateCachedAssets diffs: the previous preheat window (or
      CGRect.zero after a reset) against the new one. The added strips cover
      exactly the new window minus the old one on the scroll axis, and the
      removed strips exactly the old window minus the new one. */
  lemma PreheatDiffCoverY(previous: Rect, bounds: Rect)
    requires previous.Standard() && bounds.Standard()
    requires previous == Zero || Overlaps(previous.x, previous.MaxX(), bounds.x, bounds.MaxX())
    ensures forall v :: CoversY(Differences(previous, PreheatRect(bounds)).0, v) <==>
      PreheatRect(bounds).ContainsY(v) && !previous.ContainsY(v)
    ensures forall v :: CoversY(Differences(previous, PreheatRect(bounds)).1, v) <==>
      previous.ContainsY(v) && !PreheatRect(bounds).ContainsY(v)
  {
    var p := PreheatRect(bounds);
    SameColumnOrZeroDecidesOnY(previous, p);
    DifferencesCoverY(previous, p);
  }

  /** The zero-size case of the Intersects assumption is reachable: after a
      reset, bounds shifted left by a content inset give a preheat window
      that passes the hysteresis test and strictly contains the origin, so
      CGRect.zero counts as intersecting it and nothing is removed. */
  lemma ResetWindowAroundOrigin()
    ensures MovedEnough(PreheatRect(Rect(-8.0, 0.0, 320.0, 600.0)), Zero, 600.0)
    ensures Intersects(Zero, PreheatRect(Rect(-8.0, 0.0, 320.0, 600.0)))
    ensures Differences(Zero, PreheatRect(Rect(-8.0, 0.0, 320.0, 600.0))).1 == []
  {
    var p := PreheatRect(Rect(-8.0, 0.0, 320.0, 600.0));
    assert p == Rect(-8.0, -300.0, 320.0, 1200.0);
    ZeroInsideWindow(p);
  }

  /** CGRect.zero against a rect whose interior strictly contains the origin:
      they intersect, so no strip is removed. */
  lemma ZeroInsideWindow(p: Rect)
    requires p.x < 0.0 < p.MaxX() && p.MinY() < 0.0 < p.MaxY()
    ensures Intersects(Zero, p)
    ensures Differences(Zero, p).1 == []
  {
  }

  /** A new rect reaching past old's extent on either side always yields
      at least one added strip. */
  lemma AddedNonEmpty(oldRect: Rect, newRect: Rect)
    requires newRect.MaxY() > oldRect.MaxY() || newRect.MinY() < oldRect.MinY()
    ensures Differences(oldRect, newRect).0 != []
  {
  }

  // ---------------------------------------------------------------------
  // Preheat rectangle and hysteresis

  /** CGRect.insetBy(dx:dy:) on a standardized rect whose result keeps a
      non-negative size. */
  function InsetBy(r: Rect, dx: real, dy: real): (inset: Rect)
    requires r.Standard() && r.width - 2.0 * dx >= 0.0 && r.height - 2.0 * dy >= 0.0
    ensures inset.Standard()
    ensures inset.MidY() == r.MidY() && inset.x + inset.width / 2.0 == r.x + r.width / 2.0
    ensures inset.MinY() == r.MinY() + dy && inset.MaxY() == r.MaxY() - dy
  {
    Rect(r.x + dx, r.y + dy, r.width - 2.0 * dx, r.height - 2.0 * dy)
  }

  /** The preheat window: the view bounds grown by half their height above
      and below, so it has the bounds' centre and twice their height. */
  function PreheatRect(bounds: Rect): (p: Rect)
    requires bounds.Standard()
    ensures p.Standard()
    ensures p.MidY() == bounds.MidY() && p.height == 2.0 * bounds.height
    ensures p.MinY() == bounds.MinY() - bounds.height / 2.0 && p.MaxY() == bounds.MaxY() + bounds.height / 2.0
    ensures p.x == bounds.x && p.width == bounds.width
  {
    InsetBy(bounds, 0.0, -0.5 * bounds.height)
  }

  /** The hysteresis test: the preheat window's centre moved by more than a
      third of the view height since the last recomputation. */
  predicate MovedEnough(preheat: Rect, previous: Rect, viewHeight: real): (r: bool)
    ensures viewHeight >= 0.0 && preheat.MidY() == previous.MidY() ==> !r
    ensures r <==> preheat.MidY() > previous.MidY() + viewHeight / 3.0 || preheat.MidY() < previous.MidY() - viewHeight / 3.0
  {
    Abs(preheat.MidY() - previous.MidY()) > viewHeight / 3.0
  }

  /** The bounds scrolled by `dy` along the scroll axis. */
  function Scrolled(bounds: Rect, dy: real): Rect {
    bounds.(y := bounds.y + dy)
  }

  /** Scrolling by exactly a third of the view height does not recompute;
      any scroll further than that, in either direction, does. */
  lemma ScrollThreshold(bounds: Rect, dy: real)
    requires bounds.Standard()
    ensures MovedEnough(PreheatRect(Scrolled(bounds, dy)), PreheatRect(bounds), bounds.height)
            <==> Abs(dy) > bounds.height / 3.0
  {
  }

  /** Unchanged bounds never pass the hysteresis test against the preheat
      window they produced. */
  lemma SameBoundsNotMovedEnough(bounds: Rect)
    requires bounds.Standard()
    ensures !MovedEnough(PreheatRect(bounds), PreheatRect(bounds), bounds.height)
  {
  }

  /** Against CGRect.zero the test passes exactly when the bounds' centre is
      more than a third of their height away from y = 0. */
  lemma AfterResetMovedEnough(bounds: Rect)
    requires bounds.Standard()
    ensures MovedEnough(PreheatRect(bounds), Zero, bounds.height) <==> Abs(bounds.MidY()) > bounds.height / 3.0
  {
  }

  /** Against CGRect.zero a recomputation with non-empty bounds always adds
      at least one strip. */
  lemma AfterResetAddsStrip(bounds: Rect)
    requires bounds.Standard() && bounds.height > 0.0
    ensures Differences(Zero, PreheatRect(bounds)).0 != []
  {
    var p := PreheatRect(bounds);
    if p.MaxY() <= 0.0 {
      assert p.MinY() < 0.0;
    }
    AddedNonEmpty(Zero, p);
  }
}
