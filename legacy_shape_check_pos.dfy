/**
 * The older drag controller (GamePlay/ShapeCheckPos): independent-minimum
 * normalisation, bounds relative to its own grid origin, and a first-match
 * search of the snap window.
 */
module LegacyShapeCheck {
  import opened Wrappers
  import opened Geometry
  import opened BoardSpec
  import opened SnapSearch

  /** The 8 x 8 square whose lower-left cell is `origin`. */
  predicate InFrame(origin: Vec, t: Vec) {
    origin.x <= t.x < origin.x + GridSize && origin.y <= t.y < origin.y + GridSize
  }

  /**
   * The older snapping rule: a present, non-empty pattern whose targets all
   * lie in the origin's frame and none of which holds a block; a target
   * without a cell counts as free.
   */
  predicate LegacySnapFits(g: Board, pattern: Option<seq<Vec>>, origin: Vec, anchor: Vec) {
    pattern.Some? && |pattern.value| > 0 &&
    forall i :: 0 <= i < |pattern.value| ==>
      InFrame(origin, anchor.Plus(pattern.value[i])) && !HasBlockAt(g, anchor.Plus(pattern.value[i]))
  }

  /** With the origin at (0, 0) the older rule is the newer one. */
  lemma LegacyAtZeroOriginIsSnapFits(g: Board, pattern: Option<seq<Vec>>, anchor: Vec)
    ensures LegacySnapFits(g, pattern, Vec(0, 0), anchor) <==> SnapFits(g, pattern, anchor)
  {
    assert forall t :: InFrame(Vec(0, 0), t) <==> InGrid(t);
  }

  /** A window position qualifies when the pattern snaps there and it is within the snap distance. */
  function LegacyOk(g: Board, pattern: Option<seq<Vec>>, origin: Vec, dist: Vec -> real, limit: real): Vec -> bool {
    v => LegacySnapFits(g, pattern, origin, v) && dist(v) <= limit
  }

  class LegacyShapeCheckPos {
    var shapePattern: Option<seq<Vec>>
    /** Grid position of the first cell in the cell list. */
    const gridOrigin: Vec

    constructor (origin: Vec)
      ensures gridOrigin == origin && shapePattern == None
    {
      gridOrigin := origin;
      shapePattern := None;
    }

    /**
     * Takes the children's grid positions and stores them shifted by the
     * least x and the least y, found independently; no children gives the
     * empty pattern.
     */
    method SetShapePattern(positions: seq<Vec>)
      modifies this
      ensures shapePattern == Some(Normalize(positions))
    {
      if |positions| == 0 {
        shapePattern := Some([]);
        return;
      }
      var minX, minY := positions[0].x, positions[0].y;
      var i := 0;
      while i < |positions|
        invariant 0 <= i <= |positions|
        invariant i == 0 ==> minX == positions[0].x && minY == positions[0].y
        invariant i > 0 ==> minX == MinX(positions[..i]) && minY == MinY(positions[..i])
      {
        assert positions[..i + 1][..i] == positions[..i];
        minX := Min(minX, positions[i].x);
        minY := Min(minY, positions[i].y);
        i := i + 1;
      }
      assert positions[..i] == positions;
      var pattern: seq<Vec> := [];
      i := 0;
      while i < |positions|
        invariant 0 <= i <= |positions|
        invariant |pattern| == i
        invariant forall j :: 0 <= j < i ==> pattern[j] == positions[j].Minus(Vec(minX, minY))
      {
        pattern := pattern + [Vec(positions[i].x - minX, positions[i].y - minY)];
        i := i + 1;
      }
      assert pattern == Shift(positions, Vec(minX, minY));
      shapePattern := Some(pattern);
    }

    /** Decides LegacySnapFits on the board `g` as this controller indexes it. */
    method CanPlaceShape(g: Board, gridPosition: Vec) returns (ok: bool)
      ensures ok == LegacySnapFits(g, shapePattern, gridOrigin, gridPosition)
    {
      if shapePattern.None? || |shapePattern.value| == 0 {
        return false;
      }
      var ps := shapePattern.value;
      var i := 0;
      while i < |ps|
        invariant 0 <= i <= |ps|
        invariant forall j :: 0 <= j < i ==>
          InFrame(gridOrigin, gridPosition.Plus(ps[j])) && !HasBlockAt(g, gridPosition.Plus(ps[j]))
      {
        var t := gridPosition.Plus(ps[i]);
        if t.x < gridOrigin.x || t.x >= gridOrigin.x + GridSize || t.y < gridOrigin.y || t.y >= gridOrigin.y + GridSize {
          return false;
        }
        if t in g && g[t].Some? {
          return false;
        }
        i := i + 1;
      }
      return true;
    }

    /**
     * Scans the 5 x 5 window, x outer and y inner, and returns the first
     * snappable position within `limit`, not the nearest; None when none
     * qualifies.
     */
    method GetNearestSnappablePosition(g: Board, drag: Vec, dist: Vec -> real, limit: real) returns (r: Option<Vec>)
      ensures FirstMatch(drag, LegacyOk(g, shapePattern, gridOrigin, dist, limit), r)
    {
      ghost var ok := LegacyOk(g, shapePattern, gridOrigin, dist, limit);
      var x := drag.x - 2;
      while x <= drag.x + 2
        invariant drag.x - 2 <= x <= drag.x + 3
        invariant forall q :: InWindow(drag, q) && q.x < x ==> !ok(q)
      {
        var y := drag.y - 2;
        while y <= drag.y + 2
          invariant drag.y - 2 <= y <= drag.y + 3
          invariant forall q :: InWindow(drag, q) && LexLess(q, Vec(x, y)) ==> !ok(q)
        {
          var t := Vec(x, y);
          var fits := CanPlaceShape(g, t);
          if fits && dist(t) <= limit {
            return Some(t);
          }
          y := y + 1;
        }
        x := x + 1;
      }
      return None;
    }
  }
}
