/**
 * The drag controller of a piece (the live Shape/ShapeCheckPos): it keeps the
 * piece's pattern anchored at its lexicographically least cell, tests
 * candidate anchors against the board and remembers the highlighted one.
 */
module ShapeCheck {
  import opened Wrappers
  import opened Geometry
  import opened BoardSpec
  import opened CellGrid
  import opened SnapSearch

  /** A window position qualifies when the pattern snaps there and it is within the snap distance. */
  function SnapOk(g: Board, pattern: Option<seq<Vec>>, dist: Vec -> real, limit: real): Vec -> bool {
    v => SnapFits(g, pattern, v) && dist(v) <= limit
  }

  class ShapeCheckPos {
    /** Offsets of the piece's cells from its anchor; None until a pattern is set. */
    var shapePattern: Option<seq<Vec>>
    /** The grid position currently highlighted, if any. */
    var currentHighlightedGrid: Option<Vec>
    /** Position of the anchor child within the piece. */
    var anchorLocalOffset: Vec
    const cellManager: CellManager

    constructor (cm: CellManager)
      ensures cellManager == cm
      ensures shapePattern == None && currentHighlightedGrid == None && anchorLocalOffset == Vec(0, 0)
    {
      cellManager := cm;
      shapePattern := None;
      currentHighlightedGrid := None;
      anchorLocalOffset := Vec(0, 0);
    }

    /**
     * Takes the children's grid positions, picks the lexicographically least
     * as anchor (the first of equals) and stores every position minus it.
     * No children gives the empty pattern and a zero anchor offset.
     */
    method SetShapePattern(positions: seq<Vec>)
      modifies this
      ensures shapePattern == Some(AnchorNormalize(positions))
      ensures anchorLocalOffset == if |positions| == 0 then Vec(0, 0) else LexMin(positions)
      ensures currentHighlightedGrid == old(currentHighlightedGrid)
    {
      if |positions| == 0 {
        shapePattern := Some([]);
        anchorLocalOffset := Vec(0, 0);
        return;
      }
      var minX, minY, minIndex := positions[0].x, positions[0].y, 0;
      var i := 0;
      while i < |positions|
        invariant 0 <= i <= |positions|
        invariant 0 <= minIndex < |positions| && positions[minIndex] == Vec(minX, minY)
        invariant i == 0 ==> minIndex == 0
        invariant i > 0 ==> Vec(minX, minY) == LexMin(positions[..i])
      {
        var pos := positions[i];
        assert positions[..i + 1][..i] == positions[..i];
        if pos.x < minX || (pos.x == minX && pos.y < minY) {
          minX, minY, minIndex := pos.x, pos.y, i;
        }
        i := i + 1;
      }
      assert positions[..i] == positions;
      anchorLocalOffset := positions[minIndex];
      var pattern: seq<Vec> := [];
      i := 0;
      while i < |positions|
        invariant 0 <= i <= |positions|
        invariant |pattern| == i
        invariant forall j :: 0 <= j < i ==> pattern[j] == positions[j].Minus(Vec(minX, minY))
      {
        pattern := pattern + [Vec(positions[i].x - minX, positions[i].y - minY)];
        i := i + 1;
      }
      assert pattern == Shift(positions, Vec(minX, minY));
      shapePattern := Some(pattern);
    }

    /**
     * Decides SnapFits against the cell manager's board: every target on
     * the grid and none holding a block; a target without a cell is free.
     */
    method CanPlaceShape(gridPosition: Vec) returns (ok: bool)
      ensures ok == SnapFits(cellManager.Snapshot(), shapePattern, gridPosition)
    {
      if shapePattern.None? || |shapePattern.value| == 0 {
        return false;
      }
      var ps := shapePattern.value;
      var i := 0;
      while i < |ps|
        invariant 0 <= i <= |ps|
        invariant forall j :: 0 <= j < i ==>
          InGrid(gridPosition.Plus(ps[j])) && !HasBlockAt(cellManager.Snapshot(), gridPosition.Plus(ps[j]))
      {
        var t := gridPosition.Plus(ps[i]);
        if t.x < 0 || t.x >= GridSize || t.y < 0 || t.y >= GridSize {
          return false;
        }
        var c := cellManager.GetCellAt(t);
        if c.Some? && c.value.HasBlock() {
          return false;
        }
        i := i + 1;
      }
      return true;
    }

    /**
     * Scans the 5 x 5 window around the dragged grid position, x outer and y
     * inner, and keeps the snappable position within `limit` that is
     * strictly nearest by `dist`; None when there is none.
     */
    method GetNearestSnappablePosition(drag: Vec, dist: Vec -> real, limit: real) returns (nearest: Option<Vec>)
      ensures Nearest(drag, SnapOk(cellManager.Snapshot(), shapePattern, dist, limit), dist, nearest)
    {
      ghost var ok := SnapOk(cellManager.Snapshot(), shapePattern, dist, limit);
      nearest := None;
      var nearestDistance: real := 0.0;
      var x := drag.x - 2;
      while x <= drag.x + 2
        invariant drag.x - 2 <= x <= drag.x + 3
        invariant nearest.Some? ==>
          InWindow(drag, nearest.value) && ok(nearest.value) && nearest.value.x < x && nearestDistance == dist(nearest.value)
        invariant forall q :: InWindow(drag, q) && q.x < x && ok(q) ==>
          nearest.Some? && dist(nearest.value) <= dist(q) && (LexLess(q, nearest.value) ==> dist(nearest.value) < dist(q))
      {
        var y := drag.y - 2;
        while y <= drag.y + 2
          invariant drag.y - 2 <= y <= drag.y + 3
          invariant nearest.Some? ==>
            InWindow(drag, nearest.value) && ok(nearest.value) && LexLess(nearest.value, Vec(x, y)) &&
            nearestDistance == dist(nearest.value)
          invariant forall q :: InWindow(drag, q) && LexLess(q, Vec(x, y)) && ok(q) ==>
            nearest.Some? && dist(nearest.value) <= dist(q) && (LexLess(q, nearest.value) ==> dist(nearest.value) < dist(q))
        {
          var t := Vec(x, y);
          var fits := CanPlaceShape(t);
          if fits {
            var distance := dist(t);
            if distance <= limit && (nearest.None? || distance < nearestDistance) {
              nearestDistance := distance;
              nearest := Some(t);
            }
          }
          y := y + 1;
        }
        x := x + 1;
      }
    }

    /** Recomputes the snappable position and records it as the highlighted one. */
    method CheckPositionAndHighlight(drag: Vec, dist: Vec -> real, limit: real) returns (valid: Option<Vec>)
      modifies this
      ensures Nearest(drag, SnapOk(cellManager.Snapshot(), shapePattern, dist, limit), dist, valid)
      ensures currentHighlightedGrid == valid
      ensures shapePattern == old(shapePattern) && anchorLocalOffset == old(anchorLocalOffset)
    {
      valid := GetNearestSnappablePosition(drag, dist, limit);
      if valid != currentHighlightedGrid {
        if valid.Some? {
          currentHighlightedGrid := valid;
        } else {
          currentHighlightedGrid := None;
        }
      }
    }
  }
}
