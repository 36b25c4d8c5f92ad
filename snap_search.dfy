/**
 * The candidate window the drag controllers search, and the two search
 * strategies they use: the older one returns the first qualifying position
 * in scan order, the newer one the nearest, ties going to the earlier one.
 */
module SnapSearch {
  import opened Wrappers
  import opened Geometry

  /** Within two cells of the dragged grid position on both axes. */
  predicate InWindow(drag: Vec, q: Vec) {
    drag.x - 2 <= q.x <= drag.x + 2 && drag.y - 2 <= q.y <= drag.y + 2
  }

  /**
   * The loops run x outer and y inner, so "scanned earlier" is the
   * lexicographic order of Geometry.LexLess.
   */
  ghost predicate FirstMatch(drag: Vec, ok: Vec -> bool, r: Option<Vec>) {
    (r.Some? ==>
      InWindow(drag, r.value) && ok(r.value) &&
      forall q :: InWindow(drag, q) && LexLess(q, r.value) ==> !ok(q)) &&
    (r.None? ==> forall q :: InWindow(drag, q) ==> !ok(q))
  }

  /** A qualifying window position at least as close as every other, and strictly closer than every earlier one. */
  ghost predicate Nearest(drag: Vec, ok: Vec -> bool, dist: Vec -> real, r: Option<Vec>) {
    (r.Some? ==>
      InWindow(drag, r.value) && ok(r.value) &&
      forall q :: InWindow(drag, q) && ok(q) ==>
        dist(r.value) <= dist(q) && (LexLess(q, r.value) ==> dist(r.value) < dist(q))) &&
    (r.None? ==> forall q :: InWindow(drag, q) ==> !ok(q))
  }

  lemma LexLessTotal(a: Vec, b: Vec)
    ensures a == b || LexLess(a, b) || LexLess(b, a)
    ensures !(LexLess(a, b) && LexLess(b, a))
  {
  }

  /** At most one result meets the first-match description. */
  lemma FirstMatchUnique(drag: Vec, ok: Vec -> bool, r1: Option<Vec>, r2: Option<Vec>)
    requires FirstMatch(drag, ok, r1) && FirstMatch(drag, ok, r2)
    ensures r1 == r2
  {
    if r1.Some? && r2.Some? {
      LexLessTotal(r1.value, r2.value);
    }
  }

  /** At most one result meets the nearest description. */
  lemma NearestUnique(drag: Vec, ok: Vec -> bool, dist: Vec -> real, r1: Option<Vec>, r2: Option<Vec>)
    requires Nearest(drag, ok, dist, r1) && Nearest(drag, ok, dist, r2)
    ensures r1 == r2
  {
    if r1.Some? && r2.Some? {
      LexLessTotal(r1.value, r2.value);
    }
  }

  /**
   * With the same qualifying positions both strategies find something or
   * both find nothing; the nearest is never farther than the first match,
   * and never scanned after it.
   */
  lemma FirstVersusNearest(drag: Vec, ok: Vec -> bool, dist: Vec -> real, first: Option<Vec>, near: Option<Vec>)
    requires FirstMatch(drag, ok, first) && Nearest(drag, ok, dist, near)
    ensures first.Some? <==> near.Some?
    ensures first.Some? ==> dist(near.value) <= dist(first.value)
    ensures first.Some? ==> near.value == first.value || LexLess(first.value, near.value)
  {
    if first.Some? && near.Some? {
      LexLessTotal(first.value, near.value);
    }
  }
}
