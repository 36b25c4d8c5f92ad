/**
 * Integer grid coordinates (Unity's Vector2Int) and the two ways the game
 * normalises the cells of a piece: by independent minima of x and y
 * (SpawnManager.BlockShape.GetNormalizedCells, the older ShapeCheckPos) and by
 * the lexicographically least cell (the newer Shape/ShapeCheckPos).
 */
module Geometry {

  /** A grid position or an offset between two grid positions. */
  datatype Vec = Vec(x: int, y: int) {
    function Plus(o: Vec): Vec { Vec(x + o.x, y + o.y) }
    function Minus(o: Vec): Vec { Vec(x - o.x, y - o.y) }
  }

  /** The board is GridSize x GridSize cells. */
  const GridSize: nat := 8

  predicate InGrid(p: Vec) {
    0 <= p.x < GridSize && 0 <= p.y < GridSize
  }

  function Min(a: int, b: int): int { if a <= b then a else b }

  // ---------------------------------------------------------------------------
  // Independent minima
  // ---------------------------------------------------------------------------

  /** The least x among the cells, folded from the left as the source's loop does. */
  function MinX(ps: seq<Vec>): int
    requires |ps| > 0
  {
    if |ps| == 1 then ps[0].x else Min(MinX(ps[..|ps| - 1]), ps[|ps| - 1].x)
  }

  /** The least y among the cells, folded from the left as the source's loop does. */
  function MinY(ps: seq<Vec>): int
    requires |ps| > 0
  {
    if |ps| == 1 then ps[0].y else Min(MinY(ps[..|ps| - 1]), ps[|ps| - 1].y)
  }

  /** MinX and MinY are attained by some cell and bound every cell from below. */
  lemma {:induction false} MinimaAreLeast(ps: seq<Vec>)
    requires |ps| > 0
    ensures forall i :: 0 <= i < |ps| ==> MinX(ps) <= ps[i].x && MinY(ps) <= ps[i].y
    ensures exists i :: 0 <= i < |ps| && ps[i].x == MinX(ps)
    ensures exists j :: 0 <= j < |ps| && ps[j].y == MinY(ps)
  {
    if |ps| == 1 {
      assert ps[0].x == MinX(ps) && ps[0].y == MinY(ps);
    } else {
      var n := |ps| - 1;
      var init := ps[..n];
      MinimaAreLeast(init);
      assert forall i :: 0 <= i < |init| ==> init[i] == ps[i];
      assert MinX(ps) == Min(MinX(init), ps[n].x) && MinY(ps) == Min(MinY(init), ps[n].y);
      var i :| 0 <= i < |init| && init[i].x == MinX(init);
      var j :| 0 <= j < |init| && init[j].y == MinY(init);
      var ix := if ps[n].x < MinX(init) then n else i;
      var jy := if ps[n].y < MinY(init) then n else j;
      assert ps[ix].x == MinX(ps);
      assert ps[jy].y == MinY(ps);
    }
  }

  /** Every cell moved by `-d`, in order. */
  function Shift(ps: seq<Vec>, d: Vec): (r: seq<Vec>)
    ensures |r| == |ps|
    ensures forall i :: 0 <= i < |ps| ==> r[i] == ps[i].Minus(d)
  {
    seq(|ps|, i requires 0 <= i < |ps| => ps[i].Minus(d))
  }

  /** Every cell shifted by the same (MinX, MinY). */
  function Normalize(ps: seq<Vec>): seq<Vec>
  {
    if |ps| == 0 then [] else Shift(ps, Vec(MinX(ps), MinY(ps)))
  }

  /**
   * Normalising keeps length and order, shifts every cell by one common
   * vector, leaves every coordinate non-negative, and puts the minimum of
   * each axis at exactly 0.
   */
  lemma NormalizeShape(ps: seq<Vec>)
    requires |ps| > 0
    ensures |Normalize(ps)| == |ps|
    ensures forall i :: 0 <= i < |ps| ==> Normalize(ps)[i] == ps[i].Minus(Vec(MinX(ps), MinY(ps)))
    ensures forall i :: 0 <= i < |ps| ==> Normalize(ps)[i].x >= 0 && Normalize(ps)[i].y >= 0
    ensures exists i :: 0 <= i < |ps| && Normalize(ps)[i].x == 0
    ensures exists j :: 0 <= j < |ps| && Normalize(ps)[j].y == 0
  {
    MinimaAreLeast(ps);
    var i :| 0 <= i < |ps| && ps[i].x == MinX(ps);
    var j :| 0 <= j < |ps| && ps[j].y == MinY(ps);
    assert Normalize(ps)[i].x == 0;
    assert Normalize(ps)[j].y == 0;
  }

  // ---------------------------------------------------------------------------
  // Lexicographic anchor
  // ---------------------------------------------------------------------------

  /** `a` comes strictly before `b`: smaller x, ties broken by smaller y. */
  predicate LexLess(a: Vec, b: Vec) {
    a.x < b.x || (a.x == b.x && a.y < b.y)
  }

  /**
   * The lexicographically least cell, folded from the left: a later cell
   * replaces the current one only when it is strictly smaller.
   */
  function LexMin(ps: seq<Vec>): Vec
    requires |ps| > 0
  {
    if |ps| == 1 then ps[0]
    else
      var m := LexMin(ps[..|ps| - 1]);
      if LexLess(ps[|ps| - 1], m) then ps[|ps| - 1] else m
  }

  /** LexMin is one of the cells and no cell is lexicographically smaller. */
  lemma {:induction false} LexMinIsLeast(ps: seq<Vec>)
    requires |ps| > 0
    ensures LexMin(ps) in ps
    ensures forall i :: 0 <= i < |ps| ==> !LexLess(ps[i], LexMin(ps))
  {
    if |ps| > 1 {
      var init := ps[..|ps| - 1];
      LexMinIsLeast(init);
      assert forall i :: 0 <= i < |init| ==> init[i] == ps[i];
    }
  }

  /** Every cell minus the lexicographically least one; empty stays empty. */
  function AnchorNormalize(ps: seq<Vec>): seq<Vec>
  {
    if |ps| == 0 then [] else Shift(ps, LexMin(ps))
  }

  /**
   * Anchoring keeps length and order and shifts every cell by the anchor;
   * the anchor becomes (0, 0); every offset has dx >= 0, and dx == 0 forces
   * dy >= 0 (dy may be negative when dx > 0).
   */
  lemma AnchorNormalizeShape(ps: seq<Vec>)
    ensures |AnchorNormalize(ps)| == |ps|
    ensures |ps| > 0 ==> forall i :: 0 <= i < |ps| ==> AnchorNormalize(ps)[i] == ps[i].Minus(LexMin(ps))
    ensures |ps| > 0 ==> Vec(0, 0) in AnchorNormalize(ps)
    ensures forall i :: 0 <= i < |ps| ==>
      AnchorNormalize(ps)[i].x >= 0 && (AnchorNormalize(ps)[i].x == 0 ==> AnchorNormalize(ps)[i].y >= 0)
  {
    if |ps| > 0 {
      LexMinIsLeast(ps);
      var k :| 0 <= k < |ps| && ps[k] == LexMin(ps);
      assert AnchorNormalize(ps)[k] == Vec(0, 0);
    }
  }

  /**
   * A cell to the right of the anchor and below it keeps a negative dy:
   * the lexicographic anchor does not make offsets non-negative on both axes
   * (the plus shape's (0,1), (1,0) is such a pair).
   */
  lemma AnchoredOffsetMayBeNegative(a: Vec, b: Vec)
    requires a.x < b.x && b.y < a.y
    ensures AnchorNormalize([a, b]) == [Vec(0, 0), Vec(b.x - a.x, b.y - a.y)]
    ensures AnchorNormalize([a, b])[1].y < 0
  {
    assert [a, b][..1] == [a];
    assert LexMin([a, b]) == a;
  }

  /**
   * Both normalisations translate the same cells, so they differ by one
   * constant vector: the independently normalised offset of the lexicographic
   * anchor.
   */
  lemma NormalizationsDifferByTranslation(ps: seq<Vec>)
    requires |ps| > 0
    ensures exists k :: 0 <= k < |ps| && TranslatedBy(AnchorNormalize(ps), Normalize(ps), Normalize(ps)[k])
  {
    LexMinIsLeast(ps);
    var k :| 0 <= k < |ps| && ps[k] == LexMin(ps);
    var m := Vec(MinX(ps), MinY(ps));
    assert Normalize(ps)[k] == LexMin(ps).Minus(m);
    forall i | 0 <= i < |ps|
      ensures Normalize(ps)[i] == AnchorNormalize(ps)[i].Plus(Normalize(ps)[k])
    {
      assert Normalize(ps)[i] == ps[i].Minus(m);
      assert AnchorNormalize(ps)[i] == ps[i].Minus(LexMin(ps));
    }
  }

  /** `b` is `a` with every cell moved by `d`. */
  predicate TranslatedBy(a: seq<Vec>, b: seq<Vec>, d: Vec) {
    |a| == |b| && forall i :: 0 <= i < |a| ==> b[i] == a[i].Plus(d)
  }
}
