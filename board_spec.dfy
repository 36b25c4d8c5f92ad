/**
 * The board as a value: which positions hold a cell and which cells hold a
 * block, with the placement, line and clearing rules of CellManager and
 * ShapeCheckPos stated as functions over it.
 */
module BoardSpec {
  import opened Wrappers
  import opened Geometry

  /** Identity of a placed block (one child of a spawned piece). */
  type Block = nat

  /**
   * The occupancy of every cell the grid dictionary holds: `None` for an empty
   * cell, `Some(b)` for a cell occupied by block `b`. A position that is not a
   * key has no cell at all.
   */
  type Board = map<Vec, Option<Block>>

  predicate HasBlockAt(g: Board, p: Vec) {
    p in g && g[p].Some?
  }

  /** A cell that lies on the grid, exists, and holds no block. */
  predicate FreeCell(g: Board, p: Vec) {
    InGrid(p) && p in g && g[p].None?
  }

  /** Every grid position has a cell. */
  ghost predicate CompleteBoard(g: Board) {
    forall p :: InGrid(p) ==> p in g
  }

  // ---------------------------------------------------------------------------
  // Placement
  // ---------------------------------------------------------------------------

  /**
   * CellManager's placement rule: a pattern that is present and non-empty,
   * every one of whose targets (anchor + offset) is a free cell.
   */
  predicate CanPlaceAt(g: Board, pattern: Option<seq<Vec>>, anchor: Vec) {
    pattern.Some? && |pattern.value| > 0 &&
    forall i :: 0 <= i < |pattern.value| ==> FreeCell(g, anchor.Plus(pattern.value[i]))
  }

  /** Some anchor inside the 8 x 8 grid admits the pattern. */
  predicate FitsAnywhere(g: Board, pattern: Option<seq<Vec>>) {
    exists x, y :: 0 <= x < GridSize && 0 <= y < GridSize && CanPlaceAt(g, pattern, Vec(x, y))
  }

  /**
   * The snapping rule of the drag controller: a present, non-empty pattern
   * whose targets all lie on the grid and none of which holds a block. A
   * target without a cell counts as free here.
   */
  predicate SnapFits(g: Board, pattern: Option<seq<Vec>>, anchor: Vec) {
    pattern.Some? && |pattern.value| > 0 &&
    forall i :: 0 <= i < |pattern.value| ==>
      InGrid(anchor.Plus(pattern.value[i])) && !HasBlockAt(g, anchor.Plus(pattern.value[i]))
  }

  /** Whatever CellManager accepts, the snapping rule accepts too. */
  lemma PlaceImpliesSnap(g: Board, pattern: Option<seq<Vec>>, anchor: Vec)
    requires CanPlaceAt(g, pattern, anchor)
    ensures SnapFits(g, pattern, anchor)
  {
  }

  /** On a board with all 64 cells the two rules agree. */
  lemma SnapIffPlaceOnCompleteBoard(g: Board, pattern: Option<seq<Vec>>, anchor: Vec)
    requires CompleteBoard(g)
    ensures SnapFits(g, pattern, anchor) <==> CanPlaceAt(g, pattern, anchor)
  {
    if SnapFits(g, pattern, anchor) {
      forall i | 0 <= i < |pattern.value|
        ensures FreeCell(g, anchor.Plus(pattern.value[i]))
      {
        assert InGrid(anchor.Plus(pattern.value[i]));
      }
    }
  }

  /**
   * Where a grid position has no cell, the drag controller snaps a one-cell
   * piece onto it although CellManager refuses the same placement.
   */
  lemma MissingCellSnapsButIsRefused(g: Board, anchor: Vec)
    requires InGrid(anchor) && anchor !in g
    ensures SnapFits(g, Some([Vec(0, 0)]), anchor)
    ensures !CanPlaceAt(g, Some([Vec(0, 0)]), anchor)
  {
    assert anchor.Plus([Vec(0, 0)][0]) == anchor;
  }

  /** Every grid position holds a block. */
  ghost predicate BoardFull(g: Board) {
    forall p :: InGrid(p) ==> HasBlockAt(g, p)
  }

  /** On a full board no pattern fits anywhere. */
  lemma NothingFitsOnFullBoard(g: Board, pattern: Option<seq<Vec>>)
    requires BoardFull(g)
    ensures !FitsAnywhere(g, pattern)
  {
    forall x, y | 0 <= x < GridSize && 0 <= y < GridSize
      ensures !CanPlaceAt(g, pattern, Vec(x, y))
    {
      if pattern.Some? && |pattern.value| > 0 {
        var t := Vec(x, y).Plus(pattern.value[0]);
        if InGrid(t) {
          assert HasBlockAt(g, t);
        }
      }
    }
  }

  /** `h` has at least the free cells of `g`. */
  ghost predicate FreesAtLeast(g: Board, h: Board) {
    forall p :: FreeCell(g, p) ==> FreeCell(h, p)
  }

  /** Freeing cells never turns a fitting pattern into one that does not fit. */
  lemma FitsMonotone(g: Board, h: Board, pattern: Option<seq<Vec>>)
    requires FreesAtLeast(g, h)
    requires FitsAnywhere(g, pattern)
    ensures FitsAnywhere(h, pattern)
  {
    var x, y :| 0 <= x < GridSize && 0 <= y < GridSize && CanPlaceAt(g, pattern, Vec(x, y));
    assert CanPlaceAt(h, pattern, Vec(x, y));
  }

  // ---------------------------------------------------------------------------
  // Lines
  // ---------------------------------------------------------------------------

  /** A row is indexed by y, a column by x. */
  datatype Axis = Row | Column

  /** The k-th cell of line n: row n holds (k, n), column n holds (n, k). */
  function LineCell(axis: Axis, n: int, k: int): Vec {
    if axis == Row then Vec(k, n) else Vec(n, k)
  }

  /** All eight cells of the line exist and hold a block. */
  predicate LineFull(g: Board, axis: Axis, n: int) {
    forall k :: 0 <= k < GridSize ==> HasBlockAt(g, LineCell(axis, n, k))
  }

  /** The full lines among 0 .. n-1, in increasing order. */
  function FullLinesBelow(g: Board, axis: Axis, n: nat): seq<int>
  {
    if n == 0 then []
    else FullLinesBelow(g, axis, n - 1) + (if LineFull(g, axis, n - 1) then [n - 1] else [])
  }

  /** The full rows (or columns) of the board, in increasing order. */
  function FullLines(g: Board, axis: Axis): seq<int> {
    FullLinesBelow(g, axis, GridSize)
  }

  /**
   * A line is listed exactly when it is below n and full; the list is
   * strictly increasing and so holds at most n lines.
   */
  lemma {:induction false} FullLinesBelowSpec(g: Board, axis: Axis, n: nat)
    ensures forall m :: m in FullLinesBelow(g, axis, n) <==> 0 <= m < n && LineFull(g, axis, m)
    ensures forall i, j :: 0 <= i < j < |FullLinesBelow(g, axis, n)| ==>
      FullLinesBelow(g, axis, n)[i] < FullLinesBelow(g, axis, n)[j]
    ensures |FullLinesBelow(g, axis, n)| <= n
  {
    if n > 0 {
      FullLinesBelowSpec(g, axis, n - 1);
      var s := FullLinesBelow(g, axis, n - 1);
      assert forall i :: 0 <= i < |s| ==> s[i] in s;
    }
  }

  /** With no full line below n the list is empty. */
  lemma {:induction false} NoFullLinesBelow(g: Board, axis: Axis, n: nat)
    requires forall m :: 0 <= m < n ==> !LineFull(g, axis, m)
    ensures FullLinesBelow(g, axis, n) == []
  {
    if n > 0 {
      NoFullLinesBelow(g, axis, n - 1);
    }
  }

  /** Number of full rows plus number of full columns. */
  function FullLineCount(g: Board): nat {
    |FullLines(g, Row)| + |FullLines(g, Column)|
  }

  /** At most 8 rows and 8 columns can be full at once. */
  lemma FullLineCountBound(g: Board)
    ensures FullLineCount(g) <= 2 * GridSize
  {
    FullLinesBelowSpec(g, Row, GridSize);
    FullLinesBelowSpec(g, Column, GridSize);
  }

  // ---------------------------------------------------------------------------
  // Clearing
  // ---------------------------------------------------------------------------

  /** The position is one of the eight cells of a listed row or a listed column. */
  predicate OnLines(p: Vec, rows: seq<int>, cols: seq<int>) {
    (0 <= p.x < GridSize && p.y in rows) || (0 <= p.y < GridSize && p.x in cols)
  }

  /**
   * The board after emptying every existing cell of the listed rows and
   * columns; positions without a cell stay without one.
   */
  function ClearLines(g: Board, rows: seq<int>, cols: seq<int>): (h: Board)
    ensures h.Keys == g.Keys
  {
    map p | p in g :: if OnLines(p, rows, cols) then None else g[p]
  }

  /** Clearing in two rounds is clearing the union of the lines at once. */
  lemma ClearLinesCompose(g: Board, rows: seq<int>, cols: seq<int>, rows2: seq<int>, cols2: seq<int>)
    ensures ClearLines(ClearLines(g, rows, cols), rows2, cols2) == ClearLines(g, rows + rows2, cols + cols2)
  {
  }

  /** The lists that name just line n of the given axis. */
  function JustRow(axis: Axis, n: int): seq<int> { if axis == Row then [n] else [] }
  function JustColumn(axis: Axis, n: int): seq<int> { if axis == Column then [n] else [] }

  /** The first k cells of line n, emptied where they exist. */
  function ClearSegment(g: Board, axis: Axis, n: int, k: int): (h: Board)
    ensures h.Keys == g.Keys
  {
    map p | p in g :: if (exists j :: 0 <= j < k && p == LineCell(axis, n, j)) then None else g[p]
  }

  /** One more cell of the segment: the k-th cell is emptied where it exists. */
  lemma ClearSegmentStep(g: Board, axis: Axis, n: int, k: nat)
    ensures LineCell(axis, n, k) in g ==>
      ClearSegment(g, axis, n, k + 1) == ClearSegment(g, axis, n, k)[LineCell(axis, n, k) := None]
    ensures LineCell(axis, n, k) !in g ==> ClearSegment(g, axis, n, k + 1) == ClearSegment(g, axis, n, k)
  {
    var t := LineCell(axis, n, k);
    forall p | p in g && p != t
      ensures ClearSegment(g, axis, n, k + 1)[p] == ClearSegment(g, axis, n, k)[p]
    {
      if exists j :: 0 <= j < k + 1 && p == LineCell(axis, n, j) {
        var j :| 0 <= j < k + 1 && p == LineCell(axis, n, j);
        assert j != k;
      }
    }
  }

  /** Clearing all eight cells of line n one by one is clearing that line. */
  lemma ClearWholeSegment(g: Board, axis: Axis, n: int)
    ensures ClearSegment(g, axis, n, GridSize) == ClearLines(g, JustRow(axis, n), JustColumn(axis, n))
  {
    forall p | p in g
      ensures ClearSegment(g, axis, n, GridSize)[p] == ClearLines(g, JustRow(axis, n), JustColumn(axis, n))[p]
    {
      if OnLines(p, JustRow(axis, n), JustColumn(axis, n)) {
        var j := if axis == Row then p.x else p.y;
        assert p == LineCell(axis, n, j);
      }
    }
  }

  /** Clearing no line changes nothing. */
  lemma ClearNothing(g: Board)
    ensures ClearLines(g, [], []) == g
  {
  }

  /** The board after one CheckAndClearFullLines: every line full beforehand is emptied. */
  function ClearFullLines(g: Board): Board {
    ClearLines(g, FullLines(g, Row), FullLines(g, Column))
  }

  /** The cell lies on the grid, in a full row or a full column. */
  predicate OnFullLine(g: Board, p: Vec) {
    InGrid(p) && (LineFull(g, Row, p.y) || LineFull(g, Column, p.x))
  }

  /**
   * Clearing empties exactly the cells of the lines that were full, keeps
   * every other cell as it was, and keeps the set of cells.
   */
  lemma ClearFullLinesEffect(g: Board, p: Vec)
    requires p in g
    ensures p in ClearFullLines(g)
    ensures OnFullLine(g, p) ==> ClearFullLines(g)[p] == None
    ensures !OnFullLine(g, p) ==> ClearFullLines(g)[p] == g[p]
  {
    FullLinesBelowSpec(g, Row, GridSize);
    FullLinesBelowSpec(g, Column, GridSize);
  }

  /** Clearing never takes a free cell away, so whatever fitted still fits. */
  lemma ClearingKeepsFreeCells(g: Board)
    ensures FreesAtLeast(g, ClearFullLines(g))
  {
    forall p | FreeCell(g, p)
      ensures FreeCell(ClearFullLines(g), p)
    {
      ClearFullLinesEffect(g, p);
    }
  }

  /** After clearing, no row and no column of the grid is full. */
  lemma NoFullLineAfterClear(g: Board, axis: Axis, n: int)
    requires 0 <= n < GridSize
    ensures !LineFull(ClearFullLines(g), axis, n)
  {
    var h := ClearFullLines(g);
    if LineFull(g, axis, n) {
      var p := LineCell(axis, n, 0);
      assert HasBlockAt(g, p);
      ClearFullLinesEffect(g, p);
      assert !HasBlockAt(h, p);
    } else {
      var k :| 0 <= k < GridSize && !HasBlockAt(g, LineCell(axis, n, k));
      var p := LineCell(axis, n, k);
      if p in g {
        ClearFullLinesEffect(g, p);
      }
      assert !HasBlockAt(h, p);
    }
  }

  /** A board with no full line is left as it is and scores no line. */
  lemma NoFullLinesNoChange(g: Board)
    requires forall n :: 0 <= n < GridSize ==> !LineFull(g, Row, n) && !LineFull(g, Column, n)
    ensures FullLineCount(g) == 0
    ensures ClearFullLines(g) == g
  {
    NoFullLinesBelow(g, Row, GridSize);
    NoFullLinesBelow(g, Column, GridSize);
  }

  /** Clearing twice is clearing once, and the second round finds no line. */
  lemma ClearFullLinesIdempotent(g: Board)
    ensures FullLineCount(ClearFullLines(g)) == 0
    ensures ClearFullLines(ClearFullLines(g)) == ClearFullLines(g)
  {
    var h := ClearFullLines(g);
    forall n | 0 <= n < GridSize
      ensures !LineFull(h, Row, n) && !LineFull(h, Column, n)
    {
      NoFullLineAfterClear(g, Row, n);
      NoFullLineAfterClear(g, Column, n);
    }
    NoFullLinesNoChange(h);
  }
}
