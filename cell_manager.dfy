/**
 * The board singleton: a dictionary from grid position to Cell object, with
 * the placement queries and the line clearing that run after every drop.
 */
module CellGrid {
  import opened Wrappers
  import opened Geometry
  import opened BoardSpec
  import opened CellModel

  class CellManager {
    /** Grid position -> cell. Positions without a key have no cell. */
    var gridDict: map<Vec, Cell>

    /** Each Cell object sits at one position only. */
    ghost predicate Valid()
      reads this
    {
      forall p, q :: p in gridDict && q in gridDict && p != q ==> gridDict[p] != gridDict[q]
    }

    /** The occupancy of every cell, as a value. */
    function Snapshot(): (g: Board)
      reads this, gridDict.Values
      ensures g.Keys == gridDict.Keys
    {
      map p | p in gridDict :: gridDict[p].occupyingBlock
    }

    /** The grid built from a dictionary of distinct cells. */
    constructor (cells: map<Vec, Cell>)
      requires forall p, q :: p in cells && q in cells && p != q ==> cells[p] != cells[q]
      ensures gridDict == cells
      ensures Valid()
    {
      gridDict := cells;
    }

    /** The cell at a position, or None when the dictionary has no such key. */
    function GetCellAt(p: Vec): (c: Option<Cell>)
      reads this
      ensures c.Some? <==> p in gridDict
      ensures c.Some? ==> c.value == gridDict[p]
    {
      if p in gridDict then Some(gridDict[p]) else None
    }

    /** Decides CanPlaceAt: present non-empty pattern, every target on the grid, existing and empty. */
    method CanPlaceShapeAt(pattern: Option<seq<Vec>>, anchor: Vec) returns (ok: bool)
      ensures ok == CanPlaceAt(Snapshot(), pattern, anchor)
    {
      if pattern.None? || |pattern.value| == 0 {
        return false;
      }
      var ps := pattern.value;
      var i := 0;
      while i < |ps|
        invariant 0 <= i <= |ps|
        invariant forall j :: 0 <= j < i ==> FreeCell(Snapshot(), anchor.Plus(ps[j]))
      {
        var t := anchor.Plus(ps[i]);
        if t.x < 0 || t.x >= GridSize || t.y < 0 || t.y >= GridSize {
          return false;
        }
        var c := GetCellAt(t);
        if c.Some? {
          if c.value.HasBlock() {
            return false;
          }
        } else {
          return false;
        }
        i := i + 1;
      }
      return true;
    }

    /** Decides FitsAnywhere by trying every anchor, x outer and y inner. */
    method CanShapeFitAnywhere(pattern: Option<seq<Vec>>) returns (ok: bool)
      ensures ok == FitsAnywhere(Snapshot(), pattern)
    {
      if pattern.None? || |pattern.value| == 0 {
        return false;
      }
      var x := 0;
      while x < GridSize
        invariant 0 <= x <= GridSize
        invariant forall a, b :: 0 <= a < x && 0 <= b < GridSize ==> !CanPlaceAt(Snapshot(), pattern, Vec(a, b))
      {
        var y := 0;
        while y < GridSize
          invariant 0 <= y <= GridSize
          invariant forall a, b :: 0 <= a < x && 0 <= b < GridSize ==> !CanPlaceAt(Snapshot(), pattern, Vec(a, b))
          invariant forall b :: 0 <= b < y ==> !CanPlaceAt(Snapshot(), pattern, Vec(x, b))
        {
          var fits := CanPlaceShapeAt(pattern, Vec(x, y));
          if fits {
            return true;
          }
          y := y + 1;
        }
        x := x + 1;
      }
      return false;
    }

    /**
     * The full lines of one axis in increasing order: for each line, the
     * scan stops at the first cell that is missing or empty.
     */
    method CollectFullLines(axis: Axis) returns (lines: seq<int>)
      ensures lines == FullLines(Snapshot(), axis)
    {
      lines := [];
      var n := 0;
      while n < GridSize
        invariant 0 <= n <= GridSize
        invariant lines == FullLinesBelow(Snapshot(), axis, n)
      {
        var full := true;
        var k := 0;
        while k < GridSize
          invariant 0 <= k <= GridSize
          invariant full ==> forall j :: 0 <= j < k ==> HasBlockAt(Snapshot(), LineCell(axis, n, j))
          invariant !full ==> !LineFull(Snapshot(), axis, n)
        {
          var c := GetCellAt(LineCell(axis, n, k));
          if c.None? || !c.value.HasBlock() {
            full := false;
            break;
          }
          k := k + 1;
        }
        if full {
          lines := lines + [n];
        }
        n := n + 1;
      }
    }

    /** TryGetValue followed by ClearBlock: the cell at t, if there is one, becomes empty. */
    method ClearCellAt(t: Vec)
      requires Valid()
      modifies gridDict.Values
      ensures t in gridDict ==> Snapshot() == old(Snapshot())[t := None]
      ensures t !in gridDict ==> Snapshot() == old(Snapshot())
    {
      var c := GetCellAt(t);
      if c.Some? {
        c.value.ClearBlock();
        assert forall p :: p in gridDict && p != t ==> gridDict[p] != c.value;
      }
    }

    /** GetCellAt followed by SetOccupyingBlock: the cell at t, if there is one, takes block b. */
    method SetOccupantAt(t: Vec, b: Block)
      requires Valid()
      modifies gridDict.Values
      ensures t in gridDict ==> Snapshot() == old(Snapshot())[t := Some(b)]
      ensures t !in gridDict ==> Snapshot() == old(Snapshot())
    {
      var c := GetCellAt(t);
      if c.Some? {
        c.value.SetOccupyingBlock(Some(b));
        assert forall p :: p in gridDict && p != t ==> gridDict[p] != c.value;
      }
    }

    /** Empties every existing cell of line n; nothing else changes. */
    method ClearLine(axis: Axis, n: int)
      requires Valid()
      modifies gridDict.Values
      ensures Snapshot() == ClearLines(old(Snapshot()), JustRow(axis, n), JustColumn(axis, n))
    {
      ghost var g0 := Snapshot();
      var k := 0;
      while k < GridSize
        invariant 0 <= k <= GridSize
        invariant Snapshot() == ClearSegment(g0, axis, n, k)
      {
        var t := LineCell(axis, n, k);
        ClearSegmentStep(g0, axis, n, k);
        ClearCellAt(t);
        k := k + 1;
      }
      ClearWholeSegment(g0, axis, n);
    }

    /** Empties every existing cell of row `row`. */
    method ClearRow(row: int)
      requires Valid()
      modifies gridDict.Values
      ensures Snapshot() == ClearLines(old(Snapshot()), [row], [])
    {
      ClearLine(Row, row);
    }

    /** Empties every existing cell of column `col`. */
    method ClearColumn(col: int)
      requires Valid()
      modifies gridDict.Values
      ensures Snapshot() == ClearLines(old(Snapshot()), [], [col])
    {
      ClearLine(Column, col);
    }

    /** The clearing loop over the full rows: each listed row is emptied in turn. */
    method ClearRows(rows: seq<int>)
      requires Valid()
      modifies gridDict.Values
      ensures Snapshot() == ClearLines(old(Snapshot()), rows, [])
    {
      ghost var g0 := Snapshot();
      ClearNothing(g0);
      var i := 0;
      while i < |rows|
        invariant 0 <= i <= |rows|
        invariant Snapshot() == ClearLines(g0, rows[..i], [])
      {
        ClearRow(rows[i]);
        ClearLinesCompose(g0, rows[..i], [], [rows[i]], []);
        assert rows[..i + 1] == rows[..i] + [rows[i]];
        i := i + 1;
      }
      assert rows[..i] == rows;
    }

    /** The clearing loop over the full columns: each listed column is emptied in turn. */
    method ClearColumns(cols: seq<int>)
      requires Valid()
      modifies gridDict.Values
      ensures Snapshot() == ClearLines(old(Snapshot()), [], cols)
    {
      ghost var g0 := Snapshot();
      ClearNothing(g0);
      var j := 0;
      while j < |cols|
        invariant 0 <= j <= |cols|
        invariant Snapshot() == ClearLines(g0, [], cols[..j])
      {
        ClearColumn(cols[j]);
        ClearLinesCompose(g0, [], cols[..j], [], [cols[j]]);
        assert cols[..j + 1] == cols[..j] + [cols[j]];
        j := j + 1;
      }
      assert cols[..j] == cols;
    }

    /**
     * Finds the full rows and the full columns on the board as it stands,
     * then empties the rows and then the columns, and reports how many
     * lines there were: the board becomes ClearFullLines of the old board.
     */
    method CheckAndClearFullLines() returns (cleared: int)
      requires Valid()
      modifies gridDict.Values
      ensures cleared == FullLineCount(old(Snapshot()))
      ensures Snapshot() == ClearFullLines(old(Snapshot()))
    {
      ghost var g0 := Snapshot();
      var fullRows := CollectFullLines(Row);
      var fullCols := CollectFullLines(Column);
      ClearRows(fullRows);
      ClearColumns(fullCols);
      ClearLinesCompose(g0, fullRows, [], [], fullCols);
      assert fullRows + [] == fullRows && [] + fullCols == fullCols;
      cleared := |fullRows| + |fullCols|;
    }
  }
}
