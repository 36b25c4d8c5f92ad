/**
 * The spawner: it keeps the shape catalog, spawns a batch of pieces into the
 * spawn slots and tracks how many pieces of the current batch have been
 * placed. A spawned piece is represented by its ShapeCheckPos controller;
 * null stands for a piece whose object has been destroyed.
 */
module Spawning {
  import opened Wrappers
  import opened Geometry
  import opened BoardSpec
  import opened Catalog
  import opened CellGrid
  import opened ShapeCheck

  /** The list without the first occurrence of x (List.Remove); unchanged when x is absent. */
  function RemoveFirst<T(==)>(s: seq<T>, x: T): (r: seq<T>)
    ensures x in s ==> |r| == |s| - 1
    ensures x !in s ==> r == s
  {
    if |s| == 0 then []
    else if s[0] == x then s[1..]
    else [s[0]] + RemoveFirst(s[1..], x)
  }

  /** Removing the first occurrence keeps the multiset minus one copy of x. */
  lemma {:induction false} RemoveFirstMultiset<T>(s: seq<T>, x: T)
    ensures x in s ==> multiset(RemoveFirst(s, x)) == multiset(s) - multiset{x}
    ensures forall y :: y in RemoveFirst(s, x) ==> y in s
  {
    if |s| > 0 {
      RemoveFirstMultiset(s[1..], x);
      assert s == [s[0]] + s[1..];
    }
  }

  /**
   * A batch drawn from a repaired catalog holds BatchSize shapes, each of
   * them usable and fitting the board in the anchored form its piece takes.
   */
  lemma BatchShapesFit(g: Board, c: seq<Option<BlockShape>>, piecesPerBatch: int, pick: int -> int, swap: int -> int)
    requires forall i :: 0 <= i < |c| ==> c[i].Some? && c[i].value.IsValid()
    ensures |BatchSelection(FitFilter(g, c), piecesPerBatch, pick, swap)| == BatchSize(|FitFilter(g, c)|, piecesPerBatch)
    ensures forall x :: x in BatchSelection(FitFilter(g, c), piecesPerBatch, pick, swap) ==>
      x.IsValid() && FitsAnywhere(g, Some(AnchorNormalize(x.cells.value)))
  {
    var f := FitFilter(g, c);
    BatchSelectionShape(f, piecesPerBatch, pick, swap);
    FitFilterSpec(g, c);
    forall x | x in BatchSelection(f, piecesPerBatch, pick, swap)
      ensures x.IsValid() && FitsAnywhere(g, Some(AnchorNormalize(x.cells.value)))
    {
      assert Some(x) in c;
      AnchoredShapeFits(g, x);
    }
  }

  /** No shape of a null-free catalog fits anywhere on the board. */
  predicate NoShapeFits(g: Board, c: seq<Option<BlockShape>>)
    requires forall i :: 0 <= i < |c| ==> c[i].Some?
  {
    forall i :: 0 <= i < |c| ==> !ShapeFits(g, c[i].value)
  }

  /** The fitting list is empty exactly when no catalog shape fits anywhere. */
  lemma FitFilterEmpty(g: Board, c: seq<Option<BlockShape>>)
    requires forall i :: 0 <= i < |c| ==> c[i].Some?
    ensures |FitFilter(g, c)| == 0 <==> NoShapeFits(g, c)
  {
    FitFilterSpec(g, c);
    if |FitFilter(g, c)| > 0 {
      var x := FitFilter(g, c)[0];
      assert x in FitFilter(g, c);
      var i :| 0 <= i < |c| && c[i] == Some(x);
      assert ShapeFits(g, c[i].value);
    } else {
      forall i | 0 <= i < |c|
        ensures !ShapeFits(g, c[i].value)
      {
        assert c[i] in c;
      }
    }
  }

  /** A batch is empty exactly when no catalog shape fits or the batch size is not positive. */
  lemma EmptyBatchIffNothingFits(g: Board, c: seq<Option<BlockShape>>, piecesPerBatch: int, pick: int -> int, swap: int -> int)
    requires forall i :: 0 <= i < |c| ==> c[i].Some?
    ensures BatchSelection(FitFilter(g, c), piecesPerBatch, pick, swap) == [] <==>
      NoShapeFits(g, c) || piecesPerBatch <= 0
  {
    FitFilterEmpty(g, c);
    BatchSelectionShape(FitFilter(g, c), piecesPerBatch, pick, swap);
  }

  class SpawnManager {
    /** The serialized catalog; entries may be null or invalid until repaired. */
    var shapes: seq<Option<BlockShape>>
    /** The pieces of the current batch still waiting to be placed. */
    var currentBatchPieces: seq<ShapeCheckPos?>
    var piecesPlacedInBatch: int
    const piecesPerBatch: int
    /** Number of spawn slots; 0 also stands for an unset slot array. */
    const spawnSlotCount: nat
    /** Whether the piece prefab is assigned. */
    const hasPrefab: bool
    const cellManager: CellManager

    constructor (catalog: seq<Option<BlockShape>>, perBatch: int, slots: nat, prefab: bool, cm: CellManager)
      ensures shapes == catalog && currentBatchPieces == [] && piecesPlacedInBatch == 0
      ensures piecesPerBatch == perBatch && spawnSlotCount == slots && hasPrefab == prefab && cellManager == cm
    {
      shapes := catalog;
      currentBatchPieces := [];
      piecesPlacedInBatch := 0;
      piecesPerBatch := perBatch;
      spawnSlotCount := slots;
      hasPrefab := prefab;
      cellManager := cm;
    }

    /** Piece i shows shape sel[i], anchored, for as many shapes as there are slots. */
    ghost predicate ShowsBatch(sel: seq<BlockShape>)
      reads this, currentBatchPieces
    {
      |currentBatchPieces| == Min(|sel|, spawnSlotCount) &&
      forall i :: 0 <= i < |currentBatchPieces| ==>
        currentBatchPieces[i] != null &&
        currentBatchPieces[i].cellManager == cellManager &&
        currentBatchPieces[i].currentHighlightedGrid == None &&
        currentBatchPieces[i].shapePattern == Some(AnchorNormalize(sel[i].cells.GetOr([])))
    }

    /**
     * The state SpawnBatch leaves, given the catalog it started from: nothing
     * spawned without slots or prefab; otherwise a repaired catalog and one
     * piece per selected shape of the batch drawn from what fits.
     */
    ghost predicate SpawnedFrom(catalog: seq<Option<BlockShape>>, pick: int -> int, swap: int -> int)
      reads this, currentBatchPieces, cellManager, cellManager.gridDict.Values
    {
      piecesPlacedInBatch == 0 &&
      if spawnSlotCount == 0 || !hasPrefab then
        shapes == catalog && currentBatchPieces == []
      else
        shapes == EnsuredCatalog(catalog) &&
        (forall i :: 0 <= i < |shapes| ==> shapes[i].Some?) &&
        ShowsBatch(BatchSelection(FitFilter(cellManager.Snapshot(), shapes), piecesPerBatch, pick, swap))
    }

    /** Drops null and invalid entries in place, keeping order; falls back to the defaults when none is left. */
    method EnsureShapeCatalog()
      modifies this
      ensures shapes == EnsuredCatalog(old(shapes))
      ensures currentBatchPieces == old(currentBatchPieces) && piecesPlacedInBatch == old(piecesPlacedInBatch)
    {
      ghost var s := shapes;
      var i := |shapes| - 1;
      while i >= 0
        invariant -1 <= i < |s|
        invariant shapes == s[..i + 1] + ValidEntries(s[i + 1..])
        invariant currentBatchPieces == old(currentBatchPieces) && piecesPlacedInBatch == old(piecesPlacedInBatch)
      {
        assert s[i..][1..] == s[i + 1..];
        assert shapes[i] == s[i];
        if shapes[i].None? || !shapes[i].value.IsValid() {
          shapes := shapes[..i] + shapes[i + 1..];
          assert shapes == s[..i] + ValidEntries(s[i..]);
        } else {
          assert shapes == s[..i] + ValidEntries(s[i..]);
        }
        i := i - 1;
      }
      assert s[0..] == s;
      if |shapes| > 0 {
        return;
      }
      shapes := CreateDefaultShapes();
    }

    /** The catalog shapes whose normalised cells fit somewhere, in catalog order. */
    method FindShapesThatFit() returns (fittingShapes: seq<BlockShape>)
      requires forall i :: 0 <= i < |shapes| ==> shapes[i].Some?
      ensures fittingShapes == FitFilter(cellManager.Snapshot(), shapes)
    {
      ghost var g := cellManager.Snapshot();
      var catalog := shapes;
      fittingShapes := [];
      var i := 0;
      while i < |catalog|
        invariant 0 <= i <= |catalog|
        invariant fittingShapes == FitFilter(g, catalog[..i])
      {
        var shape := catalog[i].value;
        var normalizedCells := shape.GetNormalizedCells();
        var fits := cellManager.CanShapeFitAnywhere(normalizedCells);
        FitFilterStep(g, catalog, i);
        if fits {
          fittingShapes := fittingShapes + [shape];
        }
        i := i + 1;
      }
      assert catalog[..i] == catalog;
    }

    /** Whether some remaining, non-destroyed piece still fits somewhere; false means game over. */
    method CheckRemainingShapesCanFit() returns (anyCanFit: bool)
      ensures anyCanFit <==>
        (exists i :: 0 <= i < |currentBatchPieces| && currentBatchPieces[i] != null &&
          FitsAnywhere(cellManager.Snapshot(), currentBatchPieces[i].shapePattern))
    {
      anyCanFit := false;
      var i := 0;
      while i < |currentBatchPieces|
        invariant 0 <= i <= |currentBatchPieces|
        invariant forall j :: 0 <= j < i && currentBatchPieces[j] != null ==>
          !FitsAnywhere(cellManager.Snapshot(), currentBatchPieces[j].shapePattern)
      {
        var piece := currentBatchPieces[i];
        if piece != null {
          var fits := cellManager.CanShapeFitAnywhere(piece.shapePattern);
          if fits {
            anyCanFit := true;
            return;
          }
        }
        i := i + 1;
      }
    }

    /**
     * Discards the current batch and, given slots and a prefab, repairs the
     * catalog, draws a batch from the shapes that fit and spawns one piece
     * per slot. Every spawned piece fits the board; nothing is spawned when
     * no shape fits.
     */
    method SpawnBatch(pick: int -> int, swap: int -> int)
      modifies this
      ensures SpawnedFrom(old(shapes), pick, swap)
      ensures forall i :: 0 <= i < |currentBatchPieces| ==> fresh(currentBatchPieces[i])
      ensures forall i :: 0 <= i < |currentBatchPieces| ==>
        currentBatchPieces[i] != null && FitsAnywhere(cellManager.Snapshot(), currentBatchPieces[i].shapePattern)
    {
      currentBatchPieces := [];
      piecesPlacedInBatch := 0;
      if spawnSlotCount == 0 {
        return;
      }
      if !hasPrefab {
        return;
      }
      EnsureShapeCatalog();
      EnsuredCatalogUsable(old(shapes));
      SpawnFromCatalog(pick, swap);
    }

    /**
     * Draws a batch from the catalog shapes that fit and spawns its pieces;
     * every spawned piece fits the board, and none is spawned when no shape fits.
     */
    method SpawnFromCatalog(pick: int -> int, swap: int -> int)
      requires forall i :: 0 <= i < |shapes| ==> shapes[i].Some? && shapes[i].value.IsValid()
      requires currentBatchPieces == []
      modifies this
      ensures shapes == old(shapes) && piecesPlacedInBatch == old(piecesPlacedInBatch)
      ensures ShowsBatch(BatchSelection(FitFilter(cellManager.Snapshot(), shapes), piecesPerBatch, pick, swap))
      ensures forall i :: 0 <= i < |currentBatchPieces| ==> fresh(currentBatchPieces[i])
      ensures forall i :: 0 <= i < |currentBatchPieces| ==>
        currentBatchPieces[i] != null && FitsAnywhere(cellManager.Snapshot(), currentBatchPieces[i].shapePattern)
    {
      var fittingShapes := FindShapesThatFit();
      ghost var g := cellManager.Snapshot();
      BatchShapesFit(g, shapes, piecesPerBatch, pick, swap);
      if |fittingShapes| == 0 {
        assert BatchSelection(fittingShapes, piecesPerBatch, pick, swap) == [];
        return;
      }
      var selectedShapes := SelectShapesForBatch(fittingShapes, piecesPerBatch, pick, swap);
      SpawnPieces(selectedShapes);
      forall j | 0 <= j < |currentBatchPieces|
        ensures FitsAnywhere(g, currentBatchPieces[j].shapePattern)
      {
        assert selectedShapes[j] in selectedShapes;
      }
    }

    /** One new piece per selected shape, up to the number of slots, each given its shape's cells. */
    method SpawnPieces(selectedShapes: seq<BlockShape>)
      modifies this
      ensures ShowsBatch(selectedShapes)
      ensures forall i :: 0 <= i < |currentBatchPieces| ==> fresh(currentBatchPieces[i])
      ensures shapes == old(shapes) && piecesPlacedInBatch == old(piecesPlacedInBatch)
    {
      currentBatchPieces := [];
      var i := 0;
      while i < |selectedShapes| && i < spawnSlotCount
        invariant 0 <= i <= |selectedShapes| && i <= spawnSlotCount
        invariant |currentBatchPieces| == i
        invariant shapes == old(shapes) && piecesPlacedInBatch == old(piecesPlacedInBatch)
        invariant forall j :: 0 <= j < i ==>
          currentBatchPieces[j] != null && fresh(currentBatchPieces[j]) &&
          currentBatchPieces[j].cellManager == cellManager &&
          currentBatchPieces[j].currentHighlightedGrid == None &&
          currentBatchPieces[j].shapePattern == Some(AnchorNormalize(selectedShapes[j].cells.GetOr([])))
      {
        var shape := selectedShapes[i];
        var pieceRoot := new ShapeCheckPos(cellManager);
        pieceRoot.SetShapePattern(shape.cells.GetOr([]));
        currentBatchPieces := currentBatchPieces + [pieceRoot];
        i := i + 1;
      }
    }

    /**
     * A placed piece leaves the batch and the placed count goes up; if pieces
     * remain they are checked for a possible move (noneFits reports the game
     * over), and once the batch is empty the count resets and a new batch spawns.
     */
    method OnShapePlaced(placedShape: ShapeCheckPos?, pick: int -> int, swap: int -> int) returns (noneFits: bool)
      modifies this
      ensures |RemoveFirst(old(currentBatchPieces), placedShape)| > 0 ==>
        currentBatchPieces == RemoveFirst(old(currentBatchPieces), placedShape) &&
        piecesPlacedInBatch == old(piecesPlacedInBatch) + 1 && shapes == old(shapes) &&
        (noneFits <==> forall i :: 0 <= i < |currentBatchPieces| && currentBatchPieces[i] != null ==>
          !FitsAnywhere(cellManager.Snapshot(), currentBatchPieces[i].shapePattern))
      ensures |RemoveFirst(old(currentBatchPieces), placedShape)| == 0 ==>
        !noneFits && SpawnedFrom(old(shapes), pick, swap)
    {
      currentBatchPieces := RemoveFirst(currentBatchPieces, placedShape);
      piecesPlacedInBatch := piecesPlacedInBatch + 1;
      noneFits := false;
      if |currentBatchPieces| > 0 {
        var anyCanFit := CheckRemainingShapesCanFit();
        noneFits := !anyCanFit;
      }
      if |currentBatchPieces| == 0 {
        piecesPlacedInBatch := 0;
        SpawnBatch(pick, swap);
      }
    }
  }
}
