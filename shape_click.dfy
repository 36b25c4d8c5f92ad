/**
 * Dropping a piece: once the snap completes, each child block is written to
 * the cell under it, and then the full lines are cleared.
 */
module Placement {
  import opened Wrappers
  import opened Geometry
  import opened BoardSpec
  import opened CellGrid
  import opened ShapeCheck

  /** Target of block i: the highlighted anchor plus the i-th offset. */
  function Target(anchor: Vec, pattern: seq<Vec>, i: nat): Vec
    requires i < |pattern|
  {
    anchor.Plus(pattern[i])
  }

  /**
   * The board after the first n steps of the write loop: block i goes to
   * its target when a cell exists there and is skipped otherwise.
   */
  function AssignPrefix(g: Board, anchor: Vec, pattern: seq<Vec>, blocks: seq<Block>, n: nat): (h: Board)
    requires n <= |pattern| && n <= |blocks|
    ensures h.Keys == g.Keys
  {
    if n == 0 then g
    else
      var h := AssignPrefix(g, anchor, pattern, blocks, n - 1);
      var t := Target(anchor, pattern, n - 1);
      if t in h then h[t := Some(blocks[n - 1])] else h
  }

  /**
   * The whole write: nothing without a highlighted anchor, nothing when the
   * pattern is missing or does not have one offset per child block.
   */
  function AssignOutcome(g: Board, highlighted: Option<Vec>, pattern: Option<seq<Vec>>, blocks: seq<Block>): Board {
    if highlighted.None? || pattern.None? || |pattern.value| != |blocks| then g
    else AssignPrefix(g, highlighted.value, pattern.value, blocks, |blocks|)
  }

  /** A cell that is no block's target keeps its occupant. */
  lemma {:induction false} AssignPrefixOthers(g: Board, anchor: Vec, pattern: seq<Vec>, blocks: seq<Block>, n: nat, p: Vec)
    requires n <= |pattern| && n <= |blocks|
    requires p in g && forall i :: 0 <= i < n ==> Target(anchor, pattern, i) != p
    ensures AssignPrefix(g, anchor, pattern, blocks, n)[p] == g[p]
  {
    if n > 0 {
      AssignPrefixOthers(g, anchor, pattern, blocks, n - 1, p);
      assert Target(anchor, pattern, n - 1) != p;
    }
  }

  /** The offsets name pairwise distinct targets. */
  predicate DistinctOffsets(pattern: seq<Vec>) {
    forall i, j :: 0 <= i < j < |pattern| ==> pattern[i] != pattern[j]
  }

  /**
   * With distinct offsets, every target that has a cell ends up holding
   * its own block, whatever happened to the other targets.
   */
  lemma {:induction false} AssignPrefixTargets(g: Board, anchor: Vec, pattern: seq<Vec>, blocks: seq<Block>, n: nat, i: nat)
    requires n <= |pattern| && n <= |blocks| && DistinctOffsets(pattern)
    requires i < n && Target(anchor, pattern, i) in g
    ensures AssignPrefix(g, anchor, pattern, blocks, n)[Target(anchor, pattern, i)] == Some(blocks[i])
  {
    if i < n - 1 {
      AssignPrefixTargets(g, anchor, pattern, blocks, n - 1, i);
      assert Target(anchor, pattern, n - 1) != Target(anchor, pattern, i);
    }
  }

  /**
   * The write is not all-or-nothing: a target without a cell is skipped
   * while a target with a cell still receives its block.
   */
  lemma PartialWrite(g: Board, anchor: Vec, pattern: seq<Vec>, blocks: seq<Block>, i: nat, j: nat)
    requires |pattern| == |blocks| && DistinctOffsets(pattern)
    requires i < |pattern| && j < |pattern|
    requires Target(anchor, pattern, i) in g && Target(anchor, pattern, j) !in g
    ensures AssignOutcome(g, Some(anchor), Some(pattern), blocks)[Target(anchor, pattern, i)] == Some(blocks[i])
    ensures Target(anchor, pattern, j) !in AssignOutcome(g, Some(anchor), Some(pattern), blocks)
  {
    AssignPrefixTargets(g, anchor, pattern, blocks, |blocks|, i);
  }

  /**
   * A placement CellManager accepts fills each target with its block and
   * changes no other cell; every target was free before.
   */
  lemma AcceptedPlacementFillsTargets(g: Board, anchor: Vec, pattern: seq<Vec>, blocks: seq<Block>)
    requires |pattern| == |blocks| && DistinctOffsets(pattern)
    requires CanPlaceAt(g, Some(pattern), anchor)
    ensures AssignOutcome(g, Some(anchor), Some(pattern), blocks).Keys == g.Keys
    ensures forall i :: 0 <= i < |pattern| ==>
      g[Target(anchor, pattern, i)] == None &&
      AssignOutcome(g, Some(anchor), Some(pattern), blocks)[Target(anchor, pattern, i)] == Some(blocks[i])
    ensures forall p :: p in g && (forall i :: 0 <= i < |pattern| ==> Target(anchor, pattern, i) != p) ==>
      AssignOutcome(g, Some(anchor), Some(pattern), blocks)[p] == g[p]
  {
    forall i | 0 <= i < |pattern|
      ensures AssignOutcome(g, Some(anchor), Some(pattern), blocks)[Target(anchor, pattern, i)] == Some(blocks[i])
    {
      assert FreeCell(g, anchor.Plus(pattern[i]));
      AssignPrefixTargets(g, anchor, pattern, blocks, |blocks|, i);
    }
    forall p | p in g && (forall i :: 0 <= i < |pattern| ==> Target(anchor, pattern, i) != p)
      ensures AssignOutcome(g, Some(anchor), Some(pattern), blocks)[p] == g[p]
    {
      AssignPrefixOthers(g, anchor, pattern, blocks, |blocks|, p);
    }
  }

  /**
   * Why the write comes before the clear: a line whose every cell is either
   * already occupied or a target of an accepted placement is full once the
   * piece is written, so the clear that follows removes it.
   */
  lemma CompletedLineIsCleared(g: Board, anchor: Vec, pattern: seq<Vec>, blocks: seq<Block>, axis: Axis, n: int)
    requires |pattern| == |blocks| && DistinctOffsets(pattern)
    requires CanPlaceAt(g, Some(pattern), anchor)
    requires 0 <= n < GridSize
    requires forall k :: 0 <= k < GridSize ==>
      HasBlockAt(g, LineCell(axis, n, k)) || exists i :: 0 <= i < |pattern| && Target(anchor, pattern, i) == LineCell(axis, n, k)
    ensures n in FullLines(AssignOutcome(g, Some(anchor), Some(pattern), blocks), axis)
  {
    var h := AssignOutcome(g, Some(anchor), Some(pattern), blocks);
    AcceptedPlacementFillsTargets(g, anchor, pattern, blocks);
    forall k | 0 <= k < GridSize
      ensures HasBlockAt(h, LineCell(axis, n, k))
    {
      var p := LineCell(axis, n, k);
      if exists i :: 0 <= i < |pattern| && Target(anchor, pattern, i) == p {
        var i :| 0 <= i < |pattern| && Target(anchor, pattern, i) == p;
        assert h[p] == Some(blocks[i]);
      } else {
        AssignPrefixOthers(g, anchor, pattern, blocks, |blocks|, p);
      }
    }
    FullLinesBelowSpec(h, axis, GridSize);
  }

  /** The pointer-and-drag controller of one spawned piece. */
  class ShapeClick {
    /** The piece's drag controller; null when the component is missing. */
    const shapeCheckPos: ShapeCheckPos?
    /** The child blocks of the piece, in transform order. */
    var children: seq<Block>

    constructor (checkPos: ShapeCheckPos?, blocks: seq<Block>)
      ensures shapeCheckPos == checkPos && children == blocks
    {
      shapeCheckPos := checkPos;
      children := blocks;
    }

    /** The anchor the drag controller highlights, None without a controller. */
    function Highlighted(): Option<Vec>
      reads this, shapeCheckPos
    {
      if shapeCheckPos == null then None else shapeCheckPos.currentHighlightedGrid
    }

    /** The drag controller's pattern, None without a controller. */
    function Pattern(): Option<seq<Vec>>
      reads this, shapeCheckPos
    {
      if shapeCheckPos == null then None else shapeCheckPos.shapePattern
    }

    /** Writes child block i to the cell at anchor + pattern[i], skipping targets without a cell. */
    method AssignBlocksToCells(cm: CellManager)
      requires cm.Valid()
      modifies cm.gridDict.Values
      ensures cm.Snapshot() == AssignOutcome(old(cm.Snapshot()), Highlighted(), Pattern(), children)
    {
      if shapeCheckPos == null || shapeCheckPos.currentHighlightedGrid.None? {
        return;
      }
      var anchor := shapeCheckPos.currentHighlightedGrid.value;
      var blockChildren := children;
      var pattern := shapeCheckPos.shapePattern;
      if pattern.None? || |pattern.value| != |blockChildren| {
        return;
      }
      var ps := pattern.value;
      ghost var g0 := cm.Snapshot();
      var i := 0;
      while i < |blockChildren| && i < |ps|
        invariant 0 <= i <= |blockChildren|
        invariant cm.Snapshot() == AssignPrefix(g0, anchor, ps, blockChildren, i)
      {
        var gridPos := anchor.Plus(ps[i]);
        cm.SetOccupantAt(gridPos, blockChildren[i]);
        i := i + 1;
      }
    }

    /**
     * The end of the snap animation: the blocks are written first and the
     * full lines of the resulting board are cleared afterwards.
     */
    method OnSnapComplete(cm: CellManager) returns (clearedLines: int)
      requires cm.Valid()
      modifies cm.gridDict.Values
      ensures var written := AssignOutcome(old(cm.Snapshot()), Highlighted(), Pattern(), children);
        cm.Snapshot() == ClearFullLines(written) && clearedLines == FullLineCount(written)
    {
      AssignBlocksToCells(cm);
      clearedLines := cm.CheckAndClearFullLines();
    }

    /** Releasing the piece: only a completed snap touches the board. */
    method Release(snapped: bool, cm: CellManager) returns (clearedLines: int)
      requires cm.Valid()
      modifies cm.gridDict.Values
      ensures !snapped ==> cm.Snapshot() == old(cm.Snapshot()) && clearedLines == 0
      ensures snapped ==>
        var written := AssignOutcome(old(cm.Snapshot()), Highlighted(), Pattern(), children);
        cm.Snapshot() == ClearFullLines(written) && clearedLines == FullLineCount(written)
    {
      clearedLines := 0;
      if snapped {
        clearedLines := OnSnapComplete(cm);
      }
    }
  }
}
