/** One square of the board, remembering the block placed on it. */
module CellModel {
  import opened Wrappers
  import opened BoardSpec

  class Cell {
    /** The block placed on this cell; `None` for an empty cell. */
    var occupyingBlock: Option<Block>

    /** A new cell is empty. */
    constructor ()
      ensures occupyingBlock == None
    {
      occupyingBlock := None;
    }

    predicate HasBlock()
      reads this
    {
      occupyingBlock.Some?
    }

    /** Empties the cell; an empty cell stays empty. */
    method ClearBlock()
      modifies this
      ensures occupyingBlock == None
      ensures !HasBlock()
    {
      if occupyingBlock.Some? {
        occupyingBlock := None;
      }
    }

    /** Records `block` as the occupant, replacing any previous one (None empties the cell). */
    method SetOccupyingBlock(block: Option<Block>)
      modifies this
      ensures occupyingBlock == block
      ensures HasBlock() <==> block.Some?
    {
      occupyingBlock := block;
    }
  }
}
