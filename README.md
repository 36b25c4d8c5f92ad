# Block-Fast core in Dafny

Block-Fast is a Unity block puzzle played on an 8 x 8 board. The spawner
offers a batch of pieces drawn from a weighted catalog, and only shapes that
still fit somewhere on the board are drawn. The player drags a piece, and its
drag controller (`ShapeCheckPos`) looks for the nearest grid position the
piece can snap to. When the piece is dropped (`ShapeClick`), its blocks are
written into the cells and every full row and column is cleared
(`CellManager`). When the last piece of a batch is placed, a new batch is
spawned. Around this loop sit:

- the scoring managers: combo, best score and score;
- two state machines, `GameStateManager` and the simpler `GameManager`;
- the level list (`LevelManager`);
- two object pools and a pool registry;
- a popup manager that draws its popups from a pool.

This project models those components in Dafny:

- **The board as a value.** `BoardSpec.Board` maps each grid position that has a cell to the block on it, if any. It carries the placement, snapping, full-line and clearing rules, with lemmas that relate them.
- **Grid objects as classes.** `CellModel.Cell` and `CellGrid.CellManager` hold the cells, and `CellManager` exposes the board through `Snapshot()`. Its loops are proved against the board functions: the placement check, the fit-anywhere search, the full-line scan and the line clearing.
- **The two drag controllers.** `ShapeCheck.ShapeCheckPos` is the live controller, in `Shape/`. It anchors a piece at its lexicographically least cell and returns the nearest snappable position. `LegacyShapeCheck.LegacyShapeCheckPos` is the older controller, in `GamePlay/`. It normalises by the separate minima of x and y and returns the first match in scan order. `SnapSearch` states both search results and relates them.
- **Dropping a piece** is `Placement.ShapeClick`.
- **Catalog and batch drawing** are in `Catalog`: repairing the catalog, filtering the fitting shapes, the weighted draw and the Fisher–Yates shuffle. The randomness is passed in as explicit draw streams.
- **The spawner** is `Spawning.SpawnManager`. Its batch is proved to contain only pieces that fit the board, for catalogs whose shapes keep their cell spacing (see "Left out").
- **Scoring** is in `Scoring`. C# 32-bit wrap-around is written out as `Wrap32`.
- **Game and level state** are in `GameStates`, `Game` and `Levels`.
- **The pools and popups** are in `PoolCore`, `Pooling`, `PoolRegistry` and `Popups`.

Conventions:

- Raised events are recorded as sequences of their arguments.
- PlayerPrefs is a field holding `Option<int>`.
- `Time.timeScale` is the field `EngineTime.Clock.timeScale`.
- Source paths below are relative to the repository root, and all lie under `Assets/Scripts/`.

## Model

| member | source | states |
|---|---|---|
| Geometry.MinimaAreLeast | Assets/Scripts/GamePlay/SpawnManager.cs:22-29 | The folded minima of x and y are each attained by some cell, and each bounds every cell from below. |
| Geometry.NormalizeShape | Assets/Scripts/GamePlay/SpawnManager.cs:30-36 | Normalising keeps length and order and shifts every cell by (minX, minY). Every coordinate becomes non-negative, and each axis has a cell at exactly 0. |
| Geometry.LexMinIsLeast | Assets/Scripts/GamePlay/Shape/ShapeCheckPos.cs:131-144 | The anchor the scan selects is one of the cells, and no cell is lexicographically smaller. |
| Geometry.AnchorNormalizeShape | Assets/Scripts/GamePlay/Shape/ShapeCheckPos.cs:130-156 | Anchoring keeps length and order, and the anchor becomes (0,0). Every offset has dx >= 0, and dx == 0 forces dy >= 0. |
| Geometry.AnchoredOffsetMayBeNegative | Assets/Scripts/GamePlay/Shape/ShapeCheckPos.cs:138-154 | A cell right of and below the anchor keeps a negative dy, so anchored offsets can be negative. |
| Geometry.NormalizationsDifferByTranslation | Assets/Scripts/GamePlay/Shape/ShapeCheckPos.cs:150-154 | The anchored pattern and the min-normalised pattern differ by one constant vector. |
| BoardSpec.PlaceImpliesSnap | Assets/Scripts/GamePlay/Cell/CellManager.cs:208-241 | Every placement CellManager accepts is also accepted by the snapping rule. |
| BoardSpec.SnapIffPlaceOnCompleteBoard | Assets/Scripts/GamePlay/Shape/ShapeCheckPos.cs:238-270 | When all 64 cells exist, the drag rule and CellManager's rule agree in both directions. |
| BoardSpec.MissingCellSnapsButIsRefused | Assets/Scripts/GamePlay/Cell/CellManager.cs:225-236 | At a grid position without a cell, the drag rule snaps a one-cell piece that CellManager refuses. |
| BoardSpec.NothingFitsOnFullBoard | Assets/Scripts/GamePlay/Cell/CellManager.cs:184-205 | On a board where every cell is occupied, no pattern fits anywhere. |
| BoardSpec.FitsMonotone | Assets/Scripts/GamePlay/Cell/CellManager.cs:184-205 | Freeing cells never turns a fitting pattern into a non-fitting one. |
| BoardSpec.FullLinesBelowSpec | Assets/Scripts/GamePlay/Cell/CellManager.cs:102-131 | A line is listed if and only if it is full. The list is strictly increasing and has at most n entries. |
| BoardSpec.NoFullLinesBelow | Assets/Scripts/GamePlay/Cell/CellManager.cs:102-131 | With no full line, the list is empty. |
| BoardSpec.FullLineCountBound | Assets/Scripts/GamePlay/Cell/CellManager.cs:145-152 | At most 16 lines can be cleared at once. |
| BoardSpec.ClearLinesCompose | Assets/Scripts/GamePlay/Cell/CellManager.cs:134-143 | Clearing in two rounds equals clearing the union of the lines. |
| BoardSpec.ClearSegmentStep | Assets/Scripts/GamePlay/Cell/CellManager.cs:156-167 | One more step of the row loop empties the k-th cell where it exists. |
| BoardSpec.ClearWholeSegment | Assets/Scripts/GamePlay/Cell/CellManager.cs:170-181 | The eight steps of the loop clear exactly that line. |
| BoardSpec.ClearNothing | Assets/Scripts/GamePlay/Cell/CellManager.cs:134-143 | Clearing no line changes nothing. |
| BoardSpec.ClearFullLinesEffect | Assets/Scripts/GamePlay/Cell/CellManager.cs:94-153 | Clearing empties exactly the cells of lines that were full. Every other cell keeps its occupant, and no cell is removed. |
| BoardSpec.ClearingKeepsFreeCells | Assets/Scripts/GamePlay/Cell/CellManager.cs:94-153 | Clearing never takes away a free cell. |
| BoardSpec.NoFullLineAfterClear | Assets/Scripts/GamePlay/Cell/CellManager.cs:94-153 | After clearing, no row and no column is full. |
| BoardSpec.NoFullLinesNoChange | Assets/Scripts/GamePlay/Cell/CellManager.cs:145-152 | A board with no full line is left unchanged and reports 0 lines. |
| BoardSpec.ClearFullLinesIdempotent | Assets/Scripts/GamePlay/Cell/CellManager.cs:94-153 | A second clear finds no line and changes nothing. |
| CellModel.Cell.ClearBlock | Assets/Scripts/GamePlay/Cell/Cell.cs:17-49 | The cell becomes empty, and an empty cell stays empty. |
| CellModel.Cell.SetOccupyingBlock | Assets/Scripts/GamePlay/Cell/Cell.cs:60-83 | The block becomes the cell's occupant, replacing any previous one. |
| CellGrid.CellManager.GetCellAt | Assets/Scripts/GamePlay/Cell/CellManager.cs:75-84 | Returns a cell exactly when the dictionary has the key, and that cell is the dictionary's entry. |
| CellGrid.CellManager.CanPlaceShapeAt | Assets/Scripts/GamePlay/Cell/CellManager.cs:208-241 | Returns true exactly when the pattern is present and non-empty and every target is on the grid, exists and is empty. |
| CellGrid.CellManager.CanShapeFitAnywhere | Assets/Scripts/GamePlay/Cell/CellManager.cs:184-205 | Returns true exactly when some anchor in 0..7 x 0..7 admits the pattern. |
| CellGrid.CellManager.CollectFullLines | Assets/Scripts/GamePlay/Cell/CellManager.cs:102-131 | Returns exactly the full lines of the axis, in increasing order. |
| CellGrid.CellManager.ClearCellAt | Assets/Scripts/GamePlay/Cell/CellManager.cs:160-165 | The cell at t, if any, becomes empty, and nothing else changes. |
| CellGrid.CellManager.SetOccupantAt | Assets/Scripts/GamePlay/ShapeClick.cs:135-144 | The cell at t, if any, takes the block, and nothing else changes. |
| CellGrid.CellManager.ClearLine | Assets/Scripts/GamePlay/Cell/CellManager.cs:156-181 | The board becomes the old board with that line cleared. |
| CellGrid.CellManager.ClearRow | Assets/Scripts/GamePlay/Cell/CellManager.cs:156-167 | The board becomes the old board with that row cleared. |
| CellGrid.CellManager.ClearColumn | Assets/Scripts/GamePlay/Cell/CellManager.cs:170-181 | The board becomes the old board with that column cleared. |
| CellGrid.CellManager.CheckAndClearFullLines | Assets/Scripts/GamePlay/Cell/CellManager.cs:94-153 | Lines are detected before anything is cleared. The board becomes ClearFullLines of the old board, and the result is the number of full rows plus full columns. |
| CellGrid.CellManager.ClearRows | Assets/Scripts/GamePlay/Cell/CellManager.cs:134-137 | Clearing the collected full rows one after another leaves the board as ClearLines of the old board over those rows. |
| CellGrid.CellManager.ClearColumns | Assets/Scripts/GamePlay/Cell/CellManager.cs:140-143 | Clearing the collected full columns one after another leaves the board as ClearLines of the old board over those columns. |
| SnapSearch.LexLessTotal | Assets/Scripts/GamePlay/Shape/ShapeCheckPos.cs:212-215 | The x-outer, y-inner scan order is a strict total order. |
| SnapSearch.FirstMatchUnique | Assets/Scripts/GamePlay/ShapeCheckPos.cs:88-114 | The first-match result is unique. |
| SnapSearch.NearestUnique | Assets/Scripts/GamePlay/Shape/ShapeCheckPos.cs:204-235 | The nearest result, with ties going to the earlier position, is unique. |
| SnapSearch.FirstVersusNearest | Assets/Scripts/GamePlay/ShapeCheckPos.cs:88-114 | With the same candidates, both searches find a position or both find none. The nearest is never farther than the first match, and never comes after it in scan order. |
| ShapeCheck.ShapeCheckPos.SetShapePattern | Assets/Scripts/GamePlay/Shape/ShapeCheckPos.cs:98-157 | The pattern is every child position minus the lexicographic anchor, whose local offset is remembered. No children gives the empty pattern and a zero offset. |
| ShapeCheck.ShapeCheckPos.CanPlaceShape | Assets/Scripts/GamePlay/Shape/ShapeCheckPos.cs:238-270 | Returns true exactly when the pattern is present and non-empty and every target is on the grid and holds no block. A target without a cell counts as free. |
| ShapeCheck.ShapeCheckPos.GetNearestSnappablePosition | Assets/Scripts/GamePlay/Shape/ShapeCheckPos.cs:204-235 | Returns the snappable position within the limit in the 5 x 5 window that is strictly nearest, ties going to the earlier position, or None when there is none. |
| ShapeCheck.ShapeCheckPos.CheckPositionAndHighlight | Assets/Scripts/GamePlay/Shape/ShapeCheckPos.cs:35-58 | The highlighted grid becomes the nearest snappable position, and the pattern and anchor are unchanged. |
| LegacyShapeCheck.LegacyAtZeroOriginIsSnapFits | Assets/Scripts/GamePlay/ShapeCheckPos.cs:131-135 | With the grid origin at (0,0), the older bounds rule is the newer one. |
| LegacyShapeCheck.LegacyShapeCheckPos.SetShapePattern | Assets/Scripts/GamePlay/ShapeCheckPos.cs:33-71 | The pattern is the child positions shifted by the separately found minima of x and y. |
| LegacyShapeCheck.LegacyShapeCheckPos.CanPlaceShape | Assets/Scripts/GamePlay/ShapeCheckPos.cs:117-149 | Returns true exactly when every target lies in the 8 x 8 frame at the origin and holds no block. |
| LegacyShapeCheck.LegacyShapeCheckPos.GetNearestSnappablePosition | Assets/Scripts/GamePlay/ShapeCheckPos.cs:88-114 | Returns the first qualifying window position in scan order, not the nearest one. |
| Placement.AssignPrefixOthers | Assets/Scripts/GamePlay/ShapeClick.cs:132-152 | A cell that is no block's target keeps its occupant. |
| Placement.AssignPrefixTargets | Assets/Scripts/GamePlay/ShapeClick.cs:132-152 | With distinct offsets, every target that has a cell ends up holding its own block. |
| Placement.PartialWrite | Assets/Scripts/GamePlay/ShapeClick.cs:135-151 | The write is not all-or-nothing: a missing cell is skipped while the other blocks are still written. |
| Placement.AcceptedPlacementFillsTargets | Assets/Scripts/GamePlay/ShapeClick.cs:107-153 | After a placement CellManager accepts, every target was free and now holds its block, and every other cell is unchanged. |
| Placement.CompletedLineIsCleared | Assets/Scripts/GamePlay/ShapeClick.cs:70-89 | A line completed by the piece is full once the piece is written, so the clear that follows removes it. |
| Placement.ShapeClick.AssignBlocksToCells | Assets/Scripts/GamePlay/ShapeClick.cs:107-153 | Without a highlight, or when the pattern length differs from the child count, nothing changes. Otherwise the board becomes the write outcome. |
| Placement.ShapeClick.OnSnapComplete | Assets/Scripts/GamePlay/ShapeClick.cs:70-89 | The board becomes the full-line clear of the written board, and the cleared count is that board's full-line count. |
| Placement.ShapeClick.Release | Assets/Scripts/GamePlay/ShapeClick.cs:59-103 | Only a completed snap changes the board. |
| Catalog.BlockShape.GetNormalizedCells | Assets/Scripts/GamePlay/SpawnManager.cs:18-37 | Null or empty cells come back unchanged, and other cells are shifted by their minima. |
| Catalog.NormalizedCellsShape | Assets/Scripts/GamePlay/SpawnManager.cs:18-37 | A valid shape's normalised cells keep their count, are non-negative, and touch 0 on both axes. |
| Catalog.ValidEntriesSpec | Assets/Scripts/GamePlay/SpawnManager.cs:293-299 | The repair keeps exactly the non-null, valid entries. |
| Catalog.ValidEntriesAppend | Assets/Scripts/GamePlay/SpawnManager.cs:293-299 | Filtering a concatenation filters each part separately. |
| Catalog.ValidEntriesIdempotent | Assets/Scripts/GamePlay/SpawnManager.cs:293-299 | Filtering twice is filtering once. |
| Catalog.DefaultShapesUsable | Assets/Scripts/GamePlay/SpawnManager.cs:312-327 | The ten default shapes are all valid, with weights between 3 and 25. |
| Catalog.EnsuredCatalogUsable | Assets/Scripts/GamePlay/SpawnManager.cs:288-310 | A repaired catalog is never empty and holds only usable entries. |
| Catalog.EnsuredCatalogIdempotent | Assets/Scripts/GamePlay/SpawnManager.cs:288-310 | Repairing a repaired catalog changes nothing. |
| Catalog.AllUsableKept | Assets/Scripts/GamePlay/SpawnManager.cs:293-299 | A catalog whose entries are all usable is its own filter. |
| Catalog.FitFilterSpec | Assets/Scripts/GamePlay/SpawnManager.cs:203-218 | A shape is in the fitting list exactly when it is in the catalog and fits somewhere. |
| Catalog.FitFilterStep | Assets/Scripts/GamePlay/SpawnManager.cs:208-215 | Looking at one more catalog entry appends it to the fitting list exactly when it fits, so the list keeps catalog order. |
| Catalog.FitFilterMonotone | Assets/Scripts/GamePlay/SpawnManager.cs:203-218 | Freeing cells never removes a shape from the fitting list. |
| Catalog.AnchoredShapeFits | Assets/Scripts/GamePlay/SpawnManager.cs:189-194 | A shape that fits in min-normalised form also fits in the anchored form its spawned piece uses. |
| Catalog.TranslatedPlacement | Assets/Scripts/GamePlay/Shape/ShapeCheckPos.cs:150-154 | Patterns that differ by a translation place the same targets from matching anchors. |
| Catalog.NextBelow | Assets/Scripts/GamePlay/SpawnManager.cs:263 | The generator's Next(bound) is in [0, bound), and 0 for a non-positive bound. |
| Catalog.WeightSumSnoc | Assets/Scripts/GamePlay/SpawnManager.cs:257-261 | Summing from the left, one more shape adds its weight. |
| Catalog.PrefixIncreasing | Assets/Scripts/GamePlay/SpawnManager.cs:264-273 | With positive weights, the running sums strictly increase. |
| Catalog.PickInWindow | Assets/Scripts/GamePlay/SpawnManager.cs:263-275 | For a draw below the total, the selected entry is the one whose cumulative window holds the draw. |
| Catalog.PickIffWindow | Assets/Scripts/GamePlay/SpawnManager.cs:263-275 | Each entry is selected exactly for the draws in its own window, in both directions. |
| Catalog.WeightedRandomSelect | Assets/Scripts/GamePlay/SpawnManager.cs:252-276 | An empty list gives null, and a single entry is returned without a draw. Otherwise the result is the entry whose window holds Next(total). |
| Catalog.SwapAtPermutes | Assets/Scripts/GamePlay/SpawnManager.cs:284 | A swap keeps the multiset of entries. |
| Catalog.ShuffleDownPermutes | Assets/Scripts/GamePlay/SpawnManager.cs:279-286 | The shuffle is a permutation. |
| Catalog.ShuffleList | Assets/Scripts/GamePlay/SpawnManager.cs:279-286 | The array becomes the Fisher–Yates shuffle of its old contents, which has the same multiset. |
| Catalog.PicksFromFitting | Assets/Scripts/GamePlay/SpawnManager.cs:221-249 | Every drawn shape comes from the fitting list. |
| Catalog.BatchSelectionShape | Assets/Scripts/GamePlay/SpawnManager.cs:221-249 | A batch has piecesPerBatch shapes when anything fits (0 otherwise), all taken from the fitting list. |
| Catalog.SelectShapesForBatch | Assets/Scripts/GamePlay/SpawnManager.cs:221-249 | The guaranteed picks and then the fill picks give the shuffled batch, of that size and taken from the fitting list. |
| Spawning.RemoveFirst | Assets/Scripts/GamePlay/SpawnManager.cs:77 | Removing a present piece shortens the list by one, and removing an absent piece changes nothing. |
| Spawning.RemoveFirstMultiset | Assets/Scripts/GamePlay/SpawnManager.cs:77 | Exactly one copy of the piece is removed, and nothing new appears. |
| Spawning.BatchShapesFit | Assets/Scripts/GamePlay/SpawnManager.cs:147-197 | Every shape of a batch drawn from a repaired catalog is valid and fits the board in its anchored form. |
| Spawning.FitFilterEmpty | Assets/Scripts/GamePlay/SpawnManager.cs:150-156 | The fitting list is empty exactly when no catalog shape fits anywhere. |
| Spawning.EmptyBatchIffNothingFits | Assets/Scripts/GamePlay/SpawnManager.cs:150-161 | A batch is empty exactly when nothing fits or piecesPerBatch is not positive. |
| Spawning.SpawnManager.EnsureShapeCatalog | Assets/Scripts/GamePlay/SpawnManager.cs:288-310 | The backward removal loop leaves the repaired catalog. |
| Spawning.SpawnManager.FindShapesThatFit | Assets/Scripts/GamePlay/SpawnManager.cs:203-218 | Returns the catalog shapes whose normalised cells fit somewhere, in catalog order. |
| Spawning.SpawnManager.CheckRemainingShapesCanFit | Assets/Scripts/GamePlay/SpawnManager.cs:98-123 | Returns true exactly when some remaining, non-destroyed piece fits somewhere. |
| Spawning.SpawnManager.SpawnBatch | Assets/Scripts/GamePlay/SpawnManager.cs:125-200 | Without slots or prefab, nothing is spawned. Otherwise the catalog is repaired and one piece is spawned per drawn shape and slot. Every spawned piece fits the board. |
| Spawning.SpawnManager.SpawnFromCatalog | Assets/Scripts/GamePlay/SpawnManager.cs:150-197 | From a repaired catalog, the pieces show the batch drawn from the fitting shapes, each piece is new and fits the board, and the catalog is unchanged. |
| Spawning.SpawnManager.SpawnPieces | Assets/Scripts/GamePlay/SpawnManager.cs:163-197 | Piece i is a new controller holding shape i's anchored pattern, for as many shapes as there are slots. |
| Spawning.SpawnManager.OnShapePlaced | Assets/Scripts/GamePlay/SpawnManager.cs:75-95 | The placed piece leaves the batch and the count rises. Remaining pieces are checked for a move, and an emptied batch triggers a fresh spawn. |
| Scoring.Wrap32 | Assets/Scripts/GamePlay/Manager/ScoreManager.cs:18-20 | The result is congruent to the input modulo 2^32 and equals it when it is in range. |
| Scoring.NextCombo | Assets/Scripts/GamePlay/Manager/ComboManager.cs:18-28 | The combo rises by one, capped at 9. |
| Scoring.Multiplier | Assets/Scripts/GamePlay/Manager/ComboManager.cs:43-46 | The multiplier is the combo, but at least 1. |
| Scoring.ComboSaturates | Assets/Scripts/GamePlay/Manager/ComboManager.cs:18-28 | n consecutive clears reach min(c + n, 9). |
| Scoring.MultiplierRange | Assets/Scripts/GamePlay/Manager/ComboManager.cs:43-46 | A combo in range gives a multiplier in 1..9. |
| Scoring.ComboManager.AddCombo | Assets/Scripts/GamePlay/Manager/ComboManager.cs:18-28 | The combo becomes NextCombo, and the event fires even at the cap. |
| Scoring.ComboManager.ResetCombo | Assets/Scripts/GamePlay/Manager/ComboManager.cs:31-40 | The combo becomes 0, and 0 is announced only when it was positive. |
| Scoring.ComboManager.GetComboMultiplier | Assets/Scripts/GamePlay/Manager/ComboManager.cs:43-46 | Returns the multiplier of the current combo, which is in 1..9. |
| Scoring.BestScoreManager.constructor | Assets/Scripts/GamePlay/Manager/BestScoreManager.cs:15-26 | The best score is the stored value, or 0 when nothing is stored. |
| Scoring.BestScoreManager.CheckAndUpdateBestScore | Assets/Scripts/GamePlay/Manager/BestScoreManager.cs:29-40 | The best becomes the maximum of itself and the score. Only a strict improvement is stored and announced. |
| Scoring.BestScoreManager.ResetBestScore | Assets/Scripts/GamePlay/Manager/BestScoreManager.cs:43-49 | The best becomes 0 and the stored key is deleted. |
| Scoring.BlockScoreExact | Assets/Scripts/GamePlay/Manager/ScoreManager.cs:15-27 | Without overflow, placing blocks adds count times multiplier, so a non-negative count never lowers the score. |
| Scoring.LineScoreExact | Assets/Scripts/GamePlay/Manager/ScoreManager.cs:30-42 | For a non-negative line count without overflow, clearing lines adds count times 8 times multiplier, which never lowers the score. |
| Scoring.ScoreManager.AddBlockScore | Assets/Scripts/GamePlay/Manager/ScoreManager.cs:15-27 | The score increases by count (one by default) times multiplier, in 32-bit arithmetic, and is announced. The best score becomes the larger of itself and the new score. Only a strict improvement is stored and announced as a best score; otherwise the stored value and the best-score events stay. |
| Scoring.ScoreManager.AddClearLineScore | Assets/Scripts/GamePlay/Manager/ScoreManager.cs:30-42 | The score increases by count (one by default) times 8 times multiplier, in 32-bit arithmetic, and is announced. The best score becomes the larger of itself and the new score. Only a strict improvement is stored and announced as a best score; otherwise the stored value and the best-score events stay. |
| Scoring.ScoreManager.ResetScore | Assets/Scripts/GamePlay/Manager/ScoreManager.cs:45-50 | The score becomes 0 and 0 is announced. |
| GameStates.LeavingPauseElsewhereStaysPaused | Assets/Scripts/Manager/GameStateManager.cs:53-62 | Moving from Paused to a phase other than Playing leaves the game paused. |
| GameStates.GameStateManager.constructor | Assets/Scripts/Manager/GameStateManager.cs:132-136 | The manager starts in Menu, unpaused, with time running. |
| GameStates.GameStateManager.SetPaused | Assets/Scripts/Manager/GameStateManager.cs:76-86 | A change of the flag sets the time scale from the new flag and is announced once. Setting the same value changes neither the time scale nor the events. |
| GameStates.ScaleAfterKeepsSync | Assets/Scripts/Manager/GameStateManager.cs:76-86 | A time scale that matched the old flag matches the new flag after SetPaused. |
| GameStates.ScaleAfterChangeSyncs | Assets/Scripts/Manager/GameStateManager.cs:76-86 | A change of the flag sets the time scale to match the new flag, whatever it was before, and raises exactly one event. |
| GameStates.GameStateManager.TogglePause | Assets/Scripts/Manager/GameStateManager.cs:68-71 | The flag flips, the time scale follows, and the change is announced. |
| GameStates.GameStateManager.SetState | Assets/Scripts/Manager/GameStateManager.cs:43-63 | A new phase is entered, the old one is remembered, and the change is announced. The pause flag follows PausedAfter, and the pause events and time scale follow a flag change as SetPaused makes them. Entering the same phase changes nothing. |
| GameStates.GameStateManager.ReturnToMenu | Assets/Scripts/Manager/GameStateManager.cs:91-95 | The manager ends in Menu, unpaused. A change of the flag is announced and sets the time scale; otherwise the time scale stays. When the manager was not already in Menu, the old phase is remembered and the change announced; otherwise the previous phase and the state events stay. |
| GameStates.GameStateManager.StartLevel | Assets/Scripts/Manager/GameStateManager.cs:100-104 | The manager ends in Playing, unpaused. A change of the flag is announced and sets the time scale; otherwise the time scale stays. When the manager was not already in Playing, the old phase is remembered and the change announced; otherwise the previous phase and the state events stay. |
| GameStates.GameStateManager.LevelComplete | Assets/Scripts/Manager/GameStateManager.cs:109-113 | The manager ends in LevelComplete, paused. A change of the flag is announced and sets the time scale; otherwise the time scale stays. When the manager was not already in LevelComplete, the old phase is remembered and the change announced; otherwise the previous phase and the state events stay. |
| GameStates.GameStateManager.GameOver | Assets/Scripts/Manager/GameStateManager.cs:118-122 | The manager ends in GameOver, paused. A change of the flag is announced and sets the time scale; otherwise the time scale stays. When the manager was not already in GameOver, the old phase is remembered and the change announced; otherwise the previous phase and the state events stay. |
| Game.TimeRunsOnlyInMenuAndPlay | Assets/Scripts/Manager/GameManager.cs:21-42 | The time scale is 1 exactly in Menu and Playing, and 0 otherwise. |
| Game.GameManager.SetGameState | Assets/Scripts/Manager/GameManager.cs:15-20 | A new phase sets its time scale. Entering the same phase leaves the time scale alone. |
| Game.GameManager.OnGameStateChanged | Assets/Scripts/Manager/GameManager.cs:21-42 | The time scale becomes the phase's scale. |
| Game.GameManager.PauseGame | Assets/Scripts/Manager/GameManager.cs:43-47 | Only Playing moves to Paused and stops time. |
| Game.GameManager.ResumeGame | Assets/Scripts/Manager/GameManager.cs:48-52 | Only Paused moves to Playing and restarts time. |
| Game.GameManager.EndGame | Assets/Scripts/Manager/GameManager.cs:53-56 | The manager ends in GameOver. Time stops when the phase changed; when it was already GameOver the time scale is untouched. |
| Game.GameManager.CompleteLevel | Assets/Scripts/Manager/GameManager.cs:57-60 | The manager ends in LevelComplete. Time stops when the phase changed; when it was already LevelComplete the time scale is untouched. |
| Levels.NextIndex | Assets/Scripts/Manager/LevelManager.cs:68-79 | A valid index advances to a valid index. |
| Levels.AdvanceAdd | Assets/Scripts/Manager/LevelManager.cs:68-79 | Advancing a times and then b times equals advancing a + b times. |
| Levels.AdvanceCountsUp | Assets/Scripts/Manager/LevelManager.cs:70-73 | Below the last index, advancing just counts up. |
| Levels.AdvanceCycles | Assets/Scripts/Manager/LevelManager.cs:68-79 | Advancing `count` times returns to the start, so levels repeat in a cycle. |
| Levels.LevelManager.constructor | Assets/Scripts/Manager/LevelManager.cs:35-43 | The manager starts at index 0, with level 0 loaded and announced when there is one. |
| Levels.LevelManager.CurrentLevel | Assets/Scripts/Manager/LevelManager.cs:30 | Once a level is loaded, the 1-based number is in 1..count. |
| Levels.LevelManager.LoadLevel | Assets/Scripts/Manager/LevelManager.cs:48-63 | An index in range is loaded and announced, and any other index changes nothing. |
| Levels.LevelManager.NextLevel | Assets/Scripts/Manager/LevelManager.cs:68-79 | The level at NextIndex is loaded and announced: the next one, or the first after the last. When that index does not exist (no levels) nothing changes. The completed and failed events stay. |
| Levels.LevelManager.RestartLevel | Assets/Scripts/Manager/LevelManager.cs:84-87 | When the current index exists, its level is loaded and announced again; otherwise nothing changes. The index and the completed and failed events stay. |
| Levels.LevelManager.CompleteLevel | Assets/Scripts/Manager/LevelManager.cs:92-96 | The current index is announced as completed. The level, the index and the loaded and failed events stay. |
| Levels.LevelManager.FailLevel | Assets/Scripts/Manager/LevelManager.cs:101-105 | The current index is announced as failed. The level, the index and the loaded and completed events stay. |
| Levels.LevelManager.JumpToLevel | Assets/Scripts/Manager/LevelManager.cs:110-113 | An existing 1-based number n becomes the current level and index n - 1 is announced as loaded, as LoadLevel(n - 1) does. Any other number changes nothing. The completed and failed events stay. |
| Levels.LevelManager.GetLevelData | Assets/Scripts/Manager/LevelManager.cs:118-126 | Returns the level for a number in 1..count, and null otherwise. |
| Levels.LoadedLevelIsCurrent | Assets/Scripts/Manager/LevelManager.cs:30-33 | Looking up the current number gives the loaded level, and IsLastLevel means the index is count - 1. |
| PoolCore.ObjectPool.constructor | Assets/Scripts/Core/ObjectPool/ObjectPool.cs:17-28 | The constructor prewarms max(0, size) fresh clones numbered 0, 1, … into the queue, ten by default. The name defaults to the type name plus "Pool". |
| PoolCore.ObjectPool.CreateNewObject | Assets/Scripts/Core/ObjectPool/ObjectPool.cs:72-85 | A fresh clone, numbered by the total count, is enqueued. |
| PoolCore.ObjectPool.Spawn | Assets/Scripts/Core/ObjectPool/ObjectPool.cs:30-46 | Hands out the front of the queue and makes it active. From an empty queue, the new object ends up both queued and active. |
| PoolCore.ObjectPool.SpawnCorrected | Assets/Scripts/Core/ObjectPool/ObjectPool.cs:30-46 | The intended spawn: the queue and the active set stay separate. |
| PoolCore.ObjectPool.Despawn | Assets/Scripts/Core/ObjectPool/ObjectPool.cs:50-70 | An active object goes back to the end of the queue. Null or an inactive object changes nothing. The new pool state is AfterDespawn of the old one. |
| PoolCore.AfterDespawnShape | Assets/Scripts/Core/ObjectPool/ObjectPool.cs:50-70 | Despawning activates nothing, keeps the old queue as a prefix, leaves the object inactive, and keeps the total count. |
| PoolCore.TwoSpawnsFromEmptyPoolShareAnObject | Assets/Scripts/Core/ObjectPool/ObjectPool.cs:32 | Two spawns from an empty queue hand out the same object. |
| PoolCore.TwoCorrectedSpawnsAreDistinct | Assets/Scripts/Core/ObjectPool/ObjectPool.cs:32 | With the corrected spawn, the two objects are different. |
| Pooling.MembersAppend | Assets/Scripts/Core/ObjectPool/ObjectPooling.cs:111-118 | Enqueuing adds exactly that object to the queue's members. |
| Pooling.ObjectPooling.constructor | Assets/Scripts/Core/ObjectPool/ObjectPooling.cs:18-26 | The size is clamped at 0 and that many fresh clones are prewarmed, five by default. |
| Pooling.ObjectPooling.PrewarmPool | Assets/Scripts/Core/ObjectPool/ObjectPooling.cs:31-37 | initialSize fresh clones are appended to the queue, and the old queue is kept. |
| Pooling.ObjectPooling.CreateNewObject | Assets/Scripts/Core/ObjectPool/ObjectPooling.cs:42-59 | A fresh clone is numbered by the total count, and only a pooling call enqueues it. |
| Pooling.ObjectPooling.Spawn | Assets/Scripts/Core/ObjectPool/ObjectPooling.cs:64-81 | Hands out the front of the queue, or a new object that is not queued. The queue and the active set stay separate. |
| Pooling.ObjectPooling.Despawn | Assets/Scripts/Core/ObjectPool/ObjectPooling.cs:86-106 | An active object goes back to the queue and the total count is kept. Null or an inactive object changes nothing. |
| Pooling.ObjectPooling.DespawnAll | Assets/Scripts/Core/ObjectPool/ObjectPooling.cs:111-118 | No object stays active. The old queue is kept as a prefix, and exactly the old active objects are appended. |
| Pooling.ObjectPooling.Clear | Assets/Scripts/Core/ObjectPool/ObjectPooling.cs:123-137 | The queue and the active set become empty. |
| PoolRegistry.PoolManager.GetPool | Assets/Scripts/Manager/PoolManager.cs:32-41 | Returns the registered pool, or null for an unknown name or another element type. |
| PoolRegistry.PoolManager.CreatePool | Assets/Scripts/Manager/PoolManager.cs:14-27 | A known name returns its pool (null on a type mismatch) and creates nothing. A new name registers a fresh pool of the given size, five by default. |
| PoolRegistry.PoolManager.DestroyPool | Assets/Scripts/Manager/PoolManager.cs:46-53 | The name is unregistered if present, and nothing else changes. |
| PoolRegistry.PoolManager.ClearAllPools | Assets/Scripts/Manager/PoolManager.cs:58-62 | No pool stays registered. |
| Popups.UIManager.ShowPopup | Assets/Scripts/Manager/UIManager.cs:47-75 | A type already shown returns its popup and changes nothing. Otherwise the pool spawns a popup: the queue front, which leaves the queue, or, for an empty queue, a new popup that stays queued. It becomes active, is pushed, is recorded under the type, and is announced. |
| Popups.UIManager.HidePopup | Assets/Scripts/Manager/UIManager.cs:80-101 | The type's record is removed, and the popup is popped only if it is on top. The pool becomes AfterDespawn of the old pool for that popup, and the hiding is announced. An inactive type changes nothing. |
| Popups.UIManager.HideAllPopups | Assets/Scripts/Manager/UIManager.cs:106-119 | The stack and every record become empty. The pool becomes AfterHideAll of the old pool and stack: every live popup is despawned, top first. |
| Popups.AfterHideAllShape | Assets/Scripts/Manager/UIManager.cs:106-119 | After hiding every popup, no live popup of the old stack is active, nothing was activated, and the old queue is a prefix of the new one. |
| Popups.UIManager.HideTopPopup | Assets/Scripts/Manager/UIManager.cs:124-136 | Pops at most one popup, removing the record under that popup's runtime type. The pool becomes AfterDespawn of the old pool for it. An empty stack changes nothing. |
| Popups.HideTopLeavesStaleRecord | Assets/Scripts/Manager/UIManager.cs:128-133 | A popup shown under a type other than its runtime type stays recorded as active after HideTopPopup. |

## Left out

- Float geometry is not modelled: WorldToGrid, GridToWorld, cell-size inference (CalculateGridOrigin, ComputeShapeCellSize), Vector3 distances and the float.MaxValue initial distance. A piece's children are given directly as grid positions. Distance is a function parameter `dist`, and the snap limit is a parameter `limit`.
- BuildGridDictionary and the lazy construction of the grid dictionary are not modelled. CellManager starts from a dictionary of distinct cells. The drag controllers read the same dictionary, so the two dictionaries they would build are assumed to agree.
- The CellManager editor list members are not modelled: AddCell, GetCells, EditCell, FindCell, RemoveCell and GetGridPosition. They only edit the serialized cell list.
- ShapeSnap is not part of this model. ShapeClick's snap result is the parameter `snapped`.
- Pointer input, tweens, audio (the "Drop", "Clear1" and combo sounds), Debug logging, sprites, highlights, SetActive, transforms, re-parenting, Destroy and IPoolable/PopupBase hooks are left out. They are presentation, not state.
- ShapeClick has no scoring and never calls SpawnManager.OnShapePlaced in the source (the scoring is a TODO). The model keeps these apart in the same way.
- Randomness is modelled as draw streams. `pick(k)` is the raw value behind the k-th weighted draw, and `swap(i)` the one behind shuffle step i. How these draws interleave with the sprite draws in SpawnBatch is not modelled, and neither are the sprites.
- WeightedRandomSelect with a negative total weight makes Next throw in the source. NextBelow returns 0 instead.
- Catalog.WeightSum is an unbounded sum. The source's `int` total and running sum wrap at 32 bits, which only catalogs whose weights add up to 2^31 or more reach.
- Spawning.SpawnManager.SpawnPieces gives each piece its catalog cells, anchored. In the source the spawner places the children 1.2 units apart, and the controller divides their positions by the smallest positive gap between children (ComputeShapeCellSize). A shape whose smallest positive coordinate difference is above 1, such as [(0,0), (2,0)], is therefore compressed, here to [(0,0), (1,0)], and FindShapesThatFit tested the uncompressed cells. The fit guarantee of Spawning.SpawnManager.SpawnBatch, Spawning.SpawnManager.SpawnFromCatalog and Spawning.BatchShapesFit holds in the source only for catalogs whose shapes have a single cell or two cells 1 apart on some axis. The ten default shapes all do.
- SpawnManager pieces are modelled by their ShapeCheckPos controller. A prefab without that component is not modelled, and destroyed pieces appear as null.
- Spawning.SpawnManager.SpawnBatch does not model destroying the old batch's objects; the list is cleared.
- The Unity singleton lifecycle (Awake, OnDestroy, duplicate destruction) is not modelled. Each manager is an object built by its constructor.
- GameStateManager.GetStateInfo, ObjectPool.GetStatus, ObjectPooling.GetStatus and UIManager.GetPoolStatus are not modelled. They only build log strings.
- UIManager.GetActivePopup is not modelled, because it is a component lookup on the engine object. A missing canvas, which leaves the popup pool null, is not modelled either.
- PlayerPrefs is modelled as the `stored` field. Disk persistence is not modelled.
- LevelData.difficulty is a `real`, so float rounding is not modelled. A null levels array is treated as an empty list.
- Spawning.RemoveFirst removes by reference equality, as List.Remove does with engine objects.
- Scoring.BlockScoreExact assumes no 32-bit overflow. The wrap-around itself is modelled by Wrap32 in AddBlockScore and AddClearLineScore.
- Scoring.LineScoreExact assumes no 32-bit overflow, for the same reason, and a non-negative line count (the only caller passes a count of cleared lines).
- Callers outside the core (CheckLoseGame, UIGamePlayManager, LosePopup, the save-game code) are not part of this model.

## Findings

| source | as written | input that shows it | evidently intended | confidence | as-written member | corrected member |
|---|---|---|---|---|---|---|
| Assets/Scripts/Core/ObjectPool/ObjectPool.cs:32,83 | Spawn takes a new object from CreateNewObject when the queue is empty. CreateNewObject always enqueues, so the spawned object is active and still queued. | An empty queue, then two Spawn calls: both return the same object. | An object made for a spawn is handed out without being enqueued, as ObjectPooling.CreateNewObject(isPooling: false) does. | high (proved on the model; not executed) | PoolCore.TwoSpawnsFromEmptyPoolShareAnObject | PoolCore.ObjectPool.SpawnCorrected |

`Popups.UIManager` keeps the as-written `Spawn`, because that is what the popup code calls.
