# L2W Part B placement and pattern engine, in Dafny

L2W is a two-phase puzzle game. In Part B the player drops two kinds of
L-shaped pieces on a square board. A right-facing block (RFB) covers 4 cells of
a 3x3 box and a left-facing block (LFB) covers 5. Pieces can be dragged and
rotated. Whenever an RFB and an LFB together form a "W" (9 cells in one of four
orientations), both pieces are flagged as a W-block. Part B ends when no further
W-block can be made.

This project models the engine behind that phase and proves properties of it:

- **Shapes and the W template** (`constants.dfy`, module `PartBConstants`).
  - The two piece shapes and the rotation angles.
  - The generator that normalises and rotates the W template four times. It is
    proved to yield exactly four distinct canonical 9-cell patterns.
- **Cell arithmetic** (`cells.dfy`, module `Cells`). The inline cell-list steps
  the source repeats are modelled once here:
  - translation;
  - normalising to the origin;
  - the row-major sort;
  - de-duplication through a map keyed by `"row:col"`.
- **Rotation and painting** (`utils.dfy`, module `PatternUtils`).
  - Quarter turns in the 3x3 box, and a piece's absolute cells.
  - Painting the board grid, where later pieces win a cell and off-board cells
    are dropped.
  - Clamping a cell to the board.
- **W-block detection** (`wblock_detection.dfy`, module `WBlockDetection`).
  - Every RFB x LFB pair is tried in board order. Repeated pair keys are skipped.
  - A pair matches when its 9 distinct cells, normalised and sorted, equal one
    of the W patterns.
  - Proved: soundness, completeness, no repeats, the first-match variant agrees
    with the list variant, and the result is invariant under translation and
    under changes of the W flag.
- **Placement validation** (`piece_validation.dfy`, module `PieceValidation`).
  - The occupancy map, in which later pieces overwrite earlier ones and the
    ignored piece is skipped.
  - Out-of-board cells are reported clamped.
  - Blocking ids are listed once each, in the order they are met.
  - "Fits anywhere" tries every rotation and every anchor that keeps the 3x3
    box on the board.
- **End of Part B** (`completion.dfy`, module `PartBCompletion`).
  - Both counters positive: the phase ends when one of the two types no longer
    fits anywhere.
  - Otherwise: the phase ends when one type is absent from the board, or when
    the W-blocks found already reach the number of possible pairs.
- **Conflict record** (`conflict.dfy`, module `PartBConflict`).
  - Holds the cells of the last rejected move, the piece being moved and the
    pieces in the way.
  - The interaction gate, and the cell sets the board highlights.
- **The Part B board component** (`session.dfy`, module `PartBSession`).
  - The piece list, the two available counters, the id counter and the hidden
    (dragged) piece. The conflict record is attached.
  - Placing, moving and rotating pieces.
  - The effect that re-flags W-block pieces.
  - The displayed grid, which blanks the piece being dragged.
  - Its invariant: every piece lies on the board, no two pieces share a cell,
    and ids are unique and were issued by the counter. Every mutator preserves
    it.
- **Game store and phase flow** (`game_state.dfy` and `l2w_game.dfy`).
  - The phase, score, level and counters.
  - The floored counter updates.
  - Which screen each phase shows, and the phase transitions.

Support files:

- `wrappers.dfy` holds `Option`.
- `types.dfy` holds the `Piece` record and `FindIndex`.
- `game_constants.dfy` holds the board side `GRID_SIZE` and the game phases.

`constants/game` and `components/game/partB/types.ts` are not part of this
model. The model therefore leaves `GRID_SIZE` unspecified apart from
`GRID_SIZE >= 3`, and takes `PieceState` to have the fields the core reads.

## Model

| member | source | states |
|---|---|---|
| PartBConstants.BlockShape | components/game/partB/constants.ts:6-20 | The RFB shape has 4 cells and the LFB shape 5, all distinct and inside the 3x3 block box |
| PartBConstants.BaseTemplate | components/game/partB/constants.ts:42-54 | The W template has 9 distinct non-negative cells, and its first four are exactly the RFB shape |
| PartBConstants.CanonicalForm | components/game/partB/constants.ts:66-70 | The normalised, sorted form of a cell list touches row 0 and column 0, is row-major sorted, and is a permutation of the normalised cells |
| PartBConstants.CanonicalDistinct | components/game/partB/constants.ts:66-70 | Normalising and sorting keeps distinct cells distinct |
| PartBConstants.RotateInBoxKeepsCells | components/game/partB/constants.ts:79-84 | A quarter turn inside the bounding square keeps the cells non-negative and keeps distinct cells distinct |
| PartBConstants.PatternsFromProps | components/game/partB/constants.ts:64-85 | The remaining loop passes only add patterns, add at most one per pass, and keep them pairwise distinct and canonical |
| PartBConstants.WPatternsShape | components/game/partB/constants.ts:34-88 | The generator returns at most four patterns, pairwise distinct, each a canonical 9-cell shape |
| PartBConstants.WPatternsValue | components/game/partB/constants.ts:34-90 | The generator returns exactly the four W orientations, all of them new, in rotation order |
| PartBConstants.GeneratorIteration | components/game/partB/constants.ts:64-85 | One loop pass adds the canonical form only if it was not seen, keeps the seen set equal to the pattern list, and turns the shape only on passes 0-2 |
| PartBConstants.CollectRotations | components/game/partB/constants.ts:61-87 | The loop over four passes computes the pattern list the generator specification defines |
| PartBConstants.GenerateWPatterns | components/game/partB/constants.ts:34-90 | The method returns the four W patterns |
| Cells.NormalizeAtOrigin | components/game/partB/wBlockDetection.ts:100-103 | After subtracting the minimum row and column, the minimum row and column are 0 |
| Cells.NormalizeTranslate | components/game/partB/wBlockDetection.ts:100-103 | Normalising forgets any translation of the cells |
| Cells.MinRowBound | components/game/partB/wBlockDetection.ts:100 | The minimum row is at most every row and is attained |
| Cells.SortCellsSorted | components/game/partB/wBlockDetection.ts:104 | The comparator sort yields a row-major ordered permutation of its input |
| Cells.SortedPermutationUnique | components/game/partB/wBlockDetection.ts:104 | Two row-major sorted permutations of the same cells are equal, so the comparison does not depend on input order |
| Cells.Dedup | components/game/partB/wBlockDetection.ts:88-92 | The map's values are distinct, are exactly the input's cells, and are no more numerous than the input |
| Cells.DedupSize | components/game/partB/wBlockDetection.ts:88-95 | The number of unique cells is the number of distinct cells in the input |
| Cells.DedupTranslate | components/game/partB/wBlockDetection.ts:88-92 | De-duplication commutes with translation |
| Cells.UniqueCells | components/game/partB/wBlockDetection.ts:88-92 | Filling a map keyed by "row:col" and reading its values yields the cells in first-occurrence order without repeats |
| PatternUtils.RotatePattern | components/game/partB/utils.ts:6-19 | Rotating by 0/90/180/270 applies rotation/90 quarter turns (row, col) -> (col, 2 - row) to each cell, keeping order and length |
| PatternUtils.RotatedElementwise | components/game/partB/utils.ts:14-16 | k turns of a pattern act cell by cell |
| PatternUtils.FourTurnsIdentity | components/game/partB/utils.ts:14-16 | Four quarter turns return the pattern, so 270 degrees plus one more turn is the identity |
| PatternUtils.RotatedInBox | components/game/partB/utils.ts:15 | A turned shape stays inside the 3x3 box |
| PatternUtils.RotatedDistinct | components/game/partB/utils.ts:15 | Turning keeps distinct cells distinct |
| PatternUtils.GetRotatedPattern | components/game/partB/utils.ts:21-22 | A rotated shape has as many cells as the unrotated shape, all distinct and inside the box, and rotation 0 is the shape itself |
| PatternUtils.ClampCell | components/game/partB/utils.ts:46-49 | The clamped cell is on the board, keeps in-range coordinates, and moves out-of-range ones to the nearest edge |
| PatternUtils.GetPieceCells | components/game/partB/wBlockDetection.ts:10-18 | Cell i of a piece is cell i of its type's pattern at its rotation, shifted by the anchor (same order); a piece covers as many cells as its block shape |
| PatternUtils.BuildGridFromPieces | components/game/partB/utils.ts:24-44 | Each board cell holds the tag of the last piece covering it (3 for a W-block piece, otherwise 1 for RFB and 2 for LFB), or 0 |
| PatternUtils.PaintPiece | components/game/partB/utils.ts:27-40 | Painting one piece writes its tag on its on-board cells and leaves every other cell as it was |
| PatternUtils.TagUncovered | components/game/partB/utils.ts:24-44 | A cell no piece covers shows 0 |
| PatternUtils.TagLastCover | components/game/partB/utils.ts:24-44 | A cell shows the tag of the last piece that covers it |
| PatternUtils.TagOwner | components/game/partB/utils.ts:24-44 | On a board of non-overlapping pieces, a cell shows the tag of the piece that covers it |
| PatternUtils.TagRange | components/game/partB/utils.ts:29-31 | Every cell shows 0..3, and a non-zero value is the tag of a piece covering the cell |
| PartBTypes.FindIndex | components/game/PartBGrid.tsx:284-288 | The result is the first position holding the id, or -1 when no piece has it |
| WBlockDetection.MatchPair | components/game/partB/wBlockDetection.ts:84-121 | Testing one RFB/LFB pair decides the pair-match specification: 9 unique cells whose normalised, sorted form is a W pattern |
| WBlockDetection.MatchCells | components/game/partB/wBlockDetection.ts:88-121 | On the concatenated cell lists: the de-duplicated cells number 9 and, moved to the origin and sorted row-major, equal one of the sorted W patterns |
| WBlockDetection.DetectAllWBlocks | components/game/partB/wBlockDetection.ts:69-126 | The nested loops with the used-pair set compute the specified list of matching pairs |
| WBlockDetection.DetectWBlock | components/game/partB/wBlockDetection.ts:20-67 | The early-return search computes the first matching pair in the same order, or none |
| WBlockDetection.OfTypeMember | components/game/partB/wBlockDetection.ts:70-71 | Filtering by type keeps exactly the pieces of that type |
| WBlockDetection.PairsMember | components/game/partB/wBlockDetection.ts:75-76 | The nested loops visit exactly the RFB x LFB pairs |
| WBlockDetection.DetectAllSound | components/game/partB/wBlockDetection.ts:69-126 | Every reported W-block names an RFB and an LFB on the board whose cells form a W |
| WBlockDetection.DetectAllNoRepeats | components/game/partB/wBlockDetection.ts:73-82 | No W-block is reported twice |
| WBlockDetection.DetectAllExact | components/game/partB/wBlockDetection.ts:69-126 | When piece ids are pairwise unique and free of ':', a board RFB/LFB pair is reported if and only if it forms a W |
| WBlockDetection.PairKeyInjective | components/game/partB/wBlockDetection.ts:78 | The pair key "rfbId:lfbId" determines both ids when the RFB id contains no ':' |
| WBlockDetection.NineCellsDisjoint | components/game/partB/wBlockDetection.ts:94-97 | 9 unique cells from a 4-cell and a 5-cell piece means the pieces do not overlap, so a matching pair never overlaps |
| WBlockDetection.DetectWBlockIsFirst | components/game/partB/wBlockDetection.ts:20-67 | With piece ids pairwise unique and free of ':', the single search finds nothing exactly when the list is empty, and otherwise returns its first element |
| WBlockDetection.DetectMapped | components/game/partB/wBlockDetection.ts:69-126 | Detection is unchanged by any change to pieces that keeps type, id and every pair verdict (for example the W flag) |
| WBlockDetection.DetectShifted | components/game/partB/wBlockDetection.ts:99-104 | Moving every piece by the same offset changes neither detection result |
| WBlockDetection.ExampleDetected | components/game/partB/constants.ts:42-54 | An RFB at rotation 0, anchor (0,0), and an LFB at rotation 90, anchor (2,2), cover the W template and are detected as a W-block by both searches |
| WBlockDetection.DetectTwo | components/game/partB/wBlockDetection.ts:69-126 | On a board of one RFB and one LFB, the result is that pair exactly when it matches, otherwise nothing |
| PieceValidation.ValidatePlacement | components/game/partB/pieceValidation.ts:14-54 | The method computes the validation specification, and the placement is valid exactly when there are no conflicts |
| PieceValidation.MarkPiece | components/game/partB/pieceValidation.ts:26-28 | Writing a piece's cells into the map computes the marking specification |
| PieceValidation.CollectConflicts | components/game/partB/pieceValidation.ts:34-47 | The scan over the candidate's cells computes the specified conflict list and blocking-id list |
| PieceValidation.MarkDomain | components/game/partB/pieceValidation.ts:26-28 | Marking adds exactly the piece's cells, maps each of them to the piece id, and leaves other entries unchanged |
| PieceValidation.OccupancyOwner | components/game/partB/pieceValidation.ts:19-29 | A cell is occupied exactly when a non-ignored piece covers it, and it then maps to the id of the last such piece |
| PieceValidation.ConflictsSize | components/game/partB/pieceValidation.ts:34-47 | There are at most as many conflicts as cells, and none exactly when no cell is off the board or blocked |
| PieceValidation.ConflictsOnBoard | components/game/partB/pieceValidation.ts:34-47 | Every reported conflict cell is on the board |
| PieceValidation.ConflictsExact | components/game/partB/pieceValidation.ts:34-47 | Off-board cells are reported clamped, blocked cells are reported with their blocker, and nothing else is reported |
| PieceValidation.BlockersDistinct | components/game/partB/pieceValidation.ts:32-52 | The blocking ids come out without repeats, like the Set they are collected in |
| PieceValidation.BlockersSound | components/game/partB/pieceValidation.ts:41-52 | Each blocking id is non-empty, is not the ignored id, and names an existing piece covering an on-board cell of the candidate |
| PieceValidation.ValidIffUnblocked | components/game/partB/pieceValidation.ts:34-50 | The placement is valid exactly when every candidate cell is on the board and has no truthy occupant |
| PieceValidation.ValidPlacementMeaning | components/game/partB/pieceValidation.ts:14-54 | With non-empty ids, a placement is valid exactly when every cell is on the board and no non-ignored piece covers it |
| PieceValidation.ConflictsBound | components/game/partB/pieceValidation.ts:34-47 | At most 4 conflicts for an RFB and 5 for an LFB |
| PieceValidation.CanPlacePieceType | components/game/partB/pieceValidation.ts:57-81 | The early-return search returns true exactly when some rotation and some anchor in 0..GRID_SIZE-3 give a valid placement |
| PieceValidation.FitsSomeRotation | components/game/partB/pieceValidation.ts:61-80 | The rotation loop reports true exactly when some rotation of the list has an anchor its probe test accepts |
| PieceValidation.FitsSomewhere | components/game/partB/pieceValidation.ts:63-78 | The row and column loops for one rotation report true exactly when some tried anchor passes the probe test |
| PieceValidation.FitsInRow | components/game/partB/pieceValidation.ts:64-77 | The column loop reports true exactly when some column of the row from 0 to GRID_SIZE - 3 passes the probe test |
| PieceValidation.TriedAnchorOnBoard | components/game/partB/pieceValidation.ts:64-65 | Every anchor tried keeps all the probe's cells on the board |
| PieceValidation.CannotPlaceMeansOverlap | components/game/partB/pieceValidation.ts:57-81 | If a type fits nowhere, every tried rotation and anchor overlaps an existing piece |
| PieceValidation.EmptyBoardFits | components/game/partB/pieceValidation.ts:57-81 | Either type fits on an empty board |
| PartBCompletion.CheckPartBCompletion | components/game/partB/usePartBCompletion.ts:23-55 | The effect calls onPartBEnd exactly when the end-of-phase rule holds |
| PartBCompletion.CompletionCases | components/game/partB/usePartBCompletion.ts:25-54 | The decision's three branches stated one at a time, for reference: both counters positive (placement test), a type absent from the board (ends), and the W-count test. What the branches mean on concrete boards is stated by `EmptyBoardContinues`, `ExamplePairEndsPhase` and `UnmatchedPairContinues` |
| PartBCompletion.CountersOnlyBySign | components/game/partB/usePartBCompletion.ts:25 | Only whether each counter is positive matters |
| PartBCompletion.EmptyBoardContinues | components/game/partB/usePartBCompletion.ts:25-34 | With pieces in hand and an empty board, the phase goes on |
| PartBCompletion.ExamplePairEndsPhase | components/game/partB/usePartBCompletion.ts:36-53 | With a counter at zero, a board holding one formed W ends the phase |
| PartBCompletion.UnmatchedPairContinues | components/game/partB/usePartBCompletion.ts:36-53 | With a counter at zero, one RFB and one LFB that do not form a W keep the phase going |
| PartBConflict.CellSet | components/game/partB/usePartBConflict.ts:14-18 | The set contains exactly the listed cells |
| PartBConflict.BlockingCellsMembers | components/game/partB/usePartBConflict.ts:20-38 | A cell is highlighted exactly when the first piece found for some blocking id covers it, and unknown ids add nothing |
| PartBConflict.BlockingCellsUnique | components/game/partB/usePartBConflict.ts:20-38 | With unique ids, a cell is highlighted exactly when a piece whose id is blocking covers it |
| PartBConflict.ConflictState.constructor | components/game/partB/usePartBConflict.ts:10-12 | No conflict cells, no conflict piece and no blocking ids at the start |
| PartBConflict.ConflictState.ClearConflict | components/game/partB/usePartBConflict.ts:40-44 | All three fields are emptied |
| PartBConflict.ConflictState.SetConflictState | components/game/partB/usePartBConflict.ts:46-50 | The three fields take the given values |
| PartBConflict.ConflictState.CanInteractWithPiece | components/game/partB/usePartBConflict.ts:52-61 | With no truthy conflict piece everything may be touched; otherwise only the conflict piece, and never a call without an id |
| PartBConflict.ConflictState.ConflictCellSet | components/game/partB/usePartBConflict.ts:14-18 | The set is exactly the recorded conflict cells |
| PartBConflict.ConflictState.GetBlockingCellSet | components/game/partB/usePartBConflict.ts:20-38 | A cell is in the set exactly when the first piece found for one of the recorded blocking ids covers it; ids with no piece add nothing |
| GameState.FlooredAdd | hooks/useGameState.ts:29-35 | A counter update never goes below 0 and otherwise adds the delta |
| GameState.FlooredAddTwice | hooks/useGameState.ts:29-35 | Two floored updates are never below one update by their sum, and equal it for non-negative deltas |
| GameState.GameStore.constructor | hooks/useGameState.ts:17-23 | Each field is its initial value when given, otherwise idle / 0 / 1 / 0 / 0 / 0 |
| GameState.GameStore.SetPhase | hooks/useGameState.ts:18 | Only the phase changes |
| GameState.GameStore.UpdateScore | hooks/useGameState.ts:25-27 | The score moves by the delta, with no floor, and nothing else changes |
| GameState.GameStore.UpdateRfbCount | hooks/useGameState.ts:29-31 | The RFB counter moves by the delta, floored at 0, and nothing else changes |
| GameState.GameStore.UpdateLfbCount | hooks/useGameState.ts:33-35 | The LFB counter moves by the delta, floored at 0, and nothing else changes |
| GameState.GameStore.UpdateWCount | hooks/useGameState.ts:37-39 | The W counter moves by the delta, with no floor, and nothing else changes |
| GameState.GameStore.Reset | hooks/useGameState.ts:41-48 | Every field is back to its default |
| GameState.NewDefaultStore | hooks/useGameState.ts:17-23 | A store without initial values starts in the reset state |
| L2WGame.ScreensPartitionPhases | components/game/L2WGame.tsx:17-72 | Every phase shows exactly one of Part A, Part B or the completion screen, and Part B exactly in partB and transitionBA |
| L2WGame.TransitionTarget | components/game/L2WGame.tsx:22-28 | transitionAB leads to partB and transitionBA leads to partA; every other phase stays |
| L2WGame.TransitionSettles | components/game/L2WGame.tsx:22-28 | A transition never lands in a transition phase, so a second one changes nothing |
| L2WGame.Game.constructor | components/game/L2WGame.tsx:15 | The game starts with a fresh store in the reset state |
| L2WGame.Game.HandleTransition | components/game/L2WGame.tsx:22-28 | The phase becomes the transition target and the other fields keep their values |
| L2WGame.Game.HandleStartPartA | components/game/L2WGame.tsx:30-32 | The phase becomes partA and the other fields keep their values |
| L2WGame.Game.HandlePartBEnd | components/game/L2WGame.tsx:34-36 | The phase becomes complete and the other fields keep their values |
| PartBSession.Digits | components/game/PartBGrid.tsx:131 | The decimal text of a counter value is non-empty and all digits |
| PartBSession.DigitsInjective | components/game/PartBGrid.tsx:129-132 | Different counter values have different decimal texts |
| PartBSession.PieceIdFacts | components/game/PartBGrid.tsx:129-132 | A "piece-N" id is non-empty, has no ':' and names one counter value |
| PartBSession.IssuedIdsWellNamed | components/game/PartBGrid.tsx:129-132 | Unique issued ids meet the conditions under which detection is exact |
| PartBSession.BoardDisjoint | components/game/PartBGrid.tsx:239-263 | On a board built by the session's operations, no two pieces share a cell |
| PartBSession.AcceptedCells | components/game/PartBGrid.tsx:239-263 | An accepted candidate lies on the board and shares no cell with any piece that is not ignored |
| PartBSession.PlaceKeepsBoard | components/game/PartBGrid.tsx:228-263 | Appending a valid candidate with the next issued id keeps the board invariant |
| PartBSession.AppendKeepsIds | components/game/PartBGrid.tsx:230-263 | A freshly issued id keeps the ids unique and issued |
| PartBSession.ReplaceKeepsBoard | components/game/PartBGrid.tsx:284-300 | Replacing a piece by a candidate with the same id that validates (ignoring that id) keeps the board invariant |
| PartBSession.IssuedGrows | components/game/PartBGrid.tsx:129-132 | Ids issued so far remain issued after the counter advances |
| PartBSession.NextRotation | components/game/PartBGrid.tsx:332-333 | The next rotation goes 0 -> 90 -> 180 -> 270 -> 0 |
| PartBSession.NextRotationCycle | components/game/PartBGrid.tsx:332-333 | Four rotate taps restore the rotation and fewer do not |
| PartBSession.WBlockPieceIds | components/game/PartBGrid.tsx:151-155 | An id is in the set exactly when it is the RFB or LFB of some detected W-block |
| PartBSession.RetagFlags | components/game/PartBGrid.tsx:135-174 | Only W flags change. Under 2 pieces all flags are cleared; otherwise a piece is flagged exactly when its id appears in a detected W-block |
| PartBSession.FlagPieces | components/game/PartBGrid.tsx:157-172 | Each piece comes out with its flag set to whether its id is in a detected W-block, in the same order, and the update flag is raised exactly when some flag differed |
| PartBSession.RetagList | components/game/PartBGrid.tsx:135-174 | The effect's new list is the re-tagged list: flags cleared under two pieces, otherwise each flag set iff the id is in a detected W-block, and the old list kept when nothing changes |
| PartBSession.RetagIdempotent | components/game/PartBGrid.tsx:157-172 | Running the effect again changes nothing, which is why it settles |
| PartBSession.RetagKeepsBoard | components/game/PartBGrid.tsx:135-174 | Re-flagging keeps the board invariant |
| PartBSession.DisplayHidesOnlyHidden | components/game/PartBGrid.tsx:75-99 | On a board of separate pieces, a covered cell shows 0 if its piece is the hidden one, and otherwise the piece's tag |
| PartBSession.DisplayUncovered | components/game/PartBGrid.tsx:75-99 | An uncovered cell shows 0 |
| PartBSession.CloneGrid | components/game/PartBGrid.tsx:86 | The copy is a fresh grid with the same size and contents |
| PartBSession.Session.constructor | components/game/PartBGrid.tsx:31-45 | No pieces, counters from the props, id counter 0, nothing hidden, an empty conflict record, and the invariant holds |
| PartBSession.Session.SyncRfbCount | components/game/PartBGrid.tsx:54-56 | The available RFB counter takes the new prop value and nothing else changes |
| PartBSession.Session.SyncLfbCount | components/game/PartBGrid.tsx:58-60 | The available LFB counter takes the new prop value and nothing else changes |
| PartBSession.Session.SetHiddenPieceId | components/game/PartBGrid.tsx:42 | Only the hidden id changes |
| PartBSession.Session.GetNextPieceId | components/game/PartBGrid.tsx:129-132 | The counter goes up by one and the id "piece-<counter>" differs from every id on the board |
| PartBSession.Session.PlaceNewPiece | components/game/PartBGrid.tsx:228-277 | An id is always consumed. A valid candidate is appended unflagged, its counter drops by one (floored at 0) and the conflict is cleared. An invalid one leaves pieces and counters alone and records its conflicts with no piece id. The invariant holds |
| PartBSession.Session.AddPiece | components/game/PartBGrid.tsx:239-263 | The candidate holding the newest id is validated against the board. Rejected: its conflicts are recorded with no piece id and nothing else changes. Accepted: it is appended, its type's counter drops by one (floored at 0) and the conflict is cleared. The invariant holds |
| PartBSession.Session.MoveExistingPiece | components/game/PartBGrid.tsx:279-320 | Unknown id: nothing changes. A valid move replaces the piece in place, clears the conflict and un-hides. An invalid one records the conflict against that piece. The invariant holds |
| PartBSession.Session.RotatePiece | components/game/PartBGrid.tsx:322-355 | Like a move but turning to the next rotation. The hidden id is left alone and the invariant holds |
| PartBSession.Session.ReplacePiece | components/game/PartBGrid.tsx:290-300 | The step a move and a rotation share: the candidate is validated with its own piece ignored. Rejected: the conflict is recorded under its id and the pieces stay. Accepted: it replaces the piece at the same index and the conflict is cleared. The invariant holds |
| PartBSession.Session.RetagWBlocks | components/game/PartBGrid.tsx:135-174 | The piece list becomes the re-flagged list, the other fields are unchanged, and the invariant holds |
| PartBSession.Session.DisplayGrid | components/game/PartBGrid.tsx:75-99 | Each cell shows the painted board, except that the hidden piece's cells show 0 |

## Left out

- Rendering, layout, gestures, drag overlays, measuring and timers are left out. `MOVE_THRESHOLD_PX`, `TAP_THRESHOLD_PX` and the grid layout constants are not used by the engine.
- `useWBlockManager` (`checkAndScoreWBlock`, `checkAndUnmarkDestroyedWBlocks`) is not part of this model.
  - Placing, moving and rotating commit the updated list before it would run.
  - Scoring and W-count changes are not modelled.
  - The re-flagging effect is modelled separately, as `RetagWBlocks`.
- The `setTimeout` notifications (`onRfbCountChange(-1)`, `onLfbCountChange(-1)`, `onGridChange`) are external calls and are left out. The local counters they mirror are modelled.
- React batching and effect scheduling are not modelled. Each operation is atomic, and the re-flagging effect reads the same list it updates.
- `GRID_SIZE` comes from `constants/game`, which is not part of this model. It is an unspecified constant of at least 3.
- `GamePhase` also comes from `constants/game`. It is taken to be exactly the six phases the source names (idle, partA, transitionAB, partB, transitionBA, complete). `ScreensPartitionPhases` relies on this.
- `createEmptyGrid` is taken to return an all-zero `GRID_SIZE` x `GRID_SIZE` grid.
- Cells are keyed by `"row:col"` strings in the source and by `Cell` values in the model. The string key is one-to-one on integer pairs.
- `ValidPlacementMeaning`: the source's truthiness test skips an occupant whose id is the empty string. The clean "no overlap" reading is therefore stated only for non-empty ids. `Validate` itself follows the source for every id.
- `DetectAllExact` and `DetectWBlockIsFirst` need piece ids that are pairwise unique and free of ':' (`WellNamed`). Without ':' the pair keys cannot collide. With a repeated id, a key already used by an earlier piece hides a later pair: two RFBs with id "a", where only the first forms a W with LFB "b", give a reported `a:b` although the second pair does not match. `IssuedIdsWellNamed` shows that the session's issued ids meet this condition.
- `CanPlace` is the ghost specification of `CanPlacePieceType`. The method, which does the same search, is the compiled version.
- `CanPlacePieceType`: its loops are written once, over any test per rotation. For each probe they evaluate the function `Validate` that `ValidatePlacement` is proved to compute, rather than calling the method.
- `Digits` models `${n}` for the natural numbers the counter takes. The exponent form JavaScript uses beyond 10^21 is not modelled.
- PartBGrid.tsx has its own copies of several pieces of logic, each modelled once from its hook:
  - the completion effect (lines 194-226);
  - the conflict callbacks (lines 106-127);
  - the blocking-cell set (lines 176-191).
- Whether `onPartBEnd` is called once per effect run, or repeatedly, is not modelled.
- `DraggingOverlay`, `GameGrid`, `GridCell`, the counters and `usePartBGridLayout` are presentation only and are left out.
