/** components/game/partB/pieceValidation.ts: whether a candidate placement fits
    the board (bounds and collisions, with the cells and pieces in the way), and
    whether a piece type fits anywhere at all. */
module PieceValidation {
  import opened Cells
  import opened GameConstants
  import opened PartBConstants
  import opened PartBTypes
  import opened Wrappers
  import opened PatternUtils

  /** The verdict of validatePlacement. `blockingPieceIds` keeps the insertion
      order of the source's Set, which is what `Array.from` returns. */
  datatype ValidationResult = ValidationResult(valid: bool, conflicts: seq<Cell>, blockingPieceIds: seq<string>)

  // ---------------------------------------------------------------------------
  // Specification

  /** `piece.id === ignorePieceId`; with no ignored id no piece is skipped. */
  predicate Ignored(p: Piece, ignore: Option<string>)
  {
    ignore == Some(p.id)
  }

  /** How the cells of a piece are found; the board uses `GetPieceCells`. The
      occupancy facts below hold for any such function. */
  type CellsOf = Piece -> seq<Cell>

  /** The `occupiedBy` map after the existing pieces are written in order: every
      cell of a piece that is not ignored maps to that piece's id, later pieces
      overwriting earlier ones. The source keys the map by the string "row:col",
      which is one-to-one on integer pairs; the model keys it by the cell. */
  function OccupancyBy(pieces: seq<Piece>, ignore: Option<string>, cellsOf: CellsOf): map<Cell, string>
  {
    if pieces == [] then map[]
    else
      var n := |pieces| - 1;
      var m := OccupancyBy(pieces[..n], ignore, cellsOf);
      if Ignored(pieces[n], ignore) then m else Mark(m, cellsOf(pieces[n]), pieces[n].id)
  }

  /** The `occupiedBy` map of validatePlacement. */
  function Occupancy(pieces: seq<Piece>, ignore: Option<string>): map<Cell, string>
  {
    OccupancyBy(pieces, ignore, GetPieceCells)
  }

  /** `m` with every cell of `cells` set to `id`. */
  function Mark(m: map<Cell, string>, cells: seq<Cell>, id: string): map<Cell, string>
  {
    if cells == [] then m
    else
      var n := |cells| - 1;
      Mark(m, cells[..n], id)[cells[n] := id]
  }

  /** The id found for an on-board cell, when it counts as blocking: the source
      tests `if (blockingPieceId)`, so a missing entry and an empty id do not. */
  function Blocker(occ: map<Cell, string>, c: Cell): Option<string>
  {
    if c in occ && occ[c] != "" then Some(occ[c]) else None
  }

  /** What one candidate cell adds to `conflicts`: its clamped copy when it is
      off the board, itself when a piece blocks it, nothing otherwise. */
  function CellConflict(occ: map<Cell, string>, c: Cell): seq<Cell>
  {
    if !InGrid(c) then [ClampCell(c.row, c.col)]
    else if Blocker(occ, c).Some? then [c]
    else []
  }

  /** The conflicts list after visiting `cells` in order. */
  function ConflictsOf(occ: map<Cell, string>, cells: seq<Cell>): seq<Cell>
  {
    if cells == [] then []
    else
      var n := |cells| - 1;
      ConflictsOf(occ, cells[..n]) + CellConflict(occ, cells[n])
  }

  /** The blocking ids after visiting `cells` in order: the id blocking an
      on-board cell is added unless it is already there. */
  function BlockersOf(occ: map<Cell, string>, cells: seq<Cell>): seq<string>
  {
    if cells == [] then []
    else
      var n := |cells| - 1;
      var b := BlockersOf(occ, cells[..n]);
      var c := cells[n];
      if InGrid(c) && Blocker(occ, c).Some? && Blocker(occ, c).value !in b then b + [Blocker(occ, c).value] else b
  }

  /** What validatePlacement returns. Only the candidate's type, rotation and
      anchor are read; its id and W flag play no part. */
  function Validate(candidate: Piece, existing: seq<Piece>, ignore: Option<string>): ValidationResult
  {
    var occ := Occupancy(existing, ignore);
    var cells := GetPieceCells(candidate);
    var conflicts := ConflictsOf(occ, cells);
    ValidationResult(|conflicts| == 0, conflicts, BlockersOf(occ, cells))
  }

  // ---------------------------------------------------------------------------
  // validatePlacement as loops

  /** validatePlacement: fill `occupiedBy`, then walk the candidate's cells
      collecting conflicts and blocking ids. */
  method ValidatePlacement(candidate: Piece, existingPieces: seq<Piece>, ignorePieceId: Option<string>)
    returns (result: ValidationResult)
    ensures result == Validate(candidate, existingPieces, ignorePieceId)
    ensures result.valid <==> result.conflicts == []
  {
    var occupiedBy: map<Cell, string> := map[];
    var i := 0;
    while i < |existingPieces|
      invariant 0 <= i <= |existingPieces|
      invariant occupiedBy == Occupancy(existingPieces[..i], ignorePieceId)
    {
      var piece := existingPieces[i];
      assert existingPieces[..i + 1][..i] == existingPieces[..i];
      if ignorePieceId != Some(piece.id) {
        occupiedBy := MarkPiece(occupiedBy, GetPieceCells(piece), piece.id);
      }
      i := i + 1;
    }
    assert existingPieces[..i] == existingPieces;

    var cells := GetPieceCells(candidate);
    var conflicts, blockingIds := CollectConflicts(occupiedBy, cells);
    result := ValidationResult(|conflicts| == 0, conflicts, blockingIds);
  }

  /** `occupiedBy.set(key, id)` for every cell of one piece. */
  method MarkPiece(occupiedBy: map<Cell, string>, cells: seq<Cell>, id: string) returns (marked: map<Cell, string>)
    ensures marked == Mark(occupiedBy, cells, id)
  {
    marked := occupiedBy;
    var j := 0;
    while j < |cells|
      invariant 0 <= j <= |cells|
      invariant marked == Mark(occupiedBy, cells[..j], id)
    {
      assert cells[..j + 1][..j] == cells[..j];
      marked := marked[cells[j] := id];
      j := j + 1;
    }
    assert cells[..j] == cells;
  }

  /** The second forEach: one pass over the candidate's cells. */
  method CollectConflicts(occupiedBy: map<Cell, string>, cells: seq<Cell>)
    returns (conflicts: seq<Cell>, blockingIds: seq<string>)
    ensures conflicts == ConflictsOf(occupiedBy, cells)
    ensures blockingIds == BlockersOf(occupiedBy, cells)
  {
    conflicts, blockingIds := [], [];
    var j := 0;
    while j < |cells|
      invariant 0 <= j <= |cells|
      invariant conflicts == ConflictsOf(occupiedBy, cells[..j])
      invariant blockingIds == BlockersOf(occupiedBy, cells[..j])
    {
      var row, col := cells[j].row, cells[j].col;
      assert cells[..j + 1][..j] == cells[..j];
      if row < 0 || col < 0 || row >= GRID_SIZE || col >= GRID_SIZE {
        conflicts := conflicts + [ClampCell(row, col)];
      } else if Cell(row, col) in occupiedBy && occupiedBy[Cell(row, col)] != "" {
        var blockingPieceId := occupiedBy[Cell(row, col)];
        conflicts := conflicts + [Cell(row, col)];
        if blockingPieceId !in blockingIds {
          blockingIds := blockingIds + [blockingPieceId];
        }
      }
      j := j + 1;
    }
    assert cells[..j] == cells;
  }

  // ---------------------------------------------------------------------------
  // The occupancy map

  /** Piece `k` is not ignored and covers `c`. */
  predicate CoversAt(pieces: seq<Piece>, ignore: Option<string>, cellsOf: CellsOf, c: Cell, k: int)
    requires 0 <= k < |pieces|
  {
    !Ignored(pieces[k], ignore) && c in cellsOf(pieces[k])
  }

  /** Some piece that is not ignored covers `c`. */
  predicate CoveredBy(pieces: seq<Piece>, ignore: Option<string>, cellsOf: CellsOf, c: Cell)
  {
    exists k :: 0 <= k < |pieces| && CoversAt(pieces, ignore, cellsOf, c, k)
  }

  /** Piece `k` is the last piece that is not ignored and covers `c`. */
  predicate LastCover(pieces: seq<Piece>, ignore: Option<string>, cellsOf: CellsOf, c: Cell, k: int)
  {
    0 <= k < |pieces| && CoversAt(pieces, ignore, cellsOf, c, k) &&
    forall j :: k < j < |pieces| ==> !CoversAt(pieces, ignore, cellsOf, c, j)
  }

  /** Some existing piece that is not ignored covers `c`. */
  predicate Covered(pieces: seq<Piece>, ignore: Option<string>, c: Cell)
  {
    CoveredBy(pieces, ignore, GetPieceCells, c)
  }

  lemma {:induction false} MarkDomain(m: map<Cell, string>, cells: seq<Cell>, id: string, c: Cell)
    ensures c in Mark(m, cells, id) <==> c in m || c in cells
    ensures c in cells ==> Mark(m, cells, id)[c] == id
    ensures c !in cells && c in m ==> Mark(m, cells, id)[c] == m[c]
  {
    if cells != [] {
      var n := |cells| - 1;
      MarkDomain(m, cells[..n], id, c);
      assert cells == cells[..n] + [cells[n]];
    }
  }

  /** A cell is in `occupiedBy` exactly when a piece that is not ignored covers
      it, and it then holds the id of the last such piece. */
  lemma OccupancyOwner(pieces: seq<Piece>, ignore: Option<string>, c: Cell)
    ensures c in Occupancy(pieces, ignore) <==> Covered(pieces, ignore, c)
    ensures c in Occupancy(pieces, ignore) ==>
      exists k :: LastCover(pieces, ignore, GetPieceCells, c, k) && Occupancy(pieces, ignore)[c] == pieces[k].id
  {
    OccupancyOwnerBy(pieces, ignore, GetPieceCells, c);
  }

  lemma {:induction false} OccupancyOwnerBy(pieces: seq<Piece>, ignore: Option<string>, cellsOf: CellsOf, c: Cell)
    ensures c in OccupancyBy(pieces, ignore, cellsOf) <==> CoveredBy(pieces, ignore, cellsOf, c)
    ensures c in OccupancyBy(pieces, ignore, cellsOf) ==>
      exists k :: LastCover(pieces, ignore, cellsOf, c, k) && OccupancyBy(pieces, ignore, cellsOf)[c] == pieces[k].id
  {
    if pieces != [] {
      var n := |pieces| - 1;
      var prefix := pieces[..n];
      OccupancyOwnerBy(prefix, ignore, cellsOf, c);
      var m := OccupancyBy(prefix, ignore, cellsOf);
      var last := pieces[n];
      if !Ignored(last, ignore) {
        MarkDomain(m, cellsOf(last), last.id, c);
      }
      assert forall k :: 0 <= k < n ==> prefix[k] == pieces[k];
      assert forall k :: 0 <= k < n ==> (CoversAt(prefix, ignore, cellsOf, c, k) <==> CoversAt(pieces, ignore, cellsOf, c, k));
      if CoversAt(pieces, ignore, cellsOf, c, n) {
        assert LastCover(pieces, ignore, cellsOf, c, n);
      } else {
        if CoveredBy(pieces, ignore, cellsOf, c) {
          var k :| 0 <= k < |pieces| && CoversAt(pieces, ignore, cellsOf, c, k);
          assert CoversAt(prefix, ignore, cellsOf, c, k);
        }
        if c in m {
          var k :| LastCover(prefix, ignore, cellsOf, c, k) && m[c] == prefix[k].id;
          assert LastCover(pieces, ignore, cellsOf, c, k);
        }
      }
    }
  }

  // ---------------------------------------------------------------------------
  // Properties of the conflicts list

  /** The conflict cells of a prefix, position by position: the list is made of
      the contributions of the cells in order. */
  lemma {:induction false} ConflictsSize(occ: map<Cell, string>, cells: seq<Cell>)
    ensures |ConflictsOf(occ, cells)| <= |cells|
    ensures ConflictsOf(occ, cells) == [] <==> forall i :: 0 <= i < |cells| ==> CellConflict(occ, cells[i]) == []
  {
    if cells != [] {
      var n := |cells| - 1;
      var prefix := cells[..n];
      assert forall i :: 0 <= i < n ==> prefix[i] == cells[i];
      ConflictsSize(occ, prefix);
      assert ConflictsOf(occ, cells) == ConflictsOf(occ, prefix) + CellConflict(occ, cells[n]);
    }
  }

  /** Each conflict is a board cell: an off-board cell enters clamped, an on-board
      one as it is. */
  lemma {:induction false} ConflictsOnBoard(occ: map<Cell, string>, cells: seq<Cell>)
    ensures forall x :: x in ConflictsOf(occ, cells) ==> InGrid(x)
  {
    if cells != [] {
      ConflictsOnBoard(occ, cells[..|cells| - 1]);
    }
  }

  /** Every off-board cell contributes its clamped copy and every blocked on-board
      cell itself, with the blocking id recorded; and every conflict comes from
      one of these two cases. */
  lemma {:induction false} ConflictsExact(occ: map<Cell, string>, cells: seq<Cell>)
    ensures forall c :: c in cells && !InGrid(c) ==> ClampCell(c.row, c.col) in ConflictsOf(occ, cells)
    ensures forall c :: c in cells && InGrid(c) && Blocker(occ, c).Some? ==>
      c in ConflictsOf(occ, cells) && Blocker(occ, c).value in BlockersOf(occ, cells)
    ensures forall x :: x in ConflictsOf(occ, cells) ==>
      exists c :: c in cells && ((!InGrid(c) && x == ClampCell(c.row, c.col)) || (InGrid(c) && Blocker(occ, c).Some? && x == c))
  {
    if cells != [] {
      var n := |cells| - 1;
      var prefix := cells[..n];
      ConflictsExact(occ, prefix);
      BlockersGrow(occ, cells);
      assert cells == prefix + [cells[n]];
      forall x | x in ConflictsOf(occ, cells)
        ensures exists c :: c in cells && ((!InGrid(c) && x == ClampCell(c.row, c.col)) || (InGrid(c) && Blocker(occ, c).Some? && x == c))
      {
        if x in ConflictsOf(occ, prefix) {
          var c :| c in prefix && ((!InGrid(c) && x == ClampCell(c.row, c.col)) || (InGrid(c) && Blocker(occ, c).Some? && x == c));
          assert c in cells;
        } else {
          assert x in CellConflict(occ, cells[n]);
        }
      }
    }
  }

  /** Visiting one more cell only adds blocking ids. */
  lemma BlockersGrow(occ: map<Cell, string>, cells: seq<Cell>)
    requires cells != []
    ensures forall b :: b in BlockersOf(occ, cells[..|cells| - 1]) ==> b in BlockersOf(occ, cells)
  {
  }

  /** No id occurs twice. */
  predicate DistinctIds(s: seq<string>)
  {
    forall i, j :: 0 <= i < j < |s| ==> s[i] != s[j]
  }

  /** No blocking id is recorded twice. */
  lemma {:induction false} BlockersDistinct(occ: map<Cell, string>, cells: seq<Cell>)
    ensures DistinctIds(BlockersOf(occ, cells))
  {
    if cells != [] {
      var n := |cells| - 1;
      BlockersDistinct(occ, cells[..n]);
      var b := BlockersOf(occ, cells[..n]);
      var c := cells[n];
      if InGrid(c) && Blocker(occ, c).Some? && Blocker(occ, c).value !in b {
        var b' := b + [Blocker(occ, c).value];
        assert BlockersOf(occ, cells) == b';
        forall i, j | 0 <= i < j < |b'| ensures b'[i] != b'[j] {
          assert b'[i] == b[i];
          if j == |b| {
            assert b[i] in b;
          } else {
            assert b'[j] == b[j];
          }
        }
      }
    }
  }

  /** Each blocking id is the one found for an on-board cell of the list. */
  lemma {:induction false} BlockersOrigin(occ: map<Cell, string>, cells: seq<Cell>)
    ensures forall x :: x in BlockersOf(occ, cells) ==> exists c :: c in cells && InGrid(c) && Blocker(occ, c) == Some(x)
  {
    if cells != [] {
      var n := |cells| - 1;
      BlockersOrigin(occ, cells[..n]);
      forall x | x in BlockersOf(occ, cells)
        ensures exists c :: c in cells && InGrid(c) && Blocker(occ, c) == Some(x)
      {
        if x in BlockersOf(occ, cells[..n]) {
          var c :| c in cells[..n] && InGrid(c) && Blocker(occ, c) == Some(x);
          assert c in cells;
        } else {
          assert InGrid(cells[n]) && Blocker(occ, cells[n]) == Some(x);
        }
      }
    }
  }

  /** Blocking ids are pairwise different, and each one is the non-empty id of
      an existing piece, not the ignored one, that covers an on-board cell of
      the candidate. */
  lemma BlockersSound(candidate: Piece, existing: seq<Piece>, ignore: Option<string>)
    ensures DistinctIds(Validate(candidate, existing, ignore).blockingPieceIds)
    ensures forall x :: x in Validate(candidate, existing, ignore).blockingPieceIds ==>
      x != "" && ignore != Some(x) &&
      exists k, c :: 0 <= k < |existing| && existing[k].id == x && c in GetPieceCells(candidate) && InGrid(c) &&
        CoversAt(existing, ignore, GetPieceCells, c, k)
  {
    var occ := Occupancy(existing, ignore);
    var cells := GetPieceCells(candidate);
    assert Validate(candidate, existing, ignore).blockingPieceIds == BlockersOf(occ, cells);
    BlockersDistinct(occ, cells);
    BlockersOrigin(occ, cells);
    forall x | x in BlockersOf(occ, cells)
      ensures x != "" && ignore != Some(x) &&
        exists k, c :: 0 <= k < |existing| && existing[k].id == x && c in cells && InGrid(c) &&
          CoversAt(existing, ignore, GetPieceCells, c, k)
    {
      var c :| c in cells && InGrid(c) && Blocker(occ, c) == Some(x);
      OccupancyOwner(existing, ignore, c);
      var k :| LastCover(existing, ignore, GetPieceCells, c, k) && occ[c] == existing[k].id;
      assert CoversAt(existing, ignore, GetPieceCells, c, k);
    }
  }

  /** The candidate is valid exactly when each of its cells is on the board and
      not blocked. */
  lemma ValidIffUnblocked(candidate: Piece, existing: seq<Piece>, ignore: Option<string>)
    ensures var occ := Occupancy(existing, ignore);
      Validate(candidate, existing, ignore).valid <==>
      forall c :: c in GetPieceCells(candidate) ==> InGrid(c) && Blocker(occ, c) == None
  {
    var occ := Occupancy(existing, ignore);
    var cells := GetPieceCells(candidate);
    ConflictsSize(occ, cells);
    forall c | c in cells ensures CellConflict(occ, c) == [] <==> InGrid(c) && Blocker(occ, c) == None {
    }
  }

  /** Every piece id is non-empty (the session hands out `piece-N` ids). */
  predicate NonEmptyIds(pieces: seq<Piece>)
  {
    forall k :: 0 <= k < |pieces| ==> pieces[k].id != ""
  }

  /** With non-empty ids: a placement is valid exactly when all its cells are on
      the board and no existing piece other than the ignored one covers any of
      them. */
  lemma ValidPlacementMeaning(candidate: Piece, existing: seq<Piece>, ignore: Option<string>)
    requires NonEmptyIds(existing)
    ensures Validate(candidate, existing, ignore).valid <==>
      forall c :: c in GetPieceCells(candidate) ==> InGrid(c) && !Covered(existing, ignore, c)
  {
    var occ := Occupancy(existing, ignore);
    ValidIffUnblocked(candidate, existing, ignore);
    forall c | c in GetPieceCells(candidate) ensures Blocker(occ, c) == None <==> !Covered(existing, ignore, c) {
      OccupancyOwner(existing, ignore, c);
    }
  }

  /** There are at most as many conflicts as candidate cells: 4 for an RFB and
      5 for an LFB. */
  lemma ConflictsBound(candidate: Piece, existing: seq<Piece>, ignore: Option<string>)
    ensures |Validate(candidate, existing, ignore).conflicts| <= (if candidate.blockType == RFB then 4 else 5)
  {
    ConflictsSize(Occupancy(existing, ignore), GetPieceCells(candidate));
  }

  // ---------------------------------------------------------------------------
  // canPlacePieceType

  /** The probe piece canPlacePieceType validates: id 'temp', not a W-block. */
  function Probe(t: BlockType, rotation: Rotation, row: int, col: int): Piece
  {
    Piece("temp", t, rotation, row, col, false)
  }

  /** The probe at this rotation and anchor is a valid placement. */
  predicate FitsAt(t: BlockType, rotation: Rotation, row: int, col: int, pieces: seq<Piece>)
  {
    Validate(Probe(t, rotation, row, col), pieces, None).valid
  }

  /** The anchors tried: both coordinates in [0, GRID_SIZE - BLOCK_DIMENSION]. */
  predicate TriedAnchor(row: int, col: int)
  {
    0 <= row <= GRID_SIZE - BLOCK_DIMENSION && 0 <= col <= GRID_SIZE - BLOCK_DIMENSION
  }

  /** A test on an anchor (row, col). */
  type AnchorTest = (int, int) -> bool

  /** The probe test at one rotation: validatePlacement of the 'temp' piece
      against the board. */
  function FitsTest(t: BlockType, rotation: Rotation, pieces: seq<Piece>): AnchorTest
  {
    (row, col) => FitsAt(t, rotation, row, col, pieces)
  }

  /** Some tried column of `row` passes the test. */
  ghost predicate RowHas(test: AnchorTest, row: int)
  {
    exists col :: 0 <= col <= GRID_SIZE - BLOCK_DIMENSION && test(row, col)
  }

  /** Some tried anchor passes the test. */
  ghost predicate AnyAnchor(test: AnchorTest)
  {
    exists row :: 0 <= row <= GRID_SIZE - BLOCK_DIMENSION && RowHas(test, row)
  }

  /** The probe test for each rotation. */
  function RotationTests(t: BlockType, pieces: seq<Piece>): Rotation -> AnchorTest
  {
    rotation => FitsTest(t, rotation, pieces)
  }

  /** Some rotation of the list has an anchor its test accepts. */
  ghost predicate SomeRotation(tests: Rotation -> AnchorTest, rotations: seq<Rotation>)
  {
    exists ri :: 0 <= ri < |rotations| && AnyAnchor(tests(rotations[ri]))
  }

  /** Some rotation of ROTATIONS and some tried anchor give a valid placement. */
  ghost predicate CanPlace(t: BlockType, pieces: seq<Piece>)
  {
    SomeRotation(RotationTests(t, pieces), ROTATIONS)
  }

  /** canPlacePieceType: rotations outermost, then rows, then columns; true at
      the first valid placement. */
  method CanPlacePieceType(t: BlockType, piecesList: seq<Piece>) returns (can: bool)
    ensures can <==> CanPlace(t, piecesList)
  {
    can := FitsSomeRotation(RotationTests(t, piecesList), ROTATIONS);
  }

  /** The rotation loop: true at the first rotation with an accepted anchor. */
  method FitsSomeRotation(tests: Rotation -> AnchorTest, rotations: seq<Rotation>) returns (found: bool)
    ensures found <==> SomeRotation(tests, rotations)
  {
    var ri := 0;
    while ri < |rotations|
      invariant 0 <= ri <= |rotations|
      invariant forall r :: 0 <= r < ri ==> !AnyAnchor(tests(rotations[r]))
    {
      found := FitsSomewhere(tests(rotations[ri]));
      if found {
        return;
      }
      ri := ri + 1;
    }
    found := false;
  }

  /** The two inner loops, for one rotation: rows, then columns, stopping at
      the first anchor the test accepts. */
  method FitsSomewhere(test: AnchorTest) returns (found: bool)
    ensures found <==> AnyAnchor(test)
  {
    var row := 0;
    while row <= GRID_SIZE - BLOCK_DIMENSION
      invariant 0 <= row <= GRID_SIZE - BLOCK_DIMENSION + 1
      invariant forall r :: 0 <= r < row ==> !RowHas(test, r)
    {
      found := FitsInRow(test, row);
      if found {
        return;
      }
      row := row + 1;
    }
    found := false;
  }

  /** The innermost loop, for one row. */
  method FitsInRow(test: AnchorTest, row: int) returns (found: bool)
    ensures found <==> RowHas(test, row)
  {
    var col := 0;
    while col <= GRID_SIZE - BLOCK_DIMENSION
      invariant 0 <= col <= GRID_SIZE - BLOCK_DIMENSION + 1
      invariant forall c :: 0 <= c < col ==> !test(row, c)
    {
      var valid := test(row, col);
      if valid {
        return true;
      }
      col := col + 1;
    }
    return false;
  }

  /** A tried anchor keeps every cell of every rotation on the board. */
  lemma TriedAnchorOnBoard(t: BlockType, rotation: Rotation, row: int, col: int)
    requires TriedAnchor(row, col)
    ensures forall c :: c in GetPieceCells(Probe(t, rotation, row, col)) ==> InGrid(c)
  {
    var pattern := GetRotatedPattern(t, rotation);
    forall c | c in GetPieceCells(Probe(t, rotation, row, col)) ensures InGrid(c) {
      var i :| 0 <= i < |pattern| && GetPieceCells(Probe(t, rotation, row, col))[i] == c;
      assert 0 <= pattern[i].row < BLOCK_DIMENSION && 0 <= pattern[i].col < BLOCK_DIMENSION;
    }
  }

  /** When the type fits nowhere, every tried placement has a cell that a piece
      on the board blocks: failure is only ever caused by overlap. */
  lemma CannotPlaceMeansOverlap(t: BlockType, pieces: seq<Piece>, ri: int, row: int, col: int)
    requires !CanPlace(t, pieces)
    requires 0 <= ri < |ROTATIONS| && TriedAnchor(row, col)
    ensures exists c :: c in GetPieceCells(Probe(t, ROTATIONS[ri], row, col)) && Covered(pieces, None, c)
  {
    assert RotationTests(t, pieces)(ROTATIONS[ri]) == FitsTest(t, ROTATIONS[ri], pieces);
    assert !AnyAnchor(FitsTest(t, ROTATIONS[ri], pieces));
    assert !RowHas(FitsTest(t, ROTATIONS[ri], pieces), row);
    assert !FitsTest(t, ROTATIONS[ri], pieces)(row, col);
    var probe := Probe(t, ROTATIONS[ri], row, col);
    ValidIffUnblocked(probe, pieces, None);
    TriedAnchorOnBoard(t, ROTATIONS[ri], row, col);
    var c :| c in GetPieceCells(probe) && !(InGrid(c) && Blocker(Occupancy(pieces, None), c) == None);
    OccupancyOwner(pieces, None, c);
  }

  /** On an empty board every type fits (at rotation 0, anchor (0, 0)). */
  lemma EmptyBoardFits(t: BlockType)
    ensures CanPlace(t, [])
  {
    ValidIffUnblocked(Probe(t, 0, 0, 0), [], None);
    TriedAnchorOnBoard(t, 0, 0, 0);
    assert Occupancy([], None) == map[];
    assert FitsTest(t, 0, [])(0, 0);
    assert RowHas(FitsTest(t, 0, []), 0);
    assert RotationTests(t, [])(ROTATIONS[0]) == FitsTest(t, 0, []);
    assert AnyAnchor(RotationTests(t, [])(ROTATIONS[0]));
  }
}
