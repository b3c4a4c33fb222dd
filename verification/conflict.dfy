/** components/game/partB/usePartBConflict.ts: the record of the last rejected
    placement (its cells, the piece being moved, the pieces in the way), the
    interaction gate it imposes, and the cell sets the board highlights. */
module PartBConflict {
  import opened Cells
  import opened PartBTypes
  import opened Wrappers
  import opened PatternUtils

  /** An optional id the source treats as true in a test: present and non-empty. */
  predicate Truthy(id: Option<string>)
  {
    id.Some? && id.value != ""
  }

  /** `new Set(cells.map(key))`: the cells of a list as a set (the source keys
      them by "row:col", one key per cell). */
  function CellSet(cells: seq<Cell>): (r: set<Cell>)
    ensures forall c :: c in r <==> c in cells
  {
    if cells == [] then {}
    else
      var n := |cells| - 1;
      assert cells == cells[..n] + [cells[n]];
      CellSet(cells[..n]) + {cells[n]}
  }

  /** getBlockingCellSet: for each blocking id in order, the cells of the first
      piece with that id; ids with no piece add nothing. */
  function BlockingCells(ids: seq<string>, pieces: seq<Piece>): set<Cell>
  {
    BlockingCellsBy(ids, pieces, GetPieceCells)
  }

  /** The same for any way of finding a piece's cells. */
  function BlockingCellsBy(ids: seq<string>, pieces: seq<Piece>, cellsOf: Piece -> seq<Cell>): set<Cell>
  {
    if ids == [] then {}
    else
      var n := |ids| - 1;
      var k := FindIndex(pieces, ids[n]);
      BlockingCellsBy(ids[..n], pieces, cellsOf) + (if k < 0 then {} else CellSet(cellsOf(pieces[k])))
  }

  /** The first piece found for `id` exists and covers `c`. */
  predicate FoundCovers(pieces: seq<Piece>, id: string, cellsOf: Piece -> seq<Cell>, c: Cell)
  {
    FindIndex(pieces, id) >= 0 && c in cellsOf(pieces[FindIndex(pieces, id)])
  }

  lemma {:induction false} BlockingCellsByMembers(ids: seq<string>, pieces: seq<Piece>, cellsOf: Piece -> seq<Cell>, c: Cell)
    ensures c in BlockingCellsBy(ids, pieces, cellsOf) <==> exists i :: 0 <= i < |ids| && FoundCovers(pieces, ids[i], cellsOf, c)
  {
    if ids != [] {
      var n := |ids| - 1;
      BlockingCellsByMembers(ids[..n], pieces, cellsOf, c);
      assert forall i :: 0 <= i < n ==> ids[..n][i] == ids[i];
      if exists i :: 0 <= i < |ids| && FoundCovers(pieces, ids[i], cellsOf, c) {
        var i :| 0 <= i < |ids| && FoundCovers(pieces, ids[i], cellsOf, c);
        if i < n {
          assert FoundCovers(pieces, ids[..n][i], cellsOf, c);
        }
      }
    }
  }

  /** A cell is highlighted exactly when it belongs to the first piece found for
      one of the blocking ids. */
  lemma BlockingCellsMembers(ids: seq<string>, pieces: seq<Piece>, c: Cell)
    ensures c in BlockingCells(ids, pieces) <==> exists i :: 0 <= i < |ids| && FoundCovers(pieces, ids[i], GetPieceCells, c)
  {
    BlockingCellsByMembers(ids, pieces, GetPieceCells, c);
  }

  /** `BlockingCellsMembers` for every cell at once. */
  lemma BlockingCellsAll(ids: seq<string>, pieces: seq<Piece>)
    ensures forall c :: c in BlockingCells(ids, pieces) <==>
      exists i :: 0 <= i < |ids| && FoundCovers(pieces, ids[i], GetPieceCells, c)
  {
    forall c ensures c in BlockingCells(ids, pieces) <==>
      exists i :: 0 <= i < |ids| && FoundCovers(pieces, ids[i], GetPieceCells, c)
    {
      BlockingCellsMembers(ids, pieces, c);
    }
  }

  /** With ids unique on the board: a cell is highlighted exactly when some
      piece whose id is blocking covers it; unknown ids are ignored. */
  lemma BlockingCellsUnique(ids: seq<string>, pieces: seq<Piece>, c: Cell)
    requires forall i, j :: 0 <= i < j < |pieces| ==> pieces[i].id != pieces[j].id
    ensures c in BlockingCells(ids, pieces) <==>
      exists k :: 0 <= k < |pieces| && pieces[k].id in ids && c in GetPieceCells(pieces[k])
  {
    BlockingCellsUniqueBy(ids, pieces, GetPieceCells, c);
  }

  lemma BlockingCellsUniqueBy(ids: seq<string>, pieces: seq<Piece>, cellsOf: Piece -> seq<Cell>, c: Cell)
    requires forall i, j :: 0 <= i < j < |pieces| ==> pieces[i].id != pieces[j].id
    ensures c in BlockingCellsBy(ids, pieces, cellsOf) <==>
      exists k :: 0 <= k < |pieces| && pieces[k].id in ids && c in cellsOf(pieces[k])
  {
    BlockingCellsByMembers(ids, pieces, cellsOf, c);
    if exists k :: 0 <= k < |pieces| && pieces[k].id in ids && c in cellsOf(pieces[k]) {
      var k :| 0 <= k < |pieces| && pieces[k].id in ids && c in cellsOf(pieces[k]);
      var i :| 0 <= i < |ids| && ids[i] == pieces[k].id;
      assert FindIndex(pieces, ids[i]) == k;
      assert FoundCovers(pieces, ids[i], cellsOf, c);
    }
    if exists i :: 0 <= i < |ids| && FoundCovers(pieces, ids[i], cellsOf, c) {
      var i :| 0 <= i < |ids| && FoundCovers(pieces, ids[i], cellsOf, c);
      var k := FindIndex(pieces, ids[i]);
      assert pieces[k].id in ids;
    }
  }

  /** The conflict record of usePartBConflict. */
  class ConflictState {
    var conflictCells: seq<Cell>
    var conflictPieceId: Option<string>
    var blockingPieceIds: seq<string>

    /** The initial state: no cells, no piece, no blocking ids. */
    constructor ()
      ensures conflictCells == [] && conflictPieceId == None && blockingPieceIds == []
    {
      conflictCells := [];
      conflictPieceId := None;
      blockingPieceIds := [];
    }

    /** clearConflict: everything emptied. */
    method ClearConflict()
      modifies this
      ensures conflictCells == [] && conflictPieceId == None && blockingPieceIds == []
    {
      conflictCells := [];
      conflictPieceId := None;
      blockingPieceIds := [];
    }

    /** setConflictState: the three given values stored as they are. */
    method SetConflictState(pieceId: Option<string>, cells: seq<Cell>, blockingIds: seq<string>)
      modifies this
      ensures conflictPieceId == pieceId && conflictCells == cells && blockingPieceIds == blockingIds
    {
      conflictPieceId := pieceId;
      conflictCells := cells;
      blockingPieceIds := blockingIds;
    }

    /** canInteractWithPiece: anything goes while no conflict piece is recorded;
        otherwise only the recorded piece may be touched, and a call without an
        id is refused. */
    function CanInteractWithPiece(pieceId: Option<string>): (r: bool)
      reads this
      ensures !Truthy(conflictPieceId) ==> r
      ensures Truthy(conflictPieceId) ==> (r <==> pieceId == conflictPieceId)
      ensures Truthy(conflictPieceId) && pieceId == None ==> !r
    {
      if !Truthy(conflictPieceId) then true
      else if Truthy(pieceId) then conflictPieceId == pieceId
      else false
    }

    /** conflictCellSet: exactly the recorded conflict cells. */
    function ConflictCellSet(): (r: set<Cell>)
      reads this
      ensures forall c :: c in r <==> c in conflictCells
    {
      CellSet(conflictCells)
    }

    /** getBlockingCellSet over the given pieces: the cells of the first piece
        found for each blocking id. */
    function GetBlockingCellSet(pieces: seq<Piece>): (r: set<Cell>)
      reads this
      ensures forall c :: c in r <==>
        exists i :: 0 <= i < |blockingPieceIds| && FoundCovers(pieces, blockingPieceIds[i], GetPieceCells, c)
    {
      BlockingCellsAll(blockingPieceIds, pieces);
      BlockingCells(blockingPieceIds, pieces)
    }
  }
}
