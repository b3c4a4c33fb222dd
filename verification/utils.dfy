/** components/game/partB/utils.ts: rotating a shape by quarter turns in the
    3x3 block box, the derived occupancy grid and the bounds clamp. */
module PatternUtils {
  import opened Cells
  import opened GameConstants
  import opened PartBConstants
  import opened PartBTypes

  /** One quarter turn of a single cell in the block box: (r, c) -> (c, 2 - r). */
  function TurnCell(c: Cell): Cell
  {
    Cell(c.col, BLOCK_DIMENSION - 1 - c.row)
  }

  /** `TurnCell` applied `k` times. */
  function TurnCellTimes(c: Cell, k: nat): Cell
  {
    if k == 0 then c else TurnCell(TurnCellTimes(c, k - 1))
  }

  /** The pattern after `k` quarter turns: `k` passes of the element-wise step. */
  function Rotated(p: seq<Cell>, k: nat): seq<Cell>
  {
    if k == 0 then p else QuarterTurn(Rotated(p, k - 1), BLOCK_DIMENSION)
  }

  /** rotatePattern: for rotation 0 the pattern itself, otherwise `rotation / 90`
      passes of the step, each building a new list. */
  method RotatePattern(pattern: seq<Cell>, rotation: Rotation) returns (rotated: seq<Cell>)
    ensures rotated == Rotated(pattern, rotation / 90)
    ensures |rotated| == |pattern|
    ensures forall i :: 0 <= i < |pattern| ==> rotated[i] == TurnCellTimes(pattern[i], rotation / 90)
  {
    if rotation == 0 {
      return pattern;
    }
    rotated := pattern;
    var steps := rotation / 90;
    var i := 0;
    while i < steps
      invariant 0 <= i <= steps
      invariant rotated == Rotated(pattern, i)
    {
      rotated := QuarterTurn(rotated, BLOCK_DIMENSION);
      i := i + 1;
    }
    RotatedElementwise(pattern, steps);
  }

  /** Rotating keeps the number and the order of the cells: cell i of the result
      is cell i of the input turned `k` times. */
  lemma {:induction false} RotatedElementwise(p: seq<Cell>, k: nat)
    ensures |Rotated(p, k)| == |p|
    ensures forall i :: 0 <= i < |p| ==> Rotated(p, k)[i] == TurnCellTimes(p[i], k)
  {
    if k > 0 {
      RotatedElementwise(p, k - 1);
      forall i | 0 <= i < |p| ensures Rotated(p, k)[i] == TurnCellTimes(p[i], k) {
        QuarterTurnAt(Rotated(p, k - 1), BLOCK_DIMENSION, i);
      }
    }
  }

  /** Four quarter turns bring every cell back. */
  lemma FourTurnsCell(c: Cell)
    ensures TurnCellTimes(c, 4) == c
  {
    assert TurnCellTimes(c, 1) == Cell(c.col, 2 - c.row);
    assert TurnCellTimes(c, 2) == Cell(2 - c.row, 2 - c.col);
    assert TurnCellTimes(c, 3) == Cell(2 - c.col, c.row);
  }

  /** Four quarter turns give back the original pattern; in particular one more
      turn after 270 degrees returns to the unrotated pattern. */
  lemma {:induction false} FourTurnsIdentity(p: seq<Cell>)
    ensures Rotated(p, 4) == p
    ensures QuarterTurn(Rotated(p, 3), BLOCK_DIMENSION) == p
  {
    RotatedElementwise(p, 4);
    forall i | 0 <= i < |p| ensures Rotated(p, 4)[i] == p[i] {
      FourTurnsCell(p[i]);
    }
    assert Rotated(p, 4) == QuarterTurn(Rotated(p, 3), BLOCK_DIMENSION);
  }

  /** The step maps the 3x3 block box onto itself. */
  lemma {:induction false} RotatedInBox(p: seq<Cell>, k: nat)
    requires InBlockBox(p)
    ensures InBlockBox(Rotated(p, k))
  {
    if k > 0 {
      RotatedInBox(p, k - 1);
      var q := Rotated(p, k - 1);
      forall i | 0 <= i < |q| ensures 0 <= QuarterTurn(q, BLOCK_DIMENSION)[i].row < BLOCK_DIMENSION
                                  && 0 <= QuarterTurn(q, BLOCK_DIMENSION)[i].col < BLOCK_DIMENSION {
        QuarterTurnAt(q, BLOCK_DIMENSION, i);
      }
    }
  }

  /** The step is injective, so a rotated pattern has no repeated cells either. */
  lemma {:induction false} RotatedDistinct(p: seq<Cell>, k: nat)
    requires Distinct(p)
    ensures Distinct(Rotated(p, k))
  {
    if k > 0 {
      RotatedDistinct(p, k - 1);
      var q := Rotated(p, k - 1);
      var r := QuarterTurn(q, BLOCK_DIMENSION);
      forall i, j | 0 <= i < j < |r| ensures r[i] != r[j] {
        QuarterTurnAt(q, BLOCK_DIMENSION, i);
        QuarterTurnAt(q, BLOCK_DIMENSION, j);
      }
    }
  }

  /** getRotatedPattern: the shape of a piece type at a rotation. */
  function GetRotatedPattern(t: BlockType, rotation: Rotation): (r: seq<Cell>)
    ensures |r| == |BlockShape(t)|
    ensures InBlockBox(r) && Distinct(r)
    ensures rotation == 0 ==> r == BlockShape(t)
  {
    RotatedElementwise(BlockShape(t), rotation / 90);
    RotatedInBox(BlockShape(t), rotation / 90);
    RotatedDistinct(BlockShape(t), rotation / 90);
    Rotated(BlockShape(t), rotation / 90)
  }

  /** clampCell: each coordinate forced into [0, GRID_SIZE - 1]. */
  function ClampCell(row: int, col: int): (c: Cell)
    ensures InGrid(c)
    ensures 0 <= row < GRID_SIZE ==> c.row == row
    ensures 0 <= col < GRID_SIZE ==> c.col == col
    ensures row < 0 ==> c.row == 0
    ensures row >= GRID_SIZE ==> c.row == GRID_SIZE - 1
    ensures col < 0 ==> c.col == 0
    ensures col >= GRID_SIZE ==> c.col == GRID_SIZE - 1
  {
    Cell(Max(0, Min(row, GRID_SIZE - 1)), Max(0, Min(col, GRID_SIZE - 1)))
  }

  function Min(a: int, b: int): int { if a <= b then a else b }
  function Max(a: int, b: int): int { if a >= b then a else b }

  /** The cell lies on the board. */
  predicate InGrid(c: Cell)
  {
    0 <= c.row < GRID_SIZE && 0 <= c.col < GRID_SIZE
  }

  /** getPieceCells (components/game/partB/wBlockDetection.ts): the cells a piece
      covers, its rotated shape shifted to its anchor. Declared here because the
      derived grid is specified with it. */
  function GetPieceCells(p: Piece): (r: seq<Cell>)
    ensures |r| == |BlockShape(p.blockType)|
    ensures forall i :: 0 <= i < |r| ==>
      r[i] == Cell(GetRotatedPattern(p.blockType, p.rotation)[i].row + p.anchorRow,
                   GetRotatedPattern(p.blockType, p.rotation)[i].col + p.anchorCol)
  {
    Translate(GetRotatedPattern(p.blockType, p.rotation), p.anchorRow, p.anchorCol)
  }

  /** The value a piece writes: 3 for a W-block piece, otherwise 1 for RFB, 2 for LFB. */
  function Tag(p: Piece): int
  {
    if p.isWBlock then 3 else if p.blockType == RFB then 1 else 2
  }

  /** The value of a board cell after writing `pieces` in order onto an empty
      grid: the tag of the last piece covering the cell, or 0. */
  function TagAt(pieces: seq<Piece>, c: Cell): int
  {
    if pieces == [] then 0
    else
      var last := pieces[|pieces| - 1];
      if c in GetPieceCells(last) then Tag(last) else TagAt(pieces[..|pieces| - 1], c)
  }

  /** buildGridFromPieces: start from an empty GRID_SIZE x GRID_SIZE grid and,
      piece after piece, write the piece's tag into each of its cells that lies
      on the board. */
  method BuildGridFromPieces(pieces: seq<Piece>) returns (grid: array2<int>)
    ensures fresh(grid)
    ensures grid.Length0 == GRID_SIZE && grid.Length1 == GRID_SIZE
    ensures forall r, c :: 0 <= r < GRID_SIZE && 0 <= c < GRID_SIZE ==> grid[r, c] == TagAt(pieces, Cell(r, c))
  {
    grid := new int[GRID_SIZE, GRID_SIZE]((r, c) => 0);
    var k := 0;
    while k < |pieces|
      invariant 0 <= k <= |pieces|
      invariant forall r, c :: 0 <= r < GRID_SIZE && 0 <= c < GRID_SIZE ==> grid[r, c] == TagAt(pieces[..k], Cell(r, c))
    {
      PaintNext(grid, pieces, k);
      k := k + 1;
    }
    assert pieces[..k] == pieces;
  }

  /** One turn of buildGridFromPieces' loop: the grid showing the first `k`
      pieces comes to show the first `k + 1`. */
  method PaintNext(grid: array2<int>, pieces: seq<Piece>, k: int)
    requires grid.Length0 == GRID_SIZE && grid.Length1 == GRID_SIZE
    requires 0 <= k < |pieces|
    requires forall r, c :: 0 <= r < GRID_SIZE && 0 <= c < GRID_SIZE ==> grid[r, c] == TagAt(pieces[..k], Cell(r, c))
    modifies grid
    ensures forall r, c :: 0 <= r < GRID_SIZE && 0 <= c < GRID_SIZE ==> grid[r, c] == TagAt(pieces[..k + 1], Cell(r, c))
  {
    PaintPiece(grid, pieces[k]);
    TagStep(pieces, k);
  }

  /** Writing one more piece: its cells take its tag, the others keep theirs. */
  lemma TagStep(pieces: seq<Piece>, k: int)
    requires 0 <= k < |pieces|
    ensures forall c :: TagAt(pieces[..k + 1], c) == if c in GetPieceCells(pieces[k]) then Tag(pieces[k]) else TagAt(pieces[..k], c)
  {
    assert pieces[..k + 1][..k] == pieces[..k];
    assert pieces[..k + 1][k] == pieces[k];
  }

  /** One piece of buildGridFromPieces: its tag written into each of its cells
      that lies on the board, every other cell unchanged. */
  method PaintPiece(grid: array2<int>, piece: Piece)
    requires grid.Length0 == GRID_SIZE && grid.Length1 == GRID_SIZE
    modifies grid
    ensures forall r, c :: 0 <= r < GRID_SIZE && 0 <= c < GRID_SIZE ==>
      grid[r, c] == if Cell(r, c) in GetPieceCells(piece) then Tag(piece) else old(grid[r, c])
  {
    var pattern := GetRotatedPattern(piece.blockType, piece.rotation);
    var value := if piece.isWBlock then 3 else if piece.blockType == RFB then 1 else 2;
    PaintCells(grid, pattern, piece.anchorRow, piece.anchorCol, value);
  }

  /** The inner loop: `value` written at every in-bounds cell of `pattern`
      shifted by (dr, dc). */
  method PaintCells(grid: array2<int>, pattern: seq<Cell>, dr: int, dc: int, value: int)
    requires grid.Length0 == GRID_SIZE && grid.Length1 == GRID_SIZE
    modifies grid
    ensures forall r, c :: 0 <= r < GRID_SIZE && 0 <= c < GRID_SIZE ==>
      grid[r, c] == if Cell(r, c) in Translate(pattern, dr, dc) then value else old(grid[r, c])
  {
    ghost var cells := Translate(pattern, dr, dc);
    var j := 0;
    while j < |pattern|
      invariant 0 <= j <= |pattern|
      invariant forall r, c :: 0 <= r < GRID_SIZE && 0 <= c < GRID_SIZE ==>
        grid[r, c] == if Cell(r, c) in cells[..j] then value else old(grid[r, c])
    {
      var row := dr + pattern[j].row;
      var col := dc + pattern[j].col;
      PrefixMember(cells, j);
      assert cells[j] == Cell(row, col);
      if row >= 0 && col >= 0 && row < GRID_SIZE && col < GRID_SIZE {
        grid[row, col] := value;
      }
      j := j + 1;
    }
    assert cells[..j] == cells;
  }

  /** Growing a prefix by one element adds exactly that element. */
  lemma PrefixMember(s: seq<Cell>, j: int)
    requires 0 <= j < |s|
    ensures forall x :: x in s[..j + 1] <==> x in s[..j] || x == s[j]
  {
    assert s[..j + 1] == s[..j] + [s[j]];
  }

  /** A cell no piece covers stays empty. */
  lemma {:induction false} TagUncovered(pieces: seq<Piece>, c: Cell)
    requires forall k :: 0 <= k < |pieces| ==> c !in GetPieceCells(pieces[k])
    ensures TagAt(pieces, c) == 0
  {
    if pieces != [] {
      var n := |pieces| - 1;
      assert forall k :: 0 <= k < n ==> pieces[..n][k] == pieces[k];
      TagUncovered(pieces[..n], c);
    }
  }

  /** A cell holds the tag of the last piece of the list that covers it. */
  lemma {:induction false} TagLastCover(pieces: seq<Piece>, k: int, c: Cell)
    requires 0 <= k < |pieces| && c in GetPieceCells(pieces[k])
    requires forall j :: k < j < |pieces| ==> c !in GetPieceCells(pieces[j])
    ensures TagAt(pieces, c) == Tag(pieces[k])
  {
    var n := |pieces| - 1;
    if k < n {
      var prefix := pieces[..n];
      assert forall j :: 0 <= j < n ==> prefix[j] == pieces[j];
      assert c !in GetPieceCells(pieces[n]);
      assert TagAt(pieces, c) == TagAt(prefix, c);
      TagLastCover(prefix, k, c);
    } else {
      assert pieces[|pieces| - 1] == pieces[k];
    }
  }


  /** No two pieces of the list share a cell. */
  predicate PiecesDisjoint(pieces: seq<Piece>)
  {
    forall i, j :: 0 <= i < j < |pieces| ==> NoSharedCell(GetPieceCells(pieces[i]), GetPieceCells(pieces[j]))
  }

  /** When pieces do not overlap, a covered cell holds its owner's tag, whatever
      the order of the list. */
  lemma TagOwner(pieces: seq<Piece>, k: int, c: Cell)
    requires PiecesDisjoint(pieces)
    requires 0 <= k < |pieces| && c in GetPieceCells(pieces[k])
    ensures TagAt(pieces, c) == Tag(pieces[k])
  {
    forall j | k < j < |pieces| ensures c !in GetPieceCells(pieces[j]) {
      assert NoSharedCell(GetPieceCells(pieces[k]), GetPieceCells(pieces[j]));
    }
    TagLastCover(pieces, k, c);
  }

  /** Every board value is one of the four tags. */
  lemma {:induction false} TagRange(pieces: seq<Piece>, c: Cell)
    ensures 0 <= TagAt(pieces, c) <= 3
    ensures TagAt(pieces, c) == 0 || exists k :: 0 <= k < |pieces| && c in GetPieceCells(pieces[k]) && TagAt(pieces, c) == Tag(pieces[k])
  {
    if pieces != [] {
      var n := |pieces| - 1;
      var prefix := pieces[..n];
      assert forall k :: 0 <= k < n ==> prefix[k] == pieces[k];
      TagRange(prefix, c);
      if c in GetPieceCells(pieces[n]) {
        assert TagAt(pieces, c) == Tag(pieces[n]);
      } else {
        assert TagAt(pieces, c) == TagAt(prefix, c);
        if TagAt(prefix, c) != 0 {
          var k :| 0 <= k < n && c in GetPieceCells(prefix[k]) && TagAt(prefix, c) == Tag(prefix[k]);
          assert c in GetPieceCells(pieces[k]) && TagAt(pieces, c) == Tag(pieces[k]);
        }
      }
    }
  }
}
