/** components/game/PartBGrid.tsx: the Part B board session. It holds the placed
    pieces, the two available counters, the piece-id counter, the piece hidden
    while it is dragged and the conflict record. It places, moves and rotates
    pieces through validatePlacement, re-tags W-block pieces after every change,
    and builds the grid that is shown. */
module PartBSession {
  import opened Cells
  import opened GameConstants
  import opened PartBConstants
  import opened PartBTypes
  import opened Wrappers
  import opened PatternUtils
  import opened WBlockDetection
  import opened PieceValidation
  import opened PartBConflict

  // ---------------------------------------------------------------------------
  // Piece ids: `piece-${counter}`

  /** The decimal digit for 0..9. */
  function DigitChar(d: int): char
    requires 0 <= d < 10
  {
    ('0' as int + d) as char
  }

  /** The decimal numeral of `n` (the template literal's rendering of a counter). */
  function Digits(n: nat): (r: string)
    ensures |r| >= 1
    ensures forall i :: 0 <= i < |r| ==> '0' <= r[i] <= '9'
  {
    if n < 10 then [DigitChar(n)] else Digits(n / 10) + [DigitChar(n % 10)]
  }

  /** Different numbers have different numerals. */
  lemma {:induction false} DigitsInjective(a: nat, b: nat)
    requires Digits(a) == Digits(b)
    ensures a == b
  {
    if a < 10 && b < 10 {
      assert Digits(a)[0] == Digits(b)[0];
    } else if a >= 10 && b >= 10 {
      var da, db := Digits(a / 10), Digits(b / 10);
      var n := |Digits(a)| - 1;
      assert da == Digits(a)[..n];
      assert db == Digits(b)[..n];
      DigitsInjective(a / 10, b / 10);
      assert Digits(a)[n] == DigitChar(a % 10) && Digits(b)[n] == DigitChar(b % 10);
    }
  }

  /** The id getNextPieceId hands out when the counter reaches `n`. */
  function PieceId(n: nat): string
  {
    "piece-" + Digits(n)
  }

  /** Piece ids are never empty, never contain ':' and never repeat. */
  lemma PieceIdFacts(a: nat, b: nat)
    ensures PieceId(a) != "" && ':' !in PieceId(a)
    ensures PieceId(a) == PieceId(b) ==> a == b
  {
    var pa := PieceId(a);
    assert forall i :: 6 <= i < |pa| ==> pa[i] == Digits(a)[i - 6];
    if PieceId(a) == PieceId(b) {
      assert Digits(a) == PieceId(a)[6..] && Digits(b) == PieceId(b)[6..];
      DigitsInjective(a, b);
    }
  }

  /** `id` is one of the ids handed out while the counter went up to `counter`. */
  ghost predicate Issued(id: string, counter: nat)
  {
    exists n :: 1 <= n <= counter && id == PieceId(n)
  }

  // ---------------------------------------------------------------------------
  // The board invariant

  /** Every cell of the piece lies on the board. */
  predicate PieceOnBoard(p: Piece)
  {
    forall c :: c in GetPieceCells(p) ==> InGrid(c)
  }

  /** The two pieces share no cell. */
  predicate PiecesApart(p: Piece, q: Piece)
  {
    NoSharedCell(GetPieceCells(p), GetPieceCells(q))
  }

  /** No two pieces share an id. */
  predicate UniqueIds(pieces: seq<Piece>)
  {
    forall i, j :: 0 <= i < j < |pieces| ==> pieces[i].id != pieces[j].id
  }

  /** Every piece carries an id issued by the counter. */
  ghost predicate IdsIssued(pieces: seq<Piece>, counter: nat)
  {
    forall k {:trigger Issued(pieces[k].id, counter)} :: 0 <= k < |pieces| ==> Issued(pieces[k].id, counter)
  }

  /** What every operation of the session keeps: pieces on the board, pairwise
      disjoint, with unique ids issued by the counter. */
  ghost predicate Board(pieces: seq<Piece>, counter: nat)
  {
    (forall k {:trigger PieceOnBoard(pieces[k])} :: 0 <= k < |pieces| ==> PieceOnBoard(pieces[k])) &&
    (forall i, j {:trigger PiecesApart(pieces[i], pieces[j])} :: 0 <= i < j < |pieces| ==> PiecesApart(pieces[i], pieces[j])) &&
    UniqueIds(pieces) && IdsIssued(pieces, counter)
  }

  /** On a valid board no two pieces overlap. */
  lemma BoardDisjoint(pieces: seq<Piece>, counter: nat)
    requires Board(pieces, counter)
    ensures PiecesDisjoint(pieces)
  {
    forall i, j | 0 <= i < j < |pieces|
      ensures NoSharedCell(GetPieceCells(pieces[i]), GetPieceCells(pieces[j]))
    {
      assert PiecesApart(pieces[i], pieces[j]);
    }
  }

  /** Issued ids are non-empty and free of ':', so the board is well named. */
  lemma IssuedIdsWellNamed(pieces: seq<Piece>, counter: nat)
    requires UniqueIds(pieces) && IdsIssued(pieces, counter)
    ensures NonEmptyIds(pieces) && WellNamed(pieces)
  {
    forall k | 0 <= k < |pieces| ensures pieces[k].id != "" && ':' !in pieces[k].id {
      assert Issued(pieces[k].id, counter);
      var n :| 1 <= n <= counter && pieces[k].id == PieceId(n);
      PieceIdFacts(n, n);
    }
  }

  /** An accepted candidate covers only on-board cells that no piece outside
      the ignored one covers. */
  lemma AcceptedCells(candidate: Piece, pieces: seq<Piece>, ignore: Option<string>, counter: nat)
    requires UniqueIds(pieces) && IdsIssued(pieces, counter)
    requires Validate(candidate, pieces, ignore).valid
    ensures forall c :: c in GetPieceCells(candidate) ==> InGrid(c)
    ensures forall k, c :: 0 <= k < |pieces| && !Ignored(pieces[k], ignore) && c in GetPieceCells(candidate) ==>
      c !in GetPieceCells(pieces[k])
  {
    IssuedIdsWellNamed(pieces, counter);
    ValidPlacementMeaning(candidate, pieces, ignore);
    forall k, c | 0 <= k < |pieces| && !Ignored(pieces[k], ignore) && c in GetPieceCells(candidate)
      ensures c !in GetPieceCells(pieces[k])
    {
      assert !CoversAt(pieces, ignore, GetPieceCells, c, k);
    }
  }

  /** placeNewPiece keeps the board invariant: an accepted candidate carrying the
      next id can be appended. */
  lemma PlaceKeepsBoard(pieces: seq<Piece>, counter: nat, candidate: Piece)
    requires Board(pieces, counter)
    requires candidate.id == PieceId(counter + 1)
    requires Validate(candidate, pieces, None).valid
    ensures Board(pieces + [candidate], counter + 1)
  {
    AcceptedCells(candidate, pieces, None, counter);
    var next := pieces + [candidate];
    var n := |pieces|;
    forall k | 0 <= k < |next| ensures PieceOnBoard(next[k]) {
      if k < n {
        assert next[k] == pieces[k] && PieceOnBoard(pieces[k]);
      }
    }
    forall i, j | 0 <= i < j < |next| ensures PiecesApart(next[i], next[j]) {
      assert next[i] == pieces[i];
      if j == n {
        assert !Ignored(pieces[i], None);
      } else {
        assert next[j] == pieces[j] && PiecesApart(pieces[i], pieces[j]);
      }
    }
    AppendKeepsIds(pieces, counter, candidate);
  }

  /** Appending a piece with the next id keeps ids unique and issued. */
  lemma AppendKeepsIds(pieces: seq<Piece>, counter: nat, candidate: Piece)
    requires UniqueIds(pieces) && IdsIssued(pieces, counter)
    requires candidate.id == PieceId(counter + 1)
    ensures UniqueIds(pieces + [candidate]) && IdsIssued(pieces + [candidate], counter + 1)
  {
    var next := pieces + [candidate];
    var n := |pieces|;
    IssuedGrows(pieces, counter);
    forall k | 0 <= k < |next| ensures Issued(next[k].id, counter + 1) {
      if k < n {
        assert next[k] == pieces[k] && Issued(pieces[k].id, counter + 1);
      }
    }
    forall i | 0 <= i < n ensures pieces[i].id != candidate.id {
      assert Issued(pieces[i].id, counter);
      var m :| 1 <= m <= counter && pieces[i].id == PieceId(m);
      PieceIdFacts(m, counter + 1);
    }
  }

  /** moveExistingPiece and rotatePiece keep the board invariant: an accepted
      candidate with the moved piece's id can take its place. */
  lemma ReplaceKeepsBoard(pieces: seq<Piece>, counter: nat, index: int, candidate: Piece)
    requires Board(pieces, counter)
    requires 0 <= index < |pieces| && candidate.id == pieces[index].id
    requires Validate(candidate, pieces, Some(candidate.id)).valid
    ensures Board(pieces[index := candidate], counter)
  {
    var ignore := Some(candidate.id);
    AcceptedCells(candidate, pieces, ignore, counter);
    var next := pieces[index := candidate];
    forall k | 0 <= k < |next| ensures PieceOnBoard(next[k]) && Issued(next[k].id, counter) {
      assert PieceOnBoard(pieces[k]) && Issued(pieces[k].id, counter);
    }
    forall i, j | 0 <= i < j < |next| ensures PiecesApart(next[i], next[j]) && next[i].id != next[j].id {
      if i == index {
        assert !Ignored(pieces[j], ignore);
      } else if j == index {
        assert !Ignored(pieces[i], ignore);
      } else {
        assert PiecesApart(pieces[i], pieces[j]);
      }
    }
  }

  /** Handing out one more id keeps every issued id issued. */
  lemma IssuedGrows(pieces: seq<Piece>, counter: nat)
    requires IdsIssued(pieces, counter)
    ensures IdsIssued(pieces, counter + 1)
  {
    forall k | 0 <= k < |pieces| ensures Issued(pieces[k].id, counter + 1) {
      assert Issued(pieces[k].id, counter);
      var m :| 1 <= m <= counter && pieces[k].id == PieceId(m);
      assert 1 <= m <= counter + 1;
    }
  }

  // ---------------------------------------------------------------------------
  // Rotation

  /** `ROTATIONS[(ROTATIONS.indexOf(rotation) + 1) % ROTATIONS.length]`. */
  function NextRotation(rotation: Rotation): (r: Rotation)
    ensures rotation == 0 ==> r == 90
    ensures rotation == 90 ==> r == 180
    ensures rotation == 180 ==> r == 270
    ensures rotation == 270 ==> r == 0
  {
    var rotationIndex := if rotation == 0 then 0 else if rotation == 90 then 1 else if rotation == 180 then 2 else 3;
    ROTATIONS[(rotationIndex + 1) % |ROTATIONS|]
  }

  /** Four taps bring a piece back to its rotation, and no fewer do. */
  lemma NextRotationCycle(rotation: Rotation)
    ensures NextRotation(NextRotation(NextRotation(NextRotation(rotation)))) == rotation
    ensures NextRotation(rotation) != rotation
    ensures NextRotation(NextRotation(rotation)) != rotation
    ensures NextRotation(NextRotation(NextRotation(rotation))) != rotation
  {
  }

  // ---------------------------------------------------------------------------
  // The W-flag re-tagging effect

  /** The ids that appear in some detected W-block. */
  function WBlockPieceIds(wBlocks: seq<WBlockResult>): (ids: set<string>)
    ensures forall x :: x in ids <==> exists w :: w in wBlocks && (w.rfbId == x || w.lfbId == x)
  {
    (set w | w in wBlocks :: w.rfbId) + (set w | w in wBlocks :: w.lfbId)
  }

  /** The piece with its flag set to "its id is in `ids`". */
  function SetFlag(p: Piece, ids: set<string>): Piece
  {
    p.(isWBlock := p.id in ids)
  }

  /** The piece with its flag cleared. */
  function ClearFlag(p: Piece): Piece
  {
    p.(isWBlock := false)
  }

  /** Some piece's flag disagrees with membership in `ids`. */
  predicate FlagsDiffer(pieces: seq<Piece>, ids: set<string>)
  {
    exists i :: 0 <= i < |pieces| && pieces[i].isWBlock != (pieces[i].id in ids)
  }

  /** Some piece is flagged. */
  predicate AnyFlagged(pieces: seq<Piece>)
  {
    exists i :: 0 <= i < |pieces| && pieces[i].isWBlock
  }

  /** The list the re-tagging effect leaves: with fewer than two pieces every
      flag is cleared (the list kept when none is set); otherwise each flag says
      whether the piece is part of a detected W-block (the list kept when no
      flag changes). */
  function Retagged(pieces: seq<Piece>): seq<Piece>
  {
    if |pieces| < 2 then
      if AnyFlagged(pieces) then MapAll(pieces, ClearFlag) else pieces
    else
      var ids := WBlockPieceIds(DetectAll(pieces));
      if FlagsDiffer(pieces, ids) then MapAll(pieces, p => SetFlag(p, ids)) else pieces
  }

  /** The list update of the re-tagging effect: with fewer than two pieces the
      flags are cleared when any is set; otherwise the pieces are re-flagged
      from the detected W-blocks, and the old list is kept when no flag
      changes. */
  method RetagList(pieces: seq<Piece>) returns (result: seq<Piece>)
    ensures result == Retagged(pieces)
  {
    if |pieces| < 2 {
      var hasWBlockPieces := exists i | 0 <= i < |pieces| :: pieces[i].isWBlock;
      if hasWBlockPieces {
        return MapAll(pieces, ClearFlag);
      }
      return pieces;
    }
    var wBlocks := DetectAllWBlocks(pieces);
    var piecesInWBlocks := WBlockPieceIds(wBlocks);
    var needsUpdate, updatedPieces := FlagPieces(pieces, piecesInWBlocks);
    if needsUpdate {
      assert updatedPieces == MapAll(pieces, p => SetFlag(p, piecesInWBlocks));
      return updatedPieces;
    }
    return pieces;
  }

  /** The loop of the re-tagging effect: every piece with its flag set to
      whether its id is in `ids`, and whether any flag had to change. */
  method FlagPieces(pieces: seq<Piece>, ids: set<string>) returns (needsUpdate: bool, updatedPieces: seq<Piece>)
    ensures needsUpdate == FlagsDiffer(pieces, ids)
    ensures |updatedPieces| == |pieces|
    ensures forall j :: 0 <= j < |pieces| ==> updatedPieces[j] == SetFlag(pieces[j], ids)
  {
    needsUpdate := false;
    updatedPieces := [];
    var i := 0;
    while i < |pieces|
      invariant 0 <= i <= |pieces|
      invariant |updatedPieces| == i
      invariant forall j :: 0 <= j < i ==> updatedPieces[j] == SetFlag(pieces[j], ids)
      invariant needsUpdate <==> exists j :: 0 <= j < i && pieces[j].isWBlock != (pieces[j].id in ids)
    {
      var piece := pieces[i];
      var isInWBlock := piece.id in ids;
      if isInWBlock && !piece.isWBlock {
        needsUpdate := true;
        updatedPieces := updatedPieces + [piece.(isWBlock := true)];
      } else if !isInWBlock && piece.isWBlock {
        needsUpdate := true;
        updatedPieces := updatedPieces + [piece.(isWBlock := false)];
      } else {
        updatedPieces := updatedPieces + [piece];
      }
      i := i + 1;
    }
  }

  /** Changing a flag changes no cell. */
  lemma FlagKeepsCells(p: Piece, b: bool)
    ensures GetPieceCells(p.(isWBlock := b)) == GetPieceCells(p)
  {
    assert GetRotatedPattern(p.(isWBlock := b).blockType, p.(isWBlock := b).rotation) == GetRotatedPattern(p.blockType, p.rotation);
  }

  /** A map that only sets flags keeps types, ids and the W test. */
  lemma FlagMapKeeps(f: Piece -> Piece)
    requires forall p :: f(p) == p.(isWBlock := f(p).isWBlock)
    ensures KeepsTypeAndId(f) && KeepsPairTest(f, PairMatches)
  {
    forall p ensures f(p).blockType == p.blockType && f(p).id == p.id {
      assert f(p) == p.(isWBlock := f(p).isWBlock);
    }
    forall r, l ensures PairMatches(f(r), f(l)) == PairMatches(r, l) {
      assert f(r) == r.(isWBlock := f(r).isWBlock) && f(l) == l.(isWBlock := f(l).isWBlock);
      FlagKeepsCells(r, f(r).isWBlock);
      FlagKeepsCells(l, f(l).isWBlock);
      assert CombinedCells(f(r), f(l)) == CombinedCells(r, l);
    }
  }

  /** Re-tagging sets flags as the source promises and changes nothing else:
      with fewer than two pieces no piece is flagged afterwards; otherwise a
      piece is flagged exactly when its id appears in a detected W-block. */
  lemma RetagFlags(pieces: seq<Piece>)
    ensures |Retagged(pieces)| == |pieces|
    ensures forall i :: 0 <= i < |pieces| ==>
      Retagged(pieces)[i] == pieces[i].(isWBlock := Retagged(pieces)[i].isWBlock)
    ensures |pieces| < 2 ==> forall i :: 0 <= i < |pieces| ==> !Retagged(pieces)[i].isWBlock
    ensures |pieces| >= 2 ==> forall i :: 0 <= i < |pieces| ==>
      (Retagged(pieces)[i].isWBlock <==>
        exists w :: w in DetectAll(pieces) && (w.rfbId == pieces[i].id || w.lfbId == pieces[i].id))
  {
    var r := Retagged(pieces);
    if |pieces| < 2 {
      if AnyFlagged(pieces) {
        assert forall i :: 0 <= i < |pieces| ==> r[i] == ClearFlag(pieces[i]);
      } else {
        assert forall i :: 0 <= i < |pieces| ==> !pieces[i].isWBlock;
      }
    } else {
      var ids := WBlockPieceIds(DetectAll(pieces));
      if FlagsDiffer(pieces, ids) {
        assert forall i :: 0 <= i < |pieces| ==> r[i] == SetFlag(pieces[i], ids);
      } else {
        assert forall i :: 0 <= i < |pieces| ==> pieces[i].isWBlock == (pieces[i].id in ids);
      }
    }
  }
  /** The effect's guard against infinite re-rendering holds: once re-tagged, a
      second run of the effect leaves the list as it is. */
  lemma RetagIdempotent(pieces: seq<Piece>)
    ensures Retagged(Retagged(pieces)) == Retagged(pieces)
  {
    var r := Retagged(pieces);
    RetagFlags(pieces);
    if |pieces| < 2 {
      assert !AnyFlagged(r);
    } else {
      var ids := WBlockPieceIds(DetectAll(pieces));
      var f := p => SetFlag(p, ids);
      if !FlagsDiffer(pieces, ids) {
        assert MapAll(pieces, f) == pieces;
      }
      assert r == MapAll(pieces, f);
      FlagMapKeeps(f);
      DetectMapped(pieces, f);
      assert !FlagsDiffer(r, ids);
    }
  }

  /** Re-tagging keeps the board invariant. */
  lemma RetagKeepsBoard(pieces: seq<Piece>, counter: nat)
    requires Board(pieces, counter)
    ensures Board(Retagged(pieces), counter)
  {
    var r := Retagged(pieces);
    RetagFlags(pieces);
    forall k | 0 <= k < |r| ensures PieceOnBoard(r[k]) && Issued(r[k].id, counter) {
      FlagKeepsCells(pieces[k], r[k].isWBlock);
      assert PieceOnBoard(pieces[k]) && Issued(pieces[k].id, counter);
    }
    forall i, j | 0 <= i < j < |r| ensures PiecesApart(r[i], r[j]) {
      FlagKeepsCells(pieces[i], r[i].isWBlock);
      FlagKeepsCells(pieces[j], r[j].isWBlock);
      assert PiecesApart(pieces[i], pieces[j]);
    }
  }

  // ---------------------------------------------------------------------------
  // The displayed grid

  /** The value displayGrid shows at `c`: 0 on the cells of the hidden piece
      (the first piece with that id, when the id is non-empty), and the base
      grid's value everywhere else. */
  function DisplayAt(pieces: seq<Piece>, hidden: Option<string>, c: Cell): int
  {
    var k := if Truthy(hidden) then FindIndex(pieces, hidden.value) else -1;
    if k >= 0 && c in GetPieceCells(pieces[k]) then 0 else TagAt(pieces, c)
  }

  /** On a board of disjoint pieces the displayed grid blanks exactly the
      hidden piece: its cells show 0, every other piece's cells show that
      piece's tag, and uncovered cells show 0. */
  lemma DisplayHidesOnlyHidden(pieces: seq<Piece>, hidden: Option<string>, k: int, c: Cell)
    requires PiecesDisjoint(pieces) && UniqueIds(pieces)
    requires 0 <= k < |pieces| && c in GetPieceCells(pieces[k])
    ensures DisplayAt(pieces, hidden, c) == if Truthy(hidden) && hidden.value == pieces[k].id then 0 else Tag(pieces[k])
  {
    TagOwner(pieces, k, c);
  }

  /** A cell no piece covers shows 0. */
  lemma DisplayUncovered(pieces: seq<Piece>, hidden: Option<string>, c: Cell)
    requires forall k :: 0 <= k < |pieces| ==> c !in GetPieceCells(pieces[k])
    ensures DisplayAt(pieces, hidden, c) == 0
  {
    TagUncovered(pieces, c);
  }

  /** A fresh copy of a grid (`baseGrid.map((row) => [...row])`). */
  method CloneGrid(grid: array2<int>) returns (clone: array2<int>)
    ensures fresh(clone)
    ensures clone.Length0 == grid.Length0 && clone.Length1 == grid.Length1
    ensures forall r, c :: 0 <= r < grid.Length0 && 0 <= c < grid.Length1 ==> clone[r, c] == grid[r, c]
  {
    clone := new int[grid.Length0, grid.Length1]((r, c) reads grid
      requires 0 <= r < grid.Length0 && 0 <= c < grid.Length1 => grid[r, c]);
  }

  // ---------------------------------------------------------------------------
  // The session

  class Session {
    var pieces: seq<Piece>
    var availableRfbCount: int
    var availableLfbCount: int
    var pieceIdCounter: nat
    var hiddenPieceId: Option<string>
    const conflict: ConflictState

    ghost predicate Valid()
      reads this
    {
      Board(pieces, pieceIdCounter)
    }

    /** The initial state: no pieces, the counters from the props, the id
        counter at 0, nothing hidden, no conflict. */
    constructor (rfbCount: int, lfbCount: int)
      ensures pieces == [] && availableRfbCount == rfbCount && availableLfbCount == lfbCount
      ensures pieceIdCounter == 0 && hiddenPieceId == None
      ensures fresh(conflict)
      ensures conflict.conflictCells == [] && conflict.conflictPieceId == None && conflict.blockingPieceIds == []
      ensures Valid()
    {
      pieces := [];
      availableRfbCount := rfbCount;
      availableLfbCount := lfbCount;
      pieceIdCounter := 0;
      hiddenPieceId := None;
      var record := new ConflictState();
      conflict := record;
    }

    /** The effect that copies the `rfbCount` prop into the available RFB
        counter when that prop changes. */
    method SyncRfbCount(rfbCount: int)
      modifies this
      ensures availableRfbCount == rfbCount && availableLfbCount == old(availableLfbCount)
      ensures pieces == old(pieces) && pieceIdCounter == old(pieceIdCounter) && hiddenPieceId == old(hiddenPieceId)
    {
      availableRfbCount := rfbCount;
    }

    /** The effect that copies the `lfbCount` prop into the available LFB
        counter when that prop changes. */
    method SyncLfbCount(lfbCount: int)
      modifies this
      ensures availableLfbCount == lfbCount && availableRfbCount == old(availableRfbCount)
      ensures pieces == old(pieces) && pieceIdCounter == old(pieceIdCounter) && hiddenPieceId == old(hiddenPieceId)
    {
      availableLfbCount := lfbCount;
    }

    /** setHiddenPieceId, as the drag handlers call it. */
    method SetHiddenPieceId(id: Option<string>)
      modifies this
      ensures hiddenPieceId == id
      ensures pieces == old(pieces) && pieceIdCounter == old(pieceIdCounter)
      ensures availableRfbCount == old(availableRfbCount) && availableLfbCount == old(availableLfbCount)
    {
      hiddenPieceId := id;
    }

    /** getNextPieceId: the counter goes up by one and the new value names the
        piece. */
    method GetNextPieceId() returns (id: string)
      requires Valid()
      modifies this
      ensures Valid()
      ensures pieceIdCounter == old(pieceIdCounter) + 1 && id == PieceId(pieceIdCounter)
      ensures forall k :: 0 <= k < |pieces| ==> pieces[k].id != id
      ensures pieces == old(pieces) && hiddenPieceId == old(hiddenPieceId)
      ensures availableRfbCount == old(availableRfbCount) && availableLfbCount == old(availableLfbCount)
    {
      IssuedGrows(pieces, pieceIdCounter);
      pieceIdCounter := pieceIdCounter + 1;
      id := PieceId(pieceIdCounter);
      forall k | 0 <= k < |pieces| ensures pieces[k].id != id {
        assert Issued(old(pieces)[k].id, old(pieceIdCounter));
        var m :| 1 <= m <= pieceIdCounter - 1 && pieces[k].id == PieceId(m);
        PieceIdFacts(m, pieceIdCounter);
      }
    }

    /** placeNewPiece: the candidate always consumes an id. Rejected, it
        records the conflict with no piece id and nothing else changes;
        accepted, it clears the conflict, takes one from its type's counter
        (floored at 0) and is appended, unflagged. */
    method PlaceNewPiece(blockType: BlockType, anchorRow: int, anchorCol: int, rotation: Rotation) returns (placed: bool)
      requires Valid()
      modifies this, conflict
      ensures Valid()
      ensures pieceIdCounter == old(pieceIdCounter) + 1
      ensures hiddenPieceId == old(hiddenPieceId)
      ensures
        var candidate := Piece(PieceId(pieceIdCounter), blockType, rotation, anchorRow, anchorCol, false);
        var result := Validate(candidate, old(pieces), None);
        && placed == result.valid
        && (placed ==>
              pieces == old(pieces) + [candidate]
              && availableRfbCount == (if blockType == RFB then Max(0, old(availableRfbCount) - 1) else old(availableRfbCount))
              && availableLfbCount == (if blockType == LFB then Max(0, old(availableLfbCount) - 1) else old(availableLfbCount))
              && conflict.conflictCells == [] && conflict.conflictPieceId == None && conflict.blockingPieceIds == [])
        && (!placed ==>
              pieces == old(pieces)
              && availableRfbCount == old(availableRfbCount) && availableLfbCount == old(availableLfbCount)
              && conflict.conflictPieceId == None
              && conflict.conflictCells == result.conflicts
              && conflict.blockingPieceIds == result.blockingPieceIds)
    {
      var id := GetNextPieceId();
      var candidate := Piece(id, blockType, rotation, anchorRow, anchorCol, false);
      var result := AddPiece(candidate);
      placed := result.valid;
    }

    /** The rest of placeNewPiece once the candidate holds the newest id: it is
        validated against the board; rejected, the conflict is recorded with no
        piece id; accepted, the conflict is cleared, its type's counter goes
        down by one (floored at 0) and it is appended. */
    method AddPiece(candidate: Piece) returns (result: ValidationResult)
      requires Valid() && pieceIdCounter >= 1 && Board(pieces, pieceIdCounter - 1)
      requires candidate.id == PieceId(pieceIdCounter)
      modifies this, conflict
      ensures Valid()
      ensures result == Validate(candidate, old(pieces), None)
      ensures pieceIdCounter == old(pieceIdCounter) && hiddenPieceId == old(hiddenPieceId)
      ensures result.valid ==>
        pieces == old(pieces) + [candidate]
        && availableRfbCount == (if candidate.blockType == RFB then Max(0, old(availableRfbCount) - 1) else old(availableRfbCount))
        && availableLfbCount == (if candidate.blockType == LFB then Max(0, old(availableLfbCount) - 1) else old(availableLfbCount))
        && conflict.conflictCells == [] && conflict.conflictPieceId == None && conflict.blockingPieceIds == []
      ensures !result.valid ==>
        pieces == old(pieces)
        && availableRfbCount == old(availableRfbCount) && availableLfbCount == old(availableLfbCount)
        && conflict.conflictPieceId == None
        && conflict.conflictCells == result.conflicts
        && conflict.blockingPieceIds == result.blockingPieceIds
    {
      result := ValidatePlacement(candidate, pieces, None);
      if !result.valid {
        conflict.SetConflictState(None, result.conflicts, result.blockingPieceIds);
        return;
      }
      PlaceKeepsBoard(pieces, pieceIdCounter - 1, candidate);
      conflict.ClearConflict();
      if candidate.blockType == RFB {
        availableRfbCount := Max(0, availableRfbCount - 1);
      } else {
        availableLfbCount := Max(0, availableLfbCount - 1);
      }
      pieces := pieces + [candidate];
      assert Valid();
    }

    /** moveExistingPiece: an unknown id changes nothing. Otherwise the piece's
        anchor is replaced; rejected, the conflict is recorded under the
        piece's id; accepted, the piece takes its new place, the conflict is
        cleared and nothing is hidden any more. */
    method MoveExistingPiece(pieceId: string, anchorRow: int, anchorCol: int) returns (moved: bool)
      requires Valid()
      modifies this, conflict
      ensures Valid()
      ensures pieceIdCounter == old(pieceIdCounter)
      ensures availableRfbCount == old(availableRfbCount) && availableLfbCount == old(availableLfbCount)
      ensures
        var index := FindIndex(old(pieces), pieceId);
        && (index == -1 ==>
              !moved && pieces == old(pieces) && hiddenPieceId == old(hiddenPieceId)
              && unchanged(conflict))
        && (index >= 0 ==>
              var candidate := old(pieces)[index].(anchorRow := anchorRow, anchorCol := anchorCol);
              var result := Validate(candidate, old(pieces), Some(pieceId));
              && moved == result.valid
              && (moved ==>
                    pieces == old(pieces)[index := candidate] && hiddenPieceId == None
                    && conflict.conflictCells == [] && conflict.conflictPieceId == None && conflict.blockingPieceIds == [])
              && (!moved ==>
                    pieces == old(pieces) && hiddenPieceId == old(hiddenPieceId)
                    && conflict.conflictPieceId == Some(pieceId)
                    && conflict.conflictCells == result.conflicts
                    && conflict.blockingPieceIds == result.blockingPieceIds))
    {
      var index := FindIndex(pieces, pieceId);
      if index == -1 {
        return false;
      }
      var candidate := pieces[index].(anchorRow := anchorRow, anchorCol := anchorCol);
      var result := ReplacePiece(index, candidate);
      if !result.valid {
        return false;
      }
      hiddenPieceId := None;
      return true;
    }

    /** The step moveExistingPiece and rotatePiece share: the candidate for
        piece `index` is validated with that piece ignored; rejected, the
        conflict is recorded under its id and the pieces stay; accepted, it
        takes the piece's place and the conflict is cleared. */
    method ReplacePiece(index: int, candidate: Piece) returns (result: ValidationResult)
      requires Valid()
      requires 0 <= index < |pieces| && candidate.id == pieces[index].id
      modifies this, conflict
      ensures Valid()
      ensures result == Validate(candidate, old(pieces), Some(candidate.id))
      ensures pieceIdCounter == old(pieceIdCounter) && hiddenPieceId == old(hiddenPieceId)
      ensures availableRfbCount == old(availableRfbCount) && availableLfbCount == old(availableLfbCount)
      ensures result.valid ==>
        pieces == old(pieces)[index := candidate]
        && conflict.conflictCells == [] && conflict.conflictPieceId == None && conflict.blockingPieceIds == []
      ensures !result.valid ==>
        pieces == old(pieces)
        && conflict.conflictPieceId == Some(candidate.id)
        && conflict.conflictCells == result.conflicts
        && conflict.blockingPieceIds == result.blockingPieceIds
    {
      result := ValidatePlacement(candidate, pieces, Some(candidate.id));
      if !result.valid {
        conflict.SetConflictState(Some(candidate.id), result.conflicts, result.blockingPieceIds);
        return;
      }
      ReplaceKeepsBoard(pieces, pieceIdCounter, index, candidate);
      conflict.ClearConflict();
      pieces := pieces[index := candidate];
      assert Valid();
    }

    /** rotatePiece: an unknown id changes nothing. Otherwise the piece turns
        to the next rotation; rejected, the conflict is recorded under the
        piece's id; accepted, the piece is replaced and the conflict cleared.
        The hidden piece is left as it is. */
    method RotatePiece(pieceId: string)
      requires Valid()
      modifies this, conflict
      ensures Valid()
      ensures pieceIdCounter == old(pieceIdCounter) && hiddenPieceId == old(hiddenPieceId)
      ensures availableRfbCount == old(availableRfbCount) && availableLfbCount == old(availableLfbCount)
      ensures
        var index := FindIndex(old(pieces), pieceId);
        && (index == -1 ==> pieces == old(pieces) && unchanged(conflict))
        && (index >= 0 ==>
              var current := old(pieces)[index];
              var candidate := current.(rotation := NextRotation(current.rotation));
              var result := Validate(candidate, old(pieces), Some(pieceId));
              && (result.valid ==>
                    pieces == old(pieces)[index := candidate]
                    && conflict.conflictCells == [] && conflict.conflictPieceId == None && conflict.blockingPieceIds == [])
              && (!result.valid ==>
                    pieces == old(pieces)
                    && conflict.conflictPieceId == Some(pieceId)
                    && conflict.conflictCells == result.conflicts
                    && conflict.blockingPieceIds == result.blockingPieceIds))
    {
      var index := FindIndex(pieces, pieceId);
      if index == -1 {
        return;
      }
      var current := pieces[index];
      var candidate := current.(rotation := NextRotation(current.rotation));
      var result := ReplacePiece(index, candidate);
    }

    /** The W-flag re-tagging effect, run after the pieces change. */
    method RetagWBlocks()
      requires Valid()
      modifies this
      ensures Valid()
      ensures pieces == Retagged(old(pieces))
      ensures pieceIdCounter == old(pieceIdCounter) && hiddenPieceId == old(hiddenPieceId)
      ensures availableRfbCount == old(availableRfbCount) && availableLfbCount == old(availableLfbCount)
    {
      RetagKeepsBoard(pieces, pieceIdCounter);
      pieces := RetagList(pieces);
    }

    /** displayGrid: the grid of the pieces, with the hidden piece's on-board
        cells blanked when a non-empty hidden id names a piece. */
    method DisplayGrid() returns (grid: array2<int>)
      ensures fresh(grid)
      ensures grid.Length0 == GRID_SIZE && grid.Length1 == GRID_SIZE
      ensures forall r, c :: 0 <= r < GRID_SIZE && 0 <= c < GRID_SIZE ==>
        grid[r, c] == DisplayAt(pieces, hiddenPieceId, Cell(r, c))
    {
      var baseGrid := BuildGridFromPieces(pieces);
      if !Truthy(hiddenPieceId) {
        return baseGrid;
      }
      var index := FindIndex(pieces, hiddenPieceId.value);
      if index < 0 {
        return baseGrid;
      }
      var hiddenPiece := pieces[index];
      grid := CloneGrid(baseGrid);
      var pattern := GetRotatedPattern(hiddenPiece.blockType, hiddenPiece.rotation);
      PaintCells(grid, pattern, hiddenPiece.anchorRow, hiddenPiece.anchorCol, 0);
    }
  }
}
