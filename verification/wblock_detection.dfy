/** components/game/partB/wBlockDetection.ts: finding the RFB/LFB pairs on the
    board whose nine cells, normalised and sorted, form one of the W patterns. */
module WBlockDetection {
  import opened Cells
  import opened PartBConstants
  import opened PartBTypes
  import opened Wrappers
  import opened PatternUtils

  /** A detected W block: the ids of its RFB and its LFB piece. */
  datatype WBlockResult = WBlockResult(rfbId: string, lfbId: string)

  /** `pieces.filter((p) => p.type === t)`. */
  function OfType(pieces: seq<Piece>, t: BlockType): seq<Piece>
  {
    if pieces == [] then []
    else
      var n := |pieces| - 1;
      OfType(pieces[..n], t) + (if pieces[n].blockType == t then [pieces[n]] else [])
  }

  /** The pairs the inner loop visits for one RFB piece, in order. */
  function Row(rfb: Piece, lfbs: seq<Piece>): seq<(Piece, Piece)>
  {
    seq(|lfbs|, k requires 0 <= k < |lfbs| => (rfb, lfbs[k]))
  }

  /** Every (rfb, lfb) pair, in the order of the two nested loops. */
  function Pairs(rfbs: seq<Piece>, lfbs: seq<Piece>): seq<(Piece, Piece)>
  {
    if rfbs == [] then []
    else
      var n := |rfbs| - 1;
      Pairs(rfbs[..n], lfbs) + Row(rfbs[n], lfbs)
  }

  /** The used-pairs key `${rfbId}:${lfbId}`. */
  function PairKey(rfbId: string, lfbId: string): string
  {
    rfbId + ":" + lfbId
  }

  function KeyOf(pair: (Piece, Piece)): string
  {
    PairKey(pair.0.id, pair.1.id)
  }

  function ResultOf(pair: (Piece, Piece)): WBlockResult
  {
    WBlockResult(pair.0.id, pair.1.id)
  }

  /** The keys of the pairs visited so far. */
  function KeysOf(pairs: seq<(Piece, Piece)>): set<string>
  {
    set k | 0 <= k < |pairs| :: KeyOf(pairs[k])
  }

  /** The two pieces' cells without repeats (the `uniqueCellsMap` values). */
  function CombinedCells(rfb: Piece, lfb: Piece): seq<Cell>
  {
    Dedup(GetPieceCells(rfb) + GetPieceCells(lfb))
  }

  /** `normalized` equals one of the patterns once that pattern is sorted. */
  predicate MatchesSomePattern(normalized: seq<Cell>, patterns: seq<seq<Cell>>)
  {
    exists k :: 0 <= k < |patterns| && normalized == SortCells(patterns[k])
  }

  /** The test applied to one pair: nine distinct cells which, shifted to the
      origin and sorted row-major, equal a W pattern. */
  predicate PairMatches(rfb: Piece, lfb: Piece)
  {
    CellsFormW(GetPieceCells(rfb) + GetPieceCells(lfb))
  }

  predicate CellsFormW(both: seq<Cell>)
  {
    var cells := Dedup(both);
    |cells| == 9 && MatchesSomePattern(SortCells(Normalize(cells)), W_PATTERNS)
  }

  /** A test on an (rfb, lfb) pair; the detectors use `PairMatches`. */
  type PairTest = (Piece, Piece) -> bool

  /** The result list of detectAllWBlocks over a list of pairs: a pair is tested
      only when its key has not been seen before, and reported when it passes. */
  function Scan(pairs: seq<(Piece, Piece)>, test: PairTest): seq<WBlockResult>
  {
    if pairs == [] then []
    else
      var n := |pairs| - 1;
      Scan(pairs[..n], test) +
        (if KeyOf(pairs[n]) !in KeysOf(pairs[..n]) && test(pairs[n].0, pairs[n].1)
         then [ResultOf(pairs[n])] else [])
  }

  /** The first passing pair of a list, if any (detectWBlock has no used-pairs set). */
  function FirstMatch(pairs: seq<(Piece, Piece)>, test: PairTest): Option<WBlockResult>
  {
    if pairs == [] then None
    else
      var n := |pairs| - 1;
      var earlier := FirstMatch(pairs[..n], test);
      if earlier.Some? then earlier
      else if test(pairs[n].0, pairs[n].1) then Some(ResultOf(pairs[n]))
      else None
  }

  /** All pairs of an RFB piece with an LFB piece of the board. */
  function BoardPairs(pieces: seq<Piece>): seq<(Piece, Piece)>
  {
    Pairs(OfType(pieces, RFB), OfType(pieces, LFB))
  }

  /** What detectAllWBlocks returns. */
  function DetectAll(pieces: seq<Piece>): seq<WBlockResult>
  {
    Scan(BoardPairs(pieces), PairMatches)
  }

  /** What detectWBlock returns. */
  function DetectFirst(pieces: seq<Piece>): Option<WBlockResult>
  {
    FirstMatch(BoardPairs(pieces), PairMatches)
  }

  // ---------------------------------------------------------------------------
  // The two detectors as loops

  /** The body shared by both detectors for one pair: merge the cells through a
      Map, give up unless there are 9, normalise and sort them, then compare
      with each W pattern sorted. */
  method MatchPair(rfb: Piece, lfb: Piece) returns (matched: bool)
    ensures matched == PairMatches(rfb, lfb)
  {
    matched := MatchCells(GetPieceCells(rfb), GetPieceCells(lfb));
  }

  /** The same test on the two cell lists `[...rfbCells, ...lfbCells]`. */
  method MatchCells(rfbCells: seq<Cell>, lfbCells: seq<Cell>) returns (matched: bool)
    ensures matched == CellsFormW(rfbCells + lfbCells)
  {
    var uniqueCells := UniqueCells(rfbCells + lfbCells);
    if |uniqueCells| != 9 {
      return false;
    }
    var minRow := MinRow(uniqueCells);
    var minCol := MinCol(uniqueCells);
    var normalized := SortCells(Translate(uniqueCells, -minRow, -minCol));
    assert normalized == SortCells(Normalize(uniqueCells));
    assert uniqueCells == Dedup(rfbCells + lfbCells);
    matched := MatchesAnyPattern(normalized, W_PATTERNS);
  }

  /** The loop over W_PATTERNS: compare `normalized` with each pattern sorted,
      stopping at the first equal one. */
  method MatchesAnyPattern(normalized: seq<Cell>, patterns: seq<seq<Cell>>) returns (found: bool)
    ensures found == MatchesSomePattern(normalized, patterns)
  {
    var k := 0;
    while k < |patterns|
      invariant 0 <= k <= |patterns|
      invariant forall m :: 0 <= m < k ==> normalized != SortCells(patterns[m])
    {
      var normalizedPattern := SortCells(patterns[k]);
      if |normalized| == |normalizedPattern| && normalized == normalizedPattern {
        return true;
      }
      k := k + 1;
    }
    return false;
  }

  /** detectAllWBlocks: every pair of an RFB with an LFB piece, in order, each
      key tested once. */
  method DetectAllWBlocks(pieces: seq<Piece>) returns (wBlocks: seq<WBlockResult>)
    ensures wBlocks == DetectAll(pieces)
  {
    var rfbPieces := OfType(pieces, RFB);
    var lfbPieces := OfType(pieces, LFB);
    wBlocks := [];
    var usedPairs: set<string> := {};
    var i := 0;
    while i < |rfbPieces|
      invariant 0 <= i <= |rfbPieces|
      invariant usedPairs == KeysOf(Pairs(rfbPieces[..i], lfbPieces))
      invariant wBlocks == Scan(Pairs(rfbPieces[..i], lfbPieces), PairMatches)
    {
      PairsSnoc(rfbPieces, lfbPieces, i);
      usedPairs, wBlocks := ScanRow(rfbPieces[i], lfbPieces, usedPairs, wBlocks, Pairs(rfbPieces[..i], lfbPieces));
      i := i + 1;
    }
    assert rfbPieces[..i] == rfbPieces;
  }

  /** The inner loop of detectAllWBlocks for one RFB piece, continuing from the
      pairs `done` already visited. */
  method ScanRow(rfb: Piece, lfbPieces: seq<Piece>, used0: set<string>, found0: seq<WBlockResult>,
                 ghost done: seq<(Piece, Piece)>)
    returns (used: set<string>, found: seq<WBlockResult>)
    requires used0 == KeysOf(done) && found0 == Scan(done, PairMatches)
    ensures used == KeysOf(done + Row(rfb, lfbPieces))
    ensures found == Scan(done + Row(rfb, lfbPieces), PairMatches)
  {
    used, found := used0, found0;
    var j := 0;
    assert done + Row(rfb, lfbPieces[..0]) == done;
    while j < |lfbPieces|
      invariant 0 <= j <= |lfbPieces|
      invariant used == KeysOf(done + Row(rfb, lfbPieces[..j]))
      invariant found == Scan(done + Row(rfb, lfbPieces[..j]), PairMatches)
    {
      used, found := ScanPair(rfb, lfbPieces, j, used, found, done);
      j := j + 1;
    }
    assert lfbPieces[..j] == lfbPieces;
  }

  /** One step of detectAllWBlocks' inner loop: the pair with the `j`-th LFB
      piece is skipped when its key was seen, otherwise its key is recorded and
      its ids are appended when it matches. */
  method ScanPair(rfb: Piece, lfbPieces: seq<Piece>, j: int, used0: set<string>, found0: seq<WBlockResult>,
                  ghost done: seq<(Piece, Piece)>)
    returns (used: set<string>, found: seq<WBlockResult>)
    requires 0 <= j < |lfbPieces|
    requires used0 == KeysOf(done + Row(rfb, lfbPieces[..j]))
    requires found0 == Scan(done + Row(rfb, lfbPieces[..j]), PairMatches)
    ensures used == KeysOf(done + Row(rfb, lfbPieces[..j + 1]))
    ensures found == Scan(done + Row(rfb, lfbPieces[..j + 1]), PairMatches)
  {
    var lfbPiece := lfbPieces[j];
    RowStepScan(rfb, lfbPieces, j, done, PairMatches);
    used, found := used0, found0;
    var pairKey := PairKey(rfb.id, lfbPiece.id);
    if pairKey in used {
      return;
    }
    used := used + {pairKey};
    var matched := MatchPair(rfb, lfbPiece);
    if matched {
      found := found + [WBlockResult(rfb.id, lfbPiece.id)];
    }
  }

  /** detectWBlock: the same nested loops without the used-pairs set, returning
      the first matching pair, or null. */
  method DetectWBlock(pieces: seq<Piece>) returns (result: Option<WBlockResult>)
    ensures result == DetectFirst(pieces)
  {
    var rfbPieces := OfType(pieces, RFB);
    var lfbPieces := OfType(pieces, LFB);
    var i := 0;
    while i < |rfbPieces|
      invariant 0 <= i <= |rfbPieces|
      invariant FirstMatch(Pairs(rfbPieces[..i], lfbPieces), PairMatches) == None
    {
      PairsSnoc(rfbPieces, lfbPieces, i);
      result := FindInRow(rfbPieces[i], lfbPieces, Pairs(rfbPieces[..i], lfbPieces));
      if result.Some? {
        PairsSplit(rfbPieces, lfbPieces, i + 1);
        FirstMatchExtend(Pairs(rfbPieces[..i + 1], lfbPieces), Pairs(rfbPieces[i + 1..], lfbPieces), PairMatches);
        return;
      }
      i := i + 1;
    }
    assert rfbPieces[..i] == rfbPieces;
    return None;
  }

  /** The inner loop of detectWBlock for one RFB piece, after the pairs `done`,
      none of which matched. */
  method FindInRow(rfb: Piece, lfbPieces: seq<Piece>, ghost done: seq<(Piece, Piece)>)
    returns (result: Option<WBlockResult>)
    requires FirstMatch(done, PairMatches) == None
    ensures result == FirstMatch(done + Row(rfb, lfbPieces), PairMatches)
  {
    var j := 0;
    result := None;
    assert done + Row(rfb, lfbPieces[..0]) == done;
    while j < |lfbPieces| && result == None
      invariant 0 <= j <= |lfbPieces|
      invariant result == FirstMatch(done + Row(rfb, lfbPieces[..j]), PairMatches)
    {
      result := TryPair(rfb, lfbPieces, j, done);
      j := j + 1;
    }
    RowFirstMatchDone(rfb, lfbPieces, j, done, PairMatches);
  }

  /** One step of detectWBlock's inner loop, after pairs none of which matched:
      the ids of the pair with the `j`-th LFB piece when it matches, otherwise
      nothing. */
  method TryPair(rfb: Piece, lfbPieces: seq<Piece>, j: int, ghost done: seq<(Piece, Piece)>)
    returns (result: Option<WBlockResult>)
    requires 0 <= j < |lfbPieces|
    requires FirstMatch(done + Row(rfb, lfbPieces[..j]), PairMatches) == None
    ensures result == FirstMatch(done + Row(rfb, lfbPieces[..j + 1]), PairMatches)
  {
    RowStepFirst(rfb, lfbPieces, j, done, PairMatches);
    var matched := MatchPair(rfb, lfbPieces[j]);
    if matched {
      return Some(WBlockResult(rfb.id, lfbPieces[j].id));
    }
    return None;
  }

  // ---------------------------------------------------------------------------
  // Unfolding the pair order

  lemma RowSnoc(rfb: Piece, lfbs: seq<Piece>, j: int)
    requires 0 <= j < |lfbs|
    ensures Row(rfb, lfbs[..j + 1]) == Row(rfb, lfbs[..j]) + [(rfb, lfbs[j])]
  {
  }

  /** One more pair of a row, for the used-keys set and the scan. */
  lemma RowStepScan(rfb: Piece, lfbs: seq<Piece>, j: int, done: seq<(Piece, Piece)>, test: PairTest)
    requires 0 <= j < |lfbs|
    ensures KeysOf(done + Row(rfb, lfbs[..j + 1])) == KeysOf(done + Row(rfb, lfbs[..j])) + {PairKey(rfb.id, lfbs[j].id)}
    ensures Scan(done + Row(rfb, lfbs[..j + 1]), test) == Scan(done + Row(rfb, lfbs[..j]), test) +
      (if PairKey(rfb.id, lfbs[j].id) !in KeysOf(done + Row(rfb, lfbs[..j])) && test(rfb, lfbs[j])
       then [WBlockResult(rfb.id, lfbs[j].id)] else [])
  {
    RowSnoc(rfb, lfbs, j);
    assert done + Row(rfb, lfbs[..j + 1]) == (done + Row(rfb, lfbs[..j])) + [(rfb, lfbs[j])];
    ScanSnoc(done + Row(rfb, lfbs[..j]), (rfb, lfbs[j]), test);
  }

  /** One more pair of a row, for the first match after pairs without one. */
  lemma RowStepFirst(rfb: Piece, lfbs: seq<Piece>, j: int, done: seq<(Piece, Piece)>, test: PairTest)
    requires 0 <= j < |lfbs|
    requires FirstMatch(done + Row(rfb, lfbs[..j]), test) == None
    ensures FirstMatch(done + Row(rfb, lfbs[..j + 1]), test) ==
      if test(rfb, lfbs[j]) then Some(WBlockResult(rfb.id, lfbs[j].id)) else None
  {
    RowSnoc(rfb, lfbs, j);
    assert done + Row(rfb, lfbs[..j + 1]) == (done + Row(rfb, lfbs[..j])) + [(rfb, lfbs[j])];
    FirstMatchSnoc(done + Row(rfb, lfbs[..j]), (rfb, lfbs[j]), test);
  }

  /** A row scanned to its end, or up to a match, has the first match of the
      whole row. */
  lemma RowFirstMatchDone(rfb: Piece, lfbs: seq<Piece>, j: int, done: seq<(Piece, Piece)>, test: PairTest)
    requires 0 <= j <= |lfbs|
    requires j == |lfbs| || FirstMatch(done + Row(rfb, lfbs[..j]), test).Some?
    ensures FirstMatch(done + Row(rfb, lfbs), test) == FirstMatch(done + Row(rfb, lfbs[..j]), test)
  {
    if j == |lfbs| {
      assert lfbs[..j] == lfbs;
    } else {
      RowSplit(rfb, lfbs, j);
      assert done + Row(rfb, lfbs) == (done + Row(rfb, lfbs[..j])) + Row(rfb, lfbs[j..]);
      FirstMatchExtend(done + Row(rfb, lfbs[..j]), Row(rfb, lfbs[j..]), test);
    }
  }

  lemma RowSplit(rfb: Piece, lfbs: seq<Piece>, j: int)
    requires 0 <= j <= |lfbs|
    ensures Row(rfb, lfbs) == Row(rfb, lfbs[..j]) + Row(rfb, lfbs[j..])
  {
  }

  lemma PairsSnoc(rfbs: seq<Piece>, lfbs: seq<Piece>, i: int)
    requires 0 <= i < |rfbs|
    ensures Pairs(rfbs[..i + 1], lfbs) == Pairs(rfbs[..i], lfbs) + Row(rfbs[i], lfbs)
  {
    assert rfbs[..i + 1][..i] == rfbs[..i];
  }

  lemma {:induction false} PairsSplit(rfbs: seq<Piece>, lfbs: seq<Piece>, i: int)
    requires 0 <= i <= |rfbs|
    ensures Pairs(rfbs, lfbs) == Pairs(rfbs[..i], lfbs) + Pairs(rfbs[i..], lfbs)
    decreases |rfbs|
  {
    if i < |rfbs| {
      var n := |rfbs| - 1;
      PairsSplit(rfbs[..n], lfbs, i);
      assert rfbs[..n][..i] == rfbs[..i];
      assert rfbs[i..][..|rfbs[i..]| - 1] == rfbs[..n][i..];
      assert rfbs[i..][|rfbs[i..]| - 1] == rfbs[n];
    } else {
      assert rfbs[..i] == rfbs;
      assert rfbs[i..] == [];
    }
  }

  lemma ScanSnoc(pairs: seq<(Piece, Piece)>, pair: (Piece, Piece), test: PairTest)
    ensures KeysOf(pairs + [pair]) == KeysOf(pairs) + {KeyOf(pair)}
    ensures Scan(pairs + [pair], test) == Scan(pairs, test) +
      (if KeyOf(pair) !in KeysOf(pairs) && test(pair.0, pair.1) then [ResultOf(pair)] else [])
  {
    var all := pairs + [pair];
    assert all[..|pairs|] == pairs;
    assert all[|pairs|] == pair;
    forall x | x in KeysOf(all) ensures x in KeysOf(pairs) + {KeyOf(pair)} {
      var k :| 0 <= k < |all| && x == KeyOf(all[k]);
      if k < |pairs| { assert all[k] == pairs[k]; }
    }
    forall x | x in KeysOf(pairs) ensures x in KeysOf(all) {
      var k :| 0 <= k < |pairs| && x == KeyOf(pairs[k]);
      assert all[k] == pairs[k];
    }
    assert KeyOf(all[|pairs|]) in KeysOf(all);
  }

  lemma FirstMatchSnoc(pairs: seq<(Piece, Piece)>, pair: (Piece, Piece), test: PairTest)
    ensures FirstMatch(pairs + [pair], test) ==
      if FirstMatch(pairs, test).Some? then FirstMatch(pairs, test)
      else if test(pair.0, pair.1) then Some(ResultOf(pair)) else None
  {
    assert (pairs + [pair])[..|pairs|] == pairs;
  }

  /** Once a list has a match, extending it does not change the first match. */
  lemma {:induction false} FirstMatchExtend(pairs: seq<(Piece, Piece)>, more: seq<(Piece, Piece)>, test: PairTest)
    requires FirstMatch(pairs, test).Some?
    ensures FirstMatch(pairs + more, test) == FirstMatch(pairs, test)
    decreases |more|
  {
    if more != [] {
      var n := |more| - 1;
      FirstMatchExtend(pairs, more[..n], test);
      assert (pairs + more)[..|pairs + more| - 1] == pairs + more[..n];
    } else {
      assert pairs + more == pairs;
    }
  }

  // ---------------------------------------------------------------------------
  // What a reported pair is

  lemma {:induction false} OfTypeMember(pieces: seq<Piece>, t: BlockType)
    ensures forall p :: p in OfType(pieces, t) <==> p in pieces && p.blockType == t
  {
    if pieces != [] {
      var n := |pieces| - 1;
      OfTypeMember(pieces[..n], t);
      assert pieces == pieces[..n] + [pieces[n]];
    }
  }

  /** The nested loops visit exactly the pairs of an element of `rfbs` with an
      element of `lfbs`. */
  lemma {:induction false} PairsMember(rfbs: seq<Piece>, lfbs: seq<Piece>)
    ensures forall pair :: pair in Pairs(rfbs, lfbs) <==> pair.0 in rfbs && pair.1 in lfbs
  {
    if rfbs != [] {
      var n := |rfbs| - 1;
      PairsMember(rfbs[..n], lfbs);
      assert rfbs == rfbs[..n] + [rfbs[n]];
      forall pair | pair in Row(rfbs[n], lfbs) ensures pair.0 == rfbs[n] && pair.1 in lfbs {
        var k :| 0 <= k < |lfbs| && Row(rfbs[n], lfbs)[k] == pair;
      }
      forall l | l in lfbs ensures (rfbs[n], l) in Row(rfbs[n], lfbs) {
        var k :| 0 <= k < |lfbs| && lfbs[k] == l;
        assert Row(rfbs[n], lfbs)[k] == (rfbs[n], l);
      }
    }
  }

  /** Every reported result comes from a visited pair that passed the test. */
  lemma {:induction false} ScanSound(pairs: seq<(Piece, Piece)>, test: PairTest)
    ensures forall x :: x in Scan(pairs, test) ==>
      exists k :: 0 <= k < |pairs| && test(pairs[k].0, pairs[k].1) && x == ResultOf(pairs[k])
  {
    if pairs != [] {
      var n := |pairs| - 1;
      ScanSound(pairs[..n], test);
      forall x | x in Scan(pairs, test)
        ensures exists k :: 0 <= k < |pairs| && test(pairs[k].0, pairs[k].1) && x == ResultOf(pairs[k])
      {
        if x in Scan(pairs[..n], test) {
          var k :| 0 <= k < n && test(pairs[..n][k].0, pairs[..n][k].1) && x == ResultOf(pairs[..n][k]);
          assert pairs[..n][k] == pairs[k];
        } else {
          assert test(pairs[n].0, pairs[n].1) && x == ResultOf(pairs[n]);
        }
      }
    }
  }

  /** Soundness of detectAllWBlocks: each result names an RFB piece and an LFB
      piece of the board that together pass the W test. */
  lemma DetectAllSound(pieces: seq<Piece>)
    ensures forall x :: x in DetectAll(pieces) ==>
      exists rfb, lfb :: rfb in pieces && rfb.blockType == RFB && lfb in pieces && lfb.blockType == LFB
                         && PairMatches(rfb, lfb) && x == WBlockResult(rfb.id, lfb.id)
  {
    var pairs := BoardPairs(pieces);
    ScanSound(pairs, PairMatches);
    PairsMember(OfType(pieces, RFB), OfType(pieces, LFB));
    OfTypeMember(pieces, RFB);
    OfTypeMember(pieces, LFB);
    forall x | x in DetectAll(pieces)
      ensures exists rfb, lfb :: rfb in pieces && rfb.blockType == RFB && lfb in pieces && lfb.blockType == LFB
                                 && PairMatches(rfb, lfb) && x == WBlockResult(rfb.id, lfb.id)
    {
      var k :| 0 <= k < |pairs| && PairMatches(pairs[k].0, pairs[k].1) && x == ResultOf(pairs[k]);
      assert pairs[k] in pairs;
    }
  }

  /** The used-pairs key of a result. */
  function ResultKey(w: WBlockResult): string
  {
    PairKey(w.rfbId, w.lfbId)
  }

  /** No key is reported twice: the used-pairs set lets each key through once. */
  lemma {:induction false} ScanKeysDistinct(pairs: seq<(Piece, Piece)>, test: PairTest)
    ensures forall i, j :: 0 <= i < j < |Scan(pairs, test)| ==> ResultKey(Scan(pairs, test)[i]) != ResultKey(Scan(pairs, test)[j])
  {
    if pairs != [] {
      var n := |pairs| - 1;
      var before := Scan(pairs[..n], test);
      ScanKeysDistinct(pairs[..n], test);
      ScanSound(pairs[..n], test);
      if Scan(pairs, test) != before {
        forall i | 0 <= i < |before| ensures ResultKey(before[i]) != KeyOf(pairs[n]) {
          assert before[i] in before;
          var k :| 0 <= k < n && test(pairs[..n][k].0, pairs[..n][k].1) && before[i] == ResultOf(pairs[..n][k]);
          assert ResultKey(before[i]) == KeyOf(pairs[..n][k]);
        }
      }
    }
  }

  /** detectAllWBlocks never reports the same (rfbId, lfbId) pair twice. */
  lemma DetectAllNoRepeats(pieces: seq<Piece>)
    ensures forall i, j :: 0 <= i < j < |DetectAll(pieces)| ==> DetectAll(pieces)[i] != DetectAll(pieces)[j]
  {
    ScanKeysDistinct(BoardPairs(pieces), PairMatches);
  }


  /** An RFB (4 cells) and an LFB (5 cells) yield nine distinct cells only when
      they share none; so overlapping pieces never match. */
  lemma NineCellsDisjoint(rfb: Piece, lfb: Piece)
    requires rfb.blockType == RFB && lfb.blockType == LFB
    ensures |CombinedCells(rfb, lfb)| == 9 ==> NoSharedCell(GetPieceCells(rfb), GetPieceCells(lfb))
    ensures PairMatches(rfb, lfb) ==> NoSharedCell(GetPieceCells(rfb), GetPieceCells(lfb))
  {
    NoLossDisjoint(GetPieceCells(rfb), GetPieceCells(lfb));
  }

  /** De-duplicating `a + b` loses nothing only when `a` and `b` share no cell. */
  lemma NoLossDisjoint(a: seq<Cell>, b: seq<Cell>)
    ensures |Dedup(a + b)| == |a| + |b| ==> NoSharedCell(a, b)
  {
    var sa, sb := set c | c in a, set c | c in b;
    DedupSize(a + b);
    SetCardAtMostLength(a);
    SetCardAtMostLength(b);
    assert (set c | c in a + b) == sa + sb;
    if x :| x in a && x in b {
      assert x in sa * sb;
    }
  }

  // ---------------------------------------------------------------------------
  // When ids are unique, the used-pairs set loses nothing

  /** `rfbId:lfbId` splits back into its two ids when the first one holds no ':'. */
  lemma PairKeyInjective(a: string, b: string, c: string, d: string)
    requires ':' !in a && ':' !in c
    ensures PairKey(a, b) == PairKey(c, d) ==> a == c && b == d
  {
    var k1, k2 := PairKey(a, b), PairKey(c, d);
    if |a| < |c| {
      ColonPosition(a, b, c, d);
    } else if |c| < |a| {
      ColonPosition(c, d, a, b);
    } else if k1 == k2 {
      assert a == k1[..|a|] && c == k2[..|c|];
      assert b == k1[|a| + 1..] && d == k2[|c| + 1..];
    }
  }

  /** The ':' after a shorter colon-free id falls inside a longer colon-free id. */
  lemma ColonPosition(a: string, b: string, c: string, d: string)
    requires |a| < |c| && ':' !in c
    ensures PairKey(a, b) != PairKey(c, d)
  {
    assert PairKey(a, b)[|a|] == ':';
    assert PairKey(c, d)[|a|] == c[|a|];
  }

  /** Ids are pairwise different, and none of them contains ':' (as for the
      `piece-N` ids the session hands out). */
  predicate WellNamed(pieces: seq<Piece>)
  {
    (forall i, j :: 0 <= i < j < |pieces| ==> pieces[i].id != pieces[j].id) &&
    (forall i :: 0 <= i < |pieces| ==> ':' !in pieces[i].id)
  }

  /** Pairs with the same key are the same pair. */
  predicate KeysDetermine(pairs: seq<(Piece, Piece)>)
  {
    forall i, j :: 0 <= i < |pairs| && 0 <= j < |pairs| && KeyOf(pairs[i]) == KeyOf(pairs[j]) ==> pairs[i] == pairs[j]
  }

  lemma BoardPairsKeysDetermine(pieces: seq<Piece>)
    requires WellNamed(pieces)
    ensures KeysDetermine(BoardPairs(pieces))
  {
    var pairs := BoardPairs(pieces);
    PairsMember(OfType(pieces, RFB), OfType(pieces, LFB));
    OfTypeMember(pieces, RFB);
    OfTypeMember(pieces, LFB);
    forall i, j | 0 <= i < |pairs| && 0 <= j < |pairs| && KeyOf(pairs[i]) == KeyOf(pairs[j])
      ensures pairs[i] == pairs[j]
    {
      assert pairs[i] in pairs && pairs[j] in pairs;
      var p, q := pairs[i], pairs[j];
      var a :| 0 <= a < |pieces| && pieces[a] == p.0;
      var c :| 0 <= c < |pieces| && pieces[c] == q.0;
      var b :| 0 <= b < |pieces| && pieces[b] == p.1;
      var d :| 0 <= d < |pieces| && pieces[d] == q.1;
      PairKeyInjective(p.0.id, p.1.id, q.0.id, q.1.id);
      assert a == c && b == d;
    }
  }

  /** A matching pair is reported when every earlier pair with its key is the
      same pair. */
  lemma {:induction false} ScanComplete(pairs: seq<(Piece, Piece)>, k: int, test: PairTest)
    requires 0 <= k < |pairs| && test(pairs[k].0, pairs[k].1)
    requires forall m :: 0 <= m < k && KeyOf(pairs[m]) == KeyOf(pairs[k]) ==> pairs[m] == pairs[k]
    ensures ResultOf(pairs[k]) in Scan(pairs, test)
  {
    var n := |pairs| - 1;
    var prefix := pairs[..n];
    if k < n {
      assert prefix[k] == pairs[k];
      forall m | 0 <= m < k && KeyOf(prefix[m]) == KeyOf(prefix[k]) ensures prefix[m] == prefix[k] {
        assert prefix[m] == pairs[m];
      }
      ScanComplete(prefix, k, test);
    } else if KeyOf(pairs[n]) in KeysOf(prefix) {
      var m :| 0 <= m < n && KeyOf(prefix[m]) == KeyOf(pairs[n]);
      assert prefix[m] == pairs[m] == pairs[n];
      forall m' | 0 <= m' < m && KeyOf(prefix[m']) == KeyOf(prefix[m]) ensures prefix[m'] == prefix[m] {
        assert prefix[m'] == pairs[m'];
      }
      ScanComplete(prefix, m, test);
    }
  }

  /** When keys determine pairs, a visited pair is reported exactly when it
      passes the test. */
  lemma ScanExact(pairs: seq<(Piece, Piece)>, pair: (Piece, Piece), test: PairTest)
    requires KeysDetermine(pairs) && pair in pairs
    ensures ResultOf(pair) in Scan(pairs, test) <==> test(pair.0, pair.1)
  {
    var m :| 0 <= m < |pairs| && pairs[m] == pair;
    if test(pair.0, pair.1) {
      ScanComplete(pairs, m, test);
    }
    if ResultOf(pair) in Scan(pairs, test) {
      ScanSound(pairs, test);
      var k :| 0 <= k < |pairs| && test(pairs[k].0, pairs[k].1) && ResultOf(pair) == ResultOf(pairs[k]);
      assert KeyOf(pairs[k]) == KeyOf(pairs[m]);
    }
  }

  /** With well-named pieces, detectAllWBlocks reports an RFB/LFB pair of the
      board exactly when the pair passes the W test. */
  lemma DetectAllExact(pieces: seq<Piece>, rfb: Piece, lfb: Piece)
    requires WellNamed(pieces)
    requires rfb in pieces && rfb.blockType == RFB && lfb in pieces && lfb.blockType == LFB
    ensures WBlockResult(rfb.id, lfb.id) in DetectAll(pieces) <==> PairMatches(rfb, lfb)
  {
    PairsMember(OfType(pieces, RFB), OfType(pieces, LFB));
    OfTypeMember(pieces, RFB);
    OfTypeMember(pieces, LFB);
    BoardPairsKeysDetermine(pieces);
    ScanExact(BoardPairs(pieces), (rfb, lfb), PairMatches);
  }

  // ---------------------------------------------------------------------------
  // detectWBlock against detectAllWBlocks

  lemma {:induction false} FirstMatchNone(pairs: seq<(Piece, Piece)>, test: PairTest)
    ensures FirstMatch(pairs, test) == None <==> forall k :: 0 <= k < |pairs| ==> !test(pairs[k].0, pairs[k].1)
    ensures FirstMatch(pairs, test).Some? ==> exists k :: 0 <= k < |pairs| && test(pairs[k].0, pairs[k].1)
  {
    if pairs != [] {
      var n := |pairs| - 1;
      FirstMatchNone(pairs[..n], test);
      assert forall k :: 0 <= k < n ==> pairs[..n][k] == pairs[k];
    }
  }

  /** When keys determine pairs, the first match is the first reported result,
      and there is none exactly when nothing is reported. */
  lemma {:induction false} FirstMatchIsFirstResult(pairs: seq<(Piece, Piece)>, test: PairTest)
    requires KeysDetermine(pairs)
    ensures FirstMatch(pairs, test) == None <==> Scan(pairs, test) == []
    ensures FirstMatch(pairs, test).Some? ==> FirstMatch(pairs, test).value == Scan(pairs, test)[0]
  {
    if pairs != [] {
      var n := |pairs| - 1;
      var prefix := pairs[..n];
      assert KeysDetermine(prefix) by {
        forall i, j | 0 <= i < |prefix| && 0 <= j < |prefix| && KeyOf(prefix[i]) == KeyOf(prefix[j])
          ensures prefix[i] == prefix[j]
        {
          assert prefix[i] == pairs[i] && prefix[j] == pairs[j];
        }
      }
      FirstMatchIsFirstResult(prefix, test);
      if FirstMatch(prefix, test) == None && test(pairs[n].0, pairs[n].1) && KeyOf(pairs[n]) in KeysOf(prefix) {
        var m :| 0 <= m < n && KeyOf(prefix[m]) == KeyOf(pairs[n]);
        assert prefix[m] == pairs[m] == pairs[n];
        FirstMatchNone(prefix, test);
        assert false;
      }
    }
  }

  /** detectWBlock returns null exactly when detectAllWBlocks returns nothing,
      and otherwise that list's first element (for well-named pieces). */
  lemma DetectWBlockIsFirst(pieces: seq<Piece>)
    requires WellNamed(pieces)
    ensures DetectFirst(pieces) == None <==> DetectAll(pieces) == []
    ensures DetectFirst(pieces).Some? ==> DetectFirst(pieces).value == DetectAll(pieces)[0]
  {
    BoardPairsKeysDetermine(pieces);
    FirstMatchIsFirstResult(BoardPairs(pieces), PairMatches);
  }

  // ---------------------------------------------------------------------------
  // Invariance under piece maps that keep the type, the id and the W test

  /** Every piece of a list passed through `f`. */
  function MapAll(pieces: seq<Piece>, f: Piece -> Piece): seq<Piece>
  {
    seq(|pieces|, i requires 0 <= i < |pieces| => f(pieces[i]))
  }

  /** Both pieces of every pair passed through `f`. */
  function MapPairs(pairs: seq<(Piece, Piece)>, f: Piece -> Piece): seq<(Piece, Piece)>
  {
    seq(|pairs|, i requires 0 <= i < |pairs| => (f(pairs[i].0), f(pairs[i].1)))
  }

  /** `f` changes neither a piece's type nor its id. */
  ghost predicate KeepsTypeAndId(f: Piece -> Piece)
  {
    forall p :: f(p).blockType == p.blockType && f(p).id == p.id
  }

  /** `f` changes no pair's outcome under `test`. */
  ghost predicate KeepsPairTest(f: Piece -> Piece, test: PairTest)
  {
    forall r, l :: test(f(r), f(l)) == test(r, l)
  }

  lemma {:induction false} OfTypeMapped(pieces: seq<Piece>, t: BlockType, f: Piece -> Piece)
    requires KeepsTypeAndId(f)
    ensures OfType(MapAll(pieces, f), t) == MapAll(OfType(pieces, t), f)
  {
    if pieces != [] {
      var n := |pieces| - 1;
      OfTypeMapped(pieces[..n], t, f);
      assert MapAll(pieces, f)[..n] == MapAll(pieces[..n], f);
      var prev := OfType(pieces[..n], t);
      var last := if pieces[n].blockType == t then [pieces[n]] else [];
      assert MapAll(prev + last, f) == MapAll(prev, f) + MapAll(last, f);
    }
  }

  lemma {:induction false} PairsMapped(rfbs: seq<Piece>, lfbs: seq<Piece>, f: Piece -> Piece)
    ensures Pairs(MapAll(rfbs, f), MapAll(lfbs, f)) == MapPairs(Pairs(rfbs, lfbs), f)
  {
    if rfbs != [] {
      var n := |rfbs| - 1;
      PairsMapped(rfbs[..n], lfbs, f);
      assert MapAll(rfbs, f)[..n] == MapAll(rfbs[..n], f);
      var prev, row := Pairs(rfbs[..n], lfbs), Row(rfbs[n], lfbs);
      assert Row(f(rfbs[n]), MapAll(lfbs, f)) == MapPairs(row, f);
      assert MapPairs(prev + row, f) == MapPairs(prev, f) + MapPairs(row, f);
    }
  }

  lemma MappedKeys(pairs: seq<(Piece, Piece)>, f: Piece -> Piece)
    requires KeepsTypeAndId(f)
    ensures KeysOf(MapPairs(pairs, f)) == KeysOf(pairs)
  {
    var m := MapPairs(pairs, f);
    assert forall k :: 0 <= k < |pairs| ==> KeyOf(m[k]) == KeyOf(pairs[k]);
  }

  lemma {:induction false} ScanMapped(pairs: seq<(Piece, Piece)>, f: Piece -> Piece, test: PairTest)
    requires KeepsTypeAndId(f) && KeepsPairTest(f, test)
    ensures Scan(MapPairs(pairs, f), test) == Scan(pairs, test)
    ensures FirstMatch(MapPairs(pairs, f), test) == FirstMatch(pairs, test)
  {
    if pairs != [] {
      var n := |pairs| - 1;
      var m := MapPairs(pairs, f);
      ScanMapped(pairs[..n], f, test);
      assert m[..n] == MapPairs(pairs[..n], f);
      MappedKeys(pairs[..n], f);
      assert test(m[n].0, m[n].1) == test(pairs[n].0, pairs[n].1);
      assert ResultOf(m[n]) == ResultOf(pairs[n]) && KeyOf(m[n]) == KeyOf(pairs[n]);
    }
  }

  /** Passing every piece through a map that keeps types, ids and the W test
      changes neither detector's result. */
  lemma DetectMapped(pieces: seq<Piece>, f: Piece -> Piece)
    requires KeepsTypeAndId(f) && KeepsPairTest(f, PairMatches)
    ensures DetectAll(MapAll(pieces, f)) == DetectAll(pieces)
    ensures DetectFirst(MapAll(pieces, f)) == DetectFirst(pieces)
  {
    OfTypeMapped(pieces, RFB, f);
    OfTypeMapped(pieces, LFB, f);
    PairsMapped(OfType(pieces, RFB), OfType(pieces, LFB), f);
    ScanMapped(BoardPairs(pieces), f, PairMatches);
  }

  // ---------------------------------------------------------------------------
  // Translation invariance

  /** A piece moved by (dr, dc). */
  function Shifted(p: Piece, dr: int, dc: int): Piece
  {
    p.(anchorRow := p.anchorRow + dr, anchorCol := p.anchorCol + dc)
  }

  lemma ShiftedCells(p: Piece, dr: int, dc: int)
    ensures GetPieceCells(Shifted(p, dr, dc)) == Translate(GetPieceCells(p), dr, dc)
  {
    var pattern := GetRotatedPattern(p.blockType, p.rotation);
    var q := Shifted(p, dr, dc);
    assert GetRotatedPattern(q.blockType, q.rotation) == pattern;
    TranslateTwice(pattern, p.anchorRow, p.anchorCol, dr, dc);
  }

  /** Moving both pieces by the same vector does not change the W test. */
  lemma PairMatchesShifted(rfb: Piece, lfb: Piece, dr: int, dc: int)
    ensures PairMatches(Shifted(rfb, dr, dc), Shifted(lfb, dr, dc)) == PairMatches(rfb, lfb)
  {
    var a, b := GetPieceCells(rfb), GetPieceCells(lfb);
    ShiftedCells(rfb, dr, dc);
    ShiftedCells(lfb, dr, dc);
    TranslateAppend(a, b, dr, dc);
    DedupTranslate(a + b, dr, dc);
    var u := CombinedCells(rfb, lfb);
    assert CombinedCells(Shifted(rfb, dr, dc), Shifted(lfb, dr, dc)) == Translate(u, dr, dc);
    if |u| == 9 {
      NormalizeTranslate(u, dr, dc);
    }
  }

  /** Detection is translation invariant: moving every piece of the board by
      the same vector changes neither detector's result. */
  lemma DetectShifted(pieces: seq<Piece>, dr: int, dc: int)
    ensures DetectAll(MapAll(pieces, p => Shifted(p, dr, dc))) == DetectAll(pieces)
    ensures DetectFirst(MapAll(pieces, p => Shifted(p, dr, dc))) == DetectFirst(pieces)
  {
    var f := p => Shifted(p, dr, dc);
    forall r, l ensures PairMatches(f(r), f(l)) == PairMatches(r, l) {
      PairMatchesShifted(r, l, dr, dc);
    }
    DetectMapped(pieces, f);
  }

  // ---------------------------------------------------------------------------
  // A worked example: an RFB at rotation 0 and anchor (0, 0) with an LFB at
  // rotation 90 and anchor (2, 2) cover exactly the W template.

  function ExampleRfb(id: string): Piece
  {
    Piece(id, RFB, 0, 0, 0, false)
  }

  function ExampleLfb(id: string): Piece
  {
    Piece(id, LFB, 90, 2, 2, false)
  }

  /** The two pieces' cells, RFB first. */
  const EXAMPLE_UNION: seq<Cell> :=
    [Cell(0, 0), Cell(1, 0), Cell(2, 0), Cell(2, 1), Cell(4, 4), Cell(4, 3), Cell(4, 2), Cell(2, 2), Cell(3, 2)]

  lemma ExampleRfbCells(id: string)
    ensures GetPieceCells(ExampleRfb(id)) == EXAMPLE_UNION[..4]
  {
    TranslateZero(BlockShape(RFB));
  }

  /** The LFB shape after one quarter turn. */
  lemma LfbTurnedOnce()
    ensures GetRotatedPattern(LFB, 90) == [Cell(2, 2), Cell(2, 1), Cell(2, 0), Cell(0, 0), Cell(1, 0)]
  {
    var shape := BlockShape(LFB);
    var turned := QuarterTurn(shape, BLOCK_DIMENSION);
    QuarterTurnAt(shape, BLOCK_DIMENSION, 0);
    QuarterTurnAt(shape, BLOCK_DIMENSION, 1);
    QuarterTurnAt(shape, BLOCK_DIMENSION, 2);
    QuarterTurnAt(shape, BLOCK_DIMENSION, 3);
    QuarterTurnAt(shape, BLOCK_DIMENSION, 4);
    assert turned == [Cell(2, 2), Cell(2, 1), Cell(2, 0), Cell(0, 0), Cell(1, 0)];
    assert Rotated(shape, 1) == turned;
  }

  lemma ExampleLfbCells(id: string)
    ensures GetPieceCells(ExampleLfb(id)) == EXAMPLE_UNION[4..]
  {
    LfbTurnedOnce();
    ExampleLfbShifted(GetRotatedPattern(LFB, 90), GetPieceCells(ExampleLfb(id)));
  }

  /** The turned LFB shape moved to anchor (2, 2) is the example's second half. */
  lemma ExampleLfbShifted(pattern: seq<Cell>, cells: seq<Cell>)
    requires pattern == [Cell(2, 2), Cell(2, 1), Cell(2, 0), Cell(0, 0), Cell(1, 0)]
    requires |cells| == 5 && forall i :: 0 <= i < 5 ==> cells[i] == Cell(pattern[i].row + 2, pattern[i].col + 2)
    ensures cells == EXAMPLE_UNION[4..]
  {
    assert EXAMPLE_UNION[4..] == [Cell(4, 4), Cell(4, 3), Cell(4, 2), Cell(2, 2), Cell(3, 2)];
  }

  lemma ExampleSameCells()
    ensures multiset(EXAMPLE_UNION) == multiset(W_BASE)
  {
    var a, b, c := EXAMPLE_UNION[..4], [Cell(4, 4), Cell(4, 3), Cell(4, 2)], [Cell(2, 2), Cell(3, 2)];
    assert EXAMPLE_UNION == a + b + c;
    assert W_BASE == a + c + [Cell(4, 2), Cell(4, 3), Cell(4, 4)];
    Reverse3(Cell(4, 4), Cell(4, 3), Cell(4, 2));
  }

  lemma ExampleUnion(rfbId: string, lfbId: string)
    ensures CombinedCells(ExampleRfb(rfbId), ExampleLfb(lfbId)) == EXAMPLE_UNION
  {
    ExampleRfbCells(rfbId);
    ExampleLfbCells(lfbId);
    ExampleHalves(GetPieceCells(ExampleRfb(rfbId)), GetPieceCells(ExampleLfb(lfbId)));
  }

  /** Joining the example's two halves and de-duplicating gives the example. */
  lemma ExampleHalves(a: seq<Cell>, b: seq<Cell>)
    requires a == EXAMPLE_UNION[..4] && b == EXAMPLE_UNION[4..]
    ensures Dedup(a + b) == EXAMPLE_UNION
  {
    assert a + b == EXAMPLE_UNION;
    ExampleDistinct();
    DedupDistinct(EXAMPLE_UNION);
  }

  /** The example's nine cells are distinct (they are the template's cells). */
  lemma ExampleDistinct()
    ensures Distinct(EXAMPLE_UNION)
  {
    BaseTemplate();
    ExampleSameCells();
    DistinctSameCells(W_BASE, EXAMPLE_UNION);
  }

  lemma ExampleCanonical()
    ensures SortCells(Normalize(EXAMPLE_UNION)) == W_PATTERN0
  {
    ExampleSameCells();
    BoxBase();
    MinSameCells(W_BASE, EXAMPLE_UNION);
    TranslateZero(EXAMPLE_UNION);
    assert W_BASE == W_PATTERN0;
    SortedPattern0();
    SortCellsIs(EXAMPLE_UNION, W_PATTERN0);
  }

  /** The example pair passes the W test, matching the first W pattern. */
  lemma ExampleMatches(rfbId: string, lfbId: string)
    ensures PairMatches(ExampleRfb(rfbId), ExampleLfb(lfbId))
  {
    ExampleUnion(rfbId, lfbId);
    ExampleCanonical();
    WPatternsValue();
    S0();
    assert W_BASE == W_PATTERN0;
    assert SortCells(Normalize(CombinedCells(ExampleRfb(rfbId), ExampleLfb(lfbId)))) == SortCells(W_PATTERNS[0]);
  }

  /** On a board holding just the example pair, both detectors report it,
      whatever the two ids. */
  lemma ExampleDetected(rfbId: string, lfbId: string)
    ensures DetectAll([ExampleRfb(rfbId), ExampleLfb(lfbId)]) == [WBlockResult(rfbId, lfbId)]
    ensures DetectFirst([ExampleRfb(rfbId), ExampleLfb(lfbId)]) == Some(WBlockResult(rfbId, lfbId))
  {
    DetectTwo(ExampleRfb(rfbId), ExampleLfb(lfbId));
    ExampleMatches(rfbId, lfbId);
  }

  /** A board of one RFB followed by one LFB: both detectors report the pair exactly
      when it matches. */
  lemma DetectTwo(r: Piece, l: Piece)
    requires r.blockType == RFB && l.blockType == LFB
    ensures DetectAll([r, l]) == if PairMatches(r, l) then [WBlockResult(r.id, l.id)] else []
    ensures DetectFirst([r, l]) == if PairMatches(r, l) then Some(WBlockResult(r.id, l.id)) else None
  {
    OfTypeTwo(r, l, RFB);
    OfTypeTwo(r, l, LFB);
    PairsSingle(r, l);
    ScanSingle((r, l), PairMatches);
    assert OfType([r, l], RFB) == [r];
    assert OfType([r, l], LFB) == [l];
  }

  lemma OfTypeTwo(x: Piece, y: Piece, t: BlockType)
    ensures OfType([x, y], t) == (if x.blockType == t then [x] else []) + (if y.blockType == t then [y] else [])
  {
    assert [x, y][..1] == [x];
    assert [x][..0] == [];
    assert OfType([x], t) == (if x.blockType == t then [x] else []);
  }

  lemma PairsSingle(r: Piece, l: Piece)
    ensures Pairs([r], [l]) == [(r, l)]
  {
    assert [r][..0] == [];
  }

  lemma ScanSingle(pair: (Piece, Piece), test: PairTest)
    ensures Scan([pair], test) == if test(pair.0, pair.1) then [ResultOf(pair)] else []
    ensures FirstMatch([pair], test) == if test(pair.0, pair.1) then Some(ResultOf(pair)) else None
  {
    assert [pair][..0] == [];
  }
}
