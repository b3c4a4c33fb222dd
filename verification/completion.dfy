/** components/game/partB/usePartBCompletion.ts (and its inline copy in
    components/game/PartBGrid.tsx): when Part B is over. While both counters are
    positive the phase ends once some piece type fits nowhere; otherwise it ends
    once the board cannot yield more W-blocks than it already shows. */
module PartBCompletion {
  import opened PartBConstants
  import opened PartBTypes
  import opened PatternUtils
  import opened WBlockDetection
  import opened PieceValidation

  /** The end-of-phase decision for the two available counters and the board. */
  ghost predicate ShouldEndPartB(availableRfbCount: int, availableLfbCount: int, pieces: seq<Piece>)
  {
    if availableRfbCount > 0 && availableLfbCount > 0 then
      !CanPlace(RFB, pieces) || !CanPlace(LFB, pieces)
    else
      var maxPossibleWBlocks := Min(|OfType(pieces, RFB)|, |OfType(pieces, LFB)|);
      maxPossibleWBlocks == 0 || |DetectAll(pieces)| >= maxPossibleWBlocks
  }

  /** The effect body: `true` where the source calls `onPartBEnd`. */
  method CheckPartBCompletion(availableRfbCount: int, availableLfbCount: int, pieces: seq<Piece>) returns (ends: bool)
    ensures ends <==> ShouldEndPartB(availableRfbCount, availableLfbCount, pieces)
  {
    if availableRfbCount > 0 && availableLfbCount > 0 {
      var canPlaceRfb := CanPlacePieceType(RFB, pieces);
      var canPlaceLfb := CanPlacePieceType(LFB, pieces);
      return !canPlaceRfb || !canPlaceLfb;
    }
    var rfbPieces := OfType(pieces, RFB);
    var lfbPieces := OfType(pieces, LFB);
    var maxPossibleWBlocks := Min(|rfbPieces|, |lfbPieces|);
    if maxPossibleWBlocks == 0 {
      return true;
    }
    var currentWBlocks := DetectAllWBlocks(pieces);
    return |currentWBlocks| >= maxPossibleWBlocks;
  }

  /** The counters matter only through the two `> 0` tests. */
  lemma CountersOnlyBySign(a: int, b: int, a': int, b': int, pieces: seq<Piece>)
    requires (a > 0 <==> a' > 0) && (b > 0 <==> b' > 0)
    ensures ShouldEndPartB(a, b, pieces) == ShouldEndPartB(a', b', pieces)
  {
  }

  /** The three cases of the decision, spelled out. */
  lemma CompletionCases(a: int, b: int, pieces: seq<Piece>)
    ensures a > 0 && b > 0 ==> (ShouldEndPartB(a, b, pieces) <==> !CanPlace(RFB, pieces) || !CanPlace(LFB, pieces))
    ensures !(a > 0 && b > 0) && (OfType(pieces, RFB) == [] || OfType(pieces, LFB) == []) ==> ShouldEndPartB(a, b, pieces)
    ensures !(a > 0 && b > 0) && OfType(pieces, RFB) != [] && OfType(pieces, LFB) != [] ==>
      (ShouldEndPartB(a, b, pieces) <==> |DetectAll(pieces)| >= Min(|OfType(pieces, RFB)|, |OfType(pieces, LFB)|))
  {
  }

  /** With both counters positive, the phase never ends on an empty board. */
  lemma EmptyBoardContinues(a: int, b: int)
    requires a > 0 && b > 0
    ensures !ShouldEndPartB(a, b, [])
  {
    EmptyBoardFits(RFB);
    EmptyBoardFits(LFB);
  }

  /** With a counter used up and the board holding just the example W pair, the
      one possible W-block is formed and the phase ends; were the pair not a W,
      it would go on. */
  lemma ExamplePairEndsPhase(a: int, b: int, rfbId: string, lfbId: string)
    requires !(a > 0 && b > 0)
    ensures ShouldEndPartB(a, b, [ExampleRfb(rfbId), ExampleLfb(lfbId)])
  {
    var board := [ExampleRfb(rfbId), ExampleLfb(lfbId)];
    ExampleDetected(rfbId, lfbId);
    OfTypeTwo(ExampleRfb(rfbId), ExampleLfb(lfbId), RFB);
    OfTypeTwo(ExampleRfb(rfbId), ExampleLfb(lfbId), LFB);
    assert |OfType(board, RFB)| == 1 && |OfType(board, LFB)| == 1;
  }

  /** With a counter used up, one RFB and one LFB on the board that do not form
      a W leave the phase running. */
  lemma UnmatchedPairContinues(a: int, b: int, r: Piece, l: Piece)
    requires !(a > 0 && b > 0)
    requires r.blockType == RFB && l.blockType == LFB && !PairMatches(r, l)
    ensures !ShouldEndPartB(a, b, [r, l])
  {
    DetectTwo(r, l);
    OfTypeTwo(r, l, RFB);
    OfTypeTwo(r, l, LFB);
  }
}
