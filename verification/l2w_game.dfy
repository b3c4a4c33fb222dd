/** components/game/L2WGame.tsx: which screen a phase shows and the handlers
    that move the game between phases. */
module L2WGame {
  import opened GameConstants
  import opened GameState

  /** isPartAPhase: the Part A grid is shown in these phases. */
  predicate IsPartAPhase(phase: GamePhase)
  {
    phase == PartA || phase == TransitionAB || phase == Idle
  }

  /** The Part B grid is shown when the phase is neither a Part A phase nor
      `complete`. */
  predicate PartBGridActive(phase: GamePhase)
  {
    !IsPartAPhase(phase) && phase != Complete
  }

  /** Exactly one of the three screens is shown, and the Part B grid is shown
      exactly in `partB` and `transitionBA`. */
  lemma ScreensPartitionPhases(phase: GamePhase)
    ensures IsPartAPhase(phase) || PartBGridActive(phase) || phase == Complete
    ensures !(IsPartAPhase(phase) && PartBGridActive(phase))
    ensures phase == Complete ==> !IsPartAPhase(phase) && !PartBGridActive(phase)
    ensures PartBGridActive(phase) <==> phase == PartB || phase == TransitionBA
  {
  }

  /** The phase handleTransition moves to. */
  function TransitionTarget(phase: GamePhase): (r: GamePhase)
    ensures phase == TransitionAB ==> r == PartB
    ensures phase == TransitionBA ==> r == PartA
    ensures phase != TransitionAB && phase != TransitionBA ==> r == phase
  {
    match phase
    case TransitionAB => PartB
    case TransitionBA => PartA
    case _ => phase
  }

  /** A transition always lands outside the two transition phases, so a second
      transition changes nothing. */
  lemma TransitionSettles(phase: GamePhase)
    ensures TransitionTarget(phase) != TransitionAB && TransitionTarget(phase) != TransitionBA
    ensures TransitionTarget(TransitionTarget(phase)) == TransitionTarget(phase)
  {
  }

  /** The game component, holding its store. */
  class Game {
    const gameState: GameStore

    constructor ()
      ensures fresh(gameState) && gameState.IsInitial()
    {
      var store := NewDefaultStore();
      gameState := store;
    }

    /** handleTransition: transitionAB -> partB, transitionBA -> partA, any
        other phase left as it is; nothing else changes. */
    method HandleTransition()
      modifies gameState
      ensures gameState.phase == TransitionTarget(old(gameState.phase))
      ensures gameState.score == old(gameState.score) && gameState.level == old(gameState.level)
      ensures gameState.rfbCount == old(gameState.rfbCount) && gameState.lfbCount == old(gameState.lfbCount)
      ensures gameState.wCount == old(gameState.wCount)
    {
      if gameState.phase == TransitionAB {
        gameState.SetPhase(PartB);
      } else if gameState.phase == TransitionBA {
        gameState.SetPhase(PartA);
      }
    }

    /** handleStartPartA: the phase becomes partA. */
    method HandleStartPartA()
      modifies gameState
      ensures gameState.phase == PartA
      ensures gameState.score == old(gameState.score) && gameState.level == old(gameState.level)
      ensures gameState.rfbCount == old(gameState.rfbCount) && gameState.lfbCount == old(gameState.lfbCount)
      ensures gameState.wCount == old(gameState.wCount)
    {
      gameState.SetPhase(PartA);
    }

    /** handlePartBEnd: the phase becomes complete. */
    method HandlePartBEnd()
      modifies gameState
      ensures gameState.phase == Complete
      ensures gameState.score == old(gameState.score) && gameState.level == old(gameState.level)
      ensures gameState.rfbCount == old(gameState.rfbCount) && gameState.lfbCount == old(gameState.lfbCount)
      ensures gameState.wCount == old(gameState.wCount)
    {
      gameState.SetPhase(Complete);
    }
  }
}
