/** hooks/useGameState.ts: the phase, score, level and the three piece counters
    of a game, with the update operations the game screens call. */
module GameState {
  import opened GameConstants
  import opened Wrappers

  /** The optional initial values (`Partial<GameState>`). */
  datatype InitialState = InitialState(
    phase: Option<GamePhase>,
    score: Option<int>,
    level: Option<int>,
    rfbCount: Option<int>,
    lfbCount: Option<int>,
    wCount: Option<int>)

  /** `value ?? fallback`. */
  function OrElse<T>(value: Option<T>, fallback: T): T
  {
    if value.Some? then value.value else fallback
  }

  /** `Math.max(0, prev + delta)`: the counter moved by `delta`, floored at zero. */
  function FlooredAdd(prev: int, delta: int): (r: int)
    ensures r >= 0
    ensures prev + delta >= 0 ==> r == prev + delta
    ensures prev + delta < 0 ==> r == 0
  {
    if prev + delta >= 0 then prev + delta else 0
  }

  /** Moving a floored counter twice never goes below moving it once by the sum:
      the floor only ever adds. */
  lemma FlooredAddTwice(prev: int, d1: int, d2: int)
    ensures FlooredAdd(FlooredAdd(prev, d1), d2) >= FlooredAdd(prev, d1 + d2)
    ensures d1 >= 0 && d2 >= 0 && prev >= 0 ==> FlooredAdd(FlooredAdd(prev, d1), d2) == prev + d1 + d2
  {
  }

  /** The store of useGameState. */
  class GameStore {
    var phase: GamePhase
    var score: int
    var level: int
    var rfbCount: int
    var lfbCount: int
    var wCount: int

    /** useGameState(initialState): each field from the initial state when
        given, otherwise idle / 0 / 1 / 0 / 0 / 0. */
    constructor (init: InitialState)
      ensures phase == OrElse(init.phase, Idle)
      ensures score == OrElse(init.score, 0) && level == OrElse(init.level, 1)
      ensures rfbCount == OrElse(init.rfbCount, 0) && lfbCount == OrElse(init.lfbCount, 0)
      ensures wCount == OrElse(init.wCount, 0)
    {
      phase := OrElse(init.phase, Idle);
      score := OrElse(init.score, 0);
      level := OrElse(init.level, 1);
      rfbCount := OrElse(init.rfbCount, 0);
      lfbCount := OrElse(init.lfbCount, 0);
      wCount := OrElse(init.wCount, 0);
    }

    /** The state `reset` restores and a store without initial values starts in. */
    predicate IsInitial()
      reads this
    {
      phase == Idle && score == 0 && level == 1 && rfbCount == 0 && lfbCount == 0 && wCount == 0
    }

    /** setPhase: only the phase changes. */
    method SetPhase(next: GamePhase)
      modifies this
      ensures phase == next
      ensures score == old(score) && level == old(level)
      ensures rfbCount == old(rfbCount) && lfbCount == old(lfbCount) && wCount == old(wCount)
    {
      phase := next;
    }

    /** updateScore: the score moves by `delta`, with no floor. */
    method UpdateScore(delta: int)
      modifies this
      ensures score == old(score) + delta
      ensures phase == old(phase) && level == old(level)
      ensures rfbCount == old(rfbCount) && lfbCount == old(lfbCount) && wCount == old(wCount)
    {
      score := score + delta;
    }

    /** updateRfbCount: the RFB counter moves by `delta`, floored at zero. */
    method UpdateRfbCount(delta: int)
      modifies this
      ensures rfbCount == FlooredAdd(old(rfbCount), delta)
      ensures phase == old(phase) && score == old(score) && level == old(level)
      ensures lfbCount == old(lfbCount) && wCount == old(wCount)
    {
      rfbCount := FlooredAdd(rfbCount, delta);
    }

    /** updateLfbCount: the LFB counter moves by `delta`, floored at zero. */
    method UpdateLfbCount(delta: int)
      modifies this
      ensures lfbCount == FlooredAdd(old(lfbCount), delta)
      ensures phase == old(phase) && score == old(score) && level == old(level)
      ensures rfbCount == old(rfbCount) && wCount == old(wCount)
    {
      lfbCount := FlooredAdd(lfbCount, delta);
    }

    /** updateWCount: the W counter moves by `delta`, with no floor. */
    method UpdateWCount(delta: int)
      modifies this
      ensures wCount == old(wCount) + delta
      ensures phase == old(phase) && score == old(score) && level == old(level)
      ensures rfbCount == old(rfbCount) && lfbCount == old(lfbCount)
    {
      wCount := wCount + delta;
    }

    /** reset: back to idle / 0 / 1 / 0 / 0 / 0. */
    method Reset()
      modifies this
      ensures IsInitial()
    {
      phase := Idle;
      score := 0;
      level := 1;
      rfbCount := 0;
      lfbCount := 0;
      wCount := 0;
    }
  }

  /** A store created without initial values is in the reset state. */
  method NewDefaultStore() returns (store: GameStore)
    ensures fresh(store) && store.IsInitial()
  {
    store := new GameStore(InitialState(None, None, None, None, None, None));
  }
}
