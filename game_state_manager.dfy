/**
 * The central state machine: the current and previous game phase and a
 * pause flag that drives the engine's time scale.
 */
module GameStates {
  import opened EngineTime

  datatype GameState = Menu | Loading | Playing | Paused | GameOver | LevelComplete

  /** The pause flag SetState leaves: entering Paused pauses, Paused to Playing resumes, anything else keeps it. */
  function PausedAfter(paused: bool, from: GameState, to: GameState): bool {
    if to == Paused then true
    else if from == Paused && to == Playing then false
    else paused
  }

  /** Leaving Paused for any phase other than Playing keeps the game paused. */
  lemma LeavingPauseElsewhereStaysPaused(to: GameState)
    requires to != Paused && to != Playing
    ensures PausedAfter(true, Paused, to)
  {
  }

  /** The OnPauseStateChanged events of a move from one flag to another: one event exactly when it changes. */
  function PauseEvents(before: bool, after: bool): seq<bool> {
    if before == after then [] else [after]
  }

  /** The time scale that goes with a pause flag. */
  function ScaleFor(paused: bool): real {
    if paused then 0.0 else 1.0
  }

  /** The time scale after a move between flags: set from the new flag on a change, kept otherwise. */
  function ScaleAfter(before: bool, after: bool, scale: real): real {
    if before == after then scale else ScaleFor(after)
  }

  /** A time scale that matched the old flag matches the new one. */
  lemma ScaleAfterKeepsSync(before: bool, after: bool)
    ensures ScaleAfter(before, after, ScaleFor(before)) == ScaleFor(after)
  {
  }

  /** A change of flag sets the time scale to match whatever it was before. */
  lemma ScaleAfterChangeSyncs(before: bool, scale: real)
    ensures ScaleAfter(before, !before, scale) == ScaleFor(!before)
    ensures |PauseEvents(before, !before)| == 1
  {
  }

  class GameStateManager {
    var currentState: GameState
    var previousState: GameState
    var isPaused: bool
    /** (new, old) for every OnStateChanged event raised so far. */
    var stateEvents: seq<(GameState, GameState)>
    /** Argument of every OnPauseStateChanged event raised so far. */
    var pauseEvents: seq<bool>
    const time: Clock

    /** The time scale is 0 exactly while paused and 1 otherwise. */
    ghost predicate Synced()
      reads this, time
    {
      time.timeScale == if isPaused then 0.0 else 1.0
    }

    /** Starts in the menu, unpaused, and resets the time scale to 1. */
    constructor (t: Clock)
      modifies t
      ensures time == t && currentState == Menu && previousState == Menu && !isPaused
      ensures stateEvents == [] && pauseEvents == []
      ensures Synced()
    {
      time := t;
      currentState := Menu;
      previousState := Menu;
      isPaused := false;
      stateEvents := [];
      pauseEvents := [];
      new;
      t.timeScale := 1.0;
    }

    /** A change of the flag sets the time scale and is announced; setting the same value does nothing. */
    method SetPaused(paused: bool)
      modifies this, time
      ensures isPaused == paused
      ensures old(isPaused) == paused ==> pauseEvents == old(pauseEvents) && time.timeScale == old(time.timeScale)
      ensures old(isPaused) != paused ==> pauseEvents == old(pauseEvents) + [paused] && Synced()
      ensures pauseEvents == old(pauseEvents) + PauseEvents(old(isPaused), paused)
      ensures time.timeScale == ScaleAfter(old(isPaused), paused, old(time.timeScale))
      ensures old(Synced()) ==> Synced()
      ensures currentState == old(currentState) && previousState == old(previousState) && stateEvents == old(stateEvents)
    {
      if isPaused == paused {
        return;
      }
      isPaused := paused;
      time.timeScale := if paused then 0.0 else 1.0;
      pauseEvents := pauseEvents + [isPaused];
    }

    /** Flips the pause flag. */
    method TogglePause()
      modifies this, time
      ensures isPaused == !old(isPaused) && Synced()
      ensures pauseEvents == old(pauseEvents) + [isPaused]
      ensures currentState == old(currentState) && previousState == old(previousState) && stateEvents == old(stateEvents)
    {
      SetPaused(!isPaused);
    }

    /**
     * Moves to a new phase, remembering the old one and announcing the
     * change; the pause flag follows PausedAfter. The same phase does nothing.
     */
    method SetState(newState: GameState)
      modifies this, time
      ensures old(currentState) == newState ==>
        currentState == old(currentState) && previousState == old(previousState) && isPaused == old(isPaused) &&
        stateEvents == old(stateEvents) && pauseEvents == old(pauseEvents) && time.timeScale == old(time.timeScale)
      ensures old(currentState) != newState ==>
        currentState == newState && previousState == old(currentState) &&
        stateEvents == old(stateEvents) + [(newState, old(currentState))] &&
        isPaused == PausedAfter(old(isPaused), old(currentState), newState)
      ensures old(currentState) != newState ==>
        pauseEvents == old(pauseEvents) + PauseEvents(old(isPaused), isPaused) &&
        time.timeScale == ScaleAfter(old(isPaused), isPaused, old(time.timeScale))
      ensures old(Synced()) ==> Synced()
    {
      if currentState == newState {
        return;
      }
      previousState := currentState;
      currentState := newState;
      stateEvents := stateEvents + [(currentState, previousState)];
      if newState == Paused {
        SetPaused(true);
      } else if previousState == Paused && newState == Playing {
        SetPaused(false);
      }
    }

    /** Back to the menu, unpaused. */
    method ReturnToMenu()
      modifies this, time
      ensures currentState == Menu && !isPaused && (old(Synced()) ==> Synced())
      ensures previousState == (if old(currentState) != Menu then old(currentState) else old(previousState))
      ensures stateEvents == old(stateEvents) + (if old(currentState) != Menu then [(Menu, old(currentState))] else [])
      ensures pauseEvents == old(pauseEvents) + PauseEvents(old(isPaused), false)
      ensures time.timeScale == ScaleAfter(old(isPaused), false, old(time.timeScale))
    {
      SetPaused(false);
      SetState(Menu);
    }

    /** Into play, unpaused. */
    method StartLevel()
      modifies this, time
      ensures currentState == Playing && !isPaused && (old(Synced()) ==> Synced())
      ensures previousState == (if old(currentState) != Playing then old(currentState) else old(previousState))
      ensures stateEvents == old(stateEvents) + (if old(currentState) != Playing then [(Playing, old(currentState))] else [])
      ensures pauseEvents == old(pauseEvents) + PauseEvents(old(isPaused), false)
      ensures time.timeScale == ScaleAfter(old(isPaused), false, old(time.timeScale))
    {
      SetPaused(false);
      SetState(Playing);
    }

    /** The level is won: paused in LevelComplete. */
    method LevelComplete()
      modifies this, time
      ensures currentState == GameState.LevelComplete && isPaused && (old(Synced()) ==> Synced())
      ensures previousState == (if old(currentState) != GameState.LevelComplete then old(currentState) else old(previousState))
      ensures stateEvents == old(stateEvents) + (if old(currentState) != GameState.LevelComplete then [(GameState.LevelComplete, old(currentState))] else [])
      ensures pauseEvents == old(pauseEvents) + PauseEvents(old(isPaused), true)
      ensures time.timeScale == ScaleAfter(old(isPaused), true, old(time.timeScale))
    {
      SetPaused(true);
      SetState(GameState.LevelComplete);
    }

    /** The level is lost: paused in GameOver. */
    method GameOver()
      modifies this, time
      ensures currentState == GameState.GameOver && isPaused && (old(Synced()) ==> Synced())
      ensures previousState == (if old(currentState) != GameState.GameOver then old(currentState) else old(previousState))
      ensures stateEvents == old(stateEvents) + (if old(currentState) != GameState.GameOver then [(GameState.GameOver, old(currentState))] else [])
      ensures pauseEvents == old(pauseEvents) + PauseEvents(old(isPaused), true)
      ensures time.timeScale == ScaleAfter(old(isPaused), true, old(time.timeScale))
    {
      SetPaused(true);
      SetState(GameState.GameOver);
    }
  }
}
