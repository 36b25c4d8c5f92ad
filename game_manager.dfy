/**
 * The simpler game manager: its own five-phase state and the time scale
 * each phase runs at.
 */
module Game {
  import opened EngineTime

  datatype Phase = Menu | Playing | Paused | GameOver | LevelComplete

  /** The time scale a phase runs at. */
  function TimeScaleFor(p: Phase): real {
    match p
    case Menu => 1.0
    case Playing => 1.0
    case Paused => 0.0
    case GameOver => 0.0
    case LevelComplete => 0.0
  }

  /** Time runs exactly in the menu and in play, and is stopped in every other phase. */
  lemma TimeRunsOnlyInMenuAndPlay(p: Phase)
    ensures TimeScaleFor(p) == 1.0 <==> p == Menu || p == Playing
    ensures TimeScaleFor(p) == 0.0 <==> !(p == Menu || p == Playing)
  {
  }

  class GameManager {
    var currentState: Phase
    const time: Clock

    /** Starts in Menu; entering Menu again on initialisation is a no-op, so the time scale is left alone. */
    constructor (t: Clock)
      ensures time == t && currentState == Menu
    {
      time := t;
      currentState := Menu;
    }

    /** Moves to a new phase and sets its time scale; the same phase does nothing. */
    method SetGameState(newState: Phase)
      modifies this, time
      ensures currentState == newState
      ensures old(currentState) == newState ==> time.timeScale == old(time.timeScale)
      ensures old(currentState) != newState ==> time.timeScale == TimeScaleFor(newState)
    {
      if currentState == newState {
        return;
      }
      currentState := newState;
      OnGameStateChanged(currentState);
    }

    /** Applies the time scale of the phase just entered. */
    method OnGameStateChanged(state: Phase)
      modifies time
      ensures time.timeScale == TimeScaleFor(state)
    {
      match state
      case Menu => time.timeScale := 1.0;
      case Playing => time.timeScale := 1.0;
      case Paused => time.timeScale := 0.0;
      case GameOver => time.timeScale := 0.0;
      case LevelComplete => time.timeScale := 0.0;
    }

    /** Pauses only from Playing. */
    method PauseGame()
      modifies this, time
      ensures old(currentState) == Playing ==> currentState == Paused && time.timeScale == 0.0
      ensures old(currentState) != Playing ==> currentState == old(currentState) && time.timeScale == old(time.timeScale)
    {
      if currentState == Playing {
        SetGameState(Paused);
      }
    }

    /** Resumes only from Paused. */
    method ResumeGame()
      modifies this, time
      ensures old(currentState) == Paused ==> currentState == Playing && time.timeScale == 1.0
      ensures old(currentState) != Paused ==> currentState == old(currentState) && time.timeScale == old(time.timeScale)
    {
      if currentState == Paused {
        SetGameState(Playing);
      }
    }

    /** Ends the game from any phase. */
    method EndGame()
      modifies this, time
      ensures currentState == GameOver
      ensures old(currentState) != GameOver ==> time.timeScale == 0.0
      ensures old(currentState) == GameOver ==> time.timeScale == old(time.timeScale)
    {
      SetGameState(GameOver);
    }

    /** Completes the level from any phase. */
    method CompleteLevel()
      modifies this, time
      ensures currentState == LevelComplete
      ensures old(currentState) != LevelComplete ==> time.timeScale == 0.0
      ensures old(currentState) == LevelComplete ==> time.timeScale == old(time.timeScale)
    {
      SetGameState(LevelComplete);
    }
  }
}
