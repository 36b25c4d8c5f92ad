/** The engine's global time scale, shared by every component that pauses the game. */
module EngineTime {
  class Clock {
    /** 1 runs the game at normal speed, 0 stops it. */
    var timeScale: real

    constructor ()
      ensures timeScale == 1.0
    {
      timeScale := 1.0;
    }
  }
}
