/** The game-over trigger of ui.js. The countdown half of drawGameOverScreen,
    which starts a new run, lives with start_new_run in `GameOver`. */
module Ui {
  import opened State

  /** The seconds the game-over overlay stays up before a new run. */
  const GAME_OVER_DELAY: real := 1.2

  /** triggerGameOver: start the game-over countdown, unless god mode is on. */
  method TriggerGameOver(g: Game)
    modifies g`gameOverCountdown
    ensures g.gameOverCountdown == if g.debugGodMode then old(g.gameOverCountdown) else GAME_OVER_DELAY
  {
    if g.debugGodMode {
      return;
    }
    g.gameOverCountdown := GAME_OVER_DELAY;
  }
}
