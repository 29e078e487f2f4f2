/** Geometry of the Start button on the start-position screen (game.py, lines 263,
    273 and 323). The screen grows by 100 pixels per player and the button is drawn
    near its bottom, but the click test uses one fixed rectangle. */
module StartButton {

  const WindowWidth := 375
  const ButtonLeft := 250
  const ButtonWidth := 90
  const ButtonHeight := 40

  function WindowHeight(players: int): int {
    200 + 100 * players
  }

  function ButtonTop(players: int): int {
    150 + 100 * players
  }

  /** Mouse positions are reported relative to the window and lie inside it. */
  predicate InWindow(players: int, mx: int, my: int) {
    0 <= mx < WindowWidth && 0 <= my < WindowHeight(players)
  }

  /** The click test as the screen performs it: a fixed rectangle. */
  predicate HitAsWritten(mx: int, my: int) {
    250 <= mx <= 340 && 550 <= my <= 590
  }

  /** The pixels the Start button is drawn on: a rectangle of ButtonWidth by
      ButtonHeight pixels whose top-left pixel is (ButtonLeft, ButtonTop). */
  predicate OnStartButton(players: int, mx: int, my: int) {
    ButtonLeft <= mx < ButtonLeft + ButtonWidth &&
    ButtonTop(players) <= my < ButtonTop(players) + ButtonHeight
  }

  /** With two or three players the fixed rectangle lies below the bottom edge of
      the window, so no mouse press can satisfy it. */
  lemma HitAsWrittenOutsideWindow(players: int, mx: int, my: int)
    requires 2 <= players <= 3
    requires InWindow(players, mx, my)
    ensures !HitAsWritten(mx, my)
  {
  }

  /** With four players the fixed rectangle is the drawn button plus the one-pixel
      column to its right and the one-pixel row below it. */
  lemma HitAsWrittenFitsFourPlayers(mx: int, my: int)
    ensures HitAsWritten(mx, my) <==>
      OnStartButton(4, mx, my) ||
      (mx == 340 && 550 <= my <= 590) || (my == 590 && 250 <= mx <= 340)
  {
  }

  /** For every player count the screen offers, the drawn button lies wholly inside
      the window, so every point of it can be pressed. */
  lemma StartButtonInsideWindow(players: int, mx: int, my: int)
    requires 2 <= players <= 4
    requires OnStartButton(players, mx, my)
    ensures InWindow(players, mx, my)
  {
  }
}
