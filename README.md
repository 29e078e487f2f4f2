# Wandering in the Woods: player entity and start-position screen

This project models the parts of the "Wandering in the Woods" game (`game.py`) that hold logic.

- **The `player` class** is a Dafny class, `Players.Player`. It has a constant id and two mutable coordinates. `Move` takes a direction text and shifts the player by one cell: "up" adds 1 to y, "down" subtracts 1 from y, "left" subtracts 1 from x, "right" adds 1 to x. Any other text changes nothing, and nothing clamps a move to the grid. `GetCoords` and `SetCoords` read and write the position. The pure function `Players.Step` specifies `Move`, and the lemmas about walks build on it.
- **`check_coords`** is `Coords.CheckCoords`: component-wise equality of two pairs.
- **The start-position screen** (`grid_and_player_selection`) is the module `StartSelection`, with its drawing removed:
  - Two append loops build the texts a selection list offers for each grid axis. They become the method `ChoiceList`. Python's `str` on the cell numbers is modelled by `Decimal.NatToString`, with a reader `Decimal.Value` that inverts it.
  - The eight "picked" flags and picked texts of up to four players form a `Selection` value. Each new selection in a list is a `Pick`.
  - A press on Start is `PressStart`. It keeps the source's hand-written cascade of pair comparisons. The lemmas show that the cascade means "every flag set, and the chosen coordinates of the players taking part are pairwise distinct".

The picked coordinates stay texts, because that is what the screen compares. `StartSelection.StartOnDistinctCells` shows that, for texts taken from the choice lists, comparing texts is the same as comparing cells.

## Model

| member | source | states |
|---|---|---|
| Players.Player.constructor | game.py:33-36 | A new player holds the given id and coordinates. |
| Players.Player.Move | game.py:39-47 | "up" adds 1 to y, "down" subtracts 1 from y, "left" subtracts 1 from x, "right" adds 1 to x. The other coordinate stays the same. Any other text leaves the position unchanged. Only x and y may change, so the id is never written. The result equals `Step` of the old position. |
| Players.Player.GetCoords | game.py:50-51 | Returns the current (x, y) and changes nothing. |
| Players.Player.SetCoords | game.py:54-56 | Afterwards the position is exactly the given pair. Only x and y may change. |
| Players.SetThenGet | game.py:50-56 | Reading the position right after setting it returns exactly the pair that was set. |
| Players.MoveAndBack | game.py:39-47 | A move followed by the opposite move restores the player's position. |
| Players.StepDistance | game.py:39-47 | From any position, a move covers exactly one grid cell for each of the four direction names, and no cell for any other text. |
| Players.StepAxis | game.py:39-47 | "up" and "down" change only y, in the named sense. "left" and "right" change only x. |
| Players.StepOpposite | game.py:39-47 | A move in a direction followed by a move in the opposite direction returns to the start. |
| Players.StepCommutes | game.py:39-47 | Two moves reach the same cell in either order. |
| Players.StepUnclamped | game.py:39-47 | An example of what `Move` already states: a move is not held within the grid, so "left" from column 1 lands on column 0. |
| Players.OppositeInvolutive | game.py:39-47 | The opposite of the opposite direction is the direction itself. |
| Players.WalkDisplacement | game.py:39-47 | After any series of moves, the position is the start plus (#right − #left, #up − #down). It does not depend on the order of the moves. |
| Players.WalkAppend | game.py:39-47 | Making two series of moves one after the other is the same as making them as one series. |
| Players.WalkRetrace | game.py:39-47 | Retracing any series of moves (opposite directions, last move first) brings the player back to the start. |
| Coords.CheckCoords | game.py:86-87 | True exactly when both components of the two pairs are equal. |
| Coords.CheckCoordsReflexive | game.py:86-87 | Every pair matches itself. |
| Coords.CheckCoordsSymmetric | game.py:86-87 | The order of the arguments does not matter. |
| Coords.CheckCoordsTransitive | game.py:86-87 | Matching is transitive. |
| Decimal.NatToString | game.py:277 | `str` of a natural number is a non-empty string of digits. It begins with '0' only for the number 0. |
| Decimal.ValueOfNatToString | game.py:276-280 | Reading the decimal text of k back gives k. |
| Decimal.NatToStringInjective | game.py:276-280 | Two numbers have the same text exactly when they are equal. |
| StartSelection.ChoiceList | game.py:276-280 | The list for an axis of size `count` has `count` entries (none when `count` is negative). Entry i is `str(i+1)` and reads back as i+1. So the list offers 1-based cells, in ascending order, all within [1, count]. |
| StartSelection.ChoicesDistinct | game.py:276-280 | Two entries of a choice list have equal texts exactly when they stand for the same cell. |
| StartSelection.Initial | game.py:254-310 | When the screen opens for 2, 3 or 4 players, a player's x and y flags are set exactly when that player's index is not below the player count. So players beyond the count already count as picked. |
| StartSelection.Pick | game.py:375-405 | A new selection sets that list's flag and stores its text. Every other list keeps its flag and text. |
| StartSelection.Replay | game.py:374-407 | Replaying a history of selections keeps four slots and the player count. `ReplayPicked` and `ReplayText` give the flags and texts it leaves. |
| StartSelection.ReplaySnoc | game.py:374-407 | Replaying a history followed by one more selection is the same as picking that selection on the replayed screen. |
| StartSelection.ReplayText | game.py:376-404 | Every pick overwrites its list's text. After a history, each list holds the text of its last pick, or what it held before if it was never picked. |
| StartSelection.ReplayPicked | game.py:374-405 | After a history, a flag is set exactly when it was set before or its list was picked at some point. Flags are never cleared. |
| StartSelection.ReadyExactlyWhenRequiredPicked | game.py:304-326 | For 2, 3 or 4 players, Start gets past its flag test exactly when every player taking part has picked both an x and a y. |
| StartSelection.PressStartMeaning | game.py:325-371 | For 2, 3 or 4 players, Start does nothing until all flags are set. Then it reaches "Game Start!" exactly when the chosen coordinates of the n players are pairwise distinct. The cascade compares all 1, 3 or 6 pairs. Any shared coordinate gives the "cannot match" message instead. This lemma is the contract of `PressStart`, the cascade as written. |
| StartSelection.StartAfterHistory | game.py:304-371 | For 2, 3 or 4 players, after any history of selections, Start does nothing until every player taking part has picked both axes. It then reaches "Game Start!" exactly when those players' last picks are pairwise distinct, and otherwise shows "cannot match". |
| StartSelection.StartOnDistinctCells | game.py:328-371 | When every picked text comes from the choice lists, the game starts exactly when the players' cells, as numbers, are pairwise distinct. |
| StartSelection.ClickAsWritten | game.py:320-326 | As the screen tests it, a mouse press does something only inside the fixed rectangle x 250–340, y 550–590, and only once every flag is set. Inside that rectangle it is a press on Start. |
| StartSelection.Click | game.py:263-273 | The corrected click test from "## Findings". A mouse press does something only on the pixels the Start button is drawn on, and only once every flag is set. On the button it is a press on Start. |
| StartSelection.ClickAsWrittenIgnored | game.py:323 | With the click test as written, no press inside the window reaches the start check when there are 2 or 3 players. |
| StartSelection.ClickStarts | game.py:263-273 | With the click test on the drawn button, a press on any pixel of the button lies inside the window. For 2, 3 and 4 players it starts the game once the picks are complete and distinct. |
| StartButton.HitAsWrittenOutsideWindow | game.py:323 | With 2 or 3 players, the fixed click rectangle lies outside the window. Together with `HitAsWrittenFitsFourPlayers`, this lemma is the contract of `HitAsWritten`, the click test as written. |
| StartButton.HitAsWrittenFitsFourPlayers | game.py:323 | With 4 players, the fixed click rectangle (edges included) is the drawn button plus one pixel column to its right and one pixel row below it. |
| StartButton.StartButtonInsideWindow | game.py:263-273 | For 2, 3 or 4 players, every pixel of the drawn Start button (x 250–339, y 150 + 100·n to 189 + 100·n) lies inside the window. |

## Findings

| source | as written | input that shows it | evidently intended | confidence | as-written member | corrected member |
|---|---|---|---|---|---|---|
| game.py:323 | A press on Start is recognised only at x 250–340, y 550–590. The button itself is drawn at y = 150 + 100·n (line 273), in a window 200 + 100·n pixels tall (line 263). | With 2 players the window is 400 pixels tall, so no press can reach y ≥ 550, and the game can never start. The same holds for 3 players (window 500 pixels tall). | Test the press against the button as drawn: x 250–339, y 150 + 100·n to 189 + 100·n. When n = 4 the fixed rectangle covers this, plus a one-pixel border on the right and bottom. | high; not executed | StartSelection.ClickAsWrittenIgnored | StartSelection.ClickStarts |

## Left out

- Drawing and the event loops are not modelled: pygame and pygame_gui windows, fonts, buttons, UI managers and display updates. The menu, about and selection windows belong here, as does navigation between them.
- The routing of a selection event to one of the eight lists by mouse position (game.py:375-405) is not modelled. A `Pick` names its list directly. Only the Start button's click test is modelled, because it is the subject of the finding.
- Audio playback (`play_audio_file`) and the text-to-speech scripts that create the audio files are left out. They do audio and file I/O only.
- The simulation is not modelled: group merging, leader movement, the termination test and run statistics. `game.py` never launches a game (every start point is marked to be completed), so no source exists to model.
- Writes to `player_id` from outside the class are not modelled. It is an ordinary attribute in Python, but no method writes it, so the model declares it a constant field.
- Unbound picked texts are not modelled. In the source, a text is unbound until its list is picked; the model gives it an empty default. `PressStartMeaning` shows the outcome depends only on the slots of the players taking part, and only once all of them are picked.
