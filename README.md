# brew buddy: the menu-selection state machine

brew buddy is a terminal menu of teas. Its only logic is in `App`
(`src/main.rs`). The app holds two fields, `exit` and `selected`. Each turn of
its main loop draws a frame highlighting one of five fixed menu entries. It
then polls the terminal for up to 100 ms and reacts to at most one key:

- `q` sets `exit`;
- Up moves the selection one row up, never below row 0;
- Down moves it one row down with no upper bound;
- every other key (Enter included, although the footer says "enter to brew")
  does nothing.

The loop breaks once `exit` is set. `selected` can therefore grow past the
last entry. It is brought back into range only when the list is drawn: the
highlighted row is `min(selected, 4)`.

The project has two modules:

- `Menu` (`menu.dfy`) holds the state as a value (`AppState`). It defines
  the effect of one poll (`Step`, built from `HandleKey`, `SelectPrevious` and
  `SelectNext`), the highlighted row (`HighlightIndex`), and the main loop as
  a function of a finite sequence of polls (`Run`). Lemmas about runs sit
  beside them.
- `BrewBuddy` (`app.dfy`) holds `App` as a class whose fields the methods
  update in place. `SelectPrevious`, `SelectNext`, `HandleEvents`, `Draw` and
  the loop `Run` are each proved against the matching functions of `Menu`.

The terminal is abstracted. Each loop iteration receives one `Polled` value:
`Timeout` (nothing arrived within the poll window), `Ready(event)` (a key
event or another kind of event), or `ReadError` (poll or read failed). The
real loop runs until `q`. The model is fed a finite prefix of polls, and
`Ending.Running` says the loop had not stopped by the end of that prefix.

Three facts about the code shape the model:

- `selected` is clamped only when the list is drawn (src/main.rs:81). Up and
  Down never clamp it, so it can exceed the last menu index.
- Enter is ignored (src/main.rs:104), even though the footer says "enter to
  brew" (src/main.rs:92). There is no timed action of any kind.
- An I/O error from poll or read leaves `run` through `?` (src/main.rs:38)
  before `disable_raw_mode` (src/main.rs:46). So only the `Exited` ending
  restores the terminal.

## Model

| member | source | states |
|---|---|---|
| Menu.HighlightIndex | src/main.rs:72-81 | the highlighted row is always a valid index of the five-entry menu, and it is exactly `min(selected, 4)`: it equals `selected` when that is in range and the last row otherwise |
| Menu.SelectPrevious | src/main.rs:112-116 | at row 0 the selection stays at 0; otherwise it drops by exactly one; `exit` is untouched |
| Menu.SelectNext | src/main.rs:118-120 | the selection grows by exactly one with no upper clamp; `exit` is untouched |
| Menu.HandleKey | src/main.rs:100-105 | `exit` is set after the key iff it was set before or the key is `q`; Up is `select_previous`, Down is `select_next`; no other key changes `selected` |
| Menu.Step | src/main.rs:97-109 | a timeout, a non-key event or an I/O error leaves the state unchanged; a key event is dispatched by the key match; `exit` is set afterwards iff it was set before or the poll was `q`, so no key clears it |
| Menu.Run | src/main.rs:27-49 | the loop draws exactly one frame per iteration and every highlighted row is in range; it ends with `exit` set iff it broke on a `q`; an ending other than still-running happens in the iteration of the first `q` or I/O error, and no earlier poll was one; a still-running loop consumed every poll, and none of them was `q` or an error |
| Menu.DownsAccumulate | src/main.rs:118-120 | n Downs raise `selected` by exactly n with no upper bound and leave `exit` clear; frame i highlights `min(selected + i, 4)` |
| Menu.UpsSaturate | src/main.rs:112-116 | n Ups lower `selected` by n, stopping at 0, and leave `exit` clear |
| Menu.IgnoredInputChangesNothing | src/main.rs:98-105 | timeouts, non-key events and keys other than `q`, Up and Down (Enter included) change neither field, and every frame highlights the same row |
| Menu.QuitEndsLoop | src/main.rs:38-43 | when the first poll that stops the loop is a `q` at position k, the loop ends in iteration k+1 with `exit` set |
| Menu.NoQuitNoExit | src/main.rs:101 | without a `q` among the polls, `exit` is never set |
| Menu.DownDownQuit | src/main.rs:33-44 | from the default state, Down, Down, `q` draws rows 0, 1, 2 and exits with `selected == 2` after three iterations |
| Menu.OvershootHidesUp | src/main.rs:81 | seven Downs from the start leave `selected == 7`, past the last row; the highlight shows row 4, and one Up after that still shows row 4 |
| BrewBuddy.App.constructor | src/main.rs:19-23 | `App::default()` starts with `exit == false` and `selected == 0` |
| BrewBuddy.App.SelectPrevious | src/main.rs:112-116 | updates the field in place: decrements `selected` only when it is above 0, keeps `exit` |
| BrewBuddy.App.SelectNext | src/main.rs:118-120 | updates the field in place: increments `selected` by one, keeps `exit` |
| BrewBuddy.App.HandleEvents | src/main.rs:97-109 | returns an error exactly when poll or read failed; the new fields are `Step` of the old ones; `exit` once set stays set |
| BrewBuddy.App.Draw | src/main.rs:80-81 | changes nothing and returns the highlighted row `min(selected, 4)`, which is in range |
| BrewBuddy.App.Run | src/main.rs:27-49 | the loop's iterations, frames, ending and final fields are exactly those of `Menu.Run` on the old fields; it returns with `exit` set iff it broke on `q` |

## Left out

- Raw mode and the alternate screen, entered and left through crossterm
  (src/main.rs:29-31, 46-47): terminal I/O through a library outside the
  model. Errors from those calls, from `terminal.draw` and from
  `Terminal::new` in `main` are left out as well. Only poll and read errors
  are modelled (`ReadError`).
- `event::poll` with its 100 ms timeout and `event::read` (src/main.rs:98-99)
  are blocking I/O. They are replaced by one `Polled` value per iteration.
  The unbounded loop is modelled over a finite prefix of polls.
- The key event's kind (press, repeat or release) and its modifiers are not
  inspected by the code. The model's `KeyCode` therefore keeps only the code.
  Character keys keep their character (`Char(c)`); Up, Down and Enter have
  their own values; every other key code is `OtherKey`.
- The ratatui layout, the title, the list widget and its styling, and the
  footer (src/main.rs:53-94): rendering through a library outside the model.
  Of `draw`, only the highlighted-row computation is kept. `Teas` keeps the
  five labels only for their count.
- Menu.SelectNext: `selected` is a `nat`, so the `usize` overflow of
  `selected += 1` is not modelled. It takes 2^N Down presses for an N-bit
  `usize`. The model therefore does not capture that Rust panics on that
  overflow in debug builds and wraps to 0 in release builds.
