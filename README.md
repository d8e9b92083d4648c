# Rock-Paper-Scissors session model

A Dafny model of the game logic of a single-page Rock-Paper-Scissors web
game (`example.py`). The player picks rock, paper or scissors, the computer
picks one of the three, the game is resolved from the player's point of
view, the session's win/loss/tie counters and its game history are updated,
and the page shows the statistics, a win rate once a game has been played,
and the last ten games most-recent-first. A reset button clears the session.

The model has three modules, one per part of the logic:

- `Rules` (`rules.dfy`): the closed `Move` and `Outcome` datatypes standing
  for the source's strings `"rock"`/`"paper"`/`"scissors"` and
  `"win"`/`"loss"`/`"tie"`; the beats-table; `DetermineWinner`, proved equal
  to an independent cyclic (mod 3) characterisation of the game; the emoji
  lookup with its empty-string default; the computer's pick from the fixed
  list, given the position the random generator drew.
- `History` (`history.dfy`): the game record, the count of records with a
  given result, and the history view (Python's `game_history[-10:]`, then
  `reversed(...)`), both as a specification function `RecentFirst` and as
  the method `HistoryView` that builds it with the source's two loops.
- `Session` (`session.dfy`): the session state as the class `GameSession`
  with fields `wins`, `losses`, `ties` and `history`, updated in place by
  `Play` and `Reset`; the invariant `Valid()` says every record holds the
  resolved outcome of its moves and each counter is the number of records
  with that result, so `wins + losses + ties == |history|`; the win-rate
  guard as an exact ratio.

The computer's move and the timestamp are parameters of `Play`: the random
generator and the clock are outside the model. A page run in which no button
was pressed corresponds to not calling `Play`.

`Play` takes the computer's move as a parameter and returns nothing, and,
like the play block at example.py:78-97, it has no invalid-move path: the
page's buttons only ever produce the three move labels.

## Model

| member | source | states |
|---|---|---|
| `Rules.Label` | example.py:25 | the move strings the source compares: every label is one of "rock", "paper", "scissors" (with `LabelInjective`, string equality is move equality) |
| `Rules.WinningCombination` | example.py:28-32 | the `winning_combinations` dict: each move maps to the move just before it in the cycle rock, paper, scissors |
| `Rules.DetermineWinner` | example.py:23-37 | the result is a tie exactly when the two moves are equal, and it always equals the cyclic characterisation (each move beats the one before it in rock, paper, scissors, mod 3) |
| `Rules.WinExactlyOnBeatsTable` | example.py:28-37 | the player wins exactly for rock vs scissors, paper vs rock and scissors vs paper |
| `Rules.BeatsIsACycle` | example.py:28-32 | in the beats-table no move beats itself, each move beats exactly one move and is beaten by exactly one other move |
| `Rules.Antisymmetric` | example.py:25-37 | for distinct moves swapping the players turns a win into a loss and a loss into a win; a tie stays a tie |
| `Rules.Scenarios` | example.py:23-37 | rock vs scissors is a win, rock vs paper a loss, paper vs paper a tie |
| `Rules.LabelInjective` | example.py:41 | the three move labels are pairwise different |
| `Rules.Emoji` | example.py:43-50 | the result is empty exactly when the key is not one of the three move labels |
| `Rules.EmojiOfLabel` | example.py:43-50 | every move's label has a non-empty emoji, and different moves have different emoji |
| `Rules.ComputerChoice` | example.py:39-41 | the pick at position k of the list rock, paper, scissors is the move with index k |
| `Rules.ComputerChoiceCovers` | example.py:41 | every move is picked by exactly one position of the list |
| `History.Record` | example.py:91-96 | the record carries the given time and moves, and its result is the resolved outcome `DetermineWinner(player, computer)` (so a tie exactly when the moves are equal) |
| `History.CountResult` | example.py:83-88 | the number of records with a result is at most the history length, and equals it exactly when every record has that result |
| `History.CountAppend` | example.py:83-97 | appending a record raises the count of its own result by one and leaves the other counts unchanged |
| `History.CountsSum` | example.py:83-88 | the win, loss and tie counts of any history add up to its length |
| `History.Reversed` | example.py:167 | reversal keeps the length |
| `History.ReversedAt` | example.py:167 | element k of the reversal is element len-1-k of the original |
| `History.LastN` | example.py:158 | the slice has min(n, len) elements and is a suffix of the history |
| `History.RecentFirst` | example.py:158-167 | defines the view as the reversal of the last ten records; its contract gives the length min(10, len) |
| `History.RecentFirstAt` | example.py:157-167 | row i of the view is history[len-1-i] |
| `History.RecentFirstShape` | example.py:157-167 | the view has min(10, len) rows and every row i is history[len-1-i] |
| `History.RecentFirstAfterAppend` | example.py:97-167 | after a game is appended its record is the first row, and the other rows are the previous view's rows in order, the oldest dropped once ten are shown |
| `History.HistoryView` | example.py:157-167 | the rows built by the append loop over the last ten records and the reversed walk are exactly the specified view, so by `RecentFirstShape` min(10, len) rows with row i being history[len-1-i] |
| `Session.Consistent` | example.py:83-97 | defines the session invariant (no contract of its own): every record holds the resolved outcome of its moves, and wins, losses and ties are the numbers of records with each result |
| `Session.GameSession.Valid` | example.py:13-20 | defines the object invariant (no contract of its own): the session's fields satisfy `Consistent`; the constructor, `Play` and `Reset` establish or keep it |
| `Session.ConsistentTotal` | example.py:136 | in a consistent state wins + losses + ties equals the history length, so each counter is at most the number of games |
| `Session.ConsistentAfterGame` | example.py:83-97 | bumping the counter of a correctly resolved game and appending its record keeps the state consistent |
| `Session.WinRate` | example.py:136-139 | no win rate exactly when no games were counted; otherwise the percentage is 100 * wins / total and is at most 100 |
| `Session.WinRateShownAfterAGame` | example.py:136-139 | in a consistent state the win rate is shown exactly when the history is non-empty, over the history length |
| `Session.GameSession.constructor` | example.py:13-20 | a new session has all counters zero, an empty history, and satisfies the invariant |
| `Session.GameSession.TotalGames` | example.py:136 | the total of the three counters equals the number of games in the history |
| `Session.GameSession.Play` | example.py:78-97 | exactly the counter of the resolved outcome goes up by one, the other two are unchanged, one record with the given time, moves and resolved outcome is appended after the unchanged earlier records, and the invariant is preserved |
| `Session.GameSession.Reset` | example.py:144-148 | whatever the state before, all counters are zero, the history is empty and the invariant holds |

## Left out

- Page layout and rendering (page configuration, columns, buttons, metrics, markdown and HTML, success/error/info banners, `st.rerun`): presentation through a UI library that is not part of this model.
- The random generator behind `random.choice` (example.py:41): the position it draws is a parameter of `ComputerChoice`, and the computer's move is a parameter of `Play`; no claim about uniformity is made.
- The clock (`datetime.now().strftime`, example.py:92): the timestamp is an opaque string parameter of `Play`.
- WinRate: gives the exact ratio 100 * wins / total instead of the floating-point value and its one-decimal formatting (example.py:138-139).
- HistoryView: its rows are the game records themselves; the `.title()` casing and the emoji-and-label strings the display builds for each row (example.py:160-163), and the `"Win"`/`"Loss"` comparison that picks a banner (example.py:176-181), are not modelled.
- The guards `if 'wins' not in st.session_state` (example.py:13-20) are modelled only for their first run, as the constructor; on later page runs they change nothing, which in the model is not constructing a new session.
- The `if st.session_state.game_history:` guard (example.py:152) is not modelled separately: the view of an empty history is empty.
- Invalid moves: the source has no such path (its buttons emit only the three labels, and another key would fail the beats-table lookup), so `Move` is closed and no error case is modelled.
