# Chess Openings Dashboard — move cursor model

A Dafny model of the move-navigation logic of `dashboard.py`, the
Streamlit dashboard for browsing chess openings. The dashboard has two
boards that work the same way. Each is a **move cursor**: a list of moves
in standard algebraic notation, the number of moves played so far, and
the board that shows them.

- **Opening viewer.** Its state is `current_opening_moves`,
  `current_move_index` and `board`. The cursor is reset from the opening's
  move string when a different opening is selected. "Next Move" plays the
  next move. "Previous Move" steps back by rebuilding the board from a
  fresh one.
- **Interactive board.** Its state is `interactive_moves_history`,
  `interactive_current_move_index` and `interactive_board`. "Make Move"
  appends a move. If the cursor was behind the end, the later moves are
  cut off first. The Previous/Next buttons rebuild the board through
  `replay_interactive_board_to_index`.

The chess library (python-chess) is not modelled. It is a parameter
`Engine<P>(initial, apply)`:
- `P` is an opaque position type.
- `initial` is a fresh `chess.Board()`.
- `apply(p, san)` is `push_san`. It returns `None` where the library
  raises an invalid, illegal or ambiguous move error.

Every result holds for every engine.

Files and modules:
- `engine.dfy` (`Engine`): the engine interface and two folds over a move
  list. `Run` is strict: it fails if any move fails. `Replay` is lenient:
  it stops at the first rejected move, like the source's
  `try … except: break` loops. `Reached` gives the point where `Replay`
  stops.
- `moves.dfy` (`Moves`): Python's `str.split(' ')` and `' '.join`, and
  the tokenisation of a dataset move string.
- `move_cursor.dfy` (`MoveCursor`): the cursor record, the board-rebuild
  function `ReplayTo` and the consistency invariant. The invariant says
  the board is the result of playing the first `index` moves, all of them
  accepted.
- `opening_viewer.dfy` (`OpeningViewer`): opening selection and the
  Previous/Next buttons of the opening viewer.
- `interactive_board.dfy` (`InteractiveBoard`): the replay helper as a
  loop, "Make Move", and the interactive Previous/Next buttons.
- `dashboard.dfy` (`Dashboard`): a session holding both boards. Each user
  action is one atomic transition. A lemma shows that every reachable
  session satisfies both invariants.

Two behaviours of the code are modelled as written:
- A rejected "Make Move" still drops the moves after the cursor. The code
  truncates the history before it validates the move, so only the board
  and the index survive a rejection unchanged.
- Move strings are split on single space characters only, not on any
  whitespace.

## Model

| member | source | states |
|---|---|---|
| Moves.Split | dashboard.py:99 | `moves_str.split(' ')` has at least one piece. No piece contains the separator. Joining the pieces with the separator gives back the input. |
| Moves.SplitJoin | dashboard.py:99 | Splitting a join of separator-free pieces gives the same pieces back. |
| Moves.Tokenize | dashboard.py:98-101 | Every move in the list is non-empty and has no space. An empty move string gives the empty list. |
| Moves.TokenizeJoin | dashboard.py:98-101 | Round trip: tokenising the space-joined list of well-formed tokens gives the tokens back. |
| Moves.SplitAtSeparator | dashboard.py:99 | Splitting `a + ' ' + b` on the space gives the pieces of `a` followed by the pieces of `b`. |
| Moves.TokenizeAtSpace | dashboard.py:98-101 | A space cuts the move string in two: the moves of `a + ' ' + b` are the moves of `a` followed by the moves of `b`. This fixes how runs of spaces and leading or trailing spaces are handled. |
| Moves.TokenizeSingle | dashboard.py:98-101 | A non-empty string with no space is a single move. With `TokenizeAtSpace` this determines the move list of every string. |
| Moves.TokensCoverInput | dashboard.py:98-101 | Tokenising drops only spaces. The tokens glued together equal the move string with its spaces removed, in the same order. |
| Engine.Reached | dashboard.py:114-120 | The replay loop stops at a point `n`. The first `n` moves are all accepted and reach the replayed board. Move `n`, if there is one, is rejected on that board. |
| Engine.ReplayStopsAt | dashboard.py:114-120 | The converse of `Reached`. Suppose an accepted prefix reaches a board `b`, and the next move is rejected there or there is no next move. Then the replay ends in `b`. |
| Engine.ReplayOfAccepted | dashboard.py:151-166 | When every move is accepted, the lenient replay ends where the strict run ends. |
| MoveCursor.ReplayToAccepted | dashboard.py:146-166 | If the first `k` moves are all accepted, the board rebuilt for index `k` is the position those moves lead to. |
| MoveCursor.StartConsistent | dashboard.py:96-101 | A cursor reset to index 0 on a fresh board is consistent, whatever its move list. |
| MoveCursor.StepForward | dashboard.py:125-127 | From a consistent cursor, playing move `index` on the board gives the same result as running the first `index + 1` moves from a fresh board. |
| OpeningViewer.Select | dashboard.py:83-101 | A new name other than the "---" placeholder records the name. It sets the moves to the tokenised move string, the index to 0 and the board to a fresh one. The same name, or the placeholder, changes nothing. |
| OpeningViewer.SelectIdempotent | dashboard.py:94-101 | Re-rendering with the same opening selected never resets the navigation, whatever move string comes with it. |
| OpeningViewer.SelectKeepsConsistent | dashboard.py:94-101 | Selection keeps the viewer's board in step with its index. |
| OpeningViewer.Next | dashboard.py:123-131 | "Next Move" never changes the moves. The index rises by exactly 1 iff the index is before the end and the engine accepts `moves[index]`. The new board is then the engine's result. Otherwise the state is unchanged. |
| OpeningViewer.NextKeepsConsistent | dashboard.py:123-131 | "Next Move" keeps the board equal to the result of the first `index` moves. |
| OpeningViewer.Previous | dashboard.py:110-120 | "Previous Move" never changes the moves. At index 0 it changes nothing. Otherwise the index goes down by exactly 1 and the board is rebuilt from a fresh one by replaying the moves before the new index, stopping at the first rejected move (`ReplayTo`). |
| OpeningViewer.PreviousKeepsConsistent | dashboard.py:110-120 | The board rebuilt by "Previous Move" is the result of the moves before the new index. |
| OpeningViewer.NextThenPrevious | dashboard.py:110-127 | From a consistent cursor (board equal to the result of the first `index` moves), if "Next Move" plays a move, a following "Previous Move" restores the cursor exactly, board included. |
| OpeningViewer.PreviousThenNext | dashboard.py:110-127 | From a consistent cursor with index above 0, "Previous Move" then "Next Move" restores the cursor exactly, board included. |
| OpeningViewer.ForwardOverAccepted | dashboard.py:123-127 | Start from a consistent cursor and press "Next Move" `n` times over accepted moves. The index rises by exactly `n` and the board shows the position those moves reach. |
| OpeningViewer.PlayThrough | dashboard.py:94-131 | Select a new opening whose moves are all legal and press "Next Move" once per move. The cursor reaches the end on the final position, and a further press changes nothing. |
| InteractiveBoard.ReplayBoardToIndex | dashboard.py:146-166 | The replay helper's loop returns a fresh board for an empty history or an index of 0 or less. Otherwise it returns the history up to `min(k, len)`, replayed until the first rejected move. It never reads past the end. When those moves are all accepted, the result is exactly their position. |
| InteractiveBoard.MakeMove | dashboard.py:173-198 | An empty input does nothing. An accepted move gives the history before the cursor plus the move, with the index at the new end and the board the engine's result. A rejected move leaves the board and index alone, but the history stays cut back to the moves before the cursor. The index stays in range. |
| InteractiveBoard.RejectedMoveDropsTail | dashboard.py:180-196 | When the cursor is behind the end, a rejected move still shortens the history to the moves before the cursor. |
| InteractiveBoard.RejectedMoveAtEnd | dashboard.py:180-196 | At the end of the history, a rejected move changes nothing. |
| InteractiveBoard.Previous | dashboard.py:203-207 | The button is disabled at index 0. Otherwise the index goes down by 1 and the board is what the replay helper rebuilds for the new index (`ReplayTo`). The moves never change, and the index stays in range. |
| InteractiveBoard.Next | dashboard.py:209-213 | The button is disabled at or past the end. Otherwise the index goes up by 1 and the board is what the replay helper rebuilds for the new index (`ReplayTo`). The moves never change, and the index stays in range. |
| InteractiveBoard.InitValid | dashboard.py:27-32 | The empty history at index 0 on a fresh board is valid. |
| InteractiveBoard.ValidBoardIsReplay | dashboard.py:146-166 | In a valid state the board on screen equals what the replay helper rebuilds for the current index. |
| InteractiveBoard.MakeMoveKeepsValid | dashboard.py:180-189 | "Make Move" keeps three facts, whether the move is accepted or rejected: the index is in range, the whole history is legal in sequence, and the board is in step with the index. |
| InteractiveBoard.PreviousKeepsValid | dashboard.py:203-207 | "Previous Interactive Move" keeps the state valid. |
| InteractiveBoard.NextKeepsValid | dashboard.py:209-213 | "Next Interactive Move" keeps the state valid. |
| InteractiveBoard.NextThenPrevious | dashboard.py:203-213 | From a valid state, Next then Previous restores the state exactly. |
| InteractiveBoard.PreviousThenNext | dashboard.py:203-213 | From a valid state, Previous then Next restores the state exactly. |
| InteractiveBoard.MakeMoveThenPrevious | dashboard.py:180-207 | After an accepted move, Previous returns to the board and index the move was made from. The new move is the only continuation kept. |
| Dashboard.Step | dashboard.py:94-213 | Each user action changes only the board it belongs to. |
| Dashboard.StepKeepsSound | dashboard.py:94-213 | Every action keeps both boards consistent and the interactive history legal. |
| Dashboard.StepsKeepSound | dashboard.py:94-213 | Any sequence of actions keeps both boards consistent and the interactive history legal. |
| Dashboard.ReachableSound | dashboard.py:17-213 | In every session reachable from a new one, both indices stay within their move lists and both boards show exactly the moves their cursors have played. |

## Left out

- Chess rules, SAN parsing and board rendering (`push_san`, `chess.svg.board`): these belong to the python-chess library. They appear only through the `Engine` parameter.
- Streamlit wiring: the session-state initialisation (lines 17-32, except the initial values used by `Init`), columns, messages and images. Each button press or render is one atomic transition. The `disabled=` guards are the `if` conditions of the transitions.
- The `if current_opening_moves:` gate at line 104: it hides the opening buttons when the move list is empty. It is not modelled separately, because with no moves both buttons are disabled anyway.
- The visibility of the opening viewer's buttons (lines 78-85 and 104): the dashboard shows "Previous Move" and "Next Move" only while a real opening is selected from a non-empty table. `Dashboard.Step` allows both actions in any session. They act on whatever cursor the viewer holds, and the proved invariants hold either way.
- Finding the selected row of the dataset (lines 83-91): `Select` receives the chosen name and that row's move string. A missing Moves cell, which pandas reads as NaN, is not modelled.
- The input-field reset at line 191: it is a widget-state side effect. It runs after the history, index and board have been updated, so it does not affect the modelled state.
- CSV loading and the missing-file fallback (lines 36-44): file I/O.
- The ECO and name filters (lines 63-72). They are pandas calls. The name filter treats the query as a regular expression, not as a plain substring.
- Sidebar statistics and charts (lines 229-237): display only.
- PGN import and export: `dashboard.py` has no such code.
- The error and warning messages of the `except` branches: they have no effect on the state.
