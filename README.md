# Tic-tac-toe game state, modelled in Dafny

This project models the logic of a React tic-tac-toe game (`tictactoe.js`):

- **The winner rule** (`calculateWinner`): a fixed table of eight index triples (three rows, three
  columns, two diagonals) scanned in order; the mark of the first triple whose three squares hold
  the same mark is the winner, otherwise there is none. Module `Squares` (`squares.dfy`) gives the
  board (`Cell = Empty | X | O`, nine squares), the table `Lines`, the specification function
  `Winner` and the method `CalculateWinner`, a `for` loop with an early return proved equal to it.
- **The `Game` component**: a class with the three fields the component keeps in its state:
  `history` (a list of boards), `stepNumber` (the cursor) and `xIsNext` (the turn flag).
  `HandleClick(i)` and `JumpTo(step)` replace the fields the source's `setState` calls name,
  as one atomic update. Module `TicTacToe` (`game.dfy`).
  `Valid()` is the object invariant. It requires the cursor to be inside the history and the turn
  flag to equal the cursor's parity. It also requires a well-formed history: board 0 is empty, and
  each board k+1 is board k with one empty square given the mark of move k (X on even moves), where
  board k had no winner. From this the lemmas derive:
  - board k holds exactly k marks ((k+1)/2 crosses, k/2 noughts);
  - a history never has more than ten entries;
  - nobody wins before move five;
  - a board with a winner is the last of the history, and its winner is the player who moved last.
- **What `render` derives**: the move-list labels ("Go to game start", "Go to move #n") and the
  status line ("Winner: m" or "Next player: X/O"; there is no draw text). Module `Labels`
  (`labels.dfy`) has these as functions, with the JavaScript rendering of a number written out as
  `DecimalString`.

`setState` is modelled as a synchronous wholesale replacement of the fields it names. The
square-index argument of `HandleClick` has type `Index` (0..8) and `JumpTo` requires
`step < |history|`. The source validates neither; its callers pass only such values (the nine
buttons and the move list). The source checks `squares[i]` and the result of `calculateWinner`
by JavaScript truthiness; `null` is modelled as `Empty` and "no winner" as `None`.

Two points where the model follows the code as written:
- `jumpTo` performs no range check and has no rejection result; the model states the range as a
  precondition rather than inventing a rejection.
- The turn flag is a stored field kept equal to the cursor's parity (an invariant the model proves),
  not a function of the cursor.

## Model

| member | source | states |
|---|---|---|
| Squares.WinnerFrom | tictactoe.js:146-152 | scanning the table from line k yields no winner exactly when no line from k on is filled with one mark, and otherwise the mark of the first such line |
| Squares.Winner | tictactoe.js:134-153 | the result is None exactly when none of the eight triples is uniformly filled; a result is always X or O, and it is the mark of the earliest filled triple in table order |
| Squares.CalculateWinner | tictactoe.js:146-152 | the loop with early return computes exactly the winner rule |
| Squares.CountUpdate | tictactoe.js:116 | assigning one square moves one unit of count from the old value to the new one |
| Squares.NoWinnerBelowThree | tictactoe.js:146-149 | a filled line needs three of one mark, so a board with at most two of each has no winner |
| Squares.NewLinesBelongToMover | tictactoe.js:114-116 | a move on a board without a winner can only complete lines of the mark just placed |
| Labels.DecimalString | tictactoe.js:78 | the rendering of a move number is non-empty, uses only digits, has no leading zero and reads back as that number |
| Labels.MoveLabel | tictactoe.js:77-79 | entry 0 is labelled "Go to game start"; entry n > 0 is "Go to move #" followed by a non-empty run of decimal digits, without a leading zero, that reads back as n (which fixes it as n's decimal form) |
| Labels.MoveLabelInjective | tictactoe.js:76-82 | two history entries never share a label |
| Labels.MoveList | tictactoe.js:76-85 | one label per history entry, entry k labelled by its index |
| Labels.MoveListDistinct | tictactoe.js:76-85 | the list starts with the game-start label and its labels are pairwise distinct |
| Labels.StatusLine | tictactoe.js:88-92 | with a winner the text is "Winner: " followed by the winner's symbol; without one it is "Next player: " followed by X when X is next, else O |
| Labels.StatusLineDistinguishes | tictactoe.js:87-92 | the status text determines the winner, and whose turn it is when there is no winner |
| TicTacToe.MarkCounts | tictactoe.js:111-122 | history board k holds (k+1)/2 crosses, k/2 noughts and 9-k empty squares |
| TicTacToe.HistoryBound | tictactoe.js:111-122 | a history built by the game has at most ten entries |
| TicTacToe.NoEarlyWinner | tictactoe.js:114-116 | the first five boards of a history have no winner |
| TicTacToe.WinnerIsLastMover | tictactoe.js:114-122 | a board with a winner is the last history entry, not board 0, and every filled line on it carries the mark of the last move |
| TicTacToe.Game.Current | tictactoe.js:73 | the shown board is the history entry at the cursor; when it has a winner it is the last entry and the winner is the player not to move |
| TicTacToe.Game.constructor | tictactoe.js:51-61 | the game starts with one empty board, cursor 0 and X to move, and satisfies the invariant |
| TicTacToe.Game.JumpTo | tictactoe.js:64-69 | the history is untouched, the cursor becomes step and the turn flag its parity; the invariant is kept, and step 0 shows the empty board with X to move |
| TicTacToe.Game.HandleClick | tictactoe.js:110-124 | with the square taken or a winner on the shown board nothing changes; otherwise the history is cut after the cursor and the shown board with square i set to the mover's mark is appended, the cursor advances by one and the turn flag flips; the invariant is kept |
| TicTacToe.Game.Status | tictactoe.js:72-92 | the status names as winner the player who is not to move, and otherwise the player to move |
| TicTacToe.Game.Moves | tictactoe.js:76-85 | the move list has one label per history entry (at most ten): "Go to game start" first, then "Go to move #k" for entry k, with no repeated label |
| TicTacToe.FullBoardShowsNextPlayer | tictactoe.js:87-92 | a full board without a winner still shows "Next player: O": there is no draw status |
| TicTacToe.TopRowGame | tictactoe.js:110-124 | X on 0, 1, 2 against O on 3, 4 shows "Winner: X", and a further click leaves the six-entry history as it is |

## Left out

- The `Square` and `Board` components and the JSX markup of `Game.render` (tictactoe.js:1-47, 94-107): presentation only; they forward the square index to `handleClick`.
- `ReactDOM.render` and mounting into the page (tictactoe.js:129-132): I/O.
- React's batching and asynchronous re-rendering after `setState`: each transition is one atomic update of the fields it names.
- History entries are objects `{ squares }` in the source; the model stores the boards themselves.
- Range checks the source does not make: a square index outside 0..8 and a step outside the history are excluded by the types and preconditions, not rejected.
- Draw detection: the source has none, and neither does the model (see `FullBoardShowsNextPlayer`).
