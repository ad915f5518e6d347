/** The Game component: move history, the step cursor, the turn flag, and its two transitions. */
module TicTacToe {
  import opened Squares
  import opened Labels

  /** after is b with one empty square given the mark of move k, and b had no winner. */
  ghost predicate Follows(b: Board, after: Board, k: nat)
  {
    Winner(b).None? && exists i :: 0 <= i < 9 && b[i] == Empty && after == b[i := Mover(k)]
  }

  /** What every history built by the game looks like: it starts from the empty board and each entry is one accepted move after the previous one. */
  ghost predicate WellFormedHistory(h: seq<Board>)
  {
    |h| >= 1 && h[0] == EmptyBoard &&
    forall k :: 0 <= k < |h| - 1 ==> Follows(h[k], h[k + 1], k)
  }

  /** Board k of the history holds exactly k marks: (k+1)/2 crosses and k/2 noughts. */
  lemma {:induction false} MarkCounts(h: seq<Board>, k: nat)
    requires WellFormedHistory(h) && k < |h|
    ensures Count(h[k], X) == (k + 1) / 2 && Count(h[k], O) == k / 2
    ensures Count(h[k], Empty) == 9 - k
  {
    if k == 0 {
      CountAllEmpty(EmptyBoard);
    } else {
      MarkCounts(h, k - 1);
      assert Follows(h[k - 1], h[k], k - 1);
      var i :| 0 <= i < 9 && h[k - 1][i] == Empty && h[k] == h[k - 1][i := Mover(k - 1)];
      CountUpdate(h[k - 1], i, Mover(k - 1), X);
      CountUpdate(h[k - 1], i, Mover(k - 1), O);
      CountUpdate(h[k - 1], i, Mover(k - 1), Empty);
    }
  }

  /** A game never has more than ten history entries (the empty board and nine moves). */
  lemma HistoryBound(h: seq<Board>)
    requires WellFormedHistory(h)
    ensures |h| <= 10
  {
    MarkCounts(h, |h| - 1);
  }

  /**
   * A board with a winner is the last entry of the history, and every line
   * filled on it carries the mark of the move that produced it.
   */
  lemma WinnerIsLastMover(h: seq<Board>, k: nat)
    requires WellFormedHistory(h) && k < |h|
    ensures Winner(h[k]).Some? ==> k == |h| - 1 && k > 0 && Winner(h[k]) == Some(Mover(k - 1))
    ensures Winner(h[k]).Some? ==>
              forall j :: 0 <= j < |Lines| && LineWon(h[k], j) ==> LineMark(h[k], j) == Mover(k - 1)
  {
    if k < |h| - 1 {
      assert Follows(h[k], h[k + 1], k);
    } else if k == 0 {
      NoEarlyWinner(h, 0);
    } else {
      assert Follows(h[k - 1], h[k], k - 1);
      var i :| 0 <= i < 9 && h[k - 1][i] == Empty && h[k] == h[k - 1][i := Mover(k - 1)];
      NewLinesBelongToMover(h[k - 1], i, Mover(k - 1), h[k]);
    }
  }

  /** Nobody can have won before the fifth move: the first five boards have no winner. */
  lemma NoEarlyWinner(h: seq<Board>, k: nat)
    requires WellFormedHistory(h) && k < |h| && k < 5
    ensures Winner(h[k]).None?
  {
    MarkCounts(h, k);
    NoWinnerBelowThree(h[k]);
  }

  class Game {
    var history: seq<Board>
    var stepNumber: nat
    var xIsNext: bool

    /** The cursor points into the history and the turn flag is the cursor's parity. */
    ghost predicate Valid()
      reads this
    {
      WellFormedHistory(history) && stepNumber < |history| && xIsNext == (stepNumber % 2 == 0)
    }

    /** A fresh game: one empty board, the cursor on it, X to move. */
    constructor ()
      ensures Valid()
      ensures history == [EmptyBoard] && stepNumber == 0 && xIsNext
    {
      history := [EmptyBoard];
      stepNumber := 0;
      xIsNext := true;
    }

    /**
     * The board shown. If it has a winner, it is the last entry of the history
     * and the winner is the player who is not to move.
     */
    function Current(): (b: Board)
      reads this
      requires Valid()
      ensures Winner(b).Some? ==> stepNumber == |history| - 1 && Winner(b) == Some(if xIsNext then O else X)
    {
      WinnerIsLastMover(history, stepNumber);
      history[stepNumber]
    }

    /** Moves the cursor to an existing entry; the history is kept, so later entries can be returned to. */
    method JumpTo(step: nat)
      requires Valid() && step < |history|
      modifies this
      ensures Valid()
      ensures history == old(history) && stepNumber == step && xIsNext == (step % 2 == 0)
      ensures step == 0 ==> Current() == EmptyBoard && xIsNext
    {
      stepNumber, xIsNext := step, step % 2 == 0;
    }

    /**
     * Plays square i on the shown board. Ignored when the square is taken or the
     * board already has a winner; otherwise every entry after the shown one is
     * dropped and the new board is appended.
     */
    method HandleClick(i: Index)
      requires Valid()
      modifies this
      ensures Valid()
      ensures old(Winner(Current())).Some? || old(Current()[i]) != Empty ==>
                history == old(history) && stepNumber == old(stepNumber) && xIsNext == old(xIsNext)
      ensures old(Winner(Current())).None? && old(Current()[i]) == Empty ==>
                history == old(history[..stepNumber + 1]) + [old(Current()[i := if xIsNext then X else O])] &&
                stepNumber == old(stepNumber) + 1 && xIsNext == !old(xIsNext)
    {
      var kept := history[..stepNumber + 1];
      var current := kept[|kept| - 1];
      var squares := new Cell[9](j requires 0 <= j < 9 => current[j]);
      assert squares[..] == current;
      var winner := CalculateWinner(squares[..]);
      if winner.Some? || squares[i] != Empty {
        return;
      }
      squares[i] := if xIsNext then X else O;
      assert squares[..] == current[i := Mover(stepNumber)];
      assert Follows(current, squares[..], stepNumber);
      history, stepNumber, xIsNext := kept + [squares[..]], |kept|, !xIsNext;
    }

    /** The status text: the winner shown is always the player who is not to move. */
    function Status(): (s: string)
      reads this
      requires Valid()
      ensures Winner(Current()).Some? ==> s == WinnerPrefix + (if xIsNext then "O" else "X")
      ensures Winner(Current()).None? ==> s == NextPrefix + (if xIsNext then "X" else "O")
    {
      var winner := Winner(Current());
      WinnerIsLastMover(history, stepNumber);
      StatusLine(winner, xIsNext)
    }

    /**
     * The move-list labels, one per history entry: the start label first, then
     * the move prefix followed by the entry's index, with no label repeated.
     */
    function Moves(): (labels: seq<string>)
      reads this
      requires Valid()
      ensures |labels| == |history| <= 10 && labels[0] == StartLabel
      ensures forall k :: 0 < k < |labels| ==> labels[k] == MovePrefix + DecimalString(k)
      ensures forall a, b :: 0 <= a < b < |labels| ==> labels[a] != labels[b]
    {
      HistoryBound(history);
      MoveListDistinct(|history|);
      MoveList(|history|)
    }
  }

  /** A full board without a winner still reads "Next player: O": there is no draw text. */
  lemma FullBoardShowsNextPlayer(g: Game)
    requires g.Valid() && Count(g.Current(), Empty) == 0 && Winner(g.Current()).None?
    ensures g.Status() == "Next player: O"
  {
    MarkCounts(g.history, g.stepNumber);
  }

  /** X plays 0, 1, 2 against O on 3, 4: X wins the top row, and a further click is ignored. */
  method TopRowGame() returns (status: string, entries: nat)
    ensures status == "Winner: X" && entries == 6
  {
    var g := new Game();
    g.HandleClick(0);
    NoEarlyWinner(g.history, 1);
    g.HandleClick(3);
    NoEarlyWinner(g.history, 2);
    g.HandleClick(1);
    NoEarlyWinner(g.history, 3);
    g.HandleClick(4);
    NoEarlyWinner(g.history, 4);
    g.HandleClick(2);
    ghost var top := g.history[5];
    assert top == [X, X, X, O, O, Empty, Empty, Empty, Empty];
    assert LineWon(top, 0);
    g.HandleClick(5);
    status := g.Status();
    entries := |g.history|;
  }
}
