/** The 3x3 board, its eight winning lines and the winner rule (calculateWinner). */
module Squares {

  datatype Option<T> = None | Some(value: T)

  /** A square: null in the source, or one of the two marks. */
  datatype Cell = Empty | X | O

  /** A position 0..8, row-major (row = i / 3, column = i % 3). */
  type Index = i: nat | i < 9

  /** A board is always nine squares. */
  type Board = s: seq<Cell> | |s| == 9 witness [Empty, Empty, Empty, Empty, Empty, Empty, Empty, Empty, Empty]

  const EmptyBoard: Board := [Empty, Empty, Empty, Empty, Empty, Empty, Empty, Empty, Empty]

  /** The fixed table of triples: three rows, three columns, two diagonals, in this order. */
  const Lines: seq<(Index, Index, Index)> := [
    (0, 1, 2),
    (3, 4, 5),
    (6, 7, 8),
    (0, 3, 6),
    (1, 4, 7),
    (2, 5, 8),
    (0, 4, 8),
    (2, 4, 6)
  ]

  /** Line j of the table is filled with one and the same mark. */
  predicate LineWon(b: Board, j: nat)
    requires j < |Lines|
  {
    var (p, q, r) := Lines[j];
    b[p] != Empty && b[p] == b[q] && b[p] == b[r]
  }

  /** The mark occupying line j. */
  function LineMark(b: Board, j: nat): Cell
    requires j < |Lines|
  {
    b[Lines[j].0]
  }

  /** The winner rule, scanning the table from line k on. */
  function WinnerFrom(b: Board, k: nat): (r: Option<Cell>)
    requires k <= |Lines|
    decreases |Lines| - k
    ensures r.None? <==> forall j :: k <= j < |Lines| ==> !LineWon(b, j)
    ensures r.Some? ==> exists j :: k <= j < |Lines| && LineWon(b, j) && r.value == LineMark(b, j) &&
                                    forall j' :: k <= j' < j ==> !LineWon(b, j')
  {
    if k == |Lines| then None
    else if LineWon(b, k) then Some(LineMark(b, k))
    else WinnerFrom(b, k + 1)
  }

  /** The mark of the earliest line of the table that one mark fills, if any. */
  function Winner(b: Board): (r: Option<Cell>)
    ensures r.None? <==> forall j :: 0 <= j < |Lines| ==> !LineWon(b, j)
    ensures r.Some? ==> r.value != Empty
    ensures forall j :: 0 <= j < |Lines| && LineWon(b, j) && (forall j' :: 0 <= j' < j ==> !LineWon(b, j'))
                        ==> r == Some(LineMark(b, j))
  {
    WinnerFrom(b, 0)
  }

  /** calculateWinner: a scan over the table with an early return. */
  method CalculateWinner(squares: Board) returns (winner: Option<Cell>)
    ensures winner == Winner(squares)
  {
    for i := 0 to |Lines|
      invariant forall j :: 0 <= j < i ==> !LineWon(squares, j)
    {
      var (a, b, c) := Lines[i];
      if squares[a] != Empty && squares[a] == squares[b] && squares[a] == squares[c] {
        return Some(squares[a]);
      }
    }
    return None;
  }

  /** The mark placed at move number k (counting from 0): X on even moves, O on odd ones. */
  function Mover(k: nat): (c: Cell)
    ensures c != Empty
  {
    if k % 2 == 0 then X else O
  }

  /** Number of squares of s holding c. */
  function Count(s: seq<Cell>, c: Cell): nat
  {
    if s == [] then 0 else (if s[0] == c then 1 else 0) + Count(s[1..], c)
  }

  /** A sequence of empty squares holds no marks. */
  lemma {:induction false} CountAllEmpty(s: seq<Cell>)
    requires forall k :: 0 <= k < |s| ==> s[k] == Empty
    ensures Count(s, Empty) == |s| && Count(s, X) == 0 && Count(s, O) == 0
  {
    if s != [] {
      CountAllEmpty(s[1..]);
    }
  }

  /** Overwriting one square moves one unit of count from its old value to its new one. */
  lemma {:induction false} CountUpdate(s: seq<Cell>, i: nat, v: Cell, c: Cell)
    requires i < |s|
    ensures Count(s[i := v], c) == Count(s, c) - (if s[i] == c then 1 else 0) + (if v == c then 1 else 0)
  {
    if i == 0 {
      assert s[i := v][1..] == s[1..];
    } else {
      CountUpdate(s[1..], i - 1, v, c);
      assert s[i := v][1..] == s[1..][i - 1 := v];
    }
  }

  /** Three distinct squares holding mark c account for at least three of its count. */
  lemma CountThree(s: seq<Cell>, p: nat, q: nat, r: nat, c: Cell)
    requires p < |s| && q < |s| && r < |s| && p != q && q != r && p != r
    requires c != Empty && s[p] == c && s[q] == c && s[r] == c
    ensures Count(s, c) >= 3
  {
    var s1 := s[p := Empty];
    var s2 := s1[q := Empty];
    var s3 := s2[r := Empty];
    CountUpdate(s, p, Empty, c);
    CountUpdate(s1, q, Empty, c);
    CountUpdate(s2, r, Empty, c);
  }

  /** Filling a line takes three of one mark, so a board with at most two of each has no winner. */
  lemma NoWinnerBelowThree(b: Board)
    requires Count(b, X) < 3 && Count(b, O) < 3
    ensures Winner(b).None?
  {
    forall j | 0 <= j < |Lines|
      ensures !LineWon(b, j)
    {
      var (p, q, r) := Lines[j];
      if LineWon(b, j) {
        CountThree(b, p, q, r, b[p]);
      }
    }
  }

  /**
   * A move on a board without a winner can only complete lines through the
   * square it fills, so every line it completes carries the mark just played.
   */
  lemma NewLinesBelongToMover(b: Board, i: Index, m: Cell, b': Board)
    requires Winner(b).None? && b[i] == Empty && m != Empty && b' == b[i := m]
    ensures forall j :: 0 <= j < |Lines| && LineWon(b', j) ==> LineMark(b', j) == m
    ensures Winner(b').Some? ==> Winner(b').value == m
  {
  }
}
