/** The text the game derives from its state: move-list labels and the status line. */
module Labels {
  import opened Squares

  /** The decimal digit for d. */
  function Digit(d: nat): char
    requires d < 10
  {
    ('0' as int + d) as char
  }

  /** The value of a decimal digit character. */
  function DigitValue(c: char): nat
  {
    if '0' <= c <= '9' then c as int - '0' as int else 0
  }

  /** Reads a string of decimal digits back as a number. */
  function ParseDecimal(s: string): nat
  {
    if s == [] then 0 else ParseDecimal(s[..|s| - 1]) * 10 + DigitValue(s[|s| - 1])
  }

  /**
   * JavaScript's rendering of a non-negative integer in string concatenation:
   * digits only, no leading zero, and it reads back as the number it renders.
   */
  function DecimalString(n: nat): (s: string)
    ensures |s| > 0 && ParseDecimal(s) == n
    ensures forall k :: 0 <= k < |s| ==> '0' <= s[k] <= '9'
    ensures |s| > 1 ==> s[0] != '0'
  {
    if n < 10 then [Digit(n)]
    else
      var init := DecimalString(n / 10);
      var s := init + [Digit(n % 10)];
      assert s[..|s| - 1] == init;
      s
  }

  const StartLabel := "Go to game start"
  const MovePrefix := "Go to move #"

  /**
   * The description of the button that jumps to history entry move: the start
   * label for entry 0, otherwise the move prefix followed by decimal digits,
   * without a leading zero, that read back as the entry's index.
   */
  function MoveLabel(move: nat): (desc: string)
    ensures move == 0 ==> desc == StartLabel
    ensures move > 0 ==> |desc| > |MovePrefix| && desc[..|MovePrefix|] == MovePrefix &&
                         ParseDecimal(desc[|MovePrefix|..]) == move
    ensures move > 0 ==> (forall k :: |MovePrefix| <= k < |desc| ==> '0' <= desc[k] <= '9') &&
                         desc[|MovePrefix|] != '0'
  {
    if move != 0 then
      var desc := MovePrefix + DecimalString(move);
      assert desc[|MovePrefix|..] == DecimalString(move);
      desc
    else StartLabel
  }

  /** The labels of the move list, one per history entry. */
  function MoveList(historyLength: nat): (labels: seq<string>)
    ensures |labels| == historyLength
    ensures forall move :: 0 <= move < historyLength ==> labels[move] == MoveLabel(move)
  {
    seq(historyLength, (move: int) requires 0 <= move => MoveLabel(move))
  }

  /** Two history entries never get the same label. */
  lemma MoveLabelInjective(a: nat, b: nat)
    requires MoveLabel(a) == MoveLabel(b)
    ensures a == b
  {
    // The start label differs from every move label at its seventh character.
    assert MoveLabel(a)[6] == if a == 0 then 'g' else 'm';
  }

  /** The first entry is the game start and every label of the list is distinct. */
  lemma MoveListDistinct(historyLength: nat)
    ensures historyLength > 0 ==> MoveList(historyLength)[0] == StartLabel
    ensures forall a, b :: 0 <= a < b < historyLength ==> MoveList(historyLength)[a] != MoveList(historyLength)[b]
  {
    forall a, b | 0 <= a < b < historyLength
      ensures MoveList(historyLength)[a] != MoveList(historyLength)[b]
    {
      if MoveLabel(a) == MoveLabel(b) {
        MoveLabelInjective(a, b);
      }
    }
  }

  /** How a mark is written. */
  function Symbol(c: Cell): string
  {
    match c
    case X => "X"
    case O => "O"
    case Empty => ""
  }

  const WinnerPrefix := "Winner: "
  const NextPrefix := "Next player: "

  /**
   * The status line: the winner's symbol after the winner prefix if the shown
   * board has one, else the player to move after the next-player prefix; there
   * is no draw text.
   */
  function StatusLine(winner: Option<Cell>, xIsNext: bool): (s: string)
    ensures winner.Some? ==> |s| >= |WinnerPrefix| && s[..|WinnerPrefix|] == WinnerPrefix && s[|WinnerPrefix|..] == Symbol(winner.value)
    ensures winner.None? ==> |s| >= |NextPrefix| && s[..|NextPrefix|] == NextPrefix && s[|NextPrefix|..] == Symbol(if xIsNext then X else O)
  {
    if winner.Some? then WinnerPrefix + Symbol(winner.value)
    else NextPrefix + (if xIsNext then "X" else "O")
  }

  /** Distinct situations give distinct status lines: the text determines the winner, and whose turn it is when there is none. */
  lemma StatusLineDistinguishes(w1: Option<Cell>, x1: bool, w2: Option<Cell>, x2: bool)
    requires w1.Some? ==> w1.value != Empty
    requires w2.Some? ==> w2.value != Empty
    requires StatusLine(w1, x1) == StatusLine(w2, x2)
    ensures w1 == w2
    ensures w1.None? ==> x1 == x2
  {
    var s := StatusLine(w1, x1);
    if w1.Some? && w2.Some? {
      assert s[|WinnerPrefix|] == Symbol(w1.value)[0] && s[|WinnerPrefix|] == Symbol(w2.value)[0];
    } else if w1.None? && w2.None? {
      assert s[|NextPrefix|] == (if x1 then 'X' else 'O') && s[|NextPrefix|] == (if x2 then 'X' else 'O');
    }
  }
}
