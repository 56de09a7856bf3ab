/** The logic of the `Board` component: validating a click and building the
    next snapshot, and the status line shown above the board. */
module Board {
  import opened Marks
  import opened WinDetector

  /** `handleClick(i)` on the board `squares` with `xIsNext`. `None` means
      the click is ignored; `Some(next)` is the snapshot handed to `onPlay`.
      The snapshot is built in a fresh copy of the board, so `squares`
      itself is never written. */
  method HandleClick(squares: Squares, xIsNext: bool, i: Index) returns (next: Option<Squares>)
    ensures next.None? <==> Winner(squares).Some? || squares[i] != Empty
    ensures next.Some? ==> next.value[i] == Mark(xIsNext)
    ensures next.Some? ==> forall k :: 0 <= k < 9 && k != i ==> next.value[k] == squares[k]
  {
    var winner := CalculateWinner(squares);
    if winner.Some? || squares[i] != Empty {
      return None;
    }
    var nextSquares := new Cell[9](k requires 0 <= k < 9 => squares[k]);
    if xIsNext {
      nextSquares[i] := X;
    } else {
      nextSquares[i] := O;
    }
    return Some(nextSquares[..]);
  }

  const WinnerPrefix: string := "Winner: "
  const NextPrefix: string := "Next player: "

  /** The status line: the winner when there is one, otherwise the player
      to move. */
  function Status(squares: Squares, xIsNext: bool): (s: string)
    ensures Winner(squares).Some? ==> s == WinnerPrefix + MarkText(Winner(squares).value)
    ensures Winner(squares).None? ==> s == NextPrefix + MarkText(Mark(xIsNext))
  {
    var winner := Winner(squares);
    if winner.Some? then WinnerPrefix + MarkText(winner.value)
    else NextPrefix + (if xIsNext then "X" else "O")
  }

  /** The status line announces the state without ambiguity: two boards
      with the same status line have the same winner, and while there is
      none they have the same player to move. */
  lemma StatusDeterminesOutcome(b1: Squares, x1: bool, b2: Squares, x2: bool)
    requires Status(b1, x1) == Status(b2, x2)
    ensures Winner(b1) == Winner(b2)
    ensures Winner(b1).None? ==> x1 == x2
  {
    var s := Status(b1, x1);
    assert s[0] == 'W' <==> Winner(b1).Some?;
    assert s[0] == 'W' <==> Winner(b2).Some?;
    assert s[|s| - 1] == if Winner(b1).Some? then MarkText(Winner(b1).value)[0] else MarkText(Mark(x1))[0];
    assert s[|s| - 1] == if Winner(b2).Some? then MarkText(Winner(b2).value)[0] else MarkText(Mark(x2))[0];
  }
}
