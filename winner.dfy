/** Win detection: `calculateWinner` scans the eight lines of the board in a
    fixed order and reports the mark of the first complete one. */
module WinDetector {
  import opened Marks

  type Line = (Index, Index, Index)

  /** The three rows, the three columns and the two diagonals, in the order
      the source checks them. */
  const Lines: seq<Line> := [
    (0, 1, 2), (3, 4, 5), (6, 7, 8),
    (0, 3, 6), (1, 4, 7), (2, 5, 8),
    (0, 4, 8), (2, 4, 6)
  ]

  /** The source's test for line `k`: its first square is non-empty and the
      other two equal it. */
  predicate Completed(b: Squares, k: nat)
    requires k < |Lines|
  {
    var (x, y, z) := Lines[k];
    b[x] != Empty && b[x] == b[y] && b[x] == b[z]
  }

  /** Reference definition: mark `m` is a real mark and holds all three
      squares of line `k`. */
  predicate Owns(b: Squares, k: nat, m: Cell)
    requires k < |Lines|
  {
    m != Empty && b[Lines[k].0] == m && b[Lines[k].1] == m && b[Lines[k].2] == m
  }

  /** The outcome of the scan when it starts at line `k`. */
  function WinnerFrom(b: Squares, k: nat): (r: Option<Cell>)
    requires k <= |Lines|
    ensures r.Some? ==> r.value != Empty
    decreases |Lines| - k
  {
    if k == |Lines| then None
    else if Completed(b, k) then Some(b[Lines[k].0])
    else WinnerFrom(b, k + 1)
  }

  /** The value of `calculateWinner(b)`: `None` stands for null, and a
      reported mark is a real mark. `WinnerIsFirstOwnedLine` says which. */
  function Winner(b: Squares): (r: Option<Cell>)
    ensures r.Some? ==> r.value != Empty
  {
    WinnerFrom(b, 0)
  }

  /** The source's loop with its early return. */
  method CalculateWinner(squares: Squares) returns (w: Option<Cell>)
    ensures w == Winner(squares)
  {
    for i := 0 to |Lines|
      invariant WinnerFrom(squares, i) == Winner(squares)
    {
      var (a, b, c) := Lines[i];
      if squares[a] != Empty && squares[a] == squares[b] && squares[a] == squares[c] {
        return Some(squares[a]);
      }
    }
    return None;
  }

  /** The scan from line `k` finds nothing exactly when no line from `k` on
      is owned, and it finds `m` exactly when the first owned line from `k`
      on is owned by `m`. */
  lemma {:induction false} WinnerFromIsFirstOwned(b: Squares, k: nat)
    requires k <= |Lines|
    ensures WinnerFrom(b, k).None? <==> forall j, m :: k <= j < |Lines| ==> !Owns(b, j, m)
    ensures forall m :: WinnerFrom(b, k) == Some(m) <==>
      exists j :: k <= j < |Lines| && Owns(b, j, m) &&
        forall i, m' :: k <= i < j ==> !Owns(b, i, m')
    decreases |Lines| - k
  {
    if k < |Lines| {
      WinnerFromIsFirstOwned(b, k + 1);
      if Completed(b, k) {
        assert Owns(b, k, b[Lines[k].0]);
      } else {
        assert forall m :: !Owns(b, k, m);
        forall m | WinnerFrom(b, k) == Some(m)
          ensures exists j :: k <= j < |Lines| && Owns(b, j, m) &&
                               forall i, m' :: k <= i < j ==> !Owns(b, i, m')
        {
          var j :| k + 1 <= j < |Lines| && Owns(b, j, m) &&
            forall i, m' :: k + 1 <= i < j ==> !Owns(b, i, m');
          assert forall i, m' :: k <= i < j ==> !Owns(b, i, m');
        }
      }
    }
  }

  /** `calculateWinner` returns null exactly when no line is owned (a full
      board without a line included), and returns `m` exactly when the
      first owned line, in the listed order, is owned by `m`. */
  lemma WinnerIsFirstOwnedLine(b: Squares)
    ensures Winner(b).None? <==> forall k, m :: 0 <= k < |Lines| ==> !Owns(b, k, m)
    ensures forall m :: Winner(b) == Some(m) <==>
      exists k :: 0 <= k < |Lines| && Owns(b, k, m) &&
        forall j, m' :: 0 <= j < k ==> !Owns(b, j, m')
  {
    WinnerFromIsFirstOwned(b, 0);
  }

  /** A mark that owns a line wins when no other mark owns one. */
  lemma UncontestedLineWins(b: Squares, k: nat, m: Cell)
    requires k < |Lines| && Owns(b, k, m)
    requires forall j, m' :: 0 <= j < |Lines| && m' != m ==> !Owns(b, j, m')
    ensures Winner(b) == Some(m)
  {
    WinnerIsFirstOwnedLine(b);
    var w := Winner(b).value;
    var j :| 0 <= j < |Lines| && Owns(b, j, w) &&
      forall i, m' :: 0 <= i < j ==> !Owns(b, i, m');
  }
}
