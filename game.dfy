/** The `Game` component: the history of board snapshots and the pointer
    to the snapshot on display. */
module GameHistory {
  import opened Marks
  import opened WinDetector
  import opened Board

  /** The mark written on ply `ply`: X on even plies, O on odd ones. */
  function PlyMark(ply: nat): Cell {
    Mark(ply % 2 == 0)
  }

  /** `b'` follows `b` on ply `ply`: `b` had no winner, and `b'` is `b` with
      one empty square filled by the mark of that ply. */
  ghost predicate LegalMove(b: Squares, b': Squares, ply: nat) {
    Winner(b).None? && exists i: Index :: b[i] == Empty && b' == b[i := PlyMark(ply)]
  }

  /** A history that the game can build: it starts from the empty board and
      each snapshot follows the previous one by a legal move. */
  ghost predicate Reachable(h: seq<Squares>) {
    0 < |h| && h[0] == EmptySquares &&
    forall k :: 0 <= k < |h| - 1 ==> LegalMove(h[k], h[k + 1], k)
  }

  /** Snapshot `k` of a reachable history holds `k` marks: X was placed on
      the even plies and O on the odd ones. */
  lemma {:induction false} PlyCounts(h: seq<Squares>, k: nat)
    requires Reachable(h) && k < |h|
    ensures multiset(h[k])[X] == (k + 1) / 2
    ensures multiset(h[k])[O] == k / 2
    ensures multiset(h[k])[Empty] == 9 - k
  {
    if k == 0 {
      EmptyCounts();
    } else {
      PlyCounts(h, k - 1);
      PlyStep(h[k - 1], h[k], k);
    }
  }

  /** One legal move on ply `k - 1` adds that ply's mark and removes one
      empty square. */
  lemma PlyStep(a: Squares, b: Squares, k: nat)
    requires 0 < k && LegalMove(a, b, k - 1)
    requires multiset(a)[X] == k / 2 && multiset(a)[O] == (k - 1) / 2
    requires multiset(a)[Empty] == 9 - (k - 1)
    ensures multiset(b)[X] == (k + 1) / 2 && multiset(b)[O] == k / 2
    ensures multiset(b)[Empty] == 9 - k
  {
    var i: Index :| a[i] == Empty && b == a[i := PlyMark(k - 1)];
    FillCounts(a, i, PlyMark(k - 1));
    if (k - 1) % 2 == 0 {
      assert PlyMark(k - 1) == X;
    } else {
      assert PlyMark(k - 1) == O;
    }
  }

  /** The empty board holds nine empty squares and no mark. */
  lemma EmptyCounts()
    ensures multiset(EmptySquares)[X] == 0 && multiset(EmptySquares)[O] == 0
    ensures multiset(EmptySquares)[Empty] == 9
  {
    assert multiset(EmptySquares) == multiset{Empty, Empty, Empty, Empty, Empty, Empty, Empty, Empty, Empty};
  }

  /** Filling an empty square with `m` adds one `m` and removes one `Empty`. */
  lemma FillCounts(b: Squares, i: Index, m: Cell)
    requires b[i] == Empty && m != Empty
    ensures multiset(b[i := m])[Empty] == multiset(b)[Empty] - 1
    ensures m == X ==> multiset(b[i := m])[X] == multiset(b)[X] + 1 && multiset(b[i := m])[O] == multiset(b)[O]
    ensures m == O ==> multiset(b[i := m])[O] == multiset(b)[O] + 1 && multiset(b[i := m])[X] == multiset(b)[X]
  {
    assert b == b[..i] + [b[i]] + b[i + 1..];
    assert b[i := m] == b[..i] + [m] + b[i + 1..];
  }

  /** A reachable history has at most ten snapshots. */
  lemma ReachableBounded(h: seq<Squares>)
    requires Reachable(h)
    ensures |h| <= 10
  {
    PlyCounts(h, |h| - 1);
  }

  /** Turn by parity agrees with the marks on the board: X is to move on
      snapshot `k` exactly when X and O have been placed equally often. */
  lemma TurnAgreesWithCounts(h: seq<Squares>, k: nat)
    requires Reachable(h) && k < |h|
    ensures (k % 2 == 0) <==> multiset(h[k])[X] == multiset(h[k])[O]
  {
    PlyCounts(h, k);
  }

  class Game {
    var history: seq<Squares>
    var currentMove: nat

    /** The pointer is inside the history, which starts with the empty board. */
    ghost predicate Valid()
      reads this
    {
      0 < |history| && currentMove < |history| && history[0] == EmptySquares
    }

    /** The history was built by legal moves only. */
    ghost predicate WellPlayed()
      reads this
    {
      Reachable(history)
    }

    /** The initial state: one empty board, pointer at move 0. */
    constructor ()
      ensures Valid() && WellPlayed()
      ensures history == [EmptySquares] && currentMove == 0
    {
      history := [EmptySquares];
      currentMove := 0;
    }

    /** Whose turn it is, derived from the pointer's parity: the mark to
        be placed is the mark of ply `currentMove`. */
    function XIsNext(): (r: bool)
      reads this
      ensures Mark(r) == PlyMark(currentMove)
    {
      currentMove % 2 == 0
    }

    /** The snapshot on display: one of the stored snapshots, the empty
        board at the start of the game. */
    function CurrentSquares(): (r: Squares)
      reads this
      requires Valid()
      ensures r in history
      ensures currentMove == 0 ==> r == EmptySquares
    {
      history[currentMove]
    }

    /** `handlePlay`: drop the snapshots after the pointer, append
        `nextSquares` and point at it. */
    method HandlePlay(nextSquares: Squares)
      requires Valid()
      modifies this
      ensures Valid()
      ensures history == old(history[..currentMove + 1]) + [nextSquares]
      ensures |history| == old(currentMove) + 2
      ensures currentMove == |history| - 1
      ensures forall k :: 0 <= k <= old(currentMove) ==> history[k] == old(history[k])
      ensures CurrentSquares() == nextSquares
      ensures old(WellPlayed()) && LegalMove(old(CurrentSquares()), nextSquares, old(currentMove)) ==> WellPlayed()
    {
      ghost var h, m := history, currentMove;
      var nextHistory := history[..currentMove + 1] + [nextSquares];
      history := nextHistory;
      currentMove := |nextHistory| - 1;
      if Reachable(h) && LegalMove(h[m], nextSquares, m) {
        forall k | 0 <= k < |history| - 1
          ensures LegalMove(history[k], history[k + 1], k)
        {
          if k < m {
            assert history[k] == h[k] && history[k + 1] == h[k + 1];
          } else {
            assert history[k] == h[m] && history[k + 1] == nextSquares;
          }
        }
      }
    }

    /** `jumpTo`: move the pointer, leave the history alone. */
    method JumpTo(nextMove: nat)
      requires Valid() && nextMove < |history|
      modifies this
      ensures Valid()
      ensures history == old(history) && currentMove == nextMove
      ensures CurrentSquares() == history[nextMove]
      ensures XIsNext() <==> nextMove % 2 == 0
      ensures old(WellPlayed()) ==> WellPlayed()
    {
      currentMove := nextMove;
    }

    /** A click on square `i` of the displayed board: `Board.handleClick`
        with this game's `xIsNext` and `currentSquares`, and `handlePlay`
        as its `onPlay`. An ignored click changes nothing. */
    method Play(i: Index)
      requires Valid()
      modifies this
      ensures Valid()
      ensures old(WellPlayed()) ==> WellPlayed()
      ensures Winner(old(CurrentSquares())).Some? || old(CurrentSquares())[i] != Empty ==>
        history == old(history) && currentMove == old(currentMove)
      ensures Winner(old(CurrentSquares())).None? && old(CurrentSquares())[i] == Empty ==>
        && history == old(history[..currentMove + 1]) + [old(CurrentSquares())[i := Mark(old(XIsNext()))]]
        && currentMove == old(currentMove) + 1
    {
      var next := HandleClick(CurrentSquares(), XIsNext(), i);
      if next.Some? {
        assert next.value == CurrentSquares()[i := PlyMark(currentMove)];
        assert LegalMove(CurrentSquares(), next.value, currentMove);
        HandlePlay(next.value);
      }
    }

    /** On a well-played history the displayed board agrees with the turn:
        X is to move exactly when X and O are on the board equally often. */
    lemma TurnMatchesBoard()
      requires Valid() && WellPlayed()
      ensures XIsNext() <==> multiset(CurrentSquares())[X] == multiset(CurrentSquares())[O]
    {
      TurnAgreesWithCounts(history, currentMove);
    }
  }

  /** A game won down the left column, a click after the win, a jump back
      to the start, a play from there that discards the later moves, and a
      second click on the square just filled. */
  method ColumnGame() {
    var g := new Game();
    g.Play(0);
    g.Play(1);
    g.Play(3);
    g.Play(4);
    assert g.CurrentSquares() == [X, O, Empty, X, O, Empty, Empty, Empty, Empty];
    g.Play(6);
    assert g.CurrentSquares() == [X, O, Empty, X, O, Empty, X, Empty, Empty];
    assert Winner(g.CurrentSquares()) == Some(X);
    assert Status(g.CurrentSquares(), g.XIsNext()) == "Winner: X";
    g.Play(2);
    assert |g.history| == 6;
    g.JumpTo(0);
    assert g.CurrentSquares() == EmptySquares && g.XIsNext();
    assert Status(g.CurrentSquares(), g.XIsNext()) == "Next player: X";
    g.Play(8);
    assert |g.history| == 2 && g.currentMove == 1;
    assert !g.XIsNext();
    g.Play(8);
    assert |g.history| == 2 && g.currentMove == 1;
  }
}
