/** Small concrete boards on which the model's definitions are worked out. */
module Scenarios {
  import opened Boards
  import opened Solver

  /** A board on which nothing moves has no path but the empty one. */
  lemma Stuck(b: Board)
    requires Moves(b) == []
    ensures forall path :: Walk(b, path) == if path == [] then Some(b) else None
  {
    forall path ensures Walk(b, path) == if path == [] then Some(b) else None {
      if path != [] {
        assert path[0] !in Moves(b);
      }
    }
  }

  /** A 3 by 1 board: one marked piece of size 1 at the left end, the goal at
      the right end. */
  function Corridor(): Board {
    NewBoard(3, 1, (2, 0), [Piece(1, (0, 0), Horizontal, true)])
  }

  /** On the corridor the piece can slide right by one or two tiles and not
      left at all; sliding by one does not win, sliding by two does. */
  lemma CorridorMoves()
    ensures Moves(Corridor()) == [Right((0, 0), 1), Right((0, 0), 2)]
    ensures !Corridor().isWon
    ensures !Play(Corridor(), Right((0, 0), 1)).isWon
    ensures Walk(Corridor(), [Right((0, 0), 2)]).Some?
    ensures Walk(Corridor(), [Right((0, 0), 2)]).value.isWon
  {
  }

  /** Some won board other than the corridor lies one move away. */
  lemma CorridorWinsInOne()
    ensures !NoWinBefore(Corridor(), 2)
  {
    CorridorMoves();
    var path := [Right((0, 0), 2)];
    assert |path| < 2 && Walk(Corridor(), path).value != Corridor();
  }

  /** The only one-move path from the corridor that wins is Right by 2. */
  lemma CorridorOneMoveWins(history: seq<Move>)
    requires |history| == 1 && Walk(Corridor(), history).Some? && Walk(Corridor(), history).value.isWon
    ensures history == [Right((0, 0), 2)]
    ensures Walk(Corridor(), history).value == Play(Corridor(), Right((0, 0), 2))
  {
    CorridorMoves();
    assert history[1..] == [];
    assert Walk(Corridor(), history) == Some(Play(Corridor(), history[0]));
  }

  /** Solving the corridor, with any positive level bound, finds a win after
      one level, and the history is the single move Right by 2. */
  method SolveCorridor(maxLevels: nat) returns (solution: Option<Solution>)
    requires maxLevels >= 1
    ensures solution == Some(Solution(Play(Corridor(), Right((0, 0), 2)), 1, [Right((0, 0), 2)]))
  {
    solution := SolveWithHistory(Corridor(), maxLevels);
    CorridorWinsInOne();
    CorridorOneMoveWins(solution.value.history);
  }

  /** A 2 by 1 board filled by two pieces: nothing can move, the marked
      piece never reaches the goal, and so the search of `solve` never ends;
      here every bounded run reports that no won board was found. */
  function Jammed(): Board {
    NewBoard(2, 1, (1, 0), [Piece(1, (0, 0), Horizontal, true), Piece(1, (1, 0), Horizontal, false)])
  }

  lemma JammedNeverWins(n: nat)
    ensures Moves(Jammed()) == []
    ensures !Jammed().isWon
    ensures NoWinBefore(Jammed(), n)
  {
    assert Moves(Jammed()) == [];
    Stuck(Jammed());
  }

  /** A 2 by 1 board filled by one marked piece of size 2 that covers the
      goal: the start board is won, but `solve` never tests the start, and
      nothing can move, so no bounded run reports a win. */
  function Parked(): Board {
    NewBoard(2, 1, (1, 0), [Piece(2, (0, 0), Horizontal, true)])
  }

  lemma ParkedIsWonButStuck(n: nat)
    ensures Parked().isWon
    ensures Moves(Parked()) == []
    ensures NoWinBefore(Parked(), n)
  {
    assert Moves(Parked()) == [];
    Stuck(Parked());
  }

  /** Solving the won start board reports nothing, at every level bound. */
  method SolveParked(maxLevels: nat) returns (solution: Option<Solution>)
    ensures solution == None
  {
    ParkedIsWonButStuck(0);
    Stuck(Parked());
    solution := SolveWithHistory(Parked(), maxLevels);
  }
}
