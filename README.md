# Blocked: a verified model of a Rush Hour solver

This project models the core of `blocked`, a breadth-first solver for
Rush Hour style sliding-block puzzles.

On a board of `width` by `height` tiles, each piece is a rigid bar. It has
a size, a location (its minimum-coordinate end), a direction (horizontal or
vertical) and a `marked` flag. A piece slides only along its own axis, and
only over empty tiles. The puzzle is won once a marked piece covers the goal
tile.

The model has three modules:

- `Boards` (`board.dfy`) holds pieces, moves and boards. It covers:
  - the footprint of a piece (`occupies`);
  - the derived fields `occupied_tiles` and `is_won` that `Board::new`
    computes;
  - the occupancy tests `tile_exists` and `empty_tile`;
  - move generation (`all_moves`), which is both a method with the source's
    probing loops and a recursive specification the method is proved equal
    to;
  - `play`, `undo` and `future_boards`.

  Boards are immutable values, as in the source. Each move builds a new
  board.
- `Solver` (`solver.dfy`) holds the search:
  - `solve`: a level-by-level breadth-first search. It filters each level's
    generated boards against a transposition table, which maps each board to
    the move that first produced it, and the start board to `None`;
  - the loop in `main` that walks the table backwards with `undo` and
    reverses the collected moves.

  Both are imperative methods with loop invariants. A ghost `depth` map
  ranks the table entries by the level that admitted them. The proof shows:
  - a board is admitted at depth `k` exactly when it is first reachable in
    `k` generated moves;
  - `solve` stops at the first level that holds a won board;
  - the reconstructed history has `steps` moves and replays from the start
    to that board.
- `Scenarios` (`scenarios.dfy`) works the definitions out on three tiny
  boards:
  - a corridor that one move wins, which the solver solves in one step with
    that move as the history;
  - a jammed board that no move changes, on which the source's search would
    never end;
  - a board that is won from the start and on which nothing moves; the
    solver never reports it.

Two behaviours of the source are kept as written:

- `solve` never looks at the start board's own `is_won`. A won start board is
  not reported. `NoWinBefore` therefore speaks only of boards other than the
  start.
- The source trusts its input: pieces lie on the board, have a positive size
  and do not overlap. The model states this as `WellFormed` and assumes it of
  the start board only. `PlayKeepsWellFormed` proves that every generated
  move preserves it.

## Model

| member | source | states |
|---|---|---|
| Boards.Occupies | src/board.rs:39-48 | a footprint has exactly `size` tiles |
| Boards.OccupiesMeans | src/board.rs:39-48 | tile i of the footprint is the location shifted by i along x (horizontal) or y (vertical); the first tile is the location; a tile is in the footprint iff the piece covers it |
| Boards.OccupiedTiles | src/board.rs:205-209 | the occupied tiles are the piece footprints concatenated in piece order, so their number is the sum of the sizes |
| Boards.OccupiedTilesCover | src/board.rs:205-209 | a tile is listed as occupied iff some piece covers it |
| Boards.HasWinnerMeans | src/board.rs:99-102 | the win test holds iff some marked piece covers the goal anywhere in its footprint |
| Boards.NewBoard | src/board.rs:97-112 | `Board::new` keeps width, height, goal and pieces as given and derives the other two fields from the pieces |
| Boards.NewBoardMeans | src/board.rs:97-112 | on a built board, `occupied_tiles` has one entry per unit of size and lists exactly the covered tiles, and `is_won` holds iff a marked piece covers the goal |
| Boards.TileExists | src/board.rs:216-220 | a tile exists iff it is one of the width by height grid tiles anchored at (0, 0) |
| Boards.EmptyTile | src/board.rs:211-220 | an empty tile lies on the board |
| Boards.EmptyTileMeans | src/board.rs:211-220 | on a consistent board, a tile is empty iff it is inside width and height and no piece covers it |
| Boards.MoveToward | src/board.rs:128-152 | builds the Right, Left, Up or Down move that a probing loop pushes; its tile (what `get_tile` returns) is the given one, and it has the given number of steps |
| Boards.Probe | src/board.rs:124-153 | one `for i in 1..` probing loop appends exactly the run of free steps toward its direction, stopping at the first blocked or missing tile |
| Boards.AllMoves | src/board.rs:114-158 | the loops of `all_moves` produce exactly the specified move sequence: pieces in order; for each piece Right then Left, or Up then Down |
| Boards.GenerateAgrees | src/board.rs:115-157 | generating the moves in one pass and generating them piece by piece give the same sequence |
| Boards.Moves | src/board.rs:114-158 | every generated move has at least one step and never moves below coordinate 0 |
| Boards.RunIsMaximalPrefix | src/board.rs:124-153 | for one piece and direction, the emitted steps are exactly 1..k in order; steps 1..k are free; step k+1 is off the board or occupied |
| Boards.RunMember | src/board.rs:124-153 | a move emitted by one probing loop starts at the piece's location, and all the tiles it passes over are free |
| Boards.MovesOfSound | src/board.rs:131-153 | no generated move underflows: the Left and Up guards keep the step count within the coordinate it decreases |
| Boards.MoveOrigin | src/board.rs:114-158 | soundness: every generated move starts at some piece's location and follows that piece's axis (Right/Left for horizontal, Up/Down for vertical); every tile it passes over was on the board and empty; it never underflows |
| Boards.LocationsDistinct | src/board.rs:175 | on a well-formed board, no two pieces share a location, so a move's origin tile names one piece |
| Boards.MovesExact | src/board.rs:114-158 | completeness on a well-formed board: sliding piece i along its axis by s steps is generated iff s >= 1 and all s tiles beyond that end are on the board and empty |
| Boards.Destination | src/board.rs:178-184 | the moved piece's new location is the old one shifted by the move's signed offset |
| Boards.Play | src/board.rs:168-191 | `play` keeps width, height, goal and the number of pieces |
| Boards.PlayMeans | src/board.rs:168-191 | `play` keeps the order of the pieces. It changes only the location of a piece whose location equals the move's tile, by the signed offset. Size, direction and marked flag are unchanged |
| Boards.Reverse | src/board.rs:195-200 | the inverse move has the same number of steps, starts where the move ends, ends where it starts, and has the opposite offset |
| Boards.Undo | src/board.rs:193-203 | `undo` keeps width, height, goal and the number of pieces |
| Boards.UndoMeans | src/board.rs:193-203 | `undo` puts every piece standing at the move's destination back at the move's origin and leaves all other pieces alone |
| Boards.SlideFootprint | src/board.rs:124-153 | after a generated slide, every tile the piece covers is either one it already covered or one the probe found empty |
| Boards.MovedPiece | src/board.rs:168-191 | on a well-formed board a generated move moves exactly one piece, onto tiles that it covered or that were empty |
| Boards.PlayKeepsWellFormed | src/board.rs:168-191 | playing a generated move on a well-formed board gives a well-formed board |
| Boards.PlayUndo | src/board.rs:168-203 | `play(m).undo(m) == b` for every generated move m of a well-formed board b |
| Boards.Successors | src/board.rs:160-166 | one (board, move) pair per move |
| Boards.FutureBoards | src/board.rs:160-166 | `future_boards` has one pair per generated move |
| Boards.FutureBoardsAt | src/board.rs:160-166 | pair k of `future_boards` is (play(m), m) for the k-th generated move m |
| Boards.ComputeFutureBoards | src/board.rs:160-166 | generating the moves and then playing each one computes `future_boards` |
| Boards.FutureBoardsUndo | src/board.rs:160-203 | every successor of a well-formed board is well formed, and undoing its move gives the board back |
| Solver.WalkSnoc | src/main.rs:74-77 | extending a path of generated moves by a move generated at its end plays that move |
| Solver.WalkLast | src/main.rs:74-77 | a non-empty path of generated moves splits into its prefix and a last move generated on the board the prefix reaches |
| Solver.TablePath | src/main.rs:60-70 | every table entry is reachable from the start by exactly as many generated moves as its depth |
| Solver.ParentLinkGrows | src/main.rs:62-68 | an entry's link to its parent survives adding entries, since the table never removes or overwrites an entry |
| Solver.Admit | src/main.rs:66 | entering a new successor of a table board with its move, one level deeper, keeps the table invariant: the root maps to None; every other entry's move undoes to a table board one level shallower, and playing it from there gives the entry |
| Solver.AdmitExpanded | src/main.rs:62-68 | entering any new board generated from the frontier keeps the table invariant |
| Solver.ExpandSource | src/main.rs:74-79 | every pair collected for the next level is (play(f, m), m) for a frontier board f and a move m generated on f |
| Solver.ExpandCovers | src/main.rs:74-79 | every move generated on every frontier board is among the collected pairs |
| Solver.InitialLevel | src/main.rs:53-55 | after the start is entered with None, the table and frontier satisfy the level invariant at level 0 |
| Solver.FilterKeep | src/main.rs:62-68 | a pair whose board is not in the table is entered with its move and kept |
| Solver.FilterSkip | src/main.rs:62-65 | a pair whose board is already in the table is dropped and nothing changes |
| Solver.KeepNewFirst | src/main.rs:60-70 | each pair the filter keeps is the first generated pair carrying its board, and that board was not in the table |
| Solver.KeepNewCovers | src/main.rs:60-70 | every generated board that was not in the table has a kept pair |
| Solver.FilterDone | src/main.rs:60-70 | after the filter, old entries are unchanged, every generated board is in the table, and each kept pair is a new board entered with its move |
| Solver.Unseen | src/main.rs:60-70 | the filter keeps exactly the pairs whose board is new and not generated earlier in the level, in generation order, so the move entered for a board is the one that first produced it. It enters each such board with that move, one level deeper. It only adds entries, and it keeps the table invariant |
| Solver.ScanLevel | src/main.rs:74-79 | the scan stops at the first won kept board; otherwise no kept board is won and the collected pairs are the successors of all kept boards in order |
| Solver.NextComplete | src/main.rs:56-82 | after a level, every board within level+1 generated moves is in the table, at a depth no larger than its distance |
| Solver.NextLevel | src/main.rs:56-82 | a level with no won board re-establishes the level invariant one level deeper. The kept boards form the new frontier, which is exactly the boards at distance level+1 |
| Solver.WonAtLevel | src/main.rs:72-75 | a won board kept at a level is reachable in exactly level+1 moves, and no won board other than the start is closer |
| Solver.NoWinWithinLevel | src/main.rs:56-82 | under the level invariant no board other than the start within `level` moves is won |
| Solver.SearchLevel | src/main.rs:57-81 | one pass of the loop body only adds table entries. It keeps the table invariant. It returns either the first won board among the kept pairs, at distance exactly level+1 with none closer, or, when none is won, the kept boards in order as the next frontier, with the level invariant |
| Solver.Solve | src/main.rs:52-83 | `solve` returns only a won board, with steps >= 1 equal to its table depth and to its distance from the start; no won board other than the start is closer; bounded by `maxLevels` levels, None means no won board within that many moves |
| Solver.Reversed | src/main.rs:39 | reversing keeps the length and puts move k at position len-1-k |
| Solver.HistoryStep | src/main.rs:32-37 | the move recorded for a non-root entry undoes to a table entry one level shallower, from which the collected moves, reversed, replay to the won board |
| Solver.RootOnly | src/main.rs:32-37 | the only table entry recorded with None is the start board |
| Solver.History | src/main.rs:31-39 | the reconstruction stops at the root's None; the reversed history has as many moves as the won board's depth and replays from the start to the won board |
| Solver.SolveWithHistory | src/main.rs:28-39 | the history printed after `solve` has exactly `steps` moves, all generated, and replays from the start to the returned won board, which no won board other than the start precedes |
| Scenarios.CorridorMoves | src/board.rs:114-158 | on a 3x1 corridor the single piece gets exactly Right by 1 and Right by 2; Right by 1 does not win, Right by 2 does |
| Scenarios.CorridorOneMoveWins | src/board.rs:114-158 | the only one-move path that wins the corridor is Right by 2 |
| Scenarios.SolveCorridor | src/main.rs:28-39 | solving the corridor with any positive level bound reports the win after one step, with history [Right by 2] |
| Scenarios.Stuck | src/board.rs:114-158 | from a board with no generated move, only the empty path leads anywhere |
| Scenarios.JammedNeverWins | src/main.rs:56-82 | on a board where nothing can move, no won board is reachable at any depth, so the unbounded search of the source would never return |
| Scenarios.ParkedIsWonButStuck | src/main.rs:53-55 | a start board that is already won, on which nothing moves, has no other won board at any depth |
| Scenarios.SolveParked | src/main.rs:52-83 | solving that won start board reports no win at any level bound, since `solve` never tests the start |

## Left out

- Text output: the `Display` implementation of `Move` (src/board.rs:72-83), the timing, the `println!` calls and the `--verbose` command-line flag in `main` (src/main.rs:26, 29, 40-46). They are I/O only.
- The hard-coded 6x6 sample puzzle in `main` (src/main.rs:11-24). It is only an input instance, and its search is far too large to evaluate symbolically. The scenarios use tiny boards instead.
- Hashing. The transposition table is a map keyed by structural board equality, which is what the derived `Hash`/`Eq` give the source's `HashMap`.
- `Piece::new` and `Piece::marked` (src/board.rs:20-37). They are plain constructors; the `Piece` datatype constructor stands for them.
- Solver.Solve: the source loops forever when no won board is reachable. The model bounds the search by `maxLevels` levels, and None means "not found within that many moves". It also returns the table it built, while the source fills a table its caller created empty and passes in by reference.
- Solver.SolveWithHistory: inherits the `maxLevels` bound of `Solve`.
- Boards.Play: requires `NoUnderflow`, which excludes every Left or Up move that would take its tile below coordinate 0; Boards.Undo requires the same of the move it undoes. When such a move hits a piece, the source's unsigned subtraction panics in a debug build and wraps in a release build. Every generated move satisfies `NoUnderflow` (Boards.Moves).
- Boards.Play: coordinates are unbounded naturals. The 32-bit overflow of `end + i` and `x + steps` is not modelled.
- Boards.AllMoves: a piece of size 0 at coordinate 0 would make the source's `x + piece.size - 1` underflow. The model computes the probed tile without that intermediate value. Well-formed boards have no such piece.
- Boards.MovesExact: completeness is stated for well-formed boards only (distinct pieces at distinct locations); soundness (Boards.MoveOrigin) holds on every board.
