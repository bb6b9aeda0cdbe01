/** The board model of a sliding-block (Rush Hour style) puzzle: pieces,
    moves, boards, move generation, and playing and undoing a move.
    Every value here is immutable; a move produces a brand-new board. */
module Boards {

  datatype Option<T> = None | Some(value: T)

  /** A grid coordinate (x, y): x grows to the right, y grows downward. */
  type Tile = (nat, nat)

  datatype Direction = Horizontal | Vertical

  /** A rigid piece; `location` is its minimum-coordinate end. */
  datatype Piece = Piece(size: nat, location: Tile, direction: Direction, marked: bool)

  /** A slide of the piece whose location is `from`, by `steps` tiles.
      The shared destructor `from` is the source's `Move::get_tile`. */
  datatype Move =
    | Left(from: Tile, steps: nat)
    | Right(from: Tile, steps: nat)
    | Up(from: Tile, steps: nat)
    | Down(from: Tile, steps: nat)

  /** A full snapshot of the puzzle. `isWon` and `occupiedTiles` are derived
      from the other fields when a board is built (see NewBoard); equality is
      structural over all six fields, as for the source's derived `Eq`. */
  datatype Board = Board(
    width: nat,
    height: nat,
    goal: Tile,
    isWon: bool,
    pieces: seq<Piece>,
    occupiedTiles: seq<Tile>)

  // ---------------------------------------------------------------------
  // Footprints
  // ---------------------------------------------------------------------

  /** Independent description of a footprint: `t` lies on the piece's axis
      within `size` tiles of its location. */
  predicate Covers(p: Piece, t: Tile) {
    match p.direction
    case Horizontal => t.1 == p.location.1 && p.location.0 <= t.0 < p.location.0 + p.size
    case Vertical => t.0 == p.location.0 && p.location.1 <= t.1 < p.location.1 + p.size
  }

  /** Tile `i` of a piece's footprint, counted from its location along its
      axis. */
  function TileAt(p: Piece, i: nat): Tile {
    match p.direction
    case Horizontal => (p.location.0 + i, p.location.1)
    case Vertical => (p.location.0, p.location.1 + i)
  }

  /** The first `n` tiles of a piece's footprint, in order. */
  function Footprint(p: Piece, n: nat): (r: seq<Tile>)
    ensures |r| == n
  {
    if n == 0 then [] else Footprint(p, n - 1) + [TileAt(p, n - 1)]
  }

  /** The tiles a piece occupies, from its location outward (`Piece::occupies`). */
  function Occupies(p: Piece): (r: seq<Tile>)
    ensures |r| == p.size
  {
    Footprint(p, p.size)
  }

  lemma {:induction false} FootprintAt(p: Piece, n: nat, i: nat)
    requires i < n
    ensures Footprint(p, n)[i] == TileAt(p, i)
  {
    if i < n - 1 {
      FootprintAt(p, n - 1, i);
    }
  }

  /** Tile i of a footprint is the location shifted by i along the piece's
      axis, so it starts at the location; and it holds exactly the tiles the
      piece covers. */
  lemma OccupiesMeans(p: Piece)
    ensures forall i :: 0 <= i < p.size ==> Occupies(p)[i] == TileAt(p, i)
    ensures p.size > 0 ==> Occupies(p)[0] == p.location
    ensures forall t :: t in Occupies(p) <==> Covers(p, t)
  {
    forall i | 0 <= i < p.size ensures Occupies(p)[i] == TileAt(p, i) {
      FootprintAt(p, p.size, i);
    }
    forall t: Tile | Covers(p, t) ensures t in Occupies(p) {
      var i := if p.direction == Horizontal then t.0 - p.location.0 else t.1 - p.location.1;
      assert Occupies(p)[i] == t;
    }
  }

  /** Sum of the sizes of the pieces. */
  function TotalSize(pieces: seq<Piece>): nat {
    if pieces == [] then 0 else pieces[0].size + TotalSize(pieces[1..])
  }

  /** The footprints of all pieces, concatenated in piece order
      (`Board::occupied_tiles`). */
  function OccupiedTiles(pieces: seq<Piece>): (r: seq<Tile>)
    ensures |r| == TotalSize(pieces)
  {
    if pieces == [] then [] else Occupies(pieces[0]) + OccupiedTiles(pieces[1..])
  }

  /** A tile is listed as occupied exactly when some piece covers it. */
  lemma {:induction false} OccupiedTilesCover(pieces: seq<Piece>, t: Tile)
    ensures t in OccupiedTiles(pieces) <==> exists i :: 0 <= i < |pieces| && Covers(pieces[i], t)
  {
    if pieces != [] {
      OccupiesMeans(pieces[0]);
      OccupiedTilesCover(pieces[1..], t);
      if exists i :: 0 <= i < |pieces| && Covers(pieces[i], t) {
        var i :| 0 <= i < |pieces| && Covers(pieces[i], t);
        if i > 0 {
          assert pieces[1..][i - 1] == pieces[i];
        }
      }
      if exists i :: 0 <= i < |pieces| - 1 && Covers(pieces[1..][i], t) {
        var i :| 0 <= i < |pieces| - 1 && Covers(pieces[1..][i], t);
        assert pieces[i + 1] == pieces[1..][i];
      }
    }
  }

  /** Whether some marked piece has the goal in its footprint (the
      `find(..).is_some()` in `Board::new`). */
  function HasWinner(pieces: seq<Piece>, goal: Tile): bool {
    if pieces == [] then false
    else (pieces[0].marked && goal in Occupies(pieces[0])) || HasWinner(pieces[1..], goal)
  }

  /** A board is won exactly when some marked piece covers the goal anywhere
      in its footprint, not only at its leading edge. */
  lemma {:induction false} HasWinnerMeans(pieces: seq<Piece>, goal: Tile)
    ensures HasWinner(pieces, goal) <==>
      exists i :: 0 <= i < |pieces| && pieces[i].marked && Covers(pieces[i], goal)
  {
    if pieces != [] {
      OccupiesMeans(pieces[0]);
      HasWinnerMeans(pieces[1..], goal);
      if exists i :: 0 <= i < |pieces| && pieces[i].marked && Covers(pieces[i], goal) {
        var i :| 0 <= i < |pieces| && pieces[i].marked && Covers(pieces[i], goal);
        if i > 0 {
          assert pieces[1..][i - 1] == pieces[i];
        }
      }
      if exists i :: 0 <= i < |pieces| - 1 && pieces[1..][i].marked && Covers(pieces[1..][i], goal) {
        var i :| 0 <= i < |pieces| - 1 && pieces[1..][i].marked && Covers(pieces[1..][i], goal);
        assert pieces[i + 1] == pieces[1..][i];
      }
    }
  }

  /** `Board::new`: the derived fields are computed from the pieces. */
  function NewBoard(width: nat, height: nat, goal: Tile, pieces: seq<Piece>): (b: Board)
    ensures b.width == width && b.height == height && b.goal == goal && b.pieces == pieces
    ensures Consistent(b)
  {
    Board(width, height, goal, HasWinner(pieces, goal), pieces, OccupiedTiles(pieces))
  }

  /** The derived fields of `b` are those `Board::new` computes. */
  predicate Consistent(b: Board) {
    b.occupiedTiles == OccupiedTiles(b.pieces) && b.isWon == HasWinner(b.pieces, b.goal)
  }

  /** What the derived fields of a board built by `Board::new` mean: the
      occupied tiles number the sum of the sizes and are exactly the covered
      ones, and the board is won exactly when a marked piece covers the goal. */
  lemma NewBoardMeans(width: nat, height: nat, goal: Tile, pieces: seq<Piece>, t: Tile)
    ensures |NewBoard(width, height, goal, pieces).occupiedTiles| == TotalSize(pieces)
    ensures t in NewBoard(width, height, goal, pieces).occupiedTiles <==>
      exists i :: 0 <= i < |pieces| && Covers(pieces[i], t)
    ensures NewBoard(width, height, goal, pieces).isWon <==>
      exists i :: 0 <= i < |pieces| && pieces[i].marked && Covers(pieces[i], goal)
  {
    OccupiedTilesCover(pieces, t);
    HasWinnerMeans(pieces, goal);
  }

  // ---------------------------------------------------------------------
  // Occupancy
  // ---------------------------------------------------------------------

  /** The tiles of a board: the `width` by `height` grid anchored at (0, 0). */
  ghost function Grid(b: Board): set<Tile> {
    set x: nat, y: nat | x < b.width && y < b.height :: (x, y)
  }

  /** `Board::tile_exists`: the tile is one of the board's grid tiles. */
  predicate TileExists(b: Board, t: Tile): (r: bool)
    ensures r <==> t in Grid(b)
  {
    t.0 < b.width && t.1 < b.height
  }

  /** `Board::empty_tile`: on the board and not listed as occupied. */
  function EmptyTile(b: Board, t: Tile): (r: bool)
    ensures r ==> t.0 < b.width && t.1 < b.height
  {
    TileExists(b, t) && t !in b.occupiedTiles
  }

  /** On a consistent board a tile is empty exactly when it lies on the board
      and no piece covers it. */
  lemma EmptyTileMeans(b: Board, t: Tile)
    requires Consistent(b)
    ensures EmptyTile(b, t) <==>
      t.0 < b.width && t.1 < b.height && forall i :: 0 <= i < |b.pieces| ==> !Covers(b.pieces[i], t)
  {
    OccupiedTilesCover(b.pieces, t);
  }

  // ---------------------------------------------------------------------
  // Well-formed boards: the unchecked input assumption of the source
  // ---------------------------------------------------------------------

  ghost predicate OnBoard(b: Board, p: Piece) {
    forall t :: Covers(p, t) ==> TileExists(b, t)
  }

  ghost predicate Disjoint(p: Piece, q: Piece) {
    forall t :: !(Covers(p, t) && Covers(q, t))
  }

  /** Derived fields are consistent, every piece has a positive size and lies
      on the board, and no two pieces overlap. */
  ghost predicate WellFormed(b: Board) {
    && Consistent(b)
    && (forall i :: 0 <= i < |b.pieces| ==> b.pieces[i].size >= 1 && OnBoard(b, b.pieces[i]))
    && (forall i, j :: 0 <= i < |b.pieces| && 0 <= j < |b.pieces| && i != j ==>
          Disjoint(b.pieces[i], b.pieces[j]))
  }

  // ---------------------------------------------------------------------
  // Move generation (`Board::all_moves`)
  // ---------------------------------------------------------------------

  /** The four probing directions: West = Left, East = Right,
      North = Up, South = Down. */
  datatype Heading = West | East | North | South

  /** The move sliding the piece at `from` toward `h` by `steps`. */
  function MoveToward(h: Heading, from: Tile, steps: nat): (m: Move)
    ensures m.from == from && m.steps == steps
  {
    match h
    case West => Left(from, steps)
    case East => Right(from, steps)
    case North => Up(from, steps)
    case South => Down(from, steps)
  }

  /** Headings that move a piece along its own axis. */
  predicate Along(h: Heading, d: Direction) {
    (h == West || h == East) <==> d == Horizontal
  }

  /** The tile `i` steps beyond the end of `p` that faces `h`; None when the
      probe would pass coordinate 0 (the `start < i` guards). */
  function ProbeTile(p: Piece, h: Heading, i: nat): Option<Tile>
    requires i >= 1
  {
    var (x, y) := p.location;
    match h
    case East => Some((x + p.size - 1 + i, y))
    case West => if x < i then None else Some((x - i, y))
    case North => if y < i then None else Some((x, y - i))
    case South => Some((x, y + p.size - 1 + i))
  }

  /** Step `i` toward `h` is free: the probed tile exists and is empty. */
  predicate Open(b: Board, p: Piece, h: Heading, i: nat) {
    i >= 1 && ProbeTile(p, h, i).Some? && EmptyTile(b, ProbeTile(p, h, i).value)
  }

  /** A bound on how far a probe can get before leaving the board. */
  function Limit(b: Board, p: Piece, h: Heading): nat {
    match h
    case East => b.width + 1
    case South => b.height + 1
    case West => p.location.0 + 1
    case North => p.location.1 + 1
  }

  /** A move leaves no negative coordinate: Left and Up never slide by more
      than the coordinate they decrease. */
  predicate NoUnderflow(m: Move) {
    match m
    case Left(t, s) => s <= t.0
    case Up(t, s) => s <= t.1
    case _ => true
  }

  lemma OpenBelowLimit(b: Board, p: Piece, h: Heading, i: nat)
    requires Open(b, p, h, i)
    ensures i < Limit(b, p, h)
  {
    var t := ProbeTile(p, h, i).value;
    assert t.0 < b.width && t.1 < b.height;
    match h
    case East => assert t.0 == p.location.0 + p.size - 1 + i;
    case South => assert t.1 == p.location.1 + p.size - 1 + i;
    case West =>
    case North =>
  }

  /** The moves one probing loop emits, from step `i` on: one move per free
      step, stopping at the first blocked or missing tile. */
  function Run(b: Board, p: Piece, h: Heading, i: nat): (r: seq<Move>)
    requires i >= 1
    decreases Limit(b, p, h) - i
  {
    if Open(b, p, h, i) then
      OpenBelowLimit(b, p, h, i);
      [MoveToward(h, p.location, i)] + Run(b, p, h, i + 1)
    else []
  }

  /** The heading a piece is probed toward first: Right for a horizontal
      piece, Up for a vertical one. */
  function FirstHeading(p: Piece): Heading {
    if p.direction == Horizontal then East else North
  }

  /** The heading a piece is probed toward second: Left for a horizontal
      piece, Down for a vertical one. */
  function SecondHeading(p: Piece): Heading {
    if p.direction == Horizontal then West else South
  }

  /** The moves for one piece: Right then Left for a horizontal piece, Up then
      Down for a vertical one. */
  function PieceMoves(b: Board, p: Piece): seq<Move>
  {
    Run(b, p, FirstHeading(p), 1) + Run(b, p, SecondHeading(p), 1)
  }

  /** The moves of a list of pieces, grouped piece by piece. */
  function MovesOf(b: Board, pieces: seq<Piece>): seq<Move>
  {
    if pieces == [] then [] else PieceMoves(b, pieces[0]) + MovesOf(b, pieces[1..])
  }

  /** The moves of `pieces` in one pass, the way the loops of `all_moves`
      run: probe the first piece toward its first heading step by step, then
      toward its second heading, then go on with the remaining pieces. */
  function Generate(b: Board, pieces: seq<Piece>): seq<Move>
    decreases |pieces|, 2, 0
  {
    if pieces == [] then [] else Continue(b, pieces, FirstHeading(pieces[0]), 1)
  }

  /** The rest of the pass from step `i` toward `h` of the first piece. */
  function Continue(b: Board, pieces: seq<Piece>, h: Heading, i: nat): seq<Move>
    requires pieces != [] && i >= 1
    requires h == FirstHeading(pieces[0]) || h == SecondHeading(pieces[0])
    decreases |pieces|, if h == FirstHeading(pieces[0]) then 1 else 0, Limit(b, pieces[0], h) - i
  {
    var p := pieces[0];
    if Open(b, p, h, i) then
      OpenBelowLimit(b, p, h, i);
      [MoveToward(h, p.location, i)] + Continue(b, pieces, h, i + 1)
    else if h == FirstHeading(p) then Continue(b, pieces, SecondHeading(p), 1)
    else Generate(b, pieces[1..])
  }

  /** The one-pass generation and the piece-by-piece grouping agree. `Moves`
      is defined by the one-pass form, which follows the loops' own order of
      work; the loop invariant of `AllMoves` is stated with `MovesOf`. */
  lemma {:induction false} GenerateAgrees(b: Board, pieces: seq<Piece>)
    ensures Generate(b, pieces) == MovesOf(b, pieces)
    decreases |pieces|, 2, 0
  {
    if pieces != [] {
      ContinueAgrees(b, pieces, FirstHeading(pieces[0]), 1);
    }
  }

  /** What the pass emits after the run of the first piece toward `h`. */
  function After(b: Board, pieces: seq<Piece>, h: Heading): seq<Move>
    requires pieces != []
  {
    (if h == FirstHeading(pieces[0]) then Run(b, pieces[0], SecondHeading(pieces[0]), 1) else [])
    + MovesOf(b, pieces[1..])
  }

  lemma {:induction false} ContinueAgrees(b: Board, pieces: seq<Piece>, h: Heading, i: nat)
    requires pieces != [] && i >= 1
    requires h == FirstHeading(pieces[0]) || h == SecondHeading(pieces[0])
    ensures Continue(b, pieces, h, i) == Run(b, pieces[0], h, i) + After(b, pieces, h)
    decreases |pieces|, if h == FirstHeading(pieces[0]) then 1 else 0, Limit(b, pieces[0], h) - i
  {
    var p := pieces[0];
    if Open(b, p, h, i) {
      OpenBelowLimit(b, p, h, i);
      ContinueAgrees(b, pieces, h, i + 1);
      ContinueOpen(b, pieces, h, i);
    } else if h == FirstHeading(p) {
      ContinueAgrees(b, pieces, SecondHeading(p), 1);
    } else {
      GenerateAgrees(b, pieces[1..]);
    }
  }

  lemma ContinueOpen(b: Board, pieces: seq<Piece>, h: Heading, i: nat)
    requires pieces != [] && i >= 1
    requires h == FirstHeading(pieces[0]) || h == SecondHeading(pieces[0])
    requires Open(b, pieces[0], h, i)
    requires Continue(b, pieces, h, i + 1) == Run(b, pieces[0], h, i + 1) + After(b, pieces, h)
    ensures Continue(b, pieces, h, i) == Run(b, pieces[0], h, i) + After(b, pieces, h)
  {
    RunOpen(b, pieces[0], h, i);
    ContinueStep(b, pieces, h, i);
    var step, run, after := [MoveToward(h, pieces[0].location, i)], Run(b, pieces[0], h, i + 1), After(b, pieces, h);
    assert step + (run + after) == (step + run) + after;
  }

  lemma RunOpen(b: Board, p: Piece, h: Heading, i: nat)
    requires i >= 1 && Open(b, p, h, i)
    ensures Run(b, p, h, i) == [MoveToward(h, p.location, i)] + Run(b, p, h, i + 1)
  {
  }

  lemma ContinueStep(b: Board, pieces: seq<Piece>, h: Heading, i: nat)
    requires pieces != [] && i >= 1
    requires h == FirstHeading(pieces[0]) || h == SecondHeading(pieces[0])
    requires Open(b, pieces[0], h, i)
    ensures Continue(b, pieces, h, i) == [MoveToward(h, pieces[0].location, i)] + Continue(b, pieces, h, i + 1)
  {
  }

  /** Every move `all_moves` produces, in its order. */
  function Moves(b: Board): (r: seq<Move>)
    ensures forall m {:trigger m in r} :: m in r ==> NoUnderflow(m) && m.steps >= 1
  {
    GenerateAgrees(b, b.pieces);
    MovesOfSound(b, b.pieces);
    Generate(b, b.pieces)
  }

  /** One of the `for i in 1..` loops of `all_moves`: pushes a move for each
      free step and breaks at the first step that is not. */
  method Probe(b: Board, p: Piece, h: Heading, moves: seq<Move>) returns (out: seq<Move>)
    ensures out == moves + Run(b, p, h, 1)
  {
    out := moves;
    var i := 1;
    while true
      invariant i >= 1
      invariant out + Run(b, p, h, i) == moves + Run(b, p, h, 1)
      decreases Limit(b, p, h) - i
    {
      if !Open(b, p, h, i) {
        break;
      }
      out := out + [MoveToward(h, p.location, i)];
      i := i + 1;
    }
  }

  /** `Board::all_moves`, with its loops. */
  method AllMoves(b: Board) returns (moves: seq<Move>)
    ensures moves == Moves(b)
  {
    moves := [];
    var n := 0;
    while n < |b.pieces|
      invariant n <= |b.pieces|
      invariant moves == MovesOf(b, b.pieces[..n])
    {
      var piece := b.pieces[n];
      ghost var before := moves;
      if piece.direction == Horizontal {
        moves := Probe(b, piece, East, moves);
        moves := Probe(b, piece, West, moves);
        PieceMovesSplit(b, piece, East, West, before, moves);
      } else {
        moves := Probe(b, piece, North, moves);
        moves := Probe(b, piece, South, moves);
        PieceMovesSplit(b, piece, North, South, before, moves);
      }
      MovesOfPrefix(b, n);
      n := n + 1;
    }
    assert b.pieces[..n] == b.pieces;
    GenerateAgrees(b, b.pieces);
  }

  lemma PieceMovesSplit(b: Board, p: Piece, first: Heading, second: Heading, before: seq<Move>, moves: seq<Move>)
    requires p.direction == Horizontal ==> first == East && second == West
    requires p.direction == Vertical ==> first == North && second == South
    requires moves == before + Run(b, p, first, 1) + Run(b, p, second, 1)
    ensures moves == before + PieceMoves(b, p)
  {
  }

  lemma MovesOfPrefix(b: Board, n: nat)
    requires n < |b.pieces|
    ensures MovesOf(b, b.pieces[..n + 1]) == MovesOf(b, b.pieces[..n]) + PieceMoves(b, b.pieces[n])
  {
    assert b.pieces[..n + 1] == b.pieces[..n] + [b.pieces[n]];
    MovesOfSnoc(b, b.pieces[..n], b.pieces[n]);
  }

  lemma {:induction false} MovesOfSnoc(b: Board, pieces: seq<Piece>, p: Piece)
    ensures MovesOf(b, pieces + [p]) == MovesOf(b, pieces) + PieceMoves(b, p)
  {
    if pieces == [] {
      assert MovesOf(b, [p]) == PieceMoves(b, p) + MovesOf(b, []);
    } else {
      assert (pieces + [p])[1..] == pieces[1..] + [p];
      MovesOfSnoc(b, pieces[1..], p);
    }
  }

  // ---------------------------------------------------------------------
  // What move generation emits
  // ---------------------------------------------------------------------

  /** A probing loop emits exactly the steps i, i+1, ..., k, where every one
      of them is free and step k+1 is the first that is not. */
  lemma {:induction false} RunIsMaximalPrefix(b: Board, p: Piece, h: Heading, i: nat) returns (k: nat)
    requires i >= 1
    ensures i <= k + 1
    ensures |Run(b, p, h, i)| == k + 1 - i
    ensures forall j :: 0 <= j < |Run(b, p, h, i)| ==> Run(b, p, h, i)[j] == MoveToward(h, p.location, i + j)
    ensures forall j :: i <= j <= k ==> Open(b, p, h, j)
    ensures !Open(b, p, h, k + 1)
    decreases Limit(b, p, h) - i
  {
    if Open(b, p, h, i) {
      OpenBelowLimit(b, p, h, i);
      k := RunIsMaximalPrefix(b, p, h, i + 1);
      var rest := Run(b, p, h, i + 1);
      assert Run(b, p, h, i) == [MoveToward(h, p.location, i)] + rest;
      forall j | 0 <= j < |Run(b, p, h, i)|
        ensures Run(b, p, h, i)[j] == MoveToward(h, p.location, i + j)
      {
        if j > 0 {
          assert Run(b, p, h, i)[j] == rest[j - 1];
        }
      }
    } else {
      k := i - 1;
    }
  }

  /** A move emitted by one probing loop slides the probed piece by a
      positive number of steps, all of them free. */
  lemma RunMember(b: Board, p: Piece, h: Heading, m: Move)
    requires m in Run(b, p, h, 1)
    ensures m.steps >= 1 && m == MoveToward(h, p.location, m.steps)
    ensures forall j :: 1 <= j <= m.steps ==> Open(b, p, h, j)
  {
    var k := RunIsMaximalPrefix(b, p, h, 1);
    var idx :| 0 <= idx < |Run(b, p, h, 1)| && Run(b, p, h, 1)[idx] == m;
    assert m == MoveToward(h, p.location, 1 + idx);
  }

  lemma PieceMember(b: Board, p: Piece, m: Move) returns (h: Heading)
    requires m in PieceMoves(b, p)
    ensures Along(h, p.direction) && m in Run(b, p, h, 1)
  {
    h := if m in Run(b, p, FirstHeading(p), 1) then FirstHeading(p) else SecondHeading(p);
  }

  lemma {:induction false} MovesOfMember(b: Board, pieces: seq<Piece>, m: Move) returns (i: nat)
    requires m in MovesOf(b, pieces)
    ensures i < |pieces| && m in PieceMoves(b, pieces[i])
  {
    if m in PieceMoves(b, pieces[0]) {
      i := 0;
    } else {
      var i' := MovesOfMember(b, pieces[1..], m);
      i := i' + 1;
    }
  }

  lemma {:induction false} MovesOfContains(b: Board, pieces: seq<Piece>, i: nat, m: Move)
    requires i < |pieces| && m in PieceMoves(b, pieces[i])
    ensures m in MovesOf(b, pieces)
  {
    if i > 0 {
      MovesOfContains(b, pieces[1..], i - 1, m);
    }
  }

  /** Every move emitted for a list of pieces slides by at least one step
      and never past coordinate 0. */
  lemma MovesOfSound(b: Board, pieces: seq<Piece>)
    ensures forall m :: m in MovesOf(b, pieces) ==> NoUnderflow(m) && m.steps >= 1
  {
    forall m | m in MovesOf(b, pieces) ensures NoUnderflow(m) && m.steps >= 1 {
      var i := MovesOfMember(b, pieces, m);
      var h := PieceMember(b, pieces[i], m);
      RunMember(b, pieces[i], h, m);
      assert Open(b, pieces[i], h, m.steps);
    }
  }

  /** Soundness of `all_moves`: every emitted move belongs to some piece,
      follows that piece's axis (Right/Left for a horizontal piece, Up/Down for
      a vertical one), and every tile it passes over was on the board and
      empty; a Left or Up move never exceeds the coordinate it decreases. */
  lemma MoveOrigin(b: Board, m: Move) returns (i: nat, h: Heading)
    requires m in Moves(b)
    ensures i < |b.pieces| && Along(h, b.pieces[i].direction)
    ensures m.steps >= 1 && m == MoveToward(h, b.pieces[i].location, m.steps)
    ensures NoUnderflow(m)
    ensures forall j :: 1 <= j <= m.steps ==> Open(b, b.pieces[i], h, j)
  {
    GenerateAgrees(b, b.pieces);
    i := MovesOfMember(b, b.pieces, m);
    h := PieceMember(b, b.pieces[i], m);
    RunMember(b, b.pieces[i], h, m);
  }

  /** Distinct pieces of a well-formed board sit at distinct locations. */
  lemma LocationsDistinct(b: Board, i: nat, j: nat)
    requires WellFormed(b) && i < |b.pieces| && j < |b.pieces| && i != j
    ensures b.pieces[i].location != b.pieces[j].location
  {
    var t := b.pieces[i].location;
    assert Covers(b.pieces[i], t);
    assert !(Covers(b.pieces[i], t) && Covers(b.pieces[j], t));
  }

  /** Completeness of `all_moves` on a well-formed board: sliding piece i
      along its axis by s steps is emitted exactly when s >= 1 and the s tiles
      beyond that end of the piece are all on the board and empty. */
  lemma MovesExact(b: Board, i: nat, h: Heading, s: nat)
    requires WellFormed(b) && i < |b.pieces| && Along(h, b.pieces[i].direction)
    ensures MoveToward(h, b.pieces[i].location, s) in Moves(b) <==>
      s >= 1 && forall j :: 1 <= j <= s ==> Open(b, b.pieces[i], h, j)
  {
    var p := b.pieces[i];
    var m := MoveToward(h, p.location, s);
    GenerateAgrees(b, b.pieces);
    if m in Moves(b) {
      var i', h' := MoveOrigin(b, m);
      if i' != i {
        LocationsDistinct(b, i, i');
      }
      assert h' == h by {
        assert MoveToward(h', p.location, s) == MoveToward(h, p.location, s);
      }
    }
    if s >= 1 && forall j :: 1 <= j <= s ==> Open(b, p, h, j) {
      var k := RunIsMaximalPrefix(b, p, h, 1);
      assert s <= k;
      assert Run(b, p, h, 1)[s - 1] == m;
      assert m in PieceMoves(b, p);
      MovesOfContains(b, b.pieces, i, m);
    }
  }

  // ---------------------------------------------------------------------
  // Playing and undoing a move
  // ---------------------------------------------------------------------

  /** Signed displacement of a move along x. */
  function Dx(m: Move): int {
    match m
    case Left(_, s) => 0 - s
    case Right(_, s) => s
    case _ => 0
  }

  /** Signed displacement of a move along y. */
  function Dy(m: Move): int {
    match m
    case Up(_, s) => 0 - s
    case Down(_, s) => s
    case _ => 0
  }

  /** Where the moved piece's location ends up. */
  function Destination(m: Move): (t: Tile)
    requires NoUnderflow(m)
    ensures t.0 == m.from.0 + Dx(m) && t.1 == m.from.1 + Dy(m)
  {
    var (x, y) := m.from;
    match m
    case Left(_, s) => (x - s, y)
    case Right(_, s) => (x + s, y)
    case Up(_, s) => (x, y - s)
    case Down(_, s) => (x, y + s)
  }

  /** The per-piece step of `play`: a piece whose location is the move's
      origin is shifted, any other piece is kept as it is. */
  function Relocate(p: Piece, m: Move): Piece
    requires NoUnderflow(m)
  {
    if p.location == m.from then p.(location := Destination(m)) else p
  }

  /** `q` is `p` after move `m`: only its location may change, and only when
      it is the move's origin, by the move's signed offset. */
  predicate Slid(p: Piece, q: Piece, m: Move) {
    && q.size == p.size && q.direction == p.direction && q.marked == p.marked
    && if p.location == m.from
       then q.location.0 == p.location.0 + Dx(m) && q.location.1 == p.location.1 + Dy(m)
       else q.location == p.location
  }

  /** The pieces after `m`, in the same order. */
  function RelocateAll(pieces: seq<Piece>, m: Move): (r: seq<Piece>)
    requires NoUnderflow(m)
    ensures |r| == |pieces|
  {
    if pieces == [] then [] else [Relocate(pieces[0], m)] + RelocateAll(pieces[1..], m)
  }

  lemma {:induction false} RelocateAllAt(pieces: seq<Piece>, m: Move, i: nat)
    requires NoUnderflow(m) && i < |pieces|
    ensures RelocateAll(pieces, m)[i] == Relocate(pieces[i], m)
  {
    if i > 0 {
      RelocateAllAt(pieces[1..], m, i - 1);
    }
  }

  /** `Board::play`. */
  function Play(b: Board, m: Move): (r: Board)
    requires NoUnderflow(m)
    ensures r.width == b.width && r.height == b.height && r.goal == b.goal
    ensures |r.pieces| == |b.pieces|
  {
    NewBoard(b.width, b.height, b.goal, RelocateAll(b.pieces, m))
  }

  /** What `play` does to each piece. */
  lemma PlayMeans(b: Board, m: Move)
    requires NoUnderflow(m)
    ensures forall i :: 0 <= i < |b.pieces| ==> Slid(b.pieces[i], Play(b, m).pieces[i], m)
  {
    forall i | 0 <= i < |b.pieces| ensures Slid(b.pieces[i], Play(b, m).pieces[i], m) {
      RelocateAllAt(b.pieces, m, i);
    }
  }

  /** The inverse move `undo` builds: same steps, opposite direction, starting
      where `m` ends. */
  function Reverse(m: Move): (r: Move)
    requires NoUnderflow(m)
    ensures NoUnderflow(r) && r.steps == m.steps
    ensures r.from == Destination(m) && Destination(r) == m.from
    ensures Dx(r) == -Dx(m) && Dy(r) == -Dy(m)
  {
    match m
    case Left((x, y), s) => Right((x - s, y), s)
    case Right((x, y), s) => Left((x + s, y), s)
    case Up((x, y), s) => Down((x, y - s), s)
    case Down((x, y), s) => Up((x, y + s), s)
  }

  /** `Board::undo`: every piece standing where `m` ends is put back where
      `m` started. */
  function Undo(b: Board, m: Move): (r: Board)
    requires NoUnderflow(m)
    ensures r.width == b.width && r.height == b.height && r.goal == b.goal
    ensures |r.pieces| == |b.pieces|
  {
    Play(b, Reverse(m))
  }

  /** What `undo` does to each piece. */
  lemma UndoMeans(b: Board, m: Move)
    requires NoUnderflow(m)
    ensures forall i :: 0 <= i < |b.pieces| ==>
      Undo(b, m).pieces[i] == if b.pieces[i].location == Destination(m)
                              then b.pieces[i].(location := m.from) else b.pieces[i]
  {
    PlayMeans(b, Reverse(m));
  }

  /** The moved piece leaves only its own old tiles and tiles the probe found
      empty covered. */
  lemma SlideFootprint(b: Board, p: Piece, h: Heading, s: nat, t: Tile)
    requires Along(h, p.direction) && s >= 1
    requires forall j :: 1 <= j <= s ==> Open(b, p, h, j)
    requires NoUnderflow(MoveToward(h, p.location, s))
    requires Covers(p.(location := Destination(MoveToward(h, p.location, s))), t)
    ensures Covers(p, t) || EmptyTile(b, t)
  {
    var (x, y) := p.location;
    if !Covers(p, t) {
      var j: nat;
      match h {
        case East => j := t.0 - (x + p.size - 1);
        case West => j := x - t.0;
        case North => j := y - t.1;
        case South => j := t.1 - (y + p.size - 1);
      }
      assert Open(b, p, h, j);
      assert ProbeTile(p, h, j) == Some(t);
    }
  }

  /** On a well-formed board, a generated move moves exactly one piece, and
      that piece ends up on tiles it covered or that were empty. */
  lemma MovedPiece(b: Board, m: Move) returns (i: nat)
    requires WellFormed(b) && m in Moves(b)
    ensures i < |b.pieces| && b.pieces[i].location == m.from
    ensures forall j :: 0 <= j < |b.pieces| && j != i ==>
      b.pieces[j].location != m.from && b.pieces[j].location != Destination(m)
    ensures forall t :: Covers(Relocate(b.pieces[i], m), t) ==> Covers(b.pieces[i], t) || EmptyTile(b, t)
  {
    var h;
    i, h := MoveOrigin(b, m);
    var p := b.pieces[i];
    var q := Relocate(p, m);
    forall t | Covers(q, t) ensures Covers(p, t) || EmptyTile(b, t) {
      SlideFootprint(b, p, h, m.steps, t);
    }
    assert Covers(q, Destination(m));
    EmptyTileMeans(b, Destination(m));
    forall j | 0 <= j < |b.pieces| && j != i
      ensures b.pieces[j].location != m.from && b.pieces[j].location != Destination(m)
    {
      LocationsDistinct(b, i, j);
      var pj := b.pieces[j];
      assert Covers(pj, pj.location);
      assert !(Covers(p, pj.location) && Covers(pj, pj.location));
    }
  }

  /** `play` keeps a board well formed when the move comes from `all_moves`. */
  lemma PlayKeepsWellFormed(b: Board, m: Move)
    requires WellFormed(b) && m in Moves(b)
    ensures WellFormed(Play(b, m))
  {
    var i := MovedPiece(b, m);
    var r := Play(b, m);
    PlayMeans(b, m);
    forall j | 0 <= j < |b.pieces| && j != i ensures r.pieces[j] == b.pieces[j] {
      assert Slid(b.pieces[j], r.pieces[j], m);
    }
    assert Slid(b.pieces[i], r.pieces[i], m);
    assert r.pieces[i] == Relocate(b.pieces[i], m);
    ReplacePiece(b, r, i);
  }

  /** Replacing one piece of a well-formed board by a piece of the same size
      whose new tiles were empty keeps the board well formed. */
  lemma ReplacePiece(b: Board, r: Board, i: nat)
    requires WellFormed(b) && Consistent(r) && r.width == b.width && r.height == b.height
    requires |r.pieces| == |b.pieces| && i < |b.pieces|
    requires forall j :: 0 <= j < |b.pieces| && j != i ==> r.pieces[j] == b.pieces[j]
    requires r.pieces[i].size == b.pieces[i].size
    requires forall t :: Covers(r.pieces[i], t) ==> Covers(b.pieces[i], t) || EmptyTile(b, t)
    ensures WellFormed(r)
  {
    forall j | 0 <= j < |r.pieces| ensures r.pieces[j].size >= 1 && OnBoard(r, r.pieces[j]) {
      forall t | Covers(r.pieces[j], t) ensures TileExists(r, t) {
        assert OnBoard(b, b.pieces[j]);
      }
    }
    forall j, k | 0 <= j < |r.pieces| && 0 <= k < |r.pieces| && j != k
      ensures Disjoint(r.pieces[j], r.pieces[k])
    {
      forall t ensures !(Covers(r.pieces[j], t) && Covers(r.pieces[k], t)) {
        EmptyTileMeans(b, t);
        assert Disjoint(b.pieces[j], b.pieces[k]);
      }
    }
  }

  /** `undo` inverts `play` for every move `all_moves` generates on a
      well-formed board. */
  lemma PlayUndo(b: Board, m: Move)
    requires WellFormed(b) && m in Moves(b)
    ensures Undo(Play(b, m), m) == b
  {
    var i := MovedPiece(b, m);
    var r := Play(b, m);
    var u := Undo(r, m);
    PlayMeans(b, m);
    UndoMeans(r, m);
    forall j | 0 <= j < |b.pieces| ensures u.pieces[j] == b.pieces[j] {
      assert Slid(b.pieces[j], r.pieces[j], m);
    }
    assert u.pieces == b.pieces;
  }

  // ---------------------------------------------------------------------
  // Successors (`Board::future_boards`)
  // ---------------------------------------------------------------------

  /** Each move paired with the board it produces, in order. */
  function Successors(b: Board, moves: seq<Move>): (r: seq<(Board, Move)>)
    requires forall m :: m in moves ==> NoUnderflow(m)
    ensures |r| == |moves|
  {
    if moves == [] then [] else [(Play(b, moves[0]), moves[0])] + Successors(b, moves[1..])
  }

  lemma {:induction false} SuccessorsAt(b: Board, moves: seq<Move>, k: nat)
    requires forall m :: m in moves ==> NoUnderflow(m)
    requires k < |moves|
    ensures moves[k] in moves && Successors(b, moves)[k] == (Play(b, moves[k]), moves[k])
  {
    if k > 0 {
      SuccessorsAt(b, moves[1..], k - 1);
    }
  }

  /** `Board::future_boards`: every generated move paired with the board it
      produces, in `all_moves` order. */
  function FutureBoards(b: Board): (r: seq<(Board, Move)>)
    ensures |r| == |Moves(b)|
  {
    Successors(b, Moves(b))
  }

  /** `Board::future_boards` as the source runs it: generate the moves, then
      pair each with the board it produces. */
  method ComputeFutureBoards(b: Board) returns (r: seq<(Board, Move)>)
    ensures r == FutureBoards(b)
  {
    var moves := AllMoves(b);
    r := Successors(b, moves);
  }

  lemma FutureBoardsAt(b: Board, k: nat)
    requires k < |FutureBoards(b)|
    ensures Moves(b)[k] in Moves(b) && FutureBoards(b)[k] == (Play(b, Moves(b)[k]), Moves(b)[k])
  {
    SuccessorsAt(b, Moves(b), k);
  }

  /** Every successor of a well-formed board is well formed, and undoing its
      move gives the board back. */
  lemma FutureBoardsUndo(b: Board, k: nat)
    requires WellFormed(b) && k < |FutureBoards(b)|
    ensures WellFormed(FutureBoards(b)[k].0)
    ensures NoUnderflow(FutureBoards(b)[k].1) && Undo(FutureBoards(b)[k].0, FutureBoards(b)[k].1) == b
  {
    var m := Moves(b)[k];
    FutureBoardsAt(b, k);
    PlayKeepsWellFormed(b, m);
    PlayUndo(b, m);
  }
}
