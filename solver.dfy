/** The breadth-first solver: a level-synchronised search over boards with a
    transposition table, and the walk back through that table that recovers
    the winning sequence of moves. */
module Solver {
  import opened Boards

  /** The transposition table: each discovered board mapped to the move that
      first produced it, the start board to None. */
  type Table = map<Board, Option<Move>>

  // ---------------------------------------------------------------------
  // Paths of generated moves
  // ---------------------------------------------------------------------

  /** Plays `path` from `b`, accepting at each point only a move that move
      generation offers there; None as soon as one is not offered. */
  function Walk(b: Board, path: seq<Move>): Option<Board>
    decreases |path|
  {
    if path == [] then Some(b)
    else if path[0] in Moves(b) then Walk(Play(b, path[0]), path[1..])
    else None
  }

  /** `c` is reached from `start` by exactly `k` generated moves. */
  ghost predicate ReachableIn(start: Board, k: nat, c: Board) {
    exists path :: |path| == k && Walk(start, path) == Some(c)
  }

  /** No board other than `start` that is reached by fewer than `n`
      generated moves is won. */
  ghost predicate NoWinBefore(start: Board, n: nat) {
    forall path :: |path| < n && Walk(start, path).Some? && Walk(start, path).value.isWon ==>
      Walk(start, path).value == start
  }

  /** Extending a path by one generated move. */
  lemma {:induction false} WalkSnoc(b: Board, path: seq<Move>, c: Board, m: Move)
    requires Walk(b, path) == Some(c) && m in Moves(c)
    ensures Walk(b, path + [m]) == Some(Play(c, m))
    decreases |path|
  {
    if path == [] {
      assert Walk(b, [m]) == Walk(Play(b, m), []);
    } else {
      assert (path + [m])[1..] == path[1..] + [m];
      WalkSnoc(Play(b, path[0]), path[1..], c, m);
    }
  }

  /** The last step of a non-empty path. */
  lemma {:induction false} WalkLast(b: Board, path: seq<Move>) returns (p: Board)
    requires |path| >= 1 && Walk(b, path).Some?
    ensures Walk(b, path[..|path| - 1]) == Some(p)
    ensures path[|path| - 1] in Moves(p) && Walk(b, path).value == Play(p, path[|path| - 1])
    decreases |path|
  {
    if |path| == 1 {
      p := b;
      assert path[..0] == [];
    } else {
      var init, rest := path[..|path| - 1], path[1..];
      p := WalkLast(Play(b, path[0]), rest);
      assert rest[..|rest| - 1] == init[1..];
      assert Walk(b, init) == Walk(Play(b, path[0]), init[1..]);
    }
  }

  // ---------------------------------------------------------------------
  // The transposition table
  // ---------------------------------------------------------------------

  /** Entry `c` (not the root) records a generated move `m` from a table board
      one level shallower that produced `c`; that board is `undo(c, m)`. */
  ghost predicate ParentLink(visited: Table, depth: map<Board, nat>, c: Board) {
    && c in visited && c in depth && visited[c].Some?
    && var m := visited[c].value;
       && NoUnderflow(m)
       && Undo(c, m) in visited && Undo(c, m) in depth
       && m in Moves(Undo(c, m))
       && Play(Undo(c, m), m) == c
       && depth[Undo(c, m)] + 1 == depth[c]
  }

  /** The table invariant: the root maps to None at depth 0, every other
      entry links to its parent, and every board in it is well formed.
      `depth` is a ghost ranking of the entries (the level that admitted them). */
  ghost predicate TableOk(start: Board, visited: Table, depth: map<Board, nat>) {
    && visited.Keys == depth.Keys
    && start in visited && visited[start] == None && depth[start] == 0
    && (forall c {:trigger WellFormed(c)} :: c in visited ==> WellFormed(c))
    && (forall c {:trigger ParentLink(visited, depth, c)} :: c in visited && c != start ==> ParentLink(visited, depth, c))
  }

  /** Every table entry is reached from the start by as many generated moves
      as its depth. */
  lemma {:induction false} TablePath(start: Board, visited: Table, depth: map<Board, nat>, c: Board)
    returns (path: seq<Move>)
    requires TableOk(start, visited, depth) && c in visited
    ensures |path| == depth[c] && Walk(start, path) == Some(c)
    decreases depth[c]
  {
    if c == start {
      path := [];
    } else {
      assert ParentLink(visited, depth, c);
      var m := visited[c].value;
      var p := Undo(c, m);
      var toParent := TablePath(start, visited, depth, p);
      WalkSnoc(start, toParent, p, m);
      path := toParent + [m];
    }
  }

  /** A parent link survives adding entries to the table. */
  lemma ParentLinkGrows(visited: Table, depth: map<Board, nat>, visited': Table, depth': map<Board, nat>, c: Board)
    requires ParentLink(visited, depth, c)
    requires forall d :: d in visited ==> d in visited' && visited'[d] == visited[d]
    requires forall d :: d in depth ==> d in depth' && depth'[d] == depth[d]
    ensures ParentLink(visited', depth', c)
  {
    var m := visited[c].value;
    assert Undo(c, m) in visited;
  }

  /** A generated move leads from a well-formed board to a well-formed board
      that `undo` takes back. */
  lemma StepBack(f: Board, m: Move)
    requires WellFormed(f) && m in Moves(f)
    ensures WellFormed(Play(f, m)) && Undo(Play(f, m), m) == f
  {
    PlayKeepsWellFormed(f, m);
    PlayUndo(f, m);
  }

  /** Admitting a successor `c` of a table board `f`, one level deeper than
      `f`, keeps the table invariant. */
  lemma Admit(start: Board, visited: Table, depth: map<Board, nat>, f: Board, m: Move, c: Board, d: nat)
    requires TableOk(start, visited, depth)
    requires f in visited && m in Moves(f) && c == Play(f, m) && c !in visited && d == depth[f] + 1
    ensures TableOk(start, visited[c := Some(m)], depth[c := d])
  {
    StepBack(f, m);
    AdmitLinks(start, visited, depth, c, Some(m), d);
  }

  lemma AdmitLinks(start: Board, visited: Table, depth: map<Board, nat>, c: Board, e: Option<Move>, d: nat)
    requires TableOk(start, visited, depth) && c !in visited
    requires WellFormed(c) && ParentLink(visited[c := e], depth[c := d], c)
    ensures TableOk(start, visited[c := e], depth[c := d])
  {
    var visited', depth' := visited[c := e], depth[c := d];
    forall x | x in visited' && x != start && x != c ensures ParentLink(visited', depth', x) {
      ParentLinkGrows(visited, depth, visited', depth', x);
    }
  }

  // ---------------------------------------------------------------------
  // Frontiers
  // ---------------------------------------------------------------------

  /** `g(x)` for every `x` of `xs`, concatenated in order. */
  function ConcatMap(g: Board -> seq<(Board, Move)>, xs: seq<Board>): seq<(Board, Move)> {
    if xs == [] then [] else g(xs[0]) + ConcatMap(g, xs[1..])
  }

  lemma {:induction false} ConcatMapSnoc(g: Board -> seq<(Board, Move)>, xs: seq<Board>, x: Board)
    ensures ConcatMap(g, xs + [x]) == ConcatMap(g, xs) + g(x)
  {
    if xs == [] {
      assert ConcatMap(g, [x]) == g(x) + ConcatMap(g, []);
    } else {
      assert (xs + [x])[1..] == xs[1..] + [x];
      ConcatMapSnoc(g, xs[1..], x);
    }
  }

  lemma ConcatMapPrefix(g: Board -> seq<(Board, Move)>, xs: seq<Board>, k: nat)
    requires k < |xs|
    ensures ConcatMap(g, xs[..k + 1]) == ConcatMap(g, xs[..k]) + g(xs[k])
  {
    assert xs[..k + 1] == xs[..k] + [xs[k]];
    ConcatMapSnoc(g, xs[..k], xs[k]);
  }

  /** Every element of the concatenation comes from some `g(xs[i])`. */
  lemma {:induction false} ConcatMapSource(g: Board -> seq<(Board, Move)>, xs: seq<Board>, j: nat)
    returns (i: nat, k: nat)
    requires j < |ConcatMap(g, xs)|
    ensures i < |xs| && k < |g(xs[i])| && ConcatMap(g, xs)[j] == g(xs[i])[k]
  {
    if j < |g(xs[0])| {
      i, k := 0, j;
    } else {
      i, k := ConcatMapSource(g, xs[1..], j - |g(xs[0])|);
      i := i + 1;
    }
  }

  /** Every element of every `g(xs[i])` is in the concatenation. */
  lemma {:induction false} ConcatMapCovers(g: Board -> seq<(Board, Move)>, xs: seq<Board>, i: nat, k: nat)
    requires i < |xs| && k < |g(xs[i])|
    ensures g(xs[i])[k] in ConcatMap(g, xs)
  {
    if i > 0 {
      ConcatMapCovers(g, xs[1..], i - 1, k);
    }
  }

  /** The successors of every frontier board, in frontier order. */
  function Expand(frontier: seq<Board>): seq<(Board, Move)> {
    ConcatMap(FutureBoards, frontier)
  }

  lemma ExpandPrefix(frontier: seq<Board>, k: nat)
    requires k < |frontier|
    ensures Expand(frontier[..k + 1]) == Expand(frontier[..k]) + FutureBoards(frontier[k])
  {
    ConcatMapPrefix(FutureBoards, frontier, k);
  }

  lemma ExpandSingle(f: Board)
    ensures Expand([f]) == FutureBoards(f)
  {
    assert [f][1..] == [];
    assert ConcatMap(FutureBoards, [f][1..]) == [];
  }

  /** Each expanded pair is (play(f, m), m) for a frontier board f and a move
      m generated on it. */
  lemma ExpandSource(frontier: seq<Board>, j: nat) returns (f: Board)
    requires j < |Expand(frontier)|
    ensures f in frontier && Expand(frontier)[j].1 in Moves(f)
    ensures Expand(frontier)[j].0 == Play(f, Expand(frontier)[j].1)
  {
    var i, k := ConcatMapSource(FutureBoards, frontier, j);
    f := frontier[i];
    FutureBoardsAt(f, k);
  }

  /** Every generated move of every frontier board appears in the expansion. */
  lemma ExpandCovers(frontier: seq<Board>, f: Board, m: Move)
    requires f in frontier && m in Moves(f)
    ensures (Play(f, m), m) in Expand(frontier)
  {
    var i :| 0 <= i < |frontier| && frontier[i] == f;
    var k :| 0 <= k < |Moves(f)| && Moves(f)[k] == m;
    FutureBoardsAt(f, k);
    ConcatMapCovers(FutureBoards, frontier, i, k);
  }

  /** The first components of a sequence of pairs. */
  function Firsts(pairs: seq<(Board, Move)>): (r: seq<Board>)
    ensures |r| == |pairs| && forall k :: 0 <= k < |pairs| ==> r[k] == pairs[k].0
  {
    if pairs == [] then [] else [pairs[0].0] + Firsts(pairs[1..])
  }

  // ---------------------------------------------------------------------
  // The level invariant of the search
  // ---------------------------------------------------------------------

  /** Every board reached by at most `level` generated moves is in the
      table, at a depth no larger than the length of the path. */
  ghost predicate Complete(start: Board, depth: map<Board, nat>, level: nat) {
    forall path :: |path| <= level && Walk(start, path).Some? ==>
      Walk(start, path).value in depth && depth[Walk(start, path).value] <= |path|
  }

  /** The state at the head of the search loop after `level` levels:
      the table holds exactly the boards within `level` moves, the frontier
      is exactly the boards at depth `level`, and no board found so far
      (other than the start) is won. */
  ghost predicate LevelOk(start: Board, visited: Table, depth: map<Board, nat>, frontier: seq<Board>, level: nat) {
    && TableOk(start, visited, depth)
    && (forall c :: c in depth ==> depth[c] <= level)
    && (forall f :: f in frontier ==> f in depth && depth[f] == level)
    && (forall c :: c in depth && depth[c] == level ==> c in frontier)
    && (forall c :: c in visited && c != start ==> !c.isWon)
    && Complete(start, depth, level)
  }

  lemma InitialLevel(start: Board)
    requires WellFormed(start)
    ensures LevelOk(start, map[start := None], map[start := 0], [start], 0)
  {
    forall path | |path| <= 0 && Walk(start, path).Some?
      ensures Walk(start, path).value in map[start := 0]
    {
      assert path == [];
    }
  }

  /** At the head of the loop no board within `level` moves is won except
      possibly the start. */
  lemma NoWinWithinLevel(start: Board, visited: Table, depth: map<Board, nat>, frontier: seq<Board>, level: nat)
    requires LevelOk(start, visited, depth, frontier, level)
    ensures NoWinBefore(start, level + 1)
  {
  }

  /** A path one move longer than the levels searched so far ends on a board
      the new level put in the table (or one already there). */
  lemma ExtendComplete(
    start: Board, visited0: Table, depth0: map<Board, nat>, frontier: seq<Board>, level: nat,
    depth: map<Board, nat>, path: seq<Move>)
    requires TableOk(start, visited0, depth0) && Complete(start, depth0, level)
    requires forall c :: c in depth0 && depth0[c] == level ==> c in frontier
    requires forall c :: c in depth0 ==> c in depth && depth[c] == depth0[c]
    requires forall c :: c in depth ==> depth[c] <= level + 1
    requires forall k :: 0 <= k < |Expand(frontier)| ==> Expand(frontier)[k].0 in depth
    requires |path| == level + 1 && Walk(start, path).Some?
    ensures Walk(start, path).value in depth && depth[Walk(start, path).value] <= |path|
  {
    var p := WalkLast(start, path);
    var m := path[level];
    assert path[..level] == path[..|path| - 1];
    if depth0[p] == level {
      NewFromFrontier(frontier, depth, p, m);
    } else {
      var toC := PathThrough(start, visited0, depth0, p, m);
      assert |toC| <= level;
    }
  }

  /** A successor of a frontier board is among the expanded boards. */
  lemma NewFromFrontier(frontier: seq<Board>, depth: map<Board, nat>, p: Board, m: Move)
    requires p in frontier && m in Moves(p)
    requires forall k :: 0 <= k < |Expand(frontier)| ==> Expand(frontier)[k].0 in depth
    ensures Play(p, m) in depth
  {
    ExpandCovers(frontier, p, m);
    var k :| 0 <= k < |Expand(frontier)| && Expand(frontier)[k] == (Play(p, m), m);
  }

  /** A successor of a table board is reached from the start by one move
      more than that board's depth. */
  lemma PathThrough(start: Board, visited: Table, depth: map<Board, nat>, p: Board, m: Move)
    returns (path: seq<Move>)
    requires TableOk(start, visited, depth) && p in visited && m in Moves(p)
    ensures |path| == depth[p] + 1 && Walk(start, path) == Some(Play(p, m))
  {
    var toP := TablePath(start, visited, depth, p);
    WalkSnoc(start, toP, p, m);
    path := toP + [m];
  }

  /** One level of the search re-establishes the level invariant one level
      deeper. `visited0`/`depth0` are the table before the level and
      `survivors` the pairs the filter step kept from `Expand(frontier)`. */
  lemma NextLevel(
    start: Board, visited0: Table, depth0: map<Board, nat>, frontier: seq<Board>, level: nat,
    survivors: seq<(Board, Move)>, visited: Table, depth: map<Board, nat>)
    requires LevelOk(start, visited0, depth0, frontier, level)
    requires TableOk(start, visited, depth)
    requires Filtered(visited0, depth0, level, Expand(frontier), |Expand(frontier)|, survivors, visited, depth)
    requires forall k :: 0 <= k < |survivors| ==> !survivors[k].0.isWon
    ensures LevelOk(start, visited, depth, Firsts(survivors), level + 1)
  {
    NextComplete(start, visited0, depth0, frontier, level, depth);
  }

  /** Every board within one more move than the levels searched so far is
      in the grown table. */
  lemma NextComplete(
    start: Board, visited0: Table, depth0: map<Board, nat>, frontier: seq<Board>, level: nat,
    depth: map<Board, nat>)
    requires TableOk(start, visited0, depth0) && Complete(start, depth0, level)
    requires forall c :: c in depth0 && depth0[c] == level ==> c in frontier
    requires forall c :: c in depth0 ==> c in depth && depth[c] == depth0[c]
    requires forall c :: c in depth ==> depth[c] <= level + 1
    requires forall k :: 0 <= k < |Expand(frontier)| ==> Expand(frontier)[k].0 in depth
    ensures Complete(start, depth, level + 1)
  {
    forall path | |path| <= level + 1 && Walk(start, path).Some?
      ensures Walk(start, path).value in depth && depth[Walk(start, path).value] <= |path|
    {
      if |path| == level + 1 {
        ExtendComplete(start, visited0, depth0, frontier, level, depth, path);
      }
    }
  }

  /** A won board the filter step kept was reached by exactly `level + 1`
      moves, and no won board lies closer to the start. */
  lemma WonAtLevel(
    start: Board, visited0: Table, depth0: map<Board, nat>, frontier: seq<Board>, level: nat,
    survivors: seq<(Board, Move)>, visited: Table, depth: map<Board, nat>, k: nat)
    requires LevelOk(start, visited0, depth0, frontier, level)
    requires TableOk(start, visited, depth)
    requires Filtered(visited0, depth0, level, Expand(frontier), |Expand(frontier)|, survivors, visited, depth)
    requires k < |survivors|
    ensures survivors[k].0 in visited && depth[survivors[k].0] == level + 1
    ensures ReachableIn(start, level + 1, survivors[k].0)
    ensures NoWinBefore(start, level + 1)
  {
    var c := survivors[k].0;
    assert c == Firsts(survivors)[k];
    var path := TablePath(start, visited, depth, c);
    NoWinWithinLevel(start, visited0, depth0, frontier, level);
  }

  // ---------------------------------------------------------------------
  // solve
  // ---------------------------------------------------------------------

  /** The pairs of `boards`, in order, whose board is neither in `seen` nor
      the board of an earlier pair: what the filter step of `solve` keeps. */
  function KeepNew(boards: seq<(Board, Move)>, seen: set<Board>): seq<(Board, Move)> {
    if boards == [] then []
    else if boards[0].0 in seen then KeepNew(boards[1..], seen)
    else [boards[0]] + KeepNew(boards[1..], seen + {boards[0].0})
  }

  lemma KeepNewStep(boards: seq<(Board, Move)>, j: nat, seen: set<Board>)
    requires j < |boards|
    ensures KeepNew(boards[j..], seen) ==
      if boards[j].0 in seen then KeepNew(boards[j + 1..], seen)
      else [boards[j]] + KeepNew(boards[j + 1..], seen + {boards[j].0})
  {
    assert boards[j..][1..] == boards[j + 1..];
  }

  /** The filter step's progress: a pair whose board is new is kept and its
      board becomes seen. */
  lemma KeepNewKeep(boards: seq<(Board, Move)>, j: nat, survivors: seq<(Board, Move)>, visited: Table, kept: seq<(Board, Move)>)
    requires j < |boards| && boards[j].0 !in visited
    requires survivors + KeepNew(boards[j..], visited.Keys) == kept
    ensures (survivors + [boards[j]]) + KeepNew(boards[j + 1..], visited[boards[j].0 := Some(boards[j].1)].Keys) == kept
  {
    KeepNewStep(boards, j, visited.Keys);
    assert visited[boards[j].0 := Some(boards[j].1)].Keys == visited.Keys + {boards[j].0};
  }

  /** The filter step's progress: a pair whose board was seen is dropped. */
  lemma KeepNewSkip(boards: seq<(Board, Move)>, j: nat, survivors: seq<(Board, Move)>, visited: Table, kept: seq<(Board, Move)>)
    requires j < |boards| && boards[j].0 in visited
    requires survivors + KeepNew(boards[j..], visited.Keys) == kept
    ensures survivors + KeepNew(boards[j + 1..], visited.Keys) == kept
  {
    KeepNewStep(boards, j, visited.Keys);
  }

  /** Each kept pair is the first pair of `boards` carrying its board, and
      that board was not seen before: the move kept for a board is the move
      that first produced it. */
  lemma {:induction false} KeepNewFirst(boards: seq<(Board, Move)>, seen: set<Board>, k: nat) returns (j: nat)
    requires k < |KeepNew(boards, seen)|
    ensures j < |boards| && KeepNew(boards, seen)[k] == boards[j] && boards[j].0 !in seen
    ensures forall i :: 0 <= i < j ==> boards[i].0 != boards[j].0
  {
    var rest := boards[1..];
    if boards[0].0 in seen {
      var j' := KeepNewFirst(rest, seen, k);
      j := j' + 1;
      assert boards[j] == rest[j'];
      forall i | 0 <= i < j ensures boards[i].0 != boards[j].0 {
        if i > 0 {
          assert boards[i] == rest[i - 1];
        }
      }
    } else if k == 0 {
      j := 0;
    } else {
      var j' := KeepNewFirst(rest, seen + {boards[0].0}, k - 1);
      j := j' + 1;
      assert boards[j] == rest[j'];
      forall i | 0 <= i < j ensures boards[i].0 != boards[j].0 {
        if i > 0 {
          assert boards[i] == rest[i - 1];
        }
      }
    }
  }

  /** Every pair whose board was not seen before has its board kept. */
  lemma {:induction false} KeepNewCovers(boards: seq<(Board, Move)>, seen: set<Board>, j: nat) returns (k: nat)
    requires j < |boards| && boards[j].0 !in seen
    ensures k < |KeepNew(boards, seen)| && KeepNew(boards, seen)[k].0 == boards[j].0
  {
    var rest := boards[1..];
    if j == 0 || (boards[0].0 !in seen && boards[0].0 == boards[j].0) {
      k := 0;
    } else if boards[0].0 in seen {
      assert rest[j - 1] == boards[j];
      k := KeepNewCovers(rest, seen, j - 1);
    } else {
      assert rest[j - 1] == boards[j];
      var k' := KeepNewCovers(rest, seen + {boards[0].0}, j - 1);
      k := k' + 1;
    }
  }

  /** The bookkeeping of the filter step after the first `j` pairs of
      `boards`: the table grew only by boards one level deeper than `level`,
      which are exactly the boards of `survivors`, each entered with its
      move; every board among the first `j` pairs is now in the table. */
  ghost predicate Filtered(
    visited0: Table, depth0: map<Board, nat>, level: nat, boards: seq<(Board, Move)>, j: nat,
    survivors: seq<(Board, Move)>, visited: Table, depth: map<Board, nat>)
  {
    && j <= |boards|
    && Extends(visited0, depth0, visited, depth)
    && NewExactly(depth0, level, survivors, depth)
    && (forall k :: 0 <= k < j ==> boards[k].0 in depth)
    && Entered(survivors, visited)
  }

  /** The table and its depths keep every entry they started with. */
  ghost predicate Extends(visited0: Table, depth0: map<Board, nat>, visited: Table, depth: map<Board, nat>) {
    && visited.Keys == depth.Keys
    && forall c :: c in depth0 ==>
         c in depth && c in visited && c in visited0 && depth[c] == depth0[c] && visited[c] == visited0[c]
  }

  /** The boards added to the table are exactly the kept ones, one level
      below `level`. */
  ghost predicate NewExactly(depth0: map<Board, nat>, level: nat, survivors: seq<(Board, Move)>, depth: map<Board, nat>) {
    && (forall c :: c in depth && c !in depth0 ==> depth[c] == level + 1 && c in Firsts(survivors))
    && (forall c :: c in Firsts(survivors) ==> c in depth && c !in depth0)
  }

  /** Every kept board is in the table with the move it was kept with. */
  ghost predicate Entered(survivors: seq<(Board, Move)>, visited: Table) {
    forall k :: 0 <= k < |survivors| ==> survivors[k].0 in visited && visited[survivors[k].0] == Some(survivors[k].1)
  }

  /** A pair whose board the table already holds is dropped. */
  lemma FilterSkip(
    visited0: Table, depth0: map<Board, nat>, level: nat, boards: seq<(Board, Move)>, j: nat,
    survivors: seq<(Board, Move)>, visited: Table, depth: map<Board, nat>)
    requires Filtered(visited0, depth0, level, boards, j, survivors, visited, depth)
    requires j < |boards| && boards[j].0 in visited
    ensures Filtered(visited0, depth0, level, boards, j + 1, survivors, visited, depth)
  {
  }

  /** A pair whose board is new is entered in the table and kept. */
  lemma FilterKeep(
    visited0: Table, depth0: map<Board, nat>, level: nat, boards: seq<(Board, Move)>, j: nat,
    survivors: seq<(Board, Move)>, visited: Table, depth: map<Board, nat>)
    requires Filtered(visited0, depth0, level, boards, j, survivors, visited, depth)
    requires j < |boards| && boards[j].0 !in visited
    ensures Filtered(visited0, depth0, level, boards, j + 1, survivors + [boards[j]],
      visited[boards[j].0 := Some(boards[j].1)], depth[boards[j].0 := level + 1])
  {
    var (c, m) := boards[j];
    ExtendsKeep(visited0, depth0, visited, depth, c, m, level + 1);
    NewExactlyKeep(depth0, level, survivors, depth, boards[j]);
    EnteredKeep(survivors, visited, boards[j]);
  }

  lemma ExtendsKeep(visited0: Table, depth0: map<Board, nat>, visited: Table, depth: map<Board, nat>, c: Board, m: Move, d: nat)
    requires Extends(visited0, depth0, visited, depth) && c !in visited
    ensures Extends(visited0, depth0, visited[c := Some(m)], depth[c := d])
  {
  }

  lemma NewExactlyKeep(depth0: map<Board, nat>, level: nat, survivors: seq<(Board, Move)>, depth: map<Board, nat>, pair: (Board, Move))
    requires NewExactly(depth0, level, survivors, depth) && pair.0 !in depth
    requires forall c :: c in depth0 ==> c in depth
    ensures NewExactly(depth0, level, survivors + [pair], depth[pair.0 := level + 1])
  {
    assert Firsts(survivors + [pair]) == Firsts(survivors) + [pair.0];
  }

  lemma EnteredKeep(survivors: seq<(Board, Move)>, visited: Table, pair: (Board, Move))
    requires Entered(survivors, visited) && pair.0 !in visited
    ensures Entered(survivors + [pair], visited[pair.0 := Some(pair.1)])
  {
    var kept := survivors + [pair];
    forall k | 0 <= k < |kept|
      ensures kept[k].0 in visited[pair.0 := Some(pair.1)] && visited[pair.0 := Some(pair.1)][kept[k].0] == Some(kept[k].1)
    {
      if k < |survivors| {
        assert kept[k] == survivors[k];
      }
    }
  }

  /** Entering the `j`-th expanded board one level below the frontier keeps
      the table invariant. */
  lemma AdmitExpanded(
    start: Board, visited: Table, depth: map<Board, nat>, frontier: seq<Board>, level: nat, j: nat)
    requires TableOk(start, visited, depth)
    requires forall f :: f in frontier ==> f in depth && depth[f] == level
    requires j < |Expand(frontier)| && Expand(frontier)[j].0 !in visited
    ensures TableOk(start, visited[Expand(frontier)[j].0 := Some(Expand(frontier)[j].1)],
      depth[Expand(frontier)[j].0 := level + 1])
  {
    var f := ExpandSource(frontier, j);
    Admit(start, visited, depth, f, Expand(frontier)[j].1, Expand(frontier)[j].0, level + 1);
  }

  /** What the finished filter step leaves: the old entries unchanged, every
      generated board in the table, and each kept pair a new board entered
      with its move. */
  lemma FilterDone(
    visited0: Table, depth0: map<Board, nat>, level: nat, boards: seq<(Board, Move)>,
    survivors: seq<(Board, Move)>, visited: Table, depth: map<Board, nat>)
    requires visited0.Keys == depth0.Keys
    requires Filtered(visited0, depth0, level, boards, |boards|, survivors, visited, depth)
    requires survivors == KeepNew(boards, visited0.Keys)
    ensures forall c :: c in visited0 ==> c in visited && visited[c] == visited0[c]
    ensures forall k :: 0 <= k < |boards| ==> boards[k].0 in visited
    ensures forall k :: 0 <= k < |survivors| ==>
      survivors[k] in boards && survivors[k].0 !in visited0 && visited[survivors[k].0] == Some(survivors[k].1)
  {
    forall k | 0 <= k < |survivors| ensures survivors[k] in boards && survivors[k].0 !in visited0 {
      var j := KeepNewFirst(boards, visited0.Keys, k);
    }
  }

  /** The filter step of `solve`: keeps, in order, the pairs whose board the
      table does not hold yet, entering each such board with its move one
      level deeper than the frontier it came from. A board generated twice
      in the same level is kept only the first time. */
  method Unseen(
    ghost start: Board, visited0: Table, ghost depth0: map<Board, nat>,
    boards: seq<(Board, Move)>, ghost frontier: seq<Board>, ghost level: nat)
    returns (survivors: seq<(Board, Move)>, visited: Table, ghost depth: map<Board, nat>)
    requires TableOk(start, visited0, depth0)
    requires forall f :: f in frontier ==> f in depth0 && depth0[f] == level
    requires boards == Expand(frontier)
    ensures TableOk(start, visited, depth)
    ensures Filtered(visited0, depth0, level, boards, |boards|, survivors, visited, depth)
    ensures forall c :: c in visited0 ==> c in visited && visited[c] == visited0[c]
    ensures forall k :: 0 <= k < |boards| ==> boards[k].0 in visited
    ensures forall k :: 0 <= k < |survivors| ==>
      survivors[k] in boards && survivors[k].0 !in visited0 && visited[survivors[k].0] == Some(survivors[k].1)
    ensures survivors == KeepNew(boards, visited0.Keys)
  {
    survivors, visited, depth := [], visited0, depth0;
    var j := 0;
    assert boards[0..] == boards;
    while j < |boards|
      invariant TableOk(start, visited, depth)
      invariant Filtered(visited0, depth0, level, boards, j, survivors, visited, depth)
      invariant survivors + KeepNew(boards[j..], visited.Keys) == KeepNew(boards, visited0.Keys)
    {
      var (board, mov) := boards[j];
      if board !in visited {
        KeepNewKeep(boards, j, survivors, visited, KeepNew(boards, visited0.Keys));
        AdmitExpanded(start, visited, depth, frontier, level, j);
        FilterKeep(visited0, depth0, level, boards, j, survivors, visited, depth);
        visited := visited[board := Some(mov)];
        depth := depth[board := level + 1];
        survivors := survivors + [(board, mov)];
      } else {
        KeepNewSkip(boards, j, survivors, visited, KeepNew(boards, visited0.Keys));
        FilterSkip(visited0, depth0, level, boards, j, survivors, visited, depth);
      }
      j := j + 1;
    }
    assert boards[j..] == [];
    FilterDone(visited0, depth0, level, boards, survivors, visited, depth);
  }

  /** The loop of `solve` over the kept pairs: stops at the first won board;
      otherwise collects the successors of every kept board, in order. */
  method ScanLevel(survivors: seq<(Board, Move)>) returns (won: Option<nat>, newBoards: seq<(Board, Move)>)
    ensures won.Some? ==> won.value < |survivors| && survivors[won.value].0.isWon
    ensures won.Some? ==> forall k :: 0 <= k < won.value ==> !survivors[k].0.isWon
    ensures won.None? ==> forall k :: 0 <= k < |survivors| ==> !survivors[k].0.isWon
    ensures won.None? ==> newBoards == Expand(Firsts(survivors))
  {
    newBoards := [];
    ghost var frontier := Firsts(survivors);
    var k := 0;
    while k < |survivors|
      invariant k <= |survivors|
      invariant newBoards == Expand(frontier[..k])
      invariant forall i :: 0 <= i < k ==> !survivors[i].0.isWon
    {
      var (board, _) := survivors[k];
      if board.isWon {
        return Some(k), newBoards;
      }
      var next := ComputeFutureBoards(board);
      ExpandPrefix(frontier, k);
      newBoards := newBoards + next;
      k := k + 1;
    }
    assert frontier[..k] == frontier;
    won := None;
  }

  /** `c` is the board of the first pair of `pairs` whose board is won. */
  ghost predicate FirstWon(pairs: seq<(Board, Move)>, c: Board) {
    exists k :: 0 <= k < |pairs| && pairs[k].0 == c && c.isWon && forall i :: 0 <= i < k ==> !pairs[i].0.isWon
  }

  /** One pass of the body of `solve`'s loop: filter the pairs generated from
      the frontier at depth `level` against the table, then scan the kept
      boards in order, stopping at the first won one or else generating the
      next level's pairs. */
  method SearchLevel(
    ghost start: Board, visited0: Table, ghost depth0: map<Board, nat>,
    boards: seq<(Board, Move)>, ghost frontier: seq<Board>, ghost level: nat)
    returns (won: Option<Board>, visited: Table, ghost depth: map<Board, nat>,
      newBoards: seq<(Board, Move)>, ghost next: seq<Board>)
    requires LevelOk(start, visited0, depth0, frontier, level)
    requires boards == Expand(frontier)
    ensures TableOk(start, visited, depth)
    ensures forall c :: c in visited0 ==> c in visited && visited[c] == visited0[c]
    ensures won.Some? ==>
      && won.value.isWon
      && won.value in visited && depth[won.value] == level + 1
      && ReachableIn(start, level + 1, won.value)
      && NoWinBefore(start, level + 1)
    ensures won.None? ==> LevelOk(start, visited, depth, next, level + 1) && newBoards == Expand(next)
    ensures won.Some? ==> FirstWon(KeepNew(boards, visited0.Keys), won.value)
    ensures won.None? ==> next == Firsts(KeepNew(boards, visited0.Keys))
  {
    var survivors;
    survivors, visited, depth := Unseen(start, visited0, depth0, boards, frontier, level);
    var found;
    found, newBoards := ScanLevel(survivors);
    if found.Some? {
      WonAtLevel(start, visited0, depth0, frontier, level, survivors, visited, depth, found.value);
      won, next := Some(survivors[found.value].0), [];
      assert survivors[found.value].0 == won.value;
    } else {
      NextLevel(start, visited0, depth0, frontier, level, survivors, visited, depth);
      won, next := None, Firsts(survivors);
    }
  }

  /** `solve` with a bound on the number of levels: the source loops forever
      when no won board is reachable; here None means "still searching after
      `maxLevels` levels". Returns the won board and the number of levels
      (`steps`), and the transposition table it built (the source fills a
      table its caller created empty). */
  method Solve(start: Board, maxLevels: nat)
    returns (outcome: Option<(Board, nat)>, visited: Table, ghost depth: map<Board, nat>)
    requires WellFormed(start)
    ensures TableOk(start, visited, depth)
    ensures outcome.Some? ==>
      && outcome.value.0.isWon
      && 1 <= outcome.value.1 <= maxLevels
      && outcome.value.0 in visited && depth[outcome.value.0] == outcome.value.1
      && ReachableIn(start, outcome.value.1, outcome.value.0)
      && NoWinBefore(start, outcome.value.1)
    ensures outcome.None? ==> NoWinBefore(start, maxLevels + 1)
  {
    var boards := ComputeFutureBoards(start);
    visited := map[start := None];
    depth := map[start := 0];
    var steps: nat := 0;
    ghost var frontier := [start];
    InitialLevel(start);
    ExpandSingle(start);
    while steps < maxLevels
      invariant steps <= maxLevels
      invariant LevelOk(start, visited, depth, frontier, steps)
      invariant boards == Expand(frontier)
      decreases maxLevels - steps
    {
      var won, newBoards;
      won, visited, depth, newBoards, frontier := SearchLevel(start, visited, depth, boards, frontier, steps);
      steps := steps + 1;
      if won.Some? {
        return Some((won.value, steps)), visited, depth;
      }
      boards := newBoards;
    }
    outcome := None;
    NoWinWithinLevel(start, visited, depth, frontier, steps);
  }

  // ---------------------------------------------------------------------
  // Recovering the winning moves from the table
  // ---------------------------------------------------------------------

  /** The moves of `path` in reverse order. */
  function Reversed(path: seq<Move>): (r: seq<Move>)
    ensures |r| == |path|
    ensures forall k :: 0 <= k < |path| ==> r[k] == path[|path| - 1 - k]
  {
    if path == [] then [] else Reversed(path[1..]) + [path[0]]
  }

  lemma ReversedSnoc(path: seq<Move>, m: Move)
    ensures Reversed(path + [m]) == [m] + Reversed(path)
  {
  }

  /** Going one entry back through the table: the parent recorded for a
      non-root entry, one level shallower, from which the recorded move
      leads back to where the walk was. */
  lemma HistoryStep(
    start: Board, visited: Table, depth: map<Board, nat>, board: Board, trail: seq<Move>, won: Board)
    requires TableOk(start, visited, depth) && board in visited && visited[board].Some?
    requires Walk(board, Reversed(trail)) == Some(won)
    ensures NoUnderflow(visited[board].value)
    ensures Undo(board, visited[board].value) in visited
    ensures depth[Undo(board, visited[board].value)] + 1 == depth[board]
    ensures Walk(Undo(board, visited[board].value), Reversed(trail + [visited[board].value])) == Some(won)
  {
    assert ParentLink(visited, depth, board);
    var m := visited[board].value;
    var parent := Undo(board, m);
    ReversedSnoc(trail, m);
    var path := [m] + Reversed(trail);
    assert path[0] == m && path[1..] == Reversed(trail);
    assert Walk(parent, path) == Walk(Play(parent, m), Reversed(trail));
  }

  /** The root is the only entry recorded with None. */
  lemma RootOnly(start: Board, visited: Table, depth: map<Board, nat>, c: Board)
    requires TableOk(start, visited, depth) && c in visited && visited[c] == None
    ensures c == start
  {
    assert c != start ==> ParentLink(visited, depth, c);
  }

  /** The reconstruction after `solve` returns: starting from the won board,
      push the move the table records for it and undo that move, until the
      entry recorded for the board is the root's None; then reverse the pushed
      moves. The result has as many moves as the won board's depth and plays
      from the start to the won board. */
  method History(ghost start: Board, visited: Table, ghost depth: map<Board, nat>, won: Board)
    returns (history: seq<Move>)
    requires TableOk(start, visited, depth) && won in visited
    ensures |history| == depth[won] && Walk(start, history) == Some(won)
  {
    var board := won;
    var trail: seq<Move> := [];
    while board in visited && visited[board].Some?
      invariant board in visited
      invariant |trail| + depth[board] == depth[won]
      invariant Walk(board, Reversed(trail)) == Some(won)
      decreases depth[board]
    {
      var m := visited[board].value;
      HistoryStep(start, visited, depth, board, trail, won);
      trail := trail + [m];
      board := Undo(board, m);
    }
    RootOnly(start, visited, depth, board);
    history := Reversed(trail);
  }

  /** The outcome of a solver run: the won board, the number of levels
      searched, and the moves that lead to it. */
  datatype Solution = Solution(board: Board, steps: nat, history: seq<Move>)

  /** `solve` followed by the reconstruction of the history. */
  method SolveWithHistory(start: Board, maxLevels: nat) returns (solution: Option<Solution>)
    requires WellFormed(start)
    ensures solution.Some? ==>
      && solution.value.board.isWon
      && 1 <= solution.value.steps <= maxLevels
      && |solution.value.history| == solution.value.steps
      && Walk(start, solution.value.history) == Some(solution.value.board)
      && NoWinBefore(start, solution.value.steps)
    ensures solution.None? ==> NoWinBefore(start, maxLevels + 1)
  {
    var outcome, visited, depth := Solve(start, maxLevels);
    if outcome.None? {
      return None;
    }
    var (board, steps) := outcome.value;
    var history := History(start, visited, depth, board);
    solution := Some(Solution(board, steps, history));
  }
}
