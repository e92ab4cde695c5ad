/**
 * d2symbols: a solver for a 3x3 grid puzzle whose cells show one of four
 * symbols, E, T, A and M.  Move k advances cell k and the rest of its row
 * and column by one symbol in the cycle E -> T -> A -> M -> E; the solver
 * searches breadth-first for a sequence of moves that makes every cell show
 * the goal symbol.  A grid is a string of 9 symbols, row by row.
 */
module D2Symbols {
  import opened GoBase
  import opened GoStrings

  /** `checkSymbol`: the four symbols. */
  predicate CheckSymbol(b: char) {
    b == 'E' || b == 'T' || b == 'A' || b == 'M'
  }

  /** `nextSymbol`: the symbol after `sym` in the cycle; any other byte panics (`None`). */
  function NextSymbol(sym: char): (r: Option<char>)
    ensures r.Some? <==> CheckSymbol(sym)
    ensures r.Some? ==> CheckSymbol(r.value) && r.value != sym
  {
    match sym
    case 'E' => Some('T')
    case 'T' => Some('A')
    case 'A' => Some('M')
    case 'M' => Some('E')
    case _ => None
  }

  function Step(c: char): (d: char)
    requires CheckSymbol(c)
    ensures CheckSymbol(d)
  {
    NextSymbol(c).value
  }

  /** `c` advanced `n` times. */
  function Cycle(c: char, n: nat): (d: char)
    requires CheckSymbol(c)
    ensures CheckSymbol(d)
  {
    if n == 0 then c else Step(Cycle(c, n - 1))
  }

  /** Four steps lead back to the start, and no fewer do: `c` comes back exactly every fourth step. */
  lemma {:induction false} CycleIdentity(c: char, n: nat)
    requires CheckSymbol(c)
    ensures Cycle(c, n) == c <==> n % 4 == 0
  {
    CycleMod4(c, n);
    assert Cycle(c, 1) == Step(c) && Cycle(c, 2) == Step(Step(c)) && Cycle(c, 3) == Step(Step(Step(c)));
  }

  lemma {:induction false} CycleMod4(c: char, n: nat)
    requires CheckSymbol(c)
    ensures Cycle(c, n) == Cycle(c, n % 4)
  {
    if n >= 4 {
      CycleMod4(c, n - 4);
      CycleAdd(c, n - 4, 4);
      assert Cycle(Cycle(c, n - 4), 4) == Cycle(c, n - 4) by {
        var d := Cycle(c, n - 4);
        assert Cycle(d, 4) == Step(Step(Step(Step(d))));
      }
    }
  }

  lemma {:induction false} CycleAdd(c: char, m: nat, n: nat)
    requires CheckSymbol(c)
    ensures Cycle(c, m + n) == Cycle(Cycle(c, m), n)
    decreases n
  {
    if n > 0 {
      CycleAdd(c, m, n - 1);
    }
  }

  /** Every byte of `s` is one of the four symbols. */
  predicate Symbols(s: string) {
    s == [] || (CheckSymbol(s[0]) && Symbols(s[1..]))
  }

  lemma {:induction false} SymbolsAt(s: string)
    ensures Symbols(s) <==> forall i :: 0 <= i < |s| ==> CheckSymbol(s[i])
  {
    if s != [] {
      SymbolsAt(s[1..]);
      assert forall i :: 1 <= i < |s| ==> s[i] == s[1..][i - 1];
    }
  }

  /** A grid: 9 symbols, row by row. */
  predicate ValidState(st: string) {
    |st| == 9 && Symbols(st)
  }

  /** The cells of a grid are symbols. */
  lemma ValidStateCells(st: string)
    ensures ValidState(st) <==> |st| == 9 && forall i :: 0 <= i < 9 ==> CheckSymbol(st[i])
  {
    SymbolsAt(st);
  }

  predicate ValidIndexes(indexes: seq<int>) {
    forall j :: 0 <= j < |indexes| ==> 0 <= indexes[j] < 9
  }

  /** The grid after advancing the cells listed in `indexes`, in order. */
  function AdvanceAll(st: string, indexes: seq<int>): (r: string)
    requires ValidState(st) && ValidIndexes(indexes)
    ensures ValidState(r)
  {
    if indexes == [] then st
    else
      var r := AdvanceAll(st, indexes[..|indexes| - 1]);
      var i := indexes[|indexes| - 1];
      ValidStateCells(r);
      var u := r[i := Step(r[i])];
      ValidStateCells(u);
      u
  }

  /**
   * A cell listed `n` times advances `n` symbols in the cycle; a cell not
   * listed keeps its symbol.
   */
  lemma {:induction false} AdvanceAllCells(st: string, indexes: seq<int>)
    requires ValidState(st) && ValidIndexes(indexes)
    ensures forall k :: 0 <= k < 9 ==>
      CheckSymbol(st[k]) && AdvanceAll(st, indexes)[k] == Cycle(st[k], multiset(indexes)[k])
    decreases |indexes|
  {
    ValidStateCells(st);
    if indexes != [] {
      var init := indexes[..|indexes| - 1];
      var i := indexes[|indexes| - 1];
      AdvanceAllCells(st, init);
      assert indexes == init + [i];
    }
  }

  /**
   * `advanceState`: advances the cells listed in `indexes` one after the
   * other, on a copy of the grid.
   */
  method AdvanceState(st: string, indexes: seq<int>) returns (r: string)
    requires ValidState(st) && ValidIndexes(indexes)
    ensures r == AdvanceAll(st, indexes)
  {
    r := st;
    for j := 0 to |indexes|
      invariant r == AdvanceAll(st, indexes[..j])
    {
      var i := indexes[j];
      assert indexes[..j + 1][..j] == indexes[..j];
      ValidStateCells(r);
      r := r[i := Step(r[i])];
    }
    assert indexes[..|indexes|] == indexes;
  }

  /** Cell `k` is in the row or the column of cell `e`. */
  predicate SameRowOrColumn(e: int, k: int) {
    e / 3 == k / 3 || e % 3 == k % 3
  }

  /** The cells each move advances, as `nextStates` lists them. */
  const Moves: seq<seq<int>> := [
    [0, 1, 2, 3, 6], [0, 1, 2, 4, 7], [0, 1, 2, 5, 8],
    [0, 3, 4, 5, 6], [1, 3, 4, 5, 7], [2, 3, 4, 5, 8],
    [0, 3, 6, 7, 8], [1, 4, 6, 7, 8], [2, 5, 6, 7, 8]]

  /** `k / 3` and `k % 3` of a cell, spelled out. */
  lemma RowColumn(k: int)
    requires 0 <= k < 9
    ensures k / 3 == (if k < 3 then 0 else if k < 6 then 1 else 2)
    ensures k % 3 == k - 3 * (k / 3)
  {
  }

  lemma CellsCount(m: seq<int>, k: int)
    requires |m| == 5
    ensures multiset(m)[k] == (if m[0] == k then 1 else 0) + (if m[1] == k then 1 else 0) +
      (if m[2] == k then 1 else 0) + (if m[3] == k then 1 else 0) + (if m[4] == k then 1 else 0)
  {
    assert m == [m[0]] + [m[1]] + [m[2]] + [m[3]] + [m[4]];
  }

  /** The moves of the top row list their row and column. */
  lemma MoveCellTop(e: int, k: int)
    requires 0 <= e < 3 && 0 <= k < 9
    ensures multiset(Moves[e])[k] == if SameRowOrColumn(e, k) then 1 else 0
  {
    CellsCount(Moves[e], k);
    RowColumn(e);
    RowColumn(k);
    if e == 0 { assert Moves[e] == [0, 1, 2, 3, 6]; }
    else if e == 1 { assert Moves[e] == [0, 1, 2, 4, 7]; }
    else { assert Moves[e] == [0, 1, 2, 5, 8]; }
  }

  /** The moves of the middle row list their row and column. */
  lemma MoveCellMiddle(e: int, k: int)
    requires 3 <= e < 6 && 0 <= k < 9
    ensures multiset(Moves[e])[k] == if SameRowOrColumn(e, k) then 1 else 0
  {
    CellsCount(Moves[e], k);
    RowColumn(e);
    RowColumn(k);
    if e == 3 { assert Moves[e] == [0, 3, 4, 5, 6]; }
    else if e == 4 { assert Moves[e] == [1, 3, 4, 5, 7]; }
    else { assert Moves[e] == [2, 3, 4, 5, 8]; }
  }

  /** The moves of the bottom row list their row and column. */
  lemma MoveCellBottom(e: int, k: int)
    requires 6 <= e < 9 && 0 <= k < 9
    ensures multiset(Moves[e])[k] == if SameRowOrColumn(e, k) then 1 else 0
  {
    CellsCount(Moves[e], k);
    RowColumn(e);
    RowColumn(k);
    if e == 6 { assert Moves[e] == [0, 3, 6, 7, 8]; }
    else if e == 7 { assert Moves[e] == [1, 4, 6, 7, 8]; }
    else { assert Moves[e] == [2, 5, 6, 7, 8]; }
  }

  /** Move `e` advances cell `e` and the rest of its row and its column: 5 cells, each once. */
  lemma MovesAreRowAndColumn(e: int)
    requires 0 <= e < 9
    ensures |Moves[e]| == 5
    ensures ValidIndexes(Moves[e])
    ensures forall k :: 0 <= k < 9 ==> multiset(Moves[e])[k] == if SameRowOrColumn(e, k) then 1 else 0
  {
    forall k | 0 <= k < 9
      ensures multiset(Moves[e])[k] == if SameRowOrColumn(e, k) then 1 else 0
    {
      if e < 3 { MoveCellTop(e, k); }
      else if e < 6 { MoveCellMiddle(e, k); }
      else { MoveCellBottom(e, k); }
    }
  }

  /** Cell `k` of the grid after move `e`. */
  function MovedCell(st: string, e: int, k: int): (c: char)
    requires ValidState(st) && 0 <= k < 9
    ensures CheckSymbol(c)
  {
    ValidStateCells(st);
    if SameRowOrColumn(e, k) then Step(st[k]) else st[k]
  }

  /** The grid after move `e`: `advanceState` on the cells `nextStates` lists for it. */
  function Move(st: string, e: int): (r: string)
    requires ValidState(st) && 0 <= e < 9
    ensures ValidState(r)
  {
    MovesAreRowAndColumn(e);
    AdvanceAll(st, Moves[e])
  }

  /** Move `e` advances the cells in the row and the column of `e` by one symbol; the others keep theirs. */
  lemma MoveCells(st: string, e: int)
    requires ValidState(st) && 0 <= e < 9
    ensures forall k :: 0 <= k < 9 ==> Move(st, e)[k] == MovedCell(st, e, k)
  {
    MovesAreRowAndColumn(e);
    AdvanceAllCells(st, Moves[e]);
    forall k | 0 <= k < 9
      ensures Move(st, e)[k] == MovedCell(st, e, k)
    {
      assert Cycle(st[k], 1) == Step(st[k]);
    }
  }

  /** The move `e` as `nextStates` performs it. */
  method AdvanceMove(st: string, e: int) returns (r: string)
    requires ValidState(st) && 0 <= e < 9
    ensures r == Move(st, e)
  {
    MovesAreRowAndColumn(e);
    r := AdvanceState(st, Moves[e]);
  }

  /** `nextStates`: the grid after each of the 9 moves, in order. */
  method NextStates(st: string) returns (states: seq<string>)
    requires ValidState(st)
    ensures |states| == 9 && forall e :: 0 <= e < 9 ==> states[e] == Move(st, e)
  {
    var s0 := AdvanceMove(st, 0);
    var s1 := AdvanceMove(st, 1);
    var s2 := AdvanceMove(st, 2);
    var s3 := AdvanceMove(st, 3);
    var s4 := AdvanceMove(st, 4);
    var s5 := AdvanceMove(st, 5);
    var s6 := AdvanceMove(st, 6);
    var s7 := AdvanceMove(st, 7);
    var s8 := AdvanceMove(st, 8);
    states := [s0, s1, s2, s3, s4, s5, s6, s7, s8];
  }

  predicate ValidMoves(moves: seq<int>) {
    forall j :: 0 <= j < |moves| ==> 0 <= moves[j] < 9
  }

  /** The grid after the moves, first to last. */
  function ApplyMoves(st: string, moves: seq<int>): (r: string)
    requires ValidState(st) && ValidMoves(moves)
    ensures ValidState(r)
    decreases |moves|
  {
    if moves == [] then st else ApplyMoves(Move(st, moves[0]), moves[1..])
  }

  /** Making the same move four times changes nothing. */
  lemma MoveFourTimes(st: string, e: int)
    requires ValidState(st) && 0 <= e < 9
    ensures ApplyMoves(st, [e, e, e, e]) == st
  {
    var s1 := Move(st, e);
    var s2 := Move(s1, e);
    var s3 := Move(s2, e);
    var s4 := Move(s3, e);
    assert [e, e, e, e][1..] == [e, e, e] && [e, e, e][1..] == [e, e] && [e, e][1..] == [e] && [e][1..] == [];
    assert ApplyMoves(st, [e, e, e, e]) == ApplyMoves(s1, [e, e, e]);
    assert ApplyMoves(s1, [e, e, e]) == ApplyMoves(s2, [e, e]);
    assert ApplyMoves(s2, [e, e]) == ApplyMoves(s3, [e]);
    assert ApplyMoves(s3, [e]) == ApplyMoves(s4, []) == s4;
    ValidStateCells(st);
    MoveCells(st, e);
    MoveCells(s1, e);
    MoveCells(s2, e);
    MoveCells(s3, e);
    forall k | 0 <= k < 9 ensures s4[k] == st[k] {
      if SameRowOrColumn(e, k) {
        assert s4[k] == Step(Step(Step(Step(st[k]))));
      }
    }
  }

  lemma {:induction false} ApplyMovesSnoc(st: string, moves: seq<int>, e: int)
    requires ValidState(st) && ValidMoves(moves) && 0 <= e < 9
    ensures ApplyMoves(st, moves + [e]) == Move(ApplyMoves(st, moves), e)
    decreases |moves|
  {
    if moves == [] {
      assert ([] + [e])[1..] == [];
    } else {
      assert (moves + [e])[1..] == moves[1..] + [e];
      ApplyMovesSnoc(Move(st, moves[0]), moves[1..], e);
    }
  }

  /** From a set of grids closed under every move, no sequence of moves leads out. */
  lemma {:induction false} ClosedReach(space: set<string>, st: string, moves: seq<int>)
    requires forall x :: x in space ==> ValidState(x)
    requires forall x, e :: x in space && 0 <= e < 9 ==> Move(x, e) in space
    requires st in space && ValidMoves(moves)
    ensures ApplyMoves(st, moves) in space
    decreases |moves|
  {
    if moves != [] {
      ClosedReach(space, Move(st, moves[0]), moves[1..]);
    }
  }

  function Reverse(s: seq<int>): (r: seq<int>)
    ensures |r| == |s| && forall k :: 0 <= k < |s| ==> r[k] == s[|s| - 1 - k]
  {
    seq(|s|, k requires 0 <= k < |s| => s[|s| - 1 - k])
  }

  /** `fmt.Sprintf("%v", xs)` for a slice of ints: `[1 2 3]`. */
  function FormatList(xs: seq<int>): string {
    "[" + JoinInts(xs) + "]"
  }

  function JoinInts(xs: seq<int>): string {
    if xs == [] then ""
    else if |xs| == 1 then FormatInt(xs[0])
    else FormatInt(xs[0]) + " " + JoinInts(xs[1..])
  }

  /** The moves, 1-indexed as displayed. */
  function OneIndexed(moves: seq<int>): (r: seq<int>)
    ensures |r| == |moves| && forall k :: 0 <= k < |moves| ==> r[k] == moves[k] + 1
  {
    seq(|moves|, k requires 0 <= k < |moves| => moves[k] + 1)
  }

  datatype Game = Game(start: string, goal: string)

  /** How a grid was first reached: from `prev` by move `edge`. */
  datatype Point = Point(prev: string, edge: int)

  /**
   * The search's bookkeeping for the move function `step`: `space` maps
   * every grid found so far to how it was reached (`None` for the start),
   * `enqueued` lists the grids in the order they were queued, and `rank`
   * numbers them so that a grid is always reached from one queued before it.
   */
  ghost predicate Explored(step: (string, int) -> string, start: string, space: map<string, Option<Point>>,
                           enqueued: seq<string>, rank: map<string, nat>) {
    start in space &&
    (forall x :: x in space <==> x in enqueued) &&
    (forall x :: x in space ==> x in rank && rank[x] < |enqueued|) &&
    (forall x :: x in space && space[x].None? ==> x == start) &&
    (forall x {:trigger space[x]} :: x in space && space[x].Some? ==>
       var p := space[x].value;
       p.prev in space && 0 <= p.edge < 9 && step(p.prev, p.edge) == x && rank[p.prev] < rank[x])
  }

  /** `Move` extended to every string and edge, so that it can be passed as a function value. */
  function MoveAny(st: string, e: int): (r: string)
    ensures ValidState(st) && 0 <= e < 9 ==> r == Move(st, e)
  {
    if ValidState(st) && 0 <= e < 9 then Move(st, e) else st
  }

  /** Every grid the search records from a valid start is a valid grid. */
  lemma {:induction false} RecordedValid(start: string, space: map<string, Option<Point>>,
                                         enqueued: seq<string>, rank: map<string, nat>, x: string)
    requires Explored(MoveAny, start, space, enqueued, rank) && ValidState(start) && x in space
    ensures ValidState(x)
    decreases rank[x]
  {
    if space[x].Some? {
      RecordedValid(start, space, enqueued, rank, space[x].value.prev);
    }
  }

  /**
   * The first loop of the path reconstruction in `solve`: follows the
   * recorded points back from `goal` to the start, collecting the edges last
   * move first.
   */
  method CollectEdges(start: string, goal: string, space: map<string, Option<Point>>,
                      ghost enqueued: seq<string>, ghost rank: map<string, nat>)
    returns (sq: seq<int>)
    requires Explored(MoveAny, start, space, enqueued, rank) && ValidState(start) && goal in space
    ensures ValidMoves(sq) && ApplyMoves(start, Reverse(sq)) == goal
  {
    sq := [];
    var cur := goal;
    var p := space[cur];
    RecordedValid(start, space, enqueued, rank, cur);
    while p.Some?
      invariant cur in space && p == space[cur] && ValidState(cur) && cur in rank
      invariant ValidMoves(sq) && ApplyMoves(cur, Reverse(sq)) == goal
      decreases rank[cur]
    {
      BackStep(start, space, enqueued, rank, cur);
      PrependMove(p.value.prev, p.value.edge, cur, sq, goal);
      sq := sq + [p.value.edge];
      cur := p.value.prev;
      p := space[cur];
    }
  }

  /** One step back along the recorded points: a valid grid, queued earlier, that the recorded move turns into `cur`. */
  lemma BackStep(start: string, space: map<string, Option<Point>>, enqueued: seq<string>, rank: map<string, nat>, cur: string)
    requires Explored(MoveAny, start, space, enqueued, rank) && ValidState(start)
    requires cur in space && space[cur].Some?
    ensures var p := space[cur].value;
      p.prev in space && p.prev in rank && cur in rank && rank[p.prev] < rank[cur] && ValidState(p.prev) &&
      0 <= p.edge < 9 && MoveAny(p.prev, p.edge) == cur
  {
    RecordedValid(start, space, enqueued, rank, space[cur].value.prev);
  }

  /** The move that reached `cur` goes in front of the moves that lead on from `cur`. */
  lemma PrependMove(x: string, e: int, cur: string, sq: seq<int>, goal: string)
    requires ValidState(x) && 0 <= e < 9 && MoveAny(x, e) == cur && ValidMoves(sq) && ApplyMoves(cur, Reverse(sq)) == goal
    ensures ValidMoves(sq + [e]) && ApplyMoves(x, Reverse(sq + [e])) == goal
  {
    assert Reverse(sq + [e]) == [e] + Reverse(sq);
    assert ([e] + Reverse(sq))[1..] == Reverse(sq);
  }

  /** The second loop: reverses the edges in place by swapping from both ends. */
  method ReverseInPlace(s: seq<int>) returns (r: seq<int>)
    ensures r == Reverse(s)
  {
    r := s;
    var n := |r|;
    var i := 0;
    while i < n / 2
      invariant 0 <= i <= n / 2 && |r| == n
      invariant forall k :: 0 <= k < i ==> r[k] == s[n - 1 - k] && r[n - 1 - k] == s[k]
      invariant forall k :: i <= k < n - i ==> r[k] == s[k]
    {
      r := r[i := r[n - i - 1]][n - i - 1 := r[i]];
      i := i + 1;
    }
  }

  /** The third loop: adds one to every edge for display. */
  method ShiftUp(s: seq<int>) returns (r: seq<int>)
    ensures r == OneIndexed(s)
  {
    r := s;
    for j := 0 to |r|
      invariant |r| == |s|
      invariant forall k :: 0 <= k < j ==> r[k] == s[k] + 1
      invariant forall k :: j <= k < |s| ==> r[k] == s[k]
    {
      r := r[j := r[j] + 1];
    }
  }

  /**
   * The path reconstruction of `solve`: the moves from the start to `goal`,
   * first to last, shown 1-indexed.
   */
  method Reconstruct(start: string, goal: string, space: map<string, Option<Point>>,
                     ghost enqueued: seq<string>, ghost rank: map<string, nat>)
    returns (shown: seq<int>, ghost moves: seq<int>)
    requires Explored(MoveAny, start, space, enqueued, rank) && ValidState(start) && goal in space
    ensures ValidMoves(moves) && ApplyMoves(start, moves) == goal && shown == OneIndexed(moves)
  {
    var sq := CollectEdges(start, goal, space, enqueued, rank);
    var forward := ReverseInPlace(sq);
    shown := ShiftUp(forward);
    moves := forward;
  }

  /** Recording a new grid `next`, reached from `st` by move `edge`, keeps the bookkeeping consistent. */
  lemma ExploredAdd(step: (string, int) -> string, start: string, space: map<string, Option<Point>>,
                    enqueued: seq<string>, rank: map<string, nat>, st: string, edge: int, next: string)
    requires Explored(step, start, space, enqueued, rank)
    requires st in space && 0 <= edge < 9 && next == step(st, edge) && next !in space
    ensures Explored(step, start, space[next := Some(Point(st, edge))], enqueued + [next],
                     rank[next := |enqueued|])
  {
    var space', enqueued' := space[next := Some(Point(st, edge))], enqueued + [next];
    forall x
      ensures x in space' <==> x in enqueued'
    {
      assert x in enqueued' <==> x in enqueued || x == next;
    }
  }

  /**
   * The invariant of the inner loop of `solve` after the first `edge` moves
   * from `st`: the bookkeeping grew from (`space`, `frontier`, `enqueued`) to
   * (`space'`, `frontier'`, `enqueued'`) by queueing new grids only, and the
   * grids after those moves are recorded.
   */
  ghost predicate Expanding(step: (string, int) -> string, start: string, st: string, nexts: seq<string>, edge: int,
                            space: map<string, Option<Point>>, frontier: seq<string>, enqueued: seq<string>,
                            space': map<string, Option<Point>>, frontier': seq<string>, enqueued': seq<string>,
                            rank': map<string, nat>) {
    Explored(step, start, space', enqueued', rank') && st in space' &&
    0 <= edge <= |nexts| &&
    |enqueued| <= |enqueued'| && enqueued'[..|enqueued|] == enqueued &&
    frontier' == frontier + enqueued'[|enqueued|..] &&
    space.Keys <= space'.Keys &&
    (forall e :: 0 <= e < edge ==> nexts[e] in space') &&
    (|enqueued'| == |enqueued| ==> space' == space && frontier' == frontier) &&
    (|enqueued'| > |enqueued| ==> enqueued'[|enqueued|] !in space)
  }

  /** Recording the grid after move `edge`, when it is new, keeps the inner loop's invariant. */
  lemma ExpandRecord(step: (string, int) -> string, start: string, st: string, nexts: seq<string>, edge: int,
                     space: map<string, Option<Point>>, frontier: seq<string>, enqueued: seq<string>,
                     space': map<string, Option<Point>>, frontier': seq<string>, enqueued': seq<string>,
                     rank': map<string, nat>)
    requires Expanding(step, start, st, nexts, edge, space, frontier, enqueued, space', frontier', enqueued', rank')
    requires edge < |nexts| && 0 <= edge < 9 && nexts[edge] == step(st, edge) && nexts[edge] !in space'
    ensures var next := nexts[edge];
      Expanding(step, start, st, nexts, edge + 1, space, frontier, enqueued,
                space'[next := Some(Point(st, edge))], frontier' + [next], enqueued' + [next],
                rank'[next := |enqueued'|])
  {
    var next := nexts[edge];
    ExploredAdd(step, start, space', enqueued', rank', st, edge, next);
    assert (enqueued' + [next])[|enqueued|..] == enqueued'[|enqueued|..] + [next];
    assert (enqueued' + [next])[..|enqueued|] == enqueued'[..|enqueued|];
  }

  /** Skipping a grid that is already recorded keeps the inner loop's invariant. */
  lemma ExpandSkip(step: (string, int) -> string, start: string, st: string, nexts: seq<string>, edge: int,
                   space: map<string, Option<Point>>, frontier: seq<string>, enqueued: seq<string>,
                   space': map<string, Option<Point>>, frontier': seq<string>, enqueued': seq<string>,
                   rank': map<string, nat>)
    requires Expanding(step, start, st, nexts, edge, space, frontier, enqueued, space', frontier', enqueued', rank')
    requires edge < |nexts| && nexts[edge] in space'
    ensures Expanding(step, start, st, nexts, edge + 1, space, frontier, enqueued, space', frontier', enqueued', rank')
  {
  }

  /**
   * The inner loop of `solve`: each of the 9 grids after `st` that is not yet
   * in `space` is recorded with how it was reached and queued at the back.
   */
  method Expand(ghost step: (string, int) -> string, start: string, st: string, nexts: seq<string>,
                space: map<string, Option<Point>>, frontier: seq<string>,
                ghost enqueued: seq<string>, ghost rank: map<string, nat>)
    returns (space': map<string, Option<Point>>, frontier': seq<string>,
             ghost enqueued': seq<string>, ghost rank': map<string, nat>)
    requires Explored(step, start, space, enqueued, rank) && st in space
    requires |nexts| == 9 && forall e :: 0 <= e < 9 ==> nexts[e] == step(st, e)
    ensures Expanding(step, start, st, nexts, 9, space, frontier, enqueued, space', frontier', enqueued', rank')
  {
    space', frontier', enqueued', rank' := space, frontier, enqueued, rank;
    for edge := 0 to 9
      invariant Expanding(step, start, st, nexts, edge, space, frontier, enqueued, space', frontier', enqueued', rank')
    {
      var next := nexts[edge];
      if next in space' {
        ExpandSkip(step, start, st, nexts, edge, space, frontier, enqueued, space', frontier', enqueued', rank');
        continue;
      }
      ExpandRecord(step, start, st, nexts, edge, space, frontier, enqueued, space', frontier', enqueued', rank');
      space' := space'[next := Some(Point(st, edge))];
      rank' := rank'[next := |enqueued'|];
      enqueued' := enqueued' + [next];
      frontier' := frontier' + [next];
    }
  }

  /** Every grid the search records is one of the finitely many grids. */
  lemma KeysAreGrids(start: string, space: map<string, Option<Point>>, enqueued: seq<string>, rank: map<string, nat>)
    requires Explored(MoveAny, start, space, enqueued, rank) && ValidState(start)
    ensures space.Keys <= Grids(|start|)
  {
    forall x | x in space.Keys
      ensures x in Grids(|start|)
    {
      RecordedValid(start, space, enqueued, rank, x);
      GridsHas(x);
    }
  }

  /**
   * When every move from every recorded grid leads to a recorded grid and
   * `goal` is not recorded, no sequence of moves leads from the start to it.
   */
  lemma Exhausted(start: string, goal: string, space: map<string, Option<Point>>,
                  enqueued: seq<string>, rank: map<string, nat>)
    requires Explored(MoveAny, start, space, enqueued, rank) && ValidState(start) && goal !in space
    requires forall i, e :: 0 <= i < |enqueued| && 0 <= e < 9 ==> MoveAny(enqueued[i], e) in space
    ensures forall m :: ValidMoves(m) ==> ApplyMoves(start, m) != goal
  {
    forall x | x in space.Keys
      ensures ValidState(x)
    {
      RecordedValid(start, space, enqueued, rank, x);
    }
    forall x, e | x in space.Keys && 0 <= e < 9
      ensures Move(x, e) in space.Keys
    {
      var i :| 0 <= i < |enqueued| && enqueued[i] == x;
      assert MoveAny(enqueued[i], e) in space;
    }
    forall m | ValidMoves(m)
      ensures ApplyMoves(start, m) != goal
    {
      ClosedReach(space.Keys, start, m);
    }
  }

  /**
   * The loop invariant of `solve`: the grids queued before `head` have been
   * dequeued, none of them is `goal`, and every move from them leads to a
   * recorded grid.
   */
  ghost predicate Searching(start: string, goal: string, space: map<string, Option<Point>>, frontier: seq<string>,
                            enqueued: seq<string>, rank: map<string, nat>, head: nat) {
    Explored(MoveAny, start, space, enqueued, rank) && ValidState(start) &&
    head <= |enqueued| && frontier == enqueued[head..] &&
    (forall i, e :: 0 <= i < head && 0 <= e < 9 ==> MoveAny(enqueued[i], e) in space) &&
    (forall i :: 0 <= i < head ==> enqueued[i] != goal)
  }

  /** One round of `solve`'s loop keeps its invariant. */
  lemma SearchStep(start: string, goal: string, head: nat, nexts: seq<string>,
                   space0: map<string, Option<Point>>, frontier0: seq<string>, enqueued0: seq<string>, rank0: map<string, nat>,
                   space: map<string, Option<Point>>, frontier: seq<string>, enqueued: seq<string>, rank: map<string, nat>)
    requires Searching(start, goal, space0, frontier0, enqueued0, rank0, head) && frontier0 != [] && frontier0[0] != goal
    requires Expanding(MoveAny, start, frontier0[0], nexts, 9, space0, frontier0[1..], enqueued0, space, frontier, enqueued, rank)
    requires |nexts| == 9 && forall e :: 0 <= e < 9 ==> nexts[e] == MoveAny(frontier0[0], e)
    ensures Searching(start, goal, space, frontier, enqueued, rank, head + 1)
  {
    assert enqueued[head + 1..] == enqueued0[head + 1..] + enqueued[|enqueued0|..];
    forall i | 0 <= i <= head
      ensures enqueued[i] == enqueued0[i]
    {
      assert enqueued[..|enqueued0|][i] == enqueued0[i];
    }
  }

  /**
   * One round of `solve`'s loop either records a new grid or leaves the
   * recorded grids and the rest of the queue alone.
   */
  lemma SearchProgress(start: string, st: string, nexts: seq<string>,
                       space0: map<string, Option<Point>>, frontier0: seq<string>, enqueued0: seq<string>,
                       space: map<string, Option<Point>>, frontier: seq<string>, enqueued: seq<string>, rank: map<string, nat>)
    requires ValidState(start)
    requires Expanding(MoveAny, start, st, nexts, 9, space0, frontier0, enqueued0, space, frontier, enqueued, rank)
    ensures Grids(|start|) - space.Keys < Grids(|start|) - space0.Keys ||
            (space.Keys == space0.Keys && frontier == frontier0)
  {
    if |enqueued| > |enqueued0| {
      KeysAreGrids(start, space, enqueued, rank);
      assert enqueued[|enqueued0|] in Grids(|start|) - space0.Keys;
    }
  }

  /**
   * `game.solve`: breadth-first search from `start`.  Each grid is queued at
   * most once; when `goal` is dequeued, the moves that led to it are shown
   * 1-indexed.  If the queue runs dry, no sequence of moves reaches `goal`.
   */
  method Solve(g: Game) returns (solution: string, ok: bool, ghost moves: seq<int>)
    requires ValidState(g.start) && ValidState(g.goal)
    ensures ok ==> ValidMoves(moves) && ApplyMoves(g.start, moves) == g.goal
    ensures ok ==> solution == FormatList(OneIndexed(moves))
    ensures !ok ==> solution == "" && forall m :: ValidMoves(m) ==> ApplyMoves(g.start, m) != g.goal
  {
    var space: map<string, Option<Point>> := map[g.start := None];
    var frontier: seq<string> := [g.start];
    ghost var enqueued: seq<string> := [g.start];
    ghost var rank: map<string, nat> := map[g.start := 0];
    ghost var head := 0;
    while |frontier| > 0
      invariant Searching(g.start, g.goal, space, frontier, enqueued, rank, head)
      decreases Grids(|g.start|) - space.Keys, |frontier|
    {
      ghost var (space0, frontier0, enqueued0, rank0) := (space, frontier, enqueued, rank);
      var st := frontier[0];
      frontier := frontier[1..];
      assert st == enqueued[head];
      if st == g.goal {
        var shown;
        shown, moves := Reconstruct(g.start, g.goal, space, enqueued, rank);
        return FormatList(shown), true, moves;
      }
      RecordedValid(g.start, space, enqueued, rank, st);
      var nexts := NextStates(st);
      space, frontier, enqueued, rank := Expand(MoveAny, g.start, st, nexts, space, frontier, enqueued, rank);
      SearchStep(g.start, g.goal, head, nexts, space0, frontier0, enqueued0, rank0, space, frontier, enqueued, rank);
      SearchProgress(g.start, st, nexts, space0, frontier0[1..], enqueued0, space, frontier, enqueued, rank);
      head := head + 1;
    }
    Exhausted(g.start, g.goal, space, enqueued, rank);
    return "", false, [];
  }

  /** All strings of `n` symbols: a finite set that bounds the search. */
  function Grids(n: nat): set<string>
  {
    if n == 0 then {[]}
    else set c, w | c in {'E', 'T', 'A', 'M'} && w in Grids(n - 1) :: [c] + w
  }

  lemma {:induction false} GridsHas(w: string)
    requires Symbols(w)
    ensures w in Grids(|w|)
    decreases |w|
  {
    if w != [] {
      GridsHas(w[1..]);
      assert w == [w[0]] + w[1..];
    }
  }

  /** What `parseInput` reports when it rejects its argument. */
  datatype ParseError =
    | NoColon
    | GoalNotSingleByte(goal: string)
    | BadGoalSymbol(sym: char)
    | StateLength(state: string)
    | BadStateSymbol(sym: char)

  /** Spaces removed, then upper-cased. */
  function Normalize(s: string): string {
    ToUpper(RemoveAll(s, ' '))
  }

  /** A string that starts with a symbol and a colon splits at that colon. */
  lemma SplitAfterSymbol(t: string)
    requires |t| >= 2 && CheckSymbol(t[0]) && t[1] == ':'
    ensures SplitN2(t, ":") == [t[..1], t[2..]]
  {
    assert At(t, 1, ":");
    assert !At(t, 0, ":") by {
      assert t[0..1] == [t[0]];
    }
  }

  /**
   * `parseInput`: `goal:state` after removing spaces and upper-casing.  The
   * goal must be one symbol and the state nine; the game's start is the
   * state and its goal is nine copies of the goal symbol.
   */
  method ParseInput(s: string) returns (r: Result<Game, ParseError>)
    ensures var t := Normalize(s);
      r.Ok? <==> |t| == 11 && CheckSymbol(t[0]) && t[1] == ':' && ValidState(t[2..])
    ensures var t := Normalize(s);
      r.Ok? ==> r.value.start == t[2..] && r.value.goal == seq(9, _ => t[0])
    ensures r.Ok? ==> ValidState(r.value.start) && ValidState(r.value.goal)
    ensures IndexOf(Normalize(s), ":").None? <==> r == Err(NoColon)
    ensures var parts := SplitN2(Normalize(s), ":");
      |parts| == 2 && |parts[0]| != 1 ==> r == Err(GoalNotSingleByte(parts[0]))
    ensures var parts := SplitN2(Normalize(s), ":");
      |parts| == 2 && |parts[0]| == 1 && !CheckSymbol(parts[0][0]) ==> r == Err(BadGoalSymbol(parts[0][0]))
    ensures var parts := SplitN2(Normalize(s), ":");
      |parts| == 2 && |parts[0]| == 1 && CheckSymbol(parts[0][0]) && |parts[1]| != 9 ==> r == Err(StateLength(parts[1]))
    ensures var parts := SplitN2(Normalize(s), ":");
      r.Err? && r.error.BadStateSymbol? ==> |parts| == 2 && |parts[1]| == 9 && !ValidState(parts[1])
  {
    var t := Normalize(s);
    var parts := SplitN2(t, ":");
    if |t| >= 2 && CheckSymbol(t[0]) && t[1] == ':' {
      SplitAfterSymbol(t);
    }
    if |parts| != 2 {
      return Err(NoColon);
    }
    if |parts[0]| != 1 {
      return Err(GoalNotSingleByte(parts[0]));
    }
    if !CheckSymbol(parts[0][0]) {
      return Err(BadGoalSymbol(parts[0][0]));
    }
    if |parts[1]| != 9 {
      return Err(StateLength(parts[1]));
    }
    for i := 0 to 9
      invariant forall k :: 0 <= k < i ==> CheckSymbol(parts[1][k])
    {
      if !CheckSymbol(parts[1][i]) {
        ValidStateCells(parts[1]);
        return Err(BadStateSymbol(parts[1][i]));
      }
    }
    ValidStateCells(parts[1]);
    var start := parts[1];
    var goal := "";
    for i := 0 to 9
      invariant goal == seq(i, _ => parts[0][0])
    {
      goal := goal + [parts[0][0]];
    }
    ValidStateCells(goal);
    assert t == parts[0] + ":" + parts[1];
    return Ok(Game(start, goal));
  }
}
