/**
 * softdrink: a puzzle on a 4x4 grid of drink dispensers.  Pressing the
 * dispenser at `p` gives one drink at every cell of `p`'s row and column
 * (at `p` itself once), except at cells in the row or column of the
 * previous press.  The goal is to hand out exactly `goalNamed` drinks of
 * each kind with at most five distinct presses; the search is a recursive
 * backtracking that applies a press, recurses, and undoes the press when the
 * branch fails.
 *
 * `disp` is Go's `map[pos]int`, where a missing key reads as 0; the search is
 * specified on `Counts(disp)`, the 16 values the grid's cells read as, in
 * row-major order.
 */
module Softdrink {
  import opened GoBase

  datatype Pos = Pos(row: int, col: int)

  predicate InGrid(p: Pos) {
    0 <= p.row < 4 && 0 <= p.col < 4
  }

  /** The drink sold at each cell, row by row. */
  const Drinks: seq<string> := ["RINL", "KPSA", "YFTD", "EOCG"]

  function DrinkAt(p: Pos): char
    requires InGrid(p)
  {
    Drinks[p.row][p.col]
  }

  /** How many of each drink the puzzle wants; 'N' has no entry. */
  const GoalTable: map<char, int> := map[
    'R' := 1, 'I' := 2, 'L' := 2, 'K' := 1, 'P' := 2, 'S' := 1, 'A' := 2, 'Y' := 2,
    'F' := 3, 'T' := 2, 'D' := 1, 'E' := 1, 'O' := 2, 'C' := 1, 'G' := 2]

  /** `goalNamed[d]`: a drink without an entry reads as 0. */
  function GoalNamed(d: char): int {
    if d in GoalTable then GoalTable[d] else 0
  }

  /** The cell numbered `k` in row-major order. */
  function PosOf(k: int): (p: Pos)
    requires 0 <= k < 16
    ensures InGrid(p) && 4 * p.row + p.col == k
  {
    Pos(k / 4, k % 4)
  }

  lemma PosOfCell(r: int, c: int)
    requires 0 <= r < 4 && 0 <= c < 4
    ensures PosOf(4 * r + c) == Pos(r, c)
  {
  }

  /** The goal of each cell, in row-major order, as `init` fills it in. */
  const GoalCounts: seq<int> := [1, 2, 0, 2, 1, 2, 1, 2, 2, 3, 2, 1, 1, 2, 1, 2]

  /** The goal of the cell numbered `k`. */
  function Goal(k: int): int
    requires 0 <= k < 16
  {
    GoalCounts[k]
  }

  /** Each cell's goal is the wanted count of its drink. */
  lemma GoalOfDrink(k: int)
    requires 0 <= k < 16
    ensures Goal(k) == GoalNamed(DrinkAt(PosOf(k)))
  {
    var p := PosOf(k);
    assert p.row == 0 || p.row == 1 || p.row == 2 || p.row == 3;
  }

  /**
   * `init`: fills the `goal` map cell by cell with the wanted count of the
   * cell's drink.
   */
  method InitGoal() returns (goal: map<Pos, int>)
    ensures forall p :: p in goal <==> InGrid(p)
    ensures forall k :: 0 <= k < 16 ==> goal[PosOf(k)] == Goal(k)
  {
    goal := map[];
    for r := 0 to 4
      invariant forall p :: p in goal <==> InGrid(p) && p.row < r
      invariant forall p :: p in goal ==> goal[p] == GoalNamed(DrinkAt(p))
    {
      for c := 0 to 4
        invariant forall p :: p in goal <==> InGrid(p) && (p.row < r || (p.row == r && p.col < c))
        invariant forall p :: p in goal ==> goal[p] == GoalNamed(DrinkAt(p))
      {
        var d := Drinks[r][c];
        goal := goal[Pos(r, c) := GoalNamed(d)];
      }
    }
    forall k | 0 <= k < 16
      ensures goal[PosOf(k)] == Goal(k)
    {
      GoalOfDrink(k);
    }
  }

  /** The cell of 'N' is the one whose goal is 0: 'N' has no entry in the table. */
  lemma NoDrinkN()
    ensures DrinkAt(Pos(0, 2)) == 'N' && GoalNamed('N') == 0 && Goal(2) == 0
    ensures forall k :: 0 <= k < 16 && k != 2 ==> GoalNamed(DrinkAt(PosOf(k))) > 0
  {
    GoalOfDrink(2);
    forall k | 0 <= k < 16 && k != 2
      ensures GoalNamed(DrinkAt(PosOf(k))) > 0
    {
      var p := PosOf(k);
      assert DrinkAt(p) in GoalTable by {
        assert DrinkAt(p) in Drinks[p.row];
      }
    }
  }

  /** What the map `disp` reads at `p`. */
  function Get(disp: map<Pos, int>, p: Pos): int {
    if p in disp then disp[p] else 0
  }

  /** The values the 16 cells read as, in row-major order. */
  function Counts(disp: map<Pos, int>): (c: seq<int>)
    ensures |c| == 16 && forall k :: 0 <= k < 16 ==> c[k] == Get(disp, PosOf(k))
  {
    seq(16, k requires 0 <= k < 16 => Get(disp, PosOf(k)))
  }

  /** Some cell has more drinks than wanted. */
  predicate Over(c: seq<int>)
    requires |c| == 16
  {
    exists k :: 0 <= k < 16 && c[k] > Goal(k)
  }

  /** Every cell has exactly the drinks wanted. */
  predicate Solved(c: seq<int>)
    requires |c| == 16
  {
    forall k :: 0 <= k < 16 ==> c[k] == Goal(k)
  }

  /**
   * Pressing `p` after `prev` changes cell `q`: `q` is in `p`'s row or
   * column and in neither the row nor the column of `prev`.
   */
  predicate Hit(prev: Pos, p: Pos, q: Pos) {
    (q.col == p.col || q.row == p.row) && q.row != prev.row && q.col != prev.col
  }

  /** `c` with `delta` added at every cell that pressing `p` after `prev` changes. */
  function Shift(c: seq<int>, prev: Pos, p: Pos, delta: int): (r: seq<int>)
    requires |c| == 16
    ensures |r| == 16
  {
    seq(16, k requires 0 <= k < 16 => c[k] + (if Hit(prev, p, PosOf(k)) then delta else 0))
  }

  /** Undoing a press restores every count. */
  lemma ShiftUndo(c: seq<int>, prev: Pos, p: Pos)
    requires |c| == 16
    ensures Shift(Shift(c, prev, p, 1), prev, p, -1) == c
  {
  }

  /** A press changes at most 7 cells, each by one. */
  lemma ShiftChangesLine(c: seq<int>, prev: Pos, p: Pos, k: int)
    requires |c| == 16 && 0 <= k < 16
    ensures Shift(c, prev, p, 1)[k] - c[k] == (if Hit(prev, p, PosOf(k)) then 1 else 0)
    ensures Hit(prev, p, PosOf(k)) ==> PosOf(k).row == p.row || PosOf(k).col == p.col
  {
  }

  /** The previous press, or a position outside the grid before the first one. */
  function Prev(h: seq<Pos>): Pos {
    if h == [] then Pos(-1, -1) else h[|h| - 1]
  }

  /** The counts after the presses `ps`, made after `prev`. */
  function Replay(c: seq<int>, prev: Pos, ps: seq<Pos>): (r: seq<int>)
    requires |c| == 16
    ensures |r| == 16
    decreases |ps|
  {
    if ps == [] then c else Replay(Shift(c, prev, ps[0], 1), ps[0], ps[1..])
  }

  /**
   * What `solve` returns from counts `c` and presses `h`: nothing when a cell
   * is over its goal; `h` when every cell is at its goal (a nil slice, hence
   * no solution, when `h` is empty); nothing after five presses; otherwise
   * the first solution found by trying the unpressed cells in row-major order.
   */
  function Search(c: seq<int>, h: seq<Pos>): Option<seq<Pos>>
    requires |c| == 16 && |h| <= 5
    decreases 5 - |h|, 17
  {
    if Over(c) then None
    else if Solved(c) then (if h == [] then None else Some(h))
    else if |h| == 5 then None
    else TryFrom(c, h, 0)
  }

  /** The candidate loop of `solve` from cell number `k` on. */
  function TryFrom(c: seq<int>, h: seq<Pos>, k: int): Option<seq<Pos>>
    requires |c| == 16 && |h| < 5 && 0 <= k <= 16
    decreases 5 - |h|, 16 - k
  {
    if k == 16 then None
    else
      var p := PosOf(k);
      if p in h then TryFrom(c, h, k + 1)
      else
        match Search(Shift(c, Prev(h), p, 1), h + [p])
        case Some(s) => Some(s)
        case None => TryFrom(c, h, k + 1)
  }

  predicate Distinct(h: seq<Pos>) {
    forall i, j :: 0 <= i < j < |h| ==> h[i] != h[j]
  }

  predicate AllInGrid(h: seq<Pos>) {
    forall i :: 0 <= i < |h| ==> InGrid(h[i])
  }

  /**
   * A solution extends the presses made so far with distinct grid cells, has
   * at most five presses, and replaying the new presses reaches the goal.
   */
  predicate Extends(c: seq<int>, h: seq<Pos>, s: seq<Pos>)
    requires |c| == 16
  {
    |h| <= |s| <= 5 && s[..|h|] == h && s != [] &&
    (Distinct(h) && AllInGrid(h) ==> Distinct(s) && AllInGrid(s)) &&
    Solved(Replay(c, Prev(h), s[|h|..]))
  }

  lemma {:induction false} SearchSound(c: seq<int>, h: seq<Pos>)
    requires |c| == 16 && |h| <= 5
    ensures Search(c, h).Some? ==> Extends(c, h, Search(c, h).value)
    decreases 5 - |h|, 17
  {
    if !Over(c) && !Solved(c) && |h| < 5 {
      TryFromSound(c, h, 0);
    } else if !Over(c) && Solved(c) && h != [] {
      assert h[|h|..] == [];
    }
  }

  lemma {:induction false} TryFromSound(c: seq<int>, h: seq<Pos>, k: int)
    requires |c| == 16 && |h| < 5 && 0 <= k <= 16
    ensures TryFrom(c, h, k).Some? ==> Extends(c, h, TryFrom(c, h, k).value)
    decreases 5 - |h|, 16 - k
  {
    if k < 16 {
      var p := PosOf(k);
      if p in h {
        TryFromSound(c, h, k + 1);
      } else {
        var c' := Shift(c, Prev(h), p, 1);
        SearchSound(c', h + [p]);
        match Search(c', h + [p])
        case Some(s) =>
          assert Prev(h + [p]) == p;
          assert s[..|h|] == (h + [p])[..|h|] == h;
          assert s[|h|] == p by {
            assert s[..|h| + 1][|h|] == p;
          }
          assert s[|h|..][1..] == s[|h| + 1..] && s[|h|..][0] == p;
          assert Replay(c, Prev(h), s[|h|..]) == Replay(c', p, s[|h| + 1..]);
          if Distinct(h) && AllInGrid(h) {
            assert Distinct(h + [p]) && AllInGrid(h + [p]);
          }
        case None =>
          TryFromSound(c, h, k + 1);
      }
    }
  }

  /** The drinks at the pressed cells, in press order. */
  method SolutionString(sol: seq<Pos>) returns (s: string)
    requires AllInGrid(sol)
    ensures |s| == |sol| && forall i :: 0 <= i < |sol| ==> s[i] == DrinkAt(sol[i])
  {
    s := "";
    for i := 0 to |sol|
      invariant |s| == i && forall j :: 0 <= j < i ==> s[j] == DrinkAt(sol[j])
    {
      s := s + [Drinks[sol[i].row][sol[i].col]];
    }
  }

  /** Every cell sells a different drink. */
  lemma DrinksDistinct(p: Pos, q: Pos)
    requires InGrid(p) && InGrid(q) && DrinkAt(p) == DrinkAt(q)
    ensures p == q
  {
  }

  /** The drinks string names the presses: two solutions with the same string are the same. */
  lemma SolutionStringNames(a: seq<Pos>, b: seq<Pos>, s: string, t: string)
    requires AllInGrid(a) && AllInGrid(b)
    requires |s| == |a| && forall i :: 0 <= i < |a| ==> s[i] == DrinkAt(a[i])
    requires |t| == |b| && forall i :: 0 <= i < |b| ==> t[i] == DrinkAt(b[i])
    ensures s == t ==> a == b
  {
    if s == t {
      forall i | 0 <= i < |a|
        ensures a[i] == b[i]
      {
        DrinksDistinct(a[i], b[i]);
      }
    }
  }

  /**
   * The first `n` cells are not over their goal, and `solved` says whether
   * they are all at it: what the check loop of `solve` knows after `n` cells.
   */
  predicate Scanned(c: seq<int>, n: int, solved: bool)
    requires |c| == 16 && 0 <= n <= 16
  {
    (forall k :: 0 <= k < n ==> c[k] <= Goal(k)) &&
    (solved <==> forall k :: 0 <= k < n ==> c[k] == Goal(k))
  }

  /** One more cell within its goal extends the scan. */
  lemma ScanStep(c: seq<int>, n: int, solved: bool)
    requires |c| == 16 && 0 <= n < 16 && Scanned(c, n, solved) && c[n] <= Goal(n)
    ensures Scanned(c, n + 1, solved && c[n] == Goal(n))
  {
  }

  /** A scan of all 16 cells decides `Over` and `Solved`. */
  lemma ScanDone(c: seq<int>, solved: bool)
    requires |c| == 16 && Scanned(c, 16, solved)
    ensures !Over(c) && (solved <==> Solved(c))
  {
  }

  /** The search state: the presses so far and the drinks handed out per cell. */
  class State {
    var hist: seq<Pos>
    var disp: map<Pos, int>

    /** `&state{disp: make(map[pos]int)}`. */
    constructor ()
      ensures hist == [] && disp == map[]
    {
      hist := [];
      disp := map[];
    }

    /** At most five distinct presses, all in the grid. */
    predicate Valid()
      reads this
    {
      |hist| <= 5 && Distinct(hist) && AllInGrid(hist)
    }

    /**
     * The first loop of `solve`: `over` when some cell is over its goal
     * (`solve` returns nil at the first such cell), else `solved` when every
     * cell is at its goal.
     */
    method Check() returns (over: bool, solved: bool)
      ensures over == Over(Counts(disp))
      ensures !over ==> solved == Solved(Counts(disp))
    {
      ghost var cs := Counts(disp);
      solved := true;
      for r := 0 to 4
        invariant Scanned(cs, 4 * r, solved)
      {
        over, solved := CheckRow(r, cs, solved);
        if over {
          return true, false;
        }
      }
      ScanDone(cs, solved);
      return false, solved;
    }

    /** The inner loop of the first loop of `solve`: the four cells of row `r`. */
    method CheckRow(r: int, ghost cs: seq<int>, solved: bool) returns (over: bool, solved': bool)
      requires cs == Counts(disp) && 0 <= r < 4 && Scanned(cs, 4 * r, solved)
      ensures over ==> Over(cs)
      ensures !over ==> Scanned(cs, 4 * r + 4, solved')
    {
      solved' := solved;
      for c := 0 to 4
        invariant Scanned(cs, 4 * r + c, solved')
      {
        var p := Pos(r, c);
        PosOfCell(r, c);
        var have := if p in disp then disp[p] else 0;
        var want := Goal(4 * r + c);  // goal[p], as `InitGoal` fills it
        assert have == cs[4 * r + c];
        if have > want {
          return true, false;
        }
        ScanStep(cs, 4 * r + c, solved');
        solved' := solved' && have == want;
      }
      return false, solved';
    }

    /** The scan of `hist` for `p`. */
    method Seen(p: Pos) returns (b: bool)
      ensures b <==> p in hist
    {
      for i := 0 to |hist|
        invariant p !in hist[..i]
      {
        if hist[i] == p {
          return true;
        }
      }
      assert hist[..|hist|] == hist;
      return false;
    }

    /**
     * The "apply changes" loops (`delta` = 1) and the "undo changes" loops
     * (`delta` = -1) of `solve`: first `p`'s column, then the rest of its
     * row, skipping the cells in `prev`'s row or column.
     */
    method Adjust(p: Pos, prev: Pos, delta: int)
      requires InGrid(p)
      modifies this
      ensures hist == old(hist)
      ensures Counts(disp) == Shift(old(Counts(disp)), prev, p, delta)
    {
      ghost var before := Counts(disp);
      for r0 := 0 to 4
        invariant hist == old(hist)
        invariant forall k :: 0 <= k < 16 ==>
          Get(disp, PosOf(k)) == before[k] + (if PosOf(k).col == p.col && PosOf(k).row < r0 && Hit(prev, p, PosOf(k)) then delta else 0)
      {
        var p0 := Pos(r0, p.col);
        if p0.row == prev.row || p0.col == prev.col {
          continue;
        }
        disp := disp[p0 := Get(disp, p0) + delta];
      }
      for c0 := 0 to 4
        invariant hist == old(hist)
        invariant forall k :: 0 <= k < 16 ==>
          Get(disp, PosOf(k)) == before[k] + (if (PosOf(k).col == p.col || (PosOf(k).row == p.row && PosOf(k).col < c0)) && Hit(prev, p, PosOf(k)) then delta else 0)
      {
        var p0 := Pos(p.row, c0);
        if p0 == p {
          continue;
        }
        if p0.row == prev.row || p0.col == prev.col {
          continue;
        }
        disp := disp[p0 := Get(disp, p0) + delta];
      }
      assert Counts(disp) == Shift(before, prev, p, delta);
    }

    /**
     * One candidate of `solve`'s loop: press `p`, search on, and when that
     * fails undo the press.
     */
    method Try(p: Pos, prev: Pos) returns (sol: Option<seq<Pos>>)
      requires Valid() && InGrid(p) && p !in hist && |hist| < 5 && prev == Prev(hist)
      modifies this
      decreases 5 - |hist|, 0
      ensures Valid()
      ensures sol == Search(Shift(old(Counts(disp)), prev, p, 1), old(hist) + [p])
      ensures sol.None? ==> Counts(disp) == old(Counts(disp)) && hist == old(hist)
      ensures sol.Some? ==> hist == sol.value && Solved(Counts(disp))
    {
      ghost var c0 := Counts(disp);
      Adjust(p, prev, 1);
      hist := hist + [p];
      sol := Solve();
      if sol.Some? {
        return sol;
      }
      Adjust(p, prev, -1);
      ShiftUndo(c0, prev, p);
      hist := hist[..|hist| - 1];
    }

    /**
     * `state.solve`: the presses that reach the goal, found by backtracking
     * from the current presses; nil when there are none.  A failed branch
     * leaves the counts and the presses as they were.
     */
    method Solve() returns (sol: Option<seq<Pos>>)
      requires Valid()
      modifies this
      decreases 5 - |hist|, 2
      ensures Valid()
      ensures sol == Search(old(Counts(disp)), old(hist))
      ensures sol.None? ==> Counts(disp) == old(Counts(disp)) && hist == old(hist)
      ensures sol.Some? ==> hist == sol.value && Solved(Counts(disp))
    {
      var over, solved := Check();
      if over {
        return None;
      }
      if solved {
        // `return s.hist`: an empty `hist` is the nil slice of the first call.
        if hist == [] {
          return None;
        }
        return Some(hist);
      }
      if |hist| == 5 {
        return None;
      }
      var prev := Pos(-1, -1);
      if |hist| > 0 {
        prev := hist[|hist| - 1];
      }
      sol := TryAll(prev);
    }

    /**
     * The candidate loop of `solve`: tries each cell not yet pressed, row by
     * row, and returns the first solution found.
     */
    method TryAll(prev: Pos) returns (sol: Option<seq<Pos>>)
      requires Valid() && |hist| < 5 && prev == Prev(hist)
      modifies this
      decreases 5 - |hist|, 1
      ensures Valid()
      ensures sol == TryFrom(old(Counts(disp)), old(hist), 0)
      ensures sol.None? ==> Counts(disp) == old(Counts(disp)) && hist == old(hist)
      ensures sol.Some? ==> hist == sol.value && Solved(Counts(disp))
    {
      ghost var c0, h0 := Counts(disp), hist;
      for r := 0 to 4
        invariant Valid() && Counts(disp) == c0 && hist == h0
        invariant TryFrom(c0, h0, 4 * r) == TryFrom(c0, h0, 0)
      {
        for c := 0 to 4
          invariant Valid() && Counts(disp) == c0 && hist == h0
          invariant TryFrom(c0, h0, 4 * r + c) == TryFrom(c0, h0, 0)
        {
          var p := Pos(r, c);
          PosOfCell(r, c);
          var seen := Seen(p);
          if seen {
            continue;
          }
          sol := Try(p, prev);
          if sol.Some? {
            return sol;
          }
        }
      }
      return None;
    }
  }
}
