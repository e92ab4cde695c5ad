/**
 * Day 3, "Spiral Memory": cells of the plane are numbered 1, 2, 3, ... along
 * a square spiral that starts at the origin, goes right one cell, up one,
 * left two, down two, right three, and so on.  A single shared walker state
 * remembers every cell visited so far in two maps, index to coordinate and
 * coordinate to index, and is advanced on demand.
 */
module AdventDay3 {
  import opened GoBase
  import opened GoStrings

  datatype Day3Error =
    | Usage                  // "need 1 arg"
    | BadNumber(e: NumError) // the argument is not an int64
    | BelowOne               // the panic "input must be >= 1"

  datatype Vec2 = Vec2(x: int, y: int) {
    function Add(w: Vec2): Vec2 {
      Vec2(x + w.x, y + w.y)
    }
  }

  function Abs(a: int): int {
    if a < 0 then -a else a
  }

  /** The Manhattan distance of a cell from the origin. */
  function Distance(c: Vec2): nat {
    Abs(c.x) + Abs(c.y)
  }

  /** `spiralDirs`: right, up, left, down. */
  function Dir(i: int): (u: Vec2)
    requires 0 <= i < 4
  {
    if i == 0 then Vec2(1, 0) else if i == 1 then Vec2(0, 1) else if i == 2 then Vec2(-1, 0) else Vec2(0, -1)
  }

  // ---------------------------------------------------------------------
  // The walk as values

  /** The walker fields of `spiralState`: direction, leg length, steps left in the leg, parity, position. */
  datatype Walker = Walker(idir: int, d0: int, d: int, par: bool, v: Vec2)

  /** The walker of `newSpiralState`, standing on cell 1. */
  const Start := Walker(0, 1, 1, false, Vec2(0, 0))

  /**
   * `advance` on the walker fields: when the leg is used up, turn left and
   * start a new leg, one cell longer after every second turn; then take one
   * step.
   */
  function Step(w: Walker): (r: Walker)
    requires 0 <= w.idir < 4
    ensures 0 <= r.idir < 4
  {
    var t := if w.d == 0 then
        var d0 := if w.par then w.d0 + 1 else w.d0;
        Walker(if w.idir == 3 then 0 else w.idir + 1, d0, d0, !w.par, w.v)
      else w;
    Walker(t.idir, t.d0, t.d - 1, t.par, t.v.Add(Dir(t.idir)))
  }

  /** The walker after `k` advances. */
  function WalkTo(k: nat): (r: Walker)
    ensures 0 <= r.idir < 4
  {
    if k == 0 then Start else Step(WalkTo(k - 1))
  }

  /** The coordinate of cell `i` of the spiral. */
  function Pos(i: int): Vec2
    requires i >= 1
  {
    WalkTo(i - 1).v
  }

  /** The relations between the walker fields that every advance keeps. */
  predicate WellFormed(w: Walker) {
    0 <= w.idir < 4 && w.d0 >= 1 && 0 <= w.d <= w.d0 && w.par == (w.idir % 2 == 1)
  }

  datatype Box = Box(x0: int, x1: int, y0: int, y1: int)

  /**
   * The rectangle of cells the walk filled before the current leg began
   * (less the cells of the leg it turned from); the current leg runs along
   * its bottom (right), right (up), top (left) or left (down) side.
   */
  function Rect(w: Walker): Box {
    if w.idir == 0 then
      var x1 := w.v.x + w.d - 1;
      var y0 := w.v.y + 1;
      Box(x1 - w.d0 + 1, x1, y0, y0 + w.d0 - 2)
    else if w.idir == 1 then
      var x1 := w.v.x - 1;
      var y1 := w.v.y + w.d - 1;
      Box(x1 - w.d0 + 1, x1, y1 - w.d0 + 1, y1)
    else if w.idir == 2 then
      var x0 := w.v.x - w.d + 1;
      var y1 := w.v.y - 1;
      Box(x0, x0 + w.d0 - 1, y1 - w.d0 + 2, y1)
    else
      var x0 := w.v.x + 1;
      var y0 := w.v.y - w.d + 1;
      Box(x0, x0 + w.d0 - 1, y0, y0 + w.d0 - 1)
  }

  /** The rectangle with the cells of side `i` added: bottom, right, top or left. */
  function Grow(b: Box, i: int): Box {
    if i == 0 then Box(b.x0, b.x1, b.y0 - 1, b.y1)
    else if i == 1 then Box(b.x0, b.x1 + 1, b.y0, b.y1)
    else if i == 2 then Box(b.x0, b.x1, b.y0, b.y1 + 1)
    else Box(b.x0 - 1, b.x1, b.y0, b.y1)
  }

  predicate InBox(b: Box, c: Vec2) {
    b.x0 <= c.x <= b.x1 && b.y0 <= c.y <= b.y1
  }

  /** The cells of the current leg walked so far, its first cell to the walker's. */
  predicate InLeg(w: Walker, c: Vec2) {
    var b := Rect(w);
    if w.idir == 0 then c.y == w.v.y && b.x0 <= c.x <= w.v.x
    else if w.idir == 1 then c.x == w.v.x && b.y0 <= c.y <= w.v.y
    else if w.idir == 2 then c.y == w.v.y && w.v.x <= c.x <= b.x1
    else c.x == w.v.x && w.v.y <= c.y <= b.y1
  }

  /** The cells the walk has visited, as the walker's fields describe them. */
  predicate Covered(w: Walker, c: Vec2) {
    InBox(Rect(w), c) || InLeg(w, c)
  }

  /** A step within a leg keeps the rectangle; a turn adds the leg just finished, but its last cell, to it. */
  lemma AdvanceRect(w: Walker)
    requires WellFormed(w)
    ensures Rect(Step(w)) == if w.d == 0 then Grow(Rect(w), w.idir) else Rect(w)
  {
  }

  /** An advance keeps the walker well formed. */
  lemma AdvanceWellFormed(w: Walker)
    requires WellFormed(w)
    ensures WellFormed(Step(w))
  {
  }

  /**
   * An advance steps onto a cell the walk has not visited, and the cells it
   * has then visited are the earlier ones and that cell.
   */
  lemma AdvanceCovers(w: Walker, c: Vec2)
    requires WellFormed(w)
    ensures !Covered(w, Step(w).v)
    ensures Covered(Step(w), c) <==> Covered(w, c) || c == Step(w).v
  {
    if w.d == 0 {
      if w.idir == 0 {
        TurnCovers0(w, c);
      } else if w.idir == 1 {
        TurnCovers1(w, c);
      } else if w.idir == 2 {
        TurnCovers2(w, c);
      } else {
        TurnCovers3(w, c);
      }
    } else {
      StepCovers(w, c);
    }
  }

  /** Within a leg, the walker's rectangle stays put and the leg grows by one cell. */
  lemma StepCovers(w: Walker, c: Vec2)
    requires WellFormed(w) && w.d > 0
    ensures !Covered(w, Step(w).v)
    ensures Covered(Step(w), c) <==> Covered(w, c) || c == Step(w).v
  {
    AdvanceRect(w);
  }

  /** Turning up: the bottom leg but its last cell joins the rectangle. */
  lemma TurnCovers0(w: Walker, c: Vec2)
    requires WellFormed(w) && w.d == 0 && w.idir == 0
    ensures !Covered(w, Step(w).v)
    ensures Covered(Step(w), c) <==> Covered(w, c) || c == Step(w).v
  {
    AdvanceRect(w);
  }

  /** Turning left: the right leg but its last cell joins the rectangle. */
  lemma TurnCovers1(w: Walker, c: Vec2)
    requires WellFormed(w) && w.d == 0 && w.idir == 1
    ensures !Covered(w, Step(w).v)
    ensures Covered(Step(w), c) <==> Covered(w, c) || c == Step(w).v
  {
    AdvanceRect(w);
  }

  /** Turning down: the top leg but its last cell joins the rectangle. */
  lemma TurnCovers2(w: Walker, c: Vec2)
    requires WellFormed(w) && w.d == 0 && w.idir == 2
    ensures !Covered(w, Step(w).v)
    ensures Covered(Step(w), c) <==> Covered(w, c) || c == Step(w).v
  {
    AdvanceRect(w);
  }

  /** Turning right: the left leg but its last cell joins the rectangle. */
  lemma TurnCovers3(w: Walker, c: Vec2)
    requires WellFormed(w) && w.d == 0 && w.idir == 3
    ensures !Covered(w, Step(w).v)
    ensures Covered(Step(w), c) <==> Covered(w, c) || c == Step(w).v
  {
    AdvanceRect(w);
  }

  /** Every walker the walk reaches is well formed. */
  lemma {:induction false} WalkWellFormed(k: nat)
    ensures WellFormed(WalkTo(k))
  {
    if k > 0 {
      WalkWellFormed(k - 1);
      AdvanceWellFormed(WalkTo(k - 1));
    }
  }

  /** After `k` advances the walker's fields cover each of the cells 1 to `k + 1`... */
  lemma {:induction false} WalkCoversPos(k: nat, i: int)
    requires 1 <= i <= k + 1
    ensures Covered(WalkTo(k), Pos(i))
  {
    if k > 0 {
      var w := WalkTo(k - 1);
      WalkWellFormed(k - 1);
      AdvanceCovers(w, Pos(i));
      if i <= k {
        WalkCoversPos(k - 1, i);
      }
    }
  }

  /** ... and nothing else: every cell they cover is one of those. */
  lemma {:induction false} WalkCoveredPos(k: nat, c: Vec2) returns (i: int)
    requires Covered(WalkTo(k), c)
    ensures 1 <= i <= k + 1 && Pos(i) == c
  {
    if k == 0 {
      i := 1;
    } else {
      var w := WalkTo(k - 1);
      WalkWellFormed(k - 1);
      AdvanceCovers(w, c);
      if c == Step(w).v {
        i := k + 1;
      } else {
        i := WalkCoveredPos(k - 1, c);
      }
    }
  }

  /** The spiral never comes back to a cell: distinct indexes have distinct coordinates. */
  lemma PosInjective(i: int, j: int)
    requires 1 <= i && 1 <= j && i != j
    ensures Pos(i) != Pos(j)
  {
    if i < j {
      FreshPos(i, j);
    } else {
      FreshPos(j, i);
    }
  }

  /** A cell differs from every cell before it. */
  lemma FreshPos(i: int, j: int)
    requires 1 <= i < j
    ensures Pos(i) != Pos(j)
  {
    var k: nat := j - 2;
    var w := WalkTo(k);
    WalkWellFormed(k);
    WalkCoversPos(k, i);
    AdvanceCovers(w, Pos(i));
    PosNext(j, w);
  }

  /** Cell `j` is where the walker steps after `j - 2` advances. */
  lemma PosNext(j: int, w: Walker)
    requires j >= 2 && w == WalkTo(j - 2)
    ensures Pos(j) == Step(w).v
  {
  }

  // ---------------------------------------------------------------------
  // Legs

  /** The number of cells in legs `0` to `L - 1`, leg `l` being `l / 2 + 1` cells long. */
  function LegSum(L: nat): nat {
    if L == 0 then 0 else LegSum(L - 1) + (L - 1) / 2 + 1
  }

  /**
   * The length of leg `4 * j + r`, side `r` of round `j`: legs run 1, 1, 2,
   * 2, 3, 3, ... cells, so two per round are `2 * j + 1` and two `2 * j + 2`.
   */
  function LegLen(j: nat, r: int): nat {
    if r < 2 then 2 * j + 1 else 2 * j + 2
  }

  /** The side after side `r`. */
  function NextSide(r: int): int {
    if r == 3 then 0 else r + 1
  }

  /** The round of the side after side `r` of round `j`. */
  function NextRound(j: nat, r: int): nat {
    if r == 3 then j + 1 else j
  }

  /** Finishing leg `4 * j + r` adds its length to the cells walked. */
  lemma LegSumNext(j: nat, r: nat)
    requires r < 4
    ensures LegSum(4 * NextRound(j, r) + NextSide(r)) == LegSum(4 * j + r) + LegLen(j, r)
  {
    var L := 4 * j + r;
    assert 4 * NextRound(j, r) + NextSide(r) == L + 1;
    assert L / 2 == 2 * j + r / 2;
  }

  /**
   * The rectangle of the cells of legs before side `r` of round `j`: the
   * square of radius `j` less its bottom row, then grown by the bottom,
   * right and top sides of round `j` in turn.
   */
  function RingBox(j: int, r: int): Box {
    if r == 0 then Box(-j, j, -j + 1, j)
    else if r == 1 then Box(-j, j, -j, j)
    else if r == 2 then Box(-j, j + 1, -j, j)
    else Box(-j, j + 1, -j, j + 1)
  }

  /** Finishing side `r` adds that side to the rectangle. */
  lemma RingBoxNext(j: nat, r: int)
    requires 0 <= r < 4
    ensures Grow(RingBox(j, r), r) == RingBox(NextRound(j, r), NextSide(r))
  {
  }

  /**
   * What every walker of the walk satisfies after `k` advances, on side
   * `r = w.idir` of round `j`: its leg has the length `LegLen(j, r)`, the
   * earlier legs account for all advances but the ones made on this leg,
   * and the rectangle of the cells before this leg is `RingBox(j, r)`.
   */
  predicate OnSpiral(w: Walker, j: nat, k: nat) {
    WellFormed(w) && w.d0 == LegLen(j, w.idir) &&
    k == LegSum(4 * j + w.idir) + w.d0 - w.d && Rect(w) == RingBox(j, w.idir)
  }

  /** One advance stays on the spiral, moving to the next side, or round, when it turns. */
  lemma SpiralStep(w: Walker, j: nat, k: nat) returns (j': nat)
    requires OnSpiral(w, j, k)
    ensures OnSpiral(Step(w), j', k + 1)
  {
    if w.d > 0 {
      j' := j;
      LegStep(w, j, k);
    } else {
      j' := NextRound(j, w.idir);
      TurnStep(w, j, k);
    }
  }

  /** A step within a leg uses up one of its cells. */
  lemma LegStep(w: Walker, j: nat, k: nat)
    requires OnSpiral(w, j, k) && w.d > 0
    ensures OnSpiral(Step(w), j, k + 1)
  {
    AdvanceWellFormed(w);
    AdvanceRect(w);
    var s := Step(w);
    assert s.idir == w.idir && s.d0 == w.d0 && s.d == w.d - 1;
  }

  /** A turn starts the next side, or after the fourth side the next round, with a longer leg every second turn. */
  lemma TurnStep(w: Walker, j: nat, k: nat)
    requires OnSpiral(w, j, k) && w.d == 0
    ensures OnSpiral(Step(w), NextRound(j, w.idir), k + 1)
  {
    AdvanceWellFormed(w);
    TurnLeg(w, j, k);
    TurnRect(w, j);
  }

  /** After a turn the new leg has the length of the next side, and the legs before it account for the advances. */
  lemma TurnLeg(w: Walker, j: nat, k: nat)
    requires WellFormed(w) && w.d == 0 && w.d0 == LegLen(j, w.idir) && k == LegSum(4 * j + w.idir) + w.d0
    ensures Step(w).d0 == LegLen(NextRound(j, w.idir), Step(w).idir)
    ensures k + 1 == LegSum(4 * NextRound(j, w.idir) + Step(w).idir) + Step(w).d0 - Step(w).d
  {
    TurnFields(w);
    LegLenNext(j, w.idir);
    LegSumNext(j, w.idir);
  }

  /** After a turn the rectangle is that of the next side. */
  lemma TurnRect(w: Walker, j: nat)
    requires WellFormed(w) && w.d == 0 && Rect(w) == RingBox(j, w.idir)
    ensures Rect(Step(w)) == RingBox(NextRound(j, w.idir), Step(w).idir)
  {
    AdvanceRect(w);
    RingBoxNext(j, w.idir);
    TurnFields(w);
  }

  /** The fields after a turn: the next direction, a leg one longer after an odd side, and one step of it taken. */
  lemma TurnFields(w: Walker)
    requires WellFormed(w) && w.d == 0
    ensures Step(w).idir == NextSide(w.idir)
    ensures Step(w).d0 == if w.idir % 2 == 1 then w.d0 + 1 else w.d0
    ensures Step(w).d == Step(w).d0 - 1
  {
  }

  /** Legs grow by one after the odd sides: after the right side and after the left side, which ends a round. */
  lemma LegLenNext(j: nat, r: int)
    requires 0 <= r < 4
    ensures LegLen(NextRound(j, r), NextSide(r)) == if r % 2 == 1 then LegLen(j, r) + 1 else LegLen(j, r)
  {
  }

  /** The walker after `k` advances is on the spiral. */
  lemma {:induction false} WalkOnSpiral(k: nat) returns (j: nat)
    ensures OnSpiral(WalkTo(k), j, k)
  {
    if k == 0 {
      j := 0;
    } else {
      var j0 := WalkOnSpiral(k - 1);
      j := SpiralStep(WalkTo(k - 1), j0, k - 1);
    }
  }

  lemma {:induction false} LegSumMonotone(L: nat, M: nat)
    requires L <= M
    ensures LegSum(L) <= LegSum(M)
    decreases M - L
  {
    if L < M {
      LegSumMonotone(L + 1, M);
    }
  }

  /** The larger of a cell's distances from the two axes: the ring of the spiral it lies on. */
  function Ring(c: Vec2): nat {
    if Abs(c.x) < Abs(c.y) then Abs(c.y) else Abs(c.x)
  }

  /** An index by which the walk has visited cell `c`: the cells of ring `m` come before leg `4 * m + 4`. */
  function Reach(c: Vec2): nat {
    LegSum(4 * Ring(c) + 4) + 1
  }

  /** Every cell is visited, by the index `Reach(c)` at the latest. */
  lemma Reaches(k: nat, c: Vec2)
    requires !Covered(WalkTo(k), c)
    ensures k + 1 <= Reach(c)
  {
    var j := WalkOnSpiral(k);
    ReachesOnSpiral(WalkTo(k), j, k, c);
  }

  /** A cell outside the rectangle of round `j` lies on ring `j` or further out. */
  lemma OutsideRing(j: nat, r: int, c: Vec2)
    requires !InBox(RingBox(j, r), c)
    ensures j <= Ring(c)
  {
  }

  /** A cell outside the rectangle is on a ring the walk has not finished, so within `Reach`. */
  lemma ReachesOnSpiral(w: Walker, j: nat, k: nat, c: Vec2)
    requires OnSpiral(w, j, k) && !Covered(w, c)
    ensures k + 1 <= Reach(c)
  {
    assert !InBox(RingBox(j, w.idir), c);
    OutsideRing(j, w.idir, c);
    ReachBound(j, w.idir, k, c);
  }

  /** Advances made before the end of leg `4 * j + r`, with `j` at most the ring of `c`, fall within `Reach(c)`. */
  lemma ReachBound(j: nat, r: nat, k: nat, c: Vec2)
    requires r < 4 && j <= Ring(c) && k <= LegSum(4 * j + r) + LegLen(j, r)
    ensures k + 1 <= Reach(c)
  {
    LegSumNext(j, r);
    LegSumMonotone(4 * NextRound(j, r) + NextSide(r), 4 * Ring(c) + 4);
  }

  // ---------------------------------------------------------------------
  // The shared state

  /** The index-to-coordinate map after cells 1 to `n` are numbered. */
  function IndexMap(n: nat): map<int, Vec2> {
    if n == 0 then map[] else IndexMap(n - 1)[n := Pos(n)]
  }

  /** The coordinate-to-index map after cells 1 to `n` are numbered. */
  function CoordMap(n: nat): map<Vec2, int> {
    if n == 0 then map[] else CoordMap(n - 1)[Pos(n) := n]
  }

  /** `indexToCoord` holds exactly the indices 1 to `n`, each at its cell. */
  lemma {:induction false} IndexMapAt(n: nat, i: int)
    ensures i in IndexMap(n) <==> 1 <= i <= n
    ensures 1 <= i <= n ==> IndexMap(n)[i] == Pos(i)
  {
    if n > 0 {
      IndexMapAt(n - 1, i);
    }
  }

  /** Every key of `coordToIndex` is the cell of the index it maps to. */
  lemma {:induction false} CoordMapKey(n: nat, c: Vec2)
    ensures c in CoordMap(n) ==> 1 <= CoordMap(n)[c] <= n && Pos(CoordMap(n)[c]) == c
  {
    if n > 0 {
      CoordMapKey(n - 1, c);
    }
  }

  /** Every cell numbered so far is a key of `coordToIndex`, mapped to its own index. */
  lemma {:induction false} CoordMapAt(n: nat, i: int)
    requires 1 <= i <= n
    ensures Pos(i) in CoordMap(n) && CoordMap(n)[Pos(i)] == i
  {
    if i < n {
      CoordMapAt(n - 1, i);
      PosInjective(i, n);
    }
  }

  /** The two maps are inverse to each other. */
  ghost predicate Inverse(itc: map<int, Vec2>, cti: map<Vec2, int>) {
    (forall i :: i in itc ==> itc[i] in cti && cti[itc[i]] == i) &&
    (forall c :: c in cti ==> cti[c] in itc && itc[cti[c]] == c)
  }

  /** What the pair of maps is for: each undoes the other. */
  lemma MapsInverse(n: nat)
    ensures Inverse(IndexMap(n), CoordMap(n))
  {
    forall i | i in IndexMap(n)
      ensures IndexMap(n)[i] in CoordMap(n) && CoordMap(n)[IndexMap(n)[i]] == i
    {
      IndexMapAt(n, i);
      CoordMapAt(n, i);
    }
    forall c | c in CoordMap(n)
      ensures CoordMap(n)[c] in IndexMap(n) && IndexMap(n)[CoordMap(n)[c]] == c
    {
      CoordMapKey(n, c);
      IndexMapAt(n, CoordMap(n)[c]);
    }
  }

  /** A cell missing from the coordinate map is none of the cells numbered so far. */
  lemma Unvisited(n: nat, c: Vec2)
    requires c !in CoordMap(n)
    ensures forall i :: 1 <= i <= n ==> Pos(i) != c
  {
    forall i | 1 <= i <= n
      ensures Pos(i) != c
    {
      CoordMapAt(n, i);
    }
  }

  /** A cell that is none of the first `k + 1` cells comes at index `Reach` at the latest. */
  lemma UnvisitedReach(k: nat, c: Vec2)
    requires forall i :: 1 <= i <= k + 1 ==> Pos(i) != c
    ensures k + 1 <= Reach(c)
  {
    if Covered(WalkTo(k), c) {
      var i := WalkCoveredPos(k, c);
      assert false;
    }
    Reaches(k, c);
  }

  /** Cell `m + 1` is not among the cells numbered before it. */
  lemma Fresh(m: nat, p: Vec2)
    requires p == Pos(m + 1)
    ensures p !in CoordMap(m)
  {
    CoordMapKey(m, p);
    if p in CoordMap(m) {
      PosInjective(CoordMap(m)[p], m + 1);
    }
  }

  /** `spiralState`: the walker and the two maps of the cells it has numbered so far. */
  class SpiralState {
    var indexToCoord: map<int, Vec2>
    var coordToIndex: map<Vec2, int>
    var n: int
    ghost var advances: nat
    var idir: int
    var d0: int
    var d: int
    var par: bool
    var v: Vec2

    function Fields(): Walker
      reads this
    {
      Walker(idir, d0, d, par, v)
    }

    /**
     * The walker is the one `n - 1` advances produce, the index map holds
     * exactly the cells 1 to `n` at their spiral coordinates, and the
     * coordinate map is its inverse.
     */
    ghost predicate Valid()
      reads this
    {
      n == advances + 1 && Fields() == WalkTo(advances) &&
      indexToCoord == IndexMap(advances + 1) && coordToIndex == CoordMap(advances + 1)
    }

    /** `newSpiralState`: cell 1 at the origin. */
    constructor ()
      ensures Valid() && n == 1 && Fields() == Start
      ensures indexToCoord == map[1 := Vec2(0, 0)] && coordToIndex == map[Vec2(0, 0) := 1]
    {
      indexToCoord := map[1 := Vec2(0, 0)];
      coordToIndex := map[Vec2(0, 0) := 1];
      n := 1;
      advances := 0;
      idir := 0;
      d0 := 1;
      d := 1;
      par := false;
      v := Vec2(0, 0);
    }

    /** The first half of `advance`: turn when the leg is used up, then take one step. */
    method Move()
      requires 0 <= idir < 4
      modifies this
      ensures Fields() == Step(old(Fields()))
      ensures n == old(n) && advances == old(advances)
      ensures indexToCoord == old(indexToCoord) && coordToIndex == old(coordToIndex)
    {
      if d == 0 {
        idir := (idir + 1) % 4;
        if par {
          d0 := d0 + 1;
        }
        par := !par;
        d := d0;
      }
      v := v.Add(Dir(idir));
      d := d - 1;
    }

    /**
     * `advance`: one step of the walker, onto a cell not numbered before,
     * which gets the next index in both maps.
     */
    method Advance() returns (r: Vec2)
      requires Valid()
      modifies this
      ensures Valid()
      ensures n == old(n) + 1 && Fields() == Step(old(Fields()))
      ensures r == v == Pos(n) && r !in old(coordToIndex)
      ensures indexToCoord == old(indexToCoord)[n := r] && coordToIndex == old(coordToIndex)[r := n]
    {
      Move();
      Fresh(n, v);
      n := n + 1;
      advances := advances + 1;
      indexToCoord := indexToCoord[n := v];
      coordToIndex := coordToIndex[v := n];
      return v;
    }
  }

  /** `spiralCoords`: advance the shared walker up to cell `n` and look it up; `n < 1` panics. */
  method SpiralCoords(ss: SpiralState, n: int) returns (r: Option<Vec2>)
    requires ss.Valid()
    modifies ss
    ensures ss.Valid() && ss.n >= old(ss.n)
    ensures n < 1 ==> r == None
    ensures n >= 1 ==> r == Some(Pos(n)) && ss.n >= n
  {
    if n < 1 {
      return None;
    }
    while ss.n < n
      invariant ss.Valid() && ss.n >= old(ss.n)
      decreases n - ss.n
    {
      var _ := ss.Advance();
    }
    IndexMapAt(ss.advances + 1, n);
    return Some(ss.indexToCoord[n]);
  }

  /**
   * `spiralIndex`: the index of cell `(x, y)`, looked up, or found by
   * advancing the shared walker until it steps onto the cell; the search
   * ends because every cell is reached by index `Reach`.
   */
  method SpiralIndex(ss: SpiralState, x: int, y: int) returns (i: int)
    requires ss.Valid()
    modifies ss
    ensures ss.Valid() && ss.n >= old(ss.n)
    ensures i >= 1 && Pos(i) == Vec2(x, y)
  {
    var c := Vec2(x, y);
    if c in ss.coordToIndex {
      CoordMapKey(ss.advances + 1, c);
      return ss.coordToIndex[c];
    }
    while true
      invariant ss.Valid() && ss.n >= old(ss.n) && c !in ss.coordToIndex
      decreases Reach(c) - ss.n
    {
      Unvisited(ss.advances + 1, c);
      UnvisitedReach(ss.advances, c);
      var v1 := ss.Advance();
      if v1 == c {
        break;
      }
      Unvisited(ss.advances + 1, c);
      UnvisitedReach(ss.advances, c);
    }
    return ss.coordToIndex[c];
  }

  /**
   * `neighbors`: the indexes of the eight cells around cell `n`, starting
   * to its right and going anticlockwise; `None` when `n < 1` panics.
   */
  method Neighbors(ss: SpiralState, n: int) returns (r: Option<seq<int>>)
    requires ss.Valid()
    modifies ss
    ensures ss.Valid()
    ensures n < 1 <==> r == None
    ensures r.Some? ==> |r.value| == 8 && forall k :: 0 <= k < 8 ==> r.value[k] >= 1 && Pos(r.value[k]) == AroundCells(Pos(n))[k]
  {
    var c := SpiralCoords(ss, n);
    if c == None {
      return None;
    }
    var cells := AroundCells(c.value);
    var ns := [];
    for k := 0 to 8
      invariant ss.Valid() && |ns| == k
      invariant forall m :: 0 <= m < k ==> ns[m] >= 1 && Pos(ns[m]) == cells[m]
    {
      var i := SpiralIndex(ss, cells[k].x, cells[k].y);
      ns := ns + [i];
    }
    return Some(ns);
  }

  /** The eight cells around `p`, starting to its right and going anticlockwise. */
  function AroundCells(p: Vec2): (cs: seq<Vec2>)
    ensures |cs| == 8
  {
    [Vec2(p.x + 1, p.y), Vec2(p.x + 1, p.y + 1), Vec2(p.x, p.y + 1), Vec2(p.x - 1, p.y + 1),
     Vec2(p.x - 1, p.y), Vec2(p.x - 1, p.y - 1), Vec2(p.x, p.y - 1), Vec2(p.x + 1, p.y - 1)]
  }

  /**
   * `day3a`: the Manhattan distance from cell `n` to cell 1, computed from
   * the coordinates the shared walker reports; a missing or malformed
   * argument is fatal and `n < 1` panics.
   */
  method Day3a(ss: SpiralState, args: seq<string>) returns (r: Result<int, Day3Error>)
    requires ss.Valid()
    modifies ss
    ensures ss.Valid()
    ensures |args| != 1 ==> r == Err(Usage)
    ensures |args| == 1 && ParseInt(args[0]).Err? ==> r == Err(BadNumber(ParseInt(args[0]).error))
    ensures |args| == 1 && ParseInt(args[0]).Ok? ==>
      var n := ParseInt(args[0]).value;
      r == if n < 1 then Err(BelowOne) else Ok(Distance(Pos(n)))
  {
    if |args| != 1 {
      return Err(Usage);
    }
    var n := ParseInt(args[0]);
    if n.Err? {
      return Err(BadNumber(n.error));
    }
    var c := SpiralCoords(ss, n.value);
    if c == None {
      return Err(BelowOne);
    }
    var d := 0;
    if c.value.x > 0 {
      d := d + c.value.x;
    } else {
      d := d - c.value.x;
    }
    if c.value.y > 0 {
      d := d + c.value.y;
    } else {
      d := d - c.value.y;
    }
    return Ok(d);
  }

  /** Consecutive cells are a unit step apart: one advance moves one cell in the current direction. */
  lemma UnitStep(n: int)
    requires n >= 1
    ensures Distance(Vec2(Pos(n + 1).x - Pos(n).x, Pos(n + 1).y - Pos(n).y)) == 1
  {
    var w := WalkTo(n - 1);
    PosNext(n + 1, w);
    StepMoves(w);
    assert Pos(n) == w.v;
  }

  /** An advance moves the walker by one of the four unit vectors. */
  lemma StepMoves(w: Walker)
    requires 0 <= w.idir < 4
    ensures Distance(Vec2(Step(w).v.x - w.v.x, Step(w).v.y - w.v.y)) == 1
  {
    var i := if w.d == 0 then NextSide(w.idir) else w.idir;
    assert Step(w).v == w.v.Add(Dir(i));
    UnitDir(i);
  }

  lemma UnitDir(i: int)
    requires 0 <= i < 4
    ensures Distance(Dir(i)) == 1
  {
    var u := Dir(i);
    assert Abs(u.x) + Abs(u.y) == 1;
  }
}
