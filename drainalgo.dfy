/**
 * drainalgo: three simulated pools that differ in how much a garbage
 * collection evicts.  Each pool only counts its items (every item is 0); the
 * mutex that guards each method is not modelled, since every method runs
 * as one step.
 */
module DrainAlgo {

  /** The items slice after `append(items, 0)`. */
  function Appended(items: seq<int>): (r: seq<int>)
    ensures |r| == |items| + 1 && r[..|items|] == items && r[|items|] == 0
  {
    items + [0]
  }

  /** A simplistic `sync.Pool`: a shared slice cleared on every collection. */
  class SimpleSyncPool {
    var items: seq<int>

    constructor ()
      ensures items == []
    {
      items := [];
    }

    /** `get`: false on an empty pool; otherwise the last item is taken. */
    method Get() returns (ok: bool)
      modifies this
      ensures ok <==> old(|items|) > 0
      ensures ok ==> items == old(items[..|items| - 1])
      ensures !ok ==> items == old(items)
    {
      var n := |items|;
      if n == 0 {
        return false;
      }
      items := items[..n - 1];
      return true;
    }

    /** `put`: one more item. */
    method Put()
      modifies this
      ensures items == Appended(old(items))
    {
      items := items + [0];
    }

    /** `gc`: the pool is emptied. */
    method Gc()
      modifies this
      ensures items == []
    {
      items := [];
    }

    /** `size`. */
    method Size() returns (n: int)
      ensures n == |items|
    {
      return |items|;
    }
  }

  /**
   * The "max live set" heuristic: at each collection the pool is trimmed to
   * the largest number of items that were out at once during the cycle.
   */
  class MaxLivePool {
    var items: seq<int>
    var live: int
    var maxLive: int

    /** `maxLive` is the largest `live` seen since the last collection. */
    ghost predicate Valid()
      reads this
    {
      live <= maxLive
    }

    constructor ()
      ensures Valid() && items == [] && live == 0 && maxLive == 0
    {
      items := [];
      live := 0;
      maxLive := 0;
    }

    /** `get`: one more item is live, whether or not the pool had one. */
    method Get() returns (ok: bool)
      requires Valid()
      modifies this
      ensures Valid()
      ensures live == old(live) + 1
      ensures maxLive == if old(live) + 1 > old(maxLive) then old(live) + 1 else old(maxLive)
      ensures ok <==> old(|items|) > 0
      ensures ok ==> items == old(items[..|items| - 1])
      ensures !ok ==> items == old(items)
    {
      live := live + 1;
      if live > maxLive {
        maxLive := live;
      }
      var n := |items|;
      if n == 0 {
        return false;
      }
      items := items[..n - 1];
      return true;
    }

    /** `put`: an item comes back. */
    method Put()
      requires Valid()
      modifies this
      ensures Valid()
      ensures live == old(live) - 1 && maxLive == old(maxLive)
      ensures items == Appended(old(items))
    {
      live := live - 1;
      items := items + [0];
    }

    /**
     * `gc`: at most `maxLive` items stay, and the new cycle starts from the
     * current live count.  `items[:maxLive]` is out of range for a negative
     * `maxLive`, hence the precondition.
     */
    method Gc()
      requires Valid()
      requires |items| > maxLive ==> maxLive >= 0
      modifies this
      ensures Valid()
      ensures items == if old(|items|) > old(maxLive) then old(items[..maxLive]) else old(items)
      ensures maxLive == live == old(live)
    {
      if |items| > maxLive {
        items := items[..maxLive];
      }
      maxLive := live;
    }

    method Size() returns (n: int)
      ensures n == |items|
    {
      return |items|;
    }
  }

  /**
   * The "min dead set" heuristic: at each collection as many items are
   * evicted as the fewest the pool held during the cycle.
   */
  class MinDeadPool {
    var items: seq<int>
    var minDead: int

    /** `minDead` is the smallest length the pool had since the last collection. */
    ghost predicate Valid()
      reads this
    {
      0 <= minDead <= |items|
    }

    constructor ()
      ensures Valid() && items == [] && minDead == 0
    {
      items := [];
      minDead := 0;
    }

    /** `get`: takes the last item, lowering `minDead` to the new length when that is smaller. */
    method Get() returns (ok: bool)
      requires Valid()
      modifies this
      ensures Valid()
      ensures ok <==> old(|items|) > 0
      ensures ok ==> items == old(items[..|items| - 1])
      ensures ok ==> minDead == if |items| < old(minDead) then |items| else old(minDead)
      ensures !ok ==> items == old(items) && minDead == old(minDead)
    {
      var n := |items|;
      if n == 0 {
        return false;
      }
      items := items[..n - 1];
      if |items| < minDead {
        minDead := |items|;
      }
      return true;
    }

    /** `put`: one more item; `minDead` is unchanged. */
    method Put()
      requires Valid()
      modifies this
      ensures Valid()
      ensures items == Appended(old(items)) && minDead == old(minDead)
    {
      items := items + [0];
    }

    /**
     * `gc`: `minDead` items are evicted (all of them if fewer remain), and a
     * new cycle starts.  A negative `minDead` would slice past the length;
     * under `Valid` no more than the pool's length is ever evicted.
     */
    method Gc()
      requires minDead >= 0
      modifies this
      ensures Valid()
      ensures old(minDead) > old(|items|) ==> items == []
      ensures old(minDead) <= old(|items|) ==> items == old(items[..|items| - minDead])
      ensures minDead == |items|
    {
      if minDead > |items| {
        items := items[..0];
      } else {
        items := items[..|items| - minDead];
      }
      minDead := |items|;
    }

    method Size() returns (n: int)
      ensures n == |items|
    {
      return |items|;
    }
  }
}
