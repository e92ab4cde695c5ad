/**
 * paramheap: a generic min-heap over a slice, ordered by a caller-supplied
 * `less`, that can report every element's slice position to a callback.
 *
 * The heap algorithms are those of Go's `container/heap` (`up`, `down`,
 * `Push`, `Pop`, `Remove`, `Fix`), which the package drives through the
 * `sliceHeap` adapter; both are written out here on one class.  The callback
 * given to `SetIndex` is modelled by the map `index`, which records the last
 * position reported for each element.
 */
module ParamHeap {
  import opened GoBase

  /** `less` is a strict weak order, as Go's sorting and heap code require. */
  ghost predicate StrictWeakOrder<E(!new)>(less: (E, E) -> bool) {
    (forall a :: !less(a, a)) &&
    (forall a, b, c :: less(a, b) && less(b, c) ==> less(a, c)) &&
    (forall a, b, c :: !less(a, b) && !less(b, c) ==> !less(a, c))
  }

  /** The parent of slot `k` in the implicit binary tree. */
  function Parent(k: int): (p: int)
    requires k > 0
    ensures 0 <= p < k
  {
    (k - 1) / 2
  }

  /** No slot of the first `n` is smaller than its parent. */
  predicate HeapPrefix<E>(less: (E, E) -> bool, s: seq<E>, n: int)
    requires 0 <= n <= |s|
  {
    forall k :: 0 < k < n ==> !less(s[k], s[Parent(k)])
  }

  /**
   * The first `n` slots are a heap except at slot `i`, whose links to its
   * parent and its children are unknown; its children are still not smaller
   * than its parent.  This is the state after slot `i` has been overwritten.
   */
  predicate HeapExcept<E>(less: (E, E) -> bool, s: seq<E>, n: int, i: int)
    requires 0 <= n <= |s|
  {
    (forall k :: 0 < k < n && k != i && Parent(k) != i ==> !less(s[k], s[Parent(k)])) &&
    (forall k :: 0 < k < n && i > 0 && Parent(k) == i ==> !less(s[k], s[Parent(i)]))
  }

  /** The state `up` keeps: only the link from `j` to its parent may be broken. */
  predicate UpInv<E>(less: (E, E) -> bool, s: seq<E>, n: int, j: int)
    requires 0 <= n <= |s|
  {
    (forall k :: 0 < k < n && k != j ==> !less(s[k], s[Parent(k)])) &&
    (forall k :: 0 < k < n && j > 0 && Parent(k) == j ==> !less(s[k], s[Parent(j)]))
  }

  /**
   * The state `down` keeps: only the links from `i`'s children may be broken
   * (and, before the first swap, the link from `i0` to its parent).
   */
  predicate DownInv<E>(less: (E, E) -> bool, s: seq<E>, n: int, i: int, i0: int)
    requires 0 <= n <= |s|
  {
    (forall k :: 0 < k < n && Parent(k) != i && (i == i0 ==> k != i0) ==> !less(s[k], s[Parent(k)])) &&
    (forall k :: 0 < k < n && i > 0 && Parent(k) == i ==> !less(s[k], s[Parent(i)]))
  }

  /** `s` with slots `i` and `j` exchanged. */
  function Swapped<E>(s: seq<E>, i: int, j: int): (t: seq<E>)
    requires 0 <= i < |s| && 0 <= j < |s|
    ensures |t| == |s| && t[i] == s[j] && t[j] == s[i]
    ensures forall k :: 0 <= k < |s| && k != i && k != j ==> t[k] == s[k]
    ensures multiset(t) == multiset(s)
  {
    var t := s[i := s[j]][j := s[i]];
    assert multiset(s[i := s[j]]) == multiset(s) - multiset{s[i]} + multiset{s[j]};
    t
  }

  /** Every element's recorded index is its slot; this forces the elements to be distinct. */
  predicate Indexed<E>(s: seq<E>, index: map<E, int>) {
    forall k :: 0 <= k < |s| ==> s[k] in index && index[s[k]] == k
  }

  /** The root of a heap is not greater than any element. */
  lemma {:induction false} HeapMin<E(!new)>(less: (E, E) -> bool, s: seq<E>, k: int)
    requires StrictWeakOrder(less) && HeapPrefix(less, s, |s|) && 0 <= k < |s|
    ensures !less(s[k], s[0])
    decreases k
  {
    if k > 0 {
      HeapMin(less, s, Parent(k));
    }
  }

  lemma RootIsMin<E(!new)>(less: (E, E) -> bool, s: seq<E>)
    requires StrictWeakOrder(less) && HeapPrefix(less, s, |s|) && s != []
    ensures forall k :: 0 <= k < |s| ==> !less(s[k], s[0])
  {
    forall k | 0 <= k < |s| ensures !less(s[k], s[0]) {
      HeapMin(less, s, k);
    }
  }

  /** One swap of `up`: the broken link moves to the parent. */
  lemma UpStep<E(!new)>(less: (E, E) -> bool, s: seq<E>, n: int, j: int)
    requires StrictWeakOrder(less) && 0 < j < n <= |s| && UpInv(less, s, n, j)
    requires less(s[j], s[Parent(j)])
    ensures UpInv(less, Swapped(s, Parent(j), j), n, Parent(j))
  {
    var p := Parent(j);
    var t := Swapped(s, p, j);
    forall k | 0 < k < n && k != p
      ensures !less(t[k], t[Parent(k)])
    {
      if k == j {
      } else if Parent(k) == j {
        assert t[k] == s[k] && t[j] == s[p];
      } else if Parent(k) == p {
        assert t[k] == s[k] && !less(s[k], s[p]);
      } else {
        assert t[k] == s[k] && t[Parent(k)] == s[Parent(k)];
      }
    }
    forall k | 0 < k < n && p > 0 && Parent(k) == p
      ensures !less(t[k], t[Parent(p)])
    {
      assert t[Parent(p)] == s[Parent(p)];
      if k != j {
        assert t[k] == s[k] && !less(s[k], s[p]) && !less(s[p], s[Parent(p)]);
      }
    }
  }

  /** When `up` stops, the first `n` slots are a heap. */
  lemma UpDone<E(!new)>(less: (E, E) -> bool, s: seq<E>, n: int, j: int)
    requires 0 <= j < n <= |s| && UpInv(less, s, n, j)
    requires j == 0 || !less(s[j], s[Parent(j)])
    ensures HeapPrefix(less, s, n)
  {
  }

  /** The child `down` compares slot `i` with: the right one only when it is smaller than the left. */
  function SmallerChild<E>(less: (E, E) -> bool, s: seq<E>, n: int, i: int): (j: int)
    requires 0 <= i && 2 * i + 1 < n <= |s|
    ensures j == 2 * i + 1 || j == 2 * i + 2
    ensures j < n
  {
    if 2 * i + 2 < n && less(s[2 * i + 2], s[2 * i + 1]) then 2 * i + 2 else 2 * i + 1
  }

  /** No child of `i` is smaller than the one `SmallerChild` picks. */
  lemma SmallerChildIsMin<E(!new)>(less: (E, E) -> bool, s: seq<E>, n: int, i: int)
    requires StrictWeakOrder(less) && 0 <= i && 2 * i + 1 < n <= |s|
    ensures forall c :: 0 < c < n && Parent(c) == i ==> !less(s[c], s[SmallerChild(less, s, n, i)])
  {
    var j := SmallerChild(less, s, n, i);
    forall c | 0 < c < n && Parent(c) == i
      ensures !less(s[c], s[j])
    {
      assert c == 2 * i + 1 || c == 2 * i + 2;
    }
  }

  /** One swap of `down` with the smaller child `j`: the broken links move down to `j`. */
  lemma DownStep<E(!new)>(less: (E, E) -> bool, s: seq<E>, n: int, i: int, i0: int, j: int)
    requires StrictWeakOrder(less) && 0 <= i0 <= i && 0 <= n <= |s| && DownInv(less, s, n, i, i0)
    requires 2 * i + 1 < n && j == SmallerChild(less, s, n, i)
    requires less(s[j], s[i])
    ensures DownInv(less, Swapped(s, i, j), n, j, i0)
  {
    SmallerChildIsMin(less, s, n, i);
    var t := Swapped(s, i, j);
    forall k | 0 < k < n && Parent(k) != j
      ensures !less(t[k], t[Parent(k)])
    {
      if k == j {
      } else if Parent(k) == i {
        assert t[k] == s[k] && t[i] == s[j];
        assert !less(s[k], s[j]);
      } else if k == i {
        assert t[Parent(i)] == s[Parent(i)];
      } else {
        assert t[k] == s[k] && t[Parent(k)] == s[Parent(k)];
      }
    }
    forall k | 0 < k < n && Parent(k) == j
      ensures !less(t[k], t[Parent(j)])
    {
      assert t[k] == s[k] && t[i] == s[j];
    }
  }

  /** When `down` stops at `i`, no child of `i` is smaller than `i`. */
  lemma ChildrenNotLess<E(!new)>(less: (E, E) -> bool, s: seq<E>, n: int, i: int, j: int)
    requires StrictWeakOrder(less) && 0 <= i && n <= |s|
    requires 2 * i + 1 < n && j == SmallerChild(less, s, n, i)
    requires !less(s[j], s[i])
    ensures forall c :: 0 < c < n && Parent(c) == i ==> !less(s[c], s[i])
  {
    SmallerChildIsMin(less, s, n, i);
  }

  /**
   * When `down` stops at `i`: the first `n` slots are a heap if it moved, and
   * otherwise only the link from `i0` to its parent can be broken.
   */
  lemma DownDone<E(!new)>(less: (E, E) -> bool, s: seq<E>, n: int, i: int, i0: int)
    requires 0 <= i0 <= i && 0 <= n <= |s| && DownInv(less, s, n, i, i0)
    requires forall c :: 0 < c < n && Parent(c) == i ==> !less(s[c], s[i])
    ensures i > i0 ==> HeapPrefix(less, s, n)
    ensures i == i0 ==> UpInv(less, s, n, i0)
  {
  }

  /**
   * Writing the last element of a heap over slot `i`: the first `n = |s| - 1`
   * slots are a heap except at `i`.
   */
  lemma SwapLastHeapExcept<E(!new)>(less: (E, E) -> bool, s: seq<E>, i: int)
    requires StrictWeakOrder(less) && 0 <= i < |s| && HeapPrefix(less, s, |s|)
    ensures HeapExcept(less, Swapped(s, i, |s| - 1), |s| - 1, i)
  {
    var n := |s| - 1;
    var t := Swapped(s, i, n);
    forall k | 0 < k < n && k != i && Parent(k) != i
      ensures !less(t[k], t[Parent(k)])
    {
      assert t[k] == s[k] && t[Parent(k)] == s[Parent(k)];
    }
    forall k | 0 < k < n && i > 0 && Parent(k) == i
      ensures !less(t[k], t[Parent(i)])
    {
      assert t[k] == s[k] && t[Parent(i)] == s[Parent(i)];
      assert !less(s[k], s[i]) && !less(s[i], s[Parent(i)]);
    }
  }

  /** A heap is a heap except at any slot. */
  lemma HeapIsHeapExcept<E(!new)>(less: (E, E) -> bool, s: seq<E>, n: int, i: int)
    requires StrictWeakOrder(less) && 0 <= n <= |s| && HeapPrefix(less, s, n)
    ensures HeapExcept(less, s, n, i)
  {
    forall k | 0 < k < n && i > 0 && Parent(k) == i
      ensures !less(s[k], s[Parent(i)])
    {
      assert !less(s[k], s[i]) && !less(s[i], s[Parent(i)]);
    }
  }

  /**
   * A min-heap of `E` values ordered by `less`.  `s` is the slice in heap
   * order; when `indexing` is set (by `SetIndex`), `index` holds the slot of
   * every element.
   */
  class Heap<E(==, !new)> {
    var s: seq<E>
    const less: (E, E) -> bool
    var indexing: bool
    var index: map<E, int>

    /** When the callback is set, every element's recorded index is its slot. */
    ghost predicate IndexOk()
      reads this
    {
      indexing ==> Indexed(s, index)
    }

    ghost predicate Valid()
      reads this
    {
      StrictWeakOrder(less) && HeapPrefix(less, s, |s|) && IndexOk()
    }

    /** `New`: an empty heap with the comparison `less` and no index callback. */
    constructor (less: (E, E) -> bool)
      requires StrictWeakOrder(less)
      ensures Valid() && s == [] && this.less == less && !indexing
    {
      s := [];
      this.less := less;
      indexing := false;
      index := map[];
    }

    /** `SetIndex`: installs the callback; it must come before any `Push`. */
    method SetIndex()
      requires Valid() && !indexing && s == []
      modifies this
      ensures Valid() && indexing && s == [] && index == old(index)
    {
      indexing := true;
    }

    /** `Len`. */
    function Len(): (n: int)
      reads this
      ensures n == |s|
    {
      |s|
    }

    /** `Slice`: the underlying slice, in heap order. */
    function Slice(): (r: seq<E>)
      reads this
      requires Valid()
      ensures r == s && (r != [] ==> forall k :: 0 <= k < |r| ==> !less(r[k], r[0]))
    {
      if s == [] then s else RootIsMin(less, s); s
    }

    /** `Peek`: a minimum element, at slot 0; an empty heap panics (`None`). */
    function Peek(): (r: Option<E>)
      reads this
      requires Valid()
      ensures r.None? <==> s == []
      ensures r.Some? ==> r.value == s[0] && forall k :: 0 <= k < |s| ==> !less(s[k], r.value)
    {
      if s == [] then None
      else
        RootIsMin(less, s);
        Some(s[0])
    }

    /** `sliceHeap.Swap`: exchanges two slots and reports both new slots to the callback. */
    method Swap(i: int, j: int)
      requires 0 <= i < |s| && 0 <= j < |s|
      modifies this
      ensures s == Swapped(old(s), i, j) && indexing == old(indexing)
      ensures index == if indexing then old(index)[s[i] := i][s[j] := j] else old(index)
      ensures old(IndexOk()) ==> IndexOk()
    {
      s := Swapped(s, i, j);
      if indexing {
        index := index[s[i] := i];
        index := index[s[j] := j];
      }
    }

    /** `sliceHeap.Push`: appends `e` and reports its slot. */
    method Append(e: E)
      requires indexing ==> e !in s
      modifies this
      ensures s == old(s) + [e] && indexing == old(indexing)
      ensures index == if indexing then old(index)[e := |s| - 1] else old(index)
      ensures old(IndexOk()) ==> IndexOk()
    {
      s := s + [e];
      if indexing {
        index := index[e := |s| - 1];
      }
    }

    /** `sliceHeap.Pop`: removes the last element, reporting the index -1 for it. */
    method RemoveLast() returns (e: E)
      requires s != []
      modifies this
      ensures e == old(s)[|old(s)| - 1] && s == old(s)[..|old(s)| - 1] && indexing == old(indexing)
      ensures index == if indexing then old(index)[e := -1] else old(index)
      ensures old(IndexOk()) ==> IndexOk()
      ensures multiset(s) + multiset{e} == multiset(old(s))
    {
      assert s == s[..|s| - 1] + [s[|s| - 1]];
      e := s[|s| - 1];
      if indexing {
        index := index[e := -1];
      }
      s := s[..|s| - 1];
    }

    /**
     * `up`: moves slot `j` towards the root while it is smaller than its
     * parent.  Go computes the parent as `(j-1)/2` with truncating division,
     * which is 0 for `j = 0`; the loop then stops.
     */
    method Up(j0: int, n: int)
      requires 0 <= j0 < n <= |s| && StrictWeakOrder(less) && UpInv(less, s, n, j0) && IndexOk()
      modifies this
      ensures |s| == |old(s)| && multiset(s) == multiset(old(s)) && (forall k :: n <= k < |s| ==> s[k] == old(s)[k])
      ensures HeapPrefix(less, s, n) && IndexOk() && indexing == old(indexing)
    {
      var j := j0;
      while true
        invariant 0 <= j < n && |s| == |old(s)| && multiset(s) == multiset(old(s)) && (forall k :: n <= k < |s| ==> s[k] == old(s)[k])
        invariant UpInv(less, s, n, j) && IndexOk() && indexing == old(indexing)
        decreases j
      {
        var i := if j == 0 then 0 else (j - 1) / 2;
        if i == j || !less(s[j], s[i]) {
          UpDone(less, s, n, j);
          break;
        }
        UpStep(less, s, n, j);
        Swap(i, j);
        j := i;
      }
    }

    /**
     * `down`: moves slot `i0` away from the root while a child is smaller,
     * swapping with the smaller child; reports whether it moved.  If it did
     * not, only the link from `i0` to its parent can still be broken.
     */
    method Down(i0: int, n: int) returns (moved: bool)
      requires 0 <= i0 <= n <= |s| && StrictWeakOrder(less) && HeapExcept(less, s, n, i0) && IndexOk()
      modifies this
      ensures |s| == |old(s)| && multiset(s) == multiset(old(s)) && (forall k :: n <= k < |s| ==> s[k] == old(s)[k])
      ensures IndexOk() && indexing == old(indexing)
      ensures moved ==> HeapPrefix(less, s, n)
      ensures !moved ==> s == old(s) && UpInv(less, s, n, i0)
    {
      var i := i0;
      while true
        invariant i0 <= i <= n && |s| == |old(s)| && multiset(s) == multiset(old(s)) && (forall k :: n <= k < |s| ==> s[k] == old(s)[k])
        invariant DownInv(less, s, n, i, i0) && IndexOk() && indexing == old(indexing)
        invariant i == i0 ==> s == old(s)
        decreases n - i
      {
        var j1 := 2 * i + 1;
        if j1 >= n {
          DownDone(less, s, n, i, i0);
          break;
        }
        var j := SmallerChild(less, s, n, i);
        if !less(s[j], s[i]) {
          ChildrenNotLess(less, s, n, i, j);
          DownDone(less, s, n, i, i0);
          break;
        }
        DownStep(less, s, n, i, i0, j);
        Swap(i, j);
        i := j;
      }
      moved := i > i0;
    }

    /**
     * The step `Remove` and `Fix` share: slot `i` is moved down, and if it
     * did not move, up.
     */
    method Restore(i: int, n: int)
      requires 0 <= i < n <= |s| && StrictWeakOrder(less) && HeapExcept(less, s, n, i) && IndexOk()
      modifies this
      ensures |s| == |old(s)| && multiset(s) == multiset(old(s)) && (forall k :: n <= k < |s| ==> s[k] == old(s)[k])
      ensures HeapPrefix(less, s, n) && IndexOk() && indexing == old(indexing)
    {
      var moved := Down(i, n);
      if !moved {
        Up(i, n);
      }
    }

    /** `Push`: adds `elem`, keeping the heap order and the recorded indexes. */
    method Push(elem: E)
      requires Valid() && (indexing ==> elem !in s)
      modifies this
      ensures Valid() && indexing == old(indexing)
      ensures multiset(s) == multiset(old(s)) + multiset{elem}
    {
      Append(elem);
      Up(|s| - 1, |s|);
    }

    /**
     * `Pop`: removes and returns a minimum element (the one at slot 0),
     * reporting the index -1 for it; an empty heap panics (`None`) before
     * anything changes.
     */
    method Pop() returns (r: Option<E>)
      requires Valid()
      modifies this
      ensures Valid() && indexing == old(indexing)
      ensures r.None? <==> old(s) == []
      ensures r.None? ==> s == old(s) && index == old(index)
      ensures r.Some? ==> r.value == old(s)[0] && forall k :: 0 <= k < |old(s)| ==> !less(old(s)[k], r.value)
      ensures r.Some? ==> multiset(s) + multiset{r.value} == multiset(old(s))
      ensures r.Some? && indexing ==> r.value in index && index[r.value] == -1
    {
      if s == [] {
        return None;
      }
      RootIsMin(less, s);
      var n := |s| - 1;
      SwapLastHeapExcept(less, s, 0);
      Swap(0, n);
      var moved := Down(0, n);
      if !moved && n > 0 {
        UpDone(less, s, n, 0);
      }
      var e := RemoveLast();
      return Some(e);
    }
  
    /**
     * `Remove`: removes and returns the element at slot `i`, reporting the
     * index -1 for it.  An index outside the heap panics (`None`) before
     * anything changes.
     */
    method Remove(i: int) returns (r: Option<E>)
      requires Valid()
      modifies this
      ensures Valid() && indexing == old(indexing)
      ensures r.None? <==> !(0 <= i < |old(s)|)
      ensures r.None? ==> s == old(s) && index == old(index)
      ensures r.Some? ==> r.value == old(s)[i] && multiset(s) + multiset{r.value} == multiset(old(s))
      ensures r.Some? && indexing ==> r.value in index && index[r.value] == -1
    {
      if !(0 <= i < |s|) {
        return None;
      }
      var e := RemoveAt(i);
      return Some(e);
    }

    /**
     * The body of `Remove` for a slot in the heap: the last element fills
     * the gap and is moved down or up.
     */
    method RemoveAt(i: int) returns (e: E)
      requires Valid() && 0 <= i < |s|
      modifies this
      ensures Valid() && indexing == old(indexing)
      ensures e == old(s)[i] && multiset(s) + multiset{e} == multiset(old(s))
      ensures indexing ==> e in index && index[e] == -1
    {
      var n := |s| - 1;
      if n != i {
        SwapLastHeapExcept(less, s, i);
        Swap(i, n);
        Restore(i, n);
      }
      e := RemoveLast();
    }

    /**
     * `Fix`: restores the heap order after the element at slot `i` has been
     * changed in place (through the slice `Slice` returns), moving it down
     * or up.  The contents stay the same, as after a `Remove(i)` and a `Push`
     * of the new value.  For an index outside the heap, `down` stops at once
     * (`2 * i + 1` is negative or past the end) and `up` stops only where the
     * truncated parent `(i - 1) / 2` is `i` itself; anywhere else `up` calls
     * `Less` on the missing slot and panics.
     */
    method Fix(i: int) returns (r: FixOutcome)
      requires StrictWeakOrder(less) && HeapExcept(less, s, |s|, i) && IndexOk()
      modifies this
      ensures r == Fixed <==> 0 <= i < |old(s)|
      ensures r == Untouched <==> i == -1 || (i == 0 && |old(s)| == 0)
      ensures Valid() && indexing == old(indexing) && multiset(s) == multiset(old(s))
      ensures r != Fixed ==> s == old(s) && index == old(index)
    {
      if !(0 <= i < |s|) {
        UpStopsAtOnce(i);
        if Quo(i - 1, 2) == i {
          return Untouched;
        }
        return IndexPanic;
      }
      Restore(i, |s|);
      return Fixed;
    }
  }

  /**
   * What `Fix` did: repaired the slot, returned at once without touching the
   * heap, or panicked reading a slot outside it.
   */
  datatype FixOutcome = Fixed | Untouched | IndexPanic

  /** `up` stops before any `Less` call exactly at 0 and -1, the slots that are their own truncated parent. */
  lemma UpStopsAtOnce(j: int)
    ensures Quo(j - 1, 2) == j <==> j == 0 || j == -1
  {
  }

  /** Changing the element at slot `i` of a heap leaves exactly the state `Fix(i)` repairs. */
  lemma ChangedHeapExcept<E(!new)>(less: (E, E) -> bool, s: seq<E>, i: int, e: E)
    requires StrictWeakOrder(less) && HeapPrefix(less, s, |s|) && 0 <= i < |s|
    ensures HeapExcept(less, s[i := e], |s|, i)
  {
    var t := s[i := e];
    forall k | 0 < k < |s| && i > 0 && Parent(k) == i
      ensures !less(t[k], t[Parent(i)])
    {
      assert !less(s[k], s[i]) && !less(s[i], s[Parent(i)]);
    }
  }
}
