/**
 * list: singly linked lists of ints in the style of the Stanford "Linked
 * List Problems".  A list is a chain of `Node`s; the ghost sequence `nodes`
 * names the chain's nodes from the head, and `Data(nodes)` is the list's
 * contents.  A Go `**Node` (the head reference the caller passes) becomes a
 * head argument and a returned new head.
 */
module LinkedList {
  import opened GoBase

  class Node {
    const data: int
    var next: Node?

    constructor (data: int, next: Node?)
      ensures this.data == data && this.next == next
    {
      this.data := data;
      this.next := next;
    }
  }

  /** No node occurs twice, so the chain has no cycle. */
  predicate Distinct(nodes: seq<Node>) {
    forall i, j :: 0 <= i < j < |nodes| ==> nodes[i] != nodes[j]
  }

  /** Each node's `Next` is the following node, and the last one's is nil. */
  ghost predicate Linked(nodes: seq<Node>)
    reads nodes
  {
    (forall i :: 0 <= i < |nodes| - 1 ==> nodes[i].next == nodes[i + 1]) &&
    (nodes != [] ==> nodes[|nodes| - 1].next == null)
  }

  /** The head of a chain: its first node, or nil. */
  function HeadOf(nodes: seq<Node>): Node? {
    if nodes == [] then null else nodes[0]
  }

  /** `head` starts an acyclic chain through exactly `nodes`, ending in nil. */
  ghost predicate IsList(head: Node?, nodes: seq<Node>)
    reads nodes
  {
    head == HeadOf(nodes) && Linked(nodes) && Distinct(nodes)
  }

  /** The ints the nodes hold, in order. */
  function Data(nodes: seq<Node>): (s: seq<int>)
    ensures |s| == |nodes| && forall i :: 0 <= i < |nodes| ==> s[i] == nodes[i].data
  {
    seq(|nodes|, i requires 0 <= i < |nodes| => nodes[i].data)
  }

  /** The tail of a list is a list. */
  lemma TailIsList(nodes: seq<Node>)
    requires nodes != [] && IsList(nodes[0], nodes)
    ensures IsList(nodes[0].next, nodes[1..])
  {
    if |nodes| > 1 {
      assert nodes[0].next == nodes[1];
    }
  }

  /** `ToSlice`: the values from the head to the end. */
  method ToSlice(head: Node?, ghost nodes: seq<Node>) returns (s: seq<int>)
    requires IsList(head, nodes)
    ensures s == Data(nodes)
  {
    s := [];
    var node := head;
    ghost var i := 0;
    while node != null
      invariant 0 <= i <= |nodes|
      invariant node == if i < |nodes| then nodes[i] else null
      invariant s == Data(nodes[..i])
      decreases |nodes| - i
    {
      s := s + [node.data];
      node := node.next;
      i := i + 1;
    }
    assert nodes[..i] == nodes;
  }

  /** `Push`: a fresh node holding `d` becomes the head, with the old list as its tail. */
  method Push(head: Node?, ghost nodes: seq<Node>, d: int) returns (newHead: Node, ghost newNodes: seq<Node>)
    requires IsList(head, nodes)
    ensures fresh(newHead) && newHead.data == d && newHead.next == head
    ensures newNodes == [newHead] + nodes && IsList(newHead, newNodes)
  {
    newHead := new Node(d, head);
    newNodes := [newHead] + nodes;
  }

  /** `FromSlice`: pushes the values from the last to the first. */
  method FromSlice(s: seq<int>) returns (head: Node?, ghost nodes: seq<Node>)
    ensures IsList(head, nodes) && Data(nodes) == s
    ensures forall n :: n in nodes ==> fresh(n)
  {
    head, nodes := null, [];
    var i := |s|;
    while i > 0
      invariant 0 <= i <= |s|
      invariant IsList(head, nodes) && Data(nodes) == s[i..]
      invariant forall n :: n in nodes ==> fresh(n)
    {
      i := i - 1;
      head, nodes := Push(head, nodes, s[i]);
    }
  }

  /** `ToSlice(FromSlice(s...))` gives back `s`. */
  method ToSliceOfFromSlice(s: seq<int>) returns (t: seq<int>)
    ensures t == s
  {
    var head, nodes := FromSlice(s);
    t := ToSlice(head, nodes);
  }

  /** `Length`: the number of nodes, which is the length of `ToSlice`. */
  method Length(head: Node?, ghost nodes: seq<Node>) returns (n: int)
    requires IsList(head, nodes)
    ensures n == |nodes| == |Data(nodes)|
  {
    n := 0;
    var node := head;
    while node != null
      invariant 0 <= n <= |nodes|
      invariant node == if n < |nodes| then nodes[n] else null
      decreases |nodes| - n
    {
      n := n + 1;
      node := node.next;
    }
  }

  /** `Count`: how many nodes hold `searchFor`. */
  method Count(head: Node?, ghost nodes: seq<Node>, searchFor: int) returns (n: int)
    requires IsList(head, nodes)
    ensures n == multiset(Data(nodes))[searchFor]
  {
    n := 0;
    var node := head;
    ghost var i := 0;
    while node != null
      invariant 0 <= i <= |nodes|
      invariant node == if i < |nodes| then nodes[i] else null
      invariant n == multiset(Data(nodes[..i]))[searchFor]
      decreases |nodes| - i
    {
      assert Data(nodes[..i + 1]) == Data(nodes[..i]) + [nodes[i].data];
      if node.data == searchFor {
        n := n + 1;
      }
      node := node.next;
      i := i + 1;
    }
    assert nodes[..i] == nodes;
  }

  /** The two panics of the package. */
  datatype ListError = OutOfRange | PopEmpty

  /**
   * `GetNth`: the value at `index`; an index at or past the end panics with
   * `errOutOfRange`.  A negative index skips the loop and reads the head.
   */
  method GetNth(head: Node?, ghost nodes: seq<Node>, index: int) returns (r: Result<int, ListError>)
    requires IsList(head, nodes)
    ensures 0 <= index < |nodes| ==> r == Ok(Data(nodes)[index])
    ensures index >= |nodes| ==> r == Err(OutOfRange)
    ensures index < 0 ==> r == if nodes == [] then Err(OutOfRange) else Ok(Data(nodes)[0])
  {
    var node := head;
    var i := 0;
    while i < index
      invariant 0 <= i <= |nodes| && (index >= 0 ==> i <= index) && (index < 0 ==> i == 0)
      invariant node == if i < |nodes| then nodes[i] else null
    {
      if node == null {
        return Err(OutOfRange);
      }
      node := node.next;
      i := i + 1;
    }
    if node == null {
      return Err(OutOfRange);
    }
    return Ok(node.data);
  }

  /** `DeleteList`: the head reference becomes nil, the empty list. */
  method DeleteList(head: Node?, ghost nodes: seq<Node>) returns (newHead: Node?, ghost newNodes: seq<Node>)
    requires IsList(head, nodes)
    ensures IsList(newHead, newNodes) && Data(newNodes) == []
  {
    return null, [];
  }

  /** `Pop`: the head's value and the rest of the list; an empty list panics with `errPopEmpty`. */
  method Pop(head: Node?, ghost nodes: seq<Node>) returns (r: Result<int, ListError>, newHead: Node?, ghost newNodes: seq<Node>)
    requires IsList(head, nodes)
    ensures nodes == [] ==> r == Err(PopEmpty) && newHead == head && newNodes == nodes
    ensures nodes != [] ==> r == Ok(Data(nodes)[0]) && newNodes == nodes[1..]
    ensures IsList(newHead, newNodes)
  {
    if head == null {
      return Err(PopEmpty), head, nodes;
    }
    var d := head.data;
    return Ok(d), head.next, nodes[1..];
  }

  /**
   * `InsertNth`: a fresh node holding `data` is linked in at `index`; an
   * index past the end panics with `errOutOfRange` before anything is
   * changed.  A negative index inserts at the head.
   */
  method InsertNth(head: Node?, ghost nodes: seq<Node>, index: int, data: int)
    returns (r: Result<Node?, ListError>, ghost newNodes: seq<Node>)
    requires IsList(head, nodes)
    modifies set n | n in nodes
    ensures index > |nodes| ==> r == Err(OutOfRange) && unchanged(set n | n in nodes)
    ensures index <= |nodes| ==>
              (r.Ok? && IsList(r.value, newNodes) &&
               var k := if index < 0 then 0 else index;
               Data(newNodes) == Data(nodes)[..k] + [data] + Data(nodes)[k..])
    ensures index <= |nodes| ==>
              (var k := if index < 0 then 0 else index;
               |newNodes| == |nodes| + 1 && fresh(newNodes[k]) &&
               newNodes == nodes[..k] + [newNodes[k]] + nodes[k..])
  {
    var prev: Node? := null;
    var cur := head;
    var i := 0;
    while i < index
      invariant 0 <= i <= |nodes| && (index >= 0 ==> i <= index) && (index < 0 ==> i == 0)
      invariant cur == if i < |nodes| then nodes[i] else null
      invariant prev == if i == 0 then null else nodes[i - 1]
    {
      if cur == null {
        return Err(OutOfRange), nodes;
      }
      prev := cur;
      cur := cur.next;
      i := i + 1;
    }
    var n := new Node(data, cur);
    newNodes := nodes[..i] + [n] + nodes[i..];
    assert Data(newNodes) == Data(nodes)[..i] + [data] + Data(nodes)[i..];
    if prev == null {
      return Ok(n), newNodes;
    }
    prev.next := n;
    SpliceLinked(nodes, i, n);
    return Ok(head), newNodes;
  }

  /**
   * Linking `n` between nodes `i - 1` and `i` of a chain (all other links as
   * they were) gives the chain with `n` spliced in.
   */
  lemma SpliceLinked(nodes: seq<Node>, i: nat, n: Node)
    requires i <= |nodes| && Distinct(nodes) && n !in nodes
    requires forall j :: 0 <= j < |nodes| - 1 && j != i - 1 ==> nodes[j].next == nodes[j + 1]
    requires i < |nodes| ==> nodes[|nodes| - 1].next == null
    requires i > 0 ==> nodes[i - 1].next == n
    requires n.next == if i < |nodes| then nodes[i] else null
    ensures Linked(nodes[..i] + [n] + nodes[i..]) && Distinct(nodes[..i] + [n] + nodes[i..])
  {
    var t := nodes[..i] + [n] + nodes[i..];
    forall j | 0 <= j < |t| - 1 ensures t[j].next == t[j + 1] {
      if j < i - 1 {
        assert t[j] == nodes[j] && t[j + 1] == nodes[j + 1];
      } else if j > i {
        assert t[j] == nodes[j - 1] && t[j + 1] == nodes[j];
      }
    }
    if i < |nodes| {
      assert t[|t| - 1] == nodes[|nodes| - 1];
    }
  }

  predicate Sorted(s: seq<int>) {
    forall i, j :: 0 <= i < j < |s| ==> s[i] <= s[j]
  }

  /** The index before which `SortedInsert` links a node holding `x`: the first value not below `x`. */
  function InsertPos(s: seq<int>, x: int): (k: nat)
    ensures k <= |s|
    ensures forall i :: 0 <= i < k ==> s[i] < x
    ensures k < |s| ==> s[k] >= x
  {
    if s == [] || s[0] >= x then 0 else 1 + InsertPos(s[1..], x)
  }

  /** Inserting at `InsertPos` keeps a sorted list sorted. */
  lemma InsertPosKeepsSorted(s: seq<int>, x: int)
    requires Sorted(s)
    ensures var k := InsertPos(s, x); Sorted(s[..k] + [x] + s[k..])
  {
    var k := InsertPos(s, x);
    var t := s[..k] + [x] + s[k..];
    forall i, j | 0 <= i < j < |t| ensures t[i] <= t[j] {
      if j < k || i > k {
      } else if i == k {
        assert t[j] == s[j - 1];
      } else if j == k {
        assert t[i] == s[i];
      } else {
        assert t[i] == s[i] && t[j] == s[j - 1];
      }
    }
  }

  /**
   * `SortedInsert`: `newNode` is linked in before the first node whose value
   * is not below its own, so a sorted list stays sorted and gains exactly
   * that value.
   */
  method SortedInsert(head: Node?, ghost nodes: seq<Node>, newNode: Node) returns (newHead: Node, ghost newNodes: seq<Node>)
    requires IsList(head, nodes) && newNode !in nodes
    modifies (set n | n in nodes), newNode
    ensures var k := InsertPos(Data(nodes), newNode.data);
      newNodes == nodes[..k] + [newNode] + nodes[k..] &&
      Data(newNodes) == Data(nodes)[..k] + [newNode.data] + Data(nodes)[k..]
    ensures IsList(newHead, newNodes)
  {
    ghost var k := InsertPos(Data(nodes), newNode.data);
    var prev: Node? := null;
    var cur := head;
    ghost var i := 0;
    while cur != null && cur.data < newNode.data
      invariant 0 <= i <= k
      invariant cur == if i < |nodes| then nodes[i] else null
      invariant prev == if i == 0 then null else nodes[i - 1]
      decreases |nodes| - i
    {
      prev := cur;
      cur := cur.next;
      i := i + 1;
    }
    assert i == k;
    newNode.next := cur;
    newNodes := nodes[..i] + [newNode] + nodes[i..];
    assert Data(newNodes) == Data(nodes)[..i] + [newNode.data] + Data(nodes)[i..];
    if prev == null {
      SpliceLinked(nodes, i, newNode);
      return newNode, newNodes;
    }
    prev.next := newNode;
    SpliceLinked(nodes, i, newNode);
    return head, newNodes;
  }

  /** Splicing one element in adds it to the multiset. */
  lemma MultisetSplice<T>(s: seq<T>, k: nat, x: T)
    requires k <= |s|
    ensures multiset(s[..k] + [x] + s[k..]) == multiset(s) + multiset{x}
  {
    assert s == s[..k] + s[k..];
  }

  /** The nodes already moved are among the first `i`, so the rest are untouched by a move. */
  lemma InsertSortFrame(nodes: seq<Node>, i: nat, moved: seq<Node>)
    requires Distinct(nodes) && i < |nodes| && multiset(moved) == multiset(nodes[..i])
    ensures forall n :: n in moved ==> n in nodes
    ensures forall j :: i <= j < |nodes| ==> nodes[j] !in moved
  {
    forall n | n in moved ensures n in nodes[..i] {
      assert n in multiset(moved);
    }
    forall j | i <= j < |nodes| ensures nodes[j] !in moved {
      assert nodes[j] !in nodes[..i];
      assert nodes[j] !in multiset(nodes[..i]);
    }
  }

  /** Moving node `i` into the sorted list extends both permutation invariants by one. */
  lemma InsertSortStep(nodes: seq<Node>, i: nat, moved: seq<Node>, k: nat, moved2: seq<Node>)
    requires i < |nodes| && k <= |moved| && moved2 == moved[..k] + [nodes[i]] + moved[k..]
    requires multiset(moved) == multiset(nodes[..i])
    requires multiset(Data(moved)) == multiset(Data(nodes[..i]))
    ensures multiset(moved2) == multiset(nodes[..i + 1])
    ensures multiset(Data(moved2)) == multiset(Data(nodes[..i + 1]))
  {
    MultisetSplice(moved, k, nodes[i]);
    assert Data(moved2) == Data(moved)[..k] + [nodes[i].data] + Data(moved)[k..];
    MultisetSplice(Data(moved), k, nodes[i].data);
    assert nodes[..i + 1] == nodes[..i] + [nodes[i]];
    assert Data(nodes[..i + 1]) == Data(nodes[..i]) + [nodes[i].data];
  }

  /**
   * `InsertSort`: every node, taken in order, is moved into a new list with
   * `SortedInsert`; the result holds the same nodes, so the same values,
   * in ascending order.
   */
  method InsertSort(head: Node?, ghost nodes: seq<Node>) returns (newHead: Node?, ghost newNodes: seq<Node>)
    requires IsList(head, nodes)
    modifies set n | n in nodes
    ensures IsList(newHead, newNodes)
    ensures multiset(newNodes) == multiset(nodes)
    ensures Sorted(Data(newNodes)) && multiset(Data(newNodes)) == multiset(Data(nodes))
  {
    var l: Node? := null;
    ghost var ln: seq<Node> := [];
    var node := head;
    ghost var i := 0;
    while node != null
      invariant 0 <= i <= |nodes|
      invariant node == if i < |nodes| then nodes[i] else null
      invariant IsList(l, ln) && Sorted(Data(ln))
      invariant multiset(ln) == multiset(nodes[..i])
      invariant multiset(Data(ln)) == multiset(Data(nodes[..i]))
      invariant forall j :: i <= j < |nodes| - 1 ==> nodes[j].next == nodes[j + 1]
      invariant i < |nodes| ==> nodes[|nodes| - 1].next == null
      decreases |nodes| - i
    {
      var next := node.next;
      InsertSortFrame(nodes, i, ln);
      ghost var before := ln;
      ghost var k := InsertPos(Data(ln), node.data);
      InsertPosKeepsSorted(Data(ln), node.data);
      l, ln := SortedInsert(l, ln, node);
      InsertSortStep(nodes, i, before, k, ln);
      node := next;
      i := i + 1;
    }
    assert nodes[..i] == nodes;
    return l, ln;
  }

  /**
   * `Append` as written: the loop advances `*aRef` itself to the end of
   * `a`, so `*aRef` ends as `b`'s head and `a`'s nodes are dropped; `*bRef`
   * becomes nil.  No node is changed.
   */
  method Append(aHead: Node?, ghost aNodes: seq<Node>, bHead: Node?, ghost bNodes: seq<Node>)
    returns (newA: Node?, newB: Node?)
    requires IsList(aHead, aNodes) && IsList(bHead, bNodes)
    ensures IsList(newA, bNodes) && newB == null
  {
    newA := aHead;
    ghost var i := 0;
    while newA != null
      invariant 0 <= i <= |aNodes|
      invariant newA == if i < |aNodes| then aNodes[i] else null
      decreases |aNodes| - i
    {
      newA := newA.next;
      i := i + 1;
    }
    newA := bHead;
    newB := null;
  }

  /** So whenever `a` is not empty, `Append` does not yield the concatenation. */
  lemma AppendDropsFirstList(aNodes: seq<Node>, bNodes: seq<Node>)
    requires aNodes != []
    ensures Data(bNodes) != Data(aNodes) + Data(bNodes)
  {
    assert |Data(aNodes) + Data(bNodes)| > |Data(bNodes)|;
  }

  /** A chain whose last node links to the head of a second chain gives their concatenation. */
  lemma ConcatLinked(a: seq<Node>, b: seq<Node>)
    requires a != [] && Linked(b) && Distinct(a) && Distinct(b)
    requires forall n :: n in a ==> n !in b
    requires forall j :: 0 <= j < |a| - 1 ==> a[j].next == a[j + 1]
    requires a[|a| - 1].next == HeadOf(b)
    ensures Linked(a + b) && Distinct(a + b)
  {
    var t := a + b;
    forall j | 0 <= j < |t| - 1 ensures t[j].next == t[j + 1] {
      if j < |a| - 1 {
        assert t[j] == a[j] && t[j + 1] == a[j + 1];
      } else if j >= |a| {
        assert t[j] == b[j - |a|] && t[j + 1] == b[j - |a| + 1];
      }
    }
    if b != [] {
      assert t[|t| - 1] == b[|b| - 1];
    }
    forall i, j | 0 <= i < j < |t| ensures t[i] != t[j] {
      if i < |a| && j >= |a| {
        assert t[i] in a && t[j] == b[j - |a|];
      }
    }
  }

  /**
   * `Append` as evidently intended: the last node of `a` (if any) is linked
   * to `b`'s head, giving `a`'s values followed by `b`'s; `*bRef` becomes
   * nil.  The lists must not share nodes, or the result would be cyclic.
   */
  method AppendLists(aHead: Node?, ghost aNodes: seq<Node>, bHead: Node?, ghost bNodes: seq<Node>)
    returns (newA: Node?, newB: Node?, ghost newNodes: seq<Node>)
    requires IsList(aHead, aNodes) && IsList(bHead, bNodes)
    requires forall n :: n in aNodes ==> n !in bNodes
    modifies set n | n in aNodes
    ensures newNodes == aNodes + bNodes && newB == null
    ensures Linked(newNodes)
    ensures Distinct(newNodes)
    ensures newA == HeadOf(newNodes)
    ensures Data(newNodes) == Data(aNodes) + Data(bNodes)
  {
    if aHead == null {
      return bHead, null, bNodes;
    }
    var last := aHead;
    ghost var i := 0;
    while last.next != null
      invariant 0 <= i < |aNodes| && last == aNodes[i]
      invariant last.next == if i < |aNodes| - 1 then aNodes[i + 1] else null
      decreases |aNodes| - i
    {
      last := last.next;
      i := i + 1;
    }
    last.next := bHead;
    assert last !in bNodes;
    assert Linked(bNodes);
    forall j | 0 <= j < |aNodes| - 1 ensures aNodes[j].next == aNodes[j + 1] {
      assert aNodes[j] != aNodes[i];
    }
    newNodes := aNodes + bNodes;
    ConcatLinked(aNodes, bNodes);
    return aHead, null, newNodes;
  }
}
