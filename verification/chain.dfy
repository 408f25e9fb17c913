/** The doubly linked chain of nodes built by BRCNode (index.ts:134-174).
    A node is named by its index `i`; `prev` and `next` hold the index of the
    neighbour, if any. The chain is a sequence whose k-th entry is node k. */
module Chain {
  import opened AnimState

  datatype Option<T> = None | Some(value: T)

  /** A node: its index, its links and its own animation state. */
  datatype Node = Node(index: int, prev: Option<int>, next: Option<int>, state: State)

  /** Where `getNext` leads: the node reached and whether the reversal
      callback ran instead of moving. */
  datatype Move = Move(target: int, reversed: bool)

  /** The chain shape: node k is at position k, linked forward to k + 1 unless
      it is last and backward to k - 1 unless it is first. */
  predicate WellLinked(nodes: seq<Node>)
  {
    forall k :: 0 <= k < |nodes| ==>
      && nodes[k].index == k
      && nodes[k].next == (if k < |nodes| - 1 then Some(k + 1) else None)
      && nodes[k].prev == (if k > 0 then Some(k - 1) else None)
  }

  /** The nodes created by `new BRCNode(i)` with `count` colours: the node
      itself, then (while i < count - 1) the chain built from i + 1, whose head
      gets its `prev` pointed back at node i. */
  function Build(i: nat, count: int): (r: seq<Node>)
    ensures |r| == if i < count - 1 then count - i else 1
    ensures forall k :: 0 <= k < |r| ==> r[k].index == i + k && r[k].state == Fresh
    ensures forall k :: 0 <= k < |r| ==> r[k].next == (if i + k < count - 1 then Some(i + k + 1) else None)
    ensures r[0].prev == None
    ensures forall k :: 0 < k < |r| ==> r[k].prev == Some(i + k - 1)
    decreases count - i
  {
    if i < count - 1 then
      var tail := Build(i + 1, count);
      [Node(i, None, Some(i + 1), Fresh)] + tail[0 := tail[0].(prev := Some(i))]
    else
      [Node(i, None, None, Fresh)]
  }

  /** The chain made from node 0 has one node per colour (and one node even
      with no colours), every node fresh and linked in both directions. */
  function NewChain(count: int): (r: seq<Node>)
    ensures |r| == if count > 1 then count else 1
    ensures WellLinked(r)
    ensures forall k :: 0 <= k < |r| ==> r[k].state == Fresh
  {
    Build(0, count)
  }

  /** In a well-linked chain the links are mutual: following `next` then
      `prev` returns to the same node, and the other way round. */
  lemma LinksAreMutual(nodes: seq<Node>, k: int)
    requires WellLinked(nodes) && 0 <= k < |nodes|
    ensures nodes[k].next.Some? ==> 0 <= nodes[k].next.value < |nodes| && nodes[nodes[k].next.value].prev == Some(k)
    ensures nodes[k].prev.Some? ==> 0 <= nodes[k].prev.value < |nodes| && nodes[nodes[k].prev.value].next == Some(k)
    ensures nodes[k].next.Some? <==> k < |nodes| - 1
  {
  }

  /** The neighbour in direction `dir` (`next` when dir is 1, `prev` otherwise)
      when there is one; at the end of the chain the node itself, with the
      reversal callback run. */
  function GetNext(node: Node, dir: int): (m: Move)
    ensures m.reversed <==> (if dir == 1 then node.next else node.prev).None?
    ensures m.reversed ==> m.target == node.index
    ensures !m.reversed ==> Some(m.target) == (if dir == 1 then node.next else node.prev)
  {
    var curr := if dir == 1 then node.next else node.prev;
    if curr.Some? then Move(curr.value, false) else Move(node.index, true)
  }

  /** On a well-linked chain, with dir in {-1, 1}, getNext moves the index one
      step in dir when that stays on the chain, and otherwise stays and reverses. */
  lemma GetNextSteps(nodes: seq<Node>, k: int, dir: int)
    requires WellLinked(nodes) && 0 <= k < |nodes| && (dir == 1 || dir == -1)
    ensures GetNext(nodes[k], dir) ==
      if 0 <= k + dir < |nodes| then Move(k + dir, false) else Move(k, true)
  {
  }
}
