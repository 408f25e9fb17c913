/** BarRollCircle (index.ts:176-197): a cursor on the node chain and a
    direction. Each tick drives the current node's state; when that completes
    the cursor steps one node in its direction, or turns round at an end. */
module Traversal {
  import opened Config
  import opened AnimState
  import opened Chain

  /** The chain, the index of the current node and the direction (1 or -1). */
  datatype BarRollCircle = BarRollCircle(nodes: seq<Node>, curr: int, dir: int)

  /** Result of one call: the new circle and whether the callback ran. */
  datatype Stepped = Stepped(circle: BarRollCircle, completed: bool)

  /** The cursor alone: position and direction. */
  datatype Cursor = Cursor(pos: int, dir: int)

  /** Shape every circle keeps: a well-linked chain, a cursor on it, a unit direction. */
  predicate Wf(b: BarRollCircle)
  {
    WellLinked(b.nodes) && 0 <= b.curr < |b.nodes| && (b.dir == 1 || b.dir == -1)
  }

  function CursorOf(b: BarRollCircle): Cursor
  {
    Cursor(b.curr, b.dir)
  }

  /** Reference bounce on positions 0..n-1: one step in the direction when it
      stays in range, otherwise stay and turn round. */
  function Bounce(c: Cursor, n: int): Cursor
  {
    if 0 <= c.pos + c.dir < n then Cursor(c.pos + c.dir, c.dir) else Cursor(c.pos, -c.dir)
  }

  /** The value node j has settled on while the cursor is at b.curr: going
      forward the nodes behind the cursor have run to 1; going back the cursor
      node and those before it are still at 1. */
  function Settled(b: BarRollCircle, j: int): real
  {
    if b.dir == 1 then (if j < b.curr then 1.0 else 0.0) else (if j <= b.curr then 1.0 else 0.0)
  }

  /** The traversal invariant: every node but the current one is idle and
      settled as above; the current node is valid and settled likewise. */
  predicate Inv(b: BarRollCircle)
  {
    && Wf(b)
    && (forall j :: 0 <= j < |b.nodes| && j != b.curr ==> b.nodes[j].state == Rest(Settled(b, j)))
    && Valid(b.nodes[b.curr].state)
    && b.nodes[b.curr].state.prevScale == Settled(b, b.curr)
  }

  /** The circle as created: the cursor on node 0 of a fresh chain, heading forward. */
  function Init(): (b: BarRollCircle)
    ensures Inv(b)
    ensures |b.nodes| == ColorCount && CursorOf(b) == Cursor(0, 1)
    ensures forall j :: 0 <= j < |b.nodes| ==> b.nodes[j].state == Fresh
  {
    BarRollCircle(NewChain(ColorCount), 0, 1)
  }

  /** Under the invariant the current node, once moving, heads the way the
      cursor does. */
  lemma MovingWithCursor(b: BarRollCircle)
    requires Inv(b) && b.nodes[b.curr].state.dir != 0.0
    ensures b.nodes[b.curr].state.dir == b.dir as real
  {
  }

  /** One tick: update the current node's state; if it completes, move the
      cursor with getNext, negating the direction when getNext reports the end. */
  function Update(b: BarRollCircle): (r: Stepped)
    requires Wf(b)
    ensures Wf(r.circle) && |r.circle.nodes| == |b.nodes|
    ensures r.completed == AnimState.Update(b.nodes[b.curr].state).fired
    ensures CursorOf(r.circle) == if r.completed then Bounce(CursorOf(b), |b.nodes|) else CursorOf(b)
    ensures r.circle.nodes[b.curr] == b.nodes[b.curr].(state := AnimState.Update(b.nodes[b.curr].state).state)
    ensures forall j :: 0 <= j < |b.nodes| && j != b.curr ==> r.circle.nodes[j] == b.nodes[j]
    ensures Inv(b) ==> Inv(r.circle)
  {
    var node := b.nodes[b.curr];
    var st := AnimState.Update(node.state);
    var nodes := b.nodes[b.curr := node.(state := st.state)];
    assert WellLinked(nodes);
    if st.fired then
      var m := GetNext(nodes[b.curr], b.dir);
      GetNextSteps(nodes, b.curr, b.dir);
      Stepped(BarRollCircle(nodes, m.target, if m.reversed then -b.dir else b.dir), true)
    else
      Stepped(b.(nodes := nodes), false)
  }

  /** A tap: arm the current node's state. It runs the callback exactly when
      the node was idle; the cursor never moves. */
  function StartUpdating(b: BarRollCircle): (r: Stepped)
    requires Wf(b)
    ensures Wf(r.circle) && |r.circle.nodes| == |b.nodes| && CursorOf(r.circle) == CursorOf(b)
    ensures r.completed <==> b.nodes[b.curr].state.dir == 0.0
    ensures !r.completed ==> r.circle == b
    ensures forall j :: 0 <= j < |b.nodes| && j != b.curr ==> r.circle.nodes[j] == b.nodes[j]
    ensures Inv(b) ==> Inv(r.circle)
    ensures Inv(b) && r.completed ==> r.circle.nodes[b.curr].state == b.nodes[b.curr].state.(dir := b.dir as real)
  {
    var node := b.nodes[b.curr];
    var st := AnimState.StartUpdating(node.state);
    if st.fired then
      var nodes := b.nodes[b.curr := node.(state := st.state)];
      assert WellLinked(nodes);
      Stepped(b.(nodes := nodes), true)
    else
      Stepped(b, false)
  }

  /** The cursor after `k` completed animations. */
  function BounceN(c: Cursor, n: int, k: nat): Cursor
  {
    if k == 0 then c else Bounce(BounceN(c, n, k - 1), n)
  }

  /** Going forward from position p, the cursor reaches p + k after k steps
      while that stays on the chain. */
  lemma {:induction false} ForwardRun(p: int, n: int, k: nat)
    requires 0 <= p && p + k < n
    ensures BounceN(Cursor(p, 1), n, k) == Cursor(p + k, 1)
  {
    if k > 0 {
      ForwardRun(p, n, k - 1);
    }
  }

  /** Going back from position p, the cursor reaches p - k after k steps
      while that stays on the chain. */
  lemma {:induction false} BackwardRun(p: int, n: int, k: nat)
    requires p < n && 0 <= p - k
    ensures BounceN(Cursor(p, -1), n, k) == Cursor(p - k, -1)
  {
    if k > 0 {
      BackwardRun(p, n, k - 1);
    }
  }

  /** Running a bounce for a + b steps is running it for a, then for b. */
  lemma {:induction false} BounceNAdds(c: Cursor, n: int, a: nat, b: nat)
    ensures BounceN(c, n, a + b) == BounceN(BounceN(c, n, a), n, b)
  {
    if b > 0 {
      BounceNAdds(c, n, a, b - 1);
    }
  }

  /** From node 0 heading forward on a chain of n nodes the cursor runs up to
      node n - 1, turns round there, runs back to node 0 and turns round
      again: after 2n completed animations it is back where it started. */
  lemma BouncePeriod(n: int)
    requires n >= 1
    ensures BounceN(Cursor(0, 1), n, n - 1) == Cursor(n - 1, 1)
    ensures BounceN(Cursor(0, 1), n, n) == Cursor(n - 1, -1)
    ensures BounceN(Cursor(0, 1), n, 2 * n - 1) == Cursor(0, -1)
    ensures BounceN(Cursor(0, 1), n, 2 * n) == Cursor(0, 1)
  {
    var start := Cursor(0, 1);
    ForwardRun(0, n, n - 1);
    BackwardRun(n - 1, n, n - 1);
    BounceNAdds(start, n, n, n - 1);
  }
}
