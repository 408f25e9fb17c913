/** The tap and timer plumbing around the circle (index.ts:114-131 and
    199-218). The interval timer is reduced to the `animated` flag of
    Animator plus a count of intervals currently registered; drawing is left
    out, so the callbacks that only redraw have no effect here. */
module Renderer {
  import opened Config
  import opened AnimState
  import opened Traversal

  /** Whether an interval is running. */
  datatype Animator = Animator(animated: bool)

  /** The renderer's state: the circle, its animator, and how many intervals are registered. */
  datatype Page = Page(animator: Animator, brc: BarRollCircle, timers: nat)

  /** Result of Animator.start: the animator and whether an interval was registered. */
  datatype Started = Started(animator: Animator, registered: bool)

  /** Result of Animator.stop: the animator and whether an interval was cleared. */
  datatype Stopped = Stopped(animator: Animator, cleared: bool)

  /** Register an interval unless one is already running. */
  function Start(a: Animator): (r: Started)
    ensures r.animator.animated
    ensures r.registered <==> !a.animated
    ensures a.animated ==> r.animator == a
  {
    if !a.animated then Started(Animator(true), true) else Started(a, false)
  }

  /** Clear the running interval, if any. */
  function Stop(a: Animator): (r: Stopped)
    ensures !r.animator.animated
    ensures r.cleared <==> a.animated
    ensures !a.animated ==> r.animator == a
  {
    if a.animated then Stopped(Animator(false), true) else Stopped(a, false)
  }

  /** The page as loaded: the initial circle, no interval. */
  function Init(): (w: Page)
    ensures Consistent(w) && !w.animator.animated
    ensures |w.brc.nodes| == ColorCount && CursorOf(w.brc) == Cursor(0, 1)
  {
    Page(Animator(false), Traversal.Init(), 0)
  }

  /** The renderer invariant: the circle's invariant holds, an interval runs
      exactly while the current node is moving, and never more than one. */
  predicate Consistent(w: Page)
  {
    && Inv(w.brc)
    && (w.animator.animated <==> w.brc.nodes[w.brc.curr].state.dir != 0.0)
    && w.timers == (if w.animator.animated then 1 else 0)
  }

  /** A tap: arm the current node and, if that ran its callback, start the animator. */
  function HandleTap(w: Page): (r: Page)
    requires Wf(w.brc)
    ensures Wf(r.brc) && CursorOf(r.brc) == CursorOf(w.brc)
    ensures r.brc == Traversal.StartUpdating(w.brc).circle
    ensures Consistent(w) ==> Consistent(r) && r.animator.animated
    ensures Consistent(w) && w.animator.animated ==> r == w
    ensures Consistent(w) && !w.animator.animated ==>
      r.brc.nodes[r.brc.curr].state == w.brc.nodes[w.brc.curr].state.(dir := w.brc.dir as real)
    ensures Consistent(w) && !w.animator.animated ==> r.timers == w.timers + 1
  {
    var s := Traversal.StartUpdating(w.brc);
    if s.completed then
      var st := Start(w.animator);
      Page(st.animator, s.circle, if st.registered then w.timers + 1 else w.timers)
    else
      w.(brc := s.circle)
  }

  /** One firing of the interval: update the circle and, when its callback
      runs, stop the animator. With no interval running nothing happens. */
  function Tick(w: Page): (r: Page)
    requires Wf(w.brc)
    ensures Wf(r.brc) && |r.brc.nodes| == |w.brc.nodes|
    ensures !w.animator.animated ==> r == w
    ensures Consistent(w) ==> Consistent(r)
    ensures w.animator.animated ==> r.brc == Traversal.Update(w.brc).circle
    ensures w.animator.animated ==> (r.animator.animated <==> !Traversal.Update(w.brc).completed)
    ensures w.animator.animated ==> r.timers <= w.timers
  {
    if !w.animator.animated then
      w
    else
      var u := Traversal.Update(w.brc);
      if u.completed then
        var st := Stop(w.animator);
        Page(st.animator, u.circle, if st.cleared && w.timers > 0 then w.timers - 1 else w.timers)
      else
        w.(brc := u.circle)
  }

  /** The renderer after `k` firings of the interval. */
  function Ticks(w: Page, k: nat): (r: Page)
    requires Wf(w.brc)
    ensures Wf(r.brc) && |r.brc.nodes| == |w.brc.nodes|
  {
    if k == 0 then w else Tick(Ticks(w, k - 1))
  }

  /** The renderer `k` ticks into the animation of the current node. */
  function Animating(t: Page, k: nat): Page
    requires Wf(t.brc)
  {
    var c := t.brc.curr;
    t.(brc := t.brc.(nodes := t.brc.nodes[c := t.brc.nodes[c].(state := Moved(t.brc.nodes[c].state, k))]))
  }

  /** While the current node's armed animation runs, each tick moves only that
      node's progress and the interval keeps running. */
  lemma {:induction false} AnimatingTicks(t: Page, k: nat)
    requires Wf(t.brc) && t.animator.animated && Armed(t.brc.nodes[t.brc.curr].state) && k <= 200
    ensures Ticks(t, k) == Animating(t, k)
  {
    var c := t.brc.curr;
    var st := t.brc.nodes[c].state;
    if k == 0 {
      assert Moved(st, 0) == st;
      assert Animating(t, 0).brc.nodes == t.brc.nodes;
    } else {
      AnimatingTicks(t, k - 1);
      var prev := Animating(t, k - 1);
      ArmedTick(st, k - 1);
      var u := Traversal.Update(prev.brc);
      assert u.circle.nodes == Animating(t, k).brc.nodes;
    }
  }

  /** A tap at rest starts one animation of the current node; the interval
      runs for 201 ticks and is then stopped, the cursor having made one
      bounce step and the whole renderer at rest again. */
  lemma TapCycle(w: Page)
    requires Consistent(w) && !w.animator.animated
    ensures forall k :: 0 <= k <= 200 ==> Ticks(HandleTap(w), k).animator.animated
    ensures Consistent(Ticks(HandleTap(w), 201))
    ensures !Ticks(HandleTap(w), 201).animator.animated
    ensures CursorOf(Ticks(HandleTap(w), 201).brc) == Bounce(CursorOf(w.brc), |w.brc.nodes|)
  {
    var t := HandleTap(w);
    var c := t.brc.curr;
    assert Armed(t.brc.nodes[c].state);
    forall k | 0 <= k <= 200
      ensures Ticks(t, k).animator.animated
    {
      AnimatingTicks(t, k);
    }
    AnimatingTicks(t, 200);
    ArmedTick(t.brc.nodes[c].state, 200);
    ConsistentTicks(t, 201);
  }

  /** Ticks keep the renderer invariant. */
  lemma {:induction false} ConsistentTicks(w: Page, k: nat)
    requires Consistent(w)
    ensures Consistent(Ticks(w, k))
  {
    if k > 0 {
      ConsistentTicks(w, k - 1);
    }
  }

  /** A renderer at rest is determined by its cursor and chain length: every
      node is idle and settled where the traversal invariant says. */
  lemma RestIsDeterminedByCursor(w1: Page, w2: Page)
    requires Consistent(w1) && !w1.animator.animated
    requires Consistent(w2) && !w2.animator.animated
    requires CursorOf(w1.brc) == CursorOf(w2.brc) && |w1.brc.nodes| == |w2.brc.nodes|
    ensures w1 == w2
  {
    var n1, n2 := w1.brc.nodes, w2.brc.nodes;
    forall j | 0 <= j < |n1|
      ensures n1[j] == n2[j]
    {
      assert Settled(w1.brc, j) == Settled(w2.brc, j);
    }
  }

  /** The renderer after `m` taps, each made at rest and followed by the 201
      ticks that complete its animation. */
  function Cycles(w: Page, m: nat): (r: Page)
    requires Consistent(w) && !w.animator.animated
    ensures Consistent(r) && !r.animator.animated && |r.brc.nodes| == |w.brc.nodes|
    ensures CursorOf(r.brc) == BounceN(CursorOf(w.brc), |w.brc.nodes|, m)
  {
    if m == 0 then
      w
    else
      var before := Cycles(w, m - 1);
      TapCycle(before);
      Ticks(HandleTap(before), 201)
  }

  /** Ten taps, each let run to completion, bring the page back exactly to
      how it was loaded: the cursor has gone 0 to 4 and back, and every node
      has run up to 1 and down to 0 again. */
  lemma TenTapsRestore()
    ensures Cycles(Init(), 2 * ColorCount) == Init()
  {
    var w := Init();
    BouncePeriod(ColorCount);
    RestIsDeterminedByCursor(Cycles(w, 2 * ColorCount), w);
  }
}
