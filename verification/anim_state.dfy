/** The per-node progress counter of index.ts:90-112. A callback run by the
    source is modelled as a `fired` flag on the result. Progress is an exact
    real: the rounding of repeated floating-point additions is not modelled. */
module AnimState {
  import opened Config

  /** `scale` is the drawn progress, `dir` the signed speed (0 when idle) and
      `prevScale` the value the last animation settled on. */
  datatype State = State(scale: real, dir: real, prevScale: real)

  /** Result of one call: the new state and whether the callback ran. */
  datatype Step = Step(state: State, fired: bool)

  /** The state a node is created with. */
  const Fresh: State := State(0.0, 0.0, 0.0)

  function Abs(x: real): real
  {
    if x < 0.0 then -x else x
  }

  /** Idle and settled at `p`. */
  function Rest(p: real): State
  {
    State(p, 0.0, p)
  }

  /** What every reachable state satisfies: it has settled on 0 or 1; when
      moving it heads for the other end and has gone at most 1 from where it
      settled; when idle it sits where it settled. */
  predicate Valid(s: State)
  {
    && (s.prevScale == 0.0 || s.prevScale == 1.0)
    && (s.dir == -1.0 || s.dir == 0.0 || s.dir == 1.0)
    && (s.dir != 0.0 ==> s.dir == 1.0 - 2.0 * s.prevScale)
    && (s.dir == 0.0 ==> s.scale == s.prevScale)
    && (s.dir == 1.0 ==> s.prevScale <= s.scale <= s.prevScale + 1.0)
    && (s.dir == -1.0 ==> s.prevScale - 1.0 <= s.scale <= s.prevScale)
  }

  /** One timer tick: move by ScGap in the current direction; once more than 1
      away from the settled value, snap to the next settled value, go idle and
      fire. */
  function Update(s: State): (r: Step)
    ensures r.fired ==> r.state.dir == 0.0 && r.state.scale == r.state.prevScale == s.prevScale + s.dir
    ensures !r.fired ==> r.state.prevScale == s.prevScale && r.state.dir == s.dir
    ensures !r.fired ==> r.state.scale - s.scale == ScGap * s.dir
    ensures Valid(s) ==> Valid(r.state)
    ensures Valid(s) && s.dir == 0.0 ==> r == Step(s, false)
    ensures Valid(s) && r.fired ==> r.state == Rest(1.0 - s.prevScale)
    ensures Valid(s) ==> (r.fired <==> s.dir != 0.0 && Abs(s.scale - s.prevScale) > 1.0 - ScGap)
  {
    var scale := s.scale + ScGap * s.dir;
    if Abs(scale - s.prevScale) > 1.0 then
      var settled := s.prevScale + s.dir;
      Step(State(settled, 0.0, settled), true)
    else
      Step(s.(scale := scale), false)
  }

  /** Arm an idle state towards the other end and fire; a moving state is left
      alone and nothing fires. */
  function StartUpdating(s: State): (r: Step)
    ensures s.dir != 0.0 ==> r == Step(s, false)
    ensures s.dir == 0.0 ==> r.fired && r.state.scale == s.scale && r.state.prevScale == s.prevScale
    ensures Valid(s) ==> Valid(r.state)
    ensures Valid(s) && s.dir == 0.0 ==> r.state.dir == (if s.prevScale == 0.0 then 1.0 else -1.0)
  {
    if s.dir == 0.0 then
      Step(s.(dir := 1.0 - 2.0 * s.prevScale), true)
    else
      Step(s, false)
  }

  /** The state after `k` ticks. */
  function Run(s: State, k: nat): State
  {
    if k == 0 then s else Update(Run(s, k - 1)).state
  }

  /** A state armed at rest: settled, with a direction towards the other end. */
  predicate Armed(s: State)
  {
    Valid(s) && s.dir != 0.0 && s.scale == s.prevScale
  }

  /** The state `k` ticks into an animation armed at `s`, if it has not yet fired. */
  function Moved(s: State, k: nat): State
  {
    s.(scale := s.prevScale + (k as real) * ScGap * s.dir)
  }

  /** One tick from `k` ticks into an armed animation: before tick 200 it
      advances to tick k + 1 without firing; at tick 200 it fires and settles
      at the other end. */
  lemma ArmedTick(s: State, k: nat)
    requires Armed(s) && k <= 200
    ensures k < 200 ==> Update(Moved(s, k)) == Step(Moved(s, k + 1), false)
    ensures k == 200 ==> Update(Moved(s, k)) == Step(Rest(1.0 - s.prevScale), true)
  {
    var kr := k as real;
    assert ScGap == 0.005;
    var cur := Moved(s, k);
    var next := cur.scale + ScGap * s.dir;
    if s.dir == 1.0 {
      assert cur.scale == s.prevScale + kr * 0.005;
      assert next - s.prevScale == (kr + 1.0) * 0.005;
    } else {
      assert cur.scale == s.prevScale - kr * 0.005;
      assert next - s.prevScale == -(kr + 1.0) * 0.005;
    }
    assert Abs(next - s.prevScale) == (kr + 1.0) * 0.005;
    assert Abs(next - s.prevScale) > 1.0 <==> k == 200;
    if k < 200 {
      assert Moved(s, k + 1).scale == next;
    }
  }

  /** For the first 200 ticks after arming the state moves ScGap per tick
      and does not fire. */
  lemma {:induction false} ArmedProgress(s: State, k: nat)
    requires Armed(s) && k <= 200
    ensures Run(s, k) == Moved(s, k)
    ensures forall j :: 0 <= j < k ==> !Update(Run(s, j)).fired
  {
    if k > 0 {
      ArmedProgress(s, k - 1);
      ArmedTick(s, k - 1);
    } else {
      assert Moved(s, 0) == s;
    }
  }

  /** The 201st tick after arming completes the animation: it fires and
      settles at the other end. */
  lemma CompletesOnTick201(s: State)
    requires Armed(s)
    ensures forall j :: 0 <= j < 200 ==> !Update(Run(s, j)).fired
    ensures Update(Run(s, 200)).fired
    ensures Run(s, 201) == Rest(1.0 - s.prevScale)
  {
    ArmedProgress(s, 200);
    ArmedTick(s, 200);
  }
}
