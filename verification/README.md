# Bar roll circle: the tap-driven animation state machine

The program draws a "ball roll circle" figure on a canvas. It keeps a chain
of five coloured nodes. Each node carries its own progress counter. A tap
arms the counter of the current node. A 20 ms interval then advances it
by 1/200 per tick. When the counter completes, the interval stops and a
cursor moves one node along the chain. At either end the cursor turns
round instead of moving: `getNext` leaves the cursor on the end node and
only negates the direction. The end node therefore animates twice in a
row: node 4 goes from 0 up to 1 and then back down to 0, and node 0 goes
from 1 down to 0 and then back up to 1. The drawing does not split the
progress itself. It takes `sin(pi * scale)`, which rises from 0 to 1 and
falls back to 0 within one animation, and splits that value into four
equal slices, one per part of the figure. Each slice is therefore crossed
twice per animation, and the slices do not cover equal stretches of
progress.

This project models that logic with exact reals and integers:

- `config.dfy`: the constants `parts`, `scGap` and `colors.length`.
- `scale_util.dfy` (module `ScaleUtil`): `maxScale` and `divideScale`, and
  how the `n` sub-phases partition the value they split.
- `anim_state.dfy` (module `AnimState`): the per-node `State`, with its
  `update` tick and its `startUpdating` arm. A callback run becomes a
  `fired` flag on the result.
- `chain.dfy` (module `Chain`): the node chain that the `BRCNode`
  constructor builds recursively, and `getNext`. A node's `prev` and
  `next` hold a neighbour's index.
- `traversal.dfy` (module `Traversal`): `BarRollCircle`, meaning the chain,
  a cursor and a direction. Its `update` and `startUpdating` are modelled,
  along with the invariant relating every node's settled value to the
  cursor, and the bounce of the cursor.
- `renderer.dfy` (module `Renderer`): the `Animator` flag guards and
  `Renderer.handleTap`, over a `Page` holding the circle and its animator.
  One firing of the interval is a `Tick`. It also shows that, in exact
  arithmetic, one tap at rest runs for exactly 201 ticks and moves the
  cursor one bounce step. Ten taps bring the whole page back to how it was
  loaded.

## Model

| member | source | states |
|---|---|---|
| `ScaleUtil.MaxScale` | index.ts:14-16 | never negative, at least `scale - i/n`, and equal to `scale - i/n` exactly when `scale >= i/n` (else 0) |
| `ScaleUtil.DivideScale` | index.ts:18-20 | for `n > 0` the result lies in [0, 1]; it is 0 when `scale <= i/n` and 1 when `scale >= (i+1)/n` |
| `ScaleUtil.DivideScaleIsClamp` | index.ts:14-20 | sub-phase `i` equals `n*scale - i` clamped to [0, 1], so it is linear inside its own window |
| `ScaleUtil.PhasesInOrder` | index.ts:18-20 | for `i < j`, sub-phase `j` is non-zero only once sub-phase `i` is 1, so sub-phases run strictly one after another |
| `ScaleUtil.PhaseSumIsClamp` | index.ts:38-41 | the first `k` slices of a value `x` (the drawing passes `sin(pi * scale)`) sum to `n*x` clamped to [0, k] |
| `ScaleUtil.PhasesCoverValue` | index.ts:38-41 | for a value `x` in [0, 1], such as `sin(pi * scale)`, the `n` slices sum to exactly `n*x` |
| `AnimState.Update` | index.ts:96-104 | keeps the state invariant (settled on 0 or 1, `dir` in {-1,0,1}, `dir != 0` implies `dir = 1 - 2*prevScale`, moving at most 1 from the settled value); while idle it changes nothing and does not fire; when it fires, the state is idle and settled at `prevScale + dir`, which is `1 - prevScale`; it fires exactly when a moving state starts the tick more than `1 - scGap` from where it settled; without firing only `scale` moves, by `scGap*dir` |
| `AnimState.StartUpdating` | index.ts:106-111 | a moving state is returned unchanged and nothing fires; an idle state fires once and is armed towards the other end: `dir` becomes +1 from 0 and -1 from 1; keeps the state invariant |
| `AnimState.ArmedTick` | index.ts:96-104 | from `k < 200` ticks into an armed animation, a tick reaches `k+1` ticks without firing; at tick 200 it fires and settles at `1 - prevScale` |
| `AnimState.ArmedProgress` | index.ts:96-104 | for the first `k <= 200` ticks an armed state moves `scGap` per tick and never fires |
| `AnimState.CompletesOnTick201` | index.ts:96-104 | with `scGap = 1/200` in exact arithmetic, an armed state fires for the first time on tick 201, and is then idle at the other end |
| `Chain.Build` | index.ts:140-149 | `new BRCNode(i)` yields `max(1, count - i)` fresh nodes indexed `i, i+1, ...`; node `i+k` has a `next` exactly when `i+k < count-1`; the head has no `prev`; every other node's `prev` is its predecessor |
| `Chain.NewChain` | index.ts:140-149 | the chain from node 0 has one node per colour (and one node even with no colours), all fresh and well linked |
| `Chain.LinksAreMutual` | index.ts:144-149 | in a well-linked chain, `next.prev` and `prev.next` return to the same node, and node `k` has a `next` exactly when `k < length - 1` |
| `Chain.GetNext` | index.ts:163-173 | it reverses exactly when the link in direction `dir` (`next` when `dir == 1`, `prev` otherwise) is absent, and then returns the node itself; otherwise it returns that neighbour without reversing |
| `Chain.GetNextSteps` | index.ts:163-173 | on a well-linked chain, `getNext` moves the index one step in `dir` when that stays on the chain, and otherwise stays put and reverses |
| `Traversal.Init` | index.ts:176-179 | the initial circle has five fresh nodes, the cursor on node 0 heading forward, and satisfies the traversal invariant |
| `Traversal.MovingWithCursor` | index.ts:185-196 | under the traversal invariant, a moving current node moves in the cursor's direction |
| `Traversal.Update` | index.ts:185-192 | the cursor stays in `[0, length-1]`; it makes one bounce step exactly when the current node's state completes: it moves in `dir`, or it negates `dir` when the move would leave the chain; the current node takes its state's update; every other node is unchanged; keeps the traversal invariant |
| `Traversal.StartUpdating` | index.ts:194-196 | the cursor never moves; the callback runs exactly when the current node was idle, which then heads in the cursor's direction; otherwise nothing changes; keeps the traversal invariant |
| `Traversal.BouncePeriod` | index.ts:185-192 | on a chain of `n` nodes the cursor goes from `(0, +1)` to `(n-1, +1)` after `n-1` completions, to `(n-1, -1)` after `n`, to `(0, -1)` after `2n-1`, and is back at `(0, +1)` after `2n` |
| `Renderer.Start` | index.ts:119-124 | afterwards the animator is running; an interval is registered exactly when none was running; a running animator is unchanged |
| `Renderer.Stop` | index.ts:126-131 | afterwards the animator is stopped; an interval is cleared exactly when one was running; a stopped animator is unchanged |
| `Renderer.Init` | index.ts:176-202 | the page as loaded has five nodes, the cursor on node 0 heading forward, no interval running, and satisfies the renderer invariant |
| `Renderer.HandleTap` | index.ts:208-218 | a tap during an animation changes nothing; the circle becomes exactly `Traversal.StartUpdating`'s result, so the chain keeps its length and the other nodes are unchanged; a tap at rest changes only the current node's `dir`, setting it to the cursor's direction, and starts exactly one interval; the cursor never moves; keeps the renderer invariant (an interval runs exactly while the current node moves, and never more than one) |
| `Renderer.Tick` | index.ts:208-218 | with no interval running nothing happens; with one running the circle takes one `Traversal.Update`, and the animator stops exactly when that update completes; keeps the renderer invariant |
| `Renderer.AnimatingTicks` | index.ts:210-215 | during an armed animation, each of the first 200 ticks moves only the current node's progress, and the interval keeps running |
| `Renderer.TapCycle` | index.ts:208-218 | after a tap at rest the interval runs for ticks 0 to 200; after tick 201 it is stopped, the invariant holds, and the cursor has made exactly one bounce step |
| `Renderer.RestIsDeterminedByCursor` | index.ts:176-197 | two renderers at rest with the same cursor and chain length are equal: every node's settled value is fixed by the cursor |
| `Renderer.Cycles` | index.ts:208-218 | after `m` taps, each run to completion, the renderer is at rest and the cursor is the reference bounce iterated `m` times |
| `Renderer.TenTapsRestore` | index.ts:176-218 | ten completed taps bring the page back exactly to its initial state |

## Left out

- Drawing is not modelled: `DrawingUtil`, `ScaleUtil.sinify`, the `draw` methods and `Renderer.render` issue canvas calls and use `Math.sin`. The drawing feeds `divideScale` with `sin(scale*pi)`. Under the state invariant `scale` stays in [0, 1], so that value is also in [0, 1].
- `Stage` is not modelled. It creates the canvas, reads the window size and wires `onmousedown`, which is DOM plumbing.
- The redraw callbacks passed to `handleTap` and `update` only call `render`, so they have no effect on the modelled state.
- The interval timer (`setInterval`, `clearInterval`, the 20 ms delay) is not modelled as real time. It becomes the `animated` flag and a count of registered intervals. One firing of the interval is one `Tick`.
- Floating point is not modelled. `scale`, `dir` and `prevScale` are exact reals. The count of 201 ticks per animation holds only with exact reals. In IEEE doubles, 200 additions of 0.005 starting from 0 give 1.0000000000000007, and 200 subtractions starting from 1 give about -8.2e-16. Both are more than 1 away from the start, so in the program completion fires on tick 200 in both directions.
- The colour strings are left out, because only their number matters.
- `BRCNode.update` and `BRCNode.startUpdating` only delegate to the node's `State`. They are folded into `Traversal.Update` and `Traversal.StartUpdating`.
- ScaleUtil.MaxScale: requires `n > 0`. Division by `n <= 0` would give IEEE infinities or flip the sub-phase split. Every call passes `parts = 4`.
- ScaleUtil.DivideScale: requires `n > 0`, for the same reason.
- Traversal.Update: requires a well-linked chain, the cursor on it and `dir` equal to 1 or -1. In the program `curr` is always a node of the chain, and `dir` starts at 1 and is only ever negated, so every reachable circle meets this.
- Traversal.StartUpdating: requires the same well-formed circle, for the same reason.
- Renderer.HandleTap: requires the page's circle to be well formed, for the same reason.
- Renderer.Tick: requires the page's circle to be well formed, for the same reason.
