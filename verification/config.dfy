/** Constants of the animation that the logic depends on (index.ts:4-10).
    The canvas size, timer delay and colour values play no part in it. */
module Config {

  /** Number of equal sub-phases the drawing splits sin(pi * progress) into;
      that value rises and falls within one animation, so each sub-phase is
      crossed twice. */
  const Parts: int := 4

  /** Progress added on every timer tick: 0.02 / Parts, that is exactly 1/200. */
  const ScGap: real := 0.02 / (Parts as real)

  /** Number of colours, hence of nodes in the chain. */
  const ColorCount: int := 5
}
