/** Clamp arithmetic that splits a value `scale` into `n` equal sub-phases
    (index.ts:12-20). The drawing applies it to sin(pi * progress), which
    rises from 0 to 1 and falls back within one animation, so each
    sub-phase is crossed twice per animation. Values are exact reals. */
module ScaleUtil {

  /** `x` forced into the interval [lo, hi]: the reference the split is measured against. */
  function Clamp(x: real, lo: real, hi: real): real
    requires lo <= hi
  {
    if x < lo then lo else if x > hi then hi else x
  }

  /** How far `scale` has gone past the start `i/n` of sub-phase `i`, or 0 before it. */
  function MaxScale(scale: real, i: int, n: int): (r: real)
    requires n > 0
    ensures r >= 0.0 && r >= scale - (i as real) / (n as real)
    ensures r == 0.0 || r == scale - (i as real) / (n as real)
    ensures r == scale - (i as real) / (n as real) <==> scale >= (i as real) / (n as real)
  {
    var d := scale - (i as real) / (n as real);
    if 0.0 < d then d else 0.0
  }

  /** How far `scale` is through sub-phase `i` of `n`, rescaled to [0, 1]: the smaller of
      1/n and MaxScale, times n. */
  function DivideScale(scale: real, i: int, n: int): (r: real)
    requires n > 0
    ensures 0.0 <= r <= 1.0
    ensures scale <= (i as real) / (n as real) ==> r == 0.0
    ensures scale >= ((i + 1) as real) / (n as real) ==> r == 1.0
  {
    var m := MaxScale(scale, i, n);
    var width := 1.0 / (n as real);
    (if m < width then m else width) * (n as real)
  }

  /** Within its own window a sub-phase is linear in the value: it is the
      value scaled by n, less the i sub-phases before it, clamped. */
  lemma DivideScaleIsClamp(scale: real, i: int, n: int)
    requires n > 0
    ensures DivideScale(scale, i, n) == Clamp((n as real) * scale - (i as real), 0.0, 1.0)
  {
    var nr := n as real;
    var d := scale - (i as real) / nr;
    assert nr * d == nr * scale - (i as real);
    if d < 1.0 / nr {
      ScaleBelow(d, 1.0 / nr, nr);
    } else {
      ScaleAtLeast(d, 1.0 / nr, nr);
    }
  }

  /** Multiplying by a positive factor keeps a strict order. */
  lemma ScaleBelow(a: real, b: real, c: real)
    requires c > 0.0 && a < b
    ensures c * a < c * b
  {
  }

  /** Multiplying by a positive factor keeps a non-strict order. */
  lemma ScaleAtLeast(a: real, b: real, c: real)
    requires c > 0.0 && a >= b
    ensures c * a >= c * b
  {
  }

  /** Sub-phases run strictly one after another: a later one has started only
      once every earlier one has finished. */
  lemma PhasesInOrder(scale: real, i: int, j: int, n: int)
    requires n > 0 && i < j
    ensures DivideScale(scale, j, n) > 0.0 ==> DivideScale(scale, i, n) == 1.0
    ensures DivideScale(scale, i, n) < 1.0 ==> DivideScale(scale, j, n) == 0.0
  {
    DivideScaleIsClamp(scale, i, n);
    DivideScaleIsClamp(scale, j, n);
  }

  /** Sum of the first `k` sub-phases of `n` at value `scale`. */
  function PhaseSum(scale: real, n: int, k: nat): real
    requires n > 0
  {
    if k == 0 then 0.0 else PhaseSum(scale, n, k - 1) + DivideScale(scale, k - 1, n)
  }

  /** The first `k` sub-phases together account for the value scaled by n,
      capped at k. */
  lemma {:induction false} PhaseSumIsClamp(scale: real, n: int, k: nat)
    requires n > 0
    ensures PhaseSum(scale, n, k) == Clamp((n as real) * scale, 0.0, k as real)
  {
    if k > 0 {
      PhaseSumIsClamp(scale, n, k - 1);
      DivideScaleIsClamp(scale, k - 1, n);
    }
  }

  /** For a value in [0, 1] the n sub-phases split it exactly: their sum is n * scale. */
  lemma PhasesCoverValue(scale: real, n: int)
    requires n > 0 && 0.0 <= scale <= 1.0
    ensures PhaseSum(scale, n, n) == (n as real) * scale
  {
    PhaseSumIsClamp(scale, n, n);
    assert (n as real) * scale <= (n as real) * 1.0;
  }
}
