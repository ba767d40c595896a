/**
 * An independent reference for the filter: the textbook difference equation
 *
 *   y[n] = sum_{k=0}^{N-1} num[k] * x[n-k]  -  sum_{k=1}^{N-1} den[k] * y[n-k]
 *
 * (signals are zero before they start, and den[0] is taken to be 1), and the
 * proof that the Direct-Form-II-Transposed recurrence of `Filter::step`,
 * started from the zero delay line, produces exactly these outputs.
 */
module DifferenceEquation {
  import opened FilterSpec

  /** Sample i of a signal that is zero outside its recorded samples. */
  function At(xs: seq<real>, i: int): real
  {
    if 0 <= i < |xs| then xs[i] else 0.0
  }

  /** One tap: a coefficient times a sample. */
  function Tap(c: real, v: real): real
  {
    c * v
  }

  /** sum_{k=lo}^{hi-1} num[k] * x[n-k] */
  function FeedForward(num: seq<real>, xs: seq<real>, n: int, lo: nat, hi: nat): real
    requires hi <= |num|
    decreases hi - lo
  {
    if lo >= hi then 0.0 else Tap(num[lo], At(xs, n - lo)) + FeedForward(num, xs, n, lo + 1, hi)
  }

  /** sum_{k=lo}^{hi-1} den[k] * y[n-k] */
  function FeedBack(den: seq<real>, ys: seq<real>, n: int, lo: nat, hi: nat): real
    requires lo < hi ==> hi <= |den|
    decreases hi - lo
  {
    if lo >= hi then 0.0 else Tap(den[lo], At(ys, n - lo)) + FeedBack(den, ys, n, lo + 1, hi)
  }

  /** The outputs the difference equation gives for the inputs xs, each one
      from the inputs so far and the outputs before it. */
  function Response(num: seq<real>, den: seq<real>, xs: seq<real>): (ys: seq<real>)
    requires WellFormed(num, den)
    ensures |ys| == |xs|
    decreases |xs|
  {
    if xs == [] then
      []
    else
      var n := |xs| - 1;
      var past := Response(num, den, xs[..n]);
      past + [FeedForward(num, xs, n, 0, |num|) - FeedBack(den, past, n, 1, |num|)]
  }

  /** The part of future outputs that delay cell k holds once the inputs xs
      have produced the outputs ys: the taps k+1 .. N-1 applied to the
      samples already seen. */
  function Pending(num: seq<real>, den: seq<real>, xs: seq<real>, ys: seq<real>, k: nat): real
    requires WellFormed(num, den) && k < |num| - 1
  {
    FeedForward(num, xs, |xs| + k, k + 1, |num|) - FeedBack(den, ys, |xs| + k, k + 1, |num|)
  }

  /** The feed-forward sum reads inputs at indices up to n - lo only. */
  lemma {:induction false} FeedForwardPrefix(num: seq<real>, xs: seq<real>, xs': seq<real>, n: int, lo: nat, hi: nat)
    requires hi <= |num|
    requires |xs'| <= |xs| && xs' == xs[..|xs'|] && n - lo < |xs'|
    ensures FeedForward(num, xs', n, lo, hi) == FeedForward(num, xs, n, lo, hi)
    decreases hi - lo
  {
    if lo < hi {
      assert At(xs', n - lo) == At(xs, n - lo);
      FeedForwardPrefix(num, xs, xs', n, lo + 1, hi);
    }
  }

  /** The feedback sum reads outputs at indices up to n - lo only. */
  lemma {:induction false} FeedBackPrefix(den: seq<real>, ys: seq<real>, ys': seq<real>, n: int, lo: nat, hi: nat)
    requires lo < hi ==> hi <= |den|
    requires |ys'| <= |ys| && ys' == ys[..|ys'|] && n - lo < |ys'|
    ensures FeedBack(den, ys', n, lo, hi) == FeedBack(den, ys, n, lo, hi)
    decreases hi - lo
  {
    if lo < hi {
      assert At(ys', n - lo) == At(ys, n - lo);
      FeedBackPrefix(den, ys, ys', n, lo + 1, hi);
    }
  }

  /** Before the signals start both sums are zero. */
  lemma {:induction false} SumsBeforeStart(num: seq<real>, den: seq<real>, xs: seq<real>, ys: seq<real>,
                                           n: int, lo: nat, hi: nat)
    requires hi <= |num| && (lo < hi ==> hi <= |den|) && n - lo < 0
    ensures FeedForward(num, xs, n, lo, hi) == 0.0 && FeedBack(den, ys, n, lo, hi) == 0.0
    decreases hi - lo
  {
    if lo < hi {
      SumsBeforeStart(num, den, xs, ys, n, lo + 1, hi);
    }
  }

  /** The output of one sample step, written with taps. */
  lemma StepSampleOutput(num: seq<real>, den: seq<real>, s: seq<real>, x: real)
    requires WellFormed(num, den) && |s| == |num| - 1
    ensures StepSample(num, den, s, x).output == (if |s| > 0 then s[0] else 0.0) + Tap(num[0], x)
  {
  }

  /** Delay cell k after one sample step, written with taps. */
  lemma StepSampleCell(num: seq<real>, den: seq<real>, s: seq<real>, x: real, k: nat)
    requires WellFormed(num, den) && |s| == |num| - 1 && k < |s|
    ensures var t := StepSample(num, den, s, x);
            t.state[k] == (if k < |s| - 1 then s[k + 1] else 0.0) + Tap(num[k + 1], x) - Tap(den[k + 1], t.output)
  {
  }

  /** The difference equation's next output is the pending part of the first
      delay cell plus the direct term. */
  lemma {:induction false} NextOutput(num: seq<real>, den: seq<real>, xs: seq<real>, past: seq<real>)
    requires WellFormed(num, den) && xs != [] && |past| == |xs| - 1
    ensures var n := |xs| - 1;
            FeedForward(num, xs, n, 0, |num|) - FeedBack(den, past, n, 1, |num|)
            == (if |num| > 1 then Pending(num, den, xs[..n], past, 0) else 0.0) + Tap(num[0], xs[n])
  {
    var n, N := |xs| - 1, |num|;
    assert At(xs, n) == xs[n];
    if N > 1 {
      FeedForwardPrefix(num, xs, xs[..n], n, 1, N);
    }
  }

  /** After one more sample, delay cell k holds the pending part of the cell
      above it as it was before, plus the taps k+1 on the new input and output. */
  lemma {:induction false} NextPending(num: seq<real>, den: seq<real>, xs: seq<real>, ys: seq<real>, k: nat)
    requires WellFormed(num, den) && k < |num| - 1
    requires xs != [] && |ys| == |xs|
    ensures var n := |xs| - 1;
            Pending(num, den, xs, ys, k)
            == (if k < |num| - 2 then Pending(num, den, xs[..n], ys[..n], k + 1) else 0.0)
               + Tap(num[k + 1], xs[n]) - Tap(den[k + 1], ys[n])
  {
    var n, N, T := |xs| - 1, |num|, |xs| + k;
    assert At(xs, n) == xs[n] && At(ys, n) == ys[n];
    assert FeedForward(num, xs, T, k + 1, N) == Tap(num[k + 1], xs[n]) + FeedForward(num, xs, T, k + 2, N);
    assert FeedBack(den, ys, T, k + 1, N) == Tap(den[k + 1], ys[n]) + FeedBack(den, ys, T, k + 2, N);
    if k < N - 2 {
      FeedForwardPrefix(num, xs, xs[..n], T, k + 2, N);
      FeedBackPrefix(den, ys, ys[..n], T, k + 2, N);
    }
  }

  /** From the zero delay line the recurrence produces the difference
      equation's outputs, and each delay cell holds its pending part. */
  lemma {:induction false} ZeroStateDelays(num: seq<real>, den: seq<real>, xs: seq<real>)
    requires WellFormed(num, den)
    ensures var r := StepBlock(num, den, Zeros(|num| - 1), xs);
            var ys := Response(num, den, xs);
            r.outputs == ys && forall k :: 0 <= k < |num| - 1 ==> r.state[k] == Pending(num, den, xs, ys, k)
    decreases |xs|
  {
    var N, z := |num|, Zeros(|num| - 1);
    if xs == [] {
      forall k | 0 <= k < N - 1 ensures z[k] == Pending(num, den, [], [], k) {
        SumsBeforeStart(num, den, [], [], k, k + 1, N);
      }
    } else {
      var n := |xs| - 1;
      var xs', x := xs[..n], xs[n];
      ZeroStateDelays(num, den, xs');
      var p, ys' := StepBlock(num, den, z, xs'), Response(num, den, xs');
      var ys := Response(num, den, xs);
      var y := ys[n];
      assert ys == ys' + [y] && ys[..n] == ys';
      StepBlockLast(num, den, z, xs);
      var t := StepSample(num, den, p.state, x);
      // the output: the first delay cell plus the direct term
      NextOutput(num, den, xs, ys');
      StepSampleOutput(num, den, p.state, x);
      assert t.output == y;
      // the delay line: each cell takes the pending part of the cell above
      forall k | 0 <= k < N - 1 ensures t.state[k] == Pending(num, den, xs, ys, k) {
        NextPending(num, den, xs, ys, k);
        StepSampleCell(num, den, p.state, x, k);
      }
    }
  }

  /** Started from the zero delay line, the filter computes the difference
      equation: y[n] = sum_k num[k]*x[n-k] - sum_{k>=1} den[k]*y[n-k]. */
  lemma MatchesDifferenceEquation(num: seq<real>, den: seq<real>, xs: seq<real>)
    requires WellFormed(num, den)
    ensures StepBlock(num, den, Zeros(|num| - 1), xs).outputs == Response(num, den, xs)
  {
    ZeroStateDelays(num, den, xs);
  }
}
