/**
 * The `Filter` class template of Include/Filter.hpp: a fixed-order IIR filter
 * in Direct-Form-II-Transposed structure. The template parameters
 * (numerator length N, denominator length M, block length L) become the
 * lengths of the constructor's arguments; the coefficient copies are
 * immutable fields, the delay line is an array updated in place, and `Step`
 * is verified against the pure recurrence of module FilterSpec.
 */
module DigitalFilter {
  import opened FilterSpec

  class Filter {
    /** Numerator ("b") coefficients, copied at construction. */
    const num: seq<real>
    /** Denominator ("a") coefficients, copied at construction. */
    const den: seq<real>
    /** Number of samples in every block given to Step. */
    const stepSize: nat
    /** The delay line, N - 1 cells. */
    const state: array<real>

    ghost predicate Valid()
    {
      WellFormed(num, den) && state.Length == |num| - 1
    }

    /** Copies both coefficient sequences and zero-fills the delay line. */
    constructor (num: seq<real>, den: seq<real>, stepSize: nat)
      requires WellFormed(num, den)
      ensures Valid() && fresh(state)
      ensures Num() == num && DeNum() == den && this.stepSize == stepSize
      ensures State() == Zeros(|num| - 1)
    {
      this.num := num;
      this.den := den;
      this.stepSize := stepSize;
      state := new real[|num| - 1](_ => 0.0);
    }

    /** The numerator coefficients: N >= 1 of them. */
    function Num(): (r: seq<real>)
      requires Valid()
      ensures |r| >= 1 && r == num
    {
      num
    }

    /** The denominator coefficients: they reach index N - 1 whenever N > 1. */
    function DeNum(): (r: seq<real>)
      requires Valid()
      ensures WellFormed(Num(), r) && r == den
    {
      den
    }

    /** The current delay line: N - 1 cells. */
    function State(): (r: seq<real>)
      requires Valid()
      reads state
      ensures |r| == |Num()| - 1 && r == state[..]
    {
      state[..]
    }

    /** One sample through a filter with a delay line (N > 1): returns the
        output sample and updates the delay line in place. */
    method Advance(x: real) returns (y: real)
      requires Valid() && |num| > 1
      modifies state
      ensures Tick(y, State()) == StepSample(num, den, old(State()), x)
    {
      ghost var before := state[..];
      ghost var t := StepSample(num, den, before, x);
      // the output: the first delay plus the direct term
      y := state[0] + num[0] * x;
      // the middle delays, in ascending order, each reading the cell above
      // before that cell is overwritten
      var j := 0;
      while j < |num| - 2
        invariant 0 <= j <= |num| - 2
        invariant forall k :: 0 <= k < j ==> state[k] == t.state[k]
        invariant forall k :: j <= k < |num| - 1 ==> state[k] == before[k]
      {
        state[j] := MiddleDelay(state[j + 1], num[j + 1], den[j + 1], x, y);
        j := j + 1;
      }
      // the last delay, from this sample's input and output alone
      state[j] := LastDelay(num[j + 1], den[j + 1], x, y);
      assert state[..] == t.state;
    }

    /** Filters one block of `stepSize` samples into `output`, in index
        order, threading the delay line from sample to sample and leaving it
        for the next call. */
    method Step(input: array<real>, output: array<real>)
      requires Valid()
      requires input.Length == stepSize && output.Length == stepSize
      requires input != output && input != state && output != state
      modifies state, output
      ensures Valid()
      ensures Run(output[..], State()) == StepBlock(num, den, old(State()), input[..])
    {
      ghost var start := state[..];
      if |num| > 1 {
        for i := 0 to stepSize
          invariant output[..i] == StepBlock(num, den, start, input[..i]).outputs
          invariant state[..] == StepBlock(num, den, start, input[..i]).state
        {
          var x := input[i];
          var y := Advance(x);
          output[i] := y;
          assert input[..i + 1][..i] == input[..i] && input[..i + 1][i] == x;
          StepBlockLast(num, den, start, input[..i + 1]);
          assert output[..i + 1] == output[..i] + [y];
        }
      } else {
        // a single tap: a pure gain, and the (empty) delay line stays as it is
        for i := 0 to stepSize
          invariant output[..i] == StepBlock(num, den, start, input[..i]).outputs
          invariant state[..] == StepBlock(num, den, start, input[..i]).state
        {
          ghost var done := StepBlock(num, den, start, input[..i]);
          var x := input[i];
          output[i] := x * num[0];
          assert input[..i + 1][..i] == input[..i] && input[..i + 1][i] == x;
          assert StepSample(num, den, done.state, x) == Tick(x * num[0], state[..]);
          StepBlockLast(num, den, start, input[..i + 1]);
          assert output[..i + 1] == output[..i] + [x * num[0]];
        }
      }
      assert input[..stepSize] == input[..] && output[..stepSize] == output[..];
    }
  }

  /** A client: a fresh filter run on two consecutive blocks gives the same
      outputs and delay line as the recurrence run once over their
      concatenation: the delay line persists between calls. */
  method FilterTwoBlocks(num: seq<real>, den: seq<real>, first: seq<real>, second: seq<real>)
    returns (outputs: seq<real>, finalState: seq<real>)
    requires WellFormed(num, den) && |first| == |second|
    ensures Run(outputs, finalState) == StepBlock(num, den, Zeros(|num| - 1), first + second)
  {
    var f := new Filter(num, den, |first|);
    var a := new real[|first|](i requires 0 <= i < |first| => first[i]);
    var b := new real[|second|](i requires 0 <= i < |second| => second[i]);
    var outA := new real[|first|];
    var outB := new real[|second|];
    f.Step(a, outA);
    assert a[..] == first;
    f.Step(b, outB);
    assert b[..] == second;
    assert f.Num() == num && f.DeNum() == den;
    StepBlockAppend(num, den, Zeros(|num| - 1), first, second);
    outputs, finalState := outA[..] + outB[..], f.State();
  }
}
