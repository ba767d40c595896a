# Digital filter: a Dafny model of `Filter` (Include/Filter.hpp)

The library's `Filter` class template is an IIR digital filter in
Direct-Form-II-Transposed (DF-II-T) structure. It is built from a numerator
coefficient array `num` (length N), a denominator coefficient array `de_num`
(length M) and a block length L. It keeps a delay line of N - 1 cells that
starts at zero. `step` filters one block of L input samples into an output
block of L samples, and the delay line carries over from one call to the
next.

For N > 1, each sample x gives the output y = state[0] + num[0]·x. The
delay line is then updated in place, from the lowest cell upwards:

- each cell k < N - 2 gets the old cell k + 1, plus x·num[k+1], minus
  y·den[k+1];
- the last cell gets x·num[N-1] - y·den[N-1].

With N = 1 there is no delay line, and the filter is a pure gain x·num[0].
The leading denominator tap den[0] is never read, so it is taken to be 1.

The project has three modules:

- `FilterSpec` (filter_spec.dfy): the recurrence as pure functions over exact
  reals. `StepSample` covers one sample and `StepBlock` a block. The module
  also proves the properties of the recurrence:
  - a block can be split into smaller blocks with the same result;
  - the delay line is threaded from sample to sample;
  - the N = 1 case is a pure gain;
  - den[0] and every tap past index N - 1 are never read;
  - the old last cell is overwritten rather than shifted;
  - the filter is linear.
- `DifferenceEquation` (difference_equation.dfy): an independent reference,
  the textbook difference equation
  y[n] = Σ_{k<N} num[k]·x[n-k] − Σ_{1≤k<N} den[k]·y[n-k]. It also proves that
  the DF-II-T recurrence, started from the zero delay line, computes exactly
  these outputs.
- `DigitalFilter` (filter.dfy): the `Filter` class itself.
  - The coefficients are immutable fields.
  - The delay line is an `array<real>` updated in place.
  - `Step` writes into an output array with a loop, and is proved equal to
    `StepBlock`.
  - A small client runs one filter on two consecutive blocks.

## Model

| member | source | states |
|---|---|---|
| FilterSpec.StepSample | Include/Filter.hpp:99-121 | one sample: with N > 1 the output is y = s[0] + num[0]·x, cell k < N - 2 becomes the old cell k + 1 plus x·num[k+1] minus y·den[k+1] (`MiddleDelay`, line 106), and the last cell becomes x·num[N-1] - y·den[N-1] (`LastDelay`, line 111); with N = 1 the output is x·num[0] and the empty delay line stays; in every case the delay line keeps its N - 1 cells |
| FilterSpec.StepBlock | Include/Filter.hpp:93-112 | a block of samples gives exactly one output per input sample, and the delay line keeps its N - 1 cells |
| FilterSpec.StepBlockAppend | Include/Filter.hpp:93-112 | filtering xs and then ys, continuing from the delay line xs left, gives the same outputs and final delay line as filtering xs + ys in one block, so block boundaries do not matter |
| FilterSpec.StepBlockAt | Include/Filter.hpp:93-112 | output i and the delay line after sample i come from one sample step applied to the delay line left after the first i samples |
| FilterSpec.LastCellOverwritten | Include/Filter.hpp:104-111 | with N > 2, the old last delay cell does not reach the new last cell: two delay lines that differ only in their last cell give the same output, the same new last cell and the same new cells below N - 3 |
| FilterSpec.PureGain | Include/Filter.hpp:114-121 | with a single numerator tap, every output sample is the input sample times num[0], and the empty delay line is unchanged |
| FilterSpec.DenominatorReadOnlyAtOneToNMinusOne | Include/Filter.hpp:96-111 | two denominator sequences that agree on indices 1..N-1 give identical runs, so den[0] and any taps past N - 1 have no effect |
| FilterSpec.StepSampleLinear | Include/Filter.hpp:99-111 | one sample step is linear in the pair (delay line, input): a·(s1, x1) + b·(s2, x2) gives a·output1 + b·output2 and the same combination of the new delay lines |
| FilterSpec.StepBlockLinear | Include/Filter.hpp:93-112 | a whole block is linear in the pair (initial delay line, input block), for outputs and final delay line alike |
| FilterSpec.ZeroStateLinear | Include/Filter.hpp:93-112 | from the zero delay line, the output of a·xs1 + b·xs2 is a·(output of xs1) + b·(output of xs2) |
| DifferenceEquation.ZeroStateDelays | Include/Filter.hpp:93-112 | from the zero delay line, the outputs are those of the difference equation, and after n samples cell k holds the part of y[n+k] that is already determined by the samples seen so far |
| DifferenceEquation.MatchesDifferenceEquation | Include/Filter.hpp:93-112 | from the zero delay line, the filter's outputs equal the difference equation's y[n] = Σ num[k]·x[n-k] − Σ_{k≥1} den[k]·y[n-k] |
| DigitalFilter.Filter.constructor | Include/Filter.hpp:30-31 | the filter keeps copies of both coefficient sequences and the block length, and its delay line is a fresh array of N - 1 zeros |
| DigitalFilter.Filter.Num | Include/Filter.hpp:54 | returns the stored numerator coefficients, of which there is at least one |
| DigitalFilter.Filter.DeNum | Include/Filter.hpp:61 | returns the stored denominator coefficients, which reach every index the filter reads |
| DigitalFilter.Filter.State | Include/Filter.hpp:70 | returns the current delay line, N - 1 cells |
| DigitalFilter.Filter.Advance | Include/Filter.hpp:95-111 | for one sample with N > 1, the in-place ascending update of the delay line and the returned output equal the pure sample step applied to the old delay line |
| DigitalFilter.Filter.Step | Include/Filter.hpp:86-123 | the output array and the new delay line are exactly the pure block recurrence run from the old delay line over the input array; only the delay line and the output array change, and the coefficients never do |
| DigitalFilter.FilterTwoBlocks | Include/Filter.hpp:86-123 | a fresh filter given two consecutive blocks returns the outputs and final delay line of one run over their concatenation from the zero delay line, because the delay line persists between calls |

## Left out

- Arithmetic is over exact reals. Single-precision rounding, overflow, NaN and infinities are not modelled, so linearity and agreement with the difference equation hold exactly in the model but only approximately for `float`.
- The template parameters (`unsigned short` N, M, L) become the lengths of the constructor's arguments and the field `stepSize`. The constructor requires N ≥ 1 and, when N > 1, at least N denominator taps, because `step` reads den[1..N-1]. The 16-bit width of the parameters is not modelled.
- The size check in the constructor is commented out in the source, and nothing is ever thrown. The model therefore has no error path, although the documentation mentions `std::invalid_argument` and a `std::exception` from `step`.
- With N = 1, the pure-gain branch of `step` dereferences a pointer it never initialises, which is undefined behaviour. The model gives that branch its evident meaning, output = input·num[0].
- Raw-pointer walking is modelled as indexing. For N > 1, the per-sample body of `step` is the method `Advance`, which `Step` calls once per sample; for N = 1, `Step`'s own loop writes x·num[0].
- `Step` requires the input array, the output array and the delay line to be distinct arrays. A call where the input and output alias the same buffer is not modelled; in the source, an aliased call would read each input sample after its output is written.
- Denominator taps past index N - 1 (when M > N) are stored but never read, and so is den[0]. The model keeps them in `den`. `DenominatorReadOnlyAtOneToNMinusOne` proves they have no effect, and the difference equation is stated with N - 1 feedback terms, den[1..N-1] (den[0] taken as 1).
- The coefficients are `const` fields, so "step never changes the coefficients" holds by construction. It is not a separate postcondition.
- Stability, decay of the impulse response and frequency response are not modelled; they depend on the coefficients and not on this code.
