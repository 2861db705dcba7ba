# Signal equalizer core, modelled in Dafny

The application loads an audio recording and equalizes it in the frequency
domain. Each slider scales one or more frequency bands. The path from samples
to equalized samples is:

1. a hand-written radix-2 Cooley–Tukey FFT over interleaved `[re, im, …]`
   arrays, with the signal zero-padded to a power of two;
2. a band loop that multiplies the bins around each band's centre by a
   triangular falloff of the slider's scale, mirrored onto the negative
   frequencies;
3. the inverse FFT, copied to every channel of a new buffer;
4. Hann-windowed magnitude spectrograms of the original and processed signals.

The slider editors (generic and preset modes) and the plot downsampler
complete the core.

The model is a set of pure Dafny functions over `seq<real>`. Each module
follows one part of the program:

| module | file | models |
|---|---|---|
| `Complex` | complex.dfy | complex arithmetic the transform performs inline |
| `MathLib` | mathlib.dfy | `Math.cos`, `Math.sin` and `Math.sqrt` as parameters, with the laws of the unit circle the proofs need |
| `PowerOfTwo` | pow2.dfy | the padded length `2^ceil(log2 n)` |
| `Dsp` | dsp.dfy | `padSignal`, `fftRecursive`, `fft`, `ifft`, `applyHannWindow` and `createSpectrogram` |
| `Sums`, `Fourier` | sums.dfy, fourier.dfy | the discrete Fourier transform as a sum, and its splitting and inversion laws |
| `FftLaws` | fft_laws.dfy | what the recursive transform computes: the DFT, its inverse, and conjugate symmetry for real input |
| `EqConfig` | eq_config.dfy | slider settings and `updateSlider`, `addSlider`, `removeSlider` and `handleSliderChange` |
| `Equalizer` | equalizer.dfy | `freqToBin`, the band range clamp, the falloff, the mirrored bin scaling, and the whole slider loop |
| `SignalProcessor` | signal_processor.dfy | the two effects of the signal-processor hook as transitions of the shared state |
| `Downsample` | downsample.dfy | `getDownsampledData`, the min/max bucket downsampler of the waveform plot |

Two properties anchor the model:

- `FftLaws.RoundTrip`: `Ifft(Fft(x)) == PadSignal(x)` for every signal.
- `Equalizer.UnitScalesIdentity`: with every slider at unity scale, the
  equalized spectrum is the original spectrum. This holds for the corrected
  falloff. As written, the program writes NaN at the centre of a band narrower
  than one bin (see "## Findings").

Two further properties concern the equalizer:

- Nothing outside the bands changes.
- The mirrored edit keeps the spectrum of a real signal conjugate-symmetric.

The order of the sliders does not matter.

Angles are in turns. `m.cos(x)` stands for `Math.cos(2πx)`, so the twiddle
`∓2πk/N` is the turn count `∓k/N`. The cosine and sine are not defined in the
model. Properties that depend on them assume the predicate
`MathLib.UnitCircle`, which states:

- the angle-addition law;
- the values at 0 and at half a turn;
- evenness of the cosine and oddness of the sine;
- that the cosine is 1 nowhere strictly between 0 and 1 turn.

## Model

| member | source | states |
|---|---|---|
| PowerOfTwo.NextPow2 | src/lib/dsp.js:14-15 | the padded length is 0 for an empty signal; otherwise it is a power of two, at least n and below 2n |
| PowerOfTwo.NextPow2IsLeast | src/lib/dsp.js:15 | no smaller power of two covers n: the padded length is the least one |
| PowerOfTwo.NextPow2OfPow2 | src/lib/dsp.js:16-18 | a length that is already a power of two is its own padded length |
| Dsp.PadSignal | src/lib/dsp.js:13-22 | the result is the signal followed by zeros up to the next power of two; a power-of-two signal comes back unchanged |
| Dsp.Interleave | src/lib/dsp.js:27 | the interleaved array has two slots per bin, and reading bin k back gives the k-th complex value |
| Dsp.BinsOfInterleave | src/lib/dsp.js:27 | reading the bins of an interleaved array gives back the complex values it was built from |
| Dsp.InterleaveOfBins | src/lib/dsp.js:27 | interleaving the bins of an even-length array gives back the array |
| Dsp.Decimate | src/lib/dsp.js:39-51 | the even (odd) half holds the even-indexed (odd-indexed) complex samples, in order |
| Dsp.FftRecursive | src/lib/dsp.js:31-83 | the transform keeps the length, and returns arrays of at most one complex sample unchanged |
| Dsp.RealToComplex | src/lib/dsp.js:94-99 | sample i sits in the real slot of bin i; every imaginary slot is 0 |
| Dsp.Fft | src/lib/dsp.js:90-103 | the spectrum holds 2·NextPow2(n) slots, a length the recursion accepts |
| Dsp.Ifft | src/lib/dsp.js:110-124 | the reconstruction has one real sample per bin |
| Dsp.HannWindow | src/lib/dsp.js:130-137 | the window keeps the length, and the first sample becomes 0 |
| Dsp.HannLastSample | src/lib/dsp.js:134 | the last sample of a windowed chunk is 0 as well |
| Dsp.HannAttenuates | src/lib/dsp.js:134 | each coefficient lies in [0, 1], so windowing never amplifies a sample |
| Dsp.Magnitudes | src/lib/dsp.js:163-169 | one magnitude per requested bin, each non-negative when the square root is |
| Dsp.Frame | src/lib/dsp.js:152-171 | one spectrogram column has NextPow2(W)/2 + 1 non-negative magnitudes |
| Dsp.ChunkCount | src/lib/dsp.js:150 | the loop from a start index visits exactly as many windows as there are starts start + j·H whose window of W samples fits in the signal |
| Dsp.ChunkAt | src/lib/dsp.js:150-152 | window j is the slice of the signal from j·H to j·H + W, and it lies inside the signal |
| Dsp.CreateSpectrogram | src/lib/dsp.js:146-174 | one column per window start that fits; column j is the magnitude spectrum of the Hann-windowed slice at j·H; all columns have the same length and hold non-negative values |
| Fourier.DftSplit | src/lib/dsp.js:39-80 | a DFT of 2h points is the DFT of the even samples plus a twiddle times the DFT of the odd samples |
| Fourier.Inversion | src/lib/dsp.js:110-124 | applying the inverse transform to the forward transform gives n times the input |
| FftLaws.ButterflyLayout | src/lib/dsp.js:57-80 | for k < N/2, output bin k is E_k + w_k·O_k and output bin k + N/2 is E_k − w_k·O_k, where E and O are the half transforms of the even- and odd-indexed bins and w_k is the twiddle at angle ∓2πk/N |
| FftLaws.InverseIsMirroredForward | src/lib/dsp.js:60-63 | the inverse flag only flips the twiddle angle: the inverse transform is the forward transform with the mirrored sine |
| FftLaws.DcBinIsSum | src/lib/dsp.js:31-83 | bin 0 of the transform is the plain sum of the input samples |
| FftLaws.SpectrumOfOnes | src/lib/dsp.js:90-103 | N ones, N a power of two, transform to N at bin 0 and 0 at every other bin |
| FftLaws.FftIsDft | src/lib/dsp.js:31-83 | the recursive butterfly computes exactly the discrete Fourier transform of its bins, forward or inverse |
| FftLaws.FftSpectrum | src/lib/dsp.js:90-103 | the spectrum is the DFT of the zero-padded signal viewed as complex numbers |
| FftLaws.RoundTrip | src/lib/dsp.js:90-124 | ifft inverts fft: it returns the zero-padded signal exactly |
| FftLaws.FftConjugateSymmetric | src/lib/dsp.js:90-103 | the spectrum of a real signal is conjugate-symmetric: bin N−k is the conjugate of bin k |
| EqConfig.UpdateSlider | src/components/Equalizer/GenericEq.jsx:13-26 | only the slider with the id changes; its scale is set, or its first band's field is set and the other bands are dropped; the mode and the length are kept |
| EqConfig.UpdateKeepsIds | src/components/Equalizer/GenericEq.jsx:13-26 | an update keeps the set of ids and their uniqueness |
| EqConfig.UpdateIdempotent | src/components/Equalizer/GenericEq.jsx:13-26 | repeating the same update changes nothing more |
| EqConfig.NatToStringRoundTrip | src/components/Equalizer/GenericEq.jsx:31 | the decimal numeral in the new slider's label reads back as the number, with no leading zero |
| EqConfig.AddSlider | src/components/Equalizer/GenericEq.jsx:28-36 | the sliders are kept, and one new slider is appended with one band centred at 1000 Hz and 500 Hz wide, unity scale and label "Band k+1" |
| EqConfig.AddKeepsUniqueIds | src/components/Equalizer/GenericEq.jsx:28-36 | with a fresh id, the ids stay unique and gain exactly that id |
| EqConfig.WithoutId | src/components/Equalizer/GenericEq.jsx:39 | the filter keeps exactly the sliders with another id |
| EqConfig.WithoutIdAppend | src/components/Equalizer/GenericEq.jsx:39 | filtering distributes over concatenation |
| EqConfig.RemoveSlider | src/components/Equalizer/GenericEq.jsx:38-41 | no slider with the id remains; every other slider remains, and nothing new appears |
| EqConfig.RemoveAbsentId | src/components/Equalizer/GenericEq.jsx:38-41 | removing an id that is not present changes nothing |
| EqConfig.RemoveUndoesAdd | src/components/Equalizer/GenericEq.jsx:28-41 | removing a just-added slider restores the settings |
| EqConfig.WithoutIdKeepsUniqueIds | src/components/Equalizer/GenericEq.jsx:39 | removal keeps the ids unique |
| EqConfig.HandleSliderChange | src/components/Equalizer/CustomEq.jsx:9-14 | the slider with the id takes the first value as its scale; every other slider and the mode are kept |
| EqConfig.SliderChangeIsScaleEdit | src/components/Equalizer/CustomEq.jsx:9-14 | the preset handler is the generic scale update with the slider's first value |
| Equalizer.Round | src/hooks/useSignalProcessor.js:54 | the result is the integer nearest to x, with halves rounded up |
| Equalizer.FreqToBin | src/hooks/useSignalProcessor.js:54 | the bin is the one nearest to freq/sampleRate · N |
| Equalizer.LowBin | src/hooks/useSignalProcessor.js:64 | the first edited bin is max(0, c − w): it is at least both and equals one of them |
| Equalizer.HighBin | src/hooks/useSignalProcessor.js:65 | the last edited bin is min(N/2, c + w): it is at most both and equals one of them |
| Equalizer.BandRangeBounds | src/hooks/useSignalProcessor.js:64-67 | every edited bin lies in [0, N/2]; the range is empty for a band above Nyquist or with a negative half-width (a width below −sampleRate/N); a mirror bin N − i lies in (N/2, N) |
| Equalizer.Falloff | src/hooks/useSignalProcessor.js:69-70 | the weight lies in [0, 1]; at half-width 0 it is the corrected weight 1, not the source's NaN |
| Equalizer.EffectiveScale | src/hooks/useSignalProcessor.js:71 | the gain lies between 1 and the slider's scale, using the corrected weight at half-width 0 |
| Equalizer.FalloffEndpoints | src/hooks/useSignalProcessor.js:69-71 | the centre bin gets the full scale, and bins at distance w ≥ 1 get unity; at w = 0 the centre gets the corrected full scale |
| Equalizer.UnitScaleIsIdentity | src/hooks/useSignalProcessor.js:71 | scale 1 gives gain 1 at every distance, for the corrected weight at half-width 0 |
| Equalizer.AsWrittenAgrees | src/hooks/useSignalProcessor.js:69-71 | for every positive half-width, the source's JavaScript arithmetic gives the same finite gain as the model |
| Equalizer.ZeroWidthGivesNaN | src/hooks/useSignalProcessor.js:62-71 | a zero half-width still edits its centre bin, where the source computes 0/0 and writes NaN |
| Equalizer.ApplyAtBinFactor | src/hooks/useSignalProcessor.js:75-85 | one iteration multiplies bin i, and its mirror N − i when 0 < i < N/2, by the gain; every other slot is unchanged |
| Equalizer.ApplyBandFromFactor | src/hooks/useSignalProcessor.js:67-86 | the band loop multiplies each slot by the product of the gains of the iterations that reach its bin |
| Equalizer.RangeFactorMirror | src/hooks/useSignalProcessor.js:75-85 | a bin and its mirror get the same factor from a band inside [0, N/2] |
| Equalizer.BandEditOf | src/hooks/useSignalProcessor.js:60-65 | each band's bin range stays inside [0, N/2] |
| Equalizer.Plan | src/hooks/useSignalProcessor.js:57-88 | every run of every slider stays inside [0, N/2] |
| Equalizer.ApplyAllFactor | src/hooks/useSignalProcessor.js:57-88 | running a sequence of multiplying steps multiplies each slot by the product of their factors |
| Equalizer.FactorAllAppend | src/hooks/useSignalProcessor.js:57 | the factor of two concatenated plans is the product of their factors |
| Equalizer.ApplySliders | src/hooks/useSignalProcessor.js:51-88 | the edited spectrum has the length of the original |
| Equalizer.ApplyPlanFactor | src/hooks/useSignalProcessor.js:57-88 | every slot of the edited spectrum is the original slot times the product of the gains that reach its bin |
| Equalizer.SlidersFactor | src/hooks/useSignalProcessor.js:57-88 | for the sliders' plan: every slot of the equalized spectrum is the original slot times the product of the gains of the bands that reach its bin |
| Equalizer.UntouchedPlanFactor | src/hooks/useSignalProcessor.js:64-85 | a bin that no band reaches has factor 1 |
| Equalizer.UntouchedBinUnchanged | src/hooks/useSignalProcessor.js:57-88 | nothing outside the bands changes: a bin that no band reaches keeps its value |
| Equalizer.UnitPlan | src/hooks/useSignalProcessor.js:58-71 | with every scale at 1, every run has gain 1 at every bin, for the corrected weight at half-width 0 |
| Equalizer.UnitScalesIdentity | src/hooks/useSignalProcessor.js:51-88 | with every scale at 1, the equalized spectrum equals the original, for the corrected weight at half-width 0 |
| Equalizer.PlanFactorMirror | src/hooks/useSignalProcessor.js:75-85 | the whole edit scales a bin and its mirror by the same factor |
| Equalizer.EditedBin | src/hooks/useSignalProcessor.js:78-79 | an edited bin is the original complex bin scaled by its real factor |
| Equalizer.EditKeepsConjugateSymmetry | src/hooks/useSignalProcessor.js:74-85 | a conjugate-symmetric spectrum stays conjugate-symmetric, so the inverse transform stays real |
| Equalizer.PlanAppend | src/hooks/useSignalProcessor.js:57 | the runs of a + b are the runs of a followed by those of b |
| Equalizer.PlansCommute | src/hooks/useSignalProcessor.js:57-88 | two plans give the same spectrum in either order |
| Equalizer.SliderOrderIrrelevant | src/hooks/useSignalProcessor.js:57-88 | swapping two groups of sliders does not change the equalized spectrum |
| Equalizer.ZeroWidthExample | src/hooks/useSignalProcessor.js:61-85 | a concrete zero-width band at 2 Hz (rate 8, N = 8) scales exactly bins 2 and 6 by the full scale and leaves every other bin alone |
| SignalProcessor.Initial | src/context/SignalContext.jsx:23 | the initial state is well-formed and has no sliders |
| SignalProcessor.OnSignal | src/hooks/useSignalProcessor.js:26-41 | without a recording nothing changes; otherwise the original spectrum has 2·NextPow2 slots of channel 0, and every processed value starts equal to its original |
| SignalProcessor.OnSignalAnalyses | src/hooks/useSignalProcessor.js:30-38 | the stored spectrum and spectrogram are those of channel 0 with window 2048 and hop 512 |
| SignalProcessor.OnSignalIdempotent | src/hooks/useSignalProcessor.js:26-41 | re-running the first effect changes nothing more |
| SignalProcessor.CopyToChannels | src/hooks/useSignalProcessor.js:97-106 | the new buffer has the given rate and channel count, and every channel holds the processed samples |
| SignalProcessor.OnConfig | src/hooks/useSignalProcessor.js:44-114 | without a spectrum or recording nothing changes. Otherwise: every slot of the edited spectrum is the original slot times the product of the gains of the bands that reach its bin; every channel holds its inverse transform at the original rate; the processed spectrogram is that of the new samples; the originals and settings are untouched |
| SignalProcessor.OnConfigIdempotent | src/hooks/useSignalProcessor.js:114 | the second effect depends only on the originals and settings, so re-running it changes nothing |
| SignalProcessor.OnConfigUntouchedBin | src/hooks/useSignalProcessor.js:51-91 | the processed spectrum equals the original at every bin that no band reaches |
| SignalProcessor.OnConfigKeepsConjugateSymmetry | src/hooks/useSignalProcessor.js:74-91 | a conjugate-symmetric original spectrum gives a conjugate-symmetric processed spectrum |
| SignalProcessor.UnitScalesKeepSpectrum | src/hooks/useSignalProcessor.js:51-91 | at unity scales the processed spectrum is the original, for the corrected weight at half-width 0 |
| SignalProcessor.UnitScalesRoundTrip | src/hooks/useSignalProcessor.js:33-106 | at unity scales every processed channel is channel 0 of the recording, zero-padded, for the corrected weight at half-width 0 |
| SignalProcessor.OnConfigOrderIrrelevant | src/hooks/useSignalProcessor.js:57-112 | swapping two groups of sliders gives the same processed state |
| Downsample.BucketsCoverAlmostAll | src/components/Viewers/SignalPlot.jsx:9-15 | the buckets of width floor(len/target) cover all but fewer than `target` trailing samples |
| Downsample.BucketExtremes | src/components/Viewers/SignalPlot.jsx:18-23 | returns the minimum and the maximum of the bucket, each attained in it |
| Downsample.GetDownsampledData | src/components/Viewers/SignalPlot.jsx:5-29 | no data gives no points. A bucket width below 2 gives one point per sample. Otherwise each bucket i gives two points: its start with the bucket's minimum, and its end with its maximum |

## Left out

- Float32 storage. Every `Float32Array` value is an exact real, so the model
  has no rounding. The round trip and identity laws hold up to floating-point
  error in the program.
- `Math.cos`, `Math.sin` and `Math.sqrt` are parameters of the model, not
  computed. Laws that need them assume `UnitCircle`, `ZeroAngle`,
  `CosBounded` or `SqrtNonNeg`.
- `crypto.randomUUID()` is the `freshId` parameter of `AddSlider`. The
  uniqueness lemmas assume it is fresh.
- `Number(value)` parsing is not modelled. A band field receives the
  already-parsed real.
- React scheduling is not modelled: effect dependencies, batching and
  re-render order. Each effect is a function from the state it reads to the
  state it writes.
- `audioContext`, the drawing code of the plots, and the rest of the user
  interface are outside the core.
- EqConfig.UpdateSlider: for a band field it requires the slider with the id
  to have at least one band. With no band the source spreads `undefined` and
  builds a one-field band, which the model's `BandRange` cannot represent.
- Dsp.HannWindow: a chunk of length 1 is excluded. The source divides by
  N − 1 = 0, and the chunk's cosine argument is NaN. The spectrogram only
  windows chunks of the window size, which is 2048.
- Dsp.CreateSpectrogram requires windowSize ≥ 2 and hopSize ≥ 1. The program
  only calls it with 2048 and 512, and a hop of 0 would loop forever.
- SignalProcessor.OnConfig: for an empty spectrum, `createBuffer` with length
  0 throws. The model keeps the state the effect had written before the
  throw: the processed spectrum only.
- Equalizer.BandRangeBounds: a width below −sampleRate/N gives a negative
  half-width and an empty range, as in the code, so no band is edited. A
  negative width in [−sampleRate/N, 0) rounds to half-width 0, which is the
  zero-width case under "## Findings".
- Equalizer.Falloff: at half-width 0 (`widthBins = 0`) the source computes
  0 / 0 = NaN. The model uses the corrected weight 1 (see "## Findings").
- Equalizer.EffectiveScale: at half-width 0 the source's gain is NaN. The
  model's gain uses the corrected weight 1, so it lies in [1, scale].
- Equalizer.FalloffEndpoints: the full scale at the centre holds at half-width
  0 only for the corrected weight. The source gives NaN there.
- Equalizer.UnitScaleIsIdentity: at half-width 0 the source computes
  1 + 0 · NaN = NaN, not 1. The lemma is about the corrected weight.
- Equalizer.UnitPlan: gain 1 at every bin holds at a zero-half-width centre
  only for the corrected weight. The source gives NaN there.
- Equalizer.UnitScalesIdentity: a unity-scale band of half-width 0 makes the
  source's centre bin and its mirror NaN. The identity holds for the corrected
  falloff.
- SignalProcessor.UnitScalesKeepSpectrum: in the source, a band of half-width
  0 puts NaN at its centre even at unity scale. The lemma is about the
  corrected falloff.
- SignalProcessor.UnitScalesRoundTrip: in the source, a band of half-width 0
  puts NaN in the spectrum, and the inverse transform spreads it to every
  sample. The end-to-end identity holds for the corrected falloff.
- Downsample.GetDownsampledData: `targetPoints` is a natural number. A
  negative or non-integer target and NaN samples are not modelled. The
  source's `Math.min(start + w, len)` always picks `start + w` inside the
  loop, and the model proves this.
- EqConfig.HandleSliderChange requires a non-empty value array. The preset
  panel's single-thumb slider always reports a one-element array; an empty
  array would give `scale: undefined` in the source, which the model's real
  scale cannot represent.
- Equalizer.FreqToBin requires a positive sample rate, as every AudioBuffer
  has one.

## Findings

| source | as written | input that shows it | evidently intended | confidence | as-written member | corrected member |
|---|---|---|---|---|---|---|
| src/hooks/useSignalProcessor.js:62-71 | a band narrower than one bin rounds its half-width to `widthBins = 0`; the loop still visits its centre bin, where `distance / widthBins` is `0 / 0 = NaN`, so `effectiveScale` is NaN and the centre bin (and its mirror) become NaN | sample rate 8, N = 8, band at 2 Hz with width 0: bin 2 is visited with distance 0 and half-width 0 | the falloff is 1 at the centre, so the centre bin is scaled by the slider's scale and nothing else changes | not executed | Equalizer.ZeroWidthGivesNaN | Equalizer.ZeroWidthExample |
