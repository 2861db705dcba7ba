/** The band equalizer of src/hooks/useSignalProcessor.js:47-88. Each band of
    each slider maps its centre frequency and half-width to bins with
    `Math.round(freq / sampleRate * N)`, walks the bins i in
    [max(0, c − w), min(N/2, c + w)], and multiplies bin i — and, for
    0 < i < N/2, its mirror N − i — by 1 + (scale − 1)·falloff, where the
    triangular falloff is max(0, 1 − |i − c| / w).

    The model proves that the whole edit is a pointwise multiplication of the
    spectrum by a per-bin factor (BandFactor / TotalFactor), and derives from it
    that bins outside every band are untouched, that a conjugate-symmetric
    spectrum stays conjugate-symmetric, that unit scales change nothing, and that
    the order of the sliders does not matter. */
module Equalizer {
  import opened Complex
  import opened Dsp
  import opened EqConfig

  // ---------------------------------------------------------------------------
  // Frequency to bin (src/hooks/useSignalProcessor.js:54)

  /** Math.round: the nearest integer, halves rounded up. */
  function Round(x: real): (r: int)
    ensures r as real - 0.5 <= x < r as real + 0.5
  {
    (x + 0.5).Floor
  }

  /** The bin nearest to `freq` in a spectrum of N bins at the given sample rate. */
  function FreqToBin(freq: real, sampleRate: real, n: nat): (bin: int)
    requires sampleRate > 0.0
    ensures bin as real - 0.5 <= freq / sampleRate * (n as real) < bin as real + 0.5
  {
    Round(freq / sampleRate * (n as real))
  }

  /** A band in bins: its centre bin and its half-width in bins. */
  datatype BinBand = BinBand(center: int, halfWidth: int)

  /** The centre of a band is its frequency; its half-width is half its width. */
  function BandBins(band: BandRange, sampleRate: real, n: nat): BinBand
    requires sampleRate > 0.0
  {
    BinBand(FreqToBin(band.freq, sampleRate, n), FreqToBin(band.width / 2.0, sampleRate, n))
  }

  /** max(0, c − w). */
  function LowBin(bb: BinBand): (lo: int)
    ensures lo >= 0 && lo >= bb.center - bb.halfWidth
    ensures lo == 0 || lo == bb.center - bb.halfWidth
  {
    if bb.center - bb.halfWidth > 0 then bb.center - bb.halfWidth else 0
  }

  /** min(N/2, c + w): bins above the Nyquist bin are never edited directly. */
  function HighBin(bb: BinBand, n: nat): (hi: int)
    ensures 2 * hi <= n && hi <= bb.center + bb.halfWidth
    ensures hi == n / 2 || hi == bb.center + bb.halfWidth
  {
    if n / 2 < bb.center + bb.halfWidth then n / 2 else bb.center + bb.halfWidth
  }

  /** The edited range stays inside [0, N/2]; it is empty once c − w passes N/2 or
      w is negative; and every mirrored bin N − i lies strictly above N/2. */
  lemma BandRangeBounds(bb: BinBand, n: nat, i: int)
    ensures LowBin(bb) <= i <= HighBin(bb, n) ==> 0 <= i && 2 * i <= n
    ensures bb.center - bb.halfWidth > n / 2 ==> LowBin(bb) > HighBin(bb, n)
    ensures bb.halfWidth < 0 ==> LowBin(bb) > HighBin(bb, n)
    ensures 0 < i && 2 * i < n ==> n < 2 * (n - i) && n - i < n
  {
  }

  // ---------------------------------------------------------------------------
  // Falloff (src/hooks/useSignalProcessor.js:69-71)

  function Distance(i: int, c: int): nat {
    if i >= c then i - c else c - i
  }

  function Max0(x: real): real {
    if x > 0.0 then x else 0.0
  }

  /** The triangular falloff max(0, 1 − d/w). A zero (or negative) half-width
      edits a single bin with full weight 1 instead of dividing 0 by 0. */
  function Falloff(distance: nat, halfWidth: int): (f: real)
    ensures 0.0 <= f <= 1.0
  {
    if halfWidth <= 0 then 1.0
    else Max0(1.0 - (distance as real) / (halfWidth as real))
  }

  /** 1 + (scale − 1)·falloff: scale at full weight, unity at zero weight. */
  function EffectiveScale(scale: real, distance: nat, halfWidth: int): (e: real)
    ensures scale >= 1.0 ==> 1.0 <= e <= scale
    ensures scale <= 1.0 ==> scale <= e <= 1.0
  {
    var f := Falloff(distance, halfWidth);
    assert 0.0 <= (scale - 1.0) * f <= scale - 1.0 || scale - 1.0 <= (scale - 1.0) * f <= 0.0 by {
      if scale >= 1.0 {
        assert (scale - 1.0) * f <= (scale - 1.0) * 1.0;
      } else {
        assert (scale - 1.0) * f >= (scale - 1.0) * 1.0;
      }
    }
    1.0 + (scale - 1.0) * f
  }

  /** The falloff is 1 at the centre and 0 at distance w, so the centre bin gets
      the slider's scale and the edge bins are left as they are. */
  lemma FalloffEndpoints(scale: real, halfWidth: int)
    ensures Falloff(0, halfWidth) == 1.0
    ensures EffectiveScale(scale, 0, halfWidth) == scale
    ensures halfWidth >= 1 ==> Falloff(halfWidth, halfWidth) == 0.0
    ensures halfWidth >= 1 ==> EffectiveScale(scale, halfWidth, halfWidth) == 1.0
  {
  }

  /** Unity scale means no change at any distance. */
  lemma UnitScaleIsIdentity(distance: nat, halfWidth: int)
    ensures EffectiveScale(1.0, distance, halfWidth) == 1.0
  {
  }

  // ---------------------------------------------------------------------------
  // The falloff as written: JavaScript number arithmetic with NaN

  /** The values a JavaScript number expression can take here. */
  datatype JsNumber = Finite(value: real) | PositiveInfinity | NegativeInfinity | NaN

  /** a / b for finite a and b: division by zero gives ±Infinity, and 0 / 0 gives NaN. */
  function JsDivide(a: real, b: real): JsNumber {
    if b != 0.0 then Finite(a / b)
    else if a > 0.0 then PositiveInfinity
    else if a < 0.0 then NegativeInfinity
    else NaN
  }

  function JsOneMinus(x: JsNumber): JsNumber {
    match x
    case Finite(v) => Finite(1.0 - v)
    case PositiveInfinity => NegativeInfinity
    case NegativeInfinity => PositiveInfinity
    case NaN => NaN
  }

  /** Math.max(0, x): NaN if x is NaN. */
  function JsMax0(x: JsNumber): JsNumber {
    match x
    case Finite(v) => Finite(Max0(v))
    case PositiveInfinity => PositiveInfinity
    case NegativeInfinity => Finite(0.0)
    case NaN => NaN
  }

  /** 1 + (scale − 1)·x for finite scale. */
  function JsScaleAround(scale: real, x: JsNumber): JsNumber {
    match x
    case Finite(v) => Finite(1.0 + (scale - 1.0) * v)
    case PositiveInfinity =>
      if scale > 1.0 then PositiveInfinity else if scale < 1.0 then NegativeInfinity else NaN
    case NegativeInfinity =>
      if scale > 1.0 then NegativeInfinity else if scale < 1.0 then PositiveInfinity else NaN
    case NaN => NaN
  }

  /** `Math.max(0, 1 - distance / widthBins)` exactly as the source evaluates it. */
  function FalloffAsWritten(distance: nat, halfWidth: int): JsNumber {
    JsMax0(JsOneMinus(JsDivide(distance as real, halfWidth as real)))
  }

  function EffectiveScaleAsWritten(scale: real, distance: nat, halfWidth: int): JsNumber {
    JsScaleAround(scale, FalloffAsWritten(distance, halfWidth))
  }

  /** For every positive half-width the source's arithmetic and the model's agree. */
  lemma AsWrittenAgrees(scale: real, distance: nat, halfWidth: int)
    requires halfWidth >= 1
    ensures FalloffAsWritten(distance, halfWidth) == Finite(Falloff(distance, halfWidth))
    ensures EffectiveScaleAsWritten(scale, distance, halfWidth) == Finite(EffectiveScale(scale, distance, halfWidth))
  {
  }

  /** A zero half-width (a band narrower than one bin) with its centre in [0, N/2]:
      the loop visits the centre bin, at distance 0, and the source computes
      0 / 0 there, so the bin is multiplied by NaN whatever the scale. */
  lemma ZeroWidthGivesNaN(scale: real, center: int, n: nat)
    requires 0 <= center && 2 * center <= n
    ensures LowBin(BinBand(center, 0)) == center == HighBin(BinBand(center, 0), n)
    ensures EffectiveScaleAsWritten(scale, Distance(center, center), 0) == NaN
    ensures EffectiveScale(scale, Distance(center, center), 0) == scale
  {
  }

  // ---------------------------------------------------------------------------
  // Applying one band (src/hooks/useSignalProcessor.js:60-87)

  /** The gain a band applies at bin i: its effective scale at distance |i − c|. */
  function Gains(bb: BinBand, scale: real): int -> real {
    i => EffectiveScale(scale, Distance(i, bb.center), bb.halfWidth)
  }

  /** Bin b is written by iteration i of the band loop: bin i itself, and its mirror
      N − i when 0 < i < N/2. Writing outside a typed array is a no-op, and so is a
      bin outside the spectrum here. */
  predicate StepHits(n: nat, i: int, b: int) {
    b == i || (0 < i && 2 * i < n && b == n - i)
  }

  /** One iteration of the band loop: both slots of bin i, and of its mirror N − i for
      0 < i < N/2, multiplied by the gain g of bin i. */
  function ApplyAtBin(spectrum: seq<real>, n: nat, g: real, i: int): (r: seq<real>)
    ensures |r| == |spectrum|
  {
    seq(|spectrum|, p requires 0 <= p < |spectrum| => if StepHits(n, i, p / 2) then spectrum[p] * g else spectrum[p])
  }

  /** The band loop from bin i up to bin hi. */
  function ApplyBandFrom(spectrum: seq<real>, n: nat, gains: int -> real, i: int, hi: int): (r: seq<real>)
    ensures |r| == |spectrum|
    decreases if i <= hi then hi - i + 1 else 0
  {
    if i > hi then spectrum
    else ApplyBandFrom(ApplyAtBin(spectrum, n, gains(i), i), n, gains, i + 1, hi)
  }

  /** Bin b is edited by the loop over [lo, hi]: directly, or as the mirror of N − b. */
  predicate InRange(n: nat, lo: int, hi: int, b: int) {
    || lo <= b <= hi
    || (0 < n - b && 2 * (n - b) < n && lo <= n - b <= hi)
  }

  /** The factor the loop over [lo, hi] multiplies bin b by. */
  function RangeFactor(n: nat, gains: int -> real, lo: int, hi: int, b: int): (f: real)
    ensures !InRange(n, lo, hi, b) ==> f == 1.0
  {
    if lo <= b <= hi then gains(b)
    else if 0 < n - b && 2 * (n - b) < n && lo <= n - b <= hi then gains(n - b)
    else 1.0
  }

  /** The factor one iteration multiplies bin b by. */
  function StepFactor(n: nat, g: real, i: int, b: int): real {
    if StepHits(n, i, b) then g else 1.0
  }

  lemma ApplyAtBinFactor(spectrum: seq<real>, n: nat, g: real, i: int, p: int)
    requires 0 <= p < |spectrum| == 2 * n
    ensures ApplyAtBin(spectrum, n, g, i)[p] == spectrum[p] * StepFactor(n, g, i, p / 2)
  {
  }

  /** Peeling iteration i off the loop over [i, hi]. */
  lemma RangeFactorStep(n: nat, gains: int -> real, i: int, hi: int, b: int)
    requires 0 <= i <= hi && 2 * hi <= n
    ensures StepFactor(n, gains(i), i, b) * RangeFactor(n, gains, i + 1, hi, b) == RangeFactor(n, gains, i, hi, b)
  {
  }

  /** The loop over [i, hi] multiplies every slot by the factor of its bin. */
  lemma {:induction false} ApplyBandFromFactor(spectrum: seq<real>, n: nat, gains: int -> real, i: int, hi: int, p: int)
    requires 0 <= p < |spectrum| == 2 * n
    requires 0 <= i && 2 * hi <= n
    ensures ApplyBandFrom(spectrum, n, gains, i, hi)[p] == spectrum[p] * RangeFactor(n, gains, i, hi, p / 2)
    decreases if i <= hi then hi - i + 1 else 0
  {
    if i <= hi {
      var next := ApplyAtBin(spectrum, n, gains(i), i);
      ApplyBandFromFactor(next, n, gains, i + 1, hi, p);
      ApplyAtBinFactor(spectrum, n, gains(i), i, p);
      FactorStep(n, gains, i, hi, p / 2, spectrum[p], next[p], ApplyBandFrom(next, n, gains, i + 1, hi)[p]);
      assert ApplyBandFrom(spectrum, n, gains, i, hi) == ApplyBandFrom(next, n, gains, i + 1, hi);
    } else {
      EmptyRangeFactor(n, gains, i, hi, p / 2);
    }
  }

  /** Scaling x by the factor of iteration i and then by the factor of the loop over
      [i + 1, hi] scales it by the factor of the loop over [i, hi]. */
  lemma FactorStep(n: nat, gains: int -> real, i: int, hi: int, b: int, x: real, y: real, z: real)
    requires 0 <= i <= hi && 2 * hi <= n
    requires y == x * StepFactor(n, gains(i), i, b)
    requires z == y * RangeFactor(n, gains, i + 1, hi, b)
    ensures z == x * RangeFactor(n, gains, i, hi, b)
  {
    RangeFactorStep(n, gains, i, hi, b);
    MulChain(x, StepFactor(n, gains(i), i, b), RangeFactor(n, gains, i + 1, hi, b), y, z, RangeFactor(n, gains, i, hi, b));
  }

  /** An empty loop leaves every bin's factor at 1. */
  lemma EmptyRangeFactor(n: nat, gains: int -> real, lo: int, hi: int, b: int)
    requires lo > hi && 0 <= lo
    ensures RangeFactor(n, gains, lo, hi, b) == 1.0
  {
  }

  lemma MulAssoc3(a: real, b: real, c: real)
    ensures (a * b) * c == a * (b * c)
  {
  }

  /** Multiplying by s and then by r is multiplying by s·r. */
  lemma MulChain(a: real, s: real, r: real, y: real, z: real, f: real)
    requires y == a * s && z == y * r && s * r == f
    ensures z == a * f
  {
    assert (a * s) * r == a * (s * r);
  }

  /** A bin and its mirror get the same factor from a loop inside [0, N/2]. */
  lemma RangeFactorMirror(n: nat, gains: int -> real, lo: int, hi: int, b: nat)
    requires b < n && 0 <= lo && 2 * hi <= n
    ensures RangeFactor(n, gains, lo, hi, b) == RangeFactor(n, gains, lo, hi, MirrorBin(b, n))
  {
  }

  // ---------------------------------------------------------------------------
  // All sliders (src/hooks/useSignalProcessor.js:57-88)

  /** One run of the band loop: the bins [lo, hi] and the gain at each of them. */
  datatype BandEdit = BandEdit(lo: int, hi: int, gains: int -> real)

  /** The range stays inside [0, N/2]. */
  predicate ValidEdit(n: nat, e: BandEdit) {
    0 <= e.lo && 2 * e.hi <= n
  }

  /** The run of the band loop for one band of a slider. */
  function BandEditOf(band: BandRange, scale: real, sampleRate: real, n: nat): (e: BandEdit)
    requires sampleRate > 0.0
    ensures ValidEdit(n, e)
  {
    var bb := BandBins(band, sampleRate, n);
    BandEdit(LowBin(bb), HighBin(bb, n), Gains(bb, scale))
  }

  /** The runs of the band loop for the bands of one slider, in order. */
  function SliderEdits(slider: Slider, sampleRate: real, n: nat): (edits: seq<BandEdit>)
    requires sampleRate > 0.0
    ensures |edits| == |slider.bands| && AllValid(n, edits)
    ensures forall k :: 0 <= k < |edits| ==> edits[k] == BandEditOf(slider.bands[k], slider.scale, sampleRate, n)
  {
    seq(|slider.bands|, k requires 0 <= k < |slider.bands| => BandEditOf(slider.bands[k], slider.scale, sampleRate, n))
  }

  /** Every run of the band loop, sliders in configuration order and bands in
      slider order. */
  function Plan(sliders: seq<Slider>, sampleRate: real, n: nat): (plan: seq<BandEdit>)
    requires sampleRate > 0.0
    ensures AllValid(n, plan)
    decreases |sliders|
  {
    if |sliders| == 0 then []
    else SliderEdits(sliders[0], sampleRate, n) + Plan(sliders[1..], sampleRate, n)
  }

  /** Applies the runs of a plan in order, each through `step`. */
  function ApplyAll(spectrum: seq<real>, plan: seq<BandEdit>, step: (seq<real>, BandEdit) -> seq<real>): seq<real>
    decreases |plan|
  {
    if |plan| == 0 then spectrum
    else ApplyAll(step(spectrum, plan[0]), plan[1..], step)
  }

  /** The product over the runs of a plan of their factors at bin b. */
  function FactorAll(plan: seq<BandEdit>, factor: (BandEdit, int) -> real, b: int): real
    decreases |plan|
  {
    if |plan| == 0 then 1.0
    else factor(plan[0], b) * FactorAll(plan[1..], factor, b)
  }

  /** Every run of the plan stays inside [0, N/2]. */
  predicate AllValid(n: nat, plan: seq<BandEdit>) {
    forall k :: 0 <= k < |plan| ==> ValidEdit(n, plan[k])
  }

  /** `step` keeps lengths, and on a spectrum of N bins it multiplies every slot
      by the factor `factor` gives its bin. */
  ghost predicate Pointwise(n: nat, step: (seq<real>, BandEdit) -> seq<real>, factor: (BandEdit, int) -> real) {
    && (forall s, e {:trigger step(s, e)} :: |step(s, e)| == |s|)
    && (forall s, e, p {:trigger step(s, e)[p]} ::
          |s| == 2 * n && ValidEdit(n, e) && 0 <= p < 2 * n ==> step(s, e)[p] == s[p] * factor(e, p / 2))
  }

  lemma TailValid(n: nat, plan: seq<BandEdit>)
    requires |plan| > 0 && AllValid(n, plan)
    ensures ValidEdit(n, plan[0]) && AllValid(n, plan[1..])
  {
    forall k | 0 <= k < |plan[1..]|
      ensures ValidEdit(n, plan[1..][k])
    {
      assert plan[1..][k] == plan[k + 1];
    }
  }

  lemma {:induction false} ApplyAllLength(spectrum: seq<real>, plan: seq<BandEdit>, step: (seq<real>, BandEdit) -> seq<real>)
    requires forall s, e {:trigger step(s, e)} :: |step(s, e)| == |s|
    ensures |ApplyAll(spectrum, plan, step)| == |spectrum|
    decreases |plan|
  {
    if |plan| > 0 {
      ApplyAllLength(step(spectrum, plan[0]), plan[1..], step);
    }
  }

  /** Applying a plan of pointwise steps multiplies every slot by the product of
      the factors of its bin. */
  lemma {:induction false} ApplyAllFactor(spectrum: seq<real>, n: nat, plan: seq<BandEdit>,
                                          step: (seq<real>, BandEdit) -> seq<real>, factor: (BandEdit, int) -> real, p: int)
    requires 0 <= p < |spectrum| == 2 * n
    requires AllValid(n, plan) && Pointwise(n, step, factor)
    ensures |ApplyAll(spectrum, plan, step)| == |spectrum|
    ensures ApplyAll(spectrum, plan, step)[p] == spectrum[p] * FactorAll(plan, factor, p / 2)
    decreases |plan|
  {
    ApplyAllLength(spectrum, plan, step);
    if |plan| > 0 {
      TailValid(n, plan);
      var next := step(spectrum, plan[0]);
      ApplyAllFactor(next, n, plan[1..], step, factor, p);
      MulChain(spectrum[p], factor(plan[0], p / 2), FactorAll(plan[1..], factor, p / 2),
        next[p], ApplyAll(next, plan[1..], step)[p], FactorAll(plan, factor, p / 2));
    } else {
      MulOneReal(spectrum[p], FactorAll(plan, factor, p / 2));
    }
  }

  lemma {:induction false} FactorAllAppend(a: seq<BandEdit>, b: seq<BandEdit>, factor: (BandEdit, int) -> real, bin: int)
    ensures FactorAll(a + b, factor, bin) == FactorAll(a, factor, bin) * FactorAll(b, factor, bin)
    decreases |a|
  {
    if |a| > 0 {
      assert (a + b)[0] == a[0] && (a + b)[1..] == a[1..] + b;
      FactorAllAppend(a[1..], b, factor, bin);
      MulAssoc3(factor(a[0], bin), FactorAll(a[1..], factor, bin), FactorAll(b, factor, bin));
    } else {
      assert a + b == b;
    }
  }

  /** One run of the band loop, as a step of a plan. */
  function BandStep(n: nat): (seq<real>, BandEdit) -> seq<real> {
    (s: seq<real>, e: BandEdit) => ApplyBandFrom(s, n, e.gains, e.lo, e.hi)
  }

  /** The factor one run of the band loop multiplies bin b by. */
  function EditFactor(n: nat): (BandEdit, int) -> real {
    (e: BandEdit, b: int) => RangeFactor(n, e.gains, e.lo, e.hi, b)
  }

  lemma BandStepPointwise(n: nat)
    ensures Pointwise(n, BandStep(n), EditFactor(n))
  {
    forall s, e, p | |s| == 2 * n && ValidEdit(n, e) && 0 <= p < 2 * n
      ensures BandStep(n)(s, e)[p] == s[p] * EditFactor(n)(e, p / 2)
    {
      ApplyBandFromFactor(s, n, e.gains, e.lo, e.hi, p);
    }
  }

  function ApplyPlan(spectrum: seq<real>, n: nat, plan: seq<BandEdit>): (r: seq<real>)
    ensures |r| == |spectrum|
  {
    ApplyAllLength(spectrum, plan, BandStep(n));
    ApplyAll(spectrum, plan, BandStep(n))
  }

  /** The equalizer: every band of every slider in configuration order. */
  function ApplySliders(spectrum: seq<real>, n: nat, sampleRate: real, sliders: seq<Slider>): (r: seq<real>)
    requires sampleRate > 0.0
    ensures |r| == |spectrum|
  {
    ApplyPlan(spectrum, n, Plan(sliders, sampleRate, n))
  }

  /** The whole edit multiplies every slot by the factor of its bin. */
  lemma ApplyPlanFactor(spectrum: seq<real>, n: nat, plan: seq<BandEdit>, p: int)
    requires 0 <= p < |spectrum| == 2 * n
    requires AllValid(n, plan)
    ensures ApplyPlan(spectrum, n, plan)[p] == spectrum[p] * FactorAll(plan, EditFactor(n), p / 2)
  {
    BandStepPointwise(n);
    ApplyAllFactor(spectrum, n, plan, BandStep(n), EditFactor(n), p);
  }

  /** r is the spectrum with every slot multiplied by the product of the gains
      that the runs of the plan have at its bin. */
  predicate ScaledByPlan(r: seq<real>, spectrum: seq<real>, n: nat, plan: seq<BandEdit>) {
    && |r| == |spectrum|
    && forall p :: 0 <= p < |spectrum| ==> r[p] == spectrum[p] * FactorAll(plan, EditFactor(n), p / 2)
  }

  /** r is the spectrum equalized by every band of every slider. */
  predicate EqualizedFrom(r: seq<real>, spectrum: seq<real>, n: nat, sampleRate: real, sliders: seq<Slider>)
    requires sampleRate > 0.0
  {
    ScaledByPlan(r, spectrum, n, Plan(sliders, sampleRate, n))
  }

  /** ApplyPlanFactor at every slot at once. */
  lemma PlanFactorEverywhere(spectrum: seq<real>, n: nat, plan: seq<BandEdit>)
    requires |spectrum| == 2 * n
    requires AllValid(n, plan)
    ensures ScaledByPlan(ApplyPlan(spectrum, n, plan), spectrum, n, plan)
  {
    forall p | 0 <= p < |spectrum|
      ensures ApplyPlan(spectrum, n, plan)[p] == spectrum[p] * FactorAll(plan, EditFactor(n), p / 2)
    {
      ApplyPlanFactor(spectrum, n, plan, p);
    }
  }

  /** Every slot of the equalized spectrum is the original slot times the
      product of the gains of the bands that reach its bin. */
  lemma SlidersFactor(spectrum: seq<real>, n: nat, sampleRate: real, sliders: seq<Slider>)
    requires sampleRate > 0.0 && |spectrum| == 2 * n
    ensures EqualizedFrom(ApplySliders(spectrum, n, sampleRate, sliders), spectrum, n, sampleRate, sliders)
  {
    PlanFactorEverywhere(spectrum, n, Plan(sliders, sampleRate, n));
  }

  /** Both slots of bin b are scaled by the factor of b. */
  lemma SlotFactors(spectrum: seq<real>, n: nat, plan: seq<BandEdit>, b: nat)
    requires |spectrum| == 2 * n && b < n
    requires AllValid(n, plan)
    ensures ApplyPlan(spectrum, n, plan)[2 * b] == spectrum[2 * b] * FactorAll(plan, EditFactor(n), b)
    ensures ApplyPlan(spectrum, n, plan)[2 * b + 1] == spectrum[2 * b + 1] * FactorAll(plan, EditFactor(n), b)
  {
    SlotsOfBin(b);
    ApplyPlanFactor(spectrum, n, plan, 2 * b);
    ApplyPlanFactor(spectrum, n, plan, 2 * b + 1);
  }

  lemma SlotsOfBin(b: nat)
    ensures (2 * b) / 2 == b && (2 * b + 1) / 2 == b
  {
  }

  lemma MulOneReal(a: real, f: real)
    requires f == 1.0
    ensures a * f == a
  {
  }

  // ---------------------------------------------------------------------------
  // Consequences

  /** Some run of the band loop edits bin b, directly or as a mirror. */
  predicate Touched(n: nat, plan: seq<BandEdit>, b: int) {
    exists k :: 0 <= k < |plan| && InRange(n, plan[k].lo, plan[k].hi, b)
  }

  lemma {:induction false} UntouchedPlanFactor(n: nat, plan: seq<BandEdit>, b: int)
    requires !Touched(n, plan, b)
    ensures FactorAll(plan, EditFactor(n), b) == 1.0
    decreases |plan|
  {
    if |plan| > 0 {
      assert !InRange(n, plan[0].lo, plan[0].hi, b);
      assert !Touched(n, plan[1..], b) by {
        forall k | 0 <= k < |plan[1..]|
          ensures !InRange(n, plan[1..][k].lo, plan[1..][k].hi, b)
        {
          assert plan[1..][k] == plan[k + 1];
        }
      }
      UntouchedPlanFactor(n, plan[1..], b);
    }
  }

  /** Nothing outside the bands changes: a bin that no band edits, directly or as
      a mirror, keeps both of its slots. */
  lemma UntouchedBinUnchanged(spectrum: seq<real>, n: nat, sampleRate: real, sliders: seq<Slider>, b: int)
    requires sampleRate > 0.0 && |spectrum| == 2 * n && 0 <= b < n
    requires !Touched(n, Plan(sliders, sampleRate, n), b)
    ensures ApplySliders(spectrum, n, sampleRate, sliders)[2 * b] == spectrum[2 * b]
    ensures ApplySliders(spectrum, n, sampleRate, sliders)[2 * b + 1] == spectrum[2 * b + 1]
  {
    var plan := Plan(sliders, sampleRate, n);
    UntouchedPlanFactor(n, plan, b);
    SlotFactors(spectrum, n, plan, b);
    MulOneReal(spectrum[2 * b], FactorAll(plan, EditFactor(n), b));
    MulOneReal(spectrum[2 * b + 1], FactorAll(plan, EditFactor(n), b));
  }

  /** Every slider at unity scale. */
  predicate UnitScales(sliders: seq<Slider>) {
    forall i :: 0 <= i < |sliders| ==> sliders[i].scale == 1.0
  }

  /** A run whose gain is 1 at every bin. */
  ghost predicate UnitGains(e: BandEdit) {
    forall b :: e.gains(b) == 1.0
  }

  lemma {:induction false} UnitPlan(sliders: seq<Slider>, sampleRate: real, n: nat)
    requires sampleRate > 0.0 && UnitScales(sliders)
    ensures forall k :: 0 <= k < |Plan(sliders, sampleRate, n)| ==> UnitGains(Plan(sliders, sampleRate, n)[k])
    decreases |sliders|
  {
    if |sliders| > 0 {
      var head := SliderEdits(sliders[0], sampleRate, n);
      forall k | 0 <= k < |head|
        ensures UnitGains(head[k])
      {
        forall b: int
          ensures head[k].gains(b) == 1.0
        {
          UnitScaleIsIdentity(Distance(b, BandBins(sliders[0].bands[k], sampleRate, n).center),
            BandBins(sliders[0].bands[k], sampleRate, n).halfWidth);
        }
      }
      assert UnitScales(sliders[1..]) by {
        forall i | 0 <= i < |sliders[1..]|
          ensures sliders[1..][i].scale == 1.0
        {
          assert sliders[1..][i] == sliders[i + 1];
        }
      }
      UnitPlan(sliders[1..], sampleRate, n);
    }
  }

  lemma {:induction false} UnitPlanFactor(n: nat, plan: seq<BandEdit>, b: int)
    requires forall k :: 0 <= k < |plan| ==> UnitGains(plan[k])
    ensures FactorAll(plan, EditFactor(n), b) == 1.0
    decreases |plan|
  {
    if |plan| > 0 {
      assert UnitGains(plan[0]);
      assert forall k :: 0 <= k < |plan[1..]| ==> UnitGains(plan[1..][k]) by {
        forall k | 0 <= k < |plan[1..]|
          ensures UnitGains(plan[1..][k])
        {
          assert plan[1..][k] == plan[k + 1];
        }
      }
      UnitPlanFactor(n, plan[1..], b);
    }
  }

  /** The identity law: with every scale at 1 the spectrum comes back unchanged. */
  lemma UnitScalesIdentity(spectrum: seq<real>, n: nat, sampleRate: real, sliders: seq<Slider>)
    requires sampleRate > 0.0 && |spectrum| == 2 * n && UnitScales(sliders)
    ensures ApplySliders(spectrum, n, sampleRate, sliders) == spectrum
  {
    var plan := Plan(sliders, sampleRate, n);
    var r := ApplySliders(spectrum, n, sampleRate, sliders);
    UnitPlan(sliders, sampleRate, n);
    forall p | 0 <= p < |spectrum|
      ensures r[p] == spectrum[p]
    {
      ApplyPlanFactor(spectrum, n, plan, p);
      UnitPlanFactor(n, plan, p / 2);
    }
  }

  lemma {:induction false} PlanFactorMirror(n: nat, plan: seq<BandEdit>, b: nat)
    requires b < n
    requires AllValid(n, plan)
    ensures FactorAll(plan, EditFactor(n), b) == FactorAll(plan, EditFactor(n), MirrorBin(b, n))
    decreases |plan|
  {
    if |plan| > 0 {
      TailValid(n, plan);
      RangeFactorMirror(n, plan[0].gains, plan[0].lo, plan[0].hi, b);
      PlanFactorMirror(n, plan[1..], b);
    }
  }

  /** Bin b of the edited spectrum is bin b of the original scaled by its factor. */
  lemma EditedBin(spectrum: seq<real>, n: nat, plan: seq<BandEdit>, b: nat)
    requires |spectrum| == 2 * n && b < n
    requires AllValid(n, plan)
    ensures Bin(ApplyPlan(spectrum, n, plan), b) == Scale(Bin(spectrum, b), FactorAll(plan, EditFactor(n), b))
  {
    SlotFactors(spectrum, n, plan, b);
  }

  /** Scaling a bin and its conjugate mirror by the same factor keeps them conjugate. */
  lemma ScaledConjugates(x: Complex, y: Complex, f: real, g: real)
    requires y == Conj(x) && f == g
    ensures Scale(y, g) == Conj(Scale(x, f))
  {
  }

  lemma PlanKeepsConjugateSymmetry(spectrum: seq<real>, n: nat, plan: seq<BandEdit>)
    requires |spectrum| == 2 * n && AllValid(n, plan)
    requires ConjugateSymmetric(spectrum)
    ensures ConjugateSymmetric(ApplyPlan(spectrum, n, plan))
  {
    var r := ApplyPlan(spectrum, n, plan);
    forall k | 0 <= k < n
      ensures Bin(r, MirrorBin(k, n)) == Conj(Bin(r, k))
    {
      SymmetricAt(spectrum, n, k);
      EditedMirrorPair(spectrum, n, plan, k);
    }
    HalfOfDouble(n);
  }

  lemma EditedMirrorPair(spectrum: seq<real>, n: nat, plan: seq<BandEdit>, k: nat)
    requires |spectrum| == 2 * n && AllValid(n, plan) && k < n
    requires Bin(spectrum, MirrorBin(k, n)) == Conj(Bin(spectrum, k))
    ensures Bin(ApplyPlan(spectrum, n, plan), MirrorBin(k, n)) == Conj(Bin(ApplyPlan(spectrum, n, plan), k))
  {
    var j := MirrorBin(k, n);
    EditedBin(spectrum, n, plan, k);
    EditedBin(spectrum, n, plan, j);
    PlanFactorMirror(n, plan, k);
    ScaledConjugates(Bin(spectrum, k), Bin(spectrum, j), FactorAll(plan, EditFactor(n), k), FactorAll(plan, EditFactor(n), j));
  }

  /** The mirrored edit keeps a conjugate-symmetric spectrum conjugate-symmetric,
      so its inverse transform stays a real signal. */
  lemma EditKeepsConjugateSymmetry(spectrum: seq<real>, n: nat, sampleRate: real, sliders: seq<Slider>)
    requires sampleRate > 0.0 && |spectrum| == 2 * n
    requires ConjugateSymmetric(spectrum)
    ensures ConjugateSymmetric(ApplySliders(spectrum, n, sampleRate, sliders))
  {
    PlanKeepsConjugateSymmetry(spectrum, n, Plan(sliders, sampleRate, n));
  }

  lemma {:induction false} PlanAppend(a: seq<Slider>, b: seq<Slider>, sampleRate: real, n: nat)
    requires sampleRate > 0.0
    ensures Plan(a + b, sampleRate, n) == Plan(a, sampleRate, n) + Plan(b, sampleRate, n)
    decreases |a|
  {
    if |a| == 0 {
      assert a + b == b;
    } else {
      assert (a + b)[0] == a[0] && (a + b)[1..] == a[1..] + b;
      PlanAppend(a[1..], b, sampleRate, n);
    }
  }

  /** Two plans commute. */
  lemma PlansCommute(spectrum: seq<real>, n: nat, pa: seq<BandEdit>, pb: seq<BandEdit>)
    requires |spectrum| == 2 * n && AllValid(n, pa) && AllValid(n, pb)
    ensures ApplyPlan(spectrum, n, pa + pb) == ApplyPlan(spectrum, n, pb + pa)
  {
    AppendValid(n, pa, pb);
    AppendValid(n, pb, pa);
    var ab := ApplyPlan(spectrum, n, pa + pb);
    var ba := ApplyPlan(spectrum, n, pb + pa);
    forall p | 0 <= p < |spectrum|
      ensures ab[p] == ba[p]
    {
      ApplyPlanFactor(spectrum, n, pa + pb, p);
      ApplyPlanFactor(spectrum, n, pb + pa, p);
      FactorAllAppend(pa, pb, EditFactor(n), p / 2);
      FactorAllAppend(pb, pa, EditFactor(n), p / 2);
      MulComm3(FactorAll(pa, EditFactor(n), p / 2), FactorAll(pb, EditFactor(n), p / 2));
    }
  }

  /** The order of the sliders does not matter: applying a then b equals
      applying b then a. */
  lemma SliderOrderIrrelevant(spectrum: seq<real>, n: nat, sampleRate: real, a: seq<Slider>, b: seq<Slider>)
    requires sampleRate > 0.0 && |spectrum| == 2 * n
    ensures ApplySliders(spectrum, n, sampleRate, a + b) == ApplySliders(spectrum, n, sampleRate, b + a)
  {
    PlanAppend(a, b, sampleRate, n);
    PlanAppend(b, a, sampleRate, n);
    PlansCommute(spectrum, n, Plan(a, sampleRate, n), Plan(b, sampleRate, n));
  }

  lemma AppendValid(n: nat, a: seq<BandEdit>, b: seq<BandEdit>)
    requires AllValid(n, a) && AllValid(n, b)
    ensures AllValid(n, a + b)
  {
    forall k | 0 <= k < |a + b|
      ensures ValidEdit(n, (a + b)[k])
    {
      if k < |a| {
        assert (a + b)[k] == a[k];
      } else {
        assert (a + b)[k] == b[k - |a|];
      }
    }
  }

  lemma MulComm3(a: real, b: real)
    ensures a * b == b * a
  {
  }

  // ---------------------------------------------------------------------------
  // Zero-width band example

  /** A band exactly on bin 2 of an 8-bin spectrum with width 0: only bin 2 and
      its mirror bin 6 are scaled, by the full scale. */
  lemma ZeroWidthExample(scale: real, b: int)
    requires 0 <= b < 8
    ensures BandBins(BandRange(2.0, 0.0), 8.0, 8) == BinBand(2, 0)
    ensures var e := BandEditOf(BandRange(2.0, 0.0), scale, 8.0, 8);
      e.lo == 2 && e.hi == 2 && EditFactor(8)(e, b) == if b == 2 || b == 6 then scale else 1.0
  {
    assert 2.0 / 8.0 * (8 as real) == 2.0;
    assert (2.0 + 0.5).Floor == 2;
    assert 0.0 / 2.0 / 8.0 * (8 as real) == 0.0;
    assert (0.0 + 0.5).Floor == 0;
  }
}
