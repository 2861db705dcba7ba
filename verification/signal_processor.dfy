/** The two effects of src/hooks/useSignalProcessor.js as pure transitions of the
    shared signal state: OnSignal analyses a newly loaded recording, OnConfig
    re-applies the equalizer whenever the settings or the original spectrum change.
    The Web Audio buffer is a value with a sample rate and one sample sequence per
    channel; setting React state is building the next State. */
module SignalProcessor {
  import opened Optional
  import opened MathLib
  import opened PowerOfTwo
  import opened Dsp
  import opened EqConfig
  import opened Equalizer
  import opened FftLaws

  /** An AudioBuffer: its sample rate and the samples of each channel. */
  datatype AudioBuffer = AudioBuffer(sampleRate: real, channels: seq<seq<real>>)

  /** Every AudioBuffer has a positive sample rate and at least one channel. */
  predicate ValidBuffer(b: AudioBuffer) {
    b.sampleRate > 0.0 && |b.channels| >= 1
  }

  /** The state the hook reads and writes. `None` is state that was never set. */
  datatype State = State(
    originalSignal: Option<AudioBuffer>,
    eqSettings: EqSettings,
    originalFft: Option<seq<real>>,
    processedFft: Option<seq<real>>,
    originalSpectrogram: Option<seq<seq<real>>>,
    processedSpectrogram: Option<seq<seq<real>>>,
    processedSignal: Option<AudioBuffer>)

  /** What the rest of the program guarantees about the state: buffers are real
      buffers and every stored spectrum is the output of a transform. */
  predicate WellFormed(st: State) {
    && (st.originalSignal.Some? ==> ValidBuffer(st.originalSignal.value))
    && (st.originalFft.Some? ==> IsTransformLength(|st.originalFft.value|))
    && (st.processedFft.Some? ==> IsTransformLength(|st.processedFft.value|))
    && (st.processedSignal.Some? ==> ValidBuffer(st.processedSignal.value))
  }

  /** The initial state: nothing loaded, no sliders (src/context/SignalContext.jsx:23). */
  function Initial(): (st: State)
    ensures WellFormed(st) && st.eqSettings.sliders == []
  {
    State(None, EqSettings(None, []), None, None, None, None, None)
  }

  // ---------------------------------------------------------------------------
  // Effect 1: a new recording (src/hooks/useSignalProcessor.js:26-41)

  /** Analyses channel 0 of the recording; every processed value starts out
      equal to its original. Without a recording nothing happens. */
  function OnSignal(st: State, m: MathLib): (r: State)
    requires WellFormed(st)
    ensures WellFormed(r)
    ensures r.originalSignal == st.originalSignal && r.eqSettings == st.eqSettings
    ensures st.originalSignal.None? ==> r == st
    ensures st.originalSignal.Some? ==>
      && r.originalFft.Some? && |r.originalFft.value| == 2 * NextPow2(|st.originalSignal.value.channels[0]|)
      && r.processedFft == r.originalFft
      && r.processedSpectrogram == r.originalSpectrogram
      && r.processedSignal == st.originalSignal
  {
    match st.originalSignal
    case None => st
    case Some(buffer) =>
      var samples := buffer.channels[0];
      var spectrum := Fft(samples, m);
      var frames := CreateSpectrogram(samples, DefaultWindowSize, DefaultHopSize, m);
      st.(originalFft := Some(spectrum), processedFft := Some(spectrum),
          originalSpectrogram := Some(frames), processedSpectrogram := Some(frames),
          processedSignal := Some(buffer))
  }

  /** The original spectrum is the transform of channel 0. */
  ghost predicate Analysed(st: State, m: MathLib) {
    && st.originalSignal.Some? && |st.originalSignal.value.channels| >= 1
    && st.originalFft == Some(Fft(st.originalSignal.value.channels[0], m))
  }

  /** After a recording is loaded, the original spectrum is its transform and the
      original spectrogram is the default spectrogram of channel 0. */
  lemma OnSignalAnalyses(st: State, m: MathLib)
    requires WellFormed(st) && st.originalSignal.Some?
    ensures Analysed(OnSignal(st, m), m)
    ensures OnSignal(st, m).originalSpectrogram
         == Some(CreateSpectrogram(st.originalSignal.value.channels[0], DefaultWindowSize, DefaultHopSize, m))
  {
  }

  /** Re-running the first effect changes nothing more. */
  lemma OnSignalIdempotent(st: State, m: MathLib)
    requires WellFormed(st)
    ensures OnSignal(OnSignal(st, m), m) == OnSignal(st, m)
  {
  }

  // ---------------------------------------------------------------------------
  // Effect 2: new settings or a new original spectrum
  // (src/hooks/useSignalProcessor.js:44-114)

  /** A buffer with `count` channels that all hold `samples`. */
  function CopyToChannels(samples: seq<real>, count: nat, sampleRate: real): (b: AudioBuffer)
    ensures b.sampleRate == sampleRate && |b.channels| == count
    ensures forall c :: 0 <= c < count ==> b.channels[c] == samples
  {
    AudioBuffer(sampleRate, seq(count, _ => samples))
  }

  /** Equalizes the original spectrum with every slider, stores it, and — unless
      it is empty, where creating a zero-length buffer throws — writes its inverse
      transform to every channel of a new buffer and recomputes the processed
      spectrogram. Without a recording or a spectrum nothing happens. */
  function OnConfig(st: State, m: MathLib): (r: State)
    requires WellFormed(st)
    ensures WellFormed(r)
    ensures r.originalSignal == st.originalSignal && r.eqSettings == st.eqSettings
    ensures r.originalFft == st.originalFft && r.originalSpectrogram == st.originalSpectrogram
    ensures (st.originalFft.None? || st.originalSignal.None?) ==> r == st
    ensures st.originalFft.Some? && st.originalSignal.Some? ==>
      && r.processedFft.Some?
      && EqualizedFrom(r.processedFft.value, st.originalFft.value, |st.originalFft.value| / 2,
                       st.originalSignal.value.sampleRate, st.eqSettings.sliders)
    ensures st.originalFft.Some? && st.originalSignal.Some? ==>
      && r.processedFft.Some? && |r.processedFft.value| == |st.originalFft.value|
      && (|st.originalFft.value| == 0 ==>
            r.processedSignal == st.processedSignal && r.processedSpectrogram == st.processedSpectrogram)
      && (|st.originalFft.value| > 0 ==>
            && r.processedSignal.Some?
            && r.processedSignal.value.sampleRate == st.originalSignal.value.sampleRate
            && |r.processedSignal.value.channels| == |st.originalSignal.value.channels|
            && (forall c :: 0 <= c < |r.processedSignal.value.channels| ==>
                  r.processedSignal.value.channels[c] == Ifft(r.processedFft.value, m))
            && r.processedSpectrogram
               == Some(CreateSpectrogram(Ifft(r.processedFft.value, m), DefaultWindowSize, DefaultHopSize, m)))
  {
    if st.originalFft.None? || st.originalSignal.None? then st
    else
      var original := st.originalFft.value;
      var buffer := st.originalSignal.value;
      var n := |original| / 2;
      var modified := ApplySliders(original, n, buffer.sampleRate, st.eqSettings.sliders);
      SlidersFactor(original, n, buffer.sampleRate, st.eqSettings.sliders);
      var withFft := st.(processedFft := Some(modified));
      if n == 0 then withFft
      else
        var samples := Ifft(modified, m);
        var output := CopyToChannels(samples, |buffer.channels|, buffer.sampleRate);
        withFft.(processedSignal := Some(output),
                 processedSpectrogram := Some(CreateSpectrogram(samples, DefaultWindowSize, DefaultHopSize, m)))
  }

  /** The second effect depends only on the originals and the settings, so
      re-running it changes nothing more. */
  lemma OnConfigIdempotent(st: State, m: MathLib)
    requires WellFormed(st)
    ensures OnConfig(OnConfig(st, m), m) == OnConfig(st, m)
  {
  }

  /** The processed spectrum is the original with every bin scaled by the product
      of the band factors; a bin no band reaches is left exactly as it was. */
  lemma OnConfigUntouchedBin(st: State, m: MathLib, b: int)
    requires WellFormed(st) && st.originalFft.Some? && st.originalSignal.Some?
    requires 0 <= b < |st.originalFft.value| / 2
    requires !Touched(|st.originalFft.value| / 2,
                      Plan(st.eqSettings.sliders, st.originalSignal.value.sampleRate, |st.originalFft.value| / 2), b)
    ensures Bin(OnConfig(st, m).processedFft.value, b) == Bin(st.originalFft.value, b)
  {
    var n := |st.originalFft.value| / 2;
    UntouchedBinUnchanged(st.originalFft.value, n, st.originalSignal.value.sampleRate, st.eqSettings.sliders, b);
  }

  /** A conjugate-symmetric original spectrum stays conjugate-symmetric after the
      equalizer, which is what makes the inverse transform a real signal. */
  lemma OnConfigKeepsConjugateSymmetry(st: State, m: MathLib)
    requires WellFormed(st) && st.originalFft.Some? && st.originalSignal.Some?
    requires ConjugateSymmetric(st.originalFft.value)
    ensures ConjugateSymmetric(OnConfig(st, m).processedFft.value)
  {
    var n := |st.originalFft.value| / 2;
    var edited := ApplySliders(st.originalFft.value, n, st.originalSignal.value.sampleRate, st.eqSettings.sliders);
    assert OnConfig(st, m).processedFft == Some(edited);
    EditKeepsConjugateSymmetry(st.originalFft.value, n, st.originalSignal.value.sampleRate, st.eqSettings.sliders);
  }

  /** With every slider at unity the processed spectrum is the original one. */
  lemma UnitScalesKeepSpectrum(st: State, m: MathLib)
    requires WellFormed(st) && st.originalFft.Some? && st.originalSignal.Some?
    requires UnitScales(st.eqSettings.sliders)
    ensures OnConfig(st, m).processedFft == st.originalFft
  {
    var n := |st.originalFft.value| / 2;
    UnitScalesIdentity(st.originalFft.value, n, st.originalSignal.value.sampleRate, st.eqSettings.sliders);
  }

  /** End to end: after loading a recording, unity sliders give back channel 0,
      zero-padded to a power of two, on every channel of the processed buffer. */
  lemma UnitScalesRoundTrip(st: State, m: MathLib, c: int)
    requires WellFormed(st) && UnitCircle(m) && Analysed(st, m)
    requires UnitScales(st.eqSettings.sliders)
    requires |st.originalFft.value| > 0
    requires 0 <= c < |st.originalSignal.value.channels|
    ensures OnConfig(st, m).processedSignal.value.channels[c] == PadSignal(st.originalSignal.value.channels[0])
  {
    UnitScalesKeepSpectrum(st, m);
    RoundTrip(st.originalSignal.value.channels[0], m);
  }

  /** The order of the sliders does not change what the equalizer produces. */
  lemma OnConfigOrderIrrelevant(st: State, m: MathLib, a: seq<Slider>, b: seq<Slider>)
    requires WellFormed(st) && st.originalFft.Some? && st.originalSignal.Some?
    ensures var ab := OnConfig(st.(eqSettings := st.eqSettings.(sliders := a + b)), m);
            var ba := OnConfig(st.(eqSettings := st.eqSettings.(sliders := b + a)), m);
            && ab.processedFft == ba.processedFft
            && ab.processedSignal == ba.processedSignal
            && ab.processedSpectrogram == ba.processedSpectrogram
  {
    var n := |st.originalFft.value| / 2;
    SliderOrderIrrelevant(st.originalFft.value, n, st.originalSignal.value.sampleRate, a, b);
  }
}
