/** One column of the audio spectrogram: the sample window a timestamp maps
    to, the normalisation by sample format, and the clipping, flipping and
    byte conversion of the transform's magnitudes. The transform itself
    (FFT, logarithm, square root) is a parameter. */
module Spectrogram {
  import opened Wrappers

  const DERIVATION_SIZE: nat := 10
  const DERIVATION_DISTANCE: nat := 6

  function Pow2(k: nat): (p: nat)
    ensures p >= 1
  {
    if k == 0 then 1 else 2 * Pow2(k - 1)
  }

  /** Python's `a >> k` on integers: floor division by 2^k (Dafny's `/` by
      a positive divisor rounds down too, negative `a` included). */
  function ShiftRight(a: int, k: nat): int {
    a / Pow2(k)
  }

  /** Python's `a << k`. */
  function ShiftLeft(a: int, k: nat): int {
    a * Pow2(k)
  }

  /** `2 << DERIVATION_SIZE`: the samples in a window. */
  const SAMPLE_COUNT: nat := 2 * Pow2(DERIVATION_SIZE)

  /** `(1 << DERIVATION_SIZE) + 1`: the magnitudes in a column. */
  const OUTPUT_LENGTH: nat := Pow2(DERIVATION_SIZE) + 1

  lemma Sizes()
    ensures Pow2(DERIVATION_DISTANCE) == 64
    ensures SAMPLE_COUNT == 2048 && OUTPUT_LENGTH == 1025
  {
    assert Pow2(6) == 64;
    assert Pow2(10) == 1024 by {
      assert Pow2(8) == 256;
    }
  }

  /** The first sample of the window of the audio frame `a`. */
  function WindowStart(a: int): int {
    ShiftLeft(ShiftRight(a, DERIVATION_DISTANCE), DERIVATION_DISTANCE)
  }

  /** The window starts at the multiple of 64 at or below the audio frame. */
  lemma WindowStartAligned(a: int)
    ensures WindowStart(a) % 64 == 0
    ensures 0 <= a - WindowStart(a) < 64
  {
    Sizes();
    var q := a / 64;
    assert WindowStart(a) == q * 64;
    assert a == q * 64 + a % 64;
  }

  /** Two audio frames get the same window exactly when they agree after
      the shift. */
  lemma SameWindow(a: int, b: int)
    ensures WindowStart(a) == WindowStart(b) <==> ShiftRight(a, DERIVATION_DISTANCE) == ShiftRight(b, DERIVATION_DISTANCE)
  {
    Sizes();
  }

  /** The sample formats the decoder reports. */
  datatype SampleFormat = U8 | S16 | S32 | Flt | Dbl

  /** The normalisation as the code writes it: 16-bit samples divided by
      2^15, 32-bit samples by 2^32, float samples passed through, any
      other format an error. */
  function NormalizeAsWritten(fmt: SampleFormat, samples: seq<real>): (r: Result<seq<real>, string>)
    ensures r.Failure? <==> fmt == U8
    ensures r.Success? ==> |r.value| == |samples|
    ensures fmt == S16 ==> forall k :: 0 <= k < |samples| ==> r.value[k] * 32768.0 == samples[k]
    ensures fmt == S32 ==> forall k :: 0 <= k < |samples| ==> r.value[k] * 4294967296.0 == samples[k]
    ensures fmt == Flt || fmt == Dbl ==> r == Success(samples)
  {
    match fmt
    case S16 => Success(seq(|samples|, k requires 0 <= k < |samples| => samples[k] / 32768.0))
    case S32 => Success(seq(|samples|, k requires 0 <= k < |samples| => samples[k] / 4294967296.0))
    case Flt => Success(samples)
    case Dbl => Success(samples)
    case U8 => Failure("Unknown sample format")
  }

  /** A 32-bit sample lies in [-2^31, 2^31), so dividing by 2^32 leaves
      it in [-0.5, 0.5): half the range the 16-bit samples reach, and the
      full-scale sample -2^31 becomes -0.5 instead of -1. */
  lemma S32AsWrittenHalfRange(samples: seq<real>)
    requires forall k :: 0 <= k < |samples| ==> -2147483648.0 <= samples[k] < 2147483648.0
    ensures var r := NormalizeAsWritten(S32, samples).value;
      forall k :: 0 <= k < |samples| ==> -0.5 <= r[k] < 0.5 && (samples[k] == -2147483648.0 ==> r[k] == -0.5)
  {
    var r := NormalizeAsWritten(S32, samples).value;
    forall k | 0 <= k < |samples|
      ensures -0.5 <= r[k] < 0.5 && (samples[k] == -2147483648.0 ==> r[k] == -0.5)
    {
      assert r[k] * 4294967296.0 == samples[k];
    }
  }

  /** Scales integer samples to [-1, 1) by their full scale, 2^15 for
      16-bit and 2^31 for 32-bit samples; float samples pass through; any
      other format is an error. */
  function Normalize(fmt: SampleFormat, samples: seq<real>): (r: Result<seq<real>, string>)
    ensures r.Failure? <==> fmt == U8
    ensures r.Success? ==> |r.value| == |samples|
    ensures fmt == S16 ==> forall k :: 0 <= k < |samples| ==> r.value[k] * 32768.0 == samples[k]
    ensures fmt == S32 ==> forall k :: 0 <= k < |samples| ==> r.value[k] * 2147483648.0 == samples[k]
    ensures fmt == Flt || fmt == Dbl ==> r == Success(samples)
  {
    match fmt
    case S16 => Success(seq(|samples|, k requires 0 <= k < |samples| => samples[k] / 32768.0))
    case S32 => Success(seq(|samples|, k requires 0 <= k < |samples| => samples[k] / 2147483648.0))
    case Flt => Success(samples)
    case Dbl => Success(samples)
    case U8 => Failure("Unknown sample format")
  }

  /** 2^(bits - 1) for the signed integer formats: the magnitude of their
      most negative sample, one past their largest. */
  function FullScale(fmt: SampleFormat): real
    requires fmt == S16 || fmt == S32
  {
    if fmt == S16 then 32768.0 else 2147483648.0
  }

  /** Every integer sample format lands in [-1, 1), and its full-scale
      negative sample on exactly -1. */
  lemma NormalizeRange(fmt: SampleFormat, samples: seq<real>)
    requires fmt == S16 || fmt == S32
    requires forall k :: 0 <= k < |samples| ==> -FullScale(fmt) <= samples[k] < FullScale(fmt)
    ensures var r := Normalize(fmt, samples).value;
      forall k :: 0 <= k < |samples| ==> -1.0 <= r[k] < 1.0 && (samples[k] == -FullScale(fmt) ==> r[k] == -1.0)
  {
    var r := Normalize(fmt, samples).value;
    forall k | 0 <= k < |samples|
      ensures -1.0 <= r[k] < 1.0 && (samples[k] == -FullScale(fmt) ==> r[k] == -1.0)
    {
      assert r[k] * FullScale(fmt) == samples[k];
    }
  }

  /** `np.clip(x, 0, 255)`. */
  function Clip(x: real): (y: real)
    ensures 0.0 <= y <= 255.0
    ensures 0.0 <= x <= 255.0 ==> y == x
  {
    if x < 0.0 then 0.0 else if x > 255.0 then 255.0 else x
  }

  /** `astype(np.uint8)` of a value already in [0, 255]: the fraction is dropped. */
  function ToByte(x: real): (b: int)
    requires 0.0 <= x <= 255.0
    ensures 0 <= b <= 255
    ensures b as real <= x < b as real + 1.0
  {
    x.Floor
  }

  /** Scale by 255, clip, reverse the bin order, convert to bytes. */
  function PostProcess(mags: seq<real>): (out: seq<int>)
    ensures |out| == |mags|
  {
    seq(|mags|, i requires 0 <= i < |mags| => ToByte(Clip(255.0 * mags[|mags| - 1 - i])))
  }

  /** Every output byte is in [0, 255]; output position i holds input bin
      |mags|-1-i, so the highest frequency comes first: a magnitude that
      scales into [0, 255] becomes the floor of its scaled value, one that
      scales to 255 or more becomes 255, and one that scales below 0
      becomes 0. */
  lemma PostProcessSpec(mags: seq<real>)
    ensures var out := PostProcess(mags);
      && (forall i :: 0 <= i < |out| ==> 0 <= out[i] <= 255)
      && (forall i :: 0 <= i < |out| && 0.0 <= 255.0 * mags[|mags| - 1 - i] <= 255.0 ==>
            out[i] as real <= 255.0 * mags[|mags| - 1 - i] < out[i] as real + 1.0)
      && (forall i :: 0 <= i < |out| && 255.0 * mags[|mags| - 1 - i] >= 255.0 ==> out[i] == 255)
      && (forall i :: 0 <= i < |out| && mags[|mags| - 1 - i] <= 0.0 ==> out[i] == 0)
  {
    var out := PostProcess(mags);
    forall i | 0 <= i < |out|
      ensures 0 <= out[i] <= 255
      ensures 0.0 <= 255.0 * mags[|mags| - 1 - i] <= 255.0 ==>
        out[i] as real <= 255.0 * mags[|mags| - 1 - i] < out[i] as real + 1.0
      ensures 255.0 * mags[|mags| - 1 - i] >= 255.0 ==> out[i] == 255
      ensures mags[|mags| - 1 - i] <= 0.0 ==> out[i] == 0
    {
      var c := Clip(255.0 * mags[|mags| - 1 - i]);
      assert out[i] == ToByte(c);
    }
  }

  /** What the provider asks of the audio: the audio frame of a timestamp,
      the channel-averaged samples of a window, the sample format, and the
      transform from the input buffer to log-scaled magnitudes. */
  datatype Audio = Audio(
    audioFrame: int -> int,
    getSamples: (int, int) -> seq<real>,
    sampleFormat: Option<SampleFormat>,
    transform: seq<real> -> seq<real>)

  /** A column of zeros, for audio without a known sample format. */
  function ZeroColumn(n: nat): (z: seq<int>)
    ensures |z| == n && forall i :: 0 <= i < n ==> z[i] == 0
  {
    seq(n, i => 0)
  }

  class SpectrumProviderContext {
    /** The transform's input buffer, reused from one call to the next. */
    const input: array<real>

    constructor ()
      ensures fresh(input) && input.Length == SAMPLE_COUNT
    {
      input := new real[SAMPLE_COUNT];
    }

    /** `work`: the column for the timestamp `pts`, or the format error.
        The samples are normalised as the code writes it (32-bit samples
        divided by 2^32); the normalised samples are written over the start of the input buffer;
        whatever lies beyond them stays from earlier calls. */
    method Work(pts: int, audio: Audio) returns (r: Result<(int, seq<int>), string>)
      requires input.Length == SAMPLE_COUNT
      requires |audio.getSamples(WindowStart(audio.audioFrame(pts)), SAMPLE_COUNT)| <= SAMPLE_COUNT
      requires forall x: seq<real> :: |audio.transform(x)| == OUTPUT_LENGTH
      modifies input
      ensures r.Success? ==> r.value.0 == pts && |r.value.1| == OUTPUT_LENGTH
      ensures audio.sampleFormat.None? ==>
        r == Success((pts, ZeroColumn(OUTPUT_LENGTH))) && input[..] == old(input[..])
      ensures audio.sampleFormat == Some(U8) ==> r.Failure? && input[..] == old(input[..])
      ensures audio.sampleFormat.Some? && audio.sampleFormat.value != U8 ==>
        var samples := audio.getSamples(WindowStart(audio.audioFrame(pts)), SAMPLE_COUNT);
        var normal := NormalizeAsWritten(audio.sampleFormat.value, samples);
        && normal.Success?
        && input[..|samples|] == normal.value
        && input[|samples|..] == old(input[|samples|..])
        && r == Success((pts, PostProcess(audio.transform(input[..]))))
    {
      var audioFrame := audio.audioFrame(pts);
      var firstSample := ShiftLeft(ShiftRight(audioFrame, DERIVATION_DISTANCE), DERIVATION_DISTANCE);
      var samples := audio.getSamples(firstSample, SAMPLE_COUNT);
      if audio.sampleFormat.None? {
        return Success((pts, ZeroColumn(OUTPUT_LENGTH)));
      }
      var normal := NormalizeAsWritten(audio.sampleFormat.value, samples);
      if normal.Failure? {
        return Failure(normal.error);
      }
      var values := normal.value;
      var k := 0;
      while k < |values|
        invariant 0 <= k <= |values|
        invariant input[..k] == values[..k]
        invariant input[|values|..] == old(input[|values|..])
      {
        input[k] := values[k];
        k := k + 1;
      }
      assert values[..k] == values;
      var out := audio.transform(input[..]);
      r := Success((pts, PostProcess(out)));
    }
  }
}
