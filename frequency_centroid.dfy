/** Frequency centroid: per frame, the bin index weighted by the spectrum value, Σ k·s[k] / Σ s[k],
    with 0 in place of the quotient when the denominator vanishes. */
module FrequencyCentroid {
  import opened Outcomes
  import opened Sums
  import opened FastFourierTransform

  /** The centroid of one frame's spectrum; a zero denominator (a NaN or infinite quotient) gives 0. */
  function Centroid(spectrum: seq<real>): real
  {
    if Sum(spectrum) == 0.0 then 0.0 else WeightedSum(spectrum) / Sum(spectrum)
  }

  /** `c` holds one entry per whole frame of the buffer (none when the frame count is negative),
      entry i the centroid of frame i's decibel spectrum. */
  ghost predicate IsCentroidSeries(samples: seq<real>, sampleRate: nat, frameLength: int, num: Numerics, c: seq<real>)
    requires InPlace(num) && frameLength != 0
  {
    |c| == (if FrameCount(|samples|, frameLength) < 0 then 0 else FrameCount(|samples|, frameLength)) &&
    forall i :: 0 <= i < |c| ==>
      FrameSpectrum(samples, sampleRate, i, frameLength, true, num).Ok? &&
      c[i] == Centroid(FrameSpectrum(samples, sampleRate, i, frameLength, true, num).value)
  }

  /** One centroid per whole frame of the buffer, each taken from that frame's spectrum in decibels. */
  method Calculate(samples: seq<real>, sampleRate: nat, frameLength: int, num: Numerics) returns (r: Result<seq<real>>)
    requires InPlace(num)
    ensures r.Err? <==> frameLength == 0
    ensures r.Err? ==> r.error == DivideByZero
    ensures r.Ok? ==> IsCentroidSeries(samples, sampleRate, frameLength, num, r.value)
  {
    if frameLength == 0 {
      // the frame count divides by the frame length
      return Err(DivideByZero);
    }
    var count := FrameCount(|samples|, frameLength);
    var fc: seq<real> := [];
    var i := 0;
    while i < count
      invariant 0 <= i && (if count < 0 then i == 0 else i <= count) && |fc| == i
      invariant forall k :: 0 <= k < i ==>
                  FrameSpectrum(samples, sampleRate, k, frameLength, true, num).Ok? &&
                  fc[k] == Centroid(FrameSpectrum(samples, sampleRate, k, frameLength, true, num).value)
    {
      var frame := SelectedFrameFFT(samples, sampleRate, i, frameLength, true, num);
      InRangeFrame(samples, sampleRate, i, frameLength, true, num);
      var sumUp, sumDown := FrameSums(frame.value);
      if sumDown == 0.0 {
        fc := fc + [0.0];
      } else {
        fc := fc + [sumUp / sumDown];
      }
      i := i + 1;
    }
    r := Ok(fc);
  }

  /** The accumulation over one frame's spectrum: the index-weighted sum and the plain sum. */
  method FrameSums(singleFc: seq<real>) returns (sumUp: real, sumDown: real)
    ensures sumUp == WeightedSum(singleFc) && sumDown == Sum(singleFc)
  {
    sumUp, sumDown := 0.0, 0.0;
    var s := 0;
    while s < |singleFc|
      invariant 0 <= s <= |singleFc|
      invariant sumUp == WeightedSum(singleFc[..s]) && sumDown == Sum(singleFc[..s])
    {
      assert singleFc[..s + 1][..s] == singleFc[..s];
      sumUp := sumUp + s as real * singleFc[s];
      sumDown := sumDown + singleFc[s];
      s := s + 1;
    }
    assert singleFc[..s] == singleFc;
  }

  /** A spectrum whose levels are 0 except at bin b has its centroid at b. On the decibel spectra
      the series is built from, a level of 0 is 0 dB, a magnitude of 1. */
  lemma ToneCentroid(spectrum: seq<real>, b: nat)
    requires IsTone(spectrum, b) && spectrum[b] != 0.0
    ensures Centroid(spectrum) == b as real
  {
    ToneSums(spectrum, b);
  }

  /** For a non-negative spectrum the centroid is a bin position: between 0 and the last bin. */
  lemma CentroidIsABinPosition(spectrum: seq<real>)
    requires NonNegative(spectrum) && |spectrum| > 0
    ensures 0.0 <= Centroid(spectrum) <= (|spectrum| - 1) as real
  {
    WeightedSumBounds(spectrum);
    if Sum(spectrum) != 0.0 {
      QuotientBounds(WeightedSum(spectrum), Sum(spectrum), (|spectrum| - 1) as real);
    }
  }
}
