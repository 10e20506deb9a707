/** Effective bandwidth: per frame, the spread of the squared spectrum around the frame's
    centroid, Σ (k − c)²·s[k]² / Σ s[k]², with 0 in place of the quotient when the denominator vanishes. */
module EffectiveBandwidth {
  import opened Outcomes
  import opened Sums

  /** The bandwidth of one frame's spectrum around centroid c; a zero denominator gives 0. */
  function Bandwidth(spectrum: seq<real>, c: real): real
  {
    if SumSquares(spectrum) == 0.0 then 0.0 else Spread(spectrum, c) / SumSquares(spectrum)
  }

  /** `b` holds `count` entries, entry i the bandwidth of frame i's spectrum around the centroid
      of frame i, or 0 for an empty spectrum. */
  ghost predicate IsBandwidthSeries(count: int, centroid: seq<real>, spectrumOf: nat -> seq<real>, b: seq<real>)
  {
    |b| == count &&
    forall i :: 0 <= i < |b| ==>
      if spectrumOf(i) == [] then b[i] == 0.0
      else i < |centroid| && b[i] == Bandwidth(spectrumOf(i), centroid[i])
  }

  /** One bandwidth per whole frame of the buffer, frame i taken around the stored centroid of
      frame i. `spectrumOf` gives the spectrum of each frame. */
  method Calculate(samples: seq<real>, frameLength: int, centroid: Option<seq<real>>, spectrumOf: nat -> seq<real>)
    returns (r: Result<seq<real>>)
    ensures r == Err(InvalidOperation(Prerequisite.Centroid)) <==> centroid.None? || centroid.value == []
    ensures centroid.Some? && centroid.value != [] ==>
              (r == Err(DivideByZero) <==> frameLength == 0)
    ensures centroid.Some? && centroid.value != [] && frameLength != 0 ==>
              (r == Err(Overflow) <==> FrameCount(|samples|, frameLength) < 0)
    ensures centroid.Some? && centroid.value != [] && frameLength != 0 && FrameCount(|samples|, frameLength) >= 0 ==>
              (r == Err(IndexOutOfRange) <==>
                 exists i :: 0 <= i < FrameCount(|samples|, frameLength) && |centroid.value| <= i && spectrumOf(i) != [])
    ensures r.Ok? <==>
              centroid.Some? && centroid.value != [] && frameLength != 0 && FrameCount(|samples|, frameLength) >= 0 &&
              forall i :: 0 <= i < FrameCount(|samples|, frameLength) && spectrumOf(i) != [] ==> i < |centroid.value|
    ensures r.Ok? ==> IsBandwidthSeries(FrameCount(|samples|, frameLength), centroid.value, spectrumOf, r.value)
  {
    if centroid.None? || centroid.value == [] {
      return Err(InvalidOperation(Prerequisite.Centroid));
    }
    if frameLength == 0 {
      return Err(DivideByZero);
    }
    var count := FrameCount(|samples|, frameLength);
    if count < 0 {
      // an array of negative length
      return Err(Overflow);
    }
    var cent := centroid.value;
    var bandwidth := new real[count];
    for i := 0 to count
      invariant forall k :: 0 <= k < i ==> !(|cent| <= k && spectrumOf(k) != [])
      invariant forall k :: 0 <= k < i ==>
                  if spectrumOf(k) == [] then bandwidth[k] == 0.0
                  else k < |cent| && bandwidth[k] == Bandwidth(spectrumOf(k), cent[k])
    {
      var singleFrame := spectrumOf(i);
      var sumUp, sumDown := 0.0, 0.0;
      if singleFrame != [] {
        if |cent| <= i {
          return Err(IndexOutOfRange);
        }
        sumUp, sumDown := FrameSums(singleFrame, cent[i]);
      }
      bandwidth[i] := if sumDown == 0.0 then 0.0 else sumUp / sumDown;
    }
    r := Ok(bandwidth[..]);
  }

  /** The accumulation over one frame's spectrum: the spread around c and the sum of squares. */
  method FrameSums(singleFrame: seq<real>, c: real) returns (sumUp: real, sumDown: real)
    ensures sumUp == Spread(singleFrame, c) && sumDown == SumSquares(singleFrame)
  {
    sumUp, sumDown := 0.0, 0.0;
    var s := 0;
    while s < |singleFrame|
      invariant 0 <= s <= |singleFrame|
      invariant sumUp == Spread(singleFrame[..s], c) && sumDown == SumSquares(singleFrame[..s])
    {
      assert singleFrame[..s + 1][..s] == singleFrame[..s];
      sumUp := sumUp + (s as real - c) * (s as real - c) * singleFrame[s] * singleFrame[s];
      sumDown := sumDown + singleFrame[s] * singleFrame[s];
      s := s + 1;
    }
    assert singleFrame[..s] == singleFrame;
  }

  /** No bandwidth is negative. */
  lemma BandwidthNonNegative(spectrum: seq<real>, c: real)
    ensures Bandwidth(spectrum, c) >= 0.0
  {
    SumSquaresNonNegative(spectrum);
    SpreadNonNegative(spectrum, c);
    if SumSquares(spectrum) != 0.0 {
      var q := Spread(spectrum, c) / SumSquares(spectrum);
      assert q * SumSquares(spectrum) == Spread(spectrum, c);
    }
  }

  /** A pure tone measured around its own bin has bandwidth 0. */
  lemma ToneBandwidth(spectrum: seq<real>, b: nat)
    requires IsTone(spectrum, b)
    ensures Bandwidth(spectrum, b as real) == 0.0
  {
    ToneSums(spectrum, b);
  }
}
