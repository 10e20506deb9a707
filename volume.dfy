/** Volume: per frame, the sum of the squared spectrum values divided by the frame length. */
module Volume {
  import opened Outcomes
  import opened Sums
  import opened FastFourierTransform

  /** The volume of one frame with spectrum `spectrum`. */
  function FrameVolume(spectrum: seq<real>, frameLength: int): real
    requires frameLength != 0
  {
    SumSquares(spectrum) / frameLength as real
  }

  /** `v` holds one entry per whole frame of the buffer (none when the frame count is negative),
      entry i the volume of frame i's decibel spectrum. */
  ghost predicate IsVolumeSeries(samples: seq<real>, sampleRate: nat, frameLength: int, num: Numerics, v: seq<real>)
    requires InPlace(num) && frameLength != 0
  {
    |v| == (if FrameCount(|samples|, frameLength) < 0 then 0 else FrameCount(|samples|, frameLength)) &&
    forall i :: 0 <= i < |v| ==>
      FrameSpectrum(samples, sampleRate, i, frameLength, true, num).Ok? &&
      v[i] == FrameVolume(FrameSpectrum(samples, sampleRate, i, frameLength, true, num).value, frameLength)
  }

  /** One volume per whole frame of the buffer, each taken from that frame's spectrum in decibels. */
  method Calculate(samples: seq<real>, sampleRate: nat, frameLength: int, num: Numerics) returns (r: Result<seq<real>>)
    requires InPlace(num)
    ensures r.Err? <==> frameLength == 0
    ensures r.Err? ==> r.error == DivideByZero
    ensures r.Ok? ==> IsVolumeSeries(samples, sampleRate, frameLength, num, r.value)
  {
    if frameLength == 0 {
      // the frame count divides by the frame length
      return Err(DivideByZero);
    }
    var count := FrameCount(|samples|, frameLength);
    var volume: seq<real> := [];
    var i := 0;
    while i < count
      invariant 0 <= i && (if count < 0 then i == 0 else i <= count) && |volume| == i
      invariant forall k :: 0 <= k < i ==>
                  FrameSpectrum(samples, sampleRate, k, frameLength, true, num).Ok? &&
                  volume[k] == FrameVolume(FrameSpectrum(samples, sampleRate, k, frameLength, true, num).value, frameLength)
    {
      var frame := SelectedFrameFFT(samples, sampleRate, i, frameLength, true, num);
      InRangeFrame(samples, sampleRate, i, frameLength, true, num);
      var sum := SquareSum(frame.value);
      volume := volume + [sum / frameLength as real];
      i := i + 1;
    }
    r := Ok(volume);
  }

  /** The accumulation over one frame's spectrum, bin after bin. */
  method SquareSum(singleVolume: seq<real>) returns (sum: real)
    ensures sum == SumSquares(singleVolume)
  {
    sum := 0.0;
    var j := 0;
    while j < |singleVolume|
      invariant 0 <= j <= |singleVolume|
      invariant sum == SumSquares(singleVolume[..j])
    {
      assert singleVolume[..j + 1][..j] == singleVolume[..j];
      sum := sum + singleVolume[j] * singleVolume[j];
      j := j + 1;
    }
    assert singleVolume[..j] == singleVolume;
  }

  /** With a positive frame length no volume is negative. */
  lemma FrameVolumeNonNegative(spectrum: seq<real>, frameLength: int)
    requires frameLength > 0
    ensures FrameVolume(spectrum, frameLength) >= 0.0
  {
    SumSquaresNonNegative(spectrum);
  }

  /** A frame whose spectrum levels are all 0 has volume 0. On the decibel spectra the series is
      built from, a level of 0 is 0 dB, a magnitude of 1; it is not a silent frame. */
  lemma SilentFrameVolume(spectrum: seq<real>, frameLength: int)
    requires frameLength != 0 && AllZero(spectrum)
    ensures FrameVolume(spectrum, frameLength) == 0.0
  {
    SumSquaresOfZeros(spectrum);
  }
}
