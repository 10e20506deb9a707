/** Band energy: per frame, the mean squared spectrum value over the band [f1, f2], the band
    clamped to the frame's spectrum. */
module BandEnergy {
  import opened Outcomes
  import opened Sums

  /** The mean of the squares over the clamped band of one frame's spectrum. */
  function BandMean(spectrum: seq<real>, f1: nat, f2: nat): real
    requires f1 < BandEnd(|spectrum|, f2)
  {
    BandSquares(spectrum, f1, f2) / (BandEnd(|spectrum|, f2) - f1) as real
  }

  /** One band energy per whole frame of the buffer. `spectrumOf` gives the spectrum of each frame;
      the band bounds f1 and f2 are the analyser's band-energy frequencies. */
  method Calculate(samples: seq<real>, frameLength: int, f1: nat, f2: nat, spectrumOf: nat -> seq<real>)
    returns (r: Result<seq<real>>)
    requires frameLength != 0 ==>
               forall i :: 0 <= i < FrameCount(|samples|, frameLength) ==> f1 < BandEnd(|spectrumOf(i)|, f2)
    ensures r == Err(DivideByZero) <==> frameLength == 0
    ensures r == Err(Overflow) <==> frameLength != 0 && FrameCount(|samples|, frameLength) < 0
    ensures r.Ok? <==> frameLength != 0 && FrameCount(|samples|, frameLength) >= 0
    ensures r.Ok? ==> |r.value| == FrameCount(|samples|, frameLength)
    ensures r.Ok? ==> forall i :: 0 <= i < |r.value| ==> r.value[i] == BandMean(spectrumOf(i), f1, f2)
  {
    if frameLength == 0 {
      return Err(DivideByZero);
    }
    var count := FrameCount(|samples|, frameLength);
    if count < 0 {
      // an array of negative length
      return Err(Overflow);
    }
    var energy := new real[count];
    for i := 0 to count
      invariant forall k :: 0 <= k < i ==> energy[k] == BandMean(spectrumOf(k), f1, f2)
    {
      var sumUp, sumDown := BandSums(spectrumOf(i), f1, f2);
      energy[i] := sumUp / sumDown;
    }
    r := Ok(energy[..]);
  }

  /** The accumulation over the clamped band of one frame: the sum of squares and the number of bins. */
  method BandSums(frame: seq<real>, f1: nat, f2: nat) returns (sumUp: real, sumDown: real)
    requires f1 < BandEnd(|frame|, f2)
    ensures sumUp == BandSquares(frame, f1, f2)
    ensures sumDown == (BandEnd(|frame|, f2) - f1) as real
  {
    sumUp, sumDown := 0.0, 0.0;
    var s := f1;
    while s < BandEnd(|frame|, f2)
      invariant f1 <= s <= BandEnd(|frame|, f2)
      invariant sumUp == SumSquares(frame[f1..s]) && sumDown == (s - f1) as real
    {
      assert frame[f1..s + 1][..s - f1] == frame[f1..s];
      sumUp := sumUp + frame[s] * frame[s];
      sumDown := sumDown + 1.0;
      s := s + 1;
    }
  }

  /** A band energy is at least 0 and at most the largest squared value in the band. */
  lemma BandMeanBounds(spectrum: seq<real>, f1: nat, f2: nat)
    requires f1 < BandEnd(|spectrum|, f2)
    ensures var band := spectrum[f1..BandEnd(|spectrum|, f2)];
            0.0 <= BandMean(spectrum, f1, f2) <= Max(Squares(band))
  {
    var band := spectrum[f1..BandEnd(|spectrum|, f2)];
    SquaresAtMostMax(band);
    MeanSquareBounds(band, Max(Squares(band)));
  }

  /** A silent band has energy 0. */
  lemma SilentBand(spectrum: seq<real>, f1: nat, f2: nat)
    requires f1 < BandEnd(|spectrum|, f2) && AllZero(spectrum[f1..BandEnd(|spectrum|, f2)])
    ensures BandMean(spectrum, f1, f2) == 0.0
  {
    SumSquaresOfZeros(spectrum[f1..BandEnd(|spectrum|, f2)]);
  }
}
