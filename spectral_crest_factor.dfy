/** Spectral crest factor: per frame, the largest squared spectrum value over the mean squared
    value of the band [f1, f2]. A hidden parameter: with hidden parameters switched off the series
    is empty. A quotient that is not finite leaves the frame's entry at 0. */
module SpectralCrestFactor {
  import opened Outcomes
  import opened Sums

  /** The crest factor of one frame's non-empty spectrum. The band's sum of squares is divided by
      the band width f2 − f1 + 1 as written, unclamped; a zero width or a zero mean makes the
      quotient non-finite, and the entry stays 0. */
  function CrestFactor(spectrum: seq<real>, f1: nat, f2: nat): real
    requires |spectrum| > 0
  {
    var width := f2 - f1 + 1;
    if width == 0 then 0.0 else PeakOverMean(Max(Squares(spectrum)), BandSquares(spectrum, f1, f2), width)
  }

  /** The peak over the mean bandSum / width, or 0 when that mean is 0. */
  function PeakOverMean(peak: real, bandSum: real, width: int): real
    requires width != 0
  {
    var down := bandSum / width as real;
    if down == 0.0 then 0.0 else peak / down
  }

  /** One crest factor per whole frame of the buffer. `spectrumOf` gives the spectrum of each
      frame; f1 and f2 are the analyser's band-energy frequencies. */
  method Calculate(showHidden: bool, samples: seq<real>, frameLength: int, f1: nat, f2: nat,
                   spectrumOf: nat -> seq<real>)
    returns (r: Result<seq<real>>)
    ensures !showHidden ==> r == Ok([])
    ensures showHidden ==> (r == Err(DivideByZero) <==> frameLength == 0)
    ensures showHidden && frameLength != 0 ==>
              (r == Err(Overflow) <==> FrameCount(|samples|, frameLength) < 0)
    ensures showHidden && frameLength != 0 && FrameCount(|samples|, frameLength) >= 0 ==>
              (r == Err(EmptySequence) <==>
                 exists i :: 0 <= i < FrameCount(|samples|, frameLength) && spectrumOf(i) == [])
    ensures showHidden ==>
              (r.Ok? <==> (frameLength != 0 && FrameCount(|samples|, frameLength) >= 0 &&
                           forall i :: 0 <= i < FrameCount(|samples|, frameLength) ==> spectrumOf(i) != []))
    ensures showHidden && r.Ok? ==> |r.value| == FrameCount(|samples|, frameLength)
    ensures showHidden && r.Ok? ==> forall i :: 0 <= i < |r.value| ==>
              |spectrumOf(i)| > 0 && r.value[i] == CrestFactor(spectrumOf(i), f1, f2)
  {
    if !showHidden {
      return Ok([]);
    }
    if frameLength == 0 {
      return Err(DivideByZero);
    }
    var count := FrameCount(|samples|, frameLength);
    if count < 0 {
      // an array of negative length
      return Err(Overflow);
    }
    var csf := new real[count];
    for i := 0 to count
      invariant forall k :: 0 <= k < i ==> |spectrumOf(k)| > 0 && csf[k] == CrestFactor(spectrumOf(k), f1, f2)
    {
      var frame := spectrumOf(i);
      if frame == [] {
        // the maximum of an empty sequence
        return Err(EmptySequence);
      }
      csf[i] := FrameCrest(frame, f1, f2);
    }
    r := Ok(csf[..]);
  }

  /** The entry of one frame: the largest square over the band's mean square, or 0 when that
      quotient is not finite. */
  method FrameCrest(frame: seq<real>, f1: nat, f2: nat) returns (add: real)
    requires |frame| > 0
    ensures add == CrestFactor(frame, f1, f2)
  {
    var maxUp := LargestSquare(frame);
    var down := BandSum(frame, f1, f2);
    add := 0.0;  // the array's initial value, kept when the quotient is not finite
    var width := f2 - f1 + 1;
    if width != 0 {
      down := down / width as real;
      if down != 0.0 {
        add := maxUp / down;
      }
    }
  }

  /** The largest squared value of a non-empty frame. */
  method LargestSquare(frame: seq<real>) returns (maxUp: real)
    requires |frame| > 0
    ensures maxUp == Max(Squares(frame))
  {
    var squares := Squares(frame);
    maxUp := squares[0];
    var s := 1;
    while s < |squares|
      invariant 1 <= s <= |squares|
      invariant maxUp == Max(squares[..s])
    {
      MaxOfLongerPrefix(squares, s);
      if maxUp < squares[s] {
        maxUp := squares[s];
      }
      s := s + 1;
    }
    assert squares[..s] == squares;
  }

  /** The sum of squares over the band [f1, f2] clamped to the frame. */
  method BandSum(frame: seq<real>, f1: nat, f2: nat) returns (down: real)
    ensures down == BandSquares(frame, f1, f2)
  {
    down := 0.0;
    var end := BandEnd(|frame|, f2);
    var s := f1;
    while s < end
      invariant f1 <= s && (s == f1 || s <= end)
      invariant down == if s == f1 then 0.0 else SumSquares(frame[f1..s])
    {
      assert frame[f1..s + 1][..s - f1] == frame[f1..s];
      down := down + frame[s] * frame[s];
      s := s + 1;
    }
  }

  /** The largest square of a spectrum is not negative. */
  lemma MaxSquareNonNegative(spectrum: seq<real>)
    requires |spectrum| > 0
    ensures Max(Squares(spectrum)) >= 0.0
  {
    assert Squares(spectrum)[0] == spectrum[0] * spectrum[0];
  }

  /** A non-empty clamped band lies inside [f1, f2], so f1 <= f2 and the width is positive. */
  lemma NonEmptyBandWidth(spectrum: seq<real>, f1: nat, f2: nat)
    requires BandSquares(spectrum, f1, f2) != 0.0
    ensures f1 <= f2 && BandSquares(spectrum, f1, f2) > 0.0
  {
    SumSquaresNonNegative(spectrum[f1..BandEnd(|spectrum|, f2)]);
  }

  /** No crest factor is negative. */
  lemma CrestNonNegative(spectrum: seq<real>, f1: nat, f2: nat)
    requires |spectrum| > 0
    ensures CrestFactor(spectrum, f1, f2) >= 0.0
  {
    if BandSquares(spectrum, f1, f2) != 0.0 {
      NonEmptyBandWidth(spectrum, f1, f2);
      MaxSquareNonNegative(spectrum);
      PeakOverMeanNonNegative(Max(Squares(spectrum)), BandSquares(spectrum, f1, f2), f2 - f1 + 1);
    }
  }

  lemma PeakOverMeanNonNegative(peak: real, bandSum: real, width: int)
    requires peak >= 0.0 && bandSum > 0.0 && width > 0
    ensures PeakOverMean(peak, bandSum, width) >= 0.0
  {
    assert bandSum / width as real > 0.0;
  }

  /** For a band inside the spectrum, the crest factor is 0 exactly when the band is silent, and
      otherwise at least 1: the peak square is never below the band's mean square. */
  lemma CrestAtLeastOne(spectrum: seq<real>, f1: nat, f2: nat)
    requires f1 <= f2 < |spectrum|
    ensures BandSquares(spectrum, f1, f2) == 0.0 <==> CrestFactor(spectrum, f1, f2) == 0.0
    ensures BandSquares(spectrum, f1, f2) != 0.0 ==> CrestFactor(spectrum, f1, f2) >= 1.0
  {
    var band := spectrum[f1..f2 + 1];
    var m := Max(Squares(spectrum));
    assert BandSquares(spectrum, f1, f2) == SumSquares(band);
    if SumSquares(band) != 0.0 {
      BandMeanAtMostPeak(spectrum, f1, f2);
      NonEmptyBandWidth(spectrum, f1, f2);
      PeakOverMeanAtLeastOne(m, SumSquares(band), |band|);
    }
  }

  /** The mean square of a band inside the spectrum is at most the spectrum's largest square. */
  lemma BandMeanAtMostPeak(spectrum: seq<real>, f1: nat, f2: nat)
    requires f1 <= f2 < |spectrum|
    ensures SumSquares(spectrum[f1..f2 + 1]) / (f2 + 1 - f1) as real <= Max(Squares(spectrum))
  {
    var band := spectrum[f1..f2 + 1];
    var m := Max(Squares(spectrum));
    SquaresAtMostMax(spectrum);
    forall k | 0 <= k < |band|
      ensures band[k] * band[k] <= m
    {
      assert band[k] == spectrum[f1 + k];
    }
    MeanSquareBounds(band, m);
  }

  /** A positive mean no larger than the peak gives a quotient of at least 1. */
  lemma PeakOverMeanAtLeastOne(peak: real, bandSum: real, width: int)
    requires bandSum > 0.0 && width > 0 && bandSum / width as real <= peak
    ensures PeakOverMean(peak, bandSum, width) >= 1.0
  {
    var down := bandSum / width as real;
    assert down > 0.0;
    var q := peak / down;
    assert q * down == peak;
  }

  /** A pure tone inside the band [f1, f2] has crest factor f2 − f1 + 1, the band's width: its
      one bin carries the whole band energy. */
  lemma ToneCrest(spectrum: seq<real>, b: nat, f1: nat, f2: nat)
    requires IsTone(spectrum, b) && spectrum[b] != 0.0
    requires f1 <= b <= f2 < |spectrum|
    ensures CrestFactor(spectrum, f1, f2) == (f2 - f1 + 1) as real
  {
    ToneBandIsPeak(spectrum, b, f1, f2);
    TonePeakPositive(spectrum, b);
    PeakOverMeanOfTone(Max(Squares(spectrum)), f2 - f1 + 1);
  }

  /** The band energy of a pure tone inside the band equals the tone's largest square. */
  lemma ToneBandIsPeak(spectrum: seq<real>, b: nat, f1: nat, f2: nat)
    requires IsTone(spectrum, b)
    requires f1 <= b <= f2 < |spectrum|
    ensures BandSquares(spectrum, f1, f2) == Max(Squares(spectrum))
  {
    ToneBandSquares(spectrum, b, f1, f2);
    ToneMaxSquare(spectrum, b);
  }

  /** A pure tone whose bin is not zero has a positive peak. */
  lemma TonePeakPositive(spectrum: seq<real>, b: nat)
    requires IsTone(spectrum, b) && spectrum[b] != 0.0
    ensures Max(Squares(spectrum)) > 0.0
  {
    ToneMaxSquare(spectrum, b);
    SquarePositive(spectrum[b], Max(Squares(spectrum)));
  }

  /** The band energy of a pure tone inside the band is the square of its one bin. */
  lemma ToneBandSquares(spectrum: seq<real>, b: nat, f1: nat, f2: nat)
    requires IsTone(spectrum, b)
    requires f1 <= b <= f2 < |spectrum|
    ensures BandSquares(spectrum, f1, f2) == spectrum[b] * spectrum[b]
  {
    var band := spectrum[f1..f2 + 1];
    assert IsTone(band, b - f1);
    ToneSums(band, b - f1);
  }

  /** The largest square of a pure tone is the square of its one bin. */
  lemma ToneMaxSquare(spectrum: seq<real>, b: nat)
    requires IsTone(spectrum, b)
    ensures Max(Squares(spectrum)) == spectrum[b] * spectrum[b]
  {
    var squares := Squares(spectrum);
    assert squares[b] == spectrum[b] * spectrum[b];
    assert forall k :: 0 <= k < |squares| && k != b ==> squares[k] == 0.0;
    SquareNonNegative(spectrum[b]);
  }

  /** When the band sum is the peak itself, the quotient is the width. */
  lemma PeakOverMeanOfTone(peak: real, width: int)
    requires peak > 0.0 && width > 0
    ensures PeakOverMean(peak, peak, width) == width as real
  {
    var w := width as real;
    var down := peak / w;
    assert down * w == peak;
    assert down > 0.0;
    var q := peak / down;
    assert q * down == peak;
    assert (q - w) * down == 0.0;
  }
}
