/** A loaded sound file and the feature series computed from it.

    The samples and the sample rate are fixed when the file is loaded; the frame length and the
    three stored series (volume, frequency centroid, effective bandwidth) are updated in place by
    `RefreshCalculations`, in two waves: volume and centroid first, then the bandwidth, which reads
    the centroid just stored. A series that has never been computed is `None` (a null array). */
module SoundAnalyser {
  import opened Outcomes
  import opened Sums
  import FastFourierTransform
  import Volume
  import FrequencyCentroid
  import EffectiveBandwidth

  /** The frame length a file is loaded with unless the caller names another. */
  const DefaultFrameLength := 256

  /** The format fields of a WAV header. */
  datatype WaveFormat = WaveFormat(sampleRate: int, bitsPerSample: int, channels: int)

  /** Only 22050 Hz, 16-bit, mono files are analysed. */
  predicate Accepted(format: WaveFormat)
  {
    format.sampleRate == 22050 && format.bitsPerSample == 16 && format.channels == 1
  }

  /** A stored series can be drawn only once it has been computed and is not empty. */
  function PlotGuard(series: Option<seq<real>>): (o: Outcome)
    ensures o == Pass || o == Fail(InvalidOperation(Prerequisite.Calculated))
    ensures o == Pass <==> series.Some? && |series.value| > 0
  {
    if series.None? || |series.value| == 0 then Fail(InvalidOperation(Prerequisite.Calculated)) else Pass
  }

  class Soundfile {
    var FrameLength: int
    const samples: seq<real>
    const SampleRate: nat
    var volume: Option<seq<real>>
    var frequencyCentroid: Option<seq<real>>
    var effectiveBandwidth: Option<seq<real>>

    /** A sound file holding the decoded samples, with no series computed yet. */
    constructor(sampleRate: nat, decoded: seq<real>, frameLength: int)
      ensures FrameLength == frameLength && samples == decoded && SampleRate == sampleRate
      ensures volume == None && frequencyCentroid == None && effectiveBandwidth == None
    {
      FrameLength := frameLength;
      SampleRate := sampleRate;
      samples := decoded;
      volume, frequencyCentroid, effectiveBandwidth := None, None, None;
    }

    /** Loads a file with header `format` whose samples decode to `decoded`, then computes its
        series. A format other than 22050 Hz, 16 bit, mono is refused; a failing computation makes
        the load fail with the same fault. */
    static method Open(format: WaveFormat, decoded: seq<real>, num: FastFourierTransform.Numerics,
                       spectrumOf: nat -> seq<real>, frameLength: int := DefaultFrameLength)
      returns (r: Result<Soundfile>)
      requires FastFourierTransform.InPlace(num)
      ensures !Accepted(format) <==> r == Err(FileFormat)
      ensures r.Ok? <==> Accepted(format) && 0 < frameLength <= |decoded|
      ensures r.Ok? ==> fresh(r.value) && r.value.samples == decoded && r.value.SampleRate == 22050 &&
                        r.value.FrameLength == frameLength && r.value.Calculated(num, spectrumOf)
    {
      if !Accepted(format) {
        return Err(FileFormat);
      }
      var soundfile := new Soundfile(format.sampleRate, decoded, frameLength);
      var outcome := soundfile.RefreshCalculations(None, num, spectrumOf);
      if outcome.Fail? {
        return Err(outcome.error);
      }
      r := Ok(soundfile);
    }

    /** All three series are present and are those of the current samples and frame length. */
    ghost predicate Calculated(num: FastFourierTransform.Numerics, spectrumOf: nat -> seq<real>)
      reads this
      requires FastFourierTransform.InPlace(num)
    {
      FrameLength != 0 &&
      volume.Some? && Volume.IsVolumeSeries(samples, SampleRate, FrameLength, num, volume.value) &&
      frequencyCentroid.Some? &&
      FrequencyCentroid.IsCentroidSeries(samples, SampleRate, FrameLength, num, frequencyCentroid.value) &&
      effectiveBandwidth.Some? &&
      EffectiveBandwidth.IsBandwidthSeries(FrameCount(|samples|, FrameLength), frequencyCentroid.value, spectrumOf,
                                           effectiveBandwidth.value)
    }

    /** Recomputes the series, first taking `frameLength` as the new frame length if one is given.
        Wave 1 stores volume and centroid; wave 2 computes the bandwidth from the centroid just
        stored. A failing wave stores nothing, and the outcome names its fault. */
    method RefreshCalculations(frameLength: Option<int>, num: FastFourierTransform.Numerics,
                               spectrumOf: nat -> seq<real>)
      returns (outcome: Outcome)
      requires FastFourierTransform.InPlace(num)
      modifies this
      ensures FrameLength == if frameLength.Some? then frameLength.value else old(FrameLength)
      // wave 1 fails on a frame length of 0 and stores nothing
      ensures FrameLength == 0 ==>
                outcome == Fail(DivideByZero) && volume == old(volume) &&
                frequencyCentroid == old(frequencyCentroid) && effectiveBandwidth == old(effectiveBandwidth)
      // otherwise wave 1 stores both series
      ensures FrameLength != 0 ==>
                volume.Some? && Volume.IsVolumeSeries(samples, SampleRate, FrameLength, num, volume.value) &&
                frequencyCentroid.Some? &&
                FrequencyCentroid.IsCentroidSeries(samples, SampleRate, FrameLength, num, frequencyCentroid.value)
      // wave 2 fails on an empty centroid series, i.e. when no whole frame fits
      ensures FrameLength != 0 && FrameCount(|samples|, FrameLength) <= 0 ==>
                outcome == Fail(InvalidOperation(Prerequisite.Centroid)) && effectiveBandwidth == old(effectiveBandwidth)
      ensures outcome == Pass <==> 0 < FrameLength <= |samples|
      ensures outcome == Pass ==> Calculated(num, spectrumOf)
      ensures outcome == Pass ==>
                |volume.value| == |frequencyCentroid.value| == |effectiveBandwidth.value| == |samples| / FrameLength
    {
      if frameLength.Some? {
        FrameLength := frameLength.value;
      }
      // first wave: volume and centroid, independent of each other
      var v := Volume.Calculate(samples, SampleRate, FrameLength, num);
      var fc := FrequencyCentroid.Calculate(samples, SampleRate, FrameLength, num);
      // both fail together, on a frame length of 0, with the same fault
      if v.Err? {
        return Fail(v.error);
      }
      volume := Some(v.value);
      frequencyCentroid := Some(fc.value);
      WholeFrameFits(|samples|, FrameLength);
      assert |fc.value| == if FrameCount(|samples|, FrameLength) < 0 then 0 else FrameCount(|samples|, FrameLength);
      // second wave: the bandwidth needs the centroid stored above
      var eb := EffectiveBandwidth.Calculate(samples, FrameLength, frequencyCentroid, spectrumOf);
      if eb.Err? {
        return Fail(eb.error);
      }
      effectiveBandwidth := Some(eb.value);
      outcome := Pass;
    }

    /** The guard before the volume series is drawn. */
    function DrawVolumePlot(): (o: Outcome)
      reads this
      ensures o == Pass <==> volume.Some? && |volume.value| > 0
    {
      PlotGuard(volume)
    }

    /** The guard before the centroid series is drawn. */
    function DrawFrequencyCentroidPlot(): (o: Outcome)
      reads this
      ensures o == Pass <==> frequencyCentroid.Some? && |frequencyCentroid.value| > 0
    {
      PlotGuard(frequencyCentroid)
    }

    /** The guard before the bandwidth series is drawn. */
    function DrawEffectiveBandwidthPlot(): (o: Outcome)
      reads this
      ensures o == Pass <==> effectiveBandwidth.Some? && |effectiveBandwidth.value| > 0
    {
      PlotGuard(effectiveBandwidth)
    }
  }
}
