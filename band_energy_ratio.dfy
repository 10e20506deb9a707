/** Band energy ratio: per frame, the band energy divided by the volume of the same frame.
    A hidden parameter: with hidden parameters switched off the series is empty. */
module BandEnergyRatio {
  import opened Outcomes
  import opened Sums

  /** The ratio series from the stored volume and band-energy series; one entry per band-energy
      frame, each of which must have a volume. */
  method Calculate(showHidden: bool, volume: Option<seq<real>>, bandEnergy: Option<seq<real>>)
    returns (r: Result<seq<real>>)
    requires showHidden && volume.Some? && bandEnergy.Some? ==>
               forall i :: 0 <= i < Min(|bandEnergy.value|, |volume.value|) ==> volume.value[i] != 0.0
    ensures !showHidden ==> r == Ok([])
    ensures showHidden ==>
              (r == Err(InvalidOperation(Prerequisite.VolumeAndBandEnergy)) <==> volume.None? || bandEnergy.None?)
    ensures showHidden && volume.Some? && bandEnergy.Some? ==>
              (r == Err(IndexOutOfRange) <==> |volume.value| < |bandEnergy.value|)
    ensures showHidden ==>
              (r.Ok? <==> (volume.Some? && bandEnergy.Some? && |bandEnergy.value| <= |volume.value|))
    ensures showHidden && r.Ok? ==> volume.Some? && bandEnergy.Some? && |r.value| == |bandEnergy.value|
    ensures showHidden && r.Ok? ==>
              forall i :: 0 <= i < |r.value| ==> r.value[i] * volume.value[i] == bandEnergy.value[i]
  {
    if !showHidden {
      return Ok([]);
    }
    if volume.None? || bandEnergy.None? {
      return Err(InvalidOperation(Prerequisite.VolumeAndBandEnergy));
    }
    var be, vol := bandEnergy.value, volume.value;
    var count := |be|;
    var ber := new real[count];
    for i := 0 to count
      invariant i <= |vol|
      invariant forall k :: 0 <= k < i ==> ber[k] * vol[k] == be[k]
    {
      if |vol| <= i {
        return Err(IndexOutOfRange);
      }
      ber[i] := be[i] / vol[i];
    }
    r := Ok(ber[..]);
  }
}
