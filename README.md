# SoundAnalyser2 core in Dafny

SoundAnalyser2 loads a mono 22050 Hz, 16-bit WAV file and splits its samples into frames of
`FrameLength` samples. For each frame it computes a magnitude spectrum with integer-Hz bins, and
from those spectra it computes per-frame features:

- volume
- frequency centroid
- effective bandwidth
- band energy
- band energy ratio
- spectral crest factor

This project models that core and proves properties of the model.

- `outcomes.dfy` (module `Outcomes`): the exceptions the analyser throws, as `Result`, `Outcome` and `Fault` values. A reference the source tests against null is an `Option`.
- `sums.dfy` (module `Sums`):
  - C#'s truncating frame count `samples.Length / FrameLength`;
  - the clamped band end `min(f2 + 1, len)`;
  - the sums that the calculators accumulate bin after bin (Σ s, Σ k·s, Σ s², Σ (k − c)²·s²) and the maximum;
  - general lemmas about these.
- `fast_fourier_transform.dfy` (module `FastFourierTransform`): building a frame's spectrum. The steps are:
  1. clamp the frame length and the start sample;
  2. size the zero-padded working buffer and copy the window into it;
  3. call the forward transform;
  4. map each transform position to an integer-Hz bin;
  5. keep the largest value per bin in a dictionary (peak hold);
  6. lay the dictionary out as a dense array;
  7. fill the gaps by linear interpolation;
  8. force bin 0 to zero.

  `SelectedFrameFFT`, `FillFFT` and their loops are methods over arrays and maps. Each step is proved against a function of its own: `WindowOf`, `PeakHold`, `Filled` and `Spectrum`. `SelectedFrameFFT` as a whole is proved against the ghost function `FrameSpectrum`, which defines the spectrum in one piece.
- `volume.dfy`, `frequency_centroid.dfy`, `effective_bandwidth.dfy`, `band_energy.dfy`, `band_energy_ratio.dfy` and `spectral_crest_factor.dfy`: one module per calculator.
  - Each `Calculate` is a method with the source's loops.
  - Five of them are proved against a per-frame function: `FrameVolume`, `Centroid`, `Bandwidth`, `BandMean` or `CrestFactor`.
  - The band energy ratio is stated element by element, as ratio · volume = band energy.
  - Lemmas state what these functions mean: bounds, non-negativity, and their values on spectra whose levels are 0 everywhere or everywhere but one bin.
- `soundfile.dfy` (module `SoundAnalyser`):
  - the class `Soundfile`, whose frame length and three stored series are updated in place by `RefreshCalculations` in two waves;
  - the format check performed on loading;
  - the "must be calculated before being drawn" guards.

The analyser's floating-point numbers are modelled as mathematical reals. The model treats these as given inputs:

- the Fourier transform, the magnitude square root and the decibel logarithm (the datatype `Numerics`);
- the per-frame spectrum that the later calculators fetch from the sound file (a function `spectrumOf`);
- the band bounds f1 and f2;
- the "show hidden parameters" flag.

## Model

| member | source | states |
|---|---|---|
| Sums.FrameCount | SoundAnalyser2/Parameters/Volume.cs:19 | The frame count is C#'s integer quotient `samples.Length / FrameLength`, which truncates toward zero. For a positive frame length it is the number of whole frames: c·fl ≤ n < (c+1)·fl. For a negative frame length it is ≤ 0 and bounded the mirrored way. |
| Sums.WholeFrameFits | SoundAnalyser2/Parameters/EffectiveBandwidth.cs:18 | At least one whole frame fits exactly when 0 < FrameLength ≤ samples.Length. This is what keeps the centroid series non-empty for the bandwidth. |
| Sums.BandEnd | SoundAnalyser2/Parameters/BandEnergy.cs:20 | The band loop stops at min(f2 + 1, spectrum length). The bound is at most both and equals one of them. |
| Sums.Max | SoundAnalyser2/Parameters/SpectralCrestFactor.cs:24 | The LINQ maximum of a non-empty sequence bounds every element and is attained by one. |
| Sums.WeightedSumBounds | SoundAnalyser2/Parameters/FrequencyCentroid.cs:22-26 | For a non-negative spectrum, Σ s ≥ 0 and 0 ≤ Σ k·s[k] ≤ (len − 1)·Σ s. |
| Sums.ToneSums | SoundAnalyser2/Parameters/EffectiveBandwidth.cs:24-28 | For a spectrum that is zero except at bin b, the accumulated sums reduce to bin b: Σ s = s[b], Σ k·s = b·s[b], Σ s² = s[b]², and the spread around b is 0. |
| Sums.MeanSquareBounds | SoundAnalyser2/Parameters/BandEnergy.cs:22-25 | When every square is at most a bound, the mean of the squares lies between 0 and that bound. |
| FastFourierTransform.WorkLength | SoundAnalyser2/Parameters/FastFourierTransform.cs:29 | The working buffer has frameLength + 2 elements for an even length and frameLength + 1 for an odd one. It is always even and has room for the frame. |
| FastFourierTransform.WindowOf | SoundAnalyser2/Parameters/FastFourierTransform.cs:25-38 | A frame length that is negative or longer than the buffer becomes 256. A start sample outside the buffer becomes 0. A window that overruns the end is cut there. The copied window always lies inside the samples and fits the working buffer, which is sized from the clamped length before the cut. The start is startFrame times the clamped frame length when that lies in [0, samples.Length], and 0 otherwise. The copy keeps the clamped length or ends exactly at the end of the buffer. A frame that lies wholly inside the buffer is copied whole from startFrame·frameLength. |
| FastFourierTransform.TransformedWindow | SoundAnalyser2/Parameters/FastFourierTransform.cs:25-40 | The method clamps the frame length and start, allocates the buffer, copies the window and transforms the buffer in place. It returns a fresh array equal to the transform of the padded window, and the copy length of `WindowOf`. |
| FastFourierTransform.HoldPeaks | SoundAnalyser2/Parameters/FastFourierTransform.cs:41-55 | The loop over (re, im) pairs builds the dictionary `PeakHold` of the (bin, level) entries, taken in order. It writes each pair's magnitude back into the pair's first slot and leaves the second slot as it was. |
| FastFourierTransform.PeakHoldIsMax | SoundAnalyser2/Parameters/FastFourierTransform.cs:47-54 | Peak hold keeps exactly the bins that some position fell on. Under each bin it stores the largest value brought to it, and that value comes from one of those positions. A smaller later value never overwrites. |
| FastFourierTransform.BinMonotone | SoundAnalyser2/Parameters/FastFourierTransform.cs:44 | Position 0 maps to bin 0, and bins never decrease along the transform positions. |
| FastFourierTransform.LastBinIsLargest | SoundAnalyser2/Parameters/FastFourierTransform.cs:42-56 | Every bin lies between 0 and the bin of the last position, so the dictionary's largest key is that bin. |
| FastFourierTransform.LargestBin | SoundAnalyser2/Parameters/FastFourierTransform.cs:56 | `FFTD.Keys.Max()` is a key of the dictionary and no key exceeds it. |
| FastFourierTransform.Layout | SoundAnalyser2/Parameters/FastFourierTransform.cs:56-57 | The returned array has length maxKey + 1. Every key's value sits at its own index, and every other slot holds 0. |
| FastFourierTransform.NoGaps | SoundAnalyser2/Parameters/FastFourierTransform.cs:59-62 | When the dictionary has as many keys as the array has slots, every slot is populated. Skipping the gap filling then changes nothing. |
| FastFourierTransform.PrevKey | SoundAnalyser2/Parameters/FastFourierTransform.cs:75-79 | The downward search result lies between −1 and j. A non-negative result is a populated bin, and no bin between it and j is populated. |
| FastFourierTransform.NextKey | SoundAnalyser2/Parameters/FastFourierTransform.cs:84-87 | The upward search result lies between j and len. A result below len is a populated bin, and no bin between j and it is populated. |
| FastFourierTransform.PrevKeyIsNearest | SoundAnalyser2/Parameters/FastFourierTransform.cs:75-83 | The downward search is the unique value with those three properties: the nearest populated bin at or below j, or −1. |
| FastFourierTransform.NextKeyIsNearest | SoundAnalyser2/Parameters/FastFourierTransform.cs:84-91 | The upward search is the unique value with those three properties: the nearest populated bin at or above j, or len. |
| FastFourierTransform.PreviousBin | SoundAnalyser2/Parameters/FastFourierTransform.cs:75-79 | The `while` loop walking `prev` down from i − 1 ends on the nearest populated bin below i, or on −1. |
| FastFourierTransform.NextBin | SoundAnalyser2/Parameters/FastFourierTransform.cs:84-87 | The `while` loop walking `next` up from i + 1 ends on the nearest populated bin above i, or on the array length. |
| FastFourierTransform.FillBin | SoundAnalyser2/Parameters/FastFourierTransform.cs:71-95 | A populated bin is left alone. A bin with no populated neighbour on one side keeps its value. Otherwise the bin gets D[prev] + (D[next] − D[prev]) / (next − prev) · (i − prev). |
| FastFourierTransform.FillFFT | SoundAnalyser2/Parameters/FastFourierTransform.cs:67-98 | Every bin of the array is replaced by its gap-filled value, computed from its old value. |
| FastFourierTransform.GapIsInterpolated | SoundAnalyser2/Parameters/FastFourierTransform.cs:75-95 | In the spectrum, a bin strictly between two populated bins p < q, with nothing populated in between, holds the value on the line through (p, D[p]) and (q, D[q]). |
| FastFourierTransform.GapExample | SoundAnalyser2/Parameters/FastFourierTransform.cs:92-95 | Bin 6, missing between bin 5 holding 10 and bin 7 holding 20, becomes 15. |
| FastFourierTransform.OneSidedGapIsZero | SoundAnalyser2/Parameters/FastFourierTransform.cs:80-91 | A missing bin with no populated bin below it, or none above it, stays 0. |
| FastFourierTransform.InterpolationIsBetween | SoundAnalyser2/Parameters/FastFourierTransform.cs:92-95 | An interpolated value lies between the values of its two neighbours. |
| FastFourierTransform.Assemble | SoundAnalyser2/Parameters/FastFourierTransform.cs:56-63 | Laying out the dictionary up to its largest key, gap-filling it when some bin is missing, and clearing bin 0 gives the dense spectrum `Spectrum(bins, maxKey + 1)`. The result is non-empty and starts with 0. |
| FastFourierTransform.AssembledSpectrum | SoundAnalyser2/Parameters/FastFourierTransform.cs:56-63 | The laid-out and gap-filled array with element 0 cleared is the dense spectrum `Spectrum(bins, maxKey + 1)`. |
| FastFourierTransform.SelectedFrameFFT | SoundAnalyser2/Parameters/FastFourierTransform.cs:19-65 | The method's result is the frame spectrum `FrameSpectrum`: the clamped window is transformed, peak-held into bins, laid out to the last bin and gap-filled. The spectrum is non-empty and bin 0 is 0. An empty window is an error. |
| FastFourierTransform.FrameSpectrumPeaks | SoundAnalyser2/Parameters/FastFourierTransform.cs:42-63 | The spectrum ends at the bin of the last transform position. Every bin other than 0 that a position falls on holds at least that position's level. |
| FastFourierTransform.InRangeFrame | SoundAnalyser2/Parameters/FastFourierTransform.cs:25-38 | For a positive frame length, frame i < samples.Length / FrameLength is copied whole from i·FrameLength, so its spectrum exists. |
| FastFourierTransform.FullFFT | SoundAnalyser2/Parameters/FastFourierTransform.cs:10-17 | The whole-buffer spectrum is the spectrum of frame 0 with the buffer's own length. That window starts at 0 and spans the buffer. It exists exactly when the buffer is non-empty. |
| Volume.Calculate | SoundAnalyser2/Parameters/Volume.cs:10-31 | The method fails with DivideByZero exactly for a frame length of 0. Otherwise it returns one entry per whole frame, and entry i is Σ s² over frame i's decibel spectrum divided by FrameLength. |
| Volume.SquareSum | SoundAnalyser2/Parameters/Volume.cs:22-26 | The `foreach` accumulation is the sum of squares of the frame's spectrum. |
| Volume.FrameVolumeNonNegative | SoundAnalyser2/Parameters/Volume.cs:25-27 | With a positive frame length no volume is negative. |
| Volume.SilentFrameVolume | SoundAnalyser2/Parameters/Volume.cs:22-27 | A spectrum whose levels are all 0 has volume 0. On the decibel spectra that is 0 dB, a magnitude of 1, not a silent frame. |
| FrequencyCentroid.Calculate | SoundAnalyser2/Parameters/FrequencyCentroid.cs:9-39 | The method fails with DivideByZero exactly for a frame length of 0. Otherwise it returns one entry per whole frame, in frame order. Entry i is Σ k·s[k] / Σ s[k] over frame i's decibel spectrum, or 0 when Σ s is 0. |
| FrequencyCentroid.FrameSums | SoundAnalyser2/Parameters/FrequencyCentroid.cs:21-26 | The inner loop accumulates Σ k·s[k] and Σ s[k]. |
| FrequencyCentroid.ToneCentroid | SoundAnalyser2/Parameters/FrequencyCentroid.cs:22-35 | A spectrum whose levels are 0 off bin b, and not 0 at b, has its centroid at b. On the decibel spectra a level of 0 is 0 dB, a magnitude of 1. |
| FrequencyCentroid.CentroidIsABinPosition | SoundAnalyser2/Parameters/FrequencyCentroid.cs:22-35 | For a non-negative spectrum the centroid lies between bin 0 and the last bin. |
| EffectiveBandwidth.Calculate | SoundAnalyser2/Parameters/EffectiveBandwidth.cs:8-34 | A missing or empty centroid fails before any work. A frame length of 0 gives DivideByZero. A negative count gives Overflow. A frame with a spectrum but no centroid entry gives IndexOutOfRange. Each fault occurs exactly in its case. Otherwise there are samples.Length / FrameLength entries. Entry i is Σ (k − c[i])²·s[k]² / Σ s[k]² over frame i's spectrum, where c[i] is centroid i. It is 0 when Σ s² is 0, and 0 for an empty spectrum. |
| EffectiveBandwidth.FrameSums | SoundAnalyser2/Parameters/EffectiveBandwidth.cs:23-28 | The inner loop accumulates the spread around the centroid and the sum of squares. |
| EffectiveBandwidth.BandwidthNonNegative | SoundAnalyser2/Parameters/EffectiveBandwidth.cs:29-30 | No bandwidth is negative. |
| EffectiveBandwidth.ToneBandwidth | SoundAnalyser2/Parameters/EffectiveBandwidth.cs:26-30 | A pure tone measured around its own bin has bandwidth 0. |
| BandEnergy.Calculate | SoundAnalyser2/Parameters/BandEnergy.cs:8-29 | A frame length of 0 gives DivideByZero and a negative count gives Overflow, each exactly in its case. Otherwise there are samples.Length / FrameLength entries. Entry i is the mean of s² over the bins [f1, min(f2 + 1, len)) of frame i. |
| BandEnergy.BandSums | SoundAnalyser2/Parameters/BandEnergy.cs:19-24 | The band loop visits exactly the clamped band. It sums the squares there and counts min(f2 + 1, len) − f1 bins. |
| BandEnergy.BandMeanBounds | SoundAnalyser2/Parameters/BandEnergy.cs:19-25 | A band energy is at least 0 and at most the largest square in the band. |
| BandEnergy.SilentBand | SoundAnalyser2/Parameters/BandEnergy.cs:22-25 | A silent band has energy 0. |
| BandEnergyRatio.Calculate | SoundAnalyser2/Parameters/BandEnergyRatio.cs:8-28 | With the flag off the result is empty and nothing is checked. With it on, the method fails with InvalidOperation exactly when a series is missing, and with IndexOutOfRange exactly when the volume series is shorter. It succeeds exactly when both series are present and the volume series is at least as long. It then returns one entry per band-energy frame with ratio[i]·vol[i] = be[i]. |
| SpectralCrestFactor.Calculate | SoundAnalyser2/Parameters/SpectralCrestFactor.cs:9-39 | With the flag off the result is empty. With it on: DivideByZero exactly for a frame length of 0, Overflow exactly for a negative count, and EmptySequence exactly when some frame's spectrum is empty. It succeeds exactly when none of these applies. It then returns samples.Length / FrameLength entries, entry i being the crest factor of frame i. |
| SpectralCrestFactor.FrameCrest | SoundAnalyser2/Parameters/SpectralCrestFactor.cs:24-35 | A frame's entry is the largest square of the whole frame over the band's sum of squares divided by the unclamped width f2 − f1 + 1. It stays 0 when that quotient is not finite. |
| SpectralCrestFactor.LargestSquare | SoundAnalyser2/Parameters/SpectralCrestFactor.cs:24 | The numerator is the largest square over all bins of the frame. |
| SpectralCrestFactor.BandSum | SoundAnalyser2/Parameters/SpectralCrestFactor.cs:25-29 | The band loop sums the squares over [f1, min(f2 + 1, len)). |
| SpectralCrestFactor.CrestNonNegative | SoundAnalyser2/Parameters/SpectralCrestFactor.cs:24-35 | No crest factor is negative. |
| SpectralCrestFactor.CrestAtLeastOne | SoundAnalyser2/Parameters/SpectralCrestFactor.cs:24-35 | For a band inside the spectrum, the crest factor is 0 exactly when the band is silent, and at least 1 otherwise. |
| SpectralCrestFactor.ToneCrest | SoundAnalyser2/Parameters/SpectralCrestFactor.cs:24-35 | A pure tone inside the band has a crest factor equal to the band width f2 − f1 + 1. |
| SoundAnalyser.PlotGuard | SoundAnalyser2/Soundfile.cs:87-90 | A series passes the guard exactly when it has been computed and is non-empty. Otherwise the guard fails with InvalidOperation. |
| SoundAnalyser.Soundfile.constructor | SoundAnalyser2/Soundfile.cs:36-40 | The new file holds the frame length, the sample rate and the decoded samples, with no series computed. |
| SoundAnalyser.Soundfile.Open | SoundAnalyser2/Soundfile.cs:29-42 | A header other than 22050 Hz, 16 bit, mono is refused with FileFormat. Loading succeeds exactly for an accepted header and 0 < frameLength ≤ the number of samples, where frameLength defaults to 256. The loaded file keeps the decoded samples and frame length, and all three series are computed. |
| SoundAnalyser.Soundfile.RefreshCalculations | SoundAnalyser2/Soundfile.cs:57-79 | FrameLength changes only when an argument is given. Wave 1 stores volume and centroid unless the frame length is 0, in which case nothing is stored. Wave 2 computes the bandwidth from the centroid just stored and fails when no whole frame fits. The refresh passes exactly when 0 < FrameLength ≤ samples.Length. All three series then satisfy their definitions, each with samples.Length / FrameLength entries. The samples are constant. |
| SoundAnalyser.Soundfile.DrawVolumePlot | SoundAnalyser2/Soundfile.cs:87-90 | Drawing the volume passes the guard exactly when the volume is computed and non-empty. |
| SoundAnalyser.Soundfile.DrawFrequencyCentroidPlot | SoundAnalyser2/Soundfile.cs:104-107 | Drawing the centroid passes the guard exactly when the centroid is computed and non-empty. |
| SoundAnalyser.Soundfile.DrawEffectiveBandwidthPlot | SoundAnalyser2/Soundfile.cs:122-125 | Drawing the bandwidth passes the guard exactly when the bandwidth is computed and non-empty. |

## Left out

- Floating point: `float` and `double` are modelled as mathematical reals. Rounding and the `(float)` casts are not modelled, and neither is overflow to infinity.
- The NaN and infinity checks are modelled as zero-denominator guards.
  - Centroid and bandwidth give 0 when their denominator is 0.
  - The crest factor gives 0 when the width f2 − f1 + 1 or the band mean is 0. In floating point these cases give NaN or an infinite mean, and the entry is then also 0.
- The MathNet `Fourier.ForwardReal` call, `Math.Sqrt` and `20·Math.Log10` are the function values of `Numerics`. The model assumes only that the transform returns a buffer of its input's length.
- `Numerics.decibels` is a total function to the reals. In the source, a zero magnitude gives 20·log10(0) = −∞, and interpolating between two such bins gives NaN. A silent frame therefore has a non-finite decibel spectrum there. Its volume is then +∞ or NaN, not 0, and its centroid quotient is non-finite, so the source stores 0 for it. The model does not capture this.
- FastFourierTransform.Bin: the bin of a position is floor(sampleRate·k / n), computed exactly. The source computes `(int)(1.0 * sampleRate / frameLength * k)` in double precision, and rounding could move a position onto a neighbouring bin.
- FastFourierTransform.WindowOf: `startFrame * frameLength` and the other int arithmetic are unbounded here, and 32-bit wrap-around is not modelled.
  - C# wraps `startFrame * frameLength` once it reaches 2³¹ in magnitude, however short the buffer.
  - For example, with 100 samples, startFrame = 2³⁰ + 1 and frameLength 4, C# starts at sample 4 while the model starts at 0.
  - The calculators never reach this case. They pass startFrame < samples.Length / FrameLength, so the product stays at most samples.Length (`FastFourierTransform.InRangeFrame`).
- FastFourierTransform.SelectedFrameFFT: an empty window returns `EmptyWindow`. In the source, an empty window divides by 0.0 in the bin computation and casts the non-finite result to int. That value is platform-dependent and is not guessed.
- `Parallel.For`, `Parallel.ForEach`, `Task.Run` and `Task.WaitAll` are modelled as sequential loops and calls. Every iteration writes its own index.
- SoundAnalyser.Soundfile.RefreshCalculations: the calculators' exceptions are returned as the refresh outcome. The aggregate-exception wrapping of `Task.WaitAll` is not modelled.
- Null arguments and `SoundfileValidator.ValidateBasics` are not modelled. They cannot occur with Dafny's non-null types, so the `ArgumentNullException` paths are absent.
- WAV decoding through NAudio is left out. `Open` receives the header's format fields and the decoded samples.
- The `filename` field and `DrawSignalTimePlot` are left out.
- ScottPlot drawing is left out. Only the "must be calculated" guards are kept, as `DrawVolumePlot`, `DrawFrequencyCentroidPlot` and `DrawEffectiveBandwidthPlot`, and the `plot is null` checks are left out.
- `Soundfile.GetFftPerFrame`, `BEFrequencyStart`, `BEFrequencyStop`, `GetBandEnergy` and `MainWindow.ShowHiddenParameters` are not part of this model. They become parameters: the spectrum of each frame (`spectrumOf`), the band bounds f1 and f2, the stored band-energy series, and the `showHidden` flag.
- The band bounds are natural numbers.
- The dictionary keys are natural numbers. A bin key is never negative for a non-negative sample rate.
- BandEnergy.Calculate requires a non-empty clamped band in every frame. The source divides 0 by 0 there and stores NaN.
- BandEnergyRatio.Calculate requires a non-zero volume wherever a ratio is taken. The source stores NaN or an infinity there. Its contract states each ratio as ratio·volume = band energy.
- SpectralFlatnessMeasure is left out: its geometric mean uses `Math.Pow` with fractional exponents, which reals in this model cannot express.
- The user interface (`MainWindow`) and the analyzer suppressions are left out.
- Volume and centroid use the default `scaleToDb = true`, so their spectra are decibel values, following the code.
