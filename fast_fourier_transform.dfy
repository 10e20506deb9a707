/** The per-frame magnitude spectrum with integer-Hz bins.

    A frame of samples is copied into a zero-padded working buffer and transformed; each
    transform position k is mapped to the integer-Hz bin floor(sampleRate·k / n), where n is
    the number of samples in the window. Positions that fall on the same bin keep the largest
    value ("peak hold"). The bins are laid out densely from 0 to the largest bin, a bin that no
    position fell on is interpolated linearly between its nearest populated neighbours, and
    bin 0 (the DC offset) is forced to zero.

    The Fourier transform, the magnitude square root and the decibel logarithm are floating-point
    library calls; the model takes them as the function values of a `Numerics`.
 */
module FastFourierTransform {
  import opened Outcomes
  import opened Sums

  /** The numerical library calls the spectrum is built from. */
  datatype Numerics = Numerics(
    forwardReal: (seq<real>, nat) -> seq<real>,  // real-input forward transform of the first n samples, no scaling
    magnitude: (real, real) -> real,             // sqrt(re² + im²)
    decibels: real -> real)                      // 20·log10(x)

  /** The transform works in place: it returns interleaved (re, im) pairs in a buffer of the same length. */
  ghost predicate InPlace(num: Numerics)
  {
    forall buffer: seq<real>, n: nat :: |num.forwardReal(buffer, n)| == |buffer|
  }

  /** The frame length used when the requested one is negative or longer than the buffer. */
  const DefaultFrameLength: nat := 256

  /** The copied window `samples[start .. start + length]` and the length of the working buffer. */
  datatype Window = Window(start: nat, length: nat, work: nat)

  /** The working buffer holds whole (re, im) pairs and has room for the frame. */
  function WorkLength(frameLength: nat): (w: nat)
    ensures w % 2 == 0
    ensures frameLength < w <= frameLength + 2
  {
    if frameLength % 2 == 0 then frameLength + 2 else frameLength + 1
  }

  /** The window of frame `startFrame`: a frame length that is negative or longer than the
      buffer becomes the default, a start outside the buffer becomes 0, and a window that runs
      past the end of the buffer is cut at the end. The working buffer is sized before the cut. */
  function WindowOf(sampleCount: nat, startFrame: int, frameLength: int): (w: Window)
    ensures w.start + w.length <= sampleCount
    ensures w.length <= w.work && w.work % 2 == 0
    ensures frameLength < 0 || frameLength > sampleCount ==>
              w.work == WorkLength(DefaultFrameLength) && w.length <= DefaultFrameLength
    ensures 0 <= frameLength <= sampleCount ==> w.work == WorkLength(frameLength) && w.length <= frameLength
    ensures 0 <= frameLength && 0 <= startFrame * frameLength && (startFrame + 1) * frameLength <= sampleCount ==>
              w.start == startFrame * frameLength && w.length == frameLength
    ensures var fl := if frameLength < 0 || frameLength > sampleCount then DefaultFrameLength else frameLength;
            (startFrame * fl < 0 || startFrame * fl > sampleCount ==> w.start == 0) &&
            (0 <= startFrame * fl <= sampleCount ==> w.start == startFrame * fl) &&
            (w.length == fl || w.start + w.length == sampleCount)
  {
    var fl := if frameLength < 0 || frameLength > sampleCount then DefaultFrameLength else frameLength;
    var start := startFrame * fl;
    var start := if start < 0 || start > sampleCount then 0 else start;
    var length := if start + fl > sampleCount then sampleCount - start else fl;
    Window(start, length, WorkLength(fl))
  }

  /** The working buffer: the window's samples followed by zeros. */
  function Padded(samples: seq<real>, w: Window): seq<real>
    requires w.start + w.length <= |samples| && w.length <= w.work
  {
    samples[w.start..w.start + w.length] + seq(w.work - w.length, _ => 0.0)
  }

  /** The integer-Hz bin of transform position k for a window of n samples. */
  function Bin(sampleRate: nat, n: nat, k: nat): nat
    requires n > 0
  {
    sampleRate * k / n
  }

  /** The value kept for transform position k: the magnitude of the k-th (re, im) pair, in dB on request. */
  function Level(num: Numerics, t: seq<real>, k: nat, scaleToDb: bool): real
    requires 2 * k + 1 < |t|
  {
    var magnitude := num.magnitude(t[2 * k], t[2 * k + 1]);
    if scaleToDb then num.decibels(magnitude) else magnitude
  }

  /** The (bin, value) pair of every transform position of the transformed buffer `t`. */
  ghost function Entries(num: Numerics, sampleRate: nat, t: seq<real>, n: nat, scaleToDb: bool): (e: seq<(nat, real)>)
    requires n > 0 && |t| % 2 == 0
    ensures |e| == |t| / 2
  {
    seq(|t| / 2, k requires 0 <= k < |t| / 2 => (Bin(sampleRate, n, k), Level(num, t, k, scaleToDb)))
  }

  /** One peak-hold step: a new bin is inserted, a larger value replaces a smaller one. */
  function Hold(bins: map<nat, real>, x: nat, y: real): map<nat, real>
  {
    if x in bins && bins[x] < y then bins[x := y]
    else if x !in bins then bins[x := y]
    else bins
  }

  /** The bin dictionary after all `entries` have been held, first to last. */
  function PeakHold(entries: seq<(nat, real)>): map<nat, real>
  {
    if entries == [] then map[]
    else Hold(PeakHold(entries[..|entries| - 1]), entries[|entries| - 1].0, entries[|entries| - 1].1)
  }

  /** The nearest populated bin at or below j, or -1 when there is none. */
  function PrevKey(bins: map<nat, real>, j: int): (p: int)
    requires j >= -1
    ensures -1 <= p <= j
    ensures p >= 0 ==> p in bins
    ensures forall q :: p < q <= j ==> q !in bins
    decreases j + 1
  {
    if j < 0 then -1 else if j in bins then j else PrevKey(bins, j - 1)
  }

  /** The nearest populated bin at or above j, or `len` when there is none below `len`. */
  function NextKey(bins: map<nat, real>, j: int, len: int): (q: int)
    requires j <= len
    ensures j <= q <= len
    ensures q < len ==> q in bins
    ensures forall r :: j <= r < q ==> r !in bins
    decreases len - j
  {
    if j == len || j in bins then j else NextKey(bins, j + 1, len)
  }

  /** PrevKey is the only value with its three properties: the nearest populated bin at or below j. */
  lemma PrevKeyIsNearest(bins: map<nat, real>, j: int, p: int)
    requires -1 <= p <= j
    requires p >= 0 ==> p in bins
    requires forall q :: p < q <= j ==> q !in bins
    ensures PrevKey(bins, j) == p
  {
  }

  /** NextKey is the only value with its three properties: the nearest populated bin at or above j. */
  lemma NextKeyIsNearest(bins: map<nat, real>, j: int, len: int, q: int)
    requires j <= q <= len
    requires q < len ==> q in bins
    requires forall r :: j <= r < q ==> r !in bins
    ensures NextKey(bins, j, len) == q
  {
  }

  /** The value at i on the straight line through (prev, prevLevel) and (next, nextLevel). */
  function Lerp(prevLevel: real, nextLevel: real, prev: int, next: int, i: int): real
    requires prev < next
  {
    var step := nextLevel - prevLevel;
    var oneDiff := step / (next - prev) as real;
    prevLevel + oneDiff * (i - prev) as real
  }

  /** The value a missing bin i receives: linear interpolation between its nearest populated
      neighbours, or nothing when one side has no populated neighbour. */
  function Interpolate(bins: map<nat, real>, len: nat, i: int): Option<real>
    requires 0 <= i < len
  {
    var prev := PrevKey(bins, i - 1);
    var next := NextKey(bins, i + 1, len);
    if prev == -1 || next == len then None
    else
      Some(Lerp(bins[prev], bins[next], prev, next, i))
  }

  /** The dense spectrum of length `len` built from a bin dictionary. */
  ghost function Spectrum(bins: map<nat, real>, len: nat): seq<real>
  {
    seq(len, i requires 0 <= i < len =>
      if i == 0 then 0.0
      else if i in bins then bins[i]
      else if Interpolate(bins, len, i).Some? then Interpolate(bins, len, i).value
      else 0.0)
  }

  /** The spectrum `SelectedFrameFFT` returns for frame `startFrame`. */
  ghost function FrameSpectrum(samples: seq<real>, sampleRate: nat, startFrame: int, frameLength: int,
                               scaleToDb: bool, num: Numerics): Result<seq<real>>
    requires InPlace(num)
  {
    var w := WindowOf(|samples|, startFrame, frameLength);
    if w.length == 0 then Err(EmptyWindow)
    else
      var t := Transformed(samples, startFrame, frameLength, num);
      var entries := Entries(num, sampleRate, t, w.length, scaleToDb);
      Ok(Spectrum(PeakHold(entries), Bin(sampleRate, w.length, |t| / 2 - 1) + 1))
  }

  /** The magnitude spectrum of one frame. */
  method SelectedFrameFFT(samples: seq<real>, sampleRate: nat, startFrame: int, frameLength: int,
                          scaleToDb: bool, num: Numerics) returns (r: Result<seq<real>>)
    requires InPlace(num)
    ensures r == FrameSpectrum(samples, sampleRate, startFrame, frameLength, scaleToDb, num)
    ensures r.Ok? ==> |r.value| > 0 && r.value[0] == 0.0
  {
    var work, length := TransformedWindow(samples, startFrame, frameLength, num);
    ghost var t := work[..];
    if length == 0 {
      // every position's bin would be a division by the empty window's length
      return Err(EmptyWindow);
    }
    ghost var entries := Entries(num, sampleRate, t, length, scaleToDb);
    var bins := HoldPeaks(work, sampleRate, length, scaleToDb, num);
    ghost var lastBin := Bin(sampleRate, length, |t| / 2 - 1);
    assert lastBin in bins && forall k :: k in bins ==> 0 <= k <= lastBin by {
      PeakHoldIsMax(entries);
      LastBinIsLargest(entries, sampleRate, length, t, num, scaleToDb);
      assert entries[|entries| - 1].0 in bins;
    }
    var maxKey := LargestBin(bins);
    assert maxKey == lastBin;
    var spectrum := Assemble(bins, maxKey);
    FrameSpectrumOf(samples, sampleRate, startFrame, frameLength, scaleToDb, num, length, t, bins, spectrum);
    r := Ok(spectrum);
  }

  /** The dictionary, whose largest key is maxKey, laid out densely up to maxKey, gap-filled when
      some bin is missing, and with bin 0 cleared. */
  method Assemble(bins: map<nat, real>, maxKey: nat) returns (final: seq<real>)
    requires maxKey in bins && forall k :: k in bins ==> k <= maxKey
    ensures final == Spectrum(bins, maxKey + 1)
    ensures |final| > 0 && final[0] == 0.0
  {
    var spectrum := Layout(bins, maxKey + 1);
    if |bins.Keys| != spectrum.Length {
      FillFFT(spectrum, bins);
    } else {
      NoGaps(bins, spectrum.Length);
    }
    assert forall j :: 0 <= j < spectrum.Length ==>
      spectrum[j] == Filled(bins, spectrum.Length, j, if j in bins then bins[j] else 0.0);
    spectrum[0] := 0.0;
    AssembledSpectrum(bins, spectrum.Length, spectrum[..]);
    final := spectrum[..];
  }

  /** `FrameSpectrum` unfolded for a non-empty window of n samples, given the transformed
      buffer, the dictionary and the spectrum built from them. */
  lemma FrameSpectrumOf(samples: seq<real>, sampleRate: nat, startFrame: int, frameLength: int,
                        scaleToDb: bool, num: Numerics, n: nat, t: seq<real>, bins: map<nat, real>,
                        final: seq<real>)
    requires InPlace(num)
    requires n == WindowOf(|samples|, startFrame, frameLength).length && n > 0
    requires t == Transformed(samples, startFrame, frameLength, num)
    requires |t| >= 2 && |t| % 2 == 0
    requires bins == PeakHold(Entries(num, sampleRate, t, n, scaleToDb))
    requires final == Spectrum(bins, Bin(sampleRate, n, |t| / 2 - 1) + 1)
    ensures FrameSpectrum(samples, sampleRate, startFrame, frameLength, scaleToDb, num) == Ok(final)
  {
  }

  /** The laid-out and gap-filled array with bin 0 cleared is the dense spectrum. */
  lemma AssembledSpectrum(bins: map<nat, real>, len: nat, final: seq<real>)
    requires |final| == len > 0 && final[0] == 0.0
    requires forall j :: 0 < j < len ==> final[j] == Filled(bins, len, j, if j in bins then bins[j] else 0.0)
    ensures final == Spectrum(bins, len)
  {
  }

  /** The frame-length default, the start and end corrections, the copy of the window into the
      zero-padded working buffer, and the in-place transform of that buffer. */
  method TransformedWindow(samples: seq<real>, startFrame: int, frameLength: int, num: Numerics)
    returns (work: array<real>, length: nat)
    requires InPlace(num)
    ensures fresh(work)
    ensures length == WindowOf(|samples|, startFrame, frameLength).length
    ensures work[..] == Transformed(samples, startFrame, frameLength, num)
  {
    var fl := frameLength;
    if fl < 0 || fl > |samples| {
      fl := DefaultFrameLength;
    }
    work := new real[if fl % 2 == 0 then fl + 2 else fl + 1](_ => 0.0);
    var startSample := startFrame * fl;
    if startSample < 0 || startSample > |samples| {
      startSample := 0;
    }
    length := fl;
    if startSample + fl > |samples| {
      length := |samples| - startSample;
    }
    ghost var w := WindowOf(|samples|, startFrame, frameLength);
    assert w == Window(startSample, length, work.Length);
    forall j | 0 <= j < length {
      work[j] := samples[startSample + j];
    }
    assert work[..] == Padded(samples, w);
    var t := num.forwardReal(work[..], length);
    forall j | 0 <= j < work.Length {
      work[j] := t[j];
    }
    assert work[..] == t;
  }

  /** The peak-hold pass over the transformed working buffer: each (re, im) pair is replaced by
      its magnitude and the dictionary keeps, per bin, the largest value brought to it. */
  method HoldPeaks(work: array<real>, sampleRate: nat, n: nat, scaleToDb: bool, num: Numerics)
    returns (bins: map<nat, real>)
    requires n > 0 && work.Length % 2 == 0
    modifies work
    ensures bins == PeakHold(Entries(num, sampleRate, old(work[..]), n, scaleToDb))
    ensures forall k :: 0 <= k < work.Length / 2 ==>
              work[2 * k] == num.magnitude(old(work[2 * k]), old(work[2 * k + 1])) &&
              work[2 * k + 1] == old(work[2 * k + 1])
  {
    ghost var t := work[..];
    ghost var entries := Entries(num, sampleRate, t, n, scaleToDb);
    bins := map[];
    // pair k occupies slots i = 2k and i + 1
    var k := 0;
    while 2 * k < work.Length
      invariant 0 <= 2 * k <= work.Length
      invariant bins == PeakHold(entries[..k])
      invariant forall p :: 0 <= p < k ==>
                  work[2 * p] == num.magnitude(t[2 * p], t[2 * p + 1]) && work[2 * p + 1] == t[2 * p + 1]
      invariant forall j :: 2 * k <= j < work.Length ==> work[j] == t[j]
    {
      var i := 2 * k;
      var x := Bin(sampleRate, n, k);
      work[i] := num.magnitude(work[i], work[i + 1]);
      var y := if scaleToDb then num.decibels(work[i]) else work[i];
      assert entries[k] == (x, y);
      PeakHoldStep(entries, k);
      if x in bins && bins[x] < y {
        bins := bins[x := y];
      } else if x !in bins {
        bins := bins[x := y];
      }
      k := k + 1;
    }
    assert entries[..k] == entries;
  }

  /** Holding one more entry extends the dictionary of the shorter prefix by one `Hold` step. */
  lemma PeakHoldStep(entries: seq<(nat, real)>, k: nat)
    requires k < |entries|
    ensures PeakHold(entries[..k + 1]) == Hold(PeakHold(entries[..k]), entries[k].0, entries[k].1)
  {
    assert entries[..k + 1][..k] == entries[..k];
  }

  /** The largest bin of a non-empty dictionary. */
  method LargestBin(bins: map<nat, real>) returns (maxKey: nat)
    requires bins != map[]
    ensures maxKey in bins
    ensures forall k :: k in bins ==> k <= maxKey
  {
    var pending := bins.Keys;
    assert pending != {};
    maxKey :| maxKey in pending;
    while pending != {}
      invariant pending <= bins.Keys && maxKey in bins
      invariant forall k :: k in bins && k !in pending ==> k <= maxKey
      decreases pending
    {
      var k :| k in pending;
      if k > maxKey {
        maxKey := k;
      }
      pending := pending - {k};
    }
  }

  /** The dictionary laid out as an array of length `len`; bins without an entry hold 0. */
  method Layout(bins: map<nat, real>, len: nat) returns (spectrum: array<real>)
    requires forall k :: k in bins ==> 0 <= k < len
    ensures fresh(spectrum) && spectrum.Length == len
    ensures forall j :: 0 <= j < len ==> spectrum[j] == if j in bins then bins[j] else 0.0
  {
    spectrum := new real[len](_ => 0.0);
    var pending := bins.Keys;
    while pending != {}
      invariant pending <= bins.Keys
      invariant forall j :: 0 <= j < len ==> spectrum[j] == if j in bins && j !in pending then bins[j] else 0.0
      decreases pending
    {
      var k :| k in pending;
      spectrum[k] := bins[k];
      pending := pending - {k};
    }
  }

  /** The value bin i holds after gap filling, when it held `current` before. */
  ghost function Filled(bins: map<nat, real>, len: nat, i: int, current: real): real
    requires 0 <= i < len
  {
    if i in bins then current
    else if Interpolate(bins, len, i).Some? then Interpolate(bins, len, i).value
    else current
  }

  /** Fills every bin that no transform position fell on by linear interpolation between its
      nearest populated neighbours; a bin without a populated neighbour on one side keeps its value. */
  method FillFFT(spectrum: array<real>, bins: map<nat, real>)
    modifies spectrum
    ensures forall i :: 0 <= i < spectrum.Length ==> spectrum[i] == Filled(bins, spectrum.Length, i, old(spectrum[i]))
  {
    for i := 0 to spectrum.Length
      invariant forall j :: 0 <= j < i ==> spectrum[j] == Filled(bins, spectrum.Length, j, old(spectrum[j]))
      invariant forall j :: i <= j < spectrum.Length ==> spectrum[j] == old(spectrum[j])
    {
      spectrum[i] := FillBin(bins, spectrum.Length, i, spectrum[i]);
    }
  }

  /** Gap filling of one bin that held `current`: linear interpolation between the nearest
      populated neighbours, when there is one on each side. */
  method FillBin(bins: map<nat, real>, len: nat, i: nat, current: real) returns (v: real)
    requires i < len
    ensures v == Filled(bins, len, i, current)
  {
    v := current;
    if i in bins {
      return;
    }
    var prev := PreviousBin(bins, i);
    if prev == -1 {
      return;
    }
    var next := NextBin(bins, i, len);
    if next == len {
      return;
    }
    v := Lerp(bins[prev], bins[next], prev, next, i);
  }

  /** The downward search from i - 1 for a populated bin; -1 when there is none. */
  method PreviousBin(bins: map<nat, real>, i: nat) returns (prev: int)
    ensures prev == PrevKey(bins, i - 1)
  {
    prev := i - 1;
    while prev !in bins && prev >= 0
      invariant -1 <= prev <= i - 1
      invariant forall q :: prev < q <= i - 1 ==> q !in bins
    {
      prev := prev - 1;
    }
    PrevKeyIsNearest(bins, i - 1, prev);
  }

  /** The upward search from i + 1 for a populated bin below `len`; `len` when there is none. */
  method NextBin(bins: map<nat, real>, i: nat, len: nat) returns (next: int)
    requires i < len
    ensures next == NextKey(bins, i + 1, len)
  {
    next := i + 1;
    while next !in bins && next < len
      invariant i + 1 <= next <= len
      invariant forall q :: i + 1 <= q < next ==> q !in bins
    {
      next := next + 1;
    }
    NextKeyIsNearest(bins, i + 1, len, next);
  }

  /** The spectrum of the whole buffer, in decibels. */
  method FullFFT(samples: seq<real>, sampleRate: nat, num: Numerics) returns (r: Result<seq<real>>)
    requires InPlace(num)
    ensures r == FrameSpectrum(samples, sampleRate, 0, |samples|, true, num)
    ensures WindowOf(|samples|, 0, |samples|) == Window(0, |samples|, WorkLength(|samples|))
    ensures r.Ok? <==> |samples| > 0
  {
    r := SelectedFrameFFT(samples, sampleRate, 0, |samples|, true, num);
  }

  // ---------------------------------------------------------------------------------------
  // Properties

  /** Integer division by a positive number is monotone. */
  lemma DivMonotone(a: nat, b: nat, n: nat)
    requires n > 0 && a <= b
    ensures a / n <= b / n
  {
    var qa, qb := a / n, b / n;
    assert a == n * qa + a % n;
    assert b == n * qb + b % n;
    if qa > qb {
      MulMonotone(n, qb + 1, qa);
    }
  }

  lemma MulMonotone(n: nat, x: nat, y: nat)
    requires x <= y
    ensures n * x <= n * y
  {
    assert n * y == n * x + n * (y - x);
  }

  /** Position 0 falls on bin 0, and bins never decrease along the transform positions. */
  lemma BinMonotone(sampleRate: nat, n: nat, k: nat, k': nat)
    requires n > 0 && k <= k'
    ensures Bin(sampleRate, n, 0) == 0
    ensures Bin(sampleRate, n, k) <= Bin(sampleRate, n, k')
  {
    MulMonotone(sampleRate, k, k');
    DivMonotone(sampleRate * k, sampleRate * k', n);
  }

  /** The dictionary holds exactly the bins of the entries, and under every bin the largest value
      any entry brought to it: a later smaller value never overwrites, an earlier one is replaced. */
  lemma {:induction false} PeakHoldIsMax(entries: seq<(nat, real)>)
    ensures PeakHold(entries).Keys == set j | 0 <= j < |entries| :: entries[j].0
    ensures forall j :: 0 <= j < |entries| ==> entries[j].0 in PeakHold(entries) && entries[j].1 <= PeakHold(entries)[entries[j].0]
    ensures forall x :: x in PeakHold(entries) ==>
              exists j :: 0 <= j < |entries| && entries[j].0 == x && entries[j].1 == PeakHold(entries)[x]
  {
    if entries != [] {
      var init := entries[..|entries| - 1];
      var e := entries[|entries| - 1];
      PeakHoldIsMax(init);
      var before, after := PeakHold(init), PeakHold(entries);
      assert after == Hold(before, e.0, e.1);
      assert forall j :: 0 <= j < |init| ==> init[j] == entries[j];
      forall x | x in after
        ensures exists j :: 0 <= j < |entries| && entries[j].0 == x && entries[j].1 == after[x]
      {
        if x == e.0 && (x !in before || before[x] < e.1) {
          assert entries[|entries| - 1].0 == x;
        } else {
          var j :| 0 <= j < |init| && init[j].0 == x && init[j].1 == before[x];
          assert entries[j].0 == x;
        }
      }
    }
  }

  /** The last transform position falls on the largest bin. */
  lemma LastBinIsLargest(entries: seq<(nat, real)>, sampleRate: nat, n: nat, t: seq<real>, num: Numerics, scaleToDb: bool)
    requires n > 0 && |t| % 2 == 0 && |t| >= 2
    requires entries == Entries(num, sampleRate, t, n, scaleToDb)
    ensures forall j :: 0 <= j < |entries| ==> 0 <= entries[j].0 <= Bin(sampleRate, n, |t| / 2 - 1)
    ensures entries[|entries| - 1].0 == Bin(sampleRate, n, |t| / 2 - 1)
  {
    forall j | 0 <= j < |entries|
      ensures 0 <= entries[j].0 <= Bin(sampleRate, n, |t| / 2 - 1)
    {
      BinMonotone(sampleRate, n, j, |t| / 2 - 1);
    }
  }

  /** A dictionary with as many bins as the layout has slots populates every slot. */
  lemma NoGaps(bins: map<nat, real>, len: nat)
    requires forall k :: k in bins ==> 0 <= k < len
    requires |bins.Keys| == len
    ensures forall j :: 0 <= j < len ==> j in bins
  {
    forall j | 0 <= j < len
      ensures j in bins
    {
      if j !in bins {
        MissingBinShrinksKeys(bins.Keys, len, j);
      }
    }
  }

  /** A set of indices below `len` has at most `len` elements. */
  lemma {:induction false} KeysAtMost(keys: set<nat>, len: nat)
    requires forall k :: k in keys ==> 0 <= k < len
    ensures |keys| <= len
  {
    if len > 0 {
      var rest := keys - {len - 1};
      KeysAtMost(rest, len - 1);
      if len - 1 in keys {
        assert keys == rest + {len - 1};
      } else {
        assert rest == keys;
      }
    } else {
      assert forall k :: k !in keys;
      assert keys == {};
    }
  }

  /** A set of indices below `len` that misses one of them has fewer than `len` elements. */
  lemma {:induction false} MissingBinShrinksKeys(keys: set<nat>, len: nat, i: int)
    requires forall k :: k in keys ==> 0 <= k < len
    requires 0 <= i < len && i !in keys
    ensures |keys| < len
  {
    var rest := keys - {len - 1};
    if len - 1 in keys {
      assert keys == rest + {len - 1};
    } else {
      assert rest == keys;
    }
    if i == len - 1 {
      KeysAtMost(rest, len - 1);
    } else {
      MissingBinShrinksKeys(rest, len - 1, i);
    }
  }

  /** A bin strictly between two populated bins p < q with no populated bin in between gets the
      value on the straight line through (p, bins[p]) and (q, bins[q]). */
  lemma GapIsInterpolated(bins: map<nat, real>, len: nat, i: nat, p: nat, q: nat)
    requires 0 <= p < i < q < len
    requires p in bins && q in bins
    requires forall k :: p < k < q ==> k !in bins
    ensures Spectrum(bins, len)[i] == Lerp(bins[p], bins[q], p, q, i)
  {
    PrevKeyIsNearest(bins, i - 1, p);
    NextKeyIsNearest(bins, i + 1, len, q);
  }

  /** Bin 6, missing between bin 5 holding 10 and bin 7 holding 20, is filled with 15. */
  lemma GapExample()
    ensures Spectrum(map[5 := 10.0, 7 := 20.0], 8)[6] == 15.0
  {
    var bins := map[5 := 10.0, 7 := 20.0];
    GapIsInterpolated(bins, 8, 6, 5, 7);
    assert Lerp(10.0, 20.0, 5, 7, 6) == 15.0;
  }

  /** A missing bin with no populated bin below it, or none above it, is 0. */
  lemma OneSidedGapIsZero(bins: map<nat, real>, len: nat, i: nat)
    requires 0 < i < len && i !in bins
    requires (forall k :: k in bins ==> k > i) || (forall k :: k in bins && k < len ==> k < i)
    ensures Spectrum(bins, len)[i] == 0.0
  {
    if forall k :: k in bins ==> k > i {
      PrevKeyIsNearest(bins, i - 1, -1);
    } else {
      NextKeyIsNearest(bins, i + 1, len, len);
    }
  }

  /** The interpolated value of a gap lies between the values of its two neighbours. */
  lemma InterpolationIsBetween(lo: real, hi: real, p: int, q: int, i: int)
    requires p < i < q
    ensures var v := Lerp(lo, hi, p, q, i);
            (lo <= hi ==> lo <= v <= hi) && (hi <= lo ==> hi <= v <= lo)
  {
    var d := (q - p) as real;
    var e := (i - p) as real;
    var slope := (hi - lo) / d;
    assert slope * d == hi - lo;
    assert 0.0 < e < d;
    if lo <= hi {
      assert slope >= 0.0;
      assert slope * e <= slope * d;
    } else {
      assert slope <= 0.0;
      assert slope * e >= slope * d;
    }
  }

  /** The transformed working buffer of a frame. */
  ghost function Transformed(samples: seq<real>, startFrame: int, frameLength: int, num: Numerics): (t: seq<real>)
    requires InPlace(num)
    ensures |t| == WindowOf(|samples|, startFrame, frameLength).work
  {
    var w := WindowOf(|samples|, startFrame, frameLength);
    num.forwardReal(Padded(samples, w), w.length)
  }

  /** The spectrum ends at the bin of the last transform position, and every other bin that a
      transform position k falls on holds at least that position's level (peak hold). */
  lemma FrameSpectrumPeaks(samples: seq<real>, sampleRate: nat, startFrame: int, frameLength: int,
                           scaleToDb: bool, num: Numerics, k: nat)
    returns (n: nat, t: seq<real>, r: seq<real>)
    requires InPlace(num)
    requires FrameSpectrum(samples, sampleRate, startFrame, frameLength, scaleToDb, num).Ok?
    requires 2 * k + 1 < WindowOf(|samples|, startFrame, frameLength).work
    ensures n == WindowOf(|samples|, startFrame, frameLength).length && n > 0
    ensures t == Transformed(samples, startFrame, frameLength, num) && 2 * k + 1 < |t|
    ensures r == FrameSpectrum(samples, sampleRate, startFrame, frameLength, scaleToDb, num).value
    ensures |r| == Bin(sampleRate, n, |t| / 2 - 1) + 1 && Bin(sampleRate, n, k) < |r|
    ensures Bin(sampleRate, n, k) > 0 ==> Level(num, t, k, scaleToDb) <= r[Bin(sampleRate, n, k)]
  {
    n := WindowOf(|samples|, startFrame, frameLength).length;
    t := Transformed(samples, startFrame, frameLength, num);
    var entries := Entries(num, sampleRate, t, n, scaleToDb);
    var bins := PeakHold(entries);
    var len := Bin(sampleRate, n, |t| / 2 - 1) + 1;
    r := Spectrum(bins, len);
    assert FrameSpectrum(samples, sampleRate, startFrame, frameLength, scaleToDb, num) == Ok(r);
    var b := Bin(sampleRate, n, k);
    assert entries[k] == (b, Level(num, t, k, scaleToDb));
    assert b < len by {
      BinMonotone(sampleRate, n, k, |t| / 2 - 1);
    }
    if b > 0 {
      SpectrumHoldsPeaks(entries, len, k);
    }
  }

  /** A bin (other than 0) that an entry falls on holds at least that entry's value. */
  lemma SpectrumHoldsPeaks(entries: seq<(nat, real)>, len: nat, j: nat)
    requires j < |entries| && 0 < entries[j].0 < len
    ensures entries[j].1 <= Spectrum(PeakHold(entries), len)[entries[j].0]
  {
    PeakHoldIsMax(entries);
  }

  /** For a positive frame length, every frame that lies wholly inside the buffer is copied
      whole, so its spectrum exists. */
  lemma InRangeFrame(samples: seq<real>, sampleRate: nat, i: nat, frameLength: int, scaleToDb: bool, num: Numerics)
    requires InPlace(num)
    requires 0 < frameLength && i < FrameCount(|samples|, frameLength)
    ensures WindowOf(|samples|, i, frameLength) == Window(i * frameLength, frameLength, WorkLength(frameLength))
    ensures FrameSpectrum(samples, sampleRate, i, frameLength, scaleToDb, num).Ok?
  {
    var c := FrameCount(|samples|, frameLength);
    MulMonotone(frameLength, i + 1, c);
    MulMonotone(frameLength, 0, i);
    assert frameLength * c == c * frameLength <= |samples|;
    assert (i + 1) * frameLength == frameLength * (i + 1) <= |samples|;
    assert 0 <= i * frameLength;
  }
}
