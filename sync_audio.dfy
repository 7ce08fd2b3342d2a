/**
 * sync_audio.py: the lag search of cross_correlate_offset over a given cross-correlation,
 * and sync_audio's choice between loading a WAV file directly and extracting one first,
 * with its sample-rate check.
 *
 * Normalising the signals and the FFT convolution are floating-point numerics: the
 * correlation sequence fftconvolve returns is an input. ffmpeg and the WAV reader are
 * foreign calls whose outcomes are inputs too.
 */
module SyncAudio {
  import opened Wrappers
  import opened Arith
  import opened Text
  import Calibrate

  // ----- cross_correlate_offset ----------------------------------------------------------

  /** max_samples = min(60 * sample_rate, len(audio_left), len(audio_right)). */
  function WindowLength(sampleRate: nat, lenLeft: nat, lenRight: nat): (n: nat)
    ensures n <= 60 * sampleRate && n <= lenLeft && n <= lenRight
    ensures n == 60 * sampleRate || n == lenLeft || n == lenRight
  {
    Min(Min(60 * sampleRate, lenLeft), lenRight)
  }

  /** Length of fftconvolve(a, b[::-1], mode="full") for signals of lengths la and lb. */
  function FullLength(la: nat, lb: nat): nat
  {
    if la == 0 || lb == 0 then 0 else la + lb - 1
  }

  /** max_offset_samples = int(max_offset_seconds * sample_rate). */
  function MaxOffsetSamples(maxOffsetSeconds: real, sampleRate: nat): int
  {
    Trunc(maxOffsetSeconds * sampleRate as real)
  }

  /** The bounds of correlation[search_start:search_end] as Python's slice resolves them. */
  function SearchStart(center: int, corrLen: nat, maxLag: int): nat
  {
    SliceIndex(Max(0, center - maxLag), corrLen)
  }

  function SearchEnd(center: int, corrLen: nat, maxLag: int): nat
  {
    SliceIndex(Min(corrLen, center + maxLag + 1), corrLen)
  }

  /** np.argmax: the first index of the largest element. */
  function FirstArgMax(s: seq<real>): (k: nat)
    requires |s| > 0
    ensures k < |s|
    ensures forall i :: 0 <= i < |s| ==> s[i] <= s[k]
    ensures forall i :: 0 <= i < k ==> s[i] < s[k]
  {
    if |s| == 1 then 0
    else
      var k := FirstArgMax(s[..|s| - 1]);
      assert forall i :: 0 <= i < |s| - 1 ==> s[..|s| - 1][i] == s[i];
      if s[|s| - 1] > s[k] then |s| - 1 else k
  }

  /**
   * The lag in samples, peak_index - center, with center = len(a) - 1 and the peak searched
   * within max_offset_samples of it. An empty search range is the ValueError np.argmax
   * raises.
   */
  function LagSamples(la: nat, maxLag: int, corr: seq<real>): (r: Result<int>)
    ensures r.Err? <==> SearchStart(la - 1, |corr|, maxLag) >= SearchEnd(la - 1, |corr|, maxLag)
    ensures r.Err? ==> r.error == ValueError
  {
    var center := la - 1;
    var start := SearchStart(center, |corr|, maxLag);
    var end := SearchEnd(center, |corr|, maxLag);
    if start >= end then Err(ValueError)
    else Ok(start + FirstArgMax(corr[start..end]) - center)
  }

  /**
   * cross_correlate_offset: truncate both signals to the window, correlate (the input corr),
   * and convert the lag to seconds; positive means the right signal leads.
   */
  function CrossCorrelateOffset(lenLeft: nat, lenRight: nat, sampleRate: nat,
                                maxOffsetSeconds: real, corr: seq<real>): (r: Result<real>)
    requires var n := WindowLength(sampleRate, lenLeft, lenRight); |corr| == FullLength(n, n)
    ensures var n := WindowLength(sampleRate, lenLeft, lenRight);
      var lag := LagSamples(n, MaxOffsetSamples(maxOffsetSeconds, sampleRate), corr);
      (lag.Err? ==> r == Err(lag.error))
      && (lag.Ok? ==> sampleRate > 0 && r == Ok(lag.value as real / sampleRate as real))
  {
    var n := WindowLength(sampleRate, lenLeft, lenRight);
    var lag := LagSamples(n, MaxOffsetSamples(maxOffsetSeconds, sampleRate), corr);
    if lag.Err? then Err(lag.error)
    else
      assert |corr| > 0;
      Ok(lag.value as real / sampleRate as real)
  }

  /**
   * The lag never exceeds max_offset_samples in magnitude: a negative bound leaves the
   * search range empty.
   */
  lemma LagWithinMaxOffset(n: nat, maxLag: int, corr: seq<real>)
    requires |corr| == FullLength(n, n)
    ensures var r := LagSamples(n, maxLag, corr);
      r.Ok? ==> maxLag >= 0 && -maxLag <= r.value <= maxLag
  {
    if maxLag < 0 {
      NegativeBoundEmpty(n, maxLag, corr);
    } else if n > 0 {
      var center := n - 1;
      assert SearchStart(center, |corr|, maxLag) == Max(0, center - maxLag);
      assert SearchEnd(center, |corr|, maxLag) == Min(|corr|, center + maxLag + 1);
    }
  }

  lemma NegativeBoundEmpty(n: nat, maxLag: int, corr: seq<real>)
    requires |corr| == FullLength(n, n) && maxLag < 0
    ensures SearchStart(n - 1, |corr|, maxLag) >= SearchEnd(n - 1, |corr|, maxLag)
  {
    var center := n - 1;
    if n > 0 {
      var endRaw := Min(|corr|, center + maxLag + 1);
      if endRaw < 0 {
        assert SearchEnd(center, |corr|, maxLag) == Max(0, center + maxLag + 1 + |corr|);
      }
    }
  }

  /**
   * The peak is the first index of the in-range maximum: every correlation value in the
   * range is at most the peak's, and ties resolve to the most negative lag.
   */
  lemma LagIsFirstPeak(n: nat, maxLag: int, corr: seq<real>)
    requires |corr| == FullLength(n, n)
    ensures var r := LagSamples(n, maxLag, corr);
      r.Ok? ==>
        var peak := n - 1 + r.value;
        var start := SearchStart(n - 1, |corr|, maxLag);
        var end := SearchEnd(n - 1, |corr|, maxLag);
        start <= peak < end
        && (forall j :: start <= j < end ==> corr[j] <= corr[peak])
        && (forall j :: start <= j < peak ==> corr[j] < corr[peak])
  {
    var r := LagSamples(n, maxLag, corr);
    if r.Ok? {
      var start := SearchStart(n - 1, |corr|, maxLag);
      var end := SearchEnd(n - 1, |corr|, maxLag);
      var w := corr[start..end];
      var k := FirstArgMax(w);
      assert forall j :: start <= j < end ==> corr[j] == w[j - start];
    }
  }

  /**
   * A correlation whose maximum over the search range is strictly largest at center + k
   * yields k / sample_rate seconds.
   */
  lemma UniquePeakGivesOffset(lenLeft: nat, lenRight: nat, sampleRate: nat,
                              maxOffsetSeconds: real, corr: seq<real>, k: int)
    requires var n := WindowLength(sampleRate, lenLeft, lenRight); |corr| == FullLength(n, n)
    requires var n := WindowLength(sampleRate, lenLeft, lenRight);
      var m := MaxOffsetSamples(maxOffsetSeconds, sampleRate);
      n > 0 && 0 <= m && -m <= k <= m && 0 <= n - 1 + k < |corr|
      && forall j :: (SearchStart(n - 1, |corr|, m) <= j < SearchEnd(n - 1, |corr|, m)
                      && j != n - 1 + k) ==> corr[j] < corr[n - 1 + k]
    ensures CrossCorrelateOffset(lenLeft, lenRight, sampleRate, maxOffsetSeconds, corr)
            == Ok(k as real / sampleRate as real)
  {
    var n := WindowLength(sampleRate, lenLeft, lenRight);
    var m := MaxOffsetSamples(maxOffsetSeconds, sampleRate);
    var start := SearchStart(n - 1, |corr|, m);
    var end := SearchEnd(n - 1, |corr|, m);
    assert start == Max(0, n - 1 - m) && end == Min(|corr|, n + m);
    UniquePeakIsLag(n, m, corr, k);
  }

  /** A peak strictly above every other value of the search range is the lag found. */
  lemma UniquePeakIsLag(n: nat, m: int, corr: seq<real>, k: int)
    requires |corr| == FullLength(n, n)
    requires SearchStart(n - 1, |corr|, m) <= n - 1 + k < SearchEnd(n - 1, |corr|, m)
    requires forall j :: (SearchStart(n - 1, |corr|, m) <= j < SearchEnd(n - 1, |corr|, m)
                          && j != n - 1 + k) ==> corr[j] < corr[n - 1 + k]
    ensures LagSamples(n, m, corr) == Ok(k)
  {
    LagIsFirstPeak(n, m, corr);
    var r := LagSamples(n, m, corr);
    assert r.Ok?;
    var peak := n - 1 + r.value;
    assert corr[n - 1 + k] <= corr[peak];
  }

  // ----- sync_audio ----------------------------------------------------------------------

  /** Where the WAV data of one input comes from. */
  datatype WavSource = Direct(path: string) | Extracted(video: string, wav: string)

  /**
   * A file whose lower-cased extension is ".wav" is read directly; anything else is first
   * extracted by ffmpeg to a WAV file in the temporary directory.
   */
  function WavSourceOf(path: string, tmpWav: string): (s: WavSource)
    ensures s.Direct? <==> Lower(Calibrate.Extension(path)) == ".wav"
    ensures s.Direct? ==> s.path == path
    ensures s.Extracted? ==> s.video == path && s.wav == tmpWav
  {
    if Lower(Calibrate.Extension(path)) == ".wav" then Direct(path) else Extracted(path, tmpWav)
  }

  /** The WAV file the loader reads for a source. */
  function WavPath(s: WavSource): string
  {
    match s
    case Direct(p) => p
    case Extracted(_, w) => w
  }

  /** Extract when needed: an ffmpeg failure is the RuntimeError extract_audio raises. */
  function Prepare(s: WavSource, ffmpegSucceeds: string -> bool): Outcome
  {
    match s
    case Direct(_) => Pass
    case Extracted(v, _) => if ffmpegSucceeds(v) then Pass else Fail(RuntimeError)
  }

  /** What load_audio returns: the sample rate and the mono samples. */
  datatype Audio = Audio(sampleRate: nat, samples: seq<real>)

  /**
   * sync_audio: prepare the left then the right WAV, load both, refuse differing sample
   * rates, then search the lag. load stands for wavfile.read with the conversion to mono
   * float, correlate for the normalisation and fftconvolve. The progress message divides
   * the signal lengths by the sample rate, so a zero rate is a ZeroDivisionError.
   */
  function Sync(leftPath: string, rightPath: string, tmpDir: string, maxOffset: real,
                ffmpegSucceeds: string -> bool, load: string -> Result<Audio>,
                correlate: nat -> seq<real>): (r: Result<real>)
    requires forall n: nat :: |correlate(n)| == FullLength(n, n)
    ensures var sl := WavSourceOf(leftPath, tmpDir + "/left.wav");
      Prepare(sl, ffmpegSucceeds).Fail? ==> r == Err(RuntimeError)
    ensures var sl := WavSourceOf(leftPath, tmpDir + "/left.wav");
      var sr := WavSourceOf(rightPath, tmpDir + "/right.wav");
      Prepare(sl, ffmpegSucceeds).Pass? && Prepare(sr, ffmpegSucceeds).Fail? ==>
        r == Err(RuntimeError)
    ensures var sl := WavSourceOf(leftPath, tmpDir + "/left.wav");
      var sr := WavSourceOf(rightPath, tmpDir + "/right.wav");
      Prepare(sl, ffmpegSucceeds).Pass? && Prepare(sr, ffmpegSucceeds).Pass?
      && load(WavPath(sl)).Err? ==>
        r == Err(load(WavPath(sl)).error)
    ensures var sl := WavSourceOf(leftPath, tmpDir + "/left.wav");
      var sr := WavSourceOf(rightPath, tmpDir + "/right.wav");
      Prepare(sl, ffmpegSucceeds).Pass? && Prepare(sr, ffmpegSucceeds).Pass?
      && load(WavPath(sl)).Ok? && load(WavPath(sr)).Err? ==>
        r == Err(load(WavPath(sr)).error)
    ensures var sl := WavSourceOf(leftPath, tmpDir + "/left.wav");
      var sr := WavSourceOf(rightPath, tmpDir + "/right.wav");
      r.Ok? ==>
        Prepare(sl, ffmpegSucceeds).Pass? && Prepare(sr, ffmpegSucceeds).Pass?
        && load(WavPath(sl)).Ok? && load(WavPath(sr)).Ok?
        && load(WavPath(sl)).value.sampleRate == load(WavPath(sr)).value.sampleRate > 0
    ensures var sl := WavSourceOf(leftPath, tmpDir + "/left.wav");
      var sr := WavSourceOf(rightPath, tmpDir + "/right.wav");
      Prepare(sl, ffmpegSucceeds).Pass? && Prepare(sr, ffmpegSucceeds).Pass?
      && load(WavPath(sl)).Ok? && load(WavPath(sr)).Ok? ==>
        var left := load(WavPath(sl)).value;
        var right := load(WavPath(sr)).value;
        (left.sampleRate != right.sampleRate ==> r == Err(RuntimeError))
        && (left.sampleRate == right.sampleRate == 0 ==> r == Err(ZeroDivisionError))
        && (left.sampleRate == right.sampleRate > 0 ==>
              var n := WindowLength(left.sampleRate, |left.samples|, |right.samples|);
              r == CrossCorrelateOffset(|left.samples|, |right.samples|, left.sampleRate,
                                        maxOffset, correlate(n)))
  {
    var sl := WavSourceOf(leftPath, tmpDir + "/left.wav");
    var sr := WavSourceOf(rightPath, tmpDir + "/right.wav");
    var pl := Prepare(sl, ffmpegSucceeds);
    if pl.Fail? then Err(pl.error)
    else
      var pr := Prepare(sr, ffmpegSucceeds);
      if pr.Fail? then Err(pr.error)
      else
        var left := load(WavPath(sl));
        if left.Err? then Err(left.error)
        else
          var right := load(WavPath(sr));
          if right.Err? then Err(right.error)
          else if left.value.sampleRate != right.value.sampleRate then Err(RuntimeError)
          else if left.value.sampleRate == 0 then Err(ZeroDivisionError)
          else
            var rate := left.value.sampleRate;
            var n := WindowLength(rate, |left.value.samples|, |right.value.samples|);
            CrossCorrelateOffset(|left.value.samples|, |right.value.samples|, rate, maxOffset,
                                 correlate(n))
  }
}
