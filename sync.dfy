/** Clock selection and A/V drift correction of the playback engine
    (src/_gmovie.c:522-580, 638-657, 717-737, 864-941). Clock readings and the
    wall clock are inputs: their extrapolation from `av_gettime` is not part
    of this model. Reals stand for the C doubles. */
module AvSync {

  /** `av_sync_type`. */
  datatype SyncType = AudioMaster | VideoMaster | ExternalClock

  /** The three clocks `get_master_clock` can read. */
  datatype ClockSource = AudioClock | VideoClock | ExternalWallClock

  /** Readings of the three clocks at the moment of the call. */
  datatype Clocks = Clocks(audio: real, video: real, external: real)

  /** Which clock `get_master_clock` reads (src/_gmovie.c:717-737): the nominal
      master's own clock when its stream is open, otherwise the other stream's
      clock; the external clock only when it is the nominal master. */
  function MasterSource(t: SyncType, hasVideo: bool, hasAudio: bool): (c: ClockSource)
    ensures c == ExternalWallClock <==> t == ExternalClock
    ensures t == VideoMaster ==> (c == VideoClock <==> hasVideo)
    ensures t == AudioMaster ==> (c == AudioClock <==> hasAudio)
    ensures c == VideoClock && !hasVideo ==> t == AudioMaster && !hasAudio
    ensures c == AudioClock && !hasAudio ==> t == VideoMaster && !hasVideo
  {
    match t
    case VideoMaster => if hasVideo then VideoClock else AudioClock
    case AudioMaster => if hasAudio then AudioClock else VideoClock
    case ExternalClock => ExternalWallClock
  }

  function Read(c: ClockSource, clocks: Clocks): real
  {
    match c
    case AudioClock => clocks.audio
    case VideoClock => clocks.video
    case ExternalWallClock => clocks.external
  }

  /** `get_master_clock`: the value of the selected clock. */
  function MasterClock(t: SyncType, hasVideo: bool, hasAudio: bool, clocks: Clocks): real
  {
    Read(MasterSource(t, hasVideo, hasAudio), clocks)
  }

  /** With only one of the two streams open, an audio or video master reads
      that stream's clock, whichever was nominally the master. */
  lemma SingleStreamDrivesMaster(t: SyncType, hasVideo: bool, hasAudio: bool, clocks: Clocks)
    requires t != ExternalClock && hasVideo != hasAudio
    ensures MasterClock(t, hasVideo, hasAudio, clocks) == if hasVideo then clocks.video else clocks.audio
  {
  }

  // ---------------------------------------------------------------------
  // C arithmetic

  /** C's conversion of a double to int: truncation toward zero. */
  function TruncToInt(x: real): (r: int)
    ensures x >= 0.0 ==> r as real <= x < r as real + 1.0
    ensures x < 0.0 ==> r as real - 1.0 < x <= r as real
  {
    if x >= 0.0 then x.Floor else -((-x).Floor)
  }

  /** C's integer division: the quotient is truncated toward zero. */
  function CDiv(a: int, b: int): (q: int)
    requires b != 0
    ensures a >= 0 && b > 0 ==> q == a / b
  {
    if (a >= 0) == (b > 0) then (if a >= 0 then a / b else (-a) / (-b))
    else -(if a >= 0 then a / (-b) else (-a) / b)
  }

  /** Truncation toward zero: the remainder `a - CDiv(a, b) * b` has the sign
      of `a` and is smaller than `b` in magnitude. */
  lemma CDivRemainder(a: int, b: int)
    requires b != 0
    ensures a >= 0 ==> 0 <= a - CDiv(a, b) * b < (if b > 0 then b else -b)
    ensures a < 0 ==> -(if b > 0 then b else -b) < a - CDiv(a, b) * b <= 0
  {
  }

  function Abs(x: real): real
  {
    if x < 0.0 then -x else x
  }

  // ---------------------------------------------------------------------
  // synchronize_audio

  /** The header constants and per-stream values `synchronize_audio` reads:
      AUDIO_DIFF_AVG_NB, SAMPLE_CORRECTION_PERCENT_MAX, AV_NOSYNC_THRESHOLD,
      `audio_diff_avg_coef` and `audio_diff_threshold`. */
  datatype AudioParams = AudioParams(avgNb: int, correctionPercentMax: int, noSyncThreshold: real,
                                     avgCoef: real, diffThreshold: real)

  /** The averaging filter: `audio_diff_cum` and `audio_diff_avg_count`. */
  datatype AudioFilter = AudioFilter(diffCum: real, avgCount: int)

  /** What one call leaves: the filter and the returned buffer size. */
  datatype AudioSync = AudioSync(filter: AudioFilter, size: int)

  /** Correction runs only when audio is a slave: video is the master and a
      video stream is open, or the external clock is the master. */
  predicate SyncActive(t: SyncType, hasVideo: bool)
  {
    (t == VideoMaster && hasVideo) || t == ExternalClock
  }

  /** `min_size` (src/_gmovie.c:898): the size cut by the correction percentage,
      in whole sample frames of `n` bytes. */
  function MinSize(samplesSize: int, n: int, pct: int): int
    requires n != 0
  {
    CDiv(CDiv(samplesSize, n) * (100 - pct), 100) * n
  }

  /** `max_size` (src/_gmovie.c:899). */
  function MaxSize(samplesSize: int, n: int, pct: int): int
    requires n != 0
  {
    CDiv(CDiv(samplesSize, n) * (100 + pct), 100) * n
  }

  /** `wanted_size` after clamping (src/_gmovie.c:895-903): the size that would
      absorb the drift `diff` at `sampleRate`, kept within [min_size, max_size]. */
  function WantedSize(samplesSize: int, diff: real, sampleRate: int, n: int, pct: int): int
    requires n != 0
  {
    var wanted := samplesSize + TruncToInt(diff * sampleRate as real) * n;
    var lo, hi := MinSize(samplesSize, n, pct), MaxSize(samplesSize, n, pct);
    if wanted < lo then lo else if wanted > hi then hi else wanted
  }

  /** Whether a call with filter `f` reaches the size correction: audio is a
      slave, the drift is below the no-sync threshold (compared without `fabs`),
      enough measures have been taken and the averaged drift is large enough. */
  predicate Corrects(f: AudioFilter, diff: real, t: SyncType, hasVideo: bool, p: AudioParams)
  {
    var cum := diff + p.avgCoef * f.diffCum;
    && SyncActive(t, hasVideo)
    && diff < p.noSyncThreshold
    && f.avgCount >= p.avgNb
    && Abs(cum * (1.0 - p.avgCoef)) >= p.diffThreshold
  }

  /** `synchronize_audio` (src/_gmovie.c:864-941) without the buffer: the
      new filter state and the size it returns. The drift `diff` is the audio
      clock minus the master clock. The padding of a buffer that grows is
      `PadWithLastFrame` below. */
  function SynchronizeAudio(f: AudioFilter, samplesSize: int, diff: real, sampleRate: int, channels: int,
                            t: SyncType, hasVideo: bool, p: AudioParams): (r: AudioSync)
    requires channels != 0
    ensures !SyncActive(t, hasVideo) ==> r == AudioSync(f, samplesSize)
    ensures SyncActive(t, hasVideo) && diff >= p.noSyncThreshold ==> r == AudioSync(AudioFilter(0.0, 0), samplesSize)
    ensures r.size != samplesSize ==> Corrects(f, diff, t, hasVideo, p)
    ensures Corrects(f, diff, t, hasVideo, p) ==> r.size == WantedSize(samplesSize, diff, sampleRate, 2 * channels, p.correctionPercentMax)
    ensures SyncActive(t, hasVideo) && diff < p.noSyncThreshold ==>
      && r.filter.diffCum == diff + p.avgCoef * f.diffCum
      && r.filter.avgCount == (if f.avgCount < p.avgNb then f.avgCount + 1 else f.avgCount)
    ensures 0 <= f.avgCount <= p.avgNb ==> 0 <= r.filter.avgCount <= p.avgNb
  {
    var n := 2 * channels;
    if !SyncActive(t, hasVideo) then AudioSync(f, samplesSize)
    else if diff < p.noSyncThreshold then
      var cum := diff + p.avgCoef * f.diffCum;
      if f.avgCount < p.avgNb then AudioSync(AudioFilter(cum, f.avgCount + 1), samplesSize)
      else
        var avgDiff := cum * (1.0 - p.avgCoef);
        if Abs(avgDiff) >= p.diffThreshold then
          AudioSync(AudioFilter(cum, f.avgCount), WantedSize(samplesSize, diff, sampleRate, n, p.correctionPercentMax))
        else AudioSync(AudioFilter(cum, f.avgCount), samplesSize)
    else AudioSync(AudioFilter(0.0, 0), samplesSize)
  }

  lemma CDivBy100Monotone(a: int, b: int)
    requires a <= b
    ensures CDiv(a, 100) <= CDiv(b, 100)
  {
    if a < 0 && b >= 0 {
      assert CDiv(a, 100) <= 0 <= CDiv(b, 100);
    } else if a < 0 {
      assert (-b) / 100 <= (-a) / 100;
    } else {
      assert a / 100 <= b / 100;
    }
  }

  lemma MulMonotone(x: int, y: int, n: int)
    requires x <= y && n > 0
    ensures x * n <= y * n
  {
    assert y * n - x * n == (y - x) * n;
  }

  lemma MulNonNegative(x: int, y: int)
    requires x >= 0 && y >= 0
    ensures x * y >= 0
  {
  }

  /** With a size and a percentage in [0, 100], the bounds are ordered and
      not negative. */
  lemma {:induction false} SizeBoundsOrdered(samplesSize: int, n: int, pct: int)
    requires n > 0 && samplesSize >= 0 && 0 <= pct <= 100
    ensures 0 <= MinSize(samplesSize, n, pct) <= MaxSize(samplesSize, n, pct)
  {
    var nb := CDiv(samplesSize, n);
    assert nb >= 0;
    assert nb * (100 - pct) <= nb * (100 + pct) by {
      if nb > 0 { MulMonotone(100 - pct, 100 + pct, nb); }
    }
    CDivBy100Monotone(nb * (100 - pct), nb * (100 + pct));
    var lo := CDiv(nb * (100 - pct), 100);
    var hi := CDiv(nb * (100 + pct), 100);
    MulMonotone(lo, hi, n);
    MulNonNegative(nb, 100 - pct);
    MulNonNegative(lo, n);
  }

  /** For a correction percentage in [0, 100], a buffer size that is not
      negative and a positive channel count, a corrected size lies in
      [min_size, max_size] and is not negative. */
  lemma CorrectedSizeInBounds(f: AudioFilter, samplesSize: int, diff: real, sampleRate: int, channels: int,
                              t: SyncType, hasVideo: bool, p: AudioParams)
    requires channels > 0 && samplesSize >= 0 && 0 <= p.correctionPercentMax <= 100
    requires Corrects(f, diff, t, hasVideo, p)
    ensures var size := SynchronizeAudio(f, samplesSize, diff, sampleRate, channels, t, hasVideo, p).size;
            MinSize(samplesSize, 2 * channels, p.correctionPercentMax) <= size <= MaxSize(samplesSize, 2 * channels, p.correctionPercentMax)
            && 0 <= size
  {
    SizeBoundsOrdered(samplesSize, 2 * channels, p.correctionPercentMax);
  }

  /** A run of calls that all see the same buffer size and drifts below the
      no-sync threshold, with audio a slave; it returns the filter left behind
      and the sizes returned, in order. */
  function Feed(f: AudioFilter, samplesSize: int, diffs: seq<real>, sampleRate: int, channels: int,
                t: SyncType, hasVideo: bool, p: AudioParams): (AudioFilter, seq<int>)
    requires channels != 0
    decreases |diffs|
  {
    if diffs == [] then (f, [])
    else
      var r := SynchronizeAudio(f, samplesSize, diffs[0], sampleRate, channels, t, hasVideo, p);
      var rest := Feed(r.filter, samplesSize, diffs[1..], sampleRate, channels, t, hasVideo, p);
      (rest.0, [r.size] + rest.1)
  }

  /** Warm-up: from a freshly reset filter, the first AUDIO_DIFF_AVG_NB calls
      with drifts below the no-sync threshold only count measures; every one
      returns the size unchanged, and after k of them the count is k. */
  lemma {:induction false} WarmUpNeverCorrects(f: AudioFilter, samplesSize: int, diffs: seq<real>, sampleRate: int,
                                               channels: int, t: SyncType, hasVideo: bool, p: AudioParams)
    requires channels != 0 && SyncActive(t, hasVideo)
    requires 0 <= f.avgCount && f.avgCount + |diffs| <= p.avgNb
    requires forall i :: 0 <= i < |diffs| ==> diffs[i] < p.noSyncThreshold
    ensures Feed(f, samplesSize, diffs, sampleRate, channels, t, hasVideo, p).0.avgCount == f.avgCount + |diffs|
    ensures Feed(f, samplesSize, diffs, sampleRate, channels, t, hasVideo, p).1 == seq(|diffs|, _ => samplesSize)
    decreases |diffs|
  {
    if diffs != [] {
      var r := SynchronizeAudio(f, samplesSize, diffs[0], sampleRate, channels, t, hasVideo, p);
      assert r.filter.avgCount == f.avgCount + 1 && r.size == samplesSize;
      WarmUpNeverCorrects(r.filter, samplesSize, diffs[1..], sampleRate, channels, t, hasVideo, p);
    }
  }

  // ---------------------------------------------------------------------
  // The padding loop of synchronize_audio

  /** The number of bytes the padding loop (src/_gmovie.c:917-922) writes
      when it starts from the count `nb`: one frame of `n` bytes per turn
      while the count is positive. */
  function Span(nb: int, n: int): nat
    requires n > 0
    decreases nb
  {
    if nb <= 0 then 0 else n + Span(nb - n, n)
  }

  /** The frames the loop writes cover a positive count and overrun it by
      less than a frame; a count that is not positive writes nothing. */
  lemma {:induction false} SpanCovers(nb: int, n: int)
    requires n > 0
    ensures nb <= 0 ==> Span(nb, n) == 0
    ensures nb > 0 ==> nb <= Span(nb, n) < nb + n
    decreases nb
  {
    if nb > 0 {
      SpanCovers(nb - n, n);
    }
  }

  /** The count the padding loop starts from, as written at src/_gmovie.c:914. */
  function PadCountAsWritten(samplesSize: int, wantedSize: int): int
  {
    samplesSize - wantedSize
  }

  /** The count it evidently means: the number of bytes the buffer grows by. */
  function PadCount(samplesSize: int, wantedSize: int): int
  {
    wantedSize - samplesSize
  }

  /** As written, a buffer that grows gets no frame copied, so the bytes it
      grows by are returned as whatever the buffer held. With 8 bytes, 12
      wanted and 4-byte frames, no frame is copied and 4 bytes stay unset. */
  lemma PaddingAsWrittenCopiesNothing(samplesSize: int, wantedSize: int, n: int)
    requires n > 0 && samplesSize < wantedSize
    ensures Span(PadCountAsWritten(samplesSize, wantedSize), n) == 0
  {
    SpanCovers(PadCountAsWritten(samplesSize, wantedSize), n);
  }

  /** Counting the growth, the copied frames cover every byte the buffer grows
      by, and run past the wanted size by less than one frame. */
  lemma PaddingCoversGrowth(samplesSize: int, wantedSize: int, n: int)
    requires n > 0 && samplesSize < wantedSize
    ensures wantedSize <= samplesSize + Span(PadCount(samplesSize, wantedSize), n) < wantedSize + n
  {
    SpanCovers(PadCount(samplesSize, wantedSize), n);
  }

  /** A buffer can only grow when it holds at least one whole frame, since
      `max_size` is 0 otherwise; and a buffer with room for `max_size` and one
      more frame has room for the corrected padding. */
  lemma GrowthFits(f: AudioFilter, samplesSize: int, diff: real, sampleRate: int, channels: int,
                   t: SyncType, hasVideo: bool, p: AudioParams, capacity: int)
    requires channels > 0 && samplesSize >= 0 && 0 <= p.correctionPercentMax <= 100
    requires MaxSize(samplesSize, 2 * channels, p.correctionPercentMax) + 2 * channels <= capacity
    requires SynchronizeAudio(f, samplesSize, diff, sampleRate, channels, t, hasVideo, p).size > samplesSize
    ensures var size := SynchronizeAudio(f, samplesSize, diff, sampleRate, channels, t, hasVideo, p).size;
            2 * channels <= samplesSize
            && samplesSize + Span(PadCount(samplesSize, size), 2 * channels) <= capacity
  {
    var n := 2 * channels;
    var size := SynchronizeAudio(f, samplesSize, diff, sampleRate, channels, t, hasVideo, p).size;
    CorrectedSizeInBounds(f, samplesSize, diff, sampleRate, channels, t, hasVideo, p);
    FrameNeeded(samplesSize, n, p.correctionPercentMax);
    PaddingCoversGrowth(samplesSize, size, n);
  }

  /** `max_size` exceeds the size only when there is a whole frame. */
  lemma FrameNeeded(samplesSize: int, n: int, pct: int)
    requires n > 0 && samplesSize >= 0
    requires MaxSize(samplesSize, n, pct) > samplesSize
    ensures n <= samplesSize
  {
    NoFrameNoRoom(samplesSize, n, pct);
  }

  lemma NoFrameNoRoom(samplesSize: int, n: int, pct: int)
    requires n > 0 && samplesSize >= 0
    ensures samplesSize < n ==> MaxSize(samplesSize, n, pct) == 0
  {
  }

  /** `b` is `a` with the bytes in [samplesSize, end) each a copy of the byte
      one frame of `n` bytes before it, and every other byte unchanged. */
  ghost predicate Padded(b: seq<bv8>, a: seq<bv8>, samplesSize: int, end: int, n: int)
  {
    && |b| == |a| && 0 < n <= samplesSize <= end <= |a|
    && (forall k :: 0 <= k < samplesSize ==> b[k] == a[k])
    && (forall k :: samplesSize <= k < end ==> b[k] == b[k - n])
    && (forall k :: end <= k < |b| ==> b[k] == a[k])
  }

  /** In a padded buffer every added byte repeats the byte at the same offset
      `t` of the last frame of the original samples: byte `t` of added frame
      `c` is byte `t` of that frame. */
  lemma {:induction false} PaddedRepeatsLastFrame(b: seq<bv8>, a: seq<bv8>, samplesSize: int, end: int, n: int,
                                                  c: nat, t: int)
    requires Padded(b, a, samplesSize, end, n)
    requires 0 <= t < n && samplesSize + c * n + t < end
    ensures b[samplesSize + c * n + t] == a[samplesSize - n + t]
  {
    if c > 0 {
      assert (c - 1) * n + n == c * n;
      PaddedRepeatsLastFrame(b, a, samplesSize, end, n, c - 1, t);
    }
  }

  /** `b` with the `n` bytes from `from` copied to `to`. */
  function Copied(b: seq<bv8>, from: int, to: int, n: int): (r: seq<bv8>)
    requires 0 <= from && from + n <= to && to + n <= |b|
    ensures |r| == |b|
  {
    seq(|b|, k requires 0 <= k < |b| => if to <= k < to + n then b[k - (to - from)] else b[k])
  }

  /** The last `n` bytes before `q` are a copy of the last frame of the
      samples. */
  ghost predicate EndsWithLastFrame(b: seq<bv8>, samplesSize: int, q: int, n: int)
  {
    0 < n <= samplesSize <= q <= |b|
    && forall k :: q - n <= k < q ==> b[k] == b[k - (q - samplesSize)]
  }

  /** One turn of the padding loop keeps the buffer padded up to the next
      frame. */
  lemma PadStep(b: seq<bv8>, a: seq<bv8>, samplesSize: int, q: int, n: int)
    requires Padded(b, a, samplesSize, q, n) && EndsWithLastFrame(b, samplesSize, q, n)
    requires q + n <= |b|
    ensures Padded(Copied(b, samplesSize - n, q, n), a, samplesSize, q + n, n)
    ensures EndsWithLastFrame(Copied(b, samplesSize - n, q, n), samplesSize, q + n, n)
  {
    var r := Copied(b, samplesSize - n, q, n);
    forall k | samplesSize <= k < q + n
      ensures r[k] == r[k - n]
    {
      if k >= q {
        assert r[k] == b[k - (q - samplesSize + n)];
        assert r[k - n] == b[k - n];
      }
    }
  }

  /** `memcpy(q, samples_end, n)`: the `n` bytes from `from` copied to `to`,
      for ranges that do not overlap. */
  method CopyFrame(buf: array<bv8>, from: int, to: int, n: int)
    requires 0 <= from && from + n <= to && to + n <= buf.Length
    modifies buf
    ensures buf[..] == Copied(old(buf[..]), from, to, n)
  {
    forall k | to <= k < to + n {
      buf[k] := buf[k - (to - from)];
    }
  }

  /** The padding loop (src/_gmovie.c:914-922) on the sample buffer `buf`,
      starting from the byte count `nb`: while the count is positive, the last
      frame of the first `samplesSize` bytes is copied after what is there and
      the count drops by a frame. */
  method PadWithLastFrame(buf: array<bv8>, samplesSize: int, nb: int, n: int)
    requires 0 < n <= samplesSize
    requires samplesSize + Span(nb, n) <= buf.Length
    modifies buf
    ensures Padded(buf[..], old(buf[..]), samplesSize, samplesSize + Span(nb, n), n)
  {
    var q := samplesSize;
    var left := nb;
    while left > 0
      invariant samplesSize <= q && q + Span(left, n) == samplesSize + Span(nb, n)
      invariant Padded(buf[..], old(buf[..]), samplesSize, q, n)
      invariant EndsWithLastFrame(buf[..], samplesSize, q, n)
      decreases left
    {
      PadStep(buf[..], old(buf[..]), samplesSize, q, n);
      CopyFrame(buf, samplesSize - n, q, n);
      q := q + n;
      left := left - n;
    }
  }

  // ---------------------------------------------------------------------
  // video_refresh_timer and update_video_clock

  /** The fields `video_refresh_timer` keeps between frames: `frame_last_pts`,
      `frame_last_delay` and `frame_timer`. */
  datatype FrameTiming = FrameTiming(frameLastPts: real, frameLastDelay: real, frameTimer: real)

  /** What one refresh computes: the new frame timing, the delay it added to
      the frame timer and the wait before the next picture (`actual_delay`). */
  datatype Refresh = Refresh(timing: FrameTiming, delay: real, actualDelay: real)

  /** Whether video follows another clock (src/_gmovie.c:550-551). */
  predicate VideoIsSlave(t: SyncType, hasAudio: bool)
  {
    (t == AudioMaster && hasAudio) || t == ExternalClock
  }

  /** The delay guard of `video_refresh_timer` (src/_gmovie.c:540-547): the pts
      step from the last frame, unless it is not in (0, 10) seconds, in which
      case the previous frame's delay is used again. */
  function GuardedDelay(ft: FrameTiming, currentPts: real): (d: real)
    ensures d == currentPts - ft.frameLastPts || d == ft.frameLastDelay
    ensures 0.0 < currentPts - ft.frameLastPts < 10.0 ==> d == currentPts - ft.frameLastPts
    ensures 0.0 < ft.frameLastDelay < 10.0 ==> 0.0 < d < 10.0
  {
    var step := currentPts - ft.frameLastPts;
    if step <= 0.0 || step >= 10.0 then ft.frameLastDelay else step
  }

  /** `video_refresh_timer` (src/_gmovie.c:522-580) for a movie with a video
      stream: `currentPts` is the pts read from the ring slot at the read
      index, `master` the master clock reading and `now` the wall clock in
      seconds. AV_SYNC_THRESHOLD and AV_NOSYNC_THRESHOLD are parameters. */
  function RefreshTimer(ft: FrameTiming, currentPts: real, slave: bool, master: real, now: real,
                        syncThreshold: real, noSyncThreshold: real): (r: Refresh)
    ensures r.timing.frameLastPts == currentPts
    ensures r.timing.frameLastDelay == GuardedDelay(ft, currentPts)
    ensures !slave ==> r.delay == GuardedDelay(ft, currentPts)
    ensures r.delay == 0.0 || r.delay == GuardedDelay(ft, currentPts) || r.delay == 2.0 * GuardedDelay(ft, currentPts)
    ensures r.delay != GuardedDelay(ft, currentPts) ==> slave && Abs(currentPts - master) < noSyncThreshold
    ensures r.timing.frameTimer == ft.frameTimer + r.delay
    ensures r.actualDelay >= 0.010
    ensures r.actualDelay == 0.010 || r.actualDelay == r.timing.frameTimer - now
    ensures r.timing.frameTimer - now >= 0.010 ==> r.actualDelay == r.timing.frameTimer - now
  {
    var delay := GuardedDelay(ft, currentPts);
    var delay' :=
      if !slave then delay
      else
        var diff := currentPts - master;
        var threshold := if syncThreshold > delay then syncThreshold else delay;
        if Abs(diff) < noSyncThreshold then
          (if diff <= -threshold then 0.0 else if diff >= threshold then 2.0 * delay else delay)
        else delay;
    var timer := ft.frameTimer + delay';
    var actual := timer - now;
    Refresh(FrameTiming(currentPts, delay, timer), delay', if actual < 0.010 then 0.010 else actual)
  }

  /** When video follows another clock and the drift is within the no-sync
      threshold (and the frame delay is positive), a frame that lags by at
      least the sync threshold is shown at once and one that leads by at
      least that much waits twice as long. */
  lemma SlaveCatchesUp(ft: FrameTiming, currentPts: real, master: real, now: real,
                       syncThreshold: real, noSyncThreshold: real)
    requires Abs(currentPts - master) < noSyncThreshold
    requires GuardedDelay(ft, currentPts) > 0.0
    ensures var delay := GuardedDelay(ft, currentPts);
            var threshold := if syncThreshold > delay then syncThreshold else delay;
            var r := RefreshTimer(ft, currentPts, true, master, now, syncThreshold, noSyncThreshold);
            && (currentPts - master <= -threshold ==> r.delay == 0.0)
            && (currentPts - master >= threshold ==> r.delay == 2.0 * delay)
            && (-threshold < currentPts - master < threshold ==> r.delay == delay)
  {
  }

  /** What one call of `video_refresh_timer` depends on besides the timing
      fields: the pts at the read index, whether video follows another clock,
      the master clock reading and the wall clock. */
  datatype Tick = Tick(currentPts: real, slave: bool, master: real, now: real)

  /** The timing fields after `video_refresh_timer` has run once per tick. */
  function RefreshRun(ft: FrameTiming, ticks: seq<Tick>, syncThreshold: real, noSyncThreshold: real): FrameTiming
    decreases |ticks|
  {
    if ticks == [] then ft
    else
      var t := ticks[0];
      RefreshRun(RefreshTimer(ft, t.currentPts, t.slave, t.master, t.now, syncThreshold, noSyncThreshold).timing,
                 ticks[1..], syncThreshold, noSyncThreshold)
  }

  /** Once the last frame delay lies in (0, 10) seconds, as the 0.040 set by
      `stream_component_open` (src/_gmovie.c:1163) does, it stays there however
      many frames are shown, and the frame timer never moves backwards. */
  lemma {:induction false} RefreshRunKeepsDelayInRange(ft: FrameTiming, ticks: seq<Tick>, syncThreshold: real, noSyncThreshold: real)
    requires 0.0 < ft.frameLastDelay < 10.0
    ensures var ft' := RefreshRun(ft, ticks, syncThreshold, noSyncThreshold);
      0.0 < ft'.frameLastDelay < 10.0 && ft'.frameTimer >= ft.frameTimer
    decreases |ticks|
  {
    if ticks != [] {
      var t := ticks[0];
      var r := RefreshTimer(ft, t.currentPts, t.slave, t.master, t.now, syncThreshold, noSyncThreshold);
      RefreshRunKeepsDelayInRange(r.timing, ticks[1..], syncThreshold, noSyncThreshold);
    }
  }

  /** How far one decoded frame moves the video clock: one frame duration plus
      half a duration per repeated field (src/_gmovie.c:648-652). */
  function FrameDuration(frameDelay: real, repeatPict: int): real
  {
    frameDelay + repeatPict as real * (frameDelay * 0.5)
  }

  /** `update_video_clock` (src/_gmovie.c:638-657): the frame's pts is the
      decoder's pts when it is non-zero and the running video clock otherwise;
      the clock then moves past the frame by one frame duration plus half a
      duration per repeated field. Returns the new clock and the frame pts. */
  function UpdateVideoClock(videoClock: real, pts1: real, frameDelay: real, repeatPict: int): (r: (real, real))
    ensures pts1 != 0.0 ==> r.1 == pts1
    ensures pts1 == 0.0 ==> r.1 == videoClock
    ensures frameDelay >= 0.0 && repeatPict >= 0 ==> r.0 >= r.1
  {
    var pts := if pts1 != 0.0 then pts1 else videoClock;
    (pts + FrameDuration(frameDelay, repeatPict), pts)
  }

  /** A decoded frame as `update_video_clock` sees it: the decoder's pts (zero
      when it has none) and the frame's repeated-field count. */
  datatype DecodedFrame = DecodedFrame(pts1: real, repeatPict: int)

  /** The video clock after `update_video_clock` has run once per frame of a
      stream whose time base gives the frame delay `frameDelay`. */
  function ClockRun(videoClock: real, frameDelay: real, frames: seq<DecodedFrame>): real
    decreases |frames|
  {
    if frames == [] then videoClock
    else ClockRun(UpdateVideoClock(videoClock, frames[0].pts1, frameDelay, frames[0].repeatPict).0, frameDelay, frames[1..])
  }

  /** The total duration of a run of frames. */
  function Durations(frameDelay: real, frames: seq<DecodedFrame>): real
    decreases |frames|
  {
    if frames == [] then 0.0 else FrameDuration(frameDelay, frames[0].repeatPict) + Durations(frameDelay, frames[1..])
  }

  /** Over frames that carry no pts the video clock is the clock at the start
      plus the durations of the frames, so each such frame is stamped with the
      clock at its start: the clock extrapolates from the last timed frame. */
  lemma {:induction false} UntimedRunAddsDurations(videoClock: real, frameDelay: real, frames: seq<DecodedFrame>)
    requires forall i :: 0 <= i < |frames| ==> frames[i].pts1 == 0.0
    ensures ClockRun(videoClock, frameDelay, frames) == videoClock + Durations(frameDelay, frames)
    decreases |frames|
  {
    if frames != [] {
      var c := UpdateVideoClock(videoClock, 0.0, frameDelay, frames[0].repeatPict).0;
      UntimedRunAddsDurations(c, frameDelay, frames[1..]);
    }
  }

  /** A frame with a pts resets the video clock: what came before it does not
      matter for the clock after it. */
  lemma TimedFrameResetsClock(c1: real, c2: real, frameDelay: real, f: DecodedFrame, rest: seq<DecodedFrame>)
    requires f.pts1 != 0.0
    ensures ClockRun(c1, frameDelay, [f] + rest) == ClockRun(c2, frameDelay, [f] + rest)
  {
    assert ([f] + rest)[1..] == rest;
  }
}
