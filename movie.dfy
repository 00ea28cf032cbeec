/** The movie object of the playback engine (src/_gmovie.c): its open streams,
    the seek and pause latches, the decoder's seek block and one pass of its
    read loop, channel cycling, and the per-frame timing fields. FFmpeg and SDL
    calls are reduced to the outcomes the code branches on, passed in as
    parameters; clocks are passed in as readings. */
module Playback {
  import opened Options
  import opened PacketQueues
  import opened PictureQueues
  import opened AvSync
  import opened Streams

  /** The header constants the movie code reads (`_gmovie.h` is not part of
      this model): AUDIO_DIFF_AVG_NB, SAMPLE_CORRECTION_PERCENT_MAX,
      AV_SYNC_THRESHOLD, AV_NOSYNC_THRESHOLD and the MAX_*Q_SIZE limits. */
  datatype Config = Config(avgNb: int, correctionPercentMax: int, syncThreshold: real, noSyncThreshold: real,
                           maxAudioqSize: int, maxVideoqSize: int, maxSubtitleqSize: int)

  /** `video_stream`, `audio_stream` and `subtitle_stream`; -1 when closed. */
  datatype OpenStreams = OpenStreams(video: int, audio: int, subtitle: int)

  /** `seek_req`, `seek_pos` and `seek_flags`. */
  datatype SeekLatch = SeekLatch(req: bool, pos: int, flags: int)

  /** `paused` and `last_paused`. */
  datatype PauseLatch = PauseLatch(paused: bool, lastPaused: bool)

  /** Whether each `packet_queue_put` of the seek block gets its list node, for
      the audio, subtitle and video queues. */
  datatype SeekAllocs = SeekAllocs(audio: bool, subtitle: bool, video: bool)

  /** A Python exception set with `PyErr_Format`: its type, the format string
      and the one string the format's `%s` takes. */
  datatype PyError = PyError(exc: string, format: string, arg: string)

  /** The IOError `decoder` sets when `av_seek_frame` fails
      (src/_gmovie.c:1753-1754); `fileName` is `ic->filename`. */
  function SeekError(fileName: string): (e: PyError)
    ensures e.exc == "IOError" && e.format == "%s: error while seeking" && e.arg == fileName
  {
    PyError("IOError", "%s: error while seeking", fileName)
  }

  /** The error the seek block leaves set: none after a successful seek, the
      IOError after a failed one. */
  function SeekOutcome(seekOk: bool, fileName: string): (e: Option<PyError>)
    ensures seekOk <==> e == None
    ensures !seekOk ==> e == Some(SeekError(fileName))
  {
    if seekOk then None else Some(SeekError(fileName))
  }

  /** The error a pass of the decoder leaves set: the seek block's when a seek
      was pending, none otherwise. */
  function PassError(seekPending: bool, seekOk: bool, fileName: string): (e: Option<PyError>)
    ensures e != None <==> seekPending && !seekOk
    ensures e != None ==> e == Some(SeekError(fileName))
  {
    if seekPending then SeekOutcome(seekOk, fileName) else None
  }

  /** Which of `av_read_pause` and `av_read_play` a pass of the decoder calls. */
  datatype ReadControl = NoCall | ReadPause | ReadPlay

  /** AVSEEK_FLAG_BACKWARD. */
  const SeekFlagBackward := 1

  // ---------------------------------------------------------------------
  // The seek latch

  /** `stream_seek` (src/_gmovie.c:740-750): a request is recorded only when
      none is pending, and asks for a backward seek exactly when `rel` is
      negative. */
  function RequestSeek(s: SeekLatch, pos: int, rel: int): (s': SeekLatch)
    ensures s'.req
    ensures s.req ==> s' == s
    ensures !s.req ==> s'.pos == pos && (s'.flags == SeekFlagBackward <==> rel < 0) && (s'.flags == 0 <==> rel >= 0)
  {
    if s.req then s else SeekLatch(true, pos, if rel < 0 then SeekFlagBackward else 0)
  }

  /** A series of `stream_seek` calls, each with its `(pos, rel)`. */
  function RequestSeeks(s: SeekLatch, reqs: seq<(int, int)>): SeekLatch
    decreases |reqs|
  {
    if reqs == [] then s else RequestSeeks(RequestSeek(s, reqs[0].0, reqs[0].1), reqs[1..])
  }

  /** While a seek is pending, further requests are ignored. */
  lemma {:induction false} PendingSeekIgnoresRequests(s: SeekLatch, reqs: seq<(int, int)>)
    requires s.req
    ensures RequestSeeks(s, reqs) == s
    decreases |reqs|
  {
    if reqs != [] {
      PendingSeekIgnoresRequests(RequestSeek(s, reqs[0].0, reqs[0].1), reqs[1..]);
    }
  }

  /** Between two passes of the decoder, the first seek request wins. */
  lemma FirstSeekRequestWins(s: SeekLatch, reqs: seq<(int, int)>)
    requires !s.req && reqs != []
    ensures RequestSeeks(s, reqs) == RequestSeek(s, reqs[0].0, reqs[0].1)
  {
    PendingSeekIgnoresRequests(RequestSeek(s, reqs[0].0, reqs[0].1), reqs[1..]);
  }

  /** The stream the decoder seeks in (src/_gmovie.c:1744-1746): video if open,
      else audio, else subtitles, else none (-1). */
  function SeekStreamIndex(o: OpenStreams): (i: int)
    ensures o.video >= 0 ==> i == o.video
    ensures o.video < 0 && o.audio >= 0 ==> i == o.audio
    ensures o.video < 0 && o.audio < 0 && o.subtitle >= 0 ==> i == o.subtitle
    ensures o.video < 0 && o.audio < 0 && o.subtitle < 0 ==> i == -1
  {
    if o.video >= 0 then o.video else if o.audio >= 0 then o.audio else if o.subtitle >= 0 then o.subtitle else -1
  }

  /** What the seek block does to one queue (src/_gmovie.c:1752-1767): after a
      successful `av_seek_frame`, the queue of an open stream is flushed and the
      flush marker put into it; otherwise the queue is left alone. */
  function SeekQueue(q: QueueState, active: bool, seekOk: bool, allocOk: bool): (r: QueueState)
    ensures !(active && seekOk) ==> r == q
    ensures active && seekOk ==> r.packets == (if allocOk then [Flush] else []) && r.Consistent()
    ensures r.abortRequest == q.abortRequest
  {
    if active && seekOk then PutQueue(FlushQueue(q), Flush, allocOk).0 else q
  }

  // ---------------------------------------------------------------------
  // The pause latch

  /** The pause block of the decoder (src/_gmovie.c:1733-1739): when `paused`
      differs from `last_paused`, the latch catches up and the demuxer is told
      to pause or to play accordingly. */
  function LatchPause(p: PauseLatch): (r: (PauseLatch, ReadControl))
    ensures r.0 == PauseLatch(p.paused, p.paused)
    ensures r.1 == NoCall <==> p.paused == p.lastPaused
    ensures r.1 == ReadPause <==> p.paused && !p.lastPaused
    ensures r.1 == ReadPlay <==> !p.paused && p.lastPaused
  {
    if p.paused != p.lastPaused then (PauseLatch(p.paused, p.paused), if p.paused then ReadPause else ReadPlay)
    else (p, NoCall)
  }

  /** A second pass of the latch, with no toggle in between, calls nothing. */
  lemma LatchIsIdempotent(p: PauseLatch)
    ensures LatchPause(LatchPause(p).0) == (LatchPause(p).0, NoCall)
  {
  }

  /** `stream_pause` (src/_gmovie.c:753-764) on the fields it touches: the
      flag is toggled; on resuming, the current video pts is taken from the
      video clock and the frame timer is pushed forward by the time elapsed
      since that pts was last set, so the pause is not counted as late frames. */
  function TogglePause(p: PauseLatch, currentPts: real, frameTimer: real, videoClock: real, elapsed: real):
    (r: (PauseLatch, real, real))
    ensures r.0 == p.(paused := !p.paused)
    ensures p.paused ==> r.1 == videoClock && r.2 == frameTimer + elapsed
    ensures !p.paused ==> r.1 == currentPts && r.2 == frameTimer
  {
    if p.paused then (p.(paused := false), videoClock, frameTimer + elapsed)
    else (p.(paused := true), currentPts, frameTimer)
  }

  /** Pausing and then resuming restores the flag and shifts the frame timer
      by exactly the elapsed time given at the resume. */
  lemma PauseResumeShiftsTimer(p: PauseLatch, currentPts: real, frameTimer: real,
                               clock1: real, elapsed1: real, clock2: real, elapsed2: real)
    requires !p.paused
    ensures var a := TogglePause(p, currentPts, frameTimer, clock1, elapsed1);
            var b := TogglePause(a.0, a.1, a.2, clock2, elapsed2);
            b.0 == p && b.1 == clock2 && b.2 == frameTimer + elapsed2
  {
  }

  // ---------------------------------------------------------------------
  // Back-pressure

  /** The decoder stops reading while any queue holds more bytes than its
      limit (src/_gmovie.c:1772-1778). */
  predicate QueuesFull(c: Config, audio: QueueState, video: QueueState, subtitle: QueueState)
  {
    audio.size > c.maxAudioqSize || video.size > c.maxVideoqSize || subtitle.size > c.maxSubtitleqSize
  }

  /** What `av_read_frame` produced: a packet, or an error (end of file or a
      stream error; the decoder leaves its loop on both). */
  datatype ReadResult = ReadPacket(data: nat, size: int, streamIndex: int) | ReadError

  /** How a pass of the decoder loop ends: leaving the loop, going round again
      at once, or going on to render and display. */
  datatype LoopControl = LeaveLoop | NextPass | Render

  /** The observable fields of a movie other than its queues and ring. */
  datatype MovieFields = MovieFields(open: OpenStreams, seek: SeekLatch, pause: PauseLatch, abortRequest: bool,
                                     videoCurrentPts: real, frame: FrameTiming, videoClock: real, pts: real,
                                     filter: AudioFilter, avgCoef: real, diffThreshold: real)

  /** The fields after the stream of type `t` was closed and stream `index`
      opened in its place (-1: nothing opened). Opening resets what
      `stream_component_open` resets for that type. */
  function Reopened(f: MovieFields, t: CodecType, index: int, now: real, coef: real, threshold: real): MovieFields
  {
    match t
    case VideoCodec =>
      f.(open := f.open.(video := index),
         frame := if index >= 0 then f.frame.(frameLastDelay := 0.040, frameTimer := now) else f.frame)
    case AudioCodec =>
      if index >= 0 then
        f.(open := f.open.(audio := index), filter := f.filter.(avgCount := 0), avgCoef := coef, diffThreshold := threshold)
      else f.(open := f.open.(audio := -1))
    case _ => f.(open := f.open.(subtitle := index))
  }

  class Movie {
    const config: Config
    /** `ic->streams`. */
    const streams: seq<StreamInfo>
    /** The `av_sync_type` chosen when the movie was created. */
    const syncType: SyncType
    /** `ic->filename`, the name the movie was opened with. */
    const fileName: string
    const audioq: PacketQueue
    const videoq: PacketQueue
    const subtitleq: PacketQueue
    const pictures: PictureQueue

    var open: OpenStreams
    var seek: SeekLatch
    var pause: PauseLatch
    var abortRequest: bool
    var videoCurrentPts: real
    var frame: FrameTiming
    var videoClock: real
    /** `pts`: the pts of the frame last decoded, given to `queue_picture`. */
    var pts: real
    var filter: AudioFilter
    var avgCoef: real
    var diffThreshold: real

    function Fields(): MovieFields
      reads this
    {
      MovieFields(open, seek, pause, abortRequest, videoCurrentPts, frame, videoClock, pts, filter, avgCoef, diffThreshold)
    }

    ghost predicate Valid()
      reads this, audioq, videoq, subtitleq, pictures, pictures.pictq
    {
      && audioq != videoq && audioq != subtitleq && videoq != subtitleq
      && audioq.Valid() && videoq.Valid() && subtitleq.Valid() && pictures.Valid()
      && -1 <= open.video < |streams| && -1 <= open.audio < |streams| && -1 <= open.subtitle < |streams|
      && (open.video >= 0 ==> streams[open.video].codecType == VideoCodec)
      && (open.audio >= 0 ==> streams[open.audio].codecType == AudioCodec)
      && (open.subtitle >= 0 ==> streams[open.subtitle].codecType == SubtitleCodec)
    }

    /** The state `stream_open` sets before it opens the file: every stream
        index -1, `paused` 1 with `last_paused` still 0, every other field
        zero, `fileName` as `ic->filename`, and an `n`-slot picture ring. */
    constructor (c: Config, ss: seq<StreamInfo>, t: SyncType, name: string, n: nat)
      requires n > 0
      ensures Valid() && fresh(pictures) && fresh(pictures.pictq)
      ensures fresh(audioq) && fresh(videoq) && fresh(subtitleq)
      ensures config == c && streams == ss && syncType == t && fileName == name
      ensures open == OpenStreams(-1, -1, -1) && !seek.req && pause == PauseLatch(true, false) && !abortRequest
      ensures audioq.State().packets == [] && videoq.State().packets == [] && subtitleq.State().packets == []
    {
      config, streams, syncType, fileName := c, ss, t, name;
      audioq := new PacketQueue();
      videoq := new PacketQueue();
      subtitleq := new PacketQueue();
      pictures := new PictureQueue(n);
      open := OpenStreams(-1, -1, -1);
      seek := SeekLatch(false, 0, 0);
      pause := PauseLatch(true, false);
      abortRequest := false;
      videoCurrentPts, videoClock, pts := 0.0, 0.0, 0.0;
      frame := FrameTiming(0.0, 0.0, 0.0);
      filter := AudioFilter(0.0, 0);
      avgCoef, diffThreshold := 0.0, 0.0;
    }

    /** `stream_seek`. */
    method StreamSeek(pos: int, rel: int)
      modifies this
      ensures Fields() == old(Fields()).(seek := RequestSeek(old(seek), pos, rel))
    {
      if !seek.req {
        seek := SeekLatch(true, pos, if rel < 0 then SeekFlagBackward else 0);
      }
    }

    /** `stream_pause`. `videoClock` is the reading of `get_video_clock` and
        `elapsed` the seconds since `video_current_pts_time`. */
    method StreamPause(clock: real, elapsed: real)
      modifies this
      ensures var r := TogglePause(old(pause), old(videoCurrentPts), old(frame.frameTimer), clock, elapsed);
              Fields() == old(Fields()).(pause := r.0, videoCurrentPts := r.1, frame := old(frame).(frameTimer := r.2))
    {
      pause := pause.(paused := !pause.paused);
      if !pause.paused {
        videoCurrentPts := clock;
        frame := frame.(frameTimer := frame.frameTimer + elapsed);
      }
    }

    /** The pause block of `decoder`; returns the demuxer call it makes. */
    method DecoderPauseLatch() returns (call: ReadControl)
      modifies this
      ensures (pause, call) == LatchPause(old(pause))
      ensures Fields() == old(Fields()).(pause := pause)
    {
      call := NoCall;
      if pause.paused != pause.lastPaused {
        pause := pause.(lastPaused := pause.paused);
        if pause.paused {
          call := ReadPause;
        } else {
          call := ReadPlay;
        }
      }
    }

    /** The seek block of `decoder` (src/_gmovie.c:1740-1770), entered when a
        seek is pending. `seekOk` is the outcome of `av_seek_frame` in the
        stream it returns, and `allocs` whether each `packet_queue_put` gets
        its list node. A failed seek sets an IOError, returned as `raised`, and
        leaves the queues alone. The request is cleared whatever happens. */
    method DecoderSeek(seekOk: bool, allocs: SeekAllocs) returns (seekStream: int, raised: Option<PyError>)
      requires Valid()
      modifies this, audioq, videoq, subtitleq
      ensures Valid()
      ensures seekStream == SeekStreamIndex(open)
      ensures raised == SeekOutcome(seekOk, fileName)
      ensures Fields() == old(Fields()).(seek := old(seek).(req := false))
      ensures audioq.State() == SeekQueue(old(audioq.State()), open.audio >= 0, seekOk, allocs.audio)
      ensures subtitleq.State() == SeekQueue(old(subtitleq.State()), open.subtitle >= 0, seekOk, allocs.subtitle)
      ensures videoq.State() == SeekQueue(old(videoq.State()), open.video >= 0, seekOk, allocs.video)
    {
      seekStream := -1;
      if open.video >= 0 {
        seekStream := open.video;
      } else if open.audio >= 0 {
        seekStream := open.audio;
      } else if open.subtitle >= 0 {
        seekStream := open.subtitle;
      }
      raised := SeekOutcome(seekOk, fileName);
      FlushAfterSeek(seekOk, allocs);
      seek := seek.(req := false);
    }

    /** The three queue updates of the seek block, audio, subtitles, video. */
    method FlushAfterSeek(seekOk: bool, allocs: SeekAllocs)
      requires Valid()
      modifies audioq, videoq, subtitleq
      ensures Valid()
      ensures audioq.State() == SeekQueue(old(audioq.State()), open.audio >= 0, seekOk, allocs.audio)
      ensures subtitleq.State() == SeekQueue(old(subtitleq.State()), open.subtitle >= 0, seekOk, allocs.subtitle)
      ensures videoq.State() == SeekQueue(old(videoq.State()), open.video >= 0, seekOk, allocs.video)
    {
      SeekFlush(audioq, open.audio >= 0, seekOk, allocs.audio);
      SeekFlush(subtitleq, open.subtitle >= 0, seekOk, allocs.subtitle);
      SeekFlush(videoq, open.video >= 0, seekOk, allocs.video);
    }

    /** The queue part of the seek block for one stream: after a successful
        seek, the queue of an open stream is flushed and given a flush
        packet. */
    static method SeekFlush(q: PacketQueue, active: bool, seekOk: bool, allocOk: bool)
      requires q.Valid()
      modifies q
      ensures q.Valid()
      ensures q.State() == SeekQueue(old(q.State()), active, seekOk, allocOk)
    {
      if seekOk && active {
        q.Flush();
        var _ := q.Put(Flush, allocOk);
      }
    }

    /** `synchronize_audio` on the movie, for an open audio stream: the drift
        is the audio clock minus the master clock, and the filter fields are
        updated as the sizing function says. Returns the size to play. */
    method SynchronizeAudio(samples: array<bv8>, samplesSize: int, clocks: Clocks) returns (size: int)
      requires 0 <= open.audio < |streams| && streams[open.audio].channels > 0
      requires 0 <= samplesSize && 0 <= config.correctionPercentMax <= 100
      requires MaxSize(samplesSize, 2 * streams[open.audio].channels, config.correctionPercentMax)
               + 2 * streams[open.audio].channels <= samples.Length
      modifies this, samples
      ensures var diff := clocks.audio - MasterClock(syncType, old(open.video) >= 0, old(open.audio) >= 0, clocks);
              var st := streams[old(open.audio)];
              var r := AvSync.SynchronizeAudio(old(filter), samplesSize, diff, st.sampleRate, st.channels,
                                               syncType, old(open.video) >= 0, old(AudioParamsOf()));
              size == r.size && Fields() == old(Fields()).(filter := r.filter)
      ensures var n := 2 * streams[open.audio].channels;
              size > samplesSize ==>
                Padded(samples[..], old(samples[..]), samplesSize, samplesSize + Span(PadCount(samplesSize, size), n), n)
      ensures size <= samplesSize ==> samples[..] == old(samples[..])
    {
      var diff := clocks.audio - MasterClock(syncType, open.video >= 0, open.audio >= 0, clocks);
      var st := streams[open.audio];
      var r := AvSync.SynchronizeAudio(filter, samplesSize, diff, st.sampleRate, st.channels, syncType, open.video >= 0, AudioParamsOf());
      if r.size > samplesSize {
        GrowthFits(filter, samplesSize, diff, st.sampleRate, st.channels, syncType, open.video >= 0, AudioParamsOf(), samples.Length);
        PadWithLastFrame(samples, samplesSize, PadCount(samplesSize, r.size), 2 * st.channels);
      }
      filter := r.filter;
      size := r.size;
    }

    /** `synchronize_audio` as written (src/_gmovie.c:864-941): the padding
        loop starts from `samples_size - wanted_size`, which is negative when
        the buffer grows, so no frame is copied and the buffer is returned as
        it was, whatever size is played. With nothing written, the buffer need
        not have room past the samples. */
    method SynchronizeAudioAsWritten(samples: array<bv8>, samplesSize: int, clocks: Clocks) returns (size: int)
      requires 0 <= open.audio < |streams| && streams[open.audio].channels > 0
      requires 0 <= samplesSize <= samples.Length && 0 <= config.correctionPercentMax <= 100
      modifies this, samples
      ensures var diff := clocks.audio - MasterClock(syncType, old(open.video) >= 0, old(open.audio) >= 0, clocks);
              var st := streams[old(open.audio)];
              var r := AvSync.SynchronizeAudio(old(filter), samplesSize, diff, st.sampleRate, st.channels,
                                               syncType, old(open.video) >= 0, old(AudioParamsOf()));
              size == r.size && Fields() == old(Fields()).(filter := r.filter)
      ensures samples[..] == old(samples[..])
    {
      var diff := clocks.audio - MasterClock(syncType, open.video >= 0, open.audio >= 0, clocks);
      var st := streams[open.audio];
      var n := 2 * st.channels;
      var r := AvSync.SynchronizeAudio(filter, samplesSize, diff, st.sampleRate, st.channels, syncType, open.video >= 0, AudioParamsOf());
      if r.size > samplesSize {
        CorrectedSizeInBounds(filter, samplesSize, diff, st.sampleRate, st.channels, syncType, open.video >= 0, AudioParamsOf());
        FrameNeeded(samplesSize, n, config.correctionPercentMax);
        PaddingAsWrittenCopiesNothing(samplesSize, r.size, n);
        PadWithLastFrame(samples, samplesSize, PadCountAsWritten(samplesSize, r.size), n);
      }
      filter := r.filter;
      size := r.size;
    }

    /** The averaging parameters in force: the header constants and the
        coefficient and threshold set when the audio stream was opened. */
    function AudioParamsOf(): AudioParams
      reads this
    {
      AudioParams(config.avgNb, config.correctionPercentMax, config.noSyncThreshold, avgCoef, diffThreshold)
    }

    /** `video_refresh_timer` (src/_gmovie.c:522-580): with a video stream
        open, the pts of the picture at the read index becomes the current
        video pts and the frame timing moves on as the refresh function says;
        `now` is the wall clock in seconds. Returns the wait before the next
        picture (0 without a video stream, where nothing changes). */
    method VideoRefreshTimer(clocks: Clocks, now: real) returns (actualDelay: real)
      requires Valid()
      modifies this
      ensures Valid()
      ensures old(open.video) < 0 ==> Fields() == old(Fields()) && actualDelay == 0.0
      ensures old(open.video) >= 0 ==>
        var vpPts := pictures.pictq[pictures.rindex].pts;
        var r := RefreshTimer(old(frame), vpPts, VideoIsSlave(syncType, open.audio >= 0),
                              MasterClock(syncType, true, open.audio >= 0, clocks), now,
                              config.syncThreshold, config.noSyncThreshold);
        Fields() == old(Fields()).(videoCurrentPts := vpPts, frame := r.timing) && actualDelay == r.actualDelay
    {
      actualDelay := 0.0;
      if open.video >= 0 {
        var vpPts := pictures.pictq[pictures.rindex].pts;
        videoCurrentPts := vpPts;
        var r := RefreshTimer(frame, vpPts, VideoIsSlave(syncType, open.audio >= 0),
                              MasterClock(syncType, true, open.audio >= 0, clocks), now,
                              config.syncThreshold, config.noSyncThreshold);
        frame := r.timing;
        actualDelay := r.actualDelay;
      }
    }

    /** `video_display` (src/_gmovie.c:369-390). A slot without an overlay gets
        one from `video_open` (as far as `openOk` allows) and nothing is shown;
        a ready slot with a video stream open is shown and consumed and the
        timer refreshed; a slot that is not ready shows nothing. The refresh
        runs after the read index has moved on (src/_gmovie.c:472-474), so the
        pts it takes is that of the slot after the one shown. Returns 1 when
        a picture was due (a ready slot), 0 otherwise. */
    method VideoDisplay(openOk: bool, clocks: Clocks, now: real) returns (ret: int)
      requires Valid()
      modifies this, pictures, pictures.pictq
      ensures Valid()
      ensures var vp := old(pictures.pictq[pictures.rindex]);
              ret == (if vp.hasOverlay && vp.ready then 1 else 0)
      ensures var vp := old(pictures.pictq[pictures.rindex]);
              vp.hasOverlay && vp.ready && open.video >= 0 ==> pictures.State() == ConsumePicture(old(pictures.State()))
      ensures var vp := old(pictures.pictq[pictures.rindex]);
              vp.hasOverlay && vp.ready && open.video >= 0 ==>
                var nextPts := pictures.pictq[pictures.rindex].pts;
                var r := RefreshTimer(old(frame), nextPts, VideoIsSlave(syncType, open.audio >= 0),
                                      MasterClock(syncType, true, open.audio >= 0, clocks), now,
                                      config.syncThreshold, config.noSyncThreshold);
                Fields() == old(Fields()).(videoCurrentPts := nextPts, frame := r.timing)
      ensures var vp := old(pictures.pictq[pictures.rindex]);
              !vp.hasOverlay ==>
                pictures.State() == old(pictures.State()).(slots := old(pictures.pictq[..])[old(pictures.rindex) := vp.(hasOverlay := openOk)])
                && Fields() == old(Fields())
      ensures var vp := old(pictures.pictq[pictures.rindex]);
              vp.hasOverlay && !(vp.ready && open.video >= 0) ==> pictures.State() == old(pictures.State()) && Fields() == old(Fields())
    {
      var vp := pictures.pictq[pictures.rindex];
      ret := 1;
      if !vp.hasOverlay {
        pictures.OpenOverlay(pictures.rindex, openOk);
        ret := 0;
      } else if open.video >= 0 && vp.ready {
        pictures.ImageDisplay();
        var _ := VideoRefreshTimer(clocks, now);
      } else if !vp.ready {
        ret := 0;
      }
    }

    /** `update_video_clock` (src/_gmovie.c:638-657). `frameDelay` is the
        codec time base in seconds. */
    method UpdateVideoClock(pts1: real, frameDelay: real, repeatPict: int)
      modifies this
      ensures var r := AvSync.UpdateVideoClock(old(videoClock), pts1, frameDelay, repeatPict);
              Fields() == old(Fields()).(videoClock := r.0, pts := r.1)
    {
      var p := pts1;
      if p != 0.0 {
        videoClock := p;
      } else {
        p := videoClock;
      }
      var fd := frameDelay + repeatPict as real * (frameDelay * 0.5);
      videoClock := videoClock + fd;
      pts := p;
    }

    /** The packet queue of the stream type `t`; other types share the
        subtitle queue, as they share its index. */
    function QueueOf(t: CodecType): PacketQueue
    {
      match t
      case VideoCodec => videoq
      case AudioCodec => audioq
      case _ => subtitleq
    }

    /** The index field of the stream type `t`; other types share the
        subtitle index, as `stream_cycle_channel` reads it. */
    function CurrentIndex(t: CodecType): int
      reads this
    {
      match t
      case VideoCodec => open.video
      case AudioCodec => open.audio
      case _ => open.subtitle
    }

    /** `stream_component_close` (src/_gmovie.c:1187-1246): for a stream
        index in range, the queue of its type is aborted and its index field
        set to -1. `packet_queue_end` only frees the packets' payloads, so
        the list itself is left as it was. Other indices change nothing. */
    method ComponentClose(index: int)
      requires Valid()
      modifies this, audioq, videoq, subtitleq
      ensures Valid()
      ensures !(0 <= index < |streams|) ==> Fields() == old(Fields())
      ensures !(0 <= index < |streams|) ==>
        audioq.State() == old(audioq.State()) && videoq.State() == old(videoq.State()) && subtitleq.State() == old(subtitleq.State())
      ensures 0 <= index < |streams| ==> match streams[index].codecType
        case AudioCodec =>
          Fields() == old(Fields()).(open := old(open).(audio := -1))
          && audioq.State() == AbortQueue(old(audioq.State()))
          && videoq.State() == old(videoq.State()) && subtitleq.State() == old(subtitleq.State())
        case VideoCodec =>
          Fields() == old(Fields()).(open := old(open).(video := -1))
          && videoq.State() == AbortQueue(old(videoq.State()))
          && audioq.State() == old(audioq.State()) && subtitleq.State() == old(subtitleq.State())
        case SubtitleCodec =>
          Fields() == old(Fields()).(open := old(open).(subtitle := -1))
          && subtitleq.State() == AbortQueue(old(subtitleq.State()))
          && audioq.State() == old(audioq.State()) && videoq.State() == old(videoq.State())
        case OtherCodec =>
          Fields() == old(Fields())
          && audioq.State() == old(audioq.State()) && videoq.State() == old(videoq.State()) && subtitleq.State() == old(subtitleq.State())
    {
      if index < 0 || index >= |streams| {
        return;
      }
      match streams[index].codecType
      case AudioCodec =>
        audioq.Abort();
        open := open.(audio := -1);
      case VideoCodec =>
        videoq.Abort();
        open := open.(video := -1);
      case SubtitleCodec =>
        subtitleq.Abort();
        open := open.(subtitle := -1);
      case OtherCodec =>
    }

    /** `stream_component_open` (src/_gmovie.c:1080-1185). `codecOk` is the
        outcome of `avcodec_open`, `now` the wall clock in seconds; `coef`
        and `threshold` are the averaging weight exp(log(0.01) /
        AUDIO_DIFF_AVG_NB) and the drift threshold 2 * SDL_AUDIO_BUFFER_SIZE
        over the sample rate, both computed in double arithmetic. For an index in range whose codec
        opens, the index field of its type is set and its queue initialised
        (which clears the abort flag); audio also restarts the averaging filter
        count and video the frame timing. The `SDL_OpenAudio` failure only
        raises a Python error and does not stop the open. Returns -1 for an
        index out of range or a codec that does not open, 0 otherwise. */
    method ComponentOpen(index: int, codecOk: bool, now: real, coef: real, threshold: real) returns (r: int)
      requires Valid()
      modifies this, audioq, videoq, subtitleq
      ensures Valid()
      ensures r == (if 0 <= index < |streams| && codecOk then 0 else -1)
      ensures r != 0 || streams[index].codecType == OtherCodec ==>
        Fields() == old(Fields())
        && audioq.State() == old(audioq.State()) && videoq.State() == old(videoq.State()) && subtitleq.State() == old(subtitleq.State())
      ensures r == 0 && streams[index].codecType == AudioCodec ==>
        Fields() == old(Fields()).(open := old(open).(audio := index), filter := old(filter).(avgCount := 0),
                                   avgCoef := coef, diffThreshold := threshold)
        && audioq.State() == InitQueue(old(audioq.State()))
        && videoq.State() == old(videoq.State()) && subtitleq.State() == old(subtitleq.State())
      ensures r == 0 && streams[index].codecType == VideoCodec ==>
        Fields() == old(Fields()).(open := old(open).(video := index),
                                   frame := old(frame).(frameLastDelay := 0.040, frameTimer := now))
        && videoq.State() == InitQueue(old(videoq.State()))
        && audioq.State() == old(audioq.State()) && subtitleq.State() == old(subtitleq.State())
      ensures r == 0 && streams[index].codecType == SubtitleCodec ==>
        Fields() == old(Fields()).(open := old(open).(subtitle := index))
        && subtitleq.State() == InitQueue(old(subtitleq.State()))
        && audioq.State() == old(audioq.State()) && videoq.State() == old(videoq.State())
    {
      if index < 0 || index >= |streams| || !codecOk {
        return -1;
      }
      r := 0;
      match streams[index].codecType
      case AudioCodec =>
        open := open.(audio := index);
        avgCoef := coef;
        filter := filter.(avgCount := 0);
        diffThreshold := threshold;
        audioq.Init();
      case VideoCodec =>
        open := open.(video := index);
        frame := frame.(frameLastDelay := 0.040, frameTimer := now);
        videoq.Init();
      case SubtitleCodec =>
        open := open.(subtitle := index);
        subtitleq.Init();
      case OtherCodec =>
    }

    /** `stream_cycle_channel` (src/_gmovie.c:1659-1710): search for the next
        acceptable stream of type `t`; when the search comes back to the start
        nothing is closed or opened, otherwise the current stream is closed
        and the one found opened (for subtitles possibly -1, whose open fails
        at once). Returns the outcome of the search. */
    method StreamCycleChannel(t: CodecType, codecOk: bool, now: real, coef: real, threshold: real) returns (o: CycleOutcome)
      requires Valid()
      modifies this, audioq, videoq, subtitleq
      ensures Valid()
      ensures NextStream(streams, t, old(CurrentIndex(t)), o)
      ensures o.SwitchTo? ==>
        var start := old(CurrentIndex(t));
        var closed := if start >= 0 then AbortQueue(old(QueueOf(t).State())) else old(QueueOf(t).State());
        var started := codecOk && o.index >= 0;
        && QueueOf(t).State() == (if started then InitQueue(closed) else closed)
        && (t != AudioCodec ==> audioq.State() == old(audioq.State()))
        && (t != VideoCodec ==> videoq.State() == old(videoq.State()))
        && (t != SubtitleCodec ==> subtitleq.State() == old(subtitleq.State()))
        && Fields() == Reopened(old(Fields()), t, if started then o.index else -1, now, coef, threshold)
      ensures o == Unchanged ==>
        Fields() == old(Fields())
        && audioq.State() == old(audioq.State()) && videoq.State() == old(videoq.State()) && subtitleq.State() == old(subtitleq.State())
      ensures o.SwitchTo? && 0 <= o.index ==> CurrentIndex(t) == (if codecOk then o.index else -1)
      ensures o.SwitchTo? && o.index < 0 ==> CurrentIndex(t) == -1
    {
      var start := CurrentIndex(t);
      o := FindNextStream(streams, t, start);
      if o.SwitchTo? {
        ComponentClose(start);
        var _ := ComponentOpen(o.index, codecOk, now, coef, threshold);
      }
    }

    /** One pass of the `decoder` loop up to rendering (src/_gmovie.c:1727-1799).
        A raised abort flag leaves the loop at once. Otherwise the pause latch
        catches up, a pending seek is handled, and then: with a queue over its
        limit the pass ends; at end of file an empty drain packet for the
        video stream is put in the video queue and the pass ends; with room in
        the picture ring a packet is read, a read error leaves the loop and a
        packet of the video stream goes to the video queue (any other packet
        is freed). `raised` is the IOError of a failed seek, if any.
        `seekOk`, `atEof` and `read` are the outcomes of
        `av_seek_frame`, `url_feof` and `av_read_frame`; `allocs` says which of
        the seek block's three puts get their list node, and `allocOk` whether
        the one put of the read part does. */
    method DecoderPass(seekOk: bool, allocs: SeekAllocs, allocOk: bool, atEof: bool, read: ReadResult) returns (next: LoopControl, call: ReadControl, raised: Option<PyError>)
      requires Valid()
      modifies this, audioq, videoq, subtitleq
      ensures Valid()
      ensures raised == PassError(!old(abortRequest) && old(seek.req), seekOk, fileName)
      ensures old(abortRequest) ==>
        next == LeaveLoop && call == NoCall && Fields() == old(Fields())
        && audioq.State() == old(audioq.State()) && videoq.State() == old(videoq.State()) && subtitleq.State() == old(subtitleq.State())
      ensures !old(abortRequest) ==>
        && (pause, call) == LatchPause(old(pause))
        && Fields() == old(Fields()).(pause := pause, seek := old(seek).(req := false))
        && audioq.State() == AfterSeek(old(audioq.State()), open.audio >= 0, old(seek.req), seekOk, allocs.audio)
        && subtitleq.State() == AfterSeek(old(subtitleq.State()), open.subtitle >= 0, old(seek.req), seekOk, allocs.subtitle)
      ensures !old(abortRequest) ==>
        var v1 := AfterSeek(old(videoq.State()), open.video >= 0, old(seek.req), seekOk, allocs.video);
        var full := QueuesFull(config, audioq.State(), v1, subtitleq.State());
        && (full ==> next == NextPass && videoq.State() == v1)
        && (!full && atEof ==> next == NextPass && videoq.State() == PutQueue(v1, Data(0, 0, open.video), allocOk).0)
        && (!full && !atEof && pictures.size >= pictures.pictq.Length ==> next == Render && videoq.State() == v1)
        && (!full && !atEof && pictures.size < pictures.pictq.Length ==>
              videoq.State() == RoutePacket(v1, read, open.video, allocOk)
              && next == (if read.ReadError? then LeaveLoop else Render))
    {
      if abortRequest {
        return LeaveLoop, NoCall, None;
      }
      call, raised := DecoderPrologue(seekOk, allocs);
      next := DecoderRead(allocOk, atEof, read);
    }

    /** The latch and seek part of a pass that was not aborted. */
    method DecoderPrologue(seekOk: bool, allocs: SeekAllocs) returns (call: ReadControl, raised: Option<PyError>)
      requires Valid()
      modifies this, audioq, videoq, subtitleq
      ensures Valid()
      ensures raised == PassError(old(seek.req), seekOk, fileName)
      ensures (pause, call) == LatchPause(old(pause))
      ensures Fields() == old(Fields()).(pause := pause, seek := old(seek).(req := false))
      ensures audioq.State() == AfterSeek(old(audioq.State()), open.audio >= 0, old(seek.req), seekOk, allocs.audio)
      ensures subtitleq.State() == AfterSeek(old(subtitleq.State()), open.subtitle >= 0, old(seek.req), seekOk, allocs.subtitle)
      ensures videoq.State() == AfterSeek(old(videoq.State()), open.video >= 0, old(seek.req), seekOk, allocs.video)
    {
      call := DecoderPauseLatch();
      raised := SeekIfPending(seekOk, allocs);
    }

    /** The seek block when a seek is pending; nothing otherwise. */
    method SeekIfPending(seekOk: bool, allocs: SeekAllocs) returns (raised: Option<PyError>)
      requires Valid()
      modifies this, audioq, videoq, subtitleq
      ensures Valid()
      ensures raised == PassError(old(seek.req), seekOk, fileName)
      ensures Fields() == old(Fields()).(seek := old(seek).(req := false))
      ensures audioq.State() == AfterSeek(old(audioq.State()), open.audio >= 0, old(seek.req), seekOk, allocs.audio)
      ensures subtitleq.State() == AfterSeek(old(subtitleq.State()), open.subtitle >= 0, old(seek.req), seekOk, allocs.subtitle)
      ensures videoq.State() == AfterSeek(old(videoq.State()), open.video >= 0, old(seek.req), seekOk, allocs.video)
    {
      raised := None;
      if seek.req {
        var seekStream;
        seekStream, raised := DecoderSeek(seekOk, allocs);
      }
    }

    /** The read part of a pass: back-pressure, end of file, and reading and
        routing one packet while the picture ring has room. */
    method DecoderRead(allocOk: bool, atEof: bool, read: ReadResult) returns (next: LoopControl)
      requires Valid()
      modifies videoq
      ensures Valid()
      ensures var full := QueuesFull(config, audioq.State(), old(videoq.State()), subtitleq.State());
        && (full ==> next == NextPass && videoq.State() == old(videoq.State()))
        && (!full && atEof ==> next == NextPass && videoq.State() == PutQueue(old(videoq.State()), Data(0, 0, open.video), allocOk).0)
        && (!full && !atEof && pictures.size >= pictures.pictq.Length ==> next == Render && videoq.State() == old(videoq.State()))
        && (!full && !atEof && pictures.size < pictures.pictq.Length ==>
              videoq.State() == RoutePacket(old(videoq.State()), read, open.video, allocOk)
              && next == (if read.ReadError? then LeaveLoop else Render))
    {
      if audioq.size > config.maxAudioqSize || videoq.size > config.maxVideoqSize || subtitleq.size > config.maxSubtitleqSize {
        return NextPass;
      }
      if atEof {
        var _ := videoq.Put(Data(0, 0, open.video), allocOk);
        return NextPass;
      }
      next := Render;
      if pictures.size < pictures.pictq.Length {
        match read
        case ReadError =>
          next := LeaveLoop;
        case ReadPacket(d, sz, si) =>
          if si == open.video {
            var _ := videoq.Put(Data(d, sz, si), allocOk);
          }
      }
    }

    /** The decoder's exit path (src/_gmovie.c:1833-1843): the ring indices go to
        zero, leaving the slots' ready flags as they were, and the video queue
        is flushed. */
    method DecoderExit()
      requires Valid()
      modifies pictures, videoq
      ensures Valid()
      ensures pictures.windex == 0 && pictures.rindex == 0 && pictures.size == 0
      ensures pictures.pictq[..] == old(pictures.pictq[..])
      ensures videoq.State() == FlushQueue(old(videoq.State()))
    {
      pictures.ResetIndices();
      videoq.Flush();
    }
  }

  /** A queue after the seek block of a pass: changed only when a seek was
      pending and succeeded and the queue's stream is open. */
  function AfterSeek(q: QueueState, active: bool, pending: bool, seekOk: bool, allocOk: bool): QueueState
  {
    if pending then SeekQueue(q, active, seekOk, allocOk) else q
  }

  /** The video queue after the routing of a read packet: a packet of the
      video stream is put in it, anything else is dropped. */
  function RoutePacket(v: QueueState, read: ReadResult, videoStream: int, allocOk: bool): (r: QueueState)
    ensures read.ReadPacket? && read.streamIndex == videoStream && allocOk ==>
      r.packets == v.packets + [Data(read.data, read.size, read.streamIndex)]
    ensures !(read.ReadPacket? && read.streamIndex == videoStream && allocOk) ==> r.packets == v.packets
    ensures v.Consistent() ==> r.Consistent()
  {
    if read.ReadPacket? && read.streamIndex == videoStream then
      PutQueue(v, Data(read.data, read.size, read.streamIndex), allocOk).0
    else v
  }
}
