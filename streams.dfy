/** The stream list of an open container and the search of
    `stream_cycle_channel` (src/_gmovie.c:1659-1710). */
module Streams {

  /** `codec_type` of a stream. */
  datatype CodecType = VideoCodec | AudioCodec | SubtitleCodec | OtherCodec

  /** What the search reads of `ic->streams[i]->codec`. */
  datatype StreamInfo = StreamInfo(codecType: CodecType, sampleRate: int, channels: int)

  /** The stream is of type `t` and its parameters are usable: an audio stream
      needs a sample rate and a channel count, a video or subtitle stream
      needs nothing more, and no other type is ever accepted
      (src/_gmovie.c:1689-1702). */
  predicate Acceptable(st: StreamInfo, t: CodecType)
  {
    st.codecType == t &&
    match t
    case AudioCodec => st.sampleRate != 0 && st.channels != 0
    case VideoCodec => true
    case SubtitleCodec => true
    case OtherCodec => false
  }

  /** Either the search came back to where it started, or the stream to
      switch to (-1: subtitles off). */
  datatype CycleOutcome = Unchanged | SwitchTo(index: int)

  /** The lowest index a search for type `t` may start from: subtitles may be
      off (-1), the other types must have a stream. */
  function LowestStart(t: CodecType): int
  {
    if t == SubtitleCodec then -1 else 0
  }

  /** How many increments, wrapping from the last index to 0, lead from
      `start` to `j` in a list of `n` streams. */
  function Ahead(start: int, j: int, n: int): int
  {
    if j > start then j - start else j - start + n
  }

  /** The index reached after `k` increments from `start` with wrap-around. */
  function Wrap(start: int, k: int, n: int): int
  {
    if start + k < n then start + k else start + k - n
  }

  /** What the search of `stream_cycle_channel` answers for the current index
      `start` of type `t`: nothing without a current stream (subtitles excepted);
      for audio and video, no change exactly when no other stream of the type
      exists, and otherwise the first one met going round the list; for
      subtitles, always a switch, to the first subtitle stream after `start`,
      or off (-1) when there is none. */
  ghost predicate NextStream(streams: seq<StreamInfo>, t: CodecType, start: int, o: CycleOutcome)
  {
    && (start < LowestStart(t) ==> o == Unchanged)
    && (t != SubtitleCodec && 0 <= start ==>
         (o == Unchanged <==> forall j :: 0 <= j < |streams| && j != start ==> !Acceptable(streams[j], t)))
    && (t != SubtitleCodec && 0 <= start && o.SwitchTo? ==>
         && 0 <= o.index < |streams| && o.index != start
         && Acceptable(streams[o.index], t)
         && forall j :: 0 <= j < |streams| && Ahead(start, j, |streams|) < Ahead(start, o.index, |streams|) && j != start
              ==> !Acceptable(streams[j], t))
    && (t == SubtitleCodec && -1 <= start ==> o.SwitchTo?)
    && (t == SubtitleCodec && -1 <= start && o == SwitchTo(-1) ==>
         forall j :: start < j < |streams| ==> !Acceptable(streams[j], t))
    && (t == SubtitleCodec && -1 <= start && o.SwitchTo? && o.index != -1 ==>
         && start < o.index < |streams|
         && Acceptable(streams[o.index], t)
         && forall j :: start < j < o.index ==> !Acceptable(streams[j], t))
  }

  /** `NextStream` leaves no choice: for a current index inside the list at
      most one outcome satisfies it. */
  lemma NextStreamIsUnique(streams: seq<StreamInfo>, t: CodecType, start: int, o1: CycleOutcome, o2: CycleOutcome)
    requires start < |streams|
    requires NextStream(streams, t, start, o1) && NextStream(streams, t, start, o2)
    ensures o1 == o2
  {
    if t != SubtitleCodec && 0 <= start && o1.SwitchTo? && o2.SwitchTo? {
      var n := |streams|;
      assert Ahead(start, o1.index, n) == Ahead(start, o2.index, n) ==> o1.index == o2.index;
    }
  }

  /** The search loop of `stream_cycle_channel` over the current index
      `start` of type `t`. Audio and video streams are searched cyclically
      after `start`; if the search meets `start` again nothing changes.
      Subtitles are searched up to the end of the list only and turn off
      (-1) when none is found. */
  method FindNextStream(streams: seq<StreamInfo>, t: CodecType, start: int) returns (o: CycleOutcome)
    requires start < |streams|
    ensures NextStream(streams, t, start, o)
  {
    if start < LowestStart(t) {
      return Unchanged;
    }
    var n := |streams|;
    var idx := start;
    ghost var steps := 0;
    while true
      invariant 0 <= steps
      invariant t != SubtitleCodec ==> steps < n && idx == Wrap(start, steps, n)
      invariant t == SubtitleCodec ==> idx == start + steps && idx < n
      invariant t != SubtitleCodec ==>
        forall j :: 0 <= j < n && j != start && Ahead(start, j, n) <= steps ==> !Acceptable(streams[j], t)
      invariant t == SubtitleCodec ==> forall j :: start < j <= idx ==> !Acceptable(streams[j], t)
      decreases n + 1 - steps
    {
      idx := idx + 1;
      steps := steps + 1;
      if idx >= n {
        if t == SubtitleCodec {
          return SwitchTo(-1);
        }
        idx := 0;
      }
      if idx == start {
        return Unchanged;
      }
      if Acceptable(streams[idx], t) {
        return SwitchTo(idx);
      }
    }
  }
}
