# Movie playback core and physics world of a pygame fork, in Dafny

This project models two C files of a pygame fork.

`src/_gmovie.c` is an FFmpeg/SDL movie player. The model covers:

- the packet queue that carries compressed packets from the demuxer to the
  decoders;
- the ring of decoded pictures waiting to be shown;
- the seek and pause latches, and the block of the decoder loop that serves
  them;
- `stream_cycle_channel`;
- the sizing and padding done by `synchronize_audio`;
- the choice of master clock;
- the frame-delay logic of `video_refresh_timer`.

`src/pgWorldObject.c` is the container of the physics module. The model covers:

- adding and removing bodies and joints;
- the defaults of a new world;
- the step-time check of `World.update`;
- the fixed order of the update phases;
- the loop over body pairs of the collision test;
- the joint solver pass.

The modules are:

- `PacketQueues` (packet_queue.dfy): the queue as a value (`QueueState`), its five operations as functions, lemmas over any run of puts and gets, and the `PacketQueue` class whose methods update its fields as those functions say.
- `PictureQueues` (picture_queue.dfy): the picture ring as a value with its invariant and the pts it holds, and a `PictureQueue` class over an `array` of slots.
- `AvSync` (sync.dfy): master-clock selection, C's truncating conversion and division, the `synchronize_audio` sizing and averaging filter, the in-place padding loop over a byte `array`, `video_refresh_timer` and `update_video_clock`.
- `Streams` (streams.dfy): the stream search of `stream_cycle_channel`, a loop with its invariants.
- `Playback` (movie.dfy): the movie object as a class, with its open streams, latches, decoder passes and the open and close of stream components.
- `Physics` (world.dfy): the world as a class. The kernels it calls in other files are recorded, in order, in a trace of calls. The update schedule is specified as such traces, and the narrow phase is an input.
- `Options` and `Seqs`: an option type and a sequence lemma.

The outcomes of most FFmpeg and SDL calls that the code branches on are parameters: `seekOk`, `allocs`, `allocOk`, `codecOk`, `openOk`, `atEof`, `read`. The exceptions are listed under "## Left out". Clock readings and the wall clock are parameters too, and C doubles are reals. Header constants that live in `_gmovie.h` are the fields of `Playback.Config`, and the picture-ring capacity is the length of the slot array.

## Model

| member | source | states |
|---|---|---|
| PacketQueues.InitQueue | src/_gmovie.c:10-20 | re-initialising a queue only clears its abort flag; the list is kept and a consistent queue stays consistent |
| PacketQueues.FlushQueue | src/_gmovie.c:22-42 | every packet is dropped, both counters are zero (so the counters describe the empty list) and the abort flag is kept |
| PacketQueues.PutQueue | src/_gmovie.c:65-95 | a failed node allocation returns -1 and leaves the list as it was; otherwise the packet is appended at the back even on an aborted queue and 0 is returned; the abort flag is kept and the counters stay consistent |
| PacketQueues.AbortQueue | src/_gmovie.c:97-108 | the abort flag is raised and the list kept |
| PacketQueues.GetQueue | src/_gmovie.c:111-150 | returns -1 exactly when aborted, 1 exactly when not aborted and non-empty (handing out the head and keeping the tail), and 0 on an empty queue that is not aborted, whatever `block` says; without a packet the queue is unchanged; the counters stay consistent |
| PacketQueues.StepIsFifo | src/_gmovie.c:65-150 | one put or get moves a packet from the front to the caller or adds one at the back, and does nothing else to the list |
| PacketQueues.RunIsFifo | src/_gmovie.c:65-150 | over any interleaving of puts and gets, the packets returned followed by those still queued are the packets queued at the start followed by every packet put successfully, in order |
| PacketQueues.RunKeepsCounters | src/_gmovie.c:65-150 | over any interleaving of puts and gets, `nb_packets` and `size` keep describing the list exactly and the abort flag never changes |
| PacketQueues.AbortedRunReturnsNothing | src/_gmovie.c:97-150 | once aborted, gets return nothing and every packet put stays in the list |
| PacketQueues.PacketQueue.Init | src/_gmovie.c:10-20 | the queue's fields become `InitQueue` of the old ones |
| PacketQueues.PacketQueue.Flush | src/_gmovie.c:22-42 | the queue's fields become `FlushQueue` of the old ones |
| PacketQueues.PacketQueue.Put | src/_gmovie.c:65-95 | new fields and return code are `PutQueue` of the old fields |
| PacketQueues.PacketQueue.Abort | src/_gmovie.c:97-108 | the queue's fields become `AbortQueue` of the old ones |
| PacketQueues.PacketQueue.Get | src/_gmovie.c:111-150 | new fields, return code and packet out are `GetQueue` of the old fields |
| PictureQueues.EnqueuePicture | src/_gmovie.c:594-631 | writing a picture keeps both indices inside a ring of unchanged capacity |
| PictureQueues.ConsumePicture | src/_gmovie.c:472-473 | consuming the head keeps both indices inside a ring of unchanged capacity |
| PictureQueues.HeadReadyIffNonEmpty | src/_gmovie.c:369-390 | under the ring invariant the slot at the read index is ready exactly when a picture is queued, so the `ready` test of `video_display` is an emptiness test |
| PictureQueues.QueuePictureKeepsRing | src/_gmovie.c:582-635 | on a ring with a free slot, queueing keeps the ring invariant and appends the picture's pts to the queued pts; with no overlay the queued pts are unchanged (neither `queue_picture` nor `video_render` checks for the free slot: Findings row 2) |
| PictureQueues.FullRingWriteOverwritesHead | src/_gmovie.c:1860-1887 | as written, queueing on a full ring writes over the oldest picture, which is still ready and unshown, and leaves a count of N + 1, breaking the ring invariant |
| PictureQueues.QueuePictureWhenRoom | src/_gmovie.c:582-635 | the intended `queue_picture` leaves a full ring as it was and keeps the indices inside a ring of unchanged capacity |
| PictureQueues.QueuePictureWhenRoomKeepsRing | src/_gmovie.c:582-635 | the intended `queue_picture` keeps the ring invariant on every ring that has it, and the queued pts gain the picture exactly when it was written |
| PictureQueues.WrittenRingInv | src/_gmovie.c:627-630 | writing a picture into the slot at the write index keeps the ring invariant |
| PictureQueues.WrittenRingContents | src/_gmovie.c:627-630 | writing a picture appends exactly its pts to the queued pts |
| PictureQueues.ImageDisplayKeepsRing | src/_gmovie.c:472-473 | showing the head of a non-empty ring keeps the invariant, removes exactly the oldest pts, and leaves the shown slot not ready |
| PictureQueues.PictureQueue.QueuePicture | src/_gmovie.c:582-635 | the ring's fields become `EnqueuePicture` of the old ones |
| PictureQueues.PictureQueue.QueueIfRoom | src/_gmovie.c:582-635 | the ring's fields become `QueuePictureWhenRoom` of the old ones, and the result says whether the picture entered the ring |
| PictureQueues.PictureQueue.ImageDisplay | src/_gmovie.c:472-473 | the ring's fields become `ConsumePicture` of the old ones |
| PictureQueues.PictureQueue.OpenOverlay | src/_gmovie.c:375-378 | only the given slot changes, gaining an overlay when `video_open` succeeds |
| PictureQueues.PictureQueue.ResetIndices | src/_gmovie.c:1839 | the three indices are zero and the slots are untouched |
| AvSync.MasterSource | src/_gmovie.c:717-737 | the external clock is read exactly when it is the master; an audio or video master reads its own clock exactly when its stream is open, and falls back to the other stream's clock only then |
| AvSync.SingleStreamDrivesMaster | src/_gmovie.c:717-737 | with exactly one of audio and video open, an audio or video master reads that stream's clock |
| AvSync.TruncToInt | src/_gmovie.c:895 | the `(int)` conversion truncates toward zero on both signs |
| AvSync.CDiv | src/_gmovie.c:896-899 | on non-negative operands C division gives the mathematical quotient |
| AvSync.CDivRemainder | src/_gmovie.c:896-899 | C division truncates toward zero: the remainder has the sign of the dividend and is smaller than the divisor in magnitude |
| AvSync.SynchronizeAudio | src/_gmovie.c:864-941 | without audio as a slave nothing changes; a drift at or past the no-sync threshold resets the filter and keeps the size; the size changes only when a correction is due, and then it is the clamped wanted size; the measure count stays within [0, AUDIO_DIFF_AVG_NB]; below the no-sync threshold the cumulative drift becomes the drift plus the weighted old sum, and the count rises by one until it reaches AUDIO_DIFF_AVG_NB |
| AvSync.SizeBoundsOrdered | src/_gmovie.c:896-899 | for a percentage in [0, 100], 0 <= min_size <= max_size |
| AvSync.CorrectedSizeInBounds | src/_gmovie.c:895-903 | a corrected size lies in [min_size, max_size] and is not negative |
| AvSync.WarmUpNeverCorrects | src/_gmovie.c:884-889 | for the first AUDIO_DIFF_AVG_NB drifts below the threshold, calls only count measures and return the size unchanged |
| AvSync.SpanCovers | src/_gmovie.c:917-922 | the loop writes nothing for a count that is not positive, and otherwise covers the count, overrunning it by less than a frame |
| AvSync.PaddingAsWrittenCopiesNothing | src/_gmovie.c:914-922 | as written, a buffer that grows gets no frame copied |
| AvSync.PaddingCoversGrowth | src/_gmovie.c:914-922 | counting the growth, the copied frames cover every added byte and end less than a frame past the wanted size |
| AvSync.GrowthFits | src/_gmovie.c:895-922 | a buffer can grow only if it holds a whole frame, and then the padding fits a buffer with room for `max_size` plus one frame |
| AvSync.FrameNeeded | src/_gmovie.c:896-899 | `max_size` exceeds the size only when the buffer holds at least one frame |
| AvSync.NoFrameNoRoom | src/_gmovie.c:896-899 | a buffer shorter than one frame has `max_size` zero |
| AvSync.PaddedRepeatsLastFrame | src/_gmovie.c:915-922 | in a padded buffer, byte `t` of every added frame is byte `t` of the last original frame |
| AvSync.PadStep | src/_gmovie.c:917-922 | one turn of the loop extends the padding by one frame |
| AvSync.Copied | src/_gmovie.c:919 | `memcpy` of a frame leaves the length of the buffer unchanged |
| AvSync.CopyFrame | src/_gmovie.c:919 | the buffer becomes `Copied` of its old contents: the frame at the destination is replaced and every other byte is kept |
| AvSync.PadWithLastFrame | src/_gmovie.c:914-922 | the original samples are kept, each added byte repeats the byte one frame before it (so every added frame is the last frame), and the bytes past the padding are untouched |
| AvSync.GuardedDelay | src/_gmovie.c:540-547 | the delay is either the pts step or the previous delay, and the step whenever it lies in (0, 10) seconds; a previous delay in (0, 10) gives a delay in (0, 10) |
| AvSync.RefreshTimer | src/_gmovie.c:522-580 | the last pts and last delay are updated; the delay is changed from the guarded one only when video is a slave within the no-sync threshold, and then to 0 or double; the frame timer advances by the delay; the wait is at least 10 ms, and it is the timer minus now whenever that is at least 10 ms |
| AvSync.RefreshRunKeepsDelayInRange | src/_gmovie.c:540-547 | from a last delay in (0, 10) seconds, such as the 0.040 that `stream_component_open` sets (src/_gmovie.c:1163), any number of refreshes keep it in (0, 10) and never move the frame timer backwards |
| AvSync.SlaveCatchesUp | src/_gmovie.c:549-566 | a slave frame lagging by the sync threshold is shown at once, one leading by it waits twice as long, and one in between keeps its delay |
| AvSync.UpdateVideoClock | src/_gmovie.c:638-657 | the frame pts is the decoder's pts when non-zero, otherwise the running clock; with a non-negative frame delay and repeat count the clock never ends behind the frame pts |
| AvSync.UntimedRunAddsDurations | src/_gmovie.c:638-657 | over frames without a pts the video clock is its start value plus the durations of the frames (one frame delay plus half a delay per repeated field each) |
| AvSync.TimedFrameResetsClock | src/_gmovie.c:641-643 | a frame with a pts sets the clock, so the clock after it does not depend on the clock before it |
| Streams.NextStreamIsUnique | src/_gmovie.c:1659-1710 | the outcome `NextStream` describes is unique, so it fixes the result of the search |
| Streams.FindNextStream | src/_gmovie.c:1659-1710 | the outcome satisfies `NextStream`: a start below the lowest allowed start changes nothing. For audio and video, the search comes back empty exactly when no other stream is acceptable; otherwise it finds the first acceptable stream after the start in wrap-around order. For subtitles, it finds the first acceptable stream after the start, or -1 when there is none |
| Playback.RequestSeek | src/_gmovie.c:740-750 | a pending request is left as it was; otherwise the position is recorded and the backward flag is set exactly when `rel` is negative |
| Playback.PendingSeekIgnoresRequests | src/_gmovie.c:740-750 | while a seek is pending, any number of further requests change nothing |
| Playback.FirstSeekRequestWins | src/_gmovie.c:740-750 | after a run of requests with none pending, the latch holds the first request |
| Playback.SeekStreamIndex | src/_gmovie.c:1744-1746 | the seek uses video if open, else audio, else subtitles, else -1 |
| Playback.SeekQueue | src/_gmovie.c:1752-1767 | after a successful seek, the queue of an open stream holds only the flush marker (none if allocation fails); otherwise it is untouched |
| Playback.LatchPause | src/_gmovie.c:1733-1739 | `last_paused` catches up with `paused`; the demuxer is told to pause or play exactly when they differed, and which it is follows `paused` |
| Playback.LatchIsIdempotent | src/_gmovie.c:1733-1739 | a second pass with no toggle in between calls nothing and changes nothing |
| Playback.TogglePause | src/_gmovie.c:753-764 | the flag is toggled; on resuming, the current pts becomes the video clock and the frame timer moves forward by the elapsed time; on pausing both are kept |
| Playback.PauseResumeShiftsTimer | src/_gmovie.c:753-764 | pausing then resuming restores the flag and shifts the frame timer by exactly the elapsed time |
| Playback.RoutePacket | src/_gmovie.c:1802-1808 | a packet of the video stream is appended to the video queue when allocation succeeds; anything else leaves the list unchanged; consistency is kept |
| Playback.Movie.StreamSeek | src/_gmovie.c:740-750 | only the seek latch changes, as `RequestSeek` says |
| Playback.Movie.constructor | src/_gmovie.c:1496-1504 | no stream open (every index -1), paused with `last_paused` clear, no seek pending, empty queues and the given file name |
| Playback.Movie.StreamPause | src/_gmovie.c:753-764 | only the pause flag, the current pts and the frame timer change, as `TogglePause` says |
| Playback.Movie.DecoderPauseLatch | src/_gmovie.c:1733-1739 | only the pause latch changes, and the call made is `LatchPause`'s |
| Playback.Movie.DecoderSeek | src/_gmovie.c:1740-1770 | returns the seek stream and the error left set (the IOError "%s: error while seeking" with the file name exactly when the seek fails), clears the request, and leaves each queue as `SeekQueue` for its stream and its own allocation outcome says |
| Playback.Movie.FlushAfterSeek | src/_gmovie.c:1755-1767 | each queue becomes `SeekQueue` of its old state, with its own allocation outcome |
| Playback.Movie.SeekIfPending | src/_gmovie.c:1740-1770 | with a seek pending, the seek block runs; otherwise nothing changes; the error left set is `PassError`'s |
| Playback.SeekOutcome | src/_gmovie.c:1752-1754 | a seek leaves no error exactly when it succeeds, and the IOError for the file otherwise |
| Playback.PassError | src/_gmovie.c:1740-1754 | a pass leaves an error set exactly when a pending seek fails, and it is that seek's IOError |
| Playback.Movie.SeekFlush | src/_gmovie.c:1756-1767 | one queue becomes `SeekQueue` of its old state |
| Playback.Movie.SynchronizeAudio | src/_gmovie.c:864-941 | size and filter are `AvSync.SynchronizeAudio` of the drift from the master clock; a grown buffer is padded with copies of its last frame; otherwise the buffer is untouched |
| Playback.Movie.SynchronizeAudioAsWritten | src/_gmovie.c:864-941 | as written: size and filter as in `SynchronizeAudio`, and the buffer comes back untouched even when it grows |
| Playback.Movie.VideoRefreshTimer | src/_gmovie.c:522-580 | without video nothing changes; with video, the head slot's pts becomes current and the frame timing is `RefreshTimer`'s |
| Playback.Movie.VideoDisplay | src/_gmovie.c:369-390 | returns 1 exactly for a ready slot with an overlay. When video is open such a slot is consumed, and then the current pts and frame timing become `RefreshTimer`'s on the slot at the new read index (src/_gmovie.c:472-474). A slot without an overlay only gains one. In every other case nothing changes |
| Playback.Movie.UpdateVideoClock | src/_gmovie.c:638-657 | only the video clock and the frame pts change, as `AvSync.UpdateVideoClock` says |
| Playback.Movie.ComponentClose | src/_gmovie.c:1187-1246 | for an index in range, the queue of the stream's type is aborted and its index set to -1, and nothing else changes; other indices change nothing |
| Playback.Movie.ComponentOpen | src/_gmovie.c:1080-1185 | returns -1 for an index out of range or a codec that does not open, and then changes nothing. Otherwise the index field of the stream's type is set and its queue re-initialised. Audio also resets the filter count and video the frame timing |
| Playback.Movie.StreamCycleChannel | src/_gmovie.c:1659-1710 | the outcome satisfies `NextStream` for the current index. An empty search changes nothing. On a switch, the queue of the type is aborted when a stream was open, and re-initialised when the stream found opens; the other queues are untouched; the fields become `Reopened`'s, so the index of the type is the stream found when it opens and -1 otherwise |
| Playback.Movie.DecoderPass | src/_gmovie.c:1725-1809 | an abort leaves the loop and changes nothing. Otherwise the latch and seek run, then the pass ends at once if a queue is full. At end of file an empty video packet is queued. With room in the ring a read packet is routed, and a read error leaves the loop. The error it leaves set is the IOError of a failed pending seek, and none otherwise |
| Playback.Movie.DecoderPrologue | src/_gmovie.c:1733-1770 | latch as `LatchPause`, request cleared, each queue as `AfterSeek` says, and the error left set as `PassError` says |
| Playback.Movie.DecoderRead | src/_gmovie.c:1771-1809 | the back-pressure, end-of-file and read-and-route cases, each with the video queue it leaves |
| Playback.Movie.DecoderExit | src/_gmovie.c:1839-1840 | the ring indices are zero, the slots are untouched and the video queue is flushed |
| Physics.RowUpToSpec | src/pgWorldObject.c:220-231 | the inner loop for `i` visits exactly the pairs (i, j) with i < j below the bound, in increasing order |
| Physics.RowsBeforeSpec | src/pgWorldObject.c:217-232 | the first `i` rounds of the outer loop visit exactly the pairs with first index below `i`, in lexicographic order |
| Physics.PairsExactlyOnce | src/pgWorldObject.c:217-232 | the collision loop visits every pair i < j of the body list exactly once, in lexicographic order |
| Physics.CandidatesSpec | src/pgWorldObject.c:223-230 | the candidates are exactly the visited pairs that are not both static and whose boxes overlap, in order |
| Physics.NarrowPhasePairs | src/pgWorldObject.c:217-232 | the narrow phase reaches exactly the pairs i < j that are not both static and overlap, each once, in list order |
| Physics.PairCallsFollowCandidates | src/pgWorldObject.c:217-232 | the narrow phase is called once per candidate, in candidate order, on that candidate's bodies |
| Physics.ScanPairs | src/pgWorldObject.c:217-232 | the loop produces the narrow-phase calls and contacts of all pairs |
| Physics.ScanRow | src/pgWorldObject.c:220-231 | one inner loop produces the calls and contacts of its row |
| Physics.JointCallsSpec | src/pgWorldObject.c:277-292 | the joint pass solves exactly the joints that have a solver and makes no other call |
| Physics.CountRound | src/pgWorldObject.c:241-267 | a solver round resets the bias of each body once and runs no other body kernel |
| Physics.CountDetection | src/pgWorldObject.c:194-269 | a detection pass updates each box once and resets each bias MAX_ITERATION times |
| Physics.CountPass | src/pgWorldObject.c:344-346 | one pass of `_Update` adds one position correction per body to its detection counts |
| Physics.CountPasses | src/pgWorldObject.c:341-347 | `c` passes run each body kernel `c` times a pass's share |
| Physics.UpdateKernelCounts | src/pgWorldObject.c:337-350 | an update runs the velocity and position updates once per body, box updates and corrections MAX_ITERATION times, and the bias reset MAX_ITERATION squared times |
| Physics.IndexOf | src/pgWorldObject.c:664 | the position part of `PySequence_Index`: the first position of the element, or -1 exactly when it is absent |
| Physics.SequenceIndex | src/pgWorldObject.c:664 | `PySequence_Index` finds the element exactly when it is present, at its first position; otherwise it gives -1 with the ValueError "sequence.index(x): x not in sequence" set |
| Physics.RemoveFirstSpec | src/pgWorldObject.c:664-670 | removal deletes exactly the first occurrence and keeps the order of the rest; an absent element leaves the list as it was |
| Physics.RemoveKeepsUnique | src/pgWorldObject.c:648-673 | removal keeps a list free of duplicates, and the element is gone |
| Physics.AppendKeepsUnique | src/pgWorldObject.c:634-645 | appending an element not yet in the list keeps it free of duplicates |
| Physics.UpdateStepAsWritten | src/pgWorldObject.c:518-521 | with no argument the step is whatever `dt` held; the default 0.1 is taken only when parsing fails |
| Physics.UpdateDefaultIsUninitialised | src/pgWorldObject.c:518-521 | with no argument, the step used can be negative or differ from 0.1 |
| Physics.UpdateStep | src/pgWorldObject.c:89-90 | the documented default 0.1 for no argument, the number given, or no step for a non-number |
| Physics.PropagateResult | src/pgWorldObject.c:568-570 | a failed C API call makes the method return NULL with the ValueError it set still pending; success returns None |
| Physics.RemovingAbsentRaisesValueError | src/pgWorldObject.c:106-113 | removing an element never added raises the ValueError the docstrings promise, with the message `PySequence_Index` sets |
| Physics.World.constructor | src/pgWorldObject.c:357-366 | empty lists, damping 0, step time 0.1, gravity (0, -10), total time 0 |
| Physics.World.AddBody | src/pgWorldObject.c:618-646 | a body already present is refused with "body already added" and the list kept; otherwise it is appended; the list stays free of duplicates |
| Physics.World.RemoveBody | src/pgWorldObject.c:648-673 | the first occurrence is removed; an absent body fails with the ValueError "sequence.index(x): x not in sequence"; the body is then absent |
| Physics.World.AddJoint | src/pgWorldObject.c:675-703 | as `AddBody`, for joints, with "joint already added" |
| Physics.World.RemoveJoint | src/pgWorldObject.c:705-730 | as `RemoveBody`, for joints |
| Physics.World.PyRemoveBody | src/pgWorldObject.c:556-571 | `W.remove_body` returns None for a body in the world and removes it; an absent body raises ValueError "sequence.index(x): x not in sequence" |
| Physics.World.PyRemoveJoint | src/pgWorldObject.c:595-610 | `W.remove_joint` returns None for a joint in the world and removes it; an absent joint raises ValueError "sequence.index(x): x not in sequence" |
| Physics.World.ForEachBody | src/pgWorldObject.c:175-185 | one kernel call per body, in list order, and no field changes |
| Physics.World.ForEachContact | src/pgWorldObject.c:249-266 | one kernel call per contact, in list order, and no field changes |
| Physics.World.JointSolve | src/pgWorldObject.c:277-292 | the trace grows by `JointCalls` of the joint list |
| Physics.World.CollisionPairs | src/pgWorldObject.c:217-232 | the trace grows by the narrow-phase calls of all pairs, and the contact list by their contacts |
| Physics.World.ClearContacts | src/pgWorldObject.c:202-206 | the contact list is emptied and nothing else changes |
| Physics.World.SolverRound | src/pgWorldObject.c:241-267 | the trace grows by one round: bias reset, impulse reset, contact application, contact solving |
| Physics.World.DetectCollisions | src/pgWorldObject.c:194-269 | the trace grows by a detection pass, and the contact list then holds this pass's contacts only |
| Physics.World.Update | src/pgWorldObject.c:337-350 | the trace grows by the whole update schedule, and the contacts left are those of the last pass |
| Physics.World.RunPasses | src/pgWorldObject.c:341-347 | the trace grows by MAX_ITERATION passes in order |
| Physics.World.UpdatePass | src/pgWorldObject.c:343-346 | the trace grows by one (detect, correct, joint-solve) pass |
| Physics.World.PyUpdate | src/pgWorldObject.c:516-531 | a non-number raises a TypeError and a negative step a ValueError, both before anything runs; otherwise the update runs and None is returned |
| Physics.World.ApiUpdate | src/pgWorldObject.c:732-742 | the C API runs the update whatever the sign of `dt` and returns 1 |

## Left out

- Threads, mutexes and condition variables (the packet-queue lock, `subpq_mutex`, the decoder, video and subtitle threads): each operation is modelled as one atomic step.
- FFmpeg and SDL calls (`av_seek_frame`, `av_malloc`, `avcodec_open`, `av_read_frame`, `url_feof`, `video_open`, `sws_scale`): their effects are not modelled. The outcome the code branches on is a parameter, except for the cases listed in the next three lines.
- Playback.Movie.ComponentOpen: the result of `SDL_OpenAudio` has no parameter. When it fails, the C code sets an SDLError with `SDL_GetError()` and carries on opening the stream (src/_gmovie.c:1131-1133). The model always takes the success path and does not say that an error is left set.
- PictureQueues.EnqueuePicture: the `exit(1)` taken when `sws_getCachedContext` returns NULL (src/_gmovie.c:618-621) is not modelled. The write happens whenever the slot has an overlay. The same holds for PictureQueues.PictureQueue.QueuePicture.
- Playback.Movie.VideoDisplay: when `video_open` cannot make an overlay, it sets an SDLError ("cannot create overlay without pygame.display initialized", "Display mode not set" or "Cannot create overlay", src/_gmovie.c:494, 500, 506). The model reduces this to `openOk` being false, and neither this contract nor those of PictureQueues.PictureQueue.OpenOverlay and PictureQueues.PictureQueue.QueuePicture states the error.
- Floating point: C doubles are reals, so rounding is not modelled. The averaging weight and the drift threshold computed in `stream_component_open` are parameters.
- The extrapolation of the audio, video and external clocks from `av_gettime` (`get_audio_clock`, `get_video_clock`, `get_external_clock`): readings are inputs.
- `movie->timing = actual_delay * 500 + 0.5` at the end of `video_refresh_timer`, and the show-time loop of `decoder` after `video_render` (src/_gmovie.c:1810-1828): wall-clock pacing that the model reduces to `VideoDisplay` and `VideoRefreshTimer`.
- `packet_queue_end`: it frees payloads and does not change the list, so a closed queue is only aborted.
- `stream_open`, `stream_close`, `decode_thread`, `video_render`, `video_thread`, `subtitle_thread`, `audio_decode_frame`, `sdl_audio_callback`, `blend_subrect` and the drawing part of `video_image_display`: not modelled here. What `video_render` does to the picture ring is Findings row 2.
- Playback.Movie.constructor: gives the state that `stream_open` sets before it opens the file. That is the stream indices -1 (src/_gmovie.c:1502-1504), `paused = 1` with `last_paused` 0 (src/_gmovie.c:1496), and every other field zero. The rest of `stream_open` is not reproduced: opening the file, reading the stream info, the start-time seek, choosing and opening the components, and starting the decode thread. The sync type is a parameter rather than the `AV_SYNC_VIDEO_MASTER` that src/_gmovie.c:1497 sets.
- Playback.Movie.SynchronizeAudio: requires a positive channel count. It also requires a buffer with room for `max_size` plus one frame, which the caller's audio buffer provides and the C code does not check. The padding follows the corrected count of Findings row 1; `SynchronizeAudioAsWritten` is the code as written.
- AvSync.SynchronizeAudio: requires a non-zero channel count on every path, while the C code divides by it only when a correction is due.
- AvSync.TruncToInt: the `(int)` conversion of `diff * sample_rate` is not bounded to the 32 bits of a C `int`. A product outside that range is undefined in C, and the model gives it the truncated mathematical value.
- AvSync.WantedSize: `samples_size + (int)(diff * sample_rate) * n` and `nb_samples * (100 +- SAMPLE_CORRECTION_PERCENT_MAX)` are C `int` arithmetic. The model uses unbounded integers, so it does not capture their overflow for very large buffers or drifts. The same holds for AvSync.MinSize, AvSync.MaxSize and AvSync.SynchronizeAudio, which use these sizes.
- PacketQueues.PutQueue: `nb_packets++` and `size += pkt->size` are C `int` counters. The model's counters are unbounded and never wrap.
- Physics.IndexOf: gives only the position. The ValueError that `PySequence_Index` sets on -1 is stated by `Physics.SequenceIndex`, which the removal methods use.
- Streams.FindNextStream: requires the current index to be below the stream count, which holds for the index of an open stream.
- Physics.World.Update: the step time goes to the kernels, whose numerics (velocity, position, contact and joint solving) are in files not part of this model. The model records them as calls in a trace, with the broad-phase test and the narrow phase as the input `Narrow`.
- Physics.World.PyUpdate: the TypeError message "a float is required" is this model's wording for the error `PyArg_ParseTuple` sets.
- Physics.World.ClearContacts: the failure of `PyList_SetSlice`, which makes `_BodyCollisionDetection` return early, is not modelled. Neither are the failures of `PyList_Append` and `PySequence_DelItem`.
- The `PyWorld_Check`, `PyBody_Check` and `PyJoint_Check` type checks, with their TypeError and ValueError messages, and reference counting: the model's argument types rule out a wrong type.
- The gravity and damping getters and setters, the body and joint list getters, `_WorldNew` and `_WorldDestroy`: not modelled here.
- `fTotalTime` is never advanced by `_Update`, and the model does not advance it either.
- MAX_ITERATION: the update methods are proved for the world's `maxIteration` constant, which the constructor sets to `MaxIteration` (5).

## Findings

| source | as written | input that shows it | evidently intended | confidence | as-written member | corrected member |
|---|---|---|---|---|---|---|
| src/_gmovie.c:914 | the padding count is `samples_size - wanted_size`, which is negative whenever the buffer grows, so the loop copies nothing | 8 bytes of samples, wanted size 12, 4-byte frames: 0 bytes copied, 4 bytes returned as whatever the buffer held | `wanted_size - samples_size`, so copies of the last frame fill the growth | not executed | AvSync.PaddingAsWrittenCopiesNothing, Playback.Movie.SynchronizeAudioAsWritten | AvSync.PaddingCoversGrowth, AvSync.PadWithLastFrame, Playback.Movie.SynchronizeAudio |
| src/_gmovie.c:1887 | `video_render` queues every decoded picture with no check that the picture ring has a free slot, and `queue_picture` checks none either | a full ring (size N) and one more video packet waiting in the video queue: the write index equals the read index, so the oldest picture, which was never shown, is overwritten, and the size becomes N + 1 | wait, or skip the write, until the ring has a free slot, as the decoder's read guard at src/_gmovie.c:1787 intends | not executed | PictureQueues.FullRingWriteOverwritesHead | PictureQueues.QueuePictureWhenRoom, PictureQueues.QueuePictureWhenRoomKeepsRing, PictureQueues.PictureQueue.QueueIfRoom |
| src/pgWorldObject.c:520-521 | parsing the optional double succeeds with no argument and leaves `dt` uninitialised; 0.1 is assigned only when parsing fails, with its TypeError still pending | `W.update ()` with `dt` holding -1.0: a ValueError for a negative step; holding 7.0: a step of 7.0 | `double dt = 0.1;` before parsing, and a NULL return when parsing fails | not executed | Physics.UpdateDefaultIsUninitialised | Physics.UpdateStep, Physics.World.PyUpdate |
