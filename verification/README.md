# Desktop recorder: verification of the recording core

A Dafny model of the parts of the desktop recorder that sit between the capture
devices and the codec libraries, and proofs of what they keep.

| file | what it models |
|---|---|
| `Interleaver.dfy` | one recording: whose turn it is, sound or picture, the timestamps the frames get, and the drain |
| `Encoder.dfy` | the objects on the scheduler thread: file writer and encoder, with the drain loop of `do_stop` |
| `Session.dfy` | clients racing through start and stop against the scheduler thread, as a step system |
| `ThreadQueue.dfy`, `Scheduler.dfy` | the locked queue, and the thread loop against other threads |
| `SocketUtils.dfy` | length-prefixed packets: writer, and reader over a buffer shifted in place |
| `YuvTools.dfy` | the two colour conversions, pointer loops against a specification by place |
| `Colours.dfy` | what the conversions do to colours, each way and there and back |
| `ChunkQueue.dfy`, `FlatReader.dfy`, `ByteQueues.dfy` | the two byte queues, and their equivalence |
| `Rechunker.dfy`, `SystemAudio.dfy` | what is built on the byte queue: re-cutting sound into frames, the system-audio pipeline |
| `VideoZip.dfy` | the frame container of the video codec: writer, walking reader, parser |
| `WaitFreeList.dfy` | the doubly linked list, with removal during a walk |
| `Timer.dfy` | the accumulating timer |
| `Arith.dfy`, `Bytes.dfy`, `Wrappers.dfy` | products, byte sequences with the byte-copying loop, optional values |

Code that changes state is a class or a method with the loops of the original; each is
tied to a function on values, and what is promised is proved about that function over
every run. Calls into foreign libraries are parameters: an `Outcome` says how far a
codec call gets, a function from the call's number to its outcome says how all calls
end (any function, so failures can go on for ever), a clock reading or converted bytes
are given.

## Assumptions

- Integers are unbounded, except the 16-bit size of a socket packet, the 32-bit size in
  the frame container and the 8-bit casts of the colour conversion, which are written out.
  Multi-byte numbers have their lowest byte first.
- `av_compare_ts` compares exactly, and the time base of the sound codec is one sample.
- `next_pts` and `samples_count` start at 0: `include/ffmpeg/VideoCreater.hpp:66-67` has
  no initialiser, the older copy at `include/ryulib/VideoCreater.hpp:276` zeroes them.
- The callbacks are those of `include/DesktopRecorder.hpp:21-50`: need-audio takes one
  packet and returns true even if it could not be written; need-video writes a frame on
  every call, the last picture again when there is no new one.
- Each step of a step system is atomic. The steps are cut between accesses to what other
  threads change: `is_started_`, `videoCreater_`, `started_` and the locked queues. The
  exception is `Session.Poll`, which finds the task queue empty and reads `started_` in one
  step: in the encoder only the scheduler thread changes `started_`, so a task added
  between the two is the same as one added after them.

## Where the code does less than one might expect

- A sound frame carries `samples_count`, but turns are decided on `next_pts`
  (`include/ffmpeg/VideoCreater.hpp:248-269`). A failed conversion advances only the
  second. The written timestamps are out of order if and only if some sound turn fails to
  convert, a later turn stamps a picture, and a still later one stamps sound:
  `Interleaver.OrderedExactlyWithoutLateSound`; `Interleaver.OrderCanBreak` is such a run
  with the default clock rates.
- The drain of `do_stop` can hang. `writeBitmap` returns before the picture gets its
  timestamp when a frame cannot be allocated (`include/ffmpeg/VideoCreater.hpp:179-184`),
  so it stays the picture's turn; if no later call succeeds, the loop never ends,
  `is_started_` stays up and every new start is refused, whatever the other threads do
  (`Session.HangHolds`, `Session.StopCanHang`). It ends in all other cases, also with
  endlessly failing sound calls (`Interleaver.DrainEndsExactly`,
  `Session.StopCompletesExactly`), provided the capture stops: endless sound keeps it
  going too (`Session.EndlessSoundHoldsStop`).
- A sound packet is gone from the queue once a turn has taken it. If no frame can be
  allocated for it, or its conversion fails (`include/ffmpeg/VideoCreater.hpp:232-235`,
  `include/ffmpeg/VideoCreater.hpp:254-263`), it never reaches the encoder. All sound
  reaches the encoder if and only if no turn does that: `Interleaver.SoundReachesExactly`,
  `Session.SoundReachesFilesExactly`; `Interleaver.SoundCanBeLost` is a losing run.
- `MemoryBuffer::read(0)` throws away every queued chunk but keeps the size
  (`include/ryulib/MemoryBuffer.hpp:87-94`); `ChunkQueue.MemoryBuffer.Read` states
  exactly when the queue survives.
- `create_packet` cuts the packet size to 16 bits (`include/ryulib/SocketUtils.hpp:43`):
  `SocketUtils.SizeFieldFits`.
- `Scheduler::stop` is no barrier: the repeat handler can still run after it
  (`include/ryulib/Scheduler.hpp:63-65`, `include/ryulib/Scheduler.hpp:123-124`):
  `Scheduler.StopIsNoBarrier`, `Scheduler.RepeatsWhileStarted`.
- The timer counts whole microseconds and drops the rest of every reading
  (`include/ryulib/Timer.hpp:19`): `Timer.CutMicros`.
- Gray levels up to 16, and from 235, come back from the colour round trip the same:
  `YuvTools.GrayOrder`.

## Model

| member | source | states |
|---|---|---|
| Interleaver.TurnMeaning | include/ffmpeg/VideoCreater.hpp:311-318 | the turn test is the exact comparison v·rate ≤ a·fps |
| Interleaver.TurnIsEarlierTime | include/ffmpeg/VideoCreater.hpp:311-318 | it is the picture's turn exactly when its time in seconds is not later than the sound's |
| Interleaver.StampsBelowClocks | include/ffmpeg/VideoCreater.hpp:206-269 | every timestamp given out is at least one frame below the counter it came from |
| Interleaver.NewestIsThere | include/ffmpeg/VideoCreater.hpp:206-269 | the newest picture and the newest sound frame are among the written frames |
| Interleaver.VideoKeepsDrift | include/ffmpeg/VideoCreater.hpp:177-226 | a picture in its turn keeps −nb·fps < v·rate − a·fps ≤ rate |
| Interleaver.VideoKeepsOrder | include/ffmpeg/VideoCreater.hpp:177-226 | a picture in its turn never breaks the order; it is not later than the next sound timestamp exactly when `samples_count` equals `next_pts` |
| Interleaver.SoundIsBehindPicture | include/ffmpeg/VideoCreater.hpp:228-289 | the last sound frame is earlier than the picture whose turn it is; lagging sound timestamps are too |
| Interleaver.AudioKeepsDrift | include/ffmpeg/VideoCreater.hpp:228-289 | a sound frame in its turn keeps the two-sided drift bound |
| Interleaver.SoundOrderGuard | include/ffmpeg/VideoCreater.hpp:248-269 | before one sound write, on the counters: the frames stay in order if and only if they were, and the newest picture is not later than `samples_count` |
| Interleaver.AudioKeepsCounts | include/ffmpeg/VideoCreater.hpp:228-289 | each of the four ways a sound write can end keeps counters and written frames consistent |
| Interleaver.TurnKeepsInv | include/VideoEncoder.hpp:177-192 | one turn keeps drift bound, counters and order state, however its codec call ends |
| Interleaver.RecordKeepsInv | include/VideoEncoder.hpp:177-192 | so does every recording: packets arriving and turns taken in any order |
| Interleaver.TurnShowsOrder | include/VideoEncoder.hpp:177-192 | one turn: failed conversions, pictures after them and sound after those say exactly whether counters agree and frames are in order |
| Interleaver.EventAt | include/VideoEncoder.hpp:177-192 | the event of step i is that of its outcome in the state after the steps before it |
| Interleaver.PacketsInOrder | include/VideoEncoder.hpp:177-192 | packets taken from the queue so far followed by those still queued are the packets that arrived |
| Interleaver.TurnShowsSound | include/ffmpeg/VideoCreater.hpp:228-289 | one turn: a packet taken is handed to the encoder, or is one more lost |
| Interleaver.SoundReachesExactly | include/ffmpeg/VideoCreater.hpp:228-289 | over every run, the packets handed to the encoder are those taken, in order, without one for each sound turn that ends before the encoder; all of them if and only if there is no such turn |
| Interleaver.SoundCanBeLost | include/ffmpeg/VideoCreater.hpp:232-235 | a finished recording of one packet that is not in it |
| Interleaver.PictureCatchesUp | include/VideoEncoder.hpp:148-163 | a stamped picture strictly reduces how far the pictures are behind, the middle part of the drain's measure |
| Interleaver.DrainReachesEnd | include/VideoEncoder.hpp:148-163 | the drain ends by the measure (packets, pictures behind, calls until the next that encodes) when it does not hang |
| Interleaver.DrainEndsExactly | include/VideoEncoder.hpp:148-163 | over every infinite stream of codec outcomes: the drain ends if and only if there is no point where a picture is due and no later call encodes |
| Interleaver.DrainCanHang | include/ffmpeg/VideoCreater.hpp:179-184 | the stream that never allocates a picture hangs the drain of a new recording |
| Interleaver.PicturesCoverSound | include/VideoEncoder.hpp:148-163 | within the drift bound, when it is no longer the picture's turn there are exactly floor(a·fps/rate)+1 pictures |
| Interleaver.TurnsKeepInv | include/VideoEncoder.hpp:148-163 | any number of turns, with any outcomes, takes packets once and in order, only appends frames and keeps the invariant |
| Interleaver.DrainCompletes | include/VideoEncoder.hpp:148-163 | whenever the drain has ended, from any reachable state, all sound is taken and there are floor(a·fps/rate)+1 pictures |
| Interleaver.DrainWritesAll | include/VideoEncoder.hpp:148-163 | a drain that has ended handed every queued packet to the encoder, once and in order, if and only if none of its sound turns ended before the encoder; pictures may fail |
| Interleaver.EncodingDrainEnds | include/VideoEncoder.hpp:148-163 | when every call gets as far as the encoder, the drain ends and loses nothing |
| Interleaver.DrainIsRecording | include/VideoEncoder.hpp:148-192 | draining a recording is the same as recording on, so all statements about recordings hold of drained ones |
| Interleaver.DrainFinishes | include/VideoEncoder.hpp:148-192 | every recording can be finished by draining it if and only if that does not hang |
| Interleaver.MergeIsUnique | include/ffmpeg/VideoCreater.hpp:311-318 | there is one sorted order of given numbers of pictures and sound frames, pictures first at equal times |
| Interleaver.OrderedExactlyWithoutLateSound | include/ffmpeg/VideoCreater.hpp:248-269 | over every run, the frames are that merge if and only if there are no three steps in this order: a sound turn whose conversion fails, a turn that stamps a picture, a turn that stamps sound |
| Interleaver.OrderedWhenSoundConverts | include/ffmpeg/VideoCreater.hpp:259-269 | if no conversion fails, the frames are the merge and both sound counters agree, whatever else fails |
| Interleaver.OrderCanBreak | include/ffmpeg/VideoCreater.hpp:248-269 | at 24 pictures, 44100 samples and 1024 a packet: a run with one failed conversion that writes sound 1024 after picture 1 |
| Interleaver.FinalOrderDependsOnSoundOnly | include/VideoEncoder.hpp:148-192 | two finished recordings without late sound and with the same amount of sound have the same frames, whenever stop came and whichever turns stalled |
| Interleaver.FinishedRecording | include/VideoEncoder.hpp:148-192 | a finished recording has all n packets, in order, if and only if no sound turn lost one, whichever picture turns failed; then it has floor(n·nb·fps/rate)+1 pictures and is sorted |
| Encoder.VideoCreater.WriteBitmap | include/ffmpeg/VideoCreater.hpp:177-226 | whole new state of a picture write in each of its four endings, and the result |
| Encoder.VideoCreater.DoWriteAudioPacket | include/ffmpeg/VideoCreater.hpp:228-289 | whole new state of a sound write: which of the two counters move in each ending, and the result |
| Encoder.ReportsAre | include/VideoEncoder.hpp:100-119 | over any calls, one report of −11 for each that does not succeed, and no other |
| Encoder.VideoEncoder.WriteBitmap | include/VideoEncoder.hpp:100-109 | without a bitmap nothing is written and no clock moves; with one, one picture, and an error report exactly when that fails |
| Encoder.VideoEncoder.WriteAudioPacket | include/VideoEncoder.hpp:111-119 | one sound write, and an error report exactly when it fails |
| Encoder.VideoEncoder.NeedAudio | include/VideoEncoder.hpp:111-119 | the callback: false exactly when no sound is queued; otherwise one packet leaves the queue, failed or not |
| Encoder.VideoEncoder.DoStart | include/VideoEncoder.hpp:137-146 | the given encoder becomes the live one and the scheduler runs; nothing else changes |
| Encoder.VideoEncoder.NeedVideo | include/VideoEncoder.hpp:100-109 | the callback: writes a picture on every call, and answers whether there was a new one |
| Encoder.VideoEncoder.DoRepeat | include/VideoEncoder.hpp:177-192 | is exactly one turn, uses one codec call and reports its failure; it asks for a pause exactly when there is no sound on a sound turn, or no new picture on a picture turn; nothing without an encoder or callbacks |
| Encoder.VideoEncoder.DrainTurn | include/VideoEncoder.hpp:157-162 | the loop body is one turn, and false exactly at the end |
| Encoder.VideoEncoder.DrainSound | include/VideoEncoder.hpp:153-163 | the loop ends unless it hangs on a picture, at the end of the drain on values, with all failures reported |
| Encoder.VideoEncoder.DoStop | include/VideoEncoder.hpp:148-175 | the drain, then flag down, encoder and bitmap gone and one completion; all queued sound is taken, and handed on exactly when no sound turn lost any; there are floor(a·fps/rate)+1 pictures, sorted if the two sound counters agree |
| Session.ClientKeepsControl | include/VideoEncoder.hpp:58-80 | every client step of start and stop, at any point of the scheduler, keeps the session invariants |
| Session.ScheduleKeepsControl | include/VideoEncoder.hpp:25-42 | so does every scheduler step, in the error path and between lowering the flag and dropping the encoder too |
| Session.ControlHolds | include/VideoEncoder.hpp:25-80 | in every interleaving: clients opening + STARTs queued or running + live encoder not released = 1 if `is_started_`, else 0; created = deleted + owned encoders; starts = completions + errors + live session; no encoder is overwritten |
| Session.StartFindsNoEncoder | include/VideoEncoder.hpp:137-146 | do_start always finds `videoCreater_` null, and nobody else holding the flag |
| Session.SchedulingHolds | include/VideoEncoder.hpp:137-175 | in every reachable state: a live encoder whose stop is not being run has the scheduler started, and a drain has it stopped |
| Session.LiveTakesTurns | include/VideoEncoder.hpp:177-192 | in every reachable state with a live session and no task, the next round of the scheduler thread is exactly one turn on the recording and changes nothing else |
| Session.TasksRunInOrder | include/VideoEncoder.hpp:44-48 | in every interleaving, the tasks run so far, then the one in hand and those queued, are the tasks pushed, in order |
| Session.CapturedExactly | include/VideoEncoder.hpp:111-119 | the arrived packets are those of the arrival steps, in order |
| Session.StartSucceeds | include/VideoEncoder.hpp:58-75 | a start with the flag down queues one START with a new encoder, raises the flag and changes nothing else |
| Session.StartFails | include/VideoEncoder.hpp:58-75 | one whose encoder does not open leaves the flag down and everything as it was, but for an encoder made and deleted |
| Session.StartIsRefused | include/VideoEncoder.hpp:58-61 | one with the flag up changes nothing |
| Session.StartRuns | include/VideoEncoder.hpp:137-146 | running a START: a new recording, begun with the queued sound, and the scheduler started |
| Session.StopRuns | include/VideoEncoder.hpp:148-175 | running a STOP with nothing to drain: one completed session, flag down, encoder deleted, scheduler stopped |
| Session.StopRunsIdle | include/VideoEncoder.hpp:148-151 | running a STOP without a session only stops the scheduler |
| Session.ErrorRuns | include/VideoEncoder.hpp:27-41 | a turn that throws: one failed session, flag down, encoder deleted, one error |
| Session.StartRunsAmong | include/VideoEncoder.hpp:137-146 | START runs the same with any steps of the other threads in between |
| Session.StopRunsAmong | include/VideoEncoder.hpp:148-151 | so does STOP |
| Session.TurnRunsAmong | include/VideoEncoder.hpp:177-192 | so does a turn, on the sound queued when it runs |
| Session.ReleaseCompletes | include/VideoEncoder.hpp:165-174 | once the flag is down, the session ends and completes whatever the other threads do, a new start included |
| Session.ErrorCompletes | include/VideoEncoder.hpp:30-36 | the same in the error path |
| Session.RecordingsHold | include/VideoEncoder.hpp:137-192 | in every interleaving: every session is a recording by the interleaver, completed ones are finished, and the captured packets are those the sessions took, one session after another, and those queued |
| Session.SoundReachesFilesExactly | include/VideoEncoder.hpp:137-192 | in every interleaving: the captured packets are those handed to the encoders, session by session, and those queued, if and only if no sound turn of any session ended before the encoder |
| Session.CompletedFile | include/VideoEncoder.hpp:148-175 | a completed recording of any run has floor(a·fps/rate)+1 pictures, is sorted if and only if no sound came late, and has all sound its session took if and only if no turn lost any |
| Session.TurnOfKeepsSound | include/VideoEncoder.hpp:177-192 | a turn inside a session moves sound from the queue to the session and loses none |
| Session.DrainStepsAreTurns | include/VideoEncoder.hpp:148-163 | until it leaves the loop, the scheduler's drain takes the turns of the drain on values |
| Session.WhileDraining | include/VideoEncoder.hpp:58-80 | one step of any thread during the drain: clients change nothing of it and cannot start, a packet is queued, a drain turn is a turn or leaves at the end |
| Session.HangHolds | include/VideoEncoder.hpp:148-175 | from any reachable drain with a picture due, over every continuation of all threads in which no drain turn encodes: still draining, same recording, flag up, no start got through |
| Session.DrainLeaves | include/VideoEncoder.hpp:148-163 | the drain is left by the measure (steps until the capture stops, packets, pictures behind, steps until the next turn that advances) |
| Session.StopCompletesExactly | include/VideoEncoder.hpp:148-175 | under every fair endless schedule of clients, capture and scheduler in which the capture stops, from any reachable drain: stop gets through if and only if the drain does not come to a picture that no later turn encodes |
| Session.EndlessSoundHoldsStop | include/VideoEncoder.hpp:148-163 | with a packet before every drain turn no drain is ever left, even if every call succeeds |
| Session.StopCanHang | include/VideoEncoder.hpp:148-175 | for any number of clients, a run after which stop never gets through and every start is refused, over every continuation in which no picture is encoded |
| Session.CompletedFilesAgree | include/VideoEncoder.hpp:148-192 | completed recordings of any two runs with the same amount of sound and none late have the same frames |
| ThreadQueue.ThreadQueue.Push | include/ryulib/ThreadQueue.hpp:14-18 | appends one item |
| ThreadQueue.ThreadQueue.Pop | include/ryulib/ThreadQueue.hpp:20-30 | takes the oldest item, or nothing if there is none |
| ThreadQueue.ThreadQueue.Front | include/ryulib/ThreadQueue.hpp:44-49 | gives the oldest item without taking it |
| Scheduler.StepKeepsInv | include/ryulib/Scheduler.hpp:111-131 | every step of the loop and of other threads keeps: handed, in hand and queued tasks are the added ones in order; repeats follow both checks |
| Scheduler.TasksInOrder | include/ryulib/Scheduler.hpp:67-89 | over every run, tasks handed out are a prefix of the add order, each once; each repeat directly follows seeing the queue empty and then `started_` |
| Scheduler.AddedExactly | include/ryulib/Scheduler.hpp:67-89 | the added tasks are those of the adding steps, in order |
| Scheduler.StartedExactly | include/ryulib/Scheduler.hpp:59-65 | over every run: `started_` is up if and only if some start has no stop after it, whichever thread they come from and wherever the loop is |
| Scheduler.RepeatStartsExactly | include/ryulib/Scheduler.hpp:123-124 | the repeat handler starts exactly when the thread, after seeing the queue empty, looks while some start has no stop after it |
| Scheduler.EndsExactly | include/ryulib/Scheduler.hpp:112 | the loop ends exactly when the thread is at its top after some terminate |
| Scheduler.EndIsFinal | include/ryulib/Scheduler.hpp:112-130 | after the end nothing is handed out or repeated |
| Scheduler.OneRound | include/ryulib/Scheduler.hpp:112-128 | one round of the loop, from any state: all queued tasks in order, then the queue seen empty, then one repeat if started |
| Scheduler.RepeatsWhileStarted | include/ryulib/Scheduler.hpp:123-124 | the repeat handler runs only while started if and only if no stop comes between check and end of the handler |
| Scheduler.StopIsNoBarrier | include/ryulib/Scheduler.hpp:63-65 | a run in which the handler runs after stop |
| Scheduler.Scheduler.Add | include/ryulib/Scheduler.hpp:67-89 | refines the adding step on the shared queue |
| Scheduler.Scheduler.Start | include/ryulib/Scheduler.hpp:59-61 | raises `started_` wherever the thread is |
| Scheduler.Scheduler.Stop | include/ryulib/Scheduler.hpp:63-65 | lowers `started_` wherever the thread is, inside a task handler too |
| Scheduler.Scheduler.Advance | include/ryulib/Scheduler.hpp:111-131 | refines each step of the thread on the shared queue |
| SocketUtils.CreatePacket | include/ryulib/SocketUtils.hpp:37-47 | a fresh packet with wrapped size, type and payload |
| SocketUtils.SizeFieldFits | include/ryulib/SocketUtils.hpp:18-47 | the size field is the packet's length if and only if the payload has at most 65532 bytes; type and payload always read back |
| SocketUtils.PacketReader.Clear | include/ryulib/SocketUtils.hpp:75-78 | forgets all bytes |
| SocketUtils.PacketReader.Write | include/ryulib/SocketUtils.hpp:80-88 | appends the bytes; a size not above 0 changes nothing |
| SocketUtils.PacketReader.CanRead | include/ryulib/SocketUtils.hpp:107-114 | true exactly when the unread bytes start with a complete packet |
| SocketUtils.PacketReader.Read | include/ryulib/SocketUtils.hpp:90-105 | returns exactly the first packet and leaves exactly the bytes after it, or changes nothing; says exactly when a packet would be copied past the end of `data_` |
| SocketUtils.NothingLost | include/ryulib/SocketUtils.hpp:80-105 | under any schedule of writes and reads, packets read plus the buffer are the bytes written |
| SocketUtils.NextPacket | include/ryulib/SocketUtils.hpp:90-114 | a buffer holding the beginning of well-formed packets gives the first one as soon as it is complete, and before that is a proper prefix of it |
| SocketUtils.PacketsReassembled | include/ryulib/SocketUtils.hpp:61-121 | however the stream is cut, the packets read are the first packets sent, in order |
| SocketUtils.DrainedLeftover | include/ryulib/SocketUtils.hpp:90-114 | a drained reader holds a proper prefix of the next packet, nothing if there is none |
| SocketUtils.BufferSuffices | include/ryulib/SocketUtils.hpp:65-88 | drained before each write of at most PACKET_LIMIT+1 bytes, the buffer never holds more than 2·PACKET_LIMIT and no packet exceeds `data_` |
| SocketUtils.BoundIsTight | include/ryulib/SocketUtils.hpp:65-88 | one byte more in a write overflows the buffer of a drained reader |
| SocketUtils.MessagesReassembled | include/ryulib/SocketUtils.hpp:37-114 | messages packed, sent, fragmented, reassembled and unpacked are the messages sent, in order |
| SocketUtils.Receive | include/ryulib/SocketUtils.hpp:61-121 | the reader under any schedule that drains it before writes of at most PACKET_LIMIT+1 bytes: no array overflows, and packets and buffer are those of the schedule on values |
| SocketUtils.Drain | include/ryulib/SocketUtils.hpp:90-114 | each read strictly shrinks the buffer, so draining ends; it returns the complete packets and leaves a proper prefix of the next |
| SocketUtils.ReceiveFragments | include/ryulib/SocketUtils.hpp:61-121 | fragments of at most PACKET_LIMIT+1 bytes, drained after each: exactly the packets that have arrived completely, in order, and no array overflows |
| YuvTools.NoCastWraps | include/ryulib/yuv_tools.hpp:5-11 | for every pixel, the three bytes are the floors of the three weighted sums of its channels: no cast wraps |
| YuvTools.RgbToYuv | include/ryulib/yuv_tools.hpp:8-11 | one macro expansion sets three bytes to the pixel's values, in bounds |
| YuvTools.ConvertPair | include/ryulib/yuv_tools.hpp:211-220 | one round of the inner loop sets two lumas, and the second pixel's chroma over the first's |
| YuvTools.ConvertRow | include/ryulib/yuv_tools.hpp:210-221 | the inner loop writes one luma stretch and two chroma stretches taken from every second pixel, and nothing else |
| YuvTools.ConvertRowAt | include/ryulib/yuv_tools.hpp:205-222 | a row extends the finished part of the planes; only odd rows finish chroma cells |
| YuvTools.RGBtoYUV420 | include/ryulib/yuv_tools.hpp:181-223 | every even frame becomes exactly its planar form, the bytes after it stay |
| YuvTools.PlanarLength | include/ryulib/yuv_tools.hpp:197-202 | the planar form has w·h·3/2 bytes |
| YuvTools.PlanarAt | include/ryulib/yuv_tools.hpp:205-222 | by place: byte y·w+x is the luma of pixel (x, y); bytes w·h+(y/2)·(w/2)+x/2 and w·h/4 further are the chroma of the lower right pixel of its 2×2 block |
| YuvTools.PutPixel | include/ryulib/yuv_tools.hpp:261-263 | sets blue, green and red of one pixel and keeps the fourth byte |
| YuvTools.Colour | include/ryulib/yuv_tools.hpp:258-260 | the bytes under the walking pointers are those of the pixel's luma and its block's chroma |
| YuvTools.DrawBlock | include/ryulib/yuv_tools.hpp:257-284 | one round draws the four pixels of a 2×2 block |
| YuvTools.DrawRows | include/ryulib/yuv_tools.hpp:256-292 | the inner loop draws two rows and leaves every pointer just behind them |
| YuvTools.DrawFrame | include/ryulib/yuv_tools.hpp:254-299 | the outer loop draws all pixels, in bounds for any source strides |
| YuvTools.I420ToARGB | include/ryulib/yuv_tools.hpp:235-301 | false and no change if a pointer is null; otherwise the whole frame is drawn, for any start and stride of each plane, and every fourth byte and all bytes behind it stay |
| YuvTools.DrawnAt | include/ryulib/yuv_tools.hpp:256-292 | by place: bytes 4·(y·w+x) on hold blue, green, red from Y[y][x], U[y/2][x/2], V[y/2][x/2] and the old fourth byte, for any source strides |
| YuvTools.GrayRoundTrip | include/ryulib/yuv_tools.hpp:181-301 | there and back, pixel y·w+x of an even gray frame is gray with level Clip((298·(g−16)+128)>>8) |
| YuvTools.GrayOrder | include/ryulib/yuv_tools.hpp:13-17 | brightness order is kept; two levels become equal if and only if both are ≤ 16 or both ≥ 235 |
| YuvTools.FrameOrderKept | include/ryulib/yuv_tools.hpp:181-301 | the same between any two pixels of a frame |
| YuvTools.GrayThereAndBack | include/ryulib/yuv_tools.hpp:181-301 | both loops one after the other on a gray frame: the three colour bytes of every pixel are the level that comes back |
| Colours.RedStep | include/ryulib/yuv_tools.hpp:5-11 | 100 more red is exactly 30 more luma, 17 less U and 50 more V |
| Colours.GreenStep | include/ryulib/yuv_tools.hpp:5-11 | 100 more green is exactly 59 more luma, 33 less U and 42 less V |
| Colours.BlueStep | include/ryulib/yuv_tools.hpp:5-11 | 100 more blue is exactly 11 more luma, 50 more U and 8 less V |
| Colours.PlanarRedStep | include/ryulib/yuv_tools.hpp:205-222 | the same by place between two frames: luma at the pixel, chroma at the corner of the block |
| Colours.PlanarGreenStep | include/ryulib/yuv_tools.hpp:205-222 | the same for green |
| Colours.PlanarBlueStep | include/ryulib/yuv_tools.hpp:205-222 | the same for blue |
| Colours.DecodeWithoutChroma | include/ryulib/yuv_tools.hpp:258-263 | red with V at 128, blue with U at 128 and green with both are the gray level of the luma |
| Colours.DecodeMonotone | include/ryulib/yuv_tools.hpp:258-263 | red does not depend on U and blue not on V; red grows with luma and V, blue with luma and U, green with luma and against both |
| Colours.RedSteps | include/ryulib/yuv_tools.hpp:13-16 | 11 more luma and 2 more V are exactly 16 more red, up to the clip |
| Colours.BlueSteps | include/ryulib/yuv_tools.hpp:13-15 | 6 more luma and 1 more U are exactly 9 more blue, up to the clip |
| Colours.GreenSteps | include/ryulib/yuv_tools.hpp:13-17 | 22 more luma and 1 less U are exactly 26 more green, 16 more luma and 2 more V exactly 17 more, up to the clip |
| Colours.RedStaysRed | include/ryulib/yuv_tools.hpp:5-17 | there and back, a colour with at least 3 more red than blue has no more blue than red, and the other way round |
| Colours.FrameBack | include/ryulib/yuv_tools.hpp:181-301 | there and back, pixel k of any even frame has its own luma and the chroma of its block's corner pixel |
| Colours.ThereAndBack | include/ryulib/yuv_tools.hpp:181-301 | both loops one after the other on any even frame, on the bytes of every pixel |
| Colours.BlockCameBack | include/ryulib/yuv_tools.hpp:181-301 | on the bytes of a block of one colour: that colour there and back, with red and blue not exchanged |
| ChunkQueue.Buffer.Read | include/ryulib/MemoryBuffer.hpp:34-46 | copies as many unread bytes as asked for and there are, and advances by those |
| ChunkQueue.MemoryBuffer.Clear | include/ryulib/MemoryBuffer.hpp:61-69 | forgets all bytes |
| ChunkQueue.MemoryBuffer.Write | include/ryulib/MemoryBuffer.hpp:71-75 | appends the bytes in a chunk of their own |
| ChunkQueue.MemoryBuffer.Round | include/ryulib/MemoryBuffer.hpp:88-97 | one round moves bytes from the front chunk or drops it when nothing came |
| ChunkQueue.MemoryBuffer.Collect | include/ryulib/MemoryBuffer.hpp:87-100 | the loop ends and fills the result with the next bytes across chunks |
| ChunkQueue.MemoryBuffer.Read | include/ryulib/MemoryBuffer.hpp:77-103 | null without change exactly when too few bytes; else exactly the next bytes; the other bytes stay if and only if the read is positive or nothing was queued |
| FlatReader.PacketReader.Write | include/ryulib/PacketReader.hpp:24-29 | appends the bytes |
| FlatReader.PacketReader.Read | include/ryulib/PacketReader.hpp:31-44 | exactly the next bytes and the rest shifted left, or no change |
| ByteQueues.Perform | include/ryulib/MemoryBuffer.hpp:71-103 | one operation on both queues: equal answers, equal unread bytes |
| ByteQueues.RunBoth | include/ryulib/PacketReader.hpp:24-49 | on every sequence of writes and positive reads that fits, chunk queue and flat array answer alike, as one byte sequence |
| Rechunker.HandOnConserves | include/ffmpeg/VideoCreater.hpp:291-309 | frames handed on plus the remainder are the bytes, also when the writer fails; frames have the frame size, the remainder is shorter on success |
| Rechunker.HandOnIsChop | include/ffmpeg/VideoCreater.hpp:291-309 | the frames handed on are the first full frames; all of them, and the call answers yes, if and only if the writer succeeds on each |
| Rechunker.StampAllTakes | include/ffmpeg/VideoCreater.hpp:300-303 | every frame handed on is taken by the file writer, in order |
| Rechunker.ChopAppend | include/ffmpeg/VideoCreater.hpp:291-309 | bytes arriving later do not change frames already cut |
| Rechunker.FeedConserves | include/ffmpeg/VideoCreater.hpp:291-309 | over a series of calls, whatever the writer answers: frames handed on plus the remainder are all bytes, and every frame has the frame size |
| Rechunker.FeedIsChop | include/ffmpeg/VideoCreater.hpp:291-309 | while the writer succeeds, a series of calls hands on the frames of all bytes at once |
| Rechunker.FragmentationDoesNotMatter | include/ffmpeg/VideoCreater.hpp:291-309 | while the writer succeeds, the same bytes in different calls give the same frames and remainder |
| Rechunker.AudioWriter.WriteFrame | include/ffmpeg/VideoCreater.hpp:297-303 | one round hands exactly one full frame to the sound write, or nothing if there is none |
| Rechunker.AudioWriter.WriteAudioPacket | include/ffmpeg/VideoCreater.hpp:291-309 | the loop ends; the frames of the cutting on values, up to the first failure, are written with their timestamps and the rest stays buffered |
| Rechunker.WriteAll | include/ffmpeg/VideoCreater.hpp:291-309 | a series of calls on the object does what the series on values says |
| SystemAudio.StageKeeps | include/SystemAudioCaptrue.hpp:36-43 | one write and at most one read keep: outputs plus queue are the inputs, fixed sizes, queue below one block if inputs are |
| SystemAudio.AcceptKeeps | include/SystemAudioCaptrue.hpp:28-45 | both stages together, with any result of the conversion |
| SystemAudio.StepKeepsQueues | include/SystemAudioCaptrue.hpp:17-45 | capture, worker and consumer steps, cut between their queue accesses, keep both packet queues in order |
| SystemAudio.KeptExactly | include/SystemAudioCaptrue.hpp:17-22 | over every run: the packets kept, and one checked and not yet pushed, are exactly the offers to a free callback that are not null and find at most two output packets waiting, in order |
| SystemAudio.NothingDroppedExactly | include/SystemAudioCaptrue.hpp:18-19 | no offer is dropped if and only if no check finds more than two packets waiting |
| SystemAudio.CutOneExactly | include/SystemAudioCaptrue.hpp:36-43 | one write and one read give the oldest n bytes as soon as there are n, and keep the rest |
| SystemAudio.WorkTakes | include/SystemAudioCaptrue.hpp:30-43 | the worker's step: when a block is cut, when its conversion is taken, and when a packet is put out |
| SystemAudio.PipelineKeepsBytes | include/SystemAudioCaptrue.hpp:17-45 | in every interleaving both stages keep that, and no accepted packet is lost between the queues |
| SystemAudio.FetchedIsPrefix | include/SystemAudioCaptrue.hpp:73-79 | the consumer gets fixed-size packets that are a prefix of the converted bytes, at most one for each accepted packet |
| SystemAudio.AudioResampling.Execute | include/ffmpeg/AudioResampling.hpp:125-147 | nothing when closed or failing, else one write and at most one fixed-size read |
| SystemAudio.SystemAudioCaptrue.OnCapture | include/SystemAudioCaptrue.hpp:17-22 | queues the packet unless it is null or more than two output packets wait; refines the two capture steps |
| SystemAudio.SystemAudioCaptrue.Process | include/SystemAudioCaptrue.hpp:36-43 | one packet through both byte queues |
| SystemAudio.SystemAudioCaptrue.TakeOne | include/SystemAudioCaptrue.hpp:30-34 | refines the worker's pop |
| SystemAudio.SystemAudioCaptrue.Deliver | include/SystemAudioCaptrue.hpp:36-43 | refines the worker's work and push |
| SystemAudio.SystemAudioCaptrue.WorkOnce | include/SystemAudioCaptrue.hpp:28-45 | one round of the worker is both |
| SystemAudio.SystemAudioCaptrue.GetAudioData | include/SystemAudioCaptrue.hpp:73-79 | refines the consumer step |
| WaitFreeList.WaitFreeList.Add | include/ryulib/WaitFreeList.hpp:34-46 | links a fresh node in as the newest; the others stay, links stay mutually inverse |
| WaitFreeList.WaitFreeList.Remove | include/ryulib/WaitFreeList.hpp:48-66 | takes exactly that node out; links of the others stay mutually inverse, its own stay |
| WaitFreeList.WaitFreeList.Visit | include/ryulib/WaitFreeList.hpp:68-76 | the walk goes on to the next older node whether or not the visited one is removed |
| WaitFreeList.WaitFreeList.Sweep | include/ryulib/WaitFreeList.hpp:48-76 | a walk that removes any of the nodes it visits ends, visits every node once, newest first, and leaves exactly the others in order |
| WaitFreeList.VisitedAt | include/ryulib/WaitFreeList.hpp:68-76 | the k-th node visited is the k-th newest |
| WaitFreeList.LeftExactly | include/ryulib/WaitFreeList.hpp:48-66 | what is left are exactly the nodes not removed, in their order |
| VideoZip.SizeSurvives | include/ryulib/VideoZip.hpp:104-105 | a frame size written as an int reads back the same if and only if it is below 2³¹ |
| VideoZip.ParseContainer | include/ryulib/VideoUnZip.hpp:80-89 | the container of any frames is read back as the same frames in the same order |
| VideoZip.ParsedIsContainer | include/ryulib/VideoUnZip.hpp:80-89 | whatever parses to the last byte is the container of what was parsed |
| VideoZip.ParseIsInverse | include/ryulib/VideoUnZip.hpp:80-89 | parsing to given frames and being their container are the same |
| VideoZip.FittingIsCountable | include/ryulib/VideoZip.hpp:104-111 | frames that fit the buffer all have a size an int can count |
| VideoZip.FramesOfBoth | include/ryulib/VideoZip.hpp:99-116 | every frame packet of the codec counts once and in order, other packets not |
| VideoZip.VideoZip.Append | include/ryulib/VideoZip.hpp:104-111 | adds size and bytes of one frame, the bytes before stay |
| VideoZip.VideoZip.Encode | include/ryulib/VideoZip.hpp:89-118 | the buffer holds the container of the frame packets in order, which parses back to them; a refused picture changes nothing |
| VideoZip.NextFrame | include/ryulib/VideoUnZip.hpp:81-89 | one round gives the first frame left, or says that it reaches outside the bytes |
| VideoZip.WalkOfContainer | include/ryulib/VideoUnZip.hpp:80-105 | a container is walked frame by frame up to its end or the first frame the codec refuses |
| VideoZip.WalkInsideExactly | include/ryulib/VideoUnZip.hpp:80-105 | for a codec that accepts everything, the walk stays inside the bytes if and only if they are a container, and gives its frames |
| VideoZip.Decode | include/ryulib/VideoUnZip.hpp:72-105 | the loop refines the walk on any bytes, and lands exactly on the size when it runs through |
| Timer.Timer.Start | include/ryulib/Timer.hpp:51-57 | new interval, empty count, clock read |
| Timer.Timer.Repeat | include/ryulib/Timer.hpp:16-30 | refines one tick on values |
| Timer.OneReading | include/ryulib/Timer.hpp:17-27 | one reading fires once at most, however far the clock moved: exactly when the time counted exceeds the interval, which is then taken off |
| Timer.TimeConserved | include/ryulib/Timer.hpp:16-30 | count + interval·fires is the sum of counted advances, for any readings |
| Timer.CountStaysBelow | include/ryulib/Timer.hpp:16-30 | if no advance exceeds the interval, the count stays in (0, interval] once time has passed |
| Timer.FiresOnTime | include/ryulib/Timer.hpp:16-30 | then fires·interval < elapsed ≤ (fires+1)·interval |
| Timer.CutMicros | include/ryulib/Timer.hpp:18-20 | the count is behind the clock by less than a microsecond a reading, and not at all if and only if every forward move is whole microseconds |

## Left out

- FFmpeg, libvpx, swscale, swresample, WASAPI, PortAudio, SDL, sockets, epoll, pipes, files and windows: foreign code or plumbing; what a call returns is a parameter.
- `terminate`, `terminateNow`, `terminateAndWait` of the encoder and the destructors: they run `do_stop` beside or after the scheduler thread; the model starts from a running system.
- Memory ordering of plain flags shared between threads, freeing of memory, failing allocation of buffers, and long-run overflow of counters.
- Overlapping `memcpy`: modelled as an ascending byte loop.
- Picture contents, packet contents and the bitmap buffer of the encoder: the order and timestamps of frames are modelled, not what is in a picture.
- `check_idle_count` and the keep-alive of `DesktopRecorder`, pause and resume, `MediaBuffer`, `VideoQueue`, `AudioCapture`: they decide what is captured, not how it is interleaved.
- Encoder.VideoEncoder.DrainSound: a drain that hangs is outside its contract, because a method must end; `Interleaver.DrainEndsExactly` says exactly which drains those are. No packet arrives while the loop runs, because `DesktopRecorder::stop` stops the capture first (`include/DesktopRecorder.hpp:95-103`); `Session` lets packets arrive at any time.
- Scheduler: code, text, data, size and tag of a queued task are one value, both handlers are installed, and sleeping and waking up are not modelled; the loop is taken step by step, because its points of interference are what matters.
- SocketUtils.PacketReader.Read: what happens after a packet larger than `data_` was copied past its end is not modelled; `SocketUtils.Receive` shows that this cannot happen on well-formed streams.
- YuvTools.RGBtoYUV420: odd frame sizes are outside its contract; the loop would read and write past the frame.
- YuvTools.I420ToARGB: odd frame sizes and destination strides other than four times the width are outside its contract.
- FlatReader.PacketReader.Write: writing past the 1 MB buffer is outside its contract as the source does not check it.
- VideoZip.Decode: what happens after a size or a frame was read from outside the bytes is not modelled.
- VideoZip.VideoZip.Encode: packets that overflow the buffer are outside its contract as the source does not check them.
- ChunkQueue.Buffer.Read: a chunk's bytes are an immutable value, not a second array.
- SystemAudio: clearing and reopening while the worker runs; a conversion may produce any bytes.
- WaitFreeList: `count_`, which is neither set by the first add nor lowered by a removal, and `clear`.
- Timer: negative intervals.
- Worker, suspension queue, simple thread, option loading, string and path helpers, and the older `include/ryulib/VideoCreater.hpp`: easy or copies.
