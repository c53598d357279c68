# Verified model of mmwcli's capture path

mmwcli turns unordered UDP radar packets into an authoritative file, mirrors the file as an ordered live stream of frames,
wraps several sensors into one aggregate stream, and publishes a capture only if everything is exact. This project models
that logic in Dafny and proves what it promises, over every input, every run and every interleaving.

`dafny verify dfyconfig.toml` checks the whole project. Each component has a functional model (state, one function per
step or per codec), the properties as lemmas about whole runs, and, where the program works by changing things in place, the
imperative code as methods and classes whose contracts say that they perform exactly those steps. For every object one method
plays an arbitrary script of calls or events on it and draws the component's main result for the object itself
(`Mirror.Play`, `StreamObjects.Transfer`, `StreamObjects.DecodeStream`, `Receiver.Receive`, `ProducerLink.Play`).

| file | component |
|---|---|
| `Common`, `Bytes`, `Utf8`, `Sensors`, `Intervals` | shared values, little-endian fields, UTF-8, clocks and limits, sorted byte ranges |
| `Coverage`, `MirrorModel`, `MirrorSafety`, `MirrorAdmission`, `MirrorProgress`, `Mirror` | the capture mirror: frame spools, the step machine of the mutex, safety over all runs, which writes are admitted, progress, the object |
| `Receiver`, `ReceiverFates`, `SessionTrace`, `CaptureRun` | the DCA1000 receive loop with the checks of its statistics, what becomes of every datagram, the lifecycle of one session as a trace of calls, and both together with the mirror |
| `StreamModel`, `StreamLanguage`, `StreamLockstep`, `StreamCalls`, `StreamWire`, `StreamObjects` | the aggregate stream: encoder and decoder machines, the record language, lockstep, which calls become which records, byte framing, the objects |
| `Crc16`, `Rhcp`, `RhcpBursts` | the mmWaveLink message codec, its two integrity checks, and the bursts they miss |
| `SensorProducer`, `HostLanguage`, `ProducerProtocol`, `ProducerProgress`, `ProducerLink` | the host state and the built-in camera producer, the host against any producer, their composition over two FIFO channels, progress, and the objects joined |
| `SensorIndex`, `AffineClock` | the binary sensor index and the piecewise rational clock maps |
| `JpegSplitter`, `Rprc`, `ChirpPlan` | JPEG stream splitting, firmware write planning, chirp ranges and size derivation |

How the outside world is represented: SHA-256 is an arbitrary function with 32-byte results; JSON metadata is a datatype, and
at the byte level a codec that is only assumed to read back what it wrote; files and sinks are sequences or maps of bytes;
clocks are integers; every hardware, network or process call is an outcome chosen by an arbitrary environment. Exact
rationals are reals, and regular expressions are predicates on strings.

Main results, by component:

- Mirror. Under every interleaving of writers, sink worker, Seal and Abort callers the sink is handed frames 0, 1, 2, ...
  exactly as the output holds them then and later; a nil Seal means the output is exactly the whole frames it counted; slots
  are conserved, which makes the queue-full branch and the mismatch branch after the worker unreachable. Once the queue is
  closed the worker takes exactly the steps that were left, so a waiting Seal can always be brought to its end. A write is
  admitted iff an explicit condition on output, window and counts holds, and a refusal names the first one broken.
- Receiver and session. Received plus missing bytes is the output size on every finalised return; an accepted result is the
  whole interval iff as many payload bytes were received; every counter that validation reads is the number of datagrams with
  the fate it names, so an accepted result has lost none; timing is refused iff the first packet of smallest implied start
  lies before the start command by more than its slack. For every
  behaviour of the hardware, recording and radar are stopped exactly once, a receiver that was made is closed exactly once
  before the finaliser, Finish runs once iff Arm did, and a capture is committed iff every call succeeded. Together with the mirror: however the receive loop ended, a committed file is exactly the
  concatenation of the frames the sink accepted.
- Aggregate stream. The decoder accepts exactly the declaratively defined record language; encoder and decoder stay in
  lockstep for every sequence of calls and transport failures, down to the bytes; a byte string completes iff it is nothing
  but the images of the frames of a complete stream. The encoder takes exactly the calls whose record a decoder would accept, and
  each record carries every argument of its call.
- mmWaveLink. Encoded content decodes to itself; exactly the frames that are valid byte by byte are decoded; every change of one byte, and every burst of at most sixteen bits, is rejected,
  except for twelve differences across the border into the CRC field where they touch only data of the last sub-block.
- Producer protocol. The host never records a protocol error in any interleaving, and completes with success exactly when
  the producer did not fail; no frame complete when START was read becomes an item; no reachable state is stuck. On its own, against
  any producer, the host records a protocol error exactly at the first inadmissible frame.
- Index, clocks, JPEG, firmware, chirps. A bijective index codec whose entries partition the payload; single-valued monotone
  clock maps; a splitter whose language is exactly the marker grammar and prefix-free; chunked writes equal to whole-section
  writes; a sweep that succeeds exactly when coverage, profile and transmitter conditions hold.

Where code and its own wording differ, the model follows the code: reading a JPEG reports reaching the size limit inside a
marker or inside scan data as a truncated image, and only a segment that announces too many bytes as too long
(internal/fixedframeproducer/child.go:160-274).

## Findings

Properties one would expect that the code does not have; each has a concrete input and the exact condition under which it holds.

- An open-ended session without a mirror can commit a file with a hole. Cleanup tolerates a drain that reaches its deadline
  (internal/session/session.go:640-645). If the receive loop then returns a plain error (internal/dca/receiver.go:468-498),
  Close reports only its own error (internal/dca/receiver.go:332-350), and the session validates statistics whose missing
  bytes were never counted (internal/session/session.go:315, 341). `Receiver.HoleIsAccepted` gives three packets,
  `CaptureRun.CommitWithHole` the session. An accepted result is exact if and only if PayloadBytesReceived equals
  OutputBytes (`Receiver.ValidExactIff`, `CaptureRun.RunUnmirrored`), which holds whenever the statistics were finalised, so
  for every finite capture. With a mirror the file is always exact (`CaptureRun.RunMirrored`).
- A camera frame that completes after START was read can be lost. The goroutine that reads START records the number of
  completed frames and hands both over; until the select takes them it may still take a frame, and it discards it although its
  number is beyond the recorded boundary (internal/fixedframeproducer/producer.go:230-270). `ProducerProtocol.FrameCanBeLost`
  gives the run for every plan and session. The items are all frames after the boundary if and only if no frame beyond it
  is consumed in between (`ProducerProtocol.AllFramesAfterBoundaryIff`); no earlier frame is ever an item.
- The aggregate stream refuses payload filenames that contain `x` or `0`, such as `cam0.bin`, and accepts a NUL: the character
  set of validateLeaf is a raw string (internal/multisensorstream/model.go:244), unlike that of validateArtifactLeaf, by
  which the capture plan accepts the same name (internal/multisensor/model.go:946-953). `StreamModel.ZeroIsRefused` and
  `StreamModel.NulIsAccepted` give the names, `StreamModel.LeafRulesDiffer` the exact difference.
- A burst of thirteen bits can turn one valid mmWaveLink message into another. The CRC field holds its low byte first
  (internal/debugcapture/mmwavelink_protocol.go:137), so a burst that crosses from the last covered byte into the field does not
  reach the register in order. `RhcpBursts.BurstForgesMessage` gives the pair of frames. Of all bursts of at most sixteen bits
  exactly twelve differences satisfy the CRC (`RhcpBursts.BurstRejected`, `RhcpBursts.EscapesAreAccepted`), and the decoder
  accepts the damaged frame if and only if it is one of those and the payload ends, without padding, in as many data bytes of
  the last sub-block as the burst touches, one or two (`RhcpBursts.BurstAcceptedIff`).

## Model

| member | source | states |
|---|---|---|
| Intervals.InsertCorrect | internal/capturestream/coverage.go:88-106 | inserting a range keeps the list sorted and strictly separated and covers exactly the old bytes and the new ones |
| Intervals.InsertTotal | internal/capturestream/coverage.go:73-78 | an addition that meets no covered byte raises the covered count by exactly its length |
| Intervals.OverlapIsSharedByte | internal/dca/receiver.go:613-620 | two ranges are reported as overlapping exactly when they share a byte |
| Intervals.CanonicalUnique | internal/capturestream/coverage.go:80-86 | a set of bytes has only one canonical range list, so a full frame is the single range |
| Intervals.TotalIsSize | internal/dca/receiver.go:636-653 | the total of a canonical list is the number of bytes it covers |
| Intervals.AddRange | internal/dca/receiver.go:584-602 | the two in-place loops compute the insertion |
| Intervals.AbsorbAt | internal/dca/receiver.go:589-600 | the removing loop joins every touching range to the addition and inserts it in place |
| Intervals.Preflight | internal/dca/receiver.go:604-634 | the scan reports an overlap iff some range overlaps, and too sparse iff the resulting list would exceed the limit |
| Intervals.RangesAreRuns | internal/capturestream/coverage.go:88-106 | a canonical list has one range for each maximal run of covered bytes |
| Intervals.InsertRuns | internal/dca/receiver.go:604-634 | the length after an insertion is the number of runs of the united bytes, and an overlap is a common byte |
| Coverage.ApplyCorrect | internal/capturestream/coverage.go:73-78 | a fitting fragment changes only its own bytes, extends coverage by exactly them and keeps the spool valid |
| Coverage.CompleteIffCovered | internal/capturestream/coverage.go:80-86 | complete() holds iff every byte of the frame is covered |
| Coverage.CheckRange | internal/capturestream/coverage.go:31-71 | preflight refuses exactly invalid, overlapping and too sparse ranges, in that order |
| Coverage.Apply | internal/capturestream/coverage.go:73-78 | the value of a spool after apply |
| Coverage.FrameSpool.constructor | internal/capturestream/coverage.go:24-29 | a new spool is empty |
| Coverage.FrameSpool.Preflight | internal/capturestream/coverage.go:31-71 | preflight on the spool object |
| Coverage.FrameSpool.Fill | internal/capturestream/coverage.go:73-78 | apply copies into the spool's own buffer and extends its ranges in place |
| Coverage.FrameSpool.IsComplete | internal/capturestream/coverage.go:80-86 | complete on the spool object |
| MirrorSafety.NewMirrorBounds | internal/capturestream/mirror.go:129-175 | an accepted configuration has a positive slot count that fits the buffer and byte offsets that fit int64 |
| MirrorSafety.NewMirrorExact | internal/capturestream/mirror.go:129-175 | exactly which configurations are accepted, and that the slot count is the largest that buffer, table and capture allow |
| MirrorSafety.StepInv | internal/capturestream/mirror.go:201-365 | every critical section of writers, worker, Seal and Abort keeps the mirror's invariant |
| MirrorSafety.HandedInOrder | internal/capturestream/mirror.go:509-566 | in every run the sink is handed frames 0, 1, 2, ... without repeat or gap, each byte-identical to the authoritative output then and ever after |
| MirrorSafety.HandedIffNotAborted | internal/capturestream/mirror.go:536-545 | the frame in hand goes to the sink iff the mirror is not aborted by then |
| MirrorSafety.NothingAfterAbort | internal/capturestream/mirror.go:536-545 | after an abort or a failure no further frame reaches the sink |
| MirrorSafety.SealedIsExact | internal/capturestream/mirror.go:262-365 | a sealed mirror's output is exactly [0, n*F), the sink accepted all n frames, no slot, queue entry or failure remains, and n is an acceptable count |
| MirrorSafety.SealedIsFinal | internal/capturestream/mirror.go:568-613 | a sealed mirror stays sealed and its output never changes |
| MirrorSafety.SealReplies | internal/capturestream/mirror.go:324-384 | Seal returns nil iff it leaves the mirror sealed; after the worker returned, a mirror that was not aborted always seals |
| MirrorSafety.SealErrors | internal/capturestream/mirror.go:276-384 | Seal returns an error iff it leaves the mirror aborted; a deadline that passes first is the failure |
| MirrorSafety.SinkAndAbort | internal/capturestream/mirror.go:547-621 | a refused frame aborts with the sink failure, an accepted one only counts, and Abort stops every mirror that is not sealed |
| MirrorAdmission.AdmitsExactly | internal/capturestream/mirror.go:201-258 | on a reachable open mirror a stored write succeeds iff it is nonempty, in bounds, not before the next frame, inside the window, with a buffer for every frame begun, on unwritten bytes only and within 256 runs per frame; otherwise the mirror aborts, writes nothing and reports the first condition broken |
| MirrorAdmission.WriteDecides | internal/capturestream/mirror.go:424-507 | the same for any state that keeps the invariant |
| MirrorAdmission.RefusedBeforeWriting | internal/capturestream/mirror.go:211-220 | a write that is not admissible never reaches the output |
| MirrorAdmission.DamageFails | internal/capturestream/mirror.go:222-235 | an admissible write that the output damages aborts with the write failure |
| MirrorSafety.SealProceedsIffExact | internal/capturestream/mirror.go:285-314 | on an open mirror Seal goes on to wait iff the bytes written are exactly whole frames of an acceptable total, and fails the mirror otherwise |
| MirrorSafety.SlotsConserved | internal/capturestream/mirror.go:237-240 | in every reachable state allocated slots are open slots plus queued frames plus the frame in hand, within maxSlots, and a recorded failure implies the aborted state |
| MirrorSafety.StoredWriteSucceeds | internal/capturestream/mirror.go:509-529 | after a stored authoritative write the call succeeds: the queue is never full |
| MirrorSafety.NextFrameUnfinished | internal/capturestream/mirror.go:510-514 | an open mirror always still misses some byte of its next frame |
| MirrorProgress.WorkerSettles | internal/capturestream/mirror.go:532-566 | once the queue is closed, whatever everybody else does, the worker takes exactly the steps left then and is never stuck |
| MirrorProgress.WaitingSealCanFinish | internal/capturestream/mirror.go:316-365 | a waiting Seal can always be brought to return nil, by at most three worker steps for each queued frame and three more |
| Mirror.Mirror.constructor | internal/capturestream/mirror.go:176-192 | a new mirror starts open and empty |
| Mirror.Mirror.Create | internal/capturestream/mirror.go:129-192 | exactly the unusable configurations are refused |
| Mirror.Mirror.AbortLocked | internal/capturestream/mirror.go:605-621 | abort releases the open slots and closes the queue once |
| Mirror.Mirror.FailLocked | internal/capturestream/mirror.go:584-596 | the first failure is kept and the mirror aborted |
| Mirror.Mirror.PlanWrite | internal/capturestream/mirror.go:424-507 | the refusal of a write, decided before anything is written |
| Mirror.Mirror.CountMissing | internal/capturestream/mirror.go:469-474 | the number of frames of the write without a slot |
| Mirror.Mirror.PreflightFragments | internal/capturestream/mirror.go:486-505 | the first refused fragment decides between integrity and backpressure |
| Mirror.ApplyFragments | internal/capturestream/mirror.go:237-246 | every fragment reaches its frame and missing slots are created |
| Mirror.Mirror.EnqueueCompleteFrames | internal/capturestream/mirror.go:509-529 | complete frames move from their slots to the queue, oldest first |
| Mirror.Mirror.WriteAt | internal/capturestream/mirror.go:201-258 | one write is one step of the machine and keeps its invariant; a stored one succeeds iff it was admissible |
| Mirror.Mirror.WorkerTake | internal/capturestream/mirror.go:534-534 | the worker takes the oldest queued frame |
| Mirror.Mirror.WorkerCheckDiscard | internal/capturestream/mirror.go:536-545 | whether the frame in hand still goes to the sink |
| Mirror.Mirror.WorkerReturn | internal/capturestream/mirror.go:547-564 | accounting after the sink returned or the frame was skipped |
| Mirror.Mirror.WorkerExit | internal/capturestream/mirror.go:532-534 | the worker returns when the closed queue is empty |
| Mirror.Mirror.BeginSeal | internal/capturestream/mirror.go:276-322 | Seal up to its return or its wait |
| Mirror.Mirror.FinishSeal | internal/capturestream/mirror.go:325-365 | Seal after the worker has returned |
| Mirror.Mirror.ExpireSeal | internal/capturestream/mirror.go:366-384 | Seal when its deadline passes first |
| Mirror.Mirror.Abort | internal/capturestream/mirror.go:388-407 | Abort never disturbs a sealed mirror |
| Mirror.Mirror.CancelSink | internal/capturestream/mirror.go:398-405 | the sink is cancelled after an abort or a seal |
| Mirror.Play | internal/capturestream/mirror.go:129-407 | any script of calls on a new mirror object is a run: the sink got frames 0, 1, 2, ... as the output holds them, and a sealed output is exactly the accepted frames |
| Receiver.AcceptedConfig | internal/dca/receiver.go:152-187 | an accepted configuration has bounded sizes, and its last frame offset fits a duration |
| Receiver.ParsePacket | internal/dca/protocol.go:250-270 | a datagram is a packet iff it carries 1..1456 payload bytes; sequence and offset fit 32 and 48 bits |
| Receiver.ParseReads | internal/dca/protocol.go:250-270 | sequence, offset and payload are read back from their bytes |
| Receiver.StepKeeps | internal/dca/receiver.go:444-552 | every datagram keeps the accounting and cadence invariant |
| Receiver.FinalAccounting | internal/dca/receiver.go:636-653 | on every finalised return payload plus missing bytes is the output size, and the range list is canonical, at most 4096 long and denotes exactly the written bytes |
| Receiver.CompleteIffWhole | internal/dca/receiver.go:636-653 | MissingBytes is zero iff the written bytes are exactly [0, OutputBytes) |
| Receiver.GapsExact | internal/dca/receiver.go:504-520 | for packets in order the gap counter is exactly the number of packets lost, across 32-bit wrap-around |
| Receiver.LateIsOutOfOrder | internal/dca/receiver.go:504-520 | a repeated or late packet counts as out of order and changes nothing else |
| Receiver.ValidExactIff | internal/session/session.go:685-733 | a result accepted from whatever the loop left has the finite plan size or a positive whole number of frames, and has written exactly [0, OutputBytes) iff PayloadBytesReceived is OutputBytes, as after every finalised return |
| Receiver.LoopTells | internal/dca/receiver.go:468-498 | also after a plain error the ranges denote the written bytes, and OutputBytes is their end |
| Receiver.HoleIsAccepted | internal/dca/receiver.go:468-498 | three packets after which validateResult accepts unfinalised statistics although a byte below OutputBytes was never written |
| ReceiverFates.LoopCounts | internal/dca/receiver.go:444-552 | every run: outcome, base, output and the counters are those of the fates of the handled datagrams, told from the datagrams alone |
| ReceiverFates.CountersTell | internal/dca/receiver.go:456-488 | the counters that validation reads are zero iff no handled datagram was malformed, before the first one or on written bytes |
| ReceiverFates.AcceptedAreHeld | internal/dca/receiver.go:492-499 | every accepted packet is in the output byte for byte at its distance from the first |
| ReceiverFates.ValidLosesNothing | internal/session/session.go:685-694 | in an accepted result every datagram of the device is a packet in the output, but one that may have ended the run |
| ReceiverFates.ValidIff | internal/session/session.go:685-733 | exactly when a finalised result is accepted, in terms of fates, the written bytes, size, timing and duration |
| Receiver.OnlyTooEarly | internal/session/session.go:735-782 | in a finite run the anchor is the true minimum implied start over the accepted packets and only the final too-early comparison can reject |
| Receiver.TooEarlyIff | internal/session/session.go:735-782 | the result is too early iff the first accepted packet of smallest implied start lies before the start command by more than its written-out slack, and otherwise in time |
| Receiver.ToleranceIsSlack | internal/session/session.go:874-887 | the tolerance is the written-out slack |
| Receiver.OffsetFits | internal/dca/receiver.go:528-531 | the frame offset product never overflows |
| Receiver.FrameInPlan | internal/session/session.go:753-756 | the anchor frame lies inside the frame plan |
| Receiver.ToleranceFits | internal/session/session.go:874-887 | the tolerance never overflows |
| Receiver.CountMissing | internal/dca/receiver.go:638-651 | the loop computes the uncovered bytes below the highest end |
| Receiver.DataReceiver.constructor | internal/dca/receiver.go:373-382 | the loop starts empty |
| Receiver.DataReceiver.NoteSequence | internal/dca/receiver.go:504-520 | gap, reorder and wrap handling of one sequence number |
| Receiver.DataReceiver.NoteCadence | internal/dca/receiver.go:528-538 | the cadence anchor after one packet |
| Receiver.DataReceiver.Take | internal/dca/receiver.go:499-541 | everything an accepted packet changes |
| Receiver.DataReceiver.Data | internal/dca/receiver.go:456-552 | one data packet: discarded, refused with or without final statistics, or accepted |
| Receiver.DataReceiver.Datagram | internal/dca/receiver.go:444-552 | one datagram is one step of the loop |
| Receiver.DataReceiver.Close | internal/dca/receiver.go:384-411 | a finalising return |
| Receiver.Receive | internal/dca/receiver.go:373-552 | any datagrams on a new receiver object: returned statistics account for every byte, and report none missing iff all of [0, OutputBytes) was written |
| SessionTrace.Run | internal/session/session.go:298-568 | for every world: recording and radar stopped exactly once after their only start; a made receiver closed exactly once before the finaliser, drained iff the radar was started; statuses taken after every device stop; Finish once iff Arm, told the truth and after all hardware; committed iff every call succeeded, in the one successful order with the radar awaited iff it ends by itself, after a good wait, checked for cancellation and validated at rest; the mirror sealed or aborted; with permanent cancellation an open-ended capture commits only if its stop was observed; a benign world commits |
| SessionTrace.StartRecordConvergent | internal/dca/client.go:401-425 | one start, and exactly one stop if it did not succeed |
| SessionTrace.Establish | internal/session/session.go:386-432 | both devices are stopped and configured in order |
| SessionTrace.ArmAndListen | internal/session/session.go:434-459 | arming and opening the data socket, with the flags cleanup relies on |
| SessionTrace.StartAll | internal/session/session.go:461-498 | recording, participant and radar started in order, with the flags cleanup relies on |
| SessionTrace.AwaitCapture | internal/session/session.go:515-567 | the three ways to wait and when waiting counts as success |
| SessionTrace.Cleanup | internal/session/session.go:605-683 | the exact calls of cleanup on every path: it stops, drains and closes what the flags say, whatever fails on the way |
| SessionTrace.Conclude | internal/session/session.go:337-353 | cancellation, validation and Finish |
| SessionTrace.SettleMirror | internal/session/session.go:354-368 | the mirror is sealed if all is good and aborted otherwise |
| SessionTrace.SettleOutput | internal/session/session.go:369-383 | truncate and commit, or abort and close |
| SessionTrace.DevicesMean | internal/session/session.go:605-683 | a device left at rest by the ledger was started once and stopped exactly once afterwards |
| SessionTrace.TraceMeans | internal/session/session.go:300-384 | what the running ledger says about the whole trace |
| SessionTrace.SettledMeans | internal/session/session.go:635-680 | what the running marks say about receiver, drain and statuses over the whole trace |
| SessionTrace.OpenEndedStops | internal/session/session.go:515-552 | an open-ended capture that waited well and passed the final check was asked to stop |
| CaptureRun.StepLinked | internal/dca/receiver.go:492-499 | receiver and mirror side by side: each goes through a run of its own, and unless the mirror is aborted both know the same output bytes |
| CaptureRun.SealedCaptureIsExact | internal/capturestream/mirror.go:201-365 | with a sealed mirror, however the receive loop ended: the file is exactly [0, OutputBytes), a whole number of frames, equal to the accepted frames one after the other |
| CaptureRun.RunMirrored | internal/session/session.go:298-384 | whatever the hardware does, a committed session over a mirrored capture published such a file, of the finite plan's size |
| CaptureRun.RunUnmirrored | internal/session/session.go:298-384 | a file committed without a mirror has the planned size or whole frames, and is exact iff PayloadBytesReceived is OutputBytes; a finite one always is |
| CaptureRun.CommitWithHole | internal/session/session.go:640-645 | a session in which every call succeeds and that commits a file with a hole |
| Utf8.ValidIffEncoded | internal/multisensorstream/model.go:241-241 | the byte strings that pass the UTF-8 check are exactly the encodings of texts |
| StreamModel.LeafRulesDiffer | internal/multisensorstream/model.go:240-248 | the stream's filename rule differs from the artifact rule exactly on `x`, `0`, NUL and malformed UTF-8 |
| StreamModel.BaseOfLeaf | internal/multisensor/model.go:948-948 | a name without a separator is its own base |
| StreamModel.ZeroIsRefused | internal/multisensorstream/model.go:244-244 | `cam0.bin` is an artifact name that the stream refuses |
| StreamModel.NulIsAccepted | internal/multisensorstream/model.go:244-244 | a name with a NUL is accepted by the stream and refused as an artifact |
| StreamLanguage.DecoderExact | internal/multisensorstream/decoder.go:48-358 | the decoder is unbroken iff every record was admissible after the ones before it, and its state is the one the history defines |
| StreamLanguage.CompletedShape | internal/multisensorstream/decoder.go:48-338 | a completed stream has gap-free sequence numbers, one SESSION first, one terminal record last but one and an EOF last |
| StreamLanguage.EndFreezes | internal/multisensorstream/decoder.go:168-201 | no item, radar start or configuration follows the first END |
| StreamLanguage.ItemsAreNumbered | internal/multisensorstream/decoder.go:194-242 | item indices of a source count from zero and its totals stay inside its limits |
| StreamLanguage.CommitVouches | internal/multisensorstream/decoder.go:244-301 | in a committed stream every source has an END whose count, bytes and digest are those of all its items, complete if required |
| StreamLanguage.CommitChecks | internal/multisensorstream/decoder.go:340-358 | the running commit check agrees with the history; the radar-start condition in it never bites |
| StreamLanguage.ItemsAreStarted | internal/multisensorstream/decoder.go:194-215 | a radar source with items has been started |
| StreamLockstep.Lockstep | internal/multisensorstream/encoder.go:82-312 | for every contract, call sequence and transport failure the decoder accepts every finished record with the same progress and flags, and completes iff the encoder terminated |
| StreamLockstep.FirstAccepted | internal/multisensorstream/encoder.go:82-284 | whatever call the encoder accepts, the decoder accepts its record and makes the same bookkeeping |
| StreamLockstep.SourcesAreDeclared | internal/multisensorstream/model.go:175-192 | an accepted session has one source for each declaration, with its own contract |
| StreamCalls.RecordsConveyCalls | internal/multisensorstream/encoder.go:82-312 | the finished records are SESSION, one for each taken call carrying all its arguments, and EOF iff terminated, numbered from zero |
| StreamCalls.TakesIffAdmissible | internal/multisensorstream/encoder.go:82-284 | an active encoder takes a call iff some record that carries it is admissible after everything written |
| StreamCalls.NothingAfterFailure | internal/multisensorstream/encoder.go:286-312 | after a failed call, Commit or Abort nothing more is written |
| StreamWire.WriteThenRead | internal/multisensorstream/protocol.go:72-171 | a written record reads back exactly, whatever follows it |
| StreamWire.ReadIsWritten | internal/multisensorstream/protocol.go:110-171 | only images of writable records are ever read as records |
| StreamWire.PrefixFree | internal/multisensorstream/protocol.go:87-106 | no record image begins another |
| StreamWire.TruncatedIsBad | internal/multisensorstream/protocol.go:115-158 | a record cut short is a protocol error, never an end of stream or another record |
| StreamWire.EndToEnd | internal/multisensorstream/decoder.go:48-86 | over bytes, a reader of the finished records completes iff the encoder terminated through Commit or Abort |
| StreamWire.CutStreamBreaks | internal/multisensorstream/protocol.go:110-171 | a stream that stops inside a record never completes |
| StreamWire.NeverCompletedByRecords | internal/multisensorstream/decoder.go:59-65 | no records alone complete a decoder |
| StreamWire.BytesCompleteIff | internal/multisensorstream/decoder.go:48-86 | the decoder completes on a byte string iff it is exactly the images of writable frames that carry a complete stream |
| StreamWire.CompletedBytesVouch | internal/multisensorstream/decoder.go:274-301 | bytes on which the decoder completes carry a whole numbered stream, and a COMMIT in it vouches for every declared source |
| StreamWire.WriteRecord | internal/multisensorstream/protocol.go:72-108 | the header buffer code produces the record image, or nothing for a record that may not be written |
| StreamWire.FillPrefix | internal/multisensorstream/protocol.go:87-95 | the first 48 header bytes |
| StreamObjects.ValidateCommitOutcomes | internal/multisensorstream/encoder.go:314-332 | the loop over sources decides commit readiness |
| StreamObjects.Encoder.Create | internal/multisensorstream/encoder.go:47-78 | no encoder for a session that fails validation or a writer that does not take SESSION; otherwise a new one has emitted SESSION as record zero |
| StreamObjects.Encoder.Emit | internal/multisensorstream/encoder.go:301-312 | a record is emitted with the next sequence number, or nothing changes |
| StreamObjects.Encoder.WriteRadarConfig | internal/multisensorstream/encoder.go:82-112 | one encoder step: state, records and result |
| StreamObjects.Encoder.WriteRadarStart | internal/multisensorstream/encoder.go:116-145 | one encoder step: state, records and result |
| StreamObjects.Encoder.WriteItem | internal/multisensorstream/encoder.go:149-210 | one encoder step: state, records and result |
| StreamObjects.Encoder.EndSource | internal/multisensorstream/encoder.go:214-243 | one encoder step: state, records and result |
| StreamObjects.Encoder.Commit | internal/multisensorstream/encoder.go:248-266 | one encoder step: state, records and result |
| StreamObjects.Encoder.Abort | internal/multisensorstream/encoder.go:270-284 | one encoder step: state, records and result |
| StreamObjects.Encoder.EmitTerminal | internal/multisensorstream/encoder.go:286-299 | terminal record and EOF, or a poisoned encoder with the records already out |
| StreamObjects.Decoder.constructor | internal/multisensorstream/decoder.go:39-44 | a new decoder expects SESSION |
| StreamObjects.Decoder.Read | internal/multisensorstream/decoder.go:48-86 | one read is one decoder step, and succeeds iff a record was accepted |
| StreamObjects.Decoder.Dispatch | internal/multisensorstream/decoder.go:88-109 | a record is taken by its type's rule or leaves the decoder alone |
| StreamObjects.Decoder.TakeSession | internal/multisensorstream/decoder.go:111-139 | the SESSION rule |
| StreamObjects.Decoder.TakeRadarConfig | internal/multisensorstream/decoder.go:141-166 | the RADAR_CONFIG rule |
| StreamObjects.Decoder.TakeRadarStart | internal/multisensorstream/decoder.go:168-192 | the RADAR_START rule |
| StreamObjects.Decoder.TakeItem | internal/multisensorstream/decoder.go:194-242 | the ITEM rule |
| StreamObjects.Decoder.TakeEnd | internal/multisensorstream/decoder.go:244-272 | the END rule |
| StreamObjects.Decoder.TakeCommit | internal/multisensorstream/decoder.go:274-301 | the COMMIT rule |
| StreamObjects.Decoder.TakeAbort | internal/multisensorstream/decoder.go:303-323 | the ABORT rule |
| StreamObjects.Decoder.TakeEof | internal/multisensorstream/decoder.go:325-338 | the EOF rule |
| StreamObjects.Drive | internal/multisensorstream/encoder.go:47-312 | any calls and transport failures on a new encoder object are the encoder run of the model |
| StreamObjects.Feed | internal/multisensorstream/decoder.go:48-109 | any records on a new decoder object: it is unbroken iff they are admissible one after the other |
| StreamObjects.Transfer | internal/multisensorstream/decoder.go:48-86 | a session between the two objects transfers the taken calls with all their arguments, ends with equal progress, and the decoder completes iff the encoder terminated |
| StreamObjects.DecodeStream | internal/multisensorstream/decoder.go:48-86 | any bytes on a new decoder object: it completes iff they are exactly the frames of a complete stream |
| Sensors.UnwrapInjective | internal/multisensor/model.go:393-412 | the unwrapped tick determines tick and wrap count |
| Sensors.UnwrapExact | internal/multisensor/model.go:393-412 | a pair unwraps iff it is canonical and fits 64 bits, and to wrapCount*wrapTicks + tick |
| CrcBits.UnshiftShift | internal/debugcapture/mmwavelink_protocol.go:265-271 | one shift step of the CRC register can be undone |
| CrcBits.ShiftLinear | internal/debugcapture/mmwavelink_protocol.go:265-271 | one shift step is linear over exclusive or |
| CrcBits.FeedTwoInjective | internal/debugcapture/mmwavelink_protocol.go:263-272 | two bytes fed into one register value are determined by the result |
| CrcBits.FeedThreeVanishes | internal/debugcapture/mmwavelink_protocol.go:263-272 | a difference of at most sixteen consecutive bits over three bytes never leaves the register alone |
| CrcBits.CrossingOne | internal/debugcapture/mmwavelink_protocol.go:137-137 | the differences of one data byte and the CRC field, within sixteen bits, that cancel |
| CrcBits.CrossingTwo | internal/debugcapture/mmwavelink_protocol.go:137-137 | the differences of two data bytes and the low CRC byte, within sixteen bits, that cancel |
| Crc16.CrcDetectsPair | internal/debugcapture/mmwavelink_protocol.go:261-274 | equal-length messages that differ only inside two adjacent bytes have different registers |
| Crc16.FieldHoldsRegister | internal/debugcapture/mmwavelink_protocol.go:202-206 | a little-endian field holds the CRC iff it holds the low and the high half of the register |
| Crc16.ComputeCrc | internal/debugcapture/mmwavelink_protocol.go:261-274 | the two loops compute the CRC |
| Crc16.ChecksumDetectsByte | internal/debugcapture/mmwavelink_protocol.go:246-259 | the header checksum changes with every change of one byte |
| Crc16.ComputeChecksum | internal/debugcapture/mmwavelink_protocol.go:246-259 | the word loop and the carry loop compute the one's-complement checksum |
| Rhcp.UniqueIdsInjective | internal/debugcapture/mmwavelink_protocol.go:125-125 | sub-block IDs are unique over messages, fit 16 bits and split back |
| Rhcp.RoundTrip | internal/debugcapture/mmwavelink_protocol.go:75-244 | every encodable command, laid out with device sync, direction and class, decodes to the same content |
| Rhcp.DecodeExact | internal/debugcapture/mmwavelink_protocol.go:208-243 | an accepted payload is exactly the layout of the decoded sub-blocks, padding included |
| Rhcp.DecodeIff | internal/debugcapture/mmwavelink_protocol.go:141-244 | exactly the frames are decoded, to exactly that message, whose header says so byte by byte and whose payload is its laid-out sub-blocks and padding |
| Rhcp.ParsePayload | internal/debugcapture/mmwavelink_protocol.go:214-234 | laid-out sub-blocks parse back and leave the rest |
| Rhcp.ParseExact | internal/debugcapture/mmwavelink_protocol.go:214-234 | parsing consumes exactly the image of the sub-blocks it returns |
| Rhcp.ByteChangeRejected | internal/debugcapture/mmwavelink_protocol.go:141-244 | changing any single byte of an accepted frame makes the decoder reject it |
| Rhcp.PairChangeRejected | internal/debugcapture/mmwavelink_protocol.go:202-206 | any change inside two adjacent CRC-covered bytes of an accepted frame is rejected |
| RhcpBursts.CrcDetectsBurst | internal/debugcapture/mmwavelink_protocol.go:261-274 | messages that differ in at most sixteen consecutive bits have different registers |
| RhcpBursts.CrcAtTheEnd | internal/debugcapture/mmwavelink_protocol.go:202-206 | after a change of the last four bytes the CRC is good iff the differences cancel |
| RhcpBursts.BurstRejected | internal/debugcapture/mmwavelink_protocol.go:141-244 | every burst of at most sixteen bits on an accepted frame is rejected, except twelve differences across the border into the CRC field |
| RhcpBursts.EscapesAreAccepted | internal/debugcapture/mmwavelink_protocol.go:202-206 | the CRC check accepts each of those twelve differences |
| RhcpBursts.EndChange | internal/debugcapture/mmwavelink_protocol.go:208-243 | a change of the last payload byte, and perhaps the one before, parses iff it touches only data of the last sub-block |
| RhcpBursts.BurstAcceptedIff | internal/debugcapture/mmwavelink_protocol.go:141-244 | the decoder accepts a frame damaged by a burst of at most sixteen bits iff it is one of the twelve and touches only data of the last sub-block |
| RhcpBursts.BurstForgesMessage | internal/debugcapture/mmwavelink_protocol.go:75-244 | a burst of thirteen bits turns a valid frame into a valid frame with another content |
| Rhcp.EncodeCommand | internal/debugcapture/mmwavelink_protocol.go:75-139 | the buffer code accepts exactly the encodable commands and produces their layout |
| Rhcp.EncodeRefuses | internal/debugcapture/mmwavelink_protocol.go:75-112 | a command is encoded iff it keeps the written-out bounds |
| Rhcp.EncodeCarries | internal/debugcapture/mmwavelink_protocol.go:114-139 | where an encoded command has its sync words, fields, checks, sub-blocks and padding |
| Rhcp.MeasurePayload | internal/debugcapture/mmwavelink_protocol.go:89-98 | the length loop gives up exactly on bad IDs and over-long payloads |
| Rhcp.FillBlocks | internal/debugcapture/mmwavelink_protocol.go:123-130 | sub-blocks are written at a moving offset |
| Rhcp.SealFrame | internal/debugcapture/mmwavelink_protocol.go:136-137 | checksum and CRC over the finished frame |
| Rhcp.ParseBlocks | internal/debugcapture/mmwavelink_protocol.go:212-234 | the consuming loop computes the parse |
| Rhcp.DecodeMessage | internal/debugcapture/mmwavelink_protocol.go:141-244 | the decoder code computes the decoding |
| Rhcp.CheckHeader | internal/debugcapture/mmwavelink_protocol.go:150-198 | sync, length, alignment, checksum, direction, class and flag checks |
| SensorProducer.State.Create | internal/sensorproducer/state.go:53-61 | malformed identifiers are refused; a new host waits in the initial phase with sequence one |
| SensorProducer.TextBytesExact | internal/sensorproducer/protocol.go:261-263 | the byte count of an error text is the length of its UTF-8 encoding |
| SensorProducer.State.Prepare | internal/sensorproducer/state.go:63-79 | the command to send, or no change |
| SensorProducer.State.AcceptRecord | internal/sensorproducer/state.go:81-144 | one received frame is one host step |
| SensorProducer.State.TakeAck | internal/sensorproducer/state.go:181-218 | the ACK rule |
| SensorProducer.State.TakeData | internal/sensorproducer/state.go:110-143 | the data-frame rule of each type |
| SensorProducer.State.Fail | internal/sensorproducer/state.go:226-234 | a later error replaces a protocol error but never a producer error |
| SensorProducer.State.TransportEof | internal/sensorproducer/state.go:146-155 | transport EOF completes or fails the host and returns its cause |
| HostLanguage.CommandExact | internal/sensorproducer/state.go:63-79 | a command is given iff the log allows it, with the next number |
| HostLanguage.FrameExact | internal/sensorproducer/state.go:81-218 | a frame is taken iff the log allows it; any other is answered with an error and fails the host |
| HostLanguage.HostExact | internal/sensorproducer/state.go:63-234 | while every frame was admissible the host is in the state its log defines, without a protocol error |
| HostLanguage.ProtocolErrorIff | internal/sensorproducer/state.go:81-234 | for any commands and frames: a protocol error is recorded at some point iff there is a first inadmissible frame before which the producer reported no failure |
| HostLanguage.NoErrorIffAdmitted | internal/sensorproducer/state.go:81-234 | without a reported failure: none is recorded iff every frame was admissible after what came before |
| HostLanguage.CompletesAfterEof | internal/sensorproducer/state.go:146-155 | the end of the transport completes an orderly session iff EOF was its last turn |
| HostLanguage.PlayHost | internal/sensorproducer/state.go:63-155 | any commands and frames on a new host object leave it in that state |
| FrameProducer.BoundedIsLongestPrefix | internal/fixedframeproducer/producer.go:519-532 | an error text is cut to its longest prefix of whole characters that fits the byte limit |
| FrameProducer.Bounded | internal/fixedframeproducer/producer.go:519-532 | a bounded error text is never empty and never over the byte limit |
| FrameProducer.BoundMessage | internal/fixedframeproducer/producer.go:519-532 | the trimming loop computes the bounded text |
| FrameProducer.Runner.constructor | internal/fixedframeproducer/producer.go:122-127 | a new producer waits for READY with sequences one |
| FrameProducer.Runner.WriteRecord | internal/fixedframeproducer/producer.go:472-494 | one numbered record, or none once the sequence is exhausted |
| FrameProducer.Runner.WriteAck | internal/fixedframeproducer/producer.go:364-370 | an ACK carries the control's sequence |
| FrameProducer.Runner.WriteFailure | internal/fixedframeproducer/producer.go:448-464 | ERROR and EOF, then the producer returns |
| FrameProducer.Runner.Reject | internal/fixedframeproducer/producer.go:436-446 | a negative ACK, then the failure |
| FrameProducer.Runner.CancelStream | internal/fixedframeproducer/producer.go:426-434 | ACK and EOF |
| FrameProducer.Runner.StopStream | internal/fixedframeproducer/producer.go:405-424 | ACK, then END with totals and EOF, or the failure of a camera that was already gone |
| FrameProducer.Runner.TakeControl | internal/fixedframeproducer/producer.go:326-362 | control checks, cancellation and dispatch |
| FrameProducer.Runner.Proceed | internal/fixedframeproducer/producer.go:182-299 | READY, ARM, START and STOP where they are expected, rejection elsewhere |
| FrameProducer.Runner.TakeFrame | internal/fixedframeproducer/producer.go:301-403 | a camera frame is discarded, becomes one item, or fails the producer on a limit |
| FrameProducer.Runner.TakeCameraFailure | internal/fixedframeproducer/producer.go:260-324 | a camera failure while waiting for START or streaming |
| ProducerProtocol.NeverProtocolError | internal/sensorproducer/state.go:63-234 | in no interleaving does the host record a protocol error |
| ProducerProtocol.CompletesExactly | internal/sensorproducer/state.go:146-155 | after exit and delivery transport EOF completes the host, with no cause iff the producer never failed |
| ProducerProtocol.EndMatchesItems | internal/fixedframeproducer/producer.go:417-420 | an END frame names exactly the items and bytes before it |
| ProducerProtocol.StreamedRun | internal/fixedframeproducer/producer.go:230-318 | the items of a stream are consecutive frames, from the first one beyond the START boundary that was not consumed before START was taken |
| ProducerProtocol.NoEarlyItem | internal/fixedframeproducer/producer.go:308-311 | no frame that was complete when START was read becomes an item; items follow one another without gap or repeat |
| ProducerProtocol.AllFramesAfterBoundaryIff | internal/fixedframeproducer/producer.go:230-270 | while streaming, and after a stream that ended without failure, the items are all consumed frames after the boundary iff none of them was consumed between the reading and the taking of START |
| ProducerProtocol.FrameFailsIff | internal/fixedframeproducer/producer.go:382-403 | a frame after the boundary fails the stream iff it is empty or would exceed the limits, counted over the items written |
| ProducerProtocol.FrameCanBeLost | internal/fixedframeproducer/producer.go:260-270 | for every plan and session a run in which the first frame completes after START was read and is lost |
| ProducerProtocol.StepKeeps | internal/fixedframeproducer/producer.go:182-318 | every step of host, producer, camera and channels keeps the joint invariant |
| ProducerProgress.NotStuck | internal/fixedframeproducer/producer.go:182-318 | in every reachable state before the end of the transport some step brings completion nearer, and CANCEL is needed only when no command is unanswered |
| ProducerProgress.CanComplete | internal/sensorproducer/state.go:63-155 | from every reachable state the host can be completed, in at most 36 steps more than frames are under way, with success iff the producer did not fail |
| ProducerLink.Link.HostStep | internal/sensorproducer/state.go:63-155 | the host object performs its events of the protocol |
| ProducerLink.Link.ProducerStep | internal/fixedframeproducer/producer.go:230-318 | the producer object performs its events of the protocol |
| ProducerLink.Play | internal/fixedframeproducer/producer.go:182-318 | any script of events on the two objects is a run: no protocol error, success at transport EOF iff the producer never failed, counters equal to the items written |
| SensorIndex.Partition | internal/multisensor/index.go:138-211 | every payload byte belongs to exactly one entry of a valid index |
| SensorIndex.DecodeEncode | internal/multisensor/index.go:46-136 | every valid index survives encoding and decoding |
| SensorIndex.EncodeDecode | internal/multisensor/index.go:74-136 | every accepted byte string is the encoding of what it decodes to |
| SensorIndex.FieldPlaces | internal/multisensor/index.go:46-70 | the byte positions of every header and entry field |
| SensorIndex.Validate | internal/multisensor/index.go:138-211 | one pass with the next offset decides validity |
| SensorIndex.EncodeIndex | internal/multisensor/index.go:46-70 | the buffer code produces the encoding of exactly the valid indices |
| SensorIndex.PutEntry | internal/multisensor/index.go:225-235 | one entry written in place |
| SensorIndex.DecodeIndex | internal/multisensor/index.go:74-136 | the decoding loop computes the decoding |
| AffineClock.SingleValued | internal/multisensor/model.go:622-631 | at most one validated segment covers a tick |
| AffineClock.MapIsAffine | internal/multisensor/model.go:668-677 | the origin maps to the host origin and differences scale by the rational |
| AffineClock.CoveredIff | internal/multisensor/model.go:640-652 | an observation is covered iff the two whole-number comparisons hold |
| AffineClock.SegmentSupported | internal/multisensor/model.go:597-666 | what an accepted segment says of each supporting observation and of its ends, in whole numbers |
| AffineClock.CoverageIsMembership | internal/multisensor/model.go:901-909 | the coverage count is one iff some segment covers the tick |
| AffineClock.MapMonotone | internal/multisensor/model.go:576-677 | the tick-to-host map is nondecreasing over any number of segments |
| AffineClock.MappedInRange | internal/multisensor/model.go:654-666 | every mapped time plus or minus uncertainty is a 64-bit nanosecond count |
| AffineClock.HostTimesOrdered | internal/multisensor/model.go:825-841 | entries of an accepted index have nondecreasing host times |
| AffineClock.ValidateSegments | internal/multisensor/model.go:576-638 | one pass with the previous segment decides validity |
| AffineClock.CheckObservations | internal/multisensor/model.go:597-621 | the observation loop of one segment |
| AffineClock.SegmentCoverage | internal/multisensor/model.go:901-909 | the loop counts the covering segments |
| AffineClock.ValidateTicks | internal/multisensor/model.go:826-841 | the entry loop with the previous tick |
| JpegSplitter.ReadsWellFormed | internal/fixedframeproducer/child.go:155-275 | a well-formed image within the limit is read exactly, whatever follows it |
| JpegSplitter.AcceptsOnlyWellFormed | internal/fixedframeproducer/child.go:155-275 | everything accepted is a well-formed image and nothing more |
| JpegSplitter.PrefixFree | internal/fixedframeproducer/child.go:152-155 | no accepted image begins another |
| JpegSplitter.SplitsConcatenation | internal/fixedframeproducer/child.go:118-146 | a concatenation of well-formed images splits back into exactly those images |
| JpegSplitter.ReadFrame | internal/fixedframeproducer/child.go:155-275 | the nested loops compute the outcome, and on success the frame is the consumed prefix |
| JpegSplitter.ReadScan | internal/fixedframeproducer/child.go:248-273 | entropy-coded data up to the next real marker |
| JpegSplitter.ReadCode | internal/fixedframeproducer/child.go:206-214 | fill bytes up to a marker code |
| JpegSplitter.ReadSegment | internal/fixedframeproducer/child.go:226-246 | the length-prefixed segment of a marker |
| Rprc.ImageTilesFile | internal/debugcapture/rprc.go:52-115 | an accepted image tiles the file exactly with the announced number of sections |
| Rprc.ParseIff | internal/debugcapture/rprc.go:52-115 | a file parses to an image iff it begins with the magic number, has its header fields, and is tiled by the announced sections |
| Rprc.PlanRefines | internal/debugcapture/rprc.go:117-138 | executing the chunk writes leaves the memory that writing each section whole leaves |
| Rprc.PreflightNeverRejectsBlock | internal/debugcapture/firmware_downloader.go:329-333 | every planned write is aligned, 1..4096 bytes and in range |
| Rprc.MappedInSpace | internal/debugcapture/rprc.go:140-170 | a mapped range is aligned and inside the 32-bit space |
| Rprc.MapImage | internal/debugcapture/rprc.go:140-170 | the two windows of each target and their images, by their literal bounds |
| Rprc.MapKeepsApart | internal/debugcapture/rprc.go:140-170 | disjoint sections stay disjoint in target memory |
| Rprc.ReadSections | internal/debugcapture/rprc.go:78-110 | the cursor loop computes the sections |
| Rprc.ParseImage | internal/debugcapture/rprc.go:52-115 | the parser code computes the parse |
| Rprc.SplitSection | internal/debugcapture/rprc.go:128-135 | the chunk loop of one section |
| Rprc.PlanWrites | internal/debugcapture/rprc.go:117-138 | the planner code computes the plan |
| ChirpPlan.SortKeeps | internal/radar/config.go:796-801 | sorting permutes the ranges and orders them |
| ChirpPlan.OverlapCheckExact | internal/radar/config.go:796-813 | sorting and checking neighbours accepts exactly pairwise disjoint ranges |
| ChirpPlan.SweepExact | internal/radar/config.go:816-871 | the sweep selects a profile iff every chirp is covered, all meeting ranges share it and one enables a transmitter |
| ChirpPlan.ChecksAgree | internal/radar/config.go:796-871 | on ranges in file order, sort, neighbour check and sweep select a profile iff no two ranges overlap, every chirp is covered, the meeting ranges share it and one enables a transmitter |
| ChirpPlan.SessionChirpsSweep | internal/radar/session_contract.go:340-361 | under the session contract's rule the sweep can fail only on an overlap or a second profile |
| ChirpPlan.ChirpsPairTransmitters | internal/radar/session_contract.go:352-359 | under that rule a frame loop has exactly as many active transmitters as chirps |
| ChirpPlan.LinkChirpsSweep | internal/debugcapture/mmwavelink_config.go:413-450 | whatever the binary configuration path accepts, the sweep accepts with profile 0 |
| ChirpPlan.DeriveExact | internal/radar/config.go:527-590 | the derived size is frames*loops*chirps*samples*RX*4 and no overflow branch is reachable |
| ChirpPlan.BuffersExact | internal/radar/config.go:873-920 | the buffer check is the plain arithmetic condition |
| ChirpPlan.SelectProfile | internal/radar/config.go:822-870 | the loop computes the sweep |
| ChirpPlan.CheckSessionChirps | internal/radar/session_contract.go:340-361 | the map and the seen set decide that every chirp is defined with exactly one transmitter and none serves two |
| ChirpPlan.IndexChirps | internal/radar/session_contract.go:340-345 | the map holds for each chirp the last range that defines it |
| ChirpPlan.CheckLinkChirps | internal/debugcapture/mmwavelink_config.go:413-450 | the range rules and the boolean array decide profile 0, permitted transmitters, disjointness and coverage |
| ChirpPlan.MarkRange | internal/debugcapture/mmwavelink_config.go:437-442 | a range is marked unless one of its chirps already is |

## Left out

- Mirror: its spools are held by value, so that queued payloads share the spool's buffer is not captured; FrameSpool models the in-place buffer on its own. The nil and expired-context arguments of Seal are not modelled.
- Receiver.FinalAccounting: makes no claim on the plain error returns of the receive loop that skip finalizeStats.
- Receiver.ValidExactIff: the maximum streaming duration check enters as a given outcome, and times are never the zero time by accident.
- SessionTrace.Run: starts where Run owns its output; argument checks and timeout derivation before that only reject. A drain that merely times out counts as a success, as in the code.
- StreamWire.EndToEnd: JSON text is abstract; the codec is assumed to read back what it wrote within the metadata limit. A session that could not be marshalled is a transport failure of its call.
- StreamModel.LeafRulesDiffer: filepath.Base is that of systems whose separator is `/`; volume names of Windows, on which the artifact rule refuses more, are not modelled.
- FrameProducer.BoundMessage: error texts are Unicode; bytes that are not UTF-8, which JSON would replace, are not modelled.
- CaptureRun.RunMirrored: that the session's Seal is a Seal call of the mirror's run, and its Validate judges what the receive loop left, links the trace to the run and is a condition of the result, as for CaptureRun.RunUnmirrored; publication of the file itself is not modelled.
- ProducerProtocol.NeverProtocolError: assumes no write failure, no context cancellation and an open control channel, as does every result about the composed producer protocol.
- ChirpPlan.SortKeeps: the library sort is modelled by insertion; configuration text, floating-point fields and family tables are not.
- Rprc.PreflightNeverRejectsBlock: the text of the block command is not modelled.
- AffineClock.HostTimesOrdered: sync events and cardinalities of a source index are not modelled.
- Polling, deadlines and read timeouts of the receive loop: only the finalising or plain return they cause.
- The framing of the sensor-producer pipe (magic, digest, control lines): same shape as the aggregate framing.
- The sensor-producer client's queues and pipes, process control, serial, UDP, D2XX and file publication: foreign I/O.
- Radar configuration parsing, device registers, reset sequences and asset hashes: constants and text with little to prove.
- The CLI, manifests, directory checks and cloning helpers: they would only add easy members.
