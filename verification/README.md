# A verified model of SideALSA

SideALSA moves fixed periods of audio between one hardware loop, rings of slots in
shared memory and the client adapters (ALSA, ASIO). Everything is keyed by 64-bit
sequence numbers that wrap. These Dafny modules model the logic between the system
calls and prove what it promises. What ALSA, the daemon, the clock or another thread
may do appears as nondeterminism: an argument, an endless script of answers fixed in
advance but arbitrary, or an interleaving of atomic steps.

Verify everything with `dafny verify dfyconfig.toml`.

## The modules

Shared foundations
- `sequences.dfy`: wrapping sequence numbers and their half-range order, tied to ideal
  counts; beyond the window where it is used the order is shown to go around in a circle.
- `period_math.dfy`, `cursors.dfy`: frames counted in periods, and ALSA's cursors modulo
  a boundary.

The shared slot ring
- `slot_ring.dfy`: the ring as a class with slots updated in place. Each scan loop is
  proved against a function of the slots, and these functions are characterised.
- `capture_queue.dfy`: whole calls refine a bounded queue, just as long as the oldest
  label is before the others.
- `capture_ledger.dfy`: conservation of PRO duplex capture over whole runs.
- `slot_ring_steps.dfy`: the same ring as single atomic accesses of one producer and one
  consumer: exclusion, delivery, and what a scan may choose.
- `slot_ring_progress.dfy`: what these accesses bring about: publications and reads that
  are left alone end and do what they should, and nothing goes without a reason.
- `activation.dfy`: the activation word, which lets exactly one thread fix a generation's
  start sequence.
- `capture_wake.dfy`: the event counter beside the ring; no wake-up is lost.

The ALSA adapter
- `playback_plan.dfy`: which label a queued period gets, when it has expired, when it is
  played.
- `playback_history.dfy`: the account of everything queued (frames, hidden frames, periods
  taken with their labels) and what each change does to it.
- `playback_stream.dfy`: the stream class: array FIFO, flush loop, writes, start, drain,
  rewind, forward, reset and the reported position, all proved against that account.
- `playback_cursors.dfy`: the C side, which finds out from ALSA's cursors what to apply and
  tells it the position.
- `buffered_capture.dfy`: partial reads and skips over the published stream, and the C
  side's expected cursor.

The engine
- `packet_loop.dfy`: the staged packet cycle as a delay line with epochs, deferred captures
  and recovery.
- `pro_clock.dfy`: the label clock of the capture and playback threads.
- `startup_loopback.dfy`: the loopback probe and startup normalization.
- `direct_cutoff.dfy`: the handoff deadline and its write reserve.
- `latency_guard.dfy`: the median detector gated by stalls.

The ASIO driver
- `asio_gate.dfy`: host and worker exchanging commands and acknowledgements: what never
  happens, and that runs start, blocks are played and stops complete.
- `position_snapshot.dfy`: the seqlock around the reported position.
- `asio_cycle.dfy`: buffer parity and sample position over gaps.

The administration tool
- `profile_revision.dfy`: the revision hash of a profile.
- `profile_transaction.dfy`: replace, restart, verify, roll back.

## What holds only on a condition

- Reads of the capture ring take the oldest block from every start if and only if its
  label is before every other unread one (`CaptureQueue.HeadIsTakenWhenFirst`). Forward
  labels meet this always; `CaptureQueue.BackwardLabelOvertakes` shows a run where a
  backward label overtakes.
- One drain and one read may leave a block without a signal, which is why the client looks
  again: `CaptureWake.OneReadMayLeaveABlock`.
- A reset of a running stream hides exactly what has left the FIFO if and only if the raw
  pointer stands where ALSA was last told that it does, or has just reached what was hidden
  already (`PlaybackStream.ResetIsExact`, `PlaybackStream.ResetIsExactWhenTold`). The code
  counts from the pointer last told and does not ask for a new one, so a reset after the
  daemon has played on is inexact (`PlaybackStream.ResetAfterPlayingOn`), and so is one
  before it has played what was hidden (`PlaybackStream.ResetMayBeInexact`). The stream's
  account stays clean in just the exact case (`PlaybackCursors.PlaybackPcm.Reset`).
- After a PRO expiry the reported position stays within what was played if and only if
  there was a whole queued period for every expired label
  (`PlaybackHistory.ExpiryKeepsBound`, failing in `PlaybackHistory.ExpiryMayOverstate`).
- Captures are handed over one cycle late (`PacketLoop.Loop.Run`) because the lead is one
  period. The model takes any lead, but the engine only gives zero or one
  (crates/sidealsa-core/src/engine.rs:369-381), and with zero it does not run the staged
  loop at all (crates/sidealsa-core/src/engine.rs:2593-2599).

## Model

| member | source | states |
|---|---|---|
| Sequences.OrderOfNearCounts | crates/sidealsa-protocol/src/lib.rs:1142-1155 | the wrapping order is the order of the ideal counts within half the range, and undecided exactly at half |
| Sequences.TestsOfNearCounts | crates/sidealsa-protocol/src/lib.rs:1157-1163 | before and after are the strict orders of near counts |
| Sequences.OrderIsNotTransitive | crates/sidealsa-protocol/src/lib.rs:1142-1163 | three labels spread over more than half the range are each before the next, in a circle |
| SlotRing.ScanGoesForward | crates/sidealsa-client/src/shared.rs:483-498 | a scan goes forward around the ring from where it starts, and so does what follows a slot |
| SlotRing.FindFree | crates/sidealsa-client/src/shared.rs:483-498 | the producer's scan finds the first free slot from an offset on: every slot it passes is in use; or none is free |
| SlotRing.Ring.TryPublish | crates/sidealsa-client/src/shared.rs:468-526 | the payload, label and timestamp are in the first free slot and every other slot is as it was, or no live slot changes when every slot is in use |
| SlotRing.Ring.FillSlot | crates/sidealsa-client/src/shared.rs:499-524 | exactly the claimed slot changes: its payload, label and timestamp, or it is free again when the clock fails |
| SlotRing.Ring.TryClientPublishPlayback | crates/sidealsa-client/src/shared.rs:443-466 | a client's publication succeeds just when the block is whole, the clock answers and a slot is free; it is timestamped, announced as the client's label, and a failed one is counted |
| SlotRing.Ring.TryConsumeExact | crates/sidealsa-client/src/shared.rs:579-644 | for every slot: a ready one whose label is the expected one or before it is free afterwards, and one that is not ready or whose label is after it is as it was; with distinct labels ready just when the label is ready with a timestamp in time; the output is untouched unless ready |
| SlotRing.ExactOutcomeMeaning | crates/sidealsa-client/src/shared.rs:579-644 | what ready, late and missing mean for the labels in the ring, with a cutoff and without |
| SlotRing.Ring.NextReadyCaptureSlot | crates/sidealsa-client/src/shared.rs:692-709 | the scan returns a ready slot if there is one; among labels within half the range no ready label is before it |
| SlotRing.OldestReadyIsOldest | crates/sidealsa-client/src/shared.rs:692-709 | whatever slot the scan starts at, no label it has met is before the one it has settled on, as long as all ready ones lie within half the range |
| SlotRing.Ring.TryClientReadCapture | crates/sidealsa-client/src/shared.rs:646-685 | hands out the chosen block whole and frees exactly its slot |
| SlotRing.NearestIsNearest | crates/sidealsa-client/src/shared.rs:726-750 | the scan for valid capture finds the label nearest to the minimum |
| SlotRing.NearestLabelIsUnique | crates/sidealsa-client/src/shared.rs:726-825 | that label does not depend on where the scan starts |
| SlotRing.Ring.OldestValidClientCaptureSequence | crates/sidealsa-client/src/shared.rs:726-750 | announces the nearest valid label, and drops and counts exactly the blocks before the minimum |
| SlotRing.Ring.TryClientReadValidCapture | crates/sidealsa-client/src/shared.rs:765-825 | returns the nearest valid block, and drops and counts exactly the expired ones |
| SlotRing.Ring.DiscardCaptureThrough | crates/sidealsa-client/src/shared.rs:827-859 | for every slot: a ready one whose label is the given one or before it is free afterwards, every other one is as it was; the count is that of the slots freed |
| SlotRing.Ring.ReclaimReadySlot | crates/sidealsa-client/src/shared.rs:913-926 | frees a slot only if it is ready |
| SlotRing.Ring.CaptureBuffer | crates/sidealsa-client/src/lib.rs:872-905 | the retry loop around a moving watermark does what the recursive acquisition says |
| CaptureQueue.FullWhenNoneFree | crates/sidealsa-client/src/shared.rs:483-526 | a publication fails only when every slot holds an unread block |
| CaptureQueue.PutRefines | crates/sidealsa-client/src/shared.rs:468-526 | a publication appends to the queue |
| CaptureQueue.ScanKeepsHead | crates/sidealsa-client/src/shared.rs:692-709 | a head that is before every other unread label is what the scan settles on, wherever it starts, across both wraps |
| CaptureQueue.HeadIsTakenWhenFirst | crates/sidealsa-client/src/shared.rs:692-709 | among labels that the order decides, reads from every start take the oldest block if and only if its label is before every other unread one |
| CaptureQueue.GetRefines | crates/sidealsa-client/src/shared.rs:646-709 | a read takes the head of the queue when its label is before every other unread one |
| CaptureQueue.RingIsABoundedQueue | crates/sidealsa-client/src/shared.rs:468-709 | every run whose reads find the head before the other unread labels answers like a bounded first-in first-out queue |
| CaptureQueue.ForwardKeepsHeadFirst | crates/sidealsa-client/src/shared.rs:468-709 | a run of forward labels is such a run |
| CaptureQueue.BackwardLabelOvertakes | crates/sidealsa-client/src/shared.rs:692-709 | a label published behind an unread one is read before it |
| CaptureLedger.AcquireConserves | crates/sidealsa-client/src/lib.rs:880-905 | one acquisition, with all its retries, moves each block from ready to returned or expired |
| CaptureLedger.AcquireIsValid | crates/sidealsa-client/src/lib.rs:880-905 | no returned label is before the watermark last read |
| CaptureLedger.AnnouncedIsReturned | crates/sidealsa-client/src/shared.rs:726-825 | the announced label is the one the next read returns while the watermark stays |
| CaptureLedger.StepsAreTheCalls | crates/sidealsa-client/src/shared.rs:468-750 | a publication goes into the first free slot or changes nothing; an announcement expires what is before its watermark |
| CaptureLedger.StepKeepsBalance | crates/sidealsa-client/src/lib.rs:882-899 | each part of an acquisition, each announcement and each publication keeps published = returned + expired + held + ready, for every single block |
| CaptureLedger.RunKeepsBalance | crates/sidealsa-client/src/lib.rs:872-905 | so does every run, with publications also between the two watermark loads of an acquisition |
| CaptureLedger.PartsAreAcquire | crates/sidealsa-client/src/lib.rs:880-905 | the parts of an acquisition, with nothing published in between, are the whole acquisition: same slots, block, index and count |
| SlotRingSteps.MoveKeepsInv | crates/sidealsa-client/src/shared.rs:468-709 | every atomic access of either side keeps ownership, contents and progress |
| SlotRingSteps.NeverWrittenWhileRead | crates/sidealsa-client/src/shared.rs:468-526 | in every interleaving the slot being written is not the slot being read |
| SlotRingSteps.DeliveriesArePublications | crates/sidealsa-client/src/shared.rs:579-709 | every delivered block is one publication's samples and label, none twice, and none is lost in between |
| SlotRingSteps.ScanChoosesNoLater | crates/sidealsa-client/src/shared.rs:692-709 | a scan never settles on a label later than one that was ready when it began |
| SlotRingProgress.PublishingAlone | crates/sidealsa-client/src/shared.rs:468-526 | a publication that is left alone ends, published just when its scan meets a free slot |
| SlotRingProgress.BeginningMeetsAll | crates/sidealsa-client/src/shared.rs:579-709 | where a scan begins, and that it will deliver just when a block it wants is ready and meets every block it must drop |
| SlotRingProgress.ConsumingAlone | crates/sidealsa-client/src/shared.rs:579-709 | a read that is left alone ends, and delivers one block, with a label it wants, just when it has chosen one or one that it wants is still before its scan; the next capture scan begins behind it |
| SlotRingProgress.CondemnedAreFreed | crates/sidealsa-client/src/shared.rs:579-859 | when a read or discard that is left alone has ended, every block it was going to meet and to drop is gone from its slot |
| SlotRingProgress.GoneWithReason | crates/sidealsa-client/src/shared.rs:579-859 | in every interleaving a publication goes only by being delivered, by being stale for the scan that frees it, or because an exact read came too late for it |
| Activation.StepKeepsInv | crates/sidealsa-client/src/shared.rs:349-399 | every access keeps one owner per claim, and a ready word beside its own start sequence |
| Activation.ReadyStartStands | crates/sidealsa-client/src/shared.rs:349-394 | while a word is ready its start sequence stands until it is withdrawn |
| Activation.ReadyVouchesForStart | crates/sidealsa-client/src/shared.rs:349-399 | in every interleaving a ready word names the generation and start sequence of the last activation that finished |
| Activation.EstablishingAloneMakesReady | crates/sidealsa-client/src/shared.rs:349-375 | a thread left alone makes a pending region ready with its own start sequence |
| Activation.ResettingAloneMakesPending | crates/sidealsa-client/src/shared.rs:376-399 | a thread left alone withdraws a region that is not claimed, into the current generation |
| CaptureWake.RunKeepsInv | crates/sidealsa-client/src/lib.rs:852-870 | every interleaving of publishing, notifying, draining and looking keeps the signal invariant |
| CaptureWake.NoLostWake | crates/sidealsa-client/src/lib.rs:852-870 | after an acquisition a ready block means a readable event or a notify still to come |
| CaptureWake.AcquiringAlone | crates/sidealsa-client/src/lib.rs:852-870 | an acquisition left alone leaves the event readable just when another block is ready |
| CaptureWake.WaitingAlone | crates/sidealsa-client/src/lib.rs:852-870 | a wait left alone leaves the event readable just when a second block is ready |
| CaptureWake.PublishingWakes | crates/sidealsa-client/src/lib.rs:852-870 | a publication wakes a sleeping client |
| CaptureWake.OneReadMayLeaveABlock | crates/sidealsa-client/src/lib.rs:852-870 | an acquisition that returned without looking again could leave a ready block that nothing signals |
| PlaybackPlan.PlannedIsPlayable | crates/sidealsa-alsa/src/lib.rs:1212-1296 | a label planned without expiry and past the publish test is not consumed yet |
| PlaybackPlan.PlayableIsKept | crates/sidealsa-alsa/src/lib.rs:1212-1251 | every label still playable is kept as it is |
| PlaybackPlan.PlayableOnCounts | crates/sidealsa-alsa/src/lib.rs:1280-1296 | on ideal counts: playable is at most one ahead of the cycle and not older than the latency, or than the cycle itself |
| PlaybackPlan.SharedPlanIsMaximum | crates/sidealsa-alsa/src/lib.rs:1212-1233 | a shared label is moved up to the oldest one not consumed, and the labels passed over count as expired |
| PlaybackPlan.RealignMovesByDiscarded | crates/sidealsa-alsa/src/lib.rs:1190-1209 | the next label moves by exactly the whole periods discarded |
| PlaybackPlan.AlignedToNewest | crates/sidealsa-alsa/src/lib.rs:1234-1250 | a fresh queue ends at the newest label, but starts no earlier than the earliest playable |
| PlaybackPlan.FreshPlanOnCounts | crates/sidealsa-alsa/src/lib.rs:1234-1250 | the same on ideal counts |
| PlaybackPlan.ProPlanIsMaximum | crates/sidealsa-alsa/src/lib.rs:1253-1270 | a PRO label becomes the latest of itself, the cycle and the watermark, and the whole way counts as expired |
| PlaybackPlan.ForwardDistanceOnCounts | crates/sidealsa-alsa/src/lib.rs:1298-1304 | the distance of the counts, and none when the count has gone back |
| PlaybackHistory.Realign | crates/sidealsa-alsa/src/lib.rs:872-894 | an expiry records exactly the whole periods it discards, end to end and each under its own label, and sends nothing; a partial tail goes only with the last of them, when the FIFO empties |
| PlaybackHistory.StartOver | crates/sidealsa-alsa/src/lib.rs:872-880 | a PRO expiry ends the run of labels: the account goes on behind the dropped frames, under the new label, and says whether the pointer stays bounded |
| PlaybackHistory.Submit | crates/sidealsa-alsa/src/lib.rs:908-925 | a submission takes the front period under its label and sends exactly its frames |
| PlaybackHistory.Unqueue | crates/sidealsa-alsa/src/lib.rs:634-650 | a rewind of unlocked frames removes no padding and exactly as many accepted frames |
| PlaybackHistory.RawIsBounded | crates/sidealsa-alsa/src/lib.rs:570-597 | the raw pointer stays within what has left the FIFO, and without errors reaches it with the watermark |
| PlaybackHistory.PositionOnCounts | crates/sidealsa-alsa/src/lib.rs:570-597 | the raw pointer is the frames of the periods between two counts, and the stored position when the count is behind |
| PlaybackHistory.PositionIsBounded | crates/sidealsa-alsa/src/lib.rs:558-597 | the reported position is at most accepted less queued frames, also after an expiry that keeps the bound, with equality when all of a clean stream is consumed |
| PlaybackHistory.ExpiryKeepsBound | crates/sidealsa-alsa/src/lib.rs:872-880 | the bound survives a PRO expiry if and only if there was a whole queued period for every expired label |
| PlaybackHistory.ExpiryMayOverstate | crates/sidealsa-alsa/src/lib.rs:872-880 | four labels expire with one period queued: the pointer then reaches five frames of the two ever queued |
| PlaybackHistory.ProSendsTheStream | crates/sidealsa-alsa/src/lib.rs:820-932 | the k-th block a clean PRO stream sends is the k-th period of what was queued, under the k-th label |
| PlaybackStream.PlanFront | crates/sidealsa-alsa/src/lib.rs:861-871 | what a plan lets through is playable, and an existing label is never replaced; a PRO plan is not before the watermark, and expires just the labels before the cycle or the watermark |
| PlaybackStream.Stream.AppendFrames | crates/sidealsa-alsa/src/lib.rs:1347-1376 | the FIFO array ends with the new frames and is otherwise unchanged |
| PlaybackStream.Stream.DropFront | crates/sidealsa-alsa/src/lib.rs:1329-1345 | the FIFO array loses its front in place, and the locked part shrinks with it |
| PlaybackStream.Stream.ClearFifo | crates/sidealsa-alsa/src/lib.rs:949-956 | a cleared FIFO begins a new account; nothing sent changes |
| PlaybackStream.Stream.ReuseObserved | crates/sidealsa-alsa/src/lib.rs:823-847 | the observed cycle is reused just when it is still current and the next label publishable, and refused just when the clock ran backward or the order does not tell |
| PlaybackStream.Stream.Observe | crates/sidealsa-alsa/src/lib.rs:934-947 | accepts just the cycles that do not run backward |
| PlaybackStream.Stream.RealignFront | crates/sidealsa-alsa/src/lib.rs:872-894 | discards the expired frames in place, records exactly the whole periods discarded and moves the next label past them |
| PlaybackStream.Stream.DropExpired | crates/sidealsa-alsa/src/lib.rs:872-880 | a PRO expiry drops exactly the expired frames, sends nothing, starts a new run of labels and keeps the pointer bounded just when there was audio for every expired label |
| PlaybackStream.Stream.TakeSubmitted | crates/sidealsa-alsa/src/lib.rs:912-925 | the front period is recorded with its label, offset and cycle, and sent |
| PlaybackStream.Stream.SendFront | crates/sidealsa-alsa/src/lib.rs:908-925 | exactly the front period is handed over under its label and leaves the array |
| PlaybackStream.Stream.UpdatePosition | crates/sidealsa-alsa/src/lib.rs:1149-1163 | a shared position is the periods since the start, or an error leaves it; which error when there is no start, no order or no room |
| PlaybackStream.Stream.ObservedCycle | crates/sidealsa-alsa/src/lib.rs:848-860 | a pass plans against the reused or the awaited cycle exactly when there is one, or ends without touching the queue |
| PlaybackStream.Stream.FlushPass | crates/sidealsa-alsa/src/lib.rs:822-930 | for every cycle and answer whether a pass submits, discards, waits, stops or fails; nothing queued is lost or relabelled; what it submits was planned against the current or the awaited cycle and carries the planned label, and a PRO label before the watermark is never submitted; an answer that takes the front period under the promised label is used for it, also when it fixes the first label and the start |
| PlaybackStream.Stream.ActOnPlan | crates/sidealsa-alsa/src/lib.rs:872-930 | an expired plan discards, or fails a PRO stream; otherwise the front period is submitted under exactly the planned label, waits for its cycle under it, or is left because the daemon takes nothing |
| PlaybackStream.Stream.SubmitFront | crates/sidealsa-alsa/src/lib.rs:908-929 | the daemon's answer decides between sending the front period and leaving everything |
| PlaybackStream.Stream.FlushBlocks | crates/sidealsa-alsa/src/lib.rs:820-932 | over the whole loop the queue only loses periods at its front, end to end, each under its own label and each submitted one against a cycle of the script; a whole period stays only without a cycle or when the daemon takes nothing; with enough accepting answers every whole period is sent |
| PlaybackStream.Stream.PadPeriod | crates/sidealsa-alsa/src/lib.rs:616-630 | pads to the next whole period, hides and locks the padding, and never overflows |
| PlaybackStream.Stream.Write | crates/sidealsa-alsa/src/lib.rs:704-750 | a write appends exactly the frames it reports; with enough accepting answers it takes all of them, while there is no cycle all there is room for, and it fails with the error that comes instead of a first cycle |
| PlaybackStream.Stream.WriteRound | crates/sidealsa-alsa/src/lib.rs:715-747 | one round copies what fits and then submits; only a full FIFO waits |
| PlaybackStream.Stream.QueuePrepared | crates/sidealsa-alsa/src/lib.rs:752-771 | before the start a write takes exactly what fits |
| PlaybackStream.Stream.FlushPartial | crates/sidealsa-alsa/src/lib.rs:773-779 | adds nothing but padding, and with enough accepting answers sends every whole period |
| PlaybackStream.Stream.Start | crates/sidealsa-alsa/src/lib.rs:530-556 | a start adds nothing but padding, succeeds while there is no cycle yet, and a failed one leaves a fresh account; with enough accepting answers it sends every whole period from the first label on |
| PlaybackStream.Stream.SubmitAll | crates/sidealsa-alsa/src/lib.rs:790-799 | a padded FIFO is emptied or the loop ends with an error; with enough accepting answers it is emptied |
| PlaybackStream.Stream.Drain | crates/sidealsa-alsa/src/lib.rs:781-818 | after a drain everything queued has left the FIFO and the last label sent has been consumed; it succeeds, from a running or a prepared stream, when enough answers take what is queued and one more finds it consumed; it fails with the error of the start or the one that comes instead of a first cycle |
| PlaybackStream.Stream.AwaitConsumed | crates/sidealsa-alsa/src/lib.rs:801-817 | returns only once the observed cycle has consumed the label, and does so at the first answer that shows it; it fails with the error of the last answer, or because the order does not tell or the clock ran backward |
| PlaybackStream.Stream.Rewind | crates/sidealsa-alsa/src/lib.rs:634-650 | takes back exactly the frames asked for, never padding, or drops the queue |
| PlaybackStream.Stream.Forward | crates/sidealsa-alsa/src/lib.rs:654-668 | queues exactly that much silence, or nothing |
| PlaybackStream.Stream.Reported | crates/sidealsa-alsa/src/lib.rs:558-597 | a running PRO stream reports at most accepted less queued frames as long as no error and no expiry beyond its queue came in between, and exactly the accepted ones when all of a clean one is consumed |
| PlaybackStream.Stream.ReportedOnCounts | crates/sidealsa-alsa/src/lib.rs:558-597 | on ideal counts, for shared and PRO streams: the whole periods since the start less what is hidden; the stored position while there is no start or when the stream does not run |
| PlaybackStream.Stream.Reset | crates/sidealsa-alsa/src/lib.rs:672-686 | drops what is queued, keeps what was sent, and hides what is left of it |
| PlaybackStream.ResetIsExact | crates/sidealsa-alsa/src/lib.rs:672-686 | a running reset hides exactly the frames that have left the FIFO if and only if the raw pointer stands at what ALSA was last shown plus what was hidden, or at the end of those frames |
| PlaybackStream.ResetIsExactWhenTold | crates/sidealsa-alsa/src/lib.rs:672-686 | with nothing hidden since: if and only if the raw pointer is still the one that was told, or has just reached what was hidden already |
| PlaybackStream.ResetMayBeInexact | crates/sidealsa-alsa/src/lib.rs:672-686 | a padded period that has not been played: one of its two frames is hidden |
| PlaybackStream.ResetAfterPlayingOn | crates/sidealsa-alsa/src/plugin.c:175-180 | one period has been played since ALSA was told: three frames are hidden and the daemon owned two |
| PlaybackStream.Stream.Pump | crates/sidealsa-alsa/src/lib.rs:326-338 | touches only running PRO streams and loses nothing; with enough accepting answers it sends every whole period |
| PlaybackStream.Stream.Stop | crates/sidealsa-alsa/src/lib.rs:253-263 | keeps the reported position and forgets the transfer |
| PlaybackStream.Stream.Prepare | crates/sidealsa-alsa/src/lib.rs:269-278 | begins a fresh account |
| PlaybackStream.Stream.ResetTransferState | crates/sidealsa-alsa/src/lib.rs:599-614 | begins a fresh account with nothing hidden |
| PlaybackStream.Stream.SetBufferSize | crates/sidealsa-alsa/src/lib.rs:298-319 | takes exactly the whole periods that fit, and only before anything is queued |
| Cursors.DistanceOfCounts | crates/sidealsa-alsa/src/plugin.c:159-164 | the wrap distance of two cursors is the distance of their counts |
| PlaybackCursors.MoveIsRecognised | crates/sidealsa-alsa/src/plugin.c:181-191 | with a boundary above two buffers every move of at most a buffer is told apart |
| PlaybackCursors.PlaybackPcm.Sync | crates/sidealsa-alsa/src/plugin.c:166-194 | the expected cursor stays congruent to the accepted frames through forwards, rewinds and resets; a move is refused just when it is not recognised, does not fit the buffer or would rewind locked frames; a reset is exact just when the pointer stands where ALSA was told |
| PlaybackCursors.PlaybackPcm.Reset | crates/sidealsa-alsa/src/plugin.c:175-180 | the count passed on a reset is what ALSA has queued behind the position last told, and what is hidden is exact just when the raw pointer agrees with it |
| PlaybackCursors.PlaybackPcm.QueuedBetween | crates/sidealsa-alsa/src/plugin.c:159-180 | the distance from the reported to the expected cursor is the accepted less the shown frames |
| PlaybackCursors.PlaybackPcm.Transfer | crates/sidealsa-alsa/src/plugin.c:196-223 | a write adds the move and the frames written, and leaves the cursor behind them; a move that is not recognised or does not fit refuses it; without a move the frames are taken just as the stream takes them |
| PlaybackCursors.PlaybackPcm.Tell | crates/sidealsa-alsa/src/plugin.c:235-247 | the position is told modulo the boundary unless more than a buffer would be queued; it is never ahead of what was played |
| PlaybackCursors.PlaybackPcm.Pointer | crates/sidealsa-alsa/src/plugin.c:225-247 | moves are applied and prepared data submitted before the position is told; the reported cursor is the one of the position told; a move that is not recognised or does not fit is refused |
| PlaybackCursors.PlaybackPcm.Prepare | crates/sidealsa-alsa/src/plugin.c:112-130 | account and cursors start again together |
| BufferedCapture.CaptureStream.Arrive | crates/sidealsa-client/src/shared.rs:468-526 | a block is published at the end of the stream while the ring has room |
| BufferedCapture.CaptureStream.Validate | crates/sidealsa-alsa/src/lib.rs:1038-1050 | the first error sticks |
| BufferedCapture.CaptureStream.Acquire | crates/sidealsa-alsa/src/lib.rs:1052-1065 | holds the oldest unread block whole; for every sequence of events how it ends |
| BufferedCapture.CaptureStream.NextChunk | crates/sidealsa-alsa/src/lib.rs:1080-1103 | one part of a read checks, waits just when it holds nothing and may wait, acquires, and takes the next frames |
| BufferedCapture.CaptureStream.Retire | crates/sidealsa-alsa/src/lib.rs:1087-1103 | the frames retired are the next ones of the published stream |
| BufferedCapture.CaptureStream.CopyOut | crates/sidealsa-alsa/src/lib.rs:1074-1106 | parts are copied until all is there or an error ends it, and the stream is checked after the last one |
| BufferedCapture.CaptureStream.Transfer | crates/sidealsa-alsa/src/lib.rs:1067-1117 | the frames returned continue the published stream exactly where the last call left it; a short read holds nothing back unless the stream failed, and without errors all that is there is returned, up to what was asked for; with nothing to return the error is the first one met, and it sticks unless it only says that nothing is there |
| BufferedCapture.CaptureStream.CaptureSync | crates/sidealsa-alsa/src/lib.rs:441-498 | a move of the cursor skips exactly its distance, or poisons the stream; without errors a move within the buffer and what is published succeeds, and one beyond that or between senseless cursors fails |
| BufferedCapture.CaptureStream.Skip | crates/sidealsa-alsa/src/lib.rs:453-487 | skips block by block, and succeeds without errors within the buffer and what is published |
| BufferedCapture.CaptureStream.Position | crates/sidealsa-alsa/src/lib.rs:1166-1168 | the pointer is the count of all published frames, however they were read |
| BufferedCapture.WalkOneMore | crates/sidealsa-alsa/src/lib.rs:474-485 | reads and skips lie end to end on the published stream |
| BufferedCapture.CapturePcm.Sync | crates/sidealsa-alsa/src/plugin.c:145-157 | the expected cursor stays congruent to the frames walked, and a move that can be skipped is accepted |
| BufferedCapture.CapturePcm.Transfer | crates/sidealsa-alsa/src/plugin.c:196-223 | a read starts where the moved cursor stands, leaves the expected one behind it and returns what is there |
| BufferedCapture.CapturePcm.Prepare | crates/sidealsa-alsa/src/plugin.c:112-130 | both start again together |
| PacketLoop.DelayLineAdvances | crates/sidealsa-core/src/engine.rs:2715-2774 | a cycle writes the held chunk and all of the new packet but its last chunk |
| PacketLoop.Loop.WriteChunk | crates/sidealsa-core/src/engine.rs:3567-3619 | however it is split, a chunk is written whole and in order, or a prefix before an error |
| PacketLoop.Loop.BeginCycle | crates/sidealsa-core/src/engine.rs:2706-2713 | the epoch returned is the one just read, and audio staged in another one is not written |
| PacketLoop.Loop.WriteHeld | crates/sidealsa-core/src/engine.rs:2706-2723 | the held chunk comes first, tagged with the epoch just read |
| PacketLoop.Loop.Render | crates/sidealsa-core/src/engine.rs:2724-2738 | the packet is exactly what the source rendered in the epoch just read, silent where it left off; whether it fails or not, a capture is handed over only when it waited for this sequence |
| PacketLoop.Loop.ReadChunk | crates/sidealsa-core/src/engine.rs:3514-3565 | however it is split, a chunk of the scratch buffer is filled with the next frames of the capture stream |
| PacketLoop.Loop.Transfer | crates/sidealsa-core/src/engine.rs:2740-2828 | chunks alternate with capture reads; the captured period is the next one of the stream and waits for its own sequence plus the lead; a failure captures nothing else |
| PacketLoop.Loop.WriteAndProduce | crates/sidealsa-core/src/engine.rs:2706-2828 | the held chunk, then all of the packet just rendered but its last chunk; every frame carries the epoch just read |
| PacketLoop.Loop.Cycle | crates/sidealsa-core/src/engine.rs:2688-2832 | a clean cycle extends the delay line by what was rendered in it, in the epoch it read, and keeps the next period of the capture stream; nothing of an older epoch is written after a newer one was read; even a failing cycle captures only its own period and hands over only what waited for it |
| PacketLoop.Loop.Recover | crates/sidealsa-core/src/engine.rs:2665-2678 | nothing staged or waiting survives a recovery, nothing is captured or handed over in it, and the output goes on with filler |
| PacketLoop.Loop.OutputIsDelayLine | crates/sidealsa-core/src/engine.rs:2602-2832 | since the last fresh start the output is one chunk of filler and then the periods the source rendered, each in the epoch read in its cycle, less the last chunk |
| PacketLoop.Loop.Run | crates/sidealsa-core/src/engine.rs:2602-2685 | a run without failures in one epoch: the k-th cycle adds the k-th rendered period under the k-th sequence and captures the k-th period of the stream; with a lead of one each capture but the last is handed over one cycle later. A run ends with a failure only if that one is not recoverable or is the recovery's own, and without a recovery after a fatal one; when all failures are recoverable ones in a cycle and the recoveries are clean it ends normally, with one trail entry per cycle tried, at the limit or when its cycles or the stop flag end it; every cycle follows the one before under the next sequence |
| PacketLoop.DeferredIsItsCapture | crates/sidealsa-core/src/engine.rs:2602-2832 | over any run with failures and recoveries a capture handed over is the whole period captured in the cycle right before, under its sequence, which the lead takes to this one |
| PacketLoop.SteadyOneMore | crates/sidealsa-core/src/engine.rs:2602-2685 | one more clean cycle in the same epoch extends a steady run |
| ProClock.StepRefines | crates/sidealsa-core/src/engine.rs:3484-3512 | near the same count, the wrapping steps are the ideal ones |
| ProClock.StepKeepsInv | crates/sidealsa-core/src/engine.rs:3480-3512 | no step moves a counter back, and labels rise and are never behind the target read |
| ProClock.RecoveryCatchesUp | crates/sidealsa-core/src/engine.rs:3494-3502 | after a recovery capture is at most lead plus one periods ahead, and no label is skipped for it |
| ProClock.CountersNeverMoveBack | crates/sidealsa-core/src/engine.rs:1046-1074 | over any interleaving playback sequence, target and capture clock never move back |
| ProClock.MachineFollowsIdeal | crates/sidealsa-core/src/engine.rs:3425-3427 | after every run the machine words are the ideal counts wrapped, and the labels strictly rise |
| ProClock.TurnsSkipNoLabel | crates/sidealsa-core/src/engine.rs:3480-3512 | threads that take turns label one period after the other, the lead ahead of what is played |
| StartupLoopback.Probe.Emit | crates/sidealsa-core/src/engine.rs:1150-1159 | each piece carries its part of the probe |
| StartupLoopback.Probe.Observe | crates/sidealsa-core/src/engine.rs:1161-1189 | a piece is observed sample by sample, up to the first fault |
| StartupLoopback.ObserveSplit | crates/sidealsa-core/src/engine.rs:1161-1189 | observing does not depend on how a block is split |
| StartupLoopback.LosslessBlock | crates/sidealsa-core/src/engine.rs:1161-1189 | a lossless loopback shows each marker once, with the true delay |
| StartupLoopback.MeasuredMeaning | crates/sidealsa-core/src/engine.rs:1191-1206 | a delay is measured just when all three markers show it and it is the one expected; a marker with another one is not the target or unstable; otherwise the probe goes on |
| StartupLoopback.MeasuredOfLossless | crates/sidealsa-core/src/engine.rs:1191-1206 | the measured delay is the true one, once all markers are back |
| StartupLoopback.CapturedCarries | crates/sidealsa-core/src/engine.rs:1267-1310 | reading before playing, capture carries the probe behind its logical delay and no foreign marker |
| StartupLoopback.Loopback.Read | crates/sidealsa-core/src/engine.rs:1276-1292 | a period read in any pieces is observed as one block |
| StartupLoopback.Loopback.Play | crates/sidealsa-core/src/engine.rs:1293-1309 | a period played in any pieces is the probe |
| StartupLoopback.Loopback.Measure | crates/sidealsa-core/src/engine.rs:1260-1320 | a phase measures the logical delay before the limit of four intervals |
| StartupLoopback.Loopback.Normalize | crates/sidealsa-core/src/engine.rs:1241-1346 | succeeds just when the delay is at most the target and the padding fits; inserts exactly the difference and then measures the target; which fault it ends with otherwise |
| DirectCutoff.CutoffKeepsReserve | crates/sidealsa-core/src/engine.rs:3853-3877 | waiting until the cutoff never plays more than the queued frames beyond the reserve |
| DirectCutoff.CutoffIsLatest | crates/sidealsa-core/src/engine.rs:3853-3877 | and a cut handoff is the longest that does not |
| DirectCutoff.AutomaticCutoffIgnoresQueue | crates/sidealsa-config/src/lib.rs:694-704 | in automatic mode every queue of a period or more gives the same cutoff |
| DirectCutoff.AutomaticHandoffIsLongest | crates/sidealsa-config/src/lib.rs:694-704 | the automatic handoff is the time to play a period less the reserve, rounded down |
| DirectCutoff.ReserveFitsPeriod | crates/sidealsa-config/src/lib.rs:488-492 | the reserve is at most a period, and it is a quarter of it or a third of a millisecond, whichever is less, rounded up |
| DirectCutoff.HandoffKeepsReserve | crates/sidealsa-core/src/engine.rs:1790-1802 | a deferred handoff keeps its reserve too |
| DirectCutoff.HandoffIsLatest | crates/sidealsa-core/src/engine.rs:1790-1802 | and one that is cut off before its configured end could not have been longer |
| LatencyGuard.Sort | crates/sidealsa-core/src/latency.rs:88 | the window is sorted in place and keeps its samples |
| LatencyGuard.MedianIsMajority | crates/sidealsa-core/src/latency.rs:88-94 | the median of nine reaches a level just when five samples do |
| LatencyGuard.SamplePeriodsIsLeastPower | crates/sidealsa-core/src/latency.rs:26-28 | the sampling interval is the least power of two that is at least a twelfth of the periods in a second |
| LatencyGuard.Guard.constructor | crates/sidealsa-core/src/latency.rs:24-46 | a period in nanoseconds is rounded down, and the evidence lasts ten seconds or three windows of samples |
| LatencyGuard.Guard.Ready | crates/sidealsa-core/src/latency.rs:53-70 | a new generation forgets everything; a late cycle in the same one is a stall |
| LatencyGuard.Guard.Completed | crates/sidealsa-core/src/latency.rs:72-76 | a cycle longer than a period is a stall |
| LatencyGuard.Guard.Sample | crates/sidealsa-core/src/latency.rs:78-100 | fires just when the last two windows after the baseline each have five samples a period above it and closed near a stall |
| LatencyGuard.Guard.CloseWindow | crates/sidealsa-core/src/latency.rs:87-99 | the first full window sets the baseline; every other is judged against it |
| AsioGate.StepKeepsInv | crates/sidealsa-asio/src/lib.rs:1265-1309 | every step of host, worker or daemon keeps the gate's invariant |
| AsioGate.NoCallbackAfterStop | crates/sidealsa-asio/src/lib.rs:1553-1674 | with the current stop acknowledged the worker is not about to call back |
| AsioGate.QuietUntilNextCommand | crates/sidealsa-asio/src/lib.rs:1553-1674 | no callback begins after an acknowledged stop until a newer command |
| AsioGate.StopsFollowPlayback | crates/sidealsa-asio/src/lib.rs:1701-1756 | outside recovery a worker that owns playback acknowledges a stop only after all its run submitted was played |
| AsioGate.PlayedStopIsAcknowledged | crates/sidealsa-asio/src/lib.rs:1594-1607 | an adopted stop is acknowledged at the next look at the watermark once all its run is played, and the host's wait ends |
| AsioGate.EmptyStopIsAcknowledged | crates/sidealsa-asio/src/lib.rs:1746-1755 | a stop adopted with nothing submitted is acknowledged at once |
| AsioGate.IdleStopIsAcknowledged | crates/sidealsa-asio/src/lib.rs:1562-1607 | a worker without playback acknowledges an adopted stop before it waits and when it drains |
| AsioGate.StopsCanComplete | crates/sidealsa-asio/src/lib.rs:1553-1674 | from every reachable state in which the host waits for a stop and the run is played out, the worker's own moves and a block to look at lead to its acknowledgement |
| AsioGate.RunningDecision | crates/sidealsa-asio/src/lib.rs:1609-1652 | while running a newer block is played, a repeated one dropped, and a backward one starts a recovery |
| AsioGate.RunningWaits | crates/sidealsa-asio/src/lib.rs:1553-1574 | a running worker that has adopted its generation comes back to waiting for a block |
| AsioGate.NewBlockIsPlayed | crates/sidealsa-asio/src/lib.rs:1584-1671 | a new block of the running generation begins one callback, and joins the run when the daemon takes it |
| AsioGate.HostGoesOn | crates/sidealsa-asio/src/lib.rs:587-719 | in every reachable state the host can start when it is not running and stop when it is, with a new command each time, and start again once its stop is acknowledged |
| AsioGate.RunIsAcknowledged | crates/sidealsa-asio/src/lib.rs:1727-1745 | a run that was ordered is acknowledged as running before anything of it is played |
| AsioGate.RecoveryIsAcknowledged | crates/sidealsa-asio/src/lib.rs:1701-1725 | a recovery forgets the run, adopts the command of the moment and acknowledges it, whichever it is |
| AsioGate.CallbacksAreFresh | crates/sidealsa-asio/src/lib.rs:1584-1656 | a callback's block was acquired in its own running generation, newer than every acknowledged stop |
| AsioGate.BlocksRise | crates/sidealsa-asio/src/lib.rs:1609-1671 | a run never submits a block twice, and none behind another |
| AsioGate.HostAndWorkerNeverPublishTogether | crates/sidealsa-asio/src/lib.rs:587-624 | the host clears the position only while the worker cannot publish one |
| PositionSnapshot.StepKeepsInv | crates/sidealsa-asio/src/lib.rs:188-225 | every access keeps what the writer stored and what the reader has seen |
| PositionSnapshot.LoadsNeverTear | crates/sidealsa-asio/src/lib.rs:209-223 | a load returns a pair of one publish, none older than the last complete when it began |
| PositionSnapshot.PublishingAlonePublishes | crates/sidealsa-asio/src/lib.rs:198-207 | a writer left alone publishes its pair |
| PositionSnapshot.LoadingAloneLoadsLast | crates/sidealsa-asio/src/lib.rs:209-223 | a load that no writer disturbs returns the last pair published, at once |
| AsioCycle.AdvanceIsExact | crates/sidealsa-asio/src/lib.rs:1768-1793 | however many periods are missed, parity and position are those of counting each |
| AsioCycle.ExpectedMeans | crates/sidealsa-asio/src/lib.rs:1768-1793 | counting each period gives the buffer of the parity of the periods passed and the frames of these periods |
| AsioCycle.RejectedCycles | crates/sidealsa-asio/src/lib.rs:1781-1787 | exactly the same sequence is a duplicate, exactly the earlier and the half-way one run backward |
| AsioCycle.RunIsExact | crates/sidealsa-asio/src/lib.rs:1615-1656 | over a run with gaps every callback has the parity and position of its distance from the first |
| ProfileRevision.Revision | crates/sidealsa-admin/src/lib.rs:361-368 | the loop computes the hash of the whole text |
| ProfileRevision.XorByteIsBitwise | crates/sidealsa-admin/src/lib.rs:363-366 | every bit of the hash changes just where the byte has one |
| ProfileRevision.KnownAnswers | crates/sidealsa-admin/src/lib.rs:361-368 | the published hashes of the empty text and of one letter |
| ProfileRevision.MixIsInjective | crates/sidealsa-admin/src/lib.rs:363-366 | a step loses neither a different hash nor a different byte |
| ProfileRevision.OneByteEditChangesRevision | crates/sidealsa-admin/src/lib.rs:361-368 | changing one byte always changes the revision |
| ProfileTransaction.Host.AtomicReplace | crates/sidealsa-admin/src/lib.rs:370-409 | the file changes just when the rename was committed |
| ProfileTransaction.Host.RestoreOriginal | crates/sidealsa-admin/src/lib.rs:438-463 | for every schedule how restoring ends: with the original written, synchronized, restarted and verified, or with the first step that fails |
| ProfileTransaction.Host.RollbackAfterFailure | crates/sidealsa-admin/src/lib.rs:425-436 | rolled back just when the original was restored, and then the daemon was last verified on it; otherwise failed, with both causes |
| ProfileTransaction.Host.Apply | crates/sidealsa-admin/src/lib.rs:308-359 | for every schedule exactly one outcome, from the schedule alone: a failed read, a conflict, an invalid timing, unchanged or a runtime failure, a failed write with its cause, applied, or what the rollback came to; with it what the file then is and what was verified last |

## Left out

- `reset_slots` during a transfer: it stores FREE unconditionally, so exclusion is stated for runs without it.
- Activation.ReadyVouchesForStart: does not model the 20 ms timeout after which a reset overrides a stuck claim, nor generations wrapping at 62 bits.
- Lifecycle and hardware generation checks of the client: they appear as arbitrary errors.
- Channels: the frames of all channels count as one value, and the scalar and AVX2 sample copies are not compared.
- ALSA, eventfd, poll, mmap, sockets, clocks and scheduling: their answers are arguments or scripts.
- PlaybackStream.Stream.FlushBlocks: takes a finite script of answers and reports `Unfinished` when all are used up, because the loop waits as long as the daemon makes it wait; Write, Start and Drain do so too.
- PlaybackCursors.PlaybackPcm.Pointer: the fallback to the buffer size before ALSA has set a boundary is left out.
- PlaybackStream.Stream.Reported: the bound speaks of PRO streams without an error, an expiry beyond the queue or an inexact reset since the transfer state was last reset; a drain can lower the position, because padding is hidden when it is queued.
- Partial frames of the FIFO: when every whole period has expired, a partial tail is dropped with the last of them; labels are therefore stated per whole period.
- Unbuffered (duplex) capture of the ALSA adapter: it only passes on what `CaptureBuffer` returns.
- The C side's XRUN check, error mapping, FFI null checks and area copies.
- BufferedCapture.CapturePcm.Transfer: an application cursor moved while the PCM is not running is adopted without a skip, as in the code; the claim covers the other calls.
- The direct duplex and threaded engine loops beside the label clock, phase calibration, and recovery's retries: recovery succeeds or fails.
- PacketLoop.Loop.Run: a recovery writes an arbitrary number of filler frames and misses an arbitrary number of captured ones; the startup probe is taken to be filler.
- SlotRing.Ring.CaptureBuffer: nothing is published inside the method; publications between its loads are in `CaptureLedger.RunKeepsBalance`, and single accesses in `slot_ring_steps.dfy`.
- ProClock.MachineFollowsIdeal: the two threads are taken to be less than half the sequence range apart.
- StartupLoopback.Loopback.Normalize: deadlines and transfer errors are not modelled, and the loopback is lossless with a delay of at least one period.
- LatencyGuard.Guard.Ready: times are 64-bit and do not wrap.
- Which cycles the engine samples for the latency guard: those whose sequence is a multiple of the sampling interval.
- AsioGate.CallbacksAreFresh: generations and block sequences are ideal counts; the driver's timeouts, disposal and worker exit paths only appear as a worker that stops.
- PositionSnapshot.LoadsNeverTear: the guard counter is an ideal count, so 2^64 publications during one load are excluded.
- ProfileTransaction.Host.Apply: nobody else writes the profile during the transaction; parsing, editing and rendering are arbitrary functions.
- TOML editing, PipeWire and ALSA configuration rendering, geometry helpers, argument parsing, the Wine shim and statistics: easy members or text work.
