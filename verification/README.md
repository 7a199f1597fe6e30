# Models of three drivers

Three of the repository's drivers, each with the properties it is for.

**The UDA1341 sound driver** (`audio/oss/philips_UDA1341/s3c2410-uda1341.c`). A ring of audio fragments is carved out of DMA
memory. A user process fills or drains the current fragment under that fragment's semaphore; the DMA channel takes fragments
in order and ups the semaphore when it is done. The ring as a value and the facts about who owns what are in `FragmentRing`,
`PlaybackRing` and `CaptureRing`. The driver's objects that hold it in place are in `AudioStreams` (set-up, clearing, the
in-place steps), `Playback` and `Capture` (write, sync, read, the ioctls). DMA completions happen at any point between two
steps (`Interrupts`), also while the driver holds a fragment, before and after it copies: every contract of a write, a read
or a drain holds for each interleaving. The ghost results `done` and `arrived` are the completions that fell inside the call;
the room in the ring and the number of bytes stored by the hardware tie them down. The refinement to a byte queue is the last
line of `PlaybackRing.Playing` and of `CaptureRing.Capturing`; `Sessions` carries it over any sequence of calls from open to
release. Around the ring:
`MonoStereo` (word-wise sample doubling in 32-bit arithmetic), `FragmentSize` (the clamps of SETFRAGMENT), `L3Bus` (the
bit-banged control bus and a receiver for it) and `Prescaler` (the clock search).

**The DRV2605 vibrator driver** (`DRV2605/drivers_haptics_drv2605.c`). `Haptics` says what each routine does to the driver's
fields and to the chip. `HapticsDriver` has the routines as they run, changing fields one after the other, each proved equal
to its function. `HapticsSystem` interleaves any number of callers, the timer and the work item. `HapticsTraces` gives the
exact register writes of a pattern and of a sequence, and `HapticsPlayback` shows that every run of the interleaved system in
which no caller interferes produces them. `HapticsCommands` does the same for waveforms, timed vibrations and every other
command, and says what stopping, resuming and probing show the chip. `HapticsRest` shows that whatever was going on comes to rest.

**The LSM303C accelerometer driver** (`i2c/lsm303c/lsm303c/lsm303c_acc.c`). `Accelerometer` has the chip's registers, the
driver's shadow of them, and the settings the user has asked for; `AccelerometerSessions` has any sequence of calls.

## Assumptions

- The DMA channel completes its requests in the order in which they were queued. A completed capture request has stored the
  whole fragment and reports its size.
- One process uses a stream at a time. A blocked process wakes up when the fragment it waits for completes, or on a signal;
  the parameter `calm` of a call says that no signal comes while it lasts.
- The steps between which completions fall are: taking a fragment, copying and counting the bytes, and giving the fragment up
  or queueing it and moving on.
- A process's buffer is readable (or writable) up to some length; copying beyond that fails, as `copy_from_user` does.
- Integers are unbounded except where the source's width matters: the sample doubling (32-bit words), the prescaler's
  unsigned subtraction, and SETFRAGMENT's argument. A shift by 32 or more is taken as the ARM performs it, on the low byte of
  the count.
- The DRV2605 critical sections are atomic except for the start of the timer or work item that ends them, which a cancelling
  caller can race; `cancel_work_sync` returns only when the work item is not running. The work modes, device modes and MODE
  register values are distinct; MAX_TIMEOUT and MAX_RTP_SEQ are parameters, because the header is not part of this model.
  The bytes of a command are unsigned.
- The allocators may refuse any request; what they refuse is recorded. A `generous` allocator, which serves every request as
  long as it has memory it has never given out, shows that nothing else makes a set-up fail.
- The LSM303C bus does not fail. Cutting the supply, where the board does that, leaves arbitrary register contents, which are
  a parameter (`noise`) of the call that does it.

## What turned out not to hold

- `Prescaler.NotAlwaysNearest`: the search is written to minimise a distance, but the difference is unsigned and the
  macro for the absolute value never negates it. The search finds the nearest rate from below only. With a 50 MHz bus clock it
  picks 7659 Hz for 8000 Hz although 8138 Hz is closer. `Prescaler.ChosenIsNearest` says exactly when what the search returns
  is the nearest rate, `Prescaler.NoCrossingIsFarthest` that it is the farthest when all rates are too high.
- `Haptics.AudioDisableLeavesAudio`: switching audio-to-haptics off does not always take the chip out of that mode. The
  lemma gives the exact condition; `HapticsRest.AudioModeIsLeftOn` is a run in which it happens.
- `Accelerometer.Sensor.UpdateFsRange`: a range change reads the other bits of CTRL4 from the chip even while the chip is off.
  The shadow is right afterwards exactly when those bits were right there; `AccelerometerSessions.LostRegistersBreakRange` is a
  sequence of calls in which they were not. Every later call keeps the rest of the invariant, and the chip is configured as
  asked for exactly when the last range change found those bits right (`AccelerometerSessions.Session`,
  `AccelerometerSessions.LastRangeDecides`).
- The space queries, GETOSPACE and GETISPACE: resetting and releasing a stream leave nbfrags as it was, and the queries then
  follow a null pointer. That happens exactly when there is no ring and there has been one, or an attempt at one
  (`Playback.OutputStream.GetOSpace`, `Capture.InputStream.GetISpace`); `Sessions.ResetThenAsk` is an instance. Before the first
  set-up GETOSPACE reports no room, although a write would be accepted. Once there is a ring, what it reports is exact, or, if
  fragments complete while it counts, lies between what was there before and what is there after.
- `L3Bus.StrayBitDecodes`: if the clock is low when the first byte to send is an address, the receiver hears one bit too many,
  and it gets the calls right only if they are all address 0. The driver avoids this by raising the clock first.
- A write or read that fails with -EFAULT does not tell how far it came. It fails exactly when fewer bytes can be read (or
  written) than it would have moved, and then it has moved the whole fragments that those make up
  (`Ended` in the contracts of `Playback.OutputStream.Write` and `Capture.InputStream.Read`): more than nothing exactly when the
  rest of the current fragment fits (`Playback.Boundary`, `CaptureRing.Covered`). `Sessions.WriteHidesProgress` and
  `Sessions.ReadHidesProgress` are instances.

## Model

| member | source | states |
|---|---|---|
| Sessions.PlaySession | audio/oss/philips_UDA1341/s3c2410-uda1341.c:359-515 | For any sequence of writes, syncs, SETFRAGMENTs, resets and pauses and any completions: after every call, what the DMA channel has played from memory since the last reset is a prefix of what the writes consumed (doubled if mono), and only grows; all of it when a sync has returned 0, and at the end if no signal interrupts the final drain; each call returned what it consumed or failed in a way that is told, for want of memory only if the allocator refused some; every allocation has been given back. |
| Sessions.CaptureSession | audio/oss/philips_UDA1341/s3c2410-uda1341.c:367-602 | For any sequence of reads of any sizes, SETFRAGMENTs, resets and pauses and any completions: after every call, the bytes returned since the last reset, put together, are the signal from that reset on; nothing lost, repeated or reordered; each read returned its count or failed in a way that is told; no allocation is left. |
| Sessions.AskThenWrite | audio/oss/philips_UDA1341/s3c2410-uda1341.c:873-894 | A write of any number n of bytes consumes the greatest multiple of 4 in n, or what fits the room if that is less, and returns that, or -EAGAIN or -ERESTARTSYS exactly if it consumed nothing of 4 bytes or more; what GETOSPACE reported is that room, but for the fragments that complete meanwhile (half of it in mono); before the first set-up it reports 0, and it crashes exactly when there has been a ring and is none. |
| Sessions.AskThenRead | audio/oss/philips_UDA1341/s3c2410-uda1341.c:896-922 | A non-blocking read of n bytes returns exactly the least of n and what is ready or arrives, oldest bytes first, and -EAGAIN exactly if there is nothing and n is not 0; what GETISPACE reported is what is ready, but for what arrives while it counts; it crashes exactly when there has been a ring and is none. |
| Sessions.CallOn | audio/oss/philips_UDA1341/s3c2410-uda1341.c:531-593 | At every point of a session in which SETFRAGMENT has not been used for input, no fragment left to the reader is empty: one read to its end is with the DMA channel. |
| Sessions.ResetThenAsk | audio/oss/philips_UDA1341/s3c2410-uda1341.c:279-301 | SETFRAGMENT, RESET and GETOSPACE: the query crashes. |
| Sessions.WriteHidesProgress | audio/oss/philips_UDA1341/s3c2410-uda1341.c:472-495 | Fragments of 16 bytes and 16 readable bytes of 32: 16 bytes are taken and -EFAULT is returned. |
| Sessions.ReadHidesProgress | audio/oss/philips_UDA1341/s3c2410-uda1341.c:570-578 | The same for a read into 16 writable bytes of 32. |
| Playback.OutputStream.Write | audio/oss/philips_UDA1341/s3c2410-uda1341.c:437-515 | The bytes accepted grow by exactly the expanded first `consumed` bytes of the buffer; room shrinks by what they take and grows by a fragment per completion; the count is the greatest multiple of 4 in what was asked for, or what fits that room; -EFAULT exactly if fewer bytes than that can be read, after the whole fragments that those make up; -ENOMEM exactly if the allocator refused the descriptors or a single fragment; -EAGAIN (non-blocking) or -ERESTARTSYS (blocking) exactly if nothing was taken of 4 bytes or more, and otherwise the count taken; a blocking write takes everything up to the multiple of 4 unless a signal comes. |
| Playback.WroteOutright | audio/oss/philips_UDA1341/s3c2410-uda1341.c:457-511 | The count taken and the value returned, in plain numbers, for any write that does not fail. |
| Playback.OutputStream.WriteLoop | audio/oss/philips_UDA1341/s3c2410-uda1341.c:457-508 | The loop ends, with all consumed, a fault at the beginning of a fragment, or no free fragment: then there is no room at all, and a blocking caller got a signal. |
| Playback.OutputStream.Turn | audio/oss/philips_UDA1341/s3c2410-uda1341.c:472-507 | A granted turn takes at least two bytes, accepts exactly the taken stretch, pays for it in room, and ends the loop only when the count is used up; a fault takes nothing. Fragments that complete meanwhile only add room. |
| Playback.Chunk | audio/oss/philips_UDA1341/s3c2410-uda1341.c:472-485 | In mono and stereo: a chunk of whole frames, at least 2 bytes, never more than fits, and either all that is asked or all that fits. |
| Playback.Boundary | audio/oss/philips_UDA1341/s3c2410-uda1341.c:472-495 | How far whole fragments come in the readable bytes: nowhere unless the rest of the current one fits, else to within one fragment of their end. |
| Playback.OutputStream.Fill | audio/oss/philips_UDA1341/s3c2410-uda1341.c:472-495 | Filling extends the accepted bytes by the (doubled) user bytes and changes nothing else, even if the copy fails half way. |
| Playback.OutputStream.Queue | audio/oss/philips_UDA1341/s3c2410-uda1341.c:504-507 | Handing over the current fragment resets its size and moves on; no byte is lost or repeated, and the invariant holds without the semaphore being held. |
| Playback.OutputStream.DmaOutDone | audio/oss/philips_UDA1341/s3c2410-uda1341.c:359-365 | A completion plays what memory holds at the request's place, which is what was queued there, and frees exactly the oldest fragment. |
| Playback.OutputStream.Sync | audio/oss/philips_UDA1341/s3c2410-uda1341.c:376-400 | On return 0 the DMA queue is empty and every byte accepted has been played; -EINTR only if a signal comes; nothing accepted is lost either way. |
| Playback.OutputStream.QueuePartial | audio/oss/philips_UDA1341/s3c2410-uda1341.c:386-392 | A part filled fragment can be taken without blocking and is queued. |
| Playback.OutputStream.AwaitFragment | audio/oss/philips_UDA1341/s3c2410-uda1341.c:394-397 | Waiting for one fragment ends, with its semaphore up again; all that has changed is that queued fragments have completed. |
| Playback.OutputStream.GetOSpace | audio/oss/philips_UDA1341/s3c2410-uda1341.c:873-894 | `bytes` lies between the room of the writer's fragments at the start and at the end of the count, `frags` between the numbers of free fragments with nothing in them; both exact if nothing completes; both 0 before the first set-up; a crash exactly when there has been a ring and is none. |
| Playback.OutputStream.SetFragment | audio/oss/philips_UDA1341/s3c2410-uda1341.c:831-849 | -EBUSY on a ring that is set up, else 0 or -ENOMEM, that exactly if the allocator refused the descriptors or a single fragment; on success the size and number that `FragmentSize.AsAsked` gives in plain numbers, at most 128 KiB, all of it free room. |
| Playback.OutputStream.Release | audio/oss/philips_UDA1341/s3c2410-uda1341.c:1023-1029 | Draining, then giving back exactly the stream's own allocations. |
| Playback.OutputStream.Reset | audio/oss/philips_UDA1341/s3c2410-uda1341.c:923-930 | Gives back exactly the stream's own allocations, with nothing queued any more. |
| Playback.ExpandConcat | audio/oss/philips_UDA1341/s3c2410-uda1341.c:457-508 | Expanding a buffer piece by piece, at frame boundaries, gives the expansion of the whole. |
| PlaybackRing.PlayedInOrder | audio/oss/philips_UDA1341/s3c2410-uda1341.c:359-508 | At every point: what was played is a prefix of what was accepted, and equal to it exactly when nothing is queued and nothing part filled. |
| PlaybackRing.FillPlays | audio/oss/philips_UDA1341/s3c2410-uda1341.c:472-495 | Writing user bytes behind the filled part keeps the invariant: no queued fragment's bytes change. |
| PlaybackRing.FillLeavesQueued | audio/oss/philips_UDA1341/s3c2410-uda1341.c:472-495 | Memory under any queued request reads as when it was queued, whatever is copied into the current fragment. |
| PlaybackRing.SubmitPlays | audio/oss/philips_UDA1341/s3c2410-uda1341.c:504-507 | Queueing the current fragment keeps the invariant; the room lost is what was not filled. |
| PlaybackRing.CompletionStep | audio/oss/philips_UDA1341/s3c2410-uda1341.c:359-365 | A completion keeps the invariant and makes one fragment of room. |
| PlaybackRing.BlockedHasNoRoom | audio/oss/philips_UDA1341/s3c2410-uda1341.c:462-470 | A writer that blocks has filled all room there is, and waits for the very next completion. |
| PlaybackRing.PartFilledIsFree | audio/oss/philips_UDA1341/s3c2410-uda1341.c:386-387 | A part filled current fragment is never with the DMA channel. |
| PlaybackRing.LastFragmentTellsAll | audio/oss/philips_UDA1341/s3c2410-uda1341.c:394-397 | The fragment before the current one is free if and only if nothing is queued at all. |
| PlaybackRing.RoomsAddUp | audio/oss/philips_UDA1341/s3c2410-uda1341.c:883-888 | Summing over fragments whose semaphore is up gives the writer's room. |
| PlaybackRing.IdlesAddUp | audio/oss/philips_UDA1341/s3c2410-uda1341.c:883-888 | Counting the empty ones among them gives the free fragments, less a part filled one. |
| PlaybackRing.CountsGrow | audio/oss/philips_UDA1341/s3c2410-uda1341.c:883-888 | Completions only raise what the space query counts, fragment by fragment. |
| Capture.InputStream.Read | audio/oss/philips_UDA1341/s3c2410-uda1341.c:518-602 | Whatever arrives meanwhile: the bytes returned are the oldest of those ready or arriving, as many as asked for or all there are; -EFAULT exactly if fewer can be written than that, after the whole fragments that fit; the hardware stored exactly what arrived; the chunks left are those not returned in full; the requests made and completed account for the queue, in ring order; -EAGAIN (non-blocking) or -ERESTARTSYS (blocking) exactly if there was nothing to return and something was asked for, and otherwise the number of bytes returned; a blocking read gets all it asked for unless a signal comes. |
| Capture.InputStream.ReadLoop | audio/oss/philips_UDA1341/s3c2410-uda1341.c:556-594 | The loop ends although a turn may return nothing (a fragment never filled is passed on): with all that was asked, a fault at the beginning of a fragment, or nothing left to read. |
| Capture.InputStream.Turn | audio/oss/philips_UDA1341/s3c2410-uda1341.c:570-593 | A turn hands out the oldest bytes; a fragment read in full is queued again, whole and once, and no other is; what completes meanwhile leaves the queue in order. |
| Capture.InputStream.Drain | audio/oss/philips_UDA1341/s3c2410-uda1341.c:570-580 | What is copied out of a partly read fragment is its oldest unread bytes. |
| Capture.InputStream.Queue | audio/oss/philips_UDA1341/s3c2410-uda1341.c:589-593 | A fully read fragment goes back to the DMA channel, whole, and the next becomes current. |
| Capture.InputStream.DmaInDone | audio/oss/philips_UDA1341/s3c2410-uda1341.c:367-374 | A completion appends one fragment of the signal behind what is ready and overwrites nothing unread. |
| Capture.InputStream.StartCapture | audio/oss/philips_UDA1341/s3c2410-uda1341.c:531-544 | Priming queues every fragment exactly once without ever blocking, even if fragments complete meanwhile. |
| Capture.InputStream.GetISpace | audio/oss/philips_UDA1341/s3c2410-uda1341.c:896-922 | `bytes` lies between what a reader finds at the start and at the end of the count, `frags` between the numbers of fragments not read from; both exact if nothing arrives; both 0 before the first set-up; a crash exactly when there has been a ring and is none. |
| Capture.InputStream.SetFragment | audio/oss/philips_UDA1341/s3c2410-uda1341.c:850-868 | A ring set up this way has nothing queued and nothing to read, and is in order all the same; its size and number of fragments are those that `FragmentSize.AsAsked` gives in plain numbers. |
| Capture.InputStream.Release | audio/oss/philips_UDA1341/s3c2410-uda1341.c:1017-1021 | Gives back exactly the stream's own allocations; what had been delivered is the signal from the moment of set-up on. |
| Capture.HandedIsOldest | audio/oss/philips_UDA1341/s3c2410-uda1341.c:556-594 | What a read handed out is the beginning of what was ready or arrived; all of it when nothing is left. |
| Capture.ReadInFullIsGone | audio/oss/philips_UDA1341/s3c2410-uda1341.c:580-593 | Where no fragment is empty, the fragments left to the reader are exactly those not read in full: a fragment read to its end is with the DMA channel. |
| Capture.LedgerTurn | audio/oss/philips_UDA1341/s3c2410-uda1341.c:570-593 | Fragments that complete while one is held, before or after the copy, change neither what a turn hands out nor what it leaves. |
| CaptureRing.DeliveredInOrder | audio/oss/philips_UDA1341/s3c2410-uda1341.c:367-594 | At every point: what was delivered is a prefix of what was captured, and equal to it exactly when no fragment of the reader's holds unread bytes. |
| CaptureRing.DrainCaptures | audio/oss/philips_UDA1341/s3c2410-uda1341.c:574-580 | Reading n bytes of the current fragment hands over exactly the oldest n unread bytes. |
| CaptureRing.SubmitCaptures | audio/oss/philips_UDA1341/s3c2410-uda1341.c:589-593 | Requeueing a fully read fragment keeps the invariant. |
| CaptureRing.CompletionStep | audio/oss/philips_UDA1341/s3c2410-uda1341.c:367-374 | Storing a fragment keeps the invariant and leaves a held fragment alone. |
| CaptureRing.BlockedHasReadAll | audio/oss/philips_UDA1341/s3c2410-uda1341.c:559-568 | A reader that blocks has read everything captured, and waits for the very next completion. |
| CaptureRing.UnreadsAddUp | audio/oss/philips_UDA1341/s3c2410-uda1341.c:909-915 | Summing the sizes of fragments whose semaphore is up gives the bytes that are ready. |
| CaptureRing.FullsAddUp | audio/oss/philips_UDA1341/s3c2410-uda1341.c:909-915 | Counting the full ones among them gives the fragments not read from. |
| CaptureRing.CountsGrow | audio/oss/philips_UDA1341/s3c2410-uda1341.c:909-915 | Completions only raise what the query for available data counts. |
| CaptureRing.Covered | audio/oss/philips_UDA1341/s3c2410-uda1341.c:570-578 | How far whole chunks come in the writable bytes: nowhere unless the first one fits. |
| CaptureRing.CoveredUpTo | audio/oss/philips_UDA1341/s3c2410-uda1341.c:570-578 | A read that has handed out whole fragments and cannot write the next has returned exactly what whole fragments make up of the writable bytes. |
| FragmentRing.QueuedExactlyOnce | audio/oss/philips_UDA1341/s3c2410-uda1341.c:154-180 | A semaphore is 0 exactly on the fragments the DMA channel holds, each queued once, and on the one the user holds. |
| FragmentRing.WaitingForTheOldest | audio/oss/philips_UDA1341/s3c2410-uda1341.c:462-470 | If the current fragment is down and not held, all are queued and it is the first of them. |
| FragmentRing.CompleteKeeps | audio/oss/philips_UDA1341/s3c2410-uda1341.c:359-374 | A completion keeps the ownership of every other fragment. |
| FragmentRing.SubmitKeeps | audio/oss/philips_UDA1341/s3c2410-uda1341.c:504-507 | Queueing the held fragment and moving on keeps the queue in ring order. |
| AudioStreams.AudioStream.SetupBuf | audio/oss/philips_UDA1341/s3c2410-uda1341.c:303-357 | For every pattern of allocation failures: success gives disjoint fragments, each inside one allocation, with the allocations' sizes adding up to nbfrags * fragsize, all of it newly allocated; -ENOMEM exactly if the descriptors or a single fragment were refused, and then everything is given back; a ring already set up is refused and left alone. |
| AudioStreams.AudioStream.ClearBuf | audio/oss/philips_UDA1341/s3c2410-uda1341.c:279-301 | After a full set-up or from any failure point inside it: flushes the queue first, then frees exactly the stream's allocations, each once and with its own start, size and address. |
| AudioStreams.AudioStream.AllocMaster | audio/oss/philips_UDA1341/s3c2410-uda1341.c:325-335 | Every size from the one wanted down to the one granted, or down to a single fragment, has been tried in turn; what is granted is a whole number of fragments. |
| AudioStreams.AudioStream.CarveFragment | audio/oss/philips_UDA1341/s3c2410-uda1341.c:322-346 | One turn of the carving loop keeps the fragments disjoint, inside their allocations, and the sizes accounted for; it fails exactly when a single fragment was refused. |
| AudioStreams.CarveNext | audio/oss/philips_UDA1341/s3c2410-uda1341.c:338-345 | Carving the next fragment off the allocation in use keeps all that. |
| AudioStreams.CarveMaster | audio/oss/philips_UDA1341/s3c2410-uda1341.c:325-345 | So does beginning a new allocation. |
| MonoStereo.CopyFromUserMonoStereo | audio/oss/philips_UDA1341/s3c2410-uda1341.c:402-434 | For every positive even count and either alignment, the word-wise shifts and ORs write exactly the doubled samples, 2 * count bytes, and touch nothing else; an unreadable source writes nothing. |
| MonoStereo.StereoSplit | audio/oss/philips_UDA1341/s3c2410-uda1341.c:402-434 | In the doubled stream every sample stands twice, at twice its place. |
| MonoStereo.StereoConcat | audio/oss/philips_UDA1341/s3c2410-uda1341.c:402-434 | Doubling piece by piece is doubling the whole. |
| MonoStereo.SpreadWord | audio/oss/philips_UDA1341/s3c2410-uda1341.c:416-425 | The two words made from one hold its lower half twice and its upper half twice. |
| FragmentSize.SetFragmentInRange | audio/oss/philips_UDA1341/s3c2410-uda1341.c:836-845 | For every 32-bit request: the fragment size is a power of two in 16..16384 and a whole number of frames, there are at least two fragments, and together they are at most 128 KiB. |
| FragmentSize.SetFragmentAsAsked | audio/oss/philips_UDA1341/s3c2410-uda1341.c:836-845 | For every 32-bit request: the size is 16 for shifts below 4 and from 32 on, 16384 for shifts 15 to 31, and the power of two in between; if the count asked for does not fit in 128 KiB there are as many fragments as fit and not one less, and otherwise as many as asked for, at least 2. |
| FragmentSize.MostFragments | audio/oss/philips_UDA1341/s3c2410-uda1341.c:844-845 | The quotient taken is the greatest number of fragments that 128 KiB hold, and at least 8. |
| FragmentSize.FittingRequestHonoured | audio/oss/philips_UDA1341/s3c2410-uda1341.c:836-845 | A request that fits is honoured exactly. |
| L3Bus.DecodeAllBits | audio/oss/philips_UDA1341/s3c2410-uda1341.c:202-277 | A receiver that samples on rising clock edges, least significant bit first, gets back any list of address and data bytes. |
| L3Bus.BitsInOrder | audio/oss/philips_UDA1341/s3c2410-uda1341.c:202-277 | The eight bits of a byte as the receiver is to hear them, one by one: least significant first, L3MODE low for an address and high for data. |
| L3Bus.Bus.SendAddress | audio/oss/philips_UDA1341/s3c2410-uda1341.c:202-236 | The receiver hears the eight bits of an address byte and nothing else, unless the clock was low before. |
| L3Bus.Bus.SendData | audio/oss/philips_UDA1341/s3c2410-uda1341.c:238-277 | The receiver hears the eight bits of a data byte and nothing else. |
| L3Bus.Bus.SendAll | audio/oss/philips_UDA1341/s3c2410-uda1341.c:1060-1090 | Any list of calls that starts with the clock high is recovered exactly, with no spurious edges. |
| L3Bus.StrayBitDecodes | audio/oss/philips_UDA1341/s3c2410-uda1341.c:1072-1073 | Starting with an address and a low clock, the calls are recovered if and only if they are all address 0. |
| Prescaler.IispsrValue | audio/oss/philips_UDA1341/s3c2410-uda1341.c:723-743 | For every bus clock and rate the search returns the first prescaler whose rate is not above the wanted one, if that is less than 0xffff below, and 0 otherwise. |
| Prescaler.BusClockIsNear | audio/oss/philips_UDA1341/s3c2410-uda1341.c:723-743 | With the callers' divisor of 384 the range condition holds for every clock. |
| Prescaler.ChosenIsNearest | audio/oss/philips_UDA1341/s3c2410-uda1341.c:723-743 | What the search returns is the nearest rate if and only if there is a first crossing c that is 0; or is less than 0xffff below, with the rate just above no closer; or is 1, further below, with the undivided rate no farther. |
| Prescaler.CrossingIsNearest | audio/oss/philips_UDA1341/s3c2410-uda1341.c:723-743 | The first crossing is the nearest rate if and only if the rate just above is no closer. |
| Prescaler.NoCrossingIsFarthest | audio/oss/philips_UDA1341/s3c2410-uda1341.c:723-743 | When all rates are too high the result is the farthest of them. |
| Prescaler.NotAlwaysNearest | audio/oss/philips_UDA1341/s3c2410-uda1341.c:154 | An input for which the result is not the nearest rate. |
| HapticsSystem.NeverUnattended | DRV2605/drivers_haptics_drv2605.c:214-616 | In every state of every run of callers, timer, work item, suspend and resume: the mode cache is right, and a chip in real-time playback has its timer armed, its work item pending or running, or a caller about to stop it or to start its timer. |
| HapticsSystem.RestMeansStill | DRV2605/drivers_haptics_drv2605.c:253-354 | Once nothing is pending the motor is still and no waveform plays. |
| HapticsRest.ComesToRest | DRV2605/drivers_haptics_drv2605.c:188-354 | After any run, once its last caller is gone, whatever was playing: a bounded number of steps is left, there is always one to take until all is quiet, and then the motor is still. |
| HapticsRest.AlwaysBounded | DRV2605/drivers_haptics_drv2605.c:214-231 | In every state of every run a pattern has repetitions left for the phase it is in, so it cannot go on for ever. |
| HapticsRest.InnerFalls | DRV2605/drivers_haptics_drv2605.c:188-354 | Every step of the timer, the chip or the work item brings rest nearer. |
| HapticsSystem.StepIsSafe | DRV2605/drivers_haptics_drv2605.c:299-354 | Every step of every interleaving keeps the invariant. |
| Haptics.ChangeModeIsSound | DRV2605/drivers_haptics_drv2605.c:110-143 | Whether or not the register write is skipped, the chip ends up in the mode asked for and the cache stays right. |
| Haptics.SetAudioIsCoherent | DRV2605/drivers_haptics_drv2605.c:145-186 | Switching audio-to-haptics on or off keeps cache and chip in agreement and leaves the right mode. |
| Haptics.VibratorOffIsCoherent | DRV2605/drivers_haptics_drv2605.c:253-266 | Ending a vibration leaves standby, or audio-to-haptics when that is enabled. |
| Haptics.StopIsCoherent | DRV2605/drivers_haptics_drv2605.c:268-285 | Stopping always ends real-time playback. |
| Haptics.SectionIsCoherent | DRV2605/drivers_haptics_drv2605.c:403-523 | Every command keeps the invariant, and whenever it leaves the chip in real-time playback it starts the timer. |
| Haptics.WorkSectionIsCoherent | DRV2605/drivers_haptics_drv2605.c:336-354 | So does every run of the work item. |
| Haptics.EffectIsCoherent | DRV2605/drivers_haptics_drv2605.c:188-212 | Playing a waveform keeps the invariant from start to end; it starts with the write to internal mode, the sequence and the GO bit set, and ends with the GO bit clear. |
| Haptics.ProbeIsCoherent | DRV2605/drivers_haptics_drv2605.c:934-950 | After probe cache and chip agree on standby, whatever they held before, calibrated or not. |
| Haptics.ResumeIsCoherent | DRV2605/drivers_haptics_drv2605.c:605-616 | Late resume keeps the invariant and starts no vibration. |
| Haptics.AudioDisableLeavesAudio | DRV2605/drivers_haptics_drv2605.c:515-523 | AUDIOHAPTIC_DISABLE leaves the chip in audio mode if and only if a vibration was playing with audio-to-haptics enabled, or an effect was waiting over it. |
| HapticsRest.AudioModeIsLeftOn | DRV2605/drivers_haptics_drv2605.c:515-523 | A run that does so: audio-to-haptics on, a vibration of a second, audio-to-haptics off; all is quiet and the chip is in audio mode. |
| HapticsPlayback.PatternPlays | DRV2605/drivers_haptics_drv2605.c:214-473 | Every run of the interleaved system that follows a PATTERN_RTP command undisturbed comes to rest after exactly 4 * (2 * max(1, n) - 1) steps, and then exactly the pattern's trace has been produced. |
| HapticsPlayback.SequencePlays | DRV2605/drivers_haptics_drv2605.c:233-499 | The same for RTP_SEQUENCE, and the trace of its words. |
| HapticsPlayback.TrackEnds | DRV2605/drivers_haptics_drv2605.c:327-354 | An undisturbed playback is at rest exactly after the number of steps its measure gives, and ends in the one state that its work runs lead to. |
| HapticsPlayback.TrackGoesOn | DRV2605/drivers_haptics_drv2605.c:327-354 | Until then some step of the timer or the work item can be taken. |
| HapticsCommands.EffectPlays | DRV2605/drivers_haptics_drv2605.c:188-212 | Every run of the interleaved system that follows a PLAY_SINGLE_EFFECT or PLAY_EFFECT_SEQUENCE command undisturbed is at rest after exactly 4 steps: the chip has been put into internal mode, loaded with the sequence, told to go, and left playing until it was done; then came standby, or the four writes back to audio-to-haptics if that is enabled. |
| HapticsCommands.RequestStopsEffect | DRV2605/drivers_haptics_drv2605.c:196-202 | While the chip plays, the work item waits; as soon as any caller has made a request it need not, and then it clears GO before anything else, and ends in standby or audio-to-haptics. |
| HapticsCommands.WholeEffect | DRV2605/drivers_haptics_drv2605.c:188-212 | All register writes of play_effect, however long it waits and whatever ends the wait. |
| HapticsCommands.TimedPlays | DRV2605/drivers_haptics_drv2605.c:426-447 | PLAY_TIMED_EFFECT undisturbed: one timer, with the milliseconds whose low and high bytes were sent, or with the longest time allowed if more was asked for; real-time playback until it fires; at rest after exactly 4 steps, GO cleared and in standby, or back in audio-to-haptics if that is enabled. |
| HapticsCommands.EnablePlays | DRV2605/drivers_haptics_drv2605.c:299-325 | The same for the timed output, with the value given or the longest time allowed. |
| HapticsCommands.StopTrace | DRV2605/drivers_haptics_drv2605.c:253-285 | Exactly what stopping writes, and where it ends: a vibration in standby or in audio-to-haptics, audio-to-haptics in standby; nothing else is touched. |
| HapticsCommands.AudioCommandTrace | DRV2605/drivers_haptics_drv2605.c:506-523 | Enabling ends in audio mode by the four writes, which are left out exactly if stopping has ended there; disabling is remembered. |
| HapticsCommands.ResumeTrace | DRV2605/drivers_haptics_drv2605.c:605-616 | Late resume ends in audio mode, by the four writes unless the chip is in it already, if audio-to-haptics is enabled, and does nothing otherwise. |
| HapticsCommands.AudioSurvivesSuspend | DRV2605/drivers_haptics_drv2605.c:586-616 | Suspending takes the chip from audio-to-haptics to standby, and resuming puts it back. |
| HapticsCommands.ProbeTrace | DRV2605/drivers_haptics_drv2605.c:934-950 | Exactly the mode writes of probe, calibrating or not, and standby as their end. |
| HapticsCommands.OnlyStops | DRV2605/drivers_haptics_drv2605.c:403-523 | A command starts nothing exactly if it only stops or asks for nothing or cannot be read (empty time, odd, empty or too long sequence, failed copy), or switches audio-to-haptics on; and what starts nothing writes nothing beyond what stopping does. |
| HapticsCommands.CallerGetsIn | DRV2605/drivers_haptics_drv2605.c:390-407 | Request, timer and work cancelled: the three steps that lead a caller to its critical section leave nothing of an earlier command to come between. |
| HapticsCommands.CommandGoesOn | DRV2605/drivers_haptics_drv2605.c:188-354 | Until a waveform or a timed vibration is at rest there is a step to take. |
| HapticsTraces.PatternTrace | DRV2605/drivers_haptics_drv2605.c:448-473 | An uninterrupted PATTERN_RTP with vibration time above 0 makes exactly max(1, n) vibrations with max(1, n) - 1 silences between them, in 2 * max(1, n) - 1 work runs, then standby; every register write and timer start is given. |
| HapticsTraces.PhasesCount | DRV2605/drivers_haptics_drv2605.c:214-231 | How often each event occurs in such a trace. |
| HapticsTraces.PatternMeasureFalls | DRV2605/drivers_haptics_drv2605.c:214-231 | 2 * repeat_times, plus 1 while vibrating, falls by one on every work run, and standby comes exactly at its end. |
| HapticsTraces.SequenceTrace | DRV2605/drivers_haptics_drv2605.c:475-499 | An uninterrupted RTP_SEQUENCE emits its words in order, value and time, one a work run, never beyond the end, then standby. |
| HapticsTraces.SequenceOneRun | DRV2605/drivers_haptics_drv2605.c:233-251 | Each value is emitted with the chip in real-time mode, also when change_mode skips its write. |
| HapticsTraces.WordsAt | DRV2605/drivers_haptics_drv2605.c:475-499 | The low byte of each word is the value, the high byte the time. |
| HapticsDriver.Drv2605.ChangeMode | DRV2605/drivers_haptics_drv2605.c:110-143 | The routine, field by field, does what Haptics.ChangeMode says, whose properties are proved above. |
| HapticsDriver.Drv2605.PlayEffect | DRV2605/drivers_haptics_drv2605.c:188-212 | The chip is put into internal mode, loaded with the sequence and told to go, in this order; the wait ends only when it has finished or a stop was asked for, and only those two fields change meanwhile; then GO is cleared if a stop was asked for, and standby or the full switch to audio-to-haptics follows. |
| HapticsDriver.Drv2605.WorkRoutine | DRV2605/drivers_haptics_drv2605.c:336-354 | The work item, in every mode, does what the system model takes it to do; it keeps cache and chip in agreement and leaves a vibration on only with its timer. |
| HapticsDriver.Drv2605.RunCommand | DRV2605/drivers_haptics_drv2605.c:390-523 | So does the command switch, for every command; a timed vibration starts the timer with the time whose low and high bytes were sent, or with the longest allowed. |
| Accelerometer.Sensor.Enable | i2c/lsm303c/lsm303c/lsm303c_acc.c:707-724 | After enabling, every managed register holds its shadow entry, even if the registers were lost while off; and what the settings ask for, exactly if the shadow's CTRL4 was right. |
| Accelerometer.Sensor.Disable | i2c/lsm303c/lsm303c/lsm303c_acc.c:726-734 | Disabling clears CTRL1, or cuts the supply where the board does that, and changes no other register; it keeps the settings in force and the invariant. |
| Accelerometer.Sensor.Suspend | i2c/lsm303c/lsm303c/lsm303c_acc.c:1435-1441 | Suspending powers the chip down likewise, keeps the settings and remembers whether the chip was on. |
| Accelerometer.Sensor.Resume | i2c/lsm303c/lsm303c/lsm303c_acc.c:1425-1433 | Resuming switches on exactly if the chip was on before, with the same promise as enabling. |
| Accelerometer.Sensor.HwInit | i2c/lsm303c/lsm303c/lsm303c_acc.c:358-433 | The block writes put every shadow entry into its own register; a wrong identity writes nothing. |
| Accelerometer.Sensor.PowerOff | i2c/lsm303c/lsm303c/lsm303c_acc.c:435-458 | What the chip still holds afterwards, with and without a supply cut. |
| Accelerometer.Sensor.PowerOn | i2c/lsm303c/lsm303c/lsm303c_acc.c:460-488 | The chip matches the shadow, or is off again. |
| Accelerometer.Sensor.SetInitRegisterValues | i2c/lsm303c/lsm303c/lsm303c_acc.c:261-281 | The initial shadow is the image of the initial settings: 0x0F, 0x04, 0x0C and, with the interrupt pin, 0x08 in their places, and zero elsewhere. |
| Accelerometer.Sensor.UpdateFsRange | i2c/lsm303c/lsm303c/lsm303c_acc.c:491-548 | The shadow holds the new range; it is right altogether if and only if the other bits of the chip's CTRL4 were right, which they are while the registers have not been lost. |
| Accelerometer.Sensor.UpdateOdr | i2c/lsm303c/lsm303c/lsm303c_acc.c:550-603 | The rate in force becomes the slowest sufficient one, now or when the chip is next enabled, and nothing else changes. |
| Accelerometer.PickRate | i2c/lsm303c/lsm303c/lsm303c_acc.c:568-573 | The chosen entry has the largest cutoff not above the interval, or is the fastest if none is. |
| Accelerometer.RateFor | i2c/lsm303c/lsm303c/lsm303c_acc.c:195-207 | There is only one such entry. |
| Accelerometer.RateServes | i2c/lsm303c/lsm303c/lsm303c_acc.c:561-570 | The chosen rate delivers a sample in every poll interval exactly if the interval is at least 2 ms, and no slower rate in the table would; below that it is the fastest. |
| Accelerometer.TableInOrder | i2c/lsm303c/lsm303c/lsm303c_acc.c:195-207 | Along the table rates fall and cutoffs grow, and no rate's period is longer than its cutoff. |
| Accelerometer.Sensor.RateInForce | i2c/lsm303c/lsm303c/lsm303c_acc.c:550-603 | The rate asked for stands beside the axis bits in the shadow, and in the chip while that is on. |
| Accelerometer.RangeReadBack | i2c/lsm303c/lsm303c/lsm303c_acc.c:811-853 | The range bits of 2, 4 and 8 g, and that reading them back gives the range set. |
| Accelerometer.Sensor.WriteReg | i2c/lsm303c/lsm303c/lsm303c_acc.c:750-770 | An interrupt setting goes into chip and shadow alike, on or off, and no other setting changes. |
| Accelerometer.Sensor.SetPollingRate | i2c/lsm303c/lsm303c/lsm303c_acc.c:784-809 | Zero is refused and changes nothing; anything else is raised to the minimum and its rate put in force. |
| Accelerometer.Sensor.SetRange | i2c/lsm303c/lsm303c/lsm303c_acc.c:834-870 | Only 2, 4 and 8 g are accepted, and what is set is what the range query then reads back; with the same exact condition as the range update. |
| Accelerometer.Sensor.Probe | i2c/lsm303c/lsm303c/lsm303c_acc.c:1207-1345 | A probed chip is powered down, with the initial range and rate ready in the shadow. |
| Accelerometer.ImageDetermines | i2c/lsm303c/lsm303c/lsm303c_acc.c:167-190 | The settings can be read back from the managed registers. |
| AccelerometerSessions.Session | i2c/lsm303c/lsm303c/lsm303c_acc.c:435-870 | For any sequence of switching on and off, suspending, resuming and changing range, rate and interrupts: while the chip is off its CTRL1 is clear or its supply cut; while it is on every managed register equals its shadow entry; the settings are those asked for; and the registers hold them if and only if the other bits of CTRL4 have come through, which a four-field machine computes from the calls. |
| AccelerometerSessions.LastRangeDecides | i2c/lsm303c/lsm303c/lsm303c_acc.c:491-548 | Whether they have is whether the last accepted range change found them right in the chip. |
| AccelerometerSessions.HarmlessRangesKeep | i2c/lsm303c/lsm303c/lsm303c_acc.c:491-548 | They have, if every range change comes while the chip is on or the registers are never lost. |
| AccelerometerSessions.LostRegistersBreakRange | i2c/lsm303c/lsm303c/lsm303c_acc.c:518-535 | A probed chip whose registers come up as zeros, a range change and switching on: the chip is on without the address increment bit, and not configured as asked for. |

## Left out

- Capture.InputStream.GetISpace: its check for a file open for reading, and the check of the caller's address here and in GETOSPACE, are not modelled.
- Capture.InputStream.DmaInDone: a completion always stores a whole fragment; a partial one is not modelled.
- HapticsDriver.Drv2605.PlaySeqRtp: a word behind the data sent reads as zero.
- HapticsPlayback.PatternPlays: for commands that no caller interrupts, as are HapticsPlayback.SequencePlays and HapticsCommands.TimedPlays; interruptions are in HapticsSystem, and that of a waveform in HapticsCommands.
- Memory isolation between the output and the input stream: they share a heap, whose allocations are apart, but no theorem runs both streams at once.
- The other sound driver (`audio/oss/sc2410`): the same protocol on another DMA interface.
- `smdk2410_audio_poll` (looks at fragment 0 only), mixer volumes, sample-rate and channel ioctls, I2S and clock registers, open counts.
- Raw register commands, calibration, platform data, delays, switch state and the wake lock of the DRV2605 driver; I2C messages.
- LSM303C bus errors, interrupt enable depth, input reporting, sensitivity, the magnetometer.
- Module init and exit, device registration and sysfs in all three drivers.
- All other drivers and demos of the repository: register tables and thin wrappers.
