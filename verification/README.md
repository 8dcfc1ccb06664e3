# Verified models of the media plugins

This project models the parts of the multimedia plugins that keep state over many calls, and proves what they
promise over every run.  Each class carries out the operations step by step, as the source does, and is proved to
compute the same as a function on plain values; what those functions mean is proved as lemmas.

- `TsFifo.dfy`, `TsHandout.dfy`, `TsManager.dfy`, `TsRuns.dfy`, `TsPace.dfy`: the timestamp manager.  Received packets wait in a
  byte-counted FIFO over a node pool, pending timestamps in a ring with swap-removal, and a 32-slot average fills in
  missing ones.
- `VssGeometry.dfy`, `VssRepaint.dfy`, `VssFrames.dfy`, `VssStale.dfy`, `VssOpening.dfy`, `VssControl.dfy`: the surface
  compositor.  Windows are clipped to the screen and the source is cropped to match; three framebuffers are repainted
  incrementally; surfaces live in a pool, whose slots keep their masks, and are linked per device by 1-based ids.
  Kicking an IPU task is painting the adjusted window with the surface's frame into the current buffer; what a frame
  looks like is left open.
- `AacBits.dfy`, `AdtsHeader.dfy`, `AdtsBytes.dfy`, `BlockPool.dfy`: the AAC decoder's bit reader and writer, the ADTS
  header parser and generator, and the pool of block timestamps that doubles.
- `HwAllocator.dfy`: the hardware buffer allocator.  The driver's answers are parameters of each request.
- `PlayerQueue.dfy`: the player's bounded message queue as a monitor, one step per stretch under the mutex.
- `BufferRefs.dfy`: the reference macros for direct rendering.
- `AmrFraming.dfy`: the AMR frame tables and the framing loop.
- `VideoModeText.dfy`: video modes as text.
- `Helpers.dfy`: optional values, bytes and orders on lists, which several of these share.

The list of a linked structure is a sequence where the source only walks and relinks it (received packets, zones,
messages, reference list); it is an array with index links where the links are what an operation is about (the block
pool, the surface pool), and the timestamp ring and the history are arrays.  Machine words of the bit reader are
sequences of bits, most significant first.  Integers are unbounded; the source's widths are noted below.

## Where the code differs from its intent

The models follow the code.  Each of these places is stated by lemmas that say when the code does what is intended
and when it does not:

- A consuming call that reaches into a later packet of a chain hands out no timestamp
  (`TimestampHandout.TakeHandsOutExactly`, `TimestampHandout.SpanningTakeHandsOutNothing`); so timestamps are handed
  out at most once, not exactly once.
- The discontinuity filter uses 0 for "nothing withheld".  A withheld timestamp bounds the ones withheld after it
  exactly if it is not 0 (`TimestampRuns.RememberedExactly`), and 0 is withheld exactly after a timestamp more than
  the threshold below it (`TimestampRuns.ZeroIsWithheldExactly`); other negative timestamps do no harm.
- A query without room left need not foretell the next Send (`TimestampRuns.QueryWithoutRoomExactly`).
- `OVERLAPED_RECT` joins its four comparisons with "or" and holds for any two non-empty rectangles
  (`VssRepaint.OverlapAlwaysHolds`).
- A pool slot's mask and frame survive destroy and create (`VssControl.ReuseSlot` is a run with a stale mask).  The
  repaint results assume surfaces that start fresh; `VssStale.CreateExactly` says exactly when a create with any mask
  leaves all further runs right, the limit of the device included, and `VssStale.FreshExactly` what that means for the
  first surface of a device.
- The service starts with no buffer marked for clearing, and opening a device clears at most the current buffer.
  `VssOpening.ContentsExactly` says exactly what the buffers must hold then for all further runs to go right.
- `g_vstable` takes the horizontal offset from the opposite edge for the quarter turns, when the rotations are
  read by their names (`VssGeometry.CropIsFaithful`); what the driver makes of the crop is not part of this model.
- The frame length that `gen_codec_buffer` writes is the payload size alone, while section 6.2 of ISO/IEC 13818-7
  includes the header; the two never agree (`AdtsHeader.LengthLeavesOutHeader`).
- `recycle_zone` never resets `zone->free`.  The invariant of the allocator is proved with the reset, which is the
  intent; `HwAllocator.AsWrittenExactly` says when a call keeps it without, and `HwAllocator.StaleBufferIsHandedOut`
  what happens next otherwise.
- The message queue signals only on the changes from empty and from full, which is enough exactly for one consumer
  and one producer (`PlayerQueue.NoGetterLostExactly`, `PlayerQueue.NoPutterLostExactly`).
- An AMR header of unknown size clears the adapter, so framing then depends on how the stream was split
  (`AmrFraming.ChunkIndependentExactly`).

## Model

| member | source | states |
|---|---|---|
| ReceivedFifo.ReceivedControl.NewEntry | libs/me/mfw_gst_ts.c:185-208 | A node comes off the free list; when that is empty a block of 512 is added, whose other 511 nodes become the free list |
| ReceivedFifo.ReceivedControl.Receive | libs/me/mfw_gst_ts.c:211-240 | A packet is queued last, marked a subentry exactly when its timestamp equals that of the packet before it |
| ReceivedFifo.ReceivedControl.DropHead | libs/me/mfw_gst_ts.c:262-272 | The head goes to the free list and hands its used flag on to a chained successor, and to no other |
| ReceivedFifo.ReceivedControl.GetLastTimestamp | libs/me/mfw_gst_ts.c:251-278 | The loop consumes exactly what Consume says and returns what LastTimestamp says; both are characterised by the lemmas below |
| ReceivedFifo.ReceivedControl.Clear | libs/me/mfw_gst_ts.c:592-601 | A resync moves every queued node to the free list and leaves the byte FIFO empty |
| ReceivedFifo.AppendKeepsPartition | libs/me/mfw_gst_ts.c:185-240 | Every node of the allocated blocks is in the queue or on the free list, once; queueing keeps this, also when the pool grows |
| ReceivedFifo.AppendKeepsWellFormed | libs/me/mfw_gst_ts.c:211-240 | Queued sizes stay positive, subentries continue the timestamp before them, and the queued bytes grow by the size received |
| ReceivedFifo.ConsumeKeepsWellFormed | libs/me/mfw_gst_ts.c:251-278 | After consuming any number of bytes every remaining size is positive and every subentry still continues its predecessor |
| ReceivedFifo.ConsumeConservesBytes | libs/me/mfw_gst_ts.c:251-278 | Consuming n bytes lowers the queued bytes by min(n, total) |
| ReceivedFifo.ConsumeConservesNodes | libs/me/mfw_gst_ts.c:251-278 | Consuming neither loses nor doubles a node between queue and free list, and allocates nothing |
| ReceivedFifo.ConsumeAdditive | libs/me/mfw_gst_ts.c:251-278 | Consuming a and then b bytes leaves the same queue, free list order and used flags as consuming a + b |
| ReceivedFifo.DrainedConservesNodes | libs/me/mfw_gst_ts.c:592-601 | Draining at a resync keeps every node |
| ReceivedFifo.ConsumeExact | libs/me/mfw_gst_ts.c:251-278 | Closed form of the loop: the k packets that n bytes cover go, the next one loses the rest of its bytes, all others are untouched |
| ReceivedFifo.UsedExact | libs/me/mfw_gst_ts.c:259-270 | Closed form of the used flag of the remaining head: set exactly if it was touched now, or its chain was, or its chain was used before |
| ReceivedFifo.LastTimestampExact | libs/me/mfw_gst_ts.c:251-278 | The timestamp returned is that of the last packet reached, or none when that packet is a used head or continues a chain consumed by the same call |
| TimestampHandout.HandedOutAtMostOnce | libs/me/mfw_gst_ts.c:211-278 | Over every run of receives, consuming and flushing calls from the empty FIFO, the chains whose timestamp is handed out are strictly increasing: none twice, none through a subentry, in arrival order |
| TimestampHandout.TakeHandsOutExactly | libs/me/mfw_gst_ts.c:251-278 | A consuming call hands out a timestamp exactly when the packet it reaches last opens its chain, or is the head and unused |
| TimestampHandout.HandedOutIsNew | libs/me/mfw_gst_ts.c:251-278 | What is handed out belongs to a later chain than everything handed out before |
| TimestampHandout.SpanningTakeHandsOutNothing | libs/me/mfw_gst_ts.c:257-266 | Not exactly once: a call that reaches past the first packet of a chain into a later one of it hands out none, in every state |
| TimestampManager.TSManager.constructor | libs/me/mfw_gst_ts.c:635-664 | A fresh manager: default sizes, empty ring and FIFO, and the average filled with 1/30 s |
| TimestampManager.TSManager.ScreenTimestamp | libs/me/mfw_gst_ts.c:316-335 | The discontinuity filter withholds a timestamp and remembers it, or lets it through |
| TimestampManager.TSManager.ReceiveKeyed | libs/me/mfw_gst_ts.c:305-362 | On the ring array the call does what Receive does on the sequence of pending entries; a full ring drops the frame |
| TimestampManager.TSManager.FindSmallest | libs/me/mfw_gst_ts.c:429-444 | The loop over the ring finds the first smallest timestamp among the entries up to the first with the key |
| TimestampManager.TSManager.DropEntry | libs/me/mfw_gst_ts.c:454-459 | Removal overwrites the found slot with the oldest entry and moves the read index: swap-removal on the sequence |
| TimestampManager.RingAppend | libs/me/mfw_gst_ts.c:337-350 | Writing at the receive index and advancing it modulo the size appends to the sequence the ring stands for |
| TimestampManager.RingDrop | libs/me/mfw_gst_ts.c:454-459 | Advancing the send index modulo the size after the overwrite is swap-removal on that sequence |
| TimestampManager.TSManager.Propose | libs/me/mfw_gst_ts.c:427-475 | Chooses between the entry found and the interpolated timestamp; as a query it changes nothing |
| TimestampManager.TSManager.RecordGap | libs/me/mfw_gst_ts.c:487-513 | A gap enters the 32-slot average, or is counted when it is two intervals or more |
| TimestampManager.TSManager.Emit | libs/me/mfw_gst_ts.c:477-513 | The timestamp is clamped to the last one sent and its gap recorded, from the second send on |
| TimestampManager.TSManager.Send2 | libs/me/mfw_gst_ts.c:400-563 | The whole Send computes Send of the old state, in AI and FIFO mode, with and without frames left |
| TimestampManager.TSManager.Query2 | libs/me/mfw_gst_ts.c:400-570 | A query leaves the whole state as it is; in AI mode it gives Query, in FIFO mode what the slot to be sent next holds |
| TimestampManager.TSManager.NextFIFO | libs/me/mfw_gst_ts.c:515-524 | FIFO mode gives the oldest entry, and takes it only when sending |
| TimestampManager.TSManager.ResyncTo | libs/me/mfw_gst_ts.c:588-619 | A resync empties ring, counters and byte FIFO and starts the output over at the sync time |
| TimestampManager.TSManager.SetRate | libs/me/mfw_gst_ts.c:699-716 | The frame rate fills all 32 slots and sets the total to their sum |
| TimestampManager.TSManager.Receive2 | libs/me/mfw_gst_ts.c:212-248 | A packet with bytes goes to the byte FIFO only, one without goes to the ring only |
| TimestampManager.TSManager.Flush2 | libs/me/mfw_gst_ts.c:282-289 | Flushing consumes bytes without using any timestamp up |
| TimestampManager.TSManager.Valid2 | libs/me/mfw_gst_ts.c:366-377 | The bytes consumed give the timestamp that is then received for the frame |
| TimestampManager.ReceiveKeepsInv | libs/me/mfw_gst_ts.c:305-362 | cnt stays the number of ring entries plus the frames without one, and at most size - 1 |
| TimestampManager.SendKeepsInv | libs/me/mfw_gst_ts.c:400-563 | The same for every Send |
| TimestampManager.ResyncGivesInv | libs/me/mfw_gst_ts.c:588-619 | A resync establishes it from any counters |
| TimestampRuns.ChosenIsMinimum | libs/me/mfw_gst_ts.c:429-444 | The entry chosen is the first minimum of the pending entries up to and including the first with the key, of all when none has it |
| TimestampRuns.SwapRemoveTakesOne | libs/me/mfw_gst_ts.c:454-459 | Swap-removal takes exactly one entry out of the multiset of pending entries |
| TimestampRuns.SendTakesMinimum | libs/me/mfw_gst_ts.c:427-469 | The ring refines a keyed multiset: a Send that does not interpolate removes one entry, the eligible minimum, and every other survives with age and key |
| TimestampRuns.SendInterpolates | libs/me/mfw_gst_ts.c:427-475 | A Send that interpolates leaves the ring alone, uses up one frame without a timestamp, and gives the timestamp that TimestampPace.PendingIsGivenExactly spells out |
| TimestampPace.NothingPendingGivesNextDue | libs/me/mfw_gst_ts.c:417-544 | With nothing pending, the first timestamp after a resync is the one to start with, and every other the last one sent plus a 32nd of the total; so too when more is sent than was received |
| TimestampPace.PendingIsGivenExactly | libs/me/mfw_gst_ts.c:423-485 | With entries pending, Send makes a timestamp up if and only if a frame came without one, the entry found is at least half an average interval late and its age is above the sends so far; otherwise it gives the entry, but nothing before the last one sent |
| TimestampRuns.ReceiveFiles | libs/me/mfw_gst_ts.c:305-362 | A receive appends nothing to the ring, or the one entry with its timestamp, its key and the age one more than its arrival ordinal |
| TimestampRuns.EachIsTakenOnce | libs/me/mfw_gst_ts.c:305-563 | In every AI-mode run since a resync, with changes of the frame rate in between, the entries filed are all different and each is either pending or was taken by exactly one send; nothing else is pending or taken |
| TimestampRuns.QueryForetellsSend | libs/me/mfw_gst_ts.c:400-556 | With room left, Query returns what Send with the same key returns after one more receive without a timestamp |
| TimestampRuns.QueryWithoutRoomExactly | libs/me/mfw_gst_ts.c:312-556 | Without room the frame is refused, and the two agree if and only if a frame without a timestamp is waiting, or the entry found would not give way to the expected timestamp or is it, or, with nothing waiting, no valid timestamp has come or none is expected |
| TimestampRuns.FullRingDiffers | libs/me/mfw_gst_ts.c:312-556 | For every ring size, the events of a run that starts with a resync, from any manager, and ends with a full ring for which the two differ |
| TimestampRuns.HistoryKept | libs/me/mfw_gst_ts.c:487-513 | The running total stays the sum of the 32 non-negative slots, and the counter of large gaps at most 4 |
| TimestampRuns.FrameRateGivesHistory | libs/me/mfw_gst_ts.c:699-716 | Setting any frame rate establishes that, with a positive interval |
| TimestampRuns.FirstStartsFilter | libs/me/mfw_gst_ts.c:316-350 | After a resync the first valid timestamp is let through, whatever it is, and starts the filter; missing timestamps never change it |
| TimestampPace.IntervalKeepsTheRate | libs/me/mfw_gst_ts.c:699-716 | The interval of a rate up to 80 frames per second is SECOND * fpsD / fpsN to a nanosecond, rounded down, and otherwise that of 30 frames per second |
| TimestampPace.EvenlySpaced | libs/me/mfw_gst_ts.c:417-716 | From a resync to a time T and a rate with interval t on, over every run of sends and of frames without timestamps, the j-th timestamp sent is T + j * t, counted from 0; without a sync time T is the last one sent |
| TimestampPace.FramesKeepTheRate | libs/me/mfw_gst_ts.c:417-716 | Such frames keep the rate: the j-th is at most j nanoseconds before T + j * SECOND * fpsD / fpsN, and never after it |
| TimestampPace.RunsCount | libs/me/mfw_gst_ts.c:310-419 | Over every run since a resync rx_cnt and tx_cnt count all frames and all sends, and valid_ts_received is set if and only if some frame but the first came with a timestamp |
| TimestampRuns.BigCountsIgnored | libs/me/mfw_gst_ts.c:487-513 | The counter says how many gaps were ignored since one last entered the average, over every sequence of gaps and changes of the frame rate |
| TimestampRuns.LargeGapEntersAfterFour | libs/me/mfw_gst_ts.c:487-513 | A gap of two intervals or more enters the average if and only if four gaps were ignored since one last did, and never more than four are, whatever the frame rate did in between |
| TimestampPace.RunsRecordGaps | libs/me/mfw_gst_ts.c:477-513 | Over every run the average is given each gap between a timestamp sent for a frame and the one sent before it, and each rate that was set, in order |
| TimestampRuns.FilterState | libs/me/mfw_gst_ts.c:316-350 | After any number of timestamps of either sign the filter holds the last one let through and the one withheld just before, if any; a withheld 0 reads as none |
| TimestampPace.RunsFilterWhatIsAccepted | libs/me/mfw_gst_ts.c:312-350 | Over every run since a resync the discontinuity filter is given the timestamp of each accepted frame, in order, and nothing else |
| TimestampPace.FiledExactly | libs/me/mfw_gst_ts.c:312-350 | A receive files one entry, with the frame's ordinal, if and only if there is room and the filter, after all frames accepted so far, lets the timestamp through |
| TimestampRuns.LetThroughExactly | libs/me/mfw_gst_ts.c:316-350 | A timestamp is let through if and only if it is at most the threshold ahead of the last one let through, or at least the one withheld just before, which was not 0 |
| TimestampRuns.WithheldRunIsFinite | libs/me/mfw_gst_ts.c:316-350 | Timestamps withheld in a row, none but the last of them 0, are strictly decreasing, and their number is bounded by how far ahead the first was |
| TimestampRuns.RememberedExactly | libs/me/mfw_gst_ts.c:322-335 | A withheld timestamp bounds all that may be withheld next if and only if it is not 0, which the source takes for nothing withheld |
| TimestampRuns.ZeroIsWithheldExactly | libs/me/mfw_gst_ts.c:322-335 | With nothing withheld before, 0 is withheld if and only if the last timestamp let through lies more than the threshold below it, and then leaves the filter as it was, so that it can be withheld for ever |
| TimestampRuns.RunsKeepTheirBooks | libs/me/mfw_gst_ts.c:305-563 | In every AI-mode run since a resync: age + cnt is the number of accepted receives, every ring entry's age is its arrival ordinal plus one, ordinals are distinct, the total is the sum, and what is sent never goes back |
| TimestampRuns.ResyncStartsARun | libs/me/mfw_gst_ts.c:588-619 | A resync starts such a run, whatever went before |
| TimestampRuns.PutOffOnlyUntilItsTurn | libs/me/mfw_gst_ts.c:417-475 | A pending entry can be passed over by interpolation only while its ordinal is at least the number of sends so far; afterwards it is what is sent |
| TimestampRuns.SendNeverGoesBack | libs/me/mfw_gst_ts.c:477-544 | Every valid timestamp sent is at least the one before, from the first send after a resync on |
| TimestampRuns.FifoModeKeepsOrder | libs/me/mfw_gst_ts.c:351-524 | In every FIFO-mode run since a resync, what was given is a prefix of what was accepted, missing timestamps included, and the rest is what is pending |
| TimestampPace.FifoModeHandsOver | libs/me/mfw_gst_ts.c:515-619 | FIFO mode remembers the last timestamp it sent: a resync to AI mode without a sync time starts from it |
| VssGeometry.AdjustDestRect | libs/vss/mfw_gst_video_surface.c:413-449 | Clips a window to the screen and to multiples of 8 and says which edges were outside |
| VssGeometry.AdjustedIsLargest | libs/vss/mfw_gst_video_surface.c:413-449 | The adjusted window is the largest 8-aligned rectangle inside both screen and request: every other such rectangle lies inside it |
| VssGeometry.CheckedSource | libs/vss/mfw_gst_video_surface.c:618-634 | The source window becomes the largest 8-aligned one inside it |
| VssGeometry.CutsFor | libs/vss/mfw_gst_video_surface.c:301-334 | The four cuts are the shares of the source that correspond to the clipped parts, with the axes swapped for quarter turns |
| VssGeometry.InitTask | libs/vss/mfw_gst_video_surface.c:276-364 | The IPU's input and output crop for every rotation, and whether the surface is visible; a window off the screen keeps what was set before |
| VssGeometry.ShareIsProportional | libs/vss/mfw_gst_video_surface.c:317-334 | Each cut is the exact proportion rounded down to a multiple of 8 |
| VssGeometry.VisibleCropInside | libs/vss/mfw_gst_video_surface.c:276-364 | For every source, window, screen and rotation: a visible surface reads at least 16 by 16 inside its source window and writes at least 16 by 16, 8-aligned, inside the screen |
| VssGeometry.CropInsideExactly | libs/vss/mfw_gst_video_surface.c:301-346 | On a real screen the crop is a non-empty part of the source window if and only if that window is non-empty |
| VssGeometry.CropKeepsAlignment | libs/vss/mfw_gst_video_surface.c:301-346 | A source window aligned by _checkSource gives a crop all four of whose values are multiples of 8 |
| VssGeometry.CropLeavesOff | libs/vss/mfw_gst_video_surface.c:301-346 | For all eight rotations and all four sides: what the crop leaves off a side of the source is, in steps of 8 pixels rounded down, the part that corresponds to what hangs over the screen at the edge that side lands on; for quarter turns left and right are exchanged |
| VssGeometry.CropIsFaithful | libs/vss/mfw_gst_video_surface.c:265-346 | Each side of the source loses what corresponds to the overhang where it lands, if and only if the rotation keeps the axes or as much of the window hangs over the top of the screen as over its bottom, in steps of 8 source pixels, for sources of any width: for quarter turns g_vstable takes the x offset from the opposite edge |
| VssGeometry.VisibleExactly | libs/vss/mfw_gst_video_surface.c:276-364 | A surface is visible if and only if its window reaches into the screen and both what all overhangs leave of its source and the adjusted window are at least 16 by 16; the output crop is that window |
| VssRepaint.EverythingShowsTop | libs/vss/mfw_gst_video_surface.c:400-411 | Painting all surfaces in list order shows, at each point, the last one in the list that covers it |
| VssRepaint.PassRepaints | libs/vss/mfw_gst_vss_common.c:792-808 | A pass that paints only what _needRender picks leaves the buffer with the picture of painting every surface, and keeps the invariant on all three buffers |
| VssRepaint.RefreshIsPass | libs/vss/mfw_gst_video_surface.c:400-411 | _refreshOnDevice comes to the same as a pass in which nothing counts as rendered |
| VssRepaint.RefreshRepaints | libs/vss/mfw_gst_video_surface.c:400-411 | A refresh re-establishes the invariant from buffers that are only black where no surface is, or marked for clearing |
| VssRepaint.StepRepaints | libs/vss/mfw_gst_video_surface.c:891-965 | Every call, create, render, configure, relayer or destroy, keeps the invariant, and the buffer it flips shows what a full repaint would |
| VssRepaint.FirstCreateGivesInv | libs/vss/mfw_gst_video_surface.c:792-826 | The first surface on a device makes the invariant hold, whichever buffers are marked for clearing, if the others start black wherever the surface will not be painted; what they held before the device was opened does not matter |
| VssRepaint.RunsKeepRepainting | libs/vss/mfw_gst_video_surface.c:714-965 | From any device in order, every allowed run flips only buffers that show a full repaint |
| VssRepaint.RunsRepaint | libs/vss/mfw_gst_video_surface.c:714-965 | Incremental repainting refines full repainting over every allowed run of calls from an empty device |
| VssRepaint.OverlapAlwaysHolds | libs/vss/mfw_gst_vss_common.h:154-156 | The overlap test holds for any two non-empty rectangles, so once a pass paints it paints every later surface |
| VssFrames.RenderGivesFrame | libs/vss/mfw_gst_video_surface.c:905-953 | On every device, for every surface: a render call gives that surface its frame and changes no window, task, frame or visibility besides, whatever the pass paints |
| VssFrames.StepCarries | libs/vss/mfw_gst_video_surface.c:400-965 | Every call, with nothing excluded, leaves the list as an account of the calls says: who lives, in which order, with which window, task, visibility and frame |
| VssFrames.RunsCarry | libs/vss/mfw_gst_video_surface.c:400-965 | After every run, each surface carries the frame of the last render call for it, or else the one it was created with, and the window it was given last; they lie in the order in which they were last raised |
| VssFrames.PaintsExactly | libs/vss/mfw_gst_video_surface.c:400-965 | A render of a visible surface, a configure, a move to the top from below and a destroy that leaves surfaces are exactly the calls that put anything into the current buffer; any other leaves all buffers and the one to be flipped as they are |
| VssFrames.RunsShowLatest | libs/vss/mfw_gst_video_surface.c:714-965 | In every allowed run from an empty device, each buffer flipped has the picture of painting what the account says: every surface's latest frame in its latest window, from the bottom to the top |
| VssOpening.WrongContentsShow | libs/vss/mfw_gst_vss_common.c:792-978 | Otherwise a run that flips a buffer in which what it held before shines through |
| VssOpening.ContentsExactly | libs/vss/mfw_gst_vss_common.c:792-978 | When a fresh surface is the first on a device, all further allowed runs are repainted right if and only if every buffer not marked for clearing starts black at all points where what is behind the surfaces can come to be seen; the service starts with none marked |
| VssStale.StaleMaskIsMissed | libs/vss/mfw_gst_vss_common.c:792-808 | A surface whose mask has the current buffer's bit without having been painted there, and with nothing below it to paint, is missing from the buffer that is flipped, in a list of any length and also when the buffer is cleared first |
| VssStale.HarmIsMissed | libs/vss/mfw_gst_video_surface.c:714-965 | If the device has room for one more, a run that ends in such a buffer: the create, another surface with a proper window on the screen, and renderings of that one |
| VssStale.PassKeepsLike | libs/vss/mfw_gst_vss_common.c:792-808 | Stale bits for which a surface below still has to be painted make no difference to any pass, and are right once their buffer is painted |
| VssStale.LikeRepaints | libs/vss/mfw_gst_video_surface.c:714-965 | Nor to any run |
| VssStale.StaleLastRepaints | libs/vss/mfw_gst_video_surface.c:760-965 | Without room for another surface a stale mask does no harm: whatever painting comes first paints the stale surface too or forgets the mask |
| VssStale.CreateExactly | libs/vss/mfw_gst_video_surface.c:760-823 | All further runs that are otherwise allowed are repainted right if and only if the device has no room for another surface or, for each buffer in the new surface's mask, a surface below still has to be painted there or the buffer shows the new surface already |
| VssStale.FreshExactly | libs/vss/mfw_gst_video_surface.c:760-823 | On a device without surfaces whose buffers start black, if and only if there is no room for another surface, the surface shows nowhere, or its slot's mask has no bit of the three buffers |
| VssControl.ListsDisjoint | libs/vss/mfw_gst_vss_common.h:120-148 | The id-linked lists of two devices share no surface |
| VssControl.ChainAppend | libs/vss/mfw_gst_video_surface.c:366-381 | Linking a surface behind the last keeps the list acyclic, with the new one at its end |
| VssControl.ChainRemove | libs/vss/mfw_gst_video_surface.c:383-397 | Unlinking a surface keeps the list, less that surface |
| VssControl.VideoSurfacesControl.constructor | libs/vss/mfw_gst_vss_common.c:358-440 | A fresh service: all slots idle, no surface on any device, no buffer marked for clearing, and the bookkeeping of every device in order |
| VssControl.VideoSurfacesControl.AddToDevice | libs/vss/mfw_gst_video_surface.c:366-381 | The surface joins the end of its device's list and cnt counts it; all other devices are as before |
| VssControl.VideoSurfacesControl.RemoveFromDevice | libs/vss/mfw_gst_video_surface.c:383-397 | The surface leaves its device's list and cnt is one less; all other devices are as before |
| VssControl.VideoSurfacesControl.RenderOne | libs/vss/mfw_gst_vss_common.c:952-987 | Painting one surface: clears the buffer first when it is marked, sets the surface's mask bit, and extends the updated area |
| VssControl.VideoSurfacesControl.RenderPass | libs/vss/mfw_gst_video_surface.c:943-953 | The loop along the id links is the pass over the list |
| VssControl.VideoSurfacesControl.RefreshAll | libs/vss/mfw_gst_video_surface.c:400-411 | The refresh along the id links is the refresh of the list |
| VssControl.VideoSurfacesControl.FlipOnDevice | libs/vss/mfw_gst_vss_common.c:989-1009 | The next of the three buffers becomes the one to paint, unless the display refuses |
| VssControl.VideoSurfacesControl.Render2 | libs/vss/mfw_gst_video_surface.c:891-965 | render2VideoSurface is the Render step on its device and touches no other; the surface then has the frame it was given |
| VssControl.VideoSurfacesControl.Relayer | libs/vss/mfw_gst_video_surface.c:451-473 | Moving a surface to the top is the Relayer step on its device and touches no other |
| VssControl.VideoSurfacesControl.Configure | libs/vss/mfw_gst_video_surface.c:505-555 | A new window and rotation is the Configure step on its device and touches no other |
| VssControl.VideoSurfacesControl.Destroy | libs/vss/mfw_gst_video_surface.c:559-616 | Destroying a surface is the Destroy step on its device; its slot becomes idle and keeps everything else, mask and frame included |
| VssControl.VideoSurfacesControl.FindIdle | libs/vss/mfw_gst_video_surface.c:767-778 | The first idle slot of the pool, or 0 if and only if none is idle |
| VssControl.VideoSurfacesControl.Create | libs/vss/mfw_gst_video_surface.c:714-837 | Creating a surface is the Create step on its device, which had room for it, in the first idle slot, with the frame and mask of the slot's last use; an unknown device, a full one, one that does not start, a rejected source or the lack of an idle slot changes nothing on any device |
| VssControl.VisibleIsWindow | libs/vss/mfw_gst_video_surface.c:276-449 | A surface the service counts as visible has a window of multiples of 8, at least 16 by 16, on the screen |
| VssControl.IdleLeavesRoom | libs/vss/mfw_gst_video_surface.c:767-778 | While a slot of the pool is idle no device has all eight surfaces |
| VssControl.RoomExactly | libs/vss/mfw_gst_video_surface.c:760-778 | A device has room, as the repaint results mean it, if and only if its count is below vsmax and some of the eight slots is not on its list |
| VssControl.ReuseSlot | libs/vss/mfw_gst_video_surface.c:559-965 | Four calls that leave a stale mask: create, render, destroy, create; the new surface has the old frame and counts as painted in the first buffer, which holds whatever it holds |
| AacBits.BitReader.constructor | src/audio/aac_dec/src/mfw_gst_aacdec.c:312-340 | The reader starts at the first bit of the buffer |
| AacBits.BitReader.Fill | src/audio/aac_dec/src/mfw_gst_aacdec.c:327-337 | Refilling the 32-bit register loses and adds no bit, and leaves 24 valid bits or all there are |
| AacBits.BitReader.Read | src/audio/aac_dec/src/mfw_gst_aacdec.c:356-402 | For 1 to 24 bits the value is exactly the next bits of the byte sequence read as one big-endian bit string; with too few left it is 0 and nothing is consumed |
| AacBits.BitReader.ByteAlign | src/audio/aac_dec/src/mfw_gst_aacdec.c:418-435 | Skips to the next byte boundary and says how many bits that took |
| AacBits.TakeTop | src/audio/aac_dec/src/mfw_gst_aacdec.c:377-379 | Shifting the register right by 32 - n gives the number made of its first n valid bits |
| AacBits.LoadUnder | src/audio/aac_dec/src/mfw_gst_aacdec.c:392-394 | Or-ing a byte in under the valid bits appends it to them; the bits below stay 0 |
| AacBits.BitWriter.PutBits | src/audio/aac_dec/src/mfw_gst_aacdec.c:1927-1979 | Appends the low n bits of the value, highest first, to the bits written so far |
| AacBits.ValueEncode | src/audio/aac_dec/src/mfw_gst_aacdec.c:1927-1979 | Bits written for a number are read as that number modulo 2 to the width |
| AacBits.EncodeValue | src/audio/aac_dec/src/mfw_gst_aacdec.c:356-402 | A number read from n bits is below 2 to the n, and writing it in n bits gives those bits back |
| AacBits.EncodeBit | src/audio/aac_dec/src/mfw_gst_aacdec.c:1945-1957 | Testing a number against a mask that moves right gives its bits in order |
| AdtsHeader.SearchSync | src/audio/aac_dec/src/mfw_gst_aacdec.c:686-718 | The search on the register is the search on the bit string; it terminates on every input |
| AdtsHeader.FindSyncFindsFirst | src/audio/aac_dec/src/mfw_gst_aacdec.c:686-718 | It stops right behind the first syncword on a byte boundary, if and only if that lies within the limit |
| AdtsHeader.SyncFound | src/audio/aac_dec/src/mfw_gst_aacdec.c:686-718 | Behind bits up to a byte boundary and any bytes in which no syncword starts, the first syncword is found, with all bits counted |
| AdtsHeader.GetAdtsHeader | src/audio/aac_dec/src/mfw_gst_aacdec.c:666-887 | The parser on the register is the parser on the bit string, for every input and limit |
| AdtsHeader.GetFields | src/audio/aac_dec/src/mfw_gst_aacdec.c:722-834 | The fields in order, with the two reasons to search on and the one to give up |
| AdtsHeader.ParsesLaidOut | src/audio/aac_dec/src/mfw_gst_aacdec.c:666-887 | Any header laid out as in section 6.2 of ISO/IEC 13818-7, with any values of all its fields, protected or not, wherever its syncword is found: all fields and the CRC, if there is one, are given, the frame length counted from the first bit used, and exactly the frame is left; another layer or a rate index from 12 on makes the search go on right behind it, and any profile but low complexity gives 1 |
| AdtsHeader.LaidOutRoundTrip | src/audio/aac_dec/src/mfw_gst_aacdec.c:666-887 | Laid out with values that fit, a header is parsed at once as exactly those values, in 56 bits, or 72 with its CRC, and the frame is what is left |
| AdtsHeader.GenCodecBuffer | src/audio/aac_dec/src/mfw_gst_aacdec.c:2040-2139 | Seven bytes of header in front of the frame, which is unchanged, with the fields of section 6.2 of ISO/IEC 13818-7 in order and padded to a byte |
| AdtsBytes.GeneratedBytes | src/audio/aac_dec/src/mfw_gst_aacdec.c:2040-2139 | What gen_codec_buffer lays out is, as bytes, FF F1, then 40 plus four times the rate and the high bit of the channels, the other channel bits and the 13 bits of the size in order, five ones, and FC |
| AdtsBytes.Generate | src/audio/aac_dec/src/mfw_gst_aacdec.c:2040-2139 | The buffer is exactly those seven bytes and then the frame |
| AdtsHeader.RoundTrip | src/audio/aac_dec/src/mfw_gst_aacdec.c:2040-2139 | Parsing what was generated succeeds at once exactly for rate indices below 12, uses 7 bytes, and gives back rate, channels modulo 8, protection, buffer fullness and the payload size modulo 8192 |
| AdtsHeader.ParsedExactly | src/audio/aac_dec/src/mfw_gst_aacdec.c:2040-2139 | In range, the parsed header is exactly the one generated |
| AdtsHeader.LengthLeavesOutHeader | src/audio/aac_dec/src/mfw_gst_aacdec.c:2114-2117 | The length written is the payload's; what is parsed is never the length with the header, which is what ISO/IEC 13818-7 asks for |
| AdtsHeader.GenerateAndParse | src/audio/aac_dec/src/mfw_gst_aacdec.c:666-887 | Writer, reader and parser put together: the decoder finds the generated header |
| BlockPool.TimestampManager.Clear | src/audio/aac_dec/src/mfw_gst_aacdec.c:948-959 | All nodes become free, the last in front |
| BlockPool.TimestampManager.NewBlock | src/audio/aac_dec/src/mfw_gst_aacdec.c:961-1006 | A node from the free list, or the last node of an array twice the size into which the linked queue has moved; links, queue, free list and node in hand stay consistent |
| BlockPool.TimestampManager.Grow | src/audio/aac_dec/src/mfw_gst_aacdec.c:969-1005 | Growth puts the queue in the first nodes in order and the nodes in between on the free list |
| BlockPool.TimestampManager.Push | src/audio/aac_dec/src/mfw_gst_aacdec.c:1008-1027 | A block is linked behind the tail |
| BlockPool.TimestampManager.GetTimestamp | src/audio/aac_dec/src/mfw_gst_aacdec.c:1029-1053 | Returns the timestamp of the first queued block, or none, and takes the bytes off the front |
| BlockPool.GrowthKeepsContents | src/audio/aac_dec/src/mfw_gst_aacdec.c:961-1006 | Getting a node, with or without growth, leaves the queued lengths and timestamps as they are |
| BlockPool.TakeNodeKeepsPartition | src/audio/aac_dec/src/mfw_gst_aacdec.c:961-1006 | Every node of the array is in the queue, on the free list or the one returned, exactly once |
| BlockPool.PushedKeepsWellFormed | src/audio/aac_dec/src/mfw_gst_aacdec.c:1008-1027 | Pushing keeps the partition and appends to the contents |
| BlockPool.TakeKeepsWellFormed | src/audio/aac_dec/src/mfw_gst_aacdec.c:1029-1053 | Taking keeps the partition and allocates nothing |
| BlockPool.TakeAdditive | src/audio/aac_dec/src/mfw_gst_aacdec.c:1029-1053 | Taking a and then b bytes leaves what taking a + b leaves, to the order of the free list |
| BlockPool.TakeDropsBytes | src/audio/aac_dec/src/mfw_gst_aacdec.c:1029-1053 | With the queue read as one timestamp per byte, taking n bytes drops the first min(n, total) |
| BlockPool.TakeLeavesBytesAtHead | src/audio/aac_dec/src/mfw_gst_aacdec.c:1038-1048 | After a take the head has bytes left; blocks without bytes go with those before them |
| BlockPool.RunsAreFaithful | src/audio/aac_dec/src/mfw_gst_aacdec.c:948-1053 | In every run, through any growth, the queue is what was pushed less what was taken, and the timestamp returned is that of the first byte not yet taken |
| BlockPool.RunsStaySized | src/audio/aac_dec/src/mfw_gst_aacdec.c:961-1053 | In every run the pool has no nodes, or four doubled as often as needed: enough for the most blocks ever queued at once, and beyond four never twice as many |
| HwAllocator.RoundUpIsLeast | libs/hbuf_alloc/hwbuffer_allocator.c:71 | Zone sizes are the least multiple of 4096 not below the request |
| HwAllocator.Allocator.FindOrCreateZone | libs/hbuf_alloc/hwbuffer_allocator.c:162-183 | The zone of the size, or a new empty one in front of the others |
| HwAllocator.Allocator.DestroyZone | libs/hbuf_alloc/hwbuffer_allocator.c:186-202 | Releases the memory of all the zone's buffers and removes the zone, no other |
| HwAllocator.Allocator.RecycleZone | libs/hbuf_alloc/hwbuffer_allocator.c:205-225 | Releases what is on the free list and takes it out of the zone; whether the free list is emptied is a parameter |
| HwAllocator.Allocator.RecycleExclude | libs/hbuf_alloc/hwbuffer_allocator.c:228-240 | Does so in all zones but one, and removes those left without buffers |
| HwAllocator.Allocator.CreateBuffer | libs/hbuf_alloc/hwbuffer_allocator.c:242-282 | Asks the driver, recycles the other zones and asks again when it refuses, and gives up otherwise |
| HwAllocator.Allocator.NewBuffer | libs/hbuf_alloc/hwbuffer_allocator.c:284-329 | A free buffer of the zone, else a new one; an empty zone goes again when there is none |
| HwAllocator.Allocator.GiveBack | libs/hbuf_alloc/hwbuffer_allocator.c:331-350 | The buffer goes to the free list; a zone all of whose buffers are free is destroyed |
| HwAllocator.Allocator.Deconstruct | libs/hbuf_alloc/hwbuffer_allocator.c:356-367 | Releases everything, held or not |
| HwAllocator.RunsKeepInv | libs/hbuf_alloc/hwbuffer_allocator.c:162-350 | Over every run and all answers of the driver: zone sizes are distinct multiples of 4096, cnt and freecnt are the true lengths, free lists are subsets, buffers with memory are exactly those in zones, held buffers exactly those not on a free list, and every zone has a buffer in use |
| HwAllocator.NewKeeps | libs/hbuf_alloc/hwbuffer_allocator.c:284-329 | One request keeps that, recycling included |
| HwAllocator.FreeKeeps | libs/hbuf_alloc/hwbuffer_allocator.c:331-350 | One return keeps that, and finds the zone of the buffer |
| HwAllocator.NewGivesMemory | libs/hbuf_alloc/hwbuffer_allocator.c:284-329 | A buffer handed out was not held, has memory of at least the size asked for, and no held buffer loses its memory |
| HwAllocator.GrantedExactly | libs/hbuf_alloc/hwbuffer_allocator.c:242-329 | In every state, a request succeeds if and only if the driver is open or opens, and the zone has a free buffer or the driver grants the first request for memory, or the second after recycling, and maps it; it gives the first free buffer, or else a new one |
| HwAllocator.RefusalReleasesAllSpare | libs/hbuf_alloc/hwbuffer_allocator.c:228-282 | When the driver refuses at first, exactly the memory of buffers that callers hold is left, whatever the second request comes to |
| HwAllocator.NothingReleasedOtherwise | libs/hbuf_alloc/hwbuffer_allocator.c:242-329 | In all other cases no memory is given up, and a new buffer joins the zone of its size |
| HwAllocator.FreeUndoesNew | libs/hbuf_alloc/hwbuffer_allocator.c:284-350 | Giving back at once a buffer that came from a free list restores the whole state |
| HwAllocator.NothingHeldNothingKept | libs/hbuf_alloc/hwbuffer_allocator.c:331-350 | When all buffers have been given back, no zone and no memory is left |
| HwAllocator.AsWrittenExactly | libs/hbuf_alloc/hwbuffer_allocator.c:205-225 | Without the reset of the free list, as the source has it, a request keeps the invariant if and only if it does not recycle or the other zones have nothing to recycle |
| HwAllocator.StaleList | libs/hbuf_alloc/hwbuffer_allocator.c:205-225 | In all other cases a free list is left all of whose buffers have lost their memory, with a free count of 0 |
| HwAllocator.StaleBufferIsHandedOut | libs/hbuf_alloc/hwbuffer_allocator.c:205-329 | The next request for that size is then given a buffer without memory, whatever the driver answers |
| HwAllocator.OneBackIsReached | libs/hbuf_alloc/hwbuffer_allocator.c:284-350 | The state before the refused request is reached by the first three calls and satisfies the invariant |
| HwAllocator.StaleRun | libs/hbuf_alloc/hwbuffer_allocator.c:205-350 | Such a run from the start: two requests of 4096 are granted, the first buffer comes back, a request of 8192 is refused at first, and the next of 4096 gets that buffer, which has no memory any more |
| PlayerQueue.MessageQueue.PutMessage | tools/gplay/fsl_player_queue.c:154-267 | One stretch of put under the mutex: appends and signals on the first message, or times out, or waits |
| PlayerQueue.MessageQueue.GetMessage | tools/gplay/fsl_player_queue.c:284-371 | One stretch of get: takes the oldest message not yet taken and signals when the queue was full, or times out, or waits |
| PlayerQueue.MessageQueue.FlushMessages | tools/gplay/fsl_player_queue.c:375-434 | Drops all messages and signals one producer |
| PlayerQueue.MessageQueue.SetLimit | tools/gplay/fsl_player_queue.c:108-122 | A limit below the present length, or 0, is refused |
| PlayerQueue.RunsKeepInv | tools/gplay/fsl_player_queue.c:108-434 | In all runs len is the list's length and at most max_len, messages leave in the order they were put, and each one put is queued, handed out once or flushed |
| PlayerQueue.RunsKeepGetters | tools/gplay/fsl_player_queue.c:297-366 | With one consumer and any number of producers, a consumer that waits un-signalled means an empty queue |
| PlayerQueue.RunsKeepPutters | tools/gplay/fsl_player_queue.c:182-262 | With one producer and no raised limit, a producer that waits un-signalled means a full queue |
| PlayerQueue.NoGetterLostExactly | tools/gplay/fsl_player_queue.c:258-262 | No consumer ever sleeps beside a message that nobody is on the way to take, if and only if there is at most one consumer |
| PlayerQueue.NoPutterLostExactly | tools/gplay/fsl_player_queue.c:363-367 | No producer ever sleeps beside a free place that nobody is on the way to fill, if and only if there is at most one producer |
| PlayerQueue.StepKeepsPuttersExactly | tools/gplay/fsl_player_queue.c:108-122 | The step that breaks the promise to a single producer is raising the limit while it sleeps, and no other |
| PlayerQueue.RaisingLosesThePutter | tools/gplay/fsl_player_queue.c:108-122 | A run in which it does |
| PlayerQueue.NeverBothAsleep | tools/gplay/fsl_player_queue.c:154-371 | With one producer and one consumer the two are never asleep at once |
| PlayerQueue.FullPutExactly | tools/gplay/fsl_player_queue.c:182-262 | Without room, put returns at once for limit 0, and else waits, for ever if the limit is negative |
| PlayerQueue.EmptyGetExactly | tools/gplay/fsl_player_queue.c:297-366 | Without a message, get returns at once for limit 0, and else waits, for ever if the limit is negative |
| PlayerQueue.WakingExactly | tools/gplay/fsl_player_queue.c:182-366 | A wait may end by itself, a timed one also when its time is over; the thread is then awake with its message, and nothing else has changed |
| PlayerQueue.TimedPutExactly | tools/gplay/fsl_player_queue.c:182-262 | A timed wait for room ends with the message put if it was signalled in time and there is room, and with nothing changed otherwise |
| PlayerQueue.TimedGetExactly | tools/gplay/fsl_player_queue.c:297-366 | A timed wait for a message ends with the oldest one if it was signalled in time and there is one, and with nothing changed otherwise |
| PlayerQueue.EndlessWaitExactly | tools/gplay/fsl_player_queue.c:182-366 | A wait without a limit ends only with what was waited for, and else goes on for the same message |
| PlayerQueue.RunsPutWhatWasAsked | tools/gplay/fsl_player_queue.c:154-267 | In every run what is put is the message of each call that finds room, at once or after waits, in that order |
| PlayerQueue.LimitIsTakenExactly | tools/gplay/fsl_player_queue.c:108-122 | A new limit is taken if and only if the queue keeps its invariant with it |
| BufferRefs.BufferManager.GetBuffer | inc/plugin/mfw_gst_utils.h:406-419 | Both flags set, two references taken, listed last; a refused allocation gives a null pointer and changes nothing |
| BufferRefs.BufferManager.ReleaseBuffer | inc/plugin/mfw_gst_utils.h:438-467 | The decoder's reference is given up, or on a second release the one for showing; an unflagged buffer leaves the list |
| BufferRefs.BufferManager.RejectBuffer | inc/plugin/mfw_gst_utils.h:469-493 | The reference for showing is given up once |
| BufferRefs.BufferManager.RenderBuffer | inc/plugin/mfw_gst_utils.h:495-521 | The reference for showing goes to the pad once |
| BufferRefs.BufferManager.CleanList | inc/plugin/mfw_gst_utils.h:353-365 | Everything still owed is given up and the list is empty |
| BufferRefs.RunsKeepInv | inc/plugin/mfw_gst_utils.h:353-521 | For every run: the references owed for a buffer are its flags set, it is listed once exactly while something is owed, and all references taken were pushed, unreferenced or are owed |
| BufferRefs.CleanGivesEverythingUp | inc/plugin/mfw_gst_utils.h:353-521 | After any run and a final clean, each of the two references of every get has been given up exactly once, at most one of them by a push |
| BufferRefs.GetIsFoundLast | inc/plugin/mfw_gst_utils.h:406-467 | A buffer just got is found by the data it has now, unless one got before it shows the same data; what was found before is still found |
| BufferRefs.RenderAndReleaseCommute | inc/plugin/mfw_gst_utils.h:438-521 | Showing and releasing a buffer in either order leads to the same state, with nothing owed |
| BufferRefs.SecondReleaseRejects | inc/plugin/mfw_gst_utils.h:455-462 | A second release is a rejection |
| AmrHeaders.MmsSizes | src/audio/amr_dec/src/mfw_gst_amrdec.c:50-70 | The MMS frame sizes are those of section 5.3 of RFC 4867: one octet and the frame's bits padded to octets; reserved types have size 0 |
| AmrHeaders.If1Sizes | src/audio/amr_dec/src/mfw_gst_amrdec.c:56-76 | The sizes of interface format 1 are 24 bits and those of the frame, padded to octets; reserved types have size 0 in narrow band and 1 in wide band |
| AmrHeaders.If2Sizes | src/audio/amr_dec/src/mfw_gst_amrdec.c:61-81 | The sizes of interface format 2 are 4 bits, or 5 in wide band, and those of the frame, padded to octets |
| AmrHeaders.TypeBits | src/audio/amr_dec/src/mfw_gst_amrdec.c:517-555 | The frame type is made of the four header bits that RFC 4867 and the two interface formats of 3GPP TS 26.101 have for it |
| AmrHeaders.QualityBits | src/audio/amr_dec/src/mfw_gst_amrdec.c:517-555 | The quality bit is the one right behind the type, and interface format 2 has none |
| AmrFraming.AmrDecoder.TakeFrame | src/audio/amr_dec/src/mfw_gst_amrdec.c:643-667 | One frame leaves the adapter; a damaged one gives no output and takes no time |
| AmrFraming.AmrDecoder.Chain | src/audio/amr_dec/src/mfw_gst_amrdec.c:586-690 | The frames cut off, the bytes kept, the frame count, the timestamps and discontinuity marks of what goes to the decoder, and the flow returned, given what decoding and pushing each frame comes to |
| AmrFraming.FlowIsOfLastFrame | src/audio/amr_dec/src/mfw_gst_amrdec.c:644-685 | Only the last frame of a buffer decides what is returned: an error if it was damaged, else what decoding and pushing it came to |
| AmrFraming.OutputsAre | src/audio/amr_dec/src/mfw_gst_amrdec.c:616-685 | The outputs are the undamaged frames, one duration apart, and only the first carries the discontinuity |
| AmrFraming.FramesAreTheStream | src/audio/amr_dec/src/mfw_gst_amrdec.c:616-685 | Framing loses nothing: the frames in order and what is left are the stream, each frame has the size its header announces, and what is left is not a whole frame |
| AmrFraming.ParseMore | src/audio/amr_dec/src/mfw_gst_amrdec.c:616-685 | Framing can stop anywhere and go on with what is left and more bytes |
| AmrFraming.FeedIsParse | src/audio/amr_dec/src/mfw_gst_amrdec.c:616-685 | Feeding a stream in any pieces gives the frames and the residue of the whole |
| AmrFraming.ChunkIndependentExactly | src/audio/amr_dec/src/mfw_gst_amrdec.c:635-640 | Framing is independent of how the stream is split if and only if every frame met has a known size, or the first that has not is followed by nothing but such headers: a bad header clears the adapter |
| AmrFraming.WideNeverBad | src/audio/amr_dec/src/mfw_gst_amrdec.c:72-80 | For the wide-band formats IF1 and IF2 no header is bad, and the split never matters |
| VideoModeText.StrChr | libs/vss/mfw_gst_vss_common.c:298 | The first position of a character, or none |
| VideoModeText.ParseInt | libs/vss/mfw_gst_vss_common.c:306 | atoi: spaces, a sign and digits, up to anything else |
| VideoModeText.VideoModeFromStr | libs/vss/mfw_gst_vss_common.c:295-334 | The parser on any text, including what it has already assigned when it fails |
| VideoModeText.AtoiOfDecimal | libs/vss/mfw_gst_vss_common.c:286-334 | Reading a printed number gives it back |
| VideoModeText.SignedIsRead | libs/vss/mfw_gst_vss_common.c:306 | atoi skips white space and one sign and reads the digits up to anything else |
| VideoModeText.RoundTripExactly | libs/vss/mfw_gst_vss_common.c:286-334 | For every mode: parsing the printed mode succeeds if and only if width and rate are not 0 and the height is positive, and gives the mode back with interleave as 0 or 1 |
| VideoModeText.SucceedsExactly | libs/vss/mfw_gst_vss_common.c:295-334 | For any text with its separators: parsing succeeds if and only if the three numbers are not 0 and the letter before the dash is p or i, and then it has read all four values |
| VideoModeText.WithoutRateFails | libs/vss/mfw_gst_vss_common.c:295-334 | Without a dash it fails with what comes before assigned |
| VideoModeText.WithoutSeparatorsFails | libs/vss/mfw_gst_vss_common.c:295-334 | Without the colon or the x it fails and assigns nothing |

## Left out

- Machine integers: timestamps, counters and sizes are unbounded; 64-bit overflow of timestamps, 32-bit overflow of sizes and of the doubled pool size, and the unsigned wrap of lengths are not modelled.
- Failure of malloc for small nodes (FIFO blocks, queue nodes, descriptors, zones): taken to succeed.
- Links of the received-packet FIFO, the zone and buffer lists, the message list and the reference list: the lists are sequences, so aliasing of nodes is not captured there.
- VssRepaint.StepRepaints: surfaces without a frame or invisible ones on a refresh are excluded; the source draws those with crops set earlier, at places their windows do not tell.
- VssRepaint.RunsKeepRepainting: excludes the same refreshes.
- VssFrames.RunsShowLatest: excludes the same refreshes and creates as `VssRepaint.RunsRepaint`; `VssFrames.RunsCarry` excludes none.
- VssRepaint.RunsRepaint: excludes the same refreshes, and creates in slots whose mask is stale, for which `VssStale.CreateExactly` gives the condition.
- VssRepaint.FirstCreateGivesInv: what the three buffers hold when a device is opened is the driver's matter; it is a parameter of the create.
- VssStale.CreateExactly: for screens at least 32 wide, so that there is a window beside any point; the limit of a device is vsmax or the 8 slots of the pool, and that other devices may use slots up is not counted.
- The retry loops around the IPU task check: whether they end depends on a driver that is not part of this model.
- The race between a render call and the others that the `rendering` flag and trywait guard against.
- Alpha planes, deinterlacing, sub-frame buffers, the reconfiguration of all surfaces of a device, and the shared-memory and device lookup of the surface library.
- AdtsHeader.GetAdtsHeader: the constants in a header that is not part of this model are the field widths of ISO/IEC 13818-7, 24 for the two register limits, and a parameter for the longest frame; the old header format, the CRC check, the bit rate estimate and ADIF headers are left out.
- The value 32 times the buffer fullness and the other derived block parameters, which are copies of header fields.
- HwAllocator.RunsKeepInv: proved with the free list of a recycled zone emptied, as intended; the behaviour without that is `AsWrittenExactly`.
- AacBits.BitReader.Read: the register is a word of 32 bits, as the shift by 32 - n supposes; on machines where unsigned long is wider the source's shift is a different one.
- A failing release ioctl in the allocator: the source goes on as if it had succeeded, and so does the model.
- Replacing messages and null messages in the player queue: the loop looks only at the head and then returns.
- Allocating the first buffer in a loop and the caps handling of BM_GET_BUFFER: these references are given up on the spot.
- BufferRefs.RenderAndReleaseCommute: for a buffer whose data no other listed buffer shares, as allocators provide.
- The results of the closed AAC and AMR decoders: framing, timestamps and counters do not depend on them; what decoding and pushing each AMR frame comes to is a parameter.
- The wide-band-plus AMR type, which the source leaves unfinished, has no frame sizes.
- The end-of-string byte that video_mode_from_str writes over the 'x' in its argument.
- The AACPlus plugin's bit I/O and timestamp pool, which repeat the AAC plugin's; the AC3 seek index, whose minute counter is compared instead of reset; the configuration text parser, playlist, typefind and command line.
