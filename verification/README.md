# Verified models of the Redox drivers

This project models the parts of the driver repository where correctness depends on whole runs
rather than on single calls: rings and queues shared with a device, caches that must agree with
what they cache, and daemons that serve requests one after another. Each part has a value-level
state machine, an invariant that every step keeps, theorems over all runs, and, where the source
updates things in place, a class or method with loops that is proved against the same step.

| part | files |
|---|---|
| virtio split virtqueue (VirtIO 1.2, sections 2.7.5 to 2.7.14) | `Virtqueue`, `VirtqueueSteps`, `VirtqueueRuns`, `VirtqueueDriver` |
| console renderer, damage, screen, VT-aware scheme | `Raster`, `ConsoleDraw`, `Screen`, `Graphics`, `GraphicsClients`, `GraphicsIsolation`, `GraphicsDriver` |
| e1000 and ixgbe descriptor rings | `NicBuffers`, `RxRing`, `TxRing` |
| rtl8139 receive buffer | `Rtl8139` |
| ATA disk (ATA/ATAPI-6, section 6.20) | `AtaDisk` |
| input daemon | `Inputd`, `InputdRuns`, `InputdDisplays`, `InputdNotices`, `InputdDriver` |
| scatter-gather list | `Sgl` |
| network scheme | `NetworkScheme`, `NetworkDriver` |
| block reads | `BlockRead` |
| PCI Express configuration access (PCI Express Base Specification, section 7.2.2) | `Ecam` |
| shared arithmetic and sequences | `Bits`, `Counting`, `Rings`, `Common` |

`dafny verify dfyconfig.toml` checks all of it.

## How the parts are modelled

* **Virtqueue.** A `System` is the queue's memory, the outstanding requests, the device's position
  and the polls and wakers. The driver's `send`, the three moments of a `poll` (register the waker,
  read the used index, finish), the device's taking and publishing, and the interrupt's wake are
  separate steps, interleaved in any order. Device steps choose any request they hold. Ring indices
  are 16-bit and wrap; histories are unbounded, so runs may be of any length. One driver thread
  polls at a time.
* **Graphics.** Pixels are addressed by row and column over a flat buffer whose row length need not
  be the visible width. `Graphics` is the scheme over the screen's copy; `ConsoleWriteShown`
  composes it with the renderer: any film of console operations can be stored in the rows it
  reports, and writing its damage then shows the last frame. Rectangles are 32-bit; their sums wrap,
  as the release profile, which turns no overflow checks on, builds them.
* **Rings.** The device stores, takes and reports asynchronously, between any two driver steps. It
  takes transmit descriptors from its head up to the tail the driver wrote, and sees an empty ring
  when these are equal. What a descriptor names beyond its buffer is sent as arbitrary bytes. The rtl8139 has its own
  write pointer and learns of the driver only through CAPR.
* **ATA.** The drive's two-deep registers are pairs of current and previous value; the drive's side
  of a command decodes them again, so a wrong order of writes would be a wrong address. The values
  its status registers will show are given in advance, up to the time limit.
* **Daemons.** `Turn` and `Next` are one step of the daemon; the classes carry the run they have
  made as a ghost, so the statements about runs are about the objects.

Where the code does not do what one would expect of it, the model follows the code:

* `poll` looks only at the newest used entry, so a request whose entry was followed by another
  before a poll of it read the index never becomes ready. `CompletesIff` says exactly which
  completed requests still can, and `OvertakingIsReachable` shows that some cannot. Safety holds
  regardless; completion without that condition is stated for one outstanding request.
* `Damage::clip` subtracts the clipped width from the width instead of assigning it, and `sync`
  reads negative numbers as 0; a sum that overflows wraps, so a rectangle that ends past 2^31 - 1 is
  not clipped at all (`TallIsNotClipped`). `ClipExactIff` says for which rectangles the result is right.
* The input daemon panics on some requests before any terminal is active: a producer's bytes or a
  resize, a display driver taking over, or any write while a consumer is owed an event.
  `TurnPanicsIff` gives the exact condition for every request.
* Asking the input daemon for events clears the mark that one was sent and sends none, so a consumer
  with bytes to read can wait untold. `UntoldIff` says exactly when.
* A handoff tells no display but the new one, and a new display is told of the active terminal even
  when that is not on it. `InStepIff`, `OpenedInStepIff` and `HandoffInStepIff` say exactly when what
  a display has been told is what it shows.
* A transmit ring filled before the card takes its first packet looks empty to the card, for good.
  `TakenIff` says exactly when what was handed over can still go out.
* A packet that arrives while a tick is taking new requests can pass a blocked reader
  (`MidTickArrivalOvertakes`); without such arrivals order holds (`PacketsInOrder`).
* The network scheme panics on a read of the hardware address past its end, and when its adapter
  panics on what it received, as ixgbe does; `DiesIff` says exactly on which steps.
* The bus lookup does not compare the segment of the region below; `Find` says exactly when
  that matters, and for segment 0, the only one asked for, it never does.
* The e1000 driver puts at most 16383 bytes in a descriptor while reporting 16384 sent, and the
  ixgbe driver puts the caller's length in a descriptor even when it exceeds the buffer, of which the
  device takes the low 16 bits.
  `SentWholeIff` says exactly which packets go out as they are, on either card.
* The ixgbe driver panics on a frame that does not end in one descriptor (`ReadPanicsIff`); the
  e1000 driver takes each piece for a frame.
* A seek whose sum does not fit 64 signed bits ends at 0, not at the end of the disk
  (`SoughtIff`, `SeekForwardGoesBack`).

## Model

| member | source | states |
|---|---|---|
| `VirtqueueRuns.RunKeepsInv` | virtio-core/src/transport.rs:97-241 | In every run of sends, polls, device steps and wakes, of any length, the whole queue invariant holds: counters are the unbounded ones modulo 2^16, descriptors are partitioned, chains are stored, both rings hold their histories. |
| `VirtqueueRuns.DescriptorsConserved` | virtio-core/src/transport.rs:97-142 | The free queue and the descriptors on the outstanding chains partition the table at all times, and the only walk by NEXT from an outstanding head is its own chain, so every recycling walk ends and frees just that chain. |
| `VirtqueueRuns.NoEntryAcceptedTwice` | virtio-core/src/transport.rs:106-138 | Never more than a queueful of used entries is unaccepted, accepted entries have strictly increasing positions, and what a Ready poll returns is what the device published there. |
| `VirtqueueRuns.DeviceReadsChain` | virtio-core/src/transport.rs:201-226 | Whatever walk the device makes from an outstanding head, it reads the caller's buffers, address, 32-bit size and flags, in order, and stops. |
| `VirtqueueRuns.DeviceFindsOffer` | virtio-core/src/transport.rs:228-234 | The available slot the device reads next holds the head of an outstanding request it has not seen. |
| `VirtqueueRuns.WalkIffWellFormed` | virtio-core/src/transport.rs:205-226 | The descriptors written for a chain form its walk if and only if NEXT is set on all buffers but the last, which is what the chain builder makes. |
| `VirtqueueRuns.WakeNeverLost` | virtio-core/src/transport.rs:65-141 | A request that returned Pending is owed a wake, given or still due, as soon as the device has published anything beyond what it saw. |
| `VirtqueueRuns.SoloNoLostWake` | storage/virtio-blkd/src/scheme.rs:56 | With one request outstanding no interleaving leaves a completed request Pending with no wake given or due. |
| `VirtqueueRuns.SoloCompletes` | virtio-core/src/transport.rs:97-141 | With one request outstanding a poll that reads the index after completion is Ready with the device's length. |
| `VirtqueueRuns.StrandedForever` | virtio-core/src/transport.rs:113-118 | A completed request whose entry is no longer the newest, and was not when the poll under way looked, stays outstanding and so for ever, whatever is sent, polled or published. |
| `VirtqueueRuns.CompletesIff` | virtio-core/src/transport.rs:97-141 | Exactly which completed requests can still complete: some continuation of the run polls the request to Ready with its length if and only if it is not stranded. |
| `VirtqueueRuns.OvertakingIsReachable` | virtio-core/src/transport.rs:113-118 | Two requests on a queue of two, both completed before either is polled, leave the first stranded. |
| `VirtqueueRuns.WakersOutstanding` | virtio-core/src/transport.rs:97-141 | In every run each waker kept belongs to an outstanding request: a Ready poll takes its own away. |
| `VirtqueueSteps.StepKeeps` | virtio-core/src/transport.rs:65-241 | Each single step, of the driver, the device or the interrupt, keeps the invariant. |
| `VirtqueueSteps.SendPartition` | virtio-core/src/transport.rs:205-226 | Popping descriptors for a chain keeps the partition and its head names no other request. |
| `VirtqueueSteps.SendSlotFree` | virtio-core/src/transport.rs:342-352 | The available slot written by `send` is none the device has yet to consume, across index wrap. |
| `VirtqueueSteps.UsedBound` | virtio-core/src/transport.rs:106-118 | Between two Ready results the device publishes at most a queueful of entries. |
| `VirtqueueSteps.PollExact` | virtio-core/src/transport.rs:106-118 | The 16-bit comparison says "nothing new" exactly when nothing is new, and poll is Ready exactly when the newest entry seen is this request's, with its length. |
| `VirtqueueSteps.FinishPath` | virtio-core/src/transport.rs:118-138 | The descriptors a Ready poll walks are exactly those its request was sent with. |
| `VirtqueueSteps.PublishSlotFree` | virtio-core/src/transport.rs:420-430 | Fewer than a queueful is unaccepted when the device publishes, and the used slot it writes is none of theirs, across index wrap. |
| `VirtqueueSteps.WalkUnique` | virtio-core/src/transport.rs:120-127 | A head has at most one walk to a descriptor without NEXT. |
| `VirtqueueSteps.ReadyPartition` | virtio-core/src/transport.rs:118-138 | Returning a chain to the free queue keeps the partition. |
| `Virtqueue.RequestsFit` | virtio-core/src/transport.rs:172-187 | Outstanding requests and free descriptors together never outnumber the table. |
| `Virtqueue.UsedCount` | virtio-core/src/transport.rs:106-118 | Unaccepted used entries and requests still held are different outstanding requests. |
| `Virtqueue.AvailCount` | virtio-core/src/transport.rs:228-234 | Offers not yet taken are different outstanding requests. |
| `Virtqueue.IndexSlot` | virtio-core/src/transport.rs:342-352 | A 16-bit index picks the slot of the unbounded counter, for power-of-two sizes up to 32768. |
| `Virtqueue.RingAdvance` | virtio-core/src/transport.rs:228-234 | Writing at the index and stepping it appends to the ring's history. |
| `VirtqueueDriver.ChainBuilder.constructor` | virtio-core/src/spec/split_virtqueue.rs:187-191 | A new builder is empty. |
| `VirtqueueDriver.ChainBuilder.Chain` | virtio-core/src/spec/split_virtqueue.rs:193-197 | Adds the buffer at the end, with NEXT set and the other flags kept. |
| `VirtqueueDriver.ChainBuilder.Build` | virtio-core/src/spec/split_virtqueue.rs:199-204 | The chain has NEXT on all buffers but the last and is otherwise the buffers added. |
| `VirtqueueDriver.VirtQueue.constructor` | virtio-core/src/transport.rs:160-187 | A new queue has every descriptor free, in order, and all indices zero. |
| `VirtqueueDriver.VirtQueue.WriteChain` | virtio-core/src/transport.rs:202-226 | The loop pops one descriptor per buffer and leaves exactly those descriptors written and linked. |
| `VirtqueueDriver.VirtQueue.SetDescriptor` | virtio-core/src/spec/split_virtqueue.rs:57-71 | Address, 32-bit size and flags of one descriptor, its link and all others untouched. |
| `VirtqueueDriver.VirtQueue.SetNext` | virtio-core/src/spec/split_virtqueue.rs:65-67 | The link of one descriptor, nothing else. |
| `VirtqueueDriver.VirtQueue.WriteLink` | virtio-core/src/transport.rs:212-218 | One turn of that loop: the new descriptor written and linked from the one before, all others untouched. |
| `VirtqueueDriver.VirtQueue.Offer` | virtio-core/src/transport.rs:228-234 | The head is stored at the wrapped index and the index stepped. |
| `VirtqueueDriver.VirtQueue.Send` | virtio-core/src/transport.rs:201-241 | The in-place `send` is the send step of the state machine. |
| `VirtqueueDriver.VirtQueue.Recycle` | virtio-core/src/transport.rs:118-130 | The walk along NEXT ends and returns exactly the chain, in order, to the free queue. |
| `VirtqueueDriver.VirtQueue.Newest` | virtio-core/src/transport.rs:113 | The element at the wrapped index before the one read. |
| `VirtqueueDriver.VirtQueue.Poll` | virtio-core/src/transport.rs:97-142 | The in-place `poll` is the poll step: same outcome, the chain recycled in walk order, the waker removed, the used head moved. |
| `ConsoleDraw.FillRow` | graphics/console-draw/src/lib.rs:44-54 | Colours exactly one run of pixels. |
| `ConsoleDraw.InvertRow` | graphics/console-draw/src/lib.rs:71-86 | Inverts exactly one run of pixels. |
| `ConsoleDraw.FillRect` | graphics/console-draw/src/lib.rs:31-55 | Colours exactly the pixels of the rectangle that are on the screen. |
| `ConsoleDraw.InvertRect` | graphics/console-draw/src/lib.rs:58-87 | Inverts exactly the pixels of the rectangle that are on the screen. |
| `ConsoleDraw.GlyphRow` | graphics/console-draw/src/lib.rs:103-116 | Sets exactly the pixels whose bit the glyph row has. |
| `ConsoleDraw.DrawChar` | graphics/console-draw/src/lib.rs:90-117 | Draws the glyph's set bits at its place if it fits and the font has it, and nothing else. |
| `ConsoleDraw.GlyphReadsBack` | graphics/console-draw/src/lib.rs:104-107 | For every byte of the font, the columns it colours, read from the left as binary digits, are the byte. |
| `ConsoleDraw.CharReadsBack` | graphics/console-draw/src/lib.rs:89-117 | A character drawn over other colours can be read off the screen: each line of its cell is the font's byte for it. |
| `ConsoleDraw.CopyWithin` | graphics/console-draw/src/lib.rs:189-195 | A run copied over an overlapping one is a simultaneous copy. |
| `ConsoleDraw.MoveLine` | graphics/console-draw/src/lib.rs:179-196 | One pixel line of a move as a run of memory copied to another, if both lie in the memory, whatever the columns. |
| `ConsoleDraw.MoveCells` | graphics/console-draw/src/lib.rs:173-200 | The two loops are the line-by-line move through the flat memory, for every move. |
| `ConsoleDraw.MoveIsCopy` | graphics/console-draw/src/lib.rs:165-200 | Inside the columns the in-place line-ordered move equals a simultaneous copy of the source rectangle for every overlap, and changes nothing outside the destination. |
| `ConsoleDraw.OutsideRowsKept` | graphics/console-draw/src/lib.rs:134-213 | An operation changes no pixel outside the rows it marks as changed. |
| `ConsoleDraw.FilmOutsideRows` | graphics/console-draw/src/lib.rs:121-213 | A whole write of operations inside the columns changes no pixel outside the rows it reports. |
| `ConsoleDraw.RowsNeeded` | graphics/console-draw/src/lib.rs:134-213 | No row is recorded for nothing: for every operation with columns that does not move cells onto themselves, some screen changes in each row it records. |
| `ConsoleDraw.RowsCoveredIff` | graphics/console-draw/src/lib.rs:215-234 | A text row counts as covered if and only if a rectangle covers it. |
| `ConsoleDraw.Least` | graphics/console-draw/src/lib.rs:217-219 | The next row of the ordered set of changed rows. |
| `ConsoleDraw.AddRow` | graphics/console-draw/src/lib.rs:219-232 | Adding the next changed row keeps the damage the list of maximal disjoint runs of the rows so far. |
| `ConsoleDraw.TextScreen.constructor` | graphics/console-draw/src/lib.rs:22-28 | A new screen has no changed rows. |
| `ConsoleDraw.TextScreen.MarkRows` | graphics/console-draw/src/lib.rs:145-212 | Adds exactly the given rows. |
| `ConsoleDraw.TextScreen.Draw` | graphics/console-draw/src/lib.rs:134-213 | One console event draws what its independent pixel-by-pixel description says, or for a move out of the columns the line-by-line move, and marks its rows. |
| `ConsoleDraw.TextScreen.TakeDamage` | graphics/console-draw/src/lib.rs:215-234 | The damage is the list of maximal disjoint runs of exactly the changed rows, which are then forgotten. |
| `ConsoleDraw.TextScreen.Write` | graphics/console-draw/src/lib.rs:121-235 | All events are drawn in order and the damage is that of all their rows. |
| `Screen.ClipExactIff` | graphics/graphics-ipc/src/legacy.rs:125-136 | For every 32-bit rectangle, negative, overhanging or overflowing, and every screen: what `sync` copies is the visible part if and only if it copies nothing, or neither end of the rectangle overflows, it does not start above the screen, and its columns do not hang over, or hang over by just as much as stays inside. It copies nothing exactly of a rectangle without rows, one below the screen whose end does not overflow, or one without columns whose sums do not wrap. |
| `Screen.TallIsNotClipped` | graphics/graphics-ipc/src/legacy.rs:131-133 | A rectangle of 2^31 - 1 rows from row 1 is copied as it is, far beyond a screen of 480. |
| `Screen.NegativeComesOutWide` | graphics/graphics-ipc/src/legacy.rs:128-130 | An empty rectangle at -2^31 comes out of clipping 2147483007 columns wide. |
| `Screen.OverhangLosesColumns` | graphics/graphics-ipc/src/legacy.rs:128-130 | A rectangle one column too wide loses all columns but the first. |
| `Screen.SyncedAt` | graphics/vesad/src/screen.rs:60-92 | Pixel by pixel, a sync shows the offscreen buffer where a clipped rectangle covers and leaves the rest, including the padding of the stride. |
| `Screen.CopyRows` | graphics/vesad/src/screen.rs:76-90 | The loop copies exactly a rectangle that lies on the screen, row by row, and touches no other pixel. |
| `Screen.SyncRect` | graphics/vesad/src/screen.rs:64-91 | The row-copying loop copies exactly what clipping leaves of a rectangle. |
| `Screen.Sync` | graphics/vesad/src/screen.rs:60-92 | Copying rectangles in turn is the simultaneous copy of all of them, overlapping or not. |
| `Screen.RedrawAgrees` | graphics/vesad/src/screen.rs:94-106 | A redraw makes the framebuffer agree with the offscreen buffer whatever it showed. |
| `Screen.WriteThenSyncAgrees` | graphics/console-draw/src/lib.rs:121-235 | If framebuffer and offscreen buffer agreed before a console write, syncing only the reported damage makes them agree again. |
| `Screen.WriteThenSync` | graphics/console-draw/src/lib.rs:121-235 | In place: a console write followed by the sync of its damage leaves framebuffer and offscreen buffer in agreement. |
| `Screen.RunsFit` | graphics/console-draw/src/lib.rs:215-234 | Console damage stays on the screen when clipped, for rows below 2^27 - 1, whose runs have 32-bit ends. |
| `Graphics.StepKeeps` | graphics/driver-graphics/src/lib.rs:78-240 | Every VT event, open, client store, fsync, write and close keeps: the active terminal's resource is on each display except at pixels stored since a covering flush. |
| `Graphics.RunKeepsInv` | graphics/driver-graphics/src/lib.rs:78-240 | The same over every run, with activation remembered. |
| `Graphics.DisplaysCoherent` | graphics/driver-graphics/src/lib.rs:78-240 | After the first activation every display shows the active terminal's pixels, up to those not yet flushed. |
| `Graphics.BackgroundInvisible` | graphics/driver-graphics/src/lib.rs:196-240 | Opens, stores and flushes of a background terminal change no framebuffer. |
| `Graphics.ActivationCatchesUp` | graphics/driver-graphics/src/lib.rs:78-108 | Activation makes good every dropped flush: all pixels of the terminal are on every display, and no resource is lost or changed. |
| `Graphics.ConsoleWriteShown` | graphics/driver-graphics/src/lib.rs:219-240 | The stack composed: from any run whose active resource holds a film's first frame, for every film of operations inside the columns, there is a continuation of stores in just the rows the film reports that makes the resource the last frame, after which writing the reported damage leaves nothing in these rows unflushed; if nothing was before, the display shows the last frame. |
| `Graphics.FlushShows` | graphics/vesad/src/scheme.rs:32-47 | A flush shows everything it covers and spoils nothing shown. |
| `Graphics.Paint` | graphics/driver-graphics/src/lib.rs:246-259 | By stores into its mapped resource, in given rows only, a client can make any picture that differs from it in these rows only. |
| `Graphics.FilmDiffers` | graphics/console-draw/src/lib.rs:121-235 | A film leaves its last frame different from its first only in the rows it reports. |
| `GraphicsClients.ResourceIsStores` | graphics/driver-graphics/src/lib.rs:78-259 | In every run every pixel of every terminal's resource is the colour its clients last stored there, or 0, whatever is opened, activated or flushed. |
| `GraphicsClients.OpenedFlushShows` | graphics/driver-graphics/src/lib.rs:151-240 | The number given out for a terminal and a display is good for these until it is closed: whenever the terminal is active a covering flush through it makes that display, and no other, show the terminal's pixels. |
| `GraphicsClients.OpenReplies` | graphics/driver-graphics/src/lib.rs:151-181 | Opening succeeds exactly for a display that exists, under a number no open handle has. |
| `GraphicsClients.HandleStays` | graphics/driver-graphics/src/lib.rs:151-245 | A handle keeps its terminal and display until it is closed. |
| `GraphicsIsolation.Noninterference` | graphics/driver-graphics/src/lib.rs:78-240 | Leave out of any run every step of a terminal that is never activated: what is left, with the handle numbers it then gets, is a run, and after each step every framebuffer is what it was. |
| `GraphicsIsolation.StepAlike` | graphics/driver-graphics/src/lib.rs:78-240 | A step of another terminal is the same step in both runs, up to the handle's number. |
| `GraphicsIsolation.QuietStep` | graphics/driver-graphics/src/lib.rs:160-240 | A step of that terminal changes nothing the others see. |
| `GraphicsDriver.SyncCopy` | graphics/vesad/src/scheme.rs:36-47 | The in-place sync on a copy of the framebuffer. |
| `GraphicsDriver.GraphicsScheme.constructor` | graphics/driver-graphics/src/lib.rs:51-64 | A new scheme has no resources and no handles. |
| `GraphicsDriver.GraphicsScheme.EnsureResource` | graphics/driver-graphics/src/lib.rs:84-92 | A missing resource is created blank, an existing one kept. |
| `GraphicsDriver.GraphicsScheme.Flush` | graphics/vesad/src/scheme.rs:36-47 | Only the display concerned changes, by the sync of the resource's damage. |
| `GraphicsDriver.GraphicsScheme.ActivateDisplay` | graphics/driver-graphics/src/lib.rs:83-96 | One display of an activation: resource ensured, redrawn whole. |
| `GraphicsDriver.GraphicsScheme.HandleActivate` | graphics/driver-graphics/src/lib.rs:78-108 | The loop over displays is the activation step. |
| `GraphicsDriver.GraphicsScheme.Open` | graphics/driver-graphics/src/lib.rs:151-181 | The open step: the handle under a fresh number, or the error. |
| `GraphicsDriver.GraphicsScheme.Fsync` | graphics/driver-graphics/src/lib.rs:196-206 | The flush step with the whole screen, dropped for a background terminal. |
| `GraphicsDriver.GraphicsScheme.Write` | graphics/driver-graphics/src/lib.rs:219-240 | The flush step with the listed rectangles, dropped for a background terminal. |
| `GraphicsDriver.GraphicsScheme.Close` | graphics/driver-graphics/src/lib.rs:242-245 | Forgets the handle, nothing else. |
| `NicBuffers.WrapRingNext` | net/e1000d/src/device.rs:116-118 | The mask steps to the next slot of a power-of-two ring. |
| `RxRing.RunKeepsInv` | net/e1000d/src/device.rs:135-153 | Every run keeps the receive ring's window. |
| `RxRing.ReceiveIsFifo` | net/e1000d/src/device.rs:135-153 | The ring is a FIFO: what is returned is what the device stored, in order, once each, cut only by the caller's buffer; the done bits are exactly the unread window; the tail is one behind the index modulo the size. |
| `RxRing.ReadPanicsIff` | net/ixgbed/src/device.rs:44-49 | A read panics if and only if the oldest unread piece is on ixgbe and does not end its frame. |
| `RxRing.PieceStopsDriver` | net/ixgbed/src/device.rs:44-49 | One stored piece that does not end its frame is such a run. |
| `RxRing.RxDriver.constructor` | net/e1000d/src/device.rs:304-315 | Start-up gives the device all descriptors but one. |
| `RxRing.RxDriver.AvailableForRead` | net/ixgbed/src/device.rs:160-176 | The length of the next frame, or 0, or the panic. |
| `RxRing.RxDriver.ReadPacket` | net/ixgbed/src/device.rs:39-68 | The in-place read is the read step, copies exactly the frame and leaves the rest of the buffer; it panics exactly when the descriptor does not end a frame on ixgbe. |
| `TxRing.RunKeepsInv` | net/e1000d/src/device.rs:155-206 | Every run with an asynchronous device keeps the transmit ring's accounting. |
| `TxRing.TransmitAccounts` | net/e1000d/src/device.rs:155-206 | index = clean + (size - free) modulo the size with free at most the size, and every frame on the wire carried what its descriptor named of the packet handed over. |
| `TxRing.SlotWasReported` | net/ixgbed/src/device.rs:70-121 | A descriptor and its buffer are only rewritten when every earlier frame of that slot was reported done. |
| `TxRing.SentWholeIff` | net/ixgbed/src/device.rs:96-120 | In every run, for every frame reported done: the wire carried the caller's packet and nothing else if and only if it is at most 16383 bytes on e1000, 16384 on ixgbe; the count told to the caller is the number of bytes sent exactly then, and on ixgbe also when the low 16 bits of the length come to 16384; memory behind the buffer is sent exactly on ixgbe when these bits come to more. |
| `TxRing.TooLongIsReachable` | net/ixgbed/src/device.rs:96-120 | On either card a run sends and reports a packet one byte longer than the limit, and it does not go out as it is. |
| `TxRing.TailTells` | net/e1000d/src/device.rs:200-203 | In every run the tail is the slot after the last packet handed over, the card has taken packets in order and none beyond it, and it sees one to take exactly when there is one and the ring is not wholly full of untaken ones. |
| `TxRing.TakenIff` | net/e1000d/src/device.rs:155-203 | In some continuation everything handed over is taken if and only if the ring is not wedged, a ringful written before any of it was taken. |
| `TxRing.WedgedForever` | net/e1000d/src/device.rs:155-175 | In a wedged ring nothing is ever taken and nothing more is ever written. |
| `TxRing.WedgedIsReachable` | net/ixgbed/src/device.rs:70-121 | On either card, for every ring size, writing a ringful at once leads there. |
| `TxRing.ReclaimedHasRoom` | net/e1000d/src/device.rs:156-175 | The loop is left only with room in the ring, and not before all is free or the oldest frame in flight is not done. |
| `TxRing.TxDriver.constructor` | net/ixgbed/src/device.rs:472-488 | Start-up: all descriptors free, indices zero. |
| `TxRing.TxDriver.Reclaim` | net/e1000d/src/device.rs:156-174 | The loop over reports is the reclaiming function. |
| `TxRing.TxDriver.ReclaimPass` | net/e1000d/src/device.rs:158-172 | One pass frees the oldest descriptor if it was reported. |
| `TxRing.TxDriver.Fill` | net/e1000d/src/device.rs:176-205 | Copies the packet into the next buffer, writes the card's descriptor length, moves index and tail, touches no other buffer. |
| `TxRing.TxDriver.WritePacket` | net/ixgbed/src/device.rs:70-121 | Looks for room only on a full ring, then sends. |
| `Rtl8139.ParseRecord` | net/rtl8139d/src/device.rs:138-166 | Where a record is laid out, circularly, status, length and payload come back. |
| `Rtl8139.RunKeepsInv` | net/rtl8139d/src/device.rs:138-166 | What was read followed by what is unread is always what the device stored. |
| `Rtl8139.ReceiveInverts` | net/rtl8139d/src/device.rs:138-166 | Reading inverts the writer of a device that knows only its own pointer and CAPR: payloads in order cut to the buffer, EIO for bad status, the position 4-aligned and in range, CAPR 16 behind modulo 2^16, the buffer shown empty exactly when all was read, the pointer the room of all records modulo 2^16. |
| `Rtl8139.DeviceKnows` | net/rtl8139d/src/device.rs:157-160 | From the CAPR the driver writes the device works out exactly the room in use and whether there is any. |
| `Rtl8139.PointerCounts` | net/rtl8139d/src/device.rs:157-160 | The device's pointer is the room of everything ever stored, modulo the buffer size. |
| `Rtl8139.RtlDriver.constructor` | net/rtl8139d/src/device.rs:204-225 | A new driver starts at position 0. |
| `Rtl8139.RtlDriver.ReadByte` | net/rtl8139d/src/device.rs:235-238 | A byte at a distance, wrapping at the ring's end. |
| `Rtl8139.RtlDriver.Word` | net/rtl8139d/src/device.rs:240-254 | Two bytes, low first, without 16-bit overflow. |
| `Rtl8139.RtlDriver.NextRead` | net/rtl8139d/src/device.rs:240-254 | The payload length of the next good record, or 0. |
| `Rtl8139.RtlDriver.CopyPayload` | net/rtl8139d/src/device.rs:145-150 | The loop copies the payload as far as the buffer goes, without 16-bit overflow, and leaves the rest. |
| `Rtl8139.RtlDriver.Advance` | net/rtl8139d/src/device.rs:157-160 | Position and CAPR move past the record, the ring untouched. |
| `Rtl8139.RtlDriver.ReadPacket` | net/rtl8139d/src/device.rs:138-166 | The in-place read is the read step and leaves the rest of the buffer alone. |
| `AtaDisk.AddressRoundTrip` | storage/ided/src/ide.rs:229-243 | Six bytes written high half first through two-deep registers decode to the block number, for all 48-bit numbers. |
| `AtaDisk.CountRoundTrip` | storage/ided/src/ide.rs:229-243 | The sector count decodes likewise. |
| `AtaDisk.PackBytes` | storage/ided/src/ide.rs:446-449 | Four bytes packed little-endian unpack to themselves. |
| `AtaDisk.GatherCovers` | storage/ided/src/ide.rs:205-215 | A table that covers a chunk makes the drive fetch exactly the chunk: its end mark stops it at the last entry. |
| `AtaDisk.ScatterCovers` | storage/ided/src/ide.rs:205-215 | Likewise the drive stores exactly the chunk. |
| `AtaDisk.SpliceReads` | storage/ided/src/ide.rs:180-466 | On a flat disk what was written is read back and the rest is as before. |
| `AtaDisk.Channel.constructor` | storage/ided/src/ide.rs:62-93 | A channel with its table and buffer. |
| `AtaDisk.Channel.Poll` | storage/ided/src/ide.rs:119-159 | Waiting succeeds exactly when, after status values that say only busy, one says done without error or fault, and for a read with data ready; a failure the address does not explain is remembered. |
| `AtaDisk.StatusBits` | storage/ided/src/ide.rs:103-145 | For every status byte: error is bit 0, data wanted bit 3, fault bit 5, and busy means 128 or more. |
| `AtaDisk.BusBits` | storage/ided/src/ide.rs:268-285 | For every bus master status: done without error means both low bits 0, still active just bit 0. |
| `AtaDisk.Channel.ReadStatus` | storage/ided/src/ide.rs:103-117 | A failed command shows as an error in the status read. |
| `AtaDisk.Channel.WaitBusMaster` | storage/ided/src/ide.rs:268-285 | Waiting for the bus master succeeds exactly when it becomes idle without an error. |
| `AtaDisk.Channel.FillPrdt` | storage/ided/src/ide.rs:205-215 | The loop makes the table cover the chunk with the end mark on its last entry only. |
| `AtaDisk.Channel.Program` | storage/ided/src/ide.rs:229-243 | After programming, the registers decode to the block and the count. |
| `AtaDisk.Disk.WriteSector` | storage/ided/src/ide.rs:444-451 | The packing loop puts exactly the sector's bytes on the disk. |
| `AtaDisk.Disk.WritePio` | storage/ided/src/ide.rs:441-453 | All sectors of a chunk, or a failure that stays inside the chunk's range. |
| `AtaDisk.Disk.WriteDma` | storage/ided/src/ide.rs:404-439 | The chunk is on the disk at its address, or nothing outside its range changed. |
| `AtaDisk.Disk.WriteChunk` | storage/ided/src/ide.rs:320-460 | One chunk at its block, by DMA or by PIO. |
| `AtaDisk.Disk.Write` | storage/ided/src/ide.rs:320-466 | The chunked write changes exactly the addressed sectors of a flat disk to the buffer; it fails exactly beyond the disk's end or when a wait failed, and then touches nothing outside its range. |
| `AtaDisk.Disk.ReadDword` | storage/ided/src/ide.rs:305-309 | Four bytes unpacked in order. |
| `AtaDisk.Disk.ReadSector` | storage/ided/src/ide.rs:304-310 | One sector at its place in the buffer. |
| `AtaDisk.Disk.ReadPio` | storage/ided/src/ide.rs:301-311 | All sectors of a chunk. |
| `AtaDisk.Disk.CopyOut` | storage/ided/src/ide.rs:298-299 | The DMA buffer's start goes to the caller's buffer. |
| `AtaDisk.Disk.ReadDma` | storage/ided/src/ide.rs:261-299 | The addressed part of the disk, by way of the table and the DMA buffer. |
| `AtaDisk.Disk.ReadChunk` | storage/ided/src/ide.rs:180-312 | One chunk of the disk, which does not change. |
| `AtaDisk.Disk.Read` | storage/ided/src/ide.rs:180-318 | The chunked read returns exactly the addressed part of the flat disk, which does not change; it fails exactly beyond the end or when a wait failed. |
| `AtaDisk.Disk.WriteThenRead` | storage/ided/src/ide.rs:180-466 | What was written is read back, byte for byte, for DMA and PIO; within the disk both succeed exactly when no wait failed. |
| `InputdRuns.RunKeepsInv` | inputd/src/main.rs:484-616 | Every run of requests keeps terminals, displays and handles consistent. |
| `InputdRuns.TurnInv` | inputd/src/main.rs:491-616 | One turn of the daemon, request, handoff and notification, keeps the invariant. |
| `InputdRuns.TurnConsumer` | inputd/src/main.rs:241-269 | One turn as a consumer sees it: bytes pending and arriving are bytes taken and left, in order; its handoff mark is set by a handoff of its terminal and cleared by its read only. |
| `InputdRuns.RunAccounts` | inputd/src/main.rs:241-562 | Over every run, for every handle number, reads and pending bytes account for routed bytes. |
| `InputdRuns.BytesConserved` | inputd/src/main.rs:351-444 | For every consumer, bytes read followed by bytes pending is the concatenation of the producer buffers accepted while its terminal was active after that batch's own switches; switches and handoffs lose none. |
| `InputdRuns.StaleOncePerHandoff` | inputd/src/main.rs:515-562 | A consumer's read is ESTALE exactly when a handoff happened since its last read, once, and data otherwise. |
| `InputdRuns.TerminalsExist` | inputd/src/main.rs:98-155 | The active terminal exists and every terminal is on an open display. |
| `InputdRuns.NeverPanicsOnceActive` | inputd/src/main.rs:564-614 | With an active terminal no request makes the daemon panic, and one stays active. |
| `InputdRuns.TurnPanicsIff` | inputd/src/main.rs:310-616 | Exactly which requests bring the daemon down, for every request and every state of a run: nothing is active, and either a producer batch selects no existing terminal in time, or another write leaves nothing active while a consumer is to be told, or a display handle is opened under the condition below. |
| `InputdRuns.BatchIdle` | inputd/src/main.rs:358-418 | A batch of events with nothing active leaves a terminal active exactly when one of them selects an existing one before any resize that finds a display open; otherwise it panics at such a resize or does nothing. |
| `InputdRuns.ProducePanicsIff` | inputd/src/main.rs:351-444 | A producer's write before activation panics if and only if its events select no existing terminal in time. |
| `InputdRuns.WritePanicsIff` | inputd/src/main.rs:310-349 | Any other write before activation panics if and only if it activates nothing and a consumer is to be told. |
| `InputdRuns.ProducerBeforeActivationPanics` | inputd/src/main.rs:420-424 | Two bytes from a producer before any activation are enough. |
| `InputdRuns.NothingLeftDue` | inputd/src/main.rs:564-614 | A notification leaves no read event due and tells exactly the handles that were owed one. |
| `InputdRuns.UntoldIff` | inputd/src/main.rs:446-614 | In every run, a consumer that asked for read events and has a handoff or, on the active terminal, bytes to read, or a display that asked and has events, has not been told if and only if it asked again since the last turn that went on to the notification loop. |
| `InputdRuns.AnnouncesIff` | inputd/src/main.rs:492-566 | These turns are every write, and the opening of a display while some terminal is on an early one. |
| `InputdRuns.AskingUntold` | inputd/src/main.rs:446-462 | From every run with a consumer on the active terminal, bytes for it and then its asking leave it untold. |
| `InputdRuns.ActiveWaitingReached` | inputd/src/main.rs:351-444 | There is such a run. |
| `InputdDisplays.SwitchGains` | inputd/src/main.rs:98-149 | What one switch adds to each handle: a display gets Deactivate of the old terminal exactly if that was on its device, then Activate of the new one exactly if that is; all other handles are unchanged. |
| `InputdDisplays.EventsConserved` | inputd/src/main.rs:271-298 | In every run what a display has read of its events, followed by what is pending, is exactly what the switches, the new sizes and its own opening were worth to it, in order. |
| `InputdDisplays.InStepIff` | inputd/src/main.rs:98-149 | Between handoffs, replaying every event ever queued to a display gives the active terminal if that is on its device and none otherwise, if and only if it did at the beginning or the display has been told of a switch since. |
| `InputdDisplays.OpenedInStepIff` | inputd/src/main.rs:180-210 | A display opened early starts so exactly when the active terminal is not on its device; a driver exactly when nothing is active, or the active terminal is on its device or an early one. |
| `InputdDisplays.HandoffInStepIff` | inputd/src/main.rs:515-562 | A display falls out of step in a handoff exactly when that takes the active terminal from it or gives it to it. |
| `InputdDisplays.HandoffLeavesBehind` | inputd/src/main.rs:515-562 | It happens: a run in which an early display shows the active terminal and a driver takes that over leaves the display believing it still shows it. |
| `InputdDisplays.HandoffMoves` | inputd/src/main.rs:515-562 | Terminals on early displays move to the driver that is opened, and no others do. |
| `InputdDisplays.NoneLeftEarlyIff` | inputd/src/main.rs:515-562 | After a handoff no terminal is on an early display, unless the driver goes by the name of one and took terminals over. |
| `InputdDisplays.TurnOpens` | inputd/src/main.rs:158-223 | What each open leaves under the number it answers, and that nothing else makes a handle. |
| `InputdDisplays.KeySelects` | inputd/src/main.rs:362-385 | With the super key down the twelve function keys select terminals 1 to 12, and nothing else selects any. |
| `InputdDisplays.BatchSuper` | inputd/src/main.rs:377-380 | The super key after a batch is that of its last such event. |
| `InputdNotices.PostedIff` | inputd/src/main.rs:564-614 | A turn sends a read event exactly to those that asked and have something, and were not told or got something new, in turns that go on to the notification loop. |
| `InputdNotices.NewNotPosted` | inputd/src/main.rs:564-614 | A handle opened in a turn is not sent an event in it. |
| `InputdNotices.AskedLast` | inputd/src/main.rs:446-474 | In every run a consumer or display is to be told exactly if that is what it said last. |
| `InputdNotices.TurnReplies` | inputd/src/main.rs:241-477 | What each read, write and request for events is answered with, from the handle alone. |
| `InputdNotices.OtherReplies` | inputd/src/main.rs:158-223 | Opening what there is not is an error and changes nothing; closing gives 0 and changes nothing. |
| `InputdNotices.NewTerminal` | inputd/src/main.rs:277-282 | An empty read of a display makes a terminal on it under a number no terminal has had. |
| `InputdRuns.HandoffBeforeActivationPanics` | inputd/src/main.rs:564-614 | Without one it can: a concrete run of four requests, after which a display driver's open panics it. |
| `InputdRuns.OpenHandlePanicsIff` | inputd/src/main.rs:158-223 | Opening a display handle panics if and only if nothing is active, an early display holds a terminal, and a consumer that asked for events is on such a terminal or has bytes it was not told of. |
| `InputdDriver.InputScheme.constructor` | inputd/src/main.rs:83-96 | The daemon starts an empty run. |
| `InputdDriver.InputScheme.UpdateAll` | inputd/src/main.rs:115-149 | The loop over handles replaces each exactly once. |
| `InputdDriver.InputScheme.SwitchVt` | inputd/src/main.rs:98-149 | A known terminal becomes the active one; each display is queued Deactivate of the old one if that was on its device and Activate of the new one if that is, in this order, and no other handle changes. |
| `InputdDriver.InputScheme.HandleInput` | inputd/src/main.rs:358-418 | One input event is the input step, or a panic where that has none. |
| `InputdDriver.InputScheme.Produce` | inputd/src/main.rs:351-444 | A producer's write switches first, then routes the whole buffer. |
| `InputdDriver.InputScheme.InsertHandle` | inputd/src/main.rs:219-222 | Handles get fresh numbers. |
| `InputdDriver.InputScheme.Open` | inputd/src/main.rs:158-223 | The open step for each path. |
| `InputdDriver.InputScheme.ReadFrom` | inputd/src/main.rs:241-308 | The read step for each kind of handle. |
| `InputdDriver.InputScheme.WriteTo` | inputd/src/main.rs:310-444 | The write step for each kind of handle. |
| `InputdDriver.InputScheme.PerformHandoff` | inputd/src/main.rs:515-562 | Terminals of early displays move to the new one and their consumers are marked. |
| `InputdDriver.InputScheme.Notify` | inputd/src/main.rs:564-614 | Each handle is sent a read event exactly when one is due, and the handles told are reported. |
| `InputdDriver.InputScheme.SetEvents` | inputd/src/main.rs:446-477 | The event mask step. |
| `InputdDriver.InputScheme.AnswerTo` | inputd/src/main.rs:491-513 | The scheme answers a request as the state machine does. |
| `InputdDriver.InputScheme.TakeTurn` | inputd/src/main.rs:491-616 | Request, handoff and notification together are one turn. |
| `InputdDriver.InputScheme.Serve` | inputd/src/main.rs:491-616 | A pass of the loop continues the run the object has made, with the read events the turn posts, or brings the daemon down exactly when the request is fatal; so every statement about runs is about the object. |
| `Sgl.New` | common/src/sgl.rs:46-105 | An empty buffer is refused; otherwise the chunks tile the page-rounded buffer one after the other, each a power of two between a page and 4 MiB, with used lengths inside the buffer, and their number is the exact count. |
| `Sgl.ChunkCountIs` | common/src/sgl.rs:75-102 | That count is the whole 4 MiB chunks plus one per set bit of the pages beyond. |
| `Sgl.ChunkLengthIs` | common/src/sgl.rs:77-84 | The greedy choice is the largest power of two up to 4 MiB that fits, a page at least. |
| `Sgl.CountStep` | common/src/sgl.rs:75-102 | Each choice takes exactly one off the count. |
| `Sgl.TilesSum` | graphics/virtio-gpud/src/scheme.rs:132-140 | Used lengths add up to the buffer's length, page-rounded backing entries to its page-rounded length. |
| `Sgl.ByteInOneChunk` | common/src/sgl.rs:75-102 | Every byte of the buffer lies in exactly one chunk. |
| `NetworkScheme.RunKeepsInv` | net/driver-network/src/lib.rs:83-151 | Every run, with packets arriving at any moment, keeps the bookkeeping of calls and arrivals. |
| `NetworkScheme.AnsweredOrBlocked` | net/driver-network/src/lib.rs:83-151 | Every call taken is answered once, or blocked once, or the one the process died on, and never two of these; nothing else is answered. |
| `NetworkScheme.EintrIffCancelled` | net/driver-network/src/lib.rs:123-133 | A call is answered EINTR if and only if it is the oldest blocked under a cancelled id. |
| `NetworkScheme.DiesIff` | net/driver-network/src/lib.rs:83-216 | The process dies exactly on a new read of the address past its end and, when the adapter panics on what came first, on any read of a data handle, new or blocked, and on asking at the end of the tick what can be read. |
| `NetworkScheme.FatalTickDies` | net/driver-network/src/lib.rs:141-142 | A run that ends so without any call. |
| `NetworkScheme.AddressReadDies` | net/driver-network/src/lib.rs:190-195 | A run of four steps that ends so. |
| `NetworkScheme.OpenIs` | net/driver-network/src/lib.rs:155-177 | Opening is for root and for the two known paths, and gives a number no open handle has. |
| `NetworkScheme.AddressIs` | net/driver-network/src/lib.rs:190-195 | A read of the address gives its bytes from the offset on, as far as the buffer goes. |
| `NetworkScheme.ReceiveIs` | net/driver-network/src/lib.rs:198-199 | What came first goes to a read of a data handle, cut to its buffer, and is gone. |
| `NetworkScheme.WouldBlockIff` | net/driver-network/src/lib.rs:198-207 | With nothing received a read of a data handle fails with EWOULDBLOCK or blocks, as its flag says; no other call does. |
| `NetworkScheme.WriteIs` | net/driver-network/src/lib.rs:210-225 | A write gives what the adapter made of it, on data handles only. |
| `NetworkScheme.BadHandleIff` | net/driver-network/src/lib.rs:179-289 | Exactly the calls through a handle that is not open fail with EBADF. |
| `NetworkScheme.PlainIs` | net/driver-network/src/lib.rs:227-289 | Calls that only look at a handle, and closing one, give 0. |
| `NetworkScheme.CloseIs` | net/driver-network/src/lib.rs:286-289 | Closing makes just that handle a bad one. |
| `NetworkScheme.ClosedForever` | net/driver-network/src/lib.rs:155-289 | A number once closed is never good again. |
| `NetworkScheme.PacketsInOrder` | net/driver-network/src/lib.rs:83-96 | The k-th arrival answers the k-th call that gets one, cut to its buffer; with nothing arriving during ticks these calls are in order of arrival, and once the scan is over no packet is left while a call is blocked. |
| `NetworkScheme.OldestFirstIff` | net/driver-network/src/lib.rs:83-119 | A packet goes to the oldest waiting call exactly when it is handed out at the scan's first entry or to a new call that finds nothing blocked. |
| `NetworkScheme.MidTickArrivalOvertakes` | net/driver-network/src/lib.rs:98-119 | A packet arriving while new calls are taken can break the order. |
| `NetworkDriver.NetScheme.constructor` | net/driver-network/src/lib.rs:49-62 | A new scheme has an empty run. |
| `NetworkDriver.NetScheme.HandleCall` | net/driver-network/src/lib.rs:154-289 | The in-place handling of one call is the dispatch function. |
| `NetworkDriver.NetScheme.Receive` | net/driver-network/src/lib.rs:21-27 | Arrivals join the queue at its end. |
| `NetworkDriver.NetScheme.ScanOne` | net/driver-network/src/lib.rs:86-95 | One blocked call tried again is one scan step; unless the process dies on it, it brings the scan nearer its end. |
| `NetworkDriver.NetScheme.ScanBlocked` | net/driver-network/src/lib.rs:84-96 | The scan visits every blocked call, whatever arrives meanwhile, unless the process dies on one. |
| `NetworkDriver.NetScheme.NewCall` | net/driver-network/src/lib.rs:110-116 | A new call is one serve step. |
| `NetworkDriver.NetScheme.FindBlocked` | net/driver-network/src/lib.rs:124-128 | The search finds the first blocked call with the id. |
| `NetworkDriver.NetScheme.Cancel` | net/driver-network/src/lib.rs:123-133 | A cancellation is one serve step. |
| `NetworkDriver.NetScheme.ServeOne` | net/driver-network/src/lib.rs:109-137 | One request is one serve step. |
| `NetworkDriver.NetScheme.ServeAll` | net/driver-network/src/lib.rs:98-138 | All requests are served, in order. |
| `NetworkDriver.NetScheme.Tick` | net/driver-network/src/lib.rs:83-151 | A tick continues the object's run by a scan and the given requests, and tells every handle exactly when the adapter has something to read. |
| `BlockRead.ReadBytes` | storage/driver-block/src/lib.rs:13-53 | On success the whole buffer has been read, or as much of it as has 64-bit offsets, every byte the right one; otherwise the error is that of the first block that cannot be read, everything before it read and the rest untouched. |
| `BlockRead.FilledMore` | storage/driver-block/src/lib.rs:35-50 | A piece copied out of one block extends the read bytes, for every block size and offset. |
| `BlockRead.DiskByte` | storage/driver-block/src/lib.rs:104-124 | A byte can be read exactly when it is in a whole block that is not bad, and then it is the flat disk's byte. |
| `BlockRead.Device.constructor` | storage/driver-block/src/lib.rs:137-146 | A new device stands at 0. |
| `BlockRead.SoughtIff` | storage/driver-block/src/lib.rs:81-97 | A seek ends at the intended position, brought into the disk, if and only if it is from the start, or the 64-bit sum does not overflow, or the disk is empty; otherwise it ends at 0. |
| `BlockRead.SeekForwardGoesBack` | storage/driver-block/src/lib.rs:90-92 | From byte 5 of a disk of 10, a step of 2^63 - 1 bytes ends at 0. |
| `BlockRead.Device.Seek` | storage/driver-block/src/lib.rs:81-97 | The position becomes that, on the disk; a disk whose size does not fit 64 signed bits fails and leaves it. |
| `BlockRead.Device.Read` | storage/driver-block/src/lib.rs:100-134 | Succeeds exactly when the whole buffer, or as much of it as has 64-bit offsets, can be read; then it holds the flat disk's bytes and the position moves past them, and stays on the disk. |
| `Ecam.FromAllocs` | pcid/src/cfg_access/mod.rs:242-285 | What could be mapped, sorted by segment and bus, nothing lost or added; a table with disjoint bus ranges stays one. |
| `Ecam.BinarySearch` | pcid/src/cfg_access/mod.rs:288-291 | An entry with the key, or the place where it would stand. |
| `Ecam.Find` | pcid/src/cfg_access/mod.rs:287-302 | The region found is the one a linear scan finds if and only if the region below is not of another segment reaching as far. |
| `Ecam.SegmentZeroIsSafe` | pcid/src/cfg_access/mod.rs:324-333 | For segment 0 that never happens. |
| `Ecam.OtherSegmentMisses` | pcid/src/cfg_access/mod.rs:293-300 | For another segment it does. |
| `Ecam.OffsetChecks` | pcid/src/cfg_access/mod.rs:313-316 | The two mask checks accept exactly the multiples of 4 below 4096. |
| `Ecam.OffsetIsSum` | pcid/src/cfg_access/mod.rs:317-321 | The or of the shifted fields is their sum. |
| `Ecam.MmioAddr` | pcid/src/cfg_access/mod.rs:287-333 | For every table and address of segment 0: the address is x if and only if some region holds the bus and x is its memory plus 2^20 for each bus from its first, 2^15 for the device, 2^12 for the function and the offset. |
| `Ecam.InsideMapping` | pcid/src/cfg_access/mod.rs:302-311 | Every register is a dword inside the mapping of the region that covers its bus. |
| `Ecam.AddressesDiffer` | pcid/src/cfg_access/mod.rs:287-333 | Different bus, device, function or offset means a different address. |

## Left out

- Device reset, `Queue::reinit` and MSI-X set-up: they depend on device behaviour outside the files modelled.
- Several driver threads on one virtqueue: one send or poll is under way at a time.
- VirtqueueDriver.VirtQueue.Send: `send` panics when descriptors run out; that is its precondition.
- VirtqueueDriver.ChainBuilder.Build: `build` panics on an empty chain; that is its precondition.
- Memory ordering of the atomics: every access is a step of one sequential interleaving.
- Screen.Sync: rectangles that after clipping still reach outside the buffers, which the source would write outside its memory for, are excluded by the precondition; `ClipExactIff` covers them.
- ConsoleDraw.TextScreen.Write: the terminal emulator's events are inputs; rows from 2^27 - 1 on, whose run's end overflows 32 bits, are excluded.
- Screen.WriteThenSyncAgrees: for moves inside the screen's columns; a move across the right edge runs on into the next row, which is modelled but not reported as damage.
- Graphics.ConsoleWriteShown: as for that, and for rows below 2^27 - 1.
- GraphicsDriver.GraphicsScheme.Open: path text is parsed to terminal and display numbers before the model starts.
- GraphicsDriver.GraphicsScheme.Write: rectangles that reach outside the buffers after clipping are excluded, as for the sync.
- GraphicsDriver.GraphicsScheme.Flush: pixel memory is held by value, so client stores are steps and aliasing of mapped memory is not modelled.
- Transmit progress on e1000 and ixgbe: that the card takes and reports what it can is not assumed; `TxRing.TakenIff` says what it can take.
- TxRing.SentWholeIff: on ixgbe the higher bits of a length of 2^16 or more also fall on other descriptor fields, whose effect on the device is not modelled.
- TxRing.TxDriver.WritePacket: the spinning wait ends with the list of reports given; `None` stands for still spinning.
- Link set-up, interrupts, statistics and register constants of the network cards, and rtl8139 transmission.
- AtaDisk.Disk.Write: 28-bit addressing and buffers that are not whole sectors are not modelled.
- AtaDisk.Disk.Read: as for the write.
- The event loops of ided and bcm2835-sdhcid, and partition tables beyond the device they are read through.
- InputdDriver.InputScheme.Produce: decoding of event bytes is an input; the raw buffer is what is routed.
- Sgl.New: failures of the memory mapping calls and physical addresses are not modelled.
- NetworkDriver.NetScheme.Tick: failures of the socket and of event posting are not modelled; what arrives during a tick is a parameter.
- NetworkDriver.NetScheme.HandleCall: what the adapter says to a written packet is part of the request, its errors passed on as they are; `fpath` text is not modelled.
- BlockRead.ReadBytes: a block size of 0 or a short block buffer panics; excluded by the precondition.
- BlockRead.Device.Read: the loop that waits for a disk that is not ready is not modelled.
- Ecam.MmioAddr: the assertions on segment and offset are its preconditions; a table entry with its last bus below its first is not modelled.
- xHCI, AHCI, NVMe and HDA: their queues depend on devices outside this model.
- Keymaps, USB descriptors, register tables, logging and start-up: tables and glue without state to reason about.
