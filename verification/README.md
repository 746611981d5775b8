# Verification of the uart_net link, the pcie demand pager and the virt memory map

This project models three parts of the repository in Dafny and proves what they promise.

**The serial network link** (`infected/modules/uart_net/uart_net.c`) carries Ethernet frames over a
PL011 UART: header 0xAA, two length bytes, payload, footer 0x55, with these two bytes and 0x5A
escaped. Transmitter and receiver are resumable state machines that can stop after any byte.

- `Wire` is the format: escaping, frames, and a reference decoder whose un-escaped byte skips the
  escape test. `RxMachine` is the receiver of `uartnet_poll` on values, with its invariant;
  `UartRx` is the same as an object updated in place. `RxOutcomes` says what each byte counts, and what
  becomes of a frame that is refused, dropped or ends wrongly. `RoundTrip` runs the receiver on frames,
  streams of frames between noise, and arbitrary polls. `Resync` bounds how long the receiver can be
  lost, and `Recovery` how many frames that costs.
- `TxMachine` is the transmitter on values, `UartTx` the object, and `TxRuns` shows that over every
  run it refines `Line`, a transmitter that only knows the bytes it still has to write. Each critical
  section is one step there, as on the single CPU that `run_vm1.sh` starts with interrupts off.
- `Link` joins both: what one side accepts, the other side delivers.
- `TxInterleaving` takes the steps apart: `uartnet_start_xmit` and `uartnet_tx_task` hold different
  locks, and the receive side writes the interrupt mask under neither, so there start_xmit, the task,
  the interrupt handler and the poll interleave one shared access at a time. `InterleavedWire` adds the
  bytes, and `ReceiveMask` is about the receive bits of the mask.

**The demand pager** (`infected/modules/pcie`) maps virtual blocks of 4 MiB to fewer physical ones and
swaps them to a block device. `PagerModel` is the driver on values, for any number of blocks and
frames; `PagerProofs` its invariant and what each fault keeps; `PagerRuns` whole runs of loads and
stores; `PagerPolicy` a small automaton that decides which runs stop; `PagerRaces` an eviction with
stores by other threads in its middle; `SwapTraffic` exactly how much sequential scans swap, and
`PagerCounts` the counts of each frame. `Pager` is the driver with its arrays updated in place, down
to the bios and sectors, and the program `user_copy.c` that exercises it.

**The guest memory map** (`virt_set_memmap`, `virt_kvm_type` and the CPU numbering of
`hw/arm/virt.c` in the emulator the link runs on) is in `VirtMemmap` and `CpuTopology`, with 64-bit
wrap-around explicit. `Arithmetic`, `Sequences` and `Options` are helpers.

## What the proofs found

- An un-escaped byte goes back through the escape test, so 0x5A can never be received: neither in a
  payload nor in a length byte. The round trip is therefore stated as an equivalence
  (`RoundTrip.ExactRoundTrip`); the wire format itself loses nothing (`Wire.DecodeFrame`).
- A payload whose length is a multiple of 65536, the empty one in particular, is never finished: the
  16-bit count is zero and the task writes nothing more (`TxRuns.TransmissionEnds`).
- Four places read the interrupt mask and write it back, under no common lock. A frame can stall for
  ever, with its transmit interrupt disabled, exactly when a write that clears the bit is under way at
  the moment start_xmit enables it (`TxInterleaving.StallPossibleExactly`): by the task
  (`StallIsReachable`) or by the poll or the interrupt handler (`PollStalls`). `RevivesExactly` says
  when a silent transmitter can still wake up.
- start_xmit clears `tx_escape_next` after it has set the count (lines 214 and 215 of uart_net.c). A
  task that runs on in between can have set it, and then sends the escape character twice. The bytes
  on the wire survive the interleaving exactly when that never happens
  (`InterleavedWire.WireSurvivesExactly`, `ResetIsReachable`, `Link.DoubledEscapeMisleads`), and it can
  happen exactly to frames with a byte to escape (`DamagePossibleExactly`).
- In the same way the receiver can go deaf, with its interrupt disabled and no poll scheduled: exactly
  when the poll enables the interrupt while start_xmit or the task has read the mask with the receive
  bits clear and not yet written it (`ReceiveMask.DeafPossibleExactly`).
- A first access to a block through a page other than its first one leaves the first page unmapped; an
  access to that page then remaps pages that are mapped (`PagerPolicy.RemapBusyIsReached`). Runs
  without such an access are exactly those carried out to their end (`RunCompletesExactly`).
- A store by another thread to the victim of an eviction, after it has been written out and before its
  entries are removed, is lost (`PagerRaces.StoreIsLost`); `FlatMemoryExactly` is the condition.
- A reset clears the write and read counts of the first frame only (pcie_mm.c:37-38), so the counts
  of the frames need not add up to the totals afterwards (`PagerCounts.CountsDisagree`);
  `PagerCounts.TotalsAreSums` says when they do.
- The comment above the layout code (virt.c:1684-1687) says that less than 255 GiB of memory keeps
  the legacy map. The code also counts 1 GiB for each slot: `VirtMemmap.SlotsLeaveLegacy` is an
  input for which it does not, `VirtMemmap.LegacyOnlyThen` the exact condition.
- The test for wrap-around in `virt_set_memmap` misses some inputs (`VirtMemmap.WrapEscapesTheTest`,
  `VirtMemmap.DeviceMemoryLost`); the layout is sound and has the device memory asked for exactly when
  everything, rounded up and without wrap-around, fits in 64 bits (`VirtMemmap.SoundExactlyWhenFits`).

## Model

| member | source | states |
|---|---|---|
| Wire.DecodeFrame | infected/modules/uart_net/uart_net.c:108-168 | for every payload below 65536 bytes, the reference decoder returns the payload of a frame and whatever follows it on the wire |
| Wire.FrameSplitsUniquely | infected/modules/uart_net/uart_net.c:108-168 | two streams that begin with frames and are equal have the same first payload and the same rest |
| Wire.PrefixFree | infected/modules/uart_net/uart_net.c:108-168 | no frame is a prefix of the frame of another payload |
| Wire.DelimitersOnlyAtEnds | infected/modules/uart_net/uart_net.c:108-168 | 0xAA stands at the first place of a frame and nowhere else, 0x55 at the last place and nowhere else |
| Wire.LengthBytesJoin | infected/modules/uart_net/uart_net.c:211-212 | the receiver's reading of the two length bytes gives back the length, below 65536 |
| Wire.Xor20IsBitwise | infected/modules/uart_net/uart_net.c:118 | the escape arithmetic is the bitwise exclusive or with 0x20, for all 256 bytes |
| Wire.FramesOnTheWire | infected/modules/uart_net/uart_net.c:108-168 | two payloads as the bytes on the wire, with every kind of escape, and the high length byte first |
| RxMachine.RxByteKeepsInv | infected/modules/uart_net/uart_net.c:252-354 | every byte keeps the representation: length index below 2, buffer never beyond its allocation, received below the frame length in DATA, complete in END, so the overflow and length-mismatch branches are dead; in ESCAPE the saved state is LENGTH or DATA |
| RxMachine.RxAccounting | infected/modules/uart_net/uart_net.c:254-354 | over every byte stream and every allocator: headers accepted = packets + length errors + dropped + errors + 1 if not IDLE; every buffer is delivered, freed or held exactly once; only clean payloads are delivered |
| RxMachine.RxRunConcat | infected/modules/uart_net/uart_net.c:245-356 | receiving a then b is receiving a followed by b |
| RxMachine.RxRunExtends | infected/modules/uart_net/uart_net.c:328-339 | what has been delivered is never changed, only added to |
| RxOutcomes.DeliveredOnFooterExactly | infected/modules/uart_net/uart_net.c:328-354 | a byte delivers a packet if and only if the frame is complete and it is the footer; then exactly the buffered payload is added and one packet counted |
| RxOutcomes.WrongFooter | infected/modules/uart_net/uart_net.c:340-354 | any other byte in the place of the footer frees the buffer, counts one error and nothing else, and ends the frame |
| RxOutcomes.LengthRefused | infected/modules/uart_net/uart_net.c:283-289 | the second length byte, escaped or not, of a length of 0 or above 270: back to IDLE, one length error and nothing else |
| RxOutcomes.AllocationFails | infected/modules/uart_net/uart_net.c:290-295 | with a good length and no buffer: back to IDLE, one drop and nothing else |
| RxOutcomes.AllocationSucceeds | infected/modules/uart_net/uart_net.c:290-297 | with a good length and a buffer: DATA, a buffer of just that size, and nothing else counted |
| RxOutcomes.NothingElseCounts | infected/modules/uart_net/uart_net.c:252-326 | in every other state and on every other byte, the only thing ever counted is a header in IDLE |
| RxOutcomes.PayloadByte | infected/modules/uart_net/uart_net.c:300-316 | a payload byte, un-escaped where it was escaped, goes to the end of the buffer, and the frame is complete exactly with the last one |
| RxOutcomes.FooterReplaced | infected/modules/uart_net/uart_net.c:252-354 | a whole clean frame whose last byte is replaced by any other: one error, one buffer allocated and freed, and no payload |
| RxOutcomes.LengthFieldRefused | infected/modules/uart_net/uart_net.c:275-289 | a header and any length field that is refused: one length error, and no buffer |
| RxOutcomes.NoBufferNoPacket | infected/modules/uart_net/uart_net.c:290-339 | over every stream, an allocator that always fails means that no buffer is ever counted and no packet delivered |
| RxOutcomes.FrameDropped | infected/modules/uart_net/uart_net.c:252-354 | a whole clean frame for which there is no buffer: one drop, no payload, and IDLE at its end |
| UartRx.Receiver.constructor | infected/modules/uart_net/uart_net.c:426-463 | the receiver as open leaves it satisfies the invariant, with the receive interrupt enabled and no poll scheduled |
| UartRx.Receiver.OnIdle | infected/modules/uart_net/uart_net.c:254-262 | the update in place is the machine's step |
| UartRx.Receiver.OnLength | infected/modules/uart_net/uart_net.c:271-299 | the update in place is the machine's step, with both outcomes of the allocation; RxOutcomes.LengthRefused, AllocationFails and AllocationSucceeds say which counter moves |
| UartRx.Receiver.OnData | infected/modules/uart_net/uart_net.c:300-317 | the update in place is the machine's step |
| UartRx.Receiver.OnEnd | infected/modules/uart_net/uart_net.c:328-354 | the update in place is the machine's step and delivers at most one packet, on the footer alone (RxOutcomes.DeliveredOnFooterExactly, WrongFooter) |
| UartRx.Receiver.HandleByte | infected/modules/uart_net/uart_net.c:252-355 | the switch with its jump back after un-escaping takes the whole state where one byte of the machine takes it |
| UartRx.Receiver.PollBytes | infected/modules/uart_net/uart_net.c:245-356 | a poll takes exactly the bytes up to the budget-th delivery or the end of the FIFO, ends in the machine's state after them, returns the number delivered, and less than the budget only if the FIFO was empty |
| UartRx.Receiver.Poll | infected/modules/uart_net/uart_net.c:237-367 | the same, and it leaves polling with the interrupt enabled again exactly when below budget, so that, as long as nothing else writes the mask in between, with the interrupt disabled a poll is always scheduled |
| UartRx.Receiver.OnInterrupt | infected/modules/uart_net/uart_net.c:379-394 | an enabled receive interrupt that is shown disables itself and schedules a poll; without one both flags stay as they were, and nothing of the frame is touched either way |
| Resync.ProgressBound | infected/modules/uart_net/uart_net.c:264-355 | from any reachable state and on any stream, fewer than 273 bytes other than 0x5A in LENGTH or DATA and 0x7A in ESCAPE are consumed while the receiver stays out of IDLE, so the 273rd brings it there |
| Resync.ResyncBound | infected/modules/uart_net/uart_net.c:264-355 | on any stream without 0x7A the receiver is in IDLE at some point within 545 bytes |
| Resync.SlowestFrame | infected/modules/uart_net/uart_net.c:264-355 | 545 is the least such bound: after a header, some 544 bytes without 0x7A never reach IDLE |
| Resync.EscapedEscapeHolds | infected/modules/uart_net/uart_net.c:266-268 | the condition is needed: a stream of 0x7A holds a receiver in ESCAPE for ever |
| Recovery.AfterIdle | infected/modules/uart_net/uart_net.c:245-356 | wherever in a stream of clean frames between noise the receiver is in IDLE, exactly the frames whose header is still to come are delivered, in order |
| Recovery.IdleWithin | infected/modules/uart_net/uart_net.c:264-355 | from any reachable state, the receiver is in IDLE at some point within the first frames of such a stream that together have as many payload bytes, and four for each frame, as it still needs |
| Recovery.Recovers | infected/modules/uart_net/uart_net.c:245-356 | from any reachable state, when the first j frames of such a stream have 273 payload bytes, counting four more for each frame, at most j frames are lost and all others are delivered in order |
| Recovery.RecoversWithin55 | infected/modules/uart_net/uart_net.c:245-356 | whatever the frames, at most 55 are lost |
| ReceiveMask.HearsUnlessOverlapped | infected/modules/uart_net/uart_net.c:182-394 | in every interleaving of poll, handler, and mask writes of start_xmit and task in which line 363 never runs while one of those has read the receive bit clear and not written it, the interrupt is enabled or a poll or the handler is at work or scheduled |
| ReceiveMask.DeafPossibleExactly | infected/modules/uart_net/uart_net.c:182-394 | when the last poll enables the interrupt at line 363, the receiver can go deaf before it takes another interrupt if and only if start_xmit (218) or the task (182) has then read the receive bit clear and not written it |
| ReceiveMask.DeafForEver | infected/modules/uart_net/uart_net.c:182-394 | a deaf receiver stays deaf in every run |
| ReceiveMask.DeafIsReachable | infected/modules/uart_net/uart_net.c:182-363 | a run that leads there |
| ReceiveMask.AloneOneAtATime | infected/modules/uart_net/uart_net.c:237-394 | while start_xmit and the task leave the mask alone, the interrupt is never enabled while a poll is scheduled or at work |
| ReceiveMask.AskedAgain | infected/modules/uart_net/uart_net.c:358-394 | a poll asked for again while it is at work is scheduled again when complete; one that used up its budget stays scheduled and leaves the mask as it is |
| RoundTrip.ExactRoundTrip | infected/modules/uart_net/uart_net.c:253-355 | from any idle state and for every payload of every length: the receiver run on its frame delivers exactly it, after what it had delivered before, and is back in IDLE if and only if the payload has 1 to 270 bytes and neither it nor its length bytes contain 0x5A |
| RoundTrip.EscapeCharIsLost | infected/modules/uart_net/uart_net.c:321-325 | the payload 0x5A is not delivered |
| RoundTrip.DeliverFrame | infected/modules/uart_net/uart_net.c:253-355 | in any IDLE state, a clean frame adds one header, one buffer and one packet with that payload, and nothing else |
| RoundTrip.DecodeStream | infected/modules/uart_net/uart_net.c:245-356 | any stream of clean frames between noise without 0xAA delivers exactly the sent payloads, in order |
| RoundTrip.DecodePrefix | infected/modules/uart_net/uart_net.c:245-356 | at every point of such a stream a prefix of the sent payloads has been delivered, after what was delivered before it |
| RoundTrip.PollTake | infected/modules/uart_net/uart_net.c:245-249 | a poll delivers at most its budget, and exactly its budget if it leaves bytes in the FIFO |
| RoundTrip.PollStopsInTime | infected/modules/uart_net/uart_net.c:245 | before its last byte a poll has delivered less than its budget |
| RoundTrip.BatchingIsIrrelevant | infected/modules/uart_net/uart_net.c:237-367 | for every stream, all budgets and all points at which the FIFO looks empty, the state after the polls is that of one run over the bytes read; polls that can do something reach the end |
| RoundTrip.PolledStream | infected/modules/uart_net/uart_net.c:237-367 | however polled, a stream of clean frames between noise yields a prefix of the sent payloads at any time and all of them once read |
| TxMachine.ByteEmits | infected/modules/uart_net/uart_net.c:107-176 | each iteration of the task loop writes exactly the next byte of what remains of header, escaped length, escaped payload, footer, and keeps the invariant; only a frame of length zero modulo 65536 makes no progress |
| TxRuns.TaskAdvances | infected/modules/uart_net/uart_net.c:99-186 | a task run writes as many of the remaining bytes as the FIFO has room for, and completes the frame, counts it, wakes the queue and disables the interrupt exactly when it has written the last |
| TxRuns.OfferKeepsRemaining | infected/modules/uart_net/uart_net.c:205-230 | an accepted payload becomes what remains; a refused or dropped one leaves what remains unchanged |
| TxRuns.TransmissionEnds | infected/modules/uart_net/uart_net.c:99-177 | a payload is transmitted to its end if and only if its length is not a multiple of 65536, and then as soon as the FIFO has had room for it |
| TxRuns.EmptyPayloadNeverEnds | infected/modules/uart_net/uart_net.c:142-165 | the empty payload never ends, and puts at most header and two zero bytes on the wire |
| TxRuns.StepRefines | infected/modules/uart_net/uart_net.c:99-230 | each step of the transmitter is the step of the abstract line |
| TxRuns.TransmitterRefinesLine | infected/modules/uart_net/uart_net.c:99-230 | over every run of offers, task runs and interrupts the byte-by-byte transmitter is the abstract line |
| TxRuns.WireContent | infected/modules/uart_net/uart_net.c:167-230 | over every run the wire and the rest of the frame in flight are the frames of the accepted payloads in order; payloads offered while up = packets + dropped + 1 if one is in flight |
| TxRuns.TransmitterOutput | infected/modules/uart_net/uart_net.c:99-230 | the wire is always a prefix of those frames and all of them when the transmitter is idle, with every offer accounted for |
| TxRuns.FrameInFlightCanFinish | infected/modules/uart_net/uart_net.c:181-223 | in every run a stopped queue has a frame in flight, and one interrupt and one task run with room finish it and restart the queue |
| TxRuns.QueueStoppedWhileInFlight | infected/modules/uart_net/uart_net.c:167-230 | over every run the queue is stopped as long as a frame is in flight |
| TxRuns.OfferThenWork | infected/modules/uart_net/uart_net.c:99-230 | an accepted payload and one task run with room for it: its frame is on the wire, one packet counted, the queue running again and the interrupt disabled |
| TxRuns.OfferRefused | infected/modules/uart_net/uart_net.c:197-230 | an offer to a device that is down changes nothing, and one with a frame in flight only stops the queue and counts a drop |
| TxRuns.InterruptQueuesExactly | infected/modules/uart_net/uart_net.c:397-407 | an interrupt changes nothing but to queue the work item, exactly when it is enabled and a frame is in flight |
| TxRuns.SentModulo | infected/modules/uart_net/uart_net.c:142-165 | of a payload 65536 bytes longer than n, what would be sent of its first n bytes is sent |
| TxRuns.SentIsFrame | infected/modules/uart_net/uart_net.c:108-168 | what is sent of a payload of 1 to 65535 bytes is its whole frame |
| UartTx.Transmitter.WriteEscaped | infected/modules/uart_net/uart_net.c:114-131 | the update in place is the machine's step |
| UartTx.Transmitter.TxIteration | infected/modules/uart_net/uart_net.c:107-176 | one iteration in place is one step of the machine |
| UartTx.Transmitter.TxLoop | infected/modules/uart_net/uart_net.c:99-177 | the loop in place is the machine's loop and terminates |
| UartTx.Transmitter.TxTask | infected/modules/uart_net/uart_net.c:90-186 | the work item keeps the invariant and does to the abstract line what one task run does |
| UartTx.Transmitter.StartXmit | infected/modules/uart_net/uart_net.c:189-234 | an offer keeps the invariant and does to the abstract line what an offer does: refused when down, installed when idle, dropped otherwise |
| UartTx.Transmitter.OnInterrupt | infected/modules/uart_net/uart_net.c:397-407 | the interrupt queues the work item exactly when enabled with a frame in flight |
| Link.EndToEnd | infected/modules/uart_net/uart_net.c:90-367 | for every run of a transmitter that accepts clean payloads, every idle receiver and every way to poll the wire, the receiver delivers a prefix of them, and all once the transmitter is idle and the wire read |
| Link.InterleavedEndToEnd | infected/modules/uart_net/uart_net.c:90-367 | the same for every interleaving of start_xmit, task, interrupt and poll in which start_xmit never clears tx_escape_next when it is set |
| Link.DoubledEscapeMisleads | infected/modules/uart_net/uart_net.c:264-318 | an escape character sent twice before a low length byte of 85 makes the receiver expect 122 bytes |
| TxInterleaving.NoLostWakeup | infected/modules/uart_net/uart_net.c:167-232 | in every interleaving, a stopped queue has a frame in flight, or start_xmit between stopping it and acting on tx_state, or the task about to wake it |
| TxInterleaving.TransmitConservation | infected/modules/uart_net/uart_net.c:167-230 | in every interleaving, offers while up = packets + dropped + in flight + undecided, and every buffer has one owner or has been freed exactly once |
| InterleavedWire.BaseRuns | infected/modules/uart_net/uart_net.c:90-234 | a run with bytes is a run of the interleaved machine without them, so all that holds there holds here |
| InterleavedWire.UnderEmits | infected/modules/uart_net/uart_net.c:107-165 | an iteration of the task loop on a frame whose count has been set writes exactly the next remaining byte, whatever start_xmit, the interrupt and the poll are doing |
| InterleavedWire.WireSurvivesExactly | infected/modules/uart_net/uart_net.c:99-230 | in every interleaving, wire and rest of the frame in flight are the frames of the accepted payloads in order if and only if line 215 has never cleared tx_escape_next when it was set; each time it has, there is exactly one byte more |
| InterleavedWire.WirePrefix | infected/modules/uart_net/uart_net.c:99-230 | as long as it has not, the wire is a prefix of those frames, and all of them at idle |
| InterleavedWire.ResetIsReachable | infected/modules/uart_net/uart_net.c:214-215 | an interleaving in which the task escapes a length byte between lines 214 and 215, and line 215 clears the flag |
| InterleavedWire.DamagePossibleExactly | infected/modules/uart_net/uart_net.c:99-230 | some interleaving so damages the frame of p if and only if one of its length bytes, or of the bytes of p that are transmitted, is 0xAA, 0x55 or 0x5A |
| InterleavedWire.StallIsFinal | infected/modules/uart_net/uart_net.c:90-234 | from a stalled state no run sends another byte or counts another packet |
| InterleavedWire.DropLeavesFrameAlone | infected/modules/uart_net/uart_net.c:205-230 | with a frame in flight, start_xmit changes of it nothing but the length bytes, pointer, count and escape flag of the frame it is installing itself, and a dropped payload nothing at all |
| TxInterleaving.StallPossibleExactly | infected/modules/uart_net/uart_net.c:181-223 | in every interleaving, when line 218 enables the interrupt for a frame in flight, that frame can stall if and only if a write to the mask that clears the bit is then under way: the task between lines 181 and 182, or the interrupt (385) or the poll (363) having read the mask with the bit clear |
| TxInterleaving.StalledExactly | infected/modules/uart_net/uart_net.c:181-223 | while the receive side leaves the mask alone: at rest with that frame in flight, the transmitter is stalled if and only if the task was between lines 181 and 182 when line 218 ran |
| TxInterleaving.StallIsReachable | infected/modules/uart_net/uart_net.c:181-223 | an interleaving that stalls through the task's write at 182 |
| TxInterleaving.PollStalls | infected/modules/uart_net/uart_net.c:363-363 | one that stalls through the poll's write at 363, with the first payload ever offered |
| TxInterleaving.HandlerStalls | infected/modules/uart_net/uart_net.c:379-385 | one that stalls through the interrupt handler's write at 385 |
| TxInterleaving.StalledForEver | infected/modules/uart_net/uart_net.c:205-230 | with a frame in flight, the task neither running nor queued, the interrupt disabled and no write under way that sets it or handler about to queue the work item, no run sends anything more |
| TxInterleaving.RevivesExactly | infected/modules/uart_net/uart_net.c:363-405 | a silent transmitter runs its task again in some run if and only if such a write is under way or the handler is about to queue the work item |
| TxInterleaving.HandlerQueuesOnlyBusy | infected/modules/uart_net/uart_net.c:373-407 | in every state and on every action: the handler comes to queue the work item only after it saw tx_state not idle, on a status that showed an enabled transmit interrupt |
| TxInterleaving.TransmitServed | infected/modules/uart_net/uart_net.c:373-407 | left alone with a frame in flight, it queues the work item exactly when the transmit interrupt is enabled, whether a receive interrupt shows beside it or not |
| PagerProofs.ResetInv | infected/modules/pcie/pcie_mm.c:42-52 | after a reset with nothing mapped the invariant holds |
| PagerProofs.FreeFillReads | infected/modules/pcie/pcie_mm.c:83-98 | in every state, a block that gets a free frame is read back from its own slot exactly if it is in swap, and otherwise the memory stays as it is |
| PagerProofs.VictimExists | infected/modules/pcie/pcie_mm.c:100-114 | with no frame free some block is resident, so the search for a victim succeeds |
| PagerProofs.EvictEffect | infected/modules/pcie/pcie_swap.c:171-211 | what eviction does, field by field: the victim's block goes to its own slot and its entries away, the frame changes owner, and is read from swap exactly if the new owner was there |
| PagerProofs.EvictKeepsCell | infected/modules/pcie/pcie_swap.c:171-211 | an eviction changes the content of no page of a block that was ever mapped |
| PagerProofs.FaultKeeps | infected/modules/pcie/pcie_mm.c:120-156 | a fault for a block not resident ends with the page mapped and keeps the whole invariant: descriptors, owners, page table, books |
| PagerProofs.TouchOutcome | infected/modules/pcie/pcie_mm.c:100-141 | no access reaches a BUG(); it ends with the page mapped unless it faults on the first page of a resident block |
| PagerProofs.TouchKeepsCell | infected/modules/pcie/pcie_mm.c:77-156 | a fault changes the content of no page of a block that was ever mapped |
| PagerProofs.Translation | infected/modules/pcie/pcie_mm.c:142-152 | through the page table one sees the content of the page, in the reserved range, and no other page there |
| PagerProofs.PutCell | infected/modules/pcie/pcie_mm.c:142-152 | a store changes the content of its own page and of no other |
| PagerRuns.LoadReturnsLatest | infected/modules/pcie/pcie_mm.c:77-156 | in every run, a load returns what the latest access to the page read or wrote when no store to it came between: the pager is a flat memory |
| PagerRuns.LoadReturnsCell | infected/modules/pcie/pcie_mm.c:77-156 | the first load of a page that had content before the run returns it |
| PagerRuns.OrderlyRunsComplete | infected/modules/pcie/pcie_mm.c:142-152 | a run in which each fault is on the first page of its block is carried out to its end |
| PagerPolicy.AccessRefines | infected/modules/pcie/pcie_mm.c:77-152 | one access of the pager is one step of an automaton that knows only which blocks are resident and which of them were filled through a page other than the first; it stops when that does |
| PagerPolicy.RunCompletesExactly | infected/modules/pcie/pcie_mm.c:77-152 | a run is carried out to its end if and only if no access is to the first page of a resident block that was last filled through another page |
| PagerPolicy.RemapBusyIsReached | infected/modules/pcie/pcie_mm.c:142-147 | after a reset, an access to page 1 and then one to page 0 ends in a remap over entries that are present |
| PagerRaces.NoRace | infected/modules/pcie/pcie_swap.c:190-211 | without stores in between, the two halves of the eviction are the eviction |
| PagerRaces.RacedCell | infected/modules/pcie/pcie_swap.c:196-205 | stores by other threads between writing the victim out and removing its entries: the pages of the victim end up as they were written out, all others as in a flat memory |
| PagerRaces.FlatMemoryExactly | infected/modules/pcie/pcie_swap.c:196-205 | the pager is a flat memory over such an eviction if and only if the stores leave every page of the victim with the content it had when it was written out |
| PagerRaces.StoreIsLost | infected/modules/pcie/pcie_swap.c:196-197 | a single store to the victim there is lost |
| PagerRuns.DescriptorBijection | infected/modules/pcie/pcie_mm.c:77-118 | after every run: a block has a frame exactly when resident, distinct blocks have distinct frames, a frame is in use exactly when a block has it |
| PagerRuns.PageTableAgreement | infected/modules/pcie/pcie_mm.c:142-152 | after every run: each present entry belongs to a resident block, leads to the same subpage of its frame inside the reserved range, and no two entries lead to the same page |
| PagerRuns.NoBugIsReached | infected/modules/pcie/pcie_mm.c:100-141 | after every run, no access reaches a BUG() |
| PagerRuns.SwapConservation | infected/modules/pcie/pcie_swap.c:171-205 | after every run: blocks in swap = total_write - total_read, resident blocks = min(frames, blocks ever touched), and with a block in swap no frame is free, so a page-in into a free frame never happens |
| PagerRuns.MappedAreAccessed | infected/modules/pcie/pcie_mm.c:83-117 | the blocks no longer unmapped after a run are exactly those it accessed |
| PagerCounts.EvictBalances | infected/modules/pcie/pcie_swap.c:171-211 | an eviction adds to the counts of the frames together what it adds to the totals |
| PagerCounts.RunBalances | infected/modules/pcie/pcie_swap.c:171-188 | over every run, total_write and total_read grow by as much as the write and read counts of all frames together |
| PagerCounts.EvictCharges | infected/modules/pcie/pcie_swap.c:171-211 | an eviction charges the frame that changes owner with one write, and with one read exactly when the new owner is read back; no other frame is charged |
| PagerCounts.FreeFillCharges | infected/modules/pcie/pcie_mm.c:83-98 | filling a block from a free frame charges none |
| PagerCounts.ResetSums | infected/modules/pcie/pcie_mm.c:32-49 | a reset takes only the counts of frame 0 off the sums, and clears the totals |
| PagerCounts.TotalsAreSums | infected/modules/pcie/pcie_mm.c:32-49 | after a reset and any run, each total is the sum of the frames' counts if and only if the frames other than 0 had counted nothing before |
| PagerCounts.CountsDisagree | infected/modules/pcie/pcie_mm.c:37-38 | with two frames and three blocks: a reset, four accesses, everything unmapped and a second reset leave a total of zero and a positive sum |
| SwapTraffic.ScanReaches | infected/modules/pcie/user_copy.c:77-81 | after x pages of a scan: no access has stopped, and statuses and counters are those of the pattern of the first, a later or a fitting scan |
| SwapTraffic.LaterThenLater | infected/modules/pcie/pcie_mm.c:100-117 | a later scan over D blocks with M frames, fewer than D, costs D - M + 1 reads and writes and restores the same resident blocks |
| SwapTraffic.SwapTrafficOfScans | infected/modules/pcie/user_copy.c:74-99 | after a reset and k scans of D blocks: nothing swapped if they fit; otherwise total_write = (D - M) + (k - 1)(D - M + 1), total_read = (k - 1)(D - M + 1), and the blocks from D - M to D - 1 are resident |
| SwapTraffic.CopyTraffic | infected/modules/pcie/user_copy.c:74-99 | for two scans: total_write = 2(D - M) + 1 and total_read = D - M + 1 |
| Pager.Driver.InitVmem | infected/modules/pcie/pcie_mm.c:6-15 | the loop leaves every block unmapped with its own number |
| Pager.Driver.InitPhymem | infected/modules/pcie/pcie_mm.c:32-39 | the loop frees every frame and numbers it from the reserved base, and clears the counts of frame 0 only |
| Pager.Driver.MmReset | infected/modules/pcie/pcie_mm.c:43-52 | the arrays and counters afterwards are those of the model's reset |
| Pager.Driver.AddPages | infected/modules/pcie/pcie_swap.c:117-124 | the bio covers the pages of the frame in order |
| Pager.Driver.SwapWritepages | infected/modules/pcie/pcie_swap.c:101-133 | the pages of the frame end up in the slot of the block, at its own sectors, and no other page of the device changes |
| Pager.Driver.SwapReadpages | infected/modules/pcie/pcie_swap.c:135-168 | the slot of the block ends up in the pages of the frame, and no other page of memory changes |
| Pager.SectorOfBlock | infected/modules/pcie/pcie_swap.c:110 | the first sector of a block is at a page boundary, 1024 pages for each block before it |
| Pager.Driver.DoReadPages | infected/modules/pcie/pcie_swap.c:171-178 | the arrays and counters afterwards are those of the model's step |
| Pager.Driver.DoWritePages | infected/modules/pcie/pcie_swap.c:180-188 | the arrays and counters afterwards are those of the model's step |
| Pager.Driver.EvictPage | infected/modules/pcie/pcie_swap.c:190-211 | the arrays, entries and counters afterwards are those of the model's eviction |
| Pager.Driver.FillVpage | infected/modules/pcie/pcie_mm.c:77-118 | both searches, the page-in and the eviction together are the model's filling of a block, or end at the BUG() that the model names |
| Pager.Driver.RemapPfnRange | infected/modules/pcie/pcie_mm.c:143-147 | maps a range of pages, or refuses exactly when one is mapped already |
| Pager.Driver.HandleFault | infected/modules/pcie/pcie_mm.c:120-156 | the whole fault in place is the model's fault, outcome included |
| Pager.Driver.Load | infected/modules/pcie/user_copy.c:96 | the page read and the state afterwards are those of the model's access, and it reads nothing exactly when the access stops |
| Pager.Driver.Store | infected/modules/pcie/user_copy.c:78 | the state afterwards is that of the model's access, and it is done exactly unless the access stops |
| Pager.Driver.UserCopy | infected/modules/pcie/user_copy.c:67-99 | the program reads back from every page what it wrote, whatever was evicted meanwhile, and leaves exactly 2(D - M) + 1 writes and D - M + 1 reads, or none when the data fits |
| VirtMemmap.RoundUpLeast | infected/modules/uart_net/scripts/qemu-6.2.0/hw/arm/virt.c:1708 | rounding up gives the least multiple not below |
| VirtMemmap.PlaceStacks | infected/modules/uart_net/scripts/qemu-6.2.0/hw/arm/virt.c:1705-1712 | while nothing exceeds 64 bits, regions of any sizes are placed one above the other, each aligned to its size, ending as low as any such placement can |
| VirtMemmap.LeastTopIsLeast | infected/modules/uart_net/scripts/qemu-6.2.0/hw/arm/virt.c:1705-1712 | no aligned placement of these sizes from there on ends lower |
| VirtMemmap.StackedDisjoint | infected/modules/uart_net/scripts/qemu-6.2.0/hw/arm/virt.c:178-184 | stacked regions are pairwise disjoint, aligned, above the start and below the top |
| VirtMemmap.FitsIsSound | infected/modules/uart_net/scripts/qemu-6.2.0/hw/arm/virt.c:1691-1713 | when everything fits, device memory is at the first GiB boundary above RAM and the high regions are above both |
| VirtMemmap.SoundForStoredSize | infected/modules/uart_net/scripts/qemu-6.2.0/hw/arm/virt.c:1691-1713 | for device memory of the size that the code stores, computed modulo 2^64: the layout is sound if and only if everything, rounded up, fits in 64 bits |
| VirtMemmap.TooManySlotsExactly | infected/modules/uart_net/scripts/qemu-6.2.0/hw/arm/virt.c:1678-1682 | the machine exits for its slots if and only if there are more than the limit |
| VirtMemmap.TooHugeExactly | infected/modules/uart_net/scripts/qemu-6.2.0/hw/arm/virt.c:1695-1701 | it exits for its memory if and only if its slots are within the limit and base and size of device memory, as stored and rounded up in 64 bits, add up to 2^64 or more |
| VirtMemmap.TooHugeForFittingRam | infected/modules/uart_net/scripts/qemu-6.2.0/hw/arm/virt.c:1695-1701 | while RAM rounded up fits in 64 bits: if and only if the stored size rounded up to a GiB does and the sum with the base does not |
| VirtMemmap.SoundExactlyWhenFits | infected/modules/uart_net/scripts/qemu-6.2.0/hw/arm/virt.c:1691-1713 | for all inputs with few enough slots: regions aligned, disjoint and above RAM and device memory within 64 bits, and device memory of the size asked for, if and only if maxram and slots cover RAM and everything asked for, rounded up, fits in 64 bits |
| VirtMemmap.DeviceMemoryLost | infected/modules/uart_net/scripts/qemu-6.2.0/hw/arm/virt.c:1693-1701 | a second wrap-around that passes the test: 2^64 bytes of device memory are asked for, none is laid out, and the layout is the legacy one |
| VirtMemmap.WrapEscapesTheTest | infected/modules/uart_net/scripts/qemu-6.2.0/hw/arm/virt.c:1696-1701 | an input that wraps, passes the test and puts the regions inside RAM |
| VirtMemmap.LegacyLayout | infected/modules/uart_net/scripts/qemu-6.2.0/hw/arm/virt.c:1684-1704 | when device memory ends by 256 GiB the high regions are always at 256 GiB, 256 GiB + 256 MiB and 512 GiB, and the highest address is 2^40 - 1 |
| VirtMemmap.LegacyOnlyThen | infected/modules/uart_net/scripts/qemu-6.2.0/hw/arm/virt.c:1684-1704 | among the layouts that fit, the legacy one is exactly that of device memory ending by 256 GiB |
| VirtMemmap.SlotsLeaveLegacy | infected/modules/uart_net/scripts/qemu-6.2.0/hw/arm/virt.c:1684-1693 | with 100 GiB of RAM, 254 GiB of memory at most and three slots the layout is not the legacy one |
| VirtMemmap.ClzIsWidth | infected/modules/uart_net/scripts/qemu-6.2.0/hw/arm/virt.c:2648 | the width less the leading zeros is the number of bits of the number |
| VirtMemmap.RequestedBitsLeast | infected/modules/uart_net/scripts/qemu-6.2.0/hw/arm/virt.c:2648-2655 | the width asked for is the least of at least 32 that holds the highest address |
| VirtMemmap.UsedAddressesFit | infected/modules/uart_net/scripts/qemu-6.2.0/hw/arm/virt.c:2648-2655 | every address of RAM, device memory and the high regions of a sound layout fits in that width |
| VirtMemmap.LegacyNeeds40Bits | infected/modules/uart_net/scripts/qemu-6.2.0/hw/arm/virt.c:2648-2655 | the legacy layout needs 40 bits |
| VirtMemmap.KvmAnswer | infected/modules/uart_net/scripts/qemu-6.2.0/hw/arm/virt.c:2645-2670 | for every highest address and host: exit if and only if the host has fewer than 32 bits or the address does not fit in its bits; otherwise 0 with a fixed width, and else the least width of at least 32 that holds the address |
| VirtMemmap.VirtMachine.SetMemmap | infected/modules/uart_net/scripts/qemu-6.2.0/hw/arm/virt.c:1666-1720 | the map, highest address and device memory afterwards are those of the layout, and both errors, whose conditions are TooManySlotsExactly and TooHugeExactly, end it |
| VirtMemmap.VirtMachine.PlaceHigh | infected/modules/uart_net/scripts/qemu-6.2.0/hw/arm/virt.c:1705-1712 | the loop in place is the recursive placement |
| VirtMemmap.VirtMachine.KvmType | infected/modules/uart_net/scripts/qemu-6.2.0/hw/arm/virt.c:2637-2670 | the machine exits when the layout does, and otherwise with the answer of KvmAnswer for the highest address of the layout |
| CpuTopology.PathGivesCpu | infected/modules/uart_net/scripts/qemu-6.2.0/hw/arm/virt.c:446-457 | the path of a CPU has core and thread in range and gives the CPU back, for all positive numbers of cores and threads |
| CpuTopology.CpuGivesPath | infected/modules/uart_net/scripts/qemu-6.2.0/hw/arm/virt.c:446-457 | every path in range is the path of the CPU it stands for |
| CpuTopology.PathsAreUnique | infected/modules/uart_net/scripts/qemu-6.2.0/hw/arm/virt.c:446-457 | distinct CPUs have distinct paths |
| CpuTopology.NeighboursTogether | infected/modules/uart_net/scripts/qemu-6.2.0/hw/arm/virt.c:446-457 | two CPUs are on the same core if and only if their numbers divided by the threads agree, and on the same socket if and only if their numbers divided by the CPUs of a socket do |
| CpuTopology.ThreadsInOrder | infected/modules/uart_net/scripts/qemu-6.2.0/hw/arm/virt.c:446-457 | the threads of a core are numbered from 0 in the order of the CPUs |
| CpuTopology.SingleThreadAgrees | infected/modules/uart_net/scripts/qemu-6.2.0/hw/arm/virt.c:452-457 | with one thread a core the two-level numbering is the three-level one |

## Left out

- TxRuns.TransmitterOutput: takes each critical section as one step, as on one CPU with interrupts off (`infected/modules/uart_net/scripts/host/run_vm1.sh:22`); InterleavedWire.WireSurvivesExactly is the statement without that.
- TxInterleaving.StallPossibleExactly: of the mask register only the transmit bit, so the receive side may write at any time; the receive bits are in ReceiveMask.
- ReceiveMask.DeafPossibleExactly: start_xmit and the task may come to the mask at any time, and the receive timeout and receive interrupts are one.
- UartRx.Receiver.Poll: nothing comes between reading the mask and writing it, as on one CPU; ReceiveMask has the case that something does.
- InterleavedWire.WireSurvivesExactly: memory accesses take effect in program order, as the model knows no store buffers.
- TxInterleaving.NoLostWakeup: holds while the device is up, from open on; stop is not part of the interleaving.
- RxMachine.RxAccounting: between an open and the next stop; open and stop forget a frame in progress without counting it.
- PagerRuns.OrderlyRunsComplete: one way only; PagerPolicy.RunCompletesExactly is the exact condition.
- PagerRaces.FlatMemoryExactly: stores during the write-out itself, page by page, are taken as before or after it.
- PagerRuns.LoadReturnsLatest: one mapping and one process, faults one after the other, and swap input and output that succeed, since the driver ignores their result; the first access to a block finds whatever its frame held, as nothing clears frames.
- PagerProofs.TouchOutcome: a fault on the first page of a resident block, after a first access to another page of it, remaps pages already mapped; that stops the model as RemapBusy, and what the kernel does then is not part of this model.
- PagerProofs.ResetInv: a reset with pages mapped is left out, since the driver does not unmap them.
- VirtMemmap.RoundUpLeast: `ROUND_UP` and `clz64` come from headers that are not part of this model, and are taken as the least multiple not below and the number of leading zeros; the limit on slots is a parameter.
- VirtMemmap.VirtMachine.SetMemmap: base_memmap is any table whose RAM entry starts at 1 GiB, since some of its sizes come from headers that are not part of this model.
- The PL011 registers, interrupts, NAPI and the network stack: only room in the transmit FIFO, the bytes the receive FIFO yields before it looks empty, the answers of the allocator, the queue flag and the interrupt enables are kept.
- Byte counters (`rx_bytes`, `tx_bytes`), interrupt counters, `eth_type_trans` and what becomes of a delivered buffer.
- Probing, removal and registration of the drivers, and open and stop but as the start and the end of a run.
- The block layer, page locks and reference counts, `get_vaddr_pte`, the character device, `/proc` output, the unused `dirty` flag and `PPAGE_SWAPCACHE`.
- Overflow of counters.
- The rest of `virt.c`: device tree, properties, hotplug and interrupt wiring.
- `virt_fan`, `virt_temp` and `notifier_chain`, which are thin wrappers over sysfs and I2C.
