# Proofs about the Binxin RNIC driver

The driver (`driver_test`) moves packets between the Linux network stack and a network card
through rings of 4096 DMA descriptors, brings the link up, and has a second
half for RDMA (RoCE). This project models its logic in Dafny and proves what
the code relies on. Four parts carry most of the weight.

**Transmitting.** `TxPacket` cuts a packet into DMA pieces and estimates how many
descriptors it needs. `TxWire` is the sequence of single field writes of
`mac_dev_xmit`; `TxDevice` is a device that reads the result back. `TxRing` is the
ring as the driver updates it in place, with wrapping 32-bit indices; what mapping
and its rollback leave in the slots is in `TxSlots` and `TxMapping`, what reclaiming
adds up to in `TxReclaim`. `TxProtocol` is a machine in which the sender (one
descriptor write at a time), the device and `mac_tx_poll` (one slot at a time)
interleave freely; `TxSafety` proves what holds of every run, with the ledger of
mappings and frees in `TxLedger`, and `TxAgreement` that a new ring mirrors the
machine's start and that the methods of `TxRing` are runs of it. `TxWaking` is about
stopped queues, `TxCoalesce` about which packets ask for an interrupt,
`TxInterrupts` about whether a stopped queue has one coming; `TxWitness` builds runs
that show what can really happen. `TxFrames` says end to end, in the packet's own
terms, what a packet sent becomes on the wire and what is reported for it.

**Receiving.** `RxPages` keeps the books of shared, reference-counted pages, `RxRing`
the order in which buffers are cut from them. `RxProtocol` is the machine of
device, reader and refresher; `RxBuffers` and `RxRefresh` are the driver's own
structures, updated in place, whose every state is a reachable state of that
machine. `RxPackets` says which packets a stream of descriptors stands for, and
`RxPoll` proves `mac_rx_poll` delivers those, however the stream is cut into
polls and whichever allocations fail; `RxContents` proves of those packets which
bytes they hold, which are delivered and how they are marked. `PollLoop` is
`mac_all_poll`.

**Pool.** `Pool` and `SearchTree` are the RoCE object pool: bitmap, search tree,
element count and two levels of references. `PoolCalls` takes the calls that do not
hold the lock apart into atomic steps.

**Link.** `LinkState` and `LinkSafety` are port 0's auto-negotiation (Clause 73 of
IEEE 802.3) and KR training (Clause 72 of IEEE 802.3), one transition per timer
tick; `LinkTicks` says what a tick does in each situation it can find, and
`LinkDriver` is the code itself, over its flags and the control register.

`BitFields` and `QueueMap` are two smaller cores; `Common` holds shared
vocabulary. `dafny verify dfyconfig.toml` checks everything.

## Findings

Where a natural statement is false of the code, the code was kept and the exact
condition proved.

- The rollback of `mac_map_tx_skb` compares wrapped indices. It undoes every
  mapping if and only if nothing had been mapped, or the failing slot's index has
  not wrapped past 2^32 and no piece was mapped at bus address zero; if the index
  has wrapped it does nothing at all (`TxMapping.RollbackLaw`,
  `TxRing.TxRing.MapTxSkb`; an instance is `TxMapping.RollbackSkipped`).
- A slot whose buffer was mapped at bus address zero is taken for unmapped. Over
  every run, the mappings of reclaimed buffers have all been undone if and only if
  none was at zero, and the slot of one that was keeps its length
  (`TxSafety.MappingsUndone`, `TxSafety.ReclaimResets`; a run in which a mapping is
  lost is `TxWitness.MappingLost`). Nothing else is ever lost
  (`TxSafety.MappingsConserved`).
- The check for space that precedes a stop is not repeated after it, so a wake-up can
  be lost. A stopped queue can still be woken if and only if something is left to
  reclaim or a poll that has reclaimed something is still to look
  (`TxWaking.WakesIff`, `TxWaking.StopStrands`); a run to a queue stopped for good is
  `TxWitness.WakeUpLost`.
- Of the `tx_frames` settings that ethtool accepts, up to 4096, exactly those from 1 to
  150 make sure that a stopped queue has a completion interrupt coming
  (`TxInterrupts.InterruptOutstanding`, `TxWitness.InterruptBound`).
- The device can be ahead of `ring->cur`, between the first descriptor's OWN bit
  and the store to `cur`, and only then (`TxWitness.DeviceGetsAhead`,
  `TxSafety.WindowInOrder`).
- The interrupt bit follows the running frame count across multiples of `tx_frames`
  (the comment above the code speaks of frames since the last interrupt), and
  every packet at which the 32-bit count wraps is marked too
  (`TxCoalesce.InterruptsAtCrossings`, `TxCoalesce.WrapMarksAnyway`).
- A receive descriptor with OWN clear has been completed if and only if the reader
  is less than a whole ring ahead of the refresher. Failing page allocations can use
  that ring up; then the reader takes an old descriptor for a new one, and the
  entry, emptied by the failed refresh, has no page for `mac_create_skb` to copy a
  header from (`RxProtocol.ClearOwnMeansFresh`, `RxProtocol.EntryLost`,
  `RxProtocol.StaleEntry`).
- The length allowance for a VLAN tag in `mac_rx_poll` never applies, because the
  packet's protocol is set after the check (`RxPackets.VerdictIs`,
  `RxPackets.TaggedFrameDropped`).
- A result of `mac_all_poll` short of its budget does not mean that the rings are
  empty: each has been read to its end as of its own last turn, and is drained if
  and only if nothing was completed on it since (`PollLoop.AllPoll`,
  `PollLoop.CaughtUp`; an instance is `PollLoop.LateArrival`). With a budget smaller
  than the number of rings it reads nothing and returns zero, full rings or not.
- A port can settle if and only if it negotiates and either skips training or can
  train on some lane (`LinkSafety.CanSettle`). An attempt is bounded until training
  has an outcome (`LinkSafety.AttemptBound`); from then on a partner sending only
  pages keeps it going if and only if the link is never found down three times in a
  row (`LinkSafety.UncountedPage`, `LinkSafety.PagesForEver`). A port can get there if
  and only if it negotiates, does not skip training, and either may not train or can
  train on some lane (`LinkSafety.CanLinger`). One trained lane outweighs a failed one
  (`LinkSafety.OneLaneIsEnough`).
- An allocation from the pool is refused if and only if the elements, those being
  allocated, those being refused and those being freed fill the limit
  (`PoolCalls.RefusedIff`), so it can be although no element is alive
  (`PoolCalls.RefusedWithRoom`).

## Model

| member | source | states |
|---|---|---|
| TxPacket.PiecesTilePacket | bx_mac_desc.c:532-613 | Read in slot order, the pieces a packet is mapped as are exactly its bytes, the linear ones and then every fragment's: none skipped, repeated or reordered |
| TxPacket.PiecesTotal | bx_mac_desc.c:560-613 | The lengths mapped add up to the packet's length, which is what pkt_info->length becomes |
| TxPacket.PieceSizes | bx_mac_desc.c:536-613 | With TSO the first piece is the header and nothing else; every other piece is non-empty and fits one hardware buffer |
| TxPacket.CountBuffers | bx_mac_net.c:205-209 | The counting loop gives the length divided by the buffer size, rounded up |
| TxPacket.PrepTxPkt | bx_mac_net.c:142-227 | The descriptor count is the symbolic estimate: context and header descriptors plus rounded-up quotients; the attributes follow the packet's offloads |
| TxPacket.SplitCount | bx_mac_desc.c:560-581 | The splitting loop maps as many pieces as the rounded-up quotient says |
| TxPacket.UsedWithinEstimate | bx_mac_net.c:142-227 | The descriptors really used never exceed those checked for, and without TSO are exactly as many; with TSO the difference is exactly the buffers the header adds to the linear part |
| TxPacket.CeilSumBound | header/bx_mac.h:24-29 | For any buffer size, runs cut separately cost at most one partial buffer each beyond the full buffers of the total |
| TxPacket.EstimateBound | header/bx_mac.h:24-29 | No packet within the kernel's limits, in whatever context, needs more than MAC_TX_MAX_DESC_NR descriptors |
| TxWire.BodyReplay | bx_mac_hw.c:844-1052 | Before the last write, the packet's descriptors are complete but for the OWN bit of the first |
| TxWire.ScriptReplay | bx_mac_hw.c:844-1066 | All the writes of mac_dev_xmit, made to reset descriptors, leave exactly the packet's encoding |
| TxWire.NotYetPublished | bx_mac_hw.c:1054-1066 | However many of the writes have been made, short of all, the first descriptor is still the driver's |
| TxWire.ContextValue | bx_mac_hw.c:847-899 | The writes to a context descriptor leave segment size and tag, each with its valid bit, exactly for those that changed |
| TxWire.FirstValue | bx_mac_hw.c:901-990 | The writes to the first buffer descriptor leave its buffer, the offloads, and OWN only behind a context descriptor |
| TxWire.RestValue | bx_mac_hw.c:992-1033 | The writes to a later descriptor leave its buffer, OWN set, and the checksum mark |
| TxDevice.WireIsIntent | bx_mac_hw.c:901-990 | The descriptor fields carry the packet unchanged if and only if every length is below its field's range |
| TxDevice.DecodeEncode | bx_mac_hw.c:778-1066 | Round trip: a device in step with the driver reads a packet's descriptors back as that packet alone, and is in step afterwards |
| TxDevice.DecodeStream | bx_mac_hw.c:805-815 | Leaving context descriptors out when segment size and tag are unchanged never alters what is sent: any history decodes to its packets in order |
| TxDevice.RunPrefix | bx_mac_hw.c:778-1085 | A device that has read part of the stream has sent a prefix of the packets |
| TxProtocol.RingStep | bx_mac_hw.c:844-1085 | Every single write, device step, index store and reclaim step keeps the ring sound: handed-over entries as meant, the current packet partly written, the rest clear |
| TxProtocol.BlockedAtTail | bx_mac_hw.c:1060-1066 | The device never finds an owned descriptor beyond the last one handed over, not even one lap on |
| TxProtocol.ConsumeKeeps | bx_mac_hw.c:1054-1066 | If the device takes owned descriptors in order and clears OWN, as is assumed of it, what it takes is the next descriptor handed over, complete, and the ring stays sound |
| TxProtocol.ReclaimKeeps | bx_mac_net.c:2439-2466 | A slot found with OWN clear was completed; reclaiming it, as mac_unmap_desc_data does, keeps the ring sound |
| TxProtocol.CanAlwaysWrite | bx_mac_hw.c:844-1066 | The next write of a packet in progress always falls inside the packet's own descriptors |
| TxProtocol.PublishKeeps | bx_mac_hw.c:1054-1066 | The write of the first OWN bit hands over the whole packet at once |
| TxProtocol.OfferKeeps | bx_mac_net.c:2105-2113 | Mapping a packet into the free part of the ring disturbs nothing in use |
| TxProtocol.RefuseKeeps | bx_mac_desc.c:632-638 | A packet given up after some of its pieces were mapped leaves the free part of the ring free, lengths left behind apart |
| TxSafety.InvStep | bx_mac_hw.c:778-1085 | Every step of every party, packets refused and turned away included, keeps ring, history, frame counts, byte accounts, the ledger of mappings and frees, and queue control consistent |
| TxSafety.InvReachable | bx_mac_net.c:2055-2129 | All of it holds in every reachable state, whatever the interleaving, failing mappings included, with the check for space and the stop as two steps |
| TxSafety.WindowInOrder | bx_mac_net.c:2439-2473 | dirty, hw and cur are in order within one ring length; the device passes cur only before cur is stored; outside the window every descriptor is reset and no slot records a buffer or a packet |
| TxSafety.ReclaimsOnlyCompleted | bx_mac_net.c:2439-2466 | No slot is reclaimed before the device has completed it, and it holds what the device read |
| TxSafety.ReclaimResets | bx_mac_desc.c:11-21 | Reclaiming a buffer's slot resets it if and only if the buffer was not mapped at bus address zero |
| TxSafety.MappingsUndone | bx_mac_desc.c:3-56 | Over every run, the mappings undone by the reclaimer are exactly those of the buffers reclaimed, each with its kind and length and in order, if and only if none of them was made at bus address zero |
| TxSafety.MappingsConserved | bx_mac_desc.c:3-56 | Conservation: over every run, each mapping made has been undone once, is recorded in the ring or on the packet being written, or was made at bus address zero for a buffer that is gone |
| TxSafety.PacketsFreed | bx_mac_net.c:2446-2461 | Every packet accepted is freed exactly once, in order, with its last descriptor: accepted are those freed and then those in the ring, where a slot has a packet exactly if it is a last one |
| TxSafety.DeviceReadsPackets | bx_mac_hw.c:778-1075 | What the device has read is a prefix of the encodings of the packets accepted: each descriptor once, complete, in order |
| TxSafety.SentAsAccepted | bx_mac_net.c:2055-2129 | End to end: the packets on the wire are a prefix of those accepted, and all of them once the device has caught up |
| TxSafety.BytesConserved | bx_mac_net.c:2446-2478 | Bytes announced as queued equal bytes reported complete, plus those on last descriptors in the ring, plus those a sender or reclaimer is holding |
| TxSafety.FramesConserved | bx_mac_net.c:2446-2478 | The frames of the packets handed over equal the frames reported complete, plus those on last descriptors in the ring, plus those a reclaimer is holding |
| TxSafety.NeverBusy | bx_mac_net.c:2093-2096 | Whenever the stack may hand over a packet, the ring has room for the worst case: the busy return is dead code |
| TxSafety.StoppedMeansOutstanding | bx_mac_net.c:54-83 | Between polls, a stopped queue has at least seven eighths of the ring outstanding, and its doorbell covers all of it, unless a poll that reclaimed something ended between the check and the stop |
| TxWaking.PollWakes | bx_mac_net.c:2416-2485 | A poll left alone reclaims everything completed up to its limit, and wakes a stopped queue exactly if it reclaimed something and more than the minimum is then free |
| TxWaking.DrainedQueueWakes | bx_mac_net.c:2475-2485 | Once the device has drained a stopped ring, one poll wakes the queue if and only if it finds something to reclaim |
| TxWaking.SlotsRun | bx_mac_net.c:2439-2473 | Any number of completed slots can be reclaimed in a row, with exactly the effect of the loop |
| TxWaking.WakesIff | bx_mac_net.c:2475-2485 | A stopped queue can still be woken if and only if something is left to reclaim or a poll that has reclaimed something is still to look; where it cannot, a poll ended between the check and the stop |
| TxWaking.StopStrands | bx_mac_net.c:63-67 | The stop that follows a check strands the queue for good if and only if by then everything has been reclaimed and no poll that reclaimed something is still to look |
| TxInterrupts.TrailBound | bx_mac_hw.c:825-834 | Every frame waiting for an interrupt accounts for at most 24 descriptors behind the last one marked |
| TxInterrupts.InterruptOutstanding | bx_mac_net.c:54-83 | A stopped queue with no poll missed has a descriptor outstanding that asks for an interrupt, for any frame setting from 1 to 150 |
| TxInterrupts.NeverInterrupts | bx_mac_hw.c:825-828 | With a setting of zero no descriptor ever asks for one |
| TxWitness.InterruptBound | bx_mac_ethtool.c:202-210 | Among the frame settings the driver accepts, exactly those from 1 to 150 make sure that a stopped queue has a completion interrupt coming |
| TxWitness.NoneAsks | bx_mac_hw.c:825-834 | For a setting of zero and every one above 150, a run to a stopped queue none of whose outstanding descriptors asks for an interrupt |
| TxWitness.WorstCaseAttained | header/bx_mac.h:24-29 | A packet within the kernel's limits that needs all of MAC_TX_MAX_DESC_NR descriptors |
| TxWitness.DeviceCanPassCur | bx_mac_hw.c:1060-1075 | From any sound state with a packet being written and the device caught up, a run leads to the device being ahead of cur |
| TxWitness.DeviceGetsAhead | bx_mac_hw.c:1060-1075 | Such a state is reachable: one small packet from the start |
| TxWitness.MappingLost | bx_mac_desc.c:8-21 | A run in which a packet mapped at bus address zero is sent, completed and reclaimed, and its mapping not undone |
| TxWitness.WakeUpLost | bx_mac_net.c:54-83 | A run to a queue stopped for good: full at the check, completed and reclaimed before the stop |
| TxAgreement.LoopReclaims | bx_mac_net.c:2439-2473 | The poll loop reclaims exactly the completed slots, up to its limit, and stops there |
| TxAgreement.PollIsRun | bx_mac_net.c:2416-2497 | mac_tx_poll, undisturbed, is a run of the interleaved machine with the same ring, bytes, frames, mappings, frees and queue state at the end |
| TxAgreement.SendIsRun | bx_mac_hw.c:778-1085 | Sending a packet undisturbed is a run of the machine that leaves its encoding and slots in place, the index moved, the doorbell rung or held back |
| TxAgreement.TransmitIsRun | bx_mac_net.c:2055-2129 | What the contract of TxRing.TxRing.Transmit promises for a packet sent is a run of the machine, from any state its ring may be in: ring, queue, doorbell, counts, bytes and mappings agree |
| TxAgreement.Begin | bx_mac_desc.c:422-459 | A new ring mirrors the state every run of the machine starts from, where all its invariants hold |
| TxAgreement.Send | bx_mac_net.c:2055-2129 | The method for mac_xmit, on a ring in any state of the machine with the queue running, is a run to another such state, whether the packet is sent, turned away or refused and rolled back; only a rollback that was skipped leads out, and the ring is never found busy |
| TxAgreement.Poll | bx_mac_net.c:2416-2497 | The method for mac_tx_poll likewise, undoing the mappings and freeing the packets that the machine undoes and frees |
| TxAgreement.CallsBalance | bx_mac_desc.c:3-56 | For the ring in memory: the mappings made are those undone, those outstanding, and those made at bus address zero for buffers that are gone |
| TxCoalesce.InterruptsAtCrossings | bx_mac_hw.c:825-834 | Below 2^32 frames, a packet is marked if and only if its frames carry the running count across a multiple of the setting |
| TxCoalesce.WrapMarksAnyway | bx_mac_hw.c:825-834 | At the wrap of the counter a packet is marked that crosses no multiple: a concrete count with the default setting |
| TxCoalesce.WrapInterrupts | bx_mac_hw.c:825-834 | Every packet at which the counter wraps is marked |
| TxCoalesce.FewWaiting | bx_mac_hw.c:825-834 | Over any sequence of packets and any number of wraps, fewer frames than the setting ever wait behind the last marked packet |
| TxRing.FreeRunning | bx_mac_net.c:40-45 | Within one ring length, wrapped indices compare and subtract like unwrapped ones |
| TxMapping.SweepRestores | bx_mac_desc.c:632-638 | Releasing the slots mapped so far leaves the packet's slots vacant and every other slot as it was, and undoes every mapping with its kind and length but for those at bus address zero |
| TxMapping.SweepResets | bx_mac_desc.c:11-21 | Slots that were reset are reset again if and only if no piece was mapped at bus address zero |
| TxMapping.RollbackIs | bx_mac_desc.c:632-638 | The sweep, or its being skipped when the index has wrapped, leaves exactly the slots and undoes exactly the mappings of the closed form |
| TxMapping.RollbackLaw | bx_mac_desc.c:632-638 | The rollback undoes everything if and only if nothing was mapped, or its index has not wrapped and no address is zero; no other packet's slot is touched; its own are vacant again unless the index has wrapped, and reset again under the condition for undoing everything |
| TxMapping.RollbackSkipped | bx_mac_desc.c:632-638 | A packet of five pieces at an index four short of 2^32, the fifth refused: four mappings stay |
| TxRing.TxRing.constructor | bx_mac_desc.c:422-459 | A new ring: indices, remembered context, counts, queue state and doorbell zero, nothing mapped or freed, every descriptor and slot reset |
| TxRing.TxRing.Unmap | bx_mac_desc.c:3-56 | A transmit slot released: its mapping undone with its length and kind unless its address is zero, its packet freed, and what is left in the slot |
| TxRing.TxRing.MapPiece | bx_mac_desc.c:540-548 | One DMA mapping, of the piece's length and kind, and its stores; on failure nothing changes |
| TxRing.TxRing.Rollback | bx_mac_desc.c:632-638 | The loop over wrapped indices releases the slots in order if its end has not wrapped, and none otherwise |
| TxRing.TxRing.MapRun | bx_mac_desc.c:560-581 | One contiguous run of bytes is mapped piece by piece, up to its end or the first failure |
| TxRing.TxRing.MapFrags | bx_mac_desc.c:583-613 | Every fragment in turn, up to the first failure |
| TxRing.TxRing.MapPieces | bx_mac_desc.c:532-613 | The slots hold the pieces mapped before the first failure, in order, and nothing else has changed |
| TxRing.TxRing.MapTxSkb | bx_mac_desc.c:502-639 | On success the slots hold the packet's pieces with the packet on the last; on failure every slot and the mappings undone are exactly what the rollback law speaks of; nothing is freed |
| TxRing.TxRing.FillDescriptors | bx_mac_hw.c:844-1048 | Descriptor writes up to the barrier, in the order of the script, OWN of the first not among them |
| TxRing.TxRing.WriteDescriptors | bx_mac_hw.c:844-1066 | The packet's encoding is in place, other descriptors untouched, its counts saved on the last slot |
| TxRing.TxRing.Decide | bx_mac_hw.c:805-834 | A context descriptor exactly for a segment size or a tag the device was not last told; the interrupt by the running frame count |
| TxRing.TxRing.Announce | bx_mac_hw.c:1075-1079 | The index moved past the packet; the doorbell rung at it, or untouched and the packet left to a later one |
| TxRing.TxRing.DevXmit | bx_mac_hw.c:778-1085 | A mapped packet becomes its encoding; index, counts, remembered context and doorbell as they must be; other entries untouched |
| TxRing.TxRing.MaybeStop | bx_mac_net.c:54-83 | Stops exactly if the true number of free descriptors is too small, then ringing a doorbell that was held back and no other; otherwise nothing changes |
| TxRing.TxRing.StartXmit | bx_mac_hw.c:714-776 | The tail pointer covers everything up to cur and nothing is held back |
| TxRing.TxRing.ReclaimSlot | bx_mac_net.c:2441-2469 | One slot reclaimed: counted if last, mapping undone, packet freed, descriptor and slot reset |
| TxRing.TxRing.ReclaimSlots | bx_mac_net.c:2439-2473 | The loop's totals and calls are those of the slots reclaimed, one after the other |
| TxRing.TxRing.TxPoll | bx_mac_net.c:2416-2497 | Ring, bytes and frames reported, mappings undone and packets freed for exactly the completed slots up to the limit, whatever their addresses; woken only with more than the minimum free |
| TxRing.TxRing.Screen | bx_mac_net.c:2066-2103 | Which packets are turned away, in which order of checks, which of those are freed, and that only a busy ring touches the queue |
| TxRing.TxRing.MapOrFree | bx_mac_net.c:2107-2110 | A packet that cannot be mapped is freed exactly once, and slots, mappings made and mappings undone are exactly as the rollback leaves them |
| TxRing.TxRing.Dispatch | bx_mac_net.c:2112-2119 | The bytes announced are those saved for completion; the encoding is handed over; the doorbell is rung or held back; `TxFrames.SentOnWire` says what this is in the packet's own terms |
| TxRing.TxRing.Transmit | bx_mac_net.c:2055-2129 | What becomes of every packet, and of the queue, in every case: freed exactly if empty, unwritable or unmappable; left alone if the link is down or the ring full; else handed over complete, with room for any next packet or the queue stopped. After a failed mapping every slot is given; nothing is recorded outside the window unless a rollback was skipped |
| TxFrames.OnTheWireIs | bx_mac_net.c:120-124 | A payload cut into segments, each behind a copy of the header, takes the payload and as many headers as segments, however it is cut |
| TxFrames.PayloadIs | bx_mac_net.c:110-114 | The payload of a packet to be segmented is the summed length of every piece after the header, and with the header the packet's length |
| TxFrames.BytesAre | bx_mac_net.c:120-124 | The bytes announced are, modulo 2^32, those of the frames on the wire: for any segment payloads, as many as gso_segs, adding up to the payload, each behind the header; without TSO the packet's length |
| TxFrames.PacketFields | bx_mac_net.c:85-127 | What mac_dev_xmit is given, field by field, from the packet's own: offloads, tag, segment size, payload, frames, buffers |
| TxFrames.FrameIs | bx_mac_hw.c:916-990 | The frame the device makes of it: the pieces at the addresses mapped, the packet's tag and checksum request, and with TSO its segment size, TCP header words and payload; each cut to its field |
| TxFrames.LastSlot | bx_mac_hw.c:1050-1052 | The last slot of a packet sent keeps the packet, its number of frames and the bytes by which the queue's count rose, which are those on the wire |
| TxFrames.SentOnWire | bx_mac_net.c:2055-2129 | End to end: a packet sent by mac_xmit becomes, for a device in step, exactly one frame, which is the packet, with payload and header adding up to its length; a context descriptor only where segment size or tag is new; the bytes announced and kept for completion are those of the frames on the wire |
| RxPages.ReleaseIsSafe | bx_mac_desc.c:25-43 | Whatever an entry holds, its page still counts: no double put, no double unmap |
| RxPages.ReleaseBooks | bx_mac_desc.c:25-43 | Emptying an entry keeps every page's references and mapping accounted for |
| RxPages.CarveBooks | bx_mac_desc.c:362-386 | Cutting a slice, the last one taking over the ring's hold, keeps the books |
| RxPages.RefillBooks | bx_mac_desc.c:325-360 | A new page enters the books held and mapped by the ring alone |
| RxPages.TakeBooks | bx_mac_net.c:2406-2410 | An entry's reference handed to a packet keeps the books |
| RxPages.DropFragBooks | bx_mac_net.c:2644-2650 | A packet giving a page back keeps the books, and the reference was there |
| RxPages.FreeSlots | bx_mac_desc.c:69-74 | Entries released in any state of the ring, one after the other: all blank afterwards, the packets' pages theirs |
| RxPages.FreeRing | bx_mac_desc.c:58-109 | After teardown every page is unmapped and held by packets alone: no leak, nothing put twice |
| RxRing.PagesAscend | bx_mac_desc.c:362-386 | Along the ring, entries come from the same page or a newer one; past a page's last slice, only newer |
| RxRing.SlicesDisjoint | bx_mac_desc.c:362-386 | Slices of one page never overlap |
| RxRing.LiveIsMapped | bx_mac_desc.c:362-386 | Every live entry's page is mapped: who unmaps it comes no earlier in the ring |
| RxProtocol.Step | bx_mac_net.c:2341-2353 | Every step of device, reader and refresher keeps order, ownership, slices and books consistent |
| RxProtocol.StartInv | bx_mac_desc.c:461-500 | So does building the ring, for any page sizes the allocator gives |
| RxProtocol.InvReachable | bx_mac_net.c:2328-2365 | It holds in every reachable state of a ring with a fixed buffer size, failing allocations included |
| RxProtocol.BuffersSafe | bx_mac_desc.c:362-420 | Both buffers of every entry that the device owns or the driver has yet to read lie inside a page that is mapped, alive and referenced by that entry |
| RxProtocol.DeviceWritesSafely | bx_mac_hw.c:1193-1220 | What the device completes next is one of those entries |
| RxProtocol.BuffersDisjoint | bx_mac_desc.c:362-386 | No two live entries share a byte |
| RxProtocol.UnmapsLast | bx_mac_desc.c:25-43 | In both lanes, the entry that unmaps a page is the last live one cut from it |
| RxProtocol.PagesUsedUp | bx_mac_desc.c:374-385 | In both lanes, an entry unmaps its page if and only if no further slice fits behind its own |
| RxProtocol.ReferencesAddUp | bx_mac_desc.c:325-386 | In both lanes, a page's references are the ring's hold, the entries' holds of both kinds and the packets'; refreshing the next entry is always possible, and freeing a packet's fragment exactly while one is left |
| RxProtocol.ClearOwnMeansFresh | bx_mac_hw.c:2782-2786 | OWN clear means completed if and only if the reader is less than a ring ahead of the refresher |
| RxProtocol.EntryLost | bx_mac_net.c:2341-2350 | After a failed refresh, the entry the reader is at has lost its buffers if and only if the reader is a whole ring ahead |
| RxProtocol.StaleEntry | bx_mac_net.c:2598-2601 | From every start there is a run, with a failing refresh before every read that calls for one, to the reader finding OWN clear on an entry it has read before and that has no page left |
| RxPackets.AddedIs | bx_mac_net.c:2625-2652 | Adding one descriptor as the loop does gives the closed form for one descriptor more |
| RxPackets.DeliveredLength | bx_mac_net.c:2626-2628 | A delivered packet is as long as its last descriptor says, within the limit; its parts add up to that in 32-bit arithmetic, and exactly if lengths only grow and headers lie inside the data |
| RxContents.PartsInside | bx_mac_net.c:2367-2414 | Every part stays inside its buffer, in ring order, and no buffer is used twice |
| RxContents.BytesDelivered | bx_mac_net.c:2367-2414 | Where the device puts the header of a packet it splits, or all it can, into the header buffer and the rest into payload buffers, the parts of a delivered packet, read in order, are exactly bytes 0 to its length: none lost, repeated or never written |
| RxContents.DeliveredAs | bx_mac_net.c:2612-2707 | Delivered if and only if it has data, a buffer could be had for the first of it, its length is within MTU plus Ethernet header and its last descriptor reports no error but a checksum's; checksum, tag and hash follow the last descriptor and the last hash seen |
| RxContents.DeliveredInOrder | bx_mac_net.c:2500-2725 | Of whatever whole packets the device completes, the stack is given exactly those that are delivered, in order, and nothing of one that has only begun |
| RxPackets.PayloadTaken | bx_mac_net.c:2406-2410 | An entry's page changes hands if and only if the packet gets a payload part from it |
| RxPackets.ReadInfoIs | bx_mac_hw.c:2767-2945 | The attributes accumulated over a packet are those of its last descriptor and of the last hash seen |
| RxPackets.VerdictIs | bx_mac_net.c:2616-2669 | The last descriptor decides: dropped for an error, a missing buffer or its length, without any allowance for a tag; delivered otherwise |
| RxPackets.TaggedFrameDropped | bx_mac_net.c:2660-2669 | A frame longer than the limit by at most the allowance is dropped, although it would be delivered if its protocol were known |
| RxBuffers.BlockSizes | bx_mac_desc.c:331-357 | A header page is always 4096 bytes; a payload block is 16384, 8192 or 4096 exactly if 2, 1 or 0 is the largest order free |
| RxBuffers.Slices.AllocPages | bx_mac_desc.c:325-360 | The largest free block, no larger than asked for, the page recorded being 4096 bytes, or 4096, 8192 or 16384 for a payload, as its order says; given back if it cannot be mapped |
| RxBuffers.Slices.SetBufferData | bx_mac_desc.c:362-386 | One slice cut, as the model of pages says; the last one of a page ends it |
| RxBuffers.Slices.UnmapDescData | bx_mac_desc.c:25-43 | One entry released: holds put, page unmapped by its last entry |
| RxBuffers.Slices.HandOver | bx_mac_net.c:2644-2650 | The entry's reference becomes the packet's |
| RxBuffers.Slices.Free | bx_mac_desc.c:58-109 | Teardown in any state: nothing mapped, only packets keep pages |
| RxBuffers.MapRxBuffer | bx_mac_desc.c:388-420 | Both slices or neither; a header page obtained stays |
| RxRefresh.StartIs | bx_mac_desc.c:461-500 | What the constructor builds is the state every run starts from |
| RxRefresh.MapAll | bx_mac_desc.c:483-493 | Every entry gets its two slices, in order |
| RxRefresh.BufferRing.constructor | bx_mac_desc.c:461-500 | The ring as built: every entry filled, owned by the device, nothing saved |
| RxRefresh.BufferRing.Empty | bx_mac_net.c:2342-2345 | The next entry emptied, saved state included |
| RxRefresh.BufferRing.Map | bx_mac_desc.c:388-420 | Its slices cut, or the entry left blank |
| RxRefresh.BufferRing.Give | bx_mac_hw.c:1166-1224 | OWN set last |
| RxRefresh.BufferRing.RefreshOne | bx_mac_net.c:2341-2354 | One pass is a run of the protocol; it fails only for want of a page |
| RxRefresh.BufferRing.Refresh | bx_mac_net.c:2328-2365 | Catches up with the reader, or stops at the first entry without page and leaves that one blank; the tail pointer follows |
| RxRefresh.BufferRing.Consume | bx_mac_net.c:2607-2650 | Stepping past a completed entry is the protocol's read step |
| RxRefresh.BufferRing.Busy | bx_mac_hw.c:2782-2786 | Less than a ring ahead, OWN is set exactly if everything completed has been read |
| RxPoll.Refreshed | bx_mac_net.c:2341-2354 | Refreshing, however far it gets, never touches the entry a packet in progress is saved in |
| RxPoll.PollQueue.CreateSkb | bx_mac_net.c:2367-2414 | From the header buffer the reported header, or with none reported the data, up to 512 bytes; the rest stays in the payload buffer |
| RxPoll.PollQueue.AddData | bx_mac_net.c:2625-2652 | A descriptor's data joins the packet, and whether the page does |
| RxPoll.PollQueue.ReadAttributes | bx_mac_hw.c:2767-2945 | mac_dev_read's effect on the packet's attributes |
| RxPoll.PollQueue.Finish | bx_mac_net.c:2657-2707 | Delivered, unless there is no buffer or it is too long |
| RxPoll.PollQueue.ReadDesc | bx_mac_net.c:2601-2713 | One descriptor: what has been delivered is still what the descriptors read stand for, the loop's variables still the packet in progress; the ring takes exactly one protocol step |
| RxPoll.PollQueue.Tidy | bx_mac_net.c:2598-2599 | The ring is refreshed once more than the allowed number of entries is used up; with every allocation succeeding no more are ever used up |
| RxPoll.PollQueue.ReadPacket | bx_mac_net.c:2593-2713 | Reads up to the end of a packet or of what has been completed, whichever allocations fail, while the ring lasts |
| RxPoll.PollQueue.Restore | bx_mac_net.c:2575-2590 | A packet resumes with the variables it was saved with; a new one starts clean |
| RxPoll.PollQueue.Save | bx_mac_net.c:2716-2723 | A packet in progress is saved in the entry read next |
| RxPoll.PollQueue.Poll | bx_mac_net.c:2500-2725 | However the stream is cut into polls and budgets, and whichever page allocations fail, what is delivered is a function of the descriptors read until the reader is a whole ring ahead; a poll short of its budget has read them all; with every allocation succeeding the entries used up stay within the limit |
| PollLoop.Turn | bx_mac_net.c:2781-2789 | One ring's turn counts its packets within its share; short of it the ring is read to its end as of then; meanwhile every ring's device goes on |
| PollLoop.OnePass | bx_mac_net.c:2779-2789 | A pass never exceeds the budget, every ring gets the quota or less only if read to its end or nothing is left; one that brings nothing with shares left has read every ring to its end as of its own turn |
| PollLoop.AllPoll | bx_mac_net.c:2766-2816 | Ends; at most the budget; in every pass each ring gets an equal share of the budget, less only if it was read to its end or the budget is used up, and every pass but the last brings something; a result short of the budget means that in the last pass every mac_rx_poll returned 0 with its ring read to the end as of then; with fewer than one packet per ring nothing is read |
| PollLoop.CaughtUp | bx_mac_net.c:2778-2790 | So everything completed before the call has been read, and a ring is drained at return if and only if nothing was completed on it since its last turn |
| PollLoop.LateArrival | bx_mac_net.c:2778-2790 | Such a pass over two rings, both polls returning 0 and a completion reaching the first during the second's turn: the call ends short of its budget with a ring not drained |
| SearchTree.Narrowed | bx_roce_driver/bxroce_pool.c:211-224 | An element with the index looked for can only be where the descent leads |
| SearchTree.LinkAdds | bx_roce_driver/bxroce_pool.c:226 | Linking where the descent ended adds one element and keeps the order |
| SearchTree.Lookup | bx_roce_driver/bxroce_pool.c:384-399 | Finds an element with the index if and only if there is one |
| SearchTree.Insert | bx_roce_driver/bxroce_pool.c:204-231 | Adds the element, or nothing if its index is taken |
| SearchTree.CutRemoves | bx_roce_driver/bxroce_pool.c:302-312 | Cutting an element out keeps the order and every other element |
| SearchTree.Erase | bx_roce_driver/bxroce_pool.c:302-312 | Removes exactly that element; the shape left is any |
| Pool.FreeBit | bx_roce_driver/bxroce_pool.c:187-202 | Fewer holders than bits leave a bit free |
| Pool.FitIs | bx_roce_driver/bxroce_pool.c:191-198 | Next fit: the first free bit from the last one taken on; only with none there an earlier one, the first free of all |
| Pool.RoomLeft | bx_roce_driver/bxroce_pool.c:187-202 | While an element awaits its index, a bit is free |
| Pool.IndexFree | bx_roce_driver/bxroce_pool.c:204-231 | No element has the index of a free bit |
| Pool.Init | bx_roce_driver/bxroce_pool.c:118-158 | Refused exactly for too few indices, counted in 32 bits, or no memory; otherwise an empty pool of just those indices and that limit |
| Pool.ElemPool.Put | bx_roce_driver/bxroce_pool.c:160-171 | The bitmap is freed with the last reference, not before |
| Pool.ElemPool.Alloc | bx_roce_driver/bxroce_pool.c:314-358 | Succeeds if and only if the pool is valid, below its limit and memory there; otherwise both counts are as before |
| Pool.ElemPool.FindZero | bx_roce_driver/bxroce_pool.c:194-196 | The first free bit from a given one on |
| Pool.ElemPool.AllocIndex | bx_roce_driver/bxroce_pool.c:187-202 | With a bit free, next fit takes one of the bitmap's own, the first free from the last one taken on or else the first of all, and the warning cannot appear |
| Pool.ElemPool.AddIndex | bx_roce_driver/bxroce_pool.c:287-300 | Bitmap, tree and holders agree afterwards; neither the warning nor the branch for an existing element is reachable |
| Pool.ElemPool.DropIndex | bx_roce_driver/bxroce_pool.c:302-312 | The element's own bit is cleared and the element cannot be found, but lives |
| Pool.ElemPool.DropRef | bx_roce_driver/bxroce_pool.c:360-373 | Released exactly at the last reference; count, references, bitmap and tree still agree |
| Pool.ElemPool.GetIndex | bx_roce_driver/bxroce_pool.c:375-405 | Found, and held once more, if and only if some element has the index and the pool is valid |
| Pool.ElemPool.Cleanup | bx_roce_driver/bxroce_pool.c:173-185 | Warns exactly if elements are left; the bitmap outlives the pool for as long as they do |
| Pool.KeysCollide | bx_roce_driver/bxroce_pool.c:460-476 | A region's key is the tag in its low byte below 24 bits of the index; so keys collide if and only if the indices agree in 24 bits and the tags agree |
| PoolCalls.InvRun | bx_roce_driver/bxroce_pool.c:314-373 | Over every interleaving of unlocked calls, the counts are the elements plus the calls in progress |
| PoolCalls.Overlapping | bx_roce_driver/bxroce_pool.c:314-373 | Never more elements than allowed; the count exact at rest; no reference put that is not there; the last one gone only when nothing is in use |
| PoolCalls.CallsGoOn | bx_roce_driver/bxroce_pool.c:314-373 | Over every interleaving, each call in progress can take its next step: no count or reference it needs is ever missing |
| PoolCalls.BitsHeld | bx_roce_driver/bxroce_pool.c:187-202 | Over every interleaving, a bit of the bitmap is set if and only if it has been given to an element and not taken back since |
| PoolCalls.RefusedIff | bx_roce_driver/bxroce_pool.c:330-336 | Over every interleaving, an allocation is refused if and only if elements, grants, refusals and releases under way fill the limit; with no refusal or release under way, if and only if elements and grants do |
| PoolCalls.IndexToSpare | bx_roce_driver/bxroce_pool.c:187-202 | Over every interleaving, when an element is due an index fewer bits are set than elements allowed, and one of that many first bits is free |
| PoolCalls.RefusedWithRoom | bx_roce_driver/bxroce_pool.c:340-373 | A run in which an allocation is refused although no element is alive |
| LinkState.StepInv | bx_mac_net.c:1198-1310 | Every tick, whatever the hardware reports, keeps: enable bit equals an_start, flags exclusive as required, every counter below its limit |
| LinkState.RunInv | bx_mac_net.c:1198-1310 | It holds after every run |
| LinkSafety.SilenceEnds | bx_mac_net.c:1278-1282 | Without interrupts an attempt lasts exactly until the check counter reaches its limit |
| LinkSafety.PagesEnd | bx_pcs.c:1345-1373 | A partner asking for pages ends the attempt with exactly the 50th; the pages answered are first, second, then null ones |
| LinkSafety.AttemptBound | bx_mac_net.c:1230-1283 | Whatever the mixture of silence and pages, an attempt is over or has led to training in fewer than 50 times 10000 ticks |
| LinkSafety.TriesAgain | bx_mac_net.c:1232-1233 | An attempt that ended unsettled is followed by another on the next tick, from clean counters |
| LinkSafety.SettledUntilDown | bx_mac_net.c:1198-1310 | A settled link is left alone if and only if it is never found down three times in a row |
| LinkSafety.ThirdDown | bx_mac_net.c:1247-1267 | The third time in a row starts over |
| LinkSafety.CanSettle | bx_pcs.c:1671-1708 | A port can ever settle if and only if it negotiates and either skips training or can train on some lane |
| LinkSafety.UncountedPage | bx_pcs.c:1345-1373 | In any attempt under way, a page interrupt changes nothing but the check counter if and only if training has an outcome that this tick does not forget |
| LinkSafety.PagesForEver | bx_pcs.c:1345-1373 | So pages alone keep an attempt going, uncounted, if and only if the link is never found down three times in a row |
| LinkSafety.CanLinger | bx_pcs.c:1345-1373 | A port can get into an attempt that goes on after training had its outcome if and only if it negotiates, does not skip training, and either may not train or can train on some lane |
| LinkSafety.TrainingWaits | bx_pcs.c:1711-1781 | Training goes on exactly as long as no enabled lane reports success or failure |
| LinkSafety.TrainingTick | bx_pcs.c:1711-1781 | Its end records success and failure each if and only if some enabled lane shows it |
| LinkSafety.OneLaneIsEnough | bx_pcs.c:1313-1342 | With one lane trained and another failed, the next completion settles the port |
| LinkTicks.LinkFollowed | bx_mac_net.c:1215-1267 | Every tick follows the link and counts how often in a row it was down, up to three |
| LinkTicks.LeftAlone | bx_mac_net.c:1215-1231 | A port that does not negotiate, or has settled and is not found down for the third time in a row, changes nothing else and polls slowly once up |
| LinkTicks.AttemptBegins | bx_pcs.c:1085-1128 | With nothing under way an attempt begins from clean state with the fast timer |
| LinkTicks.TrainingWatched | bx_pcs.c:1711-1781 | Training ends with the first enabled lane that reports success, value 1, or failure, bit 3, recording which were seen; the attempt is left alone |
| LinkTicks.SilenceCounted | bx_mac_net.c:1276-1283 | A tick without interrupts adds one to the check counter; the 10000th gives the attempt up with the slow timer |
| LinkTicks.SettlesAtOnce | bx_mac_net.c:1243-1255 | Where training is skipped any interrupt settles the port, for a random time of 1 to 100000 |
| LinkTicks.CompletionEnds | bx_pcs.c:1313-1342 | A completion after training has succeeded or failed ends the attempt; the port has settled if and only if it succeeded |
| LinkTicks.FailureTriesAgain | bx_pcs.c:1313-1342 | So if it only failed, the tick after that begins a new attempt with nothing left of the old but the last page written |
| LinkTicks.CompletionTrains | bx_pcs.c:1313-1342 | A completion before that starts training, which where it is not enabled has failed at once |
| LinkTicks.IncompatibleEnds | bx_pcs.c:1299-1310 | A partner of another speed ends the attempt for a random time, or the fast timer if a page comes with it |
| LinkTicks.IncompatiblePage | bx_pcs.c:1299-1373 | A page that comes with it is still answered, and is the first one counted |
| LinkTicks.PageIgnored | bx_pcs.c:1345-1373 | Once training has an outcome a page only resets the check counter and sets the fast timer |
| LinkTicks.PageAnswered | bx_pcs.c:1345-1508 | Before that a page is answered with the first page, the second or a null one while either side has more to say, and starts training when neither has; the 50th ends the attempt |
| LinkTicks.Locked | bx_mac_net.c:1188-1195 | The lock timer gives the attempt up and leaves everything else |
| LinkDriver.Port.AnDisable | bx_pcs.c:973-995 | The enable bit and the attempt's counters cleared, other register bits kept |
| LinkDriver.Port.AnStart | bx_pcs.c:1085-1128 | An attempt begins from clean state, its two register bits set and no other changed |
| LinkDriver.Port.AnTimeout | bx_pcs.c:1289-1296 | The attempt is given up until the slow timer |
| LinkDriver.Port.AnIncLink | bx_pcs.c:1299-1310 | The attempt is given up for a random time |
| LinkDriver.Port.KrtStart | bx_pcs.c:1671-1708 | Training begins once, or fails at once where it is not enabled |
| LinkDriver.Port.AnIntCmpl | bx_pcs.c:1313-1342 | Completion settles negotiation after training, and starts training before |
| LinkDriver.Port.AnNxpCheck | bx_pcs.c:1376-1508 | Which page is answered with, and when training begins instead |
| LinkDriver.Port.AnPgRcv | bx_pcs.c:1345-1373 | Pages counted only before training; the last one allowed ends the attempt |
| LinkDriver.Port.KrtCheckState | bx_pcs.c:1711-1781 | The four lanes' status as coded is some lane done, some lane failed |
| LinkDriver.Port.Sample | bx_mac_net.c:1206-1213 | Up if and only if one of four samples is |
| LinkDriver.Port.CheckLink | bx_mac_net.c:1215-1267 | Link state and down counter; the third miss forgets the outcome |
| LinkDriver.Port.Attend | bx_mac_net.c:1240-1283 | Interrupts handled in order, or silence counted |
| LinkDriver.Port.CheckTimer | bx_mac_net.c:1198-1310 | The timer function performs the transition and keeps the invariant |
| LinkDriver.Port.RestartLockTimer | bx_mac_net.c:1188-1195 | So does the lock timer |
| BitFields.SetBits | bx_rnic_com.c:18-51 | Shifting the parts out of the way and back replaces exactly the field, whichever order the two indices come in |
| BitFields.GetBits | bx_rnic_com.c:54-74 | Two shifts read exactly the field, whichever order |
| BitFields.SameFields | header/bx_mac.h:87-107 | The functions and the masking macros agree on every word, field and value |
| BitFields.GetAfterPut | bx_rnic_com.c:18-74 | Reading back gives the value written, cut to the field |
| BitFields.GetElsewhere | bx_rnic_com.c:18-74 | Other fields read as before |
| BitFields.PutTwice | bx_rnic_com.c:18-74 | Writing back what was read changes nothing; the later of two writes wins |
| BitFields.PutsCommute | bx_rnic_com.c:18-74 | Separate fields may be written in either order |
| QueueMap.FairShares | bx_mac_hw.c:1646-1682 | Dealing n into k blocks: everyone in exactly one, blocks contiguous and in order, sizes differing by at most one |
| QueueMap.AllDealt | bx_mac_hw.c:1646-1682 | Nothing is left over |
| QueueMap.MapTx | bx_mac_hw.c:1646-1682 | Every transmit queue is written once, with the class whose block it is in |
| QueueMap.MaskOf | bx_mac_hw.c:1694-1707 | A receive queue's mask is exactly its block of priorities |
| QueueMap.MapRx | bx_mac_hw.c:1684-1714 | The registers written: each priority in exactly one lane, of a queue that exists; with at most 8 queues each has its share, contiguous, in order and within one of any other's; with more, priority p goes to queue p |
| QueueMap.LaneIs | bx_mac_hw.c:1684-1714 | A lane of the registers has a priority set if and only if it is the queue's whose block holds it |
| QueueMap.PrioritiesOnce | bx_mac_hw.c:1684-1714 | Every priority is set in exactly one lane of all the registers, that of a receive queue that exists |
| Common.WordRing | header/bx_mac.h:81-85 | The ring position of a wrapped index is that of the unwrapped one |
| Common.WordDist | bx_mac_net.c:47-52 | Indices less than 2^32 apart compare and subtract like unwrapped ones |

## Left out

Assumptions and weaker statements, by member:

- TxRing.TxRing.MapTxSkb: requires a packet within the kernel's limits (17 fragments, 65536 bytes, TSO header inside the linear data, 16-bit segment count) and vacant slots ahead, which `mac_xmit` and the ring invariant provide.
- TxRing.TxRing.Transmit: after a rollback that was skipped the ring is no longer `Clean`, because slots beyond `cur` stay filled; what every slot holds is still given. The link-down return leaves the packet with the caller, neither freed nor queued, as the code does.
- TxRing.TxRing.StartXmit: the transmit timer and the statistics the code keeps there are not modelled.
- TxAgreement.Send: says nothing of the machine after a rollback that was skipped, which leaves slots recorded outside the window; what the ring holds then is in `TxRing.TxRing.Transmit`.
- TxProtocol.ConsumeKeeps: the device's own step is an assumption: it takes owned descriptors in ring order, clears OWN and leaves the rest alone.
- TxSafety.BytesConserved: the counts are unbounded; those of the driver and the stack are 32-bit, so that the equation holds of them modulo 2^32.
- TxSafety.FramesConserved: likewise unbounded. The driver announces no frame count when it queues a packet, so the count is balanced against the packets handed over.
- TxFrames.SentOnWire: the pieces' lengths, the segment size and the TCP header's words are given as cut to their descriptor fields; exactly when nothing is cut is `TxDevice.WireIsIntent`. How a device divides the payload into segments is left to it, up to their number and their sum.
- TxInterrupts.InterruptOutstanding: between polls, and where no poll ended between the check and the stop. One setting throughout; a change of `tx_frames` while packets are outstanding is not modelled.
- TxSafety.StoppedMeansOutstanding: not where a poll that reclaimed something ended between the check and the stop; there it is false (`TxWitness.WakeUpLost`).
- TxSafety.InvReachable: mapping a packet, or taking it back, is one step, as it writes only slots nobody else reads; so is the end of a poll, which looks for a stopped queue once. Runs end where a rollback is skipped.
- TxWaking.DrainedQueueWakes: the device may consume any descriptor it owns, doorbell or not; that it eventually does is not modelled.
- TxDevice.DecodeStream: how the device reads descriptors is inferred from the fields the driver writes: a valid bit latches a value that later packets use, FD and LD delimit a packet.
- RxProtocol.InvReachable: one fixed buffer size; a change of the MTU between cuts is not modelled. Runs end where the reader is a whole ring ahead, where the code would read on.
- RxRefresh.BufferRing.constructor: every allocation succeeds; `mac_rx_desc_init` gives up in the middle when one fails, leaving the later entries without descriptor pointers, and the ring it leaves is not modelled.
- RxRefresh.MapAll: likewise.
- RxPoll.PollQueue.Poll: ends where the reader is a whole ring ahead (what the code does then is `RxProtocol.EntryLost` and `RxProtocol.StaleEntry`), and there are no context descriptors. Packets are not freed again here; that is a step of `RxProtocol`.
- RxPackets.DeliveredLength: that the parts add up to the length exactly, and not just modulo 2^32, for descriptors whose lengths do not shrink and whose headers lie inside the data, as the device promises.
- RxContents.BytesDelivered: assumes of the device what `Confined` says: descriptor lengths do not shrink, a header it splits off lies inside the data and the header buffer, and data fits the buffers given.
- PollLoop.AllPoll: the transmit polls between the receive polls are left out, every channel has a receive ring, and the call is given up when a ring is used up. The devices' completions during a turn are placed after the turn's own poll, with which the other rings share nothing.
- Pool.ElemPool.DropRef: requires that an element gives up its index before its last reference, as every release in bx_roce_driver/bxroce_verbs.c (2877-2879, 2928-2930, 2971-2973, 3006-3008) does.
- PoolCalls.InvRun: counts and the set of bits only; which element holds which bit, and the tree, which the lock protects, are in `Pool.ElemPool`.
- SearchTree.Insert: rebalancing is any reshaping that keeps elements and order; the red-black code is the kernel's.
- SearchTree.Erase: the same; the element is cut out of an ordered tree and the result reshaped.
- QueueMap.MapTx: a class number is not cut to the three bits of its register field.
- BitFields.SetBits: indices above 31, for which the code only prints a message, are excluded.
- BitFields.GetBits: likewise.
- LinkState.RunInv: port 0 only; interrupt, page, lane and sample values are arbitrary inputs. The lock timer, which the code never arms, is an event that may happen at any time.

Not modelled:

- Address and VLAN filters (`mac_set_mac_addn_addrs`, `mac_set_mac_hash_table`, `mac_vid_crc32_le`, `mac_update_vlan_hash_table`): single loops over independent entries.
- The one-to-one mapping of receive queues to DMA channels: constants.
- Register programming, reset and busy-wait loops, the KR training registers, interrupt handlers, NAPI, ethtool, ioctl and printing.
- Timestamps: the PTP attribute, context descriptors on receive.
- The type of a receive hash, page contents, and the limit on fragments of a received packet.
- Freeing a ring with a packet saved in an entry drops that packet without freeing it; the packet objects themselves are outside the model.
- `bxroce_add_key` and the key pools, and the generator behind `bxroce_get_key`.
- The RoCE send and receive queues: their tail update re-marks any queue with equal indices as empty, so no free-space law holds of them.
- Port 1 of the link code.
