# Verified models of the SCULL driver collection

The repository is a set of small Linux and DPDK driver skeletons. This project models the parts that
carry state and proves what they keep over every run, not only over one call:

- **NIC transmit ring** (`network/nic.c`): `NicTransmit.dfy` is a transition system over the 128-slot ring,
  the wrap-around indices, the NULL-marked slots and the DMA mappings; `NicTxDriver.dfy` is the in-place code,
  proved to take exactly its steps.
- **NIC interrupts and NAPI** (`network/nic.c`): `NicInterrupt.dfy` interleaves arrivals, sent reports, any
  number of overlapping handler activations and the poll loop; `NicPoll.dfy` is the loop itself; `NicSystem.dfy`
  runs the interrupt side and the transmit ring together.
- **DMA device** (`dma_kernel_with_peripheral/driver.c`): `DmaProtocol.dfy` interleaves hardware completions,
  overlapping handler activations, the tasklet and the remove function; `DmaDevice.dfy` has the registers and
  the simulated transfer.
- **scull** (`util.c`, `main.c`): `ScullMemory.dfy` is an explicit heap, `ScullDriver.dfy` the in-place trim and
  open, `ScullOpens.dfy` any sequence of opens over several devices sharing that heap.
- **DPDK rings** (`network/dpdk/pmd.c`): `PmdRings.dfy` and `PmdBurst.dfy`.
- **Probe, rollback, remove**: `Ledger.dfy` is the general probe (calls, then labels to fall through) with its
  unwinding theorem, `PciResources.dfy` the resources and call lists of the three PCI drivers. `Fleet.dfy` is any
  number of devices under a driver that stores its handles per device, and `PciDrivers.dfy` the NIC and DMA probe
  and remove functions, proved to be its steps. `StaticFleet.dfy` and `PcieDriver.dfy` do the same for the PCIe
  driver with its static variables.
- **DMA user example** (`dma_user/`): `DmaUser.dfy`.

`dafny verify dfyconfig.toml` checks everything.

## Properties that do not hold, and exactly when they do

- The transmit function never tests for a full ring (`network/nic.c:209` is only a comment). Every packet is
  accounted for in exactly the runs where no transmit found 128 packets outstanding; otherwise the oldest packet
  and its mapping are leaked in every continuation. `NicTransmit.OverflowHappens` gives such a run.
- Transmit maps `skb_headlen` bytes and unmaps `skb->len`. All unmaps match exactly when the freed packets are
  linear; `NicTransmit.MismatchHappens` gives a run for every non-linear packet.
- A failed skb allocation ends the poll with packets waiting. They are stranded until the next arrival exactly
  when no further interrupt was raised, owed or remembered at that moment; no other step strands packets.
  `NicInterrupt.StrandingHappens` gives the run.
- The DMA probe accepts interrupt line 0 and the remove function skips it. Teardown of a device is free of use
  after release exactly when its line is above zero, and over any number of devices the books are exact exactly
  when no device on line 0 was removed (`DmaProtocol.LineZeroFaults`, `Fleet.LineZeroLeaks`).
- The error branch of the simulated transfer overwrites the status register. No run loses a completion exactly
  when the programmed length fits the buffer. The probe programs the size of its buffer, so the driver's own runs
  lose nothing; for every longer length `DmaProtocol.RefusedTransferLoses` gives a run that does.
- The PCIe driver keeps `mmio_base` and `irq_line` in static variables. The right resources are held exactly when
  every remove found the statics still describing its device. Once two devices are bound, every continuation that
  removes both ends wrong; `StaticFleet.SecondProbeBreaksFirst` gives the shortest failing run.
- The network driver requests its interrupt before it adds the NAPI context that the handler schedules
  (`network/nic.c:106-114`). This is the only pair that any of the three probes takes in the wrong order.
- The DMA handler writes back the status word it read. Bits set between its read and its write are overwritten in
  every run (`DmaProtocol.AckWritesWhatWasRead`); the completion itself is still served.
- PMD queues are allocated with `nb_desc` entries and wrapped modulo 1024. A run of bursts stays in bounds exactly
  when `nb_desc` is at least 1024 or the run moves at most `nb_desc` packets.
- The user program expects to read its text reversed (comment at `dma_user/user_app.c:67`). It always reads the
  empty string, which is the reversed text exactly when the text is empty.

## Contracts assumed of the environment

- NIC: transmits are serialised by the queue; a packet is handed over once; `dma_map_single` returns an address
  that is not currently mapped; each locked region is one step; the status register is write-one-to-clear;
  `napi_schedule` on a scheduled context is remembered and honoured by `napi_complete_done`. The loop tests that
  are comments in the source are the model's queues.
- DMA device: `tasklet_schedule` coalesces, the pending flag clears when a run starts, `free_irq` stops deliveries
  and waits for running handlers, `tasklet_kill` waits until the tasklet is neither pending nor running, and a
  remove starts only after the probe returned. Pages have 4096 bytes.
- scull: the device list is well formed when it is trimmed. `scull_init` never initialises `data` or `qset`
  (`main.c:33-35`), so this cannot be derived from the source.
- PCI: the core probes a device only while it is unbound and removes it only while it is bound. Mappings, buffers
  and net devices are named by the call that made them, so a name stands for one mapping even where the kernel
  reuses an address; a device may be mapped again while an older mapping of it is still held. The interrupt cookie
  of the PCIe driver is the PCI device. `free_irq` with a line the cookie is not registered on, and `iounmap` of a
  null pointer, release nothing.

## Model

| member | source | states |
|---|---|---|
| NicTransmit.RingRefinesFifo | network/nic.c:201-202 | in every guarded interleaving head and tail are the submission and reap counts modulo 128, the ring holds the outstanding packets in order and nothing else, and the freed packets are a duplicate-free prefix of the submitted ones |
| NicTransmit.NullSlotDecidesOccupancy | network/nic.c:232-239 | the slot at tx_head is NULL exactly when fewer than 128 packets are outstanding, head meets tail only at 0 or 128, and a slot reported sent is never NULL |
| NicTransmit.MappingsAreConserved | network/nic.c:189-202 | the live mappings are exactly those of the outstanding packets and the staged one, at distinct addresses and with the mapped lengths; every freed packet was unmapped at its own address; every unmap matched exactly when all freed packets were linear |
| NicTransmit.OverflowLeaksOldest | network/nic.c:201-209 | enqueueing with 128 outstanding overwrites the oldest unreaped packet, whose mapping stays live |
| NicTransmit.LeakIsForever | network/nic.c:228-241 | no continuation, guarded or not, ever frees or unmaps a packet lost that way |
| NicTransmit.NoPacketLostIffNeverOverfilled | network/nic.c:185-212 | the unguarded driver accounts for every packet in exactly the runs that never enqueue with 128 outstanding |
| NicTransmit.IndicesCountSteps | network/nic.c:201-239 | over every run of the driver as written, overfilled or not, head, tail and the counters are the numbers of enqueues, completion passes (NULL slots included) and sent reports, the indices modulo 128 |
| NicTransmit.OverflowHappens | network/nic.c:194-209 | a run of the driver from the empty ring that leaks a packet and its mapping |
| NicTransmit.MismatchHappens | network/nic.c:189-237 | for every non-linear packet and address, a guarded run that unmaps with the wrong length |
| NicTxDriver.MyNicPriv.MapForDevice | network/nic.c:192 | the mapping step before the lock |
| NicTxDriver.MyNicPriv.PlaceOnRing | network/nic.c:194-207 | the locked region is the Enqueue step of the transition system |
| NicTxDriver.MyNicPriv.StartXmit | network/nic.c:185-212 | one transmit is the run MapSkb, Enqueue from any ring state |
| NicTxDriver.MyNicPriv.ReapOne | network/nic.c:232-239 | one pass of the completion loop is the Reap step, NULL slots included |
| NicTxDriver.MyNicPriv.CompleteTransmits | network/nic.c:230-241 | the completion loop makes one pass per reported packet and moves the tail by that many; on a ring that was never overfilled exactly the reported packets are freed, each unmapped at its own address |
| NicInterrupt.NoInterruptIsLost | network/nic.c:221-243 | whenever polling is idle and packets wait, RX_INTR is raised, or a handler that saw it has yet to schedule, or the last poll ran out of memory; whenever sent packets wait, TX_INTR is raised or a handler that saw it is still to reap |
| NicInterrupt.UndisturbedInterrupt | network/nic.c:215-246 | in any state and beside any other handlers, an undisturbed handler leaves both bits clear, schedules NAPI exactly when RX_INTR was set, reaps all sent packets exactly when TX_INTR was set, and changes nothing else |
| NicInterrupt.PollsDeliverInOrder | network/nic.c:249-284 | delivered packets are a prefix of arrivals, return values add up to their number, each is at most its budget, and NAPI completes exactly on polls below budget |
| NicInterrupt.OnlyAllocationFailureStrands | network/nic.c:263-265 | the allocation failure is the only step that strands packets, with the exact condition |
| NicInterrupt.StrandedUntilArrival | network/nic.c:277-281 | in every continuation without an arrival stranded packets stay undelivered |
| NicInterrupt.DeliverableIffNotStranded | network/nic.c:225-226 | with polls of any one positive budget, all waiting packets can still be delivered without a new arrival exactly when the state is not stranded |
| NicInterrupt.DeliverableWithRegisteredWeight | network/nic.c:114 | the same with the registered weight of 64, however long the backlog |
| NicInterrupt.StrandingHappens | network/nic.c:263-278 | a reachable stranded state, for any packet and positive budget |
| NicInterrupt.ComesToRest | network/nic.c:215-284 | from every reachable state, without new arrivals or reports, handlers and polls can run to rest: no bit, handler, poll or remembered schedule left and every sent packet reaped; all arrivals are then delivered exactly when the state was not stranded |
| NicSystem.SentPacketsStayReapable | network/nic.c:215-243 | in every interleaving of guarded transmits, sent reports, overlapping handlers and polls: while a sent packet waits, TX_INTR is raised or a handler is still to reap, and the slot at tx_tail holds that packet with its own live mapping |
| NicSystem.SentPacketsCanBeFreed | network/nic.c:228-241 | from every such state handler steps alone can free exactly the packets reported sent, each unmapped at its own address, leaving mapped exactly the others |
| NicPoll.PollIsARun | network/nic.c:249-284 | every undisturbed poll is a run of the transition system |
| NicPoll.Receiver.DeliverLoop | network/nic.c:254-275 | the loop stops at the budget, at an empty queue or at the first failed allocation, and delivers exactly the packets before that |
| NicPoll.Receiver.Poll | network/nic.c:249-284 | the whole poll, including completion exactly below budget and rescheduling when one was remembered |
| DmaProtocol.TeardownIsSafe | dma_kernel_with_peripheral/driver.c:309-351 | for a line above zero no interleaving lets a handler touch unmapped registers or either handler run without the buffer |
| DmaProtocol.LineZeroFaults | dma_kernel_with_peripheral/driver.c:322-344 | with line 0, for every programmed length, a run reaches a handler whose next step reads registers already unmapped |
| DmaProtocol.TeardownSafeIffLineAboveZero | dma_kernel_with_peripheral/driver.c:321-344 | all reachable states are free of faults exactly when the line is above zero |
| DmaProtocol.OnlyErrorWriteLoses | dma_kernel_with_peripheral/driver.c:151-154 | the error write is the only step that loses a completion, with the exact condition |
| DmaProtocol.NoCompletionIsLost | dma_kernel_with_peripheral/driver.c:82-109 | for every programmed length that fits and any number of overlapping handlers, every completion has DONE set, a handler about to schedule, a pending tasklet or a later tasklet run; after the kill only completions flagged by DONE are unserved |
| DmaProtocol.DriverLosesNothing | dma_kernel_with_peripheral/driver.c:257-278 | the length the probe programs is one of those, so no run of the driver loses a completion |
| DmaProtocol.RefusedTransferLoses | dma_kernel_with_peripheral/driver.c:128-153 | for every length above the buffer size, a run whose refused transfer erases a hardware completion |
| DmaProtocol.NothingLostIffLengthFits | dma_kernel_with_peripheral/driver.c:128-154 | no reachable state has a lost completion exactly when the programmed length fits the buffer |
| DmaProtocol.LostForever | dma_kernel_with_peripheral/driver.c:151-154 | a lost completion is not served in any continuation without a new one |
| DmaProtocol.ServableIffNotLost | dma_kernel_with_peripheral/driver.c:88-105 | while the line is registered, all completions can still be served exactly when none is lost |
| DmaProtocol.AckWritesWhatWasRead | dma_kernel_with_peripheral/driver.c:88-98 | whatever happens between a handler's read and its write, the write puts back the word that was read without DONE |
| DmaProtocol.StaleAckErasesEnable | dma_kernel_with_peripheral/driver.c:88-144 | a reachable state in which a handler that read before the simulated transfer has erased the DONE and IRQ_ENABLE bits it wrote, without losing the completion |
| DmaProtocol.UndisturbedIsr | dma_kernel_with_peripheral/driver.c:82-109 | an undisturbed activation clears DONE, keeps the other bits, requests the tasklet exactly when DONE was set and changes nothing else |
| DmaProtocol.RemoveCompletes | dma_kernel_with_peripheral/driver.c:309-356 | from every reachable state handlers, tasklet, probe and remove can run to their ends; the buffer and the registers are then given back, and the interrupt exactly when its line is above zero |
| DmaDevice.Device.Isr | dma_kernel_with_peripheral/driver.c:82-109 | handled exactly when DONE was set; DONE is cleared, the other bits kept, the tasklet requested exactly when handled |
| DmaDevice.Device.IsrAsRun | dma_kernel_with_peripheral/driver.c:82-109 | the in-place handler, with DONE set or not, is an activation of the protocol |
| DmaDevice.Device.Memset | dma_kernel_with_peripheral/driver.c:134 | fills exactly the first bytes |
| DmaDevice.Device.Transfer | dma_kernel_with_peripheral/driver.c:128-154 | status, tasklet and buffer after an accepted or refused transfer in either direction |
| DmaDevice.Device.ClearStart | dma_kernel_with_peripheral/driver.c:159 | START is cleared and every other control bit kept |
| DmaDevice.Device.SimulateDma | dma_kernel_with_peripheral/driver.c:115-160 | START is cleared and all other control bits kept, DONE ends clear, exactly the first dma_len bytes become 0xAA for a valid from-device request, the tasklet is requested exactly for a valid buffer and length |
| DmaDevice.Device.ProgramAndTransfer | dma_kernel_with_peripheral/driver.c:255-278 | the programmed registers, the fully filled buffer and the pending tasklet at the end of the probe |
| DmaDevice.Device.SimulateAsRun | dma_kernel_with_peripheral/driver.c:115-160 | the in-place transfer, accepted or refused, takes the device from one protocol state to another along a run of the protocol, with one more completion exactly when accepted |
| ScullMemory.CellsMembers | util.h:15-29 | the cells of a list are exactly its nodes, their vectors and the non-null quanta in slots 0 up to qset - 1 |
| ScullMemory.ChainByPosition | util.h:15-29 | the recursive list is the one in which each node is live, has a large enough vector or none, and points to the next node, the last one to null |
| ScullMemory.Frame | util.c:13-22 | removing other memory changes neither a list nor its cells |
| ScullDriver.Slab.Kfree | util.c:16-21 | null is ignored and only live memory may be freed |
| ScullDriver.ScullDev.FreeQuanta | util.c:15-16 | the inner loop frees the non-null quanta of one vector in order, reading only live memory |
| ScullDriver.ScullDev.FreeVector | util.c:14-17 | a node's quanta and vector are freed, or nothing for a null vector |
| ScullDriver.ScullDev.FreeNode | util.c:18-21 | the successor is read before the node is freed |
| ScullDriver.ScullDev.FreeList | util.c:13-22 | the outer loop frees the cells of the list in order |
| ScullDriver.ScullDev.Trim | util.c:9-28 | every node, every vector and every non-null quantum in slots 0 up to qset - 1 is freed exactly once in list order, nothing else is freed, and the device is reset to 4000, 1000 and empty |
| ScullDriver.ScullDev.Open | main.c:75-83 | trims exactly on a write-only open, otherwise changes nothing |
| ScullOpens.OpenDevice | main.c:75-83 | the in-place open of one of several devices sharing a heap is the Open step on all of them: the other devices keep their fields and the heap loses only the opened one's memory |
| ScullOpens.OpenKeepsWorldOk | main.c:75-83 | opening one device keeps every device well formed and no memory shared |
| ScullOpens.OpensDecideDevice | main.c:79-81 | after any opens a device is empty with default sizes if it was once opened write-only, and unchanged with its memory otherwise |
| ScullOpens.OpensDecideHeap | util.c:13-26 | after any opens exactly the memory of the devices opened write-only is gone and the rest has its old contents |
| PmdRings.PushAppends | network/dpdk/pmd.c:194-195 | storing at the tail appends to the queue contents |
| PmdRings.PopDrops | network/dpdk/pmd.c:178-179 | advancing the head drops a prefix of the contents |
| PmdRings.ContentsInRingOrder | network/dpdk/pmd.c:177-179 | the queue contents are the occupied slots from the head, modulo 1024 |
| PmdRings.TrafficConserved | network/dpdk/pmd.c:170-199 | over any sequence of bursts and hardware steps what went in is what came out followed by what is in the ring |
| PmdRings.GetMoves | network/dpdk/pmd.c:175-182 | a get moves from the front exactly as many entries as asked for and available, and nothing only when one of them is zero |
| PmdRings.PutMoves | network/dpdk/pmd.c:191-198 | a put takes from the front exactly as many packets as offered and free slots, and nothing only when one of them is zero |
| PmdRings.ReceiveSplits | network/dpdk/pmd.c:175-182 | a receive burst of n then m equals one of n + m |
| PmdRings.TransmitSplits | network/dpdk/pmd.c:191-198 | two transmit bursts equal one of the concatenated packets |
| PmdRings.BurstsInBoundsIff | network/dpdk/pmd.c:151-152 | a run after setup stays in bounds exactly when nb_desc is at least 1024 or at most nb_desc packets move |
| PmdRings.SafeForAllTrafficIff | network/dpdk/pmd.c:163-164 | all runs stay in bounds exactly when nb_desc is at least 1024 |
| PmdBurst.RxQueue.Setup | network/dpdk/pmd.c:146-155 | a zeroed ring of nb_desc entries with head 0 |
| PmdBurst.RxQueue.Burst | network/dpdk/pmd.c:170-183 | returns the minimum of request and available, copies exactly those entries in ring order, leaves the rest of the output untouched |
| PmdBurst.RxQueue.BurstAsFifo | network/dpdk/pmd.c:170-183 | moves the first entries of the bounded FIFO and keeps the others, for every queue size under which the burst stays in bounds |
| PmdBurst.TxQueue.Setup | network/dpdk/pmd.c:158-167 | a zeroed ring of nb_desc entries with tail 0 |
| PmdBurst.TxQueue.Burst | network/dpdk/pmd.c:186-199 | returns the minimum of request and free slots and appends exactly that prefix to the bounded FIFO, for every queue size under which the burst stays in bounds |
| Ledger.FallThrough | network/nic.c:119-128 | falling through the labels releases what the calls before the failure took, in reverse order, for every list of calls |
| Ledger.RunProbe | dma_kernel_with_peripheral/driver.c:164-305 | a probe over any list of calls and outcomes stops at the first failure, logs the acquires up to it and then their releases in reverse, and fails exactly when some outcome failed |
| Ledger.HeldIff | network/nic.c:61-129 | a resource is held after any log exactly when its last acquire was not followed by a release, or it was held before and never released |
| Ledger.CleanIff | network/nic.c:61-129 | the books are clean exactly when every acquire was of something free and every release of something held |
| Ledger.ProbeIsAllOrNothing | network/nic.c:61-129 | for every call list, failure position and prior books, a failed probe restores the books and a successful one adds exactly its resources |
| Ledger.RemoveUndoesProbe | network/nic.c:138-145 | releasing the same resources once in any order undoes a successful probe, from any books |
| PciResources.ProbeUnwinds | dma_kernel_with_peripheral/driver.c:283-305 | the same for the named resources of one device, for each driver's call list and any books holding nothing of that device |
| PciResources.RemovesReleaseUsersFirst | network/nic.c:138-145 | no remove releases something before what relies on it; the DMA remove leaves no user behind exactly when its line is above zero |
| PciResources.ProbesTakeUsedFirst | network/nic.c:106-114 | no probe takes something before what it relies on, except that the network driver requests its interrupt before its NAPI context exists |
| PciDrivers.NicProbeChain | network/nic.c:54-130 | the goto chain logs what the general probe logs for the same outcomes, returns the failing call's error, and stores the net device exactly once it exists |
| PciDrivers.DmaProbeChain | dma_kernel_with_peripheral/driver.c:164-306 | the same for the DMA driver, whose private data is device managed; on success all handles are stored |
| PciDrivers.Module.NicProbe | network/nic.c:54-130 | the probe with its stored private data is the probe step of the fleet; it returns 0 exactly when the device is bound |
| PciDrivers.Module.NicRemove | network/nic.c:133-147 | the remove, through the handles it reads back from the device, is the remove step of the fleet |
| PciDrivers.Module.DmaProbe | dma_kernel_with_peripheral/driver.c:164-306 | the probe, filling the private data field by field, is the probe step of the fleet |
| PciDrivers.Module.DmaRemove | dma_kernel_with_peripheral/driver.c:309-356 | the remove, through the stored handles and skipping lines not above zero, is the remove step of the fleet |
| Fleet.LedgerExactIff | dma_kernel_with_peripheral/driver.c:322-325 | after any sequence of probes, failed probes and removes over any devices the resources held are exactly those of the bound devices, with no illegal acquire or release, exactly when every removed device released all it had |
| Fleet.NicLedgerExact | network/nic.c:54-147 | for the network driver that is every run, although its remove is not the reverse of its probe |
| Fleet.DmaLedgerExactIff | dma_kernel_with_peripheral/driver.c:164-356 | for the DMA driver, with a line per device, it is exactly the runs that removed no device on line 0 |
| Fleet.DmaLedgerAccounts | dma_kernel_with_peripheral/driver.c:164-356 | after any run the resources held are all those of the bound devices plus the interrupt of each device that was removed on line 0, and nothing was acquired or released wrongly |
| Fleet.LineZeroRemoveKeepsIrq | dma_kernel_with_peripheral/driver.c:322-351 | removing a device on line 0 gives back its buffer, mapping, region and PCI device and keeps exactly its interrupt |
| Fleet.LineZeroLeaks | dma_kernel_with_peripheral/driver.c:322-325 | for every device, a probe and a remove on line 0 that end with exactly its interrupt still held |
| Fleet.LeakedForever | dma_kernel_with_peripheral/driver.c:321-325 | an interrupt skipped by a remove stays held in every continuation, reprobes of the device included |
| StaticFleet.LedgerExactIff | pci_mmio/pcie.c:15-71 | with static variables a run ends exact exactly when every remove found mmio_base pointing to its own device's mapping |
| StaticFleet.LoadedIsExact | pci_mmio/pcie.c:15-16 | the state after loading qualifies for the results here |
| StaticFleet.RemoveReleases | pci_mmio/pcie.c:64-71 | what any remove releases: the device's region and PCI device, its interrupt exactly when irq_line is its line, and whatever mmio_base points to; that is legal exactly when mmio_base is null or a bound device's mapping |
| StaticFleet.MismatchedRemoveOrphans | pci_mmio/pcie.c:64-70 | a remove that finds mmio_base elsewhere leaves its device's mapping held with nothing pointing to it |
| StaticFleet.OrphanedForever | pci_mmio/pcie.c:43-67 | that same mapping stays held in every continuation, reprobes included |
| StaticFleet.UnnamedNeverMatches | pci_mmio/pcie.c:43-67 | a bound device that mmio_base does not name can never be removed matchingly |
| StaticFleet.TwoBoundDevicesBreakLedger | pci_mmio/pcie.c:43-67 | once two devices are bound, no continuation that removes both ends exact |
| StaticFleet.OneAtATimeMatches | pci_mmio/pcie.c:26-71 | runs that never probe while a device is bound always match |
| StaticFleet.SecondProbeBreaksFirst | pci_mmio/pcie.c:43-67 | for any two devices, three operations after loading that end inexact |
| PcieDriver.PcieModule.constructor | pci_mmio/pcie.c:15-16 | the statics start zeroed |
| PcieDriver.PcieModule.ProbeDevice | pci_mmio/pcie.c:26-62 | the probe, its inline unwinding, its writes to the statics and its error code are the Probe step |
| PcieDriver.PcieModule.RemoveDevice | pci_mmio/pcie.c:64-71 | the remove, releasing through the statics, is the Remove step |
| DmaUser.ReversedSameBytes | dma_user/simple_dma_module.c:108-113 | reversal keeps the multiset of bytes |
| DmaUser.ReverseInPlace | dma_user/simple_dma_module.c:105-113 | the two-index loop leaves the exact reversal, for every length |
| DmaUser.Ioctl | dma_user/simple_dma_module.c:88-138 | reverses exactly for the transfer command with a buffer, with the three return codes |
| DmaUser.TransfersByParity | dma_user/simple_dma_module.c:101-113 | n-fold reversal of a buffer is the buffer or its reversal by the parity of n |
| DmaUser.IoctlTimes | dma_user/simple_dma_module.c:88-138 | n transfer commands leave the buffer original or reversed by the parity of n |
| DmaUser.ReadBack | dma_user/user_app.c:48-68 | for every text and buffer size the program reads its text before the transfer and the empty string after it, which is the reversed text exactly for the empty text |
| DmaUser.WriteTransferRead | dma_user/user_app.c:38-68 | the size check, and for a text that fits byte i at size-1-i and an empty read back |

## Left out

- `netif_stop_queue` and `netif_wake_queue`: the stop is only a comment, and the unconditional wake alone would not give the ring-full guard.
- Control-register contents of the NIC, `mynic_stop` and draining the ring on removal: the constants are undefined in the source and the ring is not drained.
- Deadlock and interrupt-context rules of the spin lock: each locked region is one step.
- Failure of `dma_map_single`, of the PMD ring allocations and of `cdev_add`: the source does not check them.
- `scull_init` and `scull_exit`: allocation loops over four device structures; `scull_exit` does not trim the devices.
- `scull_read`, `scull_write` and `scull_release`: stubs.
- `simple_dma_init` and `simple_dma_exit`: a failure after the buffer allocation keeps the buffer, so the unwinding theorem does not apply.
- `simple_dma_mmap`: argument checks in front of a kernel call.
- `uio/simple_uio_driver.c`: MSI-X is enabled only on some paths, not unwound by a failing probe and disabled by every remove, so the all-or-nothing result does not apply to it; its static variables raise the same question as those of the PCIe driver.
- `interrupts/driver.c`: a fragment whose acquiring and releasing calls are comments.
- `network/simple_nic.c` and `network/simple_loopback.c`: no ring, interrupt or state shared between calls; the probe is the two-call case of `Ledger.RunProbe`.
- The PMD probe, remove and link update: assignments to structures of the DPDK library.
- Kernel and DPDK internals: used only through the contracts listed above.
