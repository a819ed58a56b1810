# Verified models of hvisor, hvisor-tool and RuxOS

This project models the parts of the hvisor tree whose correctness is least obvious from reading
them, and proves what they are there for. `dafny verify dfyconfig.toml` checks all of it.

**Stage-2 address space (hvisor, aarch64).** `MemorySet` keeps a map of memory regions next to a
3- or 4-level page table with 4K, 2M and 1G pages. The main result is that after every run of
insertions and deletions an address translates exactly when a recorded region contains it, or a
prefix that a failed insertion left mapped, and then to the address and flags that region prescribes.

- `Descriptor`: VMSAv8-64 descriptors as 64-bit words (Arm DDI 0487, translation table descriptor
  formats), and the abstract entries they stand for.
- `PageTable`: table contents as values; the invariant that tables form a tree; what one entry
  update does to every address.
- `Region`, `Ranges`: regions, offset mappers, and range reasoning that does not mention tables.
- `Stage2`: the mutable table, with `map`, `unmap` and the page walks.
- `AddressSpace`: `MemorySet`.

**Virtio transport (hvisor and the root-Linux daemon).** Guest CPUs, daemon threads and hypervisor
code share memory. Each protocol is a state machine whose steps are the single shared accesses of
the code, in a sequentially consistent order; a theorem about runs holds of every interleaving.

- `RequestRing`: the request ring, the configuration handshake and the wake-up flag.
- `ResultRing`: the result ring, the draining hypercall, interrupt lists and events. `IrqDelivery`: what
  the lists hold, in terms of the results. `SgiDelivery`: the software-generated interrupts (SGIs) that
  announce the events.
- `BlockQueue`, `GpuQueue`: the block and GPU workers, their queues and notification switches.
- `DescChain`: descriptor chains and the used ring of split virtqueues (Virtio 1.2, sections 2.7.5,
  2.7.5.3, 2.7.6 and 2.7.8).
- `Iov`: scatter/gather copies. `GpuResources`, `GpuFlush`: the GPU's resource table and the copy to
  a framebuffer (Virtio 1.2, section 5.7.6.8).

**Paths and RAM filesystem (RuxOS).** `Path` proves the in-place string editing of `canonicalize`
equal to a stack machine over components. `RamFs` is the directory tree with `lookup`, `create` and
`remove`.

`Wrappers` and `Arithmetic` hold what the others share.

## Results that need a condition

Each of these is stated with the condition under which it holds, and shown to fail without it.

- A region's translation is the address of its mapper if and only if the mapper moves whole pages and
  that address has at most 48 bits (`Region.XlateIsPlainOffset`); `insert` checks neither. A region
  with an aligned physical start and a physical end of at most 48 bits is translated byte by byte
  (`Region.RegionIsPlain`). In every case the translation is `MemoryRegion.Xlate`, the frame cut to
  the descriptor's address field.
- Regions must stay below the span of the table: indices are masked, so an address beyond it reads
  the translation of its remainder (`Stage2.QueryWraps`).
- Unless frames run out, `map` fails if and only if one of the pages it goes through is blocked by a
  mapping or by a table, even an empty one left by an unmapping (`Stage2.Stage2PageTable.Map`,
  `Stage2.RemapLarger`). `unmap` gets stuck exactly at a page that sticks out of its region.
- Every CPU that stops spinning has its own answer, in every run of guests that make given requests,
  if and only if no CPU makes both configuration requests and queue-notify requests that match no
  device (`RequestRing.HandshakeExactly`, `RequestRing.UnmatchedNotifyBreaksHandshake`). Delivery and
  wake-up need no condition.
- The result ring can overflow if and only if there are at least 32 injecting threads
  (`ResultRing.OverflowsExactly`).
- With up to 31 injecting threads, the steps of a drain are bounded if and only if every device's
  zone exists (`ResultRing.DrainsEndExactly`).
- With up to 31 injecting threads, the hypercall's assertion can fail if and only if more than three
  distinct interrupts go to one CPU (`ResultRing.PanicsExactly`).
- Interrupts listed for a CPU always have an SGI pending, taken or about to be sent, if and only if no
  events of other kinds go to that CPU: a pending SGI absorbs the next, each one taken fetches one
  event, and an event of another kind ahead of the inject event can use it up
  (`SgiDelivery.StrandsExactly`). The inject event itself is never lost (`ResultRing.NoLostInterrupt`).
- The block daemon crashes if and only if it takes a chain that is not a block request: a 16-byte header
  to read, at most 512 data segments in the direction of the request, a status byte to write
  (`BlockQueue.CrashesExactly`). A driver never crashes it, in any interleaving, if and only if all its
  chains are requests (`BlockQueue.SafeExactly`).
- The block device's notify handler loses no kick. The GPU's loses one if and only if the driver last
  looked at the notification flag in the window between the handler's last emptiness test and its
  switching notification on (`GpuQueue.KickLostExactly`, `GpuQueue.KickCanBeLost`).
- The size computed for an image is `4 * width * height` if and only if the height is zero or
  neither product wraps (`GpuResources.HostmemExact`).
- A flush after a transfer of part of the width counts 32 bytes to a pixel, and can write beyond a
  framebuffer as large as the resource, for example for the left half of the last row of a 32 by 32
  image (`GpuFlush.OverrunInBounds`). Where no offset wraps it stays inside if and only if the last row
  that the backing store reaches does (`GpuFlush.RowsStayExactly`); with a large enough backing store
  and a framebuffer of the resource's size, if and only if the rectangle is empty or
  `8 * (x + width) <= res.width * (res.height - lastRow)` (`GpuFlush.OverrunsExactly`).
- Where it stays inside, it paints the rectangle right, whatever the contents, if and only if the
  rectangle is empty or is the left part of a single row that ends with the backing store
  (`GpuFlush.PartialWidthExactly`).
- `canonicalize` panics if and only if a name is put after one that ends in a multi-byte character
  (`Path.Canonicalize`).
- A path that resolves keeps its target when canonicalized (`RamFs.CanonicalAgrees`). One that does
  not starts to resolve if and only if its names lead somewhere and some prefix leads to no directory
  or steps above the root (`RamFs.CanonicalGainsExactly`).

Where code and documentation differ the models follow the code. `VfsNodeOps::create` is documented
to succeed on an existing path, and the RAM filesystem answers `AlreadyExists`
(ruxos/crates/axfs_vfs/src/lib.rs:150-153, ruxos/crates/axfs_ramfs/src/dir.rs:54-57). Creating a
GPU resource beyond the memory limit is reported as success and creates nothing
(hvisor-tool/tools/virtio_gpu.c:123-129).

## Model

| member | source | states |
|---|---|---|
| `Descriptor.EncodeFaithful` | hvisor/src/arch/aarch64/s2pt.rs:120-169 | every accessor of an encoded descriptor (unused, present, huge, address, flags) answers as the entry it encodes; an unused entry counts as huge |
| `Descriptor.EncodeInjective` | hvisor/src/arch/aarch64/s2pt.rs:141-184 | two representable entries with the same word are the same entry |
| `Descriptor.EncodedFlags` | hvisor/src/arch/aarch64/s2pt.rs:74-106 | for every address and flag set given to a page, reading the descriptor back yields READ, WRITE and IO as given, no other flag, and bits 12 to 47 of the address |
| `Descriptor.NewLeaf` | hvisor/src/arch/aarch64/s2pt.rs:141-156 | the entry that mapping a page writes encodes to the word that `set_addr` and `set_flags` make of an empty one, for every address and flag set; the word as a number |
| `Descriptor.LeafWord` | hvisor/src/arch/aarch64/s2pt.rs:14-106 | the word of a page as a number: 0x401 for valid and accessed, 2 for a 4K page, 4 or 0x33C for device or normal memory, 0x40 and 0x80 for read and write, plus bits 12 to 47 of the address |
| `Descriptor.TableWord` | hvisor/src/arch/aarch64/s2pt.rs:171-184 | the word of a table as a number: 0x33F plus the address |
| `Descriptor.MemTypeExactly` | hvisor/src/arch/aarch64/s2pt.rs:58-65 | for every word the memory type read is device for attribute index 1, normal for 15, and a panic for any other |
| `Descriptor.SetAddrExactly` | hvisor/src/arch/aarch64/s2pt.rs:141-144 | for every word and address, `set_addr` replaces bits 12 to 47 and keeps every other bit |
| `PageTable.TablesFormTree` | hvisor/src/arch/aarch64/paging.rs:575-586 | every table frame but the root is pointed to by exactly one entry, the root by none |
| `PageTable.WriteLeaf` | hvisor/src/arch/aarch64/paging.rs:339-355 | replacing a leaf or unused entry keeps the tree and changes the translation of exactly the addresses that entry covers |
| `PageTable.HangKeepsQueries` | hvisor/src/arch/aarch64/paging.rs:575-586 | creating an intermediate table keeps the tree and changes no translation |
| `PageTable.QuerySlot` | hvisor/src/arch/aarch64/paging.rs:148-171 | a translated address ends at a leaf covering it, and all addresses of that page are translated by the same leaf |
| `Region.OverlapIsSharedAddress` | hvisor/src/memory/mm.rs:45-51 | the interval test holds exactly when some address lies in both regions |
| `Region.NewWithOffsetMapper` | hvisor/src/memory/mapper.rs:35-51 | the constructed mapper sends the region's virtual start to its physical start, whichever is larger |
| `Region.PageAgreesWithXlate` | hvisor/src/memory/mapper.rs:20-25 | a page of any size whose base is mapped by the mapper translates each of its addresses as the region prescribes, through 64-bit wrap-around and the 48-bit address field |
| `Region.XlateIsPlainOffset` | hvisor/src/arch/aarch64/s2pt.rs:113-144 | the translation is the mapper's address if and only if the mapper moves whole pages and that address has at most 48 bits |
| `Region.RegionIsPlain` | hvisor/src/memory/mapper.rs:20-51 | a region with an aligned physical start and a physical end of at most 48 bits translates each address to the one at the same distance from the physical start |
| `Ranges.ExtendMapped` | hvisor/src/arch/aarch64/paging.rs:459-488 | mapping the next page of any size extends an exactly mapped prefix of the region |
| `Ranges.NextIsBest` | hvisor/src/arch/aarch64/paging.rs:461-475 | after a prefix mapped by pages as large as may be, the largest page that fits at its end is the largest that may serve any of its addresses: choosing greedily is choosing best |
| `Ranges.PageStartsHere` | hvisor/src/arch/aarch64/paging.rs:501-514 | with a cleared prefix, the page read back at its end starts there and fits in what is left, if and only if it lies inside the region |
| `Ranges.HugePagesInvisible` | hvisor/src/arch/aarch64/paging.rs:461-475 | two range mappings of a region, one without huge pages, into translations that agree give translations that agree in address and flags |
| `Stage2.QueryWraps` | hvisor/src/arch/aarch64/paging.rs:539-553 | an address beyond the span translates as its remainder does |
| `Stage2.Stage2PageTable.constructor` | hvisor/src/arch/aarch64/paging.rs:139-146 | a new table translates nothing |
| `Stage2.Stage2PageTable.GetEntry` | hvisor/src/arch/aarch64/paging.rs:148-171 | the three- or four-level walk is the recursive walk over the tree |
| `Stage2.Stage2PageTable.QueryAddr` | hvisor/src/arch/aarch64/paging.rs:243-250 | the answer is the table's translation of the address, with flags and page size, or NotMapped |
| `Stage2.Stage2PageTable.NextTableOrCreate` | hvisor/src/arch/aarch64/paging.rs:575-586 | descending creates at most one zeroed frame, keeps the tree, and fails only for want of a frame or at a page |
| `Stage2.Stage2PageTable.GetEntryOrCreate` | hvisor/src/arch/aarch64/paging.rs:306-330 | no translation changes; success yields the table holding the entry; failure means no frame or a larger page in the way |
| `Stage2.Stage2PageTable.MapPage` | hvisor/src/arch/aarch64/paging.rs:332-345 | success maps exactly that page where nothing was mapped; failure changes no translation and has one of three causes |
| `Stage2.Stage2PageTable.UnmapPage` | hvisor/src/arch/aarch64/paging.rs:347-355 | fails exactly when nothing is mapped there; otherwise exactly the page around the address is cleared |
| `Stage2.Stage2PageTable.Map` | hvisor/src/arch/aarch64/paging.rs:444-490 | even when it fails, exactly a prefix of the region is mapped, each address by the largest page around it that lies inside the region with an aligned frame (4K pages only, if the region asks for them), and every other translation is kept; unless frames run out it fails if and only if a page it goes through is blocked |
| `Stage2.Stage2PageTable.Unmap` | hvisor/src/arch/aarch64/paging.rs:492-516 | terminates with one of three outcomes: the region cleared, an unmapped address, or stuck exactly at a page that sticks out of the region; what is cleared in each case |
| `Stage2.MapBothWays` | hvisor/src/arch/aarch64/paging.rs:457-489 | mapping a region with huge pages into one table and without into another that translates alike leaves the two translating alike at every address, if both succeed |
| `Stage2.RemapLarger` | hvisor/src/arch/aarch64/paging.rs:332-345 | after the only page below a larger slot is unmapped, whatever its size and place, the slot is free and the larger page still cannot be mapped |
| `AddressSpace.NeighboursDecideOverlap` | hvisor/src/memory/mm.rs:81-93 | comparing with the two neighbours decides overlap with every recorded region |
| `AddressSpace.InsertSound` | hvisor/src/memory/mm.rs:96-113 | recording a disjoint, fully mapped region keeps the agreement between regions, prefixes left behind and translation |
| `AddressSpace.FailSound` | hvisor/src/memory/mm.rs:96-113 | a failed insertion adds exactly the mapped prefix to what is left behind and disturbs nothing |
| `AddressSpace.DeleteSound` | hvisor/src/memory/mm.rs:116-130 | clearing and dropping a region keeps the agreement for all other regions and for everything left behind |
| `AddressSpace.SoundAndExact` | hvisor/src/memory/mm.rs:143-148 | agreement as a statement about one address: its region's translation, the translation of the prefix left there, or none |
| `AddressSpace.MemorySet.Insert` | hvisor/src/memory/mm.rs:96-113 | refused exactly on overlap; unless frames run out, fails if and only if a page is blocked, leaving exactly a mapped prefix; with nothing left over from failures or deletions, fails only when frames run out |
| `AddressSpace.MemorySet.Delete` | hvisor/src/memory/mm.rs:116-130 | fails exactly for an unknown start, whatever happened before, and clears exactly the region |
| `AddressSpace.MemorySet.PageTableQuery` | hvisor/src/memory/mm.rs:143-148 | a recorded address yields its region's address and flags and the largest page size that its region allows there, byte by byte for a plain physical range, one left behind the address and flags of the failed region, any other NotMapped |
| `AddressSpace.MemorySet.Clear` | hvisor/src/memory/mm.rs:132-137 | no unmapping fails and exactly the recorded addresses lose their translation |
| `AddressSpace.MemorySet.Run` | hvisor/src/memory/mm.rs:96-149 | after any run, failed insertions included, every address translates as its recorded region says, as the prefix a failed insertion left there says, or not at all; what is recorded and left is determined by the operations and their outcomes |
| `AddressSpace.MemorySet.InsertAll` | hvisor/src/memory/mm.rs:96-113 | insertions alone fail only for real overlap or lack of frames |
| `RequestRing.RunKeepsInv` | hvisor/src/device/virtio_trampoline.rs:30-86 | every interleaving of any number of CPUs and the daemon keeps the handshake invariant, if the queue-notifies of CPUs that make configuration requests match |
| `RequestRing.RunKeepsTransport` | hvisor/src/device/virtio_trampoline.rs:30-86 | every interleaving, whatever is requested, keeps the ring, lock, producer and wake-up invariants |
| `RequestRing.DeliveredInOrder` | hvisor/src/device/virtio_trampoline.rs:136-174 | in every run, requests are served once each in push order and no unserved one is overwritten |
| `RequestRing.ServedAnswer` | hvisor-tool/tools/virtio.c:823-874 | in every run each served request was handled by a step of its own: answered with the magic number when its address belongs to no device of its zone, with the value that step read from the register for a read, with 0 for a write |
| `RequestRing.OwnAnswer` | hvisor-tool/tools/virtio.c:816-874 | a CPU that stopped spinning, for a read or a write, has had its own request served, and the value it reads is what the step that handled that request answered |
| `RequestRing.AccessReturns` | hvisor/src/device/virtio_trampoline.rs:30-86 | a CPU goes back to its guest from a queue-notify only after pushing it, from a write only after it was served, and from a read only after it was served and with the value answered to it |
| `RequestRing.NoLostWakeup` | hvisor-tool/tools/virtio.c:894-951 | in every run, a daemon asleep with requests pending is being woken, or a producer is still to read the set flag |
| `RequestRing.SleepsExactly` | hvisor-tool/tools/virtio.c:942-947 | in every run the daemon's last look sends it to sleep if and only if every pushed request has been served |
| `RequestRing.RestMeansServed` | hvisor/src/device/virtio_trampoline.rs:30-86 | no deadlock: in every lawful run, when the daemon sleeps with no wake-up under way and no CPU can go on, every CPU is in its guest and every request has been served |
| `RequestRing.UnmatchedNotifyBreaksHandshake` | hvisor-tool/tools/virtio.c:835-841 | for every CPU, unmatched queue-notify and configuration request there is a run in which the CPU stops spinning on the request before it is served, with the magic number in its value cell |
| `RequestRing.HandshakeExactly` | hvisor-tool/tools/virtio.c:816-874 | in all runs of guests making given requests every CPU that stops spinning has its own answer, if and only if no CPU makes both configuration requests and unmatched queue-notifies |
| `ResultRing.RunKeepsInv` | hvisor-tool/tools/virtio.c:796-814 | every interleaving with few interrupts per CPU keeps the list and event invariants as well |
| `ResultRing.RunKeepsRing` | hvisor-tool/tools/virtio.c:796-814 | every interleaving of up to 31 injecting threads, drains and guest CPUs keeps the ring, owner and lock invariants, whatever is injected |
| `ResultRing.OccupancyBound` | hvisor-tool/tools/virtio.c:797-813 | the ring holds no more results than there are threads between push and end of their hypercall |
| `ResultRing.OccupancyAndDrain` | hvisor/src/hypercall/mod.rs:155-196 | with at most 31 threads no overflow, and one drain takes at most one result per thread in flight, whatever is injected |
| `ResultRing.FullExactly` | hvisor-tool/tools/virtio.c:797-800 | in every run of up to 31 threads, a look at the rear finds the ring full if and only if 31 results are in it |
| `ResultRing.RestMeansDrained` | hvisor-tool/tools/virtio.c:796-814 | no deadlock: in every run of up to 31 threads, when no injecting thread can go on, all are idle, the three locks are free and every result has been drained |
| `ResultRing.NoLostInterrupt` | hvisor/src/hypercall/mod.rs:167-189 | up to the three interrupts per CPU that `PanicsExactly` shows necessary: lists are duplicate-free and below capacity, hold exactly the interrupts not yet injected, and each has an inject event queued, in hand or about to be queued |
| `ResultRing.HandleKeepsInv` | hvisor/src/device/virtio_trampoline.rs:93-101 | handling the event injects everything listed for that CPU |
| `IrqDelivery.FiledAreDelivered` | hvisor/src/hypercall/mod.rs:155-196 | in every run of up to 31 injecting threads, every result filed for an existing zone has its interrupt listed for the zone's first CPU, or that CPU has injected it since |
| `IrqDelivery.ListedWereFiled` | hvisor/src/hypercall/mod.rs:155-196 | conversely, every listed interrupt is that of a filed result for that CPU |
| `ResultRing.MissingZoneSpins` | hvisor/src/hypercall/mod.rs:162-165 | a result for a missing zone returns the drain to the same state, locks held, in two steps |
| `ResultRing.DrainEnds` | hvisor/src/hypercall/mod.rs:158-196 | when the zones exist, a drain takes at most five steps of its thread per thread, and four more, under every interleaving |
| `ResultRing.DrainNeverEnds` | hvisor/src/hypercall/mod.rs:162-165 | for every missing zone and every number there is a run in which a drain takes that many steps and still holds both locks |
| `ResultRing.DrainsEndExactly` | hvisor/src/hypercall/mod.rs:158-196 | drains are bounded if and only if every device's zone exists |
| `ResultRing.FourthIrqPanics` | hvisor/src/hypercall/mod.rs:179-189 | any four results with distinct interrupts whose zones share a CPU make some run panic |
| `ResultRing.PanicsExactly` | hvisor/src/hypercall/mod.rs:179-189 | some run panics if and only if more than three distinct interrupts go to one CPU |
| `ResultRing.OverflowPossible` | hvisor-tool/tools/virtio.c:797-800 | with 32 threads some run puts 32 results in the ring, which then reads as empty |
| `ResultRing.OverflowsExactly` | hvisor-tool/tools/virtio.c:797-813 | some run fills the ring to the brim if and only if there are at least 32 injecting threads |
| `SgiDelivery.RunReaches` | hvisor/src/device/irqchip/gicv3/mod.rs:155-163 | in every run, a CPU that gets no events of other kinds has, for its listed interrupts, an injection going on, an event about to be queued, or a queued inject event with an SGI for it |
| `SgiDelivery.StrandingRun` | hvisor/src/event.rs:88-115 | with an event of another kind queued and announced first, a run ends with an interrupt listed, the CPU in its guest and no SGI pending or to come |
| `SgiDelivery.StrandsExactly` | hvisor/src/event.rs:88-133 | listed interrupts of a CPU have an SGI still to be done with in every run, if and only if no events of other kinds go to that CPU |
| `BlockQueue.RunKeepsInv` | hvisor-tool/tools/virtio_blk.c:88-112 | every interleaving of driver, handler and worker keeps order, notification and sleeping invariants |
| `BlockQueue.NoLostKick` | hvisor-tool/tools/virtio_blk.c:209-233 | when the handler has returned, an untaken buffer has the driver about to check the clear flag, about to kick, or kicking |
| `BlockQueue.SleepsAnnounced` | hvisor-tool/tools/virtio_blk.c:10-30 | a sleeping worker has announced every completion, and has work only if it is about to be signalled |
| `BlockQueue.NoSpinning` | hvisor-tool/tools/virtio_blk.c:88-112 | in every run handler and worker together take at most a fixed number of steps for each step of the driver and each spurious wake-up |
| `BlockQueue.RestMeansServed` | hvisor-tool/tools/virtio_blk.c:209-233 | in every run, once driver, handler and worker have come to rest, every buffer made available has been served and announced and notification is on |
| `BlockQueue.UsedInOrder` | hvisor-tool/tools/virtio_blk.c:32-41 | one used entry per buffer in the order the driver made them available, all taken buffers accounted for, all but the one that crashed the daemon |
| `BlockQueue.HandleOneRequest` | hvisor-tool/tools/virtio_blk.c:154-207 | the checks accept exactly the chains laid out as header, data in the request's direction and status byte, and return null for every other |
| `BlockQueue.CrashesExactly` | hvisor-tool/tools/virtio_blk.c:209-223 | in every run the daemon has crashed if and only if it has taken a chain that is not such a request |
| `BlockQueue.SafeExactly` | hvisor-tool/tools/virtio_blk.c:154-223 | a driver with given chains never crashes the daemon, in any interleaving, if and only if all of them are requests |
| `GpuQueue.RunKeepsInv` | hvisor-tool/tools/virtio_gpu_async.c:22-92 | every interleaving of driver, notify handler and worker keeps order, mutex and counting invariants |
| `GpuQueue.RespondsInOrder` | hvisor-tool/tools/virtio_gpu.c:786-854 | used entries are the responses to the processed commands in arrival order, the rest of the taken ones being in hand, queued or in transit |
| `GpuQueue.OneResponseEach` | hvisor-tool/tools/virtio_gpu.c:786-854 | in runs whose chains all hold a header, the i-th command gets the i-th used entry, exactly one each, whether the handler responds with data or leaves it to the no-data response |
| `GpuQueue.ResponsesAre` | hvisor-tool/tools/virtio_gpu.c:843-854 | in every run the i-th response is what the i-th handler called for: its data, or no data and the error code it left |
| `GpuQueue.KicksInTime` | hvisor-tool/tools/virtio_gpu_async.c:65-91 | at most 16 commands between kicks, none un-kicked at the wait, no sleep on a non-empty queue unless a signal is still to come |
| `GpuQueue.NoSpinning` | hvisor-tool/tools/virtio_gpu_async.c:22-92 | in every run handler and worker together take at most a fixed number of steps for each step of the driver and each spurious wake-up |
| `GpuQueue.RestMeansProcessed` | hvisor-tool/tools/virtio_gpu_async.c:22-92 | in every run, once driver, handler and worker have come to rest, every command has been processed and announced, unless (and only if) a kick has been lost |
| `GpuQueue.KickCanBeLost` | hvisor-tool/tools/virtio_gpu_base.c:268-287 | a run ends with driver, handler and worker idle, notification on, no kick pending and a command not taken |
| `GpuQueue.KickLostExactly` | hvisor-tool/tools/virtio_gpu_base.c:268-287 | in every run, when the handler has returned a kick is lost if and only if the driver's last look at the flag fell between the last emptiness test and the switching on, with a command there, no kick pending and nothing published since |
| `DescChain.LinkedUnique` | hvisor-tool/tools/virtio.c:425-443 | a chain is determined by its head |
| `DescChain.VirtQueue.CountChain` | hvisor-tool/tools/virtio.c:423-446 | the counting pass yields the number of buffers, direct and indirect |
| `DescChain.VirtQueue.FillChain` | hvisor-tool/tools/virtio.c:454-488 | the filling pass records the buffers in order with their flags, never past the counted length |
| `DescChain.VirtQueue.FillIndirect` | hvisor-tool/tools/virtio.c:462-482 | the inner loop records the whole indirect table and ends with the remaining length zero |
| `DescChain.VirtQueue.ProcessDescriptorChain` | hvisor-tool/tools/virtio.c:405-490 | nothing when the ring is empty; otherwise the flattened chain of the next available head, and the index advances by one mod 2^16 |
| `DescChain.VirtQueue.UpdateUsedRing` | hvisor-tool/tools/virtio.c:492-512 | the ring keeps the last `num` returned elements in their slots across index wrap-around |
| `Iov.FlattenAround` | hvisor-tool/tools/virtio_gpu_base.c:351-371 | a buffer's bytes sit in the concatenation right after those of the buffers before it |
| `Iov.SpliceThenWindow` | hvisor-tool/tools/virtio_gpu_base.c:351-393 | reading back a written window gives the data, and bytes outside the window are unchanged |
| `Iov.IovToBufFull` | hvisor-tool/tools/virtio_gpu_base.c:351-371 | copies min(n, total - offset) bytes of the concatenation, none past its end, and touches nothing else |
| `Iov.BufToIovFull` | hvisor-tool/tools/virtio_gpu_base.c:373-393 | the concatenation changes in exactly that window, over distinct buffers |
| `Iov.IovToBuf` | hvisor-tool/tools/include/virtio_gpu.h:247-260 | the one-buffer fast path meets the contract of the loop |
| `Iov.BufToIov` | hvisor-tool/tools/include/virtio_gpu.h:263-273 | the one-buffer fast path meets the contract of the loop |
| `Iov.WriteThenRead` | hvisor-tool/tools/virtio_gpu_base.c:351-393 | scattering and then gathering at the same offset gives the data back |
| `GpuResources.HostmemExact` | hvisor-tool/tools/virtio_gpu.c:180-188 | the computed size is the image's size if and only if neither product wraps, or there are no rows |
| `GpuResources.HostmemIs` | hvisor-tool/tools/virtio_gpu.c:180-188 | the computed size for all widths and heights, in 32-bit arithmetic |
| `GpuResources.InBoundsExactly` | hvisor-tool/tools/virtio_gpu.c:607-621 | the bounds test with its wrapping sums: both edges inside, or wrapped |
| `GpuResources.HasRows` | hvisor-tool/tools/virtio_gpu.c:168-175 | a resource of positive size has a positive height, so every stride is defined |
| `GpuResources.CreateKeepsInv` | hvisor-tool/tools/virtio_gpu.c:83-139 | creation keeps ids distinct and non-zero, the memory total exact and below 2^29, and masks right |
| `GpuResources.UnrefKeepsInv` | hvisor-tool/tools/virtio_gpu.c:190-241 | so does unreferencing, with every scanout that showed the resource blanked |
| `GpuResources.SetScanoutKeepsInv` | hvisor-tool/tools/virtio_gpu.c:487-587 | so does rebinding a scanout |
| `GpuResources.RefusedChangesNothing` | hvisor-tool/tools/virtio_gpu.c:786-841 | a refused command changes nothing but framebuffers enabled by a flush; unknown commands are refused, questions and truncated commands change nothing |
| `GpuResources.StepKeepsInv` | hvisor-tool/tools/virtio_gpu.c:786-841 | every command with any arguments keeps the whole table invariant |
| `GpuResources.After` | hvisor-tool/tools/virtio_gpu.c:786-841 | so does every sequence of commands |
| `GpuResources.RebindInPlace` | hvisor-tool/tools/virtio_gpu.c:561-587 | clearing the bit at the old resource and setting it at the new one moves the bit, also when they are the same resource |
| `GpuResources.CreateById` | hvisor-tool/tools/virtio_gpu.c:92-133 | in terms of ids: refused exactly for 0 and used ids, the id then names a new resource of the computed size unless memory would not suffice, and no other id is affected |
| `GpuResources.AttachById` | hvisor-tool/tools/virtio_gpu.c:643-669 | in terms of ids: exactly an unbacked resource gets the first `nr_entries` buffers, and no other id is affected |
| `GpuResources.TransferById` | hvisor-tool/tools/virtio_gpu.c:601-631 | in terms of ids: recorded exactly on a usable resource that contains the rectangle, the error of each other case, and no other id is affected |
| `GpuResources.UnrefById` | hvisor-tool/tools/virtio_gpu.c:190-241 | in terms of ids: the id is free again, its memory is given back, exactly the scanouts that showed it show nothing, and no other id is affected |
| `GpuResources.DetachById` | hvisor-tool/tools/virtio_gpu.c:767-784 | in terms of ids: exactly a usable resource loses its backing store, and nothing else changes |
| `GpuResources.SetScanoutById` | hvisor-tool/tools/virtio_gpu.c:487-587 | in terms of ids: accepted exactly for an existing scanout, a usable resource and a rectangle of at least 16 by 16 inside it; the scanout then has that rectangle and a framebuffer of the resource's format, size and stride; its bit moves to the resource; nothing else changes |
| `GpuResources.FlushById` | hvisor-tool/tools/virtio_gpu.c:253-308 | in terms of ids: accepted exactly for a usable resource containing the rectangle all of whose framebuffers exist or can be created; those of its scanouts are enabled, up to the first that cannot be |
| `GpuResources.GpuDevice.Create2d` | hvisor-tool/tools/virtio_gpu.c:83-139 | refuses id 0 and existing ids, creates nothing beyond the memory limit, otherwise adds an unbound resource |
| `GpuResources.GpuDevice.Destroy` | hvisor-tool/tools/virtio_gpu.c:210-241 | the loop over the mask blanks exactly the scanouts that show the resource, which leaves the list with its memory |
| `GpuResources.GpuDevice.AttachBacking` | hvisor-tool/tools/virtio_gpu.c:634-761 | attaches the first `nr_entries` buffers, or answers the error of each failing check |
| `GpuResources.GpuDevice.SetScanout` | hvisor-tool/tools/virtio_gpu.c:487-587 | succeeds exactly for an existing scanout, a usable resource and a displayable rectangle; then the scanout shows the resource with that rectangle, otherwise nothing changes |
| `GpuResources.GpuDevice.TransferToHost2d` | hvisor-tool/tools/virtio_gpu.c:589-632 | records an in-bounds transfer on the resource and nothing else |
| `GpuResources.GpuDevice.ResourceFlush` | hvisor-tool/tools/virtio_gpu.c:253-308 | only scanouts showing the resource, with a framebuffer, are painted, and all of them on success |
| `GpuResources.GpuDevice.Run` | hvisor-tool/tools/virtio_gpu.c:786-854 | any command sequence keeps the device valid and ends in the specified state |
| `GpuFlush.FullWidthSizes` | hvisor-tool/tools/virtio_gpu.c:415-441 | without wrap-around the stride is the row length and a full-width transfer stays inside the resource's memory |
| `GpuFlush.CopyAndFlush` | hvisor-tool/tools/virtio_gpu.c:392-447 | for every framebuffer: exactly when the copy stays inside it; a full-width copy that does not wrap paints exactly the rows of the transfer with the backing bytes from its offset; the row branch leaves at every address the byte of the last row that writes it |
| `GpuFlush.CopyRows` | hvisor-tool/tools/virtio_gpu.c:420-434 | the row loop stays inside the framebuffer exactly when every row does, and then every address has the byte of the last row that writes it, or is unchanged |
| `GpuFlush.PlainByte` | hvisor-tool/tools/virtio_gpu.c:420-434 | where no offset wraps, every address that a row reaches gets one and the same shift of the backing store |
| `GpuFlush.RowsStayExactly` | hvisor-tool/tools/virtio_gpu.c:420-434 | where no offset wraps, the row branch stays inside a framebuffer if and only if the last row that the backing store reaches does |
| `GpuFlush.OverrunsExactly` | hvisor-tool/tools/virtio_gpu.c:420-434 | for a framebuffer of the resource's size and a large enough backing store: if and only if the rectangle is empty or eight times its right edge fits the pixels from its last row on |
| `GpuFlush.OverrunInBounds` | hvisor-tool/tools/virtio_gpu.c:420-434 | an in-bounds transfer of the last half row of a 32 by 32 resource writes beyond its framebuffer |
| `GpuFlush.PartialWidthExactly` | hvisor-tool/tools/virtio_gpu.c:420-434 | where no offset wraps and the rows stay inside, the row branch paints exactly an in-bounds rectangle with its bytes, whatever the contents, if and only if the rectangle is empty or is the left part of one row that ends with the backing store |
| `GpuFlush.CommandsLeaveAlone` | hvisor-tool/tools/virtio_gpu.c:786-841 | any sequence of commands that do not destroy, detach, transfer to or flush a resource, nor set its scanout, leaves both as they are but for other bindings |
| `GpuFlush.TransferThenFlush` | hvisor-tool/tools/virtio_gpu.c:589-632 | a full-width transfer and a flush, with such commands in between, paint exactly those rows of the bound framebuffer from the resource's backing store, and no byte when nothing is copied |
| `Path.Canonicalize` | ruxos/crates/axfs_vfs/src/path.rs:28-61 | the buffer ends as the printed result of the component stack machine, or the code panics, exactly when a name follows one that ends in a multi-byte character |
| `Path.LastBoundary` | ruxos/crates/axfs_vfs/src/path.rs:50 | slicing off the last byte meets a character boundary exactly when the last character has one byte in UTF-8 |
| `Path.AsciiIsSafe` | ruxos/crates/axfs_vfs/src/path.rs:50 | ASCII paths never panic |
| `Path.PopName` | ruxos/crates/axfs_vfs/src/path.rs:34-44 | popping characters takes back exactly the last component |
| `Path.CanonicalIdempotent` | ruxos/crates/axfs_vfs/src/path.rs:28-61 | a canonical path is its own canonical form |
| `Path.CanonicalDecides` | ruxos/crates/axfs_vfs/src/path.rs:28-61 | two paths have the same canonical form exactly when both are absolute or both relative and they name the same components |
| `RamFs.LookupIsWalk` | ruxos/crates/axfs_ramfs/src/dir.rs:90-108 | recursion over the path string is a walk over its slash-separated components, errors included |
| `RamFs.TargetIsWalk` | ruxos/crates/axfs_ramfs/src/dir.rs:129-151 | `create` and `remove` act in the directory that all but the last component lead to |
| `RamFs.OnePath` | ruxos/crates/axfs_ramfs/src/dir.rs:53-65 | in the tree a node has one path |
| `RamFs.CanonicalAgrees` | ruxos/crates/axfs_ramfs/src/dir.rs:90-108 | if a path leads to a node, its canonical form leads to the same node |
| `RamFs.LookupExactly` | ruxos/crates/axfs_ramfs/src/dir.rs:90-108 | a path resolves if and only if every prefix leads to a directory, no `..` is taken at the root and the names left lead somewhere, which is the answer |
| `RamFs.CanonicalLookup` | ruxos/crates/axfs_ramfs/src/dir.rs:90-108 | a canonical path resolves exactly when its names lead somewhere, and to that |
| `RamFs.CanonicalGainsExactly` | ruxos/crates/axfs_ramfs/src/dir.rs:90-108 | exactly when a canonical path resolves and the original does not |
| `RamFs.CanonicalMayGain` | ruxos/crates/axfs_ramfs/src/dir.rs:94-101 | two families that gain: stepping back from a missing name, and a slash after a file |
| `RamFs.CreateKeepsTree` | ruxos/crates/axfs_ramfs/src/dir.rs:129-151 | creation at any path from any node keeps a tree in which each directory's parent is the one that holds it |
| `RamFs.RemoveKeepsTree` | ruxos/crates/axfs_ramfs/src/dir.rs:153-175 | so does removal |
| `RamFs.CreateExactly` | ruxos/crates/axfs_ramfs/src/dir.rs:53-65 | from any node, in terms of where all components but the last lead: the error of every failing case, and otherwise exactly an empty file or directory of the right parent added under the last component |
| `RamFs.RemoveExactly` | ruxos/crates/axfs_ramfs/src/dir.rs:68-78 | in the same terms: the error of every failing case, and otherwise exactly that entry and its node gone |
| `RamFs.WalkFails` | ruxos/crates/axfs_ramfs/src/dir.rs:90-108 | a walk fails at its first component that cannot be taken: NotADirectory at a file, NotFound for a missing name or parent |
| `RamFs.CreateMakesPath` | ruxos/crates/axfs_ramfs/src/dir.rs:129-151 | exactly the created path's names lead to the new node, a file or an empty directory with the right parent as asked for, and every other list of names leads where it did |
| `RamFs.RemoveUndoesCreate` | ruxos/crates/axfs_ramfs/src/dir.rs:153-175 | removing what was just created restores the nodes as they were |
| `RamFs.RemoveDetachesLeaf` | ruxos/crates/axfs_ramfs/src/dir.rs:68-78 | a removal takes away one file or empty directory, and only its own path stops resolving |
| `RamFs.RamFileSystem.CreateNode` | ruxos/crates/axfs_ramfs/src/dir.rs:53-65 | AlreadyExists, Unsupported, or exactly a new empty file or directory of that parent under that name |
| `RamFs.RamFileSystem.RemoveNode` | ruxos/crates/axfs_ramfs/src/dir.rs:68-78 | NotFound, DirectoryNotEmpty, or exactly that entry and its node gone |
| `RamFs.RamFileSystem.Create` | ruxos/crates/axfs_ramfs/src/dir.rs:129-151 | the recursion creates in the path's target directory, with the error of each failing case |
| `RamFs.RamFileSystem.Remove` | ruxos/crates/axfs_ramfs/src/dir.rs:153-175 | the recursion removes from the path's target directory, with the error of each failing case |
| `RamFs.RamFileSystem.Run` | ruxos/crates/axfs_ramfs/src/dir.rs:129-175 | every run of creations and removals keeps the tree |

## Left out

- Mapper::Fixed regions, page-table `clone` and `update`: shared or single physical pages, for which the offset specification does not apply.
- Frame allocation: a pool of distinct, aligned, zeroed frames that can run dry stands for the allocator.
- Locks around the page table, TLB maintenance, barriers and system registers; all interleavings are sequentially consistent.
- riscv64 and loongarch64 page tables and the loongarch interrupt path.
- Register emulation behind a configuration request: the value a read returns is a parameter of the step.
- The transport of the wake-up event to the daemon's signal is a counter of events in flight.
- SGIs are pending at most once per CPU, as on a GICv3; a GICv2 keeps one per sender.
- The tests in `virtio_inject_irq` that skip an interrupt the driver does not want; the result-ring model starts after them.
- VIRTIO_RING_F_EVENT_IDX: no device offers it, so only the NO_NOTIFY flag is modelled.
- Block I/O itself, descriptor chains that cannot be flattened, the network and console devices, and the GPU cursor queue.
- DescChain.VirtQueue.ProcessDescriptorChain: covers chains of direct descriptors with at most one fully linked indirect table at the end, as drivers build them; masking by `num - 1` is the remainder by a power of two.
- GPU resources are list elements addressed by position rather than separate objects, and bitmasks are sets of bits.
- DRM and mmap calls: their success is a parameter and framebuffer memory is an array.
- GPU display information, EDID and device reset.
- File contents, directory listing, recursive creation, mounting with a parent, and nodes kept alive after removal.
- Zones, IVC, PCI, interrupt controllers, SMMU, boot code, configuration parsing and the command-line tool.
