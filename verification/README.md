# Verified models of stream-os

stream-os is a small 32-bit x86 kernel with its own heap allocator, async executor, timers and network
stack.  This project models its algorithmic cores in Dafny and proves what they promise.  Every
`.dfy` file belongs to it; `dafny verify dfyconfig.toml` checks all of them together.

## What is modelled

**Allocator** (`Segments`, `FreeList`, `Memory`, `Allocator`).  The free list lives in the memory it manages:
the class `Allocator` works on an array of bytes, with headers read and written as little-endian words at
addresses.  It is proved to implement an allocator on values, whose free list is shown to be a canonical
form of the live blocks.  Pointer subtraction in the placement search is modulo 2^32.

**TCP** (`TcpModel`, `TcpRuns`, `TcpStream`, `TcpRetention`, `TcpPeer`, `TcpHandshake`, `TcpSender`, `TcpNotice`, `Tcp`; runs
built step by step in `TcpScript`, `TcpReorder` and `TcpForget`).  The classes in `Tcp` update connections and the table of keys in place and are proved
against the steps in `TcpModel`.  `TcpRuns` runs these steps over arbitrary event sequences and records what was taken from the
application, delivered to it and sent.

**Ring queue** (`RingQueue`), **executor** (`Executor`, `ExecutorProgress`), **frames and checksum** (`Checksum`, `Frames`,
`TcpFrame`, `FrameBytes`), **timers** (`Timer`) and the **async mutex** (`AsyncMutex`).

## Properties that are false, and when they hold

- Placement search: a request for which `segment_end - size` or one of the following subtractions goes below
  address 0 is answered with an address behind the segment (`Segments.FindHeaderWrapExample`).  The answer is a
  placement if and only if nothing wrapped (`Segments.FindHeaderExact`); a refusal is always right.  After a wrapped
  search `alloc` panics in `set_end` before it writes anything if and only if the block, its header and the bytes lost
  to alignment together exceed the segment by at most 2^31, which is always so for a payload of 7 bytes or more
  (`Segments.WrapPanics`).  On a smaller one it can go unnoticed (`Segments.WrapUnnoticedExample`): `alloc` then breaks the
  free list and hands out an address about 2^31 bytes behind the segment (`Allocator.Allocator.Alloc`).
- Sent stream: two duplicate acknowledgements put the later unacknowledged packets behind those already waiting,
  so bytes can go out with the sequence numbers of other bytes (`TcpReorder.ReorderExample`).  A go-back is harmless
  if and only if the waiting bytes commute with the later ones, for one go-back (`TcpStream.GoBackExact`) and over every
  run (`TcpStream.SentExact`); judged by the numbers of bytes alone, if and only if one of the two is zero
  (`TcpReorder.GuardExact`).
- Retention: unacknowledged bytes are given up in three ways.  An acknowledgement that ends inside the oldest packet
  drops the whole packet, and if that moves the oldest held byte past the wrap of the sequence numbers its repetition
  drops the next one too (`TcpForget.ForgetExample`).  An acknowledgement number beyond everything sent can drop the
  oldest packet as well (`TcpForget.BeyondSentExample`).  A go-back takes the packet it retransmits out of the queue for
  good: no later segment carries a byte of it, so a second loss is never repaired (`TcpRetention.GivenUpForever`).
  A run keeps every unacknowledged byte at every point if and only if each of its steps meets the exact condition for
  its kind (`TcpRetention.RetentionExact`).  Runs without go-backs and without such acknowledgement numbers do, also
  across the wrap (`TcpRetention.NothingForgotten`).
- Waking the sender: the frame handler leaves the sending service something to send without waking it if and only if
  the frame is the second duplicate acknowledgement, has PSH set and leaves a packet unacknowledged (`TcpNotice.NoticeExact`, `TcpNotice.UnheardExample`).
- Receiving: bytes of an in-order segment without PSH are acknowledged and never delivered, and so are those of the
  acknowledgement that completes the handshake (`TcpPeer.LossExample`).  The delivered bytes are the acknowledged
  prefix of the peer's stream at every point of a run if and only if no frame is of that kind (`TcpPeer.ReceiveExact`).
- UDP and TCP payloads above the 16-bit IPv4 length do not survive their own framing (`Frames.UdpLayers`,
  `Frames.TcpLayers`).

## Assumptions

- The managed region starts above address 0, ends below 2^32 and has at most `isize::MAX` bytes behind its first header;
  `dealloc` is called with the pointer of a live block, as the `GlobalAlloc` contract demands.
- Calls on the ring queue do not overlap, and its compare-exchanges do not fail spuriously; the retry loop
  around the reservation therefore runs once and is written without the loop.
- Frames of one TCP key are handled one at a time, as the lock on the table arranges.  Random initial sequence
  numbers, the clock, hash map iteration order and the readiness of the outbox channel are parameters.
- Sequence and acknowledgement numbers wrap modulo 2^32, as unchecked 32-bit addition does.
- The tick counter does not wrap.
- A timer registration takes effect in three steps (lock, push, wake); polls of the timer service may come between them.
- Memory is the array the allocator was given; a word written beyond its end has no effect in the model.

## Model

| member | source | states |
|---|---|---|
| Segments.FindHeaderComplete | src/allocator.rs:103-120 | the search answers None only when the segment has no aligned placement that leaves room for the header, and then no pointer wrapped |
| Segments.FindHeaderWraps | src/allocator.rs:107-111 | a subtraction that wraps below address 0 never yields None, and the address it yields is at or behind the end of the segment |
| Segments.FindHeaderExact | src/allocator.rs:103-120 | the address found is a placement if and only if no subtraction wrapped, and then it is the highest placement in the segment |
| Segments.FindHeaderWrapExample | src/allocator.rs:107-119 | a 2 MiB request against a 4 KiB segment at 1 MiB is answered with an address outside the segment |
| Segments.WrapPanics | src/allocator.rs:30-35 | the distance given to set_end is negative as isize, which its expect refuses, if and only if the search wrapped and block, header and dropped bytes exceed the segment by at most 2^31; always, if the segment has 7 bytes or more |
| Segments.UnnoticedIsStray | src/allocator.rs:30-58 | otherwise the segment has at most 6 bytes, the address is more than 2^31 above it, neither set_end panics and the size stored for the segment is wrong |
| Segments.WrapUnnoticedExample | src/allocator.rs:107-119 | an empty segment and a layout of isize::MAX bytes for which the wrapped search is not refused |
| FreeList.InitialTiles | src/allocator.rs:90-98 | the single initial segment tiles the region |
| FreeList.CoverDetermines | src/allocator.rs:126-156 | two address-ordered lists without touching neighbours that cover the same bytes are equal |
| FreeList.Canonical | src/allocator.rs:126-204 | the live blocks alone determine the free list: it is the ordered list of maximal gaps between them |
| FreeList.EmptyIsInitial | src/allocator.rs:126-204 | with no live block the free list is the single initial segment |
| FreeList.FirstFit | src/allocator.rs:172-182 | the scan stops at the first segment whose search succeeds; all earlier ones answered None |
| FreeList.FirstFitExact | src/allocator.rs:172-193 | the panic is reached only when no free segment has any placement; otherwise the first segment with one is used at its highest placement, unless its pointer wrapped |
| FreeList.CarveTiles | src/allocator.rs:184-191 | carving a block off the tail of a free segment keeps the tiling, and the block is new |
| FreeList.Predecessor | src/allocator.rs:142-154 | the insertion point: everything up to it starts no later than the address, the next element starts after it |
| FreeList.PredecessorBelow | src/allocator.rs:142-151 | for a live block every element up to the insertion point ends at or before it, and it ends at or before the next one |
| FreeList.InsertSeparated | src/allocator.rs:126-140 | insertion with coalescing on both sides keeps the list ordered without touching neighbours, keeps its head, and adds exactly the bytes of the segment |
| FreeList.ReleaseTiles | src/allocator.rs:158-203 | freeing a live block keeps the tiling |
| FreeList.StepTiles | src/allocator.rs:167-204 | every call that returns keeps the tiling |
| FreeList.RunTiles | src/allocator.rs:167-204 | after every run free segments and live blocks, headers included, tile the region with no gap or overlap |
| FreeList.RunsAgree | src/allocator.rs:167-204 | two runs that end with the same live blocks end with the identical free list |
| FreeList.RunRestores | src/allocator.rs:275-318 | a run that has freed everything, in any order, ends in the initial state |
| FreeList.AllocFreeRestores | src/allocator.rs:234-273 | freeing the block just allocated restores the heap |
| FreeList.RunExample | src/allocator.rs:167-204 | a concrete allocation and its release, with the addresses and sizes that result |
| Memory.WordLayout | src/allocator.rs:14-19 | a header word lies in memory with its least significant byte first |
| Allocator.MergeLinked | src/allocator.rs:126-131 | overwriting a header so that it absorbs its successor gives the memory image of the merged list |
| Allocator.LinkLinked | src/allocator.rs:133-136 | the two link writes give the memory image of the list with the new element |
| Allocator.InsertAfterSteps | src/allocator.rs:133-140 | linking, merging forward and merging backward compose to the insertion on values |
| Allocator.CarveLinked | src/allocator.rs:184-191 | the two size writes of alloc give the memory image of the shortened list |
| Allocator.HeaderCases | src/allocator.rs:103-191 | the address found is a placement if and only if nothing wrapped; otherwise set_end panics on it or it is a stray one |
| Allocator.StrayBreaks | src/allocator.rs:184-191 | the writes for a stray address break the free list in memory and leave every live block alone if the address lies behind the region |
| Allocator.ClientWrite | src/allocator.rs:167-194 | a write inside the payload of a live block keeps the free list, every used header and the bytes of all other blocks |
| Allocator.Allocator.constructor | src/allocator.rs:74-101 | init writes one header and establishes the invariant with one free segment and no live block |
| Allocator.Allocator.GetEnd | src/allocator.rs:26-28 | the end address read off the header in memory |
| Allocator.Allocator.SetEnd | src/allocator.rs:30-35 | panics if and only if the distance from the payload start is negative as isize, without a write; otherwise only the size word changes, to that distance |
| Allocator.Allocator.MergeIfAdjacent | src/allocator.rs:126-131 | in-place merge of an element with its successor: links stay right and only that header changes |
| Allocator.Allocator.InsertSegmentAfter | src/allocator.rs:133-140 | the list in memory becomes the insertion on values; bytes change only inside the two segments |
| Allocator.Allocator.FindPredecessor | src/allocator.rs:142-156 | for a live block the walk terminates at its predecessor; the order assertion holds and the panic is unreachable |
| Allocator.Allocator.InsertSegmentIntoList | src/allocator.rs:142-156 | the list in memory is the released free list; bytes change only in the predecessor and the block |
| Allocator.Allocator.ConvertUsedToFreeSegment | src/allocator.rs:158-164 | turns a used header into a free one and inserts it |
| Allocator.Allocator.CarveBlock | src/allocator.rs:184-191 | for a placement the new block is aligned, large enough and inside a former free segment and no byte of another live block changes; the panic of set_end changes nothing; a stray address gives exactly the two misplaced size words |
| Allocator.Allocator.Alloc | src/allocator.rs:167-194 | for every layout one of four outcomes, decided by the segment that first fit picks: a fresh aligned block, the step of the heap on values, the invariant kept and no byte of a live block changed; the allocation panic with no placement anywhere; the set_end panic; or a stray pointer and a broken list. Both panics change nothing |
| Allocator.Allocator.Dealloc | src/allocator.rs:196-203 | releases the block of the pointer, keeps the invariant, changes no byte of any remaining live block |
| Allocator.Allocator.CaptureState | src/allocator.rs:214-232 | walking the links from the head terminates and yields exactly the free list |
| RingQueue.PushRepresents | src/util/lock_free_queue.rs:26-83 | storing at the reserved slot and advancing represents the queue with the element appended, sentinel included |
| RingQueue.PopRepresents | src/util/lock_free_queue.rs:107-147 | clearing the head slot and advancing represents the queue without its first element, also out of the full state |
| RingQueue.Ring.constructor | src/util/lock_free_queue.rs:153-174 | a new ring of any capacity represents the empty queue |
| RingQueue.Ring.ValidIffOccupied | src/util/lock_free_queue.rs:11-17 | a valid flag is set exactly for the slots that hold an element |
| RingQueue.Ring.Push | src/util/lock_free_queue.rs:26-83 | succeeds if and only if fewer than capacity elements are held; then appends, otherwise changes nothing |
| RingQueue.Ring.Pop | src/util/lock_free_queue.rs:107-150 | None if and only if empty; otherwise removes and returns the oldest element, which is initialised; the internal assertions hold |
| RingQueue.Ring.Size | src/util/lock_free_queue.rs:92-105 | the number of elements held |
| RingQueue.Replay | src/util/lock_free_queue.rs:26-150 | every run of non-overlapping calls has the outcomes of a FIFO of that capacity |
| Executor.NextKeeps | src/future.rs:79-165 | every action of the main thread, a CPU or a waker keeps placement, exclusivity, synchronisation, wakes and poll-once |
| Executor.ReachedInv | src/future.rs:79-165 | the invariant holds in every reachable state |
| Executor.HistoryExact | src/future.rs:25-165 | the tasks recorded as spawned, woken, completed and polled in the batch are those that the actions of the run spawn, wake, complete and begin to poll |
| Executor.NoLostWake | src/future.rs:25-29 | over every run, a task that some action woke or spawned, of which no later action begins a poll and no poll returned Ready, is in the wake queue or in the batch with its poll not begun |
| Executor.WokenIsQueued | src/future.rs:94-104 | at the loop top every such task is in the wake queue |
| Executor.PollsExclusive | src/future.rs:106-160 | when a poll begins no other CPU has the same task, no earlier action of this batch began a poll of it, and no poll of it returned Ready |
| Executor.MapAtTop | src/future.rs:79-83 | at the loop top the map holds exactly the spawned tasks none of whose polls returned Ready |
| Executor.ReturnsWhenComplete | src/future.rs:79-92 | at the loop top run returns if and only if a poll of every spawned task has returned Ready; otherwise it goes on with all CPUs, none of them busy |
| Executor.ReturnedComplete | src/future.rs:79-83 | once run has returned exactly the spawned tasks have had a poll that returned Ready |
| Executor.MissingIsCompleted | src/future.rs:106-113 | a batch entry is missing from the map exactly when a poll of its task returned Ready |
| Executor.Dispatch | src/future.rs:137-159 | the CPU looked at gets the task exactly if it is idle, and every CPU before it, or all if the main thread gets it, was found busy since the task was taken |
| Executor.PanicsWhenFull | src/future.rs:25-29 | a wake or spawn panics exactly when 1024 wakes are queued, and no other action does |
| ExecutorProgress.TowardsAdvances | src/future.rs:79-165 | in every reachable state in which a task is due, some step of the executor is possible and brings its poll closer |
| ExecutorProgress.WokenCanBePolled | src/future.rs:79-165 | from every reachable state a woken, uncompleted task can be polled: finitely many steps of the executor alone end in the beginning of its poll |
| Checksum.CalculateChecksum | src/net/mod.rs:407-423 | the loop computes the complement of the word sum modulo 65535, zero represented as 0 only for a zero sum; with the bytes at even positions counted 256 times the result makes up a multiple of 65535; the increment does not overflow |
| Checksum.VerifiesIff | src/net/mod.rs:407-423 | a message checksums to zero if and only if its word sum is a nonzero multiple of 65535 |
| Checksum.ChecksumBytes | src/net/mod.rs:407-423 | the checksum plus 256 times the even bytes plus the odd bytes is a multiple of 65535 |
| Checksum.VerifiesBytes | src/net/mod.rs:407-423 | a message checksums to zero if and only if it is not all zero and its bytes, the even ones counted 256 times, are a multiple of 65535 |
| Checksum.StoredChecksumVerifies | src/net/mod.rs:449-455 | storing the checksum in the zero word makes the message checksum to zero |
| Checksum.ChecksumDetects | src/net/mod.rs:407-423 | replacing one word of a verifying message keeps it verifying exactly when the word is the same or 0 is exchanged with 65535 |
| Checksum.AllOnesIffZero | src/net/mod.rs:407-423 | the checksum is 65535 exactly for all-zero data |
| Frames.EthernetRoundTrip | src/net/mod.rs:24-102 | addresses, type and payload come back, the payload followed by padding up to the minimum length, for any CRC |
| Frames.GenerateEthernetFrame | src/net/mod.rs:24-43 | the appended bytes are the frame on values |
| Frames.GenerateArpFrame | src/net/mod.rs:279-293 | the appended bytes are the frame on values |
| Frames.ArpRoundTrip | src/net/mod.rs:250-293 | every ARP parameter set comes back, whatever padding follows |
| Frames.GenerateIpv4Frame | src/net/mod.rs:425-460 | the appended and patched bytes are the frame on values |
| Frames.Ipv4HeaderVerifies | src/net/mod.rs:449-455 | the header of every generated frame checksums to zero |
| Frames.Ipv4RoundTrip | src/net/mod.rs:357-405 | a generated frame is accepted with protocol and source; the payload comes back cut at the truncated total length, or the accessor panics if that is below the header length |
| Frames.GenerateUdpFrame | src/net/mod.rs:495-508 | the appended bytes are the frame on values |
| Frames.UdpRoundTrip | src/net/mod.rs:470-508 | a payload of at most 65527 bytes comes back |
| Frames.UdpLayers | src/net/mod.rs:528-585 | through UDP, IPv4 and Ethernet with padding and CRC the payload and the MACs come back if and only if the payload has at most 65507 bytes |
| Frames.TcpLayers | src/net/mod.rs:528-585 | through IPv4 and Ethernet a TCP frame comes back if and only if it has at most 65515 bytes |
| Frames.ArpLayers | src/net/mod.rs:528-548 | through Ethernet with padding and CRC every ARP parameter set and the MACs come back |
| FrameBytes.EthernetBytes | src/net/mod.rs:24-43 | every byte of a generated frame: addresses, type most significant byte first, payload, zeros up to 60 bytes |
| FrameBytes.ArpBytes | src/net/mod.rs:279-293 | every byte of a generated ARP frame, with operation 1 for a request and 2 for a reply |
| FrameBytes.Ipv4Bytes | src/net/mod.rs:425-460 | every byte of a generated packet: 0x45, length modulo 2^16, no fragmentation, 64 hops, protocol, source, destination, payload, and a header that balances modulo 65535 |
| FrameBytes.UdpBytes | src/net/mod.rs:495-508 | every byte of a generated datagram, with source port and checksum zero |
| FrameBytes.WireBytes | src/net/mod.rs:558-572 | on the wire IPv4 has type 0x0800 and ARP 0x0806, TCP is protocol 6 and UDP 17 |
| FrameBytes.EthernetParse | src/net/mod.rs:52-102 | on any bytes: what is rejected, and where addresses, type and payload are read, with and without the tag 0x8100 |
| FrameBytes.ArpParse | src/net/mod.rs:150-277 | on any bytes: only 28 bytes or more with operation 1 or 2 are taken, and each field is read from its place |
| FrameBytes.Ipv4Parse | src/net/mod.rs:357-405 | on any bytes: which are rejected, which panic, and the payload between the header length and the total length |
| FrameBytes.UdpParse | src/net/mod.rs:470-493 | on any bytes: which are rejected, which panic, and the data up to the length field |
| TcpFrame.FlagsRoundTrip | src/net/tcp.rs:86-99 | the accessors return the flags the byte was generated from |
| TcpFrame.GenerateTcpFrame | src/net/tcp.rs:209-243 | the appended and patched bytes are the frame on values |
| TcpFrame.FrameVerifies | src/net/tcp.rs:227-240 | pseudo-header and frame, zero-padded to even length, checksum to zero |
| TcpFrame.FrameRoundTrip | src/net/tcp.rs:105-179 | parsing a generated frame returns every field and the payload |
| FrameBytes.FlagsBits | src/net/tcp.rs:86-99 | each flag has its bit, CWR 128 down to FIN 1 |
| FrameBytes.FlagsParse | src/net/tcp.rs:28-58 | each accessor reads its bit of any byte |
| FrameBytes.TcpBytes | src/net/tcp.rs:209-243 | every byte of a generated frame but flags and checksum, most significant bytes first |
| FrameBytes.TcpFlagBits | src/net/tcp.rs:219 | the flag byte of a generated frame |
| FrameBytes.PseudoHeaderBytes | src/net/tcp.rs:227-232 | the addresses, the protocol 6 and the length that the checksum covers |
| FrameBytes.TcpBalanced | src/net/tcp.rs:227-240 | frame and pseudo-header balance modulo 65535, byte by byte |
| FrameBytes.TcpParse | src/net/tcp.rs:105-179 | on any bytes: when the accessors panic, and ports, window and payload behind the data offset |
| FrameBytes.TcpParseNumbers | src/net/tcp.rs:126-140 | on any bytes: sequence and acknowledgement number, most significant byte first |
| TcpRuns.GoBackConserves | src/net/tcp.rs:612-618 | going back conserves sequence space: bytes moved to the send queue equal the sequence numbers given back |
| TcpRuns.PushConserves | src/net/tcp.rs:245-277 | sending a packet extends the contiguous unacknowledged chain by its length |
| TcpRuns.PollConserves | src/net/tcp.rs:609-646 | every poll keeps the chain and the sequence-space equation |
| TcpRuns.RecvConserves | src/net/tcp.rs:399-570 | every frame keeps them, and one connection at most is accepted |
| TcpRuns.RunConserves | src/net/tcp.rs:532-684 | in every reachable connected state the unacknowledged packets are a contiguous chain ending at seq_num, and seq_num plus the waiting bytes is initial seq + 1 plus all bytes taken, modulo 2^32 |
| TcpSender.TakesExactly | src/net/tcp.rs:634-645 | a poll takes the oldest write, and only if the channel can be read, nothing waits and it does not go back |
| TcpSender.WrittenIsTaken | src/net/tcp.rs:332-337 | over every run the bytes taken followed by those in the channel are the bytes the application wrote |
| TcpSender.SentAddressed | src/net/tcp.rs:245-277 | every data segment of every run, parsed from its bytes: ACK as its only flag, flag byte 0x10, the ports of the key, a window of 512 bytes, its payload |
| TcpSender.DataAcknowledges | src/net/tcp.rs:245-277 | a segment sent for the first time acknowledges exactly the bytes delivered so far |
| TcpSender.RunRemembers | src/net/tcp.rs:513-538 | over every run a connection remembers the number and window of the last frame that counted, and how often its acknowledgement number was repeated, up to 255 |
| TcpSender.GoBackWhen | src/net/tcp.rs:524-613 | a go-back is due if and only if something is unacknowledged and the last three frames that counted carry the same acknowledgement number |
| TcpStream.CarriesOffset | src/net/tcp.rs:245-277 | for streams under 2^32 bytes a segment carries its slice of the stream if and only if it does so at the offset given by its sequence number |
| TcpStream.GuardCommutes | src/net/tcp.rs:612-618 | with nothing waiting or no later packet, moving the later packets back cannot reorder bytes |
| TcpStream.OldestCarries | src/net/tcp.rs:612-625 | the packet retransmitted carries its slice of the stream |
| TcpStream.NextCarries | src/net/tcp.rs:634-645 | the next waiting packet carries its slice of the stream |
| TcpStream.GoBackInOrder | src/net/tcp.rs:612-618 | a go-back keeps the queued bytes in stream order if and only if waiting bytes and later bytes commute |
| TcpStream.StepStream | src/net/tcp.rs:380-646 | every event keeps stream order and sent segments, a go-back under the commuting condition |
| TcpStream.SentStream | src/net/tcp.rs:609-646 | in every run whose go-backs commute each segment ever sent, first or again, carries the slice at offset seq - (initial seq + 1) |
| TcpStream.GuardedRunIsSafe | src/net/tcp.rs:612-618 | runs that go back only with nothing waiting or one packet unacknowledged satisfy the condition |
| TcpStream.SentOnTheWire | src/net/tcp.rs:619-645 | such a segment, framed through all layers and parsed by the receiver, is the announced slice of the stream |
| TcpStream.DrainStep | src/net/tcp.rs:609-646 | after a go-back the duplicate counter stays up: each packet is sent, then sent again, before the next |
| TcpStream.DrainFinds | src/net/tcp.rs:609-646 | if the waiting bytes are not the end of the stream, some number of polls sends a wrong segment |
| TcpStream.GoBackExact | src/net/tcp.rs:609-646 | from an ordered state a go-back followed by any number of polls sends only right segments if and only if the waiting bytes commute with the later ones |
| TcpStream.SentExact | src/net/tcp.rs:609-646 | over every run of a stream under 2^32 bytes: every go-back, with any number of polls after it, sends only right segments if and only if each go-back finds commuting queues |
| TcpReorder.ReorderExample | src/net/tcp.rs:609-646 | a run from the handshake on in which a byte is sent with the sequence number of another |
| TcpReorder.Load | src/net/tcp.rs:513-646 | for all payloads and initial sequence numbers there is a safe run from the handshake to a go-back with one packet waiting and one later packet unacknowledged |
| TcpReorder.GuardExact | src/net/tcp.rs:612-618 | for given numbers of waiting and later bytes, a go-back keeps every safe run with these numbers in stream order if and only if one of them is zero |
| TcpRetention.NewAckedShort | src/net/tcp.rs:524-536 | what counts as acknowledged, on streams under 2^32 bytes: the offset of the number if it is the highest yet and was sent, otherwise nothing new |
| TcpRetention.AckedTaken | src/net/tcp.rs:513-684 | over every run no byte counts as acknowledged that was not sent |
| TcpRetention.RecvRetention | src/net/tcp.rs:530-536 | after a frame every byte that is not acknowledged is still queued, byte for byte, if and only if the frame does not drop an oldest packet that ends beyond the acknowledged bytes |
| TcpRetention.GoBackRetention | src/net/tcp.rs:612-625 | a go-back that keeps the order leaves every unacknowledged byte queued if and only if the packet it retransmits was acknowledged already |
| TcpRetention.RetentionExact | src/net/tcp.rs:513-684 | in every run whose go-backs commute, each byte that is not acknowledged is queued at every point if and only if every frame and go-back meets its condition |
| TcpRetention.NothingForgotten | src/net/tcp.rs:513-684 | in every run without go-backs and without acknowledgement numbers inside a packet or beyond what was sent, wrap-around included, the bytes of the stream that are not acknowledged are the end of the unacknowledged and the send queue |
| TcpRetention.RunForward | src/net/tcp.rs:513-684 | from any reachable state on, the oldest held byte never moves back and every further segment starts at or behind it |
| TcpRetention.GivenUpForever | src/net/tcp.rs:612-625 | after a go-back no later segment of any continuation starts before the end of the packet it retransmitted |
| TcpForget.ForgetExample | src/net/tcp.rs:532-536 | a run from the handshake on that ends with three bytes taken, one acknowledged and both queues empty |
| TcpForget.BeyondSentExample | src/net/tcp.rs:532-536 | a run in which a number beyond everything sent drops a packet: two bytes taken, none acknowledged, both queues empty |
| TcpPeer.ConnectedStays | src/net/tcp.rs:399-570 | a connected key stays connected; it becomes connected if and only if a pending SYN-ACK meets the expected acknowledgement with a listener, with one hand-over |
| TcpPeer.SynRestarts | src/net/tcp.rs:447-455 | a SYN while the SYN-ACK is pending acts as on a fresh key: the re-entrant call does not re-enter again |
| TcpHandshake.SynAnswer | src/net/tcp.rs:405-431 | the answer to a SYN, parsed from its bytes: SYN and ACK and no other flag, flag byte 0x12, the next sequence number acknowledged, ports exchanged, the window of the frame, no data |
| TcpHandshake.Retransmission | src/net/tcp.rs:647-656 | over every run a poll while the handshake is pending sends something if and only if its time is later than the timeout of the latest SYN plus one period for every poll that sent since, and what it sends is the answer to that SYN |
| TcpHandshake.RetransmissionTimes | src/net/tcp.rs:647-656 | with one period for all polls: after k retransmissions, one more if and only if the time is later than the timeout plus k periods |
| TcpPeer.Handshake | src/net/tcp.rs:399-512 | over every run at most one connection is handed over, exactly when connected, after a SYN s and a later plain acknowledgement with sequence s + 1 |
| TcpPeer.ReceivePrefix | src/net/tcp.rs:513-565 | under any loss, duplication and reordering the delivered bytes are the prefix of the peer's stream of length outgoing_ack_num - (peer initial seq + 1) |
| TcpPeer.AckMatchesDelivery | src/net/tcp.rs:538-566 | the acknowledgement returned covers exactly the delivered bytes and the current send position, with ACK as its only flag and the window of the peer, addressed back to the peer |
| TcpPeer.DeliveredIsInbox | src/net/tcp.rs:563-566 | the delivered bytes are what was put into the channel to the application |
| TcpPeer.PushExact | src/net/tcp.rs:399-568 | in every state a frame of the peer's stream keeps the delivered bytes the acknowledged prefix if and only if it is a SYN, has PSH set or no payload, or is ignored in that state |
| TcpPeer.ReceiveExact | src/net/tcp.rs:399-568 | over every run, under any loss, duplication and reordering, the delivered bytes are the acknowledged prefix at every point if and only if every frame meets that condition |
| TcpPeer.LossExample | src/net/tcp.rs:497-500 | a run in which the acknowledgement completing the handshake carries a byte that is acknowledged and never delivered |
| TcpNotice.NoticeExact | src/net/tcp.rs:399-576 | a frame leaves the idle service something to send without waking it if and only if it is a second duplicate acknowledgement with PSH that leaves a packet unacknowledged |
| TcpNotice.HandshakeNotices | src/net/tcp.rs:399-576 | on a key that is not connected the service is woken exactly for the frames that are answered or make the connection |
| TcpNotice.UnheardExample | src/net/tcp.rs:563-566 | a run from the handshake on to such a frame |
| Tcp.Connection.constructor | src/net/tcp.rs:497-507 | initial fields of a connection, queues empty |
| Tcp.Connection.HandleFrame | src/net/tcp.rs:513-568 | the connected branch of the frame handler makes the step on values |
| Tcp.Connection.GenerateTcpPush | src/net/tcp.rs:245-277 | parameters of the next segment; seq_num advances by the payload length modulo 2^32 |
| Tcp.Connection.WriteRequestToOutgoingPacket | src/net/tcp.rs:665-684 | the segment is generated and remembered as unacknowledged |
| Tcp.Connection.Requeue | src/net/tcp.rs:616-618 | the loop moves the payloads of all later packets, in order, behind those waiting |
| Tcp.Connection.Poll | src/net/tcp.rs:611-646 | the connected branch of the poller makes the step on values |
| Tcp.Tcp.constructor | src/net/tcp.rs:358-367 | every key starts uninitialised |
| Tcp.Tcp.Listen | src/net/tcp.rs:369-377 | a new channel, whose receiver is returned, is registered for the address and port in place of any earlier one |
| Tcp.Tcp.Accept | src/net/tcp.rs:497-509 | the key becomes connected with empty queues and goes into the channel of its listener and no other |
| Tcp.Tcp.HandleState | src/net/tcp.rs:399-570 | the match on the state, with its re-entrant call and early returns, makes the step on values, registers the timer of a SYN-ACK and leaves the other keys alone |
| Tcp.Tcp.HandleFrame | src/net/tcp.rs:380-578 | the key of the frame makes the step on values, all other keys are unchanged, a new connection goes through the listener's channel only, the bytes returned are the generated response, and the service is woken exactly on the branches that reach the end |
| Tcp.Tcp.PollKey | src/net/tcp.rs:609-658 | one round of the poll loop makes the step of its key and leaves the others alone |
| Tcp.Tcp.Poll | src/net/tcp.rs:596-663 | stores the waker; the first key with something to send makes its step and its frame is returned; without one nothing else changes |
| Timer.FiringExact | src/sleep.rs:94-111 | a tick fires precisely the map entries due at or before it, each as often as registered |
| Timer.FiringSorted | src/sleep.rs:97-109 | entries fire in tick order and none before its tick |
| Timer.FiringOrder | src/sleep.rs:80-110 | the wakers of one tick fire in the order in which the map holds them |
| Timer.MoveAccounted | src/sleep.rs:79-83 | moving a posted entry into the map loses and duplicates nothing |
| Timer.FireAccounted | src/sleep.rs:94-111 | firing loses and duplicates nothing |
| Timer.MoveSequenced | src/sleep.rs:79-83 | moving a posted entry into the map keeps the order of registration within its tick |
| Timer.FireSequenced | src/sleep.rs:94-111 | firing keeps the order of registration within every tick |
| Timer.Timers.constructor | src/sleep.rs:114-136 | nothing registered, posted, pending or fired |
| Timer.Timers.BeginRegister | src/sleep.rs:27-29 | takes the lock unless another registration has it |
| Timer.Timers.Post | src/sleep.rs:30 | the entry is posted |
| Timer.Timers.FinishRegister | src/sleep.rs:31-34 | the waker of the service is called, so that a service waiting with something posted has been notified, wherever its poll fell |
| Timer.Timers.PollTimeWaiter | src/sleep.rs:45-59 | ready if and only if the lock is free and something is posted; a service left waiting has its waker stored and will be notified |
| Timer.Timers.Service | src/sleep.rs:70-85 | every posted entry is moved into the map in order; every registered entry is still in exactly one place |
| Timer.Timers.CountDue | src/sleep.rs:97-103 | the count of leading keys is the number of keys due |
| Timer.Timers.PopDue | src/sleep.rs:105-110 | popping that many keys calls the wakers of exactly the due entries in order and leaves the later ones |
| Timer.Timers.WakeupIfNecessary | src/sleep.rs:94-111 | exactly the due entries are fired and their wakers called in order; the later ones remain |
| Timer.Timers.Tick | src/main.rs:239-242 | the clock advances, then what is due at the new time fires |
| Timer.Timers.PollSleep | src/sleep.rs:160-171 | ready if and only if the clock has reached the end tick, which is so once its timer has fired |
| AsyncMutex.NextKeeps | src/util/async_mutex.rs:58-82 | each separate load, compare-exchange and guard-drop step keeps the count equal to the number of guards, at most one |
| AsyncMutex.MutualExclusion | src/util/async_mutex.rs:32-128 | in every interleaving of any number of tasks there is at most one guard, whatever readiness was reported |
| AsyncMutex.NoLostUpdate | src/util/async_mutex.rs:32-128 | in every interleaving the protected value counts the updates made by guard holders |
| AsyncMutex.AcquireExact | src/util/async_mutex.rs:58-82 | in every reachable state a load and an exchange that does not fail spuriously give the guard if and only if no task has it; a spurious failure does not |
| AsyncMutex.LockerExact | src/util/async_mutex.rs:111-127 | the locker reports readiness if and only if no task has the guard |
| AsyncMutex.CriticalSection | src/util/async_mutex.rs:32-37 | the holder of the guard can update the value and drop the guard, after which the lock is free |

## Left out

- Hardware drivers and register access (src/rtl8139.rs, src/usb, src/io, src/interrupts.rs, src/multiprocessing.rs): port
  I/O, volatile memory and assembly.
- Interleavings inside one ring queue push, and weak memory ordering.
- Liveness under a scheduler: that a halted CPU is woken, that the next step is eventually taken.  For the executor it is
  proved that a way to the next poll always exists.
- Executor: modelled as a transition system over the steps of the main thread, the CPUs and the wakers; the
  futures themselves, lifetimes and the dispatch queue of a CPU are not modelled.
- AsyncMutex: the waker list and its notifications are not modelled, since they do not affect the count.
- The lock of the TCP table held while the service polls, and what the channels to the application wake.
- Congestion and flow control: the stored window is not used by the source either.
- ACPI and multiboot tables, USB, game, framebuffer, logging, random numbers and HTTP text.
- The I/O port allocator (src/io/io_allocator.rs), which hands out ranges of 16-bit ports, the bit-field setters
  (src/util/bit_manipulation.rs) and the segment descriptor accessors (src/gdt.rs).
