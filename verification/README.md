# Verification of the Verbifrost mlx5 driver core

A Dafny model of the parts of the repository that talk to ConnectX hardware or take
binary formats apart, with proofs of what they guarantee:

- **The command queue** (`kext/mlx5_cmd.cpp`). A driver thread and the firmware share a
  ring of entries and a pool of mailboxes. `CmdProtocol` is the interleaved step system:
  one step per driver statement of `mlx5_cmd_exec`, and firmware steps that take a
  hardware-owned entry, write response bytes and flip the owner bit with a delivery code.
  A `Schedule` says what the firmware does before each driver statement; a `Run` is any
  interleaving at all. `CmdRefinement` and `CmdRuns` refine the system to an atomic
  command interface, `CmdOutcome` determines the result of every call and the two places
  where it is wrong, `CmdQueue` is the C code as a class over shared
  arrays, proved equal to the step system, and `CmdInit` lays the memory out.
- **Objects** (`kext/mlx5_verbs.cpp`, `kext/mlx5_mr.cpp`, `kext/mlx5_qp.cpp`).
  `ObjectTable` refines the create and destroy verbs to a table of firmware objects,
  `ObjectDrift` bounds how far the two can drift apart when commands time out,
  `QpState` follows the queue-pair state machine when acknowledgements are lost,
  `WorkQueue` is the ring shared with a concurrent consumer, `DmaMemory` accounts for
  descriptors. `QueuePairs`, `MemoryRegions` and `Verbs` are the C functions as classes
  and methods, each tied to those specifications.
- **Offline tools** (`tools/`). `MachO` is the reader of `extract_iordma_syms.py` against
  writers of the same structures, and `MachOFiles` says what it does on any file; `A64` is
  the instruction decoder of `analyze_ops.py` and the stub decoder of `decode_plt.py`
  against an encoder.

`Words`, `Bits`, `Memory`, `Wrappers` and `VerbSupport` hold byte order, bit operations
on naturals, byte buffers, and what all verbs do around a command.

Allocation, bus mapping and `IOMalloc` are parameters that say what the platform
answers; sleeps and barriers are points where the firmware may step. Integer widths are
written out where they matter (`% TWO_32`, `TruncU8`, `% TWO_64`).

Some claims that look natural are false of the code. For each the model keeps the code's
behaviour, proves the exact condition under which the claim holds, and for the protocol
claims gives a failing run:

- After a timeout, slot 0 stays hardware-owned and the next call reuses it without a token
  check. A call gets the answer to its own command under every schedule exactly when the
  slot is software-owned at its start (`CmdOutcome.FaithfulIffSoftwareOwned`); a failing
  run from initialisation is `CmdOutcome.StaleRun`.
- The delivery code is recorded only inside the poll loop. A delivery error becomes a
  success exactly when the entry is hardware-owned at all 6000 polls and the status byte
  is zero (`CmdOutcome.DeliveryErrorLost`).
- Through the gap and through stale commands the driver's queue-pair state can overtake
  the firmware's. `QpState.InStepExact` says exactly when one call cannot do that under
  any schedule, `QpState.InStepWithoutGap` the same when no success comes through the
  gap, and `QpState.OutOfStepRuns` gives a failing run from a fresh queue for each cause.
- From agreement, one verb ends the agreement between the driver's objects and the
  firmware's table exactly when it reports a success the firmware did not grant, or is a
  second destroy that the firmware granted (`ObjectDrift.MatchesExact`,
  `ObjectDrift.DriftRun`).
- Nothing guards the descriptor fields of a queue pair. Descriptors are conserved exactly
  in runs where no create names an object that holds a queue pair and every destroy names
  one, or an object without descriptors (`DmaMemory.ResourcesConserved`,
  `DmaMemory.ImproperRuns`); a destroy after a create that failed while holding
  descriptors releases them again (`DmaMemory.DestroyAfterFailure`).
- `mlx5_cmd_init` reports success when the mailbox pool has no bus mapping, but then no
  command can ever complete (`CmdOutcome.CompletesIffMapped`).
- The post functions never check for a full ring. A post overwrites an unread entry
  exactly when the ring is full (`WorkQueue.OverwriteExact`), the device reads the posts
  in order exactly when it never reads with more than a ring full outstanding
  (`WorkQueue.OrderExact`, `WorkQueue.OverrunRun`), and it sees the true backlog exactly
  with room to spare (`WorkQueue.BacklogSeenExact`).
- The disassembler ignores the shift field of MOVZ, so it misreads exactly the words in
  which that field and the immediate are both nonzero (`A64.MisreadExact`).
- Sizes are computed in 32 bits (`CmdInit.RingSoundExact`, `Verbs.CqRingFitsExact`,
  `MemoryRegions.TranslationExact`, `WorkQueue.RecvDoorbellExact`).

Where code and comments disagree the model follows the code: handles are read from and
written to mailbox byte 16 although the comments say offset 8
(`kext/mlx5_verbs.cpp:49-51`), because both `mlx5_cmd_exec` and the verbs skip eight
bytes; `modify_qp` stores the target in both state nibbles although the high one is
labelled current state (`kext/mlx5_qp.cpp:200`); the log sizes in `create_qp` are whole
nibbles of one byte, not the bit ranges of the comments (`kext/mlx5_qp.cpp:110-124`).

Check the project with `dafny verify dfyconfig.toml`.

## Model

| member | source | states |
|---|---|---|
| CmdRefinement.FilledMailbox | kext/mlx5_cmd.cpp:224-239 | Clearing, writing the three header words and the clamped copy leave exactly the mailbox the protocol defines: big-endian header, payload from byte 16, zero elsewhere. |
| CmdRefinement.WireFields | kext/mlx5_cmd.cpp:228-239 | A big-endian reader of the mailbox gets back opcode, op_mod and the payload; user id, gaps and everything behind the payload are zero. |
| CmdRefinement.EntryFields | kext/mlx5_cmd.cpp:241-247 | Read big-endian, the stored ring entry names both mailboxes of slot 0, input length 4096, the caller's output length or 4096 for zero, and the token; the owner bit is untouched. |
| CmdRefinement.RunSound | kext/mlx5_cmd.cpp:203-285 | Invariant of every run, timeouts included: only slot 0 changes, and the firmware works only on slot 0 while it is hardware-owned. |
| CmdRefinement.CallRefinesAtomic | kext/mlx5_cmd.cpp:197-310 | A call refines one atomic firmware call: if it completes, the firmware answered once, for exactly this call's token, header and payload, and the result is the classification of that answer; if it times out, that command is still in flight. |
| CmdRuns.SingleOwner | kext/mlx5_cmd.cpp:131-137 | In every run, timeouts included, at most slot 0 is hardware-owned and the slots above it keep their initial entry. |
| CmdRuns.UnmappedNeverTaken | kext/mlx5_cmd.cpp:165-184 | If the pool has no bus mapping, the firmware takes no command in any run. |
| CmdRuns.ExclusiveOwnership | kext/mlx5_cmd.cpp:206-270 | In timeout-free runs the driver fills the slot only while it is software-owned and the firmware idle, the firmware works only between hand-over and flip, and between calls nothing is hardware-owned. |
| CmdRuns.CommandQueueRefinesAtomic | kext/mlx5_cmd.cpp:197-310 | In timeout-free runs with every flip seen by a poll, the driver's log is that of an atomic interface: call i gets answer i, each given once for exactly command i, never a stale one. |
| CmdRuns.AnswersInFull | kext/mlx5_cmd.cpp:197-310 | The same byte by byte: the i-th answered command carries token (i mod 255) + 1, header, clamped payload and lengths of the i-th call, and output byte j of that call is response byte 8 + j, up to 4088 bytes. |
| CmdRuns.TokensDistinct | kext/mlx5_cmd.cpp:207-208 | In every run command i (from 0) carries token (i mod 255) + 1, never 0, and any 255 consecutive commands carry distinct tokens, across every wrap of the counter. |
| CmdRuns.RunSequenced | kext/mlx5_cmd.cpp:207-208 | In every run the n-th command issued carries token ((n-1) mod 255) + 1, and the log lists the calls in issue order. |
| CmdRuns.StatisticsConserved | kext/mlx5_cmd.cpp:273-298 | Over every run, modulo 2^32: successes + failed_commands = calls and total_commands + timeouts = calls, whatever the mix of outcomes. |
| CmdRuns.ScheduledCallIsRun | kext/mlx5_cmd.cpp:197-310 | A call under a schedule is one of the interleavings, so the theorems on runs hold of it. |
| CmdOutcome.OutcomeExact | kext/mlx5_cmd.cpp:260-298 | From every reachable state, stale commands included, and for every schedule: at most 6000 polls; timeout exactly when the entry is hardware-owned on return; otherwise the result follows from the delivery code (if a poll saw the flip) and the status byte, so success implies status 0. |
| CmdOutcome.SeenExact | kext/mlx5_cmd.cpp:262-270 | A call picks up the delivery code if and only if the schedule does not keep the entry hardware-owned before every one of the 6000 polls. |
| CmdOutcome.DeliveryErrorLost | kext/mlx5_cmd.cpp:261-285 | In a completed call a delivery error turns into success if and only if the schedule keeps the entry hardware-owned at all 6000 polls and the status byte is 0. |
| CmdOutcome.GapAcceptsFailedDelivery | kext/mlx5_cmd.cpp:262-281 | A schedule that makes any call succeed although delivery failed with code 6. |
| CmdOutcome.SilentTimesOut | kext/mlx5_cmd.cpp:262-277 | With a silent firmware every call times out and leaves its command in flight and the slot hardware-owned. |
| CmdOutcome.StaleAnswer | kext/mlx5_cmd.cpp:225-273 | With a command left over from a timeout, a schedule under which the firmware refuses that command and the driver reports success for the new one. |
| CmdOutcome.StaleRun | kext/mlx5_cmd.cpp:197-310 | Such a run from initialisation: two calls, the first times out, the second succeeds, and the one answer the firmware ever gave refused the first. |
| CmdOutcome.StaleAnswerAccepted | kext/mlx5_cmd.cpp:206-276 | Such a call does not return the answer to its own command. |
| CmdOutcome.FaithfulIffSoftwareOwned | kext/mlx5_cmd.cpp:206-276 | Every schedule gives a call the answer to its own command if and only if the slot is software-owned at the start. |
| CmdOutcome.CompletesIffMapped | kext/mlx5_cmd.cpp:165-191 | After initialisation there is a firmware with which a call completes if and only if the pool has a bus mapping. |
| CmdQueue.CmdContext.Exec | kext/mlx5_cmd.cpp:197-310 | The C function over the shared ring, pool and counters equals the step system under every schedule. On success output byte i is pool byte 4104 + i, up to the smaller of the output length and 4088; every other byte of the buffer is unchanged, as is all of it on failure. Return code and status byte tell timeout, delivery error and firmware status apart, and the doorbell word reads as 1 big-endian. |
| CmdQueue.CmdContext.PollOwner | kext/mlx5_cmd.cpp:260-270 | The poll loop, with the firmware acting before every read, reaches the re-read with the delivery code the step system records. |
| CmdQueue.CmdContext.Complete | kext/mlx5_cmd.cpp:272-309 | The re-read, the two counters and the classification are those of the step system. |
| CmdQueue.CmdContext.CopyResponse | kext/mlx5_cmd.cpp:300-306 | Each byte of the caller's buffer up to the clamped length is the mailbox byte eight further on, and nothing past them changes. |
| CmdQueue.CmdContext.Interfere | kext/mlx5_cmd.cpp:263-269 | The device methods on the shared arrays perform exactly the firmware steps. |
| CmdInit.RingSoundExact | kext/mlx5_cmd.cpp:66-83 | The 64-byte entries are disjoint and inside the 32-bit ring size if and only if log_stride is at least 6 and log_stride plus the clamped log_size at most 31, both read off the parameter word by division; so always for log_stride in 6..26. |
| CmdInit.ParamsRead | kext/mlx5_cmd.cpp:36-66 | The queue parameters are the big-endian word at byte 0x10 of the init segment. |
| CmdInit.FieldsByDivision | kext/mlx5_cmd.cpp:67-68 | log_size and log_stride are that word divided by 2^16 and 2^8, modulo 32. |
| CmdInit.MailboxesSound | kext/mlx5_cmd.cpp:148-149 | In and out mailboxes of all slots are disjoint and inside a pool below 2^32 bytes, and bus addresses have the same offsets as CPU addresses, even across a 64-bit wrap. |
| CmdInit.IsegWrite32 | kext/mlx5_cmd.cpp:42-46 | The init segment holds the value big-endian and is otherwise unchanged. |
| CmdInit.Init | kext/mlx5_cmd.cpp:57-192 | For a layout that fits, with the parameters read big-endian from byte 0x10: success exactly when both allocations and the ring mapping are granted; then there are 2^min(log_size, 5) software-owned entries with the unused token, zeroed mailboxes and counters, the device reaches the pool only if its mapping succeeded, and the three registers read back as the ring's bus address and all ones. No other byte of the segment changes, and without a ring none does. |
| QpState.ModifyOnTheWire | kext/mlx5_qp.cpp:196-208 | The firmware sees a MODIFY_QP command whose next-state nibble is the driver's target. |
| QpState.ModifyInFull | kext/mlx5_qp.cpp:196-208 | The whole mailbox: opcode 0x501, op_mod 0, the target in both nibbles of byte 16, zero behind it. |
| QpState.StatesAgree | kext/mlx5_qp.cpp:181-220 | Over any run of modify commands mixing success, rejection and timeout, also when a call meets a firmware still busy with the previous command: driver state <= firmware state <= driver state + 1, with equality unless a timeout has had no later success. Compare section 10.3.1 of the InfiniBand Architecture Specification, Volume 1. |
| QpState.StartAgrees | kext/mlx5_qp.cpp:157-160 | The agreement holds for a new queue pair in the reset state on a fresh command queue. |
| QpState.InStepExact | kext/mlx5_qp.cpp:181-220 | One call keeps the states in step under every schedule if and only if the firmware has carried out the command already and no command is pending that it could still take during the fill; a first attempt never is safe. |
| QpState.InStepWithoutGap | kext/mlx5_qp.cpp:181-220 | Under every schedule without a success through the re-read gap, if and only if the slot is software-owned at the start, or the firmware is already answering a repeat of a command it has carried out. |
| QpState.GapOutOfStep | kext/mlx5_cmd.cpp:260-285 | A delivery error that lands in the re-read gap lets the driver advance without the firmware, from every software-owned state in which the two are level. |
| QpState.HalfTakeOutOfStep | kext/mlx5_cmd.cpp:224-253 | A pending entry taken between header and payload resets the firmware's queue pair while the driver reports success. |
| QpState.RefusalOutOfStep | kext/mlx5_cmd.cpp:224-298 | A pending command refused before the call lets the driver advance without the firmware. |
| QpState.OutOfStepRuns | kext/mlx5_qp.cpp:181-220 | From a fresh queue, one call through the gap, or a timeout followed by a half-filled or a refused command, puts the driver ahead of the firmware. |
| QpState.BusyRepeatReached | kext/mlx5_qp.cpp:181-220 | From a fresh queue, two calls lead to a firmware busy with a repeat of a command it has carried out. |
| ObjectTable.NamedIsStored | kext/mlx5_verbs.cpp:282 | The destroy verb names the handle the create verb got, for memory regions if and only if it is below 2^24; their stored key has a zero low byte and the handle modulo 2^24 above it, other handles are stored as they are. |
| ObjectTable.CreateDecodes | kext/mlx5_verbs.cpp:57-61 | The firmware decodes a create command as a create of the verb's object kind (opcode and op_mod). |
| ObjectTable.DestroyDecodes | kext/mlx5_verbs.cpp:84-95 | The firmware decodes a destroy command as a destroy of the same kind and handle, through byte swap and mailbox copy. |
| ObjectTable.CreateInFull | kext/mlx5_verbs.cpp:57-61 | The whole mailbox of every create command: opcode and op_mod of the kind, the payload from byte 16, zero behind it, and the response length asked for. |
| ObjectTable.DestroyInFull | kext/mlx5_verbs.cpp:84-95 | The whole mailbox of every destroy command: opcode and op_mod of the kind, the handle big-endian at byte 16, zero behind it. |
| ObjectTable.HandleIsAt16 | kext/mlx5_verbs.cpp:68 | The handle a verb reads is the big-endian word at response byte 16. |
| ObjectTable.HandleOffsetExact | kext/mlx5_verbs.cpp:43-68 | The verbs find the firmware's handle in every response if and only if the firmware puts it at byte 16. |
| ObjectTable.CreateRegisters | kext/mlx5_qp.cpp:145-158 | A create verb keeps driver objects and firmware table in one-to-one agreement. |
| ObjectTable.DestroyRegisters | kext/mlx5_qp.cpp:236-246 | So does a destroy verb, whether accepted or refused. |
| ObjectTable.SecondDestroyExact | kext/mlx5_verbs.cpp:79-99 | A second destroy of one object, which sends the field it kept, preserves the agreement if and only if it fails. |
| ObjectTable.VerbsRefineTable | kext/mlx5_verbs.cpp:41-291 | Over any run of create and destroy verbs of PDs, CQs, MRs and QPs without timeout, late flip or successful second destroy, the driver's objects name exactly the live firmware objects, one to one; left over are only memory keys whose IOMalloc failed. |
| ObjectTable.StartRegistered | kext/mlx5_cmd.cpp:131-191 | The agreement holds after initialisation. |
| ObjectDrift.DriftBounded | kext/mlx5_verbs.cpp:41-291 | Over every run of create and destroy verbs and every schedule, timeouts, stale answers and second destroys included: driver and firmware table agree one to one on every handle except those of commands whose answer no verb took for its own and those of verbs not sure of their result. |
| ObjectDrift.AnsweredAtMost | kext/mlx5_cmd.cpp:197-310 | During a call the firmware answers at most its command and one pending before it, and one less if a command stays pending. |
| ObjectDrift.DoubtCounted | kext/mlx5_verbs.cpp:41-291 | Over every run and schedule those exceptions are at most two handles per verb not sure of its result, and one for a command pending at the start. |
| ObjectDrift.MatchesExact | kext/mlx5_verbs.cpp:57-291 | From agreement, one verb under any schedule ends it if and only if it reports a success the firmware did not grant (other than a memory key already left over), or is a second destroy that the firmware granted. |
| ObjectDrift.DriftRun | kext/mlx5_verbs.cpp:57-73 | From a fresh queue, a create whose delivery failed leaves the driver with a handle that is in no table. |
| ObjectDrift.CleanNoDoubt | kext/mlx5_verbs.cpp:57-73 | A verb that starts software-owned, completes and whose flip a poll saw leaves no handle in doubt, unless it is a second destroy. |
| ObjectDrift.StartDrifted | kext/mlx5_cmd.cpp:131-191 | Nothing is in doubt after initialisation. |
| WorkQueue.WqeRoundTrip | kext/mlx5_qp.cpp:268-288 | Unpacking a posted send entry returns opcode 0x08, opmod 0, index head mod 2^16, qpn mod 2^24, segment count 2 and the completion flag. |
| WorkQueue.RecvWqeFields | kext/mlx5_qp.cpp:347-349 | A posted receive entry reads big-endian as a byte count of 4096, with key and address zero. |
| WorkQueue.DoorbellWord | kext/mlx5_qp.cpp:298-355 | The doorbell word reads big-endian as head times entry size modulo 2^32 on the send queue, and as head modulo 2^16 on the receive queue. |
| WorkQueue.PostInFull | kext/mlx5_qp.cpp:267-355 | A post writes the 16 bytes of its entry at the head, keeps every other byte of the ring, and moves the head on by one modulo the entry count. |
| WorkQueue.DoorbellCarriesHead | kext/mlx5_qp.cpp:298-301 | The device's reading of the doorbell record is the driver's head. |
| WorkQueue.RecvDoorbellExact | kext/mlx5_qp.cpp:352-355 | The 16-bit receive doorbell carries every head if and only if the ring has at most 2^16 entries. |
| WorkQueue.OverwriteExact | kext/mlx5_qp.cpp:267-288 | A post overwrites an entry that is unread and still in place if and only if the ring is full when it starts. |
| WorkQueue.LiveIntactExact | kext/mlx5_qp.cpp:267-301 | In every run, every unread post is still in its slot if and only if at most a ring full is outstanding. |
| WorkQueue.ReadExact | kext/mlx5_qp.cpp:267-301 | A device read gets the oldest unread post if and only if at most a ring full is outstanding. |
| WorkQueue.OrderExact | kext/mlx5_qp.cpp:267-355 | Over any interleaving of post statements and device reads, the device reads posts 0, 1, 2, ... if and only if it never reads with more than a ring full outstanding. |
| WorkQueue.RingIsFifo | kext/mlx5_qp.cpp:267-355 | For any power-of-two ring and any interleaving with room to spare at every post: the device reads posts 0, 1, 2, ... and finds the bytes each wrote, every unread post is still in its slot, and the ring never fills. |
| WorkQueue.OverrunRun | kext/mlx5_qp.cpp:267-301 | On every ring of two entries or more, one post too many on a fresh ring makes the device read another post first. |
| WorkQueue.FreshRing | kext/mlx5_qp.cpp:42-71 | A zeroed ring is an empty queue. |
| WorkQueue.DoorbellCounts | kext/mlx5_qp.cpp:301-355 | The doorbell record alone, as (recorded head - consumer) mod capacity, gives the outstanding count if and only if that is below the capacity. |
| WorkQueue.BacklogSeenExact | kext/mlx5_qp.cpp:267-301 | After a post the device sees the true backlog if and only if the ring had room to spare. |
| DmaMemory.CreateConserves | kext/mlx5_qp.cpp:37-71 | On an object without a queue pair, a create that fails at any allocation or at the command leaves exactly the descriptors that were live before. |
| DmaMemory.DestroyConserves | kext/mlx5_qp.cpp:248-251 | A destroy of a queue pair releases exactly its three descriptors, whatever the firmware answers. |
| DmaMemory.CreateInFull | kext/mlx5_qp.cpp:32-152 | Which descriptors the fields name and which have been released after success, a refused send ring, receive ring or doorbell record, and a refused command: after each failure the fields still name what was released. |
| DmaMemory.ResourcesConserved | kext/mlx5_qp.cpp:32-254 | Over any run of creates and destroys with failures anywhere: three live descriptors per queue pair, none shared, every other one released exactly once, if and only if no create names an object with a queue pair and every destroy names one, or an object without descriptors; otherwise a descriptor stays leaked or doubly released for good. |
| DmaMemory.ImproperRuns | kext/mlx5_qp.cpp:89-251 | Creating twice leaks three descriptors; destroying twice releases them twice. |
| DmaMemory.ReleaseInFull | kext/mlx5_qp.cpp:248-251 | A destroy releases each descriptor that the fields name, send ring, receive ring, doorbell record in this order, and no other. |
| DmaMemory.DestroyAfterFailure | kext/mlx5_qp.cpp:32-251 | A destroy after a create that failed at the command, the doorbell record or the receive ring releases every descriptor of that create a second time. |
| DmaMemory.StartConserved | kext/mlx5_qp.cpp:89 | The conservation invariant holds when there is no queue pair yet. |
| QueuePairs.Log2 | kext/mlx5_qp.cpp:111-113 | The shift loop ends with 2^k <= n < 2^(k+1), and with 0 for 0. |
| QueuePairs.CreateQpRoundTrip | kext/mlx5_qp.cpp:105-149 | Decoding the firmware's mailbox gives opcode 0x500, ring sizes equal to the driver's and the three bus addresses; every other payload byte is zero, and the payload clamp loses nothing. |
| QueuePairs.CqNumberStored | kext/mlx5_qp.cpp:130-131 | The completion-queue number kept by a queue pair is the one create_cq stored in the signed field, and 0 without one. |
| QueuePairs.QueuePair.AllocResources | kext/mlx5_qp.cpp:32-77 | Success exactly when all three allocations are granted, with valid empty rings; a refusal releases the earlier ones and leaves their fields set. |
| QueuePairs.QueuePair.CreateQp | kext/mlx5_qp.cpp:82-164 | Whatever the object held: sends exactly the CREATE_QP command, keeps the firmware's number and those of the completion queues and starts in RESET with two empty rings of 256 entries; heap and descriptor fields change as in the resource specification, with every failure's rollback. |
| QueuePairs.QueuePair.ModifyQp | kext/mlx5_qp.cpp:174-224 | Below RTS, sends the command for the next state and moves there exactly on success; otherwise sends nothing and fails. This is the state-machine specification, under every schedule. |
| QueuePairs.QueuePair.DestroyQp | kext/mlx5_qp.cpp:229-254 | Names the stored queue-pair number and releases whatever the descriptor fields name, in every case, also a second time. |
| QueuePairs.QueuePair.PostSend | kext/mlx5_qp.cpp:261-324 | Ring, head and doorbell change as the ring specification says, and the receive queue does not; WqeRoundTrip, PostInFull and DoorbellWord say which bytes. |
| QueuePairs.QueuePair.PostRecv | kext/mlx5_qp.cpp:329-361 | The same for the receive queue; RecvWqeFields, PostInFull and DoorbellWord say which bytes. |
| QueuePairs.QueuePair.EmptyRingsAreFifo | kext/mlx5_qp.cpp:42-71 | Freshly allocated rings satisfy the FIFO invariant. |
| MemoryRegions.PageCountExact | kext/mlx5_mr.cpp:36-43 | For lengths up to 2^32 - 4096 the page count is the least that covers the region (1 when empty), and the allocation is the least multiple of 4 KB that holds the list. |
| MemoryRegions.PasEntry | kext/mlx5_mr.cpp:64-66 | Each list entry reads big-endian as base + 4096 i modulo 2^64. |
| MemoryRegions.TranslationExact | kext/mlx5_mr.cpp:36-66 | Looking up any offset below the length in the page list gives base + offset if and only if the 64-bit length is at most 2^32 - 4096. |
| MemoryRegions.AccessBitsExact | kext/mlx5_mr.cpp:110-113 | The three flag tests amount to the flags modulo 8. |
| MemoryRegions.MkeyFieldsApart | kext/mlx5_mr.cpp:100-132 | The field writes stay inside the bytes sent and do not overlap. |
| MemoryRegions.MkeyRoundTrip | kext/mlx5_mr.cpp:97-140 | Decoding the firmware's mailbox at the context offsets recovers access flags mod 8, length, iova, PD number, log page size 12 and the page-list address; every other payload byte is zero. |
| MemoryRegions.BuildPasList | kext/mlx5_mr.cpp:31-71 | The array filled by the loop is the page list, zero beyond it, and one descriptor is live; null and unchanged on refusal. |
| MemoryRegions.RegUserMr | kext/mlx5_mr.cpp:76-176 | Sends exactly the CREATE_MKEY command, with PD number 0 when there is no PD; returns a region whose keys hold the firmware's index, or null with the page list released, or faults exactly when everything succeeds without a PD. |
| MemoryRegions.DeregMr | kext/mlx5_verbs.cpp:275-291 | Sends the destroy command for lkey divided by 256. |
| Verbs.AllocPd | kext/mlx5_verbs.cpp:41-77 | Stores the firmware's PD number exactly on success. |
| Verbs.DeallocPd | kext/mlx5_verbs.cpp:79-103 | Names the stored PD number under the PD's opcode and op_mod. |
| Verbs.CqRingFitsExact | kext/mlx5_verbs.cpp:121-156 | The ring the firmware indexes from the encoded log size fits the allocation if and only if the count is below 2^26. |
| Verbs.CreateCqRoundTrip | kext/mlx5_verbs.cpp:147-165 | The firmware's mailbox carries opcode 0x400, the log size, the entry-size selector and the ring address; every other payload byte is zero. |
| Verbs.CreateCq | kext/mlx5_verbs.cpp:115-183 | Encodes the floor of log2 of the count, or of 64 if none is given, stores the CQ number exactly on success, and releases the ring when the command fails. |
| Verbs.DestroyCq | kext/mlx5_verbs.cpp:185-206 | Names the number stored in the entry-count field. |
| Verbs.CqNumberSurvives | kext/mlx5_verbs.cpp:178-188 | A 32-bit CQ number survives its stay in the signed 32-bit field. |
| MachO.FindIordma | tools/extract_iordma_syms.py:37-92 | Both loops, with their early exits, the last match winning and every out-of-range read raising, compute the declarative search of the two command walks. |
| MachO.FindSymtab | tools/extract_iordma_syms.py:66-90 | The nested walk returns the last symbol table among the commands it visits. |
| MachO.ParseSymbols | tools/extract_iordma_syms.py:94-115 | The loop, stopping at the first symbol outside the file, yields the exports of all symbols inside it, in table order. |
| MachO.Extract | tools/extract_iordma_syms.py:150-154 | The script's result is the extraction specification, including a missing entry and a missing symbol table. |
| MachO.WalkWritten | tools/extract_iordma_syms.py:44-60 | Walking written load commands visits each of them at its place. |
| MachO.PlacedHolds | tools/extract_iordma_syms.py:46-60 | The j-th command met by the walk has the number and stands at the bytes of the j-th command written. |
| MachO.EntryFound | tools/extract_iordma_syms.py:44-64 | On a well-formed file the first walk finds the IORDMAFamily entry and the kext's command count. |
| MachO.TableFound | tools/extract_iordma_syms.py:66-92 | The nested walk finds the kext's symbol table. |
| MachO.NameReads | tools/extract_iordma_syms.py:107-108 | A NUL-free name stored in the string table is read back whole. |
| MachO.ExtractionExact | tools/extract_iordma_syms.py:37-115 | On every file that holds a linked image, in any arrangement and with any number of commands and symbols, the script extracts exactly the external, named, defined symbols with their values, in table order. |
| MachO.ExtractionUndoesWriter | tools/extract_iordma_syms.py:37-115 | In particular it undoes the reference writer. |
| MachO.AsciiExtractionExact | tools/extract_iordma_syms.py:107-115 | With ASCII names the output determines the name bytes and values of exactly the wanted symbols, in order. |
| MachO.StringTableStores | tools/extract_iordma_syms.py:96-108 | The table of NUL-terminated names stores each NUL-free name at the length of the table before it. |
| MachOFiles.Utf8Exact | tools/extract_iordma_syms.py:54 | Strict decoding accepts a name if and only if it is the UTF-8 encoding of some text. See RFC 3629, section 3. |
| MachOFiles.WalkExact | tools/extract_iordma_syms.py:44-60 | On every file a walk visits exactly the commands that follow each other at their sizes, until its steps are made or a size is zero, and raises if and only if it leaves the file before. |
| MachOFiles.EntryOfExact | tools/extract_iordma_syms.py:51-58 | What one command contributes to the first search: an entry if and only if its name, up to the NUL or the end of the file, is that of IORDMAFamily and the kext's command count lies in the file; nothing if and only if it is another command or the readable entry of another kext; otherwise the script raises. |
| MachOFiles.TableOfExact | tools/extract_iordma_syms.py:73-88 | The same for the second search: the four words of a symbol table command, nothing for another command, and raising if the words read do not lie in the file. |
| MachOFiles.ExportsExact | tools/extract_iordma_syms.py:99-115 | On every file the loop lists exactly the symbols that lie in the file, are external and defined, and have a nonempty name with a NUL inside string table and file, once each and in table order, with their values and names, bytes outside ASCII replaced. |
| MachOFiles.ExtractionDecided | tools/extract_iordma_syms.py:37-154 | The script on every file: no result if and only if the whole first walk meets no entry of IORDMAFamily; the exports of the last symbol table of the last entry if there are both; in every other case, an entry without a symbol table included, it raises. |
| A64.Patterns | tools/analyze_ops.py:71-111 | Each opcode mask test as a condition on bit fields of the word. |
| A64.PatternsDisjoint | tools/analyze_ops.py:71-111 | No word matches two of the six patterns, so the order of the tests is immaterial. |
| A64.BranchRoundTrip | tools/analyze_ops.py:71-90 | Sign extension undoes truncation for every aligned target within the signed 26-bit range. |
| A64.AdrpRoundTrip | tools/analyze_ops.py:93-101 | The decoded page is the encoded one for every page within the signed 21-bit range. |
| A64.DecodeEncode | tools/analyze_ops.py:71-113 | Decoding undoes encoding for all six instructions at every program counter. See section C6.2 of the Arm Architecture Reference Manual, DDI 0487. |
| A64.DecodeExact | tools/analyze_ops.py:71-113 | The decoder reports an instruction for a 32-bit word if and only if the word, a MOVZ's shift field aside, is that instruction's encoding; nothing is printed for any other word, nor for a MOVZ of zero. |
| A64.MisreadExact | tools/analyze_ops.py:103-108 | What is reported is not the word's own instruction if and only if the word is a MOVZ of a nonzero immediate with a nonzero shift field; word 0x52A00020, a MOVZ of 0x10000, is listed as #1. |
| A64.DisasmBl | tools/analyze_ops.py:62-113 | The lines are exactly those of the aligned words that encode an instruction, a MOVZ's shift aside, each at its address; raises exactly when a partial word is left over. |
| A64.LinesInOrder | tools/analyze_ops.py:66-68 | The lines come in strictly increasing order of address. |
| A64.DisassembleAssemble | tools/analyze_ops.py:62-113 | Disassembling assembled code lists exactly its instructions, each at its address. |
| A64.GotAddressRoundTrip | tools/decode_plt.py:32-47 | For every address within the ADRP range, the ADRP and ADD pair that forms it decodes to it. |
| A64.GotAddressExact | tools/decode_plt.py:32-47 | A stub forms an address if and only if its first word encodes an ADRP; the address is the page that word encodes plus bits 10 to 21 of the second word. |

## Left out

- CmdInit.Init: promises nothing once the ring is granted for a layout that does not fit, because the source then writes ring entries over each other or outside the allocation; RingSoundExact says exactly when that is.
- CmdInit.Init: descriptor lifetime on its error paths and in mlx5_cmd_cleanup, where the ring is released without clearing the pointer and can be released again.
- QpState.StatesAgree: leaves out schedules that break it: a success through the re-read gap, a firmware that takes a pending slot while the driver refills it, and one that during a call refuses the earlier command it was busy with; InStepExact and OutOfStepRuns cover all three.
- QpState.StatesAgree: one queue pair, since mlx5_ib_modify_qp_full never names the queue pair in its command.
- WorkQueue.RingIsFifo: needs room to spare at every post, because the source never checks for a full ring; OrderExact and OverwriteExact say what happens without it.
- ObjectTable.VerbsRefineTable: runs without timeouts, late flips or successful second destroys; ObjectDrift.DriftBounded covers the others. Both assume a firmware that keeps a table and puts handles at byte 16, and no destroy of an object whose create never succeeded.
- QueuePairs.QueuePair.CreateQp: the PD number of the object; `qp->pd` is read after the object was zeroed.
- MachO.Extract: which exception is raised; nothing catches any, so all are one outcome.
- Several callers at once: `mlx5_cmd_exec` takes no lock, and two of them would share slot 0; the model has one driver thread.
- Objects passed to destroy that were never passed to create: their fields are taken to be blank.
- The granularity of interleaving is one driver statement: memset, the header stores, memcpy and the ring-entry stores are single steps, and the firmware reads a command in one step.
- What a device does with bus addresses that do not lead to the pool: the firmware is modelled as taking no such command.
- Contents of the doorbell register: the firmware is modelled as scanning owner bits.
- Memory barriers, PCI configuration, logging, sleeps as durations, IORegistry properties.
- `kext/VerbifrostConnectXRDMA.cpp`: a straight-line bring-up sequence.
- The BlueFlame write in post_send: the UAR is never mapped.
- Reclamation of completion-queue rings and of page lists after deregistration: the source keeps no reference to them.
- Stub verbs, the opcode constants for ALLOC_PD and DEALLOC_PD that no code uses, and the ops table.
- The printing, file output and keyword summary of the Python tools, the decompression step, and the BL/MOVZ loop at the end of `tools/decode_plt.py`, which repeats two branches of `disasm_bl`.
- `tools/parse_iordma_syms.py`, `tools/extract_kexts.py`, `tools/extract_kexts2.py`, `tools/parse_kext_syms.py` and the C tools.
