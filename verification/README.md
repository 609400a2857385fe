# Dezh, verified

Dezh is a capability operating system for RISC-V and x86-64. This project models the parts of it whose correctness
cannot be read off one function, and proves what they guarantee. `dafny verify dfyconfig.toml` covers everything.

| component | files | question answered |
|---|---|---|
| Package store | `Bytes`, `Disk`, `StoreFormat`, `StoreWrites`, `StoreBlocks`, `StoreRecovery`, `StoreManual`, `StoreTransactions`, `StoreTheorems`, `StoreOutcomes`, `StoreRollback`, `StoreRoundTrip`, `StoreCheckpoint`, `StoreSteps`, `StoreLoading`, `StoreSweep`, `StoreHistory`, `PackageStore` | what is on the disk after power fails at any sector write, also during recovery |
| Multi-hart scheduler and IPC | `SchedTable`, `SchedSteps`, `SchedSafety`, `SchedJoin`, `SchedOpening`, `SchedTheorems`, `SchedCalls`, `SchedEnds`, `SchedTurns`, `SchedTimeouts`, `SchedStale`, `Scheduler` | what every interleaving of harts keeps, and what each call answers |
| Dezh-IR | `Ir`, `IrLaws`, `IrVerifier`, `IrAttenuation`, `IrMachine`, `Assembler`, `AssemblerTheorems`, `AssemblerAccepts`, `AssemblerRuns` | what instructions mean, what a verified program can do, what fewer capabilities change, what assembled code is and does |
| x86 page tables | `PageTables`, `KernelSlots`, `AddressSpaces` | what each address space translates after any series of mappings |
| x86 round-robin | `RoundRobin` | what a context switch resumes, and how long a task waits |
| Ticket lock and run queue | `RunQueue`, `TicketLock`, `TicketProgress` | mutual exclusion, fairness, progress and exactly-once over every interleaving, across counter wrap-around |
| Formats | `Bits`, `Arithmetic`, `Crc`, `CrcPolynomial`, `Dzp`, `Base64`, `Upload`, `NetChecksum` | what the decoders and checksums accept and catch |
| Boot memory map | `MemoryMap` | which maps are accepted, and that their total fits |

## How the store is modelled

The disk is 1600 atomic sectors of 512 bytes. A transaction is the list of sector writes the code issues, a crash keeps a
prefix of the list, and a recovery may itself be cut short any number of times. The class `PackageStore.Store` is the code:
it has a disk that stops answering after `power` more writes, and each of its methods is proved to issue exactly the list
that the theorems are about, up to where the power fails. The checksum and the inspection of a package are parameters.
A store at rest (`StoreRecovery.StoreOk`) has an empty journal, no pending slot, and behind every active slot a blob with
the length and checksum of its entry that passes all the loader's checks.

A rollback that loses power, or a load that is cut short, can leave less than that behind: `StoreSweep.Quiescent` is a store
at rest except that an active slot may fail the loader's checks. `StoreHistory` puts commands, power failures, recoveries and loads,
each cut after any number of writes, into one machine; `StoreHistory.HistoryIsSafe` is the result over every history.

## How the scheduler is modelled

Each critical section of `SCHED_LOCK` is one step of one hart, and so is each access outside it that matters: the trap
itself, the switch a secondary looks at before it takes the lock, the interrupt count that is advanced before the wakeup.
`SchedSteps.World` holds the tables, where each hart is, and what has happened to each task. `Scheduler.Tables` is the code
with its tables and ring mailboxes in place; every method takes the machine through its step. The run entries are enabled
whenever the code takes them, whoever holds the rows they rewrite. The theorems are about orderly runs (`SchedJoin.Orderly`):
the console turns the switch on over a table with nothing takeable in it (`SchedJoin.Takeable`), rewrites and names rows only after a join or
before it has filled in any, and no secondary is between the switch and the lock when a join is answered. That no claimed row
is hit follows (`SchedJoin.OrderlyIsFit`). The code does not enforce this order, and the conditions on joining and on turning
the switch on are exact (`SchedJoin.JoinIsSafe`, `SchedOpening.OpeningIsSafe`).

## What the proofs found

- An update that is abandoned after it began to preserve the old version leaves the entry's record of the version before
  it, over a preserved area that is part old checkpoint and part active version. `StoreCheckpoint.AbandonedUpdate` says
  exactly when the slot can still be rolled back; `StoreCheckpoint.SecondUpdateLosesTheCheckpoint` is a family of stores that
  could be and no longer can.
- A rollback that loses power between its journal record and its registry entry is completed by recovery with the old
  metadata over the preserved blob. `StoreRollback.RollbackMatches` gives the exact condition under which the slot's entry
  still describes its blob, `StoreRoundTrip.RollbackWindow` a family of stores on which it does not. The next load catches
  it: it gives up on the slot for its contents exactly if the blob does not pass the loader's checks against the entry, and
  on another slot only for want of room (`StoreHistory.RollbackThenLoad`).
- A valid active package is marked corrupt by the loader when the payloads before it fill the arena
  (`StoreLoading.SweptEntries`).
- The answer of `join_secondaries` holds, for as long as the switch stays off, exactly if no secondary was between the switch
  and the lock when it was given (`SchedJoin.JoinIsSafe`); otherwise two harts can end up in one register frame
  (`SchedJoin.JoinGoesStale`), also from an idle machine (`SchedOpening.StaleFromIdle`).
- Turning the switch on after a clean join is safe exactly if the table holds no process that is ready, or is blocked and can
  be woken by a device or by the clock (`SchedOpening.OpeningIsSafe`). Otherwise the reset a run entry begins with can wipe a
  row from under the hart that runs it (`SchedOpening.OpeningTooSoon`); a process blocked in a plain receive does no harm.
- A plain receive can time out, against the deadline of an earlier receive that was woken by an interrupt meant for an earlier
  wait (`SchedStale.PlainReceiveTimesOut`). A parked call times out exactly if a deadline was in force when it was parked, has
  passed, and no message is there (`SchedTimeouts.TimesOutExactly`); in a task that is never marked as waiting for an
  interrupt only receives with a timeout do (`SchedTimeouts.OnlyTimedReceivesTimeOut`).
- On x86 a task that asks to exit is resumed if nothing else is runnable (`RoundRobin.Scheduler.OnSyscall`); a killed task
  never is (`RoundRobin.Scheduler.KillCurrent`).
- An x86 task without an address space of its own runs in that of the last task that had one, while the
  comment on the field says it runs in the one the kernel booted with (`RoundRobin.Scheduler.Reschedule`).
- The 32-bit accumulator of the internet checksum is enough for up to 131074 bytes and for no greater length
  (`NetChecksum.NeverOverflows`, `NetChecksum.OverflowsBeyond`).
- A page mapped in a top-level slot the kernel uses goes into the kernel's own tables and is found by the kernel and by every
  space, unless the kernel maps the address with a large page: then success is reported and nothing is mapped. If the pool runs
  out between two missing tables the first one stays in the kernel's own (`KernelSlots.KernelSlotRunsOut`)
  (`KernelSlots.KernelSlotIsShared`, `KernelSlots.ApicWindowStaysLarge`).

## Model

| member | source | states |
|---|---|---|
| `StoreFormat.JournalRoundTrip` | dezh-boot/src/pkg.rs:404-475 | whatever the checksum function, every journal record decodes to itself |
| `StoreFormat.EntryFields` | dezh-boot/src/pkg.rs:669-697 | state, magic, slot, place of the blob, length, checksum, kind, capabilities, name and version of a fresh registry entry read back |
| `StoreFormat.PreviousFields` | dezh-boot/src/pkg.rs:699-722 | all of the preserved version's metadata, kind and capabilities included, reads back and only its flag is added to the flags |
| `StoreFormat.PreviousKeepsActive` | dezh-boot/src/pkg.rs:699-722 | recording the preserved version leaves all metadata of the active version alone |
| `Disk.WrittenBlobReadsBack` | dezh-boot/src/pkg.rs:533-603 | a blob written as zero-filled sectors reads back byte for byte |
| `StoreBlocks.RecordBlock` | dezh-boot/src/pkg.rs:383-398 | any prefix of the eight sector writes of a journal record leaves the old journal or the whole new record |
| `StoreBlocks.RegistryBlock` | dezh-boot/src/pkg.rs:340-356 | a registry write that changes one slot is atomic at every sector boundary |
| `StoreBlocks.CommitBlock` | dezh-boot/src/pkg.rs:1268-1273 | what each prefix of registry, marker and cleared journal leaves of registry and journal |
| `StoreRecovery.RecoveryKeepsInv` | dezh-boot/src/pkg.rs:847-982 | every prefix of what recovery writes leaves a disk that recovery can still restore |
| `StoreRecovery.RecoveryRestoresTheStore` | dezh-boot/src/pkg.rs:847-982 | from any recoverable disk and any series of interrupted recoveries, a recovery that completes leaves a store at rest |
| `StoreManual.QuarantineEntries` | dezh-boot/src/pkg.rs:835-845 | a pending slot is quarantined with the rest of its entry kept, and no other entry changes |
| `StoreManual.ManualRecoverySettles` | dezh-boot/src/pkg.rs:847-880 | on any disk whose journal cannot be read, however often the operator's recovery is cut, one that completes leaves an empty journal and no slot pending; every other entry and every blob is as it was |
| `StoreManual.ManualRecoveryThenLoad` | dezh-boot/src/pkg.rs:847-1070 | and a load after it leaves a store at rest, whatever the blobs hold |
| `StoreTheorems.InstallSees` | dezh-boot/src/pkg.rs:1209-1273 | journal, registry and blob after each number of an install's writes |
| `StoreTheorems.UpdateSees` | dezh-boot/src/pkg.rs:2519-2597 | journal, registry and the three blob areas after each number of an update's writes |
| `StoreTheorems.InstallIsCrashSafe` | dezh-boot/src/pkg.rs:1209-1273 | every crash point of an install is recoverable |
| `StoreTheorems.UpdateIsCrashSafe` | dezh-boot/src/pkg.rs:2519-2597 | every crash point of an update is recoverable |
| `StoreTheorems.RemoveIsCrashSafe` | dezh-boot/src/pkg.rs:2235-2266 | every crash point of a remove is recoverable |
| `StoreOutcomes.CrashSafety` | dezh-boot/src/pkg.rs:847-982 | for every crash point of install, update and remove and every series of crashes in recovery: the journal ends empty, nothing is pending, every active slot is backed by its blob, all other slots keep entry and blob |
| `StoreOutcomes.InstallOutcome` | dezh-boot/src/pkg.rs:1209-1273 | the slot as an exact function of the crash point and of where each recovery was cut: unchanged, new and active, or quarantined in the gaps |
| `StoreOutcomes.UpdateOutcome` | dezh-boot/src/pkg.rs:2519-2597 | the same for an update |
| `StoreOutcomes.RemoveOutcome` | dezh-boot/src/pkg.rs:2235-2266 | a remove is all or nothing, through any number of interrupted recoveries |
| `StoreRollback.RollbackOutcome` | dezh-boot/src/pkg.rs:2645-2692 | after a rollback is cut anywhere and recovered: the preserved blob is in the slot, other slots are untouched, and the entry is the preserved version's exactly if it had landed |
| `StoreRollback.RollbackMatches` | dezh-boot/src/pkg.rs:940-958 | the recovered entry describes its blob if and only if the pending entry had landed or the mixed blob has the old checksum |
| `StoreRollback.RolledEntry` | dezh-boot/src/pkg.rs:2633-2690 | the entry a rollback commits: all of the preserved metadata, same name and pin, no version preserved |
| `StoreRoundTrip.UpdateEnablesRollback` | dezh-boot/src/pkg.rs:2519-2597 | a committed update can be rolled back, to exactly the blob that was active |
| `StoreRoundTrip.UpdateThenRollback` | dezh-boot/src/pkg.rs:2609-2695 | update then rollback, also when cut after the entry landed, gives back the old version's bytes, name, version, kind and capabilities |
| `StoreRoundTrip.RollbackWindow` | dezh-boot/src/pkg.rs:2661-2680 | cut before the entry landed, versions of one length and different checksums end with an active entry over the wrong blob |
| `StoreCheckpoint.AbandonedUpdate` | dezh-boot/src/pkg.rs:2519-2553 | an update cut anywhere before its pending journal record, however often recovery is cut, leaves the registry as it was, and can be rolled back if and only if the preserved area, with the sectors already copied over it, has the recorded checksum |
| `StoreCheckpoint.AbandonedEarly` | dezh-boot/src/pkg.rs:2519-2542 | until the copy starts the checkpoint is untouched and usable |
| `StoreCheckpoint.CheckpointWindow` | dezh-boot/src/pkg.rs:2543-2553 | once the copy is complete, a recorded checkpoint of the same length and another checksum cannot be restored, and the entry still records it |
| `StoreCheckpoint.SecondUpdateLosesTheCheckpoint` | dezh-boot/src/pkg.rs:2519-2553 | after an update the slot can be rolled back; a second update between versions of one length, cut there and recovered, leaves a store at rest whose entry still offers the checkpoint and which cannot be |
| `StoreSweep.CutLoadIsQuiescent` | dezh-boot/src/pkg.rs:1045-1070 | a load cut at any sector leaves blobs and journal alone and every entry as it was or marked corrupt |
| `StoreSweep.LoadRests` | dezh-boot/src/pkg.rs:984-1070 | from any quiescent disk a completed load leaves a store at rest, with exactly the slots corrupt that were active and not accepted or did not fit |
| `StoreSweep.LoadResumes` | dezh-boot/src/pkg.rs:1045-1070 | a load that is cut and started again ends in the registry it would have ended in at once |
| `StoreHistory.BlankDiskRests` | dezh-boot/src/pkg.rs:404-407 | a blank disk is a store at rest that any checked package can be installed on, whatever the checksum and the inspection |
| `StoreHistory.RollbackRests` | dezh-boot/src/pkg.rs:2645-2692 | a rollback cut anywhere and recovered leaves a store at rest if and only if the blob it ends with, known before it starts, passes the loader's checks against the entry it ends with |
| `StoreHistory.RollbackThenLoad` | dezh-boot/src/pkg.rs:940-1043 | a rollback cut anywhere, interrupted recoveries, a recovery and a load always end at rest; the slot is given up for its contents exactly if the rollback did not end soundly, and no other slot but for want of room |
| `StoreHistory.ChecksSuffice` | dezh-boot/src/pkg.rs:1136-1208 | on a loaded store what the commands check of slot and package is all they need to start |
| `StoreHistory.RecoveryIsSafe` | dezh-boot/src/pkg.rs:847-982 | on every disk a history can leave, recovery knows what to do, keeps the disk accounted for when cut, and is quiescent when complete |
| `StoreHistory.EventIsSafe` | dezh-boot/src/pkg.rs:847-1070 | every command, recovery and load, cut anywhere, keeps the invariant of the store's life |
| `StoreHistory.HistoryIsSafe` | dezh-boot/src/pkg.rs:847-1070 | over every history a loaded store is at rest, and a slot no command names keeps its blob, and its entry unless a load gave up on it |
| `StoreHistory.EveryHistory` | dezh-boot/src/pkg.rs:847-1070 | the same from a blank disk: recovery always has an answer and the commands' own checks are enough |
| `StoreSteps.BuildJournal` | dezh-boot/src/pkg.rs:450-474 | filling in the fields one by one and signing last gives the record's image |
| `StoreSteps.BuildEntry` | dezh-boot/src/pkg.rs:669-697 | filling in the fields one by one gives the entry's image |
| `StoreSteps.BuildPrevious` | dezh-boot/src/pkg.rs:699-722 | filling in the preserved version changes exactly its fields |
| `StoreSteps.CommittedRegistry` | dezh-boot/src/pkg.rs:972-976 | a completed commit leaves its registry on the disk |
| `StoreLoading.AcceptedIsLoadable` | dezh-boot/src/pkg.rs:984-1043 | the loader accepts a slot exactly if it is active and its blob passes every check |
| `StoreLoading.SweptEntries` | dezh-boot/src/pkg.rs:769-777 | loading changes nothing in the registry but the state of active slots it could not keep |
| `StoreLoading.LoadIsLive` | dezh-boot/src/pkg.rs:1045-1070 | after a load the active slots are exactly those with a runtime entry; its name, version, kind and capabilities are those that inspecting the blob read back from the slot's active area gives, its length and checksum those of the registry entry, and its payload is in the arena, apart from all others |
| `StoreLoading.LoadDescribes` | dezh-boot/src/pkg.rs:1020-1043 | the same on the disk the load started from, for exactly the slots that are accepted and fit |
| `PackageStore.Store.ReadRegistry` | dezh-boot/src/pkg.rs:322-338 | the registry in memory is the one on the disk |
| `PackageStore.Store.WriteRegistry` | dezh-boot/src/pkg.rs:340-356 | issues the registry's sector writes in order, up to where the power fails |
| `PackageStore.Store.ReadJournalRaw` | dezh-boot/src/pkg.rs:367-381 | returns the journal image on the disk |
| `PackageStore.Store.WriteJournalRaw` | dezh-boot/src/pkg.rs:383-398 | issues the journal's eight sector writes in order |
| `PackageStore.Store.WriteJournal` | dezh-boot/src/pkg.rs:450-474 | issues the writes of the signed record |
| `PackageStore.Store.WriteBlobAt` | dezh-boot/src/pkg.rs:533-550 | issues one write per sector of the blob, the last one zero-filled |
| `PackageStore.Store.ReadBlobAreaIntoStage` | dezh-boot/src/pkg.rs:581-603 | the staging buffer starts with the stored blob, and lengths over the slot size are refused |
| `PackageStore.Store.Commit` | dezh-boot/src/pkg.rs:972-976 | registry, marker and cleared journal, in that order; on success the registry is on the disk |
| `PackageStore.Store.VerifyBlobRecordAt` | dezh-boot/src/pkg.rs:787-815 | true exactly if the stored blob passes every check against the record |
| `PackageStore.Store.CopyBlobArea` | dezh-boot/src/pkg.rs:817-826 | writes exactly the blob stored in the other area, or refuses without a write |
| `PackageStore.Store.QuarantinePendingSlots` | dezh-boot/src/pkg.rs:835-845 | exactly the pending slots are quarantined |
| `PackageStore.Store.Replay` | dezh-boot/src/pkg.rs:882-970 | what a record asks for before the commit, or a stop inside the same list of writes |
| `PackageStore.Store.RecoverFromJournal` | dezh-boot/src/pkg.rs:847-982 | recovery issues exactly the specified writes up to a power failure; it reports success exactly if they all landed, and is degraded otherwise |
| `PackageStore.Store.MarkCorrupt` | dezh-boot/src/pkg.rs:769-777 | only an active slot changes, and the registry write that follows may be cut short |
| `PackageStore.Store.InstallRuntimeEntry` | dezh-boot/src/pkg.rs:631-665 | succeeds exactly if the payload fits, and then appends it to the arena without touching the rest |
| `PackageStore.Store.LoadSlot` | dezh-boot/src/pkg.rs:984-1043 | an accepted slot that fits gets a table entry with the fields its blob and its registry entry give, field by field; any other active slot is marked corrupt; the rest is left alone |
| `PackageStore.Store.EnsureLoaded` | dezh-boot/src/pkg.rs:1045-1070 | for any disk contents: exactly the writes of recovery and of the load up to a power failure, a registry, table and arena that agree, which slots were kept, and of each the capabilities, kind, name, version, length, checksum and payload its blob and entry give; from a sane store, a store at rest, with failure only for want of power |
| `PackageStore.Store.FindRegistrySlot` | dezh-boot/src/pkg.rs:763-767 | the first slot with the name that is not empty, or none if there is none |
| `PackageStore.Store.RegistrySlotFor` | dezh-boot/src/pkg.rs:738-757 | a name keeps its slot; otherwise the first removed slot, otherwise the first empty one, otherwise none |
| `PackageStore.Store.InstallTransaction` | dezh-boot/src/pkg.rs:1209-1273 | issues exactly the install's writes, up to where the power fails |
| `PackageStore.Store.UpdateTransaction` | dezh-boot/src/pkg.rs:2519-2597 | issues exactly the update's writes, with the blob that was active preserved |
| `PackageStore.Store.RemoveTransaction` | dezh-boot/src/pkg.rs:2235-2266 | issues exactly the remove's writes |
| `PackageStore.Store.RollbackTransaction` | dezh-boot/src/pkg.rs:2645-2692 | issues exactly the rollback's writes |
| `PackageStore.Store.PkgRecv` | dezh-boot/src/pkg.rs:1136-1292 | refuses exactly the packages that cannot be installed, without a write; otherwise, in a sane store, the disk is the install's crash point that the power allowed, and the store stays sane |
| `PackageStore.Store.PkgUpdate` | dezh-boot/src/pkg.rs:2415-2607 | the same for an update: pinned, unchanged and unreviewed packages are refused |
| `PackageStore.Store.PkgRemove` | dezh-boot/src/pkg.rs:2216-2270 | the same for a remove |
| `PackageStore.Store.PkgRollback` | dezh-boot/src/pkg.rs:2609-2695 | refuses exactly the slots without a preserved version that verifies; otherwise, in a sane store, the disk is the rollback's crash point, and the store stays sane |
| `SchedTable.PickIsComplete` | dezh-boot/src/sched.rs:363-378 | the scan fails only if no task is ready, unclaimed and allowed on the hart |
| `SchedTurns.PickIsNearest` | dezh-boot/src/sched.rs:363-378 | the search takes the first eligible task after the one the hart ran last |
| `SchedTurns.NotTwiceInARow` | dezh-boot/src/sched.rs:363-378 | no task is taken twice in a row while another is eligible |
| `SchedTurns.NobodyStarves` | dezh-boot/src/sched.rs:363-378 | in every run, a task a hart could run each time it looks is taken by its fourth search, whatever the other harts do, unless the console starts a run in between |
| `SchedSafety.StepKeeps` | dezh-boot/src/sched.rs:463-955 | every critical section, trap and interrupt keeps the scheduler's invariant, and so does every run entry that hits no claimed row |
| `SchedSafety.ServeKeeps` | dezh-boot/src/sched.rs:655-949 | so does every system call |
| `SchedSafety.ExpireTaskOk` | dezh-boot/src/sched.rs:207-233 | a task whose deadline passed leaves its call 4 past where it trapped |
| `SchedTheorems.ClaimsAreSound` | dezh-boot/src/sched.rs:363-418 | in every orderly interleaving no task is claimed twice, a claimed frame carries its hart's stamp, and a secondary never holds a task of the kernel's address space |
| `SchedTheorems.NoLostWakeup` | dezh-boot/src/sched.rs:845-944 | a task parked in a receive has no mail; one parked on interrupts holds the current count or a wakeup is due; its frame is where the call trapped |
| `SchedTheorems.CallsMoveByFour` | dezh-boot/src/sched.rs:180-233 | every call that returned, by result, message, timeout or after early wakes, moved the saved program counter by exactly 4 |
| `SchedTheorems.TimeoutsAreNotEarly` | dezh-boot/src/sched.rs:872-915 | whatever call timed out, a deadline was in force when it was parked and had passed; a receive with a timeout gave up only once its own time had passed, or the clock was at the end of its range |
| `SchedTheorems.CapabilitiesAreTraced` | dezh-boot/src/sched.rs:780-844 | every capability held or in a queued message was in some task's starting set; every accepted message attests exactly what the sender held and grants no more |
| `SchedTheorems.MailboxesAreQueues` | dezh-boot/src/sched.rs:180-205 | each mailbox is a first-in first-out queue of depth at most 4, and sends are receives plus queued plus cleared |
| `SchedCalls.ReceiveDelivers` | dezh-boot/src/sched.rs:180-205 | in every reachable state a receive by a task with mail returns with the oldest message not yet received: sender, word and the capabilities the sender held when it sent are in a1, a2 and a3, how much of it fits the buffer in a0, and the receiver's capabilities are joined with exactly the grant |
| `SchedCalls.ReceiveWaits` | dezh-boot/src/sched.rs:845-915 | a receive without the capability is refused; without mail it parks where it trapped, with the deadline its timeout asks for, and a timeout of 0 is reported at once |
| `SchedCalls.TimeoutIsReported` | dezh-boot/src/sched.rs:207-233 | a receive parked with a timeout is let go by a scan if and only if the ticks it asked for have gone by, with status, no sender and the system service's timeout word in its registers |
| `SchedCalls.SendPosts` | dezh-boot/src/sched.rs:780-844 | a send is refused exactly without the capability, to a task that is not alive or to a full mailbox; otherwise one message with the sender, its word, bytes and capabilities, granting what was asked for and is held, is queued, and a parked receiver can run |
| `SchedCalls.PlainCallsAnswer` | dezh-boot/src/sched.rs:736-779 | what print, uptime, null, report, print-number and unknown calls answer, capability by capability |
| `SchedCalls.ControlCallsAnswer` | dezh-boot/src/sched.rs:716-944 | what yield, exit and the interrupt wait do to the task and the hart |
| `SchedEnds.TheDeadStayDead` | dezh-boot/src/sched.rs:640-735 | a task that faulted or exited is never runnable or on a hart again in any orderly run, unless its row is filled anew |
| `SchedEnds.TrapsEnd` | dezh-boot/src/sched.rs:618-655 | a fault ends the task that caused it and nothing else; a timer interrupt counts a tick and ends nothing |
| `SchedEnds.DevicesAreHeard` | dezh-boot/src/sched.rs:1410-1427 | the clock and each device interrupt count once; a wakeup lets exactly the tasks that wait for a device run |
| `SchedEnds.RowIsFilled` | dezh-boot/src/sched.rs:959-1258 | a row starts with exactly the frame, capabilities and address space it is given, and without mail if it is cleared |
| `SchedEnds.RowIsReclaimed` | dezh-boot/src/sched.rs:255-267 | a row taken back with its frames keeps no capability and no mail |
| `SchedJoin.StaysClosed` | dezh-boot/src/sched.rs:1181-1200 | after a clean join, in every run that does not turn the switch on, every secondary stays out of the table |
| `SchedJoin.JoinGoesStale` | dezh-boot/src/sched.rs:1127-1212 | whatever the table holds, if a secondary is between the switch and the lock when a join is answered, some run puts two harts into one task |
| `SchedJoin.JoinIsSafe` | dezh-boot/src/sched.rs:1181-1193 | claims stay exclusive in every run without turning the switch on, if and only if no secondary was between the switch and the lock |
| `SchedJoin.WindowStep` | dezh-boot/src/sched.rs:1127-1145 | a table with nothing takeable in it stays one whatever devices, the clock, resets and secondaries do, and no secondary finds a task |
| `SchedOpening.OpeningTooSoon` | dezh-boot/src/sched.rs:1014-1038 | from a closed table with any takeable task, ready or woken by a device or the clock, turning the switch on and resetting rows can wipe the row of a task a secondary is running |
| `SchedOpening.OpeningIsSafe` | dezh-boot/src/sched.rs:1014-1038 | after a clean join no run of the opening window gives a secondary a task, and every one keeps the invariant, if and only if no task is takeable |
| `SchedOpening.StaleFromIdle` | dezh-boot/src/sched.rs:1127-1212 | from an idle machine a join is answered after which two harts end up in one task |
| `SchedJoin.OrderlyIsFit` | dezh-boot/src/sched.rs:959-1258 | a run entry made after a join, or before anything was filled in, hits no claimed row |
| `SchedJoin.RunKeeps` | dezh-boot/src/sched.rs:463-1258 | every orderly run keeps the scheduler's invariant |
| `SchedTimeouts.ParkedWith` | dezh-boot/src/sched.rs:845-944 | a call is parked with the deadline the task's flags hold; only a receive with a timeout sets them |
| `SchedTimeouts.TimesOutExactly` | dezh-boot/src/sched.rs:207-233 | in every reachable state a parked call times out at a scan if and only if it was parked with a deadline, that has passed, and no message is there |
| `SchedTimeouts.OnlyTimedReceivesTimeOut` | dezh-boot/src/sched.rs:180-233 | in a task that is never marked as waiting for an interrupt, only receives with a timeout time out |
| `SchedStale.PlainReceiveTimesOut` | dezh-boot/src/sched.rs:835-868 | an orderly run from an idle machine in which a plain receive times out |
| `Scheduler.RingPushes` | dezh-boot/src/sched.rs:818-832 | a message enters the ring behind all others |
| `Scheduler.RingPops` | dezh-boot/src/sched.rs:180-197 | the slot at the head holds the oldest message, and removing it leaves the others in order |
| `Scheduler.Tables.IsClaimedElsewhere` | dezh-boot/src/sched.rs:413-418 | true exactly if another hart claims the task |
| `Scheduler.Tables.ExpireRecvTimeouts` | dezh-boot/src/sched.rs:207-233 | exactly the blocked tasks whose deadline passed are let go |
| `Scheduler.Tables.PickNext` | dezh-boot/src/sched.rs:363-378 | the first eligible task after the one the hart ran last |
| `Scheduler.Tables.WakeIrqWaiters` | dezh-boot/src/sched.rs:1410-1427 | every task parked on a device is woken, and how many there were |
| `Scheduler.Tables.AnyIrqWaiting` | dezh-boot/src/sched.rs:425-429 | true exactly if some blocked task waits for a device |
| `Scheduler.Tables.SecondaryClaimsOutstanding` | dezh-boot/src/sched.rs:1196-1200 | true exactly if a secondary holds a task |
| `Scheduler.Tables.RecvMessageInto` | dezh-boot/src/sched.rs:180-205 | delivers the oldest message if there is one, with sender, word, the sender's capabilities and the length that fits in the registers and the grant joined, and changes nothing otherwise |
| `Scheduler.Tables.SendArm` | dezh-boot/src/sched.rs:780-844 | the tables after a send, refused or not, are those of the machine's step |
| `Scheduler.Tables.RecvArm` | dezh-boot/src/sched.rs:845-871 | the tables after a receive are those of the machine's step |
| `Scheduler.Tables.RecvTimeoutArm` | dezh-boot/src/sched.rs:872-915 | the tables after a timed receive are those of the machine's step |
| `Scheduler.Tables.IrqWaitArm` | dezh-boot/src/sched.rs:916-944 | the tables after an interrupt wait are those of the machine's step |
| `Scheduler.Tables.ServeTrap` | dezh-boot/src/sched.rs:715-949 | a system call takes the machine through its step and keeps its invariant |
| `Scheduler.Tables.DispatchNext` | dezh-boot/src/sched.rs:489-549 | the last section of a reschedule takes the machine through its step and returns the claim |
| `Scheduler.Tables.EnterTable` | dezh-boot/src/sched.rs:1127-1146 | a secondary, or the boot hart, coming in takes the machine through its step |
| `Scheduler.Tables.StartNamed` | dezh-boot/src/sched.rs:1202-1212 | naming a slot, whoever holds it, is the machine's step; the invariant survives if nobody holds it |
| `Scheduler.Tables.CountIrq` | dezh-boot/src/dev/plic.rs:101-101 | the counting half of an interrupt takes the machine through its step |
| `Scheduler.Tables.HandleIrq` | dezh-boot/src/dev/plic.rs:101-105 | the wakeup half of an interrupt takes the machine through its step |
| `IrVerifier.Verify` | dezh-core/src/ir.rs:124-154 | accepts exactly the well-formed programs, and says what is wrong with any other |
| `IrVerifier.StepIsSound` | dezh-core/src/ir.rs:192-329 | one step of a verified program stays on instruction boundaries and within both stacks |
| `IrVerifier.VerifiedRunsAreSound` | dezh-core/src/ir.rs:192-380 | for any host and any number of steps: program counter and return addresses are instruction starts or the end, stacks are in bounds, Truncated never happens, BadOpcode only at an unknown host call |
| `IrVerifier.VerifiedProgramsAreSound` | dezh-core/src/ir.rs:124-380 | so a program that passes the verifier is safe from its first instruction on |
| `IrAttenuation.StepExtendsTrace` | dezh-core/src/ir.rs:338-380 | a step only adds effects |
| `IrAttenuation.AttenuationOnlyTruncates` | dezh-core/src/ir.rs:192-380 | with fewer capabilities the effects are a prefix, and the outcome is the same unless it is MissingCapability |
| `Ir.WordRoundTrip` | dezh-core/src/ir.rs:272-284 | a word that is stored loads as itself |
| `IrLaws.Sums` | dezh-core/src/ir.rs:229-250 | add, sub and mul leave sum, difference and product modulo 2^64 |
| `IrLaws.Compares` | dezh-core/src/ir.rs:251-260 | lt, gt and eq leave 1 exactly if the lower operand is less than, greater than, equal to the upper, and 0 otherwise |
| `IrLaws.Divides` | dezh-core/src/ir.rs:236-247 | div and mod trap on zero and abort on the one quotient that is no word; otherwise divisor times quotient plus remainder is the dividend, the remainder smaller than the divisor and of the dividend's sign |
| `IrLaws.AddThenSubtract` | dezh-core/src/ir.rs:229-250 | adding a word and subtracting it again leaves the first operand, whatever wrapped in between |
| `IrLaws.Shuffles` | dezh-core/src/ir.rs:215-228 | pop drops, dup repeats or traps on a full stack, swap exchanges |
| `IrLaws.Stores` | dezh-core/src/ir.rs:266-284 | a store puts the little-endian bytes at the address and leaves the rest of memory alone, or traps outside of it |
| `IrLaws.Loads` | dezh-core/src/ir.rs:261-278 | a load leaves the number whose little-endian bytes stand at the address, or traps |
| `IrLaws.StoreThenLoad` | dezh-core/src/ir.rs:261-284 | what a store wrote, a load of the same width leaves |
| `IrLaws.Jumps` | dezh-core/src/ir.rs:285-299 | jmp always jumps, jz exactly on zero, jnz exactly on anything else |
| `IrLaws.CallThenReturn` | dezh-core/src/ir.rs:300-316 | a return that finds the calls as a call left them goes on after it, with the calls as before; 16 open calls are the limit |
| `IrLaws.Stops` | dezh-core/src/ir.rs:201-205 | code that runs off its end halts, and a number that is no opcode traps |
| `IrLaws.NeedsTwo` | dezh-core/src/ir.rs:173-179 | instructions with two operands trap on fewer |
| `IrLaws.NeedsOne` | dezh-core/src/ir.rs:173-179 | instructions with one operand trap on an empty stack |
| `IrLaws.CutOff` | dezh-core/src/ir.rs:206-336 | an instruction cut off by the end of the code traps |
| `IrLaws.Pushes` | dezh-core/src/ir.rs:206-214 | push leaves the word whose little-endian bytes follow, and traps on a full stack |
| `IrLaws.Refuses` | dezh-core/src/ir.rs:338-380 | a host call without its capability bit, or one that does not exist, traps with no effect |
| `IrLaws.Prints` | dezh-core/src/ir.rs:340-355 | the print calls show their operand, or exactly the bytes of memory their operands name |
| `IrLaws.Puts` | dezh-core/src/ir.rs:356-366 | a put hands over exactly the bytes named and traps if the store refuses |
| `IrLaws.Gets` | dezh-core/src/ir.rs:367-376 | a get changes at most the bytes named and leaves the count reported |
| `IrMachine.Machine.Push` | dezh-core/src/ir.rs:165-172 | pushes onto the operand stack or reports overflow |
| `IrMachine.Machine.Pop` | dezh-core/src/ir.rs:173-179 | pops the operand stack or reports underflow |
| `IrMachine.Machine.Plain` | dezh-core/src/ir.rs:213-284 | stack, arithmetic and memory instructions in place do what the machine's step does, whose laws are those of `IrLaws` |
| `IrMachine.Machine.HostCall` | dezh-core/src/ir.rs:338-380 | host calls in place: result, memory and effects are those of the machine's step |
| `IrMachine.Machine.Step` | dezh-core/src/ir.rs:200-327 | one instruction on the arrays is one step of the machine |
| `IrMachine.Interpret` | dezh-core/src/ir.rs:192-329 | the interpreter's loop computes the machine's run |
| `Assembler.ExpandSource` | tools/sdk/dzas.py:93-116 | pseudo-instructions and both ways of writing a label expand to the specified items, and the first bad line is the error |
| `Assembler.PlaceLabels` | tools/sdk/dzas.py:119-141 | the label table of the first pass, or its first error |
| `Assembler.EmitInstruction` | tools/sdk/dzas.py:146-171 | the bytes of one instruction with its operand resolved, or the error |
| `Assembler.Assemble` | tools/sdk/dzas.py:119-172 | the bytes are the encoding of the resolved program, or the first error of expansion, layout or emission |
| `AssemblerTheorems.LabelsAreOffsets` | tools/sdk/dzas.py:119-172 | a label has the offset of the instruction emitted next after the place where it stands, or the end |
| `AssemblerAccepts.AcceptsExactly` | tools/sdk/dzas.py:93-172 | a program is accepted if and only if no line misuses a pseudo-instruction, every instruction is known and has the operands it needs, labels within reach included, and no label stands twice |
| `AssemblerTheorems.AssembledCodeVerifies` | tools/sdk/dzas.py:119-172 | accepted source passes the verifier if and only if it is at most 4096 bytes and no branch goes to the end |
| `AssemblerTheorems.AssembledCodeDecodes` | tools/sdk/dzas.py:119-172 | linear decoding gives back the expanded program, instruction by instruction, with each branch going to where the label it names stands; no label stands twice |
| `AssemblerRuns.MnemonicNumbers` | tools/sdk/dzas.py:33-55 | the opcode each mnemonic stands for |
| `AssemblerRuns.StringLineRuns` | tools/sdk/dzas.py:100-107 | in any accepted program, running the code of a `string` line leaves the text's bytes at its address, the rest of memory as it was, and the machine at the next line |
| `AssemblerRuns.PrintsLineRuns` | tools/sdk/dzas.py:108-113 | running the code of a `prints` line shows exactly the bytes it names |
| `AssemblerRuns.TextComesOut` | tools/sdk/dzas.py:100-113 | a text that one line writes and the next prints comes out as it was written |
| `AddressSpaces.PagePool.constructor` | dezh-boot-x86/src/arch/paging.rs:30-49 | the kernel's tables alone are a valid start |
| `AddressSpaces.PagePool.AllocPage` | dezh-boot-x86/src/arch/paging.rs:51-62 | the next page of the pool, zeroed, or nothing once it is spent, the index moving on either way |
| `AddressSpaces.PagePool.NewAddressSpace` | dezh-boot-x86/src/arch/paging.rs:86-99 | one more space with nothing in it; no other space changes |
| `AddressSpaces.PagePool.Descend` | dezh-boot-x86/src/arch/paging.rs:101-114 | for any entry, the kernel's and large ones included: the table it names, or a fresh one linked in |
| `AddressSpaces.DescendKeeps` | dezh-boot-x86/src/arch/paging.rs:101-114 | in a slot of the space's own, descending changes no translation of any space and yields the table of that path |
| `AddressSpaces.MapSucceeds` | dezh-boot-x86/src/arch/paging.rs:101-142 | mapping in a slot of the space's own succeeds if and only if the pool has pages for the tables that are missing on its path |
| `AddressSpaces.PagePool.MapPage` | dezh-boot-x86/src/arch/paging.rs:119-142 | for any address the tables are those of `MapOn`; in a slot of the space's own exactly one page of one space is mapped, or on failure nothing visible changed anywhere, and it fails exactly for want of pages |
| `AddressSpaces.PagePool.MapNewPage` | dezh-boot-x86/src/arch/paging.rs:145-152 | the same with a page of the pool, which is and stays nobody's table |
| `AddressSpaces.PagePool.Translations` | dezh-boot-x86/src/arch/paging.rs:86-152 | each space translates to its last mapping, kernel slots and the kernel's space translate as at boot, user mode reaches exactly what was mapped with USER |
| `AddressSpaces.PagePool.DataStore` | dezh-boot-x86/src/arch/paging.rs:145-152 | a store to a page that was handed out changes no translation of any space |
| `AddressSpaces.SamePage` | dezh-boot-x86/src/arch/paging.rs:122-125 | two addresses take the same walk exactly if they share a page of the 48-bit space |
| `AddressSpaces.LeafFacts` | dezh-boot-x86/src/arch/paging.rs:138-140 | page, user and write bits of a leaf entry are those asked for |
| `PageTables.KernelSlotWalk` | dezh-boot-x86/src/arch/paging.rs:86-99 | in the kernel's slots every space translates as the kernel does, and never for user mode |
| `PageTables.LinkRefines` | dezh-boot-x86/src/arch/paging.rs:102-114 | linking an empty table changes no translation of any space |
| `PageTables.LeafRefines` | dezh-boot-x86/src/arch/paging.rs:120-142 | writing a leaf changes one translation of one space |
| `KernelSlots.KernelSlotIsShared` | dezh-boot-x86/src/arch/paging.rs:101-142 | mapping in a kernel slot with pages enough: with tables present or missing the leaf is found by the kernel and by every space; below a large page success is reported, the leaf goes into that page, and unless a table lies there every walk ends where it did |
| `KernelSlots.KernelSlotRunsOut` | dezh-boot-x86/src/arch/paging.rs:101-142 | with too few pages the mapping fails and no walk of the address changes; a table linked before the pool ran out stays in the kernel's own |
| `KernelSlots.BootTablesAreSound` | dezh-boot-x86/src/arch/boot.rs:68-105 | the boot code's five tables are as the model takes the kernel's tables to be |
| `KernelSlots.ApicWindowStaysLarge` | dezh-boot-x86/src/arch/boot.rs:95-105 | mapping a page into the APIC's window reports success, changes nothing, and the walk still ends in the 2 MiB page |
| `RoundRobin.ChooseFinds` | dezh-boot-x86/src/sched.rs:408-421 | the choice is runnable if anybody is, and nobody nearer is |
| `RoundRobin.BoundedWaiting` | dezh-boot-x86/src/sched.rs:403-447 | a task that stays runnable gets the CPU within 7 reschedules, whatever the others do |
| `RoundRobin.Scheduler.constructor` | dezh-boot-x86/src/sched.rs:66-84 | an empty task table is a valid start |
| `RoundRobin.Scheduler.Start` | dezh-boot-x86/src/sched.rs:302-322 | the boot context becomes task 0 in the space in force; no other task changes |
| `RoundRobin.Scheduler.WriteFrame` | dezh-boot-x86/src/sched.rs:139-166 | the 22 words of a fresh frame, on the task's own stack |
| `RoundRobin.Scheduler.Spawn` | dezh-boot-x86/src/sched.rs:212-230 | the task is runnable, and will start at its entry in ring 0 with interrupts on, registers zero and its own aligned stack; no other task changes |
| `RoundRobin.Scheduler.SpawnUser` | dezh-boot-x86/src/sched.rs:236-253 | the same for a user task in ring 3, on the user stack, in its own address space |
| `RoundRobin.Scheduler.Reschedule` | dezh-boot-x86/src/sched.rs:403-447 | the frame returned belongs to the chosen task and holds exactly the context it was last seen with; kernel stack and address space go with it, and a task without a space runs in the one that was in force |
| `RoundRobin.Scheduler.TimerInterrupt` | dezh-boot-x86/src/sched.rs:393-398 | every task gets back exactly the context it lost |
| `RoundRobin.Scheduler.UserTimerInterrupt` | dezh-boot-x86/src/sched.rs:393-437 | the same from ring 3, where the frame is on the task's own stack because the switch moved the CPU's kernel stack along |
| `RoundRobin.Scheduler.RunTask` | dezh-boot-x86/src/sched.rs:86-89 | whatever the running task writes outside the stacks of the others, every waiting task keeps its context |
| `RoundRobin.Scheduler.OnSyscall` | dezh-boot-x86/src/sched.rs:257-278 | the result reaches the caller's frame; an exiting caller is resumed if and only if nothing else is runnable |
| `RoundRobin.Scheduler.KillCurrent` | dezh-boot-x86/src/sched.rs:360-374 | halts exactly if nothing else is runnable, and otherwise resumes another task |
| `RunQueue.Ring.Push` | dezh-core/src/runq.rs:70-77 | appends, or refuses exactly if the ring is full |
| `RunQueue.Ring.Pop` | dezh-core/src/runq.rs:80-87 | takes the oldest item, or none exactly if the ring is empty |
| `RunQueue.Ring.IsEmpty` | dezh-core/src/runq.rs:57-59 | true exactly if the ring holds nothing |
| `RunQueue.Ring.IsFull` | dezh-core/src/runq.rs:53-63 | true exactly if the ring holds as many items as it has slots |
| `RunQueue.Drain` | dezh-boot/src/smp.rs:361-370 | empties the queue and counts every job once |
| `TicketLock.LockKeeps` | dezh-core/src/sync.rs:60-82 | every access of acquire and release keeps tickets, line and counters in step across wrap-around |
| `TicketLock.LockIsFair` | dezh-core/src/sync.rs:60-82 | at most one hart holds the lock, and it is the one whose ticket is next in the order they were taken |
| `TicketProgress.FirstGetsIn` | dezh-core/src/sync.rs:60-66 | in every reachable world the first in the line holds the lock or is let in by its next poll, and nobody behind it is |
| `TicketProgress.EveryHartGetsIn` | dezh-core/src/sync.rs:60-82 | from every reachable world a waiting hart with k ahead of it gets the lock in at most 5k + 1 steps of theirs and its own |
| `TicketProgress.NobodyWaitsLonger` | dezh-core/src/sync.rs:60-82 | however the harts interleave, it does not wait through more than 5k steps of the harts whose turn it is |
| `TicketProgress.HolderIsAnswered` | dezh-boot/src/smp.rs:350-358 | in every reachable world a push is refused exactly if the ring is full and otherwise appends; a pop finds nothing exactly if it is empty and otherwise takes the oldest |
| `TicketLock.RingContents` | dezh-core/src/runq.rs:70-87 | at every access of push and pop, popped values followed by the contents are the accepted ones |
| `TicketLock.QueueIsSequential` | dezh-boot/src/smp.rs:350-370 | over every interleaving the shared ring is a queue, and every popped job has been run or is in one hart's hands |
| `TicketLock.EveryJobRunsOnce` | dezh-boot/src/smp.rs:361-370 | once the queue is drained every accepted job has run exactly as often as it was queued |
| `Crc.Checksum` | dezh-core/src/dzp.rs:80-92 | the nested loop computes the checksum of the concatenated parts; `CrcPolynomial` says which one it is |
| `CrcPolynomial.ChecksumIsRemainder` | dezh-core/src/dzp.rs:80-92 | it is CRC-32: the one number whose bits are the complemented remainder of the message, first 32 coefficients complemented and 32 zeros appended, on long division by x^32+x^26+x^23+x^22+x^16+x^12+x^11+x^10+x^8+x^7+x^5+x^4+x^2+x+1 |
| `CrcPolynomial.BitsShifts` | dezh-core/src/dzp.rs:84-89 | eight shifts with a byte mixed in bring its bits down one by one, lowest first |
| `Crc.DetectsFourByteBursts` | dezh-core/src/dzp.rs:80-92 | strings that differ only within four consecutive bytes have equal CRC-32 exactly if they are equal |
| `Dzp.Pack` | dezh-core/src/dzp.rs:99-111 | the buffer starts with the packed form and is untouched behind it |
| `Dzp.ParsePacked` | dezh-core/src/dzp.rs:114-148 | parsing undoes packing exactly when kind, lengths and manifest allow it, and says which of them does not |
| `Dzp.ParsedIsPacked` | dezh-core/src/dzp.rs:114-148 | nothing else parses: what is accepted is, byte for byte, the packing of what is returned |
| `Dzp.DamageIsBadCrc` | dezh-core/src/dzp.rs:114-141 | damage to manifest or payload within four bytes is always answered with BadCrc |
| `Base64.Decode` | dezh-core/src/b64.rs:7-47 | succeeds exactly on chunks that have a meaning and fit, and writes that meaning |
| `Base64.SignsAreTheAlphabet` | dezh-core/src/b64.rs:7-47 | characters stand for their place in the alphabet of RFC 4648, and no other byte is accepted |
| `Base64.RoundTrip` | dezh-core/src/b64.rs:7-47 | decoding undoes the encoding of section 4 of RFC 4648 for every byte string |
| `Upload.ReceiveIntoStage` | dezh-boot/src/pkg.rs:1102-1132 | the stage holds what the lines decode to, or the upload is rejected |
| `Upload.NextLine` | dezh-boot/src/pkg.rs:1102-1132 | after any data: a full stop ends the upload with exactly that data, an exclamation mark gives it up, an empty line is skipped, and a line that is no base64 or too much of it is refused |
| `Upload.UploadedPackageParses` | dezh-boot/src/pkg.rs:1102-1132 | a packed package cut into chunks of 1 to 90 bytes, encoded and received, parses to what was packed |
| `NetChecksum.Compute` | dezh-core/src/net.rs:31-46 | the complement of the one's-complement sum, as long as the accumulator does not overflow |
| `NetChecksum.FoldCarries` | dezh-core/src/net.rs:42-44 | folding ends, and gives the sum's residue modulo 65535 with 0 only for 0 |
| `NetChecksum.EvenBytesAreHigh` | dezh-core/src/net.rs:34-41 | bytes at even places weigh 256 and bytes at odd places 1 |
| `NetChecksum.NeverOverflows` | dezh-core/src/net.rs:31-41 | up to 131074 bytes the accumulator fits in 32 bits |
| `NetChecksum.OverflowsBeyond` | dezh-core/src/net.rs:31-41 | at every greater length some packet overflows it |
| `NetChecksum.OddTailIsZeroPadded` | dezh-core/src/net.rs:38-41 | an odd last byte counts as if a zero byte followed |
| `NetChecksum.StoredChecksumIsZero` | dezh-core/src/net.rs:31-46 | storing the checksum in a zeroed field at any even offset makes a fresh checksum 0 |
| `MemoryMap.ValidateMemoryMap` | dezh-kernel/src/lib.rs:299-327 | accepts exactly the non-empty lists of sound, pairwise disjoint regions with a usable one, and each refusal means what it says |
| `MemoryMap.NeighboursDecide` | dezh-kernel/src/lib.rs:313-322 | on sorted regions, comparing neighbours decides pairwise disjointness |
| `MemoryMap.UsableBytesFit` | dezh-kernel/src/lib.rs:251-267 | on every accepted map the usable total and each partial sum fit in 64 bits |
| `MemoryMap.UsableBytesCount` | dezh-kernel/src/lib.rs:255-260 | on pairwise disjoint regions the usable total is the number of addresses in some usable region: none is counted twice, and none that is not usable |
| `MemoryMap.SumUsable` | dezh-kernel/src/lib.rs:251-267 | the sum the boot plan takes never overflows and is the number of usable addresses of the map |

## Left out

- I/O errors after which the console goes on: a failed write is modelled as the end of power, and reads of a disk that answers succeed.
- The virtio-block daemon, UART, timers, CSR and CR3 writes, assembly stubs: a sector request reads or writes that sector, a trap is a step.
- UTF-8 checks of names and versions in the registry (`entry_name`, `entry_version`), the manifest parser and payload verification: the store takes a function that says what a raw package declares, if it is valid.
- Pinning, garbage collection, listings, intents, leases, signatures, `pkg_fault`: one-field updates, output, a foreign library, or a fault injector that breaks the store's own invariants.
- PackageStore.Store.InstallTransaction, PackageStore.Store.UpdateTransaction: the branch taken when a read-back differs from what was just written is not modelled, because a disk that answers reads back what it took.
- PackageStore.Store.PkgRecv, PackageStore.Store.PkgUpdate, PackageStore.Store.PkgRemove, PackageStore.Store.PkgRollback: start where `ensure_loaded` has returned.
- SchedTheorems.ClaimsAreSound, SchedTheorems.NoLostWakeup, SchedTheorems.CallsMoveByFour, SchedTheorems.TimeoutsAreNotEarly, SchedTheorems.CapabilitiesAreTraced, SchedTheorems.MailboxesAreQueues: hold over orderly runs. The code does not enforce their order: the `smp-console` demo turns the switch on without looking at the table, and the console goes on after a join that gave up at its spin limit.
- Scheduler.Tables: the run entries' table set-up and `reclaim_task_resources` are steps of the machine only (`ResetRow`, `ReclaimRow`, `Install`), not code; address-space lifetime and frame reclamation are outside.
- SchedTable.Receive: the copy of the payload into the receiver's memory, the Linux personality, exit codes and the counters `denied_sends`, `timeouts`, `queue_full` and `max_depth` are not modelled.
- SchedSteps.World: program counters and ticks are unbounded numbers, not 64-bit words; `run_tasks` is never given an empty list.
- IrMachine.Interpret: takes a bound on the number of instructions, because programs may loop; the theorems hold for every bound.
- Assembler.Assemble: starts from lines split into tokens; the tokenizer, number syntax, lower-casing and UTF-8 encoding are parameters. The line `label` alone, which ends the original with an index error, is the error NamelessLabel.
- AddressSpaces.PagePool.MapPage, AddressSpaces.PagePool.MapNewPage: flags are the low 12 bits, as in all callers; what a mapping in a kernel slot does to later mappings is not followed further.
- AddressSpaces.PagePool.NewAddressSpace: new spaces are made while the kernel's own space is active, as in all callers.
- KernelSlots.KernelSlotIsShared: large pages of 1 GiB are left out, the boot code maps none; what walks find after a store into a large page that a table lies in is not stated.
- RoundRobin.Scheduler: tasks do not write to the stacks of other tasks, and a ring-0 task is interrupted on its own; `finish`, `stop` and the trace buffer are left out.
- RoundRobin.Scheduler.Spawn, RoundRobin.Scheduler.SpawnUser: the slot is not the running task's and not the boot context's, as in all callers.
- RoundRobin.Scheduler.Start: called from the boot context, or when the task that is running has finished, as in all callers.
- RunQueue.Ring: the indices do not wrap at the word size.
- TicketLock.World: the spin loop is one polling step at a time; memory ordering weaker than sequential consistency is not modelled.
- MemoryMap.ValidateMemoryMap: the library's stable sort is an insertion sort with the same result.
- `validate_services`, `validate_install_manifest`, `mcap`, `ocap`, `difc`, `cairn`, `abi`, `audit`: membership checks, one-line bit algebra and fixed-offset codecs that would only add easy members.
