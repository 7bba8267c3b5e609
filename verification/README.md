# iTan ReclaimSpace: the hardlink store and its life cycle

iTan ReclaimSpace deduplicates a workspace by replacing equal files with hard links to one
read-only master in a content-addressed store (`.itan_store`).  This project models the store,
its concurrent protocol and the components around it, over an explicit inode filesystem, and
proves what the engine promises.

A volume is a map from names to inodes and a map from inodes to content and mode; the link count
of an inode is the number of names that point at it (the Unix count).  `rename` replaces an
existing destination and does nothing when both names already are the same inode; `link` fails
when the new name exists (section 3 of the System Interfaces volume of POSIX.1-2017).

There are two layers over that filesystem, and a theorem that they agree.

* **The step layer** (`Protocol*`).  Any number of ingest workers, quarantine collectors, startup
  sweepers and the owner of the workspace interleave.  Every system call is one atomic step, a
  copy is written piece by piece, a process may stop between any two steps, and the renames that
  can overwrite a racing winner (NOREPLACE fallback, spill, revival) do so.  Invariants are proved
  for every step, and so for every run: content addressing, workspace bytes, safe purges, the
  link ceiling, contiguous slot indices, and what a worker does when it has lost a race.
* **The sequential layer** (`Store`, `Linkage`, `Gc`, `Ingest`, `Recovery`, `IngestCommand`, the
  `*Laws`, `Executability` and `IngestOutcome`).  Classes with the fields and loops of the
  original, each method proved equal to a function of the old state; then what those functions
  mean: which slot a link lands in, who may write or execute a published file, how many bytes a
  whole ingest saves and which files it links, what cached answers are worth.
* **`Refinement`** shows that a worker or collector that runs undisturbed in the step layer does
  to the volume exactly what the sequential operation does.

Beside them stand the USN journal parser (`Usn`), the on-disk names as strings (`Names`), the
retry queue (`RetryQueue`) and the two digests (`Digests`).

Verify with `dafny verify dfyconfig.toml`.

## Files

| file | what it is about |
|---|---|
| Filesystem.dfy | names, inodes, modes, system calls; how each call changes link counts |
| Protocol.dfy | the transition system |
| ProtocolSafety.dfy | content addressing and workspace bytes in every run |
| ProtocolRaces.dfy | what a worker does about a racing winner |
| ProtocolPurge.dfy | purges on stale stats, revival, cooldown |
| ProtocolReuse.dfy | a run in which a reused quarantine name makes a purge unsafe |
| ProtocolLimits.dfy | link ceiling and contiguity |
| Names.dfy | hexadecimal digests, slot and quarantine names, timestamps |
| Store.dfy | the volume object, lookup, slot acquisition, spilling |
| Permissions.dfy | mode bits |
| Verdicts.dfy | the verdicts of the waterfall |
| Linkage.dfy, LinkageLaws.dfy | publishing and linking; sharing and placement |
| Accounting.dfy | physical bytes of linking |
| BreakOnWrite.dfy | read-only masters over runs of engine and users |
| Executability.dfy | the execute permission from published file to linked files |
| Gc.dfy, GcLaws.dfy | the collector and its sweeps |
| Recovery.dfy | the startup sweep |
| Ingest.dfy, IngestLaws.dfy | the cached waterfall and its refinement |
| IngestRun.dfy, IngestCommand.dfy | whole ingest runs, the tree walk and the command |
| IngestOutcome.dfy | what a run achieves: masters, shared files, counters |
| Refinement.dfy | the two layers agree |
| Usn.dfy | the USN record loop |
| RetryQueue.dfy | deferred jobs |
| Digests.dfy | streaming and windowed digests |

## Where the code and its documents differ

The code is followed; each difference below is a proved fact.

* A link number j (from 0) goes to slot j div (limit - 1), not floor(j / 1000): the slot's own
  name is one of its links (`LinkageLaws.JthLinkGoesTo`).
* `lookup` promises the lowest existing slot but probes only indices 0 and 1
  (`Store.LookupIsScan` says exactly when that is enough).
* A full inode cache drops 50,000 entries in no particular order, not the 10,000 oldest
  (`IngestLaws.CacheIsBounded`).
* `validate_digest_hex` accepts upper case, which does not survive a round trip
  (`Names.ValidationIsHex`, `Names.HexParseRoundTrip`).
* The timestamp of a quarantine entry is read before the rename, so an entry spends the cooldown
  in quarantine less the time in between (`ProtocolPurge.ResidenceExactly`).
* Quarantine names have millisecond resolution.  If one is used twice, a pending purge can remove
  a slot that has a link; `ProtocolPurge.SafeExactlyWhenGuarded` says in exactly which runs, and
  `ProtocolReuse.ReusedNamePurgesLinkedSlot` is one.
* The first sweep after the cooldown does not always bring a linked slot back: of several entries
  of one slot the last revived wins (`GcLaws.RevivedReturns`, `GcLaws.TwoEntriesOneSlot`).
* A comment in `spill_slot` says that a rename onto a sibling made meanwhile fails; it replaces the
  sibling. `ProtocolRaces.TakesOnlyUnseen` says that this happens only to a sibling that appeared
  after the last look, and `ProtocolRaces.SeenWinnerIsKept` what happens to one that is seen.
* A file that shares a cached inode with a further name is passed over as ingested already, even
  when it is not linked to the store; `IngestOutcome.EveryFileIsSettled` says that every other
  file is settled, and when there are none of these.
* `bytes_saved` is the size of the target, whether or not its inode is freed
  (`Accounting.ReportedIsFreed` says exactly when they agree); `bytes_freed` of a quarantine sweep
  leaves out a newer slot that a revival overwrites (`GcLaws.EntryBytes`).
* Linking a file to the slot it already is leaves `<file>.tmp_link` behind
  (`LinkageLaws.LinkShares`), takes the execute bits of a 0555 file away
  (`BreakOnWrite.LinkModes`), and when done twice leaves the master writable
  (`BreakOnWrite.RelinkTwiceUnprotects`).
* A published master is a second copy: a Unique file is not linked to it, although the comment in
  `apply` says so (`Accounting.PublishBytes`).
* The USN reader reports a hard-link change even when the record also has the overwrite flag
  (`Usn.JournalRoundTrip`, through `Record.Wanted`).

## Model

| member | source | states |
|---|---|---|
| Filesystem.LinkCounts | crates/itan-core/src/linkage.rs:266-274 | a hard link adds one link to the linked inode and to no other |
| Filesystem.RenameCounts | crates/itan-core/src/linkage.rs:276-285 | a rename keeps every link count, but takes one link from the inode whose name it displaces |
| ProtocolSafety.AlwaysContentAddressed | crates/itan-core/src/linkage.rs:124-177 | in every state of every run, every slot in objects/ or quarantine/ is a complete file that hashes to its name, also after a rename has overwritten a racing winner |
| ProtocolSafety.AlwaysWorkspaceIntact | crates/itan-core/src/linkage.rs:181-250 | in every state of every run, crashes included, a workspace path exists exactly while its owner wants it and reads the owner's bytes |
| ProtocolSafety.AlwaysFilesOpen | crates/itan-core/src/store.rs:273-320 | a worker in the middle of a copy always has both files |
| ProtocolSafety.Step | crates/itan-core/src/linkage.rs:124-250 | the invariant behind both is kept by every step of workers, collectors, sweepers and users |
| ProtocolSafety.CollectorStep | crates/itan-core/src/gc.rs:174-335 | in particular by a collector that acts on a stale stat, overwriting a slot or not |
| ProtocolRaces.TakesOnlyUnseen | crates/itan-core/src/store.rs:302-311 | in every run, a worker takes a slot from another inode only if the slot was missing at that worker's step just before |
| ProtocolRaces.CopiesOnlyMissing | crates/itan-core/src/store.rs:273-300 | a worker makes a file only for a slot it has found missing since it took up its job |
| ProtocolRaces.SeenWinnerIsKept | crates/itan-core/src/store.rs:302-320 | a worker with a finished copy that sees its slot taken removes the copy and no other name at its next step, leaves the copy's inode without a name, and ends with that slot acquired, or with its publication done |
| ProtocolRaces.MasterIsKept | crates/itan-core/src/linkage.rs:153-168 | with a native NOREPLACE no worker ever takes a master from the inode that won it |
| ProtocolPurge.PurgeIsSafe | crates/itan-core/src/gc.rs:284-334 | in every run in which no slot that has gained a link is moved to a name about to be purged, a purge that removes an entry removes the only name of its inode, with any number of collectors and workers |
| ProtocolPurge.SafeExactlyWhenGuarded | crates/itan-core/src/gc.rs:284-334 | that guard is exact: all states of a run are safe to purge in if and only if all its moves are guarded |
| ProtocolPurge.FreshNamesAreGuarded | crates/itan-core/src/gc.rs:190-206 | it holds whenever no quarantine name is given out twice |
| ProtocolPurge.MovesUnsafely | crates/itan-core/src/gc.rs:190-206 | one move leaves a pending purge unsafe if and only if that purge is of the very name moved to and the slot has gained a link |
| ProtocolPurge.PurgeStep | crates/itan-core/src/gc.rs:284-334 | by every guarded step, an inode whose only name is an entry about to be purged gets no other; by every step at all, an inode has at most one name in the store |
| ProtocolPurge.LinkedEntryReturns | crates/itan-core/src/gc.rs:284-319 | over a run: a slot moved at step m, whose inode has a workspace name when its cooled entry is scanned at step x, is back at exactly the path it came from, same inode, when that collector acts at step n, unless the entry has gone in between |
| ProtocolPurge.EntryLeavesByRevival | crates/itan-core/src/gc.rs:284-334 | and how it may have gone: an entry with a second name is never purged and leaves quarantine by going back to its slot alone |
| ProtocolPurge.ReviveReturns | crates/itan-core/src/gc.rs:184-206 | an inode moved out of slot k of d and revived later is back at exactly that slot, whatever happened in between |
| ProtocolPurge.OriginStays | crates/itan-core/src/gc.rs:359-364 | a quarantine name stands for the same inode until another slot is moved to it |
| ProtocolReuse.ReusedNamePurgesLinkedSlot | crates/itan-core/src/gc.rs:190-206 | a run from an empty store, with two collectors that stat a slot in the same millisecond and a slot published and linked in its place, that ends with a purge pending on one of two names of a file |
| ProtocolPurge.PurgeIsCooled | crates/itan-core/src/gc.rs:265-282 | with a clock that does not run back, a purge comes at least the cooldown after the timestamp in the entry's name |
| ProtocolPurge.ResidenceExactly | crates/itan-core/src/gc.rs:190-206 | from the move on an entry is purged after t milliseconds if and only if t is at least the cooldown less the time between timestamp and move; so it is sure of the whole cooldown if and only if that time is zero or there is no cooldown |
| ProtocolPurge.ResidenceInRuns | crates/itan-core/src/gc.rs:265-282 | in every run the time between move and purge is at least the cooldown less that delay |
| ProtocolLimits.LinksStayBounded | crates/itan-core/src/store.rs:198-286 | with W workers no inode of the store has more than max + W - 1 links (max at least 2), reused spill siblings included, in every phase of a run without collectors that starts with idle workers and no inode over the bound, whatever collectors did before |
| ProtocolLimits.StartIsCalm | crates/itan-core/src/store.rs:104-125 | the start of a run is such a state |
| ProtocolLimits.NtfsBufferSuffices | crates/itan-core/src/capability.rs:61-73 | the limit of 1,000 keeps every slot within 1,024 links for up to 25 workers |
| ProtocolLimits.CeilingIsReached | crates/itan-core/src/linkage.rs:185-198 | the bound is met: a run of steps that ends with exactly max + W - 1 links |
| ProtocolLimits.CeilingStep | crates/itan-core/src/store.rs:198-286 | links plus workers committed to the slot stay within the bound, step by step |
| ProtocolLimits.AlwaysContiguous | crates/itan-core/src/store.rs:215-250 | slot indices of a digest run from 0 without a gap in every interleaving without a collector |
| Refinement.PublishRefines | crates/itan-core/src/linkage.rs:124-177 | a publishing worker alone reaches, step by step, the volume of the sequential operation, whichever of its calls fail |
| Refinement.LinkRefines | crates/itan-core/src/linkage.rs:181-250 | likewise for linking, whichever of its calls fail |
| Refinement.AcquireSolo | crates/itan-core/src/store.rs:198-251 | likewise for acquire_slot with its spill |
| Refinement.CollectSlotRefines | crates/itan-core/src/gc.rs:174-222 | likewise for one slot of a collector |
| Refinement.CollectEntryRefines | crates/itan-core/src/gc.rs:265-335 | likewise for one quarantine entry; a cooling entry is not looked at |
| Names.HexEncode | crates/itan-core/src/store.rs:364-371 | the loop computes the encoding the round trips are about |
| Names.ParseDigestFromHex | crates/itan-core/src/linkage.rs:417-426 | the loop fills the array with the bytes the digit pairs stand for |
| Names.HexRoundTrip | crates/itan-core/src/linkage.rs:417-435 | encode then parse is the identity on 32-byte digests |
| Names.HexParseRoundTrip | crates/itan-core/src/linkage.rs:417-435 | parse then encode gives a 64-character text back if and only if it is lower-case hexadecimal |
| Names.ValidationIsHex | crates/itan-core/src/store.rs:385-399 | every encoded digest is valid, and valid means 64 hexadecimal digits of either case: the path tests never decide |
| Names.ReadDigit | crates/itan-core/src/linkage.rs:428-435 | digits are read in either case, and anything else as 0 |
| Names.WriteDigit | crates/itan-core/src/store.rs:364-371 | digits are written in lower case |
| Names.PaddedRoundTrip | crates/itan-core/src/store.rs:377-379 | the printed index reads back as the index, also above 999 |
| Names.SlotNameFormat | crates/itan-core/src/store.rs:373-379 | a slot name is 64 lower-case digits, "_s" and three digits, more only from index 1,000 on and then without leading zeros |
| Names.QuarantineNameFormat | crates/itan-core/src/gc.rs:190-199 | an entry name is the milliseconds without leading zeros, an underscore and the slot name |
| Names.StrippedPart | crates/itan-core/src/gc.rs:358-364 | what is stripped of any name at all: all up to and with its first underscore, or nothing if none or if it is the last character |
| Names.UnreadableAge | crates/itan-core/src/gc.rs:343-356 | a name without a number before its first underscore counts as of time 0 |
| Names.SlotNameInjective | crates/itan-core/src/store.rs:377-379 | digest and index are determined by the file name |
| Names.OnDiskInjective | crates/itan-core/src/store.rs:364-397 | two slots or quarantine entries share a place on disk if and only if they are the same |
| Names.QuarantineNameRoundTrip | crates/itan-core/src/gc.rs:343-364 | a quarantine name gives back the age and exactly the shard and file name the slot came from |
| Store.CasStore.Lookup | crates/itan-core/src/store.rs:152-184 | the two-probe loop computes Lookup2 |
| Store.LookupIsScan | crates/itan-core/src/store.rs:152-184 | two probes find the lowest slot, or none exactly when there is none, if and only if some slot is at index 0 or 1 or there is none; always on contiguous stores |
| Store.CasStore.AcquireSlot | crates/itan-core/src/store.rs:198-251 | the loop ends, returns the least index that is missing or has room, and changes nothing but the spill slot it makes |
| Store.CasStore.SpillSlot | crates/itan-core/src/store.rs:273-320 | makes the next sibling with the same bytes and mode, or reuses it, and leaves no stage file |
| Store.AcquireResult | crates/itan-core/src/store.rs:198-251 | on contiguous slots: the lowest slot with room and no change; or all are full and one new slot has the same content and one link; or index 0 when there is none |
| Permissions.EnforcePosixMode | crates/itan-core/src/permissions.rs:119-130 | sets 0555 or 0444 |
| Permissions.StripReadOnlyPosix | crates/itan-core/src/permissions.rs:133-143 | sets 0644 |
| Permissions.ModesMean | crates/itan-core/src/permissions.rs:98-143 | enforcing leaves no one able to write, and everyone able to execute if and only if someone was; stripping lets the owner alone write and no one execute |
| Permissions.ModesAre | crates/itan-core/src/permissions.rs:98-143 | the three modes in octal; read-only means that nobody may write, executable that somebody may execute |
| Linkage.AtomicLinkagePipeline.PublishNewMaster | crates/itan-core/src/linkage.rs:124-177 | the whole new volume and result, for every combination of failing copy, shard directory and rename: an existing slot is reused, else a read-only copy of the target appears or what the failure leaves behind stays |
| Linkage.PublishAnswers | crates/itan-core/src/linkage.rs:124-177 | a publication succeeds if and only if there is a master afterwards; each error if and only if its own call failed, and what that failure leaves |
| Linkage.AtomicLinkagePipeline.LinkToMaster | crates/itan-core/src/linkage.rs:181-250 | the whole new volume, result and queue for every combination of failing calls: exactly a deferred link adds its job, attempt 0 due in 100 ms, to a queue with room |
| Linkage.LinkAnswers | crates/itan-core/src/linkage.rs:200-248 | deferred if and only if the link call meets a transient lock, or the temporary link is made and the swap meets one; every other failure is an error for the path of the failing call; success if and only if nothing fails |
| Linkage.AtomicLinkagePipeline.Apply | crates/itan-core/src/linkage.rs:102-120 | which operation a verdict leads to |
| LinkageLaws.LinkShares | crates/itan-core/src/linkage.rs:185-229 | a link gives the target the slot's inode, moves no other name and changes no byte, except that a target that already is the slot keeps a leftover temporary link |
| LinkageLaws.PublishKeepsBytes | crates/itan-core/src/linkage.rs:124-177 | publishing changes no byte of an existing file, whichever calls fail |
| LinkageLaws.LinkKeepsBytes | crates/itan-core/src/linkage.rs:181-250 | nor does linking |
| LinkageLaws.PublishKeepsNames | crates/itan-core/src/linkage.rs:124-177 | publishing takes no name away |
| LinkageLaws.LinkKeepsNames | crates/itan-core/src/linkage.rs:181-250 | linking takes none away but the target's old one |
| LinkageLaws.NextLink | crates/itan-core/src/linkage.rs:181-250 | one more link fills the last slot, or opens the next when it is full |
| LinkageLaws.LinkAllPlaces | crates/itan-core/src/store.rs:198-251 | after j links the slots are as full as dividing j by limit - 1 says |
| LinkageLaws.JthLinkGoesTo | crates/itan-core/src/store.rs:198-251 | from a fresh master the j-th link to fresh targets succeeds and lands in slot j div (limit - 1) |
| Accounting.AcquireAdds | crates/itan-core/src/store.rs:198-320 | acquiring takes up one inode number and the bytes of the last full slot when it spills, and nothing otherwise |
| Accounting.PublishBytes | crates/itan-core/src/linkage.rs:124-177 | publishing takes up one inode number and the file's size for its one master, or what a failed call leaves of it, and nothing else |
| Accounting.LinkBytes | crates/itan-core/src/linkage.rs:181-250 | bytes before plus the one spill equal bytes after plus what the target's inode gave up, and no inode but the spill is made |
| Accounting.ReportedIsFreed | crates/itan-core/src/linkage.rs:182-248 | bytes_saved is what the link frees if and only if the target was the only name of its inode, or empty or missing |
| BreakOnWrite.LinkModes | crates/itan-core/src/linkage.rs:192-236 | slot and target end read-only, and executable if and only if the slot was and the link was not of a read-only file to itself |
| BreakOnWrite.LinkProtects | crates/itan-core/src/linkage.rs:192-236 | a link keeps all published files read-only if and only if the target is missing or outside the store, or the link succeeds and the target is that slot or its inode's only name |
| BreakOnWrite.PublishProtects | crates/itan-core/src/linkage.rs:155-160 | publishing does, spills included |
| BreakOnWrite.StepProtects | crates/itan-core/src/permissions.rs:119-143 | every operation of engine, collector and users does, if and only if it is not a harmful link |
| BreakOnWrite.RunProtects | crates/itan-core/src/permissions.rs:119-143 | so every published file is read-only between the operations of a run |
| BreakOnWrite.PublishedBytesStay | crates/itan-core/src/permissions.rs:119-143 | once in the store a file keeps its bytes to the end of the run and nobody may open it for writing |
| BreakOnWrite.WriteShowsNowhereElse | crates/itan-core/src/permissions.rs:1-8 | a write through one path never shows at a path the store has linked |
| BreakOnWrite.RelinkTwiceUnprotects | crates/itan-core/src/linkage.rs:192-202 | linking a file twice to the slot it already is leaves the published file writable |
| Executability.PublishModes | crates/itan-core/src/linkage.rs:155-160 | a published master is one nobody may write and everybody may execute if somebody could execute the file, else nobody |
| Executability.PublishKeepsModes | crates/itan-core/src/linkage.rs:124-177 | publishing changes the mode of no file there was |
| Executability.LinkKeepsModes | crates/itan-core/src/linkage.rs:192-236 | linking gives a read-only target 0644 on its way, seals the slot when it succeeds, and changes no other mode |
| Executability.SlotsStaySealed | crates/itan-core/src/permissions.rs:119-130 | over a run, all slots and entries of a digest keep the mode its publication gave, spills and revivals included |
| Executability.InodeStaysSealed | crates/itan-core/src/permissions.rs:119-130 | so does each inode that ever was one of them |
| Executability.ExecutabilityTravels | crates/itan-core/src/linkage.rs:155-236 | over a run from a publication to any later link and on: the inode the target got may be executed by everybody if somebody could execute the published file, else by nobody, and written by nobody |
| Gc.QuarantineGc.SweepObjects | crates/itan-core/src/gc.rs:115-172 | the loop does to the volume and the counters what the per-slot decisions say, in order |
| Gc.QuarantineGc.EvaluateObjectsSlot | crates/itan-core/src/gc.rs:174-222 | skip, or rename to the timestamped name |
| Gc.QuarantineGc.SweepQuarantine | crates/itan-core/src/gc.rs:225-263 | likewise over entries |
| Gc.QuarantineGc.EvaluateQuarantineEntry | crates/itan-core/src/gc.rs:265-335 | age and destination read off the name as a string decide as the structured entry does: cooling, revived or purged |
| GcLaws.SlotDecisionMeans | crates/itan-core/src/gc.rs:174-222 | a slot is moved if and only if it is there with one name |
| GcLaws.EntryDecisionMeans | crates/itan-core/src/gc.rs:265-335 | an entry is left alone if and only if now is before timestamp plus cooldown, with the whole seconds left; else revived if and only if it has a second name, else purged |
| GcLaws.ObjectsCounters | crates/itan-core/src/gc.rs:115-172 | `quarantined` is the number of listed slots with one name, `skipped_active` that of all others |
| GcLaws.QuarantineCounters | crates/itan-core/src/gc.rs:225-263 | `resurrected` is the number of cooled entries with a second name, `purged` that of all other cooled ones |
| GcLaws.SweepsLeaveWorkspace | crates/itan-core/src/gc.rs:115-335 | sweeps change no byte, mode or name outside objects/ and quarantine/ |
| GcLaws.SweepKeepsLinked | crates/itan-core/src/gc.rs:115-222 | a sweep keeps exactly the slots with a second name and moves each other one, same inode, to its own entry |
| GcLaws.SweepLeavesCooling | crates/itan-core/src/gc.rs:225-282 | a full sweep leaves an entry if and only if it was there and still cooling |
| GcLaws.EntryBytes | crates/itan-core/src/gc.rs:284-334 | bytes_freed of an entry is what the disk regains, less exactly the bytes of a slot whose last name its revival overwrites |
| GcLaws.SweepBytes | crates/itan-core/src/gc.rs:225-334 | for every volume and listing, a sweep reports at most what the disk regains, and exactly that if and only if no revival in it takes the last name of another inode that holds bytes |
| GcLaws.RevivedReturns | crates/itan-core/src/gc.rs:225-319 | an inode that a sweep revives is at the path it came from when the sweep is over if and only if no entry listed later is revived to the same path; if one is, the inode has no name in the store |
| GcLaws.TwoEntriesOneSlot | crates/itan-core/src/gc.rs:296-319 | two cooled entries of one slot, both linked: the slot ends with the inode of the second and that of the first leaves the store |
| GcLaws.TwoEntriesExist | crates/itan-core/src/gc.rs:296-319 | such a volume |
| Recovery.StartupSweeper.SweepStaleTmp | crates/itan-core/src/recovery.rs:75-145 | the loop does to volume and report what the listing says, errors included |
| Recovery.SweepRemovesExactly | crates/itan-core/src/recovery.rs:75-158 | a name goes if and only if it is a listed stage file that is stale and not locked; a missing or future modification time counts as stale |
| Recovery.SweepReports | crates/itan-core/src/recovery.rs:75-145 | the errors are exactly the unreadable parts of the listing, the files that are gone, and the stale ones that are locked |
| Recovery.SweepAccounts | crates/itan-core/src/recovery.rs:124-142 | removed_count is the number of names gone and bytes_freed the bytes regained, when stage files have one name |
| Ingest.IngestPipeline.Evaluate | crates/itan-core/src/ingest.rs:116-168 | the answer is the uncached one unless the inode is cached and has a second link; the boundary cache has no part in it; what both caches hold afterwards |
| IngestLaws.AnswersAre | crates/itan-core/src/ingest.rs:116-168 | each answer if and only if its own condition holds; Unique exactly for a whitelisted existing file of 4,096 bytes or more that is not remembered, can be read, and whose digest has no slot at index 0 or 1 |
| IngestLaws.CallRemembers | crates/itan-core/src/ingest.rs:139-188 | what both caches hold after a call |
| Ingest.IngestPipeline.CacheInode | crates/itan-core/src/ingest.rs:172-188 | one insertion, after dropping some 50,000 entries of a full cache |
| IngestLaws.CacheIsBounded | crates/itan-core/src/ingest.rs:172-188 | over any history at most 100,000 entries, the latest always present, and a submap of the cache that forgets nothing |
| IngestLaws.ForgetsNothingEarly | crates/itan-core/src/ingest.rs:172-188 | equal to it until 100,000 different inodes have been inserted |
| IngestLaws.CachedRefinesUncached | crates/itan-core/src/ingest.rs:116-168 | with immutable contents and no collector, over any sequence of calls: AlreadyIngested only where the uncached waterfall answers Duplicate, and agreement everywhere else |
| IngestLaws.SessionIsSound | crates/itan-core/src/ingest.rs:139-165 | every cached inode's content is in the store, and every slot cached under a boundary stands for content with that boundary hash |
| IngestLaws.BoundaryCacheIsTrue | crates/itan-core/src/ingest.rs:146-163 | in a content-addressed store a slot cached under boundary b is a file whose boundary hash is b |
| IngestLaws.PublishingGrows | crates/itan-core/src/linkage.rs:124-177 | publishing is a change the caches survive, whichever calls fail |
| IngestLaws.LinkingGrows | crates/itan-core/src/linkage.rs:181-250 | so is linking |
| IngestRun.LinkKeepsContents | crates/itan-core/src/linkage.rs:181-250 | in a content-addressed store a link leaves every workspace file its bytes and the store content-addressed |
| IngestRun.CopiesOfStep | crates/itan-cli/src/main.rs:201-250 | the copies of one file: a Unique verdict makes exactly one master of the file's size when its calls succeed and is counted exactly then; a Duplicate makes one copy of the last slot if and only if all slots are full, else none; every other answer makes none |
| IngestRun.SpillIsTargetSized | crates/itan-core/src/store.rs:273-320 | in an addressed store a spill is as large as the file it is made for |
| IngestRun.StepConserves | crates/itan-cli/src/main.rs:201-250 | bytes before plus these copies equal bytes after plus bytes reported as saved, also when calls fail, and no other inode is made |
| IngestRun.OthersStaySole | crates/itan-core/src/linkage.rs:181-250 | linking one file gives no second name to another file that had one |
| IngestRun.TraceProgress | crates/itan-cli/src/main.rs:187-252 | over any prefix of a run: counters add up, masters made equal `unique`, bytes and inode numbers are those of the counted copies, workspace contents stay |
| IngestRun.NoStrays | crates/itan-core/src/linkage.rs:140-174 | when no call of a publication fails, a run copies masters and spills alone |
| IngestRun.DryRunIsInert | crates/itan-cli/src/main.rs:210-217 | a dry run changes no file and counts files alone |
| IngestRun.TraceIsSession | crates/itan-cli/src/main.rs:187-252 | the evaluations of a run are a session of the waterfall, so the cache refinement applies to it |
| IngestOutcome.CountersCount | crates/itan-cli/src/main.rs:219-250 | `skipped`, `unique` and `linked` are the numbers of bypassed files, of new ones whose publication succeeded, and of duplicates whose link did |
| IngestOutcome.StepMasters | crates/itan-cli/src/main.rs:201-250 | one file evaluated and published without failure: its digest has a master afterwards, no other digest gains or loses one, and it counts as unique exactly when its digest gained one |
| IngestOutcome.EveryFileIsStored | crates/itan-cli/src/main.rs:187-252 | over such a run every whitelisted file of 4,096 bytes or more has a master under its initial digest, and `unique` is the number of different such digests that had none |
| IngestOutcome.EveryFileIsSettled | crates/itan-cli/src/main.rs:187-252 | when nothing fails, a file is Unique if and only if it is the first of a new digest, and every other one shares a slot's inode when the run ends, unless it was passed over as ingested already, which never happens to an inode's only name |
| IngestCommand.FilesAreReached | crates/itan-cli/src/main.rs:185-201 | the files of a tree are exactly those reached through directories that can be listed and are not named .itan_store |
| IngestCommand.IngestFile | crates/itan-cli/src/main.rs:201-250 | the exact effect of one file on volume, caches and each counter |
| IngestCommand.IngestTree | crates/itan-cli/src/main.rs:185-252 | the worklist visits every file below the root once, and none below a directory named like the store |
| IngestCommand.CmdIngest | crates/itan-cli/src/main.rs:148-254 | for the whole command: each file once; when every file is the only name of its inode, bytes before plus one copy per counted master, per spill and per failed publication equal bytes after plus bytes saved plus bytes swept, and no other inode is made; every workspace file keeps its bytes; the counters count; every due file has a master when reading and publishing do not fail; and every due file but the first of a new digest is linked when nothing fails and files are sole names |
| Usn.Utf16RoundTrip | crates/itan-core/src/usn.rs:271-276 | decoding an encoded name gives it back |
| Usn.Utf16OnlyEncodings | crates/itan-core/src/usn.rs:271-276 | decoding succeeds on encodings alone |
| Usn.OneScalar | crates/itan-core/src/usn.rs:271-276 | which code point a pair of surrogates stands for; a lone one is refused |
| Usn.LittleEndian | crates/itan-core/src/usn.rs:243-244 | the least significant byte comes first |
| Usn.ReasonIsByBits | crates/itan-core/src/usn.rs:258-264 | bit 16 makes a hard-link change whatever other bits are set, else bit 0 an overwrite, else nothing |
| Usn.FlagsOf | crates/itan-core/src/usn.rs:258-264 | every 32-bit reason is such a set of bits |
| Usn.ReadUsnJournal | crates/itan-core/src/usn.rs:204-291 | the loop terminates on arbitrary bytes, reads nothing beyond `bytes`, and returns what Records says and the cursor |
| Usn.ReadRecord | crates/itan-core/src/usn.rs:250-284 | what one record adds |
| Usn.RecordsRoundTrip | crates/itan-core/src/usn.rs:243-290 | records encoded back to back give exactly the wanted entries, in order, with name, reason and USN |
| Usn.JournalRoundTrip | crates/itan-core/src/usn.rs:243-290 | so does a whole buffer with cursor, an end mark or less than a header after the records, and slack |
| Usn.UsnDeltaScanner.ScanDelta | crates/itan-core/src/usn.rs:102-123 | the cursor moves if and only if the journal was read, and a read of fewer than 8 bytes gives no entries |
| RetryQueue.ChainIsBounded | crates/itan-core/src/retry_queue.rs:54-92 | at most 3 attempts, and attempt k due no earlier than 100 * (2^(k+1) - 1) ms after the start |
| RetryQueue.DelaysAre | crates/itan-core/src/retry_queue.rs:54-92 | attempts 0, 1 and 2 are due 100, 200 and 400 ms after their job is made, none follows, and a job is ready exactly from its due time on |
| RetryQueue.ChainGoesOn | crates/itan-core/src/retry_queue.rs:68-92 | a chain of fewer than three jobs goes on with any attempt made when due |
| RetryQueue.DeferRetryQueue.Enqueue | crates/itan-core/src/retry_queue.rs:119-124 | appends, or refuses a full queue unchanged |
| RetryQueue.DeferRetryQueue.DrainReady | crates/itan-core/src/retry_queue.rs:129-152 | hands out the ready jobs and keeps the others; putting them back never overflows |
| RetryQueue.DrainPartitions | crates/itan-core/src/retry_queue.rs:129-152 | ready and kept jobs are the old queue as a multiset |
| RetryQueue.DrainIsStable | crates/itan-core/src/retry_queue.rs:129-152 | both keep the queue's order, and hold exactly the jobs that were ready or not |
| Digests.FullCasDigest | crates/itan-core/src/digest.rs:139-156 | streaming equals hashing the whole content, for any pattern of short reads |
| Digests.BoundaryHash | crates/itan-core/src/digest.rs:76-123 | the boundary hash is the hash of Window |
| Digests.WindowAt | crates/itan-core/src/digest.rs:76-123 | byte by byte: the first 4,096 bytes and then the last 4,096, or the whole of a file under 8,192 |
| Digests.WindowsAgree | crates/itan-core/src/digest.rs:76-123 | exactly which contents share a window; a file under 8,192 bytes shares its window with no other |
| Digests.WindowDeterminesExactlyUpTo8192 | crates/itan-core/src/digest.rs:76-123 | the window tells a file from all others of its length if and only if it has at most 8,192 bytes |

## Left out

- Targets named `*.tmp_link`: the classification never picks them except inside `node_modules`; if one were the sibling of another target, linking the two at once could lose it. The model takes temporary links to be no targets.
- A target that is rewritten between its evaluation and the end of its linking, and a file that is written in place while a worker has it open or while it has a second name: the rely condition of the workspace theorems is that neither happens.
- Foreign files in `objects/`, `quarantine/` or `tmp/`: sweeps are modelled on names the engine writes. The string functions of `Names` are total, but no theorem follows a malformed name through a sweep.
- Copy-on-write strategies and `probe_volume`: only the link limit is kept, as a parameter.
- The Windows variants of linking, replacing and permission calls, and the Windows and exotic-platform link-count and inode stubs, which always answer 1 and 0.
- BLAKE3 is an uninterpreted function. Collision-freedom is asked for only where contents are compared, and only of the contents at hand.
- UUIDs: stage files are named by a serial number that is used once.
- Inode numbers are never reused in the model; the code's guard against recycled numbers is kept as a branch.
- The classification table of `whitelist.rs`, an uninterpreted function.
- Errors of directory listing, of `stat` and of renames inside the collector, and the error strings of its report; failures of the copy and rename of a spill and of mode changes in the sequential layer.
- Slot indices are unbounded; the 32-bit index of the code would wrap after 4,294,967,295 slots.
- The file path a USN entry is joined to, the Win32 calls, and `JournalWrapped`, which no code path returns.
- Progress after a collector has removed a low slot: `lookup` and `acquire_slot` then miss higher slots. Safety is proved for such runs, progress is not claimed.
- Symbolic links, and directory listings that change while they are read.
- The `status`, `probe`, `gc` and `recover` commands' printing.
- ProtocolLimits.LinksStayBounded: phases without collectors and without hard links made by users, either of which can raise a count the engine has already read.
- ProtocolLimits.AlwaysContiguous: no collector, which removes slots one at a time.
- Ingest.IngestPipeline.Evaluate: each file is read as of one instant; a file that changes between the two hashing tiers is not modelled.
- IngestCommand.CmdIngest: the conservation of bytes is for files that are the only name of their inode; Accounting.ReportedIsFreed says what happens for the others.
- BreakOnWrite.RunProtects: users who may override permissions, and users who change modes, are not modelled.
- Executability.ExecutabilityTravels: runs that link no file which the store holds already; BreakOnWrite.LinkModes says what linking such a file does to its execute bits.
- IngestOutcome.EveryFileIsStored: stores in which no digest has a slot at index 1 without one at index 0, which only a collector can bring about; Store.LookupIsScan says what `lookup` finds in others.
