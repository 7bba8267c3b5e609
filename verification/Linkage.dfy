/** The linkage pipeline of one worker running alone: publish a master, or replace a workspace
    file by a link to one. */
module Linkage {
  import opened Filesystem
  import opened Names
  import opened Permissions
  import opened Store
  import opened RetryQueue
  import opened Verdicts

  /** How the environment answers a call: `Busy` is a transient lock, `Broken` any other error. */
  datatype Fault = Fine | Busy | Broken
  datatype LinkIo = LinkIo(link: Fault, swap: Fault)

  /** And the calls of a publication: the copy, making the shard directory, the rename. */
  datatype PublishIo = PublishIo(copy: CopyFault, shard: Fault, rename: Fault)

  datatype LinkResult =
    | Linked(target: WorkPath, slot: SlotRef, bytesSaved: nat)
    | Skipped
    | MasterPublished(slot: SlotRef)
    | Deferred

  datatype ApplyResult = Ok(value: LinkResult) | IoError(path: Path) | ShardError(digest: Digest)

  // ─── What the operations do to the filesystem ─────────────────────────────

  /** enforce_read_only on the file at `p`, with the execute bit as it is. */
  function Enforced(fs: Fs, p: Path): Fs
    requires p in fs.names && fs.names[p] in fs.nodes
  {
    fs.Chmod(fs.names[p], ReadOnlyMode(fs.ModeAt(p).Executable()))
  }

  /** The target is made writable when it is read-only. */
  function Stripped(fs: Fs, w: WorkPath): Fs
    requires fs.Valid()
  {
    if File(w) in fs.names && fs.ModeAt(File(w)).ReadOnly() then fs.Chmod(fs.names[File(w)], MODE_644) else fs
  }

  function SlotFor(fs: Fs, limit: nat, d: Digest): SlotRef {
    SlotRef(d, OpenIndex(fs, limit, d, 0))
  }

  /** Publishing comes to its copy: there is no slot yet, and there is a file. */
  predicate Publishes(fs: Fs, w: WorkPath, d: Digest) {
    Object(d, 0) !in fs.names && File(w) in fs.names
  }

  /** The copy, the shard directory and the rename, and what is left behind when one fails: the
      stage file stays unless it was the rename that failed. */
  function StagedFs(fs: Fs, w: WorkPath, d: Digest, io: PublishIo): Fs
    requires fs.Valid() && Publishes(fs, w, d)
  {
    var t, source := Stage(fs.next), fs.nodes[fs.names[File(w)]];
    if io.copy.NotStaged? then fs
    else if io.copy.Torn? || io.shard != Fine then fs.Create(t, StageNode(source, io.copy))
    else if io.rename != Fine then fs.Create(t, StageNode(source, io.copy)).Unlink(t)
    else Enforced(fs.Create(Object(d, 0), source.(closed := true)), Object(d, 0))
  }

  function PublishedFs(fs: Fs, limit: nat, w: WorkPath, d: Digest, io: PublishIo): Fs
    requires fs.Valid()
  {
    if Publishes(fs, w, d) then StagedFs(fs, w, d, io) else AcquiredFs(fs, limit, d)
  }

  function LinkedFs(fs: Fs, limit: nat, w: WorkPath, d: Digest, io: LinkIo): Fs
    requires fs.Valid()
  {
    var slot, ready := SlotFor(fs, limit, d).Path(), Stripped(AcquiredFs(fs, limit, d), w);
    if io.link != Fine || !ready.CanLink(slot, TmpLink(w)) then ready
    else
      var linked := ready.Link(slot, TmpLink(w));
      if io.swap != Fine then linked.Unlink(TmpLink(w))
      else Enforced(linked.Rename(TmpLink(w), File(w)), slot)
  }

  predicate LinkSucceeds(fs: Fs, limit: nat, w: WorkPath, d: Digest, io: LinkIo)
    requires fs.Valid()
  {
    io == LinkIo(Fine, Fine)
    && AcquiredFs(fs, limit, d).CanLink(SlotFor(fs, limit, d).Path(), TmpLink(w))
  }

  function SizeOf(fs: Fs, w: WorkPath): nat
    requires fs.Valid()
  {
    if File(w) in fs.names then |fs.DataAt(File(w))| else 0
  }

  function LinkOutcome(fs: Fs, limit: nat, w: WorkPath, d: Digest, io: LinkIo): ApplyResult
    requires fs.Valid()
  {
    if LinkSucceeds(fs, limit, w, d, io) then Ok(Linked(w, SlotFor(fs, limit, d), SizeOf(fs, w)))
    else if io.link == Busy then Ok(Deferred)
    else if io.link == Broken || !AcquiredFs(fs, limit, d).CanLink(SlotFor(fs, limit, d).Path(), TmpLink(w))
    then IoError(TmpLink(w))
    else if io.swap == Busy then Ok(Deferred)
    else IoError(File(w))
  }

  /** A slot that is there is a success; making one takes a file to copy and three calls. */
  function PublishOutcome(fs: Fs, limit: nat, w: WorkPath, d: Digest, io: PublishIo): ApplyResult
    requires fs.Valid()
  {
    if Object(d, 0) in fs.names then Ok(MasterPublished(SlotFor(fs, limit, d)))
    else if File(w) !in fs.names || !io.copy.Copied? then IoError(Stage(fs.next))
    else if io.shard != Fine then ShardError(d)
    else if io.rename != Fine then IoError(Object(d, 0))
    else Ok(MasterPublished(SlotRef(d, 0)))
  }

  lemma AcquireKeepsValid(fs: Fs, limit: nat, d: Digest)
    requires WellFormed(fs)
    ensures WellFormed(AcquiredFs(fs, limit, d))
    ensures forall p :: p in fs.names ==>
              p in AcquiredFs(fs, limit, d).names && AcquiredFs(fs, limit, d).names[p] == fs.names[p]
    ensures forall p :: p in AcquiredFs(fs, limit, d).names ==> p in fs.names || p == SlotFor(fs, limit, d).Path()
    ensures var slot, a := SlotFor(fs, limit, d).Path(), AcquiredFs(fs, limit, d);
            slot in a.names && slot !in fs.names ==> a.names[slot] == fs.next
    ensures forall i :: i in fs.nodes ==> i in AcquiredFs(fs, limit, d).nodes && AcquiredFs(fs, limit, d).nodes[i] == fs.nodes[i]
  {
    var k := OpenIndex(fs, limit, d, 0);
    if k > 0 && Object(d, k) !in fs.names {
      assert Full(fs, limit, d, k - 1);
      assert fs.names[Object(d, k - 1)] in fs.nodes;
    }
  }

  /** Acquiring returns a slot that is there exactly when slot 0 is. */
  lemma AcquireMaster(fs: Fs, limit: nat, d: Digest)
    requires WellFormed(fs)
    ensures SlotFor(fs, limit, d).Path() in AcquiredFs(fs, limit, d).names <==> Object(d, 0) in fs.names
    ensures Object(d, 0) !in fs.names ==> SlotFor(fs, limit, d) == SlotRef(d, 0) && AcquiredFs(fs, limit, d) == fs
  {
    if Object(d, 0) in fs.names && OpenIndex(fs, limit, d, 0) > 0 {
      assert Full(fs, limit, d, 0);
    }
  }

  /** The temporary link can be made: the digest has a master, and nothing is in the way. */
  predicate CanMakeLink(fs: Fs, w: WorkPath, d: Digest) {
    Object(d, 0) in fs.names && TmpLink(w) !in fs.names
  }

  /** A transient lock in the way of the temporary link, or of the swap once that link is made. */
  predicate Defers(fs: Fs, w: WorkPath, d: Digest, io: LinkIo) {
    io.link == Busy || (io.link == Fine && CanMakeLink(fs, w, d) && io.swap == Busy)
  }

  /** Which answer a link gives: a transient lock defers it, and every other failure is reported
      for the path that was to be made. */
  lemma LinkAnswers(fs: Fs, limit: nat, w: WorkPath, d: Digest, io: LinkIo)
    requires WellFormed(fs)
    ensures var r, made := LinkOutcome(fs, limit, w, d, io), io.link == Fine && Object(d, 0) in fs.names && TmpLink(w) !in fs.names;
      && (r == Ok(Deferred) <==> io.link == Busy || (made && io.swap == Busy))
      && (r == IoError(TmpLink(w)) <==> io.link == Broken || (io.link == Fine && !made))
      && (r == IoError(File(w)) <==> made && io.swap == Broken)
      && (r == Ok(Linked(w, SlotFor(fs, limit, d), if File(w) in fs.names then |fs.DataAt(File(w))| else 0)) <==> made && io.swap == Fine)
      && (LinkSucceeds(fs, limit, w, d, io) <==> made && io.swap == Fine)
      && (Defers(fs, w, d, io) <==> r == Ok(Deferred))
  {
    hide OpenIndex, AcquiredFs, OneStoreName;
    AcquireKeepsValid(fs, limit, d);
    AcquireMaster(fs, limit, d);
  }

  /** Which answer a publication gives, and that it is a success exactly when there is a master
      afterwards.  A failed rename leaves no name behind, and a failed shard directory the whole
      copy under its stage name. */
  lemma PublishAnswers(fs: Fs, limit: nat, w: WorkPath, d: Digest, io: PublishIo)
    requires WellFormed(fs)
    ensures var fs', r := PublishedFs(fs, limit, w, d, io), PublishOutcome(fs, limit, w, d, io);
      && (r.Ok? <==> Object(d, 0) in fs'.names)
      && (r.Ok? ==> r.value.MasterPublished? && r.value.slot.digest == d && r.value.slot.Path() in fs'.names)
      && (Object(d, 0) !in fs.names && r.Ok? ==> r.value.slot.idx == 0 && File(w) in fs.names && fs'.DataAt(Object(d, 0)) == fs.DataAt(File(w)))
    ensures var fs', r := PublishedFs(fs, limit, w, d, io), PublishOutcome(fs, limit, w, d, io);
            var begun := Object(d, 0) !in fs.names && File(w) in fs.names && io.copy.Copied?;
      && (r == ShardError(d) <==> begun && io.shard != Fine)
      && (r == IoError(Object(d, 0)) <==> begun && io.shard == Fine && io.rename != Fine)
      && (r == IoError(Stage(fs.next)) <==> Object(d, 0) !in fs.names && (File(w) !in fs.names || !io.copy.Copied?))
      && (r == IoError(Object(d, 0)) ==> fs'.names == fs.names)
      && (r == ShardError(d) ==> fs'.names == fs.names[Stage(fs.next) := fs.next] && fs'.nodes[fs.next].data == fs.DataAt(File(w)))
  {
    hide OneStoreName;
    AcquireKeepsValid(fs, limit, d);
    AcquireMaster(fs, limit, d);
    hide AcquiredFs, OpenIndex;
    assert Stage(fs.next) !in fs.names;
    assert fs.names[Stage(fs.next) := fs.next] - {Stage(fs.next)} == fs.names;
  }

  /** is_executable and enforce_read_only on one file. */
  method Seal(disk: Disk, p: Path)
    requires p in disk.fs.names && disk.fs.names[p] in disk.fs.nodes
    modifies disk
    ensures disk.fs == old(Enforced(disk.fs, p))
  {
    var exec := IsExecutable(disk, p);
    EnforcePosixMode(disk, p, exec);
  }

  /** can_strip_target_readonly and strip_read_only. */
  method Unlock(disk: Disk, w: WorkPath)
    requires disk.fs.Valid()
    modifies disk
    ensures disk.fs == Stripped(old(disk.fs), w)
  {
    if disk.Exists(File(w)) && disk.fs.ModeAt(File(w)).ReadOnly() {
      StripReadOnlyPosix(disk, File(w));
    }
  }

  // ─── The pipeline ─────────────────────────────────────────────────────────

  class AtomicLinkagePipeline {
    const store: CasStore
    const retryQueue: DeferRetryQueue

    constructor (store: CasStore, retryQueue: DeferRetryQueue)
      ensures this.store == store && this.retryQueue == retryQueue
    {
      this.store := store;
      this.retryQueue := retryQueue;
    }

    ghost predicate Valid()
      reads this, store, store.disk, retryQueue
    {
      WellFormed(store.disk.fs) && retryQueue.Valid()
    }

    method PublishNewMaster(w: WorkPath, d: Digest, io: PublishIo) returns (r: ApplyResult)
      requires Valid()
      modifies store.disk
      ensures store.disk.fs == PublishedFs(old(store.disk.fs), store.maxLinksPerSlot, w, d, io)
      ensures r == PublishOutcome(old(store.disk.fs), store.maxLinksPerSlot, w, d, io)
    {
      hide OneStoreName;
      var disk := store.disk;
      AcquireKeepsValid(disk.fs, store.maxLinksPerSlot, d);
      AcquireMaster(disk.fs, store.maxLinksPerSlot, d);
      var slot := store.AcquireSlot(d);
      if disk.Exists(slot.Path()) {
        return Ok(MasterPublished(slot));
      }
      ghost var fs := disk.fs;
      var staged := Stage(disk.fs.next);
      var copied := disk.CopyToStage(File(w), io.copy);
      if copied.None? {
        return IoError(staged);
      }
      if io.shard != Fine {
        return ShardError(d);
      }
      assert staged !in fs.names;
      if io.rename != Fine {
        disk.Remove(staged);
        return IoError(slot.Path());
      }
      disk.Rename(staged, slot.Path());
      assert disk.fs.names == fs.names[slot.Path() := copied.value];
      Seal(disk, slot.Path());
      r := Ok(MasterPublished(slot));
    }

    method LinkToMaster(w: WorkPath, d: Digest, io: LinkIo, now: nat) returns (r: ApplyResult)
      requires Valid()
      modifies store.disk, retryQueue
      ensures retryQueue.Valid()
      ensures store.disk.fs == LinkedFs(old(store.disk.fs), store.maxLinksPerSlot, w, d, io)
      ensures r == LinkOutcome(old(store.disk.fs), store.maxLinksPerSlot, w, d, io)
      ensures retryQueue.jobs ==
        if Defers(old(store.disk.fs), w, d, io) && |old(retryQueue.jobs)| < 4_096
        then old(retryQueue.jobs) + [RetryJob(w, SlotFor(old(store.disk.fs), store.maxLinksPerSlot, d).Path(), 0, now + 100)]
        else old(retryQueue.jobs)
    {
      hide OpenIndex, AcquiredFs, OneStoreName, Enforced;
      LinkAnswers(store.disk.fs, store.maxLinksPerSlot, w, d, io);
      DelaysAre(NewJob(w, SlotFor(store.disk.fs, store.maxLinksPerSlot, d).Path(), now), now);
      var disk := store.disk;
      var originalSize := SizeOf(disk.fs, w);
      AcquireKeepsValid(disk.fs, store.maxLinksPerSlot, d);
      var slot := store.AcquireSlot(d);
      Unlock(disk, w);
      var linked := false;
      if io.link == Fine {
        linked := disk.HardLink(slot.Path(), TmpLink(w));
      }
      if !linked {
        if io.link == Busy {
          var _ := retryQueue.Enqueue(NewJob(w, slot.Path(), now));
          return Ok(Deferred);
        }
        return IoError(TmpLink(w));
      }
      if io.swap != Fine {
        disk.Remove(TmpLink(w));
        if io.swap == Busy {
          var _ := retryQueue.Enqueue(NewJob(w, slot.Path(), now));
          return Ok(Deferred);
        }
        return IoError(File(w));
      }
      disk.Rename(TmpLink(w), File(w));
      Seal(disk, slot.Path());
      r := Ok(Linked(w, slot, originalSize));
    }

    method Apply(w: WorkPath, verdict: IngestVerdict, d: Digest, publish: PublishIo, link: LinkIo, now: nat) returns (r: ApplyResult)
      requires Valid()
      modifies store.disk, retryQueue
      ensures retryQueue.Valid()
      ensures verdict.Bypass? ==> r == Ok(Skipped) && store.disk.fs == old(store.disk.fs)
      ensures verdict.Unique? ==>
        && store.disk.fs == PublishedFs(old(store.disk.fs), store.maxLinksPerSlot, w, d, publish)
        && r == PublishOutcome(old(store.disk.fs), store.maxLinksPerSlot, w, d, publish)
      ensures verdict.Duplicate? ==>
        && store.disk.fs == LinkedFs(old(store.disk.fs), store.maxLinksPerSlot, w, verdict.slot.digest, link)
        && r == LinkOutcome(old(store.disk.fs), store.maxLinksPerSlot, w, verdict.slot.digest, link)
      ensures retryQueue.jobs ==
        if verdict.Duplicate? && Defers(old(store.disk.fs), w, verdict.slot.digest, link) && |old(retryQueue.jobs)| < 4_096
        then old(retryQueue.jobs) + [RetryJob(w, SlotFor(old(store.disk.fs), store.maxLinksPerSlot, verdict.slot.digest).Path(), 0, now + 100)]
        else old(retryQueue.jobs)
    {
      match verdict
      case Bypass(_) => r := Ok(Skipped);
      case Unique => r := PublishNewMaster(w, d, publish);
      case Duplicate(slot) => r := LinkToMaster(w, slot.digest, link, now);
    }
  }
}
