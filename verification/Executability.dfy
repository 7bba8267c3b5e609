/** The execute permission of a file on its way through the store: from the file that is published
    to its master, to the slots copied from it, and to every file that is linked. */
module Executability {
  import opened Filesystem
  import opened Store
  import opened Linkage
  import opened LinkageLaws
  import opened Permissions
  import opened Gc
  import opened BreakOnWrite

  /** Nobody may write the file, everybody may read it, and everybody or nobody may execute it. */
  predicate SealedAs(mode: Mode, x: bool) {
    forall user :: MayRead(mode, user) && !MayWrite(mode, user) && (MayExecute(mode, user) <==> x)
  }

  predicate SomeoneMayExecute(mode: Mode) {
    exists user :: MayExecute(mode, user)
  }

  lemma SealMeans(mode: Mode, x: bool)
    ensures SealedAs(mode, x) <==> mode == ReadOnlyMode(x)
    ensures mode.Executable() <==> SomeoneMayExecute(mode)
  {
    ModesAre(mode);
    if SealedAs(mode, x) {
      assert PermFor(mode, Owner) == mode.owner && PermFor(mode, Group) == mode.group && PermFor(mode, Other) == mode.other;
      assert MayRead(mode, Owner) && MayRead(mode, Group) && MayRead(mode, Other);
      assert !MayWrite(mode, Owner) && !MayWrite(mode, Group) && !MayWrite(mode, Other);
      assert MayExecute(mode, Owner) == MayExecute(mode, Group) == MayExecute(mode, Other) == x;
    }
  }

  // ─── One operation ────────────────────────────────────────────────────────

  /** A publication that copies makes a master nobody may write, and which everybody may execute
      if somebody could execute the file, else nobody. */
  lemma PublishModes(fs: Fs, limit: nat, w: WorkPath, d: Digest)
    requires WellFormed(fs) && Object(d, 0) !in fs.names && File(w) in fs.names
    ensures var fs' := PublishedFs(fs, limit, w, d, PUBLISH_FINE);
      && Object(d, 0) in fs'.names && fs'.names[Object(d, 0)] == fs.next && fs.next in fs'.nodes
      && SealedAs(fs'.ModeAt(Object(d, 0)), SomeoneMayExecute(fs.ModeAt(File(w))))
  {
    var mode := fs.ModeAt(File(w));
    SealMeans(mode, true);
    SealMeans(ReadOnlyMode(mode.Executable()), mode.Executable());
  }

  /** Publishing changes the mode of no file there was, whichever of its calls fail. */
  lemma PublishKeepsModes(fs: Fs, limit: nat, w: WorkPath, d: Digest, io: PublishIo, i: Ino)
    requires WellFormed(fs) && i in fs.nodes
    ensures var fs' := PublishedFs(fs, limit, w, d, io); i in fs'.nodes && fs'.nodes[i].mode == fs.nodes[i].mode
  {
    AcquireKeepsValid(fs, limit, d);
    hide AcquiredFs, OpenIndex, OneStoreName;
  }

  /** Linking gives a read-only target 0644 on its way, and seals the slot when it succeeds; it
      changes no other mode. */
  lemma LinkKeepsModes(fs: Fs, limit: nat, w: WorkPath, d: Digest, io: LinkIo, i: Ino)
    requires WellFormed(fs) && i in fs.nodes
    ensures var a, slot, fs' := AcquiredFs(fs, limit, d), SlotFor(fs, limit, d).Path(), LinkedFs(fs, limit, w, d, io);
            var unlocked := File(w) in fs.names && fs.names[File(w)] == i && fs.nodes[i].mode.ReadOnly();
            var sealed := LinkSucceeds(fs, limit, w, d, io) && slot in a.names && a.names[slot] == i;
      && i in fs'.nodes
      && (!sealed ==> fs'.nodes[i].mode == if unlocked then MODE_644 else fs.nodes[i].mode)
      && (sealed && !unlocked ==> fs'.nodes[i].mode == ReadOnlyMode(fs.nodes[i].mode.Executable()))
  {
    AcquireKeepsValid(fs, limit, d);
    LinkForms(fs, limit, w, d, io);
    hide AcquiredFs, OpenIndex, OneStoreName, LinkedFs;
  }

  // ─── One inode ────────────────────────────────────────────────────────────

  /** The operation unlocks no file of the store. */
  predicate Spares(world: World, op: Op) {
    op.LinkOp? ==> Unlinked(world, op.w)
  }

  lemma StepKeepsSeal(world: World, limit: nat, op: Op, i: Ino, x: bool)
    requires Protected(world) && Spares(world, op) && i in world.published
    requires i in world.fs.nodes && world.fs.nodes[i].mode == ReadOnlyMode(x)
    ensures var fs' := Next(world, limit, op).fs; i in fs'.nodes && fs'.nodes[i].mode == ReadOnlyMode(x)
  {
    hide PublishedFs, LinkedFs, AcquiredFs, OpenIndex, OneStoreName;
    if op.Publish? {
      PublishKeepsModes(world.fs, limit, op.w, op.d, op.publish, i);
    } else if op.LinkOp? {
      LinkKeepsModes(world.fs, limit, op.w, op.d, op.io, i);
    }
  }

  // ─── All slots of a digest ────────────────────────────────────────────────

  ghost predicate AllSealed(fs: Fs, d: Digest, x: bool) {
    forall p <- fs.names :: Slotted(p) && p.digest == d ==> fs.names[p] in fs.nodes && fs.ModeAt(p) == ReadOnlyMode(x)
  }

  /** What is published under `d` may be executed by someone if and only if `x`. */
  predicate PublishesAs(world: World, op: Op, d: Digest, x: bool)
    requires world.fs.Valid()
  {
    op.Publish? && op.d == d && Publishes(world.fs, op.w, d) ==> (SomeoneMayExecute(world.fs.ModeAt(File(op.w))) <==> x)
  }

  lemma AcquireKeepsAll(fs: Fs, limit: nat, e: Digest, d: Digest, x: bool)
    requires WellFormed(fs) && AllSealed(fs, d, x)
    ensures AllSealed(AcquiredFs(fs, limit, e), d, x)
  {
    var k := OpenIndex(fs, limit, e, 0);
    if k > 0 && Object(e, k) !in fs.names {
      assert Full(fs, limit, e, k - 1);
      assert Slotted(Object(e, k - 1));
    }
  }

  lemma StagingKeepsAll(fs: Fs, w: WorkPath, e: Digest, io: PublishIo, d: Digest, x: bool)
    requires WellFormed(fs) && AllSealed(fs, d, x) && Publishes(fs, w, e)
    requires e == d ==> (SomeoneMayExecute(fs.ModeAt(File(w))) <==> x)
    ensures AllSealed(StagedFs(fs, w, e, io), d, x)
  {
    hide OneStoreName;
    SealMeans(fs.ModeAt(File(w)), x);
    assert Stage(fs.next) !in fs.names;
  }

  lemma PublishKeepsAll(fs: Fs, limit: nat, w: WorkPath, e: Digest, io: PublishIo, d: Digest, x: bool)
    requires WellFormed(fs) && AllSealed(fs, d, x)
    requires e == d && Publishes(fs, w, e) ==> (SomeoneMayExecute(fs.ModeAt(File(w))) <==> x)
    ensures AllSealed(PublishedFs(fs, limit, w, e, io), d, x)
  {
    if Publishes(fs, w, e) {
      StagingKeepsAll(fs, w, e, io, d, x);
    } else {
      AcquireKeepsAll(fs, limit, e, d, x);
    }
  }

  predicate NoSlot(fs: Fs, w: WorkPath) {
    forall p <- fs.names :: Slotted(p) && File(w) in fs.names ==> fs.names[p] != fs.names[File(w)]
  }

  lemma FormsKeepAll(a: Fs, slot: Path, w: WorkPath, d: Digest, x: bool)
    requires a.Valid() && AllSealed(a, d, x) && NoSlot(a, w)
    ensures AllSealed(Stripped(a, w), d, x)
    ensures slot in a.names && slot.Object? && TmpLink(w) !in a.names ==> AllSealed(Swapped(a, slot, w), d, x)
  {
    if slot in a.names && slot.Object? && TmpLink(w) !in a.names {
      SwapNames(Stripped(a, w), slot, w);
    }
  }

  lemma LinkKeepsAll(world: World, limit: nat, w: WorkPath, e: Digest, io: LinkIo, d: Digest, x: bool)
    requires Protected(world) && AllSealed(world.fs, d, x) && Unlinked(world, w)
    ensures AllSealed(LinkedFs(world.fs, limit, w, e, io), d, x)
  {
    hide LinkedFs, AcquiredFs, OpenIndex, OneStoreName, Unlinked, Slots, AllSealed, NoSlot, Swapped, Stripped;
    var fs, slot := world.fs, SlotFor(world.fs, limit, e).Path();
    AcquireKeepsAll(fs, limit, e, d, x);
    LinkForms(fs, limit, w, e, io);
    TargetIsNoSlot(world, limit, w, e);
    FormsKeepAll(AcquiredFs(fs, limit, e), slot, w, d, x);
  }

  lemma TargetIsNoSlot(world: World, limit: nat, w: WorkPath, e: Digest)
    requires Protected(world) && Unlinked(world, w)
    ensures NoSlot(AcquiredFs(world.fs, limit, e), w)
  {
    var fs, a := world.fs, AcquiredFs(world.fs, limit, e);
    AcquireKeepsValid(fs, limit, e);
    hide AcquiredFs, OpenIndex, OneStoreName;
    forall p | p in a.names && Slotted(p) && File(w) in a.names ensures a.names[p] != a.names[File(w)] {
      if p in fs.names {
        assert fs.names[p] in Slots(fs);
      }
    }
  }

  lemma CollectKeepsAll(fs: Fs, op: Op, limit: nat, d: Digest, x: bool)
    requires fs.Valid() && AllSealed(fs, d, x) && (op.CollectSlot? || op.CollectEntry?)
    ensures AllSealed(NextFs(fs, limit, op), d, x)
  {
    hide PublishedFs, LinkedFs;
  }

  lemma UserKeepsAll(world: World, op: Op, limit: nat, d: Digest, x: bool)
    requires Protected(world) && AllSealed(world.fs, d, x) && (op.Write? || op.Replace? || op.UserLink? || op.Delete?)
    ensures AllSealed(NextFs(world.fs, limit, op), d, x)
  {
    hide PublishedFs, LinkedFs, AfterSlot, AfterEntry;
  }

  /** Every operation keeps the slots of a digest sealed as they are, a spill included. */
  lemma StepKeepsAll(world: World, limit: nat, op: Op, d: Digest, x: bool)
    requires Protected(world) && Spares(world, op) && AllSealed(world.fs, d, x) && PublishesAs(world, op, d, x)
    ensures AllSealed(Next(world, limit, op).fs, d, x)
  {
    hide AllSealed, Protected, PublishedFs, LinkedFs, AfterSlot, AfterEntry, WellFormed, SomeoneMayExecute, Unlinked;
    ProtectedIsWell(world);
    ProtectedIsValid(world);
    match op
    case Publish(w, e, io) => PublishKeepsAll(world.fs, limit, w, e, io, d, x);
    case LinkOp(w, e, io) => LinkKeepsAll(world, limit, w, e, io, d, x);
    case CollectSlot(_, _) => CollectKeepsAll(world.fs, op, limit, d, x);
    case CollectEntry(_, _, _) => CollectKeepsAll(world.fs, op, limit, d, x);
    case _ => UserKeepsAll(world, op, limit, d, x);
  }

  lemma ProtectedIsValid(world: World)
    requires Protected(world)
    ensures world.fs.Valid()
  {
  }

  // ─── Whole runs ───────────────────────────────────────────────────────────

  /** A run from step `m` to step `n` that unlocks no file of the store, and in which what is
      published under `d` may be executed by someone if and only if `x`. */
  ghost predicate RunsAs(limit: nat, worlds: seq<World>, ops: seq<Op>, m: nat, n: nat, d: Digest, x: bool) {
    && Runs(limit, worlds, ops) && m <= n <= |ops|
    && forall k :: m <= k < n ==> worlds[k].fs.Valid() && Spares(worlds[k], ops[k]) && PublishesAs(worlds[k], ops[k], d, x)
  }

  lemma {:induction false} SlotsStaySealed(limit: nat, worlds: seq<World>, ops: seq<Op>, m: nat, n: nat, d: Digest, x: bool)
    requires RunsAs(limit, worlds, ops, m, n, d, x) && AllSealed(worlds[m].fs, d, x)
    ensures AllSealed(worlds[n].fs, d, x)
  {
    hide AllSealed, Spares, PublishesAs, Protected, Harmless, Next;
    if m < n {
      SlotsStaySealed(limit, worlds, ops, m, n - 1, d, x);
      RunProtects(limit, worlds, ops, n - 1);
      assert Steps(limit, worlds[n - 1], ops[n - 1], worlds[n]);
      StepKeepsAll(worlds[n - 1], limit, ops[n - 1], d, x);
    }
  }

  lemma {:induction false} InodeStaysSealed(limit: nat, worlds: seq<World>, ops: seq<Op>, m: nat, n: nat, d: Digest, x: bool, i: Ino)
    requires RunsAs(limit, worlds, ops, m, n, d, x) && i in worlds[m].published
    requires i in worlds[m].fs.nodes && worlds[m].fs.nodes[i].mode == ReadOnlyMode(x)
    ensures i in worlds[n].published && i in worlds[n].fs.nodes && worlds[n].fs.nodes[i].mode == ReadOnlyMode(x)
  {
    hide Spares, PublishesAs, Protected, Harmless, NextFs, Slots;
    if m < n {
      InodeStaysSealed(limit, worlds, ops, m, n - 1, d, x, i);
      RunProtects(limit, worlds, ops, n - 1);
      assert Steps(limit, worlds[n - 1], ops[n - 1], worlds[n]);
      StepKeepsSeal(worlds[n - 1], limit, ops[n - 1], i, x);
    }
  }

  /** From the file that is published at step `a`, as the first under its digest, to every file
      that is linked at a later step `m` and to the end `n` of the run, past any spills, revivals
      and later publications of equally executable files: the inode that the link gave the target
      is one nobody may write, and everybody may execute if somebody could execute the published
      file, else nobody. */
  lemma ExecutabilityTravels(limit: nat, worlds: seq<World>, ops: seq<Op>, a: nat, m: nat, n: nat, w: WorkPath, d: Digest, v: WorkPath)
    requires Runs(limit, worlds, ops) && a < m < n <= |ops|
    requires ops[a] == Publish(w, d, PUBLISH_FINE) && ops[m] == LinkOp(v, d, FINE)
    requires worlds[a].fs.Valid() && File(w) in worlds[a].fs.names
    requires forall p :: p in worlds[a].fs.names && Slotted(p) ==> p.digest != d
    requires RunsAs(limit, worlds, ops, a, n, d, SomeoneMayExecute(worlds[a].fs.ModeAt(File(w))))
    requires worlds[m].fs.Valid() && LinkSucceeds(worlds[m].fs, limit, v, d, FINE)
    ensures File(v) in worlds[m + 1].fs.names && worlds[m + 1].fs.names[File(v)] in worlds[n].fs.nodes
    ensures SealedAs(worlds[n].fs.nodes[worlds[m + 1].fs.names[File(v)]].mode, SomeoneMayExecute(worlds[a].fs.ModeAt(File(w))))
  {
    hide Spares, PublishesAs, Protected, Harmless, Unlinked, Slots, LinkSucceeds, PublishedFs, LinkedFs, SomeoneMayExecute, SealedAs, WellFormed;
    var x := SomeoneMayExecute(worlds[a].fs.ModeAt(File(w)));
    assert AllSealed(worlds[a].fs, d, x);
    SlotsStaySealed(limit, worlds, ops, a, m + 1, d, x);
    var i := LinkedToSlot(limit, worlds, ops, m, d, v, x);
    InodeStaysSealed(limit, worlds, ops, m + 1, n, d, x, i);
    SealMeans(ReadOnlyMode(x), x);
  }

  lemma LinkedToSlot(limit: nat, worlds: seq<World>, ops: seq<Op>, m: nat, d: Digest, v: WorkPath, x: bool) returns (i: Ino)
    requires Runs(limit, worlds, ops) && m < |ops| && ops[m] == LinkOp(v, d, FINE)
    requires worlds[m].fs.Valid() && LinkSucceeds(worlds[m].fs, limit, v, d, FINE) && AllSealed(worlds[m + 1].fs, d, x)
    ensures File(v) in worlds[m + 1].fs.names && worlds[m + 1].fs.names[File(v)] == i
    ensures i in worlds[m + 1].published && i in worlds[m + 1].fs.nodes && worlds[m + 1].fs.nodes[i].mode == ReadOnlyMode(x)
  {
    hide OpenIndex, AcquiredFs, OneStoreName, LinkedFs, LinkSucceeds, Harmless;
    var fs, fs', slot := worlds[m].fs, worlds[m + 1].fs, SlotFor(worlds[m].fs, limit, d).Path();
    RunProtects(limit, worlds, ops, m);
    assert Steps(limit, worlds[m], ops[m], worlds[m + 1]);
    LinkShares(fs, limit, v, d);
    LinkModes(fs, limit, v, d);
    i := fs'.names[File(v)];
    assert Slotted(slot) && fs'.names[slot] in Slots(fs');
  }
}
