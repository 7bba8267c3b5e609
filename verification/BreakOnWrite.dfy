/** Break on write: a file the store has published is read-only, so that an editor or compiler
    has to replace it, and no write through one path shows at another. */
module BreakOnWrite {
  import Accounting
  import opened Filesystem
  import opened Store
  import opened Linkage
  import opened LinkageLaws
  import opened Permissions
  import opened Gc
  import opened GcLaws

  /** What the engine does, one whole operation at a time, and what the users of the workspace
      do.  `Write` opens a file for writing, which its permissions may refuse. */
  datatype Op =
    | Publish(w: WorkPath, d: Digest, publish: PublishIo)
    | LinkOp(w: WorkPath, d: Digest, io: LinkIo)
    | CollectSlot(slot: SlotRef, now: nat)
    | CollectEntry(e: Entry, now: nat, cooldownSecs: nat)
    | Write(w: WorkPath, user: User, data: Bytes)
    | Replace(w: WorkPath, data: Bytes, mode: Mode)
    | UserLink(w: WorkPath, to: WorkPath)
    | Delete(w: WorkPath)

  /** `published` holds every inode that ever was in the store. */
  datatype World = World(fs: Fs, published: set<Ino>)

  predicate Slotted(p: Path) {
    p.Object? || p.Quarantine?
  }

  function Slots(fs: Fs): set<Ino> {
    set p | p in fs.names && Slotted(p) :: fs.names[p]
  }

  function NextFs(fs: Fs, limit: nat, op: Op): Fs
    requires fs.Valid()
  {
    match op
    case Publish(w, d, io) => PublishedFs(fs, limit, w, d, io)
    case LinkOp(w, d, io) => LinkedFs(fs, limit, w, d, io)
    case CollectSlot(slot, now) => AfterSlot(fs, slot, now)
    case CollectEntry(e, now, cooldownSecs) => AfterEntry(fs, e, now, cooldownSecs)
    case Write(w, user, data) =>
      if File(w) in fs.names && MayWrite(fs.ModeAt(File(w)), user) then fs.SetData(fs.names[File(w)], data) else fs
    case Replace(w, data, mode) => fs.Create(File(w), Node(data, mode, true))
    case UserLink(w, to) => if fs.CanLink(File(w), File(to)) then fs.Link(File(w), File(to)) else fs
    case Delete(w) => fs.Unlink(File(w))
  }

  function Next(world: World, limit: nat, op: Op): World
    requires world.fs.Valid()
  {
    var fs' := NextFs(world.fs, limit, op);
    World(fs', world.published + Slots(fs'))
  }

  /** What holds between operations. */
  ghost predicate Protected(world: World) {
    && WellFormed(world.fs)
    && (forall p <- world.fs.names :: world.fs.names[p] in world.published ==> world.fs.ModeAt(p).ReadOnly())
    && Slots(world.fs) <= world.published <= world.fs.nodes.Keys
  }

  /** The target is not linked into the store. */
  predicate Unlinked(world: World, w: WorkPath) {
    File(w) in world.fs.names ==> world.fs.names[File(w)] !in world.published
  }

  // ─── Modes ────────────────────────────────────────────────────────────────

  /** Linking leaves slot and target read-only, and executable exactly when the slot was, except
      that linking a read-only file to itself takes its execute bits away. */
  lemma LinkModes(fs: Fs, limit: nat, w: WorkPath, d: Digest)
    requires WellFormed(fs) && LinkSucceeds(fs, limit, w, d, FINE)
    ensures var fs', slot := LinkedFs(fs, limit, w, d, FINE), SlotFor(fs, limit, d).Path();
      && slot in AcquiredFs(fs, limit, d).names && AcquiredFs(fs, limit, d).names[slot] in AcquiredFs(fs, limit, d).nodes
      && slot in fs'.names && File(w) in fs'.names && fs'.names[slot] in fs'.nodes && fs'.names[File(w)] == fs'.names[slot]
      && fs'.ModeAt(slot).ReadOnly()
      && (fs'.ModeAt(slot).Executable() <==>
          && AcquiredFs(fs, limit, d).ModeAt(slot).Executable()
          && !(AlreadyThere(fs, slot, w) && fs.names[File(w)] in fs.nodes && fs.ModeAt(File(w)).ReadOnly()))
  {
    hide OpenIndex, AcquiredFs, OneStoreName;
    AcquireKeepsValid(fs, limit, d);
    var a, slot := AcquiredFs(fs, limit, d), SlotFor(fs, limit, d).Path();
    var ready := Stripped(a, w);
    SwapNames(ready, slot, w);
    assert AlreadyThere(ready, slot, w) <==> AlreadyThere(fs, slot, w);
  }

  // ─── Every operation ──────────────────────────────────────────────────────

  lemma AcquireProtects(world: World, limit: nat, d: Digest)
    requires Protected(world)
    ensures var a := AcquiredFs(world.fs, limit, d);
      && Protected(World(a, world.published + Slots(a)))
      && forall p :: p in a.names && a.names[p] !in world.published && a.names[p] in Slots(a) ==> p == SlotFor(world.fs, limit, d).Path()
  {
    var fs := world.fs;
    var k, a := OpenIndex(fs, limit, d, 0), AcquiredFs(fs, limit, d);
    AcquireKeepsValid(fs, limit, d);
    if k > 0 && Object(d, k) !in fs.names {
      assert Full(fs, limit, d, k - 1);
      assert fs.names[Object(d, k - 1)] in Slots(fs);
    }
  }

  lemma CreateProtects(world: World, slot: Path, node: Node)
    requires Protected(world) && slot.Object? && slot !in world.fs.names && node.closed
    ensures var fs' := Enforced(world.fs.Create(slot, node), slot);
            Protected(World(fs', world.published + Slots(fs')))
  {
    var fs' := Enforced(world.fs.Create(slot, node), slot);
    forall p | p in fs'.names && p != slot ensures fs'.names[p] == world.fs.names[p] < world.fs.next {
    }
  }

  lemma StagingProtects(world: World, w: WorkPath, d: Digest, io: PublishIo)
    requires Protected(world) && Publishes(world.fs, w, d)
    ensures var fs' := StagedFs(world.fs, w, d, io); Protected(World(fs', world.published + Slots(fs')))
  {
    var fs, source := world.fs, world.fs.nodes[world.fs.names[File(w)]];
    CreateProtects(world, Object(d, 0), source.(closed := true));
    StrayProtects(world, StageNode(source, io.copy));
    RemovedProtects(world, StageNode(source, io.copy));
    hide Protected;
    assert world.published + Slots(fs) == world.published by {
      SlotsPublished(world);
    }
  }

  lemma SlotsPublished(world: World)
    requires Protected(world)
    ensures Slots(world.fs) <= world.published
  {
  }

  /** A stage file that stays is no slot. */
  lemma StrayProtects(world: World, node: Node)
    requires Protected(world)
    ensures var made := world.fs.Create(Stage(world.fs.next), node); Protected(World(made, world.published + Slots(made)))
  {
    var fs, t := world.fs, Stage(world.fs.next);
    assert t !in fs.names;
    assert Slots(fs.Create(t, node)) == Slots(fs);
  }

  /** Nor is one that is removed. */
  lemma RemovedProtects(world: World, node: Node)
    requires Protected(world)
    ensures var fs' := world.fs.Create(Stage(world.fs.next), node).Unlink(Stage(world.fs.next));
            Protected(World(fs', world.published + Slots(fs')))
  {
    var fs, t := world.fs, Stage(world.fs.next);
    assert t !in fs.names;
    var fs' := fs.Create(t, node).Unlink(t);
    assert fs'.names == fs.names;
    assert Slots(fs') == Slots(fs);
  }

  lemma PublishProtects(world: World, limit: nat, w: WorkPath, d: Digest, io: PublishIo)
    requires Protected(world)
    ensures Protected(Next(world, limit, Publish(w, d, io)))
  {
    hide Protected, OpenIndex, StagedFs;
    if Publishes(world.fs, w, d) {
      StagingProtects(world, w, d, io);
    } else {
      AcquireProtects(world, limit, d);
    }
  }

  /** Making a published file writable breaks the protection as long as the file has a name. */
  lemma StripProtects(world: World, w: WorkPath)
    requires Protected(world)
    ensures Protected(World(Stripped(world.fs, w), world.published)) <==> Unlinked(world, w)
  {
    ModesMean(MODE_644);
    if Unlinked(world, w) {
      assert Slots(Stripped(world.fs, w)) == Slots(world.fs);
    }
  }

  lemma SecondName(fs: Fs, p: Path) returns (q: Path)
    requires p in fs.names && fs.LinksAt(p) != 1
    ensures q in fs.names && q != p && fs.names[q] == fs.names[p]
  {
    var ps := fs.NamesOf(fs.names[p]);
    assert p in ps;
    if ps == {p} {
      assert false;
    }
    q :| q in ps && q != p;
  }

  lemma SwappedNames(world: World, slot: Path, w: WorkPath)
    requires Protected(world) && slot in world.fs.names && slot.Object? && TmpLink(w) !in world.fs.names
    ensures var fs, fs' := world.fs, Swapped(world.fs, slot, w);
            fs'.names == fs.names[(if AlreadyThere(fs, slot, w) then TmpLink(w) else File(w)) := fs.names[slot]]
  {
    hide Protected;
    assert world.fs.Valid() by {
      ProtectedIsWell(world);
    }
    SwapNames(Stripped(world.fs, w), slot, w);
  }

  lemma ProtectedIsWell(world: World)
    requires Protected(world)
    ensures WellFormed(world.fs)
  {
  }

  lemma SwapProtects(world: World, slot: Path, w: WorkPath)
    requires Protected(world) && slot in world.fs.names && slot.Object? && TmpLink(w) !in world.fs.names
    ensures Protected(World(Swapped(world.fs, slot, w), world.published)) <==>
            Unlinked(world, w) || AlreadyThere(world.fs, slot, w) || world.fs.LinksAt(File(w)) == 1
  {
    if Unlinked(world, w) || AlreadyThere(world.fs, slot, w) || world.fs.LinksAt(File(w)) == 1 {
      SwapKeepsProtected(world, slot, w);
    } else {
      SwapBreaksProtected(world, slot, w);
    }
  }

  lemma SwapBreaksProtected(world: World, slot: Path, w: WorkPath)
    requires Protected(world) && slot in world.fs.names && slot.Object? && TmpLink(w) !in world.fs.names
    requires !Unlinked(world, w) && !AlreadyThere(world.fs, slot, w) && world.fs.LinksAt(File(w)) != 1
    ensures !Protected(World(Swapped(world.fs, slot, w), world.published))
  {
    var fs, fs' := world.fs, Swapped(world.fs, slot, w);
    SwappedNames(world, slot, w);
    var p := SecondName(fs, File(w));
    assert fs'.names[p] == fs.names[File(w)];
    assert fs'.ModeAt(p) == MODE_644;
  }

  lemma SwapKeepsProtected(world: World, slot: Path, w: WorkPath)
    requires Protected(world) && slot in world.fs.names && slot.Object? && TmpLink(w) !in world.fs.names
    requires Unlinked(world, w) || AlreadyThere(world.fs, slot, w) || world.fs.LinksAt(File(w)) == 1
    ensures Protected(World(Swapped(world.fs, slot, w), world.published))
  {
    var fs, fs' := world.fs, Swapped(world.fs, slot, w);
    SwappedNames(world, slot, w);
    SameSlots(fs, fs');
    forall p | p in fs'.names && fs'.names[p] in world.published ensures fs'.ModeAt(p).ReadOnly() {
      if fs'.names[p] != fs.names[slot] && File(w) in fs.names && fs.names[p] == fs.names[File(w)] && fs.LinksAt(File(w)) == 1 {
        SoleName(fs, File(w), p);
      }
    }
    hide Slots;
  }

  lemma LinkSlots(a: Fs, slot: Path, w: WorkPath)
    requires a.Valid()
    ensures Slots(Stripped(a, w)) == Slots(a)
    ensures slot in a.names && slot.Object? && TmpLink(w) !in a.names ==> Slots(Swapped(a, slot, w)) == Slots(a)
  {
    if slot in a.names && slot.Object? && TmpLink(w) !in a.names {
      SwapNames(Stripped(a, w), slot, w);
      forall i | i in Slots(a) ensures i in Slots(Swapped(a, slot, w)) {
        var p :| p in a.names && Slotted(p) && a.names[p] == i;
        assert Swapped(a, slot, w).names[p] == i;
      }
    }
  }

  lemma SameTarget(world: World, limit: nat, w: WorkPath, d: Digest)
    requires Protected(world)
    ensures var a, slot := AcquiredFs(world.fs, limit, d), SlotFor(world.fs, limit, d).Path();
      && (Unlinked(World(a, world.published + Slots(a)), w) <==> Unlinked(world, w))
      && (AlreadyThere(a, slot, w) <==> AlreadyThere(world.fs, slot, w))
  {
    AcquireKeepsValid(world.fs, limit, d);
    hide OpenIndex, AcquiredFs, OneStoreName;
    var a := AcquiredFs(world.fs, limit, d);
    if File(w) in a.names && a.names[File(w)] in Slots(a) {
      var p :| p in a.names && Slotted(p) && a.names[p] == a.names[File(w)];
      assert p in world.fs.names ==> world.fs.names[p] in Slots(world.fs);
    }
  }

  /** Linking keeps the store protected exactly when the target was missing, or outside the
      store, or when the link succeeds and either the target is the slot already or its inode
      loses its only name. */
  lemma LinkProtects(world: World, limit: nat, w: WorkPath, d: Digest, io: LinkIo)
    requires Protected(world)
    ensures Protected(Next(world, limit, LinkOp(w, d, io))) <==>
      || Unlinked(world, w)
      || (LinkSucceeds(world.fs, limit, w, d, io)
          && (AlreadyThere(world.fs, SlotFor(world.fs, limit, d).Path(), w) || world.fs.LinksAt(File(w)) == 1))
  {
    var fs, slot, a := world.fs, SlotFor(world.fs, limit, d).Path(), AcquiredFs(world.fs, limit, d);
    AcquireProtects(world, limit, d);
    LinkForms(fs, limit, w, d, io);
    LinkSlots(a, slot, w);
    SameTarget(world, limit, w, d);
    Accounting.AcquireLinks(fs, limit, d, w);
    hide OpenIndex, AcquiredFs, LinkedFs, WellFormed, Protected, Unlinked, AlreadyThere, Slots, Swapped, Stripped;
    if LinkSucceeds(fs, limit, w, d, io) {
      SwapProtects(World(a, world.published + Slots(a)), slot, w);
    } else {
      StripProtects(World(a, world.published + Slots(a)), w);
    }
  }

  lemma SlotProtects(world: World, limit: nat, slot: SlotRef, now: nat)
    requires Protected(world)
    ensures Protected(Next(world, limit, CollectSlot(slot, now)))
  {
    SlotKeeps(world.fs, slot, now);
  }

  lemma EntryProtects(world: World, limit: nat, e: Entry, now: nat, cooldownSecs: nat)
    requires Protected(world)
    ensures Protected(Next(world, limit, CollectEntry(e, now, cooldownSecs)))
  {
    assert InStore(e.Path()) && InStore(e.Slot());
    if e.Path() in world.fs.names {
      assert world.fs.names[e.Path()] in Slots(world.fs);
    }
  }

  /** Same names, and a mode or content changed of files outside the store at most. */
  lemma WriteProtects(world: World, limit: nat, w: WorkPath, user: User, data: Bytes)
    requires Protected(world)
    ensures Protected(Next(world, limit, Write(w, user, data)))
  {
    hide PublishedFs, LinkedFs, AfterSlot, AfterEntry;
    assert Slots(NextFs(world.fs, limit, Write(w, user, data))) == Slots(world.fs);
  }

  lemma SameSlots(fs: Fs, fs': Fs)
    requires forall p :: Slotted(p) ==> (p in fs'.names <==> p in fs.names) && (p in fs'.names ==> fs'.names[p] == fs.names[p])
    ensures Slots(fs') == Slots(fs)
  {
  }

  lemma ReplaceProtects(world: World, limit: nat, w: WorkPath, data: Bytes, mode: Mode)
    requires Protected(world)
    ensures Protected(Next(world, limit, Replace(w, data, mode)))
  {
    hide PublishedFs, LinkedFs, AfterSlot, AfterEntry, Slots;
    SameSlots(world.fs, world.fs.Create(File(w), Node(data, mode, true)));
  }

  lemma UserLinkProtects(world: World, limit: nat, w: WorkPath, to: WorkPath)
    requires Protected(world)
    ensures Protected(Next(world, limit, UserLink(w, to)))
  {
    hide PublishedFs, LinkedFs, AfterSlot, AfterEntry, Slots;
    SameSlots(world.fs, NextFs(world.fs, limit, UserLink(w, to)));
  }

  lemma DeleteProtects(world: World, limit: nat, w: WorkPath)
    requires Protected(world)
    ensures Protected(Next(world, limit, Delete(w)))
  {
    hide PublishedFs, LinkedFs, AfterSlot, AfterEntry, Slots;
    SameSlots(world.fs, world.fs.Unlink(File(w)));
  }

  // ─── Whole runs ───────────────────────────────────────────────────────────

  /** A link of a target that is not in the store, or that leaves no writable published file. */
  predicate Harmless(world: World, limit: nat, op: Op)
    requires world.fs.Valid()
  {
    op.LinkOp? ==>
      || Unlinked(world, op.w)
      || (LinkSucceeds(world.fs, limit, op.w, op.d, op.io)
          && (AlreadyThere(world.fs, SlotFor(world.fs, limit, op.d).Path(), op.w) || world.fs.LinksAt(File(op.w)) == 1))
  }

  lemma StepProtects(world: World, limit: nat, op: Op)
    requires Protected(world)
    ensures Protected(Next(world, limit, op)) <==> Harmless(world, limit, op)
  {
    hide Protected, Next, WellFormed;
    match op
    case Publish(w, d, publish) => PublishProtects(world, limit, w, d, publish);
    case LinkOp(w, d, io) => LinkProtects(world, limit, w, d, io);
    case CollectSlot(slot, now) => SlotProtects(world, limit, slot, now);
    case CollectEntry(e, now, cooldownSecs) => EntryProtects(world, limit, e, now, cooldownSecs);
    case Write(w, user, data) => WriteProtects(world, limit, w, user, data);
    case Replace(w, data, mode) => ReplaceProtects(world, limit, w, data, mode);
    case UserLink(w, to) => UserLinkProtects(world, limit, w, to);
    case Delete(w) => DeleteProtects(world, limit, w);
  }

  /** No operation changes a byte of a file that is in the store. */
  lemma StepKeepsBytes(world: World, limit: nat, op: Op, i: Ino)
    requires Protected(world) && i in world.published
    ensures var fs' := Next(world, limit, op).fs;
            i in world.fs.nodes && i in fs'.nodes && fs'.nodes[i].data == world.fs.nodes[i].data
  {
    if op.Publish? || op.LinkOp? {
      if op.Publish? {
        PublishKeepsBytes(world.fs, limit, op.w, op.d, op.publish, i);
      } else {
        LinkKeepsBytes(world.fs, limit, op.w, op.d, op.io, i);
      }
      hide PublishedFs, LinkedFs, AcquiredFs, OpenIndex, OneStoreName;
    } else {
      hide PublishedFs, LinkedFs, AcquiredFs, OpenIndex, OneStoreName;
    }
  }

  ghost predicate Runs(limit: nat, worlds: seq<World>, ops: seq<Op>) {
    && |worlds| == |ops| + 1
    && Protected(worlds[0])
    && forall n :: 0 <= n < |ops| ==> Steps(limit, worlds[n], ops[n], worlds[n + 1])
  }

  ghost predicate Steps(limit: nat, world: World, op: Op, world': World) {
    world.fs.Valid() && Harmless(world, limit, op) && world' == Next(world, limit, op)
  }

  lemma {:induction false} RunProtects(limit: nat, worlds: seq<World>, ops: seq<Op>, n: nat)
    requires Runs(limit, worlds, ops) && n <= |ops|
    ensures Protected(worlds[n])
  {
    if n > 0 {
      RunProtects(limit, worlds, ops, n - 1);
      assert Steps(limit, worlds[n - 1], ops[n - 1], worlds[n]);
      hide Protected, Next, Harmless;
      StepProtects(worlds[n - 1], limit, ops[n - 1]);
    }
  }

  lemma StepKeepsPublished(limit: nat, world: World, op: Op, world': World, i: Ino)
    requires Protected(world) && Steps(limit, world, op, world') && i in world.published
    ensures i in world'.published && i in world.fs.nodes && i in world'.fs.nodes
    ensures world'.fs.nodes[i].data == world.fs.nodes[i].data
  {
    hide NextFs, Harmless, WellFormed, Slots;
    StepKeepsBytes(world, limit, op, i);
  }

  lemma NobodyMayWrite(world: World, i: Ino)
    requires Protected(world) && i in world.published
    ensures i in world.fs.nodes
    ensures forall p, user :: p in world.fs.names && world.fs.names[p] == i ==> !MayWrite(world.fs.nodes[i].mode, user)
  {
  }

  /** Once a file is in the store it keeps its bytes to the end of the run, and as long as it has
      a name nobody may open it for writing. */
  lemma {:induction false} PublishedBytesStay(limit: nat, worlds: seq<World>, ops: seq<Op>, m: nat, n: nat, i: Ino)
    requires Runs(limit, worlds, ops) && m <= n <= |ops| && i in worlds[m].published
    ensures i in worlds[n].published && i in worlds[m].fs.nodes && i in worlds[n].fs.nodes
    ensures worlds[n].fs.nodes[i].data == worlds[m].fs.nodes[i].data
    ensures forall p, user :: p in worlds[n].fs.names && worlds[n].fs.names[p] == i ==>
              !MayWrite(worlds[n].fs.nodes[i].mode, user)
  {
    hide Steps, Protected, MayWrite;
    RunProtects(limit, worlds, ops, n);
    if m < n {
      PublishedBytesStay(limit, worlds, ops, m, n - 1, i);
      RunProtects(limit, worlds, ops, n - 1);
      StepKeepsPublished(limit, worlds[n - 1], ops[n - 1], worlds[n], i);
    }
    NobodyMayWrite(worlds[n], i);
  }

  /** In a run, a write through one path never shows at a path the store has linked. */
  lemma WriteShowsNowhereElse(limit: nat, worlds: seq<World>, ops: seq<Op>, n: nat, p: Path)
    requires Runs(limit, worlds, ops) && n < |ops| && ops[n].Write?
    requires p in worlds[n].fs.names && worlds[n].fs.names[p] in worlds[n].published
    ensures worlds[n].fs.Valid() && worlds[n + 1].fs.Valid() && worlds[n + 1].fs.names == worlds[n].fs.names
    ensures worlds[n + 1].fs.DataAt(p) == worlds[n].fs.DataAt(p)
  {
    RunProtects(limit, worlds, ops, n);
    RunProtects(limit, worlds, ops, n + 1);
    StepKeepsBytes(worlds[n], limit, ops[n], worlds[n].fs.names[p]);
  }

  /** Linking a file twice to the slot it already is leaves it writable: the first time its
      temporary link stays behind, and the second time that makes the link fail after the file
      has been made writable. */
  lemma RelinkTwiceUnprotects(world: World, limit: nat, w: WorkPath, d: Digest)
    requires Protected(world) && LinkSucceeds(world.fs, limit, w, d, FINE)
    requires AlreadyThere(world.fs, SlotFor(world.fs, limit, d).Path(), w)
    ensures var once := Next(world, limit, LinkOp(w, d, FINE));
            Protected(once) && !Protected(Next(once, limit, LinkOp(w, d, FINE)))
  {
    var fs, slot := world.fs, SlotFor(world.fs, limit, d).Path();
    var once := Next(world, limit, LinkOp(w, d, FINE));
    assert fs.names[slot] in Slots(fs);
    LinkProtects(world, limit, w, d, FINE);
    LinkProtects(once, limit, w, d, FINE);
    LinkShares(fs, limit, w, d);
    AcquireKeepsValid(fs, limit, d);
    AcquireKeepsValid(once.fs, limit, d);
    hide LinkedFs, AcquiredFs, OpenIndex, WellFormed, Protected;
    assert TmpLink(w) in once.fs.names && once.fs.names[File(w)] == fs.names[File(w)];
    assert File(w) != slot && TmpLink(w) != File(w);
    StillTwoNames(once.fs, w);
  }

  lemma StillTwoNames(fs: Fs, w: WorkPath)
    requires File(w) in fs.names && TmpLink(w) in fs.names && fs.names[TmpLink(w)] == fs.names[File(w)]
    ensures fs.LinksAt(File(w)) != 1
  {
    if fs.LinksAt(File(w)) == 1 {
      SoleName(fs, File(w), TmpLink(w));
    }
  }
}
