/** Physical bytes: the sizes of the inodes that have a name.  What linking reports as saved, and
    what it really saves. */
module Accounting {
  import opened Filesystem
  import opened Store
  import opened Linkage
  import opened LinkageLaws
  import opened Permissions

  function Size(fs: Fs, i: Ino): nat {
    if i in fs.nodes then |fs.nodes[i].data| else 0
  }

  /** What inode `i` occupies on disk. */
  function Occupied(fs: Fs, i: Ino): nat {
    if fs.Links(i) > 0 then Size(fs, i) else 0
  }

  function PhysicalTo(fs: Fs, n: nat): nat {
    if n == 0 then 0 else PhysicalTo(fs, n - 1) + Occupied(fs, n - 1)
  }

  function Physical(fs: Fs): nat {
    PhysicalTo(fs, fs.next)
  }

  /** The copies an operation makes, and their bytes: masters, spill slots, and stage copies that
      became neither because a call failed. */
  datatype Copies = Copies(masters: nat, masterBytes: nat, spills: nat, spillBytes: nat, strays: nat, strayBytes: nat) {
    function Count(): nat { masters + spills + strays }

    function Bytes(): nat { masterBytes + spillBytes + strayBytes }

    function Plus(c: Copies): Copies {
      Copies(masters + c.masters, masterBytes + c.masterBytes, spills + c.spills, spillBytes + c.spillBytes,
             strays + c.strays, strayBytes + c.strayBytes)
    }
  }

  const NO_COPIES := Copies(0, 0, 0, 0, 0, 0)

  /** Acquiring has to spill: the slots up to some index are full and there is none after them. */
  predicate Spills(fs: Fs, limit: nat, d: Digest) {
    OpenIndex(fs, limit, d, 0) > 0 && SlotFor(fs, limit, d).Path() !in fs.names
  }

  /** The size of the slot that a spill copies. */
  function SpillSize(fs: Fs, limit: nat, d: Digest): nat
    requires fs.Valid() && Spills(fs, limit, d)
  {
    var k := OpenIndex(fs, limit, d, 0);
    assert Full(fs, limit, d, k - 1);
    |fs.DataAt(Object(d, k - 1))|
  }

  function AcquireCopies(fs: Fs, limit: nat, d: Digest): Copies
    requires fs.Valid()
  {
    if Spills(fs, limit, d) then NO_COPIES.(spills := 1, spillBytes := SpillSize(fs, limit, d)) else NO_COPIES
  }

  /** One copy of the file, as a master or astray; or what acquiring copies. */
  function PublishCopies(fs: Fs, limit: nat, w: WorkPath, d: Digest, io: PublishIo): Copies
    requires fs.Valid()
  {
    if !Publishes(fs, w, d) then AcquireCopies(fs, limit, d)
    else
      var size := SizeOf(fs, w);
      match io.copy
      case NotStaged => NO_COPIES
      case Torn(n) => NO_COPIES.(strays := 1, strayBytes := if n < size then n else size)
      case Copied =>
        if io.shard != Fine then NO_COPIES.(strays := 1, strayBytes := size)
        else if io.rename != Fine then NO_COPIES.(strays := 1)
        else NO_COPIES.(masters := 1, masterBytes := size)
  }

  lemma {:induction false} SameTo(fs: Fs, fs': Fs, n: nat)
    requires forall i: Ino :: i < n ==> Occupied(fs', i) == Occupied(fs, i)
    ensures PhysicalTo(fs', n) == PhysicalTo(fs, n)
  {
    if n > 0 {
      SameTo(fs, fs', n - 1);
    }
  }

  lemma {:induction false} AllButOne(fs: Fs, fs': Fs, n: nat, j: Ino)
    requires j < n
    requires forall i: Ino :: i < n && i != j ==> Occupied(fs', i) == Occupied(fs, i)
    ensures PhysicalTo(fs', n) == PhysicalTo(fs, n) - Occupied(fs, j) + Occupied(fs', j)
    ensures PhysicalTo(fs, n) >= Occupied(fs, j)
  {
    if j == n - 1 {
      SameTo(fs, fs', n - 1);
    } else {
      AllButOne(fs, fs', n - 1, j);
    }
  }

  lemma CreateAdds(fs: Fs, p: Path, node: Node)
    requires fs.Valid() && p !in fs.names
    ensures Physical(fs.Create(p, node)) == Physical(fs) + |node.data|
  {
    CreateCounts(fs, p, node);
    SameTo(fs, fs.Create(p, node), fs.next);
  }

  /** Files whose sizes and link counts are the same occupy the same. */
  lemma SameUse(fs: Fs, fs': Fs)
    requires fs'.next == fs.next && forall i: Ino :: Occupied(fs', i) == Occupied(fs, i)
    ensures Physical(fs') == Physical(fs)
  {
    SameTo(fs, fs', fs.next);
  }

  lemma ChmodFree(fs: Fs, i: Ino, mode: Mode)
    requires i in fs.nodes
    ensures Physical(fs.Chmod(i, mode)) == Physical(fs)
  {
    var fs' := fs.Chmod(i, mode);
    assert forall x: Ino :: fs'.NamesOf(x) == fs.NamesOf(x);
    SameUse(fs, fs');
  }

  lemma RemoveFrees(fs: Fs, p: Path, node: Node)
    requires fs.Valid() && p !in fs.names
    ensures Physical(fs.Create(p, node).Unlink(p)) == Physical(fs)
  {
    var fs' := fs.Create(p, node).Unlink(p);
    assert fs'.names == fs.names;
    assert forall x: Ino :: fs'.NamesOf(x) == fs.NamesOf(x);
    assert fs.NamesOf(fs.next) == {};
    SameTo(fs, fs', fs.next);
  }

  /** The copy a spill makes. */
  lemma SpillCopy(fs: Fs, limit: nat, d: Digest)
    requires WellFormed(fs)
    ensures if Spills(fs, limit, d) then
              var k := OpenIndex(fs, limit, d, 0);
              && k > 0 && Object(d, k - 1) in fs.names && Object(d, k) !in fs.names
              && AcquiredFs(fs, limit, d) == fs.Create(Object(d, k), fs.nodes[fs.names[Object(d, k - 1)]])
              && AcquireCopies(fs, limit, d) == Copies(0, 0, 1, |fs.DataAt(Object(d, k - 1))|, 0, 0)
            else
              AcquiredFs(fs, limit, d) == fs && AcquireCopies(fs, limit, d) == NO_COPIES
  {
    hide OneStoreName, OpenIndex;
    var k := OpenIndex(fs, limit, d, 0);
    if k > 0 {
      assert Full(fs, limit, d, k - 1);
    }
  }

  /** Acquiring takes up an inode number and bytes for the one copy a spill makes, and nothing
      otherwise. */
  lemma AcquireAdds(fs: Fs, limit: nat, d: Digest)
    requires WellFormed(fs)
    ensures var a, copies := AcquiredFs(fs, limit, d), AcquireCopies(fs, limit, d);
            a.next == fs.next + copies.Count() && Physical(a) == Physical(fs) + copies.Bytes()
  {
    hide Physical, OneStoreName, AcquiredFs, AcquireCopies, Spills, OpenIndex;
    AcquireAddsNumber(fs, limit, d);
    AcquireAddsBytes(fs, limit, d);
  }

  lemma AcquireAddsNumber(fs: Fs, limit: nat, d: Digest)
    requires WellFormed(fs)
    ensures AcquiredFs(fs, limit, d).next == fs.next + AcquireCopies(fs, limit, d).Count()
  {
    hide OneStoreName, OpenIndex;
    SpillCopy(fs, limit, d);
  }

  lemma AcquireAddsBytes(fs: Fs, limit: nat, d: Digest)
    requires WellFormed(fs)
    ensures Physical(AcquiredFs(fs, limit, d)) == Physical(fs) + AcquireCopies(fs, limit, d).Bytes()
  {
    hide OneStoreName, OpenIndex, Physical;
    SpillCopy(fs, limit, d);
    if Spills(fs, limit, d) {
      SpillAdds(fs, d, OpenIndex(fs, limit, d, 0));
    }
  }

  lemma SpillAdds(fs: Fs, d: Digest, k: nat)
    requires WellFormed(fs) && k > 0 && Object(d, k - 1) in fs.names && Object(d, k) !in fs.names
    ensures fs.names[Object(d, k - 1)] in fs.nodes
    ensures var a := fs.Create(Object(d, k), fs.nodes[fs.names[Object(d, k - 1)]]);
            a.next == fs.next + 1 && Physical(a) == Physical(fs) + |fs.DataAt(Object(d, k - 1))|
  {
    CreateAdds(fs, Object(d, k), fs.nodes[fs.names[Object(d, k - 1)]]);
  }

  /** Publishing takes up what its copy of the file does, and nothing else. */
  lemma PublishBytes(fs: Fs, limit: nat, w: WorkPath, d: Digest, io: PublishIo)
    requires WellFormed(fs)
    ensures var fs', copies := PublishedFs(fs, limit, w, d, io), PublishCopies(fs, limit, w, d, io);
            fs'.next == fs.next + copies.Count() && Physical(fs') == Physical(fs) + copies.Bytes()
  {
    hide Physical, OneStoreName;
    if Publishes(fs, w, d) {
      StagingBytes(fs, w, d, io);
    } else {
      AcquireAdds(fs, limit, d);
    }
  }

  lemma StagingBytes(fs: Fs, w: WorkPath, d: Digest, io: PublishIo)
    requires WellFormed(fs) && Publishes(fs, w, d)
    ensures var fs', copies := StagedFs(fs, w, d, io), PublishCopies(fs, 0, w, d, io);
            fs'.next == fs.next + copies.Count() && Physical(fs') == Physical(fs) + copies.Bytes()
  {
    hide Physical, OneStoreName;
    var slot, t, source := Object(d, 0), Stage(fs.next), fs.nodes[fs.names[File(w)]];
    assert t !in fs.names;
    CreateAdds(fs, t, StageNode(source, io.copy));
    RemoveFrees(fs, t, StageNode(source, io.copy));
    var node := source.(closed := true);
    CreateAdds(fs, slot, node);
    ChmodFree(fs.Create(slot, node), fs.next, ReadOnlyMode(node.mode.Executable()));
  }

  /** A name that moves from inode `j` to another frees `j` when it was its last name. */
  lemma RetargetFrees(fs: Fs, fs': Fs, p: Path, i: Ino)
    requires fs.Valid() && i in fs.nodes && fs.Links(i) > 0
    requires fs'.names == fs.names[p := i] && (p in fs.names ==> fs.names[p] != i)
    requires fs'.next == fs.next && forall x: Ino :: Size(fs', x) == Size(fs, x)
    ensures Physical(fs') == Physical(fs) - if p in fs.names && fs.LinksAt(p) == 1 then Size(fs, fs.names[p]) else 0
  {
    RetargetCounts(fs, fs', p, i);
    if p in fs.names {
      assert fs.names[p] in fs.nodes && p in fs.NamesOf(fs.names[p]);
      AllButOne(fs, fs', fs.next, fs.names[p]);
    } else {
      SameUse(fs, fs');
    }
  }

  /** The name a link retargets is not the slot's inode yet. */
  lemma LinkRetargets(fs: Fs, limit: nat, w: WorkPath, d: Digest)
    requires WellFormed(fs) && LinkSucceeds(fs, limit, w, d, FINE)
    ensures var a, slot := AcquiredFs(fs, limit, d), SlotFor(fs, limit, d).Path();
            var x := if AlreadyThere(fs, slot, w) then TmpLink(w) else File(w);
      && slot in a.names && WellFormed(a) && (x in a.names ==> a.names[x] != a.names[slot])
      && (File(w) in a.names <==> File(w) in fs.names)
      && (File(w) in fs.names ==> a.names[File(w)] == fs.names[File(w)] && Size(a, a.names[File(w)]) == SizeOf(fs, w))
      && (AlreadyThere(fs, slot, w) ==> TmpLink(w) !in a.names)
  {
    AcquireKeepsValid(fs, limit, d);
    hide AcquiredFs, OpenIndex, OneStoreName;
  }

  /** Bytes are conserved by a link: what the disk held, and the one spill it may have made, is
      what it holds and what the link freed. */
  lemma LinkBytes(fs: Fs, limit: nat, w: WorkPath, d: Digest)
    requires WellFormed(fs) && LinkSucceeds(fs, limit, w, d, FINE)
    ensures var fs', slot, copies := LinkedFs(fs, limit, w, d, FINE), SlotFor(fs, limit, d).Path(), AcquireCopies(fs, limit, d);
            var freed := if File(w) in fs.names && fs.LinksAt(File(w)) == 1 && !AlreadyThere(fs, slot, w) then SizeOf(fs, w) else 0;
            fs'.next == fs.next + copies.Count() && Physical(fs') + freed == Physical(fs) + copies.Bytes()
  {
    hide LinkedFs, AcquiredFs, OpenIndex, LinkSucceeds, OneStoreName, AcquireCopies, Physical;
    var a, fs', slot := AcquiredFs(fs, limit, d), LinkedFs(fs, limit, w, d, FINE), SlotFor(fs, limit, d).Path();
    AcquireAdds(fs, limit, d);
    AcquireLinks(fs, limit, d, w);
    LinkRetargets(fs, limit, w, d);
    LinkShares(fs, limit, w, d);
    assert slot in a.NamesOf(a.names[slot]);
    RetargetFrees(a, fs', if AlreadyThere(fs, slot, w) then TmpLink(w) else File(w), a.names[slot]);
  }

  /** The bytes a link reports as saved are the bytes it frees exactly when the target was the
      only name of its inode, or empty, or missing. */
  lemma ReportedIsFreed(fs: Fs, limit: nat, w: WorkPath, d: Digest)
    requires WellFormed(fs) && LinkSucceeds(fs, limit, w, d, FINE)
    ensures var fs', r, copies := LinkedFs(fs, limit, w, d, FINE), LinkOutcome(fs, limit, w, d, FINE), AcquireCopies(fs, limit, d);
            r.Ok? && r.value.Linked? &&
            (Physical(fs') + r.value.bytesSaved == Physical(fs) + copies.Bytes()
             <==> SizeOf(fs, w) == 0 || fs.LinksAt(File(w)) == 1)
  {
    LinkBytes(fs, limit, w, d);
    if AlreadyThere(fs, SlotFor(fs, limit, d).Path(), w) && fs.LinksAt(File(w)) == 1 {
      SoleName(fs, File(w), SlotFor(fs, limit, d).Path());
    }
  }

  lemma AcquireLinks(fs: Fs, limit: nat, d: Digest, w: WorkPath)
    requires WellFormed(fs)
    ensures File(w) in fs.names ==> AcquiredFs(fs, limit, d).LinksAt(File(w)) == fs.LinksAt(File(w))
  {
    var k := OpenIndex(fs, limit, d, 0);
    if k > 0 && Object(d, k) !in fs.names {
      assert Full(fs, limit, d, k - 1);
      CreateCounts(fs, Object(d, k), fs.nodes[fs.names[Object(d, k - 1)]]);
    }
  }
}
