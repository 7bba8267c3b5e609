/** The content-addressable store as one worker sees it: lookup, slot acquisition and spilling. */
module Store {
  import opened Filesystem
  import opened Names

  /** What every file operation of the engine keeps. */
  ghost predicate WellFormed(fs: Fs) {
    && fs.Valid()
    && OneStoreName(fs)
    && (forall t: Ino :: Stage(t) in fs.names ==> t < fs.next)
    && (forall p <- fs.names :: !p.Stage? ==> fs.nodes[fs.names[p]].closed)
  }

  /** How a copy into a stage file ends: done, broken off after some bytes, which stay, or before
      the stage file was made. */
  datatype CopyFault = Copied | Torn(n: nat) | NotStaged

  /** The stage file a copy leaves behind. */
  function StageNode(source: Node, fault: CopyFault): Node {
    match fault
    case Torn(n) => Node(source.data[..if n < |source.data| then n else |source.data|], source.mode, false)
    case _ => source.(closed := true)
  }

  /** The volume that all handles share. */
  class Disk {
    var fs: Fs

    constructor (fs: Fs)
      ensures this.fs == fs
    {
      this.fs := fs;
    }

    predicate Exists(p: Path)
      reads this
    {
      p in fs.names
    }

    /** `fs::copy` into a stage file: content and permission bits. */
    method CopyToStage(src: Path, fault: CopyFault) returns (t: Option<Ino>)
      requires fs.Valid()
      modifies this
      ensures t == if src in old(fs).names && fault.Copied? then Some(old(fs.next)) else None
      ensures fs == if src in old(fs).names && !fault.NotStaged?
                    then old(fs.Create(Stage(fs.next), StageNode(fs.nodes[fs.names[src]], fault))) else old(fs)
    {
      t := None;
      if src in fs.names && !fault.NotStaged? {
        if fault.Copied? {
          t := Some(fs.next);
        }
        fs := fs.Create(Stage(fs.next), StageNode(fs.nodes[fs.names[src]], fault));
      }
    }

    method HardLink(src: Path, dst: Path) returns (ok: bool)
      modifies this
      ensures ok == old(fs.CanLink(src, dst))
      ensures fs == if ok then old(fs).Link(src, dst) else old(fs)
    {
      ok := fs.CanLink(src, dst);
      if ok {
        fs := fs.Link(src, dst);
      }
    }

    method Remove(p: Path)
      modifies this
      ensures fs == old(fs).Unlink(p)
    {
      fs := fs.Unlink(p);
    }

    method SetMode(p: Path, mode: Mode)
      requires p in fs.names && fs.names[p] in fs.nodes
      modifies this
      ensures fs == old(fs.Chmod(fs.names[p], mode))
    {
      fs := fs.Chmod(fs.names[p], mode);
    }

    method Rename(src: Path, dst: Path)
      requires src in fs.names
      modifies this
      ensures fs == old(fs).Rename(src, dst)
    {
      fs := fs.Rename(src, dst);
    }
  }

  // ─── What acquiring a slot means ──────────────────────────────────────────

  predicate Full(fs: Fs, limit: nat, d: Digest, k: nat) {
    Object(d, k) in fs.names && fs.LinksAt(Object(d, k)) >= limit
  }

  function SlotsFrom(fs: Fs, d: Digest, k: nat): set<Path> {
    set p | p in fs.names && p.Object? && p.digest == d && p.idx >= k
  }

  lemma FewerSlots(fs: Fs, d: Digest, k: nat)
    requires Object(d, k) in fs.names
    ensures |SlotsFrom(fs, d, k + 1)| < |SlotsFrom(fs, d, k)|
  {
    assert SlotsFrom(fs, d, k) == SlotsFrom(fs, d, k + 1) + {Object(d, k)};
  }

  /** The least index from `k` on whose slot is missing or has room. */
  function OpenIndex(fs: Fs, limit: nat, d: Digest, k: nat): (r: nat)
    ensures r >= k && !Full(fs, limit, d, r)
    ensures forall j :: k <= j < r ==> Full(fs, limit, d, j)
    decreases |SlotsFrom(fs, d, k)|
  {
    if !Full(fs, limit, d, k) then k
    else
      FewerSlots(fs, d, k);
      OpenIndex(fs, limit, d, k + 1)
  }

  /** The filesystem after slot `k` has been made by copying slot `k - 1`. */
  function Spilled(fs: Fs, d: Digest, k: nat): Fs
    requires k > 0 && Object(d, k - 1) in fs.names && fs.names[Object(d, k - 1)] in fs.nodes
  {
    fs.Create(Object(d, k), fs.nodes[fs.names[Object(d, k - 1)]])
  }

  /** Acquiring changes nothing but the spill slot it may have to make. */
  function AcquiredFs(fs: Fs, limit: nat, d: Digest): Fs
    requires fs.Valid()
  {
    var k := OpenIndex(fs, limit, d, 0);
    if k == 0 || Object(d, k) in fs.names then fs
    else
      assert Full(fs, limit, d, k - 1);
      Spilled(fs, d, k)
  }

  /** The indices of `d`'s slots run from 0 without a gap. */
  ghost predicate ContiguousSlots(fs: Fs, d: Digest) {
    forall k: nat, j: nat :: Object(d, k) in fs.names && j < k ==> Object(d, j) in fs.names
  }

  /** A spill adds one slot, with the content and mode of the one before and a single link, and
      changes nothing else. */
  ghost predicate OneMoreSlot(fs: Fs, a: Fs, d: Digest, k: nat) {
    && k > 0 && Object(d, k - 1) in fs.names && fs.names[Object(d, k - 1)] in fs.nodes
    && a.names == fs.names[Object(d, k) := fs.next]
    && a.nodes == fs.nodes[fs.next := fs.nodes[fs.names[Object(d, k - 1)]]]
    && (forall i: Ino :: a.Links(i) == if i == fs.next then 1 else fs.Links(i))
  }

  lemma SpillAddsOne(fs: Fs, d: Digest, k: nat)
    requires fs.Valid() && k > 0 && Object(d, k - 1) in fs.names && Object(d, k) !in fs.names
    ensures OneMoreSlot(fs, Spilled(fs, d, k), d, k)
  {
    CreateCounts(fs, Object(d, k), fs.nodes[fs.names[Object(d, k - 1)]]);
  }

  /** On contiguous slots acquiring returns the lowest slot with room and changes nothing; or,
      when every slot is full, one more with the same content and a single link, and changes
      nothing else; or index 0 when there is no slot at all. */
  lemma AcquireResult(fs: Fs, limit: nat, d: Digest)
    requires WellFormed(fs) && ContiguousSlots(fs, d)
    ensures var k, a := OpenIndex(fs, limit, d, 0), AcquiredFs(fs, limit, d);
      && (forall j :: 0 <= j < k ==> Object(d, j) in fs.names && fs.LinksAt(Object(d, j)) >= limit)
      && (if Object(d, k) in fs.names then
            a == fs && fs.LinksAt(Object(d, k)) < limit
          else
            && (forall j: nat :: Object(d, j) in fs.names ==> j < k)
            && (if k == 0 then a == fs else OneMoreSlot(fs, a, d, k)))
  {
    hide OneStoreName, OneMoreSlot, Spilled;
    var k := OpenIndex(fs, limit, d, 0);
    forall j | 0 <= j < k ensures Object(d, j) in fs.names && fs.LinksAt(Object(d, j)) >= limit {
      assert Full(fs, limit, d, j);
    }
    assert !Full(fs, limit, d, k);
    if k > 0 && Object(d, k) !in fs.names {
      SpillAddsOne(fs, d, k);
    }
  }

  datatype SlotRef = SlotRef(digest: Digest, idx: nat) {
    function Path(): Path { Object(digest, idx) }
  }

  class CasStore {
    const disk: Disk
    const maxLinksPerSlot: nat

    constructor (disk: Disk, maxLinksPerSlot: nat)
      ensures this.disk == disk && this.maxLinksPerSlot == maxLinksPerSlot
    {
      this.disk := disk;
      this.maxLinksPerSlot := maxLinksPerSlot;
    }

    /** Probes slot 0, and slot 1 when that is missing. */
    method Lookup(d: Digest) returns (r: Option<SlotRef>)
      ensures r == Lookup2(disk.fs, d)
    {
      var k := 0;
      while true
        invariant k <= 1
        invariant k == 1 ==> Object(d, 0) !in disk.fs.names
        decreases 1 - k
      {
        if disk.Exists(Object(d, k)) {
          return Some(SlotRef(d, k));
        }
        if k > 0 {
          break;
        }
        k := k + 1;
      }
      r := None;
    }

    method AcquireSlot(d: Digest) returns (r: SlotRef)
      requires WellFormed(disk.fs)
      modifies disk
      ensures r == SlotRef(d, OpenIndex(old(disk.fs), maxLinksPerSlot, d, 0))
      ensures disk.fs == AcquiredFs(old(disk.fs), maxLinksPerSlot, d)
    {
      if !disk.Exists(Object(d, 0)) {
        return SlotRef(d, 0);
      }
      var k := 0;
      while true
        invariant disk.fs == old(disk.fs)
        invariant OpenIndex(disk.fs, maxLinksPerSlot, d, k) == OpenIndex(disk.fs, maxLinksPerSlot, d, 0)
        invariant Object(d, k) in disk.fs.names
        decreases |SlotsFrom(disk.fs, d, k)|
      {
        if !disk.Exists(Object(d, k)) {
          assert false; // alone, nobody can have taken it away; module Protocol has the race
        }
        if disk.fs.LinksAt(Object(d, k)) < maxLinksPerSlot {
          return SlotRef(d, k);
        }
        FewerSlots(disk.fs, d, k);
        k := k + 1;
        if !disk.Exists(Object(d, k)) {
          r := SpillSlot(SlotRef(d, k - 1));
          return;
        }
      }
    }

    /** Copies `current` to its next sibling, by way of a stage file; reuses the sibling if it is
        there already. */
    method SpillSlot(current: SlotRef) returns (r: SlotRef)
      requires WellFormed(disk.fs) && current.Path() in disk.fs.names
      modifies disk
      ensures r == SlotRef(current.digest, current.idx + 1)
      ensures disk.fs == if r.Path() in old(disk.fs).names then old(disk.fs)
                         else Spilled(old(disk.fs), r.digest, r.idx)
    {
      r := SlotRef(current.digest, current.idx + 1);
      if disk.Exists(r.Path()) {
        return;
      }
      var t := disk.CopyToStage(current.Path(), Copied);
      assert Stage(t.value) !in old(disk.fs).names;
      if disk.Exists(r.Path()) {
        assert false; // alone, nobody can have made it meanwhile; module Protocol has the race
      } else {
        disk.Rename(Stage(t.value), r.Path());
        assert disk.fs.names == Spilled(old(disk.fs), r.digest, r.idx).names;
      }
    }
  }

  // ─── Lookup ───────────────────────────────────────────────────────────────

  function Lookup2(fs: Fs, d: Digest): Option<SlotRef> {
    if Object(d, 0) in fs.names then Some(SlotRef(d, 0))
    else if Object(d, 1) in fs.names then Some(SlotRef(d, 1))
    else None
  }

  /** The lowest slot of `d`, found by an unbounded scan. */
  ghost predicate IsLowestSlot(fs: Fs, d: Digest, r: Option<SlotRef>) {
    match r
    case Some(slot) => slot.digest == d && slot.Path() in fs.names && forall j :: 0 <= j < slot.idx ==> Object(d, j) !in fs.names
    case None => forall j: nat :: Object(d, j) !in fs.names
  }

  /** The two probes find the lowest slot exactly when some slot of the digest is at index 0 or 1
      or there is none; on stores with contiguous indices that is always so. */
  lemma LookupIsScan(fs: Fs, d: Digest)
    ensures IsLowestSlot(fs, d, Lookup2(fs, d)) <==>
            (Object(d, 0) in fs.names || Object(d, 1) in fs.names || forall j: nat :: Object(d, j) !in fs.names)
    ensures (forall k: nat, j: nat :: Object(d, k) in fs.names && j < k ==> Object(d, j) in fs.names) ==>
            IsLowestSlot(fs, d, Lookup2(fs, d))
  {
    if forall k: nat, j: nat :: Object(d, k) in fs.names && j < k ==> Object(d, j) in fs.names {
      assert forall k: nat :: Object(d, k) in fs.names && 0 < k ==> Object(d, 0) in fs.names;
    }
  }
}
