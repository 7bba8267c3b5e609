/** An inode filesystem: names point at inodes, and an inode's link count is the number of
    names that point at it.  Every function below is one system call. */
module Filesystem {

  type Byte = b: int | 0 <= b < 256
  type Bytes = seq<Byte>
  type Digest = seq<Byte>
  type WorkPath = string
  type Ino = nat

  /** The names the engine works with.  `TmpLink(w)` is the sibling `<w>.tmp_link`, `Stage(t)`
      a file of `tmp/` with a name that is used once, `Object(d, k)` is
      `objects/<xx>/<d>_sNNN` and `Quarantine(ts, d, k)` is `quarantine/<ts>_<d>_sNNN`.
      Module Names shows that different values of this type have different names on disk. */
  datatype Path =
    | File(w: WorkPath)
    | TmpLink(w: WorkPath)
    | Stage(t: Ino)
    | Object(digest: Digest, idx: nat)
    | Quarantine(ts: nat, digest: Digest, idx: nat)

  datatype Perm = Perm(r: bool, w: bool, x: bool)

  /** The nine permission bits of a file: owner, group, other. */
  datatype Mode = Mode(owner: Perm, group: Perm, other: Perm) {
    predicate ReadOnly() {
      !owner.w && !group.w && !other.w
    }

    predicate Executable() {
      owner.x || group.x || other.x
    }
  }

  const MODE_444 := Mode(Perm(true, false, false), Perm(true, false, false), Perm(true, false, false))
  const MODE_555 := Mode(Perm(true, false, true), Perm(true, false, true), Perm(true, false, true))
  const MODE_644 := Mode(Perm(true, true, false), Perm(true, false, false), Perm(true, false, false))

  /** `closed` records that the writer is done: from then on no step of the engine changes `data`. */
  datatype Node = Node(data: Bytes, mode: Mode, closed: bool)

  /** `next` is the serial number of the next inode to be allocated; a number is used once. */
  datatype Fs = Fs(names: map<Path, Ino>, nodes: map<Ino, Node>, next: Ino) {

    ghost predicate Valid() {
      && (forall p <- names :: names[p] in nodes)
      && (forall i <- nodes :: i < next)
    }

    function NamesOf(i: Ino): (ps: set<Path>) {
      set p | p in names && names[p] == i
    }

    /** `st_nlink` of inode `i`. */
    function Links(i: Ino): nat {
      |NamesOf(i)|
    }

    function LinksAt(p: Path): nat
      requires p in names
    {
      Links(names[p])
    }

    function DataAt(p: Path): Bytes
      requires p in names && names[p] in nodes
    {
      nodes[names[p]].data
    }

    function ModeAt(p: Path): Mode
      requires p in names && names[p] in nodes
    {
      nodes[names[p]].mode
    }

    /** Creates `p` as the only name of a new inode. */
    function Create(p: Path, node: Node): Fs {
      Fs(names[p := next], nodes[next := node], next + 1)
    }

    /** `link()`: fails when the old name is missing or the new one is taken. */
    predicate CanLink(old_: Path, new_: Path) {
      old_ in names && new_ !in names
    }

    function Link(old_: Path, new_: Path): Fs
      requires CanLink(old_, new_)
    {
      this.(names := names[new_ := names[old_]])
    }

    function Unlink(p: Path): Fs {
      this.(names := names - {p})
    }

    /** `rename()`: replaces an existing destination, and does nothing when both names already
        are the same inode. */
    function Rename(src: Path, dst: Path): Fs
      requires src in names
    {
      if dst in names && names[dst] == names[src] then this
      else this.(names := (names - {src})[dst := names[src]])
    }

    function Chmod(i: Ino, mode: Mode): Fs
      requires i in nodes
    {
      this.(nodes := nodes[i := nodes[i].(mode := mode)])
    }

    function SetData(i: Ino, data: Bytes): Fs
      requires i in nodes
    {
      this.(nodes := nodes[i := nodes[i].(data := data)])
    }

    function Close(i: Ino): Fs
      requires i in nodes
    {
      this.(nodes := nodes[i := nodes[i].(closed := true)])
    }
  }

  predicate InStore(p: Path) {
    p.Stage? || p.Object? || p.Quarantine?
  }

  /** An inode has at most one name inside `.itan_store`. */
  ghost predicate OneStoreName(fs: Fs) {
    forall p, q | p in fs.names && q in fs.names && InStore(p) && InStore(q) && fs.names[p] == fs.names[q] :: p == q
  }

  // ─── How the calls change link counts ─────────────────────────────────────

  lemma LinkCounts(fs: Fs, old_: Path, new_: Path)
    requires fs.CanLink(old_, new_)
    ensures forall i: Ino :: fs.Link(old_, new_).Links(i) == fs.Links(i) + if i == fs.names[old_] then 1 else 0
  {
    var fs' := fs.Link(old_, new_);
    forall i: Ino ensures fs'.Links(i) == fs.Links(i) + if i == fs.names[old_] then 1 else 0 {
      assert fs'.NamesOf(i) == if i == fs.names[old_] then fs.NamesOf(i) + {new_} else fs.NamesOf(i);
    }
  }

  lemma UnlinkCounts(fs: Fs, p: Path)
    requires p in fs.names
    ensures fs.Links(fs.names[p]) >= 1
    ensures forall i: Ino :: fs.Unlink(p).Links(i) == fs.Links(i) - if i == fs.names[p] then 1 else 0
  {
    var fs' := fs.Unlink(p);
    assert p in fs.NamesOf(fs.names[p]);
    forall i: Ino ensures fs'.Links(i) == fs.Links(i) - if i == fs.names[p] then 1 else 0 {
      assert fs'.NamesOf(i) == fs.NamesOf(i) - {p};
    }
  }

  /** A rename moves a name: it changes no link count but that of an inode it displaces. */
  lemma RenameCounts(fs: Fs, src: Path, dst: Path)
    requires src in fs.names
    ensures forall i: Ino :: fs.Rename(src, dst).Links(i) == fs.Links(i) - Displaced(fs, src, dst, i)
    ensures dst in fs.names ==> fs.LinksAt(dst) >= 1
  {
    forall i: Ino ensures fs.Rename(src, dst).Links(i) == fs.Links(i) - Displaced(fs, src, dst, i) {
      RenameCount(fs, src, dst, i);
    }
    if dst in fs.names {
      UnlinkCounts(fs, dst);
    }
  }

  /** 1 when the rename takes a name away from inode `i`, else 0. */
  function Displaced(fs: Fs, src: Path, dst: Path, i: Ino): nat
    requires src in fs.names
  {
    if dst in fs.names && fs.names[dst] != fs.names[src] && i == fs.names[dst] then 1 else 0
  }

  lemma RenameCount(fs: Fs, src: Path, dst: Path, i: Ino)
    requires src in fs.names
    ensures fs.Rename(src, dst).Links(i) == fs.Links(i) - Displaced(fs, src, dst, i)
  {
    var fs' := fs.Rename(src, dst);
    var before, after := fs.NamesOf(i), fs'.NamesOf(i);
    if dst in fs.names && fs.names[dst] == fs.names[src] {
    } else if i == fs.names[src] {
      assert after == (before - {src}) + {dst};
      assert src in before && dst !in before;
      assert |before - {src}| == |before| - 1;
    } else {
      assert after == before - {dst};
    }
  }

  lemma CreateCounts(fs: Fs, p: Path, node: Node)
    requires fs.Valid() && p !in fs.names
    ensures fs.Create(p, node).Links(fs.next) == 1
    ensures forall i: Ino :: i != fs.next ==> fs.Create(p, node).Links(i) == fs.Links(i)
  {
    var fs' := fs.Create(p, node);
    assert fs'.NamesOf(fs.next) == {p};
    forall i: Ino | i != fs.next ensures fs'.Links(i) == fs.Links(i) {
      assert fs'.NamesOf(i) == fs.NamesOf(i);
    }
  }

  lemma SoleName(fs: Fs, p: Path, q: Path)
    requires p in fs.names && q in fs.names && fs.names[p] == fs.names[q]
    requires fs.LinksAt(p) == 1
    ensures p == q
  {
    if p != q {
      assert {p, q} <= fs.NamesOf(fs.names[p]);
      SubsetSize({p, q}, fs.NamesOf(fs.names[p]));
    }
  }

  lemma SubsetSize<T>(a: set<T>, b: set<T>)
    requires a <= b
    ensures |a| <= |b|
  {
    assert b == a + (b - a);
  }
}
