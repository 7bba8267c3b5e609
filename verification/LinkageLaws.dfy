/** What publishing and linking do for a caller: sharing, placement of links, bytes and modes. */
module LinkageLaws {
  import opened Filesystem
  import opened Store
  import opened Linkage

  const FINE := LinkIo(Fine, Fine)
  const PUBLISH_FINE := PublishIo(Copied, Fine, Fine)

  // ─── Sharing ──────────────────────────────────────────────────────────────

  /** Already, before the call, the target is the very inode it would be linked to. */
  predicate AlreadyThere(fs: Fs, slot: Path, w: WorkPath) {
    slot in fs.names && File(w) in fs.names && fs.names[File(w)] == fs.names[slot]
  }

  lemma SwapNames(fs: Fs, slot: Path, w: WorkPath)
    requires slot in fs.names && slot.Object? && TmpLink(w) !in fs.names
    ensures fs.Link(slot, TmpLink(w)).Rename(TmpLink(w), File(w)).names ==
            fs.names[(if AlreadyThere(fs, slot, w) then TmpLink(w) else File(w)) := fs.names[slot]]
  {
    var linked := fs.Link(slot, TmpLink(w));
    assert linked.names - {TmpLink(w)} == fs.names;
  }

  function Swapped(fs: Fs, slot: Path, w: WorkPath): Fs
    requires fs.Valid() && slot in fs.names && TmpLink(w) !in fs.names
  {
    Enforced(Stripped(fs, w).Link(slot, TmpLink(w)).Rename(TmpLink(w), File(w)), slot)
  }

  /** A link that does not succeed leaves what acquiring and unlocking did. */
  lemma LinkForms(fs: Fs, limit: nat, w: WorkPath, d: Digest, io: LinkIo)
    requires WellFormed(fs)
    ensures var a, slot := AcquiredFs(fs, limit, d), SlotFor(fs, limit, d).Path();
            WellFormed(a) && LinkedFs(fs, limit, w, d, io) == if LinkSucceeds(fs, limit, w, d, io) then Swapped(a, slot, w) else Stripped(a, w)
  {
    AcquireKeepsValid(fs, limit, d);
    hide OpenIndex, AcquiredFs, OneStoreName;
    var ready, slot := Stripped(AcquiredFs(fs, limit, d), w), SlotFor(fs, limit, d).Path();
    if ready.CanLink(slot, TmpLink(w)) {
      assert ready.Link(slot, TmpLink(w)).Unlink(TmpLink(w)).names == ready.names;
    }
  }

  /** Unlocking and swapping keep every byte; they are about names and modes. */
  lemma FormsKeepBytes(a: Fs, slot: Path, w: WorkPath)
    requires a.Valid()
    ensures SameFiles(a, Stripped(a, w))
    ensures slot in a.names && TmpLink(w) !in a.names ==> SameFiles(a, Swapped(a, slot, w))
  {
  }

  /** The same files: all but names and modes is the same. */
  ghost predicate SameFiles(fs: Fs, fs': Fs) {
    && fs'.next == fs.next && fs'.nodes.Keys == fs.nodes.Keys
    && forall i <- fs.nodes :: fs'.nodes[i].data == fs.nodes[i].data && fs'.nodes[i].closed == fs.nodes[i].closed
  }

  /** A link gives the target the slot's inode and moves no other name, except that a target that
      already is the slot's inode keeps it and its `.tmp_link` sibling stays behind.  No file's
      bytes change. */
  lemma LinkShares(fs: Fs, limit: nat, w: WorkPath, d: Digest)
    requires WellFormed(fs) && LinkSucceeds(fs, limit, w, d, FINE)
    ensures var fs', a, slot := LinkedFs(fs, limit, w, d, FINE), AcquiredFs(fs, limit, d), SlotFor(fs, limit, d).Path();
      && slot in a.names && fs'.names[slot] == a.names[slot] && a.names[slot] in a.nodes
      && fs'.names == a.names[(if AlreadyThere(fs, slot, w) then TmpLink(w) else File(w)) := a.names[slot]]
      && SameFiles(a, fs')
  {
    hide OpenIndex, AcquiredFs, OneStoreName, LinkedFs, SameFiles;
    AcquireKeepsValid(fs, limit, d);
    LinkForms(fs, limit, w, d, FINE);
    var a, slot := AcquiredFs(fs, limit, d), SlotFor(fs, limit, d).Path();
    FormsKeepBytes(a, slot, w);
    SwapNames(Stripped(a, w), slot, w);
    assert AlreadyThere(Stripped(a, w), slot, w) <==> AlreadyThere(fs, slot, w);
  }

  lemma RetargetCounts(fs: Fs, fs': Fs, p: Path, i: Ino)
    requires fs'.names == fs.names[p := i] && (p in fs.names ==> fs.names[p] != i)
    ensures fs'.Links(i) == fs.Links(i) + 1
    ensures forall x: Ino :: x != i ==> fs'.Links(x) == fs.Links(x) - if p in fs.names && fs.names[p] == x then 1 else 0
  {
    assert fs'.NamesOf(i) == fs.NamesOf(i) + {p};
    forall x: Ino | x != i
      ensures fs'.Links(x) == fs.Links(x) - if p in fs.names && fs.names[p] == x then 1 else 0
    {
      assert fs'.NamesOf(x) == fs.NamesOf(x) - {p};
    }
  }

  /** Publishing changes no byte of any file, and every file it makes is new, whichever of its
      calls fail. */
  lemma PublishKeepsBytes(fs: Fs, limit: nat, w: WorkPath, d: Digest, io: PublishIo, i: Ino)
    requires WellFormed(fs) && i < fs.next
    ensures var p := PublishedFs(fs, limit, w, d, io);
            (i in p.nodes <==> i in fs.nodes) && (i in fs.nodes ==> p.nodes[i].data == fs.nodes[i].data)
  {
    AcquireKeepsValid(fs, limit, d);
    AcquireIsNew(fs, limit, d, i);
    hide AcquiredFs, OpenIndex, OneStoreName;
  }

  /** Neither does linking. */
  lemma LinkKeepsBytes(fs: Fs, limit: nat, w: WorkPath, d: Digest, io: LinkIo, i: Ino)
    requires WellFormed(fs) && i < fs.next
    ensures var l := LinkedFs(fs, limit, w, d, io);
            (i in l.nodes <==> i in fs.nodes) && (i in fs.nodes ==> l.nodes[i].data == fs.nodes[i].data)
  {
    AcquireKeepsValid(fs, limit, d);
    AcquireIsNew(fs, limit, d, i);
    LinkForms(fs, limit, w, d, io);
    FormsKeepBytes(AcquiredFs(fs, limit, d), SlotFor(fs, limit, d).Path(), w);
    hide LinkedFs, AcquiredFs, OpenIndex, WellFormed, Stripped, Swapped;
  }

  lemma AcquireIsNew(fs: Fs, limit: nat, d: Digest, i: Ino)
    requires WellFormed(fs) && i < fs.next
    ensures i in AcquiredFs(fs, limit, d).nodes <==> i in fs.nodes
  {
  }

  /** Publishing takes no name away. */
  lemma PublishKeepsNames(fs: Fs, limit: nat, w: WorkPath, d: Digest, io: PublishIo, p: Path)
    requires WellFormed(fs) && p in fs.names
    ensures p in PublishedFs(fs, limit, w, d, io).names && PublishedFs(fs, limit, w, d, io).names[p] == fs.names[p]
  {
    AcquireKeepsValid(fs, limit, d);
    assert Stage(fs.next) !in fs.names;
    hide AcquiredFs, OpenIndex, OneStoreName;
  }

  /** Linking takes no name away but the target's old one. */
  lemma LinkKeepsNames(fs: Fs, limit: nat, w: WorkPath, d: Digest, io: LinkIo, p: Path)
    requires WellFormed(fs) && p in fs.names
    ensures p in LinkedFs(fs, limit, w, d, io).names
    ensures p != File(w) ==> LinkedFs(fs, limit, w, d, io).names[p] == fs.names[p]
  {
    var a, slot := AcquiredFs(fs, limit, d), SlotFor(fs, limit, d).Path();
    AcquireKeepsValid(fs, limit, d);
    LinkForms(fs, limit, w, d, io);
    if LinkSucceeds(fs, limit, w, d, io) {
      SwapNames(Stripped(a, w), slot, w);
    }
    hide LinkedFs, AcquiredFs, OpenIndex, OneStoreName;
  }

  // ─── Where links go ───────────────────────────────────────────────────────

  /** The target is not linked into the store, and nothing is in the way of its temporary link. */
  ghost predicate Fresh(fs: Fs, w: WorkPath) {
    && TmpLink(w) !in fs.names
    && (File(w) in fs.names ==> forall p :: p in fs.names && InStore(p) ==> fs.names[p] != fs.names[File(w)])
  }

  /** The digest has `q` slots that are full and one more with `1 + r` links; a slot that is yet
      to get its first target does not exist, but for the master. */
  ghost predicate Placed(fs: Fs, limit: nat, d: Digest, q: nat, r: nat) {
    && (forall k: nat :: k < q ==> Object(d, k) in fs.names && fs.LinksAt(Object(d, k)) == limit)
    && (r > 0 || q == 0 ==> Object(d, q) in fs.names && fs.LinksAt(Object(d, q)) == 1 + r)
    && (r == 0 && q > 0 ==> Object(d, q) !in fs.names)
    && (forall k: nat :: k > q ==> Object(d, k) !in fs.names)
  }

  lemma NextSlot(fs: Fs, limit: nat, d: Digest, w: WorkPath, q: nat, r: nat)
    requires WellFormed(fs) && Fresh(fs, w) && limit >= 2 && r < limit - 1 && Placed(fs, limit, d, q, r)
    ensures SlotFor(fs, limit, d).idx == q
    ensures LinkSucceeds(fs, limit, w, d, FINE)
  {
    assert !Full(fs, limit, d, q);
    AcquireKeepsValid(fs, limit, d);
    AcquireCounts(fs, limit, d, q, r);
  }

  /** Slot `q` is there and has room; those below are full, and there is none above. */
  ghost predicate Roomy(fs: Fs, limit: nat, d: Digest, q: nat, r: nat) {
    && (forall k: nat :: k < q ==> Object(d, k) in fs.names && fs.LinksAt(Object(d, k)) == limit)
    && Object(d, q) in fs.names && fs.LinksAt(Object(d, q)) == 1 + r
    && (forall k: nat :: k > q ==> Object(d, k) !in fs.names)
  }

  lemma LinkFills(a: Fs, fs': Fs, limit: nat, d: Digest, w: WorkPath, q: nat, r: nat)
    requires OneStoreName(a) && limit >= 2 && r < limit - 1 && Roomy(a, limit, d, q, r)
    requires File(w) in a.names ==> forall k :: Object(d, k) in a.names ==> a.names[Object(d, k)] != a.names[File(w)]
    requires fs'.names == a.names[File(w) := a.names[Object(d, q)]]
    ensures if r + 1 == limit - 1 then Placed(fs', limit, d, q + 1, 0) else Placed(fs', limit, d, q, r + 1)
  {
    RetargetCounts(a, fs', File(w), a.names[Object(d, q)]);
    assert InStore(Object(d, q));
    forall k: nat | k < q ensures fs'.LinksAt(Object(d, k)) == limit {
      assert InStore(Object(d, k));
    }
  }

  /** The next link goes to slot `q`, which is made for it if it is missing. */
  lemma NextLink(fs: Fs, limit: nat, d: Digest, w: WorkPath, q: nat, r: nat)
    requires WellFormed(fs) && Fresh(fs, w) && limit >= 2 && r < limit - 1 && Placed(fs, limit, d, q, r)
    ensures SlotFor(fs, limit, d).idx == q
    ensures LinkSucceeds(fs, limit, w, d, FINE)
    ensures var fs' := LinkedFs(fs, limit, w, d, FINE);
            if r + 1 == limit - 1 then Placed(fs', limit, d, q + 1, 0) else Placed(fs', limit, d, q, r + 1)
  {
    NextSlot(fs, limit, d, w, q, r);
    AcquireCounts(fs, limit, d, q, r);
    hide LinkedFs, AcquiredFs, OpenIndex, LinkSucceeds, Placed, Roomy;
    var a := AcquiredFs(fs, limit, d);
    LinkShares(fs, limit, w, d);
    AcquireKeepsValid(fs, limit, d);
    NotASlot(fs, limit, d, w);
    LinkFills(a, LinkedFs(fs, limit, w, d, FINE), limit, d, w, q, r);
  }

  /** A fresh target is no slot, the one just made included. */
  lemma NotASlot(fs: Fs, limit: nat, d: Digest, w: WorkPath)
    requires WellFormed(fs) && Fresh(fs, w)
    ensures var a := AcquiredFs(fs, limit, d);
            File(w) in a.names ==> forall k :: Object(d, k) in a.names ==> a.names[Object(d, k)] != a.names[File(w)]
    ensures !AlreadyThere(fs, SlotFor(fs, limit, d).Path(), w)
  {
    AcquireKeepsValid(fs, limit, d);
    var a := AcquiredFs(fs, limit, d);
    forall k | File(w) in a.names && Object(d, k) in a.names ensures a.names[Object(d, k)] != a.names[File(w)] {
      assert InStore(Object(d, k));
    }
    assert InStore(SlotFor(fs, limit, d).Path());
  }

  lemma AcquireCounts(fs: Fs, limit: nat, d: Digest, q: nat, r: nat)
    requires WellFormed(fs) && limit >= 2 && r < limit - 1 && Placed(fs, limit, d, q, r)
    requires SlotFor(fs, limit, d).idx == q
    ensures Roomy(AcquiredFs(fs, limit, d), limit, d, q, r)
  {
    if Object(d, q) !in fs.names {
      CreateCounts(fs, Object(d, q), fs.nodes[fs.names[Object(d, q - 1)]]);
    }
  }

  /** Linking leaves the store well formed and every other target as fresh as it was. */
  lemma LinkKeeps(fs: Fs, limit: nat, w: WorkPath, d: Digest, v: WorkPath)
    requires WellFormed(fs) && LinkSucceeds(fs, limit, w, d, FINE) && v != w && Fresh(fs, v) && Fresh(fs, w)
    ensures WellFormed(LinkedFs(fs, limit, w, d, FINE))
    ensures Fresh(LinkedFs(fs, limit, w, d, FINE), v)
  {
    hide LinkedFs, AcquiredFs, OpenIndex, LinkSucceeds;
    AcquireKeepsValid(fs, limit, d);
    LinkShares(fs, limit, w, d);
    var a, fs', slot := AcquiredFs(fs, limit, d), LinkedFs(fs, limit, w, d, FINE), SlotFor(fs, limit, d).Path();
    assert InStore(slot);
    forall p | p in fs'.names && InStore(p) && File(v) in fs'.names
      ensures fs'.names[p] != fs'.names[File(v)]
    {
      assert p in a.names && fs'.names[p] == a.names[p];
      assert fs'.names[File(v)] == fs.names[File(v)] == a.names[File(v)];
      if p !in fs.names {
        assert p == slot && a.names[slot] == fs.next;
      }
    }
  }

  /** The filesystem after the targets have been linked one after the other. */
  ghost function LinkAll(fs: Fs, limit: nat, d: Digest, ws: seq<WorkPath>): (fs': Fs)
    requires WellFormed(fs)
  {
    if ws == [] then fs
    else
      var before := LinkAll(fs, limit, d, ws[..|ws| - 1]);
      if WellFormed(before) then LinkedFs(before, limit, ws[|ws| - 1], d, FINE) else before
  }

  /** A fresh master: slot 0 alone, with no link but its own name. */
  ghost predicate FreshMaster(fs: Fs, d: Digest) {
    && Object(d, 0) in fs.names && fs.LinksAt(Object(d, 0)) == 1
    && forall k: nat :: k > 0 ==> Object(d, k) !in fs.names
  }

  ghost predicate FreshTargets(fs: Fs, ws: seq<WorkPath>) {
    && (forall m, n :: 0 <= m < n < |ws| ==> ws[m] != ws[n])
    && (forall n :: 0 <= n < |ws| ==> Fresh(fs, ws[n]))
  }

  /** After `j` links there are `q` full slots and `r` links in the next, and the targets to come
      are fresh. */
  ghost predicate AfterLinks(fs: Fs, limit: nat, d: Digest, ws: seq<WorkPath>, j: nat, q: nat, r: nat)
    requires WellFormed(fs) && j <= |ws|
  {
    var fs' := LinkAll(fs, limit, d, ws[..j]);
    && WellFormed(fs') && Placed(fs', limit, d, q, r)
    && forall n :: j <= n < |ws| ==> Fresh(fs', ws[n])
  }

  /** After `j` links the slots are as full as division says. */
  lemma {:induction false} LinkAllPlaces(fs: Fs, limit: nat, d: Digest, ws: seq<WorkPath>, j: nat)
    requires WellFormed(fs) && limit >= 2 && FreshMaster(fs, d) && FreshTargets(fs, ws) && j <= |ws|
    ensures AfterLinks(fs, limit, d, ws, j, j / (limit - 1), j % (limit - 1))
  {
    hide WellFormed, AfterLinks, FreshMaster, LinkAll;
    if j == 0 {
      NoLinks(fs, limit, d, ws);
    } else {
      LinkAllPlaces(fs, limit, d, ws, j - 1);
      LinkAllStep(fs, limit, d, ws, j, (j - 1) / (limit - 1), (j - 1) % (limit - 1));
      NextQuotient(limit - 1, j);
    }
  }

  lemma NoLinks(fs: Fs, limit: nat, d: Digest, ws: seq<WorkPath>)
    requires WellFormed(fs) && limit >= 2 && FreshMaster(fs, d) && FreshTargets(fs, ws)
    ensures AfterLinks(fs, limit, d, ws, 0, 0 / (limit - 1), 0 % (limit - 1))
  {
    hide WellFormed, Placed, Fresh, FreshMaster;
    MasterIsPlaced(fs, limit, d);
    assert ws[..0] == [];
    assert 0 / (limit - 1) == 0 && 0 % (limit - 1) == 0;
  }

  lemma NextQuotient(n: nat, j: nat)
    requires n > 0 && j > 0
    ensures if (j - 1) % n + 1 == n then j / n == (j - 1) / n + 1 && j % n == 0
            else j / n == (j - 1) / n && j % n == (j - 1) % n + 1
  {
    var q, r := (j - 1) / n, (j - 1) % n;
    if r + 1 == n {
      assert j == (q + 1) * n;
      Quotient(n, q + 1, 0);
    } else {
      assert j == q * n + (r + 1);
      Quotient(n, q, r + 1);
    }
  }

  lemma Quotient(n: nat, q: nat, r: nat)
    requires r < n
    ensures (q * n + r) / n == q && (q * n + r) % n == r
  {
    var x := q * n + r;
    UniqueQuotient(n, q, r, x / n, x % n);
  }

  lemma UniqueQuotient(n: nat, q: nat, r: nat, a: nat, b: nat)
    requires r < n && b < n && q * n + r == a * n + b
    ensures a == q && b == r
  {
    if a < q {
      Multiples(n, q, a);
    } else if q < a {
      Multiples(n, a, q);
    }
  }

  lemma {:induction false} Multiples(n: nat, big: nat, small: nat)
    requires small < big
    ensures big * n >= small * n + n
  {
    assert (big - 1) * n == big * n - n;
    if small < big - 1 {
      Multiples(n, big - 1, small);
    }
  }

  lemma MasterIsPlaced(fs: Fs, limit: nat, d: Digest)
    requires FreshMaster(fs, d)
    ensures Placed(fs, limit, d, 0, 0)
  {
  }

  lemma LinkAllStep(fs: Fs, limit: nat, d: Digest, ws: seq<WorkPath>, j: nat, q: nat, r: nat)
    requires WellFormed(fs) && limit >= 2 && 0 < j <= |ws| && r < limit - 1
    requires (forall m, n :: 0 <= m < n < |ws| ==> ws[m] != ws[n]) && AfterLinks(fs, limit, d, ws, j - 1, q, r)
    ensures if r + 1 == limit - 1 then AfterLinks(fs, limit, d, ws, j, q + 1, 0) else AfterLinks(fs, limit, d, ws, j, q, r + 1)
  {
    var before, w := LinkAll(fs, limit, d, ws[..j - 1]), ws[j - 1];
    assert ws[..j][..j - 1] == ws[..j - 1];
    assert LinkAll(fs, limit, d, ws[..j]) == LinkedFs(before, limit, w, d, FINE);
    hide LinkedFs, LinkSucceeds, WellFormed, Placed, Fresh, LinkAll;
    NextLink(before, limit, d, w, q, r);
    OneLinkKeeps(before, limit, w, d);
    forall n | j <= n < |ws| ensures Fresh(LinkedFs(before, limit, w, d, FINE), ws[n]) {
      LinkKeeps(before, limit, w, d, ws[n]);
    }
  }

  lemma OneLinkKeeps(fs: Fs, limit: nat, w: WorkPath, d: Digest)
    requires WellFormed(fs) && LinkSucceeds(fs, limit, w, d, FINE)
    ensures WellFormed(LinkedFs(fs, limit, w, d, FINE))
  {
    hide LinkedFs, AcquiredFs, OpenIndex, LinkSucceeds;
    AcquireKeepsValid(fs, limit, d);
    LinkShares(fs, limit, w, d);
  }

  /** From a fresh master, the j-th link (from 0) to a fresh target goes to slot
      j div (limit - 1), and it succeeds. */
  lemma JthLinkGoesTo(fs: Fs, limit: nat, d: Digest, ws: seq<WorkPath>, j: nat)
    requires WellFormed(fs) && limit >= 2 && FreshMaster(fs, d) && FreshTargets(fs, ws) && j < |ws|
    ensures var before := LinkAll(fs, limit, d, ws[..j]);
      && WellFormed(before)
      && SlotFor(before, limit, d).idx == j / (limit - 1)
      && LinkSucceeds(before, limit, ws[j], d, FINE)
      && LinkAll(fs, limit, d, ws[..j + 1]) == LinkedFs(before, limit, ws[j], d, FINE)
  {
    var q, r := j / (limit - 1), j % (limit - 1);
    hide LinkedFs, Placed, Fresh, LinkAll, LinkSucceeds, WellFormed, FreshMaster, SlotFor;
    LinkAllPlaces(fs, limit, d, ws, j);
    NextSlot(LinkAll(fs, limit, d, ws[..j]), limit, d, ws[j], q, r);
    LinkAllLast(fs, limit, d, ws, j);
  }

  lemma LinkAllLast(fs: Fs, limit: nat, d: Digest, ws: seq<WorkPath>, j: nat)
    requires WellFormed(fs) && j < |ws| && WellFormed(LinkAll(fs, limit, d, ws[..j]))
    ensures LinkAll(fs, limit, d, ws[..j + 1]) == LinkedFs(LinkAll(fs, limit, d, ws[..j]), limit, ws[j], d, FINE)
  {
    hide WellFormed, LinkedFs;
    assert ws[..j + 1][..j] == ws[..j];
  }
}
