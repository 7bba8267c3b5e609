/** What whole sweeps of the collector achieve, and what they never touch. */
module GcLaws {
  import opened Filesystem
  import opened Store
  import opened Gc
  import opened Accounting

  predicate Cooling(e: Entry, now: nat, cooldownSecs: nat) {
    e.Age(now) < cooldownSecs * 1_000
  }

  ghost predicate Distinct<T(!new)>(xs: seq<T>) {
    forall m, n :: 0 <= m < n < |xs| ==> xs[m] != xs[n]
  }

  // ─── The workspace is out of reach ────────────────────────────────────────

  predicate Outside(p: Path) {
    p.File? || p.TmpLink? || p.Stage?
  }

  ghost predicate OutsideSame(fs: Fs, fs': Fs) {
    && fs'.nodes == fs.nodes && fs'.next == fs.next
    && (forall p :: Outside(p) ==> (p in fs'.names <==> p in fs.names))
    && (forall p :: Outside(p) && p in fs.names ==> fs'.names[p] == fs.names[p])
  }

  /** Neither sweep changes a byte, a mode or a name outside `objects/` and `quarantine/`. */
  lemma {:induction false} SweepsLeaveWorkspace(fs: Fs, slots: seq<SlotRef>, es: seq<Entry>, clock: seq<nat>, cooldownSecs: nat)
    requires fs.Valid()
    ensures |clock| == |slots| ==> OutsideSame(fs, AfterSlots(fs, slots, clock).0)
    ensures |clock| == |es| ==> OutsideSame(fs, AfterEntries(fs, es, clock, cooldownSecs).0)
    decreases |slots| + |es|
  {
    if |clock| == |slots| && slots != [] {
      SweepsLeaveWorkspace(fs, slots[..|slots| - 1], [], clock[..|slots| - 1], cooldownSecs);
    }
    if |clock| == |es| && es != [] {
      SweepsLeaveWorkspace(fs, [], es[..|es| - 1], clock[..|es| - 1], cooldownSecs);
    }
  }

  // ─── The quarantine sweep ─────────────────────────────────────────────────

  /** A sweep over every entry leaves exactly those that are still cooling. */
  lemma SweepLeavesCooling(fs: Fs, es: seq<Entry>, clock: seq<nat>, cooldownSecs: nat, e: Entry)
    requires WellFormed(fs) && |clock| == |es| && Distinct(es)
    requires forall ts, d, k :: Quarantine(ts, d, k) in fs.names ==> Entry(ts, d, k) in es
    ensures e.Path() in AfterEntries(fs, es, clock, cooldownSecs).0.names <==>
            e.Path() in fs.names && exists n :: 0 <= n < |es| && es[n] == e && Cooling(e, clock[n], cooldownSecs)
  {
    if e in es {
      var n :| 0 <= n < |es| && es[n] == e;
      EntryFate(fs, es, clock, cooldownSecs, n);
    } else {
      Unlisted(fs, es, clock, cooldownSecs, e);
    }
  }

  lemma EntryKeeps(fs: Fs, e: Entry, now: nat, cooldownSecs: nat)
    requires WellFormed(fs)
    ensures WellFormed(AfterEntry(fs, e, now, cooldownSecs))
    ensures e.Path() in AfterEntry(fs, e, now, cooldownSecs).names <==>
            e.Path() in fs.names && Cooling(e, now, cooldownSecs)
  {
    assert InStore(e.Path()) && InStore(e.Slot());
  }

  lemma {:induction false} Unlisted(fs: Fs, es: seq<Entry>, clock: seq<nat>, cooldownSecs: nat, e: Entry)
    requires WellFormed(fs) && |clock| == |es| && e !in es
    ensures e.Path() in AfterEntries(fs, es, clock, cooldownSecs).0.names <==> e.Path() in fs.names
    ensures WellFormed(AfterEntries(fs, es, clock, cooldownSecs).0)
  {
    if es != [] {
      var last := |es| - 1;
      Unlisted(fs, es[..last], clock[..last], cooldownSecs, e);
      assert es[last] in es;
      EntryKeeps(AfterEntries(fs, es[..last], clock[..last], cooldownSecs).0, es[last], clock[last], cooldownSecs);
    }
  }

  lemma {:induction false} EntryFate(fs: Fs, es: seq<Entry>, clock: seq<nat>, cooldownSecs: nat, n: nat)
    requires WellFormed(fs) && |clock| == |es| && Distinct(es) && n < |es|
    ensures es[n].Path() in AfterEntries(fs, es, clock, cooldownSecs).0.names <==>
            es[n].Path() in fs.names && Cooling(es[n], clock[n], cooldownSecs)
  {
    var last := |es| - 1;
    if n < last {
      EntryFate(fs, es[..last], clock[..last], cooldownSecs, n);
      assert es[n] != es[last];
    } else {
      assert es[last] !in es[..last];
      Unlisted(fs, es[..last], clock[..last], cooldownSecs, es[n]);
      EntryKeeps(AfterEntries(fs, es[..last], clock[..last], cooldownSecs).0, es[last], clock[last], cooldownSecs);
    }
  }

  // ─── Bytes ────────────────────────────────────────────────────────────────

  /** Reviving this entry would take the last name of another inode that holds bytes. */
  predicate RevivalLosesBytes(fs: Fs, e: Entry)
    requires e.Path() in fs.names
  {
    && e.Slot() in fs.names && fs.names[e.Slot()] != fs.names[e.Path()]
    && fs.LinksAt(e.Slot()) == 1 && Size(fs, fs.names[e.Slot()]) > 0
  }

  function FreedBy(d: GcDecision): nat {
    if d.Purged? then d.bytesFreed else 0
  }

  /** The bytes that go unreported with one entry: those of the slot its revival overwrites. */
  function Overwritten(fs: Fs, e: Entry, now: nat, cooldownSecs: nat): (n: nat)
    requires fs.Valid()
    ensures n > 0 <==> EntryDecision(fs, e, now, cooldownSecs).Resurrected? && RevivalLosesBytes(fs, e)
  {
    if EntryDecision(fs, e, now, cooldownSecs).Resurrected? && RevivalLosesBytes(fs, e) then Size(fs, fs.names[e.Slot()]) else 0
  }

  /** The bytes one entry reports as freed are those the disk regains, less those of a slot that
      reviving it overwrites as the last name of its inode. */
  lemma EntryBytes(fs: Fs, e: Entry, now: nat, cooldownSecs: nat)
    requires WellFormed(fs)
    ensures Physical(AfterEntry(fs, e, now, cooldownSecs)) + FreedBy(EntryDecision(fs, e, now, cooldownSecs))
            + Overwritten(fs, e, now, cooldownSecs) == Physical(fs)
  {
    var fs', d := AfterEntry(fs, e, now, cooldownSecs), EntryDecision(fs, e, now, cooldownSecs);
    if d.Purged? && e.Path() in fs.names {
      UnlinkCounts(fs, e.Path());
      AllButOne(fs, fs', fs.next, fs.names[e.Path()]);
    } else if d.Resurrected? {
      RenameCounts(fs, e.Path(), e.Slot());
      if e.Slot() in fs.names && fs.names[e.Slot()] != fs.names[e.Path()] {
        AllButOne(fs, fs', fs.next, fs.names[e.Slot()]);
      } else {
        SameUse(fs, fs');
      }
    } else {
      assert fs'.names == fs.names;
      assert forall i :: fs'.NamesOf(i) == fs.NamesOf(i);
      SameUse(fs, fs');
    }
  }

  /** The volume as the sweep comes to entry `n`. */
  ghost function Before(fs: Fs, es: seq<Entry>, clock: seq<nat>, cooldownSecs: nat, n: nat): (before: Fs)
    requires fs.Valid() && |clock| == |es| && n <= |es|
    ensures before.Valid()
  {
    AfterEntries(fs, es[..n], clock[..n], cooldownSecs).0
  }

  /** Entry `n` is revived, and its revival takes the last name of another inode that holds bytes. */
  ghost predicate LosesAt(fs: Fs, es: seq<Entry>, clock: seq<nat>, cooldownSecs: nat, n: nat)
    requires fs.Valid() && |clock| == |es| && n < |es|
  {
    var before := Before(fs, es, clock, cooldownSecs, n);
    EntryDecision(before, es[n], clock[n], cooldownSecs).Resurrected? && RevivalLosesBytes(before, es[n])
  }

  /** A sweep, of whatever volume and listing, never reports more than the disk regains, and
      reports exactly that if and only if no revival in it takes the last name of another inode
      that holds bytes. */
  lemma {:induction false} SweepBytes(fs: Fs, es: seq<Entry>, clock: seq<nat>, cooldownSecs: nat)
    requires WellFormed(fs) && |clock| == |es|
    ensures var (fs', stats) := AfterEntries(fs, es, clock, cooldownSecs);
      && WellFormed(fs') && Physical(fs') + stats.bytesFreed <= Physical(fs)
      && (Physical(fs') + stats.bytesFreed == Physical(fs) <==>
          forall n :: 0 <= n < |es| ==> !LosesAt(fs, es, clock, cooldownSecs, n))
  {
    hide WellFormed, Physical, AfterEntry, EntryDecision, Overwritten, RevivalLosesBytes;
    assert fs.Valid() by {
      ValidIfWell(fs);
    }
    if es != [] {
      var last := |es| - 1;
      SweepBytes(fs, es[..last], clock[..last], cooldownSecs);
      var before := AfterEntries(fs, es[..last], clock[..last], cooldownSecs).0;
      EntryBytes(before, es[last], clock[last], cooldownSecs);
      EntryKeeps(before, es[last], clock[last], cooldownSecs);
      assert LosesAt(fs, es, clock, cooldownSecs, last) <==> Overwritten(before, es[last], clock[last], cooldownSecs) > 0;
      forall n | 0 <= n < last
        ensures LosesAt(fs, es, clock, cooldownSecs, n) <==> LosesAt(fs, es[..last], clock[..last], cooldownSecs, n)
      {
        SamePrefix(fs, es, clock, cooldownSecs, last, n);
      }
    }
  }

  lemma ValidIfWell(fs: Fs)
    requires WellFormed(fs)
    ensures fs.Valid()
  {
  }

  lemma SamePrefix(fs: Fs, es: seq<Entry>, clock: seq<nat>, cooldownSecs: nat, last: nat, n: nat)
    requires fs.Valid() && |clock| == |es| && n <= last <= |es|
    ensures Before(fs, es[..last], clock[..last], cooldownSecs, n) == Before(fs, es, clock, cooldownSecs, n)
  {
    assert es[..last][..n] == es[..n] && clock[..last][..n] == clock[..n];
  }

  // ─── Revival ──────────────────────────────────────────────────────────────

  ghost predicate RevivedAt(fs: Fs, es: seq<Entry>, clock: seq<nat>, cooldownSecs: nat, n: nat)
    requires fs.Valid() && |clock| == |es| && n < |es|
  {
    EntryDecision(Before(fs, es, clock, cooldownSecs, n), es[n], clock[n], cooldownSecs).Resurrected?
  }

  /** Some entry listed after `n` is revived to the same slot. */
  ghost predicate RevivedOver(fs: Fs, es: seq<Entry>, clock: seq<nat>, cooldownSecs: nat, n: nat)
    requires fs.Valid() && |clock| == |es| && n < |es|
  {
    exists m :: n < m < |es| && es[m].Slot() == es[n].Slot() && RevivedAt(fs, es, clock, cooldownSecs, m)
  }

  predicate InSlot(fs: Fs, slot: Path, i: Ino) {
    slot in fs.names && fs.names[slot] == i
  }

  /** Inode `i` has no name in the store. */
  ghost predicate Nameless(fs: Fs, i: Ino) {
    forall p <- fs.names :: InStore(p) ==> fs.names[p] != i
  }

  lemma RevivalStep(fs: Fs, e: Entry, now: nat, cooldownSecs: nat, slot: Path, i: Ino)
    requires WellFormed(fs) && slot.Object?
    ensures var fs', d := AfterEntry(fs, e, now, cooldownSecs), EntryDecision(fs, e, now, cooldownSecs);
      && (d.Resurrected? ==> e.Path() in fs.names && InSlot(fs', e.Slot(), fs.names[e.Path()]))
      && (Nameless(fs, i) ==> Nameless(fs', i))
      && (InSlot(fs, slot, i) ==> if d.Resurrected? && e.Slot() == slot then Nameless(fs', i) else InSlot(fs', slot, i))
  {
    assert InStore(e.Path()) && InStore(e.Slot()) && InStore(slot);
  }

  /** What becomes of an inode that a sweep revives: it is at its slot when the sweep is over, if
      and only if no entry listed later is revived to the same slot; if one is, the inode is left
      without a name in the store. */
  lemma {:induction false} RevivedReturns(fs: Fs, es: seq<Entry>, clock: seq<nat>, cooldownSecs: nat, n: nat)
    requires WellFormed(fs) && |clock| == |es| && n < |es| && RevivedAt(fs, es, clock, cooldownSecs, n)
    ensures es[n].Path() in Before(fs, es, clock, cooldownSecs, n).names
    ensures var fs', i := AfterEntries(fs, es, clock, cooldownSecs).0, Before(fs, es, clock, cooldownSecs, n).names[es[n].Path()];
      && WellFormed(fs')
      && (InSlot(fs', es[n].Slot(), i) <==> !RevivedOver(fs, es, clock, cooldownSecs, n))
      && (RevivedOver(fs, es, clock, cooldownSecs, n) ==> Nameless(fs', i))
  {
    hide WellFormed, AfterEntry, EntryDecision, Nameless;
    assert fs.Valid() by {
      ValidIfWell(fs);
    }
    var last := |es| - 1;
    var before, slot := AfterEntries(fs, es[..last], clock[..last], cooldownSecs).0, es[n].Slot();
    SweepBytes(fs, es[..last], clock[..last], cooldownSecs);
    EntryKeeps(before, es[last], clock[last], cooldownSecs);
    SamePrefix(fs, es, clock, cooldownSecs, last, n);
    if n < last {
      RevivedReturns(fs, es[..last], clock[..last], cooldownSecs, n);
      var i := Before(fs, es, clock, cooldownSecs, n).names[es[n].Path()];
      RevivalStep(before, es[last], clock[last], cooldownSecs, slot, i);
      RevivedOverNext(fs, es, clock, cooldownSecs, n);
      NotBoth(AfterEntries(fs, es, clock, cooldownSecs).0, slot, i);
    } else {
      RevivalStep(before, es[last], clock[last], cooldownSecs, slot, 0);
    }
  }

  lemma NotBoth(fs: Fs, slot: Path, i: Ino)
    requires slot.Object?
    ensures !(InSlot(fs, slot, i) && Nameless(fs, i))
  {
    assert InStore(slot);
  }

  lemma RevivedOverNext(fs: Fs, es: seq<Entry>, clock: seq<nat>, cooldownSecs: nat, n: nat)
    requires fs.Valid() && |clock| == |es| && n < |es| - 1
    ensures var last := |es| - 1;
            RevivedOver(fs, es, clock, cooldownSecs, n) <==>
            || RevivedOver(fs, es[..last], clock[..last], cooldownSecs, n)
            || (es[last].Slot() == es[n].Slot() && RevivedAt(fs, es, clock, cooldownSecs, last))
  {
    hide AfterEntries, EntryDecision;
    var last := |es| - 1;
    forall m | 0 <= m < last
      ensures RevivedAt(fs, es, clock, cooldownSecs, m) <==> RevivedAt(fs, es[..last], clock[..last], cooldownSecs, m)
    {
      SamePrefix(fs, es, clock, cooldownSecs, last, m);
    }
    if RevivedOver(fs, es[..last], clock[..last], cooldownSecs, n) {
      var m :| n < m < last && es[..last][m].Slot() == es[n].Slot() && RevivedAt(fs, es[..last], clock[..last], cooldownSecs, m);
      assert es[m].Slot() == es[n].Slot() && RevivedAt(fs, es, clock, cooldownSecs, m);
    }
    if RevivedOver(fs, es, clock, cooldownSecs, n) {
      var m :| n < m < |es| && es[m].Slot() == es[n].Slot() && RevivedAt(fs, es, clock, cooldownSecs, m);
      assert m < last ==> es[..last][m] == es[m];
    }
  }

  /** Two cooled entries of one slot, each with a second name, listed one after the other: the slot
      ends up with the inode of the second, and that of the first is in the store no more. */
  lemma TwoEntriesOneSlot(fs: Fs, a: Entry, b: Entry, now: nat, cooldownSecs: nat)
    requires WellFormed(fs) && a != b && a.Slot() == b.Slot()
    requires forall e <- [a, b] :: e.Path() in fs.names && fs.LinksAt(e.Path()) > 1 && !Cooling(e, now, cooldownSecs)
    ensures var fs' := AfterEntries(fs, [a, b], [now, now], cooldownSecs).0;
            InSlot(fs', a.Slot(), fs.names[b.Path()]) && Nameless(fs', fs.names[a.Path()])
  {
    var es, clock := [a, b], [now, now];
    assert a in [a, b] && b in [a, b];
    assert es[..0] == [] && es[..1] == [a] && clock[..0] == [] && clock[..1] == [now] && es[..1][..0] == [] && clock[..1][..0] == [];
    assert Before(fs, es, clock, cooldownSecs, 0) == fs;
    assert Before(fs, es, clock, cooldownSecs, 1) == AfterEntry(fs, a, now, cooldownSecs);
    OtherEntryKept(fs, a, b, now, cooldownSecs);
    hide AfterEntry, WellFormed, Nameless, InSlot;
    assert RevivedAt(fs, es, clock, cooldownSecs, 0) && RevivedAt(fs, es, clock, cooldownSecs, 1);
    assert RevivedOver(fs, es, clock, cooldownSecs, 0);
    RevivedReturns(fs, es, clock, cooldownSecs, 0);
    RevivedReturns(fs, es, clock, cooldownSecs, 1);
  }

  lemma OtherEntryKept(fs: Fs, a: Entry, b: Entry, now: nat, cooldownSecs: nat)
    requires WellFormed(fs) && a != b && EntryDecision(fs, a, now, cooldownSecs).Resurrected?
    requires b.Path() in fs.names
    ensures var fs' := AfterEntry(fs, a, now, cooldownSecs);
            b.Path() in fs'.names && fs'.names[b.Path()] == fs.names[b.Path()] && fs'.LinksAt(b.Path()) == fs.LinksAt(b.Path())
  {
    RenameCounts(fs, a.Path(), a.Slot());
    assert InStore(a.Slot()) && InStore(b.Path());
  }

  /** Such a volume. */
  lemma TwoEntriesExist() returns (fs: Fs, a: Entry, b: Entry)
    ensures WellFormed(fs) && a != b && a.Slot() == b.Slot()
    ensures forall e <- [a, b] :: e.Path() in fs.names && fs.LinksAt(e.Path()) > 1 && !Cooling(e, 1_000_000, DEFAULT_COOLDOWN_SECS)
  {
    var node := Node([], MODE_444, true);
    a, b := Entry(0, [], 0), Entry(1, [], 0);
    fs := Fs(map[a.Path() := 0, b.Path() := 1, File("a") := 0, File("b") := 1], map[0 := node, 1 := node], 2);
    assert fs.NamesOf(0) == {a.Path(), File("a")} && fs.NamesOf(1) == {b.Path(), File("b")};
  }

  // ─── The objects sweep ────────────────────────────────────────────────────

  /** Moving one slot leaves every other slot, and its link count, as it was. */
  lemma OtherSlots(fs: Fs, slot: SlotRef, now: nat, p: Path)
    requires WellFormed(fs) && p in fs.names && p != slot.Path() && p != Quarantine(now, slot.digest, slot.idx)
    ensures var fs' := AfterSlot(fs, slot, now);
      && p in fs'.names && fs'.names[p] == fs.names[p]
      && (p.Object? ==> fs'.LinksAt(p) == fs.LinksAt(p))
  {
    var q := Quarantine(now, slot.digest, slot.idx);
    if SlotDecision(fs, slot, now).Quarantined? {
      RenameCounts(fs, slot.Path(), q);
      assert InStore(q) && (p.Object? ==> InStore(p));
    }
  }

  function SweptTo(fs: Fs, slot: SlotRef, now: nat): Path
    requires slot.Path() in fs.names
  {
    if fs.LinksAt(slot.Path()) > 1 then slot.Path() else Quarantine(now, slot.digest, slot.idx)
  }

  lemma SweptSlot(fs: Fs, slot: SlotRef, now: nat)
    requires WellFormed(fs) && slot.Path() in fs.names
    ensures var fs', p := AfterSlot(fs, slot, now), SweptTo(fs, slot, now);
      && p in fs'.names && fs'.names[p] == fs.names[slot.Path()]
      && (slot.Path() in fs'.names <==> fs.LinksAt(slot.Path()) > 1)
  {
    assert InStore(slot.Path()) && InStore(Quarantine(now, slot.digest, slot.idx));
  }

  lemma SlotKeeps(fs: Fs, slot: SlotRef, now: nat)
    requires WellFormed(fs)
    ensures WellFormed(AfterSlot(fs, slot, now))
  {
    assert InStore(slot.Path()) && InStore(Quarantine(now, slot.digest, slot.idx));
  }

  lemma {:induction false} UnsweptSlot(fs: Fs, slots: seq<SlotRef>, clock: seq<nat>, slot: SlotRef)
    requires WellFormed(fs) && |clock| == |slots| && slot !in slots && slot.Path() in fs.names
    ensures var fs' := AfterSlots(fs, slots, clock).0;
      WellFormed(fs') && slot.Path() in fs'.names
      && fs'.names[slot.Path()] == fs.names[slot.Path()] && fs'.LinksAt(slot.Path()) == fs.LinksAt(slot.Path())
  {
    if slots != [] {
      var last := |slots| - 1;
      UnsweptSlot(fs, slots[..last], clock[..last], slot);
      assert slots[last] in slots;
      var before := AfterSlots(fs, slots[..last], clock[..last]).0;
      OtherSlots(before, slots[last], clock[last], slot.Path());
      SlotKeeps(before, slots[last], clock[last]);
    }
  }

  /** A sweep over every slot keeps exactly the slots with a second name, and moves each of the
      others to the quarantine entry of its own name, same inode. */
  lemma {:induction false} SweepKeepsLinked(fs: Fs, slots: seq<SlotRef>, clock: seq<nat>, n: nat)
    requires WellFormed(fs) && |clock| == |slots| && Distinct(slots) && n < |slots|
    requires slots[n].Path() in fs.names
    ensures var fs', slot, p := AfterSlots(fs, slots, clock).0, slots[n].Path(), SweptTo(fs, slots[n], clock[n]);
      && WellFormed(fs') && p in fs'.names && fs'.names[p] == fs.names[slot]
      && (slot in fs'.names <==> fs.LinksAt(slot) > 1)
  {
    var last, slot := |slots| - 1, slots[n];
    var before := AfterSlots(fs, slots[..last], clock[..last]).0;
    if n < last {
      SweepKeepsLinked(fs, slots[..last], clock[..last], n);
      hide WellFormed, AfterSlot;
      assert slots[n] != slots[last];
      OtherSlots(before, slots[last], clock[last], SweptTo(fs, slot, clock[n]));
      OtherSlot(before, slots[last], clock[last], slot.Path());
    } else {
      assert slot !in slots[..last];
      UnsweptSlot(fs, slots[..last], clock[..last], slot);
      hide WellFormed, AfterSlot;
      SweptSlot(before, slot, clock[last]);
    }
    SlotKeeps(before, slots[last], clock[last]);
  }

  lemma OtherSlot(fs: Fs, slot: SlotRef, now: nat, p: Path)
    requires p.Object? && p != slot.Path()
    ensures p in AfterSlot(fs, slot, now).names <==> p in fs.names
  {
  }

  // ─── Decisions and counters ───────────────────────────────────────────────

  /** A slot is moved exactly when its only name is its own; the timestamp is that of the look. */
  lemma SlotDecisionMeans(fs: Fs, slot: SlotRef, now: nat)
    requires fs.Valid()
    ensures var d := SlotDecision(fs, slot, now);
      && (d == Quarantined(Entry(now, slot.digest, slot.idx)) <==> slot.Path() in fs.names && fs.LinksAt(slot.Path()) == 1)
      && (d.Quarantined? || d == SkippedActive(if slot.Path() in fs.names then fs.LinksAt(slot.Path()) else 0))
  {
    if slot.Path() in fs.names {
      UnlinkCounts(fs, slot.Path());
    }
  }

  /** An entry is left alone exactly until the cooldown after its timestamp, with the whole seconds
      left; then it is revived exactly when it has a second name, and purged otherwise. */
  lemma EntryDecisionMeans(fs: Fs, e: Entry, now: nat, cooldownSecs: nat)
    requires fs.Valid()
    ensures var d, cooled := EntryDecision(fs, e, now, cooldownSecs), cooldownSecs == 0 || now >= e.ts + cooldownSecs * 1_000;
      && (d.SkippedCooling? <==> !cooled) && (Cooling(e, now, cooldownSecs) <==> !cooled)
      && (d.SkippedCooling? && now >= e.ts ==>
            now + d.remainingSecs * 1_000 <= e.ts + cooldownSecs * 1_000 < now + d.remainingSecs * 1_000 + 1_000)
      && (d == Resurrected(SlotRef(e.digest, e.idx)) <==> cooled && e.Path() in fs.names && fs.LinksAt(e.Path()) > 1)
      && (d.Purged? <==> cooled && !(e.Path() in fs.names && fs.LinksAt(e.Path()) > 1))
      && (d.Purged? ==> d.bytesFreed == if e.Path() in fs.names then |fs.DataAt(e.Path())| else 0)
  {
  }

  /** Item `n` of a listing of slots is there and has no second name. */
  predicate Movable(fs: Fs, slots: seq<SlotRef>, n: nat) {
    n < |slots| && slots[n].Path() in fs.names && fs.LinksAt(slots[n].Path()) == 1
  }

  function Movables(fs: Fs, slots: seq<SlotRef>): set<nat> {
    set n: nat | n < |slots| && Movable(fs, slots, n)
  }

  lemma SameMovable(fs: Fs, slots: seq<SlotRef>, n: nat)
    requires n < |slots| - 1
    ensures Movable(fs, slots[..|slots| - 1], n) <==> Movable(fs, slots, n)
  {
  }

  lemma MovablesNext(fs: Fs, slots: seq<SlotRef>)
    requires slots != []
    ensures var last := |slots| - 1;
            |Movables(fs, slots)| == |Movables(fs, slots[..last])| + if Movable(fs, slots, last) then 1 else 0
  {
    hide Movable;
    var last := |slots| - 1;
    forall n: nat | n < last ensures Movable(fs, slots[..last], n) <==> Movable(fs, slots, n) {
      SameMovable(fs, slots, n);
    }
    if Movable(fs, slots, last) {
      assert Movables(fs, slots) == Movables(fs, slots[..last]) + {last};
    } else {
      assert Movables(fs, slots) == Movables(fs, slots[..last]);
    }
  }

  /** `quarantined` counts the slots that the sweep found with no second name, and
      `skipped_active` all others. */
  lemma {:induction false} ObjectsCounters(fs: Fs, slots: seq<SlotRef>, clock: seq<nat>)
    requires WellFormed(fs) && |clock| == |slots| && Distinct(slots)
    ensures WellFormed(AfterSlots(fs, slots, clock).0)
    ensures var stats := AfterSlots(fs, slots, clock).1;
            stats == GcStats(|Movables(fs, slots)|, 0, 0, 0, stats.skippedActive) && stats.quarantined + stats.skippedActive == |slots|
  {
    hide WellFormed, AfterSlot, Movables, SlotDecision, Movable;
    if slots == [] {
      NoMovables(fs, slots);
    } else {
      var last := |slots| - 1;
      ObjectsCounters(fs, slots[..last], clock[..last]);
      MovablesNext(fs, slots);
      var before := AfterSlots(fs, slots[..last], clock[..last]).0;
      assert slots[last] !in slots[..last];
      SlotKeeps(before, slots[last], clock[last]);
      SlotAtItsTurn(fs, slots, clock);
    }
  }

  lemma NoMovables(fs: Fs, slots: seq<SlotRef>)
    requires slots == []
    ensures Movables(fs, slots) == {}
  {
  }

  lemma SlotAtItsTurn(fs: Fs, slots: seq<SlotRef>, clock: seq<nat>)
    requires WellFormed(fs) && |clock| == |slots| && Distinct(slots) && slots != []
    requires WellFormed(AfterSlots(fs, slots[..|slots| - 1], clock[..|slots| - 1]).0)
    ensures var last := |slots| - 1;
            var d := SlotDecision(AfterSlots(fs, slots[..last], clock[..last]).0, slots[last], clock[last]);
            if Movable(fs, slots, last) then d.Quarantined? else d.SkippedActive?
  {
    var last, slot := |slots| - 1, slots[|slots| - 1];
    var before := AfterSlots(fs, slots[..last], clock[..last]).0;
    assert slot !in slots[..last];
    SlotDecisionMeans(before, slot, clock[last]);
    if slot.Path() in fs.names {
      UnsweptSlot(fs, slots[..last], clock[..last], slot);
    } else {
      NoSlotAppears(fs, slots[..last], clock[..last], slot);
    }
  }

  lemma {:induction false} NoSlotAppears(fs: Fs, slots: seq<SlotRef>, clock: seq<nat>, slot: SlotRef)
    requires |clock| == |slots| && slot.Path() !in fs.names
    ensures slot.Path() !in AfterSlots(fs, slots, clock).0.names
  {
    if slots != [] {
      NoSlotAppears(fs, slots[..|slots| - 1], clock[..|slots| - 1], slot);
    }
  }

  /** Item `n` of a listing of entries is looked at after its cooldown. */
  predicate Cooled(es: seq<Entry>, clock: seq<nat>, cooldownSecs: nat, n: nat) {
    n < |es| == |clock| && (cooldownSecs == 0 || clock[n] >= es[n].ts + cooldownSecs * 1_000)
  }

  /** And has a second name. */
  predicate Revivable(fs: Fs, es: seq<Entry>, clock: seq<nat>, cooldownSecs: nat, n: nat) {
    Cooled(es, clock, cooldownSecs, n) && es[n].Path() in fs.names && fs.LinksAt(es[n].Path()) > 1
  }

  function AllCooled(es: seq<Entry>, clock: seq<nat>, cooldownSecs: nat): set<nat> {
    set n: nat | n < |es| && Cooled(es, clock, cooldownSecs, n)
  }

  function AllRevivable(fs: Fs, es: seq<Entry>, clock: seq<nat>, cooldownSecs: nat): set<nat> {
    set n: nat | n < |es| && Revivable(fs, es, clock, cooldownSecs, n)
  }

  lemma CooledNext(es: seq<Entry>, clock: seq<nat>, cooldownSecs: nat)
    requires es != [] && |clock| == |es|
    ensures var last := |es| - 1;
            |AllCooled(es, clock, cooldownSecs)| ==
            |AllCooled(es[..last], clock[..last], cooldownSecs)| + if Cooled(es, clock, cooldownSecs, last) then 1 else 0
  {
    var last := |es| - 1;
    forall n: nat | n < last ensures Cooled(es[..last], clock[..last], cooldownSecs, n) <==> Cooled(es, clock, cooldownSecs, n) {
    }
    hide Cooled;
    if Cooled(es, clock, cooldownSecs, last) {
      assert AllCooled(es, clock, cooldownSecs) == AllCooled(es[..last], clock[..last], cooldownSecs) + {last};
    } else {
      assert AllCooled(es, clock, cooldownSecs) == AllCooled(es[..last], clock[..last], cooldownSecs);
    }
  }

  lemma SameRevivable(fs: Fs, es: seq<Entry>, clock: seq<nat>, cooldownSecs: nat, n: nat)
    requires |clock| == |es| && n < |es| - 1
    ensures Revivable(fs, es[..|es| - 1], clock[..|es| - 1], cooldownSecs, n) <==> Revivable(fs, es, clock, cooldownSecs, n)
  {
  }

  lemma RevivableNext(fs: Fs, es: seq<Entry>, clock: seq<nat>, cooldownSecs: nat)
    requires es != [] && |clock| == |es|
    ensures var last := |es| - 1;
            |AllRevivable(fs, es, clock, cooldownSecs)| ==
            |AllRevivable(fs, es[..last], clock[..last], cooldownSecs)| + if Revivable(fs, es, clock, cooldownSecs, last) then 1 else 0
  {
    hide Revivable;
    var last := |es| - 1;
    forall n: nat | n < last
      ensures Revivable(fs, es[..last], clock[..last], cooldownSecs, n) <==> Revivable(fs, es, clock, cooldownSecs, n)
    {
      SameRevivable(fs, es, clock, cooldownSecs, n);
    }
    if Revivable(fs, es, clock, cooldownSecs, last) {
      assert AllRevivable(fs, es, clock, cooldownSecs) == AllRevivable(fs, es[..last], clock[..last], cooldownSecs) + {last};
    } else {
      assert AllRevivable(fs, es, clock, cooldownSecs) == AllRevivable(fs, es[..last], clock[..last], cooldownSecs);
    }
  }

  lemma NoneListed(fs: Fs, es: seq<Entry>, clock: seq<nat>, cooldownSecs: nat)
    requires es == []
    ensures AllCooled(es, clock, cooldownSecs) == {} && AllRevivable(fs, es, clock, cooldownSecs) == {}
  {
  }

  lemma OtherEntryStays(fs: Fs, a: Entry, b: Entry, now: nat, cooldownSecs: nat)
    requires WellFormed(fs) && a != b && b.Path() in fs.names
    ensures var fs' := AfterEntry(fs, a, now, cooldownSecs); b.Path() in fs'.names && fs'.LinksAt(b.Path()) == fs.LinksAt(b.Path())
  {
    if EntryDecision(fs, a, now, cooldownSecs).Resurrected? {
      OtherEntryKept(fs, a, b, now, cooldownSecs);
    } else if EntryDecision(fs, a, now, cooldownSecs).Purged? {
      assert InStore(a.Path()) && InStore(b.Path());
      if a.Path() in fs.names {
        UnlinkCounts(fs, a.Path());
      } else {
        assert fs.names - {a.Path()} == fs.names;
      }
    }
  }

  lemma {:induction false} EntryStays(fs: Fs, es: seq<Entry>, clock: seq<nat>, cooldownSecs: nat, e: Entry)
    requires WellFormed(fs) && |clock| == |es| && e !in es && e.Path() in fs.names
    ensures var fs' := AfterEntries(fs, es, clock, cooldownSecs).0;
            WellFormed(fs') && e.Path() in fs'.names && fs'.LinksAt(e.Path()) == fs.LinksAt(e.Path())
  {
    if es != [] {
      hide WellFormed, AfterEntry;
      var last := |es| - 1;
      ValidIfWell(fs);
      EntryStays(fs, es[..last], clock[..last], cooldownSecs, e);
      assert es[last] in es;
      var before := AfterEntries(fs, es[..last], clock[..last], cooldownSecs).0;
      OtherEntryStays(before, es[last], e, clock[last], cooldownSecs);
      EntryKeeps(before, es[last], clock[last], cooldownSecs);
    }
  }

  lemma EntryAtItsTurn(fs: Fs, es: seq<Entry>, clock: seq<nat>, cooldownSecs: nat)
    requires WellFormed(fs) && |clock| == |es| && Distinct(es) && es != []
    ensures var last := |es| - 1;
            var d := EntryDecision(AfterEntries(fs, es[..last], clock[..last], cooldownSecs).0, es[last], clock[last], cooldownSecs);
            if !Cooled(es, clock, cooldownSecs, last) then d.SkippedCooling?
            else if Revivable(fs, es, clock, cooldownSecs, last) then d.Resurrected? else d.Purged?
  {
    hide AfterEntries, EntryDecision, WellFormed;
    ValidIfWell(fs);
    var last, e := |es| - 1, es[|es| - 1];
    var before := AfterEntries(fs, es[..last], clock[..last], cooldownSecs).0;
    assert e !in es[..last];
    Unlisted(fs, es[..last], clock[..last], cooldownSecs, e);
    if e.Path() in fs.names {
      EntryStays(fs, es[..last], clock[..last], cooldownSecs, e);
    }
    ValidIfWell(before);
    EntryDecisionMeans(before, e, clock[last], cooldownSecs);
  }

  /** Of the entries looked at after their cooldown, `resurrected` counts those that the sweep found
      with a second name and `purged` all others. */
  lemma {:induction false} QuarantineCounters(fs: Fs, es: seq<Entry>, clock: seq<nat>, cooldownSecs: nat)
    requires WellFormed(fs) && |clock| == |es| && Distinct(es)
    ensures var stats := AfterEntries(fs, es, clock, cooldownSecs).1;
      && stats.quarantined == 0 && stats.skippedActive == 0
      && stats.resurrected == |AllRevivable(fs, es, clock, cooldownSecs)|
      && stats.resurrected + stats.purged == |AllCooled(es, clock, cooldownSecs)|
  {
    hide WellFormed, AfterEntry, EntryDecision, AllRevivable, AllCooled, Cooled;
    ValidIfWell(fs);
    if es == [] {
      NoneListed(fs, es, clock, cooldownSecs);
    } else {
      var last := |es| - 1;
      QuarantineCounters(fs, es[..last], clock[..last], cooldownSecs);
      CooledNext(es, clock, cooldownSecs);
      RevivableNext(fs, es, clock, cooldownSecs);
      EntryAtItsTurn(fs, es, clock, cooldownSecs);
    }
  }
}
