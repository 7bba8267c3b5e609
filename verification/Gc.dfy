/** The two-stage quarantine collector, run alone: sweeps over `objects/` and `quarantine/`. */
module Gc {
  import opened Filesystem
  import opened Names
  import opened Store

  const DEFAULT_COOLDOWN_SECS: nat := 600

  datatype Entry = Entry(ts: nat, digest: Digest, idx: nat) {
    function Path(): Path { Quarantine(ts, digest, idx) }

    function Slot(): Path { Object(digest, idx) }

    function FileName(): string { QuarantineName(ts, SlotName(Hex(digest), idx)) }

    /** Written by the engine: a 32-byte digest and a timestamp that fits in 64 bits. */
    predicate Valid() { |digest| == 32 && ts < U64_LIMIT }

    function Age(now: nat): nat { if now >= ts then now - ts else 0 }
  }

  datatype GcDecision =
    | Quarantined(entry: Entry)
    | Resurrected(slot: SlotRef)
    | Purged(bytesFreed: nat)
    | SkippedActive(linkCount: nat)
    | SkippedCooling(remainingSecs: nat)

  datatype GcStats = GcStats(quarantined: nat, resurrected: nat, purged: nat, bytesFreed: nat, skippedActive: nat) {
    function Count(d: GcDecision): GcStats {
      match d
      case Quarantined(_) => this.(quarantined := quarantined + 1)
      case Resurrected(_) => this.(resurrected := resurrected + 1)
      case Purged(bytes) => this.(purged := purged + 1, bytesFreed := bytesFreed + bytes)
      case SkippedActive(_) => this.(skippedActive := skippedActive + 1)
      case SkippedCooling(_) => this
    }
  }

  const NO_STATS := GcStats(0, 0, 0, 0, 0)

  // ─── One slot, one entry ──────────────────────────────────────────────────

  function SlotDecision(fs: Fs, slot: SlotRef, now: nat): GcDecision {
    if slot.Path() !in fs.names then SkippedActive(0)
    else if fs.LinksAt(slot.Path()) > 1 then SkippedActive(fs.LinksAt(slot.Path()))
    else Quarantined(Entry(now, slot.digest, slot.idx))
  }

  function AfterSlot(fs: Fs, slot: SlotRef, now: nat): Fs {
    if SlotDecision(fs, slot, now).Quarantined? then fs.Rename(slot.Path(), Quarantine(now, slot.digest, slot.idx)) else fs
  }

  function EntryDecision(fs: Fs, e: Entry, now: nat, cooldownSecs: nat): GcDecision
    requires fs.Valid()
  {
    if e.Age(now) < cooldownSecs * 1_000 then SkippedCooling((cooldownSecs * 1_000 - e.Age(now)) / 1_000)
    else if e.Path() !in fs.names then Purged(0)
    else if fs.LinksAt(e.Path()) > 1 then Resurrected(SlotRef(e.digest, e.idx))
    else Purged(|fs.DataAt(e.Path())|)
  }

  function AfterEntry(fs: Fs, e: Entry, now: nat, cooldownSecs: nat): Fs
    requires fs.Valid()
  {
    match EntryDecision(fs, e, now, cooldownSecs)
    case Resurrected(_) => fs.Rename(e.Path(), e.Slot())
    case Purged(_) => fs.Unlink(e.Path())
    case _ => fs
  }

  // ─── Whole sweeps; `clock[i]` is the reading taken for item `i` ───────────

  ghost function AfterSlots(fs: Fs, slots: seq<SlotRef>, clock: seq<nat>): (Fs, GcStats)
    requires |clock| == |slots|
  {
    if slots == [] then (fs, NO_STATS)
    else
      var n := |slots| - 1;
      var (before, stats) := AfterSlots(fs, slots[..n], clock[..n]);
      (AfterSlot(before, slots[n], clock[n]), stats.Count(SlotDecision(before, slots[n], clock[n])))
  }

  ghost function AfterEntries(fs: Fs, es: seq<Entry>, clock: seq<nat>, cooldownSecs: nat): (r: (Fs, GcStats))
    requires |clock| == |es| && fs.Valid()
    ensures r.0.Valid() && r.0.nodes == fs.nodes && r.0.next == fs.next
  {
    if es == [] then (fs, NO_STATS)
    else
      var n := |es| - 1;
      var (before, stats) := AfterEntries(fs, es[..n], clock[..n], cooldownSecs);
      (AfterEntry(before, es[n], clock[n], cooldownSecs), stats.Count(EntryDecision(before, es[n], clock[n], cooldownSecs)))
  }

  class QuarantineGc {
    const store: CasStore
    const cooldownSecs: nat

    constructor (store: CasStore, cooldownSecs: nat)
      ensures this.store == store && this.cooldownSecs == cooldownSecs
    {
      this.store := store;
      this.cooldownSecs := cooldownSecs;
    }

    /** `slots` is what reading the directories of `objects/` lists. */
    method SweepObjects(slots: seq<SlotRef>, clock: seq<nat>) returns (stats: GcStats)
      requires |clock| == |slots|
      modifies store.disk
      ensures (store.disk.fs, stats) == AfterSlots(old(store.disk.fs), slots, clock)
    {
      stats := NO_STATS;
      for i := 0 to |slots|
        invariant (store.disk.fs, stats) == AfterSlots(old(store.disk.fs), slots[..i], clock[..i])
      {
        assert slots[..i + 1][..i] == slots[..i] && clock[..i + 1][..i] == clock[..i];
        var decision := EvaluateObjectsSlot(slots[i], clock[i]);
        stats := stats.Count(decision);
      }
      assert slots[..|slots|] == slots && clock[..|clock|] == clock;
    }

    method EvaluateObjectsSlot(slot: SlotRef, now: nat) returns (d: GcDecision)
      modifies store.disk
      ensures d == SlotDecision(old(store.disk.fs), slot, now)
      ensures store.disk.fs == AfterSlot(old(store.disk.fs), slot, now)
    {
      var disk := store.disk;
      if !disk.Exists(slot.Path()) {
        return SkippedActive(0);
      }
      var linkCount := disk.fs.LinksAt(slot.Path());
      if linkCount > 1 {
        return SkippedActive(linkCount);
      }
      disk.Rename(slot.Path(), Quarantine(now, slot.digest, slot.idx));
      d := Quarantined(Entry(now, slot.digest, slot.idx));
    }

    method SweepQuarantine(es: seq<Entry>, clock: seq<nat>) returns (stats: GcStats)
      requires |clock| == |es| && store.disk.fs.Valid()
      requires (forall e <- es :: e.Valid()) && forall now <- clock :: now < U64_LIMIT
      modifies store.disk
      ensures (store.disk.fs, stats) == AfterEntries(old(store.disk.fs), es, clock, cooldownSecs)
    {
      stats := NO_STATS;
      for i := 0 to |es|
        invariant (store.disk.fs, stats) == AfterEntries(old(store.disk.fs), es[..i], clock[..i], cooldownSecs)
      {
        assert es[..i + 1][..i] == es[..i] && clock[..i + 1][..i] == clock[..i];
        assert clock[i] in clock;
        var decision := EvaluateQuarantineEntry(es[i], clock[i]);
        stats := stats.Count(decision);
      }
      assert es[..|es|] == es && clock[..|clock|] == clock;
    }

    /** Age and destination are read off the file name. */
    method EvaluateQuarantineEntry(e: Entry, now: nat) returns (d: GcDecision)
      requires store.disk.fs.Valid() && e.Valid() && now < U64_LIMIT
      modifies store.disk
      ensures d == EntryDecision(old(store.disk.fs), e, now, cooldownSecs)
      ensures store.disk.fs == AfterEntry(old(store.disk.fs), e, now, cooldownSecs)
    {
      var disk, fileName := store.disk, e.FileName();
      QuarantineNameRoundTrip(e.ts, e.digest, e.idx, now);
      var ageMs, cooldownMs := EntryAgeMs(fileName, now), cooldownSecs * 1_000;
      if ageMs < cooldownMs {
        return SkippedCooling((cooldownMs - ageMs) / 1_000);
      }
      if !disk.Exists(e.Path()) {
        assert disk.fs.names - {e.Path()} == disk.fs.names;
        return Purged(0);
      }
      var linkCount, size := disk.fs.LinksAt(e.Path()), |disk.fs.DataAt(e.Path())|;
      if linkCount > 1 {
        var (shard, slotName) := ReviveTarget(fileName);
        assert OnDisk(e.Slot()) == ("objects/" + shard, slotName);
        disk.Rename(e.Path(), e.Slot());
        return Resurrected(SlotRef(e.digest, e.idx));
      }
      disk.Remove(e.Path());
      d := Purged(size);
    }
  }
}
