/** The startup sweep over `tmp/`, which removes what a crash left behind. */
module Recovery {
  import opened Accounting
  import opened Filesystem
  import opened Names
  import opened Store

  const DEFAULT_STALE_THRESHOLD_SECS: nat := 300
  const NANOS: nat := 1_000_000_000

  /** One item of the directory listing.  A file may carry no modification time, and its removal
      may be refused. */
  datatype TmpItem =
    | Unlistable
    | Listed(t: Ino, isFile: bool, mtime: Option<nat>, locked: bool)

  datatype RecoveryError = ReadDirError | StatError(path: Path) | RemoveError(path: Path)

  datatype SweepReport = SweepReport(removedCount: nat, bytesFreed: nat, errors: seq<RecoveryError>) {
    function Fail(e: RecoveryError): SweepReport {
      this.(errors := errors + [e])
    }
  }

  const EMPTY_REPORT := SweepReport(0, 0, [])

  /** file_age reaches the threshold; a file of unknown age, or of the future, counts as
      infinitely old. */
  predicate Stale(mtime: Option<nat>, now: nat, threshold: nat) {
    match mtime
    case Some(m) => now < m || now - m >= threshold
    case None => true
  }

  /** The item goes away. */
  predicate Removable(fs: Fs, item: TmpItem, now: nat, threshold: nat) {
    item.Listed? && Stage(item.t) in fs.names && item.isFile && !item.locked && Stale(item.mtime, now, threshold)
  }

  function ErrorOf(fs: Fs, item: TmpItem, now: nat, threshold: nat): seq<RecoveryError> {
    if item.Unlistable? then [ReadDirError]
    else if Stage(item.t) !in fs.names then [StatError(Stage(item.t))]
    else if item.isFile && item.locked && Stale(item.mtime, now, threshold) then [RemoveError(Stage(item.t))]
    else []
  }

  ghost function AfterSweep(fs: Fs, items: seq<TmpItem>, now: nat, threshold: nat): (r: (Fs, SweepReport))
    requires fs.Valid()
    ensures r.0.Valid() && r.0.nodes == fs.nodes && r.0.next == fs.next
    ensures forall p :: p in r.0.names ==> p in fs.names && r.0.names[p] == fs.names[p]
    ensures forall p :: p in fs.names && !p.Stage? ==> p in r.0.names
  {
    if items == [] then (fs, EMPTY_REPORT)
    else
      var item := items[|items| - 1];
      var (before, report) := AfterSweep(fs, items[..|items| - 1], now, threshold);
      if Removable(before, item, now, threshold) then
        (before.Unlink(Stage(item.t)),
         report.(removedCount := report.removedCount + 1, bytesFreed := report.bytesFreed + |before.DataAt(Stage(item.t))|))
      else
        (before, report.(errors := report.errors + ErrorOf(before, item, now, threshold)))
  }

  /** One more item. */
  lemma SweepNext(fs: Fs, items: seq<TmpItem>, i: nat, now: nat, threshold: nat)
    requires fs.Valid() && i < |items|
    ensures var (before, report) := AfterSweep(fs, items[..i], now, threshold);
            var item := items[i];
            AfterSweep(fs, items[..i + 1], now, threshold) ==
            if item.Unlistable? then (before, report.Fail(ReadDirError))
            else if Stage(item.t) !in before.names then (before, report.Fail(StatError(Stage(item.t))))
            else if !item.isFile || !Stale(item.mtime, now, threshold) then (before, report)
            else if item.locked then (before, report.Fail(RemoveError(Stage(item.t))))
            else
              (before.Unlink(Stage(item.t)),
               report.(removedCount := report.removedCount + 1, bytesFreed := report.bytesFreed + |before.DataAt(Stage(item.t))|))
  {
    assert items[..i + 1][..i] == items[..i];
    var (_, report) := AfterSweep(fs, items[..i], now, threshold);
    assert report.errors + [] == report.errors;
  }

  lemma NothingSwept(fs: Fs, items: seq<TmpItem>, now: nat, threshold: nat)
    requires fs.Valid()
    ensures AfterSweep(fs, items[..0], now, threshold) == (fs, EMPTY_REPORT)
    ensures items[..|items|] == items
  {
  }

  class StartupSweeper {
    const store: CasStore
    const staleThreshold: nat

    constructor (store: CasStore, staleThresholdSecs: nat)
      ensures this.store == store && staleThreshold == staleThresholdSecs * NANOS
    {
      this.store := store;
      this.staleThreshold := staleThresholdSecs * NANOS;
    }

    /** `listing` is what reading `tmp/` returns; nothing when it cannot be read. */
    method SweepStaleTmp(listing: Option<seq<TmpItem>>, now: nat) returns (report: SweepReport)
      requires store.disk.fs.Valid()
      modifies store.disk
      ensures listing.None? ==> store.disk.fs == old(store.disk.fs) && report == SweepReport(0, 0, [ReadDirError])
      ensures listing.Some? ==>
                (store.disk.fs, report) == AfterSweep(old(store.disk.fs), listing.value, now, staleThreshold)
    {
      hide AfterSweep, Stale;
      report := EMPTY_REPORT;
      if listing.None? {
        report := report.Fail(ReadDirError);
        return;
      }
      var disk, items := store.disk, listing.value;
      NothingSwept(disk.fs, items, now, staleThreshold);
      for i := 0 to |items|
        invariant (disk.fs, report) == AfterSweep(old(disk.fs), items[..i], now, staleThreshold)
      {
        SweepNext(old(disk.fs), items, i, now, staleThreshold);
        var item := items[i];
        if item.Unlistable? {
          report := report.Fail(ReadDirError);
        } else if !disk.Exists(Stage(item.t)) {
          report := report.Fail(StatError(Stage(item.t)));
        } else if item.isFile && Stale(item.mtime, now, staleThreshold) {
          var size := |disk.fs.DataAt(Stage(item.t))|;
          if item.locked {
            report := report.Fail(RemoveError(Stage(item.t)));
          } else {
            disk.Remove(Stage(item.t));
            report := report.(removedCount := report.removedCount + 1, bytesFreed := report.bytesFreed + size);
          }
        }
      }
    }
  }

  // ─── What a sweep achieves ────────────────────────────────────────────────

  /** Some item of the listing is file `p`, not locked, and at least `threshold` old; a file of no
      or of a future modification time is old enough. */
  ghost predicate ListedStale(items: seq<TmpItem>, now: nat, threshold: nat, p: Path) {
    exists t: Ino, mtime: Option<nat> ::
      && p == Stage(t) && Listed(t, true, mtime, false) in items
      && (mtime.Some? ==> mtime.value > now || mtime.value + threshold <= now)
  }

  lemma ListedNext(items: seq<TmpItem>, now: nat, threshold: nat, p: Path)
    requires items != []
    ensures var last := items[|items| - 1];
            ListedStale(items, now, threshold, p) <==>
            || ListedStale(items[..|items| - 1], now, threshold, p)
            || (last.Listed? && p == Stage(last.t) && last.isFile && !last.locked && Stale(last.mtime, now, threshold))
  {
    var last, rest := items[|items| - 1], items[..|items| - 1];
    assert items == rest + [last];
    forall t, mtime ensures Listed(t, true, mtime, false) in items <==> Listed(t, true, mtime, false) in rest || last == Listed(t, true, mtime, false) {
    }
    if last.Listed? && p == Stage(last.t) && last.isFile && !last.locked && Stale(last.mtime, now, threshold) {
      assert last == Listed(last.t, true, last.mtime, false);
    }
  }

  /** A name survives the sweep exactly when it is not in `tmp/`, or no listed item of that name
      is a stale file that may be removed; what survives is the same file. */
  lemma {:induction false} SweepRemovesExactly(fs: Fs, items: seq<TmpItem>, now: nat, threshold: nat, p: Path)
    requires fs.Valid()
    ensures var fs' := AfterSweep(fs, items, now, threshold).0;
      && (p in fs'.names <==> p in fs.names && !ListedStale(items, now, threshold, p))
      && (p in fs'.names ==> fs'.names[p] == fs.names[p])
  {
    if items != [] {
      hide ListedStale, Stale;
      SweepRemovesExactly(fs, items[..|items| - 1], now, threshold, p);
      ListedNext(items, now, threshold, p);
    }
  }

  /** No file is listed twice. */
  ghost predicate OnceEach(items: seq<TmpItem>) {
    forall m, n :: 0 <= m < n < |items| && items[m].Listed? && items[n].Listed? ==> items[m].t != items[n].t
  }

  /** Why a listed file stays that is neither young nor a directory. */
  ghost predicate Complaint(fs: Fs, items: seq<TmpItem>, now: nat, threshold: nat, e: RecoveryError) {
    match e
    case ReadDirError => Unlistable in items
    case StatError(p) => p !in fs.names && exists item <- items :: item.Listed? && p == Stage(item.t)
    case RemoveError(p) =>
      p in fs.names && exists t: Ino, mtime: Option<nat> ::
        && p == Stage(t) && Listed(t, true, mtime, true) in items
        && (mtime.Some? ==> mtime.value > now || mtime.value + threshold <= now)
  }

  lemma ComplaintNext(fs: Fs, items: seq<TmpItem>, now: nat, threshold: nat, e: RecoveryError)
    requires items != []
    ensures Complaint(fs, items, now, threshold, e) <==>
            Complaint(fs, items[..|items| - 1], now, threshold, e) || e in ErrorOf(fs, items[|items| - 1], now, threshold)
  {
    var last, rest := items[|items| - 1], items[..|items| - 1];
    assert items == rest + [last];
    assert forall item :: item in items <==> item in rest || item == last;
    if e.RemoveError? && e in ErrorOf(fs, last, now, threshold) {
      assert last == Listed(last.t, true, last.mtime, true);
    }
    if e.StatError? && e in ErrorOf(fs, last, now, threshold) {
      assert last in items;
    }
  }

  lemma SameError(fs: Fs, items: seq<TmpItem>, now: nat, threshold: nat)
    requires fs.Valid() && items != [] && OnceEach(items)
    ensures var last, before := items[|items| - 1], AfterSweep(fs, items[..|items| - 1], now, threshold).0;
            && OnceEach(items[..|items| - 1])
            && (last.Listed? ==> (Stage(last.t) in before.names <==> Stage(last.t) in fs.names))
            && (Removable(before, last, now, threshold) ==> ErrorOf(fs, last, now, threshold) == [])
            && ErrorOf(before, last, now, threshold) == ErrorOf(fs, last, now, threshold)
  {
    hide AfterSweep, Stale;
    var last, rest := items[|items| - 1], items[..|items| - 1];
    if last.Listed? {
      SweepRemovesExactly(fs, rest, now, threshold, Stage(last.t));
    }
  }

  /** The report names exactly the parts of the listing that could not be read, the files that are
      gone, and the stale ones that cannot be removed. */
  lemma {:induction false} SweepReports(fs: Fs, items: seq<TmpItem>, now: nat, threshold: nat, e: RecoveryError)
    requires fs.Valid() && OnceEach(items)
    ensures e in AfterSweep(fs, items, now, threshold).1.errors <==> Complaint(fs, items, now, threshold, e)
  {
    if items != [] {
      hide Complaint, OnceEach, ErrorOf;
      SameError(fs, items, now, threshold);
      SweepReports(fs, items[..|items| - 1], now, threshold, e);
      ComplaintNext(fs, items, now, threshold, e);
    }
  }

  /** When stage files have no other name the bytes reported are the bytes regained, and the
      count is the number of names that went. */
  lemma {:induction false} SweepAccounts(fs: Fs, items: seq<TmpItem>, now: nat, threshold: nat)
    requires fs.Valid()
    requires forall t: Ino :: Stage(t) in fs.names ==> fs.LinksAt(Stage(t)) == 1
    ensures var (fs', report) := AfterSweep(fs, items, now, threshold);
      && Physical(fs') + report.bytesFreed == Physical(fs)
      && |fs'.names| + report.removedCount == |fs.names|
      && forall t: Ino :: Stage(t) in fs'.names ==> fs'.LinksAt(Stage(t)) == 1
  {
    if items != [] {
      var last, rest := items[|items| - 1], items[..|items| - 1];
      SweepAccounts(fs, rest, now, threshold);
      var before := AfterSweep(fs, rest, now, threshold).0;
      if Removable(before, last, now, threshold) {
        var p := Stage(last.t);
        var after := before.Unlink(p);
        UnlinkCounts(before, p);
        AllButOne(before, after, before.next, before.names[p]);
        assert after.names.Keys == before.names.Keys - {p};
        assert |after.names.Keys| == |after.names| && |before.names.Keys| == |before.names|;
        forall t: Ino | Stage(t) in after.names ensures after.LinksAt(Stage(t)) == 1 {
          if before.names[Stage(t)] == before.names[p] {
            SoleName(before, p, Stage(t));
          }
        }
      }
    }
  }
}
