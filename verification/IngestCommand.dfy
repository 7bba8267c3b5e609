/** The ingest command: sweep `tmp/`, then walk the workspace and evaluate and link every file. */
module IngestCommand {
  import opened Accounting
  import opened Filesystem
  import opened Ingest
  import opened IngestLaws
  import opened IngestOutcome
  import opened IngestRun
  import opened Linkage
  import opened Names
  import opened Recovery
  import opened RetryQueue
  import opened Store
  import opened Verdicts

  // ─── The tree ─────────────────────────────────────────────────────────────

  datatype Item = FileItem(w: WorkPath) | DirItem(name: string, dir: Dir)
  datatype Dir = Dir(readable: bool, items: seq<Item>)

  const STORE_DIR := ".itan_store"

  /** The files an ingest of this directory is for: all that can be listed, but for those below a
      directory named like the store.  The name of the root itself does not matter. */
  function FilesOf(d: Dir): multiset<WorkPath> {
    if d.readable then FilesIn(d.items) else multiset{}
  }

  function FilesIn(items: seq<Item>): multiset<WorkPath> {
    if items == [] then multiset{} else FilesIn(items[..|items| - 1]) + FilesAt(items[|items| - 1])
  }

  function FilesAt(item: Item): multiset<WorkPath> {
    match item
    case FileItem(w) => multiset{w}
    case DirItem(name, dir) => if name == STORE_DIR then multiset{} else FilesOf(dir)
  }

  function Pending(stack: seq<Dir>): multiset<WorkPath> {
    if stack == [] then multiset{} else Pending(stack[..|stack| - 1]) + FilesOf(stack[|stack| - 1])
  }

  function DirsOf(d: Dir): nat {
    1 + DirsIn(d.items)
  }

  function DirsIn(items: seq<Item>): nat {
    if items == [] then 0
    else DirsIn(items[..|items| - 1]) + match items[|items| - 1] case FileItem(_) => 0 case DirItem(_, dir) => DirsOf(dir)
  }

  function DirsPending(stack: seq<Dir>): nat {
    if stack == [] then 0 else DirsPending(stack[..|stack| - 1]) + DirsOf(stack[|stack| - 1])
  }

  lemma Push(stack: seq<Dir>, d: Dir)
    ensures Pending(stack + [d]) == Pending(stack) + FilesOf(d)
    ensures DirsPending(stack + [d]) == DirsPending(stack) + DirsOf(d)
  {
    assert (stack + [d])[..|stack|] == stack;
  }

  lemma Empty()
    ensures Pending([]) == multiset{} && DirsPending([]) == 0
  {
  }

  lemma Pop(stack: seq<Dir>, last: nat)
    requires |stack| == last + 1
    ensures Pending(stack) == Pending(stack[..last]) + if stack[last].readable then FilesIn(stack[last].items) else multiset{}
    ensures DirsPending(stack) == DirsPending(stack[..last]) + 1 + DirsIn(stack[last].items)
  {
  }

  lemma NextItem(items: seq<Item>, e: nat)
    requires e < |items|
    ensures FilesIn(items[..e + 1]) == FilesIn(items[..e]) +
            match items[e] case FileItem(w) => multiset{w} case DirItem(name, dir) => if name == STORE_DIR then multiset{} else FilesOf(dir)
    ensures DirsIn(items[..e + 1]) == DirsIn(items[..e]) + match items[e] case FileItem(_) => 0 case DirItem(_, dir) => DirsOf(dir)
  {
    assert items[..e + 1][..e] == items[..e];
  }

  lemma {:induction false} PartOfItems(items: seq<Item>, e: nat)
    requires e <= |items|
    ensures FilesIn(items[..e]) <= FilesIn(items)
    decreases |items| - e
  {
    if e < |items| {
      NextItem(items, e);
      PartOfItems(items, e + 1);
    } else {
      assert items[..e] == items;
    }
  }

  /** Following the indices `at`, through directories that can be listed and are not named
      ".itan_store", leads to file `w`. */
  ghost predicate Reaches(d: Dir, at: seq<nat>, w: WorkPath)
    decreases |at|
  {
    && d.readable && at != [] && at[0] < |d.items|
    && if |at| == 1 then d.items[at[0]] == FileItem(w)
       else d.items[at[0]].DirItem? && d.items[at[0]].name != ".itan_store" && Reaches(d.items[at[0]].dir, at[1..], w)
  }

  lemma {:induction false} InSomeItem(items: seq<Item>, w: WorkPath) returns (e: nat)
    requires w in FilesIn(items)
    ensures e < |items| && w in FilesAt(items[e])
  {
    var last := |items| - 1;
    if w in FilesAt(items[last]) {
      e := last;
    } else {
      e := InSomeItem(items[..last], w);
    }
  }

  lemma {:induction false} ItemIsIn(items: seq<Item>, e: nat, w: WorkPath)
    requires e < |items| && w in FilesAt(items[e])
    ensures w in FilesIn(items)
  {
    if e < |items| - 1 {
      ItemIsIn(items[..|items| - 1], e, w);
    }
  }

  lemma {:induction false} ReachedIsListed(d: Dir, at: seq<nat>, w: WorkPath)
    requires Reaches(d, at, w)
    ensures w in FilesOf(d)
    decreases |at|
  {
    if |at| > 1 {
      ReachedIsListed(d.items[at[0]].dir, at[1..], w);
    }
    ItemIsIn(d.items, at[0], w);
  }

  lemma {:induction false} ListedIsReached(d: Dir, w: WorkPath) returns (at: seq<nat>)
    requires w in FilesOf(d)
    ensures Reaches(d, at, w)
    decreases d
  {
    var e := InSomeItem(d.items, w);
    if d.items[e].FileItem? {
      at := [e];
    } else {
      var below := ListedIsReached(d.items[e].dir, w);
      at := [e] + below;
    }
  }

  /** The files of a tree are exactly those that can be reached. */
  lemma FilesAreReached(d: Dir, w: WorkPath)
    ensures w in FilesOf(d) <==> exists at :: Reaches(d, at, w)
  {
    hide FilesOf, Reaches;
    if w in FilesOf(d) {
      var at := ListedIsReached(d, w);
      assert Reaches(d, at, w);
    }
    if at :| Reaches(d, at, w) {
      ReachedIsListed(d, at, w);
    }
  }

  // ─── One file ─────────────────────────────────────────────────────────────

  /** Applies a verdict and counts the result. */
  method ApplyVerdict(linker: AtomicLinkagePipeline, w: WorkPath, answer: Answer, rules: Rules, env: Env, before: Totals)
    returns (t: Totals)
    requires linker.Valid() && answer.Verdict? && !answer.value.Bypass? && File(w) in linker.store.disk.fs.names
    modifies linker.store.disk, linker.retryQueue
    ensures linker.Valid()
    ensures linker.store.disk.fs == AppliedFs(rules, linker.store.maxLinksPerSlot, old(linker.store.disk.fs), w, answer, env)
    ensures t == Counted(rules, linker.store.maxLinksPerSlot, old(linker.store.disk.fs), w, answer, env, before)
  {
    hide PublishedFs, LinkedFs, LinkSucceeds, OneStoreName, SlotFor, PublishOutcome;
    ghost var fs, limit := linker.store.disk.fs, linker.store.maxLinksPerSlot;
    t := before.(files := before.files + 1);
    var verdict := answer.value;
    var digest := if verdict.Duplicate? then verdict.slot.digest else rules.hash(linker.store.disk.fs.DataAt(File(w)));
    var now: nat := *;
    PublishKeepsWell(fs, limit, w, digest, env.publish);
    LinkKeepsWell(fs, limit, w, digest, env.link);
    PublishOutcomes(fs, limit, w, digest, env.publish);
    var result := linker.Apply(w, verdict, digest, env.publish, env.link, now);
    if result.Ok? {
      match result.value
      case Linked(_, _, bytesSaved) => t := t.(linked := t.linked + 1, saved := t.saved + bytesSaved);
      case MasterPublished(_) => t := t.(unique := t.unique + 1);
      case Skipped => assert false; // only a Bypass is skipped
      case Deferred =>
    }
  }

  lemma PublishOutcomes(fs: Fs, limit: nat, w: WorkPath, d: Digest, io: PublishIo)
    requires fs.Valid()
    ensures PublishOutcome(fs, limit, w, d, io).Ok? ==> PublishOutcome(fs, limit, w, d, io).value.MasterPublished?
  {
  }

  /** Evaluates one file and, unless this is a dry run, applies the verdict.  The environment
      decides what fails. */
  method IngestFile(pipeline: IngestPipeline, linker: AtomicLinkagePipeline, w: WorkPath, dryRun: bool, before: Totals, ghost copies: Copies)
    returns (t: Totals, ghost env: Env, ghost answer: Answer, ghost copied: Copies)
    requires linker.Valid() && pipeline.store == linker.store
    modifies pipeline, linker.store.disk, linker.retryQueue
    ensures linker.Valid()
    ensures FileStep(pipeline.rules, linker.store.maxLinksPerSlot, dryRun, w, env, answer,
                     Snap(old(linker.store.disk.fs), old(pipeline.Known()), before, copies),
                     Snap(linker.store.disk.fs, pipeline.Known(), t, copied))
  {
    hide PublishedFs, LinkedFs, OneStoreName, LinkSucceeds, PublishCopies, AcquireCopies;
    t := before.(files := before.files + 1);
    var faults: Env := *;
    ghost var memo := pipeline.Known();
    var verdict := pipeline.Evaluate(w, faults.fault);
    env, answer := faults, verdict;
    copied := if dryRun then copies
              else copies.Plus(CopiesFor(pipeline.rules, linker.store.maxLinksPerSlot, linker.store.disk.fs, w, answer, env));
    if !verdict.Verdict? || dryRun {
      return;
    }
    VerdictMeans(pipeline.rules, linker.store.disk.fs, memo, w, faults.fault, verdict, pipeline.Known());
    if verdict.value.Bypass? {
      t := t.(skipped := t.skipped + 1);
      return;
    }
    t := ApplyVerdict(linker, w, verdict, pipeline.rules, faults, before);
  }

  // ─── The walk ─────────────────────────────────────────────────────────────

  lemma OneMore(visited: seq<WorkPath>, pending: multiset<WorkPath>, base: multiset<WorkPath>, part: multiset<WorkPath>, w: WorkPath)
    requires multiset(visited) + pending == base + part
    ensures multiset(visited + [w]) + pending == base + (part + multiset{w})
  {
    assert multiset(visited + [w]) == multiset(visited) + multiset{w};
    assert multiset(visited) + multiset{w} + pending == (multiset(visited) + pending) + multiset{w};
  }

  lemma PutOff(visited: multiset<WorkPath>, pending: multiset<WorkPath>, base: multiset<WorkPath>, part: multiset<WorkPath>,
               sub: multiset<WorkPath>)
    requires visited + pending == base + part
    ensures visited + (pending + sub) == base + (part + sub)
  {
    assert visited + (pending + sub) == (visited + pending) + sub;
  }

  /** Where a walk stands. */
  ghost predicate Walked(tr: Trace, rules: Rules, limit: nat, dryRun: bool, now: Snap) {
    IsTrace(rules, limit, dryRun, tr) && tr.snaps[|tr.ws|] == now
  }

  /** The copies a trace ends with. */
  ghost function Copied(tr: Trace): Copies {
    if tr.snaps == [] then NO_COPIES else tr.snaps[|tr.snaps| - 1].copies
  }

  /** One listed directory: its subdirectories are put off, its files ingested. */
  method IngestDir(pipeline: IngestPipeline, linker: AtomicLinkagePipeline, items: seq<Item>, stack: seq<Dir>, dryRun: bool,
                   before: Totals, ghost seen: Trace)
    returns (dirs: seq<Dir>, t: Totals, ghost tr: Trace)
    requires linker.Valid() && pipeline.store == linker.store
    requires Walked(seen, pipeline.rules, linker.store.maxLinksPerSlot, dryRun, Snap(linker.store.disk.fs, pipeline.Known(), before, Copied(seen)))
    modifies pipeline, linker.store.disk, linker.retryQueue
    ensures linker.Valid()
    ensures Walked(tr, pipeline.rules, linker.store.maxLinksPerSlot, dryRun, Snap(linker.store.disk.fs, pipeline.Known(), t, Copied(tr)))
    ensures tr.snaps[0] == seen.snaps[0]
    ensures multiset(tr.ws) + Pending(dirs) == multiset(seen.ws) + Pending(stack) + FilesIn(items)
    ensures DirsPending(dirs) <= DirsPending(stack) + DirsIn(items)
  {
    hide FileStep, OneStoreName, FilesIn, DirsIn, FilesAt, DirsOf, FilesOf, Pending, DirsPending;
    ghost var base := multiset(seen.ws) + Pending(stack);
    dirs, t, tr := stack, before, seen;
    NoItems(items);
    for e := 0 to |items|
      invariant linker.Valid()
      invariant multiset(tr.ws) + Pending(dirs) == base + FilesIn(items[..e])
      invariant DirsPending(dirs) <= DirsPending(stack) + DirsIn(items[..e])
      invariant Walked(tr, pipeline.rules, linker.store.maxLinksPerSlot, dryRun, Snap(linker.store.disk.fs, pipeline.Known(), t, Copied(tr)))
      invariant tr.snaps[0] == seen.snaps[0]
    {
      NextItem(items, e);
      match items[e]
      case DirItem(name, sub) =>
        if name != STORE_DIR {
          Push(dirs, sub);
          PutOff(multiset(tr.ws), Pending(dirs), base, FilesIn(items[..e]), FilesOf(sub));
          dirs := dirs + [sub];
        }
      case FileItem(w) =>
        OneMore(tr.ws, Pending(dirs), base, FilesIn(items[..e]), w);
        ghost var env, answer, copied;
        t, env, answer, copied := IngestFile(pipeline, linker, w, dryRun, t, Copied(tr));
        ghost var next := Snap(linker.store.disk.fs, pipeline.Known(), t, copied);
        TraceExtends(pipeline.rules, linker.store.maxLinksPerSlot, dryRun, tr, w, env, answer, next);
        tr := tr.Extend(w, env, answer, next);
    }
    assert items[..|items|] == items;
  }

  lemma NoItems(items: seq<Item>)
    ensures FilesIn(items[..0]) == multiset{} && DirsIn(items[..0]) == 0
  {
  }

  /** Walks the tree below `root`, the directory found last first. */
  method IngestTree(pipeline: IngestPipeline, linker: AtomicLinkagePipeline, root: Dir, dryRun: bool)
    returns (t: Totals, ghost tr: Trace)
    requires linker.Valid() && pipeline.store == linker.store
    modifies pipeline, linker.store.disk, linker.retryQueue
    ensures linker.Valid()
    ensures multiset(tr.ws) == FilesOf(root)
    ensures Walked(tr, pipeline.rules, linker.store.maxLinksPerSlot, dryRun, Snap(linker.store.disk.fs, pipeline.Known(), t, Copied(tr)))
    ensures tr.snaps[0] == Snap(old(linker.store.disk.fs), old(pipeline.Known()), NO_TOTALS, NO_COPIES)
  {
    hide FileStep, OneStoreName, DirsIn, FilesIn, FilesOf, Pending, DirsPending;
    t := NO_TOTALS;
    ghost var start := Snap(linker.store.disk.fs, pipeline.Known(), t, NO_COPIES);
    tr := Trace([], [], [], [start]);
    var dirsToVisit := [root];
    assert [] + [root] == [root];
    Push([], root);
    Empty();
    while dirsToVisit != []
      invariant linker.Valid()
      invariant multiset(tr.ws) + Pending(dirsToVisit) == FilesOf(root)
      invariant Walked(tr, pipeline.rules, linker.store.maxLinksPerSlot, dryRun, Snap(linker.store.disk.fs, pipeline.Known(), t, Copied(tr)))
      invariant tr.snaps[0] == start
      decreases DirsPending(dirsToVisit)
    {
      var last := |dirsToVisit| - 1;
      var dir := dirsToVisit[last];
      Pop(dirsToVisit, last);
      dirsToVisit := dirsToVisit[..last];
      if dir.readable {
        dirsToVisit, t, tr := IngestDir(pipeline, linker, dir.items, dirsToVisit, dryRun, t, tr);
      }
    }
  }

  // ─── The command ──────────────────────────────────────────────────────────

  /** What sweeping `tmp/` leaves as it was. */
  lemma SweepKeeps(rules: Rules, fs: Fs, fs': Fs, all: multiset<WorkPath>)
    requires WellFormed(fs) && OnlyStagesGo(fs, fs')
    ensures WellFormed(fs') && Faithful(fs, fs')
    ensures SoleTargets(fs, all) ==> SoleTargets(fs', all)
    ensures Addressed(rules, fs) ==> Addressed(rules, fs')
    ensures Distinguishes(rules, fs) ==> Distinguishes(rules, fs')
  {
  }

  ghost predicate SoleStages(fs: Fs) {
    forall t: Ino :: Stage(t) in fs.names ==> fs.LinksAt(Stage(t)) == 1
  }

  ghost function SweptFs(fs: Fs, tmp: Option<seq<TmpItem>>, now: nat): Fs
    requires fs.Valid()
  {
    match tmp
    case Some(items) => AfterSweep(fs, items, now, 300_000_000_000).0
    case None => fs
  }

  /** The whole command: a sweep, then a run over every file of the tree, each once.  When every
      file is the only name of its inode, the bytes there were, and those of one copy per counted
      master and per spill and of what failed publications left, are the bytes there are, those
      reported as saved and those swept.  In a content-addressed store whose digest tells the
      contents at hand apart, every workspace file keeps its bytes.  When reading and publishing
      never fail, every file that is due for it has a master; when nothing fails and every file is
      the only name of its inode, every such file but the first of a new digest is linked. */
  method CmdIngest(store: CasStore, rules: Rules, root: Dir, tmp: Option<seq<TmpItem>>, now: nat, dryRun: bool)
    returns (t: Totals, swept: SweepReport, ghost tr: Trace)
    requires WellFormed(store.disk.fs)
    modifies store.disk
    ensures WellFormed(store.disk.fs)
    ensures multiset(tr.ws) == FilesOf(root) && IsTrace(rules, store.maxLinksPerSlot, dryRun, tr)
    ensures tr.snaps[0] == Snap(SweptFs(old(store.disk.fs), tmp, now), EMPTY_MEMO, NO_TOTALS, NO_COPIES)
    ensures tr.snaps[|tr.ws|].fs == store.disk.fs && tr.snaps[|tr.ws|].t == t
    ensures t.files == |tr.ws| && t.linked + t.unique + t.skipped <= t.files && Copied(tr).masters == t.unique
    ensures SoleTargets(old(store.disk.fs), FilesOf(root)) && SoleStages(old(store.disk.fs)) ==>
              Conserved(old(store.disk.fs), store.disk.fs, t.saved + swept.bytesFreed, Copied(tr))
    ensures Addressed(rules, old(store.disk.fs)) && Distinguishes(rules, old(store.disk.fs)) ==>
              Addressed(rules, store.disk.fs) && Faithful(old(store.disk.fs), store.disk.fs)
    ensures !dryRun ==> t.skipped == |OfKind(tr, |tr.ws|, AsSkipped)| && t.unique == |OfKind(tr, |tr.ws|, AsUnique)|
                        && t.linked == |OfKind(tr, |tr.ws|, AsLinked)|
    ensures !dryRun && Low(old(store.disk.fs)) && EachOnce(FilesOf(root)) ==>
              && ((forall env <- tr.envs :: Calm(env)) ==> AllStored(rules, old(store.disk.fs), store.disk.fs, FilesOf(root), t.unique))
              && (NothingFails(tr) && SoleTargets(old(store.disk.fs), FilesOf(root)) ==>
                    AllSettled(rules, old(store.disk.fs), store.disk.fs, tr.ws))
  {
    hide OfKind, Low, EachOnce, Calm, AllStored, AllSettled, NothingFails;
    hide FilesOf, AfterSweep, FileStep, Progress, SoleTargets, SoleStages, Conserved, Addressed, Distinguishes, Faithful, OneStoreName;
    ghost var fs0, all := store.disk.fs, FilesOf(root);
    var sweeper := new StartupSweeper(store, DEFAULT_STALE_THRESHOLD_SECS);
    swept := sweeper.SweepStaleTmp(tmp, now);
    ghost var fs1 := store.disk.fs;
    Swept(rules, fs0, fs1, tmp, now, sweeper.staleThreshold, all, swept.bytesFreed);
    var retryQueue := new DeferRetryQueue();
    var pipeline := new IngestPipeline(store, rules);
    var linker := new AtomicLinkagePipeline(store, retryQueue);
    t, tr := IngestTree(pipeline, linker, root, dryRun);
    TraceProgress(rules, store.maxLinksPerSlot, dryRun, tr, all, |tr.ws|);
    assert tr.ws[..|tr.ws|] == tr.ws;
    Concludes(rules, all, tr.ws, fs0, fs1, tr.snaps[|tr.ws|], swept.bytesFreed);
    if !dryRun {
      CountersCount(rules, store.maxLinksPerSlot, tr, |tr.ws|);
      Achieves(rules, store.maxLinksPerSlot, fs0, fs1, tr);
    }
  }

  lemma Achieves(rules: Rules, limit: nat, fs0: Fs, fs1: Fs, tr: Trace)
    requires fs0.Valid() && IsTrace(rules, limit, false, tr) && WellFormed(fs1) && OnlyStagesGo(fs0, fs1)
    requires tr.snaps[0] == Snap(fs1, EMPTY_MEMO, NO_TOTALS, NO_COPIES)
    ensures Low(fs0) && EachOnce(multiset(tr.ws)) ==>
              && ((forall env <- tr.envs :: Calm(env)) ==>
                    AllStored(rules, fs0, tr.snaps[|tr.ws|].fs, multiset(tr.ws), tr.snaps[|tr.ws|].t.unique))
              && (NothingFails(tr) && SoleTargets(fs0, multiset(tr.ws)) ==> AllSettled(rules, fs0, tr.snaps[|tr.ws|].fs, tr.ws))
  {
    hide OneStoreName, FileStep, Low, EachOnce, Calm, AllStored, AllSettled, NothingFails, SoleTargets;
    if Low(fs0) && EachOnce(multiset(tr.ws)) {
      if SoleTargets(fs0, multiset(tr.ws)) {
        StillSoleTargets(fs0, fs1, multiset(tr.ws));
      }
      StagesDoNotMatter(rules, fs0, fs1, tr.ws, tr.snaps[|tr.ws|].fs, tr.snaps[|tr.ws|].t.unique);
      RunAchieves(rules, limit, tr);
    }
  }

  ghost predicate OnlyStagesGo(fs: Fs, fs': Fs) {
    && fs'.nodes == fs.nodes && fs'.next == fs.next
    && (forall p :: p in fs'.names ==> p in fs.names && fs'.names[p] == fs.names[p])
    && (forall p :: p in fs.names && !p.Stage? ==> p in fs'.names)
  }

  lemma StillSoleTargets(fs: Fs, fs': Fs, all: multiset<WorkPath>)
    requires OnlyStagesGo(fs, fs') && SoleTargets(fs, all)
    ensures SoleTargets(fs', all)
  {
  }

  /** What the sweep hands on to the run. */
  ghost predicate SweptWell(rules: Rules, all: multiset<WorkPath>, fs0: Fs, fs1: Fs, bytesFreed: nat) {
    && WellFormed(fs0) && WellFormed(fs1) && OnlyStagesGo(fs0, fs1) && Faithful(fs0, fs1)
    && (SoleTargets(fs0, all) ==> SoleTargets(fs1, all))
    && (Addressed(rules, fs0) ==> Addressed(rules, fs1))
    && (Distinguishes(rules, fs0) ==> Distinguishes(rules, fs1))
    && (SoleStages(fs0) ==> Physical(fs1) + bytesFreed == Physical(fs0))
  }

  lemma Swept(rules: Rules, fs0: Fs, fs1: Fs, tmp: Option<seq<TmpItem>>, now: nat, threshold: nat, all: multiset<WorkPath>, bytesFreed: nat)
    requires WellFormed(fs0)
    requires tmp.None? ==> fs1 == fs0 && bytesFreed == 0
    requires tmp.Some? ==> var (fs, report) := AfterSweep(fs0, tmp.value, now, threshold); fs1 == fs && bytesFreed == report.bytesFreed
    ensures SweptWell(rules, all, fs0, fs1, bytesFreed)
  {
    hide AfterSweep, SoleTargets, Addressed, Distinguishes, Faithful, Physical, OneStoreName;
    SweepKeeps(rules, fs0, fs1, all);
    if tmp.Some? && SoleStages(fs0) {
      SweepAccounts(fs0, tmp.value, now, threshold);
    }
  }

  lemma Concludes(rules: Rules, all: multiset<WorkPath>, ws: seq<WorkPath>, fs0: Fs, fs1: Fs, s: Snap, bytesFreed: nat)
    requires SweptWell(rules, all, fs0, fs1, bytesFreed) && Progress(rules, all, ws, fs1, s)
    ensures WellFormed(s.fs) && fs0.Valid()
    ensures s.t.files == |ws| && s.t.linked + s.t.unique + s.t.skipped <= s.t.files && s.copies.masters == s.t.unique
    ensures SoleTargets(fs0, all) && SoleStages(fs0) ==> Conserved(fs0, s.fs, s.t.saved + bytesFreed, s.copies)
    ensures Addressed(rules, fs0) && Distinguishes(rules, fs0) ==> Addressed(rules, s.fs) && Faithful(fs0, s.fs)
  {
    hide SoleTargets, SoleStages, Addressed, Distinguishes, NothingNew, Physical, OneStoreName, Sole;
  }
}
