/** The store's life cycle as a transition system.  Any number of ingest workers, quarantine
    collectors and startup sweepers share one filesystem with the owner of the workspace; each
    system call is one atomic step, and a process may stop between any two steps. */
module Protocol {
  import opened Filesystem

  /** `corpus` holds the contents the owner ever writes: collision-freedom is only ever asked
      of the digests of these.  The digest itself is not interpreted. */
  datatype Config = Config(hash: Bytes -> Digest, maxLinks: nat, cooldown: nat, corpus: set<Bytes>) {
    ghost predicate CollisionFree() {
      forall x, y | x in corpus && y in corpus && hash(x) == hash(y) :: x == y
    }
  }

  /** One call of `apply`: the target, its digest as `evaluate` saw it, and the verdict
      (`publish` for Unique, else Duplicate). */
  datatype Job = Job(target: WorkPath, digest: Digest, publish: bool)

  /** Where a worker stands: the system call it makes next, and the values it still holds. */
  datatype Pc =
    | Idle
    // acquire_slot
    | ProbeMaster(j: Job)
    | ProbeSlot(j: Job, k: nat)
    | StatSlot(j: Job, k: nat)
    | ProbeNext(j: Job, k: nat)
    // spill_slot; `k` is the index of the slot to make
    | ProbeSpill(j: Job, k: nat)
    | OpenSpill(j: Job, k: nat)
    // fs::copy: the source is open, then the stage file `t` is written piece by piece
    | CreateStage(j: Job, k: nat, src: Ino, spill: bool)
    | CopyStage(j: Job, k: nat, src: Ino, spill: bool, t: Ino)
    | ReprobeSpill(j: Job, k: nat, t: Ino)
    | DropSpill(j: Job, k: nat, t: Ino)
    | MoveSpill(j: Job, k: nat, t: Ino)
    // acquire_slot has returned slot `k`
    | Acquired(j: Job, k: nat)
    // publish_new_master
    | OpenTarget(j: Job, k: nat)
    | Publish(j: Job, k: nat, t: Ino)
    | MovePublish(j: Job, k: nat, t: Ino)
    | DropPublish(j: Job, k: nat, t: Ino)
    // link_to_master: the temporary link exists
    | Swap(j: Job, k: nat)
    | UndoSwap(j: Job, k: nat)

  datatype GcPc =
    | GcIdle
    | GcMove(digest: Digest, idx: nat, ts: nat)   // has seen one link and read the clock
    | GcRevive(digest: Digest, idx: nat, ts: nat) // has seen several links
    | GcPurge(digest: Digest, idx: nat, ts: nat)  // has seen one link

  /** What the environment decides in a worker's step: the bytes one write accepts, whether
      NOREPLACE is native, whether a rename fails. */
  datatype Choice = Choice(n: nat, noReplace: bool, fail: bool)

  datatype Action =
    | Begin(p: nat, w: WorkPath, publish: bool)
    | Work(p: nat, ch: Choice)
    | Stop(p: nat)                           // crash, or an error returned to the caller
    | GcScanObject(g: nat, digest: Digest, idx: nat)
    | GcScanEntry(g: nat, digest: Digest, idx: nat, ts: nat)
    | GcAct(g: nat)
    | GcStop(g: nat)
    | SweepStage(t: Ino)
    | ChangeMode(i: Ino, mode: Mode)
    | UserWrite(w: WorkPath, data: Bytes)    // a fresh file replaces `w`
    | UserPatch(w: WorkPath, data: Bytes)    // `w` is written in place
    | UserLink(w: WorkPath, to: WorkPath)
    | UserDelete(w: WorkPath)
    | Tick(ms: nat)

  /** `owned` is what the owner last stored at each workspace path; `origin` remembers which
      inode each quarantine name was given to; `staged` the inodes made by the engine. */
  datatype State = State(
    fs: Fs,
    workers: seq<Pc>,
    collectors: seq<GcPc>,
    clock: nat,
    owned: map<WorkPath, Bytes>,
    origin: map<Path, Ino>,
    staged: set<Ino>)

  // ─── Workers ──────────────────────────────────────────────────────────────

  function Slot(j: Job, k: nat): Path {
    Object(j.digest, k)
  }

  /** The inodes behind a worker's open files exist. */
  predicate FilesOpen(fs: Fs, pc: Pc) {
    match pc
    case CreateStage(_, _, src, _) => src in fs.nodes
    case CopyStage(_, _, src, _, t) => src in fs.nodes && t in fs.nodes
    case _ => true
  }

  function WorkerNext(c: Config, fs: Fs, pc: Pc, ch: Choice): (Fs, Pc)
    requires FilesOpen(fs, pc)
  {
    match pc
    case Idle => (fs, Idle)
    case ProbeMaster(j) =>
      (fs, if Slot(j, 0) in fs.names then ProbeSlot(j, 0) else Acquired(j, 0))
    case ProbeSlot(j, k) =>
      (fs, if Slot(j, k) in fs.names then StatSlot(j, k) else Acquired(j, k))
    case StatSlot(j, k) =>
      (fs, if Slot(j, k) !in fs.names then Idle
           else if fs.LinksAt(Slot(j, k)) < c.maxLinks then Acquired(j, k)
           else ProbeNext(j, k + 1))
    case ProbeNext(j, k) =>
      (fs, if Slot(j, k) in fs.names then ProbeSlot(j, k) else ProbeSpill(j, k))
    case ProbeSpill(j, k) =>
      (fs, if Slot(j, k) in fs.names then Acquired(j, k) else OpenSpill(j, k))
    case OpenSpill(j, k) =>
      (fs, if k > 0 && Slot(j, k - 1) in fs.names && fs.names[Slot(j, k - 1)] in fs.nodes
           then CreateStage(j, k, fs.names[Slot(j, k - 1)], true) else Idle)
    case CreateStage(j, k, src, spill) =>
      (fs.Create(Stage(fs.next), Node([], fs.nodes[src].mode, false)), CopyStage(j, k, src, spill, fs.next))
    case CopyStage(j, k, src, spill, t) =>
      var have, want := |fs.nodes[t].data|, |fs.nodes[src].data|;
      if have < want then
        (fs.SetData(t, fs.nodes[src].data[..if have + ch.n < want then have + ch.n else want]), pc)
      else
        (fs.Close(t), if spill then ReprobeSpill(j, k, t) else Publish(j, k, t))
    case ReprobeSpill(j, k, t) =>
      (fs, if Slot(j, k) in fs.names then DropSpill(j, k, t) else MoveSpill(j, k, t))
    case DropSpill(j, k, t) =>
      (fs.Unlink(Stage(t)), Acquired(j, k))
    case MoveSpill(j, k, t) =>
      if Stage(t) in fs.names then (fs.Rename(Stage(t), Slot(j, k)), Acquired(j, k)) else (fs, Idle)
    case Acquired(j, k) =>
      if j.publish then
        (fs, if Slot(j, k) in fs.names then Idle else OpenTarget(j, k))
      else if fs.CanLink(Slot(j, k), TmpLink(j.target)) then
        (fs.Link(Slot(j, k), TmpLink(j.target)), Swap(j, k))
      else
        (fs, Idle)
    case OpenTarget(j, k) =>
      (fs, if File(j.target) in fs.names && fs.names[File(j.target)] in fs.nodes
           then CreateStage(j, k, fs.names[File(j.target)], false) else Idle)
    case Publish(j, k, t) =>
      if Slot(j, k) in fs.names then (fs, DropPublish(j, k, t))
      else if !ch.noReplace then (fs, MovePublish(j, k, t))
      else if Stage(t) in fs.names && !ch.fail then (fs.Rename(Stage(t), Slot(j, k)), Idle)
      else (fs, DropPublish(j, k, t))
    case MovePublish(j, k, t) =>
      if Stage(t) in fs.names && !ch.fail then (fs.Rename(Stage(t), Slot(j, k)), Idle)
      else (fs, DropPublish(j, k, t))
    case DropPublish(j, k, t) =>
      (fs.Unlink(Stage(t)), Idle)
    case Swap(j, k) =>
      if TmpLink(j.target) in fs.names && !ch.fail then
        (fs.Rename(TmpLink(j.target), File(j.target)), Idle)
      else
        (fs, UndoSwap(j, k))
    case UndoSwap(j, k) =>
      (fs.Unlink(TmpLink(j.target)), Idle)
  }

  // ─── Collectors ───────────────────────────────────────────────────────────

  function CollectorNext(fs: Fs, g: GcPc): Fs {
    match g
    case GcIdle => fs
    case GcMove(d, k, ts) =>
      if Object(d, k) in fs.names then fs.Rename(Object(d, k), Quarantine(ts, d, k)) else fs
    case GcRevive(d, k, ts) =>
      if Quarantine(ts, d, k) in fs.names then fs.Rename(Quarantine(ts, d, k), Object(d, k)) else fs
    case GcPurge(d, k, ts) =>
      fs.Unlink(Quarantine(ts, d, k))
  }

  // ─── The system ───────────────────────────────────────────────────────────

  /** No worker is between `evaluate` and the end of `apply` for `w`. */
  predicate Unattended(s: State, w: WorkPath) {
    forall pc <- s.workers :: pc != Idle ==> pc.j.target != w
  }

  /** No worker has inode `i` open to copy from. */
  predicate Unread(s: State, i: Ino) {
    forall pc <- s.workers :: pc.CreateStage? || pc.CopyStage? ==> pc.src != i
  }

  /** Milliseconds since `ts`; a timestamp in the future counts as just taken. */
  function Age(ts: nat, now: nat): nat {
    if now >= ts then now - ts else 0
  }

  predicate Enabled(c: Config, s: State, a: Action) {
    match a
    case Begin(p, w, _) =>
      && p < |s.workers| && s.workers[p].Idle?
      && w in s.owned && File(w) in s.fs.names && s.fs.names[File(w)] in s.fs.nodes
    case Work(p, _) => p < |s.workers| && FilesOpen(s.fs, s.workers[p])
    case Stop(p) => p < |s.workers|
    case GcScanObject(g, _, _) => g < |s.collectors| && s.collectors[g].GcIdle?
    case GcScanEntry(g, _, _, ts) =>
      g < |s.collectors| && s.collectors[g].GcIdle? && Age(ts, s.clock) >= c.cooldown
    case GcAct(g) => g < |s.collectors|
    case GcStop(g) => g < |s.collectors|
    case SweepStage(t) => true
    case ChangeMode(i, _) => i in s.fs.nodes
    case UserWrite(w, data) => Unattended(s, w) && data in c.corpus
    case UserPatch(w, data) =>
      && Unattended(s, w) && data in c.corpus
      && w in s.owned && File(w) in s.fs.names && s.fs.names[File(w)] in s.fs.nodes
      && s.fs.LinksAt(File(w)) == 1 && Unread(s, s.fs.names[File(w)])
    case UserLink(w, to) =>
      Unattended(s, to) && File(w) in s.fs.names && w in s.owned && File(to) !in s.fs.names
    case UserDelete(w) => Unattended(s, w)
    case Tick(_) => true
  }

  function Next(c: Config, s: State, a: Action): State
    requires Enabled(c, s, a)
  {
    match a
    case Begin(p, w, publish) =>
      s.(workers := s.workers[p := ProbeMaster(Job(w, c.hash(s.fs.DataAt(File(w))), publish))])
    case Work(p, ch) =>
      var pc := s.workers[p];
      var (fs', pc') := WorkerNext(c, s.fs, pc, ch);
      s.(fs := fs', workers := s.workers[p := pc'],
         staged := if pc.CreateStage? then s.staged + {s.fs.next} else s.staged)
    case Stop(p) =>
      s.(workers := s.workers[p := Idle])
    case GcScanObject(g, d, k) =>
      var seen := Object(d, k) in s.fs.names && s.fs.LinksAt(Object(d, k)) <= 1;
      s.(collectors := s.collectors[g := if seen then GcMove(d, k, s.clock) else GcIdle])
    case GcScanEntry(g, d, k, ts) =>
      var q := Quarantine(ts, d, k);
      s.(collectors := s.collectors[g :=
        if q !in s.fs.names then GcIdle
        else if s.fs.LinksAt(q) > 1 then GcRevive(d, k, ts)
        else GcPurge(d, k, ts)])
    case GcAct(g) =>
      var pc := s.collectors[g];
      s.(fs := CollectorNext(s.fs, pc), collectors := s.collectors[g := GcIdle],
         origin := if pc.GcMove? && Object(pc.digest, pc.idx) in s.fs.names
                   then s.origin[Quarantine(pc.ts, pc.digest, pc.idx) := s.fs.names[Object(pc.digest, pc.idx)]]
                   else s.origin)
    case GcStop(g) =>
      s.(collectors := s.collectors[g := GcIdle])
    case SweepStage(t) =>
      s.(fs := s.fs.Unlink(Stage(t)))
    case ChangeMode(i, mode) =>
      s.(fs := s.fs.Chmod(i, mode))
    case UserWrite(w, data) =>
      s.(fs := s.fs.Create(File(w), Node(data, MODE_644, true)), owned := s.owned[w := data])
    case UserPatch(w, data) =>
      s.(fs := s.fs.SetData(s.fs.names[File(w)], data), owned := s.owned[w := data])
    case UserLink(w, to) =>
      s.(fs := s.fs.Link(File(w), File(to)), owned := s.owned[to := s.owned[w]])
    case UserDelete(w) =>
      s.(fs := s.fs.Unlink(File(w)), owned := s.owned - {w})
    case Tick(ms) =>
      s.(clock := s.clock + ms)
  }

  /** The store is empty and no process runs; the workspace is arbitrary, its `.tmp_link` files
      included. */
  ghost predicate Init(c: Config, s: State) {
    && s.fs.Valid()
    && (forall p <- s.fs.names :: p.File? || p.TmpLink?)
    && (forall i <- s.fs.nodes :: s.fs.nodes[i].closed)
    && (forall w: WorkPath :: w in s.owned <==> File(w) in s.fs.names)
    && (forall w <- s.owned :: s.owned[w] == s.fs.DataAt(File(w)) && s.owned[w] in c.corpus)
    && (forall pc <- s.workers :: pc == Idle)
    && (forall g <- s.collectors :: g == GcIdle)
    && s.origin == map[] && s.staged == {}
  }

  /** `states` are the states passed through, `acts` the actions between them. */
  ghost predicate Moves(c: Config, states: seq<State>, acts: seq<Action>) {
    && |states| == |acts| + 1
    && forall n :: 0 <= n < |acts| ==> Steps(c, states[n], acts[n], states[n + 1])
  }

  ghost predicate Run(c: Config, states: seq<State>, acts: seq<Action>) {
    Moves(c, states, acts) && Init(c, states[0])
  }

  ghost predicate Steps(c: Config, s: State, a: Action, s': State) {
    Enabled(c, s, a) && s' == Next(c, s, a)
  }
}
