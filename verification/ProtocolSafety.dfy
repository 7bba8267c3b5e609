/** In every reachable state the store is content-addressed and the workspace keeps its bytes. */
module ProtocolSafety {
  import opened Filesystem
  import opened Protocol

  // ─── The invariant ────────────────────────────────────────────────────────

  /** Inode `i` is finished, and holds a content of the workspace that hashes to `d`. */
  ghost predicate Good(c: Config, fs: Fs, i: Ino, d: Digest) {
    && i in fs.nodes
    && fs.nodes[i].closed
    && fs.nodes[i].data in c.corpus
    && c.hash(fs.nodes[i].data) == d
  }

  ghost predicate JobOk(c: Config, s: State, j: Job) {
    && j.target in s.owned
    && c.hash(s.owned[j.target]) == j.digest
  }

  /** `pc` is the only holder of stage file `t`. */
  predicate HoldsStage(pc: Pc, t: Ino) {
    (pc.CopyStage? || pc.ReprobeSpill? || pc.DropSpill? || pc.MoveSpill?
      || pc.Publish? || pc.MovePublish? || pc.DropPublish?) && pc.t == t
  }

  /** `pc` is the only holder of `<w>.tmp_link`. */
  predicate HoldsTmpLink(pc: Pc, w: WorkPath) {
    (pc.Swap? || pc.UndoSwap?) && pc.j.target == w
  }

  /** What the files a worker holds look like. */
  ghost predicate PcOk(c: Config, fs: Fs, pc: Pc) {
    && (pc.CreateStage? ==> Good(c, fs, pc.src, pc.j.digest))
    && (pc.CopyStage? ==> Good(c, fs, pc.src, pc.j.digest) && CopyOk(fs, pc.src, pc.t))
    && (pc.ReprobeSpill? || pc.MoveSpill? || pc.Publish? || pc.MovePublish? ==>
          Stage(pc.t) in fs.names ==> Good(c, fs, pc.t, pc.j.digest))
    && (pc.Swap? || pc.UndoSwap? ==>
          TmpLink(pc.j.target) in fs.names && Good(c, fs, fs.names[TmpLink(pc.j.target)], pc.j.digest))
  }

  /** What has been copied so far is a prefix of the source, in an inode nobody else can name. */
  ghost predicate CopyOk(fs: Fs, src: Ino, t: Ino) {
    && t in fs.nodes && src in fs.nodes
    && !fs.nodes[t].closed
    && fs.nodes[t].data <= fs.nodes[src].data
    && OnlyStage(fs, t)
  }

  ghost predicate OnlyStage(fs: Fs, t: Ino) {
    forall p :: p in fs.names && fs.names[p] == t ==> p == Stage(t)
  }

  /** Stage files and temporary links have one holder each, and a holder's stage file has been
      allocated. */
  ghost predicate HoldersDiffer(s: State) {
    && (forall p, q, t | 0 <= p < |s.workers| && 0 <= q < |s.workers| ::
          HoldsStage(s.workers[p], t) && HoldsStage(s.workers[q], t) ==> p == q)
    && (forall p, q, w | 0 <= p < |s.workers| && 0 <= q < |s.workers| ::
          HoldsTmpLink(s.workers[p], w) && HoldsTmpLink(s.workers[q], w) ==> p == q)
    && (forall p, t: Ino | 0 <= p < |s.workers| :: HoldsStage(s.workers[p], t) ==> t < s.fs.next)
  }

  ghost predicate WorkersOk(c: Config, s: State) {
    && (forall p :: 0 <= p < |s.workers| && s.workers[p] != Idle ==> JobOk(c, s, s.workers[p].j))
    && (forall p :: 0 <= p < |s.workers| ==> PcOk(c, s.fs, s.workers[p]))
    && HoldersDiffer(s)
  }

  ghost predicate StageOk(fs: Fs) {
    forall t: Ino :: Stage(t) in fs.names ==> fs.names[Stage(t)] == t && OnlyStage(fs, t)
  }

  /** Every slot, in `objects/` or in quarantine, is complete and hashes to its own name. */
  ghost predicate StoreOk(c: Config, fs: Fs) {
    && (forall d, k :: Object(d, k) in fs.names ==> Good(c, fs, fs.names[Object(d, k)], d))
    && (forall ts, d, k :: Quarantine(ts, d, k) in fs.names ==>
          Good(c, fs, fs.names[Quarantine(ts, d, k)], d))
  }

  /** Every workspace path exists and has the digest of what its owner stored there. */
  ghost predicate WorkspaceOk(c: Config, fs: Fs, owned: map<WorkPath, Bytes>) {
    && (forall w :: File(w) in fs.names <==> w in owned)
    && (forall w :: w in owned ==> owned[w] in c.corpus)
    && (forall w :: File(w) in fs.names ==> w in owned && Good(c, fs, fs.names[File(w)], c.hash(owned[w])))
    && (forall w :: TmpLink(w) in fs.names ==> fs.names[TmpLink(w)] in fs.nodes && fs.nodes[fs.names[TmpLink(w)]].closed)
  }

  ghost predicate FilesOk(c: Config, fs: Fs, owned: map<WorkPath, Bytes>) {
    fs.Valid() && StageOk(fs) && StoreOk(c, fs) && WorkspaceOk(c, fs, owned)
  }

  ghost predicate Inv(c: Config, s: State) {
    WorkersOk(c, s) && FilesOk(c, s.fs, s.owned)
  }

  // ─── Files: one lemma for each kind of change ─────────────────────────────

  /** What a step of worker `pc` (Idle for anyone else) leaves alone: closed files keep their
      bytes, and the files others are writing or hold are not touched. */
  ghost predicate Leaves(fs: Fs, fs': Fs, pc: Pc) {
    && fs.next <= fs'.next
    && (forall i :: i in fs.nodes && fs.nodes[i].closed ==>
          i in fs'.nodes && fs'.nodes[i].closed && fs'.nodes[i].data == fs.nodes[i].data)
    && (forall i :: i in fs.nodes && !fs.nodes[i].closed && !HoldsStage(pc, i) ==>
          i in fs'.nodes && !fs'.nodes[i].closed && fs'.nodes[i].data == fs.nodes[i].data)
    && (forall t: Ino :: Stage(t) in fs'.names && t != fs.next ==> Stage(t) in fs.names)
    && (forall w :: TmpLink(w) in fs.names && !HoldsTmpLink(pc, w) ==>
          TmpLink(w) in fs'.names && fs'.names[TmpLink(w)] == fs.names[TmpLink(w)])
    && (forall p :: p in fs'.names ==>
          || (p in fs.names && fs.names[p] == fs'.names[p])
          || fs'.names[p] == fs.next
          || (fs'.names[p] in fs.nodes && fs.nodes[fs'.names[p]].closed))
  }

  ghost predicate FilesStep(c: Config, s: State, fs': Fs, pc: Pc) {
    FilesOk(c, fs', s.owned) && Leaves(s.fs, fs', pc)
  }

  lemma CreateStageFiles(c: Config, s: State, node: Node)
    requires FilesOk(c, s.fs, s.owned)
    ensures FilesOk(c, s.fs.Create(Stage(s.fs.next), node), s.owned)
    ensures OnlyStage(s.fs.Create(Stage(s.fs.next), node), s.fs.next)
    ensures s.fs.next !in s.fs.nodes
  {
    assert Stage(s.fs.next) !in s.fs.names;
  }

  lemma CreateLeaves(fs: Fs, p: Path, node: Node, pc: Pc)
    requires fs.Valid() && (p == Stage(fs.next) || p.File?)
    ensures Leaves(fs, fs.Create(p, node), pc)
  {
  }

  lemma GoodStays(c: Config, fs: Fs, fs': Fs, pc: Pc, i: Ino, d: Digest)
    requires Leaves(fs, fs', pc) && Good(c, fs, i, d)
    ensures Good(c, fs', i, d)
  {
  }

  lemma UnlinkFiles(c: Config, s: State, p: Path, pc: Pc)
    requires FilesOk(c, s.fs, s.owned) && !p.File? && (p.TmpLink? ==> HoldsTmpLink(pc, p.w))
    ensures FilesStep(c, s, s.fs.Unlink(p), pc)
  {
  }

  /** A finished file may be moved to a slot of its digest, whatever the slot was before. */
  lemma MoveFiles(c: Config, s: State, p: Path, q: Path, pc: Pc)
    requires FilesOk(c, s.fs, s.owned)
    requires p in s.fs.names && !p.File? && !p.TmpLink? && (q.Object? || q.Quarantine?)
    requires Good(c, s.fs, s.fs.names[p], q.digest)
    ensures FilesStep(c, s, s.fs.Rename(p, q), pc)
  {
  }

  lemma LinkFiles(c: Config, s: State, p: Path, w: WorkPath, pc: Pc)
    requires FilesOk(c, s.fs, s.owned)
    requires p.Object? && s.fs.CanLink(p, TmpLink(w))
    ensures FilesStep(c, s, s.fs.Link(p, TmpLink(w)), pc)
    ensures Good(c, s.fs, s.fs.names[p], p.digest)
  {
    assert Good(c, s.fs, s.fs.names[p], p.digest);
  }

  /** Swapping in a finished file of the owner's digest keeps the workspace. */
  lemma SwapFiles(c: Config, s: State, w: WorkPath, pc: Pc)
    requires FilesOk(c, s.fs, s.owned) && HoldsTmpLink(pc, w)
    requires TmpLink(w) in s.fs.names && w in s.owned
    requires Good(c, s.fs, s.fs.names[TmpLink(w)], c.hash(s.owned[w]))
    ensures FilesStep(c, s, s.fs.Rename(TmpLink(w), File(w)), pc)
  {
    SwapFilesOk(c, s, w);
    SwapLeaves(c, s, w, pc);
    hide FilesOk, Leaves;
  }

  lemma SwapFilesOk(c: Config, s: State, w: WorkPath)
    requires FilesOk(c, s.fs, s.owned) && TmpLink(w) in s.fs.names && w in s.owned
    requires Good(c, s.fs, s.fs.names[TmpLink(w)], c.hash(s.owned[w]))
    ensures FilesOk(c, s.fs.Rename(TmpLink(w), File(w)), s.owned)
  {
  }

  lemma SwapLeaves(c: Config, s: State, w: WorkPath, pc: Pc)
    requires FilesOk(c, s.fs, s.owned) && HoldsTmpLink(pc, w) && TmpLink(w) in s.fs.names
    ensures Leaves(s.fs, s.fs.Rename(TmpLink(w), File(w)), pc)
  {
  }

  lemma WriteFiles(c: Config, s: State, t: Ino, node: Node, pc: Pc)
    requires FilesOk(c, s.fs, s.owned) && HoldsStage(pc, t)
    requires t in s.fs.nodes && !s.fs.nodes[t].closed
    ensures FilesStep(c, s, s.fs.(nodes := s.fs.nodes[t := node]), pc)
  {
  }

  // ─── Workers ──────────────────────────────────────────────────────────────

  /** A worker's view survives what someone else's step leaves alone. */
  lemma PcStable(c: Config, fs: Fs, fs': Fs, actor: Pc, pc: Pc)
    requires PcOk(c, fs, pc) && Leaves(fs, fs', actor)
    requires forall t: Ino :: HoldsStage(pc, t) ==> !HoldsStage(actor, t) && t < fs.next
    requires forall w :: HoldsTmpLink(pc, w) ==> !HoldsTmpLink(actor, w)
    ensures PcOk(c, fs', pc)
  {
    if pc.CopyStage? || pc.ReprobeSpill? || pc.MoveSpill? || pc.Publish? || pc.MovePublish? {
      assert HoldsStage(pc, pc.t);
    }
    if pc.Swap? || pc.UndoSwap? {
      assert HoldsTmpLink(pc, pc.j.target);
    }
  }

  /** Worker `p` may take a stage file just allocated and a temporary link just made. */
  ghost predicate MayTake(s: State, fs': Fs, p: nat, pc': Pc)
    requires p < |s.workers|
  {
    && (forall t: Ino :: HoldsStage(pc', t) ==> HoldsStage(s.workers[p], t) || t == s.fs.next < fs'.next)
    && (forall w :: HoldsTmpLink(pc', w) ==> HoldsTmpLink(s.workers[p], w) || TmpLink(w) !in s.fs.names)
  }

  lemma OthersKeep(c: Config, s: State, fs': Fs, p: nat, q: nat)
    requires WorkersOk(c, s) && p < |s.workers| && q < |s.workers| && p != q
    requires Leaves(s.fs, fs', s.workers[p])
    ensures PcOk(c, fs', s.workers[q])
  {
    PcStable(c, s.fs, fs', s.workers[p], s.workers[q]);
  }

  lemma WorkerMoves(c: Config, s: State, s': State, p: nat, pc': Pc)
    requires Inv(c, s) && p < |s.workers|
    requires FilesStep(c, s, s'.fs, s.workers[p])
    requires pc' != Idle ==> JobOk(c, s, pc'.j)
    requires PcOk(c, s'.fs, pc') && MayTake(s, s'.fs, p, pc')
    requires s'.workers == s.workers[p := pc'] && s'.owned == s.owned
    ensures Inv(c, s')
  {
    var fs' := s'.fs;
    forall q | 0 <= q < |s.workers| && q != p ensures PcOk(c, fs', s.workers[q]) {
      OthersKeep(c, s, fs', p, q);
    }
    forall q, w | 0 <= q < |s.workers| && q != p && HoldsTmpLink(s.workers[q], w)
      ensures !HoldsTmpLink(pc', w)
    {
      assert PcOk(c, s.fs, s.workers[q]);
    }
    assert HoldersDiffer(s');
  }

  ghost predicate Ready(c: Config, s: State, p: nat) {
    Inv(c, s) && p < |s.workers| && s.workers[p] != Idle && FilesOpen(s.fs, s.workers[p])
  }

  function After(c: Config, s: State, p: nat, ch: Choice): (Fs, Pc)
    requires p < |s.workers| && FilesOpen(s.fs, s.workers[p])
  {
    WorkerNext(c, s.fs, s.workers[p], ch)
  }

  /** What a worker may open to copy from is finished and has the digest of its job. */
  lemma SourcesGood(c: Config, s: State, pc: Pc)
    requires FilesOk(c, s.fs, s.owned)
    ensures pc.OpenSpill? && pc.k > 0 && Slot(pc.j, pc.k - 1) in s.fs.names ==>
              Good(c, s.fs, s.fs.names[Slot(pc.j, pc.k - 1)], pc.j.digest)
    ensures pc.OpenTarget? && JobOk(c, s, pc.j) && File(pc.j.target) in s.fs.names ==>
              Good(c, s.fs, s.fs.names[File(pc.j.target)], pc.j.digest)
  {
  }

  lemma InvFiles(c: Config, s: State)
    requires Inv(c, s)
    ensures FilesOk(c, s.fs, s.owned)
  {
  }

  lemma NamesValid(c: Config, s: State)
    requires FilesOk(c, s.fs, s.owned)
    ensures s.fs.Valid()
  {
  }

  lemma NoChange(c: Config, s: State, pc: Pc)
    requires FilesOk(c, s.fs, s.owned)
    ensures FilesStep(c, s, s.fs, pc)
  {
  }

  /** Probes and stats change no file. */
  lemma ProbeStep(c: Config, s: State, p: nat, ch: Choice)
    requires Ready(c, s, p) && !s.workers[p].CopyStage? && After(c, s, p, ch).0 == s.fs
    ensures Inv(c, Next(c, s, Work(p, ch)))
  {
    hide FilesOk, Leaves, HoldersDiffer;
    var pc := s.workers[p];
    assert PcOk(c, s.fs, pc) && JobOk(c, s, pc.j);
    SourcesGood(c, s, pc);
    NoChange(c, s, pc);
    WorkerMoves(c, s, Next(c, s, Work(p, ch)), p, After(c, s, p, ch).1);
  }

  lemma CopyStep(c: Config, s: State, p: nat, ch: Choice)
    requires Ready(c, s, p) && s.workers[p].CopyStage?
    ensures Inv(c, Next(c, s, Work(p, ch)))
  {
    hide FilesOk, Leaves, HoldersDiffer;
    var pc := s.workers[p];
    var (fs', pc') := After(c, s, p, ch);
    assert PcOk(c, s.fs, pc) && JobOk(c, s, pc.j);
    assert HoldsStage(pc, pc.t);
    if |s.fs.nodes[pc.t].data| >= |s.fs.nodes[pc.src].data| {
      assert s.fs.nodes[pc.t].data == s.fs.nodes[pc.src].data;
    }
    assert fs' == s.fs.(nodes := s.fs.nodes[pc.t := fs'.nodes[pc.t]]);
    WriteFiles(c, s, pc.t, fs'.nodes[pc.t], pc);
    WorkerMoves(c, s, Next(c, s, Work(p, ch)), p, pc');
  }

  lemma CreateStep(c: Config, s: State, p: nat, ch: Choice)
    requires Ready(c, s, p) && s.workers[p].CreateStage?
    ensures Inv(c, Next(c, s, Work(p, ch)))
  {
    hide FilesOk, Leaves, HoldersDiffer;
    var pc := s.workers[p];
    assert PcOk(c, s.fs, pc) && JobOk(c, s, pc.j);
    var node := Node([], s.fs.nodes[pc.src].mode, false);
    CreateStageFiles(c, s, node);
    NamesValid(c, s);
    CreateLeaves(s.fs, Stage(s.fs.next), node, pc);
    GoodStays(c, s.fs, s.fs.Create(Stage(s.fs.next), node), pc, pc.src, pc.j.digest);
    WorkerMoves(c, s, Next(c, s, Work(p, ch)), p, After(c, s, p, ch).1);
  }

  lemma DropStep(c: Config, s: State, p: nat, ch: Choice)
    requires Ready(c, s, p) && (s.workers[p].DropSpill? || s.workers[p].DropPublish? || s.workers[p].UndoSwap?)
    ensures Inv(c, Next(c, s, Work(p, ch)))
  {
    hide FilesOk, Leaves, HoldersDiffer;
    var pc := s.workers[p];
    assert JobOk(c, s, pc.j);
    UnlinkFiles(c, s, if pc.UndoSwap? then TmpLink(pc.j.target) else Stage(pc.t), pc);
    WorkerMoves(c, s, Next(c, s, Work(p, ch)), p, After(c, s, p, ch).1);
  }

  lemma StageNames(c: Config, s: State, t: Ino)
    requires FilesOk(c, s.fs, s.owned)
    ensures Stage(t) in s.fs.names ==> s.fs.names[Stage(t)] == t
  {
  }

  /** A rename into a slot, over whatever a racing worker has put there. */
  lemma MoveStep(c: Config, s: State, p: nat, ch: Choice)
    requires Ready(c, s, p) && (s.workers[p].MoveSpill? || s.workers[p].Publish? || s.workers[p].MovePublish?)
    requires After(c, s, p, ch).0 != s.fs
    ensures Inv(c, Next(c, s, Work(p, ch)))
  {
    hide FilesOk, Leaves, HoldersDiffer;
    var pc := s.workers[p];
    assert PcOk(c, s.fs, pc) && JobOk(c, s, pc.j);
    StageNames(c, s, pc.t);
    MoveFiles(c, s, Stage(pc.t), Slot(pc.j, pc.k), pc);
    WorkerMoves(c, s, Next(c, s, Work(p, ch)), p, After(c, s, p, ch).1);
  }

  lemma LinkStep(c: Config, s: State, p: nat, ch: Choice)
    requires Ready(c, s, p) && s.workers[p].Acquired?
    requires After(c, s, p, ch).0 != s.fs
    ensures Inv(c, Next(c, s, Work(p, ch)))
  {
    hide FilesOk, Leaves, HoldersDiffer;
    var pc := s.workers[p];
    assert JobOk(c, s, pc.j);
    LinkFiles(c, s, Slot(pc.j, pc.k), pc.j.target, pc);
    WorkerMoves(c, s, Next(c, s, Work(p, ch)), p, After(c, s, p, ch).1);
  }

  lemma SwapStep(c: Config, s: State, p: nat, ch: Choice)
    requires Ready(c, s, p) && s.workers[p].Swap?
    requires After(c, s, p, ch).0 != s.fs
    ensures Inv(c, Next(c, s, Work(p, ch)))
  {
    hide FilesOk, Leaves, HoldersDiffer;
    var pc := s.workers[p];
    assert PcOk(c, s.fs, pc) && JobOk(c, s, pc.j);
    SwapFiles(c, s, pc.j.target, pc);
    WorkerMoves(c, s, Next(c, s, Work(p, ch)), p, After(c, s, p, ch).1);
  }

  lemma WorkStep(c: Config, s: State, p: nat, ch: Choice)
    requires Inv(c, s) && Enabled(c, s, Work(p, ch))
    ensures Inv(c, Next(c, s, Work(p, ch)))
  {
    var pc := s.workers[p];
    if pc.Idle? {
      assert s.workers[p := Idle] == s.workers;
    } else if pc.CopyStage? {
      CopyStep(c, s, p, ch);
    } else if After(c, s, p, ch).0 == s.fs {
      ProbeStep(c, s, p, ch);
    } else {
      match pc
      case CreateStage(_, _, _, _) => CreateStep(c, s, p, ch);
      case DropSpill(_, _, _) => DropStep(c, s, p, ch);
      case DropPublish(_, _, _) => DropStep(c, s, p, ch);
      case UndoSwap(_, _) => DropStep(c, s, p, ch);
      case Acquired(_, _) => LinkStep(c, s, p, ch);
      case Swap(_, _) => SwapStep(c, s, p, ch);
      case _ => MoveStep(c, s, p, ch);
    }
  }

  // ─── Everyone else ────────────────────────────────────────────────────────

  /** A step of a collector, a sweeper or the clock: no worker moves. */
  lemma OthersMove(c: Config, s: State, s': State)
    requires Inv(c, s)
    requires FilesStep(c, s, s'.fs, Idle) && s'.workers == s.workers && s'.owned == s.owned
    ensures Inv(c, s')
  {
    forall q | 0 <= q < |s.workers| ensures PcOk(c, s'.fs, s.workers[q]) {
      PcStable(c, s.fs, s'.fs, Idle, s.workers[q]);
    }
  }

  lemma CollectorStep(c: Config, s: State, g: nat)
    requires Inv(c, s) && g < |s.collectors|
    ensures Inv(c, Next(c, s, GcAct(g)))
  {
    hide FilesOk, Leaves, WorkersOk;
    var pc := s.collectors[g];
    SlotsGood(c, s);
    match pc {
      case GcIdle =>
        NoChange(c, s, Idle);
      case GcMove(d, k, ts) =>
        NoChange(c, s, Idle);
        if Object(d, k) in s.fs.names {
          MoveFiles(c, s, Object(d, k), Quarantine(ts, d, k), Idle);
        }
      case GcRevive(d, k, ts) =>
        NoChange(c, s, Idle);
        if Quarantine(ts, d, k) in s.fs.names {
          MoveFiles(c, s, Quarantine(ts, d, k), Object(d, k), Idle);
        }
      case GcPurge(d, k, ts) =>
        UnlinkFiles(c, s, Quarantine(ts, d, k), Idle);
    }
    OthersMove(c, s, Next(c, s, GcAct(g)));
  }

  lemma SlotsGood(c: Config, s: State)
    requires FilesOk(c, s.fs, s.owned)
    ensures StoreOk(c, s.fs)
  {
  }

  lemma ChmodFiles(c: Config, s: State, i: Ino, mode: Mode)
    requires FilesOk(c, s.fs, s.owned) && i in s.fs.nodes
    ensures FilesStep(c, s, s.fs.Chmod(i, mode), Idle)
  {
  }

  /** Steps of the owner: they touch no path a worker attends to. */
  lemma OwnerStep(c: Config, s: State, s': State, w: WorkPath)
    requires Inv(c, s) && Unattended(s, w)
    requires FilesOk(c, s'.fs, s'.owned) && Leaves(s.fs, s'.fs, Idle) && s'.workers == s.workers
    requires s'.owned == s.owned - {w} || (w in s'.owned && s'.owned == s.owned[w := s'.owned[w]])
    ensures Inv(c, s')
  {
    hide FilesOk;
    forall q | 0 <= q < |s.workers| ensures PcOk(c, s'.fs, s.workers[q]) {
      PcStable(c, s.fs, s'.fs, Idle, s.workers[q]);
    }
    forall q | 0 <= q < |s.workers| && s.workers[q] != Idle ensures JobOk(c, s', s.workers[q].j) {
      assert s.workers[q] in s.workers;
    }
  }

  lemma WriteOwnerFiles(c: Config, s: State, w: WorkPath, node: Node)
    requires FilesOk(c, s.fs, s.owned) && node.data in c.corpus && node.closed
    ensures FilesOk(c, s.fs.Create(File(w), node), s.owned[w := node.data])
  {
  }

  lemma WriteStep(c: Config, s: State, w: WorkPath, data: Bytes)
    requires Inv(c, s) && Enabled(c, s, UserWrite(w, data))
    ensures Inv(c, Next(c, s, UserWrite(w, data)))
  {
    hide Leaves, FilesOk;
    NamesValid(c, s);
    WriteOwnerFiles(c, s, w, Node(data, MODE_644, true));
    CreateLeaves(s.fs, File(w), Node(data, MODE_644, true), Idle);
    OwnerStep(c, s, Next(c, s, UserWrite(w, data)), w);
  }

  /** The one name of a file nobody has open may be written in place. */
  lemma PatchFiles(c: Config, s: State, w: WorkPath, data: Bytes)
    requires FilesOk(c, s.fs, s.owned) && w in s.owned && File(w) in s.fs.names && s.fs.names[File(w)] in s.fs.nodes
    requires s.fs.LinksAt(File(w)) == 1 && data in c.corpus
    ensures FilesOk(c, s.fs.SetData(s.fs.names[File(w)], data), s.owned[w := data])
    ensures forall p :: p in s.fs.names && s.fs.names[p] == s.fs.names[File(w)] ==> p == File(w)
  {
    var i := s.fs.names[File(w)];
    forall p | p in s.fs.names && s.fs.names[p] == i ensures p == File(w) {
      SoleName(s.fs, File(w), p);
    }
  }

  lemma PatchLeavesPc(c: Config, s: State, w: WorkPath, data: Bytes, pc: Pc)
    requires PcOk(c, s.fs, pc) && File(w) in s.fs.names && s.fs.names[File(w)] in s.fs.nodes && StageOk(s.fs)
    requires forall p :: p in s.fs.names && s.fs.names[p] == s.fs.names[File(w)] ==> p == File(w)
    requires s.fs.nodes[s.fs.names[File(w)]].closed
    requires pc.CreateStage? || pc.CopyStage? ==> pc.src != s.fs.names[File(w)]
    ensures PcOk(c, s.fs.SetData(s.fs.names[File(w)], data), pc)
  {
  }

  lemma PatchStep(c: Config, s: State, w: WorkPath, data: Bytes)
    requires Inv(c, s) && Enabled(c, s, UserPatch(w, data))
    ensures Inv(c, Next(c, s, UserPatch(w, data)))
  {
    PatchFiles(c, s, w, data);
    assert Good(c, s.fs, s.fs.names[File(w)], c.hash(s.owned[w]));
    var s' := Next(c, s, UserPatch(w, data));
    forall q | 0 <= q < |s.workers| ensures PcOk(c, s'.fs, s.workers[q]) {
      assert s.workers[q] in s.workers;
      PatchLeavesPc(c, s, w, data, s.workers[q]);
    }
    hide FilesOk, PcOk;
    forall q | 0 <= q < |s.workers| && s.workers[q] != Idle ensures JobOk(c, s', s.workers[q].j) {
      assert s.workers[q] in s.workers;
    }
  }

  lemma UserLinkStep(c: Config, s: State, w: WorkPath, to: WorkPath)
    requires Inv(c, s) && Enabled(c, s, UserLink(w, to))
    ensures Inv(c, Next(c, s, UserLink(w, to)))
  {
    hide Leaves, FilesOk;
    UserLinkFiles(c, s, w, to);
    OwnerStep(c, s, Next(c, s, UserLink(w, to)), to);
  }

  lemma UserLinkFiles(c: Config, s: State, w: WorkPath, to: WorkPath)
    requires FilesOk(c, s.fs, s.owned) && s.fs.CanLink(File(w), File(to)) && w in s.owned
    ensures FilesOk(c, s.fs.Link(File(w), File(to)), s.owned[to := s.owned[w]])
    ensures Leaves(s.fs, s.fs.Link(File(w), File(to)), Idle)
  {
  }

  lemma DeleteStep(c: Config, s: State, w: WorkPath)
    requires Inv(c, s) && Enabled(c, s, UserDelete(w))
    ensures Inv(c, Next(c, s, UserDelete(w)))
  {
    hide Leaves, FilesOk;
    DeleteFiles(c, s, w);
    OwnerStep(c, s, Next(c, s, UserDelete(w)), w);
  }

  lemma DeleteFiles(c: Config, s: State, w: WorkPath)
    requires FilesOk(c, s.fs, s.owned)
    ensures FilesOk(c, s.fs.Unlink(File(w)), s.owned - {w})
    ensures Leaves(s.fs, s.fs.Unlink(File(w)), Idle)
  {
  }

  lemma BeginStep(c: Config, s: State, p: nat, w: WorkPath, publish: bool)
    requires Inv(c, s) && Enabled(c, s, Begin(p, w, publish))
    ensures Inv(c, Next(c, s, Begin(p, w, publish)))
  {
    hide Leaves, HoldersDiffer;
    var j := Job(w, c.hash(s.fs.DataAt(File(w))), publish);
    assert Good(c, s.fs, s.fs.names[File(w)], c.hash(s.owned[w]));
    NoChange(c, s, Idle);
    NoChange(c, s, s.workers[p]);
    WorkerMoves(c, s, Next(c, s, Begin(p, w, publish)), p, ProbeMaster(j));
  }

  lemma StopStep(c: Config, s: State, p: nat)
    requires Inv(c, s) && Enabled(c, s, Stop(p))
    ensures Inv(c, Next(c, s, Stop(p)))
  {
    hide Leaves, HoldersDiffer, FilesOk;
    NoChange(c, s, s.workers[p]);
    WorkerMoves(c, s, Next(c, s, Stop(p)), p, Idle);
  }

  lemma Step(c: Config, s: State, a: Action)
    requires Inv(c, s) && Enabled(c, s, a)
    ensures Inv(c, Next(c, s, a))
  {
    hide Leaves, HoldersDiffer, FilesOk;
    match a {
      case Begin(p, w, publish) => BeginStep(c, s, p, w, publish);
      case Work(p, ch) => WorkStep(c, s, p, ch);
      case Stop(p) => StopStep(c, s, p);
      case GcAct(g) => CollectorStep(c, s, g);
      case SweepStage(t) => UnlinkFiles(c, s, Stage(t), Idle); OthersMove(c, s, Next(c, s, a));
      case ChangeMode(i, mode) => ChmodFiles(c, s, i, mode); OthersMove(c, s, Next(c, s, a));
      case UserWrite(w, data) => WriteStep(c, s, w, data);
      case UserPatch(w, data) => PatchStep(c, s, w, data);
      case UserLink(w, to) => UserLinkStep(c, s, w, to);
      case UserDelete(w) => DeleteStep(c, s, w);
      case _ => NoChange(c, s, Idle); OthersMove(c, s, Next(c, s, a));
    }
  }

  lemma InitInv(c: Config, s: State)
    requires Init(c, s)
    ensures Inv(c, s)
  {
    assert forall p :: 0 <= p < |s.workers| ==> s.workers[p] in s.workers;
  }

  lemma {:induction false} RunInv(c: Config, states: seq<State>, acts: seq<Action>, n: nat)
    requires Run(c, states, acts) && n <= |acts|
    ensures Inv(c, states[n])
  {
    if n == 0 {
      InitInv(c, states[0]);
    } else {
      RunInv(c, states, acts, n - 1);
      assert Steps(c, states[n - 1], acts[n - 1], states[n - 1 + 1]);
      Step(c, states[n - 1], acts[n - 1]);
    }
  }

  // ─── What holds in every run ──────────────────────────────────────────────

  /** Every slot, live or in quarantine, holds complete content that hashes to its name, even
      where a rename has replaced a racing winner. */
  lemma AlwaysContentAddressed(c: Config, states: seq<State>, acts: seq<Action>, n: nat, p: Path)
    requires Run(c, states, acts) && n <= |acts|
    requires (p.Object? || p.Quarantine?) && p in states[n].fs.names
    ensures states[n].fs.names[p] in states[n].fs.nodes
    ensures c.hash(states[n].fs.DataAt(p)) == p.digest
    ensures states[n].fs.nodes[states[n].fs.names[p]].closed
  {
    RunInv(c, states, acts, n);
    assert Good(c, states[n].fs, states[n].fs.names[p], p.digest);
  }

  /** Whatever workers, collectors and sweepers do and wherever they are cut off, a workspace
      path exists exactly while its owner wants it and reads the bytes its owner stored. */
  lemma AlwaysWorkspaceIntact(c: Config, states: seq<State>, acts: seq<Action>, n: nat, w: WorkPath)
    requires Run(c, states, acts) && n <= |acts| && c.CollisionFree()
    ensures File(w) in states[n].fs.names <==> w in states[n].owned
    ensures w in states[n].owned ==>
      && states[n].fs.names[File(w)] in states[n].fs.nodes
      && states[n].fs.DataAt(File(w)) == states[n].owned[w]
  {
    RunInv(c, states, acts, n);
  }

  /** No worker is ever stuck on a file that is not open. */
  lemma AlwaysFilesOpen(c: Config, states: seq<State>, acts: seq<Action>, n: nat, p: nat)
    requires Run(c, states, acts) && n <= |acts| && p < |states[n].workers|
    ensures FilesOpen(states[n].fs, states[n].workers[p])
  {
    RunInv(c, states, acts, n);
    assert PcOk(c, states[n].fs, states[n].workers[p]);
  }
}
