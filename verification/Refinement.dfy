/** The two layers agree: what the sequential operations do to the volume is what a worker or
    collector that happens to run undisturbed does in the transition system, step by step. */
module Refinement {
  import opened Filesystem
  import opened Gc
  import opened Linkage
  import opened LinkageLaws
  import opened Permissions
  import opened Protocol
  import opened Store

  /** `acts`, taken one after the other from `s`, lead to `s'`. */
  ghost predicate Reaches(c: Config, s: State, acts: seq<Action>, s': State)
    decreases |acts|
  {
    if acts == [] then s' == s
    else Enabled(c, s, acts[0]) && Reaches(c, Next(c, s, acts[0]), acts[1..], s')
  }

  lemma {:induction false} Joined(c: Config, s: State, a: seq<Action>, mid: State, b: seq<Action>, s': State)
    requires Reaches(c, s, a, mid) && Reaches(c, mid, b, s')
    ensures Reaches(c, s, a + b, s')
    decreases |a|
  {
    if a == [] {
      assert a + b == b;
    } else {
      Joined(c, Next(c, s, a[0]), a[1..], mid, b, s');
      assert (a + b)[1..] == a[1..] + b;
    }
  }

  lemma Then(c: Config, s: State, a: seq<Action>, mid: State, act: Action) returns (acts: seq<Action>)
    requires Reaches(c, s, a, mid) && Enabled(c, mid, act)
    ensures acts == a + [act] && Reaches(c, s, acts, Next(c, mid, act))
  {
    assert [act][1..] == [];
    assert Reaches(c, mid, [act], Next(c, mid, act));
    Joined(c, s, a, mid, [act], Next(c, mid, act));
    acts := a + [act];
  }

  /** Only worker `p` moves, and modes may change. */
  predicate Solo(p: nat, acts: seq<Action>) {
    forall a <- acts :: a.ChangeMode? || (a.Work? && a.p == p) || (a.Stop? && a.p == p)
  }

  function At(s: State, p: nat, fs: Fs, pc: Pc): State
    requires p < |s.workers|
  {
    s.(fs := fs, workers := s.workers[p := pc], staged := if fs.next > s.fs.next then s.staged + {s.fs.next} else s.staged)
  }

  const GO := Choice(0, true, false)

  /** One step of worker `p`, put at the end of a solo run. */
  lemma Go(c: Config, s: State, p: nat, acts: seq<Action>, mid: State, ch: Choice) returns (acts': seq<Action>)
    requires Reaches(c, s, acts, mid) && Solo(p, acts) && p < |mid.workers| && FilesOpen(mid.fs, mid.workers[p])
    ensures Solo(p, acts') && Reaches(c, s, acts', Next(c, mid, Work(p, ch)))
  {
    acts' := Then(c, s, acts, mid, Work(p, ch));
  }

  // ─── Copying ──────────────────────────────────────────────────────────────

  function CopiedPc(j: Job, k: nat, t: Ino, spill: bool): Pc {
    if spill then ReprobeSpill(j, k, t) else Protocol.Publish(j, k, t)
  }

  /** The last step of a copy, when the stage file holds everything. */
  lemma CloseSolo(c: Config, s: State, p: nat, j: Job, k: nat, src: Ino, spill: bool, mid: State)
    requires src in s.fs.nodes && src != s.fs.next && s.fs.nodes[src].closed && p < |s.workers|
    requires mid == At(s, p, s.fs.Create(Stage(s.fs.next), s.fs.nodes[src].(closed := false)), CopyStage(j, k, src, spill, s.fs.next))
    ensures FilesOpen(mid.fs, mid.workers[p])
    ensures Next(c, mid, Work(p, GO)) == At(s, p, s.fs.Create(Stage(s.fs.next), s.fs.nodes[src]), CopiedPc(j, k, s.fs.next, spill))
  {
    var t := s.fs.next;
    var s' := Next(c, mid, Work(p, GO));
    assert s'.fs == mid.fs.Close(t);
    assert s'.fs.nodes == s.fs.nodes[t := s.fs.nodes[src]];
    assert s'.workers == s.workers[p := CopiedPc(j, k, t, spill)];
  }

  /** A copy into a stage file, from its creation to its close. */
  lemma CopySolo(c: Config, s: State, p: nat, j: Job, k: nat, src: Ino, spill: bool) returns (acts: seq<Action>)
    requires WellFormed(s.fs) && src in s.fs.nodes && s.fs.nodes[src].closed
    requires p < |s.workers| && s.workers[p] == CreateStage(j, k, src, spill)
    ensures Solo(p, acts)
    ensures Reaches(c, s, acts, At(s, p, s.fs.Create(Stage(s.fs.next), s.fs.nodes[src]), CopiedPc(j, k, s.fs.next, spill)))
  {
    var t, node := s.fs.next, s.fs.nodes[src];
    var mid := At(s, p, s.fs.Create(Stage(t), node.(closed := false)), CopyStage(j, k, src, spill, t));
    CloseSolo(c, s, p, j, k, src, spill, mid);
    acts := PartSolo(c, s, p, j, k, src, spill, |node.data|);
    assert node.data[..|node.data|] == node.data;
    hide Reaches, WellFormed;
    acts := Go(c, s, p, acts, mid, GO);
  }

  /** The first `n` bytes of a copy. */
  lemma PartSolo(c: Config, s: State, p: nat, j: Job, k: nat, src: Ino, spill: bool, n: nat) returns (acts: seq<Action>)
    requires WellFormed(s.fs) && src in s.fs.nodes && n <= |s.fs.nodes[src].data|
    requires p < |s.workers| && s.workers[p] == CreateStage(j, k, src, spill)
    ensures Solo(p, acts)
    ensures Reaches(c, s, acts, At(s, p, s.fs.Create(Stage(s.fs.next), PartNode(s.fs.nodes[src], n)), CopyStage(j, k, src, spill, s.fs.next)))
  {
    var t, node := s.fs.next, s.fs.nodes[src];
    Stay(c, s);
    acts := Go(c, s, p, [], s, GO);
    var s1 := Next(c, s, Work(p, GO));
    hide Reaches, WellFormed;
    assert s1 == At(s, p, s.fs.Create(Stage(t), Node([], node.mode, false)), CopyStage(j, k, src, spill, t));
    if n > 0 {
      var ch := Choice(n, true, false);
      acts := Go(c, s, p, acts, s1, ch);
      FillSolo(c, s, p, j, k, src, spill, s1, ch);
    }
  }

  function PartNode(source: Node, n: nat): Node
    requires n <= |source.data|
  {
    Node(source.data[..n], source.mode, false)
  }

  lemma FillSolo(c: Config, s: State, p: nat, j: Job, k: nat, src: Ino, spill: bool, mid: State, ch: Choice)
    requires src in s.fs.nodes && src != s.fs.next && p < |s.workers| && 0 < ch.n <= |s.fs.nodes[src].data|
    requires mid == At(s, p, s.fs.Create(Stage(s.fs.next), Node([], s.fs.nodes[src].mode, false)), CopyStage(j, k, src, spill, s.fs.next))
    ensures FilesOpen(mid.fs, mid.workers[p])
    ensures Next(c, mid, Work(p, ch)) ==
            At(s, p, s.fs.Create(Stage(s.fs.next), PartNode(s.fs.nodes[src], ch.n)), CopyStage(j, k, src, spill, s.fs.next))
  {
    var t, part := s.fs.next, PartNode(s.fs.nodes[src], ch.n);
    var s' := Next(c, mid, Work(p, ch));
    assert s'.fs == mid.fs.SetData(t, part.data);
    assert s'.fs.nodes == s.fs.nodes[t := part];
    assert s'.workers == mid.workers;
  }

  lemma Stay(c: Config, s: State)
    ensures Reaches(c, s, [], s)
  {
  }

  // ─── Acquiring ────────────────────────────────────────────────────────────

  /** One step of a worker, put at the end of a solo run. */
  lemma Act(c: Config, s: State, p: nat, acts: seq<Action>, fs: Fs, pc: Pc, ch: Choice, fs': Fs, pc': Pc) returns (acts': seq<Action>)
    requires p < |s.workers| && FilesOpen(fs, pc) && !pc.CreateStage? && fs'.next == fs.next
    requires Reaches(c, s, acts, At(s, p, fs, pc)) && Solo(p, acts)
    requires WorkerNext(c, fs, pc, ch) == (fs', pc')
    ensures Solo(p, acts') && Reaches(c, s, acts', At(s, p, fs', pc'))
  {
    hide Reaches, WorkerNext;
    var mid := At(s, p, fs, pc);
    acts' := Go(c, s, p, acts, mid, ch);
    assert Next(c, mid, Work(p, ch)) == At(s, p, fs', pc');
  }

  /** One step that only reads and decides. */
  lemma Decide(c: Config, s: State, p: nat, acts: seq<Action>, pc: Pc, pc': Pc) returns (acts': seq<Action>)
    requires p < |s.workers| && FilesOpen(s.fs, pc) && !pc.CreateStage?
    requires Reaches(c, s, acts, At(s, p, s.fs, pc)) && Solo(p, acts)
    requires WorkerNext(c, s.fs, pc, GO) == (s.fs, pc')
    ensures Solo(p, acts') && Reaches(c, s, acts', At(s, p, s.fs, pc'))
  {
    acts' := Act(c, s, p, acts, s.fs, pc, GO, s.fs, pc');
  }

  /** What acquiring from slot `k` on does to the volume. */
  function AcquiredFrom(fs: Fs, limit: nat, d: Digest, k: nat): Fs
    requires Object(d, k) in fs.names && fs.Valid()
  {
    var r := OpenIndex(fs, limit, d, k);
    if Object(d, r) in fs.names then fs
    else
      assert Full(fs, limit, d, r - 1);
      Spilled(fs, d, r)
  }

  /** A copy by a worker that has come to it from `s` without changing the volume. */
  lemma CopyFrom(c: Config, s: State, p: nat, acts: seq<Action>, j: Job, k: nat, src: Ino, spill: bool) returns (acts': seq<Action>)
    requires WellFormed(s.fs) && src in s.fs.nodes && s.fs.nodes[src].closed && p < |s.workers|
    requires Reaches(c, s, acts, At(s, p, s.fs, CreateStage(j, k, src, spill))) && Solo(p, acts)
    ensures Solo(p, acts')
    ensures Reaches(c, s, acts', At(s, p, s.fs.Create(Stage(s.fs.next), s.fs.nodes[src]), CopiedPc(j, k, s.fs.next, spill)))
  {
    hide Reaches;
    var s1 := At(s, p, s.fs, CreateStage(j, k, src, spill));
    var copy := CopySolo(c, s1, p, j, k, src, spill);
    var fs', pc' := s.fs.Create(Stage(s.fs.next), s.fs.nodes[src]), CopiedPc(j, k, s.fs.next, spill);
    Again(s, p, s.fs, CreateStage(j, k, src, spill), fs', pc');
    Joined(c, s, acts, s1, copy, At(s, p, fs', pc'));
    acts' := acts + copy;
  }

  /** The same for a copy that is broken off. */
  lemma PartFrom(c: Config, s: State, p: nat, acts: seq<Action>, j: Job, k: nat, src: Ino, spill: bool, n: nat) returns (acts': seq<Action>)
    requires WellFormed(s.fs) && src in s.fs.nodes && n <= |s.fs.nodes[src].data| && p < |s.workers|
    requires Reaches(c, s, acts, At(s, p, s.fs, CreateStage(j, k, src, spill))) && Solo(p, acts)
    ensures Solo(p, acts')
    ensures Reaches(c, s, acts', At(s, p, s.fs.Create(Stage(s.fs.next), PartNode(s.fs.nodes[src], n)), Idle))
  {
    hide Reaches;
    var s1 := At(s, p, s.fs, CreateStage(j, k, src, spill));
    var part := PartSolo(c, s1, p, j, k, src, spill, n);
    var fs', pc' := s.fs.Create(Stage(s.fs.next), PartNode(s.fs.nodes[src], n)), CopyStage(j, k, src, spill, s.fs.next);
    Again(s, p, s.fs, CreateStage(j, k, src, spill), fs', pc');
    Joined(c, s, acts, s1, part, At(s, p, fs', pc'));
    acts' := GivesUp(c, s, p, acts + part, fs', pc');
  }

  lemma AtStart(s: State, p: nat)
    requires p < |s.workers|
    ensures At(s, p, s.fs, s.workers[p]) == s
  {
  }

  lemma SpillSteps(c: Config, fs: Fs, j: Job, k: nat)
    requires WellFormed(fs) && k > 0 && Slot(j, k - 1) in fs.names && Slot(j, k) !in fs.names
    ensures WorkerNext(c, fs, ProbeSpill(j, k), GO) == (fs, OpenSpill(j, k))
    ensures WorkerNext(c, fs, OpenSpill(j, k), GO) == (fs, CreateStage(j, k, fs.names[Slot(j, k - 1)], true))
    ensures var t, staged := fs.next, fs.Create(Stage(fs.next), fs.nodes[fs.names[Slot(j, k - 1)]]);
      && WorkerNext(c, staged, ReprobeSpill(j, k, t), GO) == (staged, MoveSpill(j, k, t))
      && WorkerNext(c, staged, MoveSpill(j, k, t), GO) == (Spilled(fs, j.digest, k), Acquired(j, k))
  {
    assert Stage(fs.next) !in fs.names;
    MovesIn(fs, fs.next, fs.nodes[fs.names[Slot(j, k - 1)]], Slot(j, k));
  }

  /** Making the spill slot `k`, from the decision to make it. */
  lemma SpillSolo(c: Config, s: State, p: nat, j: Job, k: nat) returns (acts: seq<Action>)
    requires WellFormed(s.fs) && p < |s.workers| && s.workers[p] == ProbeSpill(j, k)
    requires k > 0 && Slot(j, k - 1) in s.fs.names && Slot(j, k) !in s.fs.names
    ensures Solo(p, acts) && Reaches(c, s, acts, At(s, p, Spilled(s.fs, j.digest, k), Acquired(j, k)))
  {
    var t, src := s.fs.next, s.fs.names[Slot(j, k - 1)];
    Stay(c, s);
    assert Stage(t) !in s.fs.names;
    SpillSteps(c, s.fs, j, k);
    AtStart(s, p);
    hide Reaches, OneStoreName, WorkerNext, At;
    acts := Decide(c, s, p, [], ProbeSpill(j, k), OpenSpill(j, k));
    acts := Decide(c, s, p, acts, OpenSpill(j, k), CreateStage(j, k, src, true));
    acts := CopyFrom(c, s, p, acts, j, k, src, true);
    var staged := s.fs.Create(Stage(t), s.fs.nodes[src]);
    acts := Act(c, s, p, acts, staged, ReprobeSpill(j, k, t), GO, staged, MoveSpill(j, k, t));
    acts := Act(c, s, p, acts, staged, MoveSpill(j, k, t), GO, Spilled(s.fs, j.digest, k), Acquired(j, k));
  }

  lemma MovesIn(fs: Fs, t: Ino, node: Node, slot: Path)
    requires t == fs.next && Stage(t) !in fs.names && slot !in fs.names && slot.Object?
    ensures fs.Create(Stage(t), node).Rename(Stage(t), slot) == fs.Create(slot, node)
  {
    assert fs.names[Stage(t) := t] - {Stage(t)} == fs.names;
  }

  lemma {:induction false} ProbeSolo(c: Config, s: State, p: nat, j: Job, k: nat) returns (acts: seq<Action>)
    requires WellFormed(s.fs) && p < |s.workers| && s.workers[p] == ProbeSlot(j, k) && Slot(j, k) in s.fs.names
    ensures Solo(p, acts)
    ensures Reaches(c, s, acts, At(s, p, AcquiredFrom(s.fs, c.maxLinks, j.digest, k), Acquired(j, OpenIndex(s.fs, c.maxLinks, j.digest, k))))
    decreases |SlotsFrom(s.fs, j.digest, k)|
  {
    Stay(c, s);
    hide Reaches, OneStoreName;
    assert At(s, p, s.fs, ProbeSlot(j, k)) == s;
    acts := Decide(c, s, p, [], ProbeSlot(j, k), StatSlot(j, k));
    if !Full(s.fs, c.maxLinks, j.digest, k) {
      acts := Decide(c, s, p, acts, StatSlot(j, k), Acquired(j, k));
    } else {
      FewerSlots(s.fs, j.digest, k);
      acts := Decide(c, s, p, acts, StatSlot(j, k), ProbeNext(j, k + 1));
      if Slot(j, k + 1) in s.fs.names {
        acts := Decide(c, s, p, acts, ProbeNext(j, k + 1), ProbeSlot(j, k + 1));
        var s1 := At(s, p, s.fs, ProbeSlot(j, k + 1));
        var rest := ProbeSolo(c, s1, p, j, k + 1);
        Again(s, p, s.fs, ProbeSlot(j, k + 1), AcquiredFrom(s.fs, c.maxLinks, j.digest, k),
              Acquired(j, OpenIndex(s.fs, c.maxLinks, j.digest, k)));
        Joined(c, s, acts, s1, rest, At(s, p, AcquiredFrom(s.fs, c.maxLinks, j.digest, k), Acquired(j, OpenIndex(s.fs, c.maxLinks, j.digest, k))));
        acts := acts + rest;
      } else {
        acts := Decide(c, s, p, acts, ProbeNext(j, k + 1), ProbeSpill(j, k + 1));
        var s1 := At(s, p, s.fs, ProbeSpill(j, k + 1));
        var rest := SpillSolo(c, s1, p, j, k + 1);
        Again(s, p, s.fs, ProbeSpill(j, k + 1), Spilled(s.fs, j.digest, k + 1), Acquired(j, k + 1));
        Joined(c, s, acts, s1, rest, At(s, p, Spilled(s.fs, j.digest, k + 1), Acquired(j, k + 1)));
        acts := acts + rest;
      }
    }
  }

  lemma Again(s: State, p: nat, fs: Fs, pc: Pc, fs': Fs, pc': Pc)
    requires p < |s.workers| && fs.next == s.fs.next
    ensures At(At(s, p, fs, pc), p, fs', pc') == At(s, p, fs', pc')
  {
  }

  /** acquire_slot, from its first probe. */
  lemma AcquireSolo(c: Config, s: State, p: nat, j: Job) returns (acts: seq<Action>)
    requires WellFormed(s.fs) && p < |s.workers| && s.workers[p] == ProbeMaster(j)
    ensures Solo(p, acts)
    ensures Reaches(c, s, acts, At(s, p, AcquiredFs(s.fs, c.maxLinks, j.digest), Acquired(j, SlotFor(s.fs, c.maxLinks, j.digest).idx)))
  {
    Stay(c, s);
    hide Reaches, OneStoreName;
    assert At(s, p, s.fs, ProbeMaster(j)) == s;
    if Slot(j, 0) !in s.fs.names {
      acts := Decide(c, s, p, [], ProbeMaster(j), Acquired(j, 0));
    } else {
      acts := Decide(c, s, p, [], ProbeMaster(j), ProbeSlot(j, 0));
      var s1, k := At(s, p, s.fs, ProbeSlot(j, 0)), OpenIndex(s.fs, c.maxLinks, j.digest, 0);
      var rest := ProbeSolo(c, s1, p, j, 0);
      Again(s, p, s.fs, ProbeSlot(j, 0), AcquiredFrom(s.fs, c.maxLinks, j.digest, 0), Acquired(j, k));
      Joined(c, s, acts, s1, rest, At(s, p, AcquiredFrom(s.fs, c.maxLinks, j.digest, 0), Acquired(j, k)));
      acts := acts + rest;
    }
  }

  // ─── Publishing and linking ───────────────────────────────────────────────

  /** A mode change by worker `p`, put at the end of a solo run. */
  lemma Chmods(c: Config, s: State, p: nat, acts: seq<Action>, fs: Fs, pc: Pc, i: Ino, mode: Mode) returns (acts': seq<Action>)
    requires p < |s.workers| && i in fs.nodes
    requires Reaches(c, s, acts, At(s, p, fs, pc)) && Solo(p, acts)
    ensures Solo(p, acts') && Reaches(c, s, acts', At(s, p, fs.Chmod(i, mode), pc))
  {
    hide Reaches, WorkerNext;
    var mid := At(s, p, fs, pc);
    acts' := Then(c, s, acts, mid, ChangeMode(i, mode));
    assert Next(c, mid, ChangeMode(i, mode)) == At(s, p, fs.Chmod(i, mode), pc);
  }

  lemma PublishSteps(c: Config, fs: Fs, j: Job, k: nat)
    requires WellFormed(fs) && j.publish
    ensures WorkerNext(c, fs, Acquired(j, k), GO) == (fs, if Slot(j, k) in fs.names then Idle else OpenTarget(j, k))
    ensures WorkerNext(c, fs, OpenTarget(j, k), GO) ==
            (fs, if File(j.target) in fs.names then CreateStage(j, k, fs.names[File(j.target)], false) else Idle)
  {
  }

  lemma MoveSteps(c: Config, fs: Fs, j: Job, k: nat, node: Node)
    requires WellFormed(fs) && Slot(j, k) !in fs.names
    ensures var t, staged := fs.next, fs.Create(Stage(fs.next), node);
      && WorkerNext(c, staged, Protocol.Publish(j, k, t), GO) == (fs.Create(Slot(j, k), node), Idle)
      && WorkerNext(c, staged, Protocol.Publish(j, k, t), NO_MOVE) == (staged, DropPublish(j, k, t))
      && WorkerNext(c, staged, DropPublish(j, k, t), GO) == (staged.Unlink(Stage(t)), Idle)
  {
    assert Stage(fs.next) !in fs.names;
    MovesIn(fs, fs.next, node, Slot(j, k));
  }

  const NO_MOVE := Choice(0, true, true)

  /** The copy of a publication and what follows it, for every way they can end. */
  lemma StagingSolo(c: Config, s: State, p: nat, acts: seq<Action>, w: WorkPath, d: Digest, io: PublishIo) returns (acts': seq<Action>)
    requires WellFormed(s.fs) && p < |s.workers| && Publishes(s.fs, w, d)
    requires Reaches(c, s, acts, At(s, p, s.fs, CreateStage(Job(w, d, true), 0, s.fs.names[File(w)], false))) && Solo(p, acts)
    ensures Solo(p, acts') && Reaches(c, s, acts', At(s, p, StagedFs(s.fs, w, d, io), Idle))
  {
    hide Reaches, OneStoreName, WorkerNext, At;
    var j, t, src := Job(w, d, true), s.fs.next, s.fs.names[File(w)];
    var source := s.fs.nodes[src];
    assert source.closed;
    var staged := s.fs.Create(Stage(t), source);
    MoveSteps(c, s.fs, j, 0, source);
    assert source.(closed := true) == source;
    match io.copy
    case NotStaged =>
      acts' := GivesUp(c, s, p, acts, s.fs, CreateStage(j, 0, src, false));
    case Torn(n) =>
      acts' := PartFrom(c, s, p, acts, j, 0, src, false, if n < |source.data| then n else |source.data|);
    case Copied =>
      acts' := CopyFrom(c, s, p, acts, j, 0, src, false);
      if io.shard != Fine {
        acts' := GivesUp(c, s, p, acts', staged, Protocol.Publish(j, 0, t));
      } else if io.rename != Fine {
        acts' := Act(c, s, p, acts', staged, Protocol.Publish(j, 0, t), NO_MOVE, staged, DropPublish(j, 0, t));
        acts' := Act(c, s, p, acts', staged, DropPublish(j, 0, t), GO, staged.Unlink(Stage(t)), Idle);
      } else {
        var made := s.fs.Create(Object(d, 0), source);
        acts' := Act(c, s, p, acts', staged, Protocol.Publish(j, 0, t), GO, made, Idle);
        acts' := Chmods(c, s, p, acts', made, Idle, t, ReadOnlyMode(made.nodes[t].mode.Executable()));
      }
  }

  /** Undisturbed, a publishing worker does to the volume what publish_new_master alone does,
      whichever of its calls fail. */
  lemma PublishRefines(c: Config, s: State, p: nat, w: WorkPath, d: Digest, io: PublishIo) returns (acts: seq<Action>)
    requires WellFormed(s.fs) && p < |s.workers| && s.workers[p] == ProbeMaster(Job(w, d, true))
    ensures Solo(p, acts) && Reaches(c, s, acts, At(s, p, PublishedFs(s.fs, c.maxLinks, w, d, io), Idle))
  {
    var j, a, k := Job(w, d, true), AcquiredFs(s.fs, c.maxLinks, d), SlotFor(s.fs, c.maxLinks, d).idx;
    AcquireKeepsValid(s.fs, c.maxLinks, d);
    AcquireMaster(s.fs, c.maxLinks, d);
    acts := AcquireSolo(c, s, p, j);
    PublishSteps(c, a, j, k);
    hide Reaches, OneStoreName, OpenIndex, WorkerNext, At, StagedFs;
    if Slot(j, k) in a.names {
      acts := Act(c, s, p, acts, a, Acquired(j, k), GO, a, Idle);
    } else {
      acts := Act(c, s, p, acts, a, Acquired(j, k), GO, a, OpenTarget(j, k));
      if File(w) !in s.fs.names {
        acts := Act(c, s, p, acts, a, OpenTarget(j, k), GO, a, Idle);
      } else {
        acts := Act(c, s, p, acts, a, OpenTarget(j, k), GO, a, CreateStage(j, k, s.fs.names[File(w)], false));
        acts := StagingSolo(c, s, p, acts, w, d, io);
      }
    }
  }

  lemma LinkSteps(c: Config, fs: Fs, j: Job, k: nat)
    requires fs.Valid() && !j.publish
    ensures !fs.CanLink(Slot(j, k), TmpLink(j.target)) ==> WorkerNext(c, fs, Acquired(j, k), GO) == (fs, Idle)
    ensures fs.CanLink(Slot(j, k), TmpLink(j.target)) ==>
              var linked := fs.Link(Slot(j, k), TmpLink(j.target));
              && WorkerNext(c, fs, Acquired(j, k), GO) == (linked, Swap(j, k))
              && WorkerNext(c, linked, Swap(j, k), Choice(0, true, true)) == (linked, UndoSwap(j, k))
              && WorkerNext(c, linked, UndoSwap(j, k), GO) == (linked.Unlink(TmpLink(j.target)), Idle)
              && WorkerNext(c, linked, Swap(j, k), GO) == (linked.Rename(TmpLink(j.target), File(j.target)), Idle)
  {
  }

  /** The swap, and the slot made read-only after it. */
  lemma SwapSolo(c: Config, s: State, p: nat, acts: seq<Action>, linked: Fs, j: Job, k: nat) returns (acts': seq<Action>)
    requires p < |s.workers| && linked.Valid() && Slot(j, k) in linked.names && TmpLink(j.target) in linked.names
    requires WorkerNext(c, linked, Swap(j, k), GO) == (linked.Rename(TmpLink(j.target), File(j.target)), Idle)
    requires Reaches(c, s, acts, At(s, p, linked, Swap(j, k))) && Solo(p, acts)
    ensures Solo(p, acts') && Reaches(c, s, acts', At(s, p, Enforced(linked.Rename(TmpLink(j.target), File(j.target)), Slot(j, k)), Idle))
  {
    hide Reaches, WorkerNext, At;
    var swapped := linked.Rename(TmpLink(j.target), File(j.target));
    acts' := Act(c, s, p, acts, linked, Swap(j, k), GO, swapped, Idle);
    var i := swapped.names[Slot(j, k)];
    acts' := Chmods(c, s, p, acts', swapped, Idle, i, ReadOnlyMode(swapped.nodes[i].mode.Executable()));
  }

  /** The worker returns an error. */
  lemma GivesUp(c: Config, s: State, p: nat, acts: seq<Action>, fs: Fs, pc: Pc) returns (acts': seq<Action>)
    requires p < |s.workers| && Reaches(c, s, acts, At(s, p, fs, pc)) && Solo(p, acts)
    ensures Solo(p, acts') && Reaches(c, s, acts', At(s, p, fs, Idle))
  {
    hide Reaches, WorkerNext;
    var mid := At(s, p, fs, pc);
    acts' := Then(c, s, acts, mid, Stop(p));
    assert Next(c, mid, Stop(p)) == At(s, p, fs, Idle);
  }

  /** The part of link_to_master that follows the unlocking of the target. */
  function Relinked(ready: Fs, slot: Path, w: WorkPath, io: LinkIo): Fs
    requires ready.Valid()
  {
    if io.link != Fine || !ready.CanLink(slot, TmpLink(w)) then ready
    else
      var linked := ready.Link(slot, TmpLink(w));
      if io.swap != Fine then linked.Unlink(TmpLink(w))
      else Enforced(linked.Rename(TmpLink(w), File(w)), slot)
  }

  lemma RelinkSolo(c: Config, s: State, p: nat, acts: seq<Action>, ready: Fs, j: Job, k: nat, io: LinkIo) returns (acts': seq<Action>)
    requires p < |s.workers| && ready.Valid() && !j.publish
    requires Reaches(c, s, acts, At(s, p, ready, Acquired(j, k))) && Solo(p, acts)
    ensures Solo(p, acts') && Reaches(c, s, acts', At(s, p, Relinked(ready, Slot(j, k), j.target, io), Idle))
  {
    LinkSteps(c, ready, j, k);
    hide Reaches, WorkerNext, At;
    if io.link != Fine {
      acts' := GivesUp(c, s, p, acts, ready, Acquired(j, k));
    } else if !ready.CanLink(Slot(j, k), TmpLink(j.target)) {
      acts' := Act(c, s, p, acts, ready, Acquired(j, k), GO, ready, Idle);
    } else {
      var linked := ready.Link(Slot(j, k), TmpLink(j.target));
      acts' := Act(c, s, p, acts, ready, Acquired(j, k), GO, linked, Swap(j, k));
      if io.swap != Fine {
        acts' := Act(c, s, p, acts', linked, Swap(j, k), Choice(0, true, true), linked, UndoSwap(j, k));
        acts' := Act(c, s, p, acts', linked, UndoSwap(j, k), GO, linked.Unlink(TmpLink(j.target)), Idle);
      } else {
        acts' := SwapSolo(c, s, p, acts', linked, j, k);
      }
    }
  }

  /** Undisturbed, a linking worker does to the volume what link_to_master alone does, whichever
      of its calls fail. */
  lemma LinkRefines(c: Config, s: State, p: nat, w: WorkPath, d: Digest, io: LinkIo) returns (acts: seq<Action>)
    requires WellFormed(s.fs) && p < |s.workers| && s.workers[p] == ProbeMaster(Job(w, d, false))
    ensures Solo(p, acts) && Reaches(c, s, acts, At(s, p, LinkedFs(s.fs, c.maxLinks, w, d, io), Idle))
  {
    var j, a, k := Job(w, d, false), AcquiredFs(s.fs, c.maxLinks, d), SlotFor(s.fs, c.maxLinks, d).idx;
    AcquireKeepsValid(s.fs, c.maxLinks, d);
    acts := AcquireSolo(c, s, p, j);
    hide Reaches, OneStoreName, OpenIndex, AcquiredFs, WorkerNext, At;
    var ready := Stripped(a, w);
    if ready != a {
      acts := Chmods(c, s, p, acts, a, Acquired(j, k), a.names[File(w)], MODE_644);
    }
    acts := RelinkSolo(c, s, p, acts, ready, j, k, io);
  }

  // ─── Collecting ───────────────────────────────────────────────────────────

  /** Undisturbed, a collector does to one slot what evaluate_objects_slot alone does. */
  lemma CollectSlotRefines(c: Config, s: State, g: nat, slot: SlotRef)
    requires g < |s.collectors| && s.collectors[g] == GcIdle
    ensures Enabled(c, s, GcScanObject(g, slot.digest, slot.idx))
    ensures var seen := Next(c, s, GcScanObject(g, slot.digest, slot.idx));
            Enabled(c, seen, GcAct(g)) && Next(c, seen, GcAct(g)).fs == AfterSlot(s.fs, slot, s.clock)
  {
  }

  /** And to one entry what evaluate_quarantine_entry does; an entry that is cooling is not
      looked at. */
  lemma CollectEntryRefines(c: Config, s: State, g: nat, e: Entry, cooldownSecs: nat)
    requires s.fs.Valid() && g < |s.collectors| && s.collectors[g] == GcIdle && c.cooldown == cooldownSecs * 1_000
    ensures var scan := GcScanEntry(g, e.digest, e.idx, e.ts);
            if !Enabled(c, s, scan) then AfterEntry(s.fs, e, s.clock, cooldownSecs) == s.fs
            else
              var seen := Next(c, s, scan);
              Enabled(c, seen, GcAct(g)) && Next(c, seen, GcAct(g)).fs == AfterEntry(s.fs, e, s.clock, cooldownSecs)
  {
    if e.Path() !in s.fs.names {
      assert s.fs.names - {e.Path()} == s.fs.names;
    }
  }
}
