/** The per-slot link ceiling under concurrency, and the contiguity of slot indices.  Both are
    about runs in which no collector moves or removes a slot. */
module ProtocolLimits {
  import opened Filesystem
  import opened Protocol
  import S = ProtocolSafety
  import P = ProtocolPurge

  // ─── Who has settled on a slot ────────────────────────────────────────────

  /** `pc` may link to slot `k` of `d` without looking at its link count again. */
  predicate Commits(pc: Pc, d: Digest, k: nat) {
    && (pc.ProbeSpill? || pc.OpenSpill? || pc.ReprobeSpill? || pc.DropSpill? || pc.MoveSpill?
        || pc.Acquired? || (pc.CreateStage? && pc.spill) || (pc.CopyStage? && pc.spill))
    && pc.j.digest == d && pc.k == k
  }

  function Committed(ws: seq<Pc>, d: Digest, k: nat): nat {
    |Committers(ws, d, k)|
  }

  function Committers(ws: seq<Pc>, d: Digest, k: nat): set<nat> {
    set p: nat | p < |ws| && Commits(ws[p], d, k)
  }

  function Below(n: nat): (s: set<nat>)
    ensures forall p: nat :: p in s <==> p < n
    ensures |s| == n
  {
    if n == 0 then {} else Below(n - 1) + {n - 1}
  }

  lemma CommittedMoves(ws: seq<Pc>, p: nat, pc': Pc, d: Digest, k: nat)
    requires p < |ws|
    ensures Committed(ws[p := pc'], d, k) ==
            Committed(ws, d, k) - (if Commits(ws[p], d, k) then 1 else 0) + if Commits(pc', d, k) then 1 else 0
    ensures Committed(ws, d, k) >= if Commits(ws[p], d, k) then 1 else 0
  {
    var before, after := Committers(ws, d, k), Committers(ws[p := pc'], d, k);
    assert after == before - {p} + if Commits(pc', d, k) then {p} else {};
    assert p in before <==> Commits(ws[p], d, k);
    if Commits(ws[p], d, k) {
      assert {p} <= before;
      SubsetSize({p}, before);
    }
  }

  lemma CommittedAtMost(ws: seq<Pc>, d: Digest, k: nat)
    ensures Committed(ws, d, k) <= |ws|
  {
    SubsetSize(Committers(ws, d, k), Below(|ws|));
  }

  // ─── The ceiling ──────────────────────────────────────────────────────────

  /** A limit below 2 counts as 2: a new slot has one link, and the link it is made for. */
  function Ceiling(c: Config, s: State): int {
    (if c.maxLinks >= 2 then c.maxLinks else 2) + |s.workers| - 1
  }

  /** Links a slot has, plus those workers may add without looking, stay within the ceiling. */
  ghost predicate CeilingInv(c: Config, s: State) {
    && (forall d, k :: Object(d, k) in s.fs.names ==>
          s.fs.LinksAt(Object(d, k)) + Committed(s.workers, d, k) <= Ceiling(c, s))
    && (forall i <- s.staged :: i < s.fs.next && s.fs.Links(i) <= Ceiling(c, s))
    && (forall d, k :: Object(d, k) in s.fs.names ==> s.fs.names[Object(d, k)] in s.staged)
    && (forall t: Ino :: Stage(t) in s.fs.names ==> t in s.staged)
  }

  predicate SlotsStay(a: Action) {
    !a.GcAct? && !a.UserLink?
  }

  /** A step that adds no link to an inode of the store and no name to a slot. */
  lemma NoNewLinks(c: Config, s: State, s': State)
    requires CeilingInv(c, s) && |s'.workers| == |s.workers| && s'.staged == s.staged && s'.fs.next >= s.fs.next
    requires forall i <- s.staged :: s'.fs.Links(i) <= s.fs.Links(i)
    requires forall d, k :: Object(d, k) in s'.fs.names ==>
               Object(d, k) in s.fs.names && s'.fs.names[Object(d, k)] == s.fs.names[Object(d, k)]
    requires forall t: Ino :: Stage(t) in s'.fs.names ==> Stage(t) in s.fs.names
    requires forall d, k :: Object(d, k) in s'.fs.names ==>
               Committed(s'.workers, d, k) <= Committed(s.workers, d, k)
    ensures CeilingInv(c, s')
  {
  }

  /** A worker that settles on a slot has seen it missing or below the limit. */
  lemma WorkerSettles(c: Config, s: State, p: nat, ch: Choice)
    requires CeilingInv(c, s) && Enabled(c, s, Work(p, ch))
    requires S.After(c, s, p, ch).0 == s.fs && !s.workers[p].CreateStage?
    ensures CeilingInv(c, Next(c, s, Work(p, ch)))
  {
    var pc, pc', s' := s.workers[p], S.After(c, s, p, ch).1, Next(c, s, Work(p, ch));
    forall d, k | Object(d, k) in s.fs.names
      ensures s.fs.LinksAt(Object(d, k)) + Committed(s'.workers, d, k) <= Ceiling(c, s)
    {
      CommittedMoves(s.workers, p, pc', d, k);
      CommittedAtMost(s'.workers, d, k);
      if Commits(pc', d, k) && !Commits(pc, d, k) {
        assert pc.StatSlot? && s.fs.LinksAt(Object(d, k)) < c.maxLinks;
      }
    }
  }

  lemma WorkerLinks(c: Config, s: State, p: nat, ch: Choice)
    requires CeilingInv(c, s) && OneStoreName(s.fs) && Enabled(c, s, Work(p, ch)) && s.workers[p].Acquired?
    ensures CeilingInv(c, Next(c, s, Work(p, ch)))
  {
    var pc, pc', s' := s.workers[p], S.After(c, s, p, ch).1, Next(c, s, Work(p, ch));
    if s'.fs == s.fs {
      WorkerSettles(c, s, p, ch);
    } else {
      var slot := Slot(pc.j, pc.k);
      LinkCounts(s.fs, slot, TmpLink(pc.j.target));
      CommittedMoves(s.workers, p, pc', pc.j.digest, pc.k);
      forall d, k | Object(d, k) in s.fs.names && Object(d, k) != slot
        ensures s'.fs.LinksAt(Object(d, k)) + Committed(s'.workers, d, k) <= Ceiling(c, s)
      {
        CommittedMoves(s.workers, p, pc', d, k);
        assert InStore(Object(d, k)) && InStore(slot);
      }
    }
  }

  /** A slot that has just been put in place has one link. */
  lemma WorkerMoves(c: Config, s: State, p: nat, ch: Choice)
    requires CeilingInv(c, s) && S.FilesOk(c, s.fs, s.owned) && OneStoreName(s.fs) && Enabled(c, s, Work(p, ch))
    requires var pc := s.workers[p]; (pc.MoveSpill? || pc.Publish? || pc.MovePublish?)
    requires S.After(c, s, p, ch).0 != s.fs
    ensures CeilingInv(c, Next(c, s, Work(p, ch)))
  {
    hide S.StoreOk, S.WorkspaceOk;
    var pc, pc', s' := s.workers[p], S.After(c, s, p, ch).1, Next(c, s, Work(p, ch));
    var stage, slot := Stage(pc.t), Slot(pc.j, pc.k);
    RenameCounts(s.fs, stage, slot);
    assert s.fs.NamesOf(pc.t) == {stage};
    forall d, k | Object(d, k) in s'.fs.names
      ensures s'.fs.LinksAt(Object(d, k)) + Committed(s'.workers, d, k) <= Ceiling(c, s)
    {
      CommittedMoves(s.workers, p, pc', d, k);
      CommittedAtMost(s'.workers, d, k);
    }
  }

  lemma WorkerUnlinks(c: Config, s: State, p: nat, ch: Choice)
    requires CeilingInv(c, s) && Enabled(c, s, Work(p, ch))
    requires var pc := s.workers[p]; pc.DropSpill? || pc.DropPublish? || pc.UndoSwap? || pc.Swap?
    ensures CeilingInv(c, Next(c, s, Work(p, ch)))
  {
    var pc, pc', s' := s.workers[p], S.After(c, s, p, ch).1, Next(c, s, Work(p, ch));
    if pc.Swap? {
      if TmpLink(pc.j.target) in s.fs.names {
        RenameCounts(s.fs, TmpLink(pc.j.target), File(pc.j.target));
      }
    } else {
      UnlinkAtMost(s.fs, if pc.UndoSwap? then TmpLink(pc.j.target) else Stage(pc.t));
    }
    forall d, k ensures Committed(s'.workers, d, k) <= Committed(s.workers, d, k) {
      CommittedMoves(s.workers, p, pc', d, k);
    }
    NoNewLinks(c, s, s');
  }

  lemma UnlinkAtMost(fs: Fs, p: Path)
    ensures forall i :: fs.Unlink(p).Links(i) <= fs.Links(i)
  {
    if p in fs.names {
      UnlinkCounts(fs, p);
    } else {
      assert fs.Unlink(p).names == fs.names;
      assert forall i :: fs.Unlink(p).NamesOf(i) == fs.NamesOf(i);
    }
  }

  lemma WorkerCopies(c: Config, s: State, p: nat, ch: Choice)
    requires CeilingInv(c, s) && S.FilesOk(c, s.fs, s.owned) && Enabled(c, s, Work(p, ch))
    requires s.workers[p].CreateStage? || s.workers[p].CopyStage?
    ensures CeilingInv(c, Next(c, s, Work(p, ch)))
  {
    hide S.StoreOk, S.WorkspaceOk;
    var pc, pc', s' := s.workers[p], S.After(c, s, p, ch).1, Next(c, s, Work(p, ch));
    if pc.CreateStage? {
      assert Stage(s.fs.next) !in s.fs.names;
      CreateCounts(s.fs, Stage(s.fs.next), s'.fs.nodes[s.fs.next]);
    } else {
      assert forall i :: s'.fs.NamesOf(i) == s.fs.NamesOf(i);
    }
    forall d, k ensures Committed(s'.workers, d, k) <= Committed(s.workers, d, k) {
      CommittedMoves(s.workers, p, pc', d, k);
    }
  }

  lemma OwnerWrites(c: Config, s: State, w: WorkPath, data: Bytes)
    requires CeilingInv(c, s) && s.fs.Valid() && Enabled(c, s, UserWrite(w, data))
    ensures CeilingInv(c, Next(c, s, UserWrite(w, data)))
  {
    var s' := Next(c, s, UserWrite(w, data));
    forall i | i in s.staged ensures s'.fs.Links(i) <= s.fs.Links(i) {
      SubsetSize(s'.fs.NamesOf(i), s.fs.NamesOf(i));
    }
    NoNewLinks(c, s, s');
  }

  lemma CeilingStep(c: Config, s: State, a: Action)
    requires CeilingInv(c, s) && S.Inv(c, s) && P.NameInv(s) && Enabled(c, s, a) && SlotsStay(a)
    ensures CeilingInv(c, Next(c, s, a))
  {
    hide CeilingInv, S.FilesOk, S.WorkersOk, OneStoreName;
    S.InvFiles(c, s);
    S.NamesValid(c, s);
    match a {
      case Work(p, ch) =>
        match s.workers[p] {
          case CreateStage(_, _, _, _) => WorkerCopies(c, s, p, ch);
          case CopyStage(_, _, _, _, _) => WorkerCopies(c, s, p, ch);
          case Acquired(_, _) => WorkerLinks(c, s, p, ch);
          case DropSpill(_, _, _) => WorkerUnlinks(c, s, p, ch);
          case DropPublish(_, _, _) => WorkerUnlinks(c, s, p, ch);
          case UndoSwap(_, _) => WorkerUnlinks(c, s, p, ch);
          case Swap(_, _) => WorkerUnlinks(c, s, p, ch);
          case _ =>
            if S.After(c, s, p, ch).0 == s.fs {
              WorkerSettles(c, s, p, ch);
            } else {
              WorkerMoves(c, s, p, ch);
            }
        }
      case UserWrite(w, data) => OwnerWrites(c, s, w, data);
      case _ => EveryoneElse(c, s, a);
    }
  }

  lemma EveryoneElse(c: Config, s: State, a: Action)
    requires CeilingInv(c, s) && Enabled(c, s, a) && SlotsStay(a) && !a.Work? && !a.UserWrite?
    ensures CeilingInv(c, Next(c, s, a))
  {
    hide CeilingInv;
    var s' := Next(c, s, a);
    if a.SweepStage? {
      UnlinkAtMost(s.fs, Stage(a.t));
    } else if a.UserDelete? {
      UnlinkAtMost(s.fs, File(a.w));
    } else {
      assert forall i :: s'.fs.NamesOf(i) == s.fs.NamesOf(i);
    }
    if a.Begin? || a.Stop? {
      forall d, k ensures Committed(s'.workers, d, k) <= Committed(s.workers, d, k) {
        CommittedMoves(s.workers, a.p, s'.workers[a.p], d, k);
      }
    }
    NoNewLinks(c, s, s');
  }

  lemma {:induction false} RunCeiling(c: Config, states: seq<State>, acts: seq<Action>, n: nat)
    requires Moves(c, states, acts) && n <= |acts|
    requires CeilingInv(c, states[0]) && S.Inv(c, states[0]) && P.NameInv(states[0])
    requires forall m :: 0 <= m < n ==> SlotsStay(acts[m])
    ensures CeilingInv(c, states[n]) && |states[n].workers| == |states[0].workers|
    ensures S.Inv(c, states[n]) && P.NameInv(states[n])
  {
    hide CeilingInv, S.Inv, P.NameInv;
    if n > 0 {
      RunCeiling(c, states, acts, n - 1);
      assert Steps(c, states[n - 1], acts[n - 1], states[n - 1 + 1]);
      assert SlotsStay(acts[n - 1]);
      CeilingStep(c, states[n - 1], acts[n - 1]);
      S.Step(c, states[n - 1], acts[n - 1]);
      P.PurgeStep(c, states[n - 1], acts[n - 1]);
    }
  }

  /** Inodes with a name in the store were made by the engine. */
  ghost predicate MadeInv(s: State) {
    MadeNames(s) && MadeStages(s)
  }

  ghost predicate MadeNames(s: State) {
    forall p :: p in s.fs.names && InStore(p) ==> s.fs.names[p] in s.staged
  }

  ghost predicate MadeStages(s: State) {
    && (forall t: Ino :: Stage(t) in s.fs.names ==> t in s.staged)
    && (forall i <- s.staged :: i < s.fs.next)
  }

  lemma MadeWork(c: Config, s: State, p: nat, ch: Choice)
    requires MadeInv(s) && Enabled(c, s, Work(p, ch))
    ensures MadeInv(Next(c, s, Work(p, ch)))
  {
    hide MadeInv, Next, Enabled, MadeNames, MadeStages;
    MadeWorkNames(c, s, p, ch);
    MadeWorkStages(c, s, p, ch);
    MadeParts(s);
    MadeParts(Next(c, s, Work(p, ch)));
  }

  lemma MadeParts(s: State)
    ensures MadeInv(s) <==> MadeNames(s) && MadeStages(s)
  {
  }

  lemma MadeWorkNames(c: Config, s: State, p: nat, ch: Choice)
    requires MadeInv(s) && Enabled(c, s, Work(p, ch))
    ensures MadeNames(Next(c, s, Work(p, ch)))
  {
  }

  lemma MadeWorkStages(c: Config, s: State, p: nat, ch: Choice)
    requires MadeInv(s) && Enabled(c, s, Work(p, ch))
    ensures MadeStages(Next(c, s, Work(p, ch)))
  {
  }

  lemma MadeStep(c: Config, s: State, a: Action)
    requires MadeInv(s) && Enabled(c, s, a)
    ensures MadeInv(Next(c, s, a))
  {
    hide WorkerNext;
    if a.Work? {
      MadeWork(c, s, a.p, a.ch);
      hide MadeInv;
    }
  }

  lemma {:induction false} RunMade(c: Config, states: seq<State>, acts: seq<Action>, n: nat)
    requires Run(c, states, acts) && n <= |acts|
    ensures MadeInv(states[n])
  {
    if n > 0 {
      RunMade(c, states, acts, n - 1);
      assert Steps(c, states[n - 1], acts[n - 1], states[n - 1 + 1]);
      MadeStep(c, states[n - 1], acts[n - 1]);
    }
  }

  /** A state in which no worker is busy and no inode of the store is over the ceiling. */
  ghost predicate Calm(c: Config, s: State) {
    && (forall pc <- s.workers :: pc == Idle)
    && (forall i <- s.staged :: s.fs.Links(i) <= Ceiling(c, s))
  }

  lemma CalmCeiling(c: Config, s: State)
    requires MadeInv(s) && Calm(c, s)
    ensures CeilingInv(c, s)
  {
    forall d, k ensures Committers(s.workers, d, k) == {} {
      forall p: nat | p < |s.workers| ensures !Commits(s.workers[p], d, k) {
        assert s.workers[p] in s.workers;
      }
    }
    forall d, k | Object(d, k) in s.fs.names
      ensures s.fs.LinksAt(Object(d, k)) + Committed(s.workers, d, k) <= Ceiling(c, s)
    {
      assert InStore(Object(d, k));
    }
  }

  /** With W workers, no inode the engine made, slot or former slot, ever has more than max + W - 1
      links (2 + W - 1 below a limit of 2), spills that reuse a sibling unseen included: in every
      phase of a run in which no collector acts, from any state that is calm, whatever collectors
      have done to the store before. */
  lemma LinksStayBounded(c: Config, states: seq<State>, acts: seq<Action>, m: nat, n: nat, i: Ino)
    requires Run(c, states, acts) && m <= n <= |acts| && Calm(c, states[m])
    requires forall x :: m <= x < n ==> SlotsStay(acts[x])
    requires i in states[n].staged
    ensures states[n].fs.Links(i) <= Ceiling(c, states[m])
  {
    P.RunNameInv(c, states, acts, m);
    RunMade(c, states, acts, m);
    CalmCeiling(c, states[m]);
    hide S.Inv, P.NameInv, Calm, MadeInv;
    assert Moves(c, states[m..], acts[m..]) by {
      forall x | 0 <= x < |acts[m..]| ensures Steps(c, states[m..][x], acts[m..][x], states[m..][x + 1]) {
        assert Steps(c, states[m + x], acts[m + x], states[m + x + 1]);
      }
    }
    RunCeiling(c, states[m..], acts[m..], n - m);
  }

  /** The store of a run is empty at its start, so a run in which no collector acts at all is one
      such phase. */
  lemma StartIsCalm(c: Config, s: State)
    requires Init(c, s)
    ensures Calm(c, s)
  {
  }

  /** The 1,000-link limit for NTFS keeps every slot within the 1,024 links NTFS allows, for up to
      25 workers. */
  lemma NtfsBufferSuffices(c: Config, states: seq<State>, acts: seq<Action>, n: nat, d: Digest, k: nat)
    requires Run(c, states, acts) && n <= |acts| && c.maxLinks == 1_000 && |states[0].workers| <= 25
    requires forall m :: 0 <= m < n ==> SlotsStay(acts[m])
    requires Object(d, k) in states[n].fs.names
    ensures states[n].fs.LinksAt(Object(d, k)) <= 1_024
  {
    StartIsCalm(c, states[0]);
    RunMade(c, states, acts, n);
    assert InStore(Object(d, k));
    LinksStayBounded(c, states, acts, 0, n, states[n].fs.names[Object(d, k)]);
  }

  /** `states` leads from `s` to its last state by the steps `acts`, none of a collector. */
  ghost predicate Leads(c: Config, s: State, states: seq<State>, acts: seq<Action>) {
    && |states| == |acts| + 1 && states[0] == s
    && (forall n :: 0 <= n < |acts| ==> SlotsStay(acts[n]))
    && (forall n :: 0 <= n < |acts| ==> Steps(c, states[n], acts[n], states[n + 1]))
  }

  function LinkJob(targets: seq<WorkPath>, p: nat, d: Digest): Job
    requires p < |targets|
  {
    Job(targets[p], d, false)
  }

  /** The bound is met: workers that all stat a slot one link short of the limit all link to it. */
  lemma CeilingIsReached(c: Config, s: State, targets: seq<WorkPath>, d: Digest, k: nat)
    returns (states: seq<State>, acts: seq<Action>)
    requires |targets| == |s.workers| && c.maxLinks >= 2
    requires forall p, q :: 0 <= p < q < |targets| ==> targets[p] != targets[q]
    requires forall p :: 0 <= p < |targets| ==> TmpLink(targets[p]) !in s.fs.names
    requires forall p :: 0 <= p < |targets| ==> s.workers[p] == StatSlot(LinkJob(targets, p, d), k)
    requires Object(d, k) in s.fs.names && s.fs.LinksAt(Object(d, k)) == c.maxLinks - 1
    ensures Leads(c, s, states, acts)
    ensures var end := states[|acts|];
            Object(d, k) in end.fs.names && end.fs.LinksAt(Object(d, k)) == Ceiling(c, s)
  {
    states, acts := [s], [];
    var p, now := 0, s;
    while p < |targets|
      invariant p <= |targets| && Leads(c, s, states, acts) && states[|acts|] == now
      invariant now.fs == s.fs && |now.workers| == |targets|
      invariant forall q :: p <= q < |targets| ==> now.workers[q] == s.workers[q]
      invariant forall q :: 0 <= q < p ==> now.workers[q] == Acquired(LinkJob(targets, q, d), k)
    {
      var a := Work(p, Choice(0, true, false));
      states, acts, now := states + [Next(c, now, a)], acts + [a], Next(c, now, a);
      p := p + 1;
    }
    p := 0;
    while p < |targets|
      invariant p <= |targets| && Leads(c, s, states, acts) && states[|acts|] == now
      invariant |now.workers| == |targets|
      invariant forall q :: p <= q < |targets| ==> TmpLink(targets[q]) !in now.fs.names
      invariant forall q :: p <= q < |targets| ==> now.workers[q] == Acquired(LinkJob(targets, q, d), k)
      invariant Object(d, k) in now.fs.names && now.fs.LinksAt(Object(d, k)) == c.maxLinks - 1 + p
    {
      var a := Work(p, Choice(0, true, false));
      LinkCounts(now.fs, Object(d, k), TmpLink(targets[p]));
      states, acts, now := states + [Next(c, now, a)], acts + [a], Next(c, now, a);
      p := p + 1;
    }
  }

  // ─── Contiguity ───────────────────────────────────────────────────────────

  ghost predicate Contiguous(fs: Fs) {
    forall d, k: nat, j: nat :: Object(d, k) in fs.names && j < k ==> Object(d, j) in fs.names
  }

  /** Every slot below the one a worker is concerned with exists. */
  ghost predicate IndexOk(fs: Fs, pc: Pc) {
    !pc.Idle? && !pc.ProbeMaster? ==> forall j: nat :: j < pc.k ==> Object(pc.j.digest, j) in fs.names
  }

  ghost predicate ContiguityInv(s: State) {
    && Contiguous(s.fs)
    && forall p :: 0 <= p < |s.workers| ==> IndexOk(s.fs, s.workers[p])
  }

  lemma WorkerIndexOk(c: Config, s: State, p: nat, ch: Choice)
    requires ContiguityInv(s) && Enabled(c, s, Work(p, ch))
    ensures Contiguous(S.After(c, s, p, ch).0)
    ensures IndexOk(S.After(c, s, p, ch).0, S.After(c, s, p, ch).1)
    ensures forall d, k :: Object(d, k) in s.fs.names ==> Object(d, k) in S.After(c, s, p, ch).0.names
  {
    assert IndexOk(s.fs, s.workers[p]);
  }

  lemma ContiguityStep(c: Config, s: State, a: Action)
    requires ContiguityInv(s) && Enabled(c, s, a) && !a.GcAct?
    ensures ContiguityInv(Next(c, s, a))
  {
    var s' := Next(c, s, a);
    if a.Work? {
      WorkerIndexOk(c, s, a.p, a.ch);
    }
    forall q | 0 <= q < |s'.workers| ensures IndexOk(s'.fs, s'.workers[q]) {
      assert IndexOk(s.fs, s.workers[q]);
    }
  }

  /** As long as no collector takes a slot away, the indices of a digest are contiguous from 0
      in every interleaving of publishing, linking and spilling. */
  lemma {:induction false} AlwaysContiguous(c: Config, states: seq<State>, acts: seq<Action>, n: nat)
    requires Run(c, states, acts) && n <= |acts|
    requires forall m :: 0 <= m < n ==> !acts[m].GcAct?
    ensures ContiguityInv(states[n])
  {
    if n == 0 {
      assert forall p :: 0 <= p < |states[0].workers| ==> states[0].workers[p] in states[0].workers;
    } else {
      AlwaysContiguous(c, states, acts, n - 1);
      assert Steps(c, states[n - 1], acts[n - 1], states[n - 1 + 1]);
      ContiguityStep(c, states[n - 1], acts[n - 1]);
    }
  }
}
