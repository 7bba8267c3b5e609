/** What a worker does about a racing winner: it overwrites a slot only if that slot appeared after
    its last look, and reuses every one that it sees. */
module ProtocolRaces {
  import opened Filesystem
  import opened Protocol
  import S = ProtocolSafety

  predicate ActsOf(a: Action, p: nat) {
    (a.Begin? || a.Work? || a.Stop?) && a.p == p
  }

  /** Step `m`, before state `n`, is one of worker `p`, and `slot` was missing at it. */
  predicate Looked(states: seq<State>, acts: seq<Action>, p: nat, slot: Path, m: nat, n: nat) {
    m < n <= |acts| < |states| && acts[m].Work? && acts[m].p == p && slot !in states[m].fs.names
  }

  /** At the latest step that worker `p` made before state `n`, `slot` was missing. */
  ghost predicate SawMissing(states: seq<State>, acts: seq<Action>, p: nat, slot: Path, n: nat) {
    && |states| == |acts| + 1 && n <= |acts|
    && exists m: nat :: Looked(states, acts, p, slot, m, n) && forall x :: m < x < n ==> !ActsOf(acts[x], p)
  }

  /** At some step that worker `p` has made for its job before state `n`, `slot` was missing. */
  ghost predicate Missed(states: seq<State>, acts: seq<Action>, p: nat, slot: Path, n: nat) {
    && |states| == |acts| + 1 && n <= |acts|
    && exists m: nat :: Looked(states, acts, p, slot, m, n) && forall x :: m < x < n && ActsOf(acts[x], p) ==> acts[x].Work?
  }

  lemma StillMissing(states: seq<State>, acts: seq<Action>, p: nat, slot: Path, n: nat)
    requires n < |acts|
    ensures SawMissing(states, acts, p, slot, n) && !ActsOf(acts[n], p) ==> SawMissing(states, acts, p, slot, n + 1)
    ensures Missed(states, acts, p, slot, n) && (ActsOf(acts[n], p) ==> acts[n].Work?) ==> Missed(states, acts, p, slot, n + 1)
    ensures SawMissing(states, acts, p, slot, n) ==> Missed(states, acts, p, slot, n)
  {
    if SawMissing(states, acts, p, slot, n) {
      var m: nat :| Looked(states, acts, p, slot, m, n) && forall x :: m < x < n ==> !ActsOf(acts[x], p);
      assert Looked(states, acts, p, slot, m, n + 1);
    }
    if Missed(states, acts, p, slot, n) {
      var m: nat :| Looked(states, acts, p, slot, m, n) && forall x :: m < x < n && ActsOf(acts[x], p) ==> acts[x].Work?;
      assert Looked(states, acts, p, slot, m, n + 1);
    }
  }

  // ─── Looking before moving ────────────────────────────────────────────────

  /** About to open a source or to move into a slot. */
  predicate Sure(pc: Pc) {
    pc.OpenSpill? || pc.OpenTarget? || pc.MoveSpill? || pc.MovePublish?
  }

  lemma TurnsSure(c: Config, s: State, a: Action, p: nat)
    requires Enabled(c, s, a) && p < |s.workers| && ActsOf(a, p)
    requires Sure(Next(c, s, a).workers[p])
    ensures a.Work?
    ensures var pc := Next(c, s, a).workers[p]; Slot(pc.j, pc.k) !in s.fs.names
  {
  }

  lemma OthersWait(c: Config, s: State, a: Action, p: nat)
    requires Enabled(c, s, a) && p < |s.workers| && !ActsOf(a, p)
    ensures Next(c, s, a).workers[p] == s.workers[p]
  {
    hide WorkerNext;
  }

  lemma SameWorkers(c: Config, s: State, a: Action)
    requires Enabled(c, s, a)
    ensures |Next(c, s, a).workers| == |s.workers|
  {
    hide WorkerNext;
  }

  lemma StartsIdle(c: Config, s: State)
    requires Init(c, s)
    ensures forall p :: 0 <= p < |s.workers| ==> s.workers[p] == Idle
  {
    assert forall p :: 0 <= p < |s.workers| ==> s.workers[p] in s.workers;
  }

  lemma {:induction false} SureIsFresh(c: Config, states: seq<State>, acts: seq<Action>, n: nat, p: nat)
    requires Run(c, states, acts) && n <= |acts| && p < |states[n].workers| && Sure(states[n].workers[p])
    ensures SawMissing(states, acts, p, Slot(states[n].workers[p].j, states[n].workers[p].k), n)
  {
    hide WorkerNext, Next, Enabled;
    StartsIdle(c, states[0]);
    if n > 0 {
      var s, a := states[n - 1], acts[n - 1];
      assert Steps(c, s, a, states[n]);
      SameWorkers(c, s, a);
      var slot := Slot(states[n].workers[p].j, states[n].workers[p].k);
      if ActsOf(a, p) {
        TurnsSure(c, s, a, p);
        assert Looked(states, acts, p, slot, n - 1, n);
      } else {
        OthersWait(c, s, a, p);
        SureIsFresh(c, states, acts, n - 1, p);
        StillMissing(states, acts, p, slot, n - 1);
      }
    }
  }

  lemma TakesOnlyBySure(c: Config, s: State, a: Action, slot: Path)
    requires Enabled(c, s, a) && a.Work? && slot.Object? && slot in s.fs.names
    requires var fs' := Next(c, s, a).fs; slot !in fs'.names || fs'.names[slot] != s.fs.names[slot]
    ensures Sure(s.workers[a.p]) && slot == Slot(s.workers[a.p].j, s.workers[a.p].k)
  {
  }

  /** A worker takes a slot from another inode only if the slot was missing when the worker looked
      at its step before: of two workers that make the same slot, one that comes late enough to
      see the other's leaves it alone. */
  lemma TakesOnlyUnseen(c: Config, states: seq<State>, acts: seq<Action>, n: nat, slot: Path)
    requires Run(c, states, acts) && n < |acts| && acts[n].Work? && slot.Object? && slot in states[n].fs.names
    requires slot !in states[n + 1].fs.names || states[n + 1].fs.names[slot] != states[n].fs.names[slot]
    ensures SawMissing(states, acts, acts[n].p, slot, n)
  {
    hide WorkerNext, Next, Init;
    assert Steps(c, states[n], acts[n], states[n + 1]);
    TakesOnlyBySure(c, states[n], acts[n], slot);
    SureIsFresh(c, states, acts, n, acts[n].p);
  }

  // ─── Copying ──────────────────────────────────────────────────────────────

  lemma TurnsToCopy(c: Config, s: State, a: Action, p: nat)
    requires Enabled(c, s, a) && p < |s.workers| && ActsOf(a, p)
    requires Next(c, s, a).workers[p].CreateStage?
    ensures a.Work? && Sure(s.workers[p])
    ensures var pc, pc' := s.workers[p], Next(c, s, a).workers[p]; pc.j == pc'.j && pc.k == pc'.k
  {
  }

  lemma {:induction false} CopyIsMissed(c: Config, states: seq<State>, acts: seq<Action>, n: nat, p: nat)
    requires Run(c, states, acts) && n <= |acts| && p < |states[n].workers| && states[n].workers[p].CreateStage?
    ensures Missed(states, acts, p, Slot(states[n].workers[p].j, states[n].workers[p].k), n)
  {
    hide WorkerNext, Next, Enabled;
    StartsIdle(c, states[0]);
    if n > 0 {
      var s, a := states[n - 1], acts[n - 1];
      assert Steps(c, s, a, states[n]);
      SameWorkers(c, s, a);
      if ActsOf(a, p) {
        TurnsToCopy(c, s, a, p);
        SureIsFresh(c, states, acts, n - 1, p);
      } else {
        OthersWait(c, s, a, p);
        CopyIsMissed(c, states, acts, n - 1, p);
      }
      StillMissing(states, acts, p, Slot(states[n].workers[p].j, states[n].workers[p].k), n - 1);
    }
  }

  /** A worker makes a file only for a slot that it has found missing since it took up its job. */
  lemma CopiesOnlyMissing(c: Config, states: seq<State>, acts: seq<Action>, n: nat)
    requires Run(c, states, acts) && n < |acts| && acts[n].Work? && acts[n].p < |states[n].workers|
    requires states[n + 1].fs.next != states[n].fs.next
    ensures var pc := states[n].workers[acts[n].p];
            !pc.Idle? && !pc.ProbeMaster? && Missed(states, acts, acts[n].p, Slot(pc.j, pc.k), n)
  {
    assert Steps(c, states[n], acts[n], states[n + 1]);
    MakesOnlyByCopy(c, states[n], acts[n]);
    hide WorkerNext, Next, Init;
    CopyIsMissed(c, states, acts, n, acts[n].p);
  }

  lemma MakesOnlyByCopy(c: Config, s: State, a: Action)
    requires Enabled(c, s, a) && a.Work? && Next(c, s, a).fs.next != s.fs.next
    ensures s.workers[a.p].CreateStage?
  {
  }

  // ─── Reusing ──────────────────────────────────────────────────────────────

  /** A worker's stage inode has no name but its stage name, whether or not that was swept. */
  ghost predicate HeldInv(s: State) {
    forall p, t | 0 <= p < |s.workers| && S.HoldsStage(s.workers[p], t) :: S.OnlyStage(s.fs, t)
  }

  /** Where a name that a worker's step makes comes from. */
  lemma NewName(c: Config, s: State, p: nat, ch: Choice, r: Path)
    requires Enabled(c, s, Work(p, ch))
    requires var fs' := Next(c, s, Work(p, ch)).fs; r in fs'.names && !(r in s.fs.names && s.fs.names[r] == fs'.names[r])
    ensures var i, pc := Next(c, s, Work(p, ch)).fs.names[r], s.workers[p];
      || (i == s.fs.next && r == Stage(i))
      || (exists q :: q in s.fs.names && !q.Stage? && s.fs.names[q] == i)
      || (S.HoldsStage(pc, pc.t) && Stage(pc.t) in s.fs.names && s.fs.names[Stage(pc.t)] == i && !S.HoldsStage(Next(c, s, Work(p, ch)).workers[p], pc.t))
  {
  }

  /** What a worker's step does to the stage inodes held by workers. */
  lemma NowHolds(c: Config, s: State, p: nat, ch: Choice, t: Ino)
    requires Enabled(c, s, Work(p, ch)) && S.HoldsStage(Next(c, s, Work(p, ch)).workers[p], t)
    ensures S.HoldsStage(s.workers[p], t) || t == s.fs.next
  {
  }

  lemma InvParts(c: Config, s: State)
    requires S.Inv(c, s)
    ensures s.fs.Valid() && S.StageOk(s.fs) && S.HoldersDiffer(s)
  {
  }

  /** A step gives a held inode no name but perhaps its stage name. */
  lemma WorkKeepsHeld(c: Config, s: State, p: nat, ch: Choice, q: nat, t: Ino)
    requires S.Inv(c, s) && HeldInv(s) && Enabled(c, s, Work(p, ch)) && q < |s.workers|
    requires S.HoldsStage(Next(c, s, Work(p, ch)).workers[q], t)
    ensures S.OnlyStage(Next(c, s, Work(p, ch)).fs, t)
  {
    InvParts(c, s);
    hide WorkerNext, S.Inv, Next;
    SameWorkers(c, s, Work(p, ch));
    var s' := Next(c, s, Work(p, ch));
    if q == p {
      NowHolds(c, s, p, ch, t);
    } else {
      OthersWait(c, s, Work(p, ch), q);
    }
    assert t < s.fs.next ==> S.HoldsStage(s.workers[q], t) && S.OnlyStage(s.fs, t);
    forall r | r in s'.fs.names && s'.fs.names[r] == t ensures r == Stage(t) {
      if !(r in s.fs.names && s.fs.names[r] == t) {
        NewName(c, s, p, ch, r);
      }
    }
  }

  lemma OthersKeepHeld(c: Config, s: State, a: Action, q: nat, t: Ino)
    requires S.Inv(c, s) && HeldInv(s) && Enabled(c, s, a) && !a.Work? && q < |s.workers|
    requires S.HoldsStage(Next(c, s, a).workers[q], t)
    ensures S.OnlyStage(Next(c, s, a).fs, t)
  {
    hide S.PcOk, S.StoreOk, S.JobOk, WorkerNext;
    assert S.HoldsStage(s.workers[q], t);
    assert S.OnlyStage(s.fs, t) && t < s.fs.next;
    var fs' := Next(c, s, a).fs;
    forall r | r in fs'.names && fs'.names[r] == t ensures r == Stage(t) {
      if a.GcAct? {
        assert s.collectors[a.g].GcMove? && Object(s.collectors[a.g].digest, s.collectors[a.g].idx) in s.fs.names ==>
          s.fs.names[Object(s.collectors[a.g].digest, s.collectors[a.g].idx)] != t;
      }
      assert r in s.fs.names ==> s.fs.names[r] != t || r == Stage(t);
    }
  }

  lemma HeldStep(c: Config, s: State, a: Action)
    requires S.Inv(c, s) && HeldInv(s) && Enabled(c, s, a)
    ensures HeldInv(Next(c, s, a))
  {
    SameWorkers(c, s, a);
    hide S.Inv, WorkerNext, S.OnlyStage;
    forall q, t: Ino | 0 <= q < |s.workers| && S.HoldsStage(Next(c, s, a).workers[q], t) ensures S.OnlyStage(Next(c, s, a).fs, t) {
      if a.Work? {
        WorkKeepsHeld(c, s, a.p, a.ch, q, t);
      } else {
        OthersKeepHeld(c, s, a, q, t);
      }
    }
  }

  lemma {:induction false} RunHeld(c: Config, states: seq<State>, acts: seq<Action>, n: nat)
    requires Run(c, states, acts) && n <= |acts|
    ensures HeldInv(states[n])
  {
    hide S.Inv, WorkerNext, Next, Enabled;
    StartsIdle(c, states[0]);
    if n > 0 {
      RunHeld(c, states, acts, n - 1);
      S.RunInv(c, states, acts, n - 1);
      assert Steps(c, states[n - 1], acts[n - 1], states[n]);
      HeldStep(c, states[n - 1], acts[n - 1]);
    }
  }

  /** Before state `n`, and since step `m`, worker `p` has not moved. */
  predicate Waits(acts: seq<Action>, p: nat, m: nat, n: nat) {
    m < n <= |acts| && forall x :: m < x < n ==> !ActsOf(acts[x], p)
  }

  lemma {:induction false} StillThere(c: Config, states: seq<State>, acts: seq<Action>, m: nat, n: nat, p: nat)
    requires Run(c, states, acts) && Waits(acts, p, m, n) && p < |states[m + 1].workers|
    ensures |states[n].workers| == |states[m + 1].workers| && states[n].workers[p] == states[m + 1].workers[p]
  {
    hide WorkerNext, Next, Enabled, Init;
    if m + 1 < n {
      StillThere(c, states, acts, m, n - 1, p);
      assert Steps(c, states[n - 1], acts[n - 1], states[n]);
      SameWorkers(c, states[n - 1], acts[n - 1]);
      OthersWait(c, states[n - 1], acts[n - 1], p);
    }
  }

  lemma SeesWinner(c: Config, s: State, p: nat, ch: Choice)
    requires Enabled(c, s, Work(p, ch)) && (s.workers[p].ReprobeSpill? || s.workers[p].Publish?)
    requires Slot(s.workers[p].j, s.workers[p].k) in s.fs.names
    ensures var s', pc := Next(c, s, Work(p, ch)), s.workers[p];
      && s'.fs == s.fs
      && s'.workers[p] == if pc.Publish? then DropPublish(pc.j, pc.k, pc.t) else DropSpill(pc.j, pc.k, pc.t)
  {
  }

  lemma DropsCopy(c: Config, s: State, p: nat, ch: Choice)
    requires HeldInv(s) && Enabled(c, s, Work(p, ch)) && (s.workers[p].DropSpill? || s.workers[p].DropPublish?)
    ensures var s', pc := Next(c, s, Work(p, ch)), s.workers[p];
      && s'.fs == s.fs.Unlink(Stage(pc.t)) && (forall q <- s'.fs.names :: s'.fs.names[q] != pc.t)
      && s'.workers[p] == if pc.DropSpill? then Acquired(pc.j, pc.k) else Idle
  {
    var t, fs' := s.workers[p].t, Next(c, s, Work(p, ch)).fs;
    assert S.HoldsStage(s.workers[p], t);
    assert S.OnlyStage(s.fs, t);
    forall q | q in fs'.names ensures fs'.names[q] != t {
      assert q in s.fs.names && s.fs.names[q] == fs'.names[q];
    }
  }

  /** A worker with a finished copy for slot `k` that sees the slot taken, by a spill at its second
      probe (step `m`) or by a publication, at its next step (`n`) removes the copy and is done, a
      spill with slot `k` acquired: its two steps change no name but that of the copy, and leave
      the copy without a name. */
  lemma SeenWinnerIsKept(c: Config, states: seq<State>, acts: seq<Action>, m: nat, n: nat, p: nat)
    requires Run(c, states, acts) && n < |acts| && Waits(acts, p, m, n)
    requires acts[m].Work? && acts[m].p == p && acts[n].Work? && acts[n].p == p && p < |states[m].workers|
    requires var pc := states[m].workers[p]; (pc.ReprobeSpill? || pc.Publish?) && Slot(pc.j, pc.k) in states[m].fs.names
    ensures states[m + 1].fs == states[m].fs
    ensures var fs, fs', pc := states[n].fs, states[n + 1].fs, states[m].workers[p];
      && fs'.names == fs.names - {Stage(pc.t)} && fs'.nodes == fs.nodes
      && (forall q <- fs'.names :: fs'.names[q] != pc.t)
      && p < |states[n + 1].workers|
      && states[n + 1].workers[p] == if pc.ReprobeSpill? then Acquired(pc.j, pc.k) else Idle
  {
    hide WorkerNext, Next, Enabled, Init, HeldInv;
    assert Steps(c, states[m], acts[m], states[m + 1]) && Steps(c, states[n], acts[n], states[n + 1]);
    SameWorkers(c, states[m], acts[m]);
    SameWorkers(c, states[n], acts[n]);
    SeesWinner(c, states[m], p, acts[m].ch);
    StillThere(c, states, acts, m, n, p);
    RunHeld(c, states, acts, n);
    DropsCopy(c, states[n], p, acts[n].ch);
  }

  // ─── With a native NOREPLACE ──────────────────────────────────────────────

  /** The worker will not move a file over a master without looking. */
  predicate MasterPc(pc: Pc) {
    && !pc.MovePublish?
    && (pc.ProbeNext? || pc.ProbeSpill? || pc.OpenSpill? || pc.ReprobeSpill? || pc.MoveSpill? ==> pc.k > 0)
    && ((pc.CreateStage? || pc.CopyStage?) && pc.spill ==> pc.k > 0)
  }

  ghost predicate MasterInv(s: State) {
    forall q :: 0 <= q < |s.workers| ==> MasterPc(s.workers[q])
  }

  predicate Native(a: Action) {
    a.Work? ==> a.ch.noReplace
  }

  lemma MasterStep(c: Config, s: State, a: Action)
    requires MasterInv(s) && Enabled(c, s, a) && Native(a)
    ensures MasterInv(Next(c, s, a))
  {
    var s' := Next(c, s, a);
    SameWorkers(c, s, a);
    hide WorkerNext;
    forall q | 0 <= q < |s'.workers| ensures MasterPc(s'.workers[q]) {
      if ActsOf(a, q) {
        MasterWork(c, s, a, q);
      } else {
        OthersWait(c, s, a, q);
      }
    }
  }

  lemma MasterWork(c: Config, s: State, a: Action, p: nat)
    requires Enabled(c, s, a) && Native(a) && p < |s.workers| && ActsOf(a, p) && MasterPc(s.workers[p])
    ensures MasterPc(Next(c, s, a).workers[p])
    ensures forall d :: Object(d, 0) in s.fs.names ==>
              Object(d, 0) in Next(c, s, a).fs.names && Next(c, s, a).fs.names[Object(d, 0)] == s.fs.names[Object(d, 0)]
  {
  }

  lemma {:induction false} RunMaster(c: Config, states: seq<State>, acts: seq<Action>, n: nat)
    requires Run(c, states, acts) && n <= |acts|
    requires forall m :: 0 <= m < n ==> Native(acts[m])
    ensures MasterInv(states[n])
  {
    hide WorkerNext, Next, Enabled, Init;
    StartsIdle(c, states[0]);
    if n > 0 {
      RunMaster(c, states, acts, n - 1);
      assert Steps(c, states[n - 1], acts[n - 1], states[n]);
      MasterStep(c, states[n - 1], acts[n - 1]);
    }
  }

  /** Where the volume has a native NOREPLACE, no worker ever takes a master from the inode that
      won it. */
  lemma MasterIsKept(c: Config, states: seq<State>, acts: seq<Action>, n: nat, d: Digest)
    requires Run(c, states, acts) && n < |acts| && acts[n].Work? && Object(d, 0) in states[n].fs.names
    requires forall m :: 0 <= m <= n ==> Native(acts[m])
    ensures Object(d, 0) in states[n + 1].fs.names && states[n + 1].fs.names[Object(d, 0)] == states[n].fs.names[Object(d, 0)]
  {
    hide WorkerNext, Next, Init, MasterPc;
    assert Steps(c, states[n], acts[n], states[n + 1]);
    RunMaster(c, states, acts, n);
    MasterWork(c, states[n], acts[n], acts[n].p);
  }
}
