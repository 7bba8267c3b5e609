/** The collector's purge acts on a stat that may be stale by the time it unlinks.  It is safe
    all the same, in exactly those runs in which no slot that has gained a link is moved to a
    name that is about to be purged. */
module ProtocolPurge {
  import opened Filesystem
  import opened Protocol
  import S = ProtocolSafety

  /** A quarantine name still stands for the inode it was given to. */
  ghost predicate OriginsStand(fs: Fs, origin: map<Path, Ino>) {
    forall ts, d, k :: Quarantine(ts, d, k) in fs.names ==>
      Quarantine(ts, d, k) in origin && fs.names[Quarantine(ts, d, k)] == origin[Quarantine(ts, d, k)]
  }

  /** Entries a collector is about to purge have no name but their own. */
  ghost predicate PendingSole(fs: Fs, g: GcPc) {
    g.GcPurge? && Quarantine(g.ts, g.digest, g.idx) in fs.names ==>
      fs.LinksAt(Quarantine(g.ts, g.digest, g.idx)) == 1
  }

  ghost predicate PendingGiven(origin: map<Path, Ino>, g: GcPc) {
    g.GcPurge? || g.GcRevive? ==> Quarantine(g.ts, g.digest, g.idx) in origin
  }

  /** What names mean, in every run. */
  ghost predicate NameInv(s: State) {
    && OneStoreName(s.fs)
    && OriginsStand(s.fs, s.origin)
    && (forall g :: 0 <= g < |s.collectors| ==> PendingGiven(s.origin, s.collectors[g]))
  }

  ghost predicate AllPendingSole(s: State) {
    forall g :: 0 <= g < |s.collectors| ==> PendingSole(s.fs, s.collectors[g])
  }

  ghost predicate PurgeInv(s: State) {
    NameInv(s) && AllPendingSole(s)
  }

  /** The step moves a slot to quarantine name `q`. */
  predicate GivesOut(s: State, a: Action, q: Path) {
    && a.GcAct? && a.g < |s.collectors| && s.collectors[a.g].GcMove?
    && Object(s.collectors[a.g].digest, s.collectors[a.g].idx) in s.fs.names
    && q == Quarantine(s.collectors[a.g].ts, s.collectors[a.g].digest, s.collectors[a.g].idx)
  }

  /** A slot that has gained a link is not moved to a name that a collector is about to purge. */
  predicate Guarded(s: State, a: Action) {
    a.GcAct? && a.g < |s.collectors| && s.collectors[a.g].GcMove? ==>
      var me := s.collectors[a.g];
      var slot := Object(me.digest, me.idx);
      slot in s.fs.names && s.fs.LinksAt(slot) > 1 ==> GcPurge(me.digest, me.idx, me.ts) !in s.collectors
  }

  /** A collector that moves a slot into quarantine uses a name that was never used before. */
  predicate FreshName(s: State, a: Action) {
    forall q :: GivesOut(s, a, q) ==> q !in s.origin
  }

  // ─── How steps change names ───────────────────────────────────────────────

  /** The quarantine names that survive a step, all but `but`, mean what they did, and an inode
      that had only such a name gets no other. */
  ghost predicate LeavesQuarantine(fs: Fs, fs': Fs, but: Path) {
    forall ts, d, k ::
      var q := Quarantine(ts, d, k);
      q != but && q in fs'.names ==>
        && q in fs.names && fs'.names[q] == fs.names[q]
        && (fs.LinksAt(q) == 1 ==> fs'.LinksAt(q) == 1)
  }

  lemma SameNames(fs: Fs, fs': Fs, but: Path)
    requires fs'.names == fs.names
    ensures LeavesQuarantine(fs, fs', but)
  {
    assert forall i :: fs'.NamesOf(i) == fs.NamesOf(i);
  }

  lemma CreateLeaves(fs: Fs, p: Path, node: Node, but: Path)
    requires fs.Valid() && (p == Stage(fs.next) || p.File?)
    requires OneStoreName(fs)
    ensures LeavesQuarantine(fs, fs.Create(p, node), but)
    ensures OneStoreName(fs.Create(p, node))
  {
    var fs' := fs.Create(p, node);
    forall ts, d, k | Quarantine(ts, d, k) in fs.names && fs.LinksAt(Quarantine(ts, d, k)) == 1
      ensures fs'.LinksAt(Quarantine(ts, d, k)) == 1
    {
      var q := Quarantine(ts, d, k);
      SoleNames(fs, q);
      assert fs'.NamesOf(fs.names[q]) == {q};
    }
  }

  lemma SoleNames(fs: Fs, q: Path)
    requires q in fs.names && fs.LinksAt(q) == 1
    ensures fs.NamesOf(fs.names[q]) == {q}
  {
    forall p | p in fs.NamesOf(fs.names[q]) ensures p == q {
      SoleName(fs, p, q);
    }
    assert q in fs.NamesOf(fs.names[q]);
  }

  lemma LinkLeaves(fs: Fs, p: Path, to: Path, but: Path)
    requires fs.CanLink(p, to) && (p.Object? || p.File?) && (to.TmpLink? || to.File?)
    requires OneStoreName(fs)
    ensures LeavesQuarantine(fs, fs.Link(p, to), but)
    ensures OneStoreName(fs.Link(p, to))
  {
    LinkCounts(fs, p, to);
    forall ts, d, k | Quarantine(ts, d, k) in fs.names && fs.LinksAt(Quarantine(ts, d, k)) == 1
      ensures fs.names[Quarantine(ts, d, k)] != fs.names[p]
    {
      if fs.names[Quarantine(ts, d, k)] == fs.names[p] {
        SoleName(fs, Quarantine(ts, d, k), p);
      }
    }
  }

  lemma UnlinkLeaves(fs: Fs, p: Path, but: Path)
    requires OneStoreName(fs)
    ensures LeavesQuarantine(fs, fs.Unlink(p), but)
    ensures OneStoreName(fs.Unlink(p))
  {
    if p in fs.names {
      UnlinkCounts(fs, p);
      forall ts, d, k | Quarantine(ts, d, k) in fs.Unlink(p).names && fs.LinksAt(Quarantine(ts, d, k)) == 1
        ensures fs.names[Quarantine(ts, d, k)] != fs.names[p]
      {
        if fs.names[Quarantine(ts, d, k)] == fs.names[p] {
          SoleName(fs, Quarantine(ts, d, k), p);
        }
      }
    } else {
      assert fs.Unlink(p).names == fs.names;
      SameNames(fs, fs.Unlink(p), but);
    }
  }

  lemma RenameLeaves(fs: Fs, p: Path, to: Path)
    requires p in fs.names && (InStore(p) <==> InStore(to)) && p != to
    requires OneStoreName(fs)
    ensures LeavesQuarantine(fs, fs.Rename(p, to), to)
    ensures OneStoreName(fs.Rename(p, to))
  {
    RenameCounts(fs, p, to);
    var fs' := fs.Rename(p, to);
    forall ts, d, k | Quarantine(ts, d, k) != to && Quarantine(ts, d, k) in fs'.names
      && Quarantine(ts, d, k) in fs.names && fs.LinksAt(Quarantine(ts, d, k)) == 1
      ensures fs'.LinksAt(Quarantine(ts, d, k)) == 1
    {
      var q := Quarantine(ts, d, k);
      if to in fs.names && fs.names[to] == fs.names[q] {
        SoleName(fs, q, to);
      }
    }
  }

  /** A path that is no quarantine name. */
  const NOWHERE := Stage(0)

  // ─── Every step ───────────────────────────────────────────────────────────

  ghost predicate SameOrCalm(s: State, s': State) {
    && |s'.collectors| == |s.collectors|
    && forall g :: 0 <= g < |s.collectors| ==> s'.collectors[g] == s.collectors[g] || s'.collectors[g].GcIdle? || s'.collectors[g].GcMove?
  }

  /** Most steps move no collector into a purge and give out no quarantine name. */
  lemma Quiet(s: State, s': State)
    requires NameInv(s)
    requires OneStoreName(s'.fs) && LeavesQuarantine(s.fs, s'.fs, NOWHERE)
    requires s'.origin == s.origin && SameOrCalm(s, s')
    ensures NameInv(s') && (AllPendingSole(s) ==> AllPendingSole(s'))
  {
    hide OneStoreName;
    forall g | 0 <= g < |s'.collectors| ensures PendingGiven(s'.origin, s'.collectors[g]) {
      assert PendingGiven(s.origin, s.collectors[g]);
    }
    if AllPendingSole(s) {
      forall g | 0 <= g < |s'.collectors| ensures PendingSole(s'.fs, s'.collectors[g]) {
        assert PendingSole(s.fs, s.collectors[g]);
      }
    }
  }

  lemma WorkerQuiet(c: Config, s: State, p: nat, ch: Choice)
    requires S.Inv(c, s) && NameInv(s) && Enabled(c, s, Work(p, ch))
    ensures var s' := Next(c, s, Work(p, ch)); NameInv(s') && (AllPendingSole(s) ==> AllPendingSole(s'))
  {
    hide S.Inv, LeavesQuarantine, OneStoreName, OriginsStand, AllPendingSole;
    var pc := s.workers[p];
    var s' := Next(c, s, Work(p, ch));
    S.NamesValid(c, s) by { S.InvFiles(c, s); }
    SameNames(s.fs, s.fs, NOWHERE);
    match pc {
      case CreateStage(_, _, _, _) => CreateLeaves(s.fs, Stage(s.fs.next), s'.fs.nodes[s.fs.next], NOWHERE);
      case CopyStage(_, _, _, _, _) => SameNames(s.fs, s'.fs, NOWHERE); SameStoreNames(s.fs, s'.fs);
      case DropSpill(_, _, t) => UnlinkLeaves(s.fs, Stage(t), NOWHERE);
      case DropPublish(_, _, t) => UnlinkLeaves(s.fs, Stage(t), NOWHERE);
      case UndoSwap(j, _) => UnlinkLeaves(s.fs, TmpLink(j.target), NOWHERE);
      case MoveSpill(j, k, t) => MoveLeaves(s, Stage(t), Slot(j, k));
      case Publish(j, k, t) => MoveLeaves(s, Stage(t), Slot(j, k));
      case MovePublish(j, k, t) => MoveLeaves(s, Stage(t), Slot(j, k));
      case Swap(j, k) => MoveLeaves(s, TmpLink(j.target), File(j.target));
      case Acquired(j, k) =>
        if s.fs.CanLink(Slot(j, k), TmpLink(j.target)) {
          LinkLeaves(s.fs, Slot(j, k), TmpLink(j.target), NOWHERE);
        }
      case _ =>
    }
    Quiet(s, s');
  }

  lemma SameStoreNames(fs: Fs, fs': Fs)
    requires OneStoreName(fs) && fs'.names == fs.names
    ensures OneStoreName(fs')
  {
  }

  lemma MoveLeaves(s: State, p: Path, to: Path)
    requires NameInv(s) && p != to && (InStore(p) <==> InStore(to)) && !to.Quarantine?
    ensures p in s.fs.names ==> OneStoreName(s.fs.Rename(p, to)) && LeavesQuarantine(s.fs, s.fs.Rename(p, to), NOWHERE)
  {
    if p in s.fs.names {
      RenameLeaves(s.fs, p, to);
    }
  }

  lemma CollectorPurgeInv(c: Config, s: State, g: nat)
    requires S.Inv(c, s) && NameInv(s) && g < |s.collectors|
    ensures var s' := Next(c, s, GcAct(g)); NameInv(s') && (AllPendingSole(s) && Guarded(s, GcAct(g)) ==> AllPendingSole(s'))
  {
    hide S.Inv, LeavesQuarantine, OneStoreName, AllPendingSole, Guarded;
    var s' := Next(c, s, GcAct(g));
    SameNames(s.fs, s.fs, NOWHERE);
    match s.collectors[g] {
      case GcIdle => Quiet(s, s');
      case GcMove(d, k, ts) =>
        if Object(d, k) in s.fs.names {
          RenameLeaves(s.fs, Object(d, k), Quarantine(ts, d, k));
          Given(s, s', g);
          if AllPendingSole(s) {
            MovesUnsafely(s, s', g);
          }
        } else {
          Quiet(s, s');
        }
      case GcRevive(d, k, ts) =>
        MoveLeaves(s, Quarantine(ts, d, k), Object(d, k));
        Quiet(s, s');
      case GcPurge(d, k, ts) =>
        UnlinkLeaves(s.fs, Quarantine(ts, d, k), NOWHERE);
        Quiet(s, s');
    }
  }

  /** `s'` is `s` after collector `g` has moved the slot it had stat'd. */
  ghost predicate Moved(s: State, s': State, g: nat) {
    && g < |s.collectors| && s.collectors[g].GcMove?
    && var me := s.collectors[g];
       var slot, q := Object(me.digest, me.idx), Entry(me);
       && slot in s.fs.names
       && s'.fs == s.fs.Rename(slot, q) && s'.origin == s.origin[q := s.fs.names[slot]]
       && s'.collectors == s.collectors[g := GcIdle]
  }

  /** The step that gives a name out, for the first time or again. */
  lemma Given(s: State, s': State, g: nat)
    requires NameInv(s) && Moved(s, s', g)
    requires OneStoreName(s'.fs) && LeavesQuarantine(s.fs, s'.fs, Entry(s.collectors[g]))
    ensures NameInv(s')
  {
    hide OneStoreName;
    forall h | 0 <= h < |s'.collectors| ensures PendingGiven(s'.origin, s'.collectors[h]) {
      assert PendingGiven(s.origin, s.collectors[h]);
    }
  }

  /** A move leaves some pending purge unsafe exactly when it is of a slot that has gained a link
      and lands on a name about to be purged. */
  lemma MovesUnsafely(s: State, s': State, g: nat)
    requires NameInv(s) && AllPendingSole(s) && Moved(s, s', g)
    ensures AllPendingSole(s') <==> Guarded(s, GcAct(g))
  {
    var me := s.collectors[g];
    var slot, q := Object(me.digest, me.idx), Entry(me);
    assert InStore(slot) && InStore(q);
    RenameCounts(s.fs, slot, q);
    UnlinkCounts(s.fs, slot);
    forall h | 0 <= h < |s.collectors| && h != g
      ensures PendingSole(s'.fs, s'.collectors[h]) <==>
              !(s.collectors[h] == GcPurge(me.digest, me.idx, me.ts) && s.fs.LinksAt(slot) > 1)
    {
      assert PendingSole(s.fs, s.collectors[h]);
      if s.collectors[h].GcPurge? && Entry(s.collectors[h]) != q && Entry(s.collectors[h]) in s.fs.names {
        assert InStore(Entry(s.collectors[h]));
      }
    }
    assert PendingSole(s'.fs, s'.collectors[g]);
    if !Guarded(s, GcAct(g)) {
      var h :| 0 <= h < |s.collectors| && s.collectors[h] == GcPurge(me.digest, me.idx, me.ts);
      assert !PendingSole(s'.fs, s'.collectors[h]);
    }
  }

  lemma ScanPurgeInv(c: Config, s: State, g: nat, d: Digest, k: nat, ts: nat)
    requires S.Inv(c, s) && NameInv(s) && Enabled(c, s, GcScanEntry(g, d, k, ts))
    ensures var s' := Next(c, s, GcScanEntry(g, d, k, ts)); NameInv(s') && (AllPendingSole(s) ==> AllPendingSole(s'))
  {
    var s' := Next(c, s, GcScanEntry(g, d, k, ts));
    var q := Quarantine(ts, d, k);
    if q in s.fs.names && s.fs.LinksAt(q) == 0 {
      UnlinkCounts(s.fs, q);
    }
    forall h | 0 <= h < |s'.collectors| ensures PendingGiven(s'.origin, s'.collectors[h]) {
      assert PendingGiven(s.origin, s.collectors[h]);
    }
    if AllPendingSole(s) {
      forall h | 0 <= h < |s'.collectors| ensures PendingSole(s'.fs, s'.collectors[h]) {
        assert PendingSole(s.fs, s.collectors[h]);
      }
    }
  }

  lemma PurgeStep(c: Config, s: State, a: Action)
    requires S.Inv(c, s) && NameInv(s) && Enabled(c, s, a)
    ensures NameInv(Next(c, s, a))
    ensures AllPendingSole(s) && Guarded(s, a) ==> AllPendingSole(Next(c, s, a))
  {
    hide S.Inv, LeavesQuarantine, OneStoreName, AllPendingSole, Guarded;
    var s' := Next(c, s, a);
    S.NamesValid(c, s) by { S.InvFiles(c, s); }
    SameNames(s.fs, s.fs, NOWHERE);
    match a {
      case Work(p, ch) => WorkerQuiet(c, s, p, ch);
      case GcAct(g) => CollectorPurgeInv(c, s, g);
      case GcScanEntry(g, d, k, ts) => ScanPurgeInv(c, s, g, d, k, ts);
      case SweepStage(t) => UnlinkLeaves(s.fs, Stage(t), NOWHERE); Quiet(s, s');
      case ChangeMode(i, mode) => SameNames(s.fs, s'.fs, NOWHERE); SameStoreNames(s.fs, s'.fs); Quiet(s, s');
      case UserWrite(w, data) => CreateLeaves(s.fs, File(w), s'.fs.nodes[s.fs.next], NOWHERE); Quiet(s, s');
      case UserPatch(w, data) => SameNames(s.fs, s'.fs, NOWHERE); SameStoreNames(s.fs, s'.fs); Quiet(s, s');
      case UserLink(w, to) => LinkLeaves(s.fs, File(w), File(to), NOWHERE); Quiet(s, s');
      case UserDelete(w) => UnlinkLeaves(s.fs, File(w), NOWHERE); Quiet(s, s');
      case _ => Quiet(s, s');
    }
  }

  lemma {:induction false} RunNameInv(c: Config, states: seq<State>, acts: seq<Action>, n: nat)
    requires Run(c, states, acts) && n <= |acts|
    ensures S.Inv(c, states[n]) && NameInv(states[n])
  {
    hide S.Inv, NameInv;
    S.RunInv(c, states, acts, n);
    if n == 0 {
      InitPurgeInv(c, states[0]);
    } else {
      RunNameInv(c, states, acts, n - 1);
      assert Steps(c, states[n - 1], acts[n - 1], states[n - 1 + 1]);
      PurgeStep(c, states[n - 1], acts[n - 1]);
    }
  }

  lemma InitPurgeInv(c: Config, s: State)
    requires Init(c, s)
    ensures NameInv(s) && AllPendingSole(s)
  {
    assert forall g :: 0 <= g < |s.collectors| ==> s.collectors[g] in s.collectors;
  }

  ghost predicate GuardedTo(states: seq<State>, acts: seq<Action>, n: nat)
    requires |states| == |acts| + 1 && n <= |acts|
  {
    forall m :: 0 <= m < n ==> Guarded(states[m], acts[m])
  }

  lemma {:induction false} RunPurgeInv(c: Config, states: seq<State>, acts: seq<Action>, n: nat)
    requires Run(c, states, acts) && n <= |acts| && GuardedTo(states, acts, n)
    ensures AllPendingSole(states[n])
  {
    hide S.Inv, NameInv, AllPendingSole, Guarded;
    if n == 0 {
      InitPurgeInv(c, states[0]);
    } else {
      RunPurgeInv(c, states, acts, n - 1);
      RunNameInv(c, states, acts, n - 1);
      assert Steps(c, states[n - 1], acts[n - 1], states[n - 1 + 1]);
      PurgeStep(c, states[n - 1], acts[n - 1]);
    }
  }

  // ─── What holds in every run ──────────────────────────────────────────────

  /** Collector `g` is about to unlink an entry that is there. */
  predicate Purges(s: State, a: Action) {
    a.GcAct? && a.g < |s.collectors| && s.collectors[a.g].GcPurge? && Entry(s.collectors[a.g]) in s.fs.names
  }

  function Entry(g: GcPc): Path
    requires !g.GcIdle?
  {
    Quarantine(g.ts, g.digest, g.idx)
  }

  /** However stale the stat, a purge that removes anything removes the only name of an inode:
      no workspace path, temporary link or slot can share it. */
  lemma PurgeIsSafe(c: Config, states: seq<State>, acts: seq<Action>, n: nat)
    requires Run(c, states, acts) && n < |acts| && GuardedTo(states, acts, n)
    requires Purges(states[n], acts[n])
    ensures var fs, q := states[n].fs, Entry(states[n].collectors[acts[n].g]);
            fs.LinksAt(q) == 1 && forall p :: p in fs.names && fs.names[p] == fs.names[q] ==> p == q
  {
    RunPurgeInv(c, states, acts, n);
    var fs, q := states[n].fs, Entry(states[n].collectors[acts[n].g]);
    assert PendingSole(fs, states[n].collectors[acts[n].g]);
    forall p | p in fs.names && fs.names[p] == fs.names[q] ensures p == q {
      SoleName(fs, p, q);
    }
  }

  /** Whichever collector purges next, it takes a file's only name. */
  ghost predicate PurgesSafely(s: State) {
    forall g: nat :: Purges(s, GcAct(g)) ==> s.fs.LinksAt(Entry(s.collectors[g])) == 1
  }

  /** The guard is exact: all states of a run are safe to purge in if and only if all its steps
      are guarded. */
  lemma SafeExactlyWhenGuarded(c: Config, states: seq<State>, acts: seq<Action>)
    requires Run(c, states, acts)
    ensures (forall n :: 0 <= n <= |acts| ==> PurgesSafely(states[n])) <==> GuardedTo(states, acts, |acts|)
  {
    if GuardedTo(states, acts, |acts|) {
      forall n | 0 <= n <= |acts| ensures PurgesSafely(states[n]) {
        RunPurgeInv(c, states, acts, n);
        SafeIsSole(states[n]);
      }
    }
    if forall n :: 0 <= n <= |acts| ==> PurgesSafely(states[n]) {
      hide Guarded, PurgesSafely;
      forall n | 0 <= n < |acts| ensures Guarded(states[n], acts[n]) {
        RunNameInv(c, states, acts, n);
        assert Steps(c, states[n], acts[n], states[n + 1]);
        assert PurgesSafely(states[n]) && PurgesSafely(states[n + 1]);
        SafeIsSole(states[n]);
        SafeIsSole(states[n + 1]);
        GuardFollows(c, states[n], acts[n]);
      }
    }
  }

  lemma SafeIsSole(s: State)
    ensures PurgesSafely(s) <==> AllPendingSole(s)
  {
    if PurgesSafely(s) {
      forall g | 0 <= g < |s.collectors| ensures PendingSole(s.fs, s.collectors[g]) {
        assert Purges(s, GcAct(g)) ==> s.fs.LinksAt(Entry(s.collectors[g])) == 1;
      }
    }
    if AllPendingSole(s) {
      forall g: nat | Purges(s, GcAct(g)) ensures s.fs.LinksAt(Entry(s.collectors[g])) == 1 {
        assert PendingSole(s.fs, s.collectors[g]);
      }
    }
  }

  lemma GuardFollows(c: Config, s: State, a: Action)
    requires NameInv(s) && AllPendingSole(s) && Enabled(c, s, a) && AllPendingSole(Next(c, s, a))
    ensures Guarded(s, a)
  {
    hide NameInv, AllPendingSole;
    if a.GcAct? && s.collectors[a.g].GcMove? && Object(s.collectors[a.g].digest, s.collectors[a.g].idx) in s.fs.names {
      MovesUnsafely(s, Next(c, s, a), a.g);
    }
  }

  /** Names that are given out once are enough. */
  lemma FreshNamesAreGuarded(c: Config, states: seq<State>, acts: seq<Action>)
    requires Run(c, states, acts) && forall n :: 0 <= n < |acts| ==> FreshName(states[n], acts[n])
    ensures GuardedTo(states, acts, |acts|)
  {
    forall n | 0 <= n < |acts| ensures Guarded(states[n], acts[n]) {
      RunNameInv(c, states, acts, n);
      FreshIsGuarded(states[n], acts[n]);
    }
  }

  lemma FreshIsGuarded(s: State, a: Action)
    requires NameInv(s) && FreshName(s, a)
    ensures Guarded(s, a)
  {
    if !Guarded(s, a) {
      var me := s.collectors[a.g];
      var h :| 0 <= h < |s.collectors| && s.collectors[h] == GcPurge(me.digest, me.idx, me.ts);
      assert PendingGiven(s.origin, s.collectors[h]);
      assert GivesOut(s, a, Entry(me));
    }
  }

  // ─── Revival ──────────────────────────────────────────────────────────────

  /** Between `m` and `n`, no slot is moved to `q`. */
  ghost predicate NotGivenAgain(states: seq<State>, acts: seq<Action>, m: nat, n: nat, q: Path)
    requires |states| == |acts| + 1 && n <= |acts|
  {
    forall x :: m <= x < n ==> !GivesOut(states[x], acts[x], q)
  }

  lemma {:induction false} OriginStays(c: Config, states: seq<State>, acts: seq<Action>, m: nat, n: nat, q: Path)
    requires Run(c, states, acts) && m <= n <= |acts| && NotGivenAgain(states, acts, m, n, q)
    requires q in states[m].origin
    ensures q in states[n].origin && states[n].origin[q] == states[m].origin[q]
  {
    if m < n {
      OriginStays(c, states, acts, m, n - 1, q);
      assert Steps(c, states[n - 1], acts[n - 1], states[n - 1 + 1]);
      assert !GivesOut(states[n - 1], acts[n - 1], q);
    }
  }

  /** An inode quarantined from slot `k` of `d` by step `m` and revived from that entry by step
      `n` is back at exactly the slot it came from, whatever happened in between. */
  lemma ReviveReturns(c: Config, states: seq<State>, acts: seq<Action>, m: nat, n: nat, g: nat, h: nat, d: Digest, k: nat, ts: nat)
    requires Run(c, states, acts) && m < n < |acts| && NotGivenAgain(states, acts, m + 1, n, Quarantine(ts, d, k))
    requires acts[m] == GcAct(g) && g < |states[m].collectors| && states[m].collectors[g] == GcMove(d, k, ts)
    requires Object(d, k) in states[m].fs.names
    requires acts[n] == GcAct(h) && h < |states[n].collectors| && states[n].collectors[h] == GcRevive(d, k, ts)
    requires Quarantine(ts, d, k) in states[n].fs.names
    ensures Object(d, k) in states[n + 1].fs.names
    ensures states[n + 1].fs.names[Object(d, k)] == states[m].fs.names[Object(d, k)]
    ensures Quarantine(ts, d, k) !in states[n + 1].fs.names
  {
    assert Steps(c, states[m], acts[m], states[m + 1]);
    assert Steps(c, states[n], acts[n], states[n + 1]);
    OriginStays(c, states, acts, m + 1, n, Quarantine(ts, d, k));
    RunNameInv(c, states, acts, n);
    if Object(d, k) in states[n].fs.names && states[n].fs.names[Object(d, k)] == states[n].fs.names[Quarantine(ts, d, k)] {
      assert InStore(Object(d, k)) && InStore(Quarantine(ts, d, k));
    }
  }

  /** An action that takes collector `g` on, or off what it is about to do. */
  predicate Concerns(a: Action, g: nat) {
    (a.GcAct? || a.GcStop? || a.GcScanObject? || a.GcScanEntry?) && a.g == g
  }

  lemma {:induction false} CollectorWaits(c: Config, states: seq<State>, acts: seq<Action>, x: nat, n: nat, g: nat)
    requires Run(c, states, acts) && x < n <= |acts| && g < |states[x + 1].collectors|
    requires forall y :: x < y < n ==> !Concerns(acts[y], g)
    ensures g < |states[n].collectors| && states[n].collectors[g] == states[x + 1].collectors[g]
  {
    if x + 1 < n {
      CollectorWaits(c, states, acts, x, n - 1, g);
      assert Steps(c, states[n - 1], acts[n - 1], states[n - 1 + 1]);
      assert !Concerns(acts[n - 1], g);
    }
  }

  lemma TwoNames(fs: Fs, p: Path, q: Path)
    requires p in fs.names && q in fs.names && p != q && fs.names[p] == fs.names[q]
    ensures fs.LinksAt(p) > 1
  {
    SubsetSize({p, q}, fs.NamesOf(fs.names[p]));
  }

  /** A slot moved into quarantine by step `m`, whose inode has a workspace name when a collector
      stats the cooled entry at step `x`, is back where it came from when that collector acts at
      step `n`, if the entry is still there; EntryLeavesByRevival says how else it may have gone. */
  lemma LinkedEntryReturns(c: Config, states: seq<State>, acts: seq<Action>, m: nat, x: nat, n: nat, g: nat, h: nat,
                           d: Digest, k: nat, ts: nat, w: WorkPath)
    requires Run(c, states, acts) && m < x < n < |acts| && NotGivenAgain(states, acts, m + 1, n, Quarantine(ts, d, k))
    requires acts[m] == GcAct(h) && h < |states[m].collectors| && states[m].collectors[h] == GcMove(d, k, ts)
    requires Object(d, k) in states[m].fs.names
    requires acts[x] == GcScanEntry(g, d, k, ts)
    requires Quarantine(ts, d, k) in states[x].fs.names && File(w) in states[x].fs.names
    requires states[x].fs.names[File(w)] == states[m].fs.names[Object(d, k)]
    requires acts[n] == GcAct(g) && (forall y :: x < y < n ==> !Concerns(acts[y], g))
    requires Quarantine(ts, d, k) in states[n].fs.names
    ensures Object(d, k) in states[n + 1].fs.names
    ensures states[n + 1].fs.names[Object(d, k)] == states[m].fs.names[Object(d, k)]
    ensures Quarantine(ts, d, k) !in states[n + 1].fs.names
  {
    var q := Quarantine(ts, d, k);
    assert Steps(c, states[m], acts[m], states[m + 1]);
    assert Steps(c, states[x], acts[x], states[x + 1]);
    OriginStays(c, states, acts, m + 1, x, q);
    RunNameInv(c, states, acts, x);
    TwoNames(states[x].fs, q, File(w));
    assert states[x + 1].collectors[g] == GcRevive(d, k, ts);
    CollectorWaits(c, states, acts, x, n, g);
    ReviveReturns(c, states, acts, m, n, h, g, d, k, ts);
  }

  /** Only a collector takes a quarantine name away. */
  lemma EntryLeaves(c: Config, s: State, a: Action, q: Path)
    requires Enabled(c, s, a) && q.Quarantine? && q in s.fs.names && q !in Next(c, s, a).fs.names
    ensures a.GcAct? && a.g < |s.collectors|
    ensures var me := s.collectors[a.g]; (me.GcRevive? || me.GcPurge?) && Entry(me) == q
  {
  }

  /** A quarantined inode that has a second name leaves quarantine in one way: back to the slot
      its entry is named after. */
  lemma EntryLeavesByRevival(c: Config, states: seq<State>, acts: seq<Action>, n: nat, q: Path)
    requires Run(c, states, acts) && n < |acts| && GuardedTo(states, acts, n)
    requires q.Quarantine? && q in states[n].fs.names && states[n].fs.LinksAt(q) > 1
    requires q !in states[n + 1].fs.names
    ensures var slot := Object(q.digest, q.idx);
            slot in states[n + 1].fs.names && states[n + 1].fs.names[slot] == states[n].fs.names[q]
  {
    assert Steps(c, states[n], acts[n], states[n + 1]);
    EntryLeaves(c, states[n], acts[n], q);
    if states[n].collectors[acts[n].g].GcPurge? {
      PurgeIsSafe(c, states, acts, n);
    }
  }

  // ─── The cooldown ─────────────────────────────────────────────────────────

  ghost predicate AgeInv(c: Config, s: State) {
    && (forall ts: nat, d, k :: Quarantine(ts, d, k) in s.fs.names ==> ts <= s.clock)
    && (forall g :: 0 <= g < |s.collectors| ==> AgeOk(c, s.clock, s.collectors[g]))
  }

  ghost predicate AgeOk(c: Config, clock: nat, g: GcPc) {
    && (g.GcMove? ==> g.ts <= clock)
    && (g.GcRevive? || g.GcPurge? ==> g.ts + c.cooldown <= clock)
  }

  lemma AgeStep(c: Config, s: State, a: Action)
    requires AgeInv(c, s) && Enabled(c, s, a)
    ensures AgeInv(c, Next(c, s, a))
  {
    var s' := Next(c, s, a);
    forall ts: nat, d, k | Quarantine(ts, d, k) in s'.fs.names ensures ts <= s'.clock {
      if a.GcAct? {
        assert AgeOk(c, s.clock, s.collectors[a.g]);
      }
    }
    forall g | 0 <= g < |s'.collectors| ensures AgeOk(c, s'.clock, s'.collectors[g]) {
      assert AgeOk(c, s.clock, s.collectors[g]);
    }
  }

  lemma {:induction false} RunAgeInv(c: Config, states: seq<State>, acts: seq<Action>, n: nat)
    requires Run(c, states, acts) && n <= |acts|
    ensures AgeInv(c, states[n])
  {
    if n == 0 {
      assert forall g :: 0 <= g < |states[0].collectors| ==> states[0].collectors[g] in states[0].collectors;
    } else {
      RunAgeInv(c, states, acts, n - 1);
      assert Steps(c, states[n - 1], acts[n - 1], states[n - 1 + 1]);
      AgeStep(c, states[n - 1], acts[n - 1]);
    }
  }

  /** A purge comes at least the cooldown after the clock reading in the entry's name. */
  lemma PurgeIsCooled(c: Config, states: seq<State>, acts: seq<Action>, n: nat)
    requires Run(c, states, acts) && n < |acts|
    requires Purges(states[n], acts[n])
    ensures states[n].collectors[acts[n].g].ts + c.cooldown <= states[n].clock
  {
    RunAgeInv(c, states, acts, n);
    assert AgeOk(c, states[n].clock, states[n].collectors[acts[n].g]);
  }

  /** What a purge of entry (`ts`, `d`, `k`) that is `t` milliseconds off takes: the scan is due by
      then, and the collector that makes it purges. */
  predicate PurgedAfter(c: Config, s: State, g: nat, d: Digest, k: nat, ts: nat, t: nat) {
    var later, scan := Next(c, s, Tick(t)), GcScanEntry(g, d, k, ts);
    Enabled(c, later, scan) && Purges(Next(c, later, scan), GcAct(g))
  }

  /** The timestamp precedes the rename.  From the move on, an entry is safe for the cooldown less
      the time that had gone by since the timestamp, and not longer; so it is safe for the whole
      cooldown exactly when no time had gone by, or when there is no cooldown. */
  lemma ResidenceExactly(c: Config, s: State, g: nat, d: Digest, k: nat, ts: nat)
    requires g < |s.collectors| && s.collectors[g] == GcMove(d, k, ts)
    requires Object(d, k) in s.fs.names && s.fs.LinksAt(Object(d, k)) == 1
    requires Quarantine(ts, d, k) !in s.fs.names && ts <= s.clock
    ensures var moved := Next(c, s, GcAct(g));
      && (forall t: nat :: PurgedAfter(c, moved, g, d, k, ts, t) <==> t >= c.cooldown - (s.clock - ts))
      && ((forall t: nat :: PurgedAfter(c, moved, g, d, k, ts, t) ==> t >= c.cooldown) <==> s.clock == ts || c.cooldown == 0)
  {
    RenameCounts(s.fs, Object(d, k), Quarantine(ts, d, k));
    var moved, q := Next(c, s, GcAct(g)), Quarantine(ts, d, k);
    assert moved.fs.names[q] == s.fs.names[Object(d, k)];
    assert moved.fs.LinksAt(q) == 1;
    forall t: nat ensures PurgedAfter(c, moved, g, d, k, ts, t) <==> t >= c.cooldown - (s.clock - ts) {
      assert Next(c, moved, Tick(t)).fs == moved.fs;
    }
    var soonest: nat := if c.cooldown >= s.clock - ts then c.cooldown - (s.clock - ts) else 0;
    assert PurgedAfter(c, moved, g, d, k, ts, soonest);
  }

  /** In every run: a slot moved at step `m` and purged at step `n` has been in quarantine for at
      least the cooldown less the delay of its move. */
  lemma ResidenceInRuns(c: Config, states: seq<State>, acts: seq<Action>, m: nat, n: nat, g: nat)
    requires Run(c, states, acts) && m < n < |acts|
    requires acts[m] == GcAct(g) && g < |states[m].collectors| && states[m].collectors[g].GcMove?
    requires Purges(states[n], acts[n]) && Entry(states[n].collectors[acts[n].g]) == Entry(states[m].collectors[g])
    ensures states[m].collectors[g].ts <= states[m].clock <= states[n].clock
    ensures states[n].clock - states[m].clock >= c.cooldown - (states[m].clock - states[m].collectors[g].ts)
  {
    PurgeIsCooled(c, states, acts, n);
    RunAgeInv(c, states, acts, m);
    assert AgeOk(c, states[m].clock, states[m].collectors[g]);
    ClockRuns(c, states, acts, m, n);
  }

  lemma {:induction false} ClockRuns(c: Config, states: seq<State>, acts: seq<Action>, m: nat, n: nat)
    requires Run(c, states, acts) && m <= n <= |acts|
    ensures states[m].clock <= states[n].clock
  {
    if m < n {
      ClockRuns(c, states, acts, m, n - 1);
      assert Steps(c, states[n - 1], acts[n - 1], states[n - 1 + 1]);
    }
  }
}
