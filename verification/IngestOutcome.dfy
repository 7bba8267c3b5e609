/** What a whole ingest run achieves: which digests have a master when it ends, which files share
    a slot, and what the counters count. */
module IngestOutcome {
  import opened Accounting
  import opened Filesystem
  import opened Ingest
  import opened IngestLaws
  import opened IngestRun
  import opened Linkage
  import opened LinkageLaws
  import opened Names
  import opened Store
  import opened Verdicts

  // ─── Counters ─────────────────────────────────────────────────────────────

  datatype Kind = AsSkipped | AsUnique | AsLinked | Uncounted

  /** A bypassed file is skipped, a new one counts when its three calls succeed, and a duplicate
      when its two do and its temporary link can be made. */
  function KindOf(fs: Fs, w: WorkPath, answer: Answer, env: Env): Kind {
    if !answer.Verdict? then Uncounted
    else match answer.value
      case Bypass(_) => AsSkipped
      case Unique => if env.publish == PublishIo(Copied, Fine, Fine) then AsUnique else Uncounted
      case Duplicate(slot) =>
        if env.link == LinkIo(Fine, Fine) && Object(slot.digest, 0) in fs.names && TmpLink(w) !in fs.names then AsLinked else Uncounted
  }

  lemma StepKind(rules: Rules, limit: nat, w: WorkPath, env: Env, answer: Answer, s: Snap, s': Snap)
    requires WellFormed(s.fs) && FileStep(rules, limit, false, w, env, answer, s, s')
    ensures var kind := KindOf(s.fs, w, answer, env);
      && s'.t.skipped == s.t.skipped + (if kind == AsSkipped then 1 else 0)
      && s'.t.unique == s.t.unique + (if kind == AsUnique then 1 else 0)
      && s'.t.linked == s.t.linked + (if kind == AsLinked then 1 else 0)
      && s'.t.saved == s.t.saved + (if kind == AsLinked && File(w) in s.fs.names then |s.fs.DataAt(File(w))| else 0)
  {
    hide OneStoreName, PublishedFs, LinkedFs, AppliedFs, CopiesFor, LinkSucceeds;
    if answer.Verdict? {
      VerdictMeans(rules, s.fs, s.memo, w, env.fault, answer, s'.memo);
      hide Evaluates;
      if answer.value.Duplicate? {
        LinkAnswers(s.fs, limit, w, answer.value.slot.digest, env.link);
      }
    }
  }

  predicate IsKind(tr: Trace, m: nat, kind: Kind) {
    && m < |tr.ws| == |tr.envs| == |tr.answers| && |tr.snaps| == |tr.ws| + 1
    && KindOf(tr.snaps[m].fs, tr.ws[m], tr.answers[m], tr.envs[m]) == kind
  }

  /** The files of the first `n` that were counted in this way. */
  function OfKind(tr: Trace, n: nat, kind: Kind): set<nat> {
    set m: nat | m < n && IsKind(tr, m, kind)
  }

  lemma OfKindNext(tr: Trace, n: nat, kind: Kind)
    ensures |OfKind(tr, n + 1, kind)| == |OfKind(tr, n, kind)| + if IsKind(tr, n, kind) then 1 else 0
    ensures OfKind(tr, 0, kind) == {}
  {
    hide IsKind;
    if IsKind(tr, n, kind) {
      assert OfKind(tr, n + 1, kind) == OfKind(tr, n, kind) + {n};
    } else {
      assert OfKind(tr, n + 1, kind) == OfKind(tr, n, kind);
    }
  }

  /** The three counters of a run are the numbers of files of each kind. */
  lemma {:induction false} CountersCount(rules: Rules, limit: nat, tr: Trace, n: nat)
    requires IsTrace(rules, limit, false, tr) && n <= |tr.ws|
    requires WellFormed(tr.snaps[0].fs) && tr.snaps[0].t == NO_TOTALS && tr.snaps[0].copies == NO_COPIES
    ensures tr.snaps[n].t.skipped == |OfKind(tr, n, AsSkipped)|
    ensures tr.snaps[n].t.unique == |OfKind(tr, n, AsUnique)|
    ensures tr.snaps[n].t.linked == |OfKind(tr, n, AsLinked)|
  {
    hide FileStep, OneStoreName, Progress, OfKind, KindOf;
    if n == 0 {
      OfKindNext(tr, 0, AsSkipped);
      OfKindNext(tr, 0, AsUnique);
      OfKindNext(tr, 0, AsLinked);
    } else {
      CountersCount(rules, limit, tr, n - 1);
      TraceIsWell(rules, limit, false, tr, n - 1);
      TraceSnap(rules, limit, false, tr, n - 1);
      StepKind(rules, limit, tr.ws[n - 1], tr.envs[n - 1], tr.answers[n - 1], tr.snaps[n - 1], tr.snaps[n]);
      OfKindNext(tr, n - 1, AsSkipped);
      OfKindNext(tr, n - 1, AsUnique);
      OfKindNext(tr, n - 1, AsLinked);
    }
  }

  lemma TraceIsWell(rules: Rules, limit: nat, dryRun: bool, tr: Trace, n: nat)
    requires IsTrace(rules, limit, dryRun, tr) && n <= |tr.ws|
    requires WellFormed(tr.snaps[0].fs) && tr.snaps[0].t == NO_TOTALS && tr.snaps[0].copies == NO_COPIES
    ensures WellFormed(tr.snaps[n].fs)
  {
    hide FileStep, OneStoreName, WellFormed;
    TraceProgress(rules, limit, dryRun, tr, multiset(tr.ws), n);
  }

  // ─── Masters ──────────────────────────────────────────────────────────────

  /** The digests that have a slot at index 0. */
  function Masters(fs: Fs): set<Digest> {
    set p | p in fs.names && p.Object? && p.idx == 0 :: p.digest
  }

  lemma MasterOf(fs: Fs, d: Digest)
    ensures d in Masters(fs) <==> Object(d, 0) in fs.names
  {
    if Object(d, 0) in fs.names {
      assert Object(d, 0).digest in Masters(fs);
    }
  }

  /** A digest with a slot at index 1 has one at index 0. */
  ghost predicate Low(fs: Fs) {
    forall d :: Object(d, 1) in fs.names ==> Object(d, 0) in fs.names
  }

  lemma AcquireKeepsMasters(fs: Fs, limit: nat, d: Digest)
    requires WellFormed(fs) && Low(fs)
    ensures Low(AcquiredFs(fs, limit, d))
    ensures forall e :: Object(e, 0) in AcquiredFs(fs, limit, d).names <==> Object(e, 0) in fs.names
  {
    hide OneStoreName;
    var k := OpenIndex(fs, limit, d, 0);
    if k > 0 && Object(d, k) !in fs.names {
      assert Full(fs, limit, d, k - 1);
    }
  }

  lemma LinkKeepsMasters(fs: Fs, limit: nat, w: WorkPath, d: Digest, io: LinkIo)
    requires WellFormed(fs) && Low(fs)
    ensures Low(LinkedFs(fs, limit, w, d, io))
    ensures forall e :: Object(e, 0) in LinkedFs(fs, limit, w, d, io).names <==> Object(e, 0) in fs.names
  {
    var a, slot := AcquiredFs(fs, limit, d), SlotFor(fs, limit, d).Path();
    AcquireKeepsMasters(fs, limit, d);
    LinkForms(fs, limit, w, d, io);
    if LinkSucceeds(fs, limit, w, d, io) {
      SwapNames(Stripped(a, w), slot, w);
    }
    hide LinkedFs, AcquiredFs, OpenIndex, OneStoreName;
  }

  lemma PublishAddsMaster(fs: Fs, limit: nat, w: WorkPath, d: Digest)
    requires WellFormed(fs) && Low(fs) && Publishes(fs, w, d)
    ensures Low(PublishedFs(fs, limit, w, d, PUBLISH_FINE))
    ensures forall e :: Object(e, 0) in PublishedFs(fs, limit, w, d, PUBLISH_FINE).names <==> Object(e, 0) in fs.names || e == d
  {
  }

  /** Nothing fails in reading the file or in publishing it. */
  predicate Calm(env: Env) {
    env.fault == NoFault && env.publish == PUBLISH_FINE
  }

  /** One file of a calm run: it has a master afterwards if it gets far, no other digest gains or
      loses one, and it is counted as unique exactly when its digest gains one. */
  lemma StepMasters(rules: Rules, limit: nat, w: WorkPath, env: Env, answer: Answer, s: Snap, s': Snap)
    requires WellFormed(s.fs) && Low(s.fs) && MemoSound(rules, s.fs, s.memo) && Calm(env)
    requires FileStep(rules, limit, false, w, env, answer, s, s')
    ensures Low(s'.fs)
    ensures forall e :: Object(e, 0) in s'.fs.names <==>
              Object(e, 0) in s.fs.names || (GetsFar(rules, s.fs, w) && e == rules.hash(s.fs.DataAt(File(w))))
    ensures s'.t.unique == s.t.unique +
              if GetsFar(rules, s.fs, w) && Object(rules.hash(s.fs.DataAt(File(w))), 0) !in s.fs.names then 1 else 0
  {
    hide OneStoreName, PublishedFs, LinkedFs, CopiesFor, LinkSucceeds, MemoSound;
    AnswersAre(rules, s.fs, s.memo, w, env.fault, answer, s'.memo);
    StepKind(rules, limit, w, env, answer, s, s');
    hide Evaluates, IngestRun.Counted;
    if GetsFar(rules, s.fs, w) {
      var d := rules.hash(s.fs.DataAt(File(w)));
      if answer == Verdict(Unique) {
        PublishAddsMaster(s.fs, limit, w, d);
      } else if answer == Verdict(Bypass(AlreadyIngested)) {
        RememberedIsStored(rules, s.fs, s.memo, s.fs.names[File(w)]);
      } else {
        LinkKeepsMasters(s.fs, limit, w, d, env.link);
      }
    }
  }

  lemma RememberedIsStored(rules: Rules, fs: Fs, memo: Memo, i: Ino)
    requires Low(fs) && MemoSound(rules, fs, memo) && i in memo.inodes
    ensures i in fs.nodes && Object(rules.hash(fs.nodes[i].data), 0) in fs.names
  {
    assert InTheStore(rules, fs, i);
  }

  // ─── Files not yet visited ────────────────────────────────────────────────

  /** Path `v` and its temporary link are what they were. */
  ghost predicate Untouched(fs: Fs, fs': Fs, v: WorkPath) {
    && (File(v) in fs'.names <==> File(v) in fs.names) && (TmpLink(v) in fs'.names <==> TmpLink(v) in fs.names)
    && (File(v) in fs.names ==>
          && fs.names[File(v)] in fs.nodes && fs'.names[File(v)] == fs.names[File(v)] && fs'.names[File(v)] in fs'.nodes
          && fs'.DataAt(File(v)) == fs.DataAt(File(v)))
  }

  lemma PublishLeavesOthers(fs: Fs, limit: nat, w: WorkPath, d: Digest, io: PublishIo, v: WorkPath)
    requires WellFormed(fs)
    ensures Untouched(fs, PublishedFs(fs, limit, w, d, io), v)
  {
    AcquireKeepsValid(fs, limit, d);
    assert Stage(fs.next) !in fs.names;
    hide AcquiredFs, OpenIndex, OneStoreName;
  }

  lemma AcquireLeavesOthers(fs: Fs, limit: nat, d: Digest, v: WorkPath)
    requires WellFormed(fs)
    ensures Untouched(fs, AcquiredFs(fs, limit, d), v)
  {
    AcquireKeepsValid(fs, limit, d);
    hide AcquiredFs, OpenIndex, OneStoreName;
  }

  lemma FormsLeaveOthers(a: Fs, slot: Path, w: WorkPath, v: WorkPath)
    requires a.Valid() && v != w
    ensures Untouched(a, Stripped(a, w), v)
    ensures slot in a.names && slot.Object? && TmpLink(w) !in a.names ==> Untouched(a, Swapped(a, slot, w), v)
  {
    FormsKeepBytes(a, slot, w);
    if slot in a.names && slot.Object? && TmpLink(w) !in a.names {
      SwapNames(Stripped(a, w), slot, w);
    }
  }

  lemma LinkLeavesOthers(fs: Fs, limit: nat, w: WorkPath, d: Digest, io: LinkIo, v: WorkPath)
    requires WellFormed(fs) && v != w
    ensures Untouched(fs, LinkedFs(fs, limit, w, d, io), v)
  {
    hide LinkedFs, AcquiredFs, OpenIndex, OneStoreName, Stripped, Swapped;
    AcquireLeavesOthers(fs, limit, d, v);
    LinkForms(fs, limit, w, d, io);
    FormsLeaveOthers(AcquiredFs(fs, limit, d), SlotFor(fs, limit, d).Path(), w, v);
  }

  lemma StepLeavesOthers(rules: Rules, limit: nat, w: WorkPath, env: Env, answer: Answer, s: Snap, s': Snap, v: WorkPath)
    requires WellFormed(s.fs) && FileStep(rules, limit, false, w, env, answer, s, s') && v != w
    ensures Untouched(s.fs, s'.fs, v)
  {
    hide PublishedFs, LinkedFs, OneStoreName, Evaluates, IngestRun.Counted, CopiesFor;
    if answer.Verdict? && File(w) in s.fs.names {
      match answer.value
      case Bypass(_) =>
      case Unique => PublishLeavesOthers(s.fs, limit, w, rules.hash(s.fs.DataAt(File(w))), env.publish, v);
      case Duplicate(slot) => LinkLeavesOthers(s.fs, limit, w, slot.digest, env.link, v);
    }
  }

  lemma StillUntouched(rules: Rules, fs: Fs, mid: Fs, fs': Fs, v: WorkPath)
    requires fs.Valid() && mid.Valid() && Untouched(fs, mid, v)
    ensures Untouched(mid, fs', v) ==> Untouched(fs, fs', v)
    ensures GetsFar(rules, mid, v) <==> GetsFar(rules, fs, v)
    ensures GetsFar(rules, fs, v) ==> mid.DataAt(File(v)) == fs.DataAt(File(v))
  {
  }

  // ─── A calm run ───────────────────────────────────────────────────────────

  /** The digests of files that get far, and which have no master yet. */
  function NewDigests(rules: Rules, fs: Fs, ws: multiset<WorkPath>): set<Digest>
    requires fs.Valid()
  {
    set w | w in ws && GetsFar(rules, fs, w) && Object(rules.hash(fs.DataAt(File(w))), 0) !in fs.names :: rules.hash(fs.DataAt(File(w)))
  }

  /** What a calm run over distinct files has achieved when `ws` are done. */
  ghost predicate Stored(rules: Rules, fs0: Fs, s: Snap, ws: seq<WorkPath>)
    requires fs0.Valid()
  {
    && Low(s.fs) && s.fs.Valid()
    && (forall e :: Object(e, 0) in s.fs.names <==> Object(e, 0) in fs0.names || e in NewDigests(rules, fs0, multiset(ws)))
    && s.t.unique == |NewDigests(rules, fs0, multiset(ws))|
    && (forall v :: v !in ws ==> Untouched(fs0, s.fs, v))
  }

  lemma NewDigestsNext(rules: Rules, fs: Fs, ws: seq<WorkPath>, w: WorkPath)
    requires fs.Valid()
    ensures NewDigests(rules, fs, multiset(ws + [w])) ==
            NewDigests(rules, fs, multiset(ws)) +
            if GetsFar(rules, fs, w) && Object(rules.hash(fs.DataAt(File(w))), 0) !in fs.names then {rules.hash(fs.DataAt(File(w)))} else {}
  {
    hide GetsFar;
    assert multiset(ws + [w]) == multiset(ws) + multiset{w};
    assert forall v :: v in multiset(ws + [w]) <==> v in multiset(ws) || v == w;
  }

  lemma StoredNext(rules: Rules, limit: nat, fs0: Fs, ws: seq<WorkPath>, w: WorkPath, env: Env, answer: Answer, s: Snap, s': Snap)
    requires fs0.Valid() && Stored(rules, fs0, s, ws) && w !in ws && WellFormed(s.fs) && WellFormed(s'.fs)
    requires MemoSound(rules, s.fs, s.memo) && Calm(env) && FileStep(rules, limit, false, w, env, answer, s, s')
    ensures Stored(rules, fs0, s', ws + [w])
  {
    hide FileStep, OneStoreName, MemoSound, Untouched, GetsFar, NewDigests, Low;
    StepMasters(rules, limit, w, env, answer, s, s');
    StillUntouched(rules, fs0, s.fs, s'.fs, w);
    OthersStayUntouched(rules, limit, fs0, ws, w, env, answer, s, s');
    NewDigestsNext(rules, fs0, ws, w);
    var before, after := NewDigests(rules, fs0, multiset(ws)), NewDigests(rules, fs0, multiset(ws + [w]));
    if GetsFar(rules, fs0, w) {
      GotFar(rules, fs0, w);
      GotFar(rules, s.fs, w);
      OneMoreMaster(fs0, s.fs, s'.fs, before, after, true, rules.hash(fs0.DataAt(File(w))));
    } else {
      OneMoreMaster(fs0, s.fs, s'.fs, before, after, false, []);
    }
  }

  lemma OneMoreMaster(fs0: Fs, fs: Fs, fs': Fs, before: set<Digest>, after: set<Digest>, far: bool, d: Digest)
    requires forall e :: Object(e, 0) in fs.names <==> Object(e, 0) in fs0.names || e in before
    requires forall e :: Object(e, 0) in fs'.names <==> Object(e, 0) in fs.names || (far && e == d)
    requires after == before + if far && Object(d, 0) !in fs0.names then {d} else {}
    ensures forall e :: Object(e, 0) in fs'.names <==> Object(e, 0) in fs0.names || e in after
    ensures |after| == |before| + if far && Object(d, 0) !in fs.names then 1 else 0
  {
    if far && Object(d, 0) !in fs.names {
      assert d !in before && after == before + {d};
    } else if far && Object(d, 0) !in fs0.names {
      assert d in before;
      assert after == before;
    } else {
      assert after == before;
    }
  }

  lemma OthersStayUntouched(rules: Rules, limit: nat, fs0: Fs, ws: seq<WorkPath>, w: WorkPath, env: Env, answer: Answer, s: Snap, s': Snap)
    requires fs0.Valid() && WellFormed(s.fs) && FileStep(rules, limit, false, w, env, answer, s, s')
    requires forall v :: v !in ws ==> Untouched(fs0, s.fs, v)
    ensures forall v :: v !in ws + [w] ==> Untouched(fs0, s'.fs, v)
  {
    hide FileStep, OneStoreName, Untouched, GetsFar;
    forall v | v !in ws + [w] ensures Untouched(fs0, s'.fs, v) {
      StepLeavesOthers(rules, limit, w, env, answer, s, s', v);
      StillUntouched(rules, fs0, s.fs, s'.fs, v);
    }
  }

  ghost predicate DistinctPaths(ws: seq<WorkPath>) {
    forall m, n :: 0 <= m < n < |ws| ==> ws[m] != ws[n]
  }

  lemma {:induction false} RunStores(rules: Rules, limit: nat, tr: Trace, n: nat)
    requires IsTrace(rules, limit, false, tr) && n <= |tr.ws| && DistinctPaths(tr.ws) && forall env <- tr.envs :: Calm(env)
    requires WellFormed(tr.snaps[0].fs) && Low(tr.snaps[0].fs)
    requires tr.snaps[0] == Snap(tr.snaps[0].fs, EMPTY_MEMO, NO_TOTALS, NO_COPIES)
    ensures Stored(rules, tr.snaps[0].fs, tr.snaps[n], tr.ws[..n])
  {
    hide FileStep, OneStoreName, MemoSound, Untouched, GetsFar, Stored, Session;
    var fs0 := tr.snaps[0].fs;
    if n == 0 {
      NothingStored(rules, tr.snaps[0]);
      assert tr.ws[..0] == [];
    } else {
      RunStores(rules, limit, tr, n - 1);
      TraceIsWell(rules, limit, false, tr, n - 1);
      TraceIsWell(rules, limit, false, tr, n);
      TraceIsSession(rules, limit, false, tr);
      SessionIsSound(rules, Volumes(tr), tr.ws, Faults(tr), tr.answers, Memos(tr), n - 1);
      TraceSnap(rules, limit, false, tr, n - 1);
      assert tr.envs[n - 1] in tr.envs;
      assert tr.ws[..n] == tr.ws[..n - 1] + [tr.ws[n - 1]];
      StoredNext(rules, limit, fs0, tr.ws[..n - 1], tr.ws[n - 1], tr.envs[n - 1], tr.answers[n - 1], tr.snaps[n - 1], tr.snaps[n]);
    }
  }

  lemma NothingStored(rules: Rules, s: Snap)
    requires s.fs.Valid() && Low(s.fs) && s.t == NO_TOTALS
    ensures Stored(rules, s.fs, s, [])
  {
    assert NewDigests(rules, s.fs, multiset([])) == {};
  }

  /** When nothing fails in reading and publishing, and the slots of a digest start at 0, every
      whitelisted file of the run that has 4,096 bytes or more has a master under the digest it had
      at the start, and `unique` is the number of different such digests that had none. */
  lemma EveryFileIsStored(rules: Rules, limit: nat, tr: Trace)
    requires IsTrace(rules, limit, false, tr) && DistinctPaths(tr.ws) && forall env <- tr.envs :: Calm(env)
    requires WellFormed(tr.snaps[0].fs) && Low(tr.snaps[0].fs)
    requires tr.snaps[0] == Snap(tr.snaps[0].fs, EMPTY_MEMO, NO_TOTALS, NO_COPIES)
    ensures var fs0, end := tr.snaps[0].fs, tr.snaps[|tr.ws|];
      && (forall w <- tr.ws :: GetsFar(rules, fs0, w) ==> Object(rules.hash(fs0.DataAt(File(w))), 0) in end.fs.names)
      && end.t.unique == |NewDigests(rules, fs0, multiset(tr.ws))|
  {
    hide OneStoreName, Untouched, GetsFar;
    RunStores(rules, limit, tr, |tr.ws|);
    assert tr.ws[..|tr.ws|] == tr.ws;
  }

  // ─── Sharing ──────────────────────────────────────────────────────────────

  /** The file is one with some slot of the digest. */
  ghost predicate SharesSlot(fs: Fs, w: WorkPath, d: Digest) {
    exists k: nat :: Object(d, k) in fs.names && File(w) in fs.names && fs.names[File(w)] == fs.names[Object(d, k)]
  }

  lemma LinkedShares(rules: Rules, limit: nat, w: WorkPath, env: Env, answer: Answer, s: Snap, s': Snap)
    requires WellFormed(s.fs) && FileStep(rules, limit, false, w, env, answer, s, s') && KindOf(s.fs, w, answer, env) == AsLinked
    ensures SharesSlot(s'.fs, w, answer.value.slot.digest)
  {
    hide OneStoreName, LinkedFs, PublishedFs, LinkSucceeds, CopiesFor, IngestRun.Counted, AcquiredFs, OpenIndex;
    var d := answer.value.slot.digest;
    VerdictMeans(rules, s.fs, s.memo, w, env.fault, answer, s'.memo);
    hide Evaluates;
    LinkAnswers(s.fs, limit, w, d, env.link);
    LinkShares(s.fs, limit, w, d);
    AcquireKeepsValid(s.fs, limit, d);
    assert Object(d, SlotFor(s.fs, limit, d).idx) in s'.fs.names;
  }

  lemma StepKeepsSlots(rules: Rules, limit: nat, w: WorkPath, env: Env, answer: Answer, s: Snap, s': Snap, d: Digest, k: nat)
    requires WellFormed(s.fs) && FileStep(rules, limit, false, w, env, answer, s, s') && Object(d, k) in s.fs.names
    ensures Object(d, k) in s'.fs.names && s'.fs.names[Object(d, k)] == s.fs.names[Object(d, k)]
  {
    hide PublishedFs, LinkedFs, OneStoreName, Evaluates, IngestRun.Counted, CopiesFor;
    if answer.Verdict? && File(w) in s.fs.names {
      match answer.value
      case Bypass(_) =>
      case Unique => PublishKeepsNames(s.fs, limit, w, rules.hash(s.fs.DataAt(File(w))), env.publish, Object(d, k));
      case Duplicate(slot) => LinkKeepsNames(s.fs, limit, w, slot.digest, env.link, Object(d, k));
    }
  }

  lemma StepKeepsSharing(rules: Rules, limit: nat, w: WorkPath, env: Env, answer: Answer, s: Snap, s': Snap, v: WorkPath, d: Digest)
    requires WellFormed(s.fs) && FileStep(rules, limit, false, w, env, answer, s, s') && v != w && SharesSlot(s.fs, v, d)
    ensures SharesSlot(s'.fs, v, d)
  {
    hide FileStep, OneStoreName;
    var k: nat :| Object(d, k) in s.fs.names && File(v) in s.fs.names && s.fs.names[File(v)] == s.fs.names[Object(d, k)];
    StepLeavesOthers(rules, limit, w, env, answer, s, s', v);
    StepKeepsSlots(rules, limit, w, env, answer, s, s', d, k);
  }

  lemma {:induction false} StaysShared(rules: Rules, limit: nat, tr: Trace, m: nat, n: nat)
    requires IsTrace(rules, limit, false, tr) && m < n <= |tr.ws| && DistinctPaths(tr.ws) && IsKind(tr, m, AsLinked)
    requires WellFormed(tr.snaps[0].fs) && tr.snaps[0].t == NO_TOTALS && tr.snaps[0].copies == NO_COPIES
    ensures SharesSlot(tr.snaps[n].fs, tr.ws[m], tr.answers[m].value.slot.digest)
  {
    hide FileStep, OneStoreName, SharesSlot;
    TraceIsWell(rules, limit, false, tr, n - 1);
    TraceSnap(rules, limit, false, tr, n - 1);
    if m == n - 1 {
      LinkedShares(rules, limit, tr.ws[m], tr.envs[m], tr.answers[m], tr.snaps[m], tr.snaps[n]);
    } else {
      StaysShared(rules, limit, tr, m, n - 1);
      StepKeepsSharing(rules, limit, tr.ws[n - 1], tr.envs[n - 1], tr.answers[n - 1], tr.snaps[n - 1], tr.snaps[n],
                       tr.ws[m], tr.answers[m].value.slot.digest);
    }
  }

  /** Nothing fails at all, and no temporary link is in the way. */
  ghost predicate NothingFails(tr: Trace) {
    && (forall env <- tr.envs :: Calm(env) && env.link == FINE)
    && |tr.snaps| > 0 && forall w <- tr.ws :: TmpLink(w) !in tr.snaps[0].fs.names
  }

  /** File `m` is the first of its digest. */
  predicate FirstOfItsKind(rules: Rules, fs: Fs, ws: seq<WorkPath>, m: nat)
    requires fs.Valid() && m < |ws| && GetsFar(rules, fs, ws[m])
  {
    var d := rules.hash(fs.DataAt(File(ws[m])));
    && Object(d, 0) !in fs.names
    && forall l :: 0 <= l < m && GetsFar(rules, fs, ws[l]) ==> rules.hash(fs.DataAt(File(ws[l]))) != d
  }

  lemma NewBefore(rules: Rules, fs: Fs, ws: seq<WorkPath>, m: nat)
    requires fs.Valid() && m < |ws| && GetsFar(rules, fs, ws[m])
    ensures var d := rules.hash(fs.DataAt(File(ws[m])));
            FirstOfItsKind(rules, fs, ws, m) <==> Object(d, 0) !in fs.names && d !in NewDigests(rules, fs, multiset(ws[..m]))
  {
    var d, before := rules.hash(fs.DataAt(File(ws[m]))), ws[..m];
    if Object(d, 0) !in fs.names {
      forall l | 0 <= l < m && GetsFar(rules, fs, ws[l]) ensures rules.hash(fs.DataAt(File(ws[l]))) == d ==> d in NewDigests(rules, fs, multiset(before)) {
        assert before[l] in multiset(before);
      }
      if d in NewDigests(rules, fs, multiset(before)) {
        var w :| w in multiset(before) && GetsFar(rules, fs, w) && rules.hash(fs.DataAt(File(w))) == d;
        var l :| 0 <= l < m && before[l] == w;
        assert ws[l] == w;
      }
    }
  }

  /** What becomes of each file of a run in which nothing fails: the first of a new digest is
      published; any other is one with a slot of its digest when the run ends, unless it was
      passed over as ingested already, which never happens to the only name of an inode. */
  lemma EveryFileIsSettled(rules: Rules, limit: nat, tr: Trace, m: nat)
    requires IsTrace(rules, limit, false, tr) && DistinctPaths(tr.ws) && NothingFails(tr) && m < |tr.ws|
    requires WellFormed(tr.snaps[0].fs) && Low(tr.snaps[0].fs)
    requires tr.snaps[0] == Snap(tr.snaps[0].fs, EMPTY_MEMO, NO_TOTALS, NO_COPIES)
    requires GetsFar(rules, tr.snaps[0].fs, tr.ws[m])
    ensures var fs0, w := tr.snaps[0].fs, tr.ws[m];
      && (tr.answers[m] == Verdict(Unique) <==> FirstOfItsKind(rules, fs0, tr.ws, m))
      && (FirstOfItsKind(rules, fs0, tr.ws, m) || tr.answers[m] == Verdict(Bypass(AlreadyIngested))
          || SharesSlot(tr.snaps[|tr.ws|].fs, w, rules.hash(fs0.DataAt(File(w)))))
      && (SoleTargets(fs0, multiset(tr.ws)) ==> tr.answers[m] != Verdict(Bypass(AlreadyIngested)))
  {
    hide FileStep, OneStoreName, MemoSound, SharesSlot, Evaluates, FirstOfItsKind, SoleTargets;
    var fs0, s, w := tr.snaps[0].fs, tr.snaps[m], tr.ws[m];
    var d := rules.hash(fs0.DataAt(File(w)));
    BeforeFile(rules, limit, tr, m);
    NewBefore(rules, fs0, tr.ws, m);
    AnswersAre(rules, s.fs, s.memo, w, tr.envs[m].fault, tr.answers[m], tr.snaps[m + 1].memo);
    if s.fs.names[File(w)] in s.memo.inodes {
      RememberedIsStored(rules, s.fs, s.memo, s.fs.names[File(w)]);
    }
    if tr.answers[m].Verdict? && tr.answers[m].value.Duplicate? {
      StaysShared(rules, limit, tr, m, |tr.ws|);
    }
  }

  /** The state that file `m` is evaluated in. */
  lemma BeforeFile(rules: Rules, limit: nat, tr: Trace, m: nat)
    requires IsTrace(rules, limit, false, tr) && DistinctPaths(tr.ws) && NothingFails(tr) && m < |tr.ws|
    requires WellFormed(tr.snaps[0].fs) && Low(tr.snaps[0].fs)
    requires tr.snaps[0] == Snap(tr.snaps[0].fs, EMPTY_MEMO, NO_TOTALS, NO_COPIES)
    requires GetsFar(rules, tr.snaps[0].fs, tr.ws[m])
    ensures var fs0, s, w := tr.snaps[0].fs, tr.snaps[m], tr.ws[m];
      && s.fs.Valid() && Low(s.fs) && MemoSound(rules, s.fs, s.memo) && Calm(tr.envs[m]) && tr.envs[m].link == FINE
      && Evaluates(rules, s.fs, s.memo, w, tr.envs[m].fault, tr.answers[m], tr.snaps[m + 1].memo)
      && GetsFar(rules, s.fs, w) && s.fs.DataAt(File(w)) == fs0.DataAt(File(w)) && TmpLink(w) !in s.fs.names
      && (forall e :: Object(e, 0) in s.fs.names <==> Object(e, 0) in fs0.names || e in NewDigests(rules, fs0, multiset(tr.ws[..m])))
      && (SoleTargets(fs0, multiset(tr.ws)) ==> s.fs.LinksAt(File(w)) == 1)
  {
    hide FileStep, OneStoreName, MemoSound, Evaluates, NewDigests, Session;
    var fs0, s, w := tr.snaps[0].fs, tr.snaps[m], tr.ws[m];
    assert tr.envs[m] in tr.envs && w in tr.ws;
    RunStores(rules, limit, tr, m);
    assert w !in tr.ws[..m];
    StillUntouched(rules, fs0, s.fs, s.fs, w);
    TraceIsSession(rules, limit, false, tr);
    SessionIsSound(rules, Volumes(tr), tr.ws, Faults(tr), tr.answers, Memos(tr), m);
    TraceSnap(rules, limit, false, tr, m);
    StepEvaluates(rules, limit, false, w, tr.envs[m], tr.answers[m], s, tr.snaps[m + 1]);
    if SoleTargets(fs0, multiset(tr.ws)) {
      StillSole(rules, limit, tr, m);
      SoleIsOneLink(s.fs, w);
    }
  }

  lemma StillSole(rules: Rules, limit: nat, tr: Trace, m: nat)
    requires IsTrace(rules, limit, false, tr) && DistinctPaths(tr.ws) && m < |tr.ws|
    requires WellFormed(tr.snaps[0].fs) && tr.snaps[0].t == NO_TOTALS && tr.snaps[0].copies == NO_COPIES
    requires SoleTargets(tr.snaps[0].fs, multiset(tr.ws))
    ensures Sole(tr.snaps[m].fs, tr.ws[m])
  {
    hide FileStep, OneStoreName, Sole, SoleTargets, Conserved;
    TraceProgress(rules, limit, false, tr, multiset(tr.ws), m);
    assert tr.ws[m] in multiset(tr.ws) && tr.ws[m] !in tr.ws[..m];
  }

  // ─── For the command ──────────────────────────────────────────────────────

  ghost predicate EachOnce(all: multiset<WorkPath>) {
    forall w <- all :: all[w] == 1
  }

  lemma EachOnceIsDistinct(ws: seq<WorkPath>)
    requires EachOnce(multiset(ws))
    ensures DistinctPaths(ws)
  {
    forall m, n | 0 <= m < n < |ws| ensures ws[m] != ws[n] {
      assert ws[m] in multiset(ws);
      CountedTwice(ws, m, n);
    }
  }

  lemma CountedTwice(ws: seq<WorkPath>, m: nat, n: nat)
    requires m < n < |ws|
    ensures ws[m] == ws[n] ==> multiset(ws)[ws[m]] >= 2
  {
    assert ws == ws[..n] + [ws[n]] + ws[n + 1..];
    assert ws[..n][m] in multiset(ws[..n]);
  }

  /** Every file of `all` that got far has a master, and `unique` digests are new. */
  ghost predicate AllStored(rules: Rules, fs0: Fs, fs: Fs, all: multiset<WorkPath>, unique: nat)
    requires fs0.Valid()
  {
    && (forall w <- all :: GetsFar(rules, fs0, w) ==> Object(rules.hash(fs0.DataAt(File(w))), 0) in fs.names)
    && unique == |NewDigests(rules, fs0, all)|
  }

  /** Every file that got far is the first of its digest or one with a slot of it. */
  ghost predicate AllSettled(rules: Rules, fs0: Fs, fs: Fs, ws: seq<WorkPath>)
    requires fs0.Valid()
  {
    forall m :: 0 <= m < |ws| && GetsFar(rules, fs0, ws[m]) ==>
      FirstOfItsKind(rules, fs0, ws, m) || SharesSlot(fs, ws[m], rules.hash(fs0.DataAt(File(ws[m]))))
  }

  lemma RunAchieves(rules: Rules, limit: nat, tr: Trace)
    requires IsTrace(rules, limit, false, tr) && EachOnce(multiset(tr.ws))
    requires WellFormed(tr.snaps[0].fs) && Low(tr.snaps[0].fs)
    requires tr.snaps[0] == Snap(tr.snaps[0].fs, EMPTY_MEMO, NO_TOTALS, NO_COPIES)
    ensures (forall env <- tr.envs :: Calm(env)) ==>
              AllStored(rules, tr.snaps[0].fs, tr.snaps[|tr.ws|].fs, multiset(tr.ws), tr.snaps[|tr.ws|].t.unique)
    ensures NothingFails(tr) && SoleTargets(tr.snaps[0].fs, multiset(tr.ws)) ==>
              AllSettled(rules, tr.snaps[0].fs, tr.snaps[|tr.ws|].fs, tr.ws)
  {
    hide FileStep, OneStoreName, GetsFar, NewDigests, SharesSlot, FirstOfItsKind, SoleTargets;
    EachOnceIsDistinct(tr.ws);
    if forall env <- tr.envs :: Calm(env) {
      EveryFileIsStored(rules, limit, tr);
    }
    if NothingFails(tr) && SoleTargets(tr.snaps[0].fs, multiset(tr.ws)) {
      forall m | 0 <= m < |tr.ws| && GetsFar(rules, tr.snaps[0].fs, tr.ws[m])
        ensures tr.snaps[0].fs.Valid() && File(tr.ws[m]) in tr.snaps[0].fs.names
        ensures FirstOfItsKind(rules, tr.snaps[0].fs, tr.ws, m)
                || SharesSlot(tr.snaps[|tr.ws|].fs, tr.ws[m], rules.hash(tr.snaps[0].fs.DataAt(File(tr.ws[m]))))
      {
        EveryFileIsSettled(rules, limit, tr, m);
        GotFar(rules, tr.snaps[0].fs, tr.ws[m]);
      }
    }
  }

  lemma GotFar(rules: Rules, fs: Fs, w: WorkPath)
    requires fs.Valid() && GetsFar(rules, fs, w)
    ensures File(w) in fs.names
  {
  }

  /** Volumes that differ in stage names alone are the same to a run. */
  lemma StagesDoNotMatter(rules: Rules, fs: Fs, fs': Fs, ws: seq<WorkPath>, end: Fs, unique: nat)
    requires fs.Valid() && fs'.Valid() && fs'.nodes == fs.nodes
    requires forall p: Path :: !p.Stage? ==> (p in fs'.names <==> p in fs.names) && (p in fs.names ==> fs'.names[p] == fs.names[p])
    ensures Low(fs') <==> Low(fs)
    ensures AllStored(rules, fs', end, multiset(ws), unique) <==> AllStored(rules, fs, end, multiset(ws), unique)
    ensures AllSettled(rules, fs', end, ws) <==> AllSettled(rules, fs, end, ws)
  {
    forall w ensures GetsFar(rules, fs', w) <==> GetsFar(rules, fs, w) {
    }
    hide SharesSlot;
    assert NewDigests(rules, fs', multiset(ws)) == NewDigests(rules, fs, multiset(ws));
    forall m | 0 <= m < |ws| && GetsFar(rules, fs, ws[m])
      ensures FirstOfItsKind(rules, fs', ws, m) <==> FirstOfItsKind(rules, fs, ws, m)
    {
    }
  }
}
