/** One file of an ingest run, and what accumulates over a run: copies made, bytes on disk, bytes
    reported as saved, and the contents of the workspace. */
module IngestRun {
  import opened Accounting
  import opened Filesystem
  import opened IngestLaws
  import opened Ingest
  import opened Linkage
  import opened LinkageLaws
  import opened Names
  import opened Store
  import opened Verdicts

  datatype Totals = Totals(files: nat, saved: nat, linked: nat, unique: nat, skipped: nat)

  const NO_TOTALS := Totals(0, 0, 0, 0, 0)

  /** What the environment decides for one file: which reads and calls fail. */
  datatype Env = Env(fault: ReadFault, publish: PublishIo, link: LinkIo)

  /** The state between two files, and the copies made so far. */
  datatype Snap = Snap(fs: Fs, memo: Memo, t: Totals, copies: Copies)

  // ─── One file ─────────────────────────────────────────────────────────────

  /** The volume after an answer about `w` has been applied. */
  function AppliedFs(rules: Rules, limit: nat, fs: Fs, w: WorkPath, answer: Answer, env: Env): Fs
    requires fs.Valid()
  {
    if !answer.Verdict? || File(w) !in fs.names then fs
    else match answer.value
      case Bypass(_) => fs
      case Unique => PublishedFs(fs, limit, w, rules.hash(fs.DataAt(File(w))), env.publish)
      case Duplicate(slot) => LinkedFs(fs, limit, w, slot.digest, env.link)
  }

  /** How the answer and its outcome are counted. */
  function Counted(rules: Rules, limit: nat, fs: Fs, w: WorkPath, answer: Answer, env: Env, t: Totals): Totals
    requires fs.Valid()
  {
    var seen := t.(files := t.files + 1);
    if !answer.Verdict? then seen
    else match answer.value
      case Bypass(_) => seen.(skipped := t.skipped + 1)
      case Unique =>
        if File(w) in fs.names && PublishOutcome(fs, limit, w, rules.hash(fs.DataAt(File(w))), env.publish).Ok?
        then seen.(unique := t.unique + 1) else seen
      case Duplicate(slot) =>
        if LinkSucceeds(fs, limit, w, slot.digest, env.link)
        then seen.(linked := t.linked + 1, saved := t.saved + SizeOf(fs, w)) else seen
  }

  /** The copies that applying the answer makes. */
  function CopiesFor(rules: Rules, limit: nat, fs: Fs, w: WorkPath, answer: Answer, env: Env): Copies
    requires fs.Valid()
  {
    if !answer.Verdict? || File(w) !in fs.names then NO_COPIES
    else match answer.value
      case Bypass(_) => NO_COPIES
      case Unique => PublishCopies(fs, limit, w, rules.hash(fs.DataAt(File(w))), env.publish)
      case Duplicate(slot) => AcquireCopies(fs, limit, slot.digest)
  }

  ghost predicate FileStep(rules: Rules, limit: nat, dryRun: bool, w: WorkPath, env: Env, answer: Answer, s: Snap, s': Snap)
    requires s.fs.Valid()
  {
    && Evaluates(rules, s.fs, s.memo, w, env.fault, answer, s'.memo)
    && (if dryRun then
          s'.fs == s.fs && s'.t == s.t.(files := s.t.files + 1) && s'.copies == s.copies
        else
          && s'.fs == AppliedFs(rules, limit, s.fs, w, answer, env)
          && s'.t == Counted(rules, limit, s.fs, w, answer, env, s.t)
          && s'.copies == s.copies.Plus(CopiesFor(rules, limit, s.fs, w, answer, env)))
  }

  /** A verdict that is applied is about the file's own digest, and about whether it has a slot. */
  lemma VerdictMeans(rules: Rules, fs: Fs, memo: Memo, w: WorkPath, fault: ReadFault, answer: Answer, memo': Memo)
    requires fs.Valid() && Evaluates(rules, fs, memo, w, fault, answer, memo')
    requires answer.Verdict?
    ensures !answer.value.Bypass? ==> File(w) in fs.names
    ensures answer.value.Unique? ==> Publishes(fs, w, rules.hash(fs.DataAt(File(w))))
    ensures answer.value.Duplicate? ==>
              && answer.value.slot.digest == rules.hash(fs.DataAt(File(w)))
              && Lookup2(fs, answer.value.slot.digest) == Some(answer.value.slot)
  {
  }

  // ─── Copies ───────────────────────────────────────────────────────────────

  /** What is copied for one file.  A Unique verdict makes one master of the file's size when its
      calls succeed, and it is counted exactly then.  A Duplicate verdict copies nothing unless
      every slot that is there is full, and then one slot. */
  lemma CopiesOfStep(rules: Rules, limit: nat, dryRun: bool, w: WorkPath, env: Env, answer: Answer, s: Snap, s': Snap)
    requires s.fs.Valid() && FileStep(rules, limit, dryRun, w, env, answer, s, s')
    ensures var c := CopiesFor(rules, limit, s.fs, w, answer, env);
      && s'.t.unique == s.t.unique + (if dryRun then 0 else c.masters)
      && (env.publish == PUBLISH_FINE ==> c.strays == 0 && c.strayBytes == 0)
      && (answer == Verdict(Unique) && env.publish == PUBLISH_FINE ==> c == Copies(1, SizeOf(s.fs, w), 0, 0, 0, 0))
      && (answer.Verdict? && answer.value.Duplicate? ==>
            c == if Spills(s.fs, limit, answer.value.slot.digest)
                 then Copies(0, 0, 1, SpillSize(s.fs, limit, answer.value.slot.digest), 0, 0) else NO_COPIES)
      && (answer == Verdict(Unique) ==> c.spills == 0 && c.masterBytes == c.masters * SizeOf(s.fs, w))
      && (!answer.Verdict? || answer.value.Bypass? ==> c == NO_COPIES)
      && c.Count() <= 1
  {
    hide SpillSize, PublishedFs, LinkedFs, LinkSucceeds, Spills;
    if answer.Verdict? {
      VerdictMeans(rules, s.fs, s.memo, w, env.fault, answer, s'.memo);
      hide Evaluates;
    }
  }

  // ─── Bytes ────────────────────────────────────────────────────────────────

  /** No other name shares the file's inode. */
  ghost predicate Sole(fs: Fs, w: WorkPath) {
    File(w) in fs.names ==> forall p <- fs.names :: fs.names[p] == fs.names[File(w)] ==> p == File(w)
  }

  lemma SoleIsOneLink(fs: Fs, w: WorkPath)
    ensures Sole(fs, w) <==> (File(w) in fs.names ==> fs.LinksAt(File(w)) == 1)
  {
    if File(w) in fs.names {
      var ps := fs.NamesOf(fs.names[File(w)]);
      assert File(w) in ps;
      if Sole(fs, w) {
        assert ps == {File(w)};
      } else if fs.LinksAt(File(w)) == 1 {
        forall p | p in fs.names && fs.names[p] == fs.names[File(w)] ensures p == File(w) {
          SoleName(fs, File(w), p);
        }
      }
    }
  }

  /** A link that fails frees nothing and reports nothing. */
  lemma LinkConserves(fs: Fs, limit: nat, w: WorkPath, d: Digest, io: LinkIo)
    requires WellFormed(fs) && Sole(fs, w) && File(w) in fs.names
    ensures var fs', copies := LinkedFs(fs, limit, w, d, io), AcquireCopies(fs, limit, d);
      && fs'.next == fs.next + copies.Count()
      && Physical(fs') + (if LinkSucceeds(fs, limit, w, d, io) then SizeOf(fs, w) else 0) == Physical(fs) + copies.Bytes()
  {
    hide AcquiredFs, OpenIndex, LinkedFs, LinkSucceeds, Physical, OneStoreName, AcquireCopies;
    SoleIsOneLink(fs, w);
    if LinkSucceeds(fs, limit, w, d, io) {
      assert io == FINE by {
        FineIo(fs, limit, w, d, io);
      }
      LinkBytes(fs, limit, w, d);
      ReportedIsFreed(fs, limit, w, d);
      LinkedSaves(fs, limit, w, d);
    } else {
      FailedLinkBytes(fs, limit, w, d, io);
    }
  }

  lemma FineIo(fs: Fs, limit: nat, w: WorkPath, d: Digest, io: LinkIo)
    requires fs.Valid() && LinkSucceeds(fs, limit, w, d, io)
    ensures io == FINE
  {
  }

  lemma LinkedSaves(fs: Fs, limit: nat, w: WorkPath, d: Digest)
    requires fs.Valid() && LinkSucceeds(fs, limit, w, d, FINE)
    ensures LinkOutcome(fs, limit, w, d, FINE) == Ok(Linked(w, SlotFor(fs, limit, d), SizeOf(fs, w)))
  {
  }

  lemma FailedLinkBytes(fs: Fs, limit: nat, w: WorkPath, d: Digest, io: LinkIo)
    requires WellFormed(fs) && !LinkSucceeds(fs, limit, w, d, io)
    ensures var fs', copies := LinkedFs(fs, limit, w, d, io), AcquireCopies(fs, limit, d);
            fs'.next == fs.next + copies.Count() && Physical(fs') == Physical(fs) + copies.Bytes()
  {
    hide AcquiredFs, OpenIndex, LinkedFs, LinkSucceeds, Physical, OneStoreName, AcquireCopies;
    var a := AcquiredFs(fs, limit, d);
    LinkForms(fs, limit, w, d, io);
    AcquireAdds(fs, limit, d);
    if File(w) in a.names && a.ModeAt(File(w)).ReadOnly() {
      ChmodFree(a, a.names[File(w)], MODE_644);
    }
  }

  /** Publishing one file leaves every file that had one name with one name. */
  lemma PublishKeepsSole(fs: Fs, limit: nat, w: WorkPath, d: Digest, io: PublishIo, v: WorkPath)
    requires WellFormed(fs) && Sole(fs, v)
    ensures Sole(PublishedFs(fs, limit, w, d, io), v)
  {
    AcquireKeepsValid(fs, limit, d);
    assert Stage(fs.next) !in fs.names;
    hide AcquiredFs, OpenIndex, OneStoreName;
  }

  /** Linking one file leaves every other file that had one name with one name. */
  lemma OthersStaySole(fs: Fs, limit: nat, w: WorkPath, d: Digest, io: LinkIo, v: WorkPath)
    requires WellFormed(fs) && v != w && Sole(fs, v)
    ensures Sole(LinkedFs(fs, limit, w, d, io), v)
  {
    var a, slot := AcquiredFs(fs, limit, d), SlotFor(fs, limit, d).Path();
    AcquireKeepsValid(fs, limit, d);
    LinkForms(fs, limit, w, d, io);
    hide AcquiredFs, OpenIndex, LinkedFs, OneStoreName;
    assert Sole(a, v);
    if LinkSucceeds(fs, limit, w, d, io) {
      SwapNames(Stripped(a, w), slot, w);
    }
  }

  // ─── Contents ─────────────────────────────────────────────────────────────

  /** Every slot holds content that hashes to its name. */
  ghost predicate Addressed(rules: Rules, fs: Fs)
    requires fs.Valid()
  {
    forall d, k :: Object(d, k) in fs.names ==> rules.hash(fs.DataAt(Object(d, k))) == d
  }

  /** The digest tells apart the contents of all files, those being staged aside. */
  ghost predicate Distinguishes(rules: Rules, fs: Fs)
    requires fs.Valid()
  {
    forall p, q | p in fs.names && q in fs.names && !p.Stage? && !q.Stage? && rules.hash(fs.DataAt(p)) == rules.hash(fs.DataAt(q)) ::
      fs.DataAt(p) == fs.DataAt(q)
  }

  /** Every workspace file is still there, with its bytes. */
  ghost predicate Faithful(fs: Fs, fs': Fs)
    requires fs.Valid() && fs'.Valid()
  {
    forall v :: File(v) in fs.names ==> File(v) in fs'.names && fs'.DataAt(File(v)) == fs.DataAt(File(v))
  }

  ghost predicate Holds(fs: Fs, data: Bytes)
    requires fs.Valid()
  {
    exists q <- fs.names :: !q.Stage? && fs.DataAt(q) == data
  }

  /** Every content was there before, those being staged aside. */
  ghost predicate NothingNew(fs: Fs, fs': Fs)
    requires fs.Valid() && fs'.Valid()
  {
    forall p <- fs'.names :: !p.Stage? ==> Holds(fs, fs'.DataAt(p))
  }

  predicate SameBytes(fs: Fs, fs': Fs) {
    fs'.nodes.Keys == fs.nodes.Keys && forall i <- fs.nodes :: fs'.nodes[i].data == fs.nodes[i].data
  }

  /** What the engine's file operations promise about contents. */
  ghost predicate KeepsContents(rules: Rules, fs: Fs, fs': Fs) {
    fs.Valid() && fs'.Valid() && Addressed(rules, fs') && NothingNew(fs, fs') && Faithful(fs, fs')
  }

  lemma StillDistinguishes(rules: Rules, fs: Fs, fs': Fs)
    requires fs.Valid() && fs'.Valid() && Distinguishes(rules, fs) && NothingNew(fs, fs')
    ensures Distinguishes(rules, fs')
  {
    forall p, q | p in fs'.names && q in fs'.names && !p.Stage? && !q.Stage? && rules.hash(fs'.DataAt(p)) == rules.hash(fs'.DataAt(q))
      ensures fs'.DataAt(p) == fs'.DataAt(q)
    {
      assert Holds(fs, fs'.DataAt(p)) && Holds(fs, fs'.DataAt(q));
    }
  }

  lemma KeepsContentsTwice(rules: Rules, fs: Fs, mid: Fs, fs': Fs)
    requires KeepsContents(rules, fs, mid) && KeepsContents(rules, mid, fs')
    ensures KeepsContents(rules, fs, fs')
  {
    forall p | p in fs'.names && !p.Stage? ensures Holds(fs, fs'.DataAt(p)) {
      assert Holds(mid, fs'.DataAt(p));
      var q :| q in mid.names && !q.Stage? && mid.DataAt(q) == fs'.DataAt(p);
    }
  }

  /** A slot that is a copy of file `q`. */
  lemma CopyKeepsContents(rules: Rules, fs: Fs, p: Path, node: Node, q: Path)
    requires fs.Valid() && Addressed(rules, fs) && p.Object? && p !in fs.names
    requires q in fs.names && !q.Stage? && fs.DataAt(q) == node.data && rules.hash(node.data) == p.digest
    ensures KeepsContents(rules, fs, fs.Create(p, node))
  {
    var fs' := fs.Create(p, node);
    forall x | x in fs'.names && !x.Stage? ensures Holds(fs, fs'.DataAt(x)) {
      assert fs'.DataAt(x) == fs.DataAt(if x == p then q else x);
    }
  }

  /** Same names but for `x`, which now is the file at `slot`, and same bytes. */
  lemma RetargetKeepsContents(rules: Rules, fs: Fs, fs': Fs, x: Path, slot: Path)
    requires fs.Valid() && fs'.Valid() && Addressed(rules, fs) && slot in fs.names && !slot.Stage? && !x.Object?
    requires fs'.names == fs.names[x := fs.names[slot]] && SameBytes(fs, fs')
    requires x.File? && x in fs.names ==> fs.DataAt(x) == fs.DataAt(slot)
    ensures KeepsContents(rules, fs, fs')
  {
    forall y | y in fs'.names && !y.Stage? ensures Holds(fs, fs'.DataAt(y)) {
      assert fs'.DataAt(y) == fs.DataAt(if y == x then slot else y);
    }
  }

  /** The names that are not staged are the same, and so are their bytes. */
  lemma SameKeepsContents(rules: Rules, fs: Fs, fs': Fs)
    requires fs.Valid() && fs'.Valid() && Addressed(rules, fs)
    requires forall p: Path :: !p.Stage? ==> (p in fs'.names <==> p in fs.names)
    requires forall p: Path :: !p.Stage? && p in fs.names ==> fs'.DataAt(p) == fs.DataAt(p)
    ensures KeepsContents(rules, fs, fs')
  {
    forall p | p in fs'.names && !p.Stage? ensures Holds(fs, fs'.DataAt(p)) {
      assert fs'.DataAt(p) == fs.DataAt(p);
    }
  }

  lemma AcquireKeepsContents(rules: Rules, fs: Fs, limit: nat, d: Digest)
    requires WellFormed(fs) && Addressed(rules, fs)
    ensures KeepsContents(rules, fs, AcquiredFs(fs, limit, d))
    ensures WellFormed(AcquiredFs(fs, limit, d)) && Addressed(rules, AcquiredFs(fs, limit, d)) && NothingNew(fs, AcquiredFs(fs, limit, d))
  {
    hide KeepsContents, OneStoreName, AcquiredFs, AcquireCopies, OpenIndex, Spills, Addressed, NothingNew;
    AcquireKeepsValid(fs, limit, d);
    SpillCopy(fs, limit, d);
    if Spills(fs, limit, d) {
      var k := OpenIndex(fs, limit, d, 0);
      SlotHash(rules, fs, d, k - 1);
      CopyKeepsContents(rules, fs, Object(d, k), fs.nodes[fs.names[Object(d, k - 1)]], Object(d, k - 1));
    } else {
      SameKeepsContents(rules, fs, fs);
    }
    KeepsMeans(rules, fs, AcquiredFs(fs, limit, d));
  }

  lemma SlotHash(rules: Rules, fs: Fs, d: Digest, k: nat)
    requires fs.Valid() && Addressed(rules, fs) && Object(d, k) in fs.names
    ensures rules.hash(fs.DataAt(Object(d, k))) == d
  {
  }

  lemma KeepsMeans(rules: Rules, fs: Fs, fs': Fs)
    requires KeepsContents(rules, fs, fs')
    ensures fs.Valid() && fs'.Valid() && Addressed(rules, fs') && NothingNew(fs, fs')
  {
  }

  lemma StagingKeepsContents(rules: Rules, fs: Fs, w: WorkPath, io: PublishIo)
    requires WellFormed(fs) && Addressed(rules, fs) && File(w) in fs.names && Publishes(fs, w, rules.hash(fs.DataAt(File(w))))
    ensures KeepsContents(rules, fs, StagedFs(fs, w, rules.hash(fs.DataAt(File(w))), io))
  {
    hide KeepsContents, OneStoreName, Addressed;
    var source := fs.nodes[fs.names[File(w)]];
    assert Stage(fs.next) !in fs.names;
    var stray := fs.Create(Stage(fs.next), StageNode(source, io.copy));
    SameKeepsContents(rules, fs, fs);
    SameKeepsContents(rules, fs, stray);
    SameKeepsContents(rules, fs, stray.Unlink(Stage(fs.next)));
    MasterKeepsContents(rules, fs, Object(rules.hash(fs.DataAt(File(w))), 0), source.(closed := true), File(w));
  }

  lemma MasterKeepsContents(rules: Rules, fs: Fs, slot: Path, node: Node, q: Path)
    requires WellFormed(fs) && Addressed(rules, fs) && slot.Object? && slot !in fs.names
    requires q in fs.names && !q.Stage? && fs.DataAt(q) == node.data && rules.hash(node.data) == slot.digest
    ensures KeepsContents(rules, fs, Enforced(fs.Create(slot, node), slot))
  {
    var made := fs.Create(slot, node);
    CopyKeepsContents(rules, fs, slot, node, q);
    hide OneStoreName, NothingNew, Faithful;
    assert Addressed(rules, made);
    SameKeepsContents(rules, made, Enforced(made, slot));
    hide KeepsContents;
    KeepsContentsTwice(rules, fs, made, Enforced(made, slot));
  }

  lemma PublishKeepsContents(rules: Rules, fs: Fs, limit: nat, w: WorkPath, io: PublishIo)
    requires WellFormed(fs) && Addressed(rules, fs) && File(w) in fs.names
    ensures KeepsContents(rules, fs, PublishedFs(fs, limit, w, rules.hash(fs.DataAt(File(w))), io))
  {
    hide KeepsContents, OneStoreName, Addressed, StagedFs, AcquiredFs;
    if Publishes(fs, w, rules.hash(fs.DataAt(File(w)))) {
      StagingKeepsContents(rules, fs, w, io);
    } else {
      AcquireKeepsContents(rules, fs, limit, rules.hash(fs.DataAt(File(w))));
    }
  }

  lemma SwapKeepsContents(rules: Rules, fs: Fs, slot: Path, w: WorkPath)
    requires fs.Valid() && Addressed(rules, fs) && slot.Object? && slot in fs.names && TmpLink(w) !in fs.names
    requires File(w) in fs.names && fs.DataAt(File(w)) == fs.DataAt(slot)
    ensures KeepsContents(rules, fs, Swapped(fs, slot, w))
  {
    SwapNames(Stripped(fs, w), slot, w);
    var x := if AlreadyThere(fs, slot, w) then TmpLink(w) else File(w);
    FormsKeepBytes(fs, slot, w);
    hide KeepsContents;
    RetargetKeepsContents(rules, fs, Swapped(fs, slot, w), x, slot);
  }

  /** The link puts the slot's content in place of the target's, and it is the same. */
  lemma LinkKeepsContents(rules: Rules, fs: Fs, limit: nat, w: WorkPath, io: LinkIo)
    requires WellFormed(fs) && Addressed(rules, fs) && Distinguishes(rules, fs) && File(w) in fs.names
    ensures KeepsContents(rules, fs, LinkedFs(fs, limit, w, rules.hash(fs.DataAt(File(w))), io))
  {
    hide AcquiredFs, OpenIndex, LinkedFs, OneStoreName, KeepsContents, Stripped, Swapped, Addressed, NothingNew, Distinguishes;
    var d := rules.hash(fs.DataAt(File(w)));
    var a, slot := AcquiredFs(fs, limit, d), SlotFor(fs, limit, d).Path();
    AcquireKeepsContents(rules, fs, limit, d);
    AcquireKeepsValid(fs, limit, d);
    LinkForms(fs, limit, w, d, io);
    StillDistinguishes(rules, fs, a);
    if LinkSucceeds(fs, limit, w, d, io) {
      SameDigest(rules, a, File(w), slot);
      SwapKeepsContents(rules, a, slot, w);
      KeepsContentsTwice(rules, fs, a, Swapped(a, slot, w));
    } else {
      StripKeepsContents(rules, a, w);
      KeepsContentsTwice(rules, fs, a, Stripped(a, w));
    }
  }

  lemma StripKeepsContents(rules: Rules, fs: Fs, w: WorkPath)
    requires fs.Valid() && Addressed(rules, fs)
    ensures KeepsContents(rules, fs, Stripped(fs, w))
  {
    hide KeepsContents;
    SameKeepsContents(rules, fs, Stripped(fs, w));
  }

  /** In an addressed store a spill made for a file is a copy of the file's size: every copy of a
      run is as large as the file it is made for. */
  lemma SpillIsTargetSized(rules: Rules, fs: Fs, limit: nat, w: WorkPath)
    requires fs.Valid() && Addressed(rules, fs) && Distinguishes(rules, fs) && File(w) in fs.names
    requires Spills(fs, limit, rules.hash(fs.DataAt(File(w))))
    ensures SpillSize(fs, limit, rules.hash(fs.DataAt(File(w)))) == SizeOf(fs, w)
  {
    var d := rules.hash(fs.DataAt(File(w)));
    var k := OpenIndex(fs, limit, d, 0);
    assert Full(fs, limit, d, k - 1);
    SameDigest(rules, fs, File(w), Object(d, k - 1));
  }

  lemma SameDigest(rules: Rules, fs: Fs, p: Path, slot: Path)
    requires fs.Valid() && Addressed(rules, fs) && Distinguishes(rules, fs)
    requires p in fs.names && !p.Stage? && slot in fs.names && slot.Object? && slot.digest == rules.hash(fs.DataAt(p))
    ensures fs.DataAt(p) == fs.DataAt(slot)
  {
    assert rules.hash(fs.DataAt(Object(slot.digest, slot.idx))) == slot.digest;
  }

  // ─── One file, whatever happened to it ────────────────────────────────────

  lemma PublishKeepsWell(fs: Fs, limit: nat, w: WorkPath, d: Digest, io: PublishIo)
    requires WellFormed(fs)
    ensures WellFormed(PublishedFs(fs, limit, w, d, io))
  {
    AcquireKeepsValid(fs, limit, d);
    if Publishes(fs, w, d) {
      StagingKeepsWell(fs, w, d, io);
    }
    hide OneStoreName, AcquiredFs, StagedFs;
  }

  lemma StagingKeepsWell(fs: Fs, w: WorkPath, d: Digest, io: PublishIo)
    requires WellFormed(fs) && Publishes(fs, w, d)
    ensures WellFormed(StagedFs(fs, w, d, io))
  {
    assert Stage(fs.next) !in fs.names;
  }

  lemma LinkKeepsWell(fs: Fs, limit: nat, w: WorkPath, d: Digest, io: LinkIo)
    requires WellFormed(fs)
    ensures WellFormed(LinkedFs(fs, limit, w, d, io))
  {
    LinkForms(fs, limit, w, d, io);
    if LinkSucceeds(fs, limit, w, d, io) {
      OneLinkKeeps(fs, limit, w, d);
    } else {
      hide AcquiredFs, OpenIndex, LinkSucceeds, LinkedFs;
    }
  }

  lemma AppliedIsWell(rules: Rules, limit: nat, fs: Fs, w: WorkPath, answer: Answer, env: Env)
    requires WellFormed(fs)
    ensures WellFormed(AppliedFs(rules, limit, fs, w, answer, env))
  {
    hide PublishedFs, LinkedFs, WellFormed;
    assert fs.Valid() by {
      ValidIfWell(fs);
    }
    if answer.Verdict? && File(w) in fs.names {
      match answer.value
      case Bypass(_) =>
      case Unique => PublishKeepsWell(fs, limit, w, rules.hash(fs.DataAt(File(w))), env.publish);
      case Duplicate(slot) => LinkKeepsWell(fs, limit, w, slot.digest, env.link);
    }
  }

  lemma ValidIfWell(fs: Fs)
    requires WellFormed(fs)
    ensures fs.Valid()
  {
  }

  /** One file, evaluated and applied, takes up its copies and gives back what it reports saved. */
  lemma StepConserves(rules: Rules, limit: nat, dryRun: bool, w: WorkPath, env: Env, answer: Answer, s: Snap, s': Snap)
    requires WellFormed(s.fs) && Sole(s.fs, w) && FileStep(rules, limit, dryRun, w, env, answer, s, s')
    ensures s'.fs.next + s.copies.Count() == s.fs.next + s'.copies.Count()
    ensures Physical(s'.fs) + s'.t.saved + s.copies.Bytes() == Physical(s.fs) + s.t.saved + s'.copies.Bytes()
  {
    hide PublishedFs, LinkedFs, OneStoreName, LinkSucceeds, Physical, Evaluates, AcquireCopies, PublishCopies, PublishOutcome;
    if !dryRun && answer.Verdict? && File(w) in s.fs.names {
      match answer.value
      case Bypass(_) =>
      case Unique => PublishBytes(s.fs, limit, w, rules.hash(s.fs.DataAt(File(w))), env.publish);
      case Duplicate(slot) => LinkConserves(s.fs, limit, w, slot.digest, env.link);
    }
  }

  lemma StepKeepsSole(rules: Rules, limit: nat, fs: Fs, w: WorkPath, answer: Answer, env: Env, v: WorkPath)
    requires WellFormed(fs) && v != w && Sole(fs, v)
    ensures Sole(AppliedFs(rules, limit, fs, w, answer, env), v)
  {
    hide PublishedFs, LinkedFs, OneStoreName, Sole;
    if answer.Verdict? && File(w) in fs.names {
      match answer.value
      case Bypass(_) =>
      case Unique => PublishKeepsSole(fs, limit, w, rules.hash(fs.DataAt(File(w))), env.publish, v);
      case Duplicate(slot) => OthersStaySole(fs, limit, w, slot.digest, env.link, v);
    }
  }

  lemma StepKeepsContents(rules: Rules, limit: nat, dryRun: bool, w: WorkPath, env: Env, answer: Answer, s: Snap, s': Snap)
    requires WellFormed(s.fs) && Addressed(rules, s.fs) && Distinguishes(rules, s.fs)
    requires FileStep(rules, limit, dryRun, w, env, answer, s, s')
    ensures KeepsContents(rules, s.fs, s'.fs)
  {
    hide PublishedFs, LinkedFs, OneStoreName, KeepsContents, Addressed, Distinguishes;
    SameKeepsContents(rules, s.fs, s.fs);
    if !dryRun && answer.Verdict? && File(w) in s.fs.names {
      VerdictMeans(rules, s.fs, s.memo, w, env.fault, answer, s'.memo);
      hide Evaluates;
      match answer.value
      case Bypass(_) =>
      case Unique => PublishKeepsContents(rules, s.fs, limit, w, env.publish);
      case Duplicate(_) => LinkKeepsContents(rules, s.fs, limit, w, env.link);
    }
  }

  lemma StepCounts(rules: Rules, limit: nat, dryRun: bool, w: WorkPath, env: Env, answer: Answer, s: Snap, s': Snap)
    requires s.fs.Valid() && FileStep(rules, limit, dryRun, w, env, answer, s, s')
    ensures s'.t.files == s.t.files + 1
    ensures s'.t.linked + s'.t.unique + s'.t.skipped <= s.t.linked + s.t.unique + s.t.skipped + 1
    ensures s'.copies.masters + s.t.unique == s.copies.masters + s'.t.unique
    ensures s'.copies.spills <= s.copies.spills + 1
  {
    CopiesOfStep(rules, limit, dryRun, w, env, answer, s, s');
    hide Evaluates, PublishOutcome, LinkSucceeds, PublishedFs, LinkedFs, PublishCopies, AcquireCopies;
  }

  // ─── A whole run ──────────────────────────────────────────────────────────

  /** Every path of `all` occurs once, as the only name of its inode if it exists. */
  ghost predicate SoleTargets(fs: Fs, all: multiset<WorkPath>) {
    forall w <- all :: all[w] == 1 && Sole(fs, w)
  }

  /** The bytes that were there, and those of the copies, are there or were saved; and no inode
      but those of the copies was made. */
  ghost predicate Conserved(fs0: Fs, fs: Fs, saved: nat, copies: Copies) {
    fs.next == fs0.next + copies.Count() && Physical(fs) + saved == Physical(fs0) + copies.Bytes()
  }

  /** What holds between two files of a run over `all`, of which `visited` are done. */
  ghost predicate Progress(rules: Rules, all: multiset<WorkPath>, visited: seq<WorkPath>, fs0: Fs, s: Snap)
    requires fs0.Valid()
  {
    && WellFormed(s.fs) && s.t.files == |visited| && s.t.linked + s.t.unique + s.t.skipped <= s.t.files
    && s.copies.masters == s.t.unique
    && (SoleTargets(fs0, all) ==> Conserved(fs0, s.fs, s.t.saved, s.copies) && forall v <- all :: v !in visited ==> Sole(s.fs, v))
    && (Addressed(rules, fs0) && Distinguishes(rules, fs0) ==>
          Distinguishes(rules, s.fs) && KeepsContents(rules, fs0, s.fs))
  }

  lemma StartOfRun(rules: Rules, all: multiset<WorkPath>, s: Snap)
    requires WellFormed(s.fs) && s.t == NO_TOTALS && s.copies == NO_COPIES
    ensures Progress(rules, all, [], s.fs, s)
  {
    if Addressed(rules, s.fs) {
      SameKeepsContents(rules, s.fs, s.fs);
    }
  }

  lemma NextFile(rules: Rules, limit: nat, dryRun: bool, all: multiset<WorkPath>, visited: seq<WorkPath>, w: WorkPath,
                 env: Env, answer: Answer, fs0: Fs, s: Snap, s': Snap)
    requires fs0.Valid() && Progress(rules, all, visited, fs0, s) && FileStep(rules, limit, dryRun, w, env, answer, s, s')
    requires multiset(visited + [w]) <= all
    ensures Progress(rules, all, visited + [w], fs0, s')
  {
    StepCounts(rules, limit, dryRun, w, env, answer, s, s');
    NextIsWell(rules, limit, dryRun, w, env, answer, s, s');
    if SoleTargets(fs0, all) {
      NextConserves(rules, limit, dryRun, all, visited, w, env, answer, fs0, s, s');
    }
    if Addressed(rules, fs0) && Distinguishes(rules, fs0) {
      NextKeepsContents(rules, limit, dryRun, w, env, answer, fs0, s, s');
    }
    hide FileStep, OneStoreName, Conserved, KeepsContents, Distinguishes, SoleTargets, Sole;
  }

  lemma NextIsWell(rules: Rules, limit: nat, dryRun: bool, w: WorkPath, env: Env, answer: Answer, s: Snap, s': Snap)
    requires WellFormed(s.fs) && FileStep(rules, limit, dryRun, w, env, answer, s, s')
    ensures WellFormed(s'.fs)
  {
    hide AppliedFs, Evaluates, Counted, CopiesFor;
    AppliedIsWell(rules, limit, s.fs, w, answer, env);
  }

  lemma NextConserves(rules: Rules, limit: nat, dryRun: bool, all: multiset<WorkPath>, visited: seq<WorkPath>, w: WorkPath,
                      env: Env, answer: Answer, fs0: Fs, s: Snap, s': Snap)
    requires WellFormed(s.fs) && FileStep(rules, limit, dryRun, w, env, answer, s, s')
    requires SoleTargets(fs0, all) && multiset(visited + [w]) <= all && Conserved(fs0, s.fs, s.t.saved, s.copies)
    requires forall v <- all :: v !in visited ==> Sole(s.fs, v)
    ensures Conserved(fs0, s'.fs, s'.t.saved, s'.copies)
    ensures forall v <- all :: v !in visited + [w] ==> Sole(s'.fs, v)
  {
    hide AppliedFs, Evaluates, Counted, CopiesFor, OneStoreName, Sole, Physical;
    NotYet(all, visited, w);
    StepConserves(rules, limit, dryRun, w, env, answer, s, s');
    forall v | v in all && v !in visited + [w] ensures Sole(s'.fs, v) {
      StepKeepsSole(rules, limit, s.fs, w, answer, env, v);
    }
  }

  lemma NextKeepsContents(rules: Rules, limit: nat, dryRun: bool, w: WorkPath, env: Env, answer: Answer, fs0: Fs, s: Snap, s': Snap)
    requires WellFormed(s.fs) && FileStep(rules, limit, dryRun, w, env, answer, s, s')
    requires KeepsContents(rules, fs0, s.fs) && Distinguishes(rules, s.fs)
    ensures KeepsContents(rules, fs0, s'.fs) && Distinguishes(rules, s'.fs)
  {
    hide FileStep, OneStoreName, Distinguishes, Addressed, NothingNew, Faithful;
    StepKeepsContents(rules, limit, dryRun, w, env, answer, s, s');
    StillDistinguishes(rules, s.fs, s'.fs);
    KeepsContentsTwice(rules, fs0, s.fs, s'.fs);
  }

  lemma NotYet(all: multiset<WorkPath>, visited: seq<WorkPath>, w: WorkPath)
    requires multiset(visited + [w]) <= all && all[w] <= 1
    ensures w in all && w !in visited
  {
    assert w in visited + [w];
    assert multiset(visited + [w])[w] == multiset(visited)[w] + 1;
    assert multiset(visited)[w] == 0;
  }

  /** A run as a sequence of files, with what the environment did and what was answered. */
  datatype Trace = Trace(ws: seq<WorkPath>, envs: seq<Env>, answers: seq<Answer>, snaps: seq<Snap>) {
    function Extend(w: WorkPath, env: Env, answer: Answer, s: Snap): Trace {
      Trace(ws + [w], envs + [env], answers + [answer], snaps + [s])
    }
  }

  ghost predicate IsTrace(rules: Rules, limit: nat, dryRun: bool, tr: Trace) {
    && |tr.ws| == |tr.envs| == |tr.answers| && |tr.snaps| == |tr.ws| + 1
    && forall n :: 0 <= n < |tr.ws| ==>
         tr.snaps[n].fs.Valid() && FileStep(rules, limit, dryRun, tr.ws[n], tr.envs[n], tr.answers[n], tr.snaps[n], tr.snaps[n + 1])
  }

  lemma TraceExtends(rules: Rules, limit: nat, dryRun: bool, tr: Trace, w: WorkPath, env: Env, answer: Answer, s: Snap)
    requires IsTrace(rules, limit, dryRun, tr) && tr.snaps[|tr.ws|].fs.Valid()
    requires FileStep(rules, limit, dryRun, w, env, answer, tr.snaps[|tr.ws|], s)
    ensures IsTrace(rules, limit, dryRun, tr.Extend(w, env, answer, s))
  {
    hide FileStep;
  }

  lemma PrefixWithin(ws: seq<WorkPath>, n: nat, all: multiset<WorkPath>)
    requires 0 < n <= |ws| && multiset(ws) <= all
    ensures ws[..n] == ws[..n - 1] + [ws[n - 1]] && multiset(ws[..n - 1] + [ws[n - 1]]) <= all
  {
    assert ws == ws[..n] + ws[n..];
    assert multiset(ws) == multiset(ws[..n]) + multiset(ws[n..]);
  }

  lemma {:induction false} TraceProgress(rules: Rules, limit: nat, dryRun: bool, tr: Trace, all: multiset<WorkPath>, n: nat)
    requires IsTrace(rules, limit, dryRun, tr) && n <= |tr.ws|
    requires WellFormed(tr.snaps[0].fs) && tr.snaps[0].t == NO_TOTALS && tr.snaps[0].copies == NO_COPIES && multiset(tr.ws) <= all
    ensures Progress(rules, all, tr.ws[..n], tr.snaps[0].fs, tr.snaps[n])
  {
    if n == 0 {
      StartOfRun(rules, all, tr.snaps[0]);
    } else {
      TraceProgress(rules, limit, dryRun, tr, all, n - 1);
      hide Progress, OneStoreName, FileStep;
      PrefixWithin(tr.ws, n, all);
      TraceSnap(rules, limit, dryRun, tr, n - 1);
      NextFile(rules, limit, dryRun, all, tr.ws[..n - 1], tr.ws[n - 1], tr.envs[n - 1], tr.answers[n - 1],
               tr.snaps[0].fs, tr.snaps[n - 1], tr.snaps[n]);
    }
  }

  lemma TraceSnap(rules: Rules, limit: nat, dryRun: bool, tr: Trace, n: nat)
    requires IsTrace(rules, limit, dryRun, tr) && n < |tr.ws|
    ensures tr.snaps[n].fs.Valid()
    ensures FileStep(rules, limit, dryRun, tr.ws[n], tr.envs[n], tr.answers[n], tr.snaps[n], tr.snaps[n + 1])
  {
    hide FileStep;
  }

  /** When no call of a publication fails, nothing is copied but masters and spills. */
  lemma {:induction false} NoStrays(rules: Rules, limit: nat, dryRun: bool, tr: Trace, n: nat)
    requires IsTrace(rules, limit, dryRun, tr) && n <= |tr.ws| && tr.snaps[0].copies == NO_COPIES
    requires forall env <- tr.envs :: env.publish == PUBLISH_FINE
    ensures tr.snaps[n].copies.strays == 0 && tr.snaps[n].copies.strayBytes == 0
  {
    if n > 0 {
      NoStrays(rules, limit, dryRun, tr, n - 1);
      TraceSnap(rules, limit, dryRun, tr, n - 1);
      CopiesOfStep(rules, limit, dryRun, tr.ws[n - 1], tr.envs[n - 1], tr.answers[n - 1], tr.snaps[n - 1], tr.snaps[n]);
      assert tr.envs[n - 1] in tr.envs;
      hide CopiesFor, AppliedFs, Counted, Evaluates, IsTrace;
    }
  }

  /** A dry run changes nothing and counts files alone. */
  lemma {:induction false} DryRunIsInert(rules: Rules, limit: nat, tr: Trace, n: nat)
    requires IsTrace(rules, limit, true, tr) && n <= |tr.ws| && tr.snaps[0].t == NO_TOTALS
    ensures tr.snaps[n].fs == tr.snaps[0].fs && tr.snaps[n].t == NO_TOTALS.(files := n)
  {
    if n > 0 {
      DryRunIsInert(rules, limit, tr, n - 1);
      assert FileStep(rules, limit, true, tr.ws[n - 1], tr.envs[n - 1], tr.answers[n - 1], tr.snaps[n - 1], tr.snaps[n]);
    }
  }

  function Volumes(tr: Trace): (r: seq<Fs>)
    requires |tr.snaps| == |tr.ws| + 1
    ensures |r| == |tr.ws| && forall n :: 0 <= n < |r| ==> r[n] == tr.snaps[n].fs
  {
    seq(|tr.ws|, n requires 0 <= n < |tr.ws| => tr.snaps[n].fs)
  }

  function Faults(tr: Trace): (r: seq<ReadFault>)
    ensures |r| == |tr.envs| && forall n :: 0 <= n < |r| ==> r[n] == tr.envs[n].fault
  {
    seq(|tr.envs|, n requires 0 <= n < |tr.envs| => tr.envs[n].fault)
  }

  function Memos(tr: Trace): (r: seq<Memo>)
    ensures |r| == |tr.snaps| && forall n :: 0 <= n < |r| ==> r[n] == tr.snaps[n].memo
  {
    seq(|tr.snaps|, n requires 0 <= n < |tr.snaps| => tr.snaps[n].memo)
  }

  /** The evaluations of a run are a session of the ingest waterfall: a run keeps contents and
      slots, so its cached answers refine the uncached ones. */
  lemma TraceIsSession(rules: Rules, limit: nat, dryRun: bool, tr: Trace)
    requires IsTrace(rules, limit, dryRun, tr) && WellFormed(tr.snaps[0].fs)
    requires tr.snaps[0] == Snap(tr.snaps[0].fs, EMPTY_MEMO, NO_TOTALS, NO_COPIES)
    ensures Session(rules, Volumes(tr), tr.ws, Faults(tr), tr.answers, Memos(tr))
  {
    hide Grows, Evaluates, FileStep, Progress, OneStoreName;
    forall n | 0 <= n < |tr.ws|
      ensures tr.snaps[n].fs.Valid()
      ensures Evaluates(rules, tr.snaps[n].fs, tr.snaps[n].memo, tr.ws[n], tr.envs[n].fault, tr.answers[n], tr.snaps[n + 1].memo)
    {
      TraceSnap(rules, limit, dryRun, tr, n);
      StepEvaluates(rules, limit, dryRun, tr.ws[n], tr.envs[n], tr.answers[n], tr.snaps[n], tr.snaps[n + 1]);
    }
    forall n | 0 < n < |tr.ws| ensures Grows(tr.snaps[n - 1].fs, tr.snaps[n].fs) {
      RunGrows(rules, limit, dryRun, tr, n - 1);
    }
  }

  lemma StepEvaluates(rules: Rules, limit: nat, dryRun: bool, w: WorkPath, env: Env, answer: Answer, s: Snap, s': Snap)
    requires s.fs.Valid() && FileStep(rules, limit, dryRun, w, env, answer, s, s')
    ensures Evaluates(rules, s.fs, s.memo, w, env.fault, answer, s'.memo)
  {
  }

  lemma RunGrows(rules: Rules, limit: nat, dryRun: bool, tr: Trace, n: nat)
    requires IsTrace(rules, limit, dryRun, tr) && WellFormed(tr.snaps[0].fs) && n < |tr.ws|
    requires tr.snaps[0].t == NO_TOTALS && tr.snaps[0].copies == NO_COPIES
    ensures Grows(tr.snaps[n].fs, tr.snaps[n + 1].fs)
  {
    hide Grows, FileStep, OneStoreName;
    TraceProgress(rules, limit, dryRun, tr, multiset(tr.ws), n);
    TraceSnap(rules, limit, dryRun, tr, n);
    StepGrows(rules, limit, dryRun, tr.ws[n], tr.envs[n], tr.answers[n], tr.snaps[n], tr.snaps[n + 1]);
  }

  lemma StepGrows(rules: Rules, limit: nat, dryRun: bool, w: WorkPath, env: Env, answer: Answer, s: Snap, s': Snap)
    requires WellFormed(s.fs) && FileStep(rules, limit, dryRun, w, env, answer, s, s')
    ensures Grows(s.fs, s'.fs)
  {
    hide PublishedFs, LinkedFs, OneStoreName, Evaluates, Counted, CopiesFor;
    if !dryRun && answer.Verdict? && File(w) in s.fs.names {
      match answer.value
      case Bypass(_) =>
      case Unique => PublishingGrows(s.fs, limit, w, rules.hash(s.fs.DataAt(File(w))), env.publish);
      case Duplicate(slot) => LinkingGrows(s.fs, limit, w, slot.digest, env.link);
    }
  }
}
