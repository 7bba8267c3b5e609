/** What the ingest caches may be trusted for, over any number of calls. */
module IngestLaws {
  import opened Digests
  import opened Filesystem
  import opened Ingest
  import opened Linkage
  import opened LinkageLaws
  import opened Names
  import opened Store
  import opened Verdicts

  // ─── The bounded cache against one that forgets nothing ───────────────────

  type Insertion = (Ino, SlotRef)

  ghost predicate CacheRun(caches: seq<map<Ino, SlotRef>>, ins: seq<Insertion>) {
    && |caches| == |ins| + 1 && caches[0] == map[]
    && forall n :: 0 <= n < |ins| ==> Inserted(caches[n], ins[n].0, ins[n].1, caches[n + 1])
  }

  function Everything(ins: seq<Insertion>): map<Ino, SlotRef> {
    if ins == [] then map[] else Everything(ins[..|ins| - 1])[ins[|ins| - 1].0 := ins[|ins| - 1].1]
  }

  predicate Submap<K, V(==)>(a: map<K, V>, b: map<K, V>) {
    forall k <- a :: k in b && a[k] == b[k]
  }

  lemma OneInsertion(before: map<Ino, SlotRef>, i: Ino, slot: SlotRef, after: map<Ino, SlotRef>, all: map<Ino, SlotRef>)
    requires Inserted(before, i, slot, after) && |before| <= MAX_INODE_CACHE_ENTRIES && Submap(before, all)
    ensures |after| <= MAX_INODE_CACHE_ENTRIES
    ensures i in after && after[i] == slot && Submap(after, all[i := slot])
    ensures |before| < MAX_INODE_CACHE_ENTRIES && before == all ==> after == all[i := slot]
  {
    hide Inserted, Submap;
    var gone := Evicted(before, i, slot, after);
    KeptSize(before, gone, i, slot);
    StillSubmap(before, gone, i, slot, after, all);
    if |before| < MAX_INODE_CACHE_ENTRIES {
      Minus(before, gone, {});
      assert gone == {};
    }
  }

  lemma StillSubmap(before: map<Ino, SlotRef>, gone: set<Ino>, i: Ino, slot: SlotRef, after: map<Ino, SlotRef>, all: map<Ino, SlotRef>)
    requires Submap(before, all) && after == (before - gone)[i := slot]
    ensures Submap(after, all[i := slot])
  {
  }

  lemma Evicted(before: map<Ino, SlotRef>, i: Ino, slot: SlotRef, after: map<Ino, SlotRef>) returns (gone: set<Ino>)
    requires Inserted(before, i, slot, after)
    ensures gone <= before.Keys
    ensures |gone| == (if |before| >= MAX_INODE_CACHE_ENTRIES then MAX_INODE_CACHE_ENTRIES / 2 else 0)
    ensures after == (before - gone)[i := slot]
  {
    gone :| gone <= before.Keys
      && |gone| == (if |before| >= MAX_INODE_CACHE_ENTRIES then MAX_INODE_CACHE_ENTRIES / 2 else 0)
      && after == (before - gone)[i := slot];
  }

  lemma KeptSize(before: map<Ino, SlotRef>, gone: set<Ino>, i: Ino, slot: SlotRef)
    requires gone <= before.Keys
    ensures |before| - |gone| <= |(before - gone)[i := slot]| <= |before| - |gone| + 1
  {
    var kept := before - gone;
    assert kept.Keys == before.Keys - gone && |kept.Keys| == |kept| && |before.Keys| == |before|;
    assert kept[i := slot].Keys == kept.Keys + {i} && |kept[i := slot].Keys| == |kept[i := slot]|;
  }

  /** Over any history of insertions the cache never holds more than 100,000 entries, holds the
      latest, and agrees with a cache that forgets nothing, whichever halves were evicted. */
  lemma {:induction false} CacheIsBounded(caches: seq<map<Ino, SlotRef>>, ins: seq<Insertion>, n: nat)
    requires CacheRun(caches, ins) && n <= |ins|
    ensures |caches[n]| <= 100_000
    ensures Submap(caches[n], Everything(ins[..n]))
    ensures n > 0 ==> ins[n - 1].0 in caches[n] && caches[n][ins[n - 1].0] == ins[n - 1].1
  {
    if n > 0 {
      CacheIsBounded(caches, ins, n - 1);
      assert ins[..n][..n - 1] == ins[..n - 1];
      OneInsertion(caches[n - 1], ins[n - 1].0, ins[n - 1].1, caches[n], Everything(ins[..n - 1]));
    }
  }

  /** Nothing is forgotten before 100,000 different inodes have been inserted. */
  lemma {:induction false} ForgetsNothingEarly(caches: seq<map<Ino, SlotRef>>, ins: seq<Insertion>, n: nat)
    requires CacheRun(caches, ins) && n <= |ins|
    requires n == 0 || |Everything(ins[..n - 1])| < 100_000
    ensures caches[n] == Everything(ins[..n])
  {
    if n > 0 {
      assert ins[..n][..n - 1] == ins[..n - 1];
      if n > 1 {
        assert ins[..n - 1][..n - 2] == ins[..n - 2];
        EverythingGrows(ins[..n - 1]);
      }
      ForgetsNothingEarly(caches, ins, n - 1);
      OneInsertion(caches[n - 1], ins[n - 1].0, ins[n - 1].1, caches[n], Everything(ins[..n - 1]));
    }
  }

  lemma EverythingGrows(ins: seq<Insertion>)
    requires ins != []
    ensures |Everything(ins[..|ins| - 1])| <= |Everything(ins)|
  {
    var before, all := Everything(ins[..|ins| - 1]), Everything(ins);
    assert |before.Keys| == |before| && |all.Keys| == |all|;
    SubsetSize(before.Keys, all.Keys);
  }

  // ─── One call ─────────────────────────────────────────────────────────────

  /** The file gets as far as the inode cache. */
  predicate GetsFar(rules: Rules, fs: Fs, w: WorkPath)
    requires fs.Valid()
  {
    rules.classify(w) == Whitelisted && File(w) in fs.names && |fs.DataAt(File(w))| >= 4_096
  }

  /** When each answer is given.  A file that gets far, is not remembered and can be read is Unique
      exactly when its digest has no slot at index 0 or 1. */
  lemma AnswersAre(rules: Rules, fs: Fs, memo: Memo, w: WorkPath, fault: ReadFault, answer: Answer, memo': Memo)
    requires fs.Valid() && Evaluates(rules, fs, memo, w, fault, answer, memo')
    ensures answer == Verdict(Bypass(BypassReason.Prohibited)) <==> rules.classify(w) == FileClass.Prohibited
    ensures answer == Verdict(Bypass(UnknownType)) <==> rules.classify(w) == Unknown
    ensures answer == MetadataError <==> rules.classify(w) == Whitelisted && File(w) !in fs.names
    ensures answer == Verdict(Bypass(TooSmall)) <==>
            rules.classify(w) == Whitelisted && File(w) in fs.names && |fs.DataAt(File(w))| < 4_096
    ensures GetsFar(rules, fs, w) <==> rules.classify(w) == Whitelisted && File(w) in fs.names && |fs.DataAt(File(w))| >= 4_096
    ensures GetsFar(rules, fs, w) ==>
      var d, known := rules.hash(fs.DataAt(File(w))), fs.names[File(w)] in memo.inodes && fs.LinksAt(File(w)) > 1;
      && (answer == Verdict(Bypass(AlreadyIngested)) <==> known)
      && (answer == DigestError <==> !known && fault != NoFault)
      && (answer == Verdict(Unique) <==> !known && fault == NoFault && Object(d, 0) !in fs.names && Object(d, 1) !in fs.names)
      && (answer == Verdict(Duplicate(SlotRef(d, 0))) <==> !known && fault == NoFault && Object(d, 0) in fs.names)
      && (answer == Verdict(Duplicate(SlotRef(d, 1))) <==> !known && fault == NoFault && Object(d, 0) !in fs.names && Object(d, 1) in fs.names)
    ensures answer == DigestError || answer == Verdict(Bypass(AlreadyIngested)) || (answer.Verdict? && !answer.value.Bypass?) ==>
            GetsFar(rules, fs, w)
  {
    hide Inserted, Noted, Window;
  }

  /** What a call adds to the caches: a duplicate its inode and slot, and every file that is read
      an entry for its boundary hash, to which a duplicate's slot is appended. */
  lemma CallRemembers(rules: Rules, fs: Fs, memo: Memo, w: WorkPath, fault: ReadFault, answer: Answer, memo': Memo, b: Digest)
    requires fs.Valid() && Evaluates(rules, fs, memo, w, fault, answer, memo')
    ensures if answer.Verdict? && answer.value.Duplicate? then
              && File(w) in fs.names && fs.names[File(w)] in memo'.inodes && memo'.inodes[fs.names[File(w)]] == answer.value.slot
              && (|memo.inodes| < 100_000 ==> memo'.inodes == memo.inodes[fs.names[File(w)] := answer.value.slot])
              && (|memo.inodes| >= 100_000 ==> |memo.inodes| <= |memo'.inodes| + 50_000 <= |memo.inodes| + 1)
            else memo'.inodes == memo.inodes
    ensures var before := if b in memo.boundaries then memo.boundaries[b] else [];
            var read := GetsFar(rules, fs, w) && fault != BoundaryFails && answer != Verdict(Bypass(AlreadyIngested))
                        && b == rules.hash(Window(fs.DataAt(File(w))));
      && (b in memo'.boundaries <==> b in memo.boundaries || read)
      && (b in memo'.boundaries ==>
            memo'.boundaries[b] == before + if read && answer.Verdict? && answer.value.Duplicate? then [answer.value.slot] else [])
  {
    hide Inserted, Window;
    if answer.Verdict? && answer.value.Duplicate? {
      var i, slot := fs.names[File(w)], answer.value.slot;
      var gone := Evicted(memo.inodes, i, slot, memo'.inodes);
      KeptSize(memo.inodes, gone, i, slot);
      if |memo.inodes| < MAX_INODE_CACHE_ENTRIES {
        assert gone == {};
        Minus(memo.inodes, {}, {});
      }
    }
  }

  // ─── The cached waterfall refines the uncached one ────────────────────────

  /** What may happen to the volume between two calls: file contents are immutable and no slot
      goes away.  Anything else may change. */
  ghost predicate Grows(fs: Fs, fs': Fs) {
    && (forall i <- fs.nodes :: i in fs'.nodes && fs'.nodes[i].data == fs.nodes[i].data)
    && (forall d, k :: Object(d, k) in fs.names ==> Object(d, k) in fs'.names)
  }

  /** One pipeline's calls: call `n` looks at the volume `fss[n]`, which may have grown since the
      call before. */
  ghost predicate Session(rules: Rules, fss: seq<Fs>, ws: seq<WorkPath>, faults: seq<ReadFault>, answers: seq<Answer>, memos: seq<Memo>) {
    && |fss| == |ws| == |faults| == |answers| && |memos| == |ws| + 1
    && memos[0] == EMPTY_MEMO
    && (forall n :: 0 <= n < |ws| ==> fss[n].Valid() && Evaluates(rules, fss[n], memos[n], ws[n], faults[n], answers[n], memos[n + 1]))
    && (forall n :: 0 < n < |ws| ==> Grows(fss[n - 1], fss[n]))
  }

  /** The uncached waterfall would find the content of inode `i` in the store. */
  ghost predicate InTheStore(rules: Rules, fs: Fs, i: Ino) {
    && i in fs.nodes && |fs.nodes[i].data| >= MIN_FILE_SIZE
    && Lookup2(fs, rules.hash(fs.nodes[i].data)).Some?
  }

  /** `slot` stands for a content whose boundary hash is `b`. */
  ghost predicate StandsFor(rules: Rules, fs: Fs, b: Digest, slot: SlotRef) {
    exists i <- fs.nodes :: rules.hash(fs.nodes[i].data) == slot.digest && rules.hash(Window(fs.nodes[i].data)) == b
  }

  ghost predicate MemoSound(rules: Rules, fs: Fs, memo: Memo) {
    && (forall i <- memo.inodes :: InTheStore(rules, fs, i))
    && (forall b, slot :: b in memo.boundaries && slot in memo.boundaries[b] ==> StandsFor(rules, fs, b, slot))
  }

  lemma GrowthKeepsMemo(rules: Rules, fs: Fs, fs': Fs, memo: Memo)
    requires Grows(fs, fs') && MemoSound(rules, fs, memo)
    ensures MemoSound(rules, fs', memo)
  {
    forall b, slot | b in memo.boundaries && slot in memo.boundaries[b] ensures StandsFor(rules, fs', b, slot) {
      assert StandsFor(rules, fs, b, slot);
      var i :| i in fs.nodes && rules.hash(fs.nodes[i].data) == slot.digest && rules.hash(Window(fs.nodes[i].data)) == b;
      assert fs'.nodes[i].data == fs.nodes[i].data;
    }
    forall i | i in memo.inodes ensures InTheStore(rules, fs', i) {
      assert InTheStore(rules, fs, i);
    }
  }

  /** What a call adds to what is remembered: a slot for the file's inode and boundary when it
      is a duplicate, else at most an empty entry. */
  lemma CallAdds(rules: Rules, fs: Fs, memo: Memo, w: WorkPath, fault: ReadFault, answer: Answer, memo': Memo)
    requires fs.Valid() && Evaluates(rules, fs, memo, w, fault, answer, memo')
    ensures if answer.Verdict? && answer.value.Duplicate? then
              && File(w) in fs.names && InTheStore(rules, fs, fs.names[File(w)])
              && answer.value.slot.digest == rules.hash(fs.DataAt(File(w)))
              && memo'.boundaries == Noted(memo.boundaries, rules.hash(Window(fs.DataAt(File(w)))), [answer.value.slot])
              && Inserted(memo.inodes, fs.names[File(w)], answer.value.slot, memo'.inodes)
            else
              && memo'.inodes == memo.inodes
              && (memo'.boundaries == memo.boundaries || exists b :: memo'.boundaries == Noted(memo.boundaries, b, []))
  {
    hide Inserted, Noted, Window;
  }

  lemma CallKeepsMemo(rules: Rules, fs: Fs, memo: Memo, w: WorkPath, fault: ReadFault, answer: Answer, memo': Memo)
    requires fs.Valid() && MemoSound(rules, fs, memo) && Evaluates(rules, fs, memo, w, fault, answer, memo')
    ensures MemoSound(rules, fs, memo')
  {
    hide Evaluates, InTheStore, StandsFor, Inserted;
    CallAdds(rules, fs, memo, w, fault, answer, memo');
    if answer.Verdict? && answer.value.Duplicate? {
      StandsForItself(rules, fs, fs.names[File(w)], answer.value.slot);
      InsertedFrom(memo.inodes, fs.names[File(w)], answer.value.slot, memo'.inodes);
    }
  }

  lemma StandsForItself(rules: Rules, fs: Fs, i: Ino, slot: SlotRef)
    requires i in fs.nodes && rules.hash(fs.nodes[i].data) == slot.digest
    ensures StandsFor(rules, fs, rules.hash(Window(fs.nodes[i].data)), slot)
  {
  }

  lemma InsertedFrom(before: map<Ino, SlotRef>, i: Ino, slot: SlotRef, after: map<Ino, SlotRef>)
    requires Inserted(before, i, slot, after)
    ensures after.Keys <= before.Keys + {i}
  {
  }

  lemma {:induction false} SessionIsSound(rules: Rules, fss: seq<Fs>, ws: seq<WorkPath>, faults: seq<ReadFault>,
                                          answers: seq<Answer>, memos: seq<Memo>, n: nat)
    requires Session(rules, fss, ws, faults, answers, memos) && n < |ws|
    ensures MemoSound(rules, fss[n], memos[n])
    ensures MemoSound(rules, fss[n], memos[n + 1])
  {
    if n > 0 {
      SessionIsSound(rules, fss, ws, faults, answers, memos, n - 1);
      GrowthKeepsMemo(rules, fss[n - 1], fss[n], memos[n]);
    }
    hide MemoSound, Evaluates;
    CallKeepsMemo(rules, fss[n], memos[n], ws[n], faults[n], answers[n], memos[n + 1]);
  }

  /** In every session with immutable contents and no collector, the caches only ever turn a
      Duplicate into AlreadyIngested, and only for a file with a second link; every other answer
      is the uncached one. */
  lemma CachedRefinesUncached(rules: Rules, fss: seq<Fs>, ws: seq<WorkPath>, faults: seq<ReadFault>,
                              answers: seq<Answer>, memos: seq<Memo>, n: nat)
    requires Session(rules, fss, ws, faults, answers, memos) && n < |ws|
    ensures fss[n].Valid()
    ensures if answers[n] == Verdict(Bypass(AlreadyIngested)) then
              var plain := Uncached(rules, fss[n], ws[n], NoFault);
              plain.Verdict? && plain.value.Duplicate? && fss[n].LinksAt(File(ws[n])) > 1
            else
              answers[n] == Uncached(rules, fss[n], ws[n], faults[n])
  {
    SessionIsSound(rules, fss, ws, faults, answers, memos, n);
    if Hit(memos[n].inodes, rules, fss[n], ws[n]) {
      assert InTheStore(rules, fss[n], fss[n].names[File(ws[n])]);
    }
  }

  /** No two files of different content have the same digest. */
  ghost predicate TellsApart(rules: Rules, fs: Fs) {
    forall i, j | i in fs.nodes && j in fs.nodes && rules.hash(fs.nodes[i].data) == rules.hash(fs.nodes[j].data) ::
      fs.nodes[i].data == fs.nodes[j].data
  }

  /** Where the store is content-addressed and the digest tells its contents apart, every slot
      cached under boundary `b` is a file whose boundary hash is `b`. */
  lemma BoundaryCacheIsTrue(rules: Rules, fss: seq<Fs>, ws: seq<WorkPath>, faults: seq<ReadFault>,
                            answers: seq<Answer>, memos: seq<Memo>, n: nat, b: Digest, slot: SlotRef)
    requires Session(rules, fss, ws, faults, answers, memos) && n < |ws|
    requires b in memos[n + 1].boundaries && slot in memos[n + 1].boundaries[b] && slot.Path() in fss[n].names
    requires fss[n].Valid() && rules.hash(fss[n].DataAt(slot.Path())) == slot.digest
    requires TellsApart(rules, fss[n])
    ensures rules.hash(Window(fss[n].DataAt(slot.Path()))) == b
  {
    SessionIsSound(rules, fss, ws, faults, answers, memos, n);
    assert StandsFor(rules, fss[n], b, slot);
  }

  /** The engine's own publishing is such growth, whichever of its calls fail. */
  lemma PublishingGrows(fs: Fs, limit: nat, w: WorkPath, d: Digest, io: PublishIo)
    requires WellFormed(fs)
    ensures Grows(fs, PublishedFs(fs, limit, w, d, io))
  {
    hide PublishedFs, OneStoreName;
    var fs' := PublishedFs(fs, limit, w, d, io);
    forall i | i in fs.nodes ensures i in fs'.nodes && fs'.nodes[i].data == fs.nodes[i].data {
      PublishKeepsBytes(fs, limit, w, d, io, i);
    }
    forall k, e | Object(e, k) in fs.names ensures Object(e, k) in fs'.names {
      PublishKeepsNames(fs, limit, w, d, io, Object(e, k));
    }
  }

  /** And so is its linking. */
  lemma LinkingGrows(fs: Fs, limit: nat, w: WorkPath, d: Digest, io: LinkIo)
    requires WellFormed(fs)
    ensures Grows(fs, LinkedFs(fs, limit, w, d, io))
  {
    hide LinkedFs, OneStoreName;
    var fs' := LinkedFs(fs, limit, w, d, io);
    forall i | i in fs.nodes ensures i in fs'.nodes && fs'.nodes[i].data == fs.nodes[i].data {
      LinkKeepsBytes(fs, limit, w, d, io, i);
    }
    forall k, e | Object(e, k) in fs.names ensures Object(e, k) in fs'.names {
      LinkKeepsNames(fs, limit, w, d, io, Object(e, k));
    }
  }
}
