/** The ingest waterfall with its two in-memory caches, against the waterfall without them. */
module Ingest {
  import opened Digests
  import opened Filesystem
  import opened Names
  import opened Store
  import opened Verdicts

  datatype FileClass = Prohibited | Unknown | Whitelisted

  /** The hasher and the file classification, both of which are left open. */
  datatype Rules = Rules(hash: Bytes -> Digest, classify: WorkPath -> FileClass)

  /** Reading a file may fail in either hashing tier. */
  datatype ReadFault = NoFault | BoundaryFails | DigestFails

  datatype Answer = Verdict(value: IngestVerdict) | MetadataError | DigestError

  const MAX_INODE_CACHE_ENTRIES: nat := 100_000

  /** What a pipeline remembers between calls. */
  datatype Memo = Memo(inodes: map<Ino, SlotRef>, boundaries: map<Digest, seq<SlotRef>>)

  const EMPTY_MEMO := Memo(map[], map[])

  // ─── One evaluation ───────────────────────────────────────────────────────

  /** The answer without any cache. */
  function Uncached(rules: Rules, fs: Fs, w: WorkPath, fault: ReadFault): Answer
    requires fs.Valid()
  {
    match rules.classify(w)
    case Prohibited => Verdict(Bypass(BypassReason.Prohibited))
    case Unknown => Verdict(Bypass(UnknownType))
    case Whitelisted =>
      if File(w) !in fs.names then MetadataError
      else if |fs.DataAt(File(w))| < MIN_FILE_SIZE then Verdict(Bypass(TooSmall))
      else if fault != NoFault then DigestError
      else match Lookup2(fs, rules.hash(fs.DataAt(File(w))))
        case Some(slot) => Verdict(Duplicate(slot))
        case None => Verdict(Unique)
  }

  /** The file gets past the classification and the size filter. */
  predicate Candidate(rules: Rules, fs: Fs, w: WorkPath)
    requires fs.Valid()
  {
    rules.classify(w) == Whitelisted && File(w) in fs.names && |fs.DataAt(File(w))| >= MIN_FILE_SIZE
  }

  /** The inode is cached and has a second link. */
  predicate Hit(inodes: map<Ino, SlotRef>, rules: Rules, fs: Fs, w: WorkPath)
    requires fs.Valid()
  {
    Candidate(rules, fs, w) && fs.names[File(w)] in inodes && fs.LinksAt(File(w)) > 1
  }

  /** `after` is `before` with one insertion, made after half the capacity has been evicted if
      the cache was full; which half is not said. */
  ghost predicate Inserted(before: map<Ino, SlotRef>, i: Ino, slot: SlotRef, after: map<Ino, SlotRef>) {
    exists gone: set<Ino> ::
      && gone <= before.Keys
      && |gone| == (if |before| >= MAX_INODE_CACHE_ENTRIES then MAX_INODE_CACHE_ENTRIES / 2 else 0)
      && after == (before - gone)[i := slot]
  }

  function Noted(boundaries: map<Digest, seq<SlotRef>>, b: Digest, slots: seq<SlotRef>): map<Digest, seq<SlotRef>> {
    boundaries[b := (if b in boundaries then boundaries[b] else []) + slots]
  }

  /** One call of evaluate: its answer, and what is remembered after it. */
  ghost predicate Evaluates(rules: Rules, fs: Fs, memo: Memo, w: WorkPath, fault: ReadFault, answer: Answer, memo': Memo)
    requires fs.Valid()
  {
    && answer == (if Hit(memo.inodes, rules, fs, w) then Verdict(Bypass(AlreadyIngested)) else Uncached(rules, fs, w, fault))
    && (if Candidate(rules, fs, w) && !Hit(memo.inodes, rules, fs, w) && fault != BoundaryFails then
          var b := rules.hash(Window(fs.DataAt(File(w))));
          if answer.Verdict? && answer.value.Duplicate? then
            && memo'.boundaries == Noted(memo.boundaries, b, [answer.value.slot])
            && Inserted(memo.inodes, fs.names[File(w)], answer.value.slot, memo'.inodes)
          else
            memo' == memo.(boundaries := Noted(memo.boundaries, b, []))
        else
          memo' == memo)
  }

  lemma NotedTwice(m: map<Digest, seq<SlotRef>>, b: Digest, slots: seq<SlotRef>)
    ensures Noted(Noted(m, b, []), b, slots) == Noted(m, b, slots)
  {
    if b in m {
      assert m[b] + [] == m[b];
    }
    assert [] + slots == slots;
  }

  function KeySet(keys: seq<Ino>): set<Ino> {
    set k | k in keys
  }

  lemma {:induction false} DistinctSize(keys: seq<Ino>)
    requires forall a, b :: 0 <= a < b < |keys| ==> keys[a] != keys[b]
    ensures |KeySet(keys)| == |keys|
  {
    if keys != [] {
      var rest, last := keys[..|keys| - 1], keys[|keys| - 1];
      DistinctSize(rest);
      assert KeySet(keys) == KeySet(rest) + {last};
    }
  }

  lemma NoKeys(m: map<Ino, SlotRef>, keys: seq<Ino>)
    ensures m - KeySet(keys[..0]) == m && keys[..|keys|] == keys
  {
  }

  lemma OneKeyMore(m: map<Ino, SlotRef>, keys: seq<Ino>, j: nat)
    requires j < |keys|
    ensures m - KeySet(keys[..j + 1]) == m - KeySet(keys[..j]) - {keys[j]}
  {
    assert KeySet(keys[..j + 1]) == KeySet(keys[..j]) + {keys[j]};
    Minus(m, KeySet(keys[..j]), {keys[j]});
  }

  lemma Minus(m: map<Ino, SlotRef>, a: set<Ino>, b: set<Ino>)
    ensures m - a - b == m - (a + b) && m - {} == m
  {
  }

  lemma InsertedAfter(before: map<Ino, SlotRef>, gone: set<Ino>, i: Ino, slot: SlotRef)
    requires gone <= before.Keys
    requires |gone| == (if |before| >= MAX_INODE_CACHE_ENTRIES then MAX_INODE_CACHE_ENTRIES / 2 else 0)
    ensures Inserted(before, i, slot, (before - gone)[i := slot])
  {
  }

  class IngestPipeline {
    const store: CasStore
    const rules: Rules
    var inodeCache: map<Ino, SlotRef>
    var boundaryCache: map<Digest, seq<SlotRef>>

    constructor (store: CasStore, rules: Rules)
      ensures this.store == store && this.rules == rules && Known() == EMPTY_MEMO
    {
      this.store := store;
      this.rules := rules;
      inodeCache := map[];
      boundaryCache := map[];
    }

    function Known(): Memo
      reads this
    {
      Memo(inodeCache, boundaryCache)
    }

    method Evaluate(w: WorkPath, fault: ReadFault) returns (r: Answer)
      requires store.disk.fs.Valid()
      modifies this
      ensures Evaluates(rules, store.disk.fs, old(Known()), w, fault, r, Known())
    {
      var disk := store.disk;
      match rules.classify(w) {
        case Prohibited => return Verdict(Bypass(BypassReason.Prohibited));
        case Unknown => return Verdict(Bypass(UnknownType));
        case Whitelisted =>
      }
      if !disk.Exists(File(w)) {
        return MetadataError;
      }
      var content, inode := disk.fs.DataAt(File(w)), disk.fs.names[File(w)];
      if |content| < MIN_FILE_SIZE {
        return Verdict(Bypass(TooSmall));
      }
      if inode in inodeCache && disk.fs.LinksAt(File(w)) > 1 {
        return Verdict(Bypass(AlreadyIngested));
      }
      if fault == BoundaryFails {
        return DigestError;
      }
      var bHash := BoundaryHash(rules.hash, content);
      boundaryCache := Noted(boundaryCache, bHash, []);
      if fault == DigestFails {
        return DigestError;
      }
      var casDigest := FullCasDigest(rules.hash, content);
      var found := store.Lookup(casDigest);
      match found
      case Some(slot) =>
        CacheInode(inode, slot);
        boundaryCache := Noted(boundaryCache, bHash, [slot]);
        NotedTwice(old(boundaryCache), bHash, [slot]);
        r := Verdict(Duplicate(slot));
      case None =>
        r := Verdict(Unique);
    }

    method CacheInode(i: Ino, slot: SlotRef)
      modifies this`inodeCache
      ensures Inserted(old(inodeCache), i, slot, inodeCache)
    {
      hide Inserted;
      ghost var before, gone: set<Ino> := inodeCache, {};
      Minus(before, {}, {});
      if |inodeCache| >= MAX_INODE_CACHE_ENTRIES {
        var drainTarget := MAX_INODE_CACHE_ENTRIES / 2;
        var keys := TakeKeys(drainTarget);
        DistinctSize(keys);
        Evict(keys);
        gone := KeySet(keys);
      }
      inodeCache := inodeCache[i := slot];
      InsertedAfter(before, gone, i, slot);
    }

    method Evict(keys: seq<Ino>)
      modifies this`inodeCache
      ensures inodeCache == old(inodeCache) - KeySet(keys)
    {
      hide KeySet;
      NoKeys(old(inodeCache), keys);
      for j := 0 to |keys|
        invariant inodeCache == old(inodeCache) - KeySet(keys[..j])
      {
        OneKeyMore(old(inodeCache), keys, j);
        inodeCache := inodeCache - {keys[j]};
      }
    }

    /** The first `n` keys in an order that is not specified. */
    method TakeKeys(n: nat) returns (keys: seq<Ino>)
      ensures |keys| == if |inodeCache| < n then |inodeCache| else n
      ensures forall k <- keys :: k in inodeCache
      ensures forall a, b :: 0 <= a < b < |keys| ==> keys[a] != keys[b]
    {
      keys := [];
      var rest := inodeCache.Keys;
      while rest != {} && |keys| < n
        invariant |keys| <= n && |keys| + |rest| == |inodeCache|
        invariant rest <= inodeCache.Keys
        invariant forall k <- keys :: k in inodeCache && k !in rest
        invariant forall a, b :: 0 <= a < b < |keys| ==> keys[a] != keys[b]
      {
        var k :| k in rest;
        keys := keys + [k];
        rest := rest - {k};
      }
    }
  }
}
