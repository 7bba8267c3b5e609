/** A run of the system, from an empty store, in which a purge is about to remove one of two names
    of a file.  Quarantine names have millisecond resolution: two collectors that stat a slot in
    the same millisecond hold the same name for it, and the second may use it for the slot that
    has been published and linked in its place, when the first is about to purge it. */
module ProtocolReuse {
  import opened Filesystem
  import opened Linkage
  import opened LinkageLaws
  import opened Permissions
  import opened Protocol
  import opened ProtocolPurge
  import opened Refinement
  import opened Store

  const D: Digest := []
  const CONFIG := Config((x: Bytes) => D, 1_000, 600_000, {[]})
  const SLOT := Object(D, 0)
  const ENTRY := Quarantine(0, D, 0)
  const PLAIN := Node([], MODE_644, true)
  const MASTER := Node([], MODE_444, true)
  const A := File("a")
  const B := File("b")

  // The volume: at first, with a master, with the master in quarantine, with a second master, with
  // a link to that, and with the second master in quarantine under the name of the first.
  const FS0 := Fs(map[A := 0, B := 1], map[0 := PLAIN, 1 := PLAIN], 2)
  const FS1 := Fs(map[A := 0, B := 1, SLOT := 2], map[0 := PLAIN, 1 := PLAIN, 2 := MASTER], 3)
  const FS2 := Fs(map[A := 0, B := 1, ENTRY := 2], map[0 := PLAIN, 1 := PLAIN, 2 := MASTER], 3)
  const FS3 := Fs(map[A := 0, B := 1, ENTRY := 2, SLOT := 3], map[0 := PLAIN, 1 := PLAIN, 2 := MASTER, 3 := MASTER], 4)
  const FS4 := Fs(map[A := 0, B := 3, ENTRY := 2, SLOT := 3], map[0 := PLAIN, 1 := PLAIN, 2 := MASTER, 3 := MASTER], 4)
  const FS5 := Fs(map[A := 0, B := 3, ENTRY := 3], map[0 := PLAIN, 1 := PLAIN, 2 := MASTER, 3 := MASTER], 4)

  const OWNED: map<WorkPath, Bytes> := map["a" := [], "b" := []]

  const S0 := State(FS0, [Idle], [GcIdle, GcIdle], 0, OWNED, map[], {})
  const S1 := State(FS1, [Idle], [GcIdle, GcIdle], 0, OWNED, map[], {2})
  const S2 := State(FS2, [Idle], [GcPurge(D, 0, 0), GcMove(D, 0, 0)], 600_000, OWNED, map[ENTRY := 2], {2})
  const S3 := State(FS3, [Idle], [GcPurge(D, 0, 0), GcMove(D, 0, 0)], 600_000, OWNED, map[ENTRY := 2], {2, 3})
  const S4 := State(FS4, [Idle], [GcPurge(D, 0, 0), GcMove(D, 0, 0)], 600_000, OWNED, map[ENTRY := 2], {2, 3})
  const S5 := State(FS5, [Idle], [GcPurge(D, 0, 0), GcIdle], 600_000, OWNED, map[ENTRY := 3], {2, 3})

  lemma Well0()
    ensures WellFormed(FS0)
  {
  }

  lemma Well2()
    ensures WellFormed(FS2)
  {
  }

  lemma Well3()
    ensures WellFormed(FS3)
  {
  }

  /** Publishing `a` into a store without a slot. */
  lemma Publishing(s: State, s': State) returns (acts: seq<Action>)
    requires WellFormed(s.fs) && s.workers == [Idle] && "a" in s.owned && Publishes(s.fs, "a", D)
    requires s.fs.nodes[s.fs.names[A]] == PLAIN
    requires s'.fs == s.fs.Create(SLOT, MASTER)
    requires s' == s.(fs := s'.fs, staged := s.staged + {s.fs.next})
    ensures Reaches(CONFIG, s, acts, s')
  {
    var begin := Begin(0, "a", true);
    Stay(CONFIG, s);
    var head := Then(CONFIG, s, [], s, begin);
    var mid := Next(CONFIG, s, begin);
    hide Reaches;
    var tail := PublishRefines(CONFIG, mid, 0, "a", D, PUBLISH_FINE);
    assert PublishedFs(mid.fs, CONFIG.maxLinks, "a", D, PUBLISH_FINE) == s'.fs by {
      assert s'.fs.nodes == s.fs.nodes[s.fs.next := MASTER];
    }
    assert At(mid, 0, s'.fs, Idle) == s';
    Joined(CONFIG, s, head, mid, tail, s');
    acts := head + tail;
  }

  // Both collectors stat the slot; the first moves it, and finds the cooldown over.
  const S1A := S1.(collectors := [GcMove(D, 0, 0), GcIdle])
  const S1B := S1.(collectors := [GcMove(D, 0, 0), GcMove(D, 0, 0)])
  const S1C := S1.(fs := FS2, collectors := [GcIdle, GcMove(D, 0, 0)], origin := map[ENTRY := 2])
  const S1D := S1C.(clock := 600_000)

  lemma Stats()
    ensures Enabled(CONFIG, S1, GcScanObject(0, D, 0)) && Next(CONFIG, S1, GcScanObject(0, D, 0)) == S1A
    ensures Enabled(CONFIG, S1A, GcScanObject(1, D, 0)) && Next(CONFIG, S1A, GcScanObject(1, D, 0)) == S1B
  {
    assert FS1.NamesOf(2) == {SLOT};
  }

  lemma FirstMove()
    ensures Enabled(CONFIG, S1B, GcAct(0)) && Next(CONFIG, S1B, GcAct(0)) == S1C
  {
    assert FS1.Rename(SLOT, ENTRY).names == FS2.names;
  }

  lemma Cooled()
    ensures Enabled(CONFIG, S1C, Tick(600_000)) && Next(CONFIG, S1C, Tick(600_000)) == S1D
    ensures Enabled(CONFIG, S1D, GcScanEntry(0, D, 0, 0)) && Next(CONFIG, S1D, GcScanEntry(0, D, 0, 0)) == S2
  {
    assert FS2.NamesOf(2) == {ENTRY};
  }

  lemma Collecting() returns (acts: seq<Action>)
    ensures Reaches(CONFIG, S1, acts, S2)
  {
    hide Next, Enabled;
    Stay(CONFIG, S1);
    Stats();
    FirstMove();
    Cooled();
    hide Reaches;
    acts := Then(CONFIG, S1, [], S1, GcScanObject(0, D, 0));
    acts := Then(CONFIG, S1, acts, S1A, GcScanObject(1, D, 0));
    acts := Then(CONFIG, S1, acts, S1B, GcAct(0));
    acts := Then(CONFIG, S1, acts, S1C, Tick(600_000));
    acts := Then(CONFIG, S1, acts, S1D, GcScanEntry(0, D, 0, 0));
  }

  lemma Linking() returns (acts: seq<Action>)
    ensures Reaches(CONFIG, S3, acts, S4)
  {
    Well3();
    var begin := Begin(0, "b", false);
    Stay(CONFIG, S3);
    var head := Then(CONFIG, S3, [], S3, begin);
    var mid := Next(CONFIG, S3, begin);
    hide Reaches;
    var tail := LinkRefines(CONFIG, mid, 0, "b", D, FINE);
    Linked4();
    assert At(mid, 0, FS4, Idle) == S4;
    Joined(CONFIG, S3, head, mid, tail, S4);
    acts := head + tail;
  }

  lemma Linked4()
    ensures FS3.Valid() && LinkedFs(FS3, 1_000, "b", D, FINE) == FS4
  {
    assert FS3.NamesOf(3) == {SLOT};
    assert OpenIndex(FS3, 1_000, D, 0) == 0;
    assert AcquiredFs(FS3, 1_000, D) == FS3;
    var linked := FS3.Link(SLOT, TmpLink("b"));
    assert linked.Rename(TmpLink("b"), B).names == FS4.names;
  }

  lemma Moving() returns (acts: seq<Action>)
    ensures Reaches(CONFIG, S4, acts, S5)
  {
    Stay(CONFIG, S4);
    hide Reaches;
    acts := Then(CONFIG, S4, [], S4, GcAct(1));
    assert FS4.Rename(SLOT, ENTRY).names == FS5.names;
    assert Next(CONFIG, S4, GcAct(1)) == S5;
  }

  /** What is reached in steps is passed through by a run. */
  lemma {:induction false} Passed(c: Config, s: State, acts: seq<Action>, s': State) returns (states: seq<State>)
    requires Reaches(c, s, acts, s')
    ensures Moves(c, states, acts) && states[0] == s && states[|acts|] == s'
    decreases |acts|
  {
    if acts == [] {
      states := [s];
    } else {
      var rest := Passed(c, Next(c, s, acts[0]), acts[1..], s');
      states := [s] + rest;
      forall n | 0 <= n < |acts| ensures Steps(c, states[n], acts[n], states[n + 1]) {
        if n > 0 {
          assert Steps(c, rest[n - 1], acts[1..][n - 1], rest[n]);
        }
      }
    }
  }

  lemma StartOk()
    ensures Init(CONFIG, S0)
  {
  }

  lemma EndIsUnsafe()
    ensures Purges(S5, GcAct(0)) && Entry(S5.collectors[0]) == ENTRY
    ensures ENTRY in FS5.names && FS5.LinksAt(ENTRY) == 2 && B in FS5.names && FS5.names[B] == FS5.names[ENTRY]
  {
    assert FS5.NamesOf(3) == {ENTRY, B};
  }

  lemma Reached() returns (acts: seq<Action>)
    ensures Reaches(CONFIG, S0, acts, S5)
  {
    hide Reaches, WellFormed, Next;
    Well0();
    Well2();
    var a := Publishing(S0, S1);
    var b := Collecting();
    Joined(CONFIG, S0, a, S1, b, S2);
    acts := Publishing(S2, S3);
    Joined(CONFIG, S0, a + b, S2, acts, S3);
    acts := a + b + acts;
    var f := Linking();
    Joined(CONFIG, S0, acts, S3, f, S4);
    acts := acts + f;
    var g := Moving();
    Joined(CONFIG, S0, acts, S4, g, S5);
    acts := acts + g;
  }

  /** From an empty store the system can come to a state in which a collector is about to purge a
      quarantine entry that is one of two names of its file. */
  lemma ReusedNamePurgesLinkedSlot() returns (states: seq<State>, acts: seq<Action>)
    ensures Run(CONFIG, states, acts)
    ensures var end := states[|acts|];
      && Purges(end, GcAct(0)) && Entry(end.collectors[0]) == ENTRY
      && ENTRY in end.fs.names && end.fs.LinksAt(ENTRY) == 2
      && B in end.fs.names && end.fs.names[B] == end.fs.names[ENTRY]
  {
    hide Reaches, Init;
    StartOk();
    acts := Reached();
    states := Passed(CONFIG, S0, acts, S5);
    EndIsUnsafe();
  }
}
