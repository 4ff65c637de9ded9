/** A run of the store, from a new database on, whose last compaction brings a deleted value back: a
    snapshot makes a compaction keep a value and the deletion marker above it, the outputs are cut
    between the two, and once the snapshot is released the marker is compacted alone.  The flush goes to
    level 2, where PickLevelForMemTableOutput puts it
    (db/db_impl.cpp:797-857; db/version_set.cpp:1108-1122). */
module UncleanRun {
  import opened DbFormat
  import opened Versions
  import opened VersionBuilder
  import opened CompactionPicker
  import opened CompactionWork
  import opened Store
  import opened StoreView
  import opened History
  import opened Engine
  import opened EngineStructure
  import opened EngineTheorems

  const Old := Entry(1.0, 1, Value, [7])
  const Gone := Entry(1.0, 2, Deletion, [])

  const Flushed := File(5, 1, KeyOf(Gone), KeyOf(Old))
  const GoneFile := File(6, 1, KeyOf(Gone), KeyOf(Gone))
  const OldFile := File(7, 1, KeyOf(Old), KeyOf(Old))

  const Writes := [Batch(1, [Put(1.0, [7])]), Batch(2, [Delete(1.0)])]

  const FirstJob := Job(2, [Flushed], [])
  const SecondJob := Job(3, [GoneFile], [])

  //////////////////////////////////////////////////////////////////////////////
  // Runs.

  datatype Run = Run(states: seq<State>, steps: seq<Step>) {
    ghost predicate Valid() {
      IsRun(states, steps)
    }

    ghost function Last(): State
      requires Valid()
    {
      states[|states| - 1]
    }
  }

  lemma Extend(r: Run, step: Step, s: State) returns (r': Run)
    requires r.Valid() && Next(r.Last(), step, s)
    ensures r'.Valid() && r'.Last() == s
  {
    r' := Run(r.states + [s], r.steps + [step]);
    forall i | 0 <= i < |r'.steps| ensures Next(r'.states[i], r'.steps[i], r'.states[i + 1]) {
      assert i < |r.steps| ==> Next(r.states[i], r.steps[i], r.states[i + 1]);
    }
  }

  lemma LastIsGood(r: Run)
    requires r.Valid()
    ensures Structure(r.Last())
  {
    RunStructure(r.states, r.steps, |r.states| - 1);
  }

  //////////////////////////////////////////////////////////////////////////////
  // Two writes with a snapshot between them.

  /** No write, flush or compaction is going on. */
  ghost predicate Idle(s: State) {
    s.inflight.None? && s.imm.None? && s.flushing.None? && s.running.None? && s.pending == {}
      && |s.levels| == NUM_LEVELS
  }

  lemma Write(r: Run, op: Op) returns (r': Run)
    requires r.Valid() && Idle(r.Last()) && r.Last().logfile in r.Last().logs && r.Last().lastSeq < 10
    ensures var s, b := r.Last(), Batch(r.Last().lastSeq + 1, [op]);
            r'.Valid() && r'.Last() == s.(logs := s.logs[s.logfile := s.logs[s.logfile] + [b]],
                                          mem := s.mem + iset{EntryAt(b, 0)}, lastSeq := s.lastSeq + 1,
                                          history := s.history + [b])
  {
    var s, b := r.Last(), Batch(r.Last().lastSeq + 1, [op]);
    var s1 := s.(logs := s.logs[s.logfile := s.logs[s.logfile] + [b]], inflight := Some(InFlight(b, 0)));
    var r1 := Extend(r, AppendLog(b), s1);
    var s2 := s1.(mem := s1.mem + iset{EntryAt(b, 0)}, inflight := Some(InFlight(b, 1)));
    var r2 := Extend(r1, InsertOne, s2);
    var s3 := s2.(lastSeq := s2.lastSeq + 1, inflight := None, history := s2.history + [b]);
    r' := Extend(r2, Publish, s3);
  }

  ghost predicate Written(s: State) {
    && Idle(s) && s.mem == iset{Old, Gone} && s.history == Writes && s.lastSeq == 2 && s.snapshots == [1]
    && s.tables == map[] && s.levels == EmptyLevels && s.nextFile == 4 && s.logfile in s.logs
  }

  lemma WriteBoth() returns (r: Run)
    ensures r.Valid() && Written(r.Last())
  {
    var s := State(map[], map[3 := []], [SnapshotEdit(EmptyLevels), Edit(Some(3), Some(4), Some(0), {}, [])],
                   EmptyLevels, 4, 0, 3, iset{}, None, 3, None, None, [], None, {}, multiset{}, [], 0, 0, 0);
    r := Run([s], []);
    r := Write(r, Put(1.0, [7]));
    var s1 := r.Last();
    r := Extend(r, TakeSnapshot, s1.(snapshots := s1.snapshots + [s1.lastSeq]));
    r := Write(r, Delete(1.0));
    assert iset{} + iset{Old} + iset{Gone} == iset{Old, Gone};
  }

  //////////////////////////////////////////////////////////////////////////////
  // The flush.

  /** The version lists these files on this level and nothing else. */
  ghost predicate OnlyFiles(levels: Levels, at: nat, files: set<File>) {
    && |levels| == NUM_LEVELS
    && forall l, f {:trigger f in levels[l]} :: 0 <= l < NUM_LEVELS ==> (f in levels[l] <==> l == at && f in files)
  }

  ghost predicate AfterFlush(s: State) {
    && Idle(s) && s.mem == iset{} && s.history == Writes && s.lastSeq == 2 && s.snapshots == [1]
    && s.tables == map[5 := [Gone, Old]] && OnlyFiles(s.levels, 2, {Flushed}) && s.nextFile == 6
  }

  ghost predicate Flushing(s: State) {
    && s.inflight.None? && s.running.None? && s.imm == Some(iset{Old, Gone}) && s.flushing == Some(5)
    && s.pending == {5} && s.mem == iset{} && s.history == Writes && s.lastSeq == 2 && s.snapshots == [1]
    && s.tables == map[5 := [Gone, Old]] && s.levels == EmptyLevels && s.nextFile == 6
  }

  lemma BeginFlushing(r: Run) returns (r': Run)
    requires r.Valid() && Written(r.Last())
    ensures r'.Valid() && Flushing(r'.Last())
  {
    var s := r.Last();
    var s1 := s.(logs := s.logs[s.nextFile := []], logfile := s.nextFile, nextFile := s.nextFile + 1,
                 imm := Some(s.mem), mem := iset{}, memStart := |s.history|);
    r' := Extend(r, SwitchMemTable, s1);
    var s2 := s1.(flushing := Some(s1.nextFile), nextFile := s1.nextFile + 1, pending := s1.pending + {s1.nextFile});
    r' := Extend(r', BeginFlush, s2);
    r' := Extend(r', WriteTable(5, [Gone, Old]), s2.(tables := s2.tables[5 := [Gone, Old]]));
  }

  lemma NoFiles()
    ensures |EmptyLevels| == NUM_LEVELS && forall l :: 0 <= l < NUM_LEVELS ==> EmptyLevels[l] == []
  {
  }

  lemma FlushBoth(r: Run) returns (r': Run)
    requires r.Valid() && Written(r.Last())
    ensures r'.Valid() && AfterFlush(r'.Last())
  {
    var r1 := BeginFlushing(r);
    LastIsGood(r1);
    var s' := InstallBoth(r1.Last());
    FlushStructure(r1.Last(), Flushed, 2, s');
    FlushedLevels(s'.levels);
    r' := Extend(r1, InstallFlush(Flushed, 2), s');
  }

  lemma InstallBoth(s: State) returns (s': State)
    requires Flushing(s)
    ensures InstallFlushStep(s, Flushed, 2, s') && s'.pending == {}
  {
    NoFiles();
    TwoEntries(s.tables);
    var edit := FlushEdit(s, [Placed(2, Flushed)]);
    s' := s.(levels := ApplyEdit(s.levels, edit), manifest := s.manifest + [edit], logNumber := s.logfile,
             imm := None, flushing := None, pending := s.pending - {5}, flushed := s.memStart);
  }

  lemma FlushedLevels(levels: Levels)
    requires AddsFile(EmptyLevels, levels, 2, Flushed)
    ensures OnlyFiles(levels, 2, {Flushed})
  {
    NoFiles();
  }

  lemma TwoEntries(tables: Tables)
    requires tables == map[5 := [Gone, Old]]
    ensures Backed(tables, Flushed) && forall e :: InFile(tables, Flushed, e) <==> e in iset{Old, Gone}
  {
    assert tables[5][0] == Gone && tables[5][1] == Old;
  }

  //////////////////////////////////////////////////////////////////////////////
  // The first compaction, with the snapshot held.

  ghost predicate AfterSplit(s: State) {
    && Idle(s) && s.mem == iset{} && s.history == Writes && s.lastSeq == 2 && s.snapshots == [1]
    && 6 in s.tables && s.tables[6] == [Gone] && 7 in s.tables && s.tables[7] == [Old]
    && OnlyFiles(s.levels, 3, {GoneFile, OldFile})
  }

  lemma FirstJobIsSelected(levels: Levels)
    requires OnlyFiles(levels, 2, {Flushed})
    ensures Selected(levels, FirstJob)
  {
    NoGapOne(Flushed);
    assert FirstJob.in0 + FirstJob.in1 == [Flushed];
  }

  lemma BeginFirst(r: Run) returns (r': Run)
    requires r.Valid() && AfterFlush(r.Last())
    ensures r'.Valid()
    ensures var s, t := r.Last(), r'.Last();
            t == s.(running := Some(Running(FirstJob, s.levels, 1)), nextFile := 8, pending := {6, 7},
                    tables := map[5 := [Gone, Old], 6 := [Gone], 7 := [Old]])
  {
    var s := r.Last();
    FirstJobIsSelected(s.levels);
    var s1 := s.(running := Some(Running(FirstJob, s.levels, SmallestSnapshot(s))));
    r' := Extend(r, BeginCompaction(FirstJob), s1);
    var s2 := s1.(nextFile := 7, pending := s1.pending + {6});
    r' := Extend(r', Allocate, s2);
    var s3 := s2.(nextFile := 8, pending := s2.pending + {7});
    r' := Extend(r', Allocate, s3);
    var s4 := s3.(tables := s3.tables[6 := [Gone]]);
    r' := Extend(r', WriteTable(6, [Gone]), s4);
    var s5 := s4.(tables := s4.tables[7 := [Old]]);
    r' := Extend(r', WriteTable(7, [Old]), s5);
    assert {} + {6} + {7} == {6, 7};
  }

  /** The snapshot lies between the two entries, so both are kept. */
  lemma BothAreKept(levels: Levels)
    ensures Kept([Gone, Old], 2, 1, levels, 2) == [Gone, Old]
  {
    assert !Dropped([Gone, Old], 0, 1, levels, 2) && !Dropped([Gone, Old], 1, 1, levels, 2);
    assert Kept([Gone, Old], 1, 1, levels, 2) == [Gone];
  }

  lemma FirstOutputs(tables: Tables, levels: Levels)
    requires tables == map[5 := [Gone, Old], 6 := [Gone], 7 := [Old]]
    ensures IsMergeOf(tables, FirstJob, [Gone, Old])
    ensures Outputs(tables, [GoneFile, OldFile], Kept([Gone, Old], 2, 1, levels, 2))
  {
    assert FirstJob.in0 + FirstJob.in1 == [Flushed];
    forall e ensures e in [Gone, Old] <==> exists f :: f in FirstJob.in0 + FirstJob.in1 && InFile(tables, f, e) {
      assert Flushed in FirstJob.in0 + FirstJob.in1;
      assert InFile(tables, Flushed, e) <==> e in [Gone, Old];
    }
    BothAreKept(levels);
    var outs := [GoneFile, OldFile];
    var ts := TablesOf(tables, outs);
    assert ts == [[Gone], [Old]] && ts[..1] == [[Gone]] && ts[..1][..0] == [];
    assert Concat(ts[..1]) == [Gone];
  }

  lemma SplitKey(r: Run) returns (r': Run)
    requires r.Valid() && AfterFlush(r.Last())
    ensures r'.Valid() && AfterSplit(r'.Last())
  {
    var r1 := BeginFirst(r);
    LastIsGood(r1);
    var s' := SplitStep(r.Last(), r1.Last());
    r' := Extend(r1, InstallCompaction([GoneFile, OldFile], [Gone, Old]), s');
  }

  ghost predicate FirstRunning(before: State, s: State) {
    && AfterFlush(before)
    && s == before.(running := Some(Running(FirstJob, before.levels, 1)), nextFile := 8, pending := {6, 7},
                    tables := map[5 := [Gone, Old], 6 := [Gone], 7 := [Old]])
  }

  lemma SplitStep(before: State, s: State) returns (s': State)
    requires Structure(s) && FirstRunning(before, s)
    ensures InstallCompactionStep(s, [GoneFile, OldFile], [Gone, Old], s') && AfterSplit(s')
  {
    s' := InstallFirst(before, s);
    CompactionStructure(s, [GoneFile, OldFile], [Gone, Old], s');
    FirstLevels(s.levels, s'.levels);
    NothingPending([GoneFile, OldFile], s.pending);
  }

  lemma InstallFirst(before: State, s: State) returns (s': State)
    requires FirstRunning(before, s)
    ensures InstallCompactionStep(s, [GoneFile, OldFile], [Gone, Old], s')
  {
    var outs := [GoneFile, OldFile];
    FirstOutputs(s.tables, before.levels);
    var edit := CompactionEdit(s, FirstJob, outs);
    s' := s.(levels := ApplyEdit(s.levels, edit), manifest := s.manifest + [edit], running := None,
             pending := s.pending - (set o | o in outs :: o.number), floor := if s.floor < 1 then 1 else s.floor);
  }

  lemma NothingPending(outs: seq<File>, pending: set<nat>)
    requires outs == [GoneFile, OldFile] && pending == {6, 7}
    ensures pending - (set o | o in outs :: o.number) == {}
  {
    assert GoneFile in outs && OldFile in outs;
  }

  lemma FirstLevels(levels: Levels, levels': Levels)
    requires ReplacesInputs(levels, levels', FirstJob, [GoneFile, OldFile]) && OnlyFiles(levels, 2, {Flushed})
    ensures OnlyFiles(levels', 3, {GoneFile, OldFile})
  {
  }

  lemma SecondLevels(levels: Levels, levels': Levels)
    requires ReplacesInputs(levels, levels', SecondJob, []) && OnlyFiles(levels, 3, {GoneFile, OldFile})
    ensures OnlyFiles(levels', 3, {OldFile})
  {
  }

  //////////////////////////////////////////////////////////////////////////////
  // The second compaction, without the snapshot.

  ghost predicate AfterLoss(s: State) {
    && Idle(s) && s.mem == iset{} && s.history == Writes && s.lastSeq == 2
    && 7 in s.tables && s.tables[7] == [Old] && OnlyFiles(s.levels, 3, {OldFile})
  }

  lemma SecondJobIsSelected(levels: Levels)
    requires OnlyFiles(levels, 3, {GoneFile, OldFile})
    ensures Selected(levels, SecondJob) && !CleanCut(levels, SecondJob)
  {
    NoGapOne(GoneFile);
    assert SecondJob.in0 + SecondJob.in1 == [GoneFile];
    assert GoneFile in SecondJob.in0 && OldFile in levels[3] && OldFile !in SecondJob.in0;
    assert Less(GoneFile.largest, OldFile.smallest);
  }

  lemma SecondOutputs(tables: Tables, levels: Levels)
    requires 6 in tables && tables[6] == [Gone] && OnlyFiles(levels, 3, {GoneFile, OldFile})
    ensures IsMergeOf(tables, SecondJob, [Gone]) && Outputs(tables, [], Kept([Gone], 1, 2, levels, 3))
  {
    assert SecondJob.in0 + SecondJob.in1 == [GoneFile];
    forall e ensures e in [Gone] <==> exists f :: f in SecondJob.in0 + SecondJob.in1 && InFile(tables, f, e) {
      assert GoneFile in SecondJob.in0 + SecondJob.in1;
      assert InFile(tables, GoneFile, e) <==> e in [Gone];
    }
    assert BaseLevel(levels, 3, 1.0);
    assert Dropped([Gone], 0, 2, levels, 3);
    assert TablesOf(tables, []) == [];
  }

  lemma LoseMarker(r: Run) returns (r': Run)
    requires r.Valid() && AfterSplit(r.Last())
    ensures r'.Valid() && AfterLoss(r'.Last())
  {
    var s := r.Last();
    var s1 := s.(snapshots := s.snapshots[..0] + s.snapshots[1..]);
    var r1 := Extend(r, ReleaseSnapshot(0), s1);
    SecondJobIsSelected(s1.levels);
    var s2 := s1.(running := Some(Running(SecondJob, s1.levels, SmallestSnapshot(s1))));
    var r2 := Extend(r1, BeginCompaction(SecondJob), s2);
    LastIsGood(r2);
    var s3 := LossStep(s, s2);
    r' := Extend(r2, InstallCompaction([], [Gone]), s3);
  }

  lemma LossStep(before: State, s: State) returns (s': State)
    requires Structure(s) && AfterSplit(before)
    requires s == before.(snapshots := [], running := Some(Running(SecondJob, before.levels, 2)))
    ensures InstallCompactionStep(s, [], [Gone], s') && AfterLoss(s')
  {
    SecondOutputs(s.tables, s.levels);
    var edit, none := CompactionEdit(s, SecondJob, []), [];
    s' := s.(levels := ApplyEdit(s.levels, edit), manifest := s.manifest + [edit], running := None,
             pending := s.pending - (set o: File | o in none :: o.number), floor := if s.floor < 2 then 2 else s.floor);
    assert InstallCompactionStep(s, none, [Gone], s');
    CompactionStructure(s, none, [Gone], s');
    assert s'.pending == {};
    SecondLevels(s.levels, s'.levels);
  }

  //////////////////////////////////////////////////////////////////////////////
  // What a reader sees.

  lemma HistoryDeletes()
    ensures View(LogEntries(Writes), 1.0, 2) == None
  {
    forall e ensures InLog(Writes, e) <==> e == Old || e == Gone {
      assert InBatch(Writes[0], e) <==> e == EntryAt(Writes[0], 0);
      assert InBatch(Writes[1], e) <==> e == EntryAt(Writes[1], 0);
    }
    ViewIs(LogEntries(Writes), 1.0, 2, Gone);
  }

  lemma StoreShowsOld(s: State)
    requires AfterLoss(s)
    ensures View(DbEntries(s), 1.0, 2) == Some([7])
  {
    assert InFile(s.tables, OldFile, Old) && OldFile in s.levels[3];
    forall e ensures Stored(s.tables, s.levels, e) <==> e == Old {
      assert AtLevel(s.tables, s.levels, 3, Old);
    }
    assert DbEntries(s) == iset{Old};
    ViewIs(iset{Old}, 1.0, 2, Old);
  }

  /** A run that is not clean, at the end of which the store shows a value that was deleted. */
  lemma UncleanRunReadsWrong() returns (states: seq<State>, steps: seq<Step>)
    ensures IsRun(states, steps) && !CleanRun(states, steps)
    ensures var s := states[|states| - 1];
            && View(LogEntries(s.history), 1.0, s.lastSeq) == None
            && View(DbEntries(s), 1.0, s.lastSeq) == Some([7])
  {
    var r := WriteBoth();
    r := FlushBoth(r);
    r := SplitKey(r);
    r := LoseMarker(r);
    HistoryDeletes();
    StoreShowsOld(r.Last());
    states, steps := r.states, r.steps;
    if CleanRun(states, steps) {
      EveryReadIsRight(states, steps, |states| - 1, 1.0, r.Last().lastSeq);
    }
  }
}
