/** What holds in every state of every run of the store. */
module EngineTheorems {
  import opened DbFormat
  import opened Versions
  import opened VersionBuilder
  import opened Store
  import opened StoreView
  import opened History
  import opened Engine
  import opened EngineStructure
  import opened EngineRecovery
  import opened EngineMeaning

  //////////////////////////////////////////////////////////////////////////////
  // Steps keep the invariants.

  lemma AllEmpty(v: Levels)
    requires |v| == NUM_LEVELS && forall l :: 0 <= l < NUM_LEVELS ==> v[l] == []
    ensures GoodVersion(map[], v) && Recency(map[], v)
    ensures forall l :: 0 <= l < |v| ==> DistinctNumbers(v[l])
  {
  }

  lemma NothingStored(v: Levels)
    requires forall l :: 0 <= l < |v| ==> v[l] == []
    ensures FileEntries(map[], v) == iset{}
  {
    assert forall e :: !Stored(map[], v, e);
  }

  /** The manifest of a new database: both records add no file. */
  lemma EmptyDatabase(v: Levels, snap: Edit, edit: Edit)
    requires |v| == NUM_LEVELS && forall l :: 0 <= l < NUM_LEVELS ==> v[l] == []
    requires NeverReAdded(EmptyLevels, [snap, edit]) && ReplayEach(EmptyLevels, [snap, edit]) == v
    requires forall l, f :: !AddedAt(snap.added, l, f)
    requires edit == Edit(Some(3), Some(4), Some(0), {}, [])
    ensures ManifestOk([snap, edit], v, 3, 4, {}) && LastSequenceOf([snap, edit]) == Some(0)
  {
    forall p ensures p !in snap.added {
      assert !AddedAt(snap.added, p.level, p.file);
    }
  }

  lemma EmptyManifest(v: Levels, snap: Edit, edit: Edit)
    requires SortedLevels(v) && v == EmptyLevels && forall l :: 0 <= l < NUM_LEVELS ==> v[l] == []
    requires forall l :: 0 <= l < |v| ==> DistinctNumbers(v[l])
    requires snap == SnapshotEdit(v) && edit.added == [] && edit.deleted == {}
    ensures NeverReAdded(EmptyLevels, [snap, edit]) && ReplayEach(EmptyLevels, [snap, edit]) == v
    ensures forall l, f :: !AddedAt(snap.added, l, f)
  {
    SnapshotEditSpec(v);
    SnapshotRebuilds(v);
    NoOpEdit(v, edit);
    NewManifest(v, snap, edit, []);
  }

  lemma InitStructure(s: State)
    requires Init(s)
    ensures Structure(s) && Meaningful(s)
  {
    assert forall l :: 0 <= l < NUM_LEVELS ==> s.levels[l] == [];
    AllEmpty(s.levels);
    NothingStored(s.levels);
    var snap, edit := s.manifest[0], s.manifest[1];
    EmptyManifest(s.levels, snap, edit);
    EmptyDatabase(s.levels, snap, edit);
    assert s.manifest == [snap, edit];
    InitFits(s);
  }

  lemma InitFits(s: State)
    requires |s.levels| == NUM_LEVELS && forall l :: 0 <= l < NUM_LEVELS ==> s.levels[l] == []
    requires GoodVersion(s.tables, s.levels) && Recency(s.tables, s.levels) && FileEntries(s.tables, s.levels) == iset{}
    requires LastSequenceOf(s.manifest) == Some(0)
    requires s.history == [] && s.memStart == s.flushed == s.floor == s.lastSeq == 0 && s.mem == iset{}
    requires s.logs == map[3 := []] && s.logfile == s.logNumber == 3 && s.nextFile == 4
    requires s.imm.None? && s.inflight.None? && s.flushing.None? && s.running.None? && s.snapshots == []
    requires s.pending == {} && s.pinned == multiset{}
    ensures VersionsOk(s) && LogsOk(s) && HistoryOk(s) && RunningOk(s) && SnapshotsOk(s) && Meaningful(s)
  {
    assert s.history[s.memStart..] == [] && s.history[..s.flushed] == [];
    assert forall e :: !InLog([], e);
    assert s.mem == LogEntries(s.history[s.memStart..]) + Inserted(s.inflight);
    assert LogEntries([]) == iset{};
  }

  lemma StructureNext(s: State, step: Step, s': State)
    requires Structure(s) && Next(s, step, s')
    ensures Structure(s')
  {
    match step
    case AppendLog(b) => AppendStructure(s, b, s');
    case InsertOne => InsertStructure(s, s');
    case Publish => PublishStructure(s, s');
    case SwitchMemTable => SwitchStructure(s, s');
    case BeginFlush => AllocateStructure(s, s');
    case Allocate => AllocateStructure(s, s');
    case WriteTable(n, t) => WriteTableStructure(s, n, t, s');
    case InstallFlush(f, level) => FlushStructure(s, f, level, s');
    case InstallEmptyFlush => EmptyFlushStructure(s, s');
    case BeginCompaction(job) => BeginCompactionStructure(s, job, s');
    case InstallCompaction(outs, input) => CompactionStructure(s, outs, input, s');
    case DeleteObsolete => DeleteObsoleteStructure(s, s');
    case TakeSnapshot => SnapshotsChange(s, 0, s');
    case ReleaseSnapshot(i) => SnapshotsChange(s, i, s');
    case Pin => PinStructure(s, s.levels, s');
    case Unpin(v) => PinStructure(s, v, s');
    case Reopen(order, chunks, added, tables', newLog) =>
      ReopenStructure(s, order, chunks, added, tables', newLog, s');
  }

  /** A compaction that is about to start cuts cleanly. */
  ghost predicate CleanStep(s: State, step: Step) {
    step.BeginCompaction? ==> CleanCut(s.levels, step.job)
  }

  lemma SameMeaning(s: State, s': State)
    requires Meaningful(s) && s'.flushed <= |s'.history|
    requires s'.tables == s.tables && s'.levels == s.levels && s'.running == s.running && s'.floor == s.floor
    requires s'.flushed == s.flushed && s'.history[..s.flushed] == s.history[..s.flushed]
    ensures Meaningful(s')
  {
  }

  lemma MeaningfulNext(s: State, step: Step, s': State)
    requires Structure(s) && Meaningful(s) && Next(s, step, s') && CleanStep(s, step)
    ensures Meaningful(s')
  {
    match step
    case WriteTable(n, t) => WriteTableMeaning(s, n, t, s');
    case InstallFlush(f, level) => FlushMeaning(s, f, level, s');
    case InstallEmptyFlush => EmptyFlushMeaning(s, s');
    case BeginCompaction(job) => BeginCompactionMeaning(s, job, s');
    case InstallCompaction(outs, input) => CompactionMeaning(s, outs, input, s');
    case DeleteObsolete => DeleteObsoleteMeaning(s, s');
    case Reopen(order, chunks, added, tables', newLog) =>
      ReopenMeaning(s, order, chunks, added, tables', newLog, s');
    case Publish =>
      assert s'.history[..s.flushed] == s.history[..s.flushed];
      SameMeaning(s, s');
    case _ =>
      SameMeaning(s, s');
  }

  //////////////////////////////////////////////////////////////////////////////
  // Runs.

  ghost predicate IsRun(states: seq<State>, steps: seq<Step>) {
    && |states| == |steps| + 1
    && Init(states[0])
    && forall i :: 0 <= i < |steps| ==> Next(states[i], steps[i], states[i + 1])
  }

  ghost predicate CleanRun(states: seq<State>, steps: seq<Step>) {
    IsRun(states, steps) && forall i :: 0 <= i < |steps| ==> CleanStep(states[i], steps[i])
  }

  lemma {:induction false} RunStructure(states: seq<State>, steps: seq<Step>, i: nat)
    requires IsRun(states, steps) && i < |states|
    ensures Structure(states[i])
  {
    if i == 0 {
      InitStructure(states[0]);
    } else {
      RunStructure(states, steps, i - 1);
      StructureNext(states[i - 1], steps[i - 1], states[i]);
    }
  }

  lemma BothNext(s: State, step: Step, s': State)
    requires Structure(s) && Meaningful(s) && Next(s, step, s') && CleanStep(s, step)
    ensures Structure(s') && Meaningful(s')
  {
    StructureNext(s, step, s');
    MeaningfulNext(s, step, s');
  }

  lemma {:induction false} RunMeaningful(states: seq<State>, steps: seq<Step>, i: nat)
    requires CleanRun(states, steps) && i < |states|
    ensures Structure(states[i]) && Meaningful(states[i])
  {
    if i == 0 {
      InitStructure(states[0]);
    } else {
      RunMeaningful(states, steps, i - 1);
      BothNext(states[i - 1], steps[i - 1], states[i]);
    }
  }

  /** In every run, whatever keys the compactions cut, levels 1 to 6 stay sorted and disjoint, so the
      overlap assertions of the builder can never fire. */
  lemma LevelsNeverOverlap(states: seq<State>, steps: seq<Step>, i: nat)
    requires IsRun(states, steps) && i < |states|
    ensures LevelsSorted(states[i].levels)
  {
    RunStructure(states, steps, i);
    GoodIsSorted(states[i].tables, states[i].levels);
  }

  /** In every run the tables of the current version, of versions held by readers and of the running
      compaction's input version are on disk with the contents their metadata describes. */
  lemma LiveTablesSurvive(states: seq<State>, steps: seq<Step>, i: nat, v: Levels)
    requires IsRun(states, steps) && i < |states|
    requires || v == states[i].levels || v in states[i].pinned
             || (states[i].running.Some? && v == states[i].running.value.base)
    ensures AllBacked(states[i].tables, v)
  {
    RunStructure(states, steps, i);
    if v in states[i].pinned {
      assert Held(states[i].tables, v, states[i].nextFile, states[i].pending);
    }
  }

  /** In every run, replaying the manifest rebuilds exactly the current file lists, a next file number
      above all of them, and the current log number. */
  lemma ManifestIsCurrent(states: seq<State>, steps: seq<Step>, i: nat)
    requires IsRun(states, steps) && i < |states|
    ensures ReplayOnce(EmptyLevels, states[i].manifest) == states[i].levels
    ensures LastLog(states[i].manifest) == Some(states[i].logNumber)
    ensures LastNext(states[i].manifest).Some?
    ensures forall l, f :: 0 <= l < NUM_LEVELS && f in states[i].levels[l] ==>
            f.number < LastNext(states[i].manifest).value
  {
    RunStructure(states, steps, i);
    ReplayOnceIsReplayEach(EmptyLevels, states[i].manifest);
  }

  //////////////////////////////////////////////////////////////////////////////
  // What readers see.

  /** Everything a reader can reach: memtable, immutable memtable and files. */
  ghost function DbEntries(s: State): iset<Entry> {
    FileEntries(s.tables, s.levels) + (if s.imm.Some? then s.imm.value else iset{}) + s.mem
  }

  lemma InFlightIsInvisible(s: State, e: Entry)
    requires LogsOk(s) && e in Inserted(s.inflight)
    ensures e.sn > s.lastSeq && InLog(LoggedHistory(s), e)
  {
    var b := s.inflight.value.batch;
    assert InBatch(b, e) && b in [b];
    InLogConcat(s.history, [b], e);
  }

  lemma DbEntriesAre(s: State)
    requires LogsOk(s)
    ensures DbEntries(s) == FileEntries(s.tables, s.levels) + LogEntries(s.history[s.flushed..]) + Inserted(s.inflight)
  {
    assert s.history[s.flushed..] == s.history[s.flushed..s.memStart] + s.history[s.memStart..];
    LogEntriesConcat(s.history[s.flushed..s.memStart], s.history[s.memStart..]);
    if s.imm.None? {
      assert s.history[s.flushed..s.memStart] == [];
      assert forall e :: !InLog([], e);
    }
  }

  /** A reader at the last sequence, or at any snapshot still held, sees for every key exactly what the
      acknowledged writes up to that sequence say; it never sees part of a group in flight. */
  lemma ReaderSeesHistory(s: State, k: UserKey, t: nat)
    requires Structure(s) && Meaningful(s) && s.floor <= t <= s.lastSeq
    ensures View(DbEntries(s), k, t) == View(LogEntries(s.history), k, t)
  {
    var stored, h := FileEntries(s.tables, s.levels), s.history;
    DbEntriesAre(s);
    StoredUnique(s);
    SameViewsExtend(stored, h, s.flushed, |h|, s.floor);
    assert h[s.flushed..|h|] == h[s.flushed..] && h[..|h|] == h;
    var settled := stored + LogEntries(h[s.flushed..]);
    LoggedContiguous(s);
    HistoryUnique(LoggedHistory(s));
    LogEntriesConcat(h, if s.inflight.Some? then [s.inflight.value.batch] else []);
    assert h == h[..s.flushed] + h[s.flushed..];
    LogEntriesConcat(h[..s.flushed], h[s.flushed..]);
    forall e | e in Inserted(s.inflight) ensures !Visible(e, k, t) && e in LogEntries(LoggedHistory(s)) {
      InFlightIsInvisible(s, e);
    }
    UniqueSubset(LogEntries(LoggedHistory(s)), settled + Inserted(s.inflight));
    SameWithoutInvisible(settled, Inserted(s.inflight), k, t);
  }

  /** In every clean run, every reader sees the history. */
  lemma EveryReadIsRight(states: seq<State>, steps: seq<Step>, i: nat, k: UserKey, t: nat)
    requires CleanRun(states, steps) && i < |states|
    requires t == states[i].lastSeq || t in states[i].snapshots
    ensures View(DbEntries(states[i]), k, t) == View(LogEntries(states[i].history), k, t)
  {
    RunMeaningful(states, steps, i);
    ReaderSeesHistory(states[i], k, t);
  }

  /** The answer of DBImpl::Get: the memtable, then the immutable one, then the files; the first that
      has a visible entry decides. */
  ghost function LayeredGet(s: State, k: UserKey, t: nat): Option<Bytes> {
    if exists e :: e in s.mem && Visible(e, k, t) then View(s.mem, k, t)
    else if s.imm.Some? && exists e :: e in s.imm.value && Visible(e, k, t) then View(s.imm.value, k, t)
    else View(FileEntries(s.tables, s.levels), k, t)
  }

  /** A newer layer with a visible entry decides for the whole. */
  lemma UpperLayerWins(upper: iset<Entry>, lower: iset<Entry>, k: UserKey, t: nat)
    requires UniqueSeqs(upper + lower)
    requires forall e, d :: e in upper && d in lower ==> d.sn < e.sn
    ensures (exists e :: e in upper && Visible(e, k, t)) ==> View(upper + lower, k, t) == View(upper, k, t)
    ensures !(exists e :: e in upper && Visible(e, k, t)) ==> View(upper + lower, k, t) == View(lower, k, t)
  {
    if e :| e in upper && Visible(e, k, t) {
      var n := NewestExists(upper, k, t, e);
      ViewIs(upper, k, t, n);
      ViewIs(upper + lower, k, t, n);
    } else {
      assert upper + lower == lower + upper;
      SameWithoutInvisible(lower, upper, k, t);
    }
  }

  /** Memtable entries are newer than immutable ones, and those newer than all files. */
  lemma LayersDescend(s: State)
    requires LogsOk(s) && HistoryOk(s)
    ensures UniqueSeqs(DbEntries(s))
    ensures forall e, d :: e in s.mem && d in FileEntries(s.tables, s.levels) ==> d.sn < e.sn
    ensures s.imm.Some? ==> forall e, d :: e in s.mem && d in s.imm.value ==> d.sn < e.sn
    ensures s.imm.Some? ==> forall e, d :: e in s.imm.value && d in FileEntries(s.tables, s.levels) ==> d.sn < e.sn
  {
    MemIsNewest(s);
    assert s.history[..s.memStart] == s.history[..s.flushed] + s.history[s.flushed..s.memStart];
    LogEntriesConcat(s.history[..s.flushed], s.history[s.flushed..s.memStart]);
    LoggedContiguous(s);
    if s.imm.Some? {
      forall e, d | e in s.imm.value && d in FileEntries(s.tables, s.levels) ensures d.sn < e.sn {
        UnflushedIsNewer(s.history, s.flushed, s.memStart, e, d);
      }
    }
    LayersAreLogged(s);
  }

  lemma MemIsNewest(s: State)
    requires LogsOk(s) && HistoryOk(s)
    ensures s.flushed <= s.memStart <= |s.history|
    ensures forall e, d :: e in s.mem && d in LogEntries(s.history[..s.memStart]) ==> d.sn < e.sn
  {
    var all := LoggedHistory(s);
    LoggedContiguous(s);
    assert all[..s.memStart] == s.history[..s.memStart] && all[s.memStart..|all|] == all[s.memStart..];
    forall e, d | e in s.mem && d in LogEntries(s.history[..s.memStart]) ensures d.sn < e.sn {
      MemIsLogged(s, e);
      UnflushedIsNewer(all, s.memStart, |all|, e, d);
    }
  }

  lemma LayersAreLogged(s: State)
    requires LogsOk(s) && HistoryOk(s)
    ensures UniqueSeqs(DbEntries(s))
  {
    var h, all := s.history, LoggedHistory(s);
    LoggedContiguous(s);
    assert h[..s.memStart] == h[..s.flushed] + h[s.flushed..s.memStart];
    LogEntriesConcat(h[..s.flushed], h[s.flushed..s.memStart]);
    forall e | e in s.mem ensures InLog(all[s.memStart..], e) {
      MemIsLogged(s, e);
    }
    HistoryUnique(all);
    assert all == h[..s.memStart] + all[s.memStart..];
    LogEntriesConcat(h[..s.memStart], all[s.memStart..]);
    UniqueSubset(LogEntries(all), DbEntries(s));
  }

  lemma MemIsLogged(s: State, e: Entry)
    requires LogsOk(s) && e in s.mem
    ensures InLog(LoggedHistory(s)[s.memStart..], e)
  {
    var more := if s.inflight.Some? then [s.inflight.value.batch] else [];
    assert LoggedHistory(s)[s.memStart..] == s.history[s.memStart..] + more;
    InLogConcat(s.history[s.memStart..], more, e);
    if e in Inserted(s.inflight) {
      assert s.inflight.value.batch in more && InBatch(s.inflight.value.batch, e);
    }
  }

  /** Looking layer by layer gives the newest visible entry over everything. */
  lemma LayeredGetIsView(s: State, k: UserKey, t: nat)
    requires LogsOk(s) && HistoryOk(s)
    ensures LayeredGet(s, k, t) == View(DbEntries(s), k, t)
  {
    LayersDescend(s);
    var files := FileEntries(s.tables, s.levels);
    if s.imm.Some? {
      var lower := s.imm.value + files;
      assert DbEntries(s) == s.mem + lower;
      UniqueSubset(DbEntries(s), lower);
      UpperLayerWins(s.mem, lower, k, t);
      UpperLayerWins(s.imm.value, files, k, t);
    } else {
      assert DbEntries(s) == s.mem + files;
      UpperLayerWins(s.mem, files, k, t);
    }
  }

  /** End to end, in every clean run: what Get answers is what the acknowledged writes say. */
  lemma GetIsRight(states: seq<State>, steps: seq<Step>, i: nat, k: UserKey, t: nat)
    requires CleanRun(states, steps) && i < |states|
    requires t == states[i].lastSeq || t in states[i].snapshots
    ensures LayeredGet(states[i], k, t) == View(LogEntries(states[i].history), k, t)
  {
    RunMeaningful(states, steps, i);
    LayeredGetIsView(states[i], k, t);
    ReaderSeesHistory(states[i], k, t);
  }

  /** In every clean run a read through the last sequence or a held snapshot answers what a plain map
      holds after the operations acknowledged up to that sequence, the last one on a key deciding. */
  lemma ReadsAreMap(states: seq<State>, steps: seq<Step>, i: nat, k: UserKey, t: nat)
    requires CleanRun(states, steps) && i < |states|
    requires t == states[i].lastSeq || t in states[i].snapshots
    ensures t <= |AllOps(states[i].history)|
    ensures LayeredGet(states[i], k, t) == Lookup(Applied(AllOps(states[i].history)[..t]), k)
  {
    RunStructure(states, steps, i);
    GetIsRight(states, steps, i, k, t);
    HistoryIsMap(states[i].history, k, t);
  }

  //////////////////////////////////////////////////////////////////////////////
  // Durability.

  /** What a crash in state `s` would leave to recover: the tables of the version the manifest rebuilds
      and the batches of the logs it does not cover. */
  ghost function Recoverable(s: State, order: seq<nat>): iset<Entry>
    requires forall n :: n in order ==> n in s.logs
  {
    FileEntries(s.tables, ReplayOnce(EmptyLevels, s.manifest)) + LogEntries(ReadLogs(s.logs, order))
  }

  /** In every state of every clean run, what can be recovered means the same as all acknowledged
      writes plus, as a whole, the one group that may be in flight. */
  lemma NothingAcknowledgedIsLost(states: seq<State>, steps: seq<Step>, i: nat, order: seq<nat>, k: UserKey, t: nat)
    requires CleanRun(states, steps) && i < |states| && t >= states[i].floor
    requires RecoveryOrder(states[i].logs, states[i].logNumber, order)
    ensures View(Recoverable(states[i], order), k, t) == View(LogEntries(LoggedHistory(states[i])), k, t)
  {
    var s := states[i];
    RunMeaningful(states, steps, i);
    RecoverableView(s, order, k, t);
  }

  lemma RecoverableView(s: State, order: seq<nat>, k: UserKey, t: nat)
    requires Structure(s) && Meaningful(s) && t >= s.floor && RecoveryOrder(s.logs, s.logNumber, order)
    ensures View(Recoverable(s, order), k, t) == View(LogEntries(LoggedHistory(s)), k, t)
  {
    var h := LoggedHistory(s);
    RecoverableIs(s, order);
    LoggedContiguous(s);
    StoredUnique(s);
    SameViewsExtend(FileEntries(s.tables, s.levels), h, s.flushed, |h|, s.floor);
    assert h[s.flushed..|h|] == h[s.flushed..] && h[..|h|] == h;
  }

  lemma RecoverableIs(s: State, order: seq<nat>)
    requires Structure(s) && RecoveryOrder(s.logs, s.logNumber, order)
    ensures s.flushed <= |LoggedHistory(s)|
    ensures Recoverable(s, order) == FileEntries(s.tables, s.levels) + LogEntries(LoggedHistory(s)[s.flushed..])
  {
    ReplayOnceIsReplayEach(EmptyLevels, s.manifest);
    RecoveredBatches(s, order);
  }

  /** Reopening after a crash: the history is all acknowledged writes and at most the one whole group in
      flight, readers see it, and later writes get larger sequence numbers than everything in it. */
  lemma ReopenRestores(states: seq<State>, steps: seq<Step>, i: nat, k: UserKey)
    requires CleanRun(states, steps) && i < |steps| && steps[i].Reopen?
    ensures states[i + 1].history == LoggedHistory(states[i])
    ensures View(DbEntries(states[i + 1]), k, states[i + 1].lastSeq) ==
            View(LogEntries(LoggedHistory(states[i])), k, states[i + 1].lastSeq)
    ensures states[i + 1].lastSeq == End(LoggedHistory(states[i])) >= states[i].lastSeq
    ensures forall e :: InLog(LoggedHistory(states[i]), e) ==> e.sn <= states[i + 1].lastSeq
  {
    var s, s' := states[i], states[i + 1];
    assert Next(s, steps[i], s');
    RunMeaningful(states, steps, i + 1);
    ReaderSeesHistory(s', k, s'.lastSeq);
    forall e | InLog(s'.history, e) ensures e.sn <= s'.lastSeq {
      SeqInRange(s'.history, e);
    }
    assert s'.lastSeq == End(s'.history);
    RunStructure(states, steps, i);
    LoggedContiguous(s);
  }

  //////////////////////////////////////////////////////////////////////////////
  // Snapshots.

  /** Without a crash the history only grows, and by sequence numbers above the last one. */
  lemma HistoryGrows(s: State, step: Step, s': State)
    requires Structure(s) && Next(s, step, s') && !step.Reopen?
    ensures s.history <= s'.history && s.lastSeq <= s'.lastSeq
  {
  }

  lemma {:induction false} HistoryGrowsAlong(states: seq<State>, steps: seq<Step>, i: nat, j: nat)
    requires IsRun(states, steps) && i <= j < |states|
    requires forall n :: i <= n < j ==> !steps[n].Reopen?
    ensures states[i].history <= states[j].history
  {
    if i < j {
      HistoryGrowsAlong(states, steps, i, j - 1);
      RunStructure(states, steps, j - 1);
      HistoryGrows(states[j - 1], steps[j - 1], states[j]);
    }
  }

  /** Later writes do not change what an older sequence number sees. */
  lemma OldViewsStay(h: seq<Batch>, h': seq<Batch>, k: UserKey, t: nat)
    requires Contiguous(h') && h <= h' && t <= End(h)
    ensures View(LogEntries(h'), k, t) == View(LogEntries(h), k, t)
  {
    var n := |h|;
    assert h'[..n] == h && h' == h + h'[n..];
    LogEntriesConcat(h, h'[n..]);
    HistoryUnique(h');
    forall e | e in LogEntries(h'[n..]) ensures !Visible(e, k, t) {
      SeqAfter(h', n, e);
    }
    SameWithoutInvisible(LogEntries(h), LogEntries(h'[n..]), k, t);
  }

  /** A snapshot reads the same in every later state in which it is still held. */
  lemma SnapshotsAreStable(states: seq<State>, steps: seq<Step>, i: nat, j: nat, k: UserKey, t: nat)
    requires CleanRun(states, steps) && i <= j < |states|
    requires forall n :: i <= n < j ==> !steps[n].Reopen?
    requires t in states[i].snapshots && t in states[j].snapshots
    ensures LayeredGet(states[i], k, t) == LayeredGet(states[j], k, t)
  {
    GetIsRight(states, steps, i, k, t);
    GetIsRight(states, steps, j, k, t);
    HistoryGrowsAlong(states, steps, i, j);
    RunStructure(states, steps, i);
    RunStructure(states, steps, j);
    OldViewsStay(states[i].history, states[j].history, k, t);
  }
}
