/** Every step keeps the structural invariant, whatever user keys the compactions cut. */
module EngineStructure {
  import opened DbFormat
  import opened Versions
  import opened VersionBuilder
  import opened CompactionPicker
  import opened CompactionWork
  import opened Store
  import opened StoreView
  import opened History
  import opened Engine

  //////////////////////////////////////////////////////////////////////////////
  // Changing tables that a version does not list.

  ghost predicate AgreeOn(tables: Tables, tables': Tables, v: Levels) {
    forall l, f :: 0 <= l < |v| && f in v[l] && f.number in tables
      ==> f.number in tables' && tables'[f.number] == tables[f.number]
  }

  lemma AgreeBacked(tables: Tables, tables': Tables, v: Levels)
    requires AllBacked(tables, v) && AgreeOn(tables, tables', v)
    ensures AllBacked(tables', v)
    ensures forall l, f, e :: 0 <= l < |v| && f in v[l] ==> (InFile(tables', f, e) <==> InFile(tables, f, e))
  {
    forall l, f | 0 <= l < |v| && f in v[l] ensures Backed(tables', f) {
      assert Backed(tables, f);
    }
    forall l, f, e | 0 <= l < |v| && f in v[l] ensures InFile(tables', f, e) <==> InFile(tables, f, e) {
      assert Backed(tables, f);
    }
  }

  lemma AgreeEntries(tables: Tables, tables': Tables, v: Levels)
    requires AllBacked(tables, v) && AgreeOn(tables, tables', v)
    ensures FileEntries(tables', v) == FileEntries(tables, v)
  {
    AgreeBacked(tables, tables', v);
    forall e ensures Stored(tables', v, e) <==> Stored(tables, v, e) {
      forall l ensures AtLevel(tables', v, l, e) <==> AtLevel(tables, v, l, e) {
      }
    }
  }

  //////////////////////////////////////////////////////////////////////////////
  // Manifest bookkeeping.

  lemma ManifestAppend(manifest: seq<Edit>, levels: Levels, logNumber: nat, nextFile: nat, pending: set<nat>,
                       edit: Edit, pending': set<nat>)
    requires ManifestOk(manifest, levels, logNumber, nextFile, pending) && |levels| == NUM_LEVELS
    requires edit.logNumber.Some? && edit.logNumber.value < nextFile && edit.nextFile == Some(nextFile)
    requires forall l :: 0 <= l < NUM_LEVELS ==> Fresh(edit.added, l, [])
    requires forall p :: p in edit.added ==> p.file.number in pending && p.file.number !in pending'
    requires forall n :: n in pending ==> n < nextFile
    requires pending' <= pending
    requires forall l, f :: 0 <= l < NUM_LEVELS && f in ApplyEdit(levels, edit)[l] ==> f.number < nextFile
    ensures ManifestOk(manifest + [edit], ApplyEdit(levels, edit), edit.logNumber.value, nextFile, pending')
  {
    var more := manifest + [edit];
    assert more[..|more| - 1] == manifest;
    forall i, l | 0 <= i < |more| && 0 <= l < NUM_LEVELS ensures AddsNew(EmptyLevels, more, i, l) {
      if i < |manifest| {
        assert more[..i] == manifest[..i];
        assert AddsNew(EmptyLevels, manifest, i, l);
      } else {
        assert more[..i] == manifest;
        PendingIsUnused(manifest, levels, logNumber, nextFile, pending, edit, l);
      }
    }
  }

  lemma PendingIsUnused(manifest: seq<Edit>, levels: Levels, logNumber: nat, nextFile: nat, pending: set<nat>,
                        edit: Edit, l: nat)
    requires ManifestOk(manifest, levels, logNumber, nextFile, pending) && l < NUM_LEVELS
    requires forall p :: p in edit.added ==> p.file.number in pending
    ensures forall n :: NumberAddedAt(edit.added, l, n) ==> !UsedAt(EmptyLevels, manifest, l, n)
  {
    forall n | NumberAddedAt(edit.added, l, n) ensures !UsedAt(EmptyLevels, manifest, l, n) {
      var f :| AddedAt(edit.added, l, f) && f.number == n;
      forall e, g | e in manifest && AddedAt(e.added, l, g) ensures g.number != n {
        assert Placed(l, g) in e.added;
      }
      assert EmptyLevels[l] == [];
    }
  }

  //////////////////////////////////////////////////////////////////////////////
  // Flush.

  lemma FlushVersions(s: State, f: File, level: nat, s': State)
    requires VersionsOk(s) && InstallFlushStep(s, f, level, s')
    ensures VersionsOk(s') && AddsFile(s.levels, s'.levels, level, f)
  {
    FlushMembers(s.levels, FlushEdit(s, [Placed(level, f)]), level, f);
    FlushKeepsGood(s.tables, s.levels, s'.levels, level, f);
  }

  lemma FlushManifest(s: State, f: File, level: nat, s': State)
    requires VersionsOk(s) && ManifestOk(s.manifest, s.levels, s.logNumber, s.nextFile, s.pending)
    requires s.logfile < s.nextFile && InstallFlushStep(s, f, level, s') && VersionsOk(s')
    ensures ManifestOk(s'.manifest, s'.levels, s'.logNumber, s'.nextFile, s'.pending)
  {
    var edit := FlushEdit(s, [Placed(level, f)]);
    assert forall p :: p in edit.added ==> p == Placed(level, f);
    ManifestAppend(s.manifest, s.levels, s.logNumber, s.nextFile, s.pending, edit, s'.pending);
  }

  lemma FlushLogs(s: State, s': State)
    requires LogsOk(s) && s.imm.Some? && s'.imm.None? && s'.logNumber == s.logfile && s'.flushed == s.memStart
    requires s'.(imm := s.imm, logNumber := s.logNumber, flushed := s.flushed, manifest := s.manifest,
                 levels := s.levels, flushing := s.flushing, pending := s.pending) == s
    ensures LogsOk(s')
  {
  }

  lemma FlushHistory(s: State, f: File, level: nat, s': State)
    requires HistoryOk(s) && LogsOk(s) && InstallFlushStep(s, f, level, s')
    requires AddsFile(s.levels, s'.levels, level, f)
    ensures HistoryOk(s')
  {
    assert s'.manifest[..|s'.manifest| - 1] == s.manifest;
    assert s.history[..s.memStart] == s.history[..s.flushed] + s.history[s.flushed..s.memStart];
    FlushEntries(s.tables, s.levels, s'.levels, level, f);
    LogEntriesConcat(s.history[..s.flushed], s.history[s.flushed..s.memStart]);
    assert LogEntries(s.history[..s.memStart]) == LogEntries(s.history[..s.flushed]) + s.imm.value;
    forall e | e in FileEntries(s'.tables, s'.levels) ensures InLog(s'.history[..s'.flushed], e) {
      assert e in LogEntries(s.history[..s.memStart]);
    }
    PrefixContiguous(s.history, s.memStart);
  }

  /** All user keys of `g` come before, or all after, those of the inputs. */
  ghost predicate UserBeside(g: File, inputs: seq<File>) {
    || (forall f :: f in inputs ==> g.largest.user < f.smallest.user)
    || (forall f :: f in inputs ==> f.largest.user < g.smallest.user)
  }

  /** The ranges of the inputs cover their hull, so a file that sinks past one of their levels
      meets none of their keys and lies on one side of all of them. */
  lemma SunkFileIsBeside(inputs: seq<File>, f: File)
    requires inputs != [] && NoGap(inputs) && f.smallest.user <= f.largest.user
    requires forall g :: g in inputs ==> g.smallest.user <= g.largest.user && !Meet(f, g)
    ensures UserBeside(f, inputs) && Beside(f, inputs)
  {
    var g, x := inputs[0], f.smallest.user;
    assert !Touches(inputs, x);
    if f.largest.user < g.smallest.user {
      forall h | h in inputs ensures f.largest.user < h.smallest.user {
        assert !(h.smallest.user <= x <= g.largest.user) && !Meet(f, h);
      }
    } else {
      assert !Meet(f, g);
      forall h | h in inputs ensures h.largest.user < f.smallest.user {
        assert !(g.smallest.user <= x <= h.largest.user) && !Meet(f, h);
      }
    }
  }

  lemma FlushRunning(s: State, f: File, level: nat, s': State)
    requires VersionsOk(s) && RunningOk(s) && InstallFlushStep(s, f, level, s')
    requires AddsFile(s.levels, s'.levels, level, f)
    ensures RunningOk(s')
  {
    if s.running.Some? {
      var job := s.running.value.job;
      forall g | g in s'.levels[job.level + 1] && g !in job.in1 ensures Beside(g, job.in0 + job.in1) {
        if g !in s.levels[job.level + 1] {
          assert g == f && level == job.level + 1;
          forall h | h in job.in0 + job.in1 ensures h.smallest.user <= h.largest.user && !Meet(f, h) {
            var l := if h in job.in0 then job.level else job.level + 1;
            assert h in s.levels[l] && Backed(s.tables, h);
          }
          SunkFileIsBeside(job.in0 + job.in1, f);
        }
      }
    }
  }

  lemma FlushStructure(s: State, f: File, level: nat, s': State)
    requires Structure(s) && InstallFlushStep(s, f, level, s')
    ensures Structure(s') && AddsFile(s.levels, s'.levels, level, f)
  {
    FlushVersions(s, f, level, s');
    FlushManifest(s, f, level, s');
    FlushLogs(s, s');
    FlushHistory(s, f, level, s');
    FlushRunning(s, f, level, s');
  }

  lemma NoOpEdit(levels: Levels, edit: Edit)
    requires SortedLevels(levels) && edit.deleted == {} && edit.added == []
    ensures ApplyEdit(levels, edit) == levels
  {
    assert forall l, f :: !AddedAt(edit.added, l, f);
    assert FreshEdit(edit, levels);
    ApplyEditSpec(levels, edit);
    var r := ApplyEdit(levels, edit);
    forall l | 0 <= l < NUM_LEVELS ensures r[l] == levels[l] {
      SortedUnique(r[l], levels[l]);
    }
  }

  lemma EmptyFlushStructure(s: State, s': State)
    requires Structure(s) && InstallEmptyFlushStep(s, s')
    ensures Structure(s') && s'.levels == s.levels
  {
    var edit := FlushEdit(s, []);
    NoOpEdit(s.levels, edit);
    ManifestAppend(s.manifest, s.levels, s.logNumber, s.nextFile, s.pending, edit, s'.pending);
    FlushLogs(s, s');
    EmptyFlushHistory(s, s');
  }

  lemma EmptyFlushHistory(s: State, s': State)
    requires HistoryOk(s) && LogsOk(s) && InstallEmptyFlushStep(s, s') && s'.levels == s.levels
    ensures HistoryOk(s')
  {
    assert s'.manifest[..|s'.manifest| - 1] == s.manifest;
    assert s.history[..s.memStart] == s.history[..s.flushed] + s.history[s.flushed..s.memStart];
    forall e | e in FileEntries(s.tables, s.levels) ensures InLog(s'.history[..s'.flushed], e) {
      InLogConcat(s.history[..s.flushed], s.history[s.flushed..s.memStart], e);
    }
    PrefixContiguous(s.history, s.memStart);
  }

  //////////////////////////////////////////////////////////////////////////////
  // Compaction.

  lemma KeptFromInputs(tables: Tables, job: Job, input: seq<Entry>, snapshot: nat, base: Levels)
    requires IsMergeOf(tables, job, input)
    ensures var kept := Kept(input, |input|, snapshot, base, job.level);
      && SortedTable(kept)
      && (forall e :: e in kept ==> e in input)
      && (forall e :: e in kept ==> exists f :: f in job.in0 + job.in1 && InFile(tables, f, e))
  {
    KeptSorted(input, |input|, snapshot, base, job.level);
    forall e | e in Kept(input, |input|, snapshot, base, job.level) ensures e in input {
      KeptMembers(input, |input|, snapshot, base, job.level, e);
    }
  }

  lemma CompactionMembership(s: State, outs: seq<File>, input: seq<Entry>, s': State)
    requires VersionsOk(s) && RunningOk(s) && InstallCompactionStep(s, outs, input, s')
    ensures ReplacesInputs(s.levels, s'.levels, s.running.value.job, outs)
    ensures forall l, g, o :: 0 <= l < NUM_LEVELS && g in s.levels[l] && o in outs ==> g.number != o.number
  {
    var job := s.running.value.job;
    CompactionMembers(s.levels, CompactionEdit(s, job, outs), job, outs);
  }

  lemma CompactionVersions(s: State, outs: seq<File>, input: seq<Entry>, s': State)
    requires VersionsOk(s) && RunningOk(s) && InstallCompactionStep(s, outs, input, s')
    requires ReplacesInputs(s.levels, s'.levels, s.running.value.job, outs)
    requires forall l, g, o :: 0 <= l < NUM_LEVELS && g in s.levels[l] && o in outs ==> g.number != o.number
    ensures VersionsOk(s')
  {
    var Running(job, base, snapshot) := s.running.value;
    var kept := Kept(input, |input|, snapshot, base, job.level);
    KeptFromInputs(s.tables, job, input, snapshot, base);
    CompactionKeepsGood(s.tables, s.levels, s'.levels, job, outs, kept);
    forall f | f in s'.levels[0] ensures f in s.levels[0] {
    }
  }

  lemma CompactionManifest(s: State, outs: seq<File>, input: seq<Entry>, s': State)
    requires VersionsOk(s) && ManifestOk(s.manifest, s.levels, s.logNumber, s.nextFile, s.pending)
    requires s.logNumber < s.nextFile && InstallCompactionStep(s, outs, input, s') && VersionsOk(s')
    ensures ManifestOk(s'.manifest, s'.levels, s'.logNumber, s'.nextFile, s'.pending)
  {
    var job := s.running.value.job;
    var edit := CompactionEdit(s, job, outs);
    assert forall p :: p in edit.added ==> p.file in outs;
    ManifestAppend(s.manifest, s.levels, s.logNumber, s.nextFile, s.pending, edit, s'.pending);
  }

  lemma CompactionHistory(s: State, outs: seq<File>, input: seq<Entry>, s': State)
    requires HistoryOk(s) && RunningOk(s) && InstallCompactionStep(s, outs, input, s')
    requires ReplacesInputs(s.levels, s'.levels, s.running.value.job, outs)
    ensures HistoryOk(s')
  {
    var Running(job, base, snapshot) := s.running.value;
    assert s'.manifest[..|s'.manifest| - 1] == s.manifest;
    PrefixContiguous(s.history, s.flushed);
    KeptFromInputs(s.tables, job, input, snapshot, base);
    EntriesBefore(s.tables, s.levels, job, input);
    EntriesAfter(s.tables, s.levels, s'.levels, job, outs, input, snapshot, base);
    AfterIsSubset(input, StoreView.Outside(s.tables, s.levels, job), snapshot, base, job.level);
    forall e | e in FileEntries(s'.tables, s'.levels) ensures InLog(s'.history[..s'.flushed], e) {
      assert e in FileEntries(s.tables, s.levels);
    }
  }

  lemma CompactionStructure(s: State, outs: seq<File>, input: seq<Entry>, s': State)
    requires Structure(s) && InstallCompactionStep(s, outs, input, s')
    ensures Structure(s') && ReplacesInputs(s.levels, s'.levels, s.running.value.job, outs)
  {
    CompactionMembership(s, outs, input, s');
    CompactionVersions(s, outs, input, s');
    CompactionManifest(s, outs, input, s');
    CompactionHistory(s, outs, input, s');
  }

  //////////////////////////////////////////////////////////////////////////////
  // Steps that leave the version alone.

  lemma AppendStructure(s: State, b: Batch, s': State)
    requires Structure(s) && AppendLogStep(s, b, s')
    ensures Structure(s')
  {
    assert Inserted(s'.inflight) == Inserted(s.inflight);
    assert s'.logs[s'.logfile] == s'.history[s'.memStart..] + [b];
  }

  lemma InsertStructure(s: State, s': State)
    requires Structure(s) && InsertOneStep(s, s')
    ensures Structure(s')
  {
    var f, f' := s.inflight.value, s'.inflight.value;
    forall e ensures IsInserted(f', e) <==> IsInserted(f, e) || e == EntryAt(f.batch, f.done) {
    }
    assert s'.mem == LogEntries(s'.history[s'.memStart..]) + Inserted(s'.inflight);
  }

  lemma PublishStructure(s: State, s': State)
    requires Structure(s) && PublishStep(s, s')
    ensures Structure(s')
  {
    var b := s.inflight.value.batch;
    assert s'.history[..|s'.history| - 1] == s.history;
    assert s'.history[s.memStart..] == s.history[s.memStart..] + [b];
    assert s'.history[..s.flushed] == s.history[..s.flushed];
    assert s.imm.Some? ==> s'.history[s.flushed..s.memStart] == s.history[s.flushed..s.memStart];
    LogEntriesConcat(s.history[s.memStart..], [b]);
    forall e ensures InLog([b], e) <==> IsInserted(s.inflight.value, e) {
      assert b in [b];
      assert InLog([b], e) <==> InBatch(b, e);
    }
    assert s'.mem == LogEntries(s'.history[s'.memStart..]) + Inserted(s'.inflight);
  }

  lemma SwitchStructure(s: State, s': State)
    requires Structure(s) && SwitchMemTableStep(s, s')
    ensures Structure(s')
  {
    assert s'.history[s'.memStart..] == [];
    assert s.history[s.memStart..] == s.history[s.memStart..|s.history|];
    assert forall e :: !InLog([], e);
    assert s'.mem == LogEntries(s'.history[s'.memStart..]) + Inserted(s'.inflight);
    assert s.imm.None? && s'.imm.value == LogEntries(s'.history[s'.flushed..s'.memStart]);
  }

  lemma AllocateStructure(s: State, s': State)
    requires Structure(s) && (AllocateStep(s, s') || BeginFlushStep(s, s'))
    ensures Structure(s')
  {
    assert Settled(s.levels, s'.nextFile, s'.pending);
    forall v | v in s.pinned ensures Held(s.tables, v, s'.nextFile, s'.pending) {
      assert Held(s.tables, v, s.nextFile, s.pending);
    }
  }

  lemma TablesStructure(s: State, s': State)
    requires Structure(s)
    requires s' == s.(tables := s'.tables, logs := s'.logs) && LogsOk(s')
    requires AgreeOn(s.tables, s'.tables, s.levels)
    requires forall v :: v in s.pinned ==> AgreeOn(s.tables, s'.tables, v)
    requires s.running.Some? ==> AgreeOn(s.tables, s'.tables, s.running.value.base)
    ensures Structure(s')
  {
    AgreeBacked(s.tables, s'.tables, s.levels);
    AgreeEntries(s.tables, s'.tables, s.levels);
    forall v | v in s.pinned ensures Held(s'.tables, v, s.nextFile, s.pending) {
      assert Held(s.tables, v, s.nextFile, s.pending);
      AgreeBacked(s.tables, s'.tables, v);
    }
    if s.running.Some? {
      AgreeBacked(s.tables, s'.tables, s.running.value.base);
    }
  }

  lemma WriteTableStructure(s: State, n: nat, t: seq<Entry>, s': State)
    requires Structure(s) && WriteTableStep(s, n, t, s')
    ensures Structure(s') && AgreeOn(s.tables, s'.tables, s.levels)
  {
    forall v | v in s.pinned ensures AgreeOn(s.tables, s'.tables, v) {
      assert Held(s.tables, v, s.nextFile, s.pending);
    }
    TablesStructure(s, s');
  }

  lemma ListedIsLive(s: State, v: Levels)
    requires v == s.levels || v in s.pinned || (s.running.Some? && v == s.running.value.base)
    ensures forall l, f :: 0 <= l < |v| && f in v[l] ==> Live(s, f.number)
  {
    forall l, f | 0 <= l < |v| && f in v[l] ensures Live(s, f.number) {
      assert Lists(v, f.number);
    }
  }

  /** DeleteObsoleteFiles deletes no table that a live version lists or a running job still writes. */
  lemma DeleteObsoleteStructure(s: State, s': State)
    requires Structure(s) && DeleteObsoleteStep(s, s')
    ensures Structure(s') && AgreeOn(s.tables, s'.tables, s.levels)
    ensures forall n :: n in s.pending && n in s.tables ==> n in s'.tables && s'.tables[n] == s.tables[n]
  {
    ListedIsLive(s, s.levels);
    forall v | v in s.pinned ensures AgreeOn(s.tables, s'.tables, v) {
      ListedIsLive(s, v);
    }
    if s.running.Some? {
      ListedIsLive(s, s.running.value.base);
    }
    TablesStructure(s, s');
  }

  lemma BeginCompactionStructure(s: State, job: Job, s': State)
    requires Structure(s) && BeginCompactionStep(s, job, s')
    ensures Structure(s')
  {
    SelectionSeparates(s.tables, s.levels, job);
    assert s.snapshots != [] ==> s.snapshots[0] in s.snapshots;
    assert SnapshotsOk(s') by {
      forall q | q in s.snapshots ensures SmallestSnapshot(s) <= q {
        var i :| 0 <= i < |s.snapshots| && s.snapshots[i] == q;
      }
    }
  }

  lemma PinStructure(s: State, v: Levels, s': State)
    requires Structure(s) && (PinStep(s, s') || UnpinStep(s, v, s'))
    ensures Structure(s')
  {
    assert forall w :: w in s'.pinned ==> w in s.pinned || w == s.levels;
  }

  lemma SnapshotsChange(s: State, i: nat, s': State)
    requires Structure(s) && (TakeSnapshotStep(s, s') || ReleaseSnapshotStep(s, i, s'))
    ensures Structure(s')
  {
    assert SnapshotsOk(s') by {
      if ReleaseSnapshotStep(s, i, s') {
        ReleaseKeepsOrder(s.snapshots, i, s'.snapshots);
      } else {
        forall x, y | 0 <= x < y < |s'.snapshots| ensures s'.snapshots[x] <= s'.snapshots[y] {
          assert s'.snapshots[x] in s.snapshots;
        }
      }
    }
  }

  lemma ReleaseKeepsOrder(snapshots: seq<nat>, n: nat, less: seq<nat>)
    requires n < |snapshots| && less == snapshots[..n] + snapshots[n + 1..]
    requires forall i, j :: 0 <= i < j < |snapshots| ==> snapshots[i] <= snapshots[j]
    ensures forall q :: q in less ==> q in snapshots
    ensures forall i, j :: 0 <= i < j < |less| ==> less[i] <= less[j]
  {
    forall i, j | 0 <= i < j < |less| ensures less[i] <= less[j] {
      var i0, j0 := if i < n then i else i + 1, if j < n then j else j + 1;
      assert less[i] == snapshots[i0] && less[j] == snapshots[j0];
    }
  }
}
