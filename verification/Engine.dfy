/** The store as a step machine: write groups, memtable switches, flushes, compactions, deletion of
    obsolete files, readers, snapshots, process crash and reopen
    (db/db_impl.cpp; db/version_set.cpp, LogAndApply and Recover).

    A log or manifest record is appended in one step: what is left of a record cut short by a crash
    is dropped by the log reader (module LogTheorems). */
module Engine {
  import opened DbFormat
  import opened Versions
  import opened VersionBuilder
  import opened CompactionPicker
  import opened CompactionWork
  import opened Store
  import opened StoreView
  import opened History

  /** The group being written: it is in the log, and `done` of its operations are in the memtable. */
  datatype InFlight = InFlight(batch: Batch, done: nat)

  /** A compaction between PickCompaction and InstallCompactionResults. */
  datatype Running = Running(job: Job, base: Levels, snapshot: nat)

  datatype State = State(
    // On disk: tables and logs by number, and the records of the current manifest.
    tables: Tables, logs: map<nat, seq<Batch>>, manifest: seq<Edit>,
    // VersionSet.
    levels: Levels, nextFile: nat, lastSeq: nat, logNumber: nat,
    // DBImpl.
    mem: iset<Entry>, imm: Option<iset<Entry>>, logfile: nat,
    inflight: Option<InFlight>, flushing: Option<nat>, snapshots: seq<nat>,
    running: Option<Running>, pending: set<nat>, pinned: multiset<Levels>,
    // Specification only: every acknowledged group in order; how many of them are in tables; where
    // the current memtable starts; and the largest snapshot a finished compaction has used.
    history: seq<Batch>, flushed: nat, memStart: nat, floor: nat)

  datatype Step =
    | AppendLog(batch: Batch)
    | InsertOne
    | Publish
    | SwitchMemTable
    | BeginFlush
    | Allocate
    | WriteTable(number: nat, table: seq<Entry>)
    | InstallFlush(file: File, level: nat)
    | InstallEmptyFlush
    | BeginCompaction(job: Job)
    | InstallCompaction(outs: seq<File>, input: seq<Entry>)
    | DeleteObsolete
    | TakeSnapshot
    | ReleaseSnapshot(index: nat)
    | Pin
    | Unpin(version: Levels)
    | Reopen(order: seq<nat>, chunks: seq<seq<Batch>>, added: seq<File>, tables': Tables, newLog: nat)

  //////////////////////////////////////////////////////////////////////////////
  // Pieces of steps.

  /** snapshots_.oldest(), or the last sequence if there is no snapshot. */
  function SmallestSnapshot(s: State): nat {
    if s.snapshots == [] then s.lastSeq else s.snapshots[0]
  }

  predicate Lists(v: Levels, n: nat) {
    exists l, f :: 0 <= l < |v| && f in v[l] && f.number == n
  }

  /** The set `live` of DeleteObsoleteFiles. */
  predicate Live(s: State, n: nat) {
    || n in s.pending
    || Lists(s.levels, n)
    || (exists v :: v in s.pinned && Lists(v, n))
    || (s.running.Some? && Lists(s.running.value.base, n))
  }

  function FlushEdit(s: State, added: seq<Placed>): Edit {
    Edit(Some(s.logfile), Some(s.nextFile), Some(s.lastSeq), {}, added)
  }

  function CompactionEdit(s: State, job: Job, outs: seq<File>): Edit {
    Edit(Some(s.logNumber), Some(s.nextFile), Some(s.lastSeq), InputDeletions(job), OutputAdditions(job, outs))
  }

  /** The last value a replay of the manifest assigns to a number, if any. */
  function LastLog(edits: seq<Edit>): Option<nat> {
    if edits == [] then None
    else if edits[|edits| - 1].logNumber.Some? then edits[|edits| - 1].logNumber
    else LastLog(edits[..|edits| - 1])
  }

  function LastNext(edits: seq<Edit>): Option<nat> {
    if edits == [] then None
    else if edits[|edits| - 1].nextFile.Some? then edits[|edits| - 1].nextFile
    else LastNext(edits[..|edits| - 1])
  }

  function LastSequenceOf(edits: seq<Edit>): Option<nat> {
    if edits == [] then None
    else if edits[|edits| - 1].lastSequence.Some? then edits[|edits| - 1].lastSequence
    else LastSequenceOf(edits[..|edits| - 1])
  }

  predicate Increasing(ns: seq<nat>) {
    forall i, j :: 0 <= i < j < |ns| ==> ns[i] < ns[j]
  }

  /** The log files Recover reads, in the order it reads them. */
  predicate RecoveryOrder(logs: map<nat, seq<Batch>>, minLog: nat, order: seq<nat>) {
    && Increasing(order)
    && (forall n :: n in order ==> n in logs && n >= minLog)
    && (forall n :: n in logs && n >= minLog ==> n in order)
  }

  function ReadLogs(logs: map<nat, seq<Batch>>, order: seq<nat>): seq<Batch>
    requires forall n :: n in order ==> n in logs
  {
    if order == [] then [] else ReadLogs(logs, order[..|order| - 1]) + logs[order[|order| - 1]]
  }

  /** Batches without operations leave nothing in a memtable. */
  function NonEmpty(log: seq<Batch>): seq<Batch> {
    if log == [] then []
    else NonEmpty(log[..|log| - 1]) + (if log[|log| - 1].ops == [] then [] else [log[|log| - 1]])
  }

  function Flatten(chunks: seq<seq<Batch>>): seq<Batch> {
    if chunks == [] then [] else Flatten(chunks[..|chunks| - 1]) + chunks[|chunks| - 1]
  }

  /** The largest sequence number RecoverLogFile sees in the batches. */
  function MaxSequence(log: seq<Batch>): int {
    if log == [] then 0
    else
      var before := MaxSequence(log[..|log| - 1]);
      var last := log[|log| - 1].first + |log[|log| - 1].ops| - 1;
      if last > before then last else before
  }

  /** One level-0 table per chunk, with increasing numbers from the recovered counter on. */
  ghost predicate RecoveredTables(tables: Tables, chunks: seq<seq<Batch>>, added: seq<File>, from: nat, to: nat) {
    && |added| == |chunks|
    && (forall i :: 0 <= i < |added| ==> && Backed(tables, added[i])
                                         && from < added[i].number < to
                                         && forall e :: InFile(tables, added[i], e) <==> InLog(chunks[i], e))
    && (forall i, j :: 0 <= i < j < |added| ==> added[i].number < added[j].number)
  }

  function ReopenEdit(added: seq<File>, newLog: nat, lastSeq: nat): Edit {
    Edit(Some(newLog), Some(newLog + 1), Some(lastSeq), {}, PlaceAll(0, added))
  }

  //////////////////////////////////////////////////////////////////////////////
  // Steps.

  /** The leader of the writer queue appends its group to the log (Write). */
  ghost predicate AppendLogStep(s: State, b: Batch, s': State) {
    && s.inflight.None? && s.logfile in s.logs
    && b.first == s.lastSeq + 1 && s.lastSeq + |b.ops| < MAX_SEQUENCE
    && s' == s.(logs := s.logs[s.logfile := s.logs[s.logfile] + [b]], inflight := Some(InFlight(b, 0)))
  }

  /** It inserts one operation after another into the memtable (InsertInto). */
  ghost predicate InsertOneStep(s: State, s': State) {
    && s.inflight.Some? && s.inflight.value.done < |s.inflight.value.batch.ops|
    && var f := s.inflight.value;
    && s' == s.(mem := s.mem + iset{EntryAt(f.batch, f.done)}, inflight := Some(InFlight(f.batch, f.done + 1)))
  }

  /** It publishes the new last sequence and acknowledges the group. */
  ghost predicate PublishStep(s: State, s': State) {
    && s.inflight.Some? && s.inflight.value.done == |s.inflight.value.batch.ops|
    && var b := s.inflight.value.batch;
    && s' == s.(lastSeq := s.lastSeq + |b.ops|, inflight := None, history := s.history + [b])
  }

  /** MakeRoomForWrite: a new log and an empty memtable; the full one becomes immutable. */
  ghost predicate SwitchMemTableStep(s: State, s': State) {
    && s.inflight.None? && s.imm.None?
    && s' == s.(logs := s.logs[s.nextFile := []], logfile := s.nextFile, nextFile := s.nextFile + 1,
                imm := Some(s.mem), mem := iset{}, memStart := |s.history|)
  }

  /** WriteLevel0Table: take a file number for the table to be built. */
  ghost predicate BeginFlushStep(s: State, s': State) {
    && s.imm.Some? && s.flushing.None?
    && s' == s.(flushing := Some(s.nextFile), nextFile := s.nextFile + 1, pending := s.pending + {s.nextFile})
  }

  /** OpenCompactionOutputFile: take a file number for an output. */
  ghost predicate AllocateStep(s: State, s': State) {
    s' == s.(nextFile := s.nextFile + 1, pending := s.pending + {s.nextFile})
  }

  /** Write a table file that is recorded in pending_outputs_. */
  ghost predicate WriteTableStep(s: State, n: nat, t: seq<Entry>, s': State) {
    n in s.pending && s' == s.(tables := s.tables[n := t])
  }

  /** CompactMemTable: add the flushed table and retire the old log. */
  ghost predicate InstallFlushStep(s: State, f: File, level: nat, s': State) {
    && s.imm.Some? && s.flushing == Some(f.number)
    && Backed(s.tables, f) && (forall e :: InFile(s.tables, f, e) <==> e in s.imm.value)
    && |s.levels| == NUM_LEVELS && level <= MAX_MEM_COMPACT_LEVEL && SinksTo(s.levels, level, f)
    && var edit := FlushEdit(s, [Placed(level, f)]);
    && s' == s.(levels := ApplyEdit(s.levels, edit), manifest := s.manifest + [edit], logNumber := s.logfile,
                imm := None, flushing := None, pending := s.pending - {f.number}, flushed := s.memStart)
  }

  /** CompactMemTable when the memtable was empty: no table is added. */
  ghost predicate InstallEmptyFlushStep(s: State, s': State) {
    && s.imm == Some(iset{}) && s.flushing.Some? && |s.levels| == NUM_LEVELS
    && var edit := FlushEdit(s, []);
    && s' == s.(levels := ApplyEdit(s.levels, edit), manifest := s.manifest + [edit], logNumber := s.logfile,
                imm := None, flushing := None, pending := s.pending - {s.flushing.value}, flushed := s.memStart)
  }

  /** PickCompaction, and the smallest snapshot as DoCompactionWork reads it. */
  ghost predicate BeginCompactionStep(s: State, job: Job, s': State) {
    && s.running.None? && Selected(s.levels, job)
    && s' == s.(running := Some(Running(job, s.levels, SmallestSnapshot(s))))
  }

  /** InstallCompactionResults: the outputs replace the inputs. */
  ghost predicate InstallCompactionStep(s: State, outs: seq<File>, input: seq<Entry>, s': State) {
    && s.running.Some? && |s.levels| == NUM_LEVELS
    && var Running(job, base, snapshot) := s.running.value;
    && IsMergeOf(s.tables, job, input)
    && Outputs(s.tables, outs, Kept(input, |input|, snapshot, base, job.level))
    && (forall o :: o in outs ==> o.number in s.pending && s.flushing != Some(o.number))
    && var edit := CompactionEdit(s, job, outs);
    && s' == s.(levels := ApplyEdit(s.levels, edit), manifest := s.manifest + [edit], running := None,
                pending := s.pending - (set o | o in outs :: o.number),
                floor := if s.floor < snapshot then snapshot else s.floor)
  }

  /** DeleteObsoleteFiles. */
  ghost predicate DeleteObsoleteStep(s: State, s': State) {
    s' == s.(tables := map n | n in s.tables && Live(s, n) :: s.tables[n],
             logs := map n | n in s.logs && n >= s.logNumber :: s.logs[n])
  }

  /** GetSnapshot. */
  ghost predicate TakeSnapshotStep(s: State, s': State) {
    s' == s.(snapshots := s.snapshots + [s.lastSeq])
  }

  /** ReleaseSnapshot. */
  ghost predicate ReleaseSnapshotStep(s: State, i: nat, s': State) {
    i < |s.snapshots| && s' == s.(snapshots := s.snapshots[..i] + s.snapshots[i + 1..])
  }

  /** A reader references the current version. */
  ghost predicate PinStep(s: State, s': State) {
    s' == s.(pinned := s.pinned + multiset{s.levels})
  }

  /** A reader releases the version it held. */
  ghost predicate UnpinStep(s: State, v: Levels, s': State) {
    v in s.pinned && s' == s.(pinned := s.pinned - multiset{v})
  }

  /** The process dies and the database is opened again: the manifest is replayed, the logs it does
      not cover are turned into level-0 tables, and a new manifest and log are started. */
  ghost predicate ReopenStep(s: State, order: seq<nat>, chunks: seq<seq<Batch>>, added: seq<File>, tables': Tables,
                             newLog: nat, s': State)
  {
    && LastLog(s.manifest).Some? && LastNext(s.manifest).Some? && LastSequenceOf(s.manifest).Some?
    && var rec := ReplayOnce(EmptyLevels, s.manifest);
    && var next := LastNext(s.manifest).value;
    && RecoveryOrder(s.logs, LastLog(s.manifest).value, order)
    && var batches := ReadLogs(s.logs, order);
    && Flatten(chunks) == NonEmpty(batches) && (forall c :: c in chunks ==> c != [])
    && RecoveredTables(tables', chunks, added, next, newLog)
    && (forall n :: n in s.tables && n < next ==> n in tables' && tables'[n] == s.tables[n])
    && next < newLog && (forall n :: n in order ==> n < newLog)
    && var recovered := LastSequenceOf(s.manifest).value;
    && var lastSeq := if recovered < MaxSequence(batches) then MaxSequence(batches) else recovered;
    && var edit := ReopenEdit(added, newLog, lastSeq);
    && var history := s.history + (if s.inflight.Some? then [s.inflight.value.batch] else []);
    && s' == State(tables', s.logs[newLog := []], [SnapshotEdit(rec), edit],
                   ApplyEdit(rec, edit), newLog + 1, lastSeq, newLog,
                   iset{}, None, newLog, None, None, [], None, {}, multiset{},
                   history, |history|, |history|, lastSeq)
  }

  ghost predicate Next(s: State, step: Step, s': State) {
    match step
    case AppendLog(b) => AppendLogStep(s, b, s')
    case InsertOne => InsertOneStep(s, s')
    case Publish => PublishStep(s, s')
    case SwitchMemTable => SwitchMemTableStep(s, s')
    case BeginFlush => BeginFlushStep(s, s')
    case Allocate => AllocateStep(s, s')
    case WriteTable(n, t) => WriteTableStep(s, n, t, s')
    case InstallFlush(f, level) => InstallFlushStep(s, f, level, s')
    case InstallEmptyFlush => InstallEmptyFlushStep(s, s')
    case BeginCompaction(job) => BeginCompactionStep(s, job, s')
    case InstallCompaction(outs, input) => InstallCompactionStep(s, outs, input, s')
    case DeleteObsolete => DeleteObsoleteStep(s, s')
    case TakeSnapshot => TakeSnapshotStep(s, s')
    case ReleaseSnapshot(i) => ReleaseSnapshotStep(s, i, s')
    case Pin => PinStep(s, s')
    case Unpin(v) => UnpinStep(s, v, s')
    case Reopen(order, chunks, added, tables', newLog) => ReopenStep(s, order, chunks, added, tables', newLog, s')
  }

  /** A database just created and opened: manifest 2, log 3. */
  predicate Init(s: State) {
    s == State(map[], map[3 := []], [SnapshotEdit(EmptyLevels), Edit(Some(3), Some(4), Some(0), {}, [])],
               EmptyLevels, 4, 0, 3, iset{}, None, 3, None, None, [], None, {}, multiset{}, [], 0, 0, 0)
  }

  //////////////////////////////////////////////////////////////////////////////
  // The structural invariant: no hypothesis on how compactions cut user keys.

  ghost predicate Settled(v: Levels, nextFile: nat, pending: set<nat>) {
    forall l, f :: 0 <= l < |v| && f in v[l] ==> f.number < nextFile && f.number !in pending
  }

  /** Versions that readers or the running compaction hold are backed by tables on disk. */
  ghost predicate Held(tables: Tables, v: Levels, nextFile: nat, pending: set<nat>) {
    |v| == NUM_LEVELS && AllBacked(tables, v) && Settled(v, nextFile, pending)
  }

  ghost predicate VersionsFit(tables: Tables, levels: Levels, pinned: multiset<Levels>, running: Option<Running>,
                              nextFile: nat, pending: set<nat>) {
    && GoodVersion(tables, levels) && Settled(levels, nextFile, pending)
    && (forall v :: v in pinned ==> Held(tables, v, nextFile, pending))
    && (running.Some? ==> Held(tables, running.value.base, nextFile, pending))
    && (forall n :: n in pending ==> n < nextFile)
  }

  /** The flush in progress has its own number, larger than those of all level-0 files. */
  ghost predicate FlushingFits(levels: Levels, flushing: Option<nat>, pending: set<nat>, imm: Option<iset<Entry>>) {
    flushing.Some? ==> && flushing.value in pending && imm.Some? && |levels| == NUM_LEVELS
                       && forall f :: f in levels[0] ==> f.number < flushing.value
  }

  ghost predicate VersionsOk(s: State) {
    && VersionsFit(s.tables, s.levels, s.pinned, s.running, s.nextFile, s.pending)
    && FlushingFits(s.levels, s.flushing, s.pending, s.imm)
  }

  ghost predicate ManifestOk(manifest: seq<Edit>, levels: Levels, logNumber: nat, nextFile: nat, pending: set<nat>) {
    && NeverReAdded(EmptyLevels, manifest)
    && ReplayEach(EmptyLevels, manifest) == levels
    && LastLog(manifest) == Some(logNumber)
    && LastNext(manifest).Some? && logNumber < LastNext(manifest).value <= nextFile
    && (forall l, f :: 0 <= l < NUM_LEVELS && f in levels[l] ==> f.number < LastNext(manifest).value)
    && (forall e, p :: e in manifest && p in e.added ==> p.file.number < nextFile && p.file.number !in pending)
  }

  ghost predicate IsInserted(f: InFlight, e: Entry) {
    exists i :: 0 <= i < f.done && i < |f.batch.ops| && e == EntryAt(f.batch, i)
  }

  ghost function Inserted(f: Option<InFlight>): iset<Entry> {
    iset e | f.Some? && IsInserted(f.value, e)
  }

  ghost predicate LogsFit(logs: map<nat, seq<Batch>>, logfile: nat, logNumber: nat, nextFile: nat,
                          imm: Option<iset<Entry>>, inflight: Option<InFlight>,
                          history: seq<Batch>, flushed: nat, memStart: nat) {
    && flushed <= memStart <= |history|
    && logfile in logs
    && logs[logfile] == history[memStart..] + (if inflight.Some? then [inflight.value.batch] else [])
    && (forall n :: n in logs ==> n < nextFile && (n >= logNumber ==> n == logNumber || n == logfile))
    && (imm.None? ==> logNumber == logfile && flushed == memStart)
    && (imm.Some? ==> && logNumber in logs && logNumber < logfile
                      && logs[logNumber] == history[flushed..memStart]
                      && imm.value == LogEntries(history[flushed..memStart]))
  }

  /** The memtable holds what its log holds, up to the operations of the group still to be inserted. */
  ghost predicate MemFits(mem: iset<Entry>, inflight: Option<InFlight>, history: seq<Batch>, memStart: nat,
                          lastSeq: nat)
  {
    && memStart <= |history|
    && mem == LogEntries(history[memStart..]) + Inserted(inflight)
    && (inflight.Some? ==> && inflight.value.batch.first == lastSeq + 1
                           && inflight.value.done <= |inflight.value.batch.ops|)
  }

  ghost predicate LogsOk(s: State) {
    && LogsFit(s.logs, s.logfile, s.logNumber, s.nextFile, s.imm, s.inflight, s.history, s.flushed, s.memStart)
    && MemFits(s.mem, s.inflight, s.history, s.memStart, s.lastSeq)
  }

  ghost predicate HistoryFits(history: seq<Batch>, lastSeq: nat, flushed: nat, stored: iset<Entry>,
                              manifest: seq<Edit>)
  {
    && Contiguous(history) && End(history) == lastSeq
    && flushed <= |history|
    && (forall e :: e in stored ==> InLog(history[..flushed], e))
    && LastSequenceOf(manifest).Some?
    && End(history[..flushed]) <= LastSequenceOf(manifest).value <= lastSeq
  }

  ghost predicate HistoryOk(s: State) {
    HistoryFits(s.history, s.lastSeq, s.flushed, FileEntries(s.tables, s.levels), s.manifest)
  }

  ghost predicate RunningFits(levels: Levels, running: Option<Running>) {
    running.Some? ==>
      var job := running.value.job;
      && InputsPresent(levels, job) && NoGap(job.in0 + job.in1) && InputsSeparated(levels, job)
      && job.in0 != []
  }

  ghost predicate RunningOk(s: State) {
    RunningFits(s.levels, s.running)
  }

  ghost predicate SnapshotsFit(snapshots: seq<nat>, floor: nat, lastSeq: nat, running: Option<Running>) {
    && floor <= lastSeq
    && (forall q :: q in snapshots ==> floor <= q <= lastSeq)
    && (forall i, j :: 0 <= i < j < |snapshots| ==> snapshots[i] <= snapshots[j])
    && (running.Some? ==> && running.value.snapshot <= lastSeq
                          && forall q :: q in snapshots ==> running.value.snapshot <= q)
  }

  ghost predicate SnapshotsOk(s: State) {
    SnapshotsFit(s.snapshots, s.floor, s.lastSeq, s.running)
  }

  ghost predicate Structure(s: State) {
    && VersionsOk(s)
    && ManifestOk(s.manifest, s.levels, s.logNumber, s.nextFile, s.pending)
    && LogsOk(s) && HistoryOk(s) && RunningOk(s) && SnapshotsOk(s)
  }

  //////////////////////////////////////////////////////////////////////////////
  // The semantic invariant.

  ghost predicate SameViews(a: iset<Entry>, b: iset<Entry>, floor: nat) {
    forall k, t :: t >= floor ==> View(a, k, t) == View(b, k, t)
  }

  ghost predicate Meaningful(s: State) {
    && Recency(s.tables, s.levels)
    && (s.running.Some? ==> OlderOnlyBelow(s.tables, s.levels, s.running.value.job, s.running.value.base))
    && s.flushed <= |s.history|
    && SameViews(FileEntries(s.tables, s.levels), LogEntries(s.history[..s.flushed]), s.floor)
  }
}
