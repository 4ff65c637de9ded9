/** Every step, compactions with clean cuts included, keeps what readers see. */
module EngineMeaning {
  import opened DbFormat
  import opened Versions
  import opened VersionBuilder
  import opened CompactionPicker
  import opened CompactionWork
  import opened Store
  import opened StoreView
  import opened History
  import opened Engine
  import opened EngineStructure
  import opened EngineRecovery

  /** The entries in tables come from the history and so have unique sequence numbers. */
  lemma StoredUnique(s: State)
    requires HistoryOk(s)
    ensures UniqueSeqs(FileEntries(s.tables, s.levels)) && UniqueSeqs(LogEntries(s.history))
    ensures FileEntries(s.tables, s.levels) <= LogEntries(s.history[..s.flushed]) <= LogEntries(s.history)
  {
    HistoryUnique(s.history);
    assert s.history == s.history[..s.flushed] + s.history[s.flushed..];
    LogEntriesConcat(s.history[..s.flushed], s.history[s.flushed..]);
    UniqueSubset(LogEntries(s.history), FileEntries(s.tables, s.levels));
  }

  //////////////////////////////////////////////////////////////////////////////
  // Flush.

  /** What is not yet in tables is newer than what is. */
  lemma UnflushedIsNewer(h: seq<Batch>, n: nat, m: nat, e: Entry, d: Entry)
    requires Contiguous(h) && n <= m <= |h| && InLog(h[n..m], e) && InLog(h[..n], d)
    ensures d.sn < e.sn
  {
    var tail := h[n..];
    assert tail == tail[..m - n] + tail[m - n..] && tail[..m - n] == h[n..m];
    InLogConcat(h[n..m], tail[m - n..], e);
    PrefixContiguous(h, n);
    SeqInRange(h[..n], d);
    SeqAfter(h, n, e);
  }

  /** Extending the tables and the flushed history by the same batches keeps the views equal. */
  lemma SameViewsExtend(stored: iset<Entry>, h: seq<Batch>, n: nat, m: nat, floor: nat)
    requires Contiguous(h) && n <= m <= |h| && stored <= LogEntries(h[..n])
    requires SameViews(stored, LogEntries(h[..n]), floor)
    ensures SameViews(stored + LogEntries(h[n..m]), LogEntries(h[..m]), floor)
  {
    var flushed, more := LogEntries(h[..n]), LogEntries(h[n..m]);
    assert h[..m] == h[..n] + h[n..m] && h == h[..m] + h[m..];
    LogEntriesConcat(h[..n], h[n..m]);
    LogEntriesConcat(h[..m], h[m..]);
    HistoryUnique(h);
    UniqueSubset(LogEntries(h), flushed + more);
    UniqueSubset(LogEntries(h), stored + more);
    forall e, d | e in more && (d in stored || d in flushed) ensures d.sn < e.sn {
      UnflushedIsNewer(h, n, m, e, d);
    }
    forall k, t | t >= floor ensures View(stored + more, k, t) == View(flushed + more, k, t) {
      ViewExtend(stored, flushed, more, k, t);
    }
  }

  lemma FlushMeaning(s: State, f: File, level: nat, s': State)
    requires Structure(s) && Meaningful(s) && InstallFlushStep(s, f, level, s')
    ensures Meaningful(s')
  {
    FlushMembers(s.levels, FlushEdit(s, [Placed(level, f)]), level, f);
    FlushMeaningAt(s, f, level, s');
  }

  lemma FlushMeaningAt(s: State, f: File, level: nat, s': State)
    requires Structure(s) && Meaningful(s) && InstallFlushStep(s, f, level, s')
    requires AddsFile(s.levels, s'.levels, level, f)
    ensures Meaningful(s')
  {
    var all := FileEntries(s.tables, s.levels);
    forall e, d | InFile(s.tables, f, e) && d in all ensures d.sn < e.sn {
      UnflushedIsNewer(s.history, s.flushed, s.memStart, e, d);
    }
    FlushKeepsRecency(s.tables, s.levels, s'.levels, level, f);
    FlushEntries(s.tables, s.levels, s'.levels, level, f);
    assert (iset e | InFile(s.tables, f, e)) == LogEntries(s.history[s.flushed..s.memStart]);
    StoredUnique(s);
    SameViewsExtend(all, s.history, s.flushed, s.memStart, s.floor);
    if s.running.Some? {
      FlushedIsNewer(s.tables, s.levels, s'.levels, level, f, s.running.value.job, s.running.value.base);
    }
  }

  lemma FlushedIsNewer(tables: Tables, levels: Levels, levels': Levels, at: nat, f: File, job: Job, base: Levels)
    requires AddsFile(levels, levels', at, f) && OlderOnlyBelow(tables, levels, job, base) && InputsPresent(levels, job)
    requires NewerThanAll(tables, f, FileEntries(tables, levels))
    requires forall l, g :: 0 <= l < NUM_LEVELS && g in levels[l] ==> g.number != f.number
    ensures OlderOnlyBelow(tables, levels', job, base)
  {
    forall l, g | 0 <= l < NUM_LEVELS && g in levels[l] ensures FileNewer(tables, f, g) {
      forall d | InFile(tables, g, d) ensures d in FileEntries(tables, levels) {
        assert AtLevel(tables, levels, l, d);
      }
    }
    forall l, g | 0 <= l < NUM_LEVELS && g in levels'[l] && IsInput(job, l, g) ensures g in levels[l] {
    }
  }

  lemma EmptyFlushMeaning(s: State, s': State)
    requires Structure(s) && Meaningful(s) && InstallEmptyFlushStep(s, s')
    ensures Meaningful(s')
  {
    NoOpEdit(s.levels, FlushEdit(s, []));
    StoredUnique(s);
    SameViewsExtend(FileEntries(s.tables, s.levels), s.history, s.flushed, s.memStart, s.floor);
    assert FileEntries(s.tables, s.levels) + LogEntries(s.history[s.flushed..s.memStart]) ==
           FileEntries(s.tables, s.levels);
  }

  //////////////////////////////////////////////////////////////////////////////
  // Compaction.

  lemma BeginCompactionMeaning(s: State, job: Job, s': State)
    requires Structure(s) && Meaningful(s) && BeginCompactionStep(s, job, s') && CleanCut(s.levels, job)
    ensures Meaningful(s')
  {
    StoredUnique(s);
    CleanCutLeavesNothingOlder(s.tables, s.levels, job);
  }

  lemma CompactionMeaning(s: State, outs: seq<File>, input: seq<Entry>, s': State)
    requires Structure(s) && Meaningful(s) && InstallCompactionStep(s, outs, input, s')
    ensures Meaningful(s')
  {
    var Running(job, base, snapshot) := s.running.value;
    CompactionMembership(s, outs, input, s');
    StoredUnique(s);
    KeptFromInputs(s.tables, job, input, snapshot, base);
    CompactionKeepsRecency(s.tables, s.levels, s'.levels, job, base, outs, input,
      Kept(input, |input|, snapshot, base, job.level));
    forall k, t | t >= s'.floor
      ensures View(FileEntries(s'.tables, s'.levels), k, t) == View(LogEntries(s.history[..s.flushed]), k, t)
    {
      CompactionKeepsView(s.tables, s.levels, s'.levels, job, base, outs, input, snapshot, k, t);
    }
  }

  //////////////////////////////////////////////////////////////////////////////
  // Tables that no version lists.

  lemma TablesMeaning(s: State, s': State)
    requires Structure(s) && Meaningful(s) && s' == s.(tables := s'.tables, logs := s'.logs)
    requires AgreeOn(s.tables, s'.tables, s.levels)
    ensures Meaningful(s')
  {
    AgreeEntries(s.tables, s'.tables, s.levels);
    AgreeNewer(s.tables, s'.tables, s.levels);
    if s.running.Some? {
      AgreeOlder(s.tables, s'.tables, s.levels, s.running.value.job, s.running.value.base);
    }
  }

  lemma AgreeOlder(tables: Tables, tables': Tables, v: Levels, job: Job, base: Levels)
    requires AllBacked(tables, v) && AgreeOn(tables, tables', v) && OlderOnlyBelow(tables, v, job, base)
    ensures OlderOnlyBelow(tables', v, job, base)
  {
    AgreeNewer(tables, tables', v);
  }

  lemma WriteTableMeaning(s: State, n: nat, t: seq<Entry>, s': State)
    requires Structure(s) && Meaningful(s) && WriteTableStep(s, n, t, s')
    ensures Meaningful(s')
  {
    WriteTableStructure(s, n, t, s');
    TablesMeaning(s, s');
  }

  lemma DeleteObsoleteMeaning(s: State, s': State)
    requires Structure(s) && Meaningful(s) && DeleteObsoleteStep(s, s')
    ensures Meaningful(s')
  {
    DeleteObsoleteStructure(s, s');
    TablesMeaning(s, s');
  }

  lemma AgreeNewer(tables: Tables, tables': Tables, v: Levels)
    requires AllBacked(tables, v) && AgreeOn(tables, tables', v)
    ensures forall l, m, f, g ::
      0 <= l < |v| && 0 <= m < |v| && f in v[l] && g in v[m] && FileNewer(tables, f, g) ==> FileNewer(tables', f, g)
    ensures Recency(tables, v) ==> Recency(tables', v)
  {
    AgreeBacked(tables, tables', v);
    forall l, m, f, g | 0 <= l < |v| && 0 <= m < |v| && f in v[l] && g in v[m] && FileNewer(tables, f, g)
      ensures FileNewer(tables', f, g)
    {
      forall e, d | InFile(tables', f, e) && InFile(tables', g, d) && e.key == d.key ensures e.sn > d.sn {
        assert InFile(tables, f, e) && InFile(tables, g, d);
      }
    }
  }

  //////////////////////////////////////////////////////////////////////////////
  // Reopen.

  lemma ReopenMeaning(s: State, order: seq<nat>, chunks: seq<seq<Batch>>, added: seq<File>, tables': Tables,
                      newLog: nat, s': State)
    requires Structure(s) && Meaningful(s) && ReopenStep(s, order, chunks, added, tables', newLog, s')
    ensures Meaningful(s')
  {
    ReopenVersions(s, order, chunks, added, tables', newLog, s');
    AgreeNewer(s.tables, tables', s.levels);
    ReopenRecency(s, order, chunks, added, tables', newLog, s');
    ReopenSequence(s, order, chunks, added, tables', newLog, s');
    ReopenContents(s, order, chunks, added, tables', newLog, s');
    ReopenViews(s, s');
  }

  lemma ReopenViews(s: State, s': State)
    requires LogsOk(s) && HistoryOk(s)
    requires s'.history == LoggedHistory(s) && s.flushed <= |s'.history| == s'.flushed
    requires FileEntries(s'.tables, s'.levels) == FileEntries(s.tables, s.levels) + LogEntries(s'.history[s.flushed..])
    requires SameViews(FileEntries(s.tables, s.levels), LogEntries(s.history[..s.flushed]), s.floor)
    ensures SameViews(FileEntries(s'.tables, s'.levels), LogEntries(s'.history[..s'.flushed]), s.floor)
  {
    var h := s'.history;
    LoggedContiguous(s);
    StoredUnique(s);
    SameViewsExtend(FileEntries(s.tables, s.levels), h, s.flushed, |h|, s.floor);
    assert h[s.flushed..|h|] == h[s.flushed..];
  }

  lemma ReopenRecency(s: State, order: seq<nat>, chunks: seq<seq<Batch>>, added: seq<File>, tables': Tables,
                      newLog: nat, s': State)
    requires LogsOk(s) && HistoryOk(s) && LastLog(s.manifest) == Some(s.logNumber)
    requires AllBacked(s.tables, s.levels) && AgreeOn(s.tables, tables', s.levels) && Recency(tables', s.levels)
    requires ReopenStep(s, order, chunks, added, tables', newLog, s')
    requires AddsLevel0(s.levels, s'.levels, added)
    requires forall l, g, o :: 0 <= l < NUM_LEVELS && g in s.levels[l] && o in added ==> g.number < o.number
    ensures Recency(s'.tables, s'.levels)
  {
    var h := LoggedHistory(s);
    LoggedContiguous(s);
    RecoveredBatches(s, order);
    ContiguousAscending(h, s.flushed);
    NonEmptyAscending(h[s.flushed..]);
    AddedRecency(tables', chunks, added, LastNext(s.manifest).value, newLog);
    forall l, g, o | 0 <= l < NUM_LEVELS && g in s.levels[l] && o in added ensures FileNewer(tables', o, g) {
      AddedIsNewer(s, h, chunks, added, tables', newLog, l, g, o);
    }
    ReopenKeepsRecency(tables', s.levels, s'.levels, added);
  }

  lemma AddedIsNewer(s: State, h: seq<Batch>, chunks: seq<seq<Batch>>, added: seq<File>, tables': Tables, newLog: nat,
                     l: nat, g: File, o: File)
    requires HistoryOk(s) && Contiguous(h) && s.flushed <= |h| && h[..s.flushed] == s.history[..s.flushed]
    requires AllBacked(s.tables, s.levels) && AgreeOn(s.tables, tables', s.levels)
    requires LastNext(s.manifest).Some? && RecoveredTables(tables', chunks, added, LastNext(s.manifest).value, newLog)
    requires Flatten(chunks) == NonEmpty(h[s.flushed..])
    requires l < |s.levels| && g in s.levels[l] && o in added
    ensures FileNewer(tables', o, g)
  {
    AddedEntries(tables', chunks, added, LastNext(s.manifest).value, newLog, h[s.flushed..]);
    AgreeBacked(s.tables, tables', s.levels);
    forall e, d | InFile(tables', o, e) && InFile(tables', g, d) ensures e.sn > d.sn {
      assert InAdded(tables', added, e);
      assert e in LogEntries(h[s.flushed..]);
      assert InFile(s.tables, g, d) && AtLevel(s.tables, s.levels, l, d);
      assert d in FileEntries(s.tables, s.levels);
      assert h[s.flushed..|h|] == h[s.flushed..];
      UnflushedIsNewer(h, s.flushed, |h|, e, d);
    }
  }
}
