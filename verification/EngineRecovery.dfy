/** Crash and reopen: what replaying the manifest and the remaining logs rebuilds
    (db/db_impl.cpp, Recover, RecoverLogFile and Open; db/version_set.cpp, Recover). */
module EngineRecovery {
  import opened DbFormat
  import opened Versions
  import opened VersionBuilder
  import opened Store
  import opened History
  import opened Engine
  import opened EngineStructure

  //////////////////////////////////////////////////////////////////////////////
  // Which batches are read back.

  lemma {:induction false} IncreasingUnique(a: seq<nat>, b: seq<nat>)
    requires Increasing(a) && Increasing(b) && forall n :: n in a <==> n in b
    ensures a == b
  {
    assert (a != [] ==> a[0] in b) && (b != [] ==> b[0] in a);
    if a != [] {
      assert a[0] == b[0];
      forall n ensures n in a[1..] <==> n in b[1..] {
        assert n in a <==> n == a[0] || n in a[1..];
        assert n in b <==> n == b[0] || n in b[1..];
      }
      IncreasingUnique(a[1..], b[1..]);
    }
  }

  ghost function LoggedHistory(s: State): seq<Batch> {
    s.history + (if s.inflight.Some? then [s.inflight.value.batch] else [])
  }

  lemma LoggedContiguous(s: State)
    requires LogsOk(s) && HistoryOk(s)
    ensures Contiguous(LoggedHistory(s)) && End(LoggedHistory(s)) >= s.lastSeq
    ensures LoggedHistory(s)[..s.flushed] == s.history[..s.flushed]
  {
    var h := LoggedHistory(s);
    if s.inflight.Some? {
      assert h[..|h| - 1] == s.history;
    } else {
      assert h == s.history;
    }
  }

  /** The logs numbered from the manifest's log number on hold exactly the batches, the one in flight
      included, that are in no table. */
  lemma RecoveredBatches(s: State, order: seq<nat>)
    requires LogsOk(s) && RecoveryOrder(s.logs, s.logNumber, order)
    ensures s.flushed <= |LoggedHistory(s)|
    ensures ReadLogs(s.logs, order) == LoggedHistory(s)[s.flushed..]
  {
    var h := LoggedHistory(s);
    if s.imm.None? {
      assert [s.logfile][..0] == [];
      IncreasingUnique(order, [s.logfile]);
      assert h[s.flushed..] == s.logs[s.logfile];
    } else {
      IncreasingUnique(order, [s.logNumber, s.logfile]);
      assert order[..1] == [s.logNumber];
      assert [s.logNumber][..0] == [];
      assert ReadLogs(s.logs, [s.logNumber]) == s.logs[s.logNumber];
      assert h[s.flushed..] == s.history[s.flushed..s.memStart] + s.logs[s.logfile];
    }
  }

  /** Recovery restores the last sequence number of everything logged. */
  lemma {:induction false} MaxSequenceIsEnd(h: seq<Batch>, n: nat)
    requires Contiguous(h) && n <= |h|
    ensures MaxSequence(h[n..]) <= End(h)
    ensures n < |h| ==> MaxSequence(h[n..]) == End(h)
    decreases |h|
  {
    if n < |h| {
      var init := h[..|h| - 1];
      assert h[n..][..|h| - n - 1] == init[n..];
      MaxSequenceIsEnd(init, n);
    }
  }

  //////////////////////////////////////////////////////////////////////////////
  // Cutting the batches into memtables.

  /** Later batches hold larger sequence numbers. */
  ghost predicate Ascending(log: seq<Batch>) {
    log == [] || (Ascending(log[..|log| - 1]) && AllAfter(log[..|log| - 1], log[|log| - 1]))
  }

  ghost predicate AllAfter(log: seq<Batch>, b: Batch) {
    forall e, d :: InLog(log, e) && InBatch(b, d) ==> e.sn < d.sn
  }

  lemma {:induction false} ContiguousAscending(h: seq<Batch>, n: nat)
    requires Contiguous(h) && n <= |h|
    ensures Ascending(h[n..])
    decreases |h|
  {
    if n < |h| {
      var init, last := h[..|h| - 1], h[|h| - 1];
      var log := h[n..];
      assert log[..|log| - 1] == init[n..] && log[|log| - 1] == last;
      ContiguousAscending(init, n);
      forall e, d | InLog(init[n..], e) && InBatch(last, d) ensures e.sn < d.sn {
        SeqAfter(init, n, e);
      }
    }
  }

  lemma {:induction false} NonEmptySame(log: seq<Batch>)
    ensures forall e :: InLog(NonEmpty(log), e) <==> InLog(log, e)
    ensures forall b :: b in NonEmpty(log) ==> b.ops != []
  {
    if log != [] {
      var init, last := log[..|log| - 1], log[|log| - 1];
      NonEmptySame(init);
      assert log == init + [last];
      forall e ensures InLog(NonEmpty(log), e) <==> InLog(log, e) {
        InLogConcat(init, [last], e);
        InLogConcat(NonEmpty(init), [last], e);
        if last.ops == [] {
          assert NonEmpty(log) == NonEmpty(init);
          assert !InLog([last], e);
        }
      }
    }
  }

  lemma {:induction false} NonEmptyAscending(log: seq<Batch>)
    requires Ascending(log)
    ensures Ascending(NonEmpty(log))
  {
    if log != [] {
      var init, last := log[..|log| - 1], log[|log| - 1];
      NonEmptyAscending(init);
      NonEmptySame(init);
      var r := NonEmpty(log);
      if last.ops == [] {
        assert r == NonEmpty(init);
      } else {
        assert r[..|r| - 1] == NonEmpty(init) && r[|r| - 1] == last;
      }
    }
  }

  lemma {:induction false} AscendingSplit(a: seq<Batch>, b: seq<Batch>)
    requires Ascending(a + b)
    ensures Ascending(a)
    ensures forall e, d :: InLog(a, e) && InLog(b, d) ==> e.sn < d.sn
    decreases |b|
  {
    if b == [] {
      assert a + b == a;
    } else {
      var init, last := b[..|b| - 1], b[|b| - 1];
      assert (a + b)[..|a + b| - 1] == a + init;
      assert b == init + [last];
      AscendingSplit(a, init);
      forall e, d | InLog(a, e) && InLog(b, d) ensures e.sn < d.sn {
        InLogConcat(init, [last], d);
        InLogConcat(a, init, e);
        if !InLog(init, d) {
          var x :| x in [last] && InBatch(x, d);
        }
      }
    }
  }

  lemma {:induction false} FlattenMembers(chunks: seq<seq<Batch>>, e: Entry)
    ensures InLog(Flatten(chunks), e) <==> exists i :: 0 <= i < |chunks| && InLog(chunks[i], e)
  {
    if chunks != [] {
      var init, last := chunks[..|chunks| - 1], chunks[|chunks| - 1];
      FlattenMembers(init, e);
      InLogConcat(Flatten(init), last, e);
      if exists i :: 0 <= i < |init| && InLog(init[i], e) {
        var i :| 0 <= i < |init| && InLog(init[i], e);
        assert InLog(chunks[i], e);
      }
    }
  }

  lemma {:induction false} ChunksAscend(chunks: seq<seq<Batch>>, i: nat, j: nat, e: Entry, d: Entry)
    requires Ascending(Flatten(chunks)) && i < j < |chunks| && InLog(chunks[i], e) && InLog(chunks[j], d)
    ensures e.sn < d.sn
  {
    var n := |chunks| - 1;
    AscendingSplit(Flatten(chunks[..n]), chunks[n]);
    if j == n {
      FlattenMembers(chunks[..n], e);
      assert InLog(chunks[..n][i], e);
    } else {
      ChunksAscend(chunks[..n], i, j, e, d);
    }
  }

  //////////////////////////////////////////////////////////////////////////////
  // The recovered version.

  /** The files of `levels'` are those of `levels` and, at level 0, those of `added`. */
  ghost predicate AddsLevel0(levels: Levels, levels': Levels, added: seq<File>) {
    && SortedLevels(levels) && SortedLevels(levels')
    && forall l, g {:trigger g in levels'[l]} {:trigger g in levels[l]} :: 0 <= l < NUM_LEVELS ==>
         (g in levels'[l] <==> g in levels[l] || (l == 0 && g in added))
  }

  lemma ReopenMembers(levels: Levels, edit: Edit, added: seq<File>)
    requires SortedLevels(levels) && edit.deleted == {} && edit.added == PlaceAll(0, added)
    requires forall i, j :: 0 <= i < j < |added| ==> added[i].number < added[j].number
    requires forall g, o :: g in levels[0] && o in added ==> g.number < o.number
    ensures AddsLevel0(levels, ApplyEdit(levels, edit), added)
    ensures forall l :: Fresh(edit.added, l, [])
    ensures forall l, g :: AddedAt(edit.added, l, g) <==> l == 0 && g in added
  {
    forall l, g ensures AddedAt(edit.added, l, g) <==> l == 0 && g in added {
      if l == 0 && g in added {
        var i :| 0 <= i < |added| && added[i] == g;
        assert edit.added[i] == Placed(l, g);
      }
    }
    forall l | 0 <= l < NUM_LEVELS ensures Fresh(edit.added, l, levels[l]) {
    }
    ApplyEditSpec(levels, edit);
  }

  lemma ReopenKeepsGood(tables: Tables, levels: Levels, levels': Levels, added: seq<File>)
    requires GoodVersion(tables, levels) && AddsLevel0(levels, levels', added)
    requires forall o :: o in added ==> Backed(tables, o)
    requires forall i, j :: 0 <= i < j < |added| ==> added[i].number < added[j].number
    requires forall l, g, o :: 0 <= l < NUM_LEVELS && g in levels[l] && o in added ==> g.number < o.number
    ensures GoodVersion(tables, levels')
  {
    forall f, g | f in added && g in added && f.number == g.number ensures f == g {
      var i :| 0 <= i < |added| && added[i] == f;
      var j :| 0 <= j < |added| && added[j] == g;
      assert i == j;
    }
  }

  lemma ReopenKeepsRecency(tables: Tables, levels: Levels, levels': Levels, added: seq<File>)
    requires Recency(tables, levels) && AddsLevel0(levels, levels', added)
    requires forall l, g, o :: 0 <= l < NUM_LEVELS && g in levels[l] && o in added ==> FileNewer(tables, o, g)
    requires forall g, o :: g in levels[0] && o in added ==> g.number < o.number
    requires forall f, g :: f in added && g in added && f.number > g.number ==> FileNewer(tables, f, g)
    ensures Recency(tables, levels')
  {
  }

  ghost predicate InAdded(tables: Tables, added: seq<File>, e: Entry) {
    exists o :: o in added && InFile(tables, o, e)
  }

  lemma ReopenEntries(tables: Tables, levels: Levels, levels': Levels, added: seq<File>)
    requires AddsLevel0(levels, levels', added)
    ensures FileEntries(tables, levels') == FileEntries(tables, levels) + iset e | InAdded(tables, added, e)
  {
    forall e ensures Stored(tables, levels', e) <==> Stored(tables, levels, e) || InAdded(tables, added, e) {
      if Stored(tables, levels', e) {
        var l :| AtLevel(tables, levels', l, e);
        var g :| g in levels'[l] && InFile(tables, g, e);
        assert g in levels[l] ==> AtLevel(tables, levels, l, e);
      }
      if Stored(tables, levels, e) {
        var l :| AtLevel(tables, levels, l, e);
        var g :| g in levels[l] && InFile(tables, g, e);
        assert g in levels'[l] && AtLevel(tables, levels', l, e);
      }
      if InAdded(tables, added, e) {
        var o :| o in added && InFile(tables, o, e);
        assert o in levels'[0] && AtLevel(tables, levels', 0, e);
      }
    }
  }

  /** The recovered tables hold exactly the entries of the batches they were cut from. */
  lemma AddedEntries(tables: Tables, chunks: seq<seq<Batch>>, added: seq<File>, from: nat, to: nat, batches: seq<Batch>)
    requires RecoveredTables(tables, chunks, added, from, to) && Flatten(chunks) == NonEmpty(batches)
    ensures (iset e | InAdded(tables, added, e)) == LogEntries(batches)
  {
    NonEmptySame(batches);
    forall e ensures InAdded(tables, added, e) <==> InLog(batches, e) {
      FlattenMembers(chunks, e);
      if InAdded(tables, added, e) {
        var o :| o in added && InFile(tables, o, e);
        var i :| 0 <= i < |added| && added[i] == o;
        assert InLog(chunks[i], e);
      }
      if InLog(batches, e) {
        var i :| 0 <= i < |chunks| && InLog(chunks[i], e);
        assert InFile(tables, added[i], e) && added[i] in added;
      }
    }
  }

  /** A recovered table with a larger number holds newer writes. */
  lemma AddedRecency(tables: Tables, chunks: seq<seq<Batch>>, added: seq<File>, from: nat, to: nat)
    requires RecoveredTables(tables, chunks, added, from, to) && Ascending(Flatten(chunks))
    ensures forall f, g :: f in added && g in added && f.number > g.number ==> FileNewer(tables, f, g)
  {
    forall f, g | f in added && g in added && f.number > g.number ensures FileNewer(tables, f, g) {
      var i :| 0 <= i < |added| && added[i] == f;
      var j :| 0 <= j < |added| && added[j] == g;
      assert j < i;
      forall e, d | InFile(tables, f, e) && InFile(tables, g, d) ensures e.sn > d.sn {
        assert InLog(chunks[i], e) && InLog(chunks[j], d);
        ChunksAscend(chunks, j, i, d, e);
      }
    }
  }

  //////////////////////////////////////////////////////////////////////////////
  // The reopened state.

  /** Replaying the manifest rebuilds the version that was current, and its tables are intact. */
  lemma ReplayIsCurrent(s: State, tables': Tables)
    requires VersionsOk(s) && ManifestOk(s.manifest, s.levels, s.logNumber, s.nextFile, s.pending)
    requires forall n :: n in s.tables && n < LastNext(s.manifest).value ==> n in tables' && tables'[n] == s.tables[n]
    ensures ReplayOnce(EmptyLevels, s.manifest) == s.levels
    ensures AgreeOn(s.tables, tables', s.levels) && GoodVersion(tables', s.levels)
  {
    ReplayOnceIsReplayEach(EmptyLevels, s.manifest);
    AgreeBacked(s.tables, tables', s.levels);
  }

  lemma ReopenVersions(s: State, order: seq<nat>, chunks: seq<seq<Batch>>, added: seq<File>, tables': Tables,
                       newLog: nat, s': State)
    requires VersionsOk(s) && ManifestOk(s.manifest, s.levels, s.logNumber, s.nextFile, s.pending)
    requires ReopenStep(s, order, chunks, added, tables', newLog, s')
    ensures ReplayOnce(EmptyLevels, s.manifest) == s.levels
    ensures AgreeOn(s.tables, tables', s.levels)
    ensures AddsLevel0(s.levels, s'.levels, added)
    ensures forall l, g, o :: 0 <= l < NUM_LEVELS && g in s.levels[l] && o in added ==> g.number < o.number
    ensures VersionsOk(s')
  {
    ReplayIsCurrent(s, tables');
    forall o | o in added ensures Backed(tables', o) && LastNext(s.manifest).value < o.number < newLog {
      var i :| 0 <= i < |added| && added[i] == o;
    }
    ReopenMembers(s.levels, ReopenEdit(added, newLog, s'.lastSeq), added);
    ReopenKeepsGood(tables', s.levels, s'.levels, added);
  }

  lemma ReopenManifest(s: State, order: seq<nat>, chunks: seq<seq<Batch>>, added: seq<File>, tables': Tables,
                       newLog: nat, s': State)
    requires VersionsOk(s) && ManifestOk(s.manifest, s.levels, s.logNumber, s.nextFile, s.pending)
    requires ReopenStep(s, order, chunks, added, tables', newLog, s')
    requires ReplayOnce(EmptyLevels, s.manifest) == s.levels && VersionsOk(s')
    requires forall l, g, o :: 0 <= l < NUM_LEVELS && g in s.levels[l] && o in added ==> g.number < o.number
    ensures ManifestOk(s'.manifest, s'.levels, s'.logNumber, s'.nextFile, s'.pending)
  {
    var snap, edit := SnapshotEdit(s.levels), ReopenEdit(added, newLog, s'.lastSeq);
    GoodIsDistinct(s.levels);
    SnapshotEditSpec(s.levels);
    SnapshotRebuilds(s.levels);
    ReopenMembers(s.levels, edit, added);
    NewManifest(s.levels, snap, edit, added);
    NewManifestNumbers(s.levels, snap, edit, added, LastNext(s.manifest).value, newLog);
    assert s'.manifest == [snap, edit];
  }

  lemma NewManifestNumbers(levels: Levels, snap: Edit, edit: Edit, added: seq<File>, next: nat, newLog: nat)
    requires |levels| == NUM_LEVELS && next < newLog
    requires forall l, f :: AddedAt(snap.added, l, f) <==> 0 <= l < NUM_LEVELS && f in levels[l]
    requires forall l, g :: AddedAt(edit.added, l, g) <==> l == 0 && g in added
    requires forall l, f :: 0 <= l < NUM_LEVELS && f in levels[l] ==> f.number < next
    requires forall i :: 0 <= i < |added| ==> added[i].number < newLog
    ensures forall e, p :: e in [snap, edit] && p in e.added ==> p.file.number < newLog + 1
  {
    forall e, p | e in [snap, edit] && p in e.added ensures p.file.number < newLog + 1 {
      assert AddedAt(e.added, p.level, p.file);
      if e == snap {
        assert p.file in levels[p.level];
      } else {
        assert p.file in added;
      }
    }
  }

  lemma GoodIsDistinct(levels: Levels)
    requires SortedLevels(levels) && NumbersUnique(levels)
    ensures forall l :: 0 <= l < |levels| ==> DistinctNumbers(levels[l])
  {
    forall l, i, j | 0 <= l < |levels| && 0 <= i < j < |levels[l]| ensures levels[l][i].number != levels[l][j].number {
      assert FileLess(levels[l][i], levels[l][j]);
    }
  }

  /** The two records of a fresh manifest replay to the recovered version with the new tables. */
  lemma NewManifest(levels: Levels, snap: Edit, edit: Edit, added: seq<File>)
    requires |levels| == NUM_LEVELS && ApplyEdit(EmptyLevels, snap) == levels
    requires forall l :: Fresh(snap.added, l, [])
    requires forall l, f :: AddedAt(snap.added, l, f) <==> 0 <= l < NUM_LEVELS && f in levels[l]
    requires forall l :: Fresh(edit.added, l, [])
    requires forall l, g :: AddedAt(edit.added, l, g) <==> l == 0 && g in added
    requires forall g, o :: g in levels[0] && o in added ==> g.number < o.number
    ensures NeverReAdded(EmptyLevels, [snap, edit])
    ensures ReplayEach(EmptyLevels, [snap, edit]) == ApplyEdit(levels, edit)
  {
    var m := [snap, edit];
    assert m[..1] == [snap] && [snap][..0] == [] && m[..0] == [];
    assert ReplayEach(EmptyLevels, [snap]) == levels;
    forall i, l | 0 <= i < 2 && 0 <= l < NUM_LEVELS ensures AddsNew(EmptyLevels, m, i, l) {
      assert EmptyLevels[l] == [];
      if i == 1 {
        forall n | NumberAddedAt(edit.added, l, n) ensures !UsedAt(EmptyLevels, m[..1], l, n) {
          var o :| AddedAt(edit.added, l, o) && o.number == n;
          forall g | AddedAt(snap.added, l, g) ensures g.number != n {
          }
        }
      }
    }
  }

  lemma ReopenLogs(s: State, order: seq<nat>, chunks: seq<seq<Batch>>, added: seq<File>, tables': Tables, newLog: nat,
                   s': State)
    requires LogsOk(s) && s.logNumber < s.nextFile && LastLog(s.manifest) == Some(s.logNumber)
    requires ReopenStep(s, order, chunks, added, tables', newLog, s')
    ensures LogsOk(s')
  {
    assert s'.history[s'.memStart..] == [];
    assert forall e :: !InLog([], e);
    forall n | n in s'.logs ensures n < s'.nextFile && (n >= s'.logNumber ==> n == s'.logNumber) {
      if n != newLog {
        assert n in s.logs && (n >= s.logNumber ==> n in order);
        assert s.logfile in order;
      }
    }
    assert s'.mem == LogEntries(s'.history[s'.memStart..]) + Inserted(s'.inflight);
  }

  /** The new version holds what the old one held and everything the logs still held. */
  lemma ReopenContents(s: State, order: seq<nat>, chunks: seq<seq<Batch>>, added: seq<File>, tables': Tables,
                       newLog: nat, s': State)
    requires VersionsOk(s) && LogsOk(s) && LastLog(s.manifest) == Some(s.logNumber)
    requires ReopenStep(s, order, chunks, added, tables', newLog, s')
    requires AgreeOn(s.tables, tables', s.levels) && AddsLevel0(s.levels, s'.levels, added)
    ensures s'.history == LoggedHistory(s) && s.flushed <= |s'.history|
    ensures FileEntries(s'.tables, s'.levels) == FileEntries(s.tables, s.levels) + LogEntries(s'.history[s.flushed..])
  {
    RecoveredBatches(s, order);
    AddedEntries(tables', chunks, added, LastNext(s.manifest).value, newLog, LoggedHistory(s)[s.flushed..]);
    ReopenEntries(tables', s.levels, s'.levels, added);
    AgreeEntries(s.tables, tables', s.levels);
  }

  lemma ReopenSequence(s: State, order: seq<nat>, chunks: seq<seq<Batch>>, added: seq<File>, tables': Tables,
                       newLog: nat, s': State)
    requires LogsOk(s) && HistoryOk(s) && LastLog(s.manifest) == Some(s.logNumber)
    requires ReopenStep(s, order, chunks, added, tables', newLog, s')
    ensures s'.lastSeq == End(LoggedHistory(s)) >= s.lastSeq
  {
    var h := LoggedHistory(s);
    LoggedContiguous(s);
    RecoveredBatches(s, order);
    MaxSequenceIsEnd(h, s.flushed);
    if s.flushed == |h| {
      assert h[s.flushed..] == [] && h[..s.flushed] == h;
    }
  }

  lemma ReopenHistory(s: State, order: seq<nat>, chunks: seq<seq<Batch>>, added: seq<File>, tables': Tables,
                      newLog: nat, s': State)
    requires LogsOk(s) && HistoryOk(s) && LastLog(s.manifest) == Some(s.logNumber)
    requires ReopenStep(s, order, chunks, added, tables', newLog, s')
    requires s'.history == LoggedHistory(s) && s.flushed <= |s'.history|
    requires FileEntries(s'.tables, s'.levels) == FileEntries(s.tables, s.levels) + LogEntries(s'.history[s.flushed..])
    ensures HistoryOk(s')
  {
    LoggedContiguous(s);
    ReopenSequence(s, order, chunks, added, tables', newLog, s');
    WholeHistory(s'.history, s.flushed, FileEntries(s.tables, s.levels));
    assert s'.history[..s'.flushed] == s'.history;
    assert LastSequenceOf(s'.manifest) == Some(s'.lastSeq);
  }

  lemma WholeHistory(h: seq<Batch>, n: nat, stored: iset<Entry>)
    requires n <= |h| && forall e :: e in stored ==> InLog(h[..n], e)
    ensures forall e :: e in stored + LogEntries(h[n..]) ==> InLog(h, e)
  {
    assert h[..n] + h[n..] == h;
    forall e | e in stored + LogEntries(h[n..]) ensures InLog(h, e) {
      InLogConcat(h[..n], h[n..], e);
    }
  }

  lemma ReopenStructure(s: State, order: seq<nat>, chunks: seq<seq<Batch>>, added: seq<File>, tables': Tables,
                        newLog: nat, s': State)
    requires Structure(s) && ReopenStep(s, order, chunks, added, tables', newLog, s')
    ensures Structure(s')
  {
    ReopenVersions(s, order, chunks, added, tables', newLog, s');
    ReopenManifest(s, order, chunks, added, tables', newLog, s');
    ReopenLogs(s, order, chunks, added, tables', newLog, s');
    ReopenContents(s, order, chunks, added, tables', newLog, s');
    ReopenHistory(s, order, chunks, added, tables', newLog, s');
  }
}
