/** DBImpl::Get as it runs: the memtable, then the immutable one, then the files of the current version
    (db/db_impl.cpp; db/memtable.cpp). */
module ReadPath {
  import opened DbFormat
  import opened Versions
  import opened Store
  import opened History
  import opened Engine
  import opened EngineMeaning
  import opened EngineTheorems

  /** A memtable's list in key order holds exactly these entries. */
  ghost predicate ListHolds(list: seq<Entry>, entries: iset<Entry>) {
    SortedTable(list) && forall e :: e in entries <==> e in list
  }

  function ValueOf(answer: Answer): Option<Bytes> {
    if answer.Found? then Some(answer.value) else None
  }

  /** MemTable::Get: seek, then look at the one entry found there. */
  method MemTableGet(list: seq<Entry>, k: UserKey, t: nat, ghost entries: iset<Entry>) returns (answer: Answer)
    requires ListHolds(list, entries) && UniqueSeqs(entries)
    ensures answer.Missing? <==> !exists e :: e in entries && Visible(e, k, t)
    ensures ValueOf(answer) == View(entries, k, t)
  {
    answer := TableGet(list, k, t);
    ghost var e := TableGetIsNewest(list, k, t);
    if e.Some? {
      assert IsNewest(entries, k, t, e.value);
      ViewIs(entries, k, t, e.value);
    } else {
      ViewIsNone(entries, k, t);
    }
  }

  /** In every reachable state, Get answers what the acknowledged writes say at its sequence number. */
  method Get(ghost s: State, mem: seq<Entry>, imm: Option<seq<Entry>>, tables: Tables, levels: Levels, k: UserKey,
             t: nat)
    returns (answer: Answer)
    requires Structure(s) && Meaningful(s) && s.floor <= t <= s.lastSeq
    requires ListHolds(mem, s.mem) && s.tables == tables && s.levels == levels
    requires s.imm.Some? == imm.Some? && (imm.Some? ==> ListHolds(imm.value, s.imm.value))
    ensures ValueOf(answer) == View(LogEntries(s.history), k, t)
  {
    ReaderSeesHistory(s, k, t);
    LayeredGetIsView(s, k, t);
    LayersUnique(s);
    answer := MemTableGet(mem, k, t, s.mem);
    if answer.Missing? && imm.Some? {
      answer := MemTableGet(imm.value, k, t, s.imm.value);
    }
    if answer.Missing? {
      answer := FilesGet(s, tables, levels, k, t);
    }
  }

  lemma LayersUnique(s: State)
    requires LogsOk(s) && HistoryOk(s)
    ensures UniqueSeqs(s.mem) && (s.imm.Some? ==> UniqueSeqs(s.imm.value))
  {
    LayersDescend(s);
    UniqueSubset(DbEntries(s), s.mem);
    if s.imm.Some? {
      UniqueSubset(DbEntries(s), s.imm.value);
    }
  }

  method FilesGet(ghost s: State, tables: Tables, levels: Levels, k: UserKey, t: nat) returns (answer: Answer)
    requires Structure(s) && Recency(tables, levels) && s.tables == tables && s.levels == levels
    ensures ValueOf(answer) == View(FileEntries(tables, levels), k, t)
  {
    StoredUnique(s);
    GoodIsSorted(tables, levels);
    var seek;
    ghost var probed;
    answer, seek, probed := Versions.Get(tables, levels, k, t);
  }
}
