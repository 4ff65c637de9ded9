/** A read that pins memtables and version under the lock and reads them after releasing it, while the
    store goes on (db/db_impl.cpp:942-987). */
module PinnedReads {
  import opened DbFormat
  import opened Versions
  import opened Store
  import opened StoreView
  import opened History
  import opened Engine
  import opened EngineStructure
  import opened EngineMeaning
  import opened EngineTheorems
  import opened ReadPath

  //////////////////////////////////////////////////////////////////////////////
  // What a pinned version and a pinned memtable look like later.

  ghost predicate IsPinned(s: State, v: Levels) {
    v == s.levels || v in s.pinned
  }

  lemma PinnedTablesStay(s: State, step: Step, s': State, v: Levels)
    requires Structure(s) && Next(s, step, s') && !step.Reopen? && IsPinned(s, v)
    ensures AgreeOn(s.tables, s'.tables, v)
  {
    match step
    case WriteTable(n, t) => assert Settled(v, s.nextFile, s.pending) by { PinnedIsSettled(s, v); }
    case DeleteObsolete => ListedIsLive(s, v);
    case _ =>
  }

  lemma PinnedIsSettled(s: State, v: Levels)
    requires VersionsOk(s) && IsPinned(s, v)
    ensures Settled(v, s.nextFile, s.pending) && AllBacked(s.tables, v)
  {
    if v in s.pinned {
      assert Held(s.tables, v, s.nextFile, s.pending);
    }
  }

  lemma AgreeChain(a: Tables, b: Tables, c: Tables, v: Levels)
    requires AgreeOn(a, b, v) && AgreeOn(b, c, v)
    ensures AgreeOn(a, c, v)
  {
  }

  lemma TablesStayInRun(states: seq<State>, steps: seq<Step>, n: nat, v: Levels)
    requires IsRun(states, steps) && n < |steps| && !steps[n].Reopen? && IsPinned(states[n], v)
    ensures AgreeOn(states[n].tables, states[n + 1].tables, v)
  {
    RunStructure(states, steps, n);
    PinnedTablesStay(states[n], steps[n], states[n + 1], v);
  }

  /** As long as a version is pinned its tables do not change. */
  lemma {:induction false} TablesStayAlong(states: seq<State>, steps: seq<Step>, i: nat, j: nat, v: Levels)
    requires IsRun(states, steps) && i <= j < |states| && (forall n :: i <= n < j ==> !steps[n].Reopen?)
    requires forall n {:trigger IsPinned(states[n], v)} :: i <= n <= j ==> IsPinned(states[n], v)
    ensures AgreeOn(states[i].tables, states[j].tables, v)
    decreases j
  {
    if i < j {
      assert IsPinned(states[j - 1], v);
      TablesStayAlong(states, steps, i, j - 1, v);
      TablesStayInRun(states, steps, j - 1, v);
      AgreeChain(states[i].tables, states[j - 1].tables, states[j].tables, v);
    }
  }

  /** The later contents of a memtable: what it held, and entries newer than `last`. */
  ghost predicate GrownBy(mem: iset<Entry>, mem': iset<Entry>, last: nat) {
    mem <= mem' && forall e :: e in mem' && e !in mem ==> e.sn > last
  }

  lemma MemGrows(s: State, step: Step, s': State)
    requires Structure(s) && Structure(s') && Next(s, step, s') && !step.Reopen? && !step.SwitchMemTable?
    ensures GrownBy(s.mem, s'.mem, s.lastSeq)
  {
    if step.InsertOne? {
      InsertGrows(s, s');
    } else {
      assert s'.mem == s.mem;
    }
  }

  lemma InsertGrows(s: State, s': State)
    requires LogsOk(s') && InsertOneStep(s, s')
    ensures GrownBy(s.mem, s'.mem, s.lastSeq)
  {
    var f := s.inflight.value;
    var e := EntryAt(f.batch, f.done);
    assert IsInserted(s'.inflight.value, e);
    InFlightIsInvisible(s', e);
  }

  lemma MemGrowsInRun(states: seq<State>, steps: seq<Step>, n: nat)
    requires IsRun(states, steps) && n < |steps| && !steps[n].Reopen? && !steps[n].SwitchMemTable?
    ensures GrownBy(states[n].mem, states[n + 1].mem, states[n].lastSeq) && states[n].lastSeq <= states[n + 1].lastSeq
  {
    RunStructure(states, steps, n);
    RunStructure(states, steps, n + 1);
    MemGrows(states[n], steps[n], states[n + 1]);
    HistoryGrows(states[n], steps[n], states[n + 1]);
  }

  lemma {:induction false} MemGrowsAlong(states: seq<State>, steps: seq<Step>, i: nat, j: nat)
    requires IsRun(states, steps) && i <= j < |states|
    requires forall n :: i <= n < j ==> !steps[n].Reopen? && !steps[n].SwitchMemTable?
    ensures GrownBy(states[i].mem, states[j].mem, states[i].lastSeq) && states[i].lastSeq <= states[j].lastSeq
    decreases j
  {
    if i < j {
      MemGrowsAlong(states, steps, i, j - 1);
      MemGrowsInRun(states, steps, j - 1);
    }
  }

  /** Entries that came later are invisible to the reader. */
  lemma GrownLooksTheSame(mem: iset<Entry>, mem': iset<Entry>, last: nat, k: UserKey, t: nat)
    requires GrownBy(mem, mem', last) && t <= last && UniqueSeqs(mem')
    ensures View(mem', k, t) == View(mem, k, t)
    ensures (exists e :: e in mem' && Visible(e, k, t)) <==> exists e :: e in mem && Visible(e, k, t)
  {
    var more := iset e | e in mem' && e !in mem;
    assert mem' == mem + more;
    SameWithoutInvisible(mem, more, k, t);
  }

  //////////////////////////////////////////////////////////////////////////////
  // The read.

  /** The read begins in state `i`, its memtable is last written in state `m`, and it reads in state `j`:
      it pins the version of state `i` all along. */
  ghost predicate Reads(states: seq<State>, steps: seq<Step>, i: nat, m: nat, j: nat) {
    && CleanRun(states, steps) && i <= m <= j < |states|
    && (forall n :: i <= n < j ==> !steps[n].Reopen?) && (forall n :: i <= n < m ==> !steps[n].SwitchMemTable?)
    && forall n {:trigger IsPinned(states[n], states[i].levels)} :: i <= n <= j ==>
       IsPinned(states[n], states[i].levels)
  }

  /** Whatever writes, flushes, compactions and deletions happen while it reads, Get answers what the
      writes acknowledged when it began say at its sequence number. */
  method PinnedGet(ghost states: seq<State>, ghost steps: seq<Step>, ghost i: nat, ghost m: nat, ghost j: nat,
                   mem: seq<Entry>, imm: Option<seq<Entry>>, tables: Tables, levels: Levels, k: UserKey, t: nat)
    returns (answer: Answer)
    requires Reads(states, steps, i, m, j) && states[i].floor <= t <= states[i].lastSeq
    requires ListHolds(mem, states[m].mem) && tables == states[j].tables && levels == states[i].levels
    requires states[i].imm.Some? == imm.Some? && (imm.Some? ==> ListHolds(imm.value, states[i].imm.value))
    ensures ValueOf(answer) == View(LogEntries(states[i].history), k, t)
  {
    ghost var s := states[i];
    RunMeaningful(states, steps, i);
    RunStructure(states, steps, m);
    ReaderSeesHistory(s, k, t);
    LayeredGetIsView(s, k, t);
    LayersUnique(s);
    LayersUnique(states[m]);
    MemGrowsAlong(states, steps, i, m);
    GrownLooksTheSame(s.mem, states[m].mem, s.lastSeq, k, t);
    answer := MemTableGet(mem, k, t, states[m].mem);
    if answer.Missing? && imm.Some? {
      answer := MemTableGet(imm.value, k, t, s.imm.value);
    }
    if answer.Missing? {
      TablesStayAlong(states, steps, i, j, levels);
      answer := LaterFilesGet(s, tables, levels, k, t);
    }
  }

  method LaterFilesGet(ghost s: State, tables: Tables, levels: Levels, k: UserKey, t: nat) returns (answer: Answer)
    requires Structure(s) && Meaningful(s) && s.levels == levels && AgreeOn(s.tables, tables, levels)
    ensures ValueOf(answer) == View(FileEntries(s.tables, levels), k, t)
  {
    StoredUnique(s);
    GoodIsSorted(s.tables, levels);
    AgreeBacked(s.tables, tables, levels);
    AgreeEntries(s.tables, tables, levels);
    AgreeNewer(s.tables, tables, levels);
    var seek;
    ghost var probed;
    answer, seek, probed := Versions.Get(tables, levels, k, t);
  }
}
