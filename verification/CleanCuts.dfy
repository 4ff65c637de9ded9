/** When compactions cut cleanly, what goes wrong when they do not, and why runs without snapshots
    always do (db/db_impl.cpp:847-848 may cut outputs between two versions of a user key, and
    db/version_set.cpp:1109-1116 picks a single file above level 0). */
module CleanCuts {
  import opened DbFormat
  import opened Versions
  import opened VersionBuilder
  import opened CompactionPicker
  import opened CompactionWork
  import opened Store
  import opened StoreView
  import opened History
  import opened Engine
  import opened EngineStructure
  import opened EngineRecovery
  import opened EngineTheorems

  //////////////////////////////////////////////////////////////////////////////
  // Exactly when recency survives.

  /** An input entry of `level` has an older entry of its key in a file that stays at `level`. */
  ghost predicate SplitKey(tables: Tables, levels: Levels, job: Job, k: UserKey)
    requires job.level < |levels|
  {
    exists f, g, e, d ::
      && f in job.in0 && g in levels[job.level] && g !in job.in0
      && InFile(tables, f, e) && InFile(tables, g, d) && e.key == d.key == k && d.sn < e.sn
  }

  ghost predicate NewestInput(input: seq<Entry>, k: UserKey, n: Entry) {
    n in input && n.key == k && forall e :: e in input && e.key == k ==> e.sn <= n.sn
  }

  /** The newest input entry of the key is a deletion marker that the loop drops. */
  ghost predicate DropsWholeKey(input: seq<Entry>, snapshot: nat, levels: Levels, level: nat, k: UserKey) {
    exists n :: NewestInput(input, k, n) && n.kind.Deletion? && n.sn <= snapshot && BaseLevel(levels, level, k)
  }

  /** Nothing of a key survives if its newest input entry is a dropped deletion marker. */
  lemma WholeKeyDropped(input: seq<Entry>, snapshot: nat, levels: Levels, level: nat, k: UserKey, e: Entry)
    requires SortedTable(input) && UniqueSeqs(iset x | x in input)
    requires DropsWholeKey(input, snapshot, levels, level, k) && e.key == k
    ensures !Survives(input, snapshot, levels, level, e)
  {
    var n :| NewestInput(input, k, n) && n.kind.Deletion? && n.sn <= snapshot && BaseLevel(levels, level, k);
    var i :| 0 <= i < |input| && input[i] == n;
    KeptMembers(input, |input|, snapshot, levels, level, e);
    forall j | 0 <= j < |input| && input[j] == e ensures Dropped(input, j, snapshot, levels, level) {
      NewestComesFirst(input, i, j);
      if i < j {
        SandwichedKey(input, i, j);
      }
    }
  }

  lemma NewestComesFirst(input: seq<Entry>, i: nat, j: nat)
    requires SortedTable(input) && UniqueSeqs(iset x | x in input) && i < |input| && j < |input|
    requires input[i].key == input[j].key && input[j].sn <= input[i].sn
    ensures i <= j
  {
    assert j < i ==> Less(KeyOf(input[j]), KeyOf(input[i]));
    assert input[i] in input && input[j] in input;
  }

  /** Otherwise that newest entry survives. */
  lemma NewestSurvives(input: seq<Entry>, snapshot: nat, levels: Levels, level: nat, n: Entry)
    requires SortedTable(input) && UniqueSeqs(iset x | x in input) && NewestInput(input, n.key, n)
    requires !DropsWholeKey(input, snapshot, levels, level, n.key)
    ensures Survives(input, snapshot, levels, level, n)
  {
    var i :| 0 <= i < |input| && input[i] == n;
    if i > 0 {
      assert Less(KeyOf(input[i - 1]), KeyOf(input[i]));
      assert input[i - 1] in input;
    }
    assert !Dropped(input, i, snapshot, levels, level);
    KeptMembers(input, |input|, snapshot, levels, level, n);
  }

  lemma {:induction false} NewestInputExists(input: seq<Entry>, e: Entry) returns (n: Entry)
    requires e in input
    ensures NewestInput(input, e.key, n) && n.sn >= e.sn
  {
    var all := iset x | x in input;
    var bound := e.sn;
    for i := 0 to |input|
      invariant bound >= e.sn && forall j :: 0 <= j < i ==> input[j].sn <= bound
    {
      if input[i].sn > bound { bound := input[i].sn; }
    }
    n := NewestExists(all, e.key, bound, e);
  }

  /** Every split key loses all its input entries to a dropped deletion marker. */
  ghost predicate SplitKeysVanish(tables: Tables, levels: Levels, job: Job, input: seq<Entry>, snapshot: nat)
    requires job.level < |levels|
  {
    forall k :: SplitKey(tables, levels, job, k) ==> DropsWholeKey(input, snapshot, levels, job.level, k)
  }

  /** Exactly when a compaction keeps recency.  In particular it does whenever no key is split. */
  lemma CompactionRecencyExact(tables: Tables, levels: Levels, levels': Levels, job: Job, outs: seq<File>,
                               input: seq<Entry>, snapshot: nat)
    requires GoodVersion(tables, levels) && Recency(tables, levels) && UniqueSeqs(FileEntries(tables, levels))
    requires Selected(levels, job) && IsMergeOf(tables, job, input)
    requires ReplacesInputs(levels, levels', job, outs)
    requires Outputs(tables, outs, Kept(input, |input|, snapshot, levels, job.level))
    ensures Recency(tables, levels') <==> SplitKeysVanish(tables, levels, job, input, snapshot)
  {
    InputsUnique(tables, levels, job, input);
    if SplitKeysVanish(tables, levels, job, input, snapshot) {
      SplitKeysDropped(tables, levels, levels', job, outs, input, snapshot);
    } else {
      var k :| SplitKey(tables, levels, job, k) && !DropsWholeKey(input, snapshot, levels, job.level, k);
      var f, g, e, d := SplitWitness(tables, levels, job, k);
      SplitKeySurvives(tables, levels, levels', job, outs, input, snapshot, f, g, e, d);
    }
  }

  lemma SplitWitness(tables: Tables, levels: Levels, job: Job, k: UserKey)
    returns (f: File, g: File, e: Entry, d: Entry)
    requires job.level < |levels| && SplitKey(tables, levels, job, k)
    ensures f in job.in0 && g in levels[job.level] && g !in job.in0
    ensures InFile(tables, f, e) && InFile(tables, g, d) && e.key == d.key == k && d.sn < e.sn
  {
    f, g, e, d :| && f in job.in0 && g in levels[job.level] && g !in job.in0
                  && InFile(tables, f, e) && InFile(tables, g, d) && e.key == d.key == k && d.sn < e.sn;
  }

  lemma InputsUnique(tables: Tables, levels: Levels, job: Job, input: seq<Entry>)
    requires InputsPresent(levels, job) && IsMergeOf(tables, job, input) && UniqueSeqs(FileEntries(tables, levels))
    ensures UniqueSeqs(iset x | x in input)
  {
    EntriesBefore(tables, levels, job, input);
    assert (iset x | x in input) <= FileEntries(tables, levels);
    UniqueSubset(FileEntries(tables, levels), iset x | x in input);
  }

  lemma SplitKeySurvives(tables: Tables, levels: Levels, levels': Levels, job: Job, outs: seq<File>,
                         input: seq<Entry>, snapshot: nat, f: File, g: File, e: Entry, d: Entry)
    requires InputsPresent(levels, job) && IsMergeOf(tables, job, input) && UniqueSeqs(iset x | x in input)
    requires ReplacesInputs(levels, levels', job, outs)
    requires Outputs(tables, outs, Kept(input, |input|, snapshot, levels, job.level))
    requires f in job.in0 && g in levels[job.level] && g !in job.in0
    requires InFile(tables, f, e) && InFile(tables, g, d) && e.key == d.key && d.sn < e.sn
    requires !DropsWholeKey(input, snapshot, levels, job.level, e.key)
    ensures !Recency(tables, levels')
  {
    assert f in job.in0 + job.in1;
    var n := SplitNewest(input, snapshot, levels, job.level, e);
    OutputMembers(tables, outs, Kept(input, |input|, snapshot, levels, job.level), n);
    var o :| o in outs && InFile(tables, o, n);
    BreaksRecency(tables, levels', job.level, g, o, d, n);
  }

  lemma BreaksRecency(tables: Tables, levels: Levels, l: nat, g: File, o: File, d: Entry, n: Entry)
    requires l + 1 < |levels| && g in levels[l] && o in levels[l + 1]
    requires InFile(tables, g, d) && InFile(tables, o, n) && d.key == n.key && d.sn < n.sn
    ensures !Recency(tables, levels)
  {
    assert !FileNewer(tables, g, o);
  }

  lemma SplitNewest(input: seq<Entry>, snapshot: nat, levels: Levels, level: nat, e: Entry) returns (n: Entry)
    requires SortedTable(input) && UniqueSeqs(iset x | x in input) && e in input
    requires !DropsWholeKey(input, snapshot, levels, level, e.key)
    ensures Survives(input, snapshot, levels, level, n) && n.key == e.key && n.sn >= e.sn
  {
    n := NewestInputExists(input, e);
    NewestSurvives(input, snapshot, levels, level, n);
  }

  lemma SplitKeysDropped(tables: Tables, levels: Levels, levels': Levels, job: Job, outs: seq<File>,
                         input: seq<Entry>, snapshot: nat)
    requires GoodVersion(tables, levels) && Recency(tables, levels) && UniqueSeqs(FileEntries(tables, levels))
    requires UniqueSeqs(iset x | x in input)
    requires Selected(levels, job) && IsMergeOf(tables, job, input)
    requires ReplacesInputs(levels, levels', job, outs)
    requires Outputs(tables, outs, Kept(input, |input|, snapshot, levels, job.level))
    requires SplitKeysVanish(tables, levels, job, input, snapshot)
    ensures Recency(tables, levels')
  {
    var kept := Kept(input, |input|, snapshot, levels, job.level);
    KeptFromInputs(tables, job, input, snapshot, levels);
    OutputsNewerThanBelow(tables, levels, job, outs, input, kept);
    forall o, l, g | o in outs && 0 <= l <= job.level && g in levels[l] && !IsInput(job, l, g)
      ensures FileNewer(tables, g, o)
    {
      StaysNewer(tables, levels, job, outs, input, snapshot, l, g, o);
    }
    RecencyAfter(tables, levels, levels', job, outs);
  }

  lemma StaysNewer(tables: Tables, levels: Levels, job: Job, outs: seq<File>, input: seq<Entry>, snapshot: nat,
                   l: nat, g: File, o: File)
    requires GoodVersion(tables, levels) && Recency(tables, levels) && UniqueSeqs(FileEntries(tables, levels))
    requires UniqueSeqs(iset x | x in input) && Selected(levels, job) && IsMergeOf(tables, job, input)
    requires Outputs(tables, outs, Kept(input, |input|, snapshot, levels, job.level)) && o in outs
    requires SplitKeysVanish(tables, levels, job, input, snapshot)
    requires l <= job.level && g in levels[l] && !IsInput(job, l, g)
    ensures FileNewer(tables, g, o)
  {
    KeptFromInputs(tables, job, input, snapshot, levels);
    forall e, d | InFile(tables, g, e) && InFile(tables, o, d) && e.key == d.key ensures e.sn > d.sn {
      OutputMembers(tables, outs, Kept(input, |input|, snapshot, levels, job.level), d);
      EntryStaysNewer(tables, levels, job, input, snapshot, l, g, e, d);
    }
  }

  lemma EntryStaysNewer(tables: Tables, levels: Levels, job: Job, input: seq<Entry>, snapshot: nat,
                        l: nat, g: File, e: Entry, d: Entry)
    requires GoodVersion(tables, levels) && Recency(tables, levels) && UniqueSeqs(FileEntries(tables, levels))
    requires UniqueSeqs(iset x | x in input) && Selected(levels, job) && IsMergeOf(tables, job, input)
    requires SplitKeysVanish(tables, levels, job, input, snapshot)
    requires l <= job.level && g in levels[l] && !IsInput(job, l, g) && InFile(tables, g, e)
    requires d in input && Survives(input, snapshot, levels, job.level, d) && e.key == d.key
    ensures e.sn > d.sn
  {
    var m, f := InputAt(tables, levels, job, input, d);
    if m > l {
      assert FileNewer(tables, g, f);
    } else {
      if e.sn < d.sn {
        assert SplitKey(tables, levels, job, d.key);
        WholeKeyDropped(input, snapshot, levels, job.level, d.key, d);
      }
      DifferentEntries(tables, levels, job, f, g, d, e);
    }
  }

  /** An entry is never stored in an input and in another file of its level. */
  lemma DifferentEntries(tables: Tables, levels: Levels, job: Job, f: File, g: File, d: Entry, e: Entry)
    requires GoodVersion(tables, levels) && UniqueSeqs(FileEntries(tables, levels)) && Selected(levels, job)
    requires f in job.in0 && g in levels[job.level] && g !in job.in0
    requires InFile(tables, f, d) && InFile(tables, g, e)
    ensures d.sn != e.sn
  {
    assert AtLevel(tables, levels, job.level, e) && AtLevel(tables, levels, job.level, d);
    assert Stored(tables, levels, e) && Stored(tables, levels, d);
    EntryInRange(tables, f, d);
    EntryInRange(tables, g, e);
    if job.level == 0 {
      assert f in set x | x in job.in0;
      assert !Meet(f, g);
    } else {
      assert Disjoint(f, g);
    }
  }

  //////////////////////////////////////////////////////////////////////////////
  // Runs without snapshots.

  /** No user key is shared by two files of one level above 0. */
  ghost predicate KeysDisjoint(levels: Levels) {
    forall l, f, g :: 1 <= l < |levels| && f in levels[l] && g in levels[l] && f != g ==> !Meet(f, g)
  }

  lemma DisjointKeysCutCleanly(tables: Tables, levels: Levels, job: Job)
    requires GoodVersion(tables, levels) && KeysDisjoint(levels) && Selected(levels, job)
    ensures CleanCut(levels, job)
  {
    forall l, f, g | 1 <= l < NUM_LEVELS && f in levels[l] && g in levels[l] && f != g && Less(f.largest, g.smallest)
      ensures f.largest.user < g.smallest.user
    {
      assert !Meet(f, g) && Backed(tables, f) && Backed(tables, g);
    }
  }

  /** The running compaction saw no snapshot, so all its input entries are at or below the sequence it
      treats as smallest snapshot; and what stays at `level + 1` shares no user key with them. */
  ghost predicate RunsAlone(tables: Tables, levels: Levels, running: Option<Running>) {
    running.Some? ==>
      var Running(job, _, snapshot) := running.value;
      && job.level + 1 < |levels|
      && (forall f, e :: f in job.in0 + job.in1 && InFile(tables, f, e) ==> e.sn <= snapshot)
      && (forall g :: g in levels[job.level + 1] && g !in job.in1 ==> UserBeside(g, job.in0 + job.in1))
  }

  ghost predicate NoSnapshots(s: State) {
    s.snapshots == [] && KeysDisjoint(s.levels) && RunsAlone(s.tables, s.levels, s.running)
  }

  /** If every input entry is visible to every reader, one entry per user key survives. */
  lemma OneEntryPerKey(input: seq<Entry>, snapshot: nat, levels: Levels, level: nat, e: Entry, d: Entry)
    requires SortedTable(input) && forall x :: x in input ==> x.sn <= snapshot
    requires Survives(input, snapshot, levels, level, e) && Survives(input, snapshot, levels, level, d)
    requires e.key == d.key
    ensures e == d
  {
    KeptMembers(input, |input|, snapshot, levels, level, e);
    KeptMembers(input, |input|, snapshot, levels, level, d);
    var i :| 0 <= i < |input| && input[i] == e && !Dropped(input, i, snapshot, levels, level);
    var j :| 0 <= j < |input| && input[j] == d && !Dropped(input, j, snapshot, levels, level);
    if i < j {
      SandwichedKey(input, i, j);
    } else if j < i {
      SandwichedKey(input, j, i);
    }
  }

  lemma OutputsShareNoKey(tables: Tables, outs: seq<File>, input: seq<Entry>, snapshot: nat, levels: Levels, level: nat)
    requires SortedTable(input) && forall x :: x in input ==> x.sn <= snapshot
    requires Outputs(tables, outs, Kept(input, |input|, snapshot, levels, level))
    ensures forall f, g :: f in outs && g in outs && f != g ==> !Meet(f, g)
  {
    var kept := Kept(input, |input|, snapshot, levels, level);
    KeptSorted(input, |input|, snapshot, levels, level);
    var ts := TablesOf(tables, outs);
    forall i, j | 0 <= i < j < |outs| ensures outs[i].largest.user < outs[j].smallest.user {
      assert Backed(tables, outs[i]) && Backed(tables, outs[j]);
      var d, e := ts[i][|ts[i]| - 1], ts[j][0];
      ConcatOrdered(ts, i, j, d, e);
      ConcatMembers(ts, d);
      ConcatMembers(ts, e);
      if d.key == e.key {
        OneEntryPerKey(input, snapshot, levels, level, d, e);
      }
    }
  }

  lemma OutputMissesNeighbour(tables: Tables, levels: Levels, job: Job, outs: seq<File>, kept: seq<Entry>, g: File,
                              o: File)
    requires AllBacked(tables, levels) && InputsPresent(levels, job)
    requires Outputs(tables, outs, kept) && o in outs && UserBeside(g, job.in0 + job.in1)
    requires forall e :: e in kept ==> exists f :: f in job.in0 + job.in1 && InFile(tables, f, e)
    ensures !Meet(g, o)
  {
    assert Backed(tables, o);
    BoundsAreEntries(tables, o);
    var a :| InFile(tables, o, a) && KeyOf(a) == o.smallest;
    var b :| InFile(tables, o, b) && KeyOf(b) == o.largest;
    OutputMembers(tables, outs, kept, a);
    OutputMembers(tables, outs, kept, b);
    var fa :| fa in job.in0 + job.in1 && InFile(tables, fa, a);
    var fb :| fb in job.in0 + job.in1 && InFile(tables, fb, b);
    assert Backed(tables, fa) && Backed(tables, fb);
    EntryInRange(tables, fa, a);
    EntryInRange(tables, fb, b);
  }

  lemma CompactionKeepsKeysDisjoint(s: State, outs: seq<File>, input: seq<Entry>, s': State)
    requires Structure(s) && NoSnapshots(s) && InstallCompactionStep(s, outs, input, s')
    ensures NoSnapshots(s')
  {
    var Running(job, base, snapshot) := s.running.value;
    var kept := Kept(input, |input|, snapshot, base, job.level);
    CompactionMembership(s, outs, input, s');
    KeptFromInputs(s.tables, job, input, snapshot, base);
    OutputsShareNoKey(s.tables, outs, input, snapshot, base, job.level);
    forall g, o | g in s.levels[job.level + 1] && g !in job.in1 && o in outs ensures !Meet(g, o) {
      OutputMissesNeighbour(s.tables, s.levels, job, outs, kept, g, o);
    }
    KeysStayDisjoint(s.levels, s'.levels, job, outs);
  }

  lemma KeysStayDisjoint(levels: Levels, levels': Levels, job: Job, outs: seq<File>)
    requires KeysDisjoint(levels) && ReplacesInputs(levels, levels', job, outs)
    requires forall f, g :: f in outs && g in outs && f != g ==> !Meet(f, g)
    requires forall g, o :: g in levels[job.level + 1] && g !in job.in1 && o in outs ==> !Meet(g, o)
    ensures KeysDisjoint(levels')
  {
    forall l, f, g | 1 <= l < |levels'| && f in levels'[l] && g in levels'[l] && f != g ensures !Meet(f, g) {
      if l == job.level + 1 && f in outs {
        assert g in outs || !Meet(g, f);
      } else if l == job.level + 1 && g in outs {
        assert !Meet(f, g);
      } else {
        assert f in levels[l] && g in levels[l];
      }
    }
  }

  lemma FlushKeepsKeysDisjoint(s: State, f: File, level: nat, s': State)
    requires Structure(s) && NoSnapshots(s) && InstallFlushStep(s, f, level, s')
    ensures NoSnapshots(s')
  {
    FlushMembers(s.levels, FlushEdit(s, [Placed(level, f)]), level, f);
    FlushedMeetsNone(s.levels, s'.levels, level, f);
    if s.running.Some? {
      var job := s.running.value.job;
      forall g | g in s'.levels[job.level + 1] && g !in job.in1 ensures UserBeside(g, job.in0 + job.in1) {
        if g !in s.levels[job.level + 1] {
          assert g == f && level == job.level + 1;
          SunkBesideInputs(s.tables, s.levels, job, level, f);
        }
      }
    }
  }

  lemma FlushedMeetsNone(levels: Levels, levels': Levels, at: nat, f: File)
    requires KeysDisjoint(levels) && AddsFile(levels, levels', at, f) && SinksTo(levels, at, f)
    ensures KeysDisjoint(levels')
  {
    forall g | at >= 1 && g in levels[at] ensures !Meet(f, g) && !Meet(g, f) {
    }
  }

  lemma SunkBesideInputs(tables: Tables, levels: Levels, job: Job, level: nat, f: File)
    requires AllBacked(tables, levels) && |levels| == NUM_LEVELS && InputsPresent(levels, job) && SaneRange(f)
    requires NoGap(job.in0 + job.in1) && job.in0 != [] && level == job.level + 1 && SinksTo(levels, level, f)
    ensures UserBeside(f, job.in0 + job.in1)
  {
    forall h | h in job.in0 + job.in1 ensures h.smallest.user <= h.largest.user && !Meet(f, h) {
      var l := if h in job.in0 then job.level else job.level + 1;
      assert h in levels[l] && Backed(tables, h);
    }
    SunkFileIsBeside(job.in0 + job.in1, f);
  }

  lemma BeginKeepsKeysDisjoint(s: State, job: Job, s': State)
    requires Structure(s) && NoSnapshots(s) && BeginCompactionStep(s, job, s')
    ensures NoSnapshots(s') && CleanCut(s.levels, job)
  {
    DisjointKeysCutCleanly(s.tables, s.levels, job);
    forall g | g in s.levels[job.level + 1] && g !in job.in1 ensures UserBeside(g, job.in0 + job.in1) {
      UserBesideSelection(s.tables, s.levels, job, g);
    }
    forall f, e | f in job.in0 + job.in1 && InFile(s.tables, f, e) ensures e.sn <= s.lastSeq {
      StoredIsPublished(s, if f in job.in0 then job.level else job.level + 1, f, e);
    }
  }

  lemma StoredIsPublished(s: State, l: nat, f: File, e: Entry)
    requires HistoryOk(s) && l < |s.levels| && f in s.levels[l] && InFile(s.tables, f, e)
    ensures e.sn <= s.lastSeq
  {
    assert AtLevel(s.tables, s.levels, l, e) && Stored(s.tables, s.levels, e);
    PrefixContiguous(s.history, s.flushed);
    SeqInRange(s.history[..s.flushed], e);
  }

  lemma UserBesideSelection(tables: Tables, levels: Levels, job: Job, g: File)
    requires GoodVersion(tables, levels) && KeysDisjoint(levels) && Selected(levels, job)
    requires g in levels[job.level + 1] && g !in job.in1
    ensures UserBeside(g, job.in0 + job.in1)
  {
    assert !MeetsHull(g, job.in0) && Backed(tables, g);
    if forall a :: a in job.in0 ==> g.largest.user < a.smallest.user {
      forall f | f in job.in0 + job.in1 ensures g.largest.user < f.smallest.user {
        if f !in job.in0 {
          assert f in levels[job.level + 1] && MeetsHull(f, job.in0) && !Meet(f, g);
        }
      }
    } else {
      assert forall b :: b in job.in0 ==> b.largest.user < g.smallest.user;
      forall f | f in job.in0 + job.in1 ensures f.largest.user < g.smallest.user {
        if f !in job.in0 {
          assert f in levels[job.level + 1] && MeetsHull(f, job.in0) && !Meet(f, g);
        }
      }
    }
  }

  lemma TablesKeepRunningAlone(s: State, s': State)
    requires Structure(s) && NoSnapshots(s) && s' == s.(tables := s'.tables, logs := s'.logs)
    requires AgreeOn(s.tables, s'.tables, s.levels)
    ensures NoSnapshots(s')
  {
    AgreeBacked(s.tables, s'.tables, s.levels);
    if s.running.Some? {
      var job := s.running.value.job;
      forall f, e | f in job.in0 + job.in1 && InFile(s'.tables, f, e) ensures InFile(s.tables, f, e) {
        var l := if f in job.in0 then job.level else job.level + 1;
        assert f in s.levels[l];
      }
    }
  }

  lemma NoSnapshotsNext(s: State, step: Step, s': State)
    requires Structure(s) && NoSnapshots(s) && Next(s, step, s') && !step.TakeSnapshot?
    ensures NoSnapshots(s') && CleanStep(s, step)
  {
    match step
    case WriteTable(n, t) =>
      WriteTableStructure(s, n, t, s');
      TablesKeepRunningAlone(s, s');
    case DeleteObsolete =>
      DeleteObsoleteStructure(s, s');
      TablesKeepRunningAlone(s, s');
    case InstallFlush(f, level) => FlushKeepsKeysDisjoint(s, f, level, s');
    case InstallEmptyFlush => NoOpEdit(s.levels, FlushEdit(s, []));
    case BeginCompaction(job) => BeginKeepsKeysDisjoint(s, job, s');
    case InstallCompaction(outs, input) => CompactionKeepsKeysDisjoint(s, outs, input, s');
    case Reopen(order, chunks, added, tables', newLog) =>
      ReopenVersions(s, order, chunks, added, tables', newLog, s');
    case _ =>
  }

  lemma InitNoSnapshots(s: State)
    requires Init(s)
    ensures NoSnapshots(s)
  {
    assert forall l :: 0 <= l < NUM_LEVELS ==> s.levels[l] == [];
  }

  lemma BothWithoutSnapshots(s: State, step: Step, s': State)
    requires Structure(s) && NoSnapshots(s) && Next(s, step, s') && !step.TakeSnapshot?
    ensures Structure(s') && NoSnapshots(s') && CleanStep(s, step)
  {
    StructureNext(s, step, s');
    NoSnapshotsNext(s, step, s');
  }

  lemma {:induction false} RunWithoutSnapshots(states: seq<State>, steps: seq<Step>, i: nat)
    requires IsRun(states, steps) && i < |states| && forall j :: 0 <= j < |steps| ==> !steps[j].TakeSnapshot?
    ensures Structure(states[i]) && NoSnapshots(states[i])
  {
    if i == 0 {
      InitStructure(states[0]);
      InitNoSnapshots(states[0]);
    } else {
      RunWithoutSnapshots(states, steps, i - 1);
      BothWithoutSnapshots(states[i - 1], steps[i - 1], states[i]);
    }
  }

  /** In a run that takes no snapshot every compaction cuts cleanly, so everything proved about clean
      runs holds for it without further hypothesis. */
  lemma WithoutSnapshotsRunsAreClean(states: seq<State>, steps: seq<Step>)
    requires IsRun(states, steps) && forall j :: 0 <= j < |steps| ==> !steps[j].TakeSnapshot?
    ensures CleanRun(states, steps)
  {
    forall i | 0 <= i < |steps| ensures CleanStep(states[i], steps[i]) {
      RunWithoutSnapshots(states, steps, i);
      BothWithoutSnapshots(states[i], steps[i], states[i + 1]);
    }
  }

  //////////////////////////////////////////////////////////////////////////////
  // An unclean cut that brings a deleted key back.

  const Marker := Entry(1.0, 5, Deletion, [])
  const Hidden := Entry(1.0, 3, Value, [7])
  const MarkerFile := File(11, 0, KeyOf(Marker), KeyOf(Marker))
  const HiddenFile := File(12, 0, KeyOf(Hidden), KeyOf(Hidden))
  const SplitTables: Tables := map[11 := [Marker], 12 := [Hidden]]
  const SplitJob := Job(1, [MarkerFile], [])

  /** Only level 1 has files. */
  ghost predicate OnlyLevel1(levels: Levels, files: seq<File>) {
    |levels| == NUM_LEVELS && forall l :: 0 <= l < NUM_LEVELS ==> levels[l] == if l == 1 then files else []
  }

  lemma OneLevelIsSorted(tables: Tables, levels: Levels, files: seq<File>)
    requires OnlyLevel1(levels, files) && SortedFiles(files) && forall f :: f in files ==> Backed(tables, f)
    ensures SortedLevels(levels) && AllBacked(tables, levels)
  {
  }

  lemma OneLevelIsDisjoint(levels: Levels, files: seq<File>)
    requires OnlyLevel1(levels, files)
    requires forall f, g :: f in files && g in files && f != g ==> Disjoint(f, g) && f.number != g.number
    ensures LevelsDisjoint(levels) && NumbersUnique(levels)
  {
  }

  lemma OneLevelIsRecent(tables: Tables, levels: Levels, files: seq<File>)
    requires OnlyLevel1(levels, files)
    ensures Recency(tables, levels)
  {
  }

  lemma SplitVersionIsGood(levels: Levels)
    requires OnlyLevel1(levels, [MarkerFile, HiddenFile])
    ensures GoodVersion(SplitTables, levels) && Recency(SplitTables, levels)
  {
    assert Backed(SplitTables, MarkerFile) && Backed(SplitTables, HiddenFile);
    OneLevelIsSorted(SplitTables, levels, [MarkerFile, HiddenFile]);
    OneLevelIsDisjoint(levels, [MarkerFile, HiddenFile]);
    OneLevelIsRecent(SplitTables, levels, [MarkerFile, HiddenFile]);
  }

  lemma SplitJobIsSelected(levels: Levels)
    requires OnlyLevel1(levels, [MarkerFile, HiddenFile])
    ensures Selected(levels, SplitJob) && !CleanCut(levels, SplitJob)
  {
    NoGapOne(MarkerFile);
    assert SplitJob.in0 + SplitJob.in1 == [MarkerFile];
    assert MarkerFile in SplitJob.in0 && HiddenFile in levels[1] && HiddenFile !in SplitJob.in0;
    assert Less(MarkerFile.largest, HiddenFile.smallest);
  }

  lemma EntriesOnLevel1(levels: Levels, files: seq<File>, all: iset<Entry>)
    requires OnlyLevel1(levels, files)
    requires forall e :: e in all <==> exists f :: f in files && InFile(SplitTables, f, e)
    ensures FileEntries(SplitTables, levels) == all
  {
    forall e ensures Stored(SplitTables, levels, e) <==> e in all {
      assert e in all ==> AtLevel(SplitTables, levels, 1, e);
    }
  }

  /** A version that satisfies every invariant, and a compaction PickCompaction may choose, after which
      a reader at the smallest snapshot sees a deleted key again. */
  lemma UncleanCutResurrects(levels: Levels, levels': Levels)
    requires OnlyLevel1(levels, [MarkerFile, HiddenFile]) && OnlyLevel1(levels', [HiddenFile])
    ensures GoodVersion(SplitTables, levels) && Recency(SplitTables, levels)
    ensures Selected(levels, SplitJob) && IsMergeOf(SplitTables, SplitJob, [Marker])
    ensures Outputs(SplitTables, [], Kept([Marker], 1, 5, levels, 1)) && ReplacesInputs(levels, levels', SplitJob, [])
    ensures View(FileEntries(SplitTables, levels), 1.0, 5) == None
    ensures View(FileEntries(SplitTables, levels'), 1.0, 5) == Some([7])
  {
    SplitVersionIsGood(levels);
    SplitJobIsSelected(levels);
    SplitCompaction(levels, levels');
    SplitViews(levels, levels');
  }

  lemma SplitCompaction(levels: Levels, levels': Levels)
    requires OnlyLevel1(levels, [MarkerFile, HiddenFile]) && OnlyLevel1(levels', [HiddenFile])
    ensures IsMergeOf(SplitTables, SplitJob, [Marker])
    ensures Outputs(SplitTables, [], Kept([Marker], 1, 5, levels, 1)) && ReplacesInputs(levels, levels', SplitJob, [])
  {
    assert SplitJob.in0 + SplitJob.in1 == [MarkerFile];
    forall e ensures e in [Marker] <==> exists f :: f in SplitJob.in0 + SplitJob.in1 && InFile(SplitTables, f, e) {
      assert InFile(SplitTables, MarkerFile, e) <==> e == Marker;
      assert MarkerFile in SplitJob.in0 + SplitJob.in1;
    }
    assert BaseLevel(levels, 1, 1.0);
    assert Dropped([Marker], 0, 5, levels, 1);
    assert TablesOf(SplitTables, []) == [];
  }

  lemma SplitViews(levels: Levels, levels': Levels)
    requires OnlyLevel1(levels, [MarkerFile, HiddenFile]) && OnlyLevel1(levels', [HiddenFile])
    ensures View(FileEntries(SplitTables, levels), 1.0, 5) == None
    ensures View(FileEntries(SplitTables, levels'), 1.0, 5) == Some([7])
  {
    assert MarkerFile in [MarkerFile, HiddenFile] && HiddenFile in [MarkerFile, HiddenFile];
    assert InFile(SplitTables, MarkerFile, Marker) && InFile(SplitTables, HiddenFile, Hidden);
    EntriesOnLevel1(levels, [MarkerFile, HiddenFile], iset{Marker, Hidden});
    EntriesOnLevel1(levels', [HiddenFile], iset{Hidden});
    ViewIs(iset{Marker, Hidden}, 1.0, 5, Marker);
    ViewIs(iset{Hidden}, 1.0, 5, Hidden);
  }
}
