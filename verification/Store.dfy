/** What flush and compaction edits do to a Version and to what it means. */
module Store {
  import opened DbFormat
  import opened Versions
  import opened VersionBuilder
  import opened CompactionPicker
  import opened CompactionWork

  //////////////////////////////////////////////////////////////////////////////
  // The structural invariant of a Version.

  ghost predicate Disjoint(f: File, g: File) {
    Less(f.largest, g.smallest) || Less(g.largest, f.smallest)
  }

  /** Files of levels 1 to 6 are pairwise disjoint in internal-key order. */
  ghost predicate LevelsDisjoint(levels: Levels) {
    forall l, f, g :: 1 <= l < |levels| && f in levels[l] && g in levels[l] && f != g ==> Disjoint(f, g)
  }

  ghost predicate NumbersUnique(levels: Levels) {
    forall l, m, f, g ::
      0 <= l < |levels| && 0 <= m < |levels| && f in levels[l] && g in levels[m] && f.number == g.number
      ==> l == m && f == g
  }

  ghost predicate GoodVersion(tables: Tables, levels: Levels) {
    SortedLevels(levels) && AllBacked(tables, levels) && LevelsDisjoint(levels) && NumbersUnique(levels)
  }

  /** So the overlap assertions of SaveTo and MaybeAddFile hold, and FindFile may search the level. */
  lemma GoodIsSorted(tables: Tables, levels: Levels)
    requires GoodVersion(tables, levels)
    ensures LevelsSorted(levels)
  {
    forall l, f | 0 <= l < NUM_LEVELS && f in levels[l] ensures SaneRange(f) {
      assert Backed(tables, f);
    }
    forall l | 1 <= l < NUM_LEVELS ensures DisjointSorted(levels[l]) {
      var files := levels[l];
      forall i, j | 0 <= i < j < |files| ensures Less(files[i].largest, files[j].smallest) {
        assert FileLess(files[i], files[j]);
        assert Disjoint(files[i], files[j]);
        assert SaneRange(files[i]) && SaneRange(files[j]);
      }
    }
  }

  //////////////////////////////////////////////////////////////////////////////
  // Membership after an edit.

  /** The files of `levels'` are those of `levels` and `f` at level `at`. */
  ghost predicate AddsFile(levels: Levels, levels': Levels, at: nat, f: File) {
    && SortedLevels(levels) && SortedLevels(levels') && at < NUM_LEVELS
    && forall l, g {:trigger g in levels'[l]} {:trigger g in levels[l]} ::
         0 <= l < NUM_LEVELS ==> (g in levels'[l] <==> g in levels[l] || (l == at && g == f))
  }

  predicate IsInput(job: Job, l: int, f: File) {
    (l == job.level && f in job.in0) || (l == job.level + 1 && f in job.in1)
  }

  /** The files of `levels'` are those of `levels` without the inputs, and the outputs one level down. */
  ghost predicate ReplacesInputs(levels: Levels, levels': Levels, job: Job, outs: seq<File>) {
    && SortedLevels(levels) && SortedLevels(levels') && job.level + 1 < NUM_LEVELS
    && forall l, g {:trigger g in levels'[l]} {:trigger g in levels[l]} :: 0 <= l < NUM_LEVELS ==>
         (g in levels'[l] <==> (g in levels[l] && !IsInput(job, l, g)) || (l == job.level + 1 && g in outs))
  }

  lemma FlushMembers(levels: Levels, edit: Edit, at: nat, f: File)
    requires SortedLevels(levels) && at < NUM_LEVELS
    requires edit.deleted == {} && edit.added == [Placed(at, f)]
    requires forall g :: g in levels[at] ==> g.number != f.number
    ensures AddsFile(levels, ApplyEdit(levels, edit), at, f)
  {
    assert edit.added[0] == Placed(at, f);
    assert forall l, g :: AddedAt(edit.added, l, g) <==> l == at && g == f;
    forall l | 0 <= l < NUM_LEVELS ensures Fresh(edit.added, l, levels[l]) {
    }
    ApplyEditSpec(levels, edit);
    AddsOne(levels, edit, ApplyEdit(levels, edit), at, f);
  }

  lemma AddsOne(levels: Levels, edit: Edit, levels': Levels, at: nat, f: File)
    requires SortedLevels(levels) && at < NUM_LEVELS && EditedTo(levels, edit, levels')
    requires edit.deleted == {} && forall l, g :: AddedAt(edit.added, l, g) <==> l == at && g == f
    ensures AddsFile(levels, levels', at, f)
  {
  }

  function InputDeletions(job: Job): set<Slot> {
    (set f | f in job.in0 :: Slot(job.level, f.number)) + (set f | f in job.in1 :: Slot(job.level + 1, f.number))
  }

  function OutputAdditions(job: Job, outs: seq<File>): seq<Placed> {
    seq(|outs|, i requires 0 <= i < |outs| => Placed(job.level + 1, outs[i]))
  }

  lemma CompactionMembers(levels: Levels, edit: Edit, job: Job, outs: seq<File>)
    requires SortedLevels(levels) && NumbersUnique(levels) && job.level + 1 < NUM_LEVELS
    requires forall f :: f in job.in0 ==> f in levels[job.level]
    requires forall f :: f in job.in1 ==> f in levels[job.level + 1]
    requires edit.deleted == InputDeletions(job) && edit.added == OutputAdditions(job, outs)
    requires forall i, j :: 0 <= i < j < |outs| ==> outs[i].number != outs[j].number
    requires forall l, g, o :: 0 <= l < NUM_LEVELS && g in levels[l] && o in outs ==> g.number != o.number
    ensures ReplacesInputs(levels, ApplyEdit(levels, edit), job, outs)
  {
    forall l, g ensures AddedAt(edit.added, l, g) <==> l == job.level + 1 && g in outs {
      if l == job.level + 1 && g in outs {
        var i :| 0 <= i < |outs| && outs[i] == g;
        assert edit.added[i] == Placed(l, g);
      }
    }
    forall l | 0 <= l < NUM_LEVELS ensures Fresh(edit.added, l, levels[l]) {
    }
    ApplyEditSpec(levels, edit);
    DeletesInputs(levels, job);
    AddsOutputs(levels, edit, ApplyEdit(levels, edit), job, outs);
  }

  lemma DeletesInputs(levels: Levels, job: Job)
    requires SortedLevels(levels) && NumbersUnique(levels) && job.level + 1 < NUM_LEVELS
    requires forall f :: f in job.in0 ==> f in levels[job.level]
    requires forall f :: f in job.in1 ==> f in levels[job.level + 1]
    ensures forall l, g :: 0 <= l < NUM_LEVELS && g in levels[l] ==>
              (Slot(l, g.number) in InputDeletions(job) <==> IsInput(job, l, g))
  {
  }

  lemma AddsOutputs(levels: Levels, edit: Edit, levels': Levels, job: Job, outs: seq<File>)
    requires SortedLevels(levels) && job.level + 1 < NUM_LEVELS && EditedTo(levels, edit, levels')
    requires forall l, g :: 0 <= l < NUM_LEVELS && g in levels[l] ==>
               (Slot(l, g.number) in edit.deleted <==> IsInput(job, l, g))
    requires forall l, g :: AddedAt(edit.added, l, g) <==> l == job.level + 1 && g in outs
    ensures ReplacesInputs(levels, levels', job, outs)
  {
  }

  //////////////////////////////////////////////////////////////////////////////
  // The outputs of a compaction.

  function TablesOf(tables: Tables, outs: seq<File>): seq<seq<Entry>>
    requires forall o :: o in outs ==> o.number in tables
  {
    seq(|outs|, i requires 0 <= i < |outs| => tables[outs[i].number])
  }

  /** Each output file describes one of the tables that the loop cut `kept` into. */
  ghost predicate Outputs(tables: Tables, outs: seq<File>, kept: seq<Entry>) {
    && (forall o :: o in outs ==> Backed(tables, o))
    && (forall i, j :: 0 <= i < j < |outs| ==> outs[i].number != outs[j].number)
    && Concat(TablesOf(tables, outs)) == kept
  }

  lemma {:induction false} ConcatMembers(tables: seq<seq<Entry>>, e: Entry)
    ensures e in Concat(tables) <==> exists i :: 0 <= i < |tables| && e in tables[i]
  {
    if tables != [] {
      ConcatMembers(tables[..|tables| - 1], e);
    }
  }

  lemma {:induction false} ConcatOrdered(tables: seq<seq<Entry>>, i: nat, j: nat, d: Entry, e: Entry)
    requires SortedTable(Concat(tables)) && i < j < |tables| && d in tables[i] && e in tables[j]
    ensures Less(KeyOf(d), KeyOf(e))
  {
    var n := |tables| - 1;
    var init := Concat(tables[..n]);
    var all := Concat(tables);
    assert all == init + tables[n];
    if j == n {
      ConcatMembers(tables[..n], d);
      assert d in init by { assert tables[..n][i] == tables[i]; }
      var x :| 0 <= x < |init| && init[x] == d;
      var y :| 0 <= y < |tables[n]| && tables[n][y] == e;
      assert all[x] == d && all[|init| + y] == e;
    } else {
      forall x, y | 0 <= x < y < |init| ensures Less(KeyOf(init[x]), KeyOf(init[y])) {
        assert all[x] == init[x] && all[y] == init[y];
      }
      ConcatOrdered(tables[..n], i, j, d, e);
    }
  }

  lemma OutputMembers(tables: Tables, outs: seq<File>, kept: seq<Entry>, e: Entry)
    requires Outputs(tables, outs, kept)
    ensures e in kept <==> exists o :: o in outs && InFile(tables, o, e)
  {
    var ts := TablesOf(tables, outs);
    ConcatMembers(ts, e);
    if e in kept {
      var i :| 0 <= i < |ts| && e in ts[i];
      assert outs[i] in outs && InFile(tables, outs[i], e);
    }
    if o :| o in outs && InFile(tables, o, e) {
      var i :| 0 <= i < |outs| && outs[i] == o;
      assert e in ts[i];
    }
  }

  lemma OutputsDisjoint(tables: Tables, outs: seq<File>, kept: seq<Entry>)
    requires Outputs(tables, outs, kept) && SortedTable(kept)
    ensures forall f, g :: f in outs && g in outs && f != g ==> Disjoint(f, g)
  {
    var ts := TablesOf(tables, outs);
    forall i, j | 0 <= i < j < |outs| ensures Less(outs[i].largest, outs[j].smallest) {
      assert Backed(tables, outs[i]) && Backed(tables, outs[j]);
      var d, e := ts[i][|ts[i]| - 1], ts[j][0];
      ConcatOrdered(ts, i, j, d, e);
    }
  }

  //////////////////////////////////////////////////////////////////////////////
  // Edits keep the structural invariant.

  /** A file of `level + 1` that is not an input lies before all inputs or after all of them. */
  ghost predicate Beside(g: File, inputs: seq<File>) {
    || (forall f :: f in inputs ==> Less(g.largest, f.smallest))
    || (forall f :: f in inputs ==> Less(f.largest, g.smallest))
  }

  ghost predicate InputsSeparated(levels: Levels, job: Job) {
    job.level + 1 < |levels| &&
    forall g :: g in levels[job.level + 1] && g !in job.in1 ==> Beside(g, job.in0 + job.in1)
  }

  /** Choosing inputs with PickCompaction separates them from what stays at `level + 1`. */
  lemma SelectionSeparates(tables: Tables, levels: Levels, job: Job)
    requires GoodVersion(tables, levels) && Selected(levels, job)
    ensures InputsSeparated(levels, job)
  {
    forall g | g in levels[job.level + 1] && g !in job.in1 ensures Beside(g, job.in0 + job.in1) {
      BesideSelection(tables, levels, job, g);
    }
  }

  lemma BesideSelection(tables: Tables, levels: Levels, job: Job, g: File)
    requires GoodVersion(tables, levels) && Selected(levels, job)
    requires g in levels[job.level + 1] && g !in job.in1
    ensures Beside(g, job.in0 + job.in1)
  {
    assert !MeetsHull(g, job.in0);
    assert SaneRange(g) by { assert Backed(tables, g); }
    if forall a :: a in job.in0 ==> g.largest.user < a.smallest.user {
      forall f | f in job.in0 + job.in1 ensures Less(g.largest, f.smallest) {
        if f !in job.in0 {
          assert f in levels[job.level + 1] && MeetsHull(f, job.in0);
          assert Disjoint(f, g);
        }
      }
    } else {
      assert forall b :: b in job.in0 ==> b.largest.user < g.smallest.user;
      forall f | f in job.in0 + job.in1 ensures Less(f.largest, g.smallest) {
        if f !in job.in0 {
          assert f in levels[job.level + 1] && MeetsHull(f, job.in0);
          assert Disjoint(f, g);
        }
      }
    }
  }

  /** A flushed file may go to any level it can sink to without overlap. */
  ghost predicate SinksTo(levels: Levels, at: nat, f: File) {
    && at < NUM_LEVELS == |levels|
    && (at > 0 ==> forall l, g :: 0 <= l <= at && g in levels[l] ==> !Meet(f, g))
  }

  lemma FlushKeepsGood(tables: Tables, levels: Levels, levels': Levels, at: nat, f: File)
    requires GoodVersion(tables, levels) && AddsFile(levels, levels', at, f)
    requires Backed(tables, f) && SinksTo(levels, at, f)
    requires forall l, g :: 0 <= l < NUM_LEVELS && g in levels[l] ==> g.number != f.number
    ensures GoodVersion(tables, levels')
  {
    forall g | at >= 1 && g in levels[at] ensures Disjoint(f, g) {
      assert !Meet(f, g);
    }
  }

  lemma CompactionKeepsGood(tables: Tables, levels: Levels, levels': Levels, job: Job, outs: seq<File>,
                            kept: seq<Entry>)
    requires GoodVersion(tables, levels) && ReplacesInputs(levels, levels', job, outs)
    requires InputsSeparated(levels, job)
    requires forall f :: f in job.in0 ==> f in levels[job.level]
    requires forall f :: f in job.in1 ==> f in levels[job.level + 1]
    requires Outputs(tables, outs, kept) && SortedTable(kept)
    requires forall e :: e in kept ==> exists f :: f in job.in0 + job.in1 && InFile(tables, f, e)
    requires forall l, g, o :: 0 <= l < NUM_LEVELS && g in levels[l] && o in outs ==> g.number != o.number
    ensures GoodVersion(tables, levels')
  {
    OutputsDisjoint(tables, outs, kept);
    forall g, o | g in levels[job.level + 1] && g !in job.in1 && o in outs ensures Disjoint(g, o) {
      OutputBeside(tables, levels, job, outs, kept, g, o);
    }
    ReplacedDisjoint(levels, levels', job, outs);
    ReplacedUnique(levels, levels', job, outs);
    assert AllBacked(tables, levels');
  }

  lemma ReplacedDisjoint(levels: Levels, levels': Levels, job: Job, outs: seq<File>)
    requires LevelsDisjoint(levels) && ReplacesInputs(levels, levels', job, outs)
    requires forall f, g :: f in outs && g in outs && f != g ==> Disjoint(f, g)
    requires forall g, o :: g in levels[job.level + 1] && g !in job.in1 && o in outs ==> Disjoint(g, o)
    ensures LevelsDisjoint(levels')
  {
    forall l, f, g | 1 <= l < NUM_LEVELS && f in levels'[l] && g in levels'[l] && f != g ensures Disjoint(f, g) {
      if l == job.level + 1 && f in outs {
        assert g !in outs ==> Disjoint(g, f);
      } else if l == job.level + 1 && g in outs {
        assert Disjoint(f, g);
      } else {
        assert f in levels[l] && g in levels[l];
      }
    }
  }

  lemma ReplacedUnique(levels: Levels, levels': Levels, job: Job, outs: seq<File>)
    requires NumbersUnique(levels) && ReplacesInputs(levels, levels', job, outs)
    requires forall i, j :: 0 <= i < j < |outs| ==> outs[i].number != outs[j].number
    requires forall l, g, o :: 0 <= l < NUM_LEVELS && g in levels[l] && o in outs ==> g.number != o.number
    ensures NumbersUnique(levels')
  {
    forall f, g | f in outs && g in outs && f.number == g.number ensures f == g {
      var i :| 0 <= i < |outs| && outs[i] == f;
      var j :| 0 <= j < |outs| && outs[j] == g;
      assert i == j;
    }
  }

  /** An output lies where its entries came from, so it misses every file the inputs miss. */
  lemma OutputBeside(tables: Tables, levels: Levels, job: Job, outs: seq<File>, kept: seq<Entry>, g: File, o: File)
    requires AllBacked(tables, levels) && job.level + 1 < |levels|
    requires forall f :: f in job.in0 ==> f in levels[job.level]
    requires forall f :: f in job.in1 ==> f in levels[job.level + 1]
    requires Outputs(tables, outs, kept) && o in outs && Beside(g, job.in0 + job.in1)
    requires forall e :: e in kept ==> exists f :: f in job.in0 + job.in1 && InFile(tables, f, e)
    ensures Disjoint(g, o)
  {
    assert Backed(tables, o);
    BoundsAreEntries(tables, o);
    var a :| InFile(tables, o, a) && KeyOf(a) == o.smallest;
    var b :| InFile(tables, o, b) && KeyOf(b) == o.largest;
    OutputMembers(tables, outs, kept, a);
    OutputMembers(tables, outs, kept, b);
    var fa :| fa in job.in0 + job.in1 && InFile(tables, fa, a);
    var fb :| fb in job.in0 + job.in1 && InFile(tables, fb, b);
    assert Backed(tables, fa) && Backed(tables, fb);
    EntryInRange(tables, fa, a);
    EntryInRange(tables, fb, b);
  }
}
