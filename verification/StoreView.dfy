/** Flushes and compactions keep recency and keep what readers see. */
module StoreView {
  import opened DbFormat
  import opened Versions
  import opened CompactionPicker
  import opened CompactionWork
  import opened Store

  //////////////////////////////////////////////////////////////////////////////
  // Flush.

  /** Every entry of `f` is newer than everything in `all`. */
  ghost predicate NewerThanAll(tables: Tables, f: File, all: iset<Entry>) {
    forall e, d :: InFile(tables, f, e) && d in all ==> d.sn < e.sn
  }

  lemma NoSharedKey(tables: Tables, f: File, g: File)
    requires Backed(tables, f) && Backed(tables, g) && !Meet(f, g)
    ensures FileNewer(tables, f, g)
  {
    forall e, d | InFile(tables, f, e) && InFile(tables, g, d) ensures e.key != d.key {
      EntryInRange(tables, f, e);
      EntryInRange(tables, g, d);
    }
  }

  lemma FlushKeepsRecency(tables: Tables, levels: Levels, levels': Levels, at: nat, f: File)
    requires AllBacked(tables, levels) && Recency(tables, levels) && AddsFile(levels, levels', at, f)
    requires Backed(tables, f) && SinksTo(levels, at, f)
    requires NewerThanAll(tables, f, FileEntries(tables, levels))
    requires forall g :: g in levels[0] ==> g.number < f.number
    ensures Recency(tables, levels')
  {
    forall l, g | 0 <= l < NUM_LEVELS && g in levels[l] ensures FileNewer(tables, f, g) {
      forall d | InFile(tables, g, d) ensures d in FileEntries(tables, levels) {
        assert AtLevel(tables, levels, l, d);
      }
    }
    forall l, g | 0 <= l < at && g in levels[l] ensures FileNewer(tables, g, f) {
      assert !Meet(f, g);
      NoSharedKey(tables, g, f);
    }
  }

  lemma FlushEntries(tables: Tables, levels: Levels, levels': Levels, at: nat, f: File)
    requires AddsFile(levels, levels', at, f)
    ensures FileEntries(tables, levels') == FileEntries(tables, levels) + iset e | InFile(tables, f, e)
  {
    forall e ensures Stored(tables, levels', e) <==> Stored(tables, levels, e) || InFile(tables, f, e) {
      if Stored(tables, levels', e) {
        var l :| AtLevel(tables, levels', l, e);
        var g :| g in levels'[l] && InFile(tables, g, e);
        assert g in levels[l] ==> AtLevel(tables, levels, l, e);
      }
      if Stored(tables, levels, e) {
        var l :| AtLevel(tables, levels, l, e);
        var g :| g in levels[l] && InFile(tables, g, e);
        assert g in levels'[l] && AtLevel(tables, levels', l, e);
      }
      if InFile(tables, f, e) {
        assert f in levels'[at] && AtLevel(tables, levels', at, e);
      }
    }
  }

  /** Adding the same newer entries to two sets with the same view keeps their views equal. */
  lemma ViewExtend(a: iset<Entry>, b: iset<Entry>, more: iset<Entry>, k: UserKey, s: nat)
    requires UniqueSeqs(a + more) && UniqueSeqs(b + more)
    requires forall e, d :: e in more && (d in a || d in b) ==> d.sn < e.sn
    requires View(a, k, s) == View(b, k, s)
    ensures View(a + more, k, s) == View(b + more, k, s)
  {
    if e :| e in more && Visible(e, k, s) {
      var n := NewestExists(more, k, s, e);
      ViewIs(a + more, k, s, n);
      ViewIs(b + more, k, s, n);
    } else {
      SameWithoutInvisible(a, more, k, s);
      SameWithoutInvisible(b, more, k, s);
    }
  }

  lemma SameWithoutInvisible(a: iset<Entry>, more: iset<Entry>, k: UserKey, s: nat)
    requires UniqueSeqs(a + more)
    requires forall e :: e in more ==> !Visible(e, k, s)
    ensures View(a + more, k, s) == View(a, k, s)
  {
    if e :| e in a && Visible(e, k, s) {
      var n := NewestExists(a, k, s, e);
      ViewIs(a, k, s, n);
      ViewIs(a + more, k, s, n);
    } else {
      ViewIsNone(a, k, s);
      ViewIsNone(a + more, k, s);
    }
  }

  //////////////////////////////////////////////////////////////////////////////
  // Compaction: clean cuts.

  /** No file right after the inputs starts with the user key that ends them. */
  ghost predicate CleanSide(files: seq<File>, inputs: seq<File>) {
    forall f, g :: f in inputs && g in files && g !in inputs && Less(f.largest, g.smallest)
      ==> f.largest.user < g.smallest.user
  }

  /** The condition a caller can check on the metadata before compacting. */
  ghost predicate CleanCut(levels: Levels, job: Job) {
    && job.level + 1 < |levels|
    && (job.level > 0 ==> CleanSide(levels[job.level], job.in0))
    && CleanSide(levels[job.level + 1], job.in1)
  }

  /** A file outside the inputs is newer than every input for the keys they share, unless it lies
      at least two levels below in the version the compaction started from. */
  ghost predicate OlderOnlyBelow(tables: Tables, levels: Levels, job: Job, base: Levels) {
    forall l, f, m, g ::
      0 <= l < |levels| && f in levels[l] && IsInput(job, l, f) &&
      0 <= m < |levels| && g in levels[m] && !IsInput(job, m, g)
      ==> FileNewer(tables, g, f) || (m >= job.level + 2 && m < |base| && g in base[m])
  }

  lemma CleanCutLeavesNothingOlder(tables: Tables, levels: Levels, job: Job)
    requires GoodVersion(tables, levels) && Recency(tables, levels) && UniqueSeqs(FileEntries(tables, levels))
    requires Selected(levels, job) && CleanCut(levels, job)
    ensures OlderOnlyBelow(tables, levels, job, levels)
  {
    forall l, f, m, g |
      0 <= l < |levels| && f in levels[l] && IsInput(job, l, f) &&
      0 <= m < |levels| && g in levels[m] && !IsInput(job, m, g) && m < job.level + 2
      ensures FileNewer(tables, g, f)
    {
      OutsiderIsNewer(tables, levels, job, l, f, m, g);
    }
  }

  lemma OutsiderIsNewer(tables: Tables, levels: Levels, job: Job, l: nat, f: File, m: nat, g: File)
    requires GoodVersion(tables, levels) && Recency(tables, levels) && UniqueSeqs(FileEntries(tables, levels))
    requires Selected(levels, job) && CleanCut(levels, job) && l < |levels| && m < |levels| && m < job.level + 2
    requires f in levels[l] && IsInput(job, l, f) && g in levels[m] && !IsInput(job, m, g)
    ensures FileNewer(tables, g, f)
  {
    if m == l {
      OnOneLevel(tables, levels, job, l, f, g);
    } else if m > l {
      assert f in job.in0 && !MeetsHull(g, job.in0);
      NoSharedKey(tables, g, f);
    }
  }

  lemma OnOneLevel(tables: Tables, levels: Levels, job: Job, l: nat, f: File, g: File)
    requires GoodVersion(tables, levels) && UniqueSeqs(FileEntries(tables, levels))
    requires Selected(levels, job) && CleanCut(levels, job) && l < |levels|
    requires f in levels[l] && IsInput(job, l, f) && g in levels[l] && !IsInput(job, l, g)
    ensures FileNewer(tables, g, f)
  {
    assert Backed(tables, f) && Backed(tables, g);
    if l == 0 {
      assert f in set x | x in job.in0;
      assert !Meet(f, g);
      NoSharedKey(tables, g, f);
    } else {
      assert Disjoint(f, g);
      forall d, t | InFile(tables, g, d) && InFile(tables, f, t) && d.sn == t.sn ensures d == t {
        assert AtLevel(tables, levels, l, d) && AtLevel(tables, levels, l, t);
        assert Stored(tables, levels, d) && Stored(tables, levels, t);
      }
      LaterFileStartsNewKey(tables, f, g);
    }
  }

  lemma LaterFileStartsNewKey(tables: Tables, f: File, g: File)
    requires Backed(tables, f) && Backed(tables, g) && Disjoint(f, g)
    requires Less(f.largest, g.smallest) ==> f.largest.user < g.smallest.user
    requires forall d, t :: InFile(tables, g, d) && InFile(tables, f, t) && d.sn == t.sn ==> d == t
    ensures FileNewer(tables, g, f)
  {
    forall d, t | InFile(tables, g, d) && InFile(tables, f, t) && d.key == t.key ensures d.sn > t.sn {
      EntryInRange(tables, f, t);
      EntryInRange(tables, g, d);
    }
  }

  //////////////////////////////////////////////////////////////////////////////
  // Compaction: recency.

  ghost predicate IsMergeOf(tables: Tables, job: Job, input: seq<Entry>) {
    SortedTable(input) && forall e :: e in input <==> exists f :: f in job.in0 + job.in1 && InFile(tables, f, e)
  }

  ghost predicate InputsPresent(levels: Levels, job: Job) {
    && job.level + 1 < |levels|
    && (forall f :: f in job.in0 ==> f in levels[job.level])
    && (forall f :: f in job.in1 ==> f in levels[job.level + 1])
  }

  /** An entry at a level after the compaction was there before, or is a surviving input entry. */
  lemma AtLevelAfter(tables: Tables, levels: Levels, levels': Levels, job: Job, outs: seq<File>, kept: seq<Entry>,
                     l: int, e: Entry)
    requires ReplacesInputs(levels, levels', job, outs) && Outputs(tables, outs, kept)
    ensures AtLevel(tables, levels', l, e) <==>
      || (0 <= l < |levels| && exists g :: g in levels[l] && !IsInput(job, l, g) && InFile(tables, g, e))
      || (l == job.level + 1 && e in kept)
  {
    OutputMembers(tables, outs, kept, e);
    if AtLevel(tables, levels', l, e) {
      var g :| g in levels'[l] && InFile(tables, g, e);
      if g in outs && l == job.level + 1 {
        assert e in kept;
      } else {
        assert g in levels[l] && !IsInput(job, l, g);
      }
    }
    if 0 <= l < |levels| && exists g :: g in levels[l] && !IsInput(job, l, g) && InFile(tables, g, e) {
      var g :| g in levels[l] && !IsInput(job, l, g) && InFile(tables, g, e);
      assert g in levels'[l];
    }
    if l == job.level + 1 && e in kept {
      var o :| o in outs && InFile(tables, o, e);
      assert o in levels'[l];
    }
  }

  /** Where an input entry was stored. */
  lemma InputAt(tables: Tables, levels: Levels, job: Job, input: seq<Entry>, e: Entry) returns (l: nat, f: File)
    requires InputsPresent(levels, job) && IsMergeOf(tables, job, input) && e in input
    ensures (l == job.level || l == job.level + 1) && f in levels[l] && IsInput(job, l, f) && InFile(tables, f, e)
    ensures AtLevel(tables, levels, l, e)
  {
    f :| f in job.in0 + job.in1 && InFile(tables, f, e);
    l := if f in job.in0 then job.level else job.level + 1;
  }

  /** Outputs are newer than whatever lies below them. */
  lemma OutputsNewerThanBelow(tables: Tables, levels: Levels, job: Job, outs: seq<File>, input: seq<Entry>,
                              kept: seq<Entry>)
    requires Recency(tables, levels) && Outputs(tables, outs, kept)
    requires InputsPresent(levels, job) && IsMergeOf(tables, job, input) && forall e :: e in kept ==> e in input
    ensures forall o, l, g :: o in outs && job.level + 1 < l < |levels| && g in levels[l] ==> FileNewer(tables, o, g)
  {
    forall o, l, g | o in outs && job.level + 1 < l < |levels| && g in levels[l] ensures FileNewer(tables, o, g) {
      forall e, d | InFile(tables, o, e) && InFile(tables, g, d) && e.key == d.key ensures e.sn > d.sn {
        OutputMembers(tables, outs, kept, e);
        var m, f := InputAt(tables, levels, job, input, e);
        assert FileNewer(tables, f, g);
      }
    }
  }

  lemma CompactionKeepsRecency(tables: Tables, levels: Levels, levels': Levels, job: Job, base: Levels,
                               outs: seq<File>, input: seq<Entry>, kept: seq<Entry>)
    requires Recency(tables, levels) && ReplacesInputs(levels, levels', job, outs) && Outputs(tables, outs, kept)
    requires InputsPresent(levels, job) && IsMergeOf(tables, job, input) && forall e :: e in kept ==> e in input
    requires OlderOnlyBelow(tables, levels, job, base)
    ensures Recency(tables, levels')
  {
    OutputsNewerThanBelow(tables, levels, job, outs, input, kept);
    forall o, l, g | o in outs && 0 <= l <= job.level && g in levels[l] && !IsInput(job, l, g)
      ensures FileNewer(tables, g, o)
    {
      forall e, d | InFile(tables, g, e) && InFile(tables, o, d) && e.key == d.key ensures e.sn > d.sn {
        OutputMembers(tables, outs, kept, d);
        var m, f := InputAt(tables, levels, job, input, d);
        assert FileNewer(tables, g, f);
      }
    }
    RecencyAfter(tables, levels, levels', job, outs);
  }

  lemma RecencyAfter(tables: Tables, levels: Levels, levels': Levels, job: Job, outs: seq<File>)
    requires Recency(tables, levels) && ReplacesInputs(levels, levels', job, outs)
    requires forall o, l, g :: o in outs && job.level + 1 < l < |levels| && g in levels[l] ==> FileNewer(tables, o, g)
    requires forall o, l, g :: o in outs && 0 <= l <= job.level && g in levels[l] && !IsInput(job, l, g)
               ==> FileNewer(tables, g, o)
    ensures Recency(tables, levels')
  {
    forall l, m, f, g | 0 <= l < m < |levels'| && f in levels'[l] && g in levels'[m] ensures FileNewer(tables, f, g) {
      if f in levels[l] && !IsInput(job, l, f) {
        assert g in levels[m] ==> FileNewer(tables, f, g);
      }
    }
    forall f | f in levels'[0] ensures f in levels[0] {
    }
  }

  //////////////////////////////////////////////////////////////////////////////
  // Compaction: the view.

  ghost predicate StoredOutside(tables: Tables, levels: Levels, job: Job, e: Entry) {
    exists l, g :: 0 <= l < |levels| && g in levels[l] && !IsInput(job, l, g) && InFile(tables, g, e)
  }

  ghost function Outside(tables: Tables, levels: Levels, job: Job): iset<Entry> {
    iset e | StoredOutside(tables, levels, job, e)
  }

  lemma EntriesBefore(tables: Tables, levels: Levels, job: Job, input: seq<Entry>)
    requires InputsPresent(levels, job) && IsMergeOf(tables, job, input)
    ensures FileEntries(tables, levels) == Before(input, Outside(tables, levels, job))
  {
    forall e ensures Stored(tables, levels, e) <==> e in input || StoredOutside(tables, levels, job, e) {
      if Stored(tables, levels, e) {
        var l :| AtLevel(tables, levels, l, e);
        var g :| g in levels[l] && InFile(tables, g, e);
        if IsInput(job, l, g) {
          assert g in job.in0 + job.in1;
        }
      }
      if e in input {
        var l, f := InputAt(tables, levels, job, input, e);
      }
      if StoredOutside(tables, levels, job, e) {
        var l, g :| 0 <= l < |levels| && g in levels[l] && !IsInput(job, l, g) && InFile(tables, g, e);
        assert AtLevel(tables, levels, l, e);
      }
    }
  }

  lemma EntriesAfter(tables: Tables, levels: Levels, levels': Levels, job: Job, outs: seq<File>,
                     input: seq<Entry>, snapshot: nat, base: Levels)
    requires ReplacesInputs(levels, levels', job, outs)
    requires Outputs(tables, outs, Kept(input, |input|, snapshot, base, job.level))
    ensures FileEntries(tables, levels') == After(input, Outside(tables, levels, job), snapshot, base, job.level)
  {
    var kept := Kept(input, |input|, snapshot, base, job.level);
    forall e ensures Stored(tables, levels', e) <==> e in kept || StoredOutside(tables, levels, job, e) {
      if Stored(tables, levels', e) {
        var l :| AtLevel(tables, levels', l, e);
        AtLevelAfter(tables, levels, levels', job, outs, kept, l, e);
      }
      if e in kept {
        AtLevelAfter(tables, levels, levels', job, outs, kept, job.level + 1, e);
      }
      if StoredOutside(tables, levels, job, e) {
        var l, g :| 0 <= l < |levels| && g in levels[l] && !IsInput(job, l, g) && InFile(tables, g, e);
        AtLevelAfter(tables, levels, levels', job, outs, kept, l, e);
      }
    }
  }

  /** With nothing older outside except below, a dropped deletion marker uncovers nothing. */
  lemma NothingResurrected(tables: Tables, levels: Levels, job: Job, base: Levels, input: seq<Entry>, snapshot: nat)
    requires AllBacked(tables, levels) && InputsPresent(levels, job) && IsMergeOf(tables, job, input)
    requires OlderOnlyBelow(tables, levels, job, base)
    ensures !Uncovers(input, Outside(tables, levels, job), snapshot, base, job.level)
  {
    forall t, r | t in input && BaseLevel(base, job.level, t.key) && StoredOutside(tables, levels, job, r)
      && r.key == t.key
      ensures r.sn > t.sn
    {
      NewerOutside(tables, levels, job, base, input, t, r);
    }
  }

  lemma NewerOutside(tables: Tables, levels: Levels, job: Job, base: Levels, input: seq<Entry>, t: Entry, r: Entry)
    requires AllBacked(tables, levels) && InputsPresent(levels, job) && IsMergeOf(tables, job, input)
    requires OlderOnlyBelow(tables, levels, job, base)
    requires t in input && BaseLevel(base, job.level, t.key) && StoredOutside(tables, levels, job, r) && r.key == t.key
    ensures r.sn > t.sn
  {
    var l, f := InputAt(tables, levels, job, input, t);
    var m, g :| 0 <= m < |levels| && g in levels[m] && !IsInput(job, m, g) && InFile(tables, g, r);
    assert Backed(tables, g);
    EntryInRange(tables, g, r);
    assert HasKey(g, r.key);
  }

  /** Replacing the inputs by the outputs leaves every key's value-or-absence unchanged for every
      reader at or above the smallest snapshot, across the whole version. */
  lemma CompactionKeepsView(tables: Tables, levels: Levels, levels': Levels, job: Job, base: Levels,
                            outs: seq<File>, input: seq<Entry>, snapshot: nat, k: UserKey, s: nat)
    requires AllBacked(tables, levels) && UniqueSeqs(FileEntries(tables, levels))
    requires InputsPresent(levels, job) && IsMergeOf(tables, job, input)
    requires OlderOnlyBelow(tables, levels, job, base)
    requires ReplacesInputs(levels, levels', job, outs)
    requires Outputs(tables, outs, Kept(input, |input|, snapshot, base, job.level))
    requires s >= snapshot
    ensures View(FileEntries(tables, levels'), k, s) == View(FileEntries(tables, levels), k, s)
  {
    EntriesBefore(tables, levels, job, input);
    EntriesAfter(tables, levels, levels', job, outs, input, snapshot, base);
    NothingResurrected(tables, levels, job, base, input, snapshot);
    CompactionViewExact(input, Outside(tables, levels, job), snapshot, base, job.level);
  }
}
