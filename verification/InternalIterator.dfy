/** The iterator over a whole store: memtables, level-0 tables and the other levels under one merging
    iterator, and a DBIter on top (db/db_impl.cpp, NewInternalIterator and NewIterator;
    db/version_set.cpp, AddIterators). */
module InternalIterator {
  import opened DbFormat
  import opened Coding
  import opened Versions
  import opened VersionBuilder
  import opened Store
  import opened History
  import opened Engine
  import opened EngineTheorems
  import opened TwoLevel
  import opened Merger
  import opened DBIters
  import opened ReadPath

  //////////////////////////////////////////////////////////////////////////////
  // One level below 0 as a concatenation of its files.

  /** LevelFileNumIterator: the largest key of each file, and its number and size as the handle. */
  function LevelIndex(files: seq<File>): seq<IndexEntry> {
    seq(|files|, i requires 0 <= i < |files| =>
      IndexEntry(files[i].largest, Coding.Fixed(files[i].number, 8) + Coding.Fixed(files[i].size, 8)))
  }

  /** GetFileIterator: opens the table of a handle. */
  function OpenFile(tables: Tables, handle: Bytes): seq<Entry> {
    if |handle| != 16 then []
    else
      var n := Unfixed(handle[..8]);
      if n in tables then tables[n] else []
  }

  function Opener(tables: Tables): BlockFunction {
    h => OpenFile(tables, h)
  }

  lemma HandleOpens(tables: Tables, f: File)
    requires f.number < LIMIT64 && Backed(tables, f)
    ensures OpenFile(tables, Coding.Fixed(f.number, 8) + Coding.Fixed(f.size, 8)) == tables[f.number]
  {
    Powers();
    UnfixedFixed(f.number, 8);
    var n, z := Coding.Fixed(f.number, 8), Coding.Fixed(f.size, 8);
    assert (n + z)[..8] == n;
  }

  /** All files have numbers that fit in a handle. */
  predicate NumbersFit(files: seq<File>) {
    forall f :: f in files ==> f.number < LIMIT64
  }

  /** The index lists the files and its handles open their tables. */
  ghost predicate Opens(index: seq<IndexEntry>, blocks: BlockFunction, tables: Tables, files: seq<File>) {
    |index| == |files| && forall i {:trigger OpensAt(index, blocks, tables, files, i)} ::
      0 <= i < |files| ==> OpensAt(index, blocks, tables, files, i)
  }

  ghost predicate OpensAt(index: seq<IndexEntry>, blocks: BlockFunction, tables: Tables, files: seq<File>, i: nat)
    requires |index| == |files| && i < |files|
  {
    && index[i].separator == files[i].largest && Backed(tables, files[i])
    && blocks(index[i].handle) == tables[files[i].number]
  }

  lemma LevelOpens(tables: Tables, files: seq<File>)
    requires NumbersFit(files) && forall f :: f in files ==> Backed(tables, f)
    ensures Opens(LevelIndex(files), Opener(tables), tables, files)
  {
    forall i | 0 <= i < |files| ensures OpensAt(LevelIndex(files), Opener(tables), tables, files, i) {
      HandleOpens(tables, files[i]);
    }
  }

  lemma LevelInOrder(index: seq<IndexEntry>, blocks: BlockFunction, tables: Tables, files: seq<File>)
    requires Opens(index, blocks, tables, files) && DisjointSorted(files)
    ensures InOrder(index, blocks)
  {
    forall i | 0 <= i < |index| ensures SortedTable(blocks(index[i].handle)) {
      assert OpensAt(index, blocks, tables, files, i);
    }
    forall i, k | 0 <= i < k < |index| ensures Less(index[i].separator, index[k].separator) {
      assert OpensAt(index, blocks, tables, files, i) && OpensAt(index, blocks, tables, files, k);
    }
    forall i, j | 0 <= i < |index| && 0 <= j < |blocks(index[i].handle)|
      ensures !Less(index[i].separator, KeyOf(blocks(index[i].handle)[j]))
    {
      assert OpensAt(index, blocks, tables, files, i);
      EntryInRange(tables, files[i], blocks(index[i].handle)[j]);
    }
    forall i, k, j | 0 <= i < k < |index| && 0 <= j < |blocks(index[k].handle)|
      ensures Less(index[i].separator, KeyOf(blocks(index[k].handle)[j]))
    {
      assert OpensAt(index, blocks, tables, files, i) && OpensAt(index, blocks, tables, files, k);
      EntryInRange(tables, files[k], blocks(index[k].handle)[j]);
    }
  }

  /** The entries of the first `n` files of a level, one file after the other. */
  function FirstEntries(tables: Tables, files: seq<File>, n: nat): seq<Entry>
    requires n <= |files|
  {
    if n == 0 then []
    else
      var f := files[n - 1];
      FirstEntries(tables, files, n - 1) + if f.number in tables then tables[f.number] else []
  }

  function LevelEntries(tables: Tables, files: seq<File>): seq<Entry> {
    FirstEntries(tables, files, |files|)
  }

  lemma {:induction false} FlatIsEntries(index: seq<IndexEntry>, blocks: BlockFunction, tables: Tables,
                                         files: seq<File>,
                                         n: nat)
    requires Opens(index, blocks, tables, files) && n <= |files|
    ensures Flat(index, blocks, n) == FirstEntries(tables, files, n)
  {
    if n > 0 {
      FlatIsEntries(index, blocks, tables, files, n - 1);
      assert OpensAt(index, blocks, tables, files, n - 1);
    }
  }

  lemma {:induction false} FirstMembers(tables: Tables, files: seq<File>, n: nat, e: Entry)
    requires n <= |files|
    ensures e in FirstEntries(tables, files, n) <==> exists i :: 0 <= i < n && InFile(tables, files[i], e)
  {
    if n > 0 {
      FirstMembers(tables, files, n - 1, e);
    }
  }

  /** The two-level iterator of a level runs over the entries of the level in order. */
  lemma LevelIsFlat(tables: Tables, levels: Levels, l: nat)
    requires LevelsSorted(levels) && AllBacked(tables, levels) && 1 <= l < NUM_LEVELS && NumbersFit(levels[l])
    ensures InOrder(LevelIndex(levels[l]), Opener(tables))
    ensures Flat(LevelIndex(levels[l]), Opener(tables), |levels[l]|) == LevelEntries(tables, levels[l])
  {
    LevelOpens(tables, levels[l]);
    LevelInOrder(LevelIndex(levels[l]), Opener(tables), tables, levels[l]);
    FlatIsEntries(LevelIndex(levels[l]), Opener(tables), tables, levels[l], |levels[l]|);
  }

  lemma LevelIsSorted(tables: Tables, levels: Levels, l: nat)
    requires LevelsSorted(levels) && AllBacked(tables, levels) && 1 <= l < NUM_LEVELS && NumbersFit(levels[l])
    ensures SortedTable(LevelEntries(tables, levels[l]))
    ensures forall e :: e in LevelEntries(tables, levels[l]) <==> AtLevel(tables, levels, l, e)
  {
    LevelIsFlat(tables, levels, l);
    FlatSorted(LevelIndex(levels[l]), Opener(tables));
    forall e ensures e in LevelEntries(tables, levels[l]) <==> AtLevel(tables, levels, l, e) {
      FirstMembers(tables, levels[l], |levels[l]|, e);
    }
  }

  //////////////////////////////////////////////////////////////////////////////
  // All children.

  /** Sorted children that together hold `all`, each entry once. */
  ghost predicate Layered(children: seq<seq<Entry>>, all: iset<Entry>) {
    && (forall i :: 0 <= i < |children| ==> SortedTable(children[i]))
    && (forall e :: e in all <==> InSome(children, e))
    && (forall i, k, e :: 0 <= i < |children| && 0 <= k < |children| && e in children[i] && e in children[k] ==> i == k)
  }

  ghost predicate InSome(children: seq<seq<Entry>>, e: Entry) {
    exists i :: 0 <= i < |children| && e in children[i]
  }

  lemma AddLayer(children: seq<seq<Entry>>, all: iset<Entry>, child: seq<Entry>, more: iset<Entry>)
    requires Layered(children, all) && ListHolds(child, more) && forall e :: e in more ==> e !in all
    ensures Layered(children + [child], all + more)
  {
    var children' := children + [child];
    forall e ensures InSome(children', e) <==> InSome(children, e) || e in child {
      if e in child {
        assert e in children'[|children|];
      }
      if i :| 0 <= i < |children| && e in children[i] {
        assert e in children'[i];
      }
    }
    forall i, k, e | 0 <= i < |children'| && 0 <= k < |children'| && e in children'[i] && e in children'[k]
      ensures i == k
    {
      if i < |children| || k < |children| {
        assert i < |children| ==> InSome(children, e);
        assert k < |children| ==> InSome(children, e);
      }
    }
  }

  /** The tables of the first `n` level-0 files. */
  function Level0Children(tables: Tables, files: seq<File>, n: nat): seq<seq<Entry>>
    requires n <= |files| && forall f :: f in files ==> f.number in tables
  {
    if n == 0 then [] else Level0Children(tables, files, n - 1) + [tables[files[n - 1].number]]
  }

  /** A concatenating iterator for a level that has files. */
  function LevelChild(tables: Tables, files: seq<File>): seq<seq<Entry>> {
    if files == [] then [] else [LevelEntries(tables, files)]
  }

  /** Those of the levels from 1 to `n` - 1. */
  function LevelChildren(tables: Tables, levels: Levels, n: nat): seq<seq<Entry>>
    requires 1 <= n <= |levels|
  {
    if n == 1 then []
    else LevelChildren(tables, levels, n - 1) + LevelChild(tables, levels[n - 1])
  }

  function Children(mem: seq<Entry>, imm: Option<seq<Entry>>, tables: Tables, levels: Levels): seq<seq<Entry>>
    requires |levels| == NUM_LEVELS && forall f :: f in levels[0] ==> f.number in tables
  {
    [mem] + (if imm.Some? then [imm.value] else [])
    + Level0Children(tables, levels[0], |levels[0]|) + LevelChildren(tables, levels, NUM_LEVELS)
  }

  ghost predicate InFirst(tables: Tables, files: seq<File>, n: nat, e: Entry)
    requires n <= |files|
  {
    exists i :: 0 <= i < n && InFile(tables, files[i], e)
  }

  /** The entries of the first `n` level-0 files. */
  ghost function Level0Entries(tables: Tables, files: seq<File>, n: nat): iset<Entry>
    requires n <= |files|
  {
    iset e | InFirst(tables, files, n, e)
  }

  ghost predicate AtLower(tables: Tables, levels: Levels, n: nat, e: Entry) {
    exists l :: 1 <= l < n && AtLevel(tables, levels, l, e)
  }

  /** The entries of levels 1 to `n` - 1. */
  ghost function LowerEntries(tables: Tables, levels: Levels, n: nat): iset<Entry> {
    iset e | AtLower(tables, levels, n, e)
  }

  lemma {:induction false} Level0Layers(tables: Tables, levels: Levels, before: seq<seq<Entry>>, all: iset<Entry>,
                                        n: nat)
    requires GoodVersion(tables, levels) && Recency(tables, levels) && Layered(before, all) && n <= |levels[0]|
    requires forall e :: e in all ==> !AtLevel(tables, levels, 0, e)
    requires forall f :: f in levels[0] ==> f.number in tables
    ensures Layered(before + Level0Children(tables, levels[0], n), all + Level0Entries(tables, levels[0], n))
    decreases n
  {
    var files := levels[0];
    if n == 0 {
      assert before + [] == before;
      assert all + Level0Entries(tables, files, 0) == all;
    } else {
      var f := files[n - 1];
      Level0Layers(tables, levels, before, all, n - 1);
      var some, so := before + Level0Children(tables, files, n - 1), all + Level0Entries(tables, files, n - 1);
      var more := iset e | InFile(tables, f, e);
      assert Backed(tables, f);
      forall e | e in more ensures e !in so {
        Level0FilesApart(tables, levels, n - 1, e);
        assert AtLevel(tables, levels, 0, e);
      }
      AddLayer(some, so, tables[f.number], more);
      assert some + [tables[f.number]] == before + Level0Children(tables, files, n);
      assert so + more == all + Level0Entries(tables, files, n);
    }
  }

  /** An entry is in one level-0 file only. */
  lemma Level0FilesApart(tables: Tables, levels: Levels, n: nat, e: Entry)
    requires GoodVersion(tables, levels) && Recency(tables, levels) && n < |levels[0]|
             && InFile(tables, levels[0][n], e)
    ensures forall i :: 0 <= i < n ==> !InFile(tables, levels[0][i], e)
  {
    var files := levels[0];
    forall i | 0 <= i < n ensures !InFile(tables, files[i], e) {
      assert FileLess(files[i], files[n]);
      assert files[i].number != files[n].number;
      assert FileNewer(tables, files[i], files[n]) || FileNewer(tables, files[n], files[i]);
    }
  }

  lemma {:induction false} LevelLayers(tables: Tables, levels: Levels, before: seq<seq<Entry>>, all: iset<Entry>,
                                       n: nat)
    requires GoodVersion(tables, levels) && Recency(tables, levels) && Layered(before, all) && 1 <= n <= NUM_LEVELS
    requires forall e, l :: e in all && 1 <= l < NUM_LEVELS ==> !AtLevel(tables, levels, l, e)
    requires forall l :: 1 <= l < NUM_LEVELS ==> NumbersFit(levels[l])
    ensures Layered(before + LevelChildren(tables, levels, n), all + LowerEntries(tables, levels, n))
    decreases n
  {
    if n == 1 {
      assert before + [] == before;
      assert all + LowerEntries(tables, levels, 1) == all;
    } else {
      LevelLayers(tables, levels, before, all, n - 1);
      var some, so := before + LevelChildren(tables, levels, n - 1), all + LowerEntries(tables, levels, n - 1);
      ChildrenConcat(before, LevelChildren(tables, levels, n - 1), LevelChild(tables, levels[n - 1]));
      OneLevelMore(tables, levels, some, all, so, n - 1, before + LevelChildren(tables, levels, n));
    }
  }

  lemma ChildrenConcat(a: seq<seq<Entry>>, b: seq<seq<Entry>>, c: seq<seq<Entry>>)
    ensures (a + b) + c == a + (b + c)
  {
  }

  lemma OneLevelMore(tables: Tables, levels: Levels, some: seq<seq<Entry>>, all: iset<Entry>, so: iset<Entry>, l: nat,
                     next: seq<seq<Entry>>)
    requires GoodVersion(tables, levels) && Recency(tables, levels) && 1 <= l < NUM_LEVELS && NumbersFit(levels[l])
    requires so == all + LowerEntries(tables, levels, l) && Layered(some, so)
    requires next == some + LevelChild(tables, levels[l])
    requires forall e :: e in all ==> !AtLevel(tables, levels, l, e)
    ensures Layered(next, all + LowerEntries(tables, levels, l + 1))
  {
    var more := iset e | AtLevel(tables, levels, l, e);
    assert so + more == all + LowerEntries(tables, levels, l + 1);
    if levels[l] == [] {
      assert so + more == so && some + [] == some;
    } else {
      NewOnLevel(tables, levels, all, so, l);
      AddLayer(some, so, LevelEntries(tables, levels[l]), more);
    }
  }

  lemma NewOnLevel(tables: Tables, levels: Levels, all: iset<Entry>, so: iset<Entry>, l: nat)
    requires GoodVersion(tables, levels) && Recency(tables, levels) && 1 <= l < NUM_LEVELS && NumbersFit(levels[l])
    requires so == all + LowerEntries(tables, levels, l)
    requires forall e :: e in all ==> !AtLevel(tables, levels, l, e)
    ensures ListHolds(LevelEntries(tables, levels[l]), iset e | AtLevel(tables, levels, l, e))
    ensures forall e :: AtLevel(tables, levels, l, e) ==> e !in so
  {
    GoodIsSorted(tables, levels);
    LevelIsSorted(tables, levels, l);
    forall e | AtLevel(tables, levels, l, e) ensures e !in so {
      LevelsApart(tables, levels, l, e);
    }
  }

  /** An entry is on one level only. */
  lemma LevelsApart(tables: Tables, levels: Levels, l: nat, e: Entry)
    requires Recency(tables, levels) && AtLevel(tables, levels, l, e)
    ensures forall m :: 0 <= m < l ==> !AtLevel(tables, levels, m, e)
  {
    var g :| g in levels[l] && InFile(tables, g, e);
    forall m | 0 <= m < l ensures !AtLevel(tables, levels, m, e) {
      forall f | f in levels[m] ensures !InFile(tables, f, e) {
        assert FileNewer(tables, f, g);
      }
    }
  }

  /** What the readers of state `s` hold: its memtables in order. */
  ghost predicate Reads(s: State, mem: seq<Entry>, imm: Option<seq<Entry>>) {
    && Structure(s) && Meaningful(s) && (forall l :: 0 <= l < NUM_LEVELS ==> NumbersFit(s.levels[l]))
    && ListHolds(mem, s.mem)
    && s.imm.Some? == imm.Some? && (imm.Some? ==> ListHolds(imm.value, s.imm.value))
  }

  ghost function MemEntries(s: State): iset<Entry> {
    s.mem + (if s.imm.Some? then s.imm.value else iset{})
  }

  lemma MemLayers(s: State, mem: seq<Entry>, imm: Option<seq<Entry>>)
    requires Reads(s, mem, imm)
    ensures Layered([mem] + (if imm.Some? then [imm.value] else []), MemEntries(s))
    ensures forall e :: e in MemEntries(s) ==> e !in FileEntries(s.tables, s.levels)
  {
    LayersDescend(s);
    AddLayer([], iset{}, mem, s.mem);
    assert [] + [mem] == [mem] && iset{} + s.mem == s.mem;
    if imm.Some? {
      AddLayer([mem], s.mem, imm.value, s.imm.value);
    } else {
      assert [mem] + [] == [mem] && MemEntries(s) == s.mem;
    }
  }

  lemma LevelsInRange(s: State)
    requires Structure(s)
    ensures |s.levels| == NUM_LEVELS && forall f :: f in s.levels[0] ==> f.number in s.tables
  {
    forall f | f in s.levels[0] ensures f.number in s.tables {
      assert Backed(s.tables, f);
    }
  }

  /** The children of the internal iterator hold everything in the store, each entry once. */
  lemma ChildrenHoldStore(s: State, mem: seq<Entry>, imm: Option<seq<Entry>>)
    requires Reads(s, mem, imm)
    ensures |s.levels| == NUM_LEVELS && forall f :: f in s.levels[0] ==> f.number in s.tables
    ensures Layered(Children(mem, imm, s.tables, s.levels), DbEntries(s))
  {
    LevelsInRange(s);
    MemLayers(s, mem, imm);
    var mems, all := [mem] + (if imm.Some? then [imm.value] else []), MemEntries(s);
    assert DbEntries(s) == all + FileEntries(s.tables, s.levels);
    FilesLayered(s.tables, s.levels, mems, all, Children(mem, imm, s.tables, s.levels), DbEntries(s));
  }

  lemma FilesLayered(tables: Tables, levels: Levels, mems: seq<seq<Entry>>, all: iset<Entry>,
                     children: seq<seq<Entry>>, store: iset<Entry>)
    requires GoodVersion(tables, levels) && Recency(tables, levels) && Layered(mems, all)
    requires forall e :: e in all ==> e !in FileEntries(tables, levels)
    requires forall l :: 0 <= l < NUM_LEVELS ==> NumbersFit(levels[l])
    requires forall f :: f in levels[0] ==> f.number in tables
    requires children == mems + Level0Children(tables, levels[0], |levels[0]|) + LevelChildren(tables, levels,
             NUM_LEVELS)
    requires store == all + FileEntries(tables, levels)
    ensures Layered(children, store)
  {
    var n := |levels[0]|;
    var some, so := mems + Level0Children(tables, levels[0], n), all + Level0Entries(tables, levels[0], n);
    NotInFiles(tables, levels, all, so, n);
    Level0Layers(tables, levels, mems, all, n);
    LevelLayers(tables, levels, some, so, NUM_LEVELS);
    AllLevels(tables, levels, n, so, all);
  }

  /** Memtables have nothing in common with files, and level 0 nothing with the levels below. */
  lemma NotInFiles(tables: Tables, levels: Levels, all: iset<Entry>, so: iset<Entry>, n: nat)
    requires |levels| == NUM_LEVELS && Recency(tables, levels) && n == |levels[0]|
    requires so == all + Level0Entries(tables, levels[0], n) && forall e :: e in all ==>
             e !in FileEntries(tables, levels)
    ensures forall e :: InFirst(tables, levels[0], n, e) <==> AtLevel(tables, levels, 0, e)
    ensures forall e :: e in all ==> !AtLevel(tables, levels, 0, e)
    ensures forall e, l :: e in so && 1 <= l < NUM_LEVELS ==> !AtLevel(tables, levels, l, e)
  {
    assert forall e, l :: AtLevel(tables, levels, l, e) ==> Stored(tables, levels, e);
    forall e ensures InFirst(tables, levels[0], n, e) <==> AtLevel(tables, levels, 0, e) {
      if InFirst(tables, levels[0], n, e) {
        var i :| 0 <= i < n && InFile(tables, levels[0][i], e);
        assert levels[0][i] in levels[0];
      }
    }
    forall e, l | e in so && 1 <= l < NUM_LEVELS ensures !AtLevel(tables, levels, l, e) {
      if AtLevel(tables, levels, l, e) {
        LevelsApart(tables, levels, l, e);
      }
    }
  }

  lemma AllLevels(tables: Tables, levels: Levels, n: nat, so: iset<Entry>, all: iset<Entry>)
    requires |levels| == NUM_LEVELS && n == |levels[0]| && so == all + Level0Entries(tables, levels[0], n)
    requires forall e :: InFirst(tables, levels[0], n, e) <==> AtLevel(tables, levels, 0, e)
    ensures so + LowerEntries(tables, levels, NUM_LEVELS) == all + FileEntries(tables, levels)
  {
    forall e ensures Stored(tables, levels, e) <==>
      AtLevel(tables, levels, 0, e) || AtLower(tables, levels, NUM_LEVELS, e)
    {
      if Stored(tables, levels, e) {
        var l :| AtLevel(tables, levels, l, e);
        assert l == 0 || 1 <= l < NUM_LEVELS;
      }
    }
  }

  //////////////////////////////////////////////////////////////////////////////
  // What the iterator shows.

  lemma MergeHolds(children: seq<seq<Entry>>, merged: seq<Entry>, all: iset<Entry>)
    requires Layered(children, all) && IsMerge(children, merged)
    ensures EntriesOf(merged) == all
  {
    forall e ensures e in merged <==> InSome(children, e) {
      if e in merged {
        var b :| 0 <= b < |merged| && merged[b] == e;
      }
      if InSome(children, e) {
        var i :| 0 <= i < |children| && e in children[i];
        var j :| 0 <= j < |children[i]| && children[i][j] == e;
      }
    }
  }

  /** There is a merge for the merging iterator to run over. */
  lemma StoreHasMerge(s: State, mem: seq<Entry>, imm: Option<seq<Entry>>) returns (merged: seq<Entry>)
    requires Reads(s, mem, imm)
    ensures |s.levels| == NUM_LEVELS && forall f :: f in s.levels[0] ==> f.number in s.tables
    ensures IsMerge(Children(mem, imm, s.tables, s.levels), merged)
  {
    ChildrenHoldStore(s, mem, imm);
    LayersDescend(s);
    var children := Children(mem, imm, s.tables, s.levels);
    LayeredIsSorted(children, DbEntries(s));
    merged := MergeExists(children);
  }

  lemma LayeredIsSorted(children: seq<seq<Entry>>, all: iset<Entry>)
    requires Layered(children, all) && UniqueSeqs(all)
    ensures SortedChildren(children)
  {
    forall i, k | 0 <= i < k < |children| ensures DistinctKeys(children[i], children[k]) {
      forall x, y | x in children[i] && y in children[k] ensures KeyOf(x) != KeyOf(y) {
        assert InSome(children, x) && InSome(children, y);
      }
    }
  }

  /** An iterator at a sequence number the store still answers for shows a key and a value if and only if
      the acknowledged writes say so. */
  lemma IteratorShowsHistory(s: State, mem: seq<Entry>, imm: Option<seq<Entry>>, merged: seq<Entry>,
                             t: nat, k: UserKey, v: Bytes)
    requires Reads(s, mem, imm) && s.floor <= t <= s.lastSeq
    requires |s.levels| == NUM_LEVELS && forall f :: f in s.levels[0] ==> f.number in s.tables
    requires IsMerge(Children(mem, imm, s.tables, s.levels), merged)
    ensures Item(k, v) in Items(merged, t, |merged|) <==> View(LogEntries(s.history), k, t) == Some(v)
  {
    ChildrenHoldStore(s, mem, imm);
    MergeHolds(Children(mem, imm, s.tables, s.levels), merged, DbEntries(s));
    LayersDescend(s);
    ItemsAreView(merged, t, k, v);
    ReaderSeesHistory(s, k, t);
  }

  //////////////////////////////////////////////////////////////////////////////
  // The iterators at work.

  /** Reads a level through its two-level iterator. */
  method ReadLevel(index: seq<IndexEntry>, blocks: BlockFunction) returns (entries: seq<Entry>)
    requires InOrder(index, blocks)
    ensures entries == Flat(index, blocks, |index|)
  {
    var it := new TwoLevelIterator(index, blocks);
    it.SeekToFirst();
    entries := DrainLevel(it, it.All());
  }

  method DrainLevel(it: TwoLevelIterator, ghost all: seq<Entry>) returns (entries: seq<Entry>)
    requires it.Valid() && it.at == 0 && all == it.All()
    modifies it
    ensures entries == all
  {
    entries := [];
    while it.data.Some?
      invariant it.Valid() && all == it.All() && it.at <= |all| && entries == all[..it.at]
      decreases |all| - it.at
    {
      var e := TakeFromLevel(it, all);
      entries := entries + [e];
    }
  }

  method TakeFromLevel(it: TwoLevelIterator, ghost all: seq<Entry>) returns (e: Entry)
    requires it.Valid() && it.data.Some? && all == it.All()
    modifies it
    ensures it.Valid() && old(it.at) < |all| && e == all[old(it.at)] && it.at == old(it.at) + 1
  {
    e := it.Item();
    it.Next();
  }

  /** Reads children through a merging iterator. */
  method ReadMerged(children: seq<seq<Entry>>, ghost merged: seq<Entry>) returns (entries: seq<Entry>)
    requires IsMerge(children, merged)
    ensures entries == merged
  {
    var it := new MergingIterator(children, merged);
    it.SeekToFirst();
    entries := Drain(it);
  }

  method Drain(it: MergingIterator) returns (entries: seq<Entry>)
    requires it.Valid() && it.at == 0
    modifies it
    ensures entries == it.merged
  {
    entries := [];
    while it.current.Some?
      invariant it.Valid() && it.at <= |it.merged| && entries == it.merged[..it.at]
      decreases |it.merged| - it.at
    {
      var e := it.Item();
      entries := entries + [e];
      it.Next();
    }
  }

  method ReadLower(tables: Tables, levels: Levels) returns (children: seq<seq<Entry>>)
    requires LevelsSorted(levels) && AllBacked(tables, levels) && forall l :: 0 <= l < NUM_LEVELS ==>
             NumbersFit(levels[l])
    ensures children == LevelChildren(tables, levels, NUM_LEVELS)
  {
    children := [];
    for l := 1 to NUM_LEVELS
      invariant children == LevelChildren(tables, levels, l)
    {
      var more := ReadLevelChild(tables, levels, l);
      assert LevelChildren(tables, levels, l + 1) == LevelChildren(tables, levels, l) + more;
      children := children + more;
    }
  }

  method ReadLevelChild(tables: Tables, levels: Levels, l: nat) returns (child: seq<seq<Entry>>)
    requires LevelsSorted(levels) && AllBacked(tables, levels) && 1 <= l < NUM_LEVELS && NumbersFit(levels[l])
    ensures child == LevelChild(tables, levels[l])
  {
    child := [];
    if levels[l] != [] {
      LevelIsFlat(tables, levels, l);
      var entries := ReadLevel(LevelIndex(levels[l]), Opener(tables));
      child := [entries];
    }
  }

  method ReadLevel0(tables: Tables, files: seq<File>) returns (children: seq<seq<Entry>>)
    requires forall f :: f in files ==> f.number in tables
    ensures children == Level0Children(tables, files, |files|)
  {
    children := [];
    for i := 0 to |files|
      invariant children == Level0Children(tables, files, i)
    {
      children := children + [tables[files[i].number]];
    }
  }

  /** NewInternalIterator: the list of children. */
  method ReadChildren(mem: seq<Entry>, imm: Option<seq<Entry>>, tables: Tables, levels: Levels, ghost s: State)
    returns (children: seq<seq<Entry>>)
    requires Reads(s, mem, imm) && tables == s.tables && levels == s.levels
    requires |levels| == NUM_LEVELS && forall f :: f in levels[0] ==> f.number in tables
    ensures children == Children(mem, imm, tables, levels)
  {
    GoodIsSorted(tables, levels);
    var level0 := ReadLevel0(tables, levels[0]);
    var lower := ReadLower(tables, levels);
    children := [mem] + (if imm.Some? then [imm.value] else []) + level0 + lower;
  }

  /** A scan of the whole store at sequence `t`: the keys in ascending order, each once, with exactly the
      values that the acknowledged writes give them. */
  method ScanStore(ghost s: State, mem: seq<Entry>, imm: Option<seq<Entry>>, tables: Tables, levels: Levels, t: nat)
    returns (items: seq<Item>)
    requires Reads(s, mem, imm) && s.floor <= t <= s.lastSeq && tables == s.tables && levels == s.levels
    ensures forall i, j :: 0 <= i < j < |items| ==> items[i].key < items[j].key
    ensures forall k, v :: Item(k, v) in items <==> View(LogEntries(s.history), k, t) == Some(v)
  {
    LevelsInRange(s);
    ghost var merged := StoreHasMerge(s, mem, imm);
    var children := ReadChildren(mem, imm, tables, levels, s);
    var entries := ReadMerged(children, merged);
    items := ScanForward(entries, t);
    SortedKeysAscend(merged);
    ItemsAscend(merged, t, |merged|);
    forall k, v ensures Item(k, v) in items <==> View(LogEntries(s.history), k, t) == Some(v) {
      IteratorShowsHistory(s, mem, imm, merged, t, k, v);
    }
  }
}
