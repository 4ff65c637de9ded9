/** File metadata, the searches over a Version's levels, and the level-by-level read
    (db/version_set.cpp, FindFile to Version::GetOverlappingInputs). */
module Versions {
  import opened DbFormat

  /** FileMetaData: a table file and the internal-key range it serves. */
  datatype File = File(number: nat, size: nat, smallest: IKey, largest: IKey)

  /** The table files on disk, by number; a table is an immutable sorted list of entries. */
  type Tables = map<nat, seq<Entry>>

  /** files_[0..6] of a Version. */
  type Levels = seq<seq<File>>

  predicate SaneRange(f: File) {
    LessEq(f.smallest, f.largest) && f.smallest.sn <= MAX_SEQUENCE && f.largest.sn <= MAX_SEQUENCE
  }

  /** The metadata describes a table that is present on disk. */
  predicate Backed(tables: Tables, f: File) {
    && f.number in tables
    && tables[f.number] != []
    && SortedTable(tables[f.number])
    && f.smallest == KeyOf(tables[f.number][0])
    && f.largest == KeyOf(tables[f.number][|tables[f.number]| - 1])
    && SaneRange(f)
  }

  predicate InFile(tables: Tables, f: File, e: Entry) {
    f.number in tables && e in tables[f.number]
  }

  lemma EntryInRange(tables: Tables, f: File, e: Entry)
    requires Backed(tables, f) && InFile(tables, f, e)
    ensures LessEq(f.smallest, KeyOf(e)) && LessEq(KeyOf(e), f.largest)
  {
    var t := tables[f.number];
    var i :| 0 <= i < |t| && t[i] == e;
    assert i > 0 ==> Less(KeyOf(t[0]), KeyOf(t[i]));
    assert i < |t| - 1 ==> Less(KeyOf(t[i]), KeyOf(t[|t| - 1]));
  }

  lemma BoundsAreEntries(tables: Tables, f: File)
    requires Backed(tables, f)
    ensures exists e :: InFile(tables, f, e) && KeyOf(e) == f.smallest
    ensures exists e :: InFile(tables, f, e) && KeyOf(e) == f.largest
  {
    var t := tables[f.number];
    assert InFile(tables, f, t[0]);
    assert InFile(tables, f, t[|t| - 1]);
  }

  /** A level above 0: files ascend and their internal-key ranges are disjoint. */
  predicate DisjointSorted(files: seq<File>) {
    && (forall i :: 0 <= i < |files| ==> SaneRange(files[i]))
    && (forall i, j :: 0 <= i < j < |files| ==> Less(files[i].largest, files[j].smallest))
  }

  //////////////////////////////////////////////////////////////////////////////
  // Searches over one level.

  /** The smallest index whose file's largest key is at or after `key`; |files| if none. */
  method FindFile(files: seq<File>, key: IKey) returns (right: nat)
    requires DisjointSorted(files)
    ensures right <= |files|
    ensures forall i :: 0 <= i < right ==> Less(files[i].largest, key)
    ensures forall i :: right <= i < |files| ==> !Less(files[i].largest, key)
  {
    var left := 0;
    right := |files|;
    while left < right
      invariant 0 <= left <= right <= |files|
      invariant forall i :: 0 <= i < left ==> Less(files[i].largest, key)
      invariant forall i :: right <= i < |files| ==> !Less(files[i].largest, key)
    {
      var mid := (left + right) / 2;
      CompareIsOrder(files[mid].largest, key);
      if Compare(files[mid].largest, key) < 0 {
        forall i | 0 <= i <= mid ensures Less(files[i].largest, key) {
          assert i < mid ==> Less(files[i].largest, files[mid].smallest);
        }
        left := mid + 1;
      } else {
        forall i | mid <= i < |files| ensures !Less(files[i].largest, key) {
          assert i > mid ==> Less(files[mid].largest, files[i].smallest);
        }
        right := mid;
      }
    }
  }

  /** A missing bound is infinite. */
  predicate AfterFile(k: Option<UserKey>, f: File) {
    k.Some? && k.value > f.largest.user
  }

  predicate BeforeFile(k: Option<UserKey>, f: File) {
    k.Some? && k.value < f.smallest.user
  }

  /** The user-key range of `f` meets [lo, hi]. */
  predicate Overlaps(f: File, lo: Option<UserKey>, hi: Option<UserKey>) {
    !AfterFile(lo, f) && !BeforeFile(hi, f)
  }

  method SomeFileOverlapsRange(disjoint: bool, files: seq<File>, lo: Option<UserKey>, hi: Option<UserKey>)
    returns (b: bool)
    requires disjoint ==> DisjointSorted(files)
    ensures b <==> exists f :: f in files && Overlaps(f, lo, hi)
  {
    if !disjoint {
      for i := 0 to |files|
        invariant forall j :: 0 <= j < i ==> !Overlaps(files[j], lo, hi)
      {
        if !(AfterFile(lo, files[i]) || BeforeFile(hi, files[i])) {
          assert Overlaps(files[i], lo, hi);
          return true;
        }
      }
      return false;
    }
    var index := 0;
    if lo.Some? {
      index := FindFile(files, IKey(lo.value, MAX_SEQUENCE, Value));
    }
    if index >= |files| {
      return false;
    }
    b := !BeforeFile(hi, files[index]);
    if b {
      assert Overlaps(files[index], lo, hi);
    } else {
      forall j | 0 <= j < |files| ensures !Overlaps(files[j], lo, hi) {
        assert j > index ==> Less(files[index].largest, files[j].smallest);
      }
    }
  }

  //////////////////////////////////////////////////////////////////////////////
  // Selecting the files of a level that overlap a range.

  /** The files that overlap [lo, hi], in list order. */
  function Select(files: seq<File>, lo: Option<UserKey>, hi: Option<UserKey>): seq<File> {
    if files == [] then []
    else
      var n := |files| - 1;
      Select(files[..n], lo, hi) + (if Overlaps(files[n], lo, hi) then [files[n]] else [])
  }

  lemma {:induction false} SelectMembers(files: seq<File>, lo: Option<UserKey>, hi: Option<UserKey>, f: File)
    ensures f in Select(files, lo, hi) <==> f in files && Overlaps(f, lo, hi)
  {
    if files != [] {
      var n := |files| - 1;
      SelectMembers(files[..n], lo, hi, f);
      assert files == files[..n] + [files[n]];
    }
  }

  predicate InRange(x: UserKey, lo: Option<UserKey>, hi: Option<UserKey>) {
    (lo.Some? ==> lo.value <= x) && (hi.Some? ==> x <= hi.value)
  }

  /** [lo, hi] is contained in [a, b]. */
  predicate Includes(a: Option<UserKey>, b: Option<UserKey>, lo: Option<UserKey>, hi: Option<UserKey>) {
    (a.Some? ==> lo.Some? && a.value <= lo.value) && (b.Some? ==> hi.Some? && hi.value <= b.value)
  }

  predicate Within(f: File, lo: Option<UserKey>, hi: Option<UserKey>) {
    Includes(lo, hi, Some(f.smallest.user), Some(f.largest.user))
  }

  /** No file sticks out of [lo, hi]: whatever overlaps it lies within it. */
  predicate ClosedRange(files: seq<File>, lo: Option<UserKey>, hi: Option<UserKey>) {
    forall f :: f in files && Overlaps(f, lo, hi) ==> Within(f, lo, hi)
  }

  predicate HasKey(f: File, x: UserKey) {
    f.smallest.user <= x <= f.largest.user
  }

  /** Every point of [lo, hi] lies in [begin, end] or in the range of a file that overlaps [lo, hi]. */
  ghost predicate Reached(files: seq<File>, begin: Option<UserKey>, end: Option<UserKey>,
                          lo: Option<UserKey>, hi: Option<UserKey>) {
    forall x: UserKey :: InRange(x, lo, hi) ==>
      InRange(x, begin, end) || exists f :: f in files && Overlaps(f, lo, hi) && HasKey(f, x)
  }

  predicate Meet(f: File, g: File) {
    f.smallest.user <= g.largest.user && g.smallest.user <= f.largest.user
  }

  /** `chosen` takes every file of the level that meets one of its files. */
  predicate ClosedSet(files: seq<File>, chosen: set<File>) {
    forall f, g :: f in chosen && g in files && Meet(f, g) ==> g in chosen
  }

  ghost predicate Covers(chosen: set<File>, lo: Option<UserKey>, hi: Option<UserKey>) {
    forall x: UserKey :: InRange(x, lo, hi) ==> exists f :: f in chosen && HasKey(f, x)
  }

  /** How many files start before `lo` or end after `hi`: what each restart of the scan uses up. */
  ghost function SticksOut(files: seq<File>, lo: Option<UserKey>, hi: Option<UserKey>): nat {
    if files == [] then 0
    else SticksOut(files[1..], lo, hi)
         + (if lo.Some? && files[0].smallest.user < lo.value then 1 else 0)
         + (if hi.Some? && files[0].largest.user > hi.value then 1 else 0)
  }

  lemma {:induction false} SticksOutLess(files: seq<File>, lo: Option<UserKey>, hi: Option<UserKey>,
                                          lo': Option<UserKey>, hi': Option<UserKey>)
    requires Includes(lo', hi', lo, hi) && lo.Some? == lo'.Some? && hi.Some? == hi'.Some?
    ensures SticksOut(files, lo', hi') <= SticksOut(files, lo, hi)
    ensures (exists f :: f in files &&
              ((lo.Some? && lo'.value <= f.smallest.user < lo.value) ||
               (hi.Some? && hi.value < f.largest.user <= hi'.value)))
            ==> SticksOut(files, lo', hi') < SticksOut(files, lo, hi)
  {
    if files != [] {
      SticksOutLess(files[1..], lo, hi, lo', hi');
    }
  }

  predicate Ordered(lo: Option<UserKey>, hi: Option<UserKey>) {
    lo.Some? && hi.Some? ==> lo.value <= hi.value
  }

  /** [lo, hi] is what [begin, end] must grow to: it contains it, lies in every closed range that
      contains it, is covered by every closed set of files that covers [begin, end], and has no point
      that neither [begin, end] nor an overlapping file accounts for. */
  ghost predicate Grown(files: seq<File>, begin: Option<UserKey>, end: Option<UserKey>,
                        lo: Option<UserKey>, hi: Option<UserKey>) {
    && lo.Some? == begin.Some? && hi.Some? == end.Some?
    && Includes(lo, hi, begin, end)
    && (forall a, b :: ClosedRange(files, a, b) && Includes(a, b, begin, end) ==> Includes(a, b, lo, hi))
    && Reached(files, begin, end, lo, hi)
    && (Ordered(begin, end) ==> forall chosen: set<File> ::
          ClosedSet(files, chosen) && Covers(chosen, begin, end) ==> Covers(chosen, lo, hi))
  }

  /** Version::GetOverlappingInputs.  Above level 0 the overlapping files are listed; at level 0 the
      range grows until no file sticks out of it. */
  method GetOverlappingInputs(level: nat, files: seq<File>, begin: Option<UserKey>, end: Option<UserKey>)
    returns (inputs: seq<File>, ghost lo: Option<UserKey>, ghost hi: Option<UserKey>)
    requires forall f :: f in files ==> f.smallest.user <= f.largest.user
    ensures forall f :: f in inputs ==> f in files
    ensures forall f :: f in files && Overlaps(f, begin, end) ==> f in inputs
    ensures level > 0 ==> forall f :: f in inputs ==> Overlaps(f, begin, end)
    ensures inputs == Select(files, lo, hi)
    ensures level > 0 ==> lo == begin && hi == end
    ensures level == 0 ==> ClosedRange(files, lo, hi)
    ensures Grown(files, begin, end, lo, hi)
  {
    inputs := [];
    var userBegin, userEnd := begin, end;
    var i := 0;
    while i < |files|
      invariant 0 <= i <= |files|
      invariant inputs == Select(files[..i], userBegin, userEnd)
      invariant level > 0 ==> userBegin == begin && userEnd == end
      invariant level == 0 ==> ClosedRange(files[..i], userBegin, userEnd)
      invariant Grown(files, begin, end, userBegin, userEnd)
      decreases SticksOut(files, userBegin, userEnd), |files| - i
    {
      var f := files[i];
      assert files[..i + 1][..i] == files[..i];
      i := i + 1;
      if userBegin.Some? && f.largest.user < userBegin.value {
        // "f" is completely before the range
      } else if userEnd.Some? && f.smallest.user > userEnd.value {
        // "f" is completely after the range
      } else {
        inputs := inputs + [f];
        if level == 0 {
          if userBegin.Some? && f.smallest.user < userBegin.value {
            Grow(files, begin, end, userBegin, userEnd, Some(f.smallest.user), userEnd, f);
            userBegin := Some(f.smallest.user);
            inputs, i := [], 0;
          } else if userEnd.Some? && f.largest.user > userEnd.value {
            Grow(files, begin, end, userBegin, userEnd, userBegin, Some(f.largest.user), f);
            userEnd := Some(f.largest.user);
            inputs, i := [], 0;
          }
        }
      }
    }
    assert files[..i] == files;
    lo, hi := userBegin, userEnd;
    SelectedOverlap(files, begin, end, lo, hi);
  }

  lemma SelectedOverlap(files: seq<File>, begin: Option<UserKey>, end: Option<UserKey>, lo: Option<UserKey>,
                        hi: Option<UserKey>)
    requires Includes(lo, hi, begin, end) && lo.Some? == begin.Some? && hi.Some? == end.Some?
    ensures forall f :: f in Select(files, lo, hi) ==> f in files && Overlaps(f, lo, hi)
    ensures forall f :: f in files && Overlaps(f, begin, end) ==> f in Select(files, lo, hi)
  {
    forall f ensures f in Select(files, lo, hi) <==> f in files && Overlaps(f, lo, hi) {
      SelectMembers(files, lo, hi, f);
    }
  }

  /** Stretching the range to a bound of an overlapping file keeps Grown and uses up a file. */
  lemma Grow(files: seq<File>, begin: Option<UserKey>, end: Option<UserKey>,
             lo: Option<UserKey>, hi: Option<UserKey>, lo': Option<UserKey>, hi': Option<UserKey>, f: File)
    requires Grown(files, begin, end, lo, hi)
    requires f in files && Overlaps(f, lo, hi) && f.smallest.user <= f.largest.user
    requires || (hi' == hi && lo.Some? && lo' == Some(f.smallest.user) && f.smallest.user < lo.value)
             || (lo' == lo && hi.Some? && hi' == Some(f.largest.user) && f.largest.user > hi.value)
    ensures Grown(files, begin, end, lo', hi')
    ensures SticksOut(files, lo', hi') < SticksOut(files, lo, hi)
  {
    SticksOutLess(files, lo, hi, lo', hi');
    GrowReached(files, begin, end, lo, hi, lo', hi', f);
    forall a, b | ClosedRange(files, a, b) && Includes(a, b, begin, end) ensures Includes(a, b, lo', hi') {
      assert Includes(a, b, lo, hi);
      assert Overlaps(f, a, b);
    }
    if Ordered(begin, end) {
      forall chosen: set<File> | ClosedSet(files, chosen) && Covers(chosen, begin, end)
        ensures Covers(chosen, lo', hi')
      {
        GrowCovers(files, chosen, lo, hi, lo', hi', f);
      }
    }
  }

  lemma GrowReached(files: seq<File>, begin: Option<UserKey>, end: Option<UserKey>,
                    lo: Option<UserKey>, hi: Option<UserKey>,
                    lo': Option<UserKey>, hi': Option<UserKey>, f: File)
    requires Reached(files, begin, end, lo, hi)
    requires f in files && Overlaps(f, lo, hi) && Includes(lo', hi', lo, hi)
    requires f.smallest.user <= f.largest.user
    requires || (hi' == hi && lo.Some? && lo' == Some(f.smallest.user))
             || (lo' == lo && hi.Some? && hi' == Some(f.largest.user))
    ensures Reached(files, begin, end, lo', hi')
  {
    forall x: UserKey | InRange(x, lo', hi') && !InRange(x, begin, end)
      ensures exists g :: g in files && Overlaps(g, lo', hi') && HasKey(g, x)
    {
      if InRange(x, lo, hi) {
        var g :| g in files && Overlaps(g, lo, hi) && HasKey(g, x);
        assert Overlaps(g, lo', hi');
      } else {
        assert Overlaps(f, lo', hi') && HasKey(f, x);
      }
    }
  }

  /** A file that meets a covered range belongs to every closed set that covers the range. */
  lemma OverlapIsChosen(files: seq<File>, chosen: set<File>, lo: Option<UserKey>, hi: Option<UserKey>, f: File)
    requires ClosedSet(files, chosen) && Covers(chosen, lo, hi)
    requires Ordered(lo, hi)
    requires f in files && f.smallest.user <= f.largest.user && Overlaps(f, lo, hi)
    ensures f in chosen
  {
    var x := if lo.Some? && f.smallest.user < lo.value then lo.value else f.smallest.user;
    assert InRange(x, lo, hi) && HasKey(f, x);
    var g :| g in chosen && HasKey(g, x);
    assert Meet(g, f);
  }

  lemma GrowCovers(files: seq<File>, chosen: set<File>, lo: Option<UserKey>, hi: Option<UserKey>,
                   lo': Option<UserKey>, hi': Option<UserKey>, f: File)
    requires ClosedSet(files, chosen) && Covers(chosen, lo, hi)
    requires Ordered(lo, hi)
    requires f in files && Overlaps(f, lo, hi) && Includes(lo', hi', lo, hi)
    requires f.smallest.user <= f.largest.user
    requires || (hi' == hi && lo.Some? && lo' == Some(f.smallest.user))
             || (lo' == lo && hi.Some? && hi' == Some(f.largest.user))
    ensures Covers(chosen, lo', hi')
  {
    OverlapIsChosen(files, chosen, lo, hi, f);
    forall x: UserKey | InRange(x, lo', hi') ensures exists g :: g in chosen && HasKey(g, x) {
      if !InRange(x, lo, hi) {
        assert HasKey(f, x);
      }
    }
  }

  //////////////////////////////////////////////////////////////////////////////
  // Where to put a flushed memtable.

  const MAX_MEM_COMPACT_LEVEL := 2
  const TARGET_FILE_SIZE := 2 * 1048576
  const MAX_GRANDPARENT_OVERLAP_BYTES := 10 * TARGET_FILE_SIZE

  function TotalSize(files: seq<File>): nat {
    if files == [] then 0 else TotalSize(files[..|files| - 1]) + files[|files| - 1].size
  }

  /** It adds up the sizes of the files. */
  lemma {:induction false} TotalSizeAdds(a: seq<File>, b: seq<File>, f: File)
    ensures TotalSize(a + b) == TotalSize(a) + TotalSize(b)
    ensures TotalSize([f]) == f.size && TotalSize([]) == 0
    decreases |b|
  {
    if b == [] {
      assert a + b == a;
    } else {
      TotalSizeAdds(a, b[..|b| - 1], f);
      assert (a + b)[..|a + b| - 1] == a + b[..|b| - 1];
    }
  }

  method TotalFileSize(files: seq<File>) returns (sum: nat)
    ensures sum == TotalSize(files)
  {
    sum := 0;
    for i := 0 to |files|
      invariant sum == TotalSize(files[..i])
    {
      assert files[..i + 1][..i] == files[..i];
      sum := sum + files[i].size;
    }
    assert files[..|files|] == files;
  }

  /** The lists of a Version that the searches rely on. */
  predicate LevelsSorted(levels: Levels) {
    && |levels| == NUM_LEVELS
    && (forall l, f :: 0 <= l < NUM_LEVELS && f in levels[l] ==> SaneRange(f))
    && (forall l :: 1 <= l < NUM_LEVELS ==> DisjointSorted(levels[l]))
  }

  predicate OverlapInLevel(levels: Levels, l: nat, lo: UserKey, hi: UserKey)
    requires l < |levels|
  {
    exists f :: f in levels[l] && Overlaps(f, Some(lo), Some(hi))
  }

  predicate HeavyGrandparents(levels: Levels, l: nat, lo: UserKey, hi: UserKey)
    requires l < |levels|
  {
    TotalSize(Select(levels[l], Some(lo), Some(hi))) > MAX_GRANDPARENT_OVERLAP_BYTES
  }

  /** The deepest level, at most 2, that can be reached without passing over an overlapping file
      or stopping above too many overlapping bytes. */
  method PickLevelForMemTableOutput(levels: Levels, lo: UserKey, hi: UserKey) returns (level: nat)
    requires LevelsSorted(levels)
    ensures level <= MAX_MEM_COMPACT_LEVEL
    ensures level > 0 ==> forall l :: 0 <= l <= level ==> !OverlapInLevel(levels, l, lo, hi)
    ensures forall l :: 2 <= l < level + 2 ==> !HeavyGrandparents(levels, l, lo, hi)
    ensures || level == MAX_MEM_COMPACT_LEVEL
            || OverlapInLevel(levels, level, lo, hi)
            || OverlapInLevel(levels, level + 1, lo, hi)
            || HeavyGrandparents(levels, level + 2, lo, hi)
  {
    level := 0;
    var overlap := SomeFileOverlapsRange(false, levels[0], Some(lo), Some(hi));
    if !overlap {
      while level < MAX_MEM_COMPACT_LEVEL
        invariant level <= MAX_MEM_COMPACT_LEVEL
        invariant forall l :: 0 <= l <= level ==> !OverlapInLevel(levels, l, lo, hi)
        invariant forall l :: 2 <= l < level + 2 ==> !HeavyGrandparents(levels, l, lo, hi)
      {
        overlap := SomeFileOverlapsRange(true, levels[level + 1], Some(lo), Some(hi));
        if overlap { break; }
        var overlaps, _, _ := GetOverlappingInputs(level + 2, levels[level + 2], Some(lo), Some(hi));
        var sum := TotalFileSize(overlaps);
        if sum > MAX_GRANDPARENT_OVERLAP_BYTES { break; }
        level := level + 1;
      }
    }
  }

  //////////////////////////////////////////////////////////////////////////////
  // Reading: mem, imm, then the levels.

  ghost predicate AtLevel(tables: Tables, levels: Levels, l: int, e: Entry) {
    0 <= l < |levels| && exists f :: f in levels[l] && InFile(tables, f, e)
  }

  ghost predicate Stored(tables: Tables, levels: Levels, e: Entry) {
    exists l :: AtLevel(tables, levels, l, e)
  }

  /** Everything stored in the files of a Version. */
  ghost function FileEntries(tables: Tables, levels: Levels): iset<Entry> {
    iset e | Stored(tables, levels, e)
  }

  ghost predicate AllBacked(tables: Tables, levels: Levels) {
    forall l, f :: 0 <= l < |levels| && f in levels[l] ==> Backed(tables, f)
  }

  /** For every user key they share, `f` holds newer writes than `g`. */
  ghost predicate FileNewer(tables: Tables, f: File, g: File) {
    forall e, d :: InFile(tables, f, e) && InFile(tables, g, d) && e.key == d.key ==> e.sn > d.sn
  }

  ghost predicate Level0Recency(tables: Tables, files: seq<File>) {
    forall f, g :: f in files && g in files && f.number > g.number ==> FileNewer(tables, f, g)
  }

  /** Recency: for one user key, a shallower level holds newer writes, and at level 0 a file with a
      larger number holds newer writes. */
  ghost predicate Recency(tables: Tables, levels: Levels) {
    && (forall l, m, f, g :: 0 <= l < m < |levels| && f in levels[l] && g in levels[m] ==> FileNewer(tables, f, g))
    && (|levels| > 0 ==> Level0Recency(tables, levels[0]))
  }

  datatype Answer = Missing | Deleted | Found(value: Bytes)

  function AnswerOf(e: Entry): Answer {
    if e.kind.Value? then Found(e.value) else Deleted
  }

  /** The position of the first entry at or after `target`. */
  function SeekIndex(t: seq<Entry>, target: IKey): (i: nat)
    requires SortedTable(t)
    ensures i <= |t|
    ensures forall j :: 0 <= j < i ==> Less(KeyOf(t[j]), target)
    ensures forall j :: i <= j < |t| ==> !Less(KeyOf(t[j]), target)
  {
    if t == [] || !Less(KeyOf(t[0]), target) then
      assert forall j :: 0 < j < |t| ==> Less(KeyOf(t[0]), KeyOf(t[j]));
      0
    else
      assert forall j :: 1 <= j < |t| ==> t[j] == t[1..][j - 1];
      1 + SeekIndex(t[1..], target)
  }

  /** Table::InternalGet followed by SaveValue: seek, then keep the entry if its user key matches. */
  function TableGet(t: seq<Entry>, k: UserKey, s: nat): Answer
    requires SortedTable(t)
  {
    var i := SeekIndex(t, SeekKey(k, s));
    if i < |t| && t[i].key == k then AnswerOf(t[i]) else Missing
  }

  /** A table lookup answers with the newest visible entry of that table, or says there is none. */
  lemma TableGetIsNewest(t: seq<Entry>, k: UserKey, s: nat) returns (e: Option<Entry>)
    requires SortedTable(t)
    ensures e.None? ==> TableGet(t, k, s) == Missing && forall d :: d in t ==> !Visible(d, k, s)
    ensures e.Some? ==> && TableGet(t, k, s) == AnswerOf(e.value)
                        && e.value in t && Visible(e.value, k, s)
                        && forall d :: d in t && Visible(d, k, s) ==> d.sn <= e.value.sn
  {
    var i := SeekIndex(t, SeekKey(k, s));
    if i < |t| && t[i].key == k {
      e := Some(t[i]);
    } else {
      e := None;
      assert forall j :: i < j < |t| ==> Less(KeyOf(t[i]), KeyOf(t[j]));
    }
  }

  predicate NewestFirst(files: seq<File>) {
    forall i, j :: 0 <= i < j < |files| ==> files[i].number >= files[j].number
  }

  function InsertNewestFirst(files: seq<File>, f: File): (r: seq<File>)
    requires NewestFirst(files)
    ensures NewestFirst(r) && multiset(r) == multiset(files) + multiset{f}
    ensures |r| == |files| + 1 && (r[0] == f || (files != [] && r[0] == files[0]))
  {
    if files == [] || files[0].number < f.number then [f] + files
    else
      assert files == [files[0]] + files[1..];
      var rest := InsertNewestFirst(files[1..], f);
      [files[0]] + rest
  }

  /** std::sort by descending file number. */
  method SortNewestFirst(files: seq<File>) returns (sorted: seq<File>)
    ensures NewestFirst(sorted) && multiset(sorted) == multiset(files)
  {
    sorted := [];
    for i := 0 to |files|
      invariant NewestFirst(sorted) && multiset(sorted) == multiset(files[..i])
    {
      assert files[..i + 1] == files[..i] + [files[i]];
      sorted := InsertNewestFirst(sorted, files[i]);
    }
    assert files[..|files|] == files;
  }

  /** At level 0 `files` are those whose range has `k`, newest first; above level 0 it is the one file
      that can hold the newest visible entry of `k`, if there is such a file. */
  predicate SearchList(levels: Levels, level: nat, k: UserKey, s: nat, files: seq<File>)
    requires level < |levels|
  {
    && (forall f :: f in files ==> f in levels[level])
    && (level == 0 ==> NewestFirst(files) && forall f :: f in levels[0] ==> (f in files <==> HasKey(f, k)))
    && (level > 0 ==>
          || (&& files == []
              && forall f :: f in levels[level] ==> Less(f.largest, SeekKey(k, s)) || k < f.smallest.user)
          || (&& |files| == 1 && !Less(files[0].largest, SeekKey(k, s))
              && forall f :: f in levels[level] && f != files[0] ==>
                   Less(f.largest, SeekKey(k, s)) || Less(files[0].largest, f.smallest)))
  }

  /** The files of one level that Get has to open, in the order it opens them. */
  method FilesToSearch(levels: Levels, level: nat, k: UserKey, s: nat) returns (files: seq<File>)
    requires LevelsSorted(levels) && level < NUM_LEVELS
    ensures SearchList(levels, level, k, s, files)
  {
    if level == 0 {
      var tmp := [];
      for i := 0 to |levels[0]|
        invariant forall f :: f in tmp <==> f in levels[0][..i] && HasKey(f, k)
      {
        if levels[0][i].smallest.user <= k <= levels[0][i].largest.user {
          tmp := tmp + [levels[0][i]];
        }
      }
      files := SortNewestFirst(tmp);
      forall f ensures f in files <==> f in tmp {
        assert f in multiset(files) <==> f in multiset(tmp);
      }
    } else {
      var index := FindFile(levels[level], SeekKey(k, s));
      if index >= |levels[level]| {
        files := [];
      } else {
        var f := levels[level][index];
        if k < f.smallest.user {
          files := [];
          forall g | g in levels[level] ensures Less(g.largest, SeekKey(k, s)) || k < g.smallest.user {
            var i :| 0 <= i < |levels[level]| && levels[level][i] == g;
          }
        } else {
          files := [f];
          forall g | g in levels[level] && g != f
            ensures Less(g.largest, SeekKey(k, s)) || Less(f.largest, g.smallest)
          {
            var i :| 0 <= i < |levels[level]| && levels[level][i] == g;
          }
        }
      }
    }
  }

  datatype Probe = Probe(file: File, level: nat)

  /** The newest visible entry of one level, or None. */
  ghost predicate LevelNewest(tables: Tables, levels: Levels, level: nat, k: UserKey, s: nat, e: Option<Entry>) {
    && (e.None? ==> forall d :: AtLevel(tables, levels, level, d) ==> !Visible(d, k, s))
    && (e.Some? ==> && AtLevel(tables, levels, level, e.value) && Visible(e.value, k, s)
                    && forall d :: AtLevel(tables, levels, level, d) && Visible(d, k, s) ==> d.sn <= e.value.sn)
  }

  /** At level 0 the first file, newest first, with a visible entry holds the newest one. */
  lemma FirstHitWinsLevel0(tables: Tables, levels: Levels, k: UserKey, s: nat, files: seq<File>, i: nat, e: Entry)
    requires |levels| > 0 && AllBacked(tables, levels) && Level0Recency(tables, levels[0])
    requires i < |files| && files[i] in levels[0] && NewestFirst(files)
    requires forall f :: f in levels[0] ==> (f in files <==> HasKey(f, k))
    requires forall j, d :: 0 <= j < i && InFile(tables, files[j], d) ==> !Visible(d, k, s)
    requires InFile(tables, files[i], e) && Visible(e, k, s)
    requires forall d :: InFile(tables, files[i], d) && Visible(d, k, s) ==> d.sn <= e.sn
    ensures LevelNewest(tables, levels, 0, k, s, Some(e))
  {
    forall d | AtLevel(tables, levels, 0, d) && Visible(d, k, s) ensures d.sn <= e.sn {
      var f :| f in levels[0] && InFile(tables, f, d);
      EntryInRange(tables, f, d);
      assert f in files;
      var j :| 0 <= j < |files| && files[j] == f;
      assert j >= i;
      if f.number == files[i].number {
        assert InFile(tables, files[i], d);
      } else {
        assert FileNewer(tables, files[i], f);
      }
    }
  }

  /** Above level 0 the file that FindFile selects holds the newest visible entry, if there is one. */
  lemma SelectedFileWins(tables: Tables, levels: Levels, level: nat, k: UserKey, s: nat, g: File, e: Entry)
    requires level < |levels| && AllBacked(tables, levels) && g in levels[level]
    requires forall f :: f in levels[level] && f != g ==>
               Less(f.largest, SeekKey(k, s)) || Less(g.largest, f.smallest)
    requires InFile(tables, g, e) && Visible(e, k, s)
    requires forall d :: InFile(tables, g, d) && Visible(d, k, s) ==> d.sn <= e.sn
    ensures LevelNewest(tables, levels, level, k, s, Some(e))
  {
    EntryInRange(tables, g, e);
    forall d | AtLevel(tables, levels, level, d) && Visible(d, k, s) ensures d.sn <= e.sn {
      var f :| f in levels[level] && InFile(tables, f, d);
      EntryInRange(tables, f, d);
    }
  }

  /** If none of the searched files has a visible entry, the level has none. */
  lemma NoHit(tables: Tables, levels: Levels, level: nat, k: UserKey, s: nat, files: seq<File>)
    requires level < |levels| && AllBacked(tables, levels) && SearchList(levels, level, k, s, files)
    requires forall j, d :: 0 <= j < |files| && InFile(tables, files[j], d) ==> !Visible(d, k, s)
    ensures LevelNewest(tables, levels, level, k, s, None)
  {
    forall d | AtLevel(tables, levels, level, d) ensures !Visible(d, k, s) {
      var f :| f in levels[level] && InFile(tables, f, d);
      EntryInRange(tables, f, d);
      if f in files {
        var j :| 0 <= j < |files| && files[j] == f;
      } else if level > 0 && |files| == 1 {
        assert files[0] in levels[level] && Backed(tables, files[0]);
        BoundsAreEntries(tables, files[0]);
        var last :| InFile(tables, files[0], last) && KeyOf(last) == files[0].largest;
        assert !Visible(last, k, s);
      }
    }
  }

  predicate ValidProbe(levels: Levels, p: Option<Probe>, limit: nat) {
    p.Some? ==> p.value.level < limit <= |levels| && p.value.file in levels[p.value.level]
  }

  ghost function LastOf(probed: seq<Probe>): Option<Probe> {
    if probed == [] then None else Some(probed[|probed| - 1])
  }

  /** The first file probed is charged for a seek, once a second one is probed. */
  ghost function Charged(probed: seq<Probe>): Option<Probe> {
    if |probed| < 2 then None else Some(probed[0])
  }

  ghost function Probes(files: seq<File>, level: nat): seq<Probe> {
    seq(|files|, i requires 0 <= i < |files| => Probe(files[i], level))
  }

  lemma OneMoreProbe(probed: seq<Probe>, files: seq<File>, i: nat, level: nat, before: seq<Probe>)
    returns (after: seq<Probe>)
    requires i < |files| && before == probed + Probes(files[..i], level)
    ensures after == probed + Probes(files[..i + 1], level) && LastOf(after) == Some(Probe(files[i], level))
    ensures Charged(after) == if LastOf(before).Some? && Charged(before).None? then LastOf(before) else Charged(before)
  {
    after := before + [Probe(files[i], level)];
    assert after == probed + Probes(files[..i + 1], level);
  }

  /** The inner loop of Get over one level, with the bookkeeping for seek compactions. */
  method ProbeLevel(tables: Tables, levels: Levels, level: nat, k: UserKey, s: nat, files: seq<File>,
                    last0: Option<Probe>, seek0: Option<Probe>, ghost probed: seq<Probe>)
    returns (answer: Answer, last: Option<Probe>, seek: Option<Probe>, ghost e: Option<Entry>, ghost n: nat)
    requires |levels| == NUM_LEVELS && level < NUM_LEVELS
    requires AllBacked(tables, levels) && Level0Recency(tables, levels[0])
    requires SearchList(levels, level, k, s, files)
    requires ValidProbe(levels, last0, level) && ValidProbe(levels, seek0, 6)
    requires last0 == LastOf(probed) && seek0 == Charged(probed)
    ensures LevelNewest(tables, levels, level, k, s, e)
    ensures answer == if e.Some? then AnswerOf(e.value) else Missing
    ensures ValidProbe(levels, last, level + 1) && ValidProbe(levels, seek, 6)
    ensures n <= |files| && (answer.Missing? ==> n == |files|)
    ensures last == LastOf(probed + Probes(files[..n], level)) && seek == Charged(probed + Probes(files[..n], level))
  {
    last, seek, n := last0, seek0, 0;
    ghost var soFar := probed;
    for i := 0 to |files|
      invariant n == i && soFar == probed + Probes(files[..i], level)
      invariant last == LastOf(soFar) && seek == Charged(soFar)
      invariant ValidProbe(levels, last, if i == 0 then level else level + 1)
      invariant ValidProbe(levels, seek, 6)
      invariant forall j, d :: 0 <= j < i && InFile(tables, files[j], d) ==> !Visible(d, k, s)
    {
      if last.Some? && seek.None? {
        seek := last;
      }
      soFar := OneMoreProbe(probed, files, i, level, soFar);
      var f := files[i];
      assert f in levels[level] && Backed(tables, f);
      last := Some(Probe(f, level));
      n := i + 1;
      answer := TableGet(tables[f.number], k, s);
      e := TableGetIsNewest(tables[f.number], k, s);
      if answer != Missing {
        if level == 0 {
          FirstHitWinsLevel0(tables, levels, k, s, files, i, e.value);
        } else {
          SelectedFileWins(tables, levels, level, k, s, f, e.value);
        }
        return;
      }
    }
    answer, e := Missing, None;
    NoHit(tables, levels, level, k, s, files);
  }

  /** The newest visible entry of the first level that has one is the newest of all files. */
  lemma LevelHitWins(tables: Tables, levels: Levels, level: nat, k: UserKey, s: nat, e: Entry)
    requires level < |levels| && Recency(tables, levels)
    requires LevelNewest(tables, levels, level, k, s, Some(e))
    requires forall l, d :: 0 <= l < level && AtLevel(tables, levels, l, d) ==> !Visible(d, k, s)
    ensures IsNewest(FileEntries(tables, levels), k, s, e)
  {
    assert Stored(tables, levels, e);
    forall d | Stored(tables, levels, d) && Visible(d, k, s) ensures d.sn <= e.sn {
      var m :| AtLevel(tables, levels, m, d);
      if m > level {
        var f :| f in levels[level] && InFile(tables, f, e);
        var g :| g in levels[m] && InFile(tables, g, d);
        assert FileNewer(tables, f, g);
      }
    }
  }

  /** Version::Get: under the recency invariant, stopping at the first level that has a visible entry
      gives the brute-force newest entry over all files.  The file charged for the extra seek is never
      at the last level, because a later file was probed after it. */
  method Get(tables: Tables, levels: Levels, k: UserKey, s: nat)
    returns (answer: Answer, seek: Option<Probe>, ghost probed: seq<Probe>)
    requires LevelsSorted(levels) && AllBacked(tables, levels) && Recency(tables, levels)
    requires UniqueSeqs(FileEntries(tables, levels))
    ensures answer.Found? ==> View(FileEntries(tables, levels), k, s) == Some(answer.value)
    ensures !answer.Found? ==> View(FileEntries(tables, levels), k, s) == None
    ensures answer.Missing? <==> forall e :: Stored(tables, levels, e) ==> !Visible(e, k, s)
    ensures seek == Charged(probed)
    ensures seek.Some? ==> seek.value.level <= 5 && seek.value.file in levels[seek.value.level]
  {
    seek, probed := None, [];
    var last: Option<Probe> := None;
    var level := 0;
    while level < NUM_LEVELS
      invariant level <= NUM_LEVELS
      invariant ValidProbe(levels, last, level) && ValidProbe(levels, seek, 6)
      invariant last == LastOf(probed) && seek == Charged(probed)
      invariant forall l, e :: 0 <= l < level && AtLevel(tables, levels, l, e) ==> !Visible(e, k, s)
    {
      ghost var e, n;
      var files := FilesToSearch(levels, level, k, s);
      answer, last, seek, e, n := ProbeLevel(tables, levels, level, k, s, files, last, seek, probed);
      probed := probed + Probes(files[..n], level);
      if answer != Missing {
        LevelHitWins(tables, levels, level, k, s, e.value);
        ViewIs(FileEntries(tables, levels), k, s, e.value);
        return;
      }
      level := level + 1;
    }
    answer := Missing;
    ViewIsNone(FileEntries(tables, levels), k, s);
  }
}
