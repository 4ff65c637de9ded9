/** Choosing what to compact (db/version_set.cpp: Finalize, UpdateStats, PickCompaction, SetupOtherInputs). */
module CompactionPicker {
  import opened DbFormat
  import opened Versions
  import opened Coding

  /** The two input lists of a Compaction: files of `level` and of `level + 1`. */
  datatype Job = Job(level: nat, in0: seq<File>, in1: seq<File>)

  predicate Touches(files: seq<File>, x: UserKey) {
    exists f :: f in files && HasKey(f, x)
  }

  /** The ranges of `files` leave no gap: every key between two of them lies in one of them. */
  ghost predicate NoGap(files: seq<File>) {
    forall a, b, x: UserKey :: a in files && b in files && a.smallest.user <= x <= b.largest.user ==> Touches(files, x)
  }

  /** `g` meets the smallest user-key range that contains `files`. */
  predicate MeetsHull(g: File, files: seq<File>) {
    && (exists a :: a in files && a.smallest.user <= g.largest.user)
    && (exists b :: b in files && g.smallest.user <= b.largest.user)
  }

  /** What every compaction chosen by PickCompaction satisfies. */
  ghost predicate Selected(levels: Levels, job: Job) {
    && job.level + 1 < NUM_LEVELS == |levels|
    && job.in0 != []
    && (forall f :: f in job.in0 ==> f in levels[job.level])
    && (forall g :: g in job.in1 <==> g in levels[job.level + 1] && MeetsHull(g, job.in0))
    && (job.level == 0 ==> ClosedSet(levels[0], set f | f in job.in0))
    && NoGap(job.in0 + job.in1)
  }

  predicate SaneLevels(levels: Levels) {
    && |levels| == NUM_LEVELS
    && forall l, f :: 0 <= l < NUM_LEVELS && f in levels[l] ==> f.smallest.user <= f.largest.user
  }

  //////////////////////////////////////////////////////////////////////////////
  // Scores.

  const L0_COMPACTION_TRIGGER := 4

  function AtLeastOne(level: nat): nat {
    if level == 0 then 1 else level
  }

  /** What a level may hold: 2^20 times 10^level bytes, and level 0 counts as level 1. */
  function LevelLimit(level: nat): (r: nat)
    ensures r > 0
  {
    PowerPositive(10, AtLeastOne(level));
    1048576 * Power(10, AtLeastOne(level))
  }

  /** Ten times more for each level below level 1. */
  method MaxBytesForLevel(level: nat) returns (result: real)
    ensures result == LevelLimit(level) as real
  {
    result := 10.0 * 1048576.0;
    var l := level;
    ghost var n := 1;
    assert Power(10, n) == 10;
    while l > 1
      invariant n + l == if level == 0 then 1 else level + 1
      invariant l <= 1 ==> n == AtLeastOne(level)
      invariant result == (1048576 * Power(10, n)) as real
    {
      result := result * 10.0;
      l, n := l - 1, n + 1;
    }
  }

  function Score(levels: Levels, level: nat): real
    requires level < |levels|
  {
    if level == 0 then |levels[0]| as real / L0_COMPACTION_TRIGGER as real
    else TotalSize(levels[level]) as real / LevelLimit(level) as real
  }

  lemma {:induction false} PowerPositive(base: nat, n: nat)
    requires base > 0
    ensures Power(base, n) > 0
  {
    if n > 0 {
      PowerPositive(base, n - 1);
    }
  }

  /** A level holds as much as it may: four files at level 0, and the bytes of its limit below. */
  predicate Full(levels: Levels, level: nat)
    requires level < |levels|
  {
    if level == 0 then |levels[0]| >= 4 else TotalSize(levels[level]) >= LevelLimit(level)
  }

  lemma FullScore(levels: Levels, level: nat)
    requires level < |levels|
    ensures Full(levels, level) <==> Score(levels, level) >= 1.0
  {
    if level > 0 {
      RatioAtLeastOne(TotalSize(levels[level]) as real, LevelLimit(level) as real);
    }
  }

  lemma RatioAtLeastOne(x: real, y: real)
    requires y > 0.0
    ensures x / y >= 1.0 <==> x >= y
  {
    assert x / y * y == x;
  }

  lemma ScoreOfEmpty(levels: Levels, level: nat)
    requires level < |levels| && levels[level] == []
    ensures Score(levels, level) == 0.0
  {
  }

  /** VersionSet::Finalize: the first level, the last excluded, with the highest score. */
  method Finalize(levels: Levels) returns (bestLevel: nat, bestScore: real)
    requires |levels| == NUM_LEVELS
    ensures bestLevel + 1 < NUM_LEVELS && bestScore == Score(levels, bestLevel)
    ensures forall l :: 0 <= l < NUM_LEVELS - 1 ==> Score(levels, l) <= bestScore
    ensures forall l :: 0 <= l < bestLevel ==> Score(levels, l) < bestScore
    ensures bestScore >= 1.0 ==> levels[bestLevel] != []
    ensures bestScore >= 1.0 <==> exists l :: 0 <= l < NUM_LEVELS - 1 && Full(levels, l)
  {
    bestLevel, bestScore := 0, -1.0;
    for level := 0 to NUM_LEVELS - 1
      invariant level == 0 ==> bestLevel == 0 && bestScore == -1.0
      invariant bestLevel <= level
      invariant level > 0 ==> bestLevel < level && bestScore == Score(levels, bestLevel)
      invariant forall l :: 0 <= l < level ==> Score(levels, l) <= bestScore
      invariant forall l :: 0 <= l < bestLevel ==> Score(levels, l) < bestScore
    {
      var score;
      if level == 0 {
        score := |levels[0]| as real / L0_COMPACTION_TRIGGER as real;
      } else {
        var bytes := TotalFileSize(levels[level]);
        var limit := MaxBytesForLevel(level);
        score := bytes as real / limit;
      }
      if score > bestScore {
        bestLevel, bestScore := level, score;
      }
    }
    if levels[bestLevel] == [] {
      ScoreOfEmpty(levels, bestLevel);
    }
    forall l | 0 <= l < NUM_LEVELS - 1 ensures Full(levels, l) <==> Score(levels, l) >= 1.0 {
      FullScore(levels, l);
    }
  }

  //////////////////////////////////////////////////////////////////////////////
  // Ranges.

  /** VersionSet::GetRange: the least range of internal keys that contains `inputs`. */
  method GetRange(inputs: seq<File>) returns (smallest: IKey, largest: IKey)
    requires inputs != []
    ensures exists f :: f in inputs && f.smallest == smallest
    ensures exists f :: f in inputs && f.largest == largest
    ensures forall f :: f in inputs ==> LessEq(smallest, f.smallest) && LessEq(f.largest, largest)
  {
    smallest, largest := inputs[0].smallest, inputs[0].largest;
    for i := 1 to |inputs|
      invariant exists f :: f in inputs && f.smallest == smallest
      invariant exists f :: f in inputs && f.largest == largest
      invariant forall j :: 0 <= j < i ==> LessEq(smallest, inputs[j].smallest) && LessEq(inputs[j].largest, largest)
    {
      CompareIsOrder(inputs[i].smallest, smallest);
      CompareIsOrder(inputs[i].largest, largest);
      if Compare(inputs[i].smallest, smallest) < 0 {
        smallest := inputs[i].smallest;
      }
      if Compare(inputs[i].largest, largest) > 0 {
        largest := inputs[i].largest;
      }
    }
  }

  ghost predicate IsHull(files: seq<File>, lo: UserKey, hi: UserKey) {
    && (exists f :: f in files && f.smallest.user == lo)
    && (exists f :: f in files && f.largest.user == hi)
    && (forall f :: f in files ==> lo <= f.smallest.user && f.largest.user <= hi)
  }

  /** `key` is the largest of the files. */
  ghost predicate EndsAt(files: seq<File>, key: IKey) {
    && (exists f :: f in files && f.largest == key)
    && (forall f :: f in files ==> LessEq(f.largest, key))
  }

  lemma MeetsHullIsOverlap(files: seq<File>, lo: UserKey, hi: UserKey, g: File)
    requires IsHull(files, lo, hi)
    ensures MeetsHull(g, files) <==> Overlaps(g, Some(lo), Some(hi))
  {
  }

  /** A single file has no gap. */
  lemma NoGapOne(f: File)
    ensures NoGap([f])
  {
    forall x: UserKey | HasKey(f, x) ensures Touches([f], x) {
      assert f in [f];
    }
  }

  /** Adding files that each meet the hull opens no gap. */
  lemma NoGapExtend(files: seq<File>, lo: UserKey, hi: UserKey, more: seq<File>)
    requires NoGap(files) && IsHull(files, lo, hi)
    requires forall g :: g in more ==> Overlaps(g, Some(lo), Some(hi))
    ensures NoGap(files + more)
  {
    var all := files + more;
    forall a, b, x: UserKey | a in all && b in all && a.smallest.user <= x <= b.largest.user ensures Touches(all, x) {
      if lo <= x <= hi {
        assert Touches(files, x);
        var f :| f in files && HasKey(f, x);
        assert f in all;
      } else if x < lo {
        assert a in more && HasKey(a, x);
      } else {
        assert b in more && HasKey(b, x);
      }
    }
  }

  /** A list of files that covers a closed range and lies in it, with more files inside it, has no gap. */
  lemma NoGapCovered(files: seq<File>, lo: UserKey, hi: UserKey)
    requires forall f :: f in files ==> lo <= f.smallest.user && f.largest.user <= hi
    requires forall x: UserKey :: lo <= x <= hi ==> Touches(files, x)
    ensures NoGap(files)
  {
  }

  lemma NoGapReorder(a: seq<File>, b: seq<File>)
    requires forall f :: f in a <==> f in b
    requires NoGap(a)
    ensures NoGap(b)
  {
    forall x: UserKey | Touches(a, x) ensures Touches(b, x) {
    }
  }

  //////////////////////////////////////////////////////////////////////////////
  // The picker itself.

  const EXPANDED_COMPACTION_BYTE_SIZE_LIMIT := 25 * TARGET_FILE_SIZE

  /** At level 0 the picked file is replaced by the least set of files that contains it and is
      closed under user-key overlap. */
  method CloseLevel0(files: seq<File>, picked: File) returns (inputs: seq<File>)
    requires picked in files && forall f :: f in files ==> f.smallest.user <= f.largest.user
    ensures picked in inputs && forall f :: f in inputs ==> f in files
    ensures ClosedSet(files, set f | f in inputs)
    ensures forall chosen: set<File> :: picked in chosen && ClosedSet(files, chosen)
              ==> forall f :: f in inputs ==> f in chosen
    ensures NoGap(inputs)
  {
    var smallest, largest := GetRange([picked]);
    assert picked in [picked];
    var begin, end := Some(smallest.user), Some(largest.user);
    ghost var lo, hi;
    inputs, lo, hi := GetOverlappingInputs(0, files, begin, end);
    ClosedLevel0(files, picked, inputs, lo.value, hi.value);
  }

  lemma ClosedLevel0(files: seq<File>, picked: File, inputs: seq<File>, lo: UserKey, hi: UserKey)
    requires picked in files && forall f :: f in files ==> f.smallest.user <= f.largest.user
    requires inputs == Select(files, Some(lo), Some(hi)) && ClosedRange(files, Some(lo), Some(hi))
    requires Grown(files, Some(picked.smallest.user), Some(picked.largest.user), Some(lo), Some(hi))
    ensures picked in inputs && forall f :: f in inputs ==> f in files
    ensures ClosedSet(files, set f | f in inputs)
    ensures forall chosen: set<File> :: picked in chosen && ClosedSet(files, chosen)
              ==> forall f :: f in inputs ==> f in chosen
    ensures NoGap(inputs)
  {
    forall f ensures f in inputs <==> f in files && Overlaps(f, Some(lo), Some(hi)) {
      SelectMembers(files, Some(lo), Some(hi), f);
    }
    forall chosen: set<File>, f | picked in chosen && ClosedSet(files, chosen) && f in inputs ensures f in chosen {
      assert Covers(chosen, Some(picked.smallest.user), Some(picked.largest.user)) by {
        forall x: UserKey | InRange(x, Some(picked.smallest.user), Some(picked.largest.user))
          ensures exists g :: g in chosen && HasKey(g, x)
        {
          assert HasKey(picked, x);
        }
      }
      OverlapIsChosen(files, chosen, Some(lo), Some(hi), f);
    }
    forall x: UserKey | lo <= x <= hi ensures Touches(inputs, x) {
      if HasKey(picked, x) {
        assert picked in inputs;
      } else {
        assert InRange(x, Some(lo), Some(hi));
        var f :| f in files && Overlaps(f, Some(lo), Some(hi)) && HasKey(f, x);
        assert f in inputs;
      }
    }
    NoGapCovered(inputs, lo, hi);
  }

  /** Widening the range selects more files, and no more only if it selects the same. */
  lemma {:induction false} SelectWider(files: seq<File>, lo: Option<UserKey>, hi: Option<UserKey>,
                                       lo': Option<UserKey>, hi': Option<UserKey>)
    requires Includes(lo', hi', lo, hi)
    ensures |Select(files, lo, hi)| <= |Select(files, lo', hi')|
    ensures |Select(files, lo, hi)| == |Select(files, lo', hi')| ==> Select(files, lo, hi) == Select(files, lo', hi')
  {
    if files != [] {
      SelectWider(files[..|files| - 1], lo, hi, lo', hi');
    }
  }

  /** The selection before any attempt to expand it. */
  lemma SelectedPlain(levels: Levels, level: nat, in0: seq<File>, lo: UserKey, hi: UserKey, in1: seq<File>)
    requires SaneLevels(levels) && level + 1 < NUM_LEVELS
    requires in0 != [] && forall f :: f in in0 ==> f in levels[level]
    requires NoGap(in0) && (level == 0 ==> ClosedSet(levels[0], set f | f in in0))
    requires IsHull(in0, lo, hi) && in1 == Select(levels[level + 1], Some(lo), Some(hi))
    ensures Selected(levels, Job(level, in0, in1))
  {
    forall g ensures g in in1 <==> g in levels[level + 1] && MeetsHull(g, in0) {
      SelectMembers(levels[level + 1], Some(lo), Some(hi), g);
      MeetsHullIsOverlap(in0, lo, hi, g);
    }
    forall g | g in in1 ensures Overlaps(g, Some(lo), Some(hi)) {
      MeetsHullIsOverlap(in0, lo, hi, g);
    }
    NoGapExtend(in0, lo, hi, in1);
  }

  /** Growing the inputs of `level` over the hull [lo, hi] of a selection keeps them without a gap. */
  lemma ExpandedNoGap(levels: Levels, job: Job, lo: UserKey, hi: UserKey,
                      lo': UserKey, hi': UserKey, expanded0: seq<File>)
    requires SaneLevels(levels) && Selected(levels, job) && IsHull(job.in0 + job.in1, lo, hi)
    requires expanded0 == Select(levels[job.level], Some(lo'), Some(hi'))
    requires Grown(levels[job.level], Some(lo), Some(hi), Some(lo'), Some(hi'))
    requires job.level > 0 ==> lo' == lo && hi' == hi
    requires job.level == 0 ==> ClosedRange(levels[0], Some(lo'), Some(hi'))
    ensures forall f :: f in job.in0 ==> f in expanded0
    ensures forall f :: f in expanded0 ==> f in levels[job.level]
    ensures NoGap(expanded0 + job.in1)
    ensures job.level == 0 ==> ClosedSet(levels[0], set f | f in expanded0)
  {
    var files := levels[job.level];
    var chosen, both := job.in0 + job.in1, expanded0 + job.in1;
    forall f ensures f in expanded0 <==> f in files && Overlaps(f, Some(lo'), Some(hi')) {
      SelectMembers(files, Some(lo'), Some(hi'), f);
    }
    forall f | f in job.in0 ensures f in expanded0 {
      assert f in chosen;
    }
    if job.level > 0 {
      NoGapExtend(chosen, lo, hi, expanded0);
      NoGapReorder(chosen + expanded0, both);
    } else {
      forall f | f in both ensures lo' <= f.smallest.user && f.largest.user <= hi' {
        if f !in expanded0 {
          assert f in chosen;
        }
      }
      forall x: UserKey | lo' <= x <= hi' ensures Touches(both, x) {
        assert InRange(x, Some(lo'), Some(hi'));
        if lo <= x <= hi {
          assert Touches(chosen, x);
          var f :| f in chosen && HasKey(f, x);
          assert f in both;
        } else {
          var f :| f in files && Overlaps(f, Some(lo'), Some(hi')) && HasKey(f, x);
          assert f in both;
        }
      }
      NoGapCovered(both, lo', hi');
    }
  }

  /** If the expanded list needs no further file of the level below, it is a selection too. */
  lemma ExpandedSelected(levels: Levels, job: Job, lo: UserKey, hi: UserKey,
                         expanded0: seq<File>, lo': UserKey, hi': UserKey)
    requires Selected(levels, job) && IsHull(job.in0, lo, hi)
    requires job.in1 == Select(levels[job.level + 1], Some(lo), Some(hi))
    requires IsHull(expanded0, lo', hi') && forall f :: f in job.in0 ==> f in expanded0
    requires forall f :: f in expanded0 ==> f in levels[job.level]
    requires NoGap(expanded0 + job.in1)
    requires job.level == 0 ==> ClosedSet(levels[0], set f | f in expanded0)
    ensures var expanded1 := Select(levels[job.level + 1], Some(lo'), Some(hi'));
            && (|expanded1| == |job.in1| ==>
                  expanded1 == job.in1 && Selected(levels, Job(job.level, expanded0, expanded1)))
            && (|expanded1| == |job.in1| <==> NoneFurther(levels, job.level, job.in1, expanded0))
  {
    var below := levels[job.level + 1];
    var expanded1 := Select(below, Some(lo'), Some(hi'));
    SelectWider(below, Some(lo), Some(hi), Some(lo'), Some(hi'));
    forall g ensures g in expanded1 <==> g in below && MeetsHull(g, expanded0) {
      SelectMembers(below, Some(lo'), Some(hi'), g);
      MeetsHullIsOverlap(expanded0, lo', hi', g);
    }
    if NoneFurther(levels, job.level, job.in1, expanded0) {
      forall g | g in below ensures Overlaps(g, Some(lo'), Some(hi')) <==> Overlaps(g, Some(lo), Some(hi)) {
        SelectMembers(below, Some(lo'), Some(hi'), g);
        SelectMembers(below, Some(lo), Some(hi), g);
      }
      SelectSame(below, Some(lo), Some(hi), Some(lo'), Some(hi'));
    }
  }

  lemma {:induction false} SelectSame(files: seq<File>, lo: Option<UserKey>, hi: Option<UserKey>,
                                      lo': Option<UserKey>, hi': Option<UserKey>)
    requires forall f :: f in files ==> (Overlaps(f, lo', hi') <==> Overlaps(f, lo, hi))
    ensures Select(files, lo', hi') == Select(files, lo, hi)
  {
    if files != [] {
      SelectSame(files[..|files| - 1], lo, hi, lo', hi');
    }
  }

  /** No file below but those of `in1` meets the hull of `files`. */
  ghost predicate NoneFurther(levels: Levels, level: nat, in1: seq<File>, files: seq<File>)
    requires level + 1 < |levels|
  {
    forall g :: g in levels[level + 1] && MeetsHull(g, files) ==> g in in1
  }

  /** `all` are the files of the level that GetOverlappingInputs gives for the hull of `inputs`: those that
      meet it and, at level 0, that meet those in turn. */
  ghost predicate AllMeeting(level: nat, files: seq<File>, inputs: seq<File>, all: seq<File>) {
    exists lo, hi, lo', hi' :: AllMeetingRange(level, files, inputs, all, lo, hi, lo', hi')
  }

  ghost predicate AllMeetingRange(level: nat, files: seq<File>, inputs: seq<File>, all: seq<File>,
                                  lo: UserKey, hi: UserKey, lo': UserKey, hi': UserKey)
  {
    && IsHull(inputs, lo, hi) && all == Select(files, Some(lo'), Some(hi'))
    && Grown(files, Some(lo), Some(hi), Some(lo'), Some(hi'))
    && (level > 0 ==> lo' == lo && hi' == hi) && (level == 0 ==> ClosedRange(files, Some(lo'), Some(hi')))
  }

  /** Above level 0 those are exactly the files that meet the hull. */
  lemma AllMeetingMembers(level: nat, files: seq<File>, inputs: seq<File>, all: seq<File>, f: File)
    requires AllMeeting(level, files, inputs, all) && level > 0
    ensures f in all <==> f in files && MeetsHull(f, inputs)
  {
    var lo, hi, lo', hi' :| AllMeetingRange(level, files, inputs, all, lo, hi, lo', hi');
    SelectMembers(files, Some(lo), Some(hi), f);
    MeetsHullIsOverlap(inputs, lo, hi, f);
  }

  /** The inputs are worth expanding: more files of the level, less than 50 MB in all, and no further file
      below. */
  ghost predicate WorthExpanding(levels: Levels, level: nat, in0: seq<File>, in1: seq<File>, all: seq<File>)
    requires level + 1 < |levels|
  {
    && in1 != [] && |all| > |in0| && TotalSize(all) + TotalSize(in1) < 52428800
    && NoneFurther(levels, level, in1, all)
  }

  /** The seeks a new file may cost before it is worth compacting. */
  function InitialSeeks(f: File): nat {
    if f.size / 16384 < 100 then 100 else f.size / 16384
  }

  class VersionSet {
    var current: Levels
    /** The seeks left to the files that have been charged for one, by number. */
    var allowedSeeks: map<nat, int>
    var compactionLevel: nat
    var compactionScore: real
    var fileToCompact: Option<Probe>
    var compactPointer: seq<Option<IKey>>

    predicate Valid()
      reads this
    {
      && SaneLevels(current)
      && |compactPointer| == NUM_LEVELS
      && compactionLevel + 1 < NUM_LEVELS
      && (compactionScore >= 1.0 ==> current[compactionLevel] != [])
      && (fileToCompact.Some? ==> && fileToCompact.value.level <= 5
                                  && fileToCompact.value.file in current[fileToCompact.value.level])
    }

    constructor (levels: Levels)
      requires SaneLevels(levels)
      ensures Valid() && current == levels && fileToCompact == None && allowedSeeks == map[]
    {
      var level, score := Finalize(levels);
      current, compactionLevel, compactionScore := levels, level, score;
      fileToCompact, allowedSeeks, compactPointer := None, map[], seq(NUM_LEVELS, _ => None);
    }

    /** A new current version: its scores are computed and no file of it has been marked yet. */
    method Install(levels: Levels)
      requires Valid() && SaneLevels(levels)
      modifies this
      ensures Valid() && current == levels && fileToCompact == None
      ensures compactPointer == old(compactPointer) && allowedSeeks == old(allowedSeeks)
    {
      compactionLevel, compactionScore := Finalize(levels);
      current, fileToCompact := levels, None;
    }

    function SeeksLeft(f: File): int
      reads this`allowedSeeks
    {
      if f.number in allowedSeeks then allowedSeeks[f.number] else InitialSeeks(f)
    }

    /** Charges the file that cost a read an extra seek, and marks it once it has no seeks left. */
    method UpdateStats(stats: Option<Probe>) returns (schedule: bool)
      requires Valid()
      requires stats.Some? ==> stats.value.level <= 5 && stats.value.file in current[stats.value.level]
      modifies this`allowedSeeks, this`fileToCompact
      ensures Valid()
      ensures schedule <==> stats.Some? && old(fileToCompact).None? && old(SeeksLeft(stats.value.file)) <= 1
      ensures fileToCompact == if schedule then stats else old(fileToCompact)
      ensures stats.Some? ==> SeeksLeft(stats.value.file) == old(SeeksLeft(stats.value.file)) - 1
      ensures forall f: File :: stats.None? || f.number != stats.value.file.number ==> SeeksLeft(f) == old(SeeksLeft(f))
    {
      schedule := false;
      if stats.Some? {
        var f := stats.value.file;
        allowedSeeks := allowedSeeks[f.number := SeeksLeft(f) - 1];
        if SeeksLeft(f) <= 0 && fileToCompact.None? {
          fileToCompact := stats;
          schedule := true;
        }
      }
    }

    /** A read of the files and what follows from it: if it calls for a compaction, one is found. */
    method GetAndCharge(tables: Tables, k: UserKey, s: nat) returns (answer: Answer, job: Option<Job>)
      requires Valid() && LevelsSorted(current) && AllBacked(tables, current) && Recency(tables, current)
      requires UniqueSeqs(FileEntries(tables, current))
      modifies this`allowedSeeks, this`fileToCompact, this`compactPointer
      ensures Valid() && View(FileEntries(tables, current), k, s) == if answer.Found? then Some(answer.value) else None
      ensures job.Some? <==> old(fileToCompact).None? && fileToCompact.Some?
      ensures job.Some? ==> Selected(current, job.value) && job.value.level <= 5 && job.value.in0 != []
    {
      var seek;
      ghost var probed;
      answer, seek, probed := Versions.Get(tables, current, k, s);
      var schedule := UpdateStats(seek);
      job := None;
      if schedule {
        job := PickCompaction();
      }
    }

    /** Add the files of `level + 1`, and more files of `level` if that costs no file below. */
    method SetupOtherInputs(level: nat, in0: seq<File>) returns (job: Job, ghost all: seq<File>)
      requires Valid() && level + 1 < NUM_LEVELS
      requires in0 != [] && forall f :: f in in0 ==> f in current[level]
      requires NoGap(in0) && (level == 0 ==> ClosedSet(current[0], set f | f in in0))
      modifies this`compactPointer
      ensures Selected(current, job) && job.level == level
      ensures forall f :: f in in0 ==> f in job.in0
      ensures job.in1 != [] ==> AllMeeting(level, current[level], in0 + job.in1, all)
      ensures job.in0 == if WorthExpanding(current, level, in0, job.in1, all) then all else in0
      ensures forall g :: g in job.in1 <==> g in current[level + 1] && MeetsHull(g, in0)
      ensures |compactPointer| == NUM_LEVELS
      ensures compactPointer == old(compactPointer)[level := compactPointer[level]]
      ensures compactPointer[level].Some? && EndsAt(job.in0, compactPointer[level].value)
    {
      var smallest, largest := GetRange(in0);
      var in1, _, _ := GetOverlappingInputs(level + 1, current[level + 1], Some(smallest.user), Some(largest.user));
      job, all := Job(level, in0, in1), [];
      SelectedPlain(current, level, in0, smallest.user, largest.user, in1);
      if in1 != [] {
        job, largest, all := Widen(job, smallest.user, largest);
      }
      compactPointer := compactPointer[level := Some(largest)];
    }

    /** The selection with more files of the level, if that is worth it. */
    method Widen(job: Job, lo: UserKey, last: IKey) returns (wider: Job, largest: IKey, ghost all: seq<File>)
      requires Valid() && Selected(current, job) && job.in1 != [] && IsHull(job.in0, lo, last.user)
      requires job.in1 == Select(current[job.level + 1], Some(lo), Some(last.user))
      requires EndsAt(job.in0, last)
      ensures Selected(current, wider) && wider.level == job.level && wider.in1 == job.in1
      ensures forall f :: f in job.in0 ==> f in wider.in0
      ensures AllMeeting(job.level, current[job.level], job.in0 + job.in1, all)
      ensures wider.in0 == if WorthExpanding(current, job.level, job.in0, job.in1, all) then all else job.in0
      ensures EndsAt(wider.in0, largest)
    {
      var expanded0, expanded1, newLargest := Expand(job, lo, last.user);
      wider, largest, all := job, last, expanded0;
      if |expanded0| > |job.in0| {
        var size0 := TotalFileSize(expanded0);
        var size1 := TotalFileSize(job.in1);
        if size1 + size0 < EXPANDED_COMPACTION_BYTE_SIZE_LIMIT && |expanded1| == |job.in1| {
          wider := Job(job.level, expanded0, expanded1);
          largest := newLargest;
        }
      }
    }

    /** All files of the level that meet the hull of the whole selection. */
    method ExpandLevel(job: Job) returns (expanded0: seq<File>)
      requires Valid() && Selected(current, job)
      ensures forall f :: f in job.in0 ==> f in expanded0
      ensures forall f :: f in expanded0 ==> f in current[job.level]
      ensures AllMeeting(job.level, current[job.level], job.in0 + job.in1, expanded0)
      ensures NoGap(expanded0 + job.in1)
      ensures job.level == 0 ==> ClosedSet(current[0], set f | f in expanded0)
    {
      var allStart, allLimit := GetRange(job.in0 + job.in1);
      ghost var lo, hi;
      expanded0, lo, hi :=
        GetOverlappingInputs(job.level, current[job.level], Some(allStart.user), Some(allLimit.user));
      ExpandedNoGap(current, job, allStart.user, allLimit.user, lo.value, hi.value, expanded0);
      assert AllMeetingRange(job.level, current[job.level], job.in0 + job.in1, expanded0,
                             allStart.user, allLimit.user, lo.value, hi.value);
    }

    /** The larger selection that SetupOtherInputs considers. */
    method Expand(job: Job, lo: UserKey, hi: UserKey)
      returns (expanded0: seq<File>, expanded1: seq<File>, largest: IKey)
      requires Valid() && Selected(current, job) && IsHull(job.in0, lo, hi)
      requires job.in1 == Select(current[job.level + 1], Some(lo), Some(hi))
      ensures forall f :: f in job.in0 ==> f in expanded0
      ensures EndsAt(expanded0, largest)
      ensures AllMeeting(job.level, current[job.level], job.in0 + job.in1, expanded0)
      ensures |expanded1| == |job.in1| ==>
              expanded1 == job.in1 && Selected(current, Job(job.level, expanded0, expanded1))
      ensures |expanded1| == |job.in1| <==> NoneFurther(current, job.level, job.in1, expanded0)
    {
      expanded0 := ExpandLevel(job);
      var newStart, newLimit := GetRange(expanded0);
      var below, _, _ := GetOverlappingInputs(job.level + 1, current[job.level + 1], Some(newStart.user),
        Some(newLimit.user));
      expanded1, largest := below, newLimit;
      ExpandedSelected(current, job, lo, hi, expanded0, newStart.user, newLimit.user);
    }

    /** The file a size compaction starts from: the first that ends after the compaction pointer,
        or the first of the level. */
    ghost predicate RoundRobin(level: nat, f: File)
      requires level < |current| && level < |compactPointer|
      reads this
    {
      var files, p := current[level], compactPointer[level];
      && f in files
      && (p.None? ==> f == files[0])
      && (p.Some? ==>
            || (&& Less(p.value, f.largest)
                && exists i :: 0 <= i < |files| && files[i] == f
                             && forall j :: 0 <= j < i ==> !Less(p.value, files[j].largest))
            || (f == files[0] && forall g :: g in files ==> !Less(p.value, g.largest)))
    }

    /** VersionSet::PickCompaction. */
    method PickCompaction() returns (job: Option<Job>)
      requires Valid()
      modifies this`compactPointer
      ensures Valid()
      ensures job.None? <==> compactionScore < 1.0 && fileToCompact.None?
      ensures job.None? ==> compactPointer == old(compactPointer)
      ensures job.Some? ==> Selected(current, job.value)
      ensures job.Some? && compactionScore >= 1.0 ==>
        job.value.level == compactionLevel && exists f :: f in job.value.in0 && old(RoundRobin(compactionLevel, f))
      ensures job.Some? && compactionScore < 1.0 ==>
        job.value.level == fileToCompact.value.level && fileToCompact.value.file in job.value.in0
    {
      var level, picked;
      if compactionScore >= 1.0 {
        level := compactionLevel;
        picked := PickRoundRobin(level);
      } else if fileToCompact.Some? {
        level := fileToCompact.value.level;
        picked := fileToCompact.value.file;
      } else {
        return None;
      }
      var in0 := [picked];
      NoGapOne(picked);
      if level == 0 {
        in0 := CloseLevel0(current[0], picked);
      }
      assert picked in in0;
      ghost var all;
      var selected;
      selected, all := SetupOtherInputs(level, in0);
      assert picked in selected.in0;
      job := Some(selected);
    }

    method PickRoundRobin(level: nat) returns (f: File)
      requires Valid() && level < NUM_LEVELS && current[level] != []
      ensures RoundRobin(level, f)
    {
      var files, p := current[level], compactPointer[level];
      for i := 0 to |files|
        invariant i > 0 ==> p.Some?
        invariant forall j :: 0 <= j < i ==> p.Some? && !Less(p.value, files[j].largest)
      {
        if p.None? {
          return files[i];
        }
        CompareIsOrder(p.value, files[i].largest);
        if Compare(files[i].largest, p.value) > 0 {
          return files[i];
        }
      }
      f := files[0];
    }
  }
}
