/** Applying edits to a Version (db/version_set.cpp, VersionSet::Builder; db/version_edit.h). */
module VersionBuilder {
  import opened DbFormat
  import opened Versions

  datatype Placed = Placed(level: int, file: File)

  datatype Slot = Slot(level: int, number: nat)

  /** A VersionEdit; an unset number is None.  Deletions and additions carry their level. */
  datatype Edit = Edit(
    logNumber: Option<nat>, nextFile: Option<nat>, lastSequence: Option<nat>,
    deleted: set<Slot>, added: seq<Placed>)

  /** BySmallestKey: by smallest key, ties broken by file number. */
  predicate FileLess(f: File, g: File) {
    Less(f.smallest, g.smallest) || (f.smallest == g.smallest && f.number < g.number)
  }

  predicate SortedFiles(files: seq<File>) {
    forall i, j :: 0 <= i < j < |files| ==> FileLess(files[i], files[j])
  }

  /** A strictly sorted list is determined by its members. */
  lemma {:induction false} SortedUnique(a: seq<File>, b: seq<File>)
    requires SortedFiles(a) && SortedFiles(b)
    requires forall f :: f in a <==> f in b
    ensures a == b
  {
    assert (a != [] ==> a[0] in b) && (b != [] ==> b[0] in a);
    if a != [] {
      assert a[0] == b[0];
      forall f ensures f in a[1..] <==> f in b[1..] {
        assert f in a <==> f == a[0] || f in a[1..];
        assert f in b <==> f == b[0] || f in b[1..];
      }
      SortedUnique(a[1..], b[1..]);
    }
  }

  /** One level of a Builder. */
  datatype LevelState = LevelState(deleted: set<nat>, added: seq<File>)

  const NoChange := LevelState({}, [])

  /** std::set insertion: nothing happens if an equivalent element is present. */
  function Insert(files: seq<File>, f: File): seq<File> {
    if files == [] then [f]
    else if FileLess(f, files[0]) then [f] + files
    else if FileLess(files[0], f) then [files[0]] + Insert(files[1..], f)
    else files
  }

  function AddFiles(ls: LevelState, added: seq<Placed>, level: int): LevelState {
    if added == [] then ls
    else
      var n := |added| - 1;
      var before := AddFiles(ls, added[..n], level);
      if added[n].level == level
      then LevelState(before.deleted - {added[n].file.number}, Insert(before.added, added[n].file))
      else before
  }

  function DeletedAt(deleted: set<Slot>, level: int): set<nat> {
    set d | d in deleted && d.level == level :: d.number
  }

  /** Builder::Apply on one level: deletions first, then additions. */
  function ApplyLevel(ls: LevelState, edit: Edit, level: int): LevelState {
    AddFiles(LevelState(ls.deleted + DeletedAt(edit.deleted, level), ls.added), edit.added, level)
  }

  /** The merge of SaveTo: base files up to the upper bound of each added file, then that file. */
  function Merge(base: seq<File>, added: seq<File>): seq<File>
    decreases |base| + |added|
  {
    if added == [] then base
    else if base != [] && !FileLess(added[0], base[0]) then [base[0]] + Merge(base[1..], added)
    else [added[0]] + Merge(base, added[1..])
  }

  /** MaybeAddFile over a list: the files that are not deleted. */
  function Undeleted(files: seq<File>, deleted: set<nat>): seq<File> {
    if files == [] then []
    else (if files[0].number in deleted then [] else [files[0]]) + Undeleted(files[1..], deleted)
  }

  /** Builder::SaveTo on one level. */
  function SaveLevel(base: seq<File>, ls: LevelState): seq<File> {
    Undeleted(Merge(base, ls.added), ls.deleted)
  }

  //////////////////////////////////////////////////////////////////////////////
  // What the pieces compute.

  predicate Apart(a: seq<File>, b: seq<File>) {
    forall f, g :: f in a && g in b ==> f.number != g.number
  }

  lemma ConsSorted(f: File, rest: seq<File>)
    requires SortedFiles(rest) && forall g :: g in rest ==> FileLess(f, g)
    ensures SortedFiles([f] + rest)
  {
  }

  lemma {:induction false} InsertSpec(files: seq<File>, f: File)
    requires SortedFiles(files) && Apart(files, [f])
    ensures SortedFiles(Insert(files, f))
    ensures forall g :: g in Insert(files, f) <==> g in files || g == f
  {
    assert f in [f];
    if files != [] {
      assert files == [files[0]] + files[1..];
      InsertSpec(files[1..], f);
      if FileLess(f, files[0]) {
        ConsSorted(f, files);
      } else if FileLess(files[0], f) {
        ConsSorted(files[0], Insert(files[1..], f));
      }
    }
  }

  lemma {:induction false} MergeSpec(base: seq<File>, added: seq<File>)
    requires SortedFiles(base) && SortedFiles(added) && Apart(base, added)
    ensures SortedFiles(Merge(base, added))
    ensures forall f :: f in Merge(base, added) <==> f in base || f in added
    decreases |base| + |added|
  {
    if added == [] {
    } else if base != [] && !FileLess(added[0], base[0]) {
      assert base == [base[0]] + base[1..];
      assert base[0].number != added[0].number;
      MergeSpec(base[1..], added);
      ConsSorted(base[0], Merge(base[1..], added));
    } else {
      assert added == [added[0]] + added[1..];
      MergeSpec(base, added[1..]);
      ConsSorted(added[0], Merge(base, added[1..]));
    }
  }

  lemma {:induction false} UndeletedSpec(files: seq<File>, deleted: set<nat>)
    requires SortedFiles(files)
    ensures SortedFiles(Undeleted(files, deleted))
    ensures forall f :: f in Undeleted(files, deleted) <==> f in files && f.number !in deleted
  {
    if files != [] {
      assert files == [files[0]] + files[1..];
      UndeletedSpec(files[1..], deleted);
    }
  }

  /** SaveTo yields, strictly sorted, exactly the base and added files that are not deleted. */
  lemma SaveLevelSpec(base: seq<File>, ls: LevelState)
    requires SortedFiles(base) && SortedFiles(ls.added) && Apart(base, ls.added)
    ensures SortedFiles(SaveLevel(base, ls))
    ensures forall f :: f in SaveLevel(base, ls) <==> (f in base || f in ls.added) && f.number !in ls.deleted
  {
    MergeSpec(base, ls.added);
    UndeletedSpec(Merge(base, ls.added), ls.deleted);
  }

  ghost predicate AddedAt(added: seq<Placed>, level: int, f: File) {
    Placed(level, f) in added
  }

  ghost predicate NumberAddedAt(added: seq<Placed>, level: int, n: nat) {
    exists f :: AddedAt(added, level, f) && f.number == n
  }

  /** The files an edit adds to a level have distinct numbers that are new to `files`. */
  ghost predicate Fresh(added: seq<Placed>, level: int, files: seq<File>) {
    && (forall i, j :: 0 <= i < j < |added| && added[i].level == added[j].level == level
          ==> added[i].file.number != added[j].file.number)
    && (forall f, g :: AddedAt(added, level, f) && g in files ==> f.number != g.number)
  }

  lemma {:induction false} AddFilesSpec(ls: LevelState, added: seq<Placed>, level: int)
    requires SortedFiles(ls.added) && Fresh(added, level, ls.added)
    ensures var r := AddFiles(ls, added, level);
      && SortedFiles(r.added)
      && (forall f :: f in r.added <==> f in ls.added || AddedAt(added, level, f))
      && (forall n :: n in r.deleted <==> n in ls.deleted && !NumberAddedAt(added, level, n))
  {
    if added != [] {
      var n := |added| - 1;
      var init, last := added[..n], added[n];
      assert added == init + [last];
      assert forall p :: p in added <==> p in init || p == last;
      AddFilesSpec(ls, init, level);
      if last.level == level {
        var before := AddFiles(ls, init, level);
        assert AddedAt(added, level, last.file);
        assert Apart(before.added, [last.file]);
        InsertSpec(before.added, last.file);
        forall m ensures NumberAddedAt(added, level, m) <==> NumberAddedAt(init, level, m) || m == last.file.number {
          if NumberAddedAt(init, level, m) {
            var f :| AddedAt(init, level, f) && f.number == m;
            assert AddedAt(added, level, f);
          }
        }
      } else {
        forall m ensures NumberAddedAt(added, level, m) <==> NumberAddedAt(init, level, m) {
          if NumberAddedAt(init, level, m) {
            var f :| AddedAt(init, level, f) && f.number == m;
            assert AddedAt(added, level, f);
          }
        }
      }
    }
  }

  lemma ApplyLevelSpec(ls: LevelState, edit: Edit, level: int)
    requires SortedFiles(ls.added) && Fresh(edit.added, level, ls.added)
    ensures var r := ApplyLevel(ls, edit, level);
      && SortedFiles(r.added)
      && (forall f :: f in r.added <==> f in ls.added || AddedAt(edit.added, level, f))
      && (forall n :: n in r.deleted <==>
            (n in ls.deleted || Slot(level, n) in edit.deleted) && !NumberAddedAt(edit.added, level, n))
  {
    AddFilesSpec(LevelState(ls.deleted + DeletedAt(edit.deleted, level), ls.added), edit.added, level);
    forall n ensures n in DeletedAt(edit.deleted, level) <==> Slot(level, n) in edit.deleted {
    }
  }

  //////////////////////////////////////////////////////////////////////////////
  // Whole Versions.

  predicate SortedLevels(levels: Levels) {
    |levels| == NUM_LEVELS && forall l :: 0 <= l < NUM_LEVELS ==> SortedFiles(levels[l])
  }

  ghost predicate FreshEdit(edit: Edit, levels: Levels)
    requires |levels| == NUM_LEVELS
  {
    forall l :: 0 <= l < NUM_LEVELS ==> Fresh(edit.added, l, levels[l])
  }

  /** LogAndApply's new Version: a Builder on the current one, one Apply, one SaveTo. */
  function ApplyEdit(levels: Levels, edit: Edit): (r: Levels)
    requires |levels| == NUM_LEVELS
    ensures |r| == NUM_LEVELS
  {
    seq(NUM_LEVELS, l requires 0 <= l < NUM_LEVELS => SaveLevel(levels[l], ApplyLevel(NoChange, edit, l)))
  }

  /** `levels'` holds the files of `levels` that the edit does not delete and the files it adds. */
  ghost predicate EditedTo(levels: Levels, edit: Edit, levels': Levels) {
    && |levels| == NUM_LEVELS && SortedLevels(levels')
    && forall l, f {:trigger f in levels'[l]} {:trigger f in levels[l]} {:trigger AddedAt(edit.added, l, f)} ::
         0 <= l < NUM_LEVELS ==>
         (f in levels'[l] <==> (f in levels[l] && Slot(l, f.number) !in edit.deleted) || AddedAt(edit.added, l, f))
  }

  lemma ApplyEditSpec(levels: Levels, edit: Edit)
    requires SortedLevels(levels) && FreshEdit(edit, levels)
    ensures EditedTo(levels, edit, ApplyEdit(levels, edit))
  {
    var r := ApplyEdit(levels, edit);
    forall l | 0 <= l < NUM_LEVELS
      ensures SortedFiles(r[l])
      ensures forall f :: f in r[l] <==>
                (f in levels[l] && Slot(l, f.number) !in edit.deleted) || AddedAt(edit.added, l, f)
    {
      assert Fresh(edit.added, l, levels[l]);
      ApplyLevelSpec(NoChange, edit, l);
      SaveLevelSpec(levels[l], ApplyLevel(NoChange, edit, l));
      forall f ensures f in r[l] <==>
                (f in levels[l] && Slot(l, f.number) !in edit.deleted) || AddedAt(edit.added, l, f)
      {
        if f in levels[l] {
          assert !NumberAddedAt(edit.added, l, f.number);
        }
      }
    }
  }

  //////////////////////////////////////////////////////////////////////////////
  // Recovery folds the whole history into one Builder.

  function FoldLevel(ls: LevelState, edits: seq<Edit>, level: int): LevelState {
    if edits == [] then ls
    else ApplyLevel(FoldLevel(ls, edits[..|edits| - 1], level), edits[|edits| - 1], level)
  }

  /** VersionSet::Recover: apply every edit to one Builder, save once. */
  function ReplayOnce(base: Levels, edits: seq<Edit>): (r: Levels)
    requires |base| == NUM_LEVELS
    ensures |r| == NUM_LEVELS
  {
    seq(NUM_LEVELS, l requires 0 <= l < NUM_LEVELS => SaveLevel(base[l], FoldLevel(NoChange, edits, l)))
  }

  /** A Version per edit, as the running database installed them. */
  function ReplayEach(base: Levels, edits: seq<Edit>): (r: Levels)
    requires |base| == NUM_LEVELS
    ensures |r| == NUM_LEVELS
  {
    if edits == [] then base
    else ApplyEdit(ReplayEach(base, edits[..|edits| - 1]), edits[|edits| - 1])
  }

  ghost predicate UsedAt(base: Levels, edits: seq<Edit>, level: int, n: nat)
    requires |base| == NUM_LEVELS && 0 <= level < NUM_LEVELS
  {
    || (exists f :: f in base[level] && f.number == n)
    || (exists e :: e in edits && NumberAddedAt(e.added, level, n))
  }

  /** The numbers that edit i adds to a level are distinct and new to it. */
  ghost predicate AddsNew(base: Levels, edits: seq<Edit>, i: nat, level: int)
    requires |base| == NUM_LEVELS && 0 <= level < NUM_LEVELS && i < |edits|
  {
    && Fresh(edits[i].added, level, [])
    && forall n :: NumberAddedAt(edits[i].added, level, n) ==> !UsedAt(base, edits[..i], level, n)
  }

  /** No (level, number) pair is ever added twice. */
  ghost predicate NeverReAdded(base: Levels, edits: seq<Edit>)
    requires |base| == NUM_LEVELS
  {
    forall i, l :: 0 <= i < |edits| && 0 <= l < NUM_LEVELS ==> AddsNew(base, edits, i, l)
  }

  /** The Builder's added set after a history holds exactly the files the history adds. */
  lemma {:induction false} FoldLevelSpec(base: Levels, edits: seq<Edit>, level: int)
    requires |base| == NUM_LEVELS && 0 <= level < NUM_LEVELS && NeverReAdded(base, edits)
    ensures var r := FoldLevel(NoChange, edits, level);
      SortedFiles(r.added) && forall f :: f in r.added ==> exists e :: e in edits && AddedAt(e.added, level, f)
  {
    if edits != [] {
      var n := |edits| - 1;
      var init, last := edits[..n], edits[n];
      assert edits == init + [last];
      NeverReAddedPrefix(base, edits);
      FoldLevelSpec(base, init, level);
      var before := FoldLevel(NoChange, init, level);
      FreshAfter(base, edits, level, before.added);
      ApplyLevelSpec(before, last, level);
      forall f | f in ApplyLevel(before, last, level).added
        ensures exists e :: e in edits && AddedAt(e.added, level, f)
      {
        if f in before.added {
          var e :| e in init && AddedAt(e.added, level, f);
          assert e in edits;
        } else {
          assert last in edits;
        }
      }
    }
  }

  lemma NeverReAddedPrefix(base: Levels, edits: seq<Edit>)
    requires |base| == NUM_LEVELS && NeverReAdded(base, edits) && edits != []
    ensures NeverReAdded(base, edits[..|edits| - 1])
  {
    var init := edits[..|edits| - 1];
    forall i, l | 0 <= i < |init| && 0 <= l < NUM_LEVELS ensures AddsNew(base, init, i, l) {
      assert init[..i] == edits[..i];
      assert AddsNew(base, edits, i, l);
    }
  }

  /** The last edit is fresh for any files that come from the base or from earlier edits. */
  lemma FreshAfter(base: Levels, edits: seq<Edit>, level: int, files: seq<File>)
    requires |base| == NUM_LEVELS && 0 <= level < NUM_LEVELS && NeverReAdded(base, edits) && edits != []
    requires forall f :: f in files ==>
      || UsedAt(base, edits[..|edits| - 1], level, f.number)
      || exists e :: e in edits[..|edits| - 1] && AddedAt(e.added, level, f)
    ensures Fresh(edits[|edits| - 1].added, level, files)
  {
    var n := |edits| - 1;
    assert AddsNew(base, edits, n, level);
    forall f, g | AddedAt(edits[n].added, level, f) && g in files ensures f.number != g.number {
      assert NumberAddedAt(edits[n].added, level, f.number);
      if e :| e in edits[..n] && AddedAt(e.added, level, g) {
        assert NumberAddedAt(e.added, level, g.number);
      }
      assert UsedAt(base, edits[..n], level, g.number);
    }
  }

  /** One level: saving after one more edit is editing what was saved. */
  lemma OneMoreEdit(base: seq<File>, ls: LevelState, edit: Edit, level: int)
    requires SortedFiles(base) && SortedFiles(ls.added) && Apart(base, ls.added)
    requires Fresh(edit.added, level, base) && Fresh(edit.added, level, ls.added)
    ensures SaveLevel(base, ApplyLevel(ls, edit, level)) ==
            SaveLevel(SaveLevel(base, ls), ApplyLevel(NoChange, edit, level))
  {
    var one, more := ApplyLevel(ls, edit, level), ApplyLevel(NoChange, edit, level);
    SaveLevelSpec(base, ls);
    var saved := SaveLevel(base, ls);
    ApplyLevelSpec(ls, edit, level);
    ApplyLevelSpec(NoChange, edit, level);
    SaveLevelSpec(base, one);
    SaveLevelSpec(saved, more);
    forall f ensures f in SaveLevel(base, one) <==> f in SaveLevel(saved, more) {
      if f in base || f in ls.added {
        assert !NumberAddedAt(edit.added, level, f.number);
      } else if AddedAt(edit.added, level, f) {
        assert NumberAddedAt(edit.added, level, f.number);
      }
    }
    SortedUnique(SaveLevel(base, one), SaveLevel(saved, more));
  }

  /** Folding a whole edit history into one Builder and saving once gives the same file lists as
      installing a Version per edit. */
  lemma {:induction false} ReplayOnceIsReplayEach(base: Levels, edits: seq<Edit>)
    requires SortedLevels(base) && NeverReAdded(base, edits)
    ensures ReplayOnce(base, edits) == ReplayEach(base, edits)
    ensures SortedLevels(ReplayEach(base, edits))
  {
    var r := ReplayOnce(base, edits);
    if edits == [] {
      assert forall l :: 0 <= l < NUM_LEVELS ==> FoldLevel(NoChange, edits, l) == NoChange;
      forall l | 0 <= l < NUM_LEVELS ensures r[l] == base[l] {
        SaveLevelSpec(base[l], NoChange);
        SortedUnique(r[l], base[l]);
      }
    } else {
      var n := |edits| - 1;
      var init := edits[..n];
      NeverReAddedPrefix(base, edits);
      ReplayOnceIsReplayEach(base, init);
      forall l | 0 <= l < NUM_LEVELS ensures r[l] == ReplayEach(base, edits)[l] && SortedFiles(r[l]) {
        ReplayStep(base, edits, l);
      }
    }
  }

  lemma ReplayStep(base: Levels, edits: seq<Edit>, l: int)
    requires SortedLevels(base) && NeverReAdded(base, edits) && edits != [] && 0 <= l < NUM_LEVELS
    requires ReplayOnce(base, edits[..|edits| - 1]) == ReplayEach(base, edits[..|edits| - 1])
    ensures ReplayOnce(base, edits)[l] == ReplayEach(base, edits)[l]
    ensures SortedFiles(ReplayOnce(base, edits)[l])
  {
    var n := |edits| - 1;
    var init := edits[..n];
    NeverReAddedPrefix(base, edits);
    FoldLevelSpec(base, init, l);
    FoldLevelSpec(base, edits, l);
    var ls := FoldLevel(NoChange, init, l);
    FoldApart(base, init, l);
    FoldApart(base, edits, l);
    FreshAfter(base, edits, l, base[l]);
    FreshAfter(base, edits, l, ls.added);
    OneMoreEdit(base[l], ls, edits[n], l);
    SaveLevelSpec(base[l], FoldLevel(NoChange, edits, l));
  }

  lemma FoldApart(base: Levels, edits: seq<Edit>, l: int)
    requires |base| == NUM_LEVELS && NeverReAdded(base, edits) && 0 <= l < NUM_LEVELS
    ensures Apart(base[l], FoldLevel(NoChange, edits, l).added)
  {
    FoldLevelSpec(base, edits, l);
    forall f, g | f in base[l] && g in FoldLevel(NoChange, edits, l).added ensures f.number != g.number {
      var e :| e in edits && AddedAt(e.added, l, g);
      var i :| 0 <= i < |edits| && edits[i] == e;
      assert NumberAddedAt(e.added, l, g.number);
      assert AddsNew(base, edits, i, l);
    }
  }

  //////////////////////////////////////////////////////////////////////////////
  // The first record of a new manifest.

  const EmptyLevels: Levels := [[], [], [], [], [], [], []]

  function PlaceAll(level: int, files: seq<File>): seq<Placed> {
    seq(|files|, i requires 0 <= i < |files| => Placed(level, files[i]))
  }

  function SnapshotAdds(levels: Levels, n: nat): seq<Placed>
    requires n <= |levels|
  {
    if n == 0 then [] else SnapshotAdds(levels, n - 1) + PlaceAll(n - 1, levels[n - 1])
  }

  /** VersionSet::WriteSnapshot: one edit that adds every file of the current Version. */
  function SnapshotEdit(levels: Levels): Edit {
    Edit(None, None, None, {}, SnapshotAdds(levels, |levels|))
  }

  predicate DistinctNumbers(files: seq<File>) {
    forall i, j :: 0 <= i < j < |files| ==> files[i].number != files[j].number
  }

  lemma {:induction false} SnapshotAddsSpec(levels: Levels, n: nat, l: int)
    requires n <= |levels| && forall m :: 0 <= m < |levels| ==> DistinctNumbers(levels[m])
    ensures forall f :: AddedAt(SnapshotAdds(levels, n), l, f) <==> 0 <= l < n && f in levels[l]
    ensures Fresh(SnapshotAdds(levels, n), l, [])
  {
    if n > 0 {
      SnapshotAddsSpec(levels, n - 1, l);
      var init, last := SnapshotAdds(levels, n - 1), PlaceAll(n - 1, levels[n - 1]);
      forall f ensures AddedAt(init + last, l, f) <==> 0 <= l < n && f in levels[l] {
        assert AddedAt(init + last, l, f) <==> AddedAt(init, l, f) || Placed(l, f) in last;
        if l == n - 1 && f in levels[l] {
          var i :| 0 <= i < |levels[l]| && levels[l][i] == f;
          assert last[i] == Placed(l, f);
        }
      }
      forall i | 0 <= i < |init| && l == n - 1 ensures init[i].level != l {
        if init[i].level == l {
          assert AddedAt(init, l, init[i].file);
        }
      }
    }
  }

  lemma SnapshotEditSpec(levels: Levels)
    requires |levels| == NUM_LEVELS && forall m :: 0 <= m < |levels| ==> DistinctNumbers(levels[m])
    ensures forall l :: Fresh(SnapshotEdit(levels).added, l, [])
    ensures forall l, f :: AddedAt(SnapshotEdit(levels).added, l, f) <==> 0 <= l < NUM_LEVELS && f in levels[l]
  {
    var added := SnapshotEdit(levels).added;
    forall l ensures Fresh(added, l, []) {
      SnapshotAddsSpec(levels, NUM_LEVELS, l);
    }
    forall l, f ensures AddedAt(added, l, f) <==> 0 <= l < NUM_LEVELS && f in levels[l] {
      SnapshotAddsSpec(levels, NUM_LEVELS, l);
    }
  }

  /** Replaying the snapshot record rebuilds the Version it was taken from. */
  lemma SnapshotRebuilds(levels: Levels)
    requires SortedLevels(levels) && forall m :: 0 <= m < |levels| ==> DistinctNumbers(levels[m])
    ensures ApplyEdit(EmptyLevels, SnapshotEdit(levels)) == levels
  {
    var edit := SnapshotEdit(levels);
    SnapshotEditSpec(levels);
    forall l | 0 <= l < NUM_LEVELS ensures Fresh(edit.added, l, EmptyLevels[l]) {
      assert EmptyLevels[l] == [];
    }
    ApplyEditSpec(EmptyLevels, edit);
    var r := ApplyEdit(EmptyLevels, edit);
    forall l | 0 <= l < NUM_LEVELS ensures r[l] == levels[l] {
      assert EmptyLevels[l] == [];
      forall f ensures f in r[l] <==> f in levels[l] {
        assert AddedAt(edit.added, l, f) <==> f in levels[l];
      }
      SortedUnique(r[l], levels[l]);
    }
  }

  //////////////////////////////////////////////////////////////////////////////
  // The Builder object, updated in place.

  /** std::upper_bound from position `from`: the first file that comes after `f`. */
  method UpperBound(files: seq<File>, from: nat, f: File) returns (pos: nat)
    requires SortedFiles(files) && from <= |files|
    ensures from <= pos <= |files|
    ensures forall i :: from <= i < pos ==> !FileLess(f, files[i])
    ensures pos < |files| ==> FileLess(f, files[pos])
  {
    var count := |files| - from;
    pos := from;
    while count > 0
      invariant 0 <= count && from <= pos && pos + count <= |files|
      invariant forall i :: from <= i < pos ==> !FileLess(f, files[i])
      invariant pos + count < |files| ==> FileLess(f, files[pos + count])
    {
      var step := count / 2;
      var mid := pos + step;
      if FileLess(f, files[mid]) {
        count := step;
      } else {
        assert forall i :: pos <= i < mid ==> FileLess(files[i], files[mid]);
        pos, count := mid + 1, count - step - 1;
      }
    }
  }

  function MaybeAddFile(v: seq<File>, f: File, deleted: set<nat>): seq<File> {
    if f.number in deleted then v else v + [f]
  }

  /** Moving the head of the remaining files into the result keeps the whole. */
  lemma MaybeAddHead(v: seq<File>, files: seq<File>, f: File, rest: seq<File>, deleted: set<nat>)
    requires files == [f] + rest
    ensures MaybeAddFile(v, f, deleted) + Undeleted(rest, deleted) == v + Undeleted(files, deleted)
  {
    assert files[1..] == rest;
  }

  lemma MergeBase(base: seq<File>, b: nat, added: seq<File>)
    requires b < |base| && added != [] && !FileLess(added[0], base[b])
    ensures Merge(base[b..], added) == [base[b]] + Merge(base[b + 1..], added)
  {
    assert base[b..][1..] == base[b + 1..];
  }

  lemma MergeAdded(base: seq<File>, added: seq<File>, a: nat)
    requires a < |added| && (base != [] ==> FileLess(added[a], base[0]))
    ensures Merge(base, added[a..]) == [added[a]] + Merge(base, added[a + 1..])
  {
    assert added[a..][1..] == added[a + 1..];
  }

  /** What is saved so far, and what is still to come, make up the whole level. */
  ghost predicate Saving(v: seq<File>, base: seq<File>, added: seq<File>, ls: LevelState, all: seq<File>) {
    v + Undeleted(Merge(base, added), ls.deleted) == all
  }

  lemma SaveBase(v: seq<File>, base: seq<File>, b: nat, added: seq<File>, ls: LevelState, all: seq<File>)
    requires b < |base| && Saving(v, base[b..], added, ls, all) && (added != [] ==> !FileLess(added[0], base[b]))
    ensures Saving(MaybeAddFile(v, base[b], ls.deleted), base[b + 1..], added, ls, all)
  {
    if added != [] {
      MergeBase(base, b, added);
    }
    MaybeAddHead(v, Merge(base[b..], added), base[b], Merge(base[b + 1..], added), ls.deleted);
  }

  lemma SaveAdded(v: seq<File>, base: seq<File>, added: seq<File>, a: nat, ls: LevelState, all: seq<File>)
    requires a < |added| && Saving(v, base, added[a..], ls, all) && (base != [] ==> FileLess(added[a], base[0]))
    ensures Saving(MaybeAddFile(v, added[a], ls.deleted), base, added[a + 1..], ls, all)
  {
    MergeAdded(base, added, a);
    MaybeAddHead(v, Merge(base, added[a..]), added[a], Merge(base, added[a + 1..]), ls.deleted);
  }

  /** The merge loop of SaveTo on one level. */
  method SaveLevelTo(base: seq<File>, ls: LevelState) returns (v: seq<File>)
    requires SortedFiles(base)
    ensures v == SaveLevel(base, ls)
  {
    v := [];
    var b := 0;
    ghost var all := SaveLevel(base, ls);
    assert base[0..] == base && ls.added[0..] == ls.added;
    for a := 0 to |ls.added|
      invariant b <= |base| && Saving(v, base[b..], ls.added[a..], ls, all)
    {
      var pos := UpperBound(base, b, ls.added[a]);
      while b < pos
        invariant b <= pos && Saving(v, base[b..], ls.added[a..], ls, all)
      {
        SaveBase(v, base, b, ls.added[a..], ls, all);
        v := MaybeAddFile(v, base[b], ls.deleted);
        b := b + 1;
      }
      SaveAdded(v, base[b..], ls.added, a, ls, all);
      v := MaybeAddFile(v, ls.added[a], ls.deleted);
    }
    while b < |base|
      invariant b <= |base| && Saving(v, base[b..], [], ls, all)
    {
      SaveBase(v, base, b, [], ls, all);
      v := MaybeAddFile(v, base[b], ls.deleted);
      b := b + 1;
    }
  }

  /** The levels that an edit speaks of exist, as decoding makes sure. */
  predicate LevelsExist(edit: Edit) {
    && (forall d :: d in edit.deleted ==> 0 <= d.level < NUM_LEVELS)
    && (forall a :: a in edit.added ==> 0 <= a.level < NUM_LEVELS)
  }

  class Builder {
    const base: Levels
    var levels: seq<LevelState>

    predicate Valid()
      reads this
    {
      |base| == NUM_LEVELS && |levels| == NUM_LEVELS
    }

    constructor (base: Levels)
      requires |base| == NUM_LEVELS
      ensures Valid() && this.base == base && forall l :: 0 <= l < NUM_LEVELS ==> levels[l] == NoChange
    {
      this.base := base;
      levels := seq(NUM_LEVELS, _ => NoChange);
    }

    /** Builder::Apply. */
    method Apply(edit: Edit)
      requires Valid()
      requires LevelsExist(edit)
      modifies this
      ensures Valid() && forall l :: 0 <= l < NUM_LEVELS ==> levels[l] == ApplyLevel(old(levels[l]), edit, l)
    {
      var left := edit.deleted;
      while left != {}
        invariant Valid() && left <= edit.deleted
        invariant forall l :: 0 <= l < NUM_LEVELS ==>
          levels[l] == LevelState(old(levels[l]).deleted + DeletedAt(edit.deleted - left, l), old(levels[l]).added)
        decreases left
      {
        var d :| d in left;
        DeletedAtMore(edit.deleted - left, d);
        assert edit.deleted - (left - {d}) == (edit.deleted - left) + {d};
        left := left - {d};
        levels := levels[d.level := LevelState(levels[d.level].deleted + {d.number}, levels[d.level].added)];
      }
      assert edit.deleted - {} == edit.deleted;
      ghost var start := levels;
      for i := 0 to |edit.added|
        invariant Valid()
        invariant forall l :: 0 <= l < NUM_LEVELS ==> levels[l] == AddFiles(start[l], edit.added[..i], l)
      {
        var Placed(level, f) := edit.added[i];
        assert edit.added[..i + 1][..i] == edit.added[..i];
        levels := levels[level := LevelState(levels[level].deleted - {f.number}, Insert(levels[level].added, f))];
      }
      assert edit.added[..|edit.added|] == edit.added;
    }

    /** Builder::SaveTo. */
    method SaveTo() returns (v: Levels)
      requires Valid() && SortedLevels(base)
      ensures |v| == NUM_LEVELS && forall l :: 0 <= l < NUM_LEVELS ==> v[l] == SaveLevel(base[l], levels[l])
    {
      v := [];
      for level := 0 to NUM_LEVELS
        invariant |v| == level && forall l :: 0 <= l < level ==> v[l] == SaveLevel(base[l], levels[l])
      {
        var files := SaveLevelTo(base[level], levels[level]);
        v := v + [files];
      }
    }
  }

  lemma DeletedAtMore(deleted: set<Slot>, d: Slot)
    ensures forall l :: DeletedAt(deleted + {d}, l) == DeletedAt(deleted, l) + (if d.level == l then {d.number} else {})
  {
    forall l ensures DeletedAt(deleted + {d}, l) == DeletedAt(deleted, l) + (if d.level == l then {d.number} else {}) {
      assert d in deleted + {d};
    }
  }

  /** The manifest part of LogAndApply: a Builder on the current Version, one Apply, one SaveTo. */
  method InstallEdit(current: Levels, edit: Edit) returns (v: Levels)
    requires SortedLevels(current)
    requires LevelsExist(edit)
    ensures v == ApplyEdit(current, edit)
  {
    var builder := new Builder(current);
    builder.Apply(edit);
    v := builder.SaveTo();
  }

  /** The replay loop of VersionSet::Recover. */
  method RecoverLevels(edits: seq<Edit>) returns (v: Levels)
    requires forall e :: e in edits ==> LevelsExist(e)
    requires NeverReAdded(EmptyLevels, edits)
    ensures v == ReplayEach(EmptyLevels, edits)
  {
    var builder := new Builder(EmptyLevels);
    for i := 0 to |edits|
      invariant fresh(builder) && builder.Valid()
      invariant forall l :: 0 <= l < NUM_LEVELS ==> builder.levels[l] == FoldLevel(NoChange, edits[..i], l)
    {
      assert edits[..i + 1][..i] == edits[..i];
      builder.Apply(edits[i]);
    }
    assert edits[..|edits|] == edits;
    v := builder.SaveTo();
    ReplayOnceIsReplayEach(EmptyLevels, edits);
    assert v == ReplayOnce(EmptyLevels, edits);
  }
}
