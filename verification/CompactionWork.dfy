/** The compaction loop: what it drops, how its cursors answer, and why readers cannot tell
    (db/db_impl.cpp, DoCompactionWork; db/version_set.cpp, IsBaseLevelForKey and ShouldStopBefore). */
module CompactionWork {
  import opened DbFormat
  import opened Versions
  import opened CompactionPicker

  /** No file two or more levels below `level` has `k` in its range. */
  predicate BaseLevel(levels: Levels, level: nat, k: UserKey) {
    forall l, f :: level + 2 <= l < |levels| && f in levels[l] ==> !HasKey(f, k)
  }

  /** Entry i of the merged inputs is dropped: hidden by a newer entry of its key that every reader
      sees, or a deletion marker that every reader sees with nothing below it. */
  predicate Dropped(input: seq<Entry>, i: nat, snapshot: nat, levels: Levels, level: nat)
    requires i < |input|
  {
    || (i > 0 && input[i - 1].key == input[i].key && input[i - 1].sn <= snapshot)
    || (input[i].kind.Deletion? && input[i].sn <= snapshot && BaseLevel(levels, level, input[i].key))
  }

  /** The entries among the first n that survive, in order. */
  function Kept(input: seq<Entry>, n: nat, snapshot: nat, levels: Levels, level: nat): seq<Entry>
    requires n <= |input|
  {
    if n == 0 then []
    else Kept(input, n - 1, snapshot, levels, level)
         + (if Dropped(input, n - 1, snapshot, levels, level) then [] else [input[n - 1]])
  }

  lemma {:induction false} KeptMembers(input: seq<Entry>, n: nat, snapshot: nat, levels: Levels, level: nat, e: Entry)
    requires n <= |input|
    ensures e in Kept(input, n, snapshot, levels, level)
      <==> exists i :: 0 <= i < n && input[i] == e && !Dropped(input, i, snapshot, levels, level)
  {
    if n > 0 {
      KeptMembers(input, n - 1, snapshot, levels, level, e);
    }
  }

  lemma {:induction false} KeptSorted(input: seq<Entry>, n: nat, snapshot: nat, levels: Levels, level: nat)
    requires n <= |input| && SortedTable(input)
    ensures SortedTable(Kept(input, n, snapshot, levels, level))
  {
    if n > 0 {
      KeptSorted(input, n - 1, snapshot, levels, level);
      forall e | e in Kept(input, n - 1, snapshot, levels, level) ensures Less(KeyOf(e), KeyOf(input[n - 1])) {
        KeptMembers(input, n - 1, snapshot, levels, level, e);
      }
    }
  }

  function Concat(tables: seq<seq<Entry>>): seq<Entry> {
    if tables == [] then [] else Concat(tables[..|tables| - 1]) + tables[|tables| - 1]
  }

  //////////////////////////////////////////////////////////////////////////////
  // The cursors of IsBaseLevelForKey.

  class Compaction {
    const level: nat
    const inputVersion: Levels
    const grandparents: seq<File>
    var levelPtrs: seq<nat>
    var grandparentIndex: nat
    var seenKey: bool
    var overlappedBytes: nat

    /** Every file a cursor has passed ends before `k`. */
    ghost predicate Valid(k: UserKey)
      reads this
    {
      && LevelsSorted(inputVersion) && |levelPtrs| == NUM_LEVELS
      && forall l :: level + 2 <= l < NUM_LEVELS ==>
           levelPtrs[l] <= |inputVersion[l]| && Passed(inputVersion[l], levelPtrs[l], k)
    }

    lemma ValidLater(k: UserKey, later: UserKey)
      requires Valid(k) && k <= later
      ensures Valid(later)
    {
    }

    constructor (level: nat, inputVersion: Levels, grandparents: seq<File>)
      requires LevelsSorted(inputVersion)
      ensures this.level == level && this.inputVersion == inputVersion && this.grandparents == grandparents
      ensures grandparentIndex == overlappedBytes == 0 && forall k :: Valid(k)
    {
      this.level := level;
      this.inputVersion := inputVersion;
      this.grandparents := grandparents;
      levelPtrs := [0, 0, 0, 0, 0, 0, 0];
      grandparentIndex, seenKey, overlappedBytes := 0, false, 0;
    }

    /** The loop of ShouldStopBefore changes nothing that its guard reads, so it does not end once it is
        entered: `stuck`.  If it returns, no overlap was counted, so it never asks for a new output. */
    method ShouldStopBefore(key: IKey) returns (stuck: bool, stop: bool)
      requires grandparentIndex == 0
      modifies this`seenKey, this`overlappedBytes
      ensures stuck <==> Overruns(grandparents, key)
      ensures stop <==> !stuck && old(overlappedBytes) > MAX_GRANDPARENT_OVERLAP_BYTES
      ensures overlappedBytes == if stop then 0 else old(overlappedBytes)
    {
      stuck, stop := false, false;
      if grandparentIndex < |grandparents| {
        CompareIsOrder(grandparents[grandparentIndex].largest, key);
        if Compare(key, grandparents[grandparentIndex].largest) > 0 {
          return true, false;
        }
      }
      seenKey := true;
      if overlappedBytes > MAX_GRANDPARENT_OVERLAP_BYTES {
        overlappedBytes := 0;
        stop := true;
      }
    }

    /** The cursors only move forward, yet for non-decreasing keys they answer like a full scan. */
    method IsBaseLevelForKey(k: UserKey) returns (base: bool)
      requires Valid(k)
      modifies this`levelPtrs
      ensures Valid(k)
      ensures base <==> BaseLevel(inputVersion, level, k)
    {
      var lvl := level + 2;
      while lvl < NUM_LEVELS
        invariant level + 2 <= lvl
        invariant Valid(k)
        invariant forall l, f :: level + 2 <= l < lvl && l < NUM_LEVELS && f in inputVersion[l] ==> !HasKey(f, k)
      {
        var files := inputVersion[lvl];
        while levelPtrs[lvl] < |files|
          invariant Valid(k)
          decreases |files| - levelPtrs[lvl]
        {
          var f := files[levelPtrs[lvl]];
          if k <= f.largest.user {
            if k >= f.smallest.user {
              assert f in inputVersion[lvl] && HasKey(f, k);
              return false;
            }
            break;
          }
          levelPtrs := levelPtrs[lvl := levelPtrs[lvl] + 1];
        }
        CursorSettles(files, levelPtrs[lvl], k);
        lvl := lvl + 1;
      }
      base := true;
    }
  }

  /** The key lies beyond the first grandparent. */
  predicate Overruns(grandparents: seq<File>, key: IKey) {
    grandparents != [] && Less(grandparents[0].largest, key)
  }

  predicate Passed(files: seq<File>, p: nat, k: UserKey) {
    forall i :: 0 <= i < |files| && i < p ==> files[i].largest.user < k
  }

  lemma CursorSettles(files: seq<File>, p: nat, k: UserKey)
    requires DisjointSorted(files) && p <= |files| && Passed(files, p, k)
    requires p < |files| ==> k < files[p].smallest.user
    ensures forall f :: f in files ==> !HasKey(f, k)
  {
    forall i | 0 <= i < |files| ensures !HasKey(files[i], k) {
      assert i > p ==> Less(files[p].largest, files[i].smallest);
    }
  }

  //////////////////////////////////////////////////////////////////////////////
  // The loop.

  /** DoCompactionWork over the merged inputs.  Whether to close the current output after an entry (file
      size) is arbitrary: what is kept must not depend on it.  The call does not return if and only if
      the last input key lies beyond the first grandparent. */
  method DoCompactionWork(c: Compaction, input: seq<Entry>, snapshot: nat, full: seq<bool>)
    returns (stuck: bool, outputs: seq<seq<Entry>>)
    requires SortedTable(input) && |full| == |input|
    requires snapshot < MAX_SEQUENCE
    requires c.grandparentIndex == 0 && forall k :: c.Valid(k)
    modifies c`levelPtrs, c`seenKey, c`overlappedBytes
    ensures stuck <==> input != [] && Overruns(c.grandparents, KeyOf(input[|input| - 1]))
    ensures !stuck ==> Concat(outputs) == Kept(input, |input|, snapshot, c.inputVersion, c.level)
    ensures !stuck ==> forall t :: t in outputs ==> t != []
  {
    stuck, outputs := false, [];
    var builder: seq<Entry> := [];  // empty: no output file is open
    var currentUserKey: Option<UserKey> := None;
    var lastSequenceForKey := MAX_SEQUENCE;
    var i := 0;
    while i < |input|
      invariant i <= |input|
      invariant i > 0 ==> !Overruns(c.grandparents, KeyOf(input[i - 1]))
      invariant i == 0 ==> currentUserKey == None
      invariant i > 0 ==> currentUserKey == Some(input[i - 1].key) && lastSequenceForKey == input[i - 1].sn
      invariant i < |input| ==> c.Valid(input[i].key)
      invariant forall t :: t in outputs ==> t != []
      invariant Concat(outputs) + builder == Kept(input, i, snapshot, c.inputVersion, c.level)
    {
      var e, stop := input[i], false;
      stuck, stop := c.ShouldStopBefore(KeyOf(e));
      if stuck {
        OverrunsLater(c.grandparents, input, i);
        return;
      }
      if stop {
        outputs, builder := FinishOutput(outputs, builder);
      }
      if currentUserKey != Some(e.key) {
        currentUserKey := Some(e.key);
        lastSequenceForKey := MAX_SEQUENCE;
      }
      var drop := ShouldDrop(c, lastSequenceForKey, e, snapshot);
      lastSequenceForKey := e.sn;
      if !drop {
        outputs, builder := AddToOutput(outputs, builder, e, full[i]);
      }
      i := i + 1;
      if i < |input| {
        assert Less(KeyOf(e), KeyOf(input[i]));
        c.ValidLater(e.key, input[i].key);
      }
    }
    outputs, builder := FinishOutput(outputs, builder);
  }

  lemma OverrunsLater(grandparents: seq<File>, input: seq<Entry>, i: nat)
    requires SortedTable(input) && i < |input| && Overruns(grandparents, KeyOf(input[i]))
    ensures Overruns(grandparents, KeyOf(input[|input| - 1]))
  {
    assert i < |input| - 1 ==> Less(KeyOf(input[i]), KeyOf(input[|input| - 1]));
  }

  const WideFile := File(7, 1, IKey(1.0, 4, Value), IKey(2.0, 3, Value))
  const NarrowFile := File(5, 1, IKey(1.0, 1, Value), IKey(1.0, 1, Value))

  /** A compaction as PickCompaction makes it that never returns: its one input file goes beyond the one
      grandparent it overlaps. */
  lemma OneGrandparentHangs(levels: Levels)
    requires |levels| == NUM_LEVELS && levels[1] == [WideFile] && levels[2] == [] && levels[3] == [NarrowFile]
    ensures Selected(levels, Job(1, [WideFile], []))
    ensures Select(levels[3], Some(1.0), Some(2.0)) == [NarrowFile]
    ensures Overruns([NarrowFile], WideFile.largest)
  {
    NoGapOne(WideFile);
    assert [WideFile] + [] == [WideFile];
    assert levels[3][..0] == [];
  }

  /** Rule (A) and the rule for obsolete deletion markers. */
  method ShouldDrop(c: Compaction, lastSequenceForKey: nat, e: Entry, snapshot: nat) returns (drop: bool)
    requires c.Valid(e.key)
    modifies c`levelPtrs
    ensures c.Valid(e.key)
    ensures drop <==> || lastSequenceForKey <= snapshot
                      || (e.kind.Deletion? && e.sn <= snapshot && BaseLevel(c.inputVersion, c.level, e.key))
  {
    if lastSequenceForKey <= snapshot {
      drop := true;
    } else if e.kind == Deletion && e.sn <= snapshot {
      drop := c.IsBaseLevelForKey(e.key);
    } else {
      drop := false;
    }
  }

  /** Adds an entry to the open output file, and closes it if it is large enough. */
  method AddToOutput(outputs: seq<seq<Entry>>, builder: seq<Entry>, e: Entry, full: bool)
    returns (outputs': seq<seq<Entry>>, builder': seq<Entry>)
    ensures Concat(outputs') + builder' == (Concat(outputs) + builder) + [e]
    ensures forall t :: t in outputs' ==> t in outputs || t != []
  {
    outputs', builder' := outputs, builder + [e];
    if full {
      outputs', builder' := FinishOutput(outputs', builder');
    }
  }

  /** FinishCompactionOutputFile, if an output file is open. */
  method FinishOutput(outputs: seq<seq<Entry>>, builder: seq<Entry>)
    returns (outputs': seq<seq<Entry>>, builder': seq<Entry>)
    ensures Concat(outputs') == Concat(outputs) + builder && builder' == []
    ensures forall t :: t in outputs' ==> t in outputs || t != []
  {
    outputs' := if builder == [] then outputs else outputs + [builder];
    builder' := [];
  }

  //////////////////////////////////////////////////////////////////////////////
  // Why no reader at or above the snapshot can tell.

  ghost predicate Survives(input: seq<Entry>, snapshot: nat, levels: Levels, level: nat, e: Entry) {
    e in Kept(input, |input|, snapshot, levels, level)
  }

  /** The newest entry of a key at the snapshot is a deletion marker among the inputs with nothing two
      levels below, and the newest one outside the inputs is a value. */
  ghost predicate Uncovered(input: seq<Entry>, rest: iset<Entry>, snapshot: nat, levels: Levels, level: nat,
                            t: Entry, r: Entry)
  {
    && t in input && t.kind.Deletion? && BaseLevel(levels, level, t.key)
    && IsNewest(Before(input, rest), t.key, snapshot, t)
    && IsNewest(rest, t.key, snapshot, r) && r.kind.Value?
  }

  ghost predicate Uncovers(input: seq<Entry>, rest: iset<Entry>, snapshot: nat, levels: Levels, level: nat) {
    exists t, r :: Uncovered(input, rest, snapshot, levels, level, t, r)
  }

  ghost function Before(input: seq<Entry>, rest: iset<Entry>): iset<Entry> {
    (iset e | e in input) + rest
  }

  ghost function After(input: seq<Entry>, rest: iset<Entry>, snapshot: nat, levels: Levels, level: nat): iset<Entry> {
    (iset e | Survives(input, snapshot, levels, level, e)) + rest
  }

  ghost function Inputs(input: seq<Entry>): iset<Entry> {
    iset e | e in input
  }

  /** Some reader at or above the snapshot finds the entry as the newest of its key among the inputs. */
  ghost predicate Needed(input: seq<Entry>, snapshot: nat, e: Entry) {
    exists s :: s >= snapshot && IsNewest(Inputs(input), e.key, s, e)
  }

  /** What the loop keeps, in terms of readers: the entries that some reader may need, except for deletion
      markers that all readers see with nothing below them. */
  lemma KeptExactly(input: seq<Entry>, snapshot: nat, levels: Levels, level: nat, e: Entry)
    requires SortedTable(input) && UniqueSeqs(Inputs(input))
    ensures Survives(input, snapshot, levels, level, e) <==>
      && e in input && Needed(input, snapshot, e)
      && !(e.kind.Deletion? && e.sn <= snapshot && BaseLevel(levels, level, e.key))
  {
    KeptMembers(input, |input|, snapshot, levels, level, e);
    if Survives(input, snapshot, levels, level, e) {
      var i :| 0 <= i < |input| && input[i] == e && !Dropped(input, i, snapshot, levels, level);
      NeededExactly(input, snapshot, i);
    } else if e in input {
      var i :| 0 <= i < |input| && input[i] == e;
      assert Dropped(input, i, snapshot, levels, level);
      NeededExactly(input, snapshot, i);
    }
  }

  lemma NeededExactly(input: seq<Entry>, snapshot: nat, i: nat)
    requires SortedTable(input) && UniqueSeqs(Inputs(input)) && i < |input|
    ensures Needed(input, snapshot, input[i]) <==>
      !(i > 0 && input[i - 1].key == input[i].key && input[i - 1].sn <= snapshot)
  {
    var all, e := Inputs(input), input[i];
    var s := if e.sn > snapshot then e.sn else snapshot;
    if i > 0 && input[i - 1].key == e.key && input[i - 1].sn <= snapshot {
      assert input[i - 1] in all && Less(KeyOf(input[i - 1]), KeyOf(e));
    } else {
      forall x | x in all && Visible(x, e.key, s) ensures x.sn <= e.sn {
        var j :| 0 <= j < |input| && input[j] == x;
        if j < i {
          SandwichedKey(input, j, i);
          assert Less(KeyOf(input[i - 1]), KeyOf(e));
        } else if j > i {
          assert Less(KeyOf(e), KeyOf(input[j]));
        }
      }
      assert IsNewest(all, e.key, s, e);
    }
  }

  /** An input entry that is dropped and is the newest entry a reader at s >= snapshot sees can only
      be a deletion marker, and then no older entry of its key survives among the inputs. */
  lemma DroppedNewest(input: seq<Entry>, rest: iset<Entry>, snapshot: nat, levels: Levels, level: nat,
                      k: UserKey, s: nat, n: Entry)
    requires SortedTable(input) && UniqueSeqs(Before(input, rest)) && snapshot <= s
    requires IsNewest(Before(input, rest), k, s, n) && n !in After(input, rest, snapshot, levels, level)
    ensures n in input && n.kind.Deletion? && n.sn <= snapshot && BaseLevel(levels, level, k)
    ensures forall e :: Survives(input, snapshot, levels, level, e) && e.key == k ==> e.sn > s
  {
    var i :| 0 <= i < |input| && input[i] == n;
    KeptMembers(input, |input|, snapshot, levels, level, n);
    assert Dropped(input, i, snapshot, levels, level);
    if i > 0 {
      assert input[i - 1] in Before(input, rest);
      assert Less(KeyOf(input[i - 1]), KeyOf(input[i]));
    }
    forall e | Survives(input, snapshot, levels, level, e) && e.key == k ensures e.sn > s {
      KeptMembers(input, |input|, snapshot, levels, level, e);
      var j :| 0 <= j < |input| && input[j] == e && !Dropped(input, j, snapshot, levels, level);
      assert e in Before(input, rest);
      if e.sn <= s {
        if i < j {
          SandwichedKey(input, i, j);
        }
      }
    }
  }

  /** Between two entries of one user key every entry has that key, and newer ones come first. */
  lemma SandwichedKey(input: seq<Entry>, i: nat, j: nat)
    requires SortedTable(input) && i < j < |input| && input[i].key == input[j].key
    ensures input[j - 1].key == input[j].key && input[j - 1].sn <= input[i].sn
  {
    assert Less(KeyOf(input[j - 1]), KeyOf(input[j]));
    if i < j - 1 {
      assert Less(KeyOf(input[i]), KeyOf(input[j - 1]));
    }
  }

  /** Exactly when the drop loop is invisible: every reader at or above the snapshot sees the same
      value for every key if and only if no value outside the inputs is uncovered, which the inputs and
      the other files say before the compaction. */
  lemma CompactionViewExact(input: seq<Entry>, rest: iset<Entry>, snapshot: nat, levels: Levels, level: nat)
    requires SortedTable(input) && UniqueSeqs(Before(input, rest))
    ensures (forall k, s :: s >= snapshot ==>
               View(Before(input, rest), k, s) == View(After(input, rest, snapshot, levels, level), k, s))
            <==> !Uncovers(input, rest, snapshot, levels, level)
  {
    var all, all' := Before(input, rest), After(input, rest, snapshot, levels, level);
    AfterIsSubset(input, rest, snapshot, levels, level);
    if Uncovers(input, rest, snapshot, levels, level) {
      UncoveringShows(input, rest, snapshot, levels, level);
    } else {
      forall k, s | s >= snapshot ensures View(all, k, s) == View(all', k, s) {
        SameView(input, rest, snapshot, levels, level, k, s);
      }
    }
  }

  lemma AfterIsSubset(input: seq<Entry>, rest: iset<Entry>, snapshot: nat, levels: Levels, level: nat)
    ensures After(input, rest, snapshot, levels, level) <= Before(input, rest)
  {
    forall e | Survives(input, snapshot, levels, level, e) ensures e in input {
      KeptMembers(input, |input|, snapshot, levels, level, e);
    }
  }

  lemma SameView(input: seq<Entry>, rest: iset<Entry>, snapshot: nat, levels: Levels, level: nat, k: UserKey, s: nat)
    requires SortedTable(input) && UniqueSeqs(Before(input, rest)) && snapshot <= s
    requires !Uncovers(input, rest, snapshot, levels, level)
    ensures View(Before(input, rest), k, s) == View(After(input, rest, snapshot, levels, level), k, s)
  {
    var all, all' := Before(input, rest), After(input, rest, snapshot, levels, level);
    AfterIsSubset(input, rest, snapshot, levels, level);
    if e :| e in all && Visible(e, k, s) {
      var n := NewestExists(all, k, s, e);
      ViewIs(all, k, s, n);
      if n in all' {
        ViewIs(all', k, s, n);
      } else {
        DroppedNewest(input, rest, snapshot, levels, level, k, s, n);
        if e' :| e' in all' && Visible(e', k, s) {
          var r := NewestExists(all', k, s, e');
          ViewIs(all', k, s, r);
          assert r in rest && r.sn < n.sn;
          assert !Uncovered(input, rest, snapshot, levels, level, n, r);
        } else {
          ViewIsNone(all', k, s);
        }
      }
    } else {
      ViewIsNone(all, k, s);
      ViewIsNone(all', k, s);
    }
  }

  lemma UncoveringShows(input: seq<Entry>, rest: iset<Entry>, snapshot: nat, levels: Levels, level: nat)
    requires SortedTable(input) && UniqueSeqs(Before(input, rest))
    requires Uncovers(input, rest, snapshot, levels, level)
    ensures exists k :: View(Before(input, rest), k, snapshot) != View(After(input, rest, snapshot, levels, level), k,
            snapshot)
  {
    var all, all' := Before(input, rest), After(input, rest, snapshot, levels, level);
    AfterIsSubset(input, rest, snapshot, levels, level);
    var t, r :| Uncovered(input, rest, snapshot, levels, level, t, r);
    ViewIs(all, t.key, snapshot, t);
    MarkerIsDropped(input, rest, snapshot, levels, level, t, r);
    DroppedNewest(input, rest, snapshot, levels, level, t.key, snapshot, t);
    assert IsNewest(all', t.key, snapshot, r);
    ViewIs(all', t.key, snapshot, r);
  }

  lemma MarkerIsDropped(input: seq<Entry>, rest: iset<Entry>, snapshot: nat, levels: Levels, level: nat,
                        t: Entry, r: Entry)
    requires SortedTable(input) && UniqueSeqs(Before(input, rest))
    requires Uncovered(input, rest, snapshot, levels, level, t, r)
    ensures t !in After(input, rest, snapshot, levels, level)
  {
    KeptMembers(input, |input|, snapshot, levels, level, t);
    assert r in Before(input, rest);
    assert t !in rest;
  }
}
