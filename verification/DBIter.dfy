/** DBIter (db/db_iter.cpp): from internal entries to the user keys that a snapshot shows.

    The inner iterator is a cursor over a sorted sequence of entries, which is what the merging
    iterator provides; a position at the end means that it is not valid. */
module DBIters {
  import opened DbFormat
  import opened Versions

  /** Entry i is what a reader at `s` sees for its user key: a value, and the newest visible entry. */
  ghost predicate Shown(t: seq<Entry>, s: nat, i: int) {
    && 0 <= i < |t| && t[i].sn <= s && t[i].kind.Value?
    && forall j :: 0 <= j < i ==> !(t[j].key == t[i].key && t[j].sn <= s)
  }

  /** `at` is the first entry shown from `p` on, or the end if there is none. */
  ghost predicate FirstShown(t: seq<Entry>, s: nat, p: nat, at: nat) {
    && p <= at <= |t| && (at < |t| ==> Shown(t, s, at))
    && forall i :: p <= i < at ==> !Shown(t, s, i)
  }

  /** `at` is the last entry shown before `p`, or the end if there is none. */
  ghost predicate LastShown(t: seq<Entry>, s: nat, p: nat, at: nat) {
    && p <= |t|
    && if at < |t| then at < p && Shown(t, s, at) && forall i :: at < i < p ==> !Shown(t, s, i)
       else at == |t| && forall i :: 0 <= i < p ==> !Shown(t, s, i)
  }

  predicate KeysAscend(t: seq<Entry>) {
    forall i, j :: 0 <= i < j < |t| ==> t[i].key <= t[j].key
  }

  lemma SortedKeysAscend(t: seq<Entry>)
    requires SortedTable(t)
    ensures KeysAscend(t)
  {
    forall i, j | 0 <= i < j < |t| ensures t[i].key <= t[j].key {
      assert Less(KeyOf(t[i]), KeyOf(t[j]));
    }
  }

  //////////////////////////////////////////////////////////////////////////////
  // Scanning forward.

  /** A scan for the first entry shown from `from` on has come to `p`: exactly the entries of the key
      being skipped are hidden by visible entries before `p`. */
  ghost predicate Skips(t: seq<Entry>, s: nat, from: nat, p: nat, skip: Option<UserKey>) {
    && (forall i :: from <= i < p && i < |t| ==> !Shown(t, s, i))
    && (skip.Some? ==> forall i :: p <= i < |t| ==> skip.value <= t[i].key)
    && (skip.Some? ==> forall i :: p <= i < |t| && from <= i && t[i].key == skip.value ==> !Shown(t, s, i))
    && (forall i, j :: 0 <= j < p <= i < |t| && t[j].key == t[i].key && t[j].sn <= s && t[i].sn <= s ==>
          skip == Some(t[i].key))
  }

  lemma SkipsInvisible(t: seq<Entry>, s: nat, from: nat, p: nat, skip: Option<UserKey>)
    requires Skips(t, s, from, p, skip) && p < |t| && t[p].sn > s
    ensures Skips(t, s, from, p + 1, skip)
  {
  }

  lemma SkipsDeletion(t: seq<Entry>, s: nat, from: nat, p: nat, skip: Option<UserKey>)
    requires KeysAscend(t) && Skips(t, s, from, p, skip) && p < |t| && t[p].sn <= s && t[p].kind.Deletion?
    ensures Skips(t, s, from, p + 1, Some(t[p].key))
  {
    forall i, j | 0 <= j < p + 1 <= i < |t| && t[j].key == t[i].key && t[j].sn <= s && t[i].sn <= s
      ensures t[i].key == t[p].key
    {
      assert t[j].key <= t[p].key <= t[i].key || j == p;
    }
  }

  lemma SkipsHidden(t: seq<Entry>, s: nat, from: nat, p: nat, skip: Option<UserKey>)
    requires KeysAscend(t) && Skips(t, s, from, p, skip) && p < |t| && t[p].sn <= s && skip.Some?
             && t[p].key <= skip.value
    ensures Skips(t, s, from, p + 1, skip)
  {
    assert t[p].key == skip.value;
  }

  lemma NotSkippedIsShown(t: seq<Entry>, s: nat, from: nat, p: nat, skip: Option<UserKey>)
    requires Skips(t, s, from, p, skip) && p < |t| && t[p].sn <= s && t[p].kind.Value?
    requires skip.None? || t[p].key > skip.value
    ensures Shown(t, s, p)
  {
  }

  /** Before the place of a seek, no entry of a later key is visible at `s`. */
  lemma SkipsFromSeek(t: seq<Entry>, s: nat, target: UserKey, p: nat)
    requires SortedTable(t) && p == SeekIndex(t, SeekKey(target, s))
    ensures Skips(t, s, p, p, None)
  {
    forall j | 0 <= j < p && t[j].sn <= s ensures t[j].key < target {
      assert Less(KeyOf(t[j]), SeekKey(target, s));
    }
    forall i | p <= i < |t| ensures target <= t[i].key {
      assert !Less(KeyOf(t[i]), SeekKey(target, s));
    }
  }

  /** Leaving a shown entry, the rest of its key is skipped. */
  lemma SkipsFromShown(t: seq<Entry>, s: nat, p: nat)
    requires KeysAscend(t) && Shown(t, s, p)
    ensures Skips(t, s, p + 1, p, Some(t[p].key))
  {
    forall i, j | 0 <= j < p < i < |t| && t[j].key == t[i].key ensures t[j].key == t[p].key {
      assert t[j].key <= t[p].key && t[p].key <= t[i].key;
    }
  }

  //////////////////////////////////////////////////////////////////////////////
  // Scanning backward.

  /** The scan stops at entry j with a value in hand: the entry after it is a value of a later key. */
  ghost predicate Stops(t: seq<Entry>, j: int) {
    0 <= j && j + 1 < |t| && t[j + 1].kind.Value? && t[j].key < t[j + 1].key
  }

  /** A backward scan from the entry before `p` meets an entry it cannot see before it can stop. */
  ghost predicate Blocked(t: seq<Entry>, s: nat, p: nat)
    requires p <= |t|
  {
    exists i :: 0 <= i < p && t[i].sn > s && forall j :: i < j < p - 1 ==> !Stops(t, j)
  }

  /** The scan has passed the entries from `at` up to `p`, all of them visible, without stopping. */
  ghost predicate Passed(t: seq<Entry>, s: nat, at: int, p: nat) {
    && 0 <= at <= p <= |t|
    && (forall i :: at <= i < p ==> t[i].sn <= s)
    && (forall j :: at <= j < p - 1 ==> !Stops(t, j))
  }

  /** In a passed stretch only the first entry can be shown. */
  lemma PassedHides(t: seq<Entry>, s: nat, at: int, p: nat)
    requires KeysAscend(t) && Passed(t, s, at, p)
    ensures forall i :: at < i < p ==> !Shown(t, s, i)
  {
    forall i | at < i < p ensures !Shown(t, s, i) {
      assert !Stops(t, i - 1);
      assert t[i - 1].key <= t[i].key;
    }
  }

  lemma BlockedHere(t: seq<Entry>, s: nat, at: nat, p: nat)
    requires Passed(t, s, at, p) && 0 < at && t[at - 1].sn > s
    ensures Blocked(t, s, p)
  {
    var i := at - 1;
    assert forall j :: i < j < p - 1 ==> !Stops(t, j);
  }

  lemma StopsUnblocked(t: seq<Entry>, s: nat, at: nat, p: nat)
    requires Passed(t, s, at, p) && (at == 0 || (at < p && t[at - 1].sn <= s && Stops(t, at - 1)))
    ensures !Blocked(t, s, p)
  {
  }

  /** What the scan has in hand when it has passed everything from `at` on and can go no further. */
  lemma PassedIsLast(t: seq<Entry>, s: nat, at: nat, p: nat)
    requires KeysAscend(t) && Passed(t, s, at, p) && (at == 0 || (at < p && Stops(t, at - 1)))
    ensures at < p && t[at].kind.Value? ==> LastShown(t, s, p, at)
    ensures at == 0 && (p == 0 || t[0].kind.Deletion?) ==> LastShown(t, s, p, |t|)
  {
    PassedHides(t, s, at, p);
    if at < p && t[at].kind.Value? {
      forall j | 0 <= j < at ensures t[j].key != t[at].key {
        assert t[j].key <= t[at - 1].key;
      }
    }
  }

  //////////////////////////////////////////////////////////////////////////////
  // The iterator.

  class DBIter {
    const table: seq<Entry>
    const snapshot: nat
    var pos: nat
    var forward: bool
    var valid: bool
    var savedKey: Option<UserKey>
    var savedValue: Bytes
    /** The shown entry the iterator stands at, or the end when it is not valid. */
    ghost var at: nat

    /** Moving forward the inner iterator is at the current entry; moving backward it is just before
        all entries of the current key. */
    ghost predicate Valid()
      reads this
    {
      && SortedTable(table) && pos <= |table| && at <= |table| && (valid <==> at < |table|)
      && (valid ==> Shown(table, snapshot, at))
      && (valid && forward ==> pos == at)
      && (!forward ==>
          && valid && savedKey == Some(table[at].key) && savedValue == table[at].value
          && pos == Before(at) && (at > 0 ==> table[at - 1].key < table[at].key))
    }

    /** Where the inner iterator goes with Prev. */
    function Before(p: nat): nat {
      if p > 0 then p - 1 else |table|
    }

    constructor (table: seq<Entry>, snapshot: nat)
      requires SortedTable(table)
      ensures Valid() && this.table == table && this.snapshot == snapshot && at == |table|
    {
      this.table, this.snapshot := table, snapshot;
      pos, forward, valid, savedKey, savedValue, at := |table|, true, false, None, [], |table|;
    }

    method FindNextUserEntry(skip0: Option<UserKey>, ghost from: nat)
      requires SortedTable(table) && pos < |table| && pos <= from <= |table| && forward
      requires Skips(table, snapshot, from, pos, skip0)
      requires from > pos ==> from == pos + 1 && skip0 == Some(table[pos].key)
      modifies this`pos, this`valid, this`savedKey, this`at
      ensures Valid() && FirstShown(table, snapshot, from, at) && forward
    {
      SortedKeysAscend(table);
      var skip := skip0;
      while pos < |table|
        invariant pos <= |table| && Skips(table, snapshot, from, pos, skip)
        invariant pos < from ==> pos < |table| && skip == Some(table[pos].key) && from == pos + 1
        decreases |table| - pos
      {
        var e := table[pos];
        if e.sn <= snapshot {
          if e.kind.Deletion? {
            SkipsDeletion(table, snapshot, from, pos, skip);
            skip := Some(e.key);
          } else if skip.Some? && e.key <= skip.value {
            SkipsHidden(table, snapshot, from, pos, skip);
          } else {
            NotSkippedIsShown(table, snapshot, from, pos, skip);
            valid, savedKey, at := true, None, pos;
            return;
          }
        } else {
          SkipsInvisible(table, snapshot, from, pos, skip);
        }
        pos := pos + 1;
      }
      savedKey, valid, at := None, false, |table|;
    }

    method SeekToFirst()
      requires Valid()
      modifies this
      ensures Valid() && FirstShown(table, snapshot, 0, at) && forward
    {
      forward, savedValue := true, [];
      pos := 0;
      if pos < |table| {
        FindNextUserEntry(None, 0);
      } else {
        valid, at := false, |table|;
      }
    }

    /** The first key shown at or after `target`. */
    method Seek(target: UserKey)
      requires Valid()
      modifies this
      ensures Valid() && FirstShown(table, snapshot, SeekIndex(table, SeekKey(target, snapshot)), at)
    {
      forward, savedValue, savedKey := true, [], None;
      pos := SeekIndex(table, SeekKey(target, snapshot));
      if pos < |table| {
        SkipsFromSeek(table, snapshot, target, pos);
        FindNextUserEntry(None, pos);
      } else {
        valid, at := false, |table|;
      }
    }

    method Next()
      requires Valid() && valid
      modifies this
      ensures Valid() && FirstShown(table, snapshot, old(at) + 1, at) && forward
    {
      if !forward {
        forward := true;
        if pos == |table| {
          pos := 0;
        } else {
          pos := pos + 1;
        }
      }
      SortedKeysAscend(table);
      SkipsFromShown(table, snapshot, pos);
      savedKey := Some(table[pos].key);
      FindNextUserEntry(savedKey, pos + 1);
    }

    /** The backward scan over the entries before `p`.  It only moves past entries it can see, so at
        one that it cannot see it stays forever; the result says whether that happens. */
    method FindPrevUserEntry(ghost p: nat) returns (stuck: bool)
      requires SortedTable(table) && p <= |table| && pos == Before(p) && !forward
      modifies this
      ensures stuck <==> Blocked(table, snapshot, p)
      ensures !stuck ==> Valid() && LastShown(table, snapshot, p, at) && (valid ==> !forward)
    {
      SortedKeysAscend(table);
      var kind := Deletion;
      ghost var q := p;
      while pos < |table|
        invariant Passed(table, snapshot, q, p) && pos == Before(q) && !forward
        invariant kind == if q < p then table[q].kind else Deletion
        invariant kind.Value? ==> savedKey == Some(table[q].key) && savedValue == table[q].value
        decreases q
      {
        var e := table[pos];
        if e.sn > snapshot {
          BlockedHere(table, snapshot, q, p);
          return true;
        }
        if kind.Value? && e.key < savedKey.value {
          break;
        }
        kind := e.kind;
        if kind.Deletion? {
          savedKey, savedValue := None, [];
        } else {
          savedKey, savedValue := Some(e.key), e.value;
        }
        q := pos;
        pos := Before(pos);
      }
      StopsUnblocked(table, snapshot, q, p);
      PassedIsLast(table, snapshot, q, p);
      if kind.Deletion? {
        valid, savedKey, savedValue, forward, at := false, None, [], true, |table|;
      } else {
        valid, at := true, q;
      }
      return false;
    }

    method SeekToLast() returns (stuck: bool)
      requires Valid()
      modifies this
      ensures stuck <==> Blocked(table, snapshot, |table|)
      ensures !stuck ==> Valid() && LastShown(table, snapshot, |table|, at) && (valid ==> !forward)
    {
      forward, savedValue := false, [];
      pos := Before(|table|);
      stuck := FindPrevUserEntry(|table|);
    }

    /** Moves back from the current entry to the last one of an earlier key, if there is one. */
    method LeaveKey() returns (ghost p: nat)
      requires SortedTable(table) && pos < |table|
      modifies this`pos
      ensures p <= old(pos) && KeyStart(table, table[old(pos)].key, p) && pos == Before(p)
      ensures forall i :: p <= i <= old(pos) ==> table[i].key == table[old(pos)].key
    {
      SortedKeysAscend(table);
      var key := table[pos].key;
      p := pos;
      while true
        invariant pos == p <= old(pos)
        invariant forall i :: p <= i <= old(pos) ==> table[i].key == key
        decreases p
      {
        pos := Before(pos);
        if pos == |table| || table[pos].key < key {
          return;
        }
        p := pos;
      }
    }

    method Prev() returns (stuck: bool, ghost p: nat)
      requires Valid() && valid
      modifies this
      ensures KeyStart(table, table[old(at)].key, p)
      ensures stuck <==> Blocked(table, snapshot, p)
      ensures !stuck ==> Valid() && LastShown(table, snapshot, old(at), at) && (valid ==> !forward)
    {
      SortedKeysAscend(table);
      p := at;
      if forward {
        savedKey := Some(table[pos].key);
        p := LeaveKey();
        SameKeyHidden(table, snapshot, p, at);
        if pos == |table| {
          valid, savedKey, savedValue, at := false, None, [], |table|;
          return false, p;
        }
        forward := false;
      }
      stuck := FindPrevUserEntry(p);
    }
  }

  /** Entries of the same key before the shown one are too new to be seen. */
  lemma SameKeyHidden(t: seq<Entry>, s: nat, p: nat, at: nat)
    requires p <= at && Shown(t, s, at) && forall i :: p <= i <= at ==> t[i].key == t[at].key
    ensures forall i :: p <= i < at ==> !Shown(t, s, i)
    ensures forall r :: LastShown(t, s, p, r) ==> LastShown(t, s, at, r)
  {
  }

  /** `p` is where the entries of keys at or after `k` begin. */
  ghost predicate KeyStart(t: seq<Entry>, k: UserKey, p: nat) {
    p <= |t| && (forall i :: 0 <= i < p ==> t[i].key < k) && forall i :: p <= i < |t| ==> k <= t[i].key
  }

  /** Seeking to a user key skips exactly the keys shown before it. */
  lemma SeekSkipsEarlierKeys(t: seq<Entry>, s: nat, target: UserKey, i: nat)
    requires SortedTable(t) && Shown(t, s, i)
    ensures i < SeekIndex(t, SeekKey(target, s)) <==> t[i].key < target
  {
  }

  //////////////////////////////////////////////////////////////////////////////
  // When a backward scan gets stuck.

  /** A snapshot that sees every entry can always be scanned backward. */
  lemma NeverBlocked(t: seq<Entry>, s: nat, p: nat)
    requires p <= |t| && forall i :: 0 <= i < |t| ==> t[i].sn <= s
    ensures !Blocked(t, s, p)
  {
  }

  /** A single entry written after the snapshot was taken blocks SeekToLast. */
  lemma NewerWriteBlocks(e: Entry, s: nat)
    requires e.sn > s
    ensures Blocked([e], s, 1)
  {
    assert [e][0].sn > s;
  }

  //////////////////////////////////////////////////////////////////////////////
  // Whole scans.

  datatype Item = Item(key: UserKey, value: Bytes)

  function ItemOf(e: Entry): Item {
    Item(e.key, e.value)
  }

  /** What is shown among the first `n` entries, in order. */
  ghost function Items(t: seq<Entry>, s: nat, n: nat): seq<Item>
    requires n <= |t|
  {
    if n == 0 then []
    else Items(t, s, n - 1) + if Shown(t, s, n - 1) then [ItemOf(t[n - 1])] else []
  }

  lemma {:induction false} NothingShown(t: seq<Entry>, s: nat, m: nat, n: nat)
    requires m <= n <= |t| && forall i :: m <= i < n ==> !Shown(t, s, i)
    ensures Items(t, s, n) == Items(t, s, m)
    decreases n
  {
    if m < n {
      NothingShown(t, s, m, n - 1);
    }
  }

  /** Membership: exactly the entries shown. */
  lemma {:induction false} ItemsMembers(t: seq<Entry>, s: nat, n: nat, x: Item)
    requires n <= |t|
    ensures x in Items(t, s, n) <==> exists i :: 0 <= i < n && Shown(t, s, i) && ItemOf(t[i]) == x
    decreases n
  {
    if n > 0 {
      ItemsMembers(t, s, n - 1, x);
    }
  }

  /** The keys shown ascend, each once. */
  lemma {:induction false} ItemsAscend(t: seq<Entry>, s: nat, n: nat)
    requires KeysAscend(t) && n <= |t|
    ensures forall i, j :: 0 <= i < j < |Items(t, s, n)| ==> Items(t, s, n)[i].key < Items(t, s, n)[j].key
    decreases n
  {
    if n > 0 {
      ItemsAscend(t, s, n - 1);
      if Shown(t, s, n - 1) {
        var before := Items(t, s, n - 1);
        forall i | 0 <= i < |before| ensures before[i].key < t[n - 1].key {
          ItemsMembers(t, s, n - 1, before[i]);
        }
      }
    }
  }

  ghost function EntriesOf(t: seq<Entry>): iset<Entry> {
    iset e | e in t
  }

  /** An entry is shown exactly when it is a value and the newest visible entry of its key. */
  lemma ShownIsNewest(t: seq<Entry>, s: nat, i: nat)
    requires SortedTable(t) && UniqueSeqs(EntriesOf(t)) && i < |t| && t[i].kind.Value?
    ensures Shown(t, s, i) <==> IsNewest(EntriesOf(t), t[i].key, s, t[i])
  {
    if Shown(t, s, i) {
      forall f | f in t && Visible(f, t[i].key, s) ensures f.sn <= t[i].sn {
        var j :| 0 <= j < |t| && t[j] == f;
        assert i < j ==> Less(KeyOf(t[i]), KeyOf(t[j]));
      }
    } else if t[i].sn <= s {
      var j :| 0 <= j < i && t[j].key == t[i].key && t[j].sn <= s;
      assert Less(KeyOf(t[j]), KeyOf(t[i]));
      assert t[j] in EntriesOf(t) && t[i] in EntriesOf(t) && Visible(t[j], t[i].key, s);
      assert t[j].sn != t[i].sn;
    }
  }

  /** The whole scan shows exactly the keys that have a value at the snapshot, with that value. */
  lemma ItemsAreView(t: seq<Entry>, s: nat, k: UserKey, v: Bytes)
    requires SortedTable(t) && UniqueSeqs(EntriesOf(t))
    ensures Item(k, v) in Items(t, s, |t|) <==> View(EntriesOf(t), k, s) == Some(v)
  {
    var all := EntriesOf(t);
    ItemsMembers(t, s, |t|, Item(k, v));
    if Item(k, v) in Items(t, s, |t|) {
      var i :| 0 <= i < |t| && Shown(t, s, i) && ItemOf(t[i]) == Item(k, v);
      ShownIsNewest(t, s, i);
      ViewIs(all, k, s, t[i]);
    }
    if View(all, k, s) == Some(v) {
      var e :| IsNewest(all, k, s, e) && Meaning(e) == Some(v);
      var i :| 0 <= i < |t| && t[i] == e;
      ShownIsNewest(t, s, i);
      assert ItemOf(t[i]) == Item(k, v);
    }
  }

  /** SeekToFirst and Next until the end. */
  method ScanForward(t: seq<Entry>, s: nat) returns (items: seq<Item>)
    requires SortedTable(t)
    ensures items == Items(t, s, |t|)
  {
    var it := new DBIter(t, s);
    it.SeekToFirst();
    items := [];
    NothingShown(t, s, 0, it.at);
    while it.valid
      invariant fresh(it) && it.Valid() && it.forward && it.table == t && it.snapshot == s
      invariant items == Items(t, s, it.at)
      decreases |t| - it.at
    {
      items := items + [ItemOf(t[it.pos])];
      ghost var was := it.at;
      it.Next();
      NothingShown(t, s, was + 1, it.at);
    }
  }

  /** The items from entry `n` on. */
  ghost predicate Tail(t: seq<Entry>, s: nat, n: nat, items: seq<Item>) {
    n <= |t| && Items(t, s, |t|) == Items(t, s, n) + items
  }

  lemma TailGrows(t: seq<Entry>, s: nat, at: nat, n: nat, items: seq<Item>)
    requires Tail(t, s, n, items) && at < |t| && LastShown(t, s, n, at)
    ensures Tail(t, s, at, [ItemOf(t[at])] + items)
  {
    NothingShown(t, s, at + 1, n);
    var before, x := Items(t, s, at), ItemOf(t[at]);
    assert (before + [x]) + items == before + ([x] + items);
  }

  /** SeekToLast and Prev until the end give the same items backward, when nothing is newer than the
      snapshot. */
  method ScanBackward(t: seq<Entry>, s: nat) returns (items: seq<Item>)
    requires SortedTable(t) && forall i :: 0 <= i < |t| ==> t[i].sn <= s
    ensures items == Items(t, s, |t|)
  {
    var it := new DBIter(t, s);
    NeverBlocked(t, s, |t|);
    var stuck := it.SeekToLast();
    items := [];
    ghost var end: nat := |t|;
    while it.valid
      invariant fresh(it) && it.Valid() && (it.valid ==> !it.forward) && it.table == t && it.snapshot == s
      invariant LastShown(t, s, end, it.at) && Tail(t, s, end, items)
      decreases end
    {
      TailGrows(t, s, it.at, end, items);
      items := [Item(it.savedKey.value, it.savedValue)] + items;
      end := it.at;
      ghost var p: nat;
      stuck, p := it.Prev();
      NeverBlocked(t, s, p);
    }
    NothingShown(t, s, 0, end);
  }
}
