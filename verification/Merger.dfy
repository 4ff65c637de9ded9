/** MergingIterator (table/merger.cpp): several sorted children behind one cursor.

    A child is its sorted sequence and a position in it; a position at the end means that the child is
    not valid, whichever way it ran off. */
module Merger {
  import opened DbFormat
  import opened Versions

  /** `merged` is the sorted merge of sorted children whose keys are pairwise distinct. */
  ghost predicate IsMerge(children: seq<seq<Entry>>, merged: seq<Entry>) {
    && SortedTable(merged)
    && (forall i :: 0 <= i < |children| ==> SortedTable(children[i]))
    && (forall i, j :: 0 <= i < |children| && 0 <= j < |children[i]| ==> children[i][j] in merged)
    && (forall b :: 0 <= b < |merged| ==> exists i :: 0 <= i < |children| && merged[b] in children[i])
    && (forall i, k, e :: 0 <= i < |children| && 0 <= k < |children| && e in children[i] && e in children[k] ==> i == k)
  }

  //////////////////////////////////////////////////////////////////////////////
  // The merge by indices: entry j of child i is entry ix[i][j] of the merge.

  datatype Place = Place(child: nat, index: nat)

  ghost predicate IndicesIncrease(s: seq<nat>) {
    forall i, j :: 0 <= i < j < |s| ==> s[i] < s[j]
  }

  /** `own` says which child holds each entry of the merge. */
  ghost predicate Indexed(sizes: seq<nat>, total: nat, ix: seq<seq<nat>>, own: seq<Place>) {
    && |ix| == |sizes| && |own| == total
    && (forall i :: 0 <= i < |ix| ==> |ix[i]| == sizes[i] && IndicesIncrease(ix[i]))
    && (forall i, j :: 0 <= i < |ix| && 0 <= j < |ix[i]| ==> ix[i][j] < total && own[ix[i][j]] == Place(i, j))
    && (forall b :: 0 <= b < total ==> own[b].child < |ix| && own[b].index < |ix[own[b].child]|
                                       && ix[own[b].child][own[b].index] == b)
  }

  ghost predicate Matches(children: seq<seq<Entry>>, merged: seq<Entry>, ix: seq<seq<nat>>) {
    && |ix| == |children| && SortedTable(merged)
    && (forall i :: 0 <= i < |ix| ==> |ix[i]| == |children[i]|)
    && (forall i, j :: 0 <= i < |ix| && 0 <= j < |ix[i]| ==> ix[i][j] < |merged| && merged[ix[i][j]] == children[i][j])
  }

  /** Child i stands at its first entry whose index is at least `b`. */
  ghost predicate FirstFrom(xs: seq<nat>, p: nat, b: nat) {
    p <= |xs| && (forall j :: 0 <= j < p ==> xs[j] < b) && (forall j :: p <= j < |xs| ==> b <= xs[j])
  }

  /** Child i stands at its last entry whose index is below `b`, or at its end if there is none. */
  ghost predicate LastBelow(xs: seq<nat>, p: nat, b: nat) {
    if p < |xs| then FirstFrom(xs, p + 1, b) else p == |xs| && FirstFrom(xs, 0, b)
  }

  ghost predicate AllFirst(ix: seq<seq<nat>>, pos: seq<nat>, b: nat) {
    |pos| == |ix| && forall i :: 0 <= i < |ix| ==> FirstFrom(ix[i], pos[i], b)
  }

  ghost predicate AllLast(ix: seq<seq<nat>>, pos: seq<nat>, b: nat) {
    |pos| == |ix| && forall i :: 0 <= i < |ix| ==> LastBelow(ix[i], pos[i], b)
  }

  /** Child i is valid. */
  ghost predicate At(ix: seq<seq<nat>>, pos: seq<nat>, i: int) {
    0 <= i < |ix| && i < |pos| && pos[i] < |ix[i]|
  }

  lemma SmallestIsFirst(sizes: seq<nat>, total: nat, ix: seq<seq<nat>>, own: seq<Place>, pos: seq<nat>, b: nat, c: nat)
    requires Indexed(sizes, total, ix, own) && AllFirst(ix, pos, b) && b <= total
    requires At(ix, pos, c) && forall i :: At(ix, pos, i) ==> ix[c][pos[c]] <= ix[i][pos[i]]
    ensures b < total && ix[c][pos[c]] == b
  {
    var o := own[b];
    assert ix[o.child][o.index] == b;
    assert pos[o.child] <= o.index;
    assert At(ix, pos, o.child);
  }

  lemma FirstIsValid(sizes: seq<nat>, total: nat, ix: seq<seq<nat>>, own: seq<Place>, pos: seq<nat>, b: nat)
    requires Indexed(sizes, total, ix, own) && AllFirst(ix, pos, b) && b < total
    ensures At(ix, pos, own[b].child)
  {
    var o := own[b];
    assert ix[o.child][o.index] == b;
    assert pos[o.child] <= o.index;
  }

  lemma LargestIsLast(sizes: seq<nat>, total: nat, ix: seq<seq<nat>>, own: seq<Place>, pos: seq<nat>, b: nat, c: nat)
    requires Indexed(sizes, total, ix, own) && AllLast(ix, pos, b) && b <= total
    requires At(ix, pos, c) && forall i :: At(ix, pos, i) ==> ix[i][pos[i]] <= ix[c][pos[c]]
    ensures 0 < b && ix[c][pos[c]] == b - 1
  {
    assert ix[c][pos[c]] < b;
    var o := own[b - 1];
    assert ix[o.child][o.index] == b - 1;
    assert At(ix, pos, o.child);
    assert o.index <= pos[o.child];
  }

  lemma LastIsValid(sizes: seq<nat>, total: nat, ix: seq<seq<nat>>, own: seq<Place>, pos: seq<nat>, b: nat)
    requires Indexed(sizes, total, ix, own) && AllLast(ix, pos, b) && 0 < b <= total
    ensures At(ix, pos, own[b - 1].child)
  {
    var o := own[b - 1];
    assert ix[o.child][o.index] == b - 1;
  }

  /** Comparing entries of the children is comparing their indices. */
  lemma LessIsBelow(children: seq<seq<Entry>>, merged: seq<Entry>, ix: seq<seq<nat>>, i: nat, j: nat, k: nat, l: nat)
    requires Matches(children, merged, ix) && i < |ix| && j < |ix[i]| && k < |ix| && l < |ix[k]|
    ensures Less(KeyOf(children[i][j]), KeyOf(children[k][l])) <==> ix[i][j] < ix[k][l]
    ensures KeyOf(children[i][j]) == KeyOf(children[k][l]) <==> ix[i][j] == ix[k][l]
  {
    var a, b := ix[i][j], ix[k][l];
    if a < b {
      assert Less(KeyOf(merged[a]), KeyOf(merged[b]));
    } else if b < a {
      assert Less(KeyOf(merged[b]), KeyOf(merged[a]));
    }
  }

  /** The first entry of a child at or after a key stands where that key falls in the merge. */
  lemma SeekIsFirst(children: seq<seq<Entry>>, merged: seq<Entry>, ix: seq<seq<nat>>, i: nat, p: nat, target: IKey,
                    b: nat)
    requires Matches(children, merged, ix) && i < |ix| && p <= |ix[i]| && b <= |merged|
    requires forall j :: 0 <= j < p ==> Less(KeyOf(children[i][j]), target)
    requires forall j :: p <= j < |ix[i]| ==> !Less(KeyOf(children[i][j]), target)
    requires forall m :: 0 <= m < |merged| ==> (m < b <==> Less(KeyOf(merged[m]), target))
    ensures FirstFrom(ix[i], p, b)
  {
    forall j | 0 <= j < |ix[i]| ensures ix[i][j] < b <==> j < p {
      assert merged[ix[i][j]] == children[i][j];
    }
  }

  //////////////////////////////////////////////////////////////////////////////
  // Every merge can be indexed, and all children with distinct keys have a merge.

  ghost function IndexIn(merged: seq<Entry>, e: Entry): (b: nat)
    ensures e in merged ==> b < |merged| && merged[b] == e
  {
    if e in merged then var b :| 0 <= b < |merged| && merged[b] == e; b else 0
  }

  ghost function Indices(children: seq<seq<Entry>>, merged: seq<Entry>): seq<seq<nat>> {
    seq(|children|, i requires 0 <= i < |children| =>
      seq(|children[i]|, j requires 0 <= j < |children[i]| => IndexIn(merged, children[i][j])))
  }

  ghost predicate HoldsAt(children: seq<seq<Entry>>, e: Entry, p: Place) {
    p.child < |children| && p.index < |children[p.child]| && children[p.child][p.index] == e
  }

  ghost function PlaceOf(children: seq<seq<Entry>>, e: Entry): Place {
    if exists p :: HoldsAt(children, e, p) then var p :| HoldsAt(children, e, p); p else Place(0, 0)
  }

  ghost function Places(children: seq<seq<Entry>>, merged: seq<Entry>): seq<Place> {
    seq(|merged|, b requires 0 <= b < |merged| => PlaceOf(children, merged[b]))
  }

  lemma IndicesMatch(children: seq<seq<Entry>>, merged: seq<Entry>)
    requires IsMerge(children, merged)
    ensures Matches(children, merged, Indices(children, merged))
  {
  }

  lemma PlaceIsOnly(children: seq<seq<Entry>>, merged: seq<Entry>, i: nat, j: nat)
    requires IsMerge(children, merged) && i < |children| && j < |children[i]|
    ensures PlaceOf(children, children[i][j]) == Place(i, j)
  {
    var e := children[i][j];
    assert HoldsAt(children, e, Place(i, j));
    var p := PlaceOf(children, e);
    assert e in children[i] && e in children[p.child];
    UniqueIndex(children[i], p.index, j);
  }

  lemma PlacesMatch(children: seq<seq<Entry>>, merged: seq<Entry>)
    requires IsMerge(children, merged)
    ensures Indexed(seq(|children|, i requires 0 <= i < |children| => |children[i]|), |merged|,
                    Indices(children, merged), Places(children, merged))
  {
    var ix, own := Indices(children, merged), Places(children, merged);
    IndicesMatch(children, merged);
    forall i, j | 0 <= i < |ix| && 0 <= j < |ix[i]| ensures own[ix[i][j]] == Place(i, j) {
      PlaceIsOnly(children, merged, i, j);
    }
    forall i | 0 <= i < |ix| ensures IndicesIncrease(ix[i]) {
      forall j, k | 0 <= j < k < |ix[i]| ensures ix[i][j] < ix[i][k] {
        assert SortedTable(children[i]);
        LessIsBelow(children, merged, ix, i, j, i, k);
      }
    }
    forall b | 0 <= b < |merged|
      ensures own[b].child < |ix| && own[b].index < |ix[own[b].child]| && ix[own[b].child][own[b].index] == b
    {
      var i :| 0 <= i < |children| && merged[b] in children[i];
      var j :| 0 <= j < |children[i]| && children[i][j] == merged[b];
      PlaceIsOnly(children, merged, i, j);
      UniqueIndex(merged, b, ix[i][j]);
    }
  }

  lemma UniqueIndex(merged: seq<Entry>, a: nat, b: nat)
    requires SortedTable(merged) && a < |merged| && b < |merged| && merged[a] == merged[b]
    ensures a == b
  {
  }

  function Merge2(a: seq<Entry>, b: seq<Entry>): seq<Entry> {
    if a == [] then b
    else if b == [] then a
    else if Less(KeyOf(a[0]), KeyOf(b[0])) then [a[0]] + Merge2(a[1..], b)
    else [b[0]] + Merge2(a, b[1..])
  }

  ghost predicate DistinctKeys(a: seq<Entry>, b: seq<Entry>) {
    forall x, y :: x in a && y in b ==> KeyOf(x) != KeyOf(y)
  }

  ghost predicate AllAfter(k: IKey, t: seq<Entry>) {
    forall e :: e in t ==> Less(k, KeyOf(e))
  }

  lemma SortedTail(t: seq<Entry>)
    requires SortedTable(t) && t != []
    ensures SortedTable(t[1..]) && AllAfter(KeyOf(t[0]), t[1..])
  {
  }

  lemma SortedCons(e: Entry, t: seq<Entry>)
    requires SortedTable(t) && AllAfter(KeyOf(e), t)
    ensures SortedTable([e] + t)
  {
  }

  lemma {:induction false} Merge2Members(a: seq<Entry>, b: seq<Entry>, e: Entry)
    ensures e in Merge2(a, b) <==> e in a || e in b
    decreases |a| + |b|
  {
    if a != [] && b != [] {
      Merge2Members(a[1..], b, e);
      Merge2Members(a, b[1..], e);
      assert a == [a[0]] + a[1..] && b == [b[0]] + b[1..];
    }
  }

  lemma {:induction false} Merge2Sorted(a: seq<Entry>, b: seq<Entry>)
    requires SortedTable(a) && SortedTable(b) && DistinctKeys(a, b)
    ensures SortedTable(Merge2(a, b))
    decreases |a| + |b|
  {
    if a != [] && b != [] {
      SortedTail(a);
      SortedTail(b);
      assert a[0] in a && b[0] in b;
      var e, rest := if Less(KeyOf(a[0]), KeyOf(b[0])) then a[0] else b[0],
                     if Less(KeyOf(a[0]), KeyOf(b[0])) then Merge2(a[1..], b) else Merge2(a, b[1..]);
      if Less(KeyOf(a[0]), KeyOf(b[0])) {
        Merge2Sorted(a[1..], b);
      } else {
        Merge2Sorted(a, b[1..]);
      }
      forall x | x in rest ensures Less(KeyOf(e), KeyOf(x)) {
        Merge2Members(a[1..], b, x);
        Merge2Members(a, b[1..], x);
        HeadIsLeast(a, b, e, x);
      }
      SortedCons(e, rest);
    }
  }

  lemma HeadIsLeast(a: seq<Entry>, b: seq<Entry>, e: Entry, x: Entry)
    requires a != [] && b != [] && AllAfter(KeyOf(a[0]), a[1..]) && AllAfter(KeyOf(b[0]), b[1..])
    requires KeyOf(a[0]) != KeyOf(b[0])
    requires if Less(KeyOf(a[0]), KeyOf(b[0])) then e == a[0] && (x in a[1..] || x in b)
             else e == b[0] && (x in a || x in b[1..])
    ensures Less(KeyOf(e), KeyOf(x))
  {
    assert x in a ==> x == a[0] || x in a[1..];
    assert x in b ==> x == b[0] || x in b[1..];
  }

  ghost predicate SortedChildren(children: seq<seq<Entry>>) {
    && (forall i :: 0 <= i < |children| ==> SortedTable(children[i]))
    && (forall i, k :: 0 <= i < k < |children| ==> DistinctKeys(children[i], children[k]))
  }

  /** Sorted children with pairwise distinct keys have a sorted merge. */
  lemma {:induction false} MergeExists(children: seq<seq<Entry>>) returns (merged: seq<Entry>)
    requires SortedChildren(children)
    ensures IsMerge(children, merged)
  {
    if children == [] {
      merged := [];
    } else {
      var n := |children| - 1;
      var some := MergeExists(children[..n]);
      merged := Merge2(some, children[n]);
      OneMoreChild(children, some, merged);
    }
  }

  lemma OneMoreChild(children: seq<seq<Entry>>, some: seq<Entry>, merged: seq<Entry>)
    requires children != [] && SortedChildren(children)
    requires IsMerge(children[..|children| - 1], some) && merged == Merge2(some, children[|children| - 1])
    ensures IsMerge(children, merged)
  {
    var n := |children| - 1;
    var last := children[n];
    forall x, y | x in some && y in last ensures KeyOf(x) != KeyOf(y) {
      var i := ChildOf(children[..n], some, x);
      assert DistinctKeys(children[i], children[n]);
    }
    Merge2Sorted(some, last);
    forall i, j | 0 <= i < |children| && 0 <= j < |children[i]| ensures children[i][j] in merged {
      Merge2Members(some, last, children[i][j]);
      assert i < n ==> children[..n][i] == children[i];
    }
    forall b | 0 <= b < |merged| ensures exists i :: 0 <= i < |children| && merged[b] in children[i] {
      Merge2Members(some, last, merged[b]);
      if merged[b] in some {
        var i := ChildOf(children[..n], some, merged[b]);
        assert merged[b] in children[i];
      } else {
        assert merged[b] in children[n];
      }
    }
    forall i, k, e | 0 <= i < |children| && 0 <= k < |children| && e in children[i] && e in children[k] ensures i == k {
      OnlyChild(children, i, k, e);
    }
  }

  lemma OnlyChild(children: seq<seq<Entry>>, i: nat, k: nat, e: Entry)
    requires SortedChildren(children) && i < |children| && k < |children| && e in children[i] && e in children[k]
    ensures i == k
  {
  }

  lemma ChildOf(children: seq<seq<Entry>>, merged: seq<Entry>, e: Entry) returns (i: nat)
    requires IsMerge(children, merged) && e in merged
    ensures i < |children| && e in children[i]
  {
    var b :| 0 <= b < |merged| && merged[b] == e;
    i :| 0 <= i < |children| && merged[b] in children[i];
  }

  //////////////////////////////////////////////////////////////////////////////
  // The iterator.

  class MergingIterator {
    const children: seq<seq<Entry>>
    var pos: seq<nat>
    var current: Option<nat>
    var forward: bool

    ghost const merged: seq<Entry>
    ghost const ix: seq<seq<nat>>
    ghost const own: seq<Place>
    /** Where the one cursor over `merged` stands; |merged| when it is not valid. */
    ghost var at: nat

    ghost predicate Fixed()
    {
      Matches(children, merged, ix)
        && Indexed(seq(|children|, i requires 0 <= i < |children| => |children[i]|), |merged|, ix, own)
    }

    /** The children that are not current stand after the cursor when it moves forward, and before it
        when it moves backward. */
    ghost predicate Valid()
      reads this
    {
      && Fixed() && |pos| == |ix| && (forall i :: 0 <= i < |pos| ==> pos[i] <= |ix[i]|) && at <= |merged|
      && match current
         case None => at == |merged|
         case Some(c) =>
           && At(ix, pos, c) && at < |merged| && ix[c][pos[c]] == at
           && if forward then AllFirst(ix, pos, at)
              else forall i :: 0 <= i < |ix| && i != c ==> LastBelow(ix[i], pos[i], at)
    }

    /** Over children whose keys are pairwise distinct; not valid until positioned. */
    constructor (children: seq<seq<Entry>>, ghost merged: seq<Entry>)
      requires IsMerge(children, merged)
      ensures Valid() && this.children == children && this.merged == merged && at == |merged|
    {
      this.children := children;
      pos := seq(|children|, i => 0);
      current, forward := None, true;
      this.merged, at := merged, |merged|;
      ix, own := Indices(children, merged), Places(children, merged);
      new;
      IndicesMatch(children, merged);
      PlacesMatch(children, merged);
    }

    method FindSmallest()
      requires Fixed() && |pos| == |ix| && forall i :: 0 <= i < |pos| ==> pos[i] <= |ix[i]|
      modifies this`current
      ensures current.None? ==> forall i :: !At(ix, pos, i)
      ensures current.Some? ==> At(ix, pos, current.value)
      ensures current.Some? ==> forall i :: At(ix, pos, i) ==> ix[current.value][pos[current.value]] <= ix[i][pos[i]]
    {
      var smallest: Option<nat> := None;
      for i := 0 to |children|
        invariant smallest.None? ==> forall k :: 0 <= k < i ==> !At(ix, pos, k)
        invariant smallest.Some? ==> smallest.value < i && At(ix, pos, smallest.value)
        invariant smallest.Some? ==>
          forall k :: 0 <= k < i && At(ix, pos, k) ==> ix[smallest.value][pos[smallest.value]] <= ix[k][pos[k]]
      {
        if pos[i] < |children[i]| {
          if smallest.None? {
            smallest := Some(i);
          } else {
            var s := smallest.value;
            LessIsBelow(children, merged, ix, i, pos[i], s, pos[s]);
            if Less(KeyOf(children[i][pos[i]]), KeyOf(children[s][pos[s]])) {
              smallest := Some(i);
            }
          }
        }
      }
      current := smallest;
    }

    method FindLargest()
      requires Fixed() && |pos| == |ix| && forall i :: 0 <= i < |pos| ==> pos[i] <= |ix[i]|
      modifies this`current
      ensures current.None? ==> forall i :: !At(ix, pos, i)
      ensures current.Some? ==> At(ix, pos, current.value)
      ensures current.Some? ==> forall i :: At(ix, pos, i) ==> ix[i][pos[i]] <= ix[current.value][pos[current.value]]
    {
      var largest: Option<nat> := None;
      for i := |children| downto 0
        invariant largest.None? ==> forall k :: i <= k < |ix| ==> !At(ix, pos, k)
        invariant largest.Some? ==> i <= largest.value && At(ix, pos, largest.value)
        invariant largest.Some? ==>
          forall k :: i <= k < |ix| && At(ix, pos, k) ==> ix[k][pos[k]] <= ix[largest.value][pos[largest.value]]
      {
        if pos[i] < |children[i]| {
          if largest.None? {
            largest := Some(i);
          } else {
            var s := largest.value;
            LessIsBelow(children, merged, ix, s, pos[s], i, pos[i]);
            if Less(KeyOf(children[s][pos[s]]), KeyOf(children[i][pos[i]])) {
              largest := Some(i);
            }
          }
        }
      }
      current := largest;
    }

    /** FindSmallest, when every child stands at its first entry from `b` on. */
    method SettleForward(ghost b: nat)
      requires Fixed() && AllFirst(ix, pos, b) && b <= |merged|
      modifies this`current, this`at, this`forward
      ensures Valid() && forward && at == b
    {
      FindSmallest();
      ghost var sizes := seq(|children|, i requires 0 <= i < |children| => |children[i]|);
      if current.Some? {
        SmallestIsFirst(sizes, |merged|, ix, own, pos, b, current.value);
      } else if b < |merged| {
        FirstIsValid(sizes, |merged|, ix, own, pos, b);
      }
      forward, at := true, b;
    }

    /** FindLargest, when every child stands at its last entry below `b`. */
    method SettleBackward(ghost b: nat)
      requires Fixed() && AllLast(ix, pos, b) && b <= |merged|
      modifies this`current, this`at, this`forward
      ensures Valid() && !forward && at == if b > 0 then b - 1 else |merged|
    {
      FindLargest();
      ghost var sizes := seq(|children|, i requires 0 <= i < |children| => |children[i]|);
      if current.Some? {
        LargestIsLast(sizes, |merged|, ix, own, pos, b, current.value);
      } else if b > 0 {
        LastIsValid(sizes, |merged|, ix, own, pos, b);
      }
      forward := false;
      at := if b > 0 then b - 1 else |merged|;
    }

    method SeekToFirst()
      requires Valid()
      modifies this
      ensures Valid() && at == 0
    {
      for i := 0 to |children|
        invariant |pos| == |ix| && forall k :: 0 <= k < i ==> FirstFrom(ix[k], pos[k], 0)
      {
        pos := pos[i := 0];
      }
      SettleForward(0);
    }

    method SeekToLast()
      requires Valid()
      modifies this
      ensures Valid() && at == if |merged| > 0 then |merged| - 1 else 0
    {
      for i := 0 to |children|
        invariant |pos| == |ix| && forall k :: 0 <= k < i ==> LastBelow(ix[k], pos[k], |merged|)
      {
        pos := pos[i := if |children[i]| > 0 then |children[i]| - 1 else 0];
      }
      SettleBackward(|merged|);
    }

    /** The first entry of the merge at or after `target`. */
    method Seek(target: IKey)
      requires Valid()
      modifies this
      ensures Valid() && at == SeekIndex(merged, target)
    {
      ghost var b := SeekIndex(merged, target);
      for i := 0 to |children|
        invariant |pos| == |ix| && forall k :: 0 <= k < i ==> FirstFrom(ix[k], pos[k], b)
      {
        ChildIsSorted(i);
        var p := SeekIndex(children[i], target);
        SeekIsFirst(children, merged, ix, i, p, target, b);
        pos := pos[i := p];
      }
      SettleForward(b);
    }

    lemma ChildIsSorted(i: nat)
      requires Fixed() && i < |children|
      ensures SortedTable(children[i])
    {
      var t := children[i];
      forall j, k | 0 <= j < k < |t| ensures Less(KeyOf(t[j]), KeyOf(t[k])) {
        LessIsBelow(children, merged, ix, i, j, i, k);
      }
    }

    /** Places a child that is not current just after the cursor. */
    method PositionAfter(i: nat, c: nat)
      requires Fixed() && |pos| == |ix| && At(ix, pos, c) && i < |ix| && i != c && at == ix[c][pos[c]]
      modifies this`pos
      ensures |pos| == |ix| && FirstFrom(ix[i], pos[i], at + 1) && forall k :: 0 <= k < |ix| && k != i ==>
              pos[k] == old(pos[k])
    {
      ChildIsSorted(i);
      var key := KeyOf(children[c][pos[c]]);
      var p := SeekIndex(children[i], key);
      SeekHere(i, c, p);
      if p < |children[i]| && KeyOf(children[i][p]) == key {
        LessIsBelow(children, merged, ix, i, p, c, pos[c]);
        p := p + 1;
      }
      pos := pos[i := p];
    }

    /** Seeking a child to the key of the current one. */
    lemma SeekHere(i: nat, c: nat, p: nat)
      requires Fixed() && |pos| == |ix| && At(ix, pos, c) && i < |ix| && i != c
      requires p <= |children[i]|
      requires forall j :: 0 <= j < p ==> Less(KeyOf(children[i][j]), KeyOf(children[c][pos[c]]))
      requires forall j :: p <= j < |children[i]| ==> !Less(KeyOf(children[i][j]), KeyOf(children[c][pos[c]]))
      ensures FirstFrom(ix[i], p, ix[c][pos[c]]) && FirstFrom(ix[i], p, ix[c][pos[c]] + 1)
    {
      forall j | 0 <= j < |ix[i]|
        ensures ix[i][j] < ix[c][pos[c]] <==> j < p
        ensures ix[i][j] != ix[c][pos[c]]
      {
        LessIsBelow(children, merged, ix, i, j, c, pos[c]);
        assert own[ix[i][j]] == Place(i, j) && own[ix[c][pos[c]]] == Place(c, pos[c]);
      }
    }

    /** The direction switch of Next. */
    method PositionOthersAfter(c: nat)
      requires Fixed() && |pos| == |ix| && At(ix, pos, c) && at == ix[c][pos[c]]
      modifies this`pos
      ensures |pos| == |ix| && pos[c] == old(pos[c])
      ensures forall k :: 0 <= k < |ix| && k != c ==> FirstFrom(ix[k], pos[k], at + 1)
    {
      for i := 0 to |children|
        invariant |pos| == |ix| && pos[c] == old(pos[c])
        invariant forall k :: 0 <= k < i && k != c ==> FirstFrom(ix[k], pos[k], at + 1)
      {
        if i != c {
          PositionAfter(i, c);
        }
      }
    }

    method Next()
      requires Valid() && current.Some?
      modifies this
      ensures Valid() && at == old(at) + 1
    {
      var c := current.value;
      if !forward {
        PositionOthersAfter(c);
        forward := true;
      } else {
        OthersAreAfter(c);
      }
      assert FirstFrom(ix[c], pos[c] + 1, at + 1);
      pos := pos[c := pos[c] + 1];
      SettleForward(at + 1);
    }

    /** No other child holds the current entry, so those at or after it are after it. */
    lemma OthersAreAfter(c: nat)
      requires Fixed() && At(ix, pos, c) && ix[c][pos[c]] == at && AllFirst(ix, pos, at)
      ensures forall k :: 0 <= k < |ix| && k != c ==> FirstFrom(ix[k], pos[k], at + 1)
    {
      forall k, j | 0 <= k < |ix| && k != c && 0 <= j < |ix[k]| ensures ix[k][j] != at {
        assert own[ix[k][j]] == Place(k, j) && own[at] == Place(c, pos[c]);
      }
    }

    method PositionBefore(i: nat, c: nat)
      requires Fixed() && |pos| == |ix| && At(ix, pos, c) && i < |ix| && i != c && at == ix[c][pos[c]]
      modifies this`pos
      ensures |pos| == |ix| && LastBelow(ix[i], pos[i], at) && forall k :: 0 <= k < |ix| && k != i ==>
              pos[k] == old(pos[k])
    {
      ChildIsSorted(i);
      var n := |children[i]|;
      var p := SeekIndex(children[i], KeyOf(children[c][pos[c]]));
      SeekHere(i, c, p);
      if p < n {
        p := if p > 0 then p - 1 else n;
      } else {
        p := if n > 0 then n - 1 else 0;
      }
      pos := pos[i := p];
    }

    /** The direction switch of Prev. */
    method PositionOthersBefore(c: nat)
      requires Fixed() && |pos| == |ix| && At(ix, pos, c) && at == ix[c][pos[c]]
      modifies this`pos
      ensures |pos| == |ix| && pos[c] == old(pos[c])
      ensures forall k :: 0 <= k < |ix| && k != c ==> LastBelow(ix[k], pos[k], at)
    {
      for i := 0 to |children|
        invariant |pos| == |ix| && pos[c] == old(pos[c])
        invariant forall k :: 0 <= k < i && k != c ==> LastBelow(ix[k], pos[k], at)
      {
        if i != c {
          PositionBefore(i, c);
        }
      }
    }

    method Prev()
      requires Valid() && current.Some?
      modifies this
      ensures Valid() && at == if old(at) > 0 then old(at) - 1 else |merged|
    {
      var c := current.value;
      if forward {
        PositionOthersBefore(c);
        forward := false;
      }
      assert FirstFrom(ix[c], pos[c], at);
      pos := pos[c := if pos[c] > 0 then pos[c] - 1 else |children[c]|];
      SettleBackward(at);
    }

    /** The entry under the cursor. */
    method Item() returns (e: Entry)
      requires Valid() && current.Some?
      ensures e == merged[at]
    {
      e := children[current.value][pos[current.value]];
    }
  }
}
