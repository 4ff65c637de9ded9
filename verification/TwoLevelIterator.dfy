/** TwoLevelIterator (table/two_level_iterator.cpp): an index of blocks behind one cursor.

    An index entry has a separator key and a handle; the block function maps a handle to a sorted
    block.  A position at the end of the index or of a block means that it is not valid. */
module TwoLevel {
  import opened DbFormat
  import opened Versions

  datatype IndexEntry = IndexEntry(separator: IKey, handle: Bytes)

  type BlockFunction = Bytes -> seq<Entry>

  /** The index and its blocks are in order: separators ascend, and each lies at or after the entries
      of its own block and before those of later blocks.  Blocks may be empty. */
  ghost predicate InOrder(index: seq<IndexEntry>, blocks: BlockFunction) {
    && (forall i, k :: 0 <= i < k < |index| ==> Less(index[i].separator, index[k].separator))
    && (forall i :: 0 <= i < |index| ==> SortedTable(blocks(index[i].handle)))
    && (forall i, j :: 0 <= i < |index| && 0 <= j < |blocks(index[i].handle)| ==>
          !Less(index[i].separator, KeyOf(blocks(index[i].handle)[j])))
    && (forall i, k, j :: 0 <= i < k < |index| && 0 <= j < |blocks(index[k].handle)| ==>
          Less(index[i].separator, KeyOf(blocks(index[k].handle)[j])))
  }

  /** The entries of the first `n` blocks, one block after the other. */
  function Flat(index: seq<IndexEntry>, blocks: BlockFunction, n: nat): seq<Entry>
    requires n <= |index|
  {
    if n == 0 then [] else Flat(index, blocks, n - 1) + blocks(index[n - 1].handle)
  }

  function Start(index: seq<IndexEntry>, blocks: BlockFunction, i: nat): nat
    requires i <= |index|
  {
    |Flat(index, blocks, i)|
  }

  lemma {:induction false} FlatPrefix(index: seq<IndexEntry>, blocks: BlockFunction, i: nat, n: nat)
    requires i <= n <= |index|
    ensures Flat(index, blocks, i) <= Flat(index, blocks, n)
    decreases n
  {
    if i < n {
      FlatPrefix(index, blocks, i, n - 1);
    }
  }

  /** Entry j of block i is entry Start(i) + j of the concatenation. */
  lemma FlatAt(index: seq<IndexEntry>, blocks: BlockFunction, i: nat, j: nat)
    requires i < |index| && j < |blocks(index[i].handle)|
    ensures Start(index, blocks, i) + j < Start(index, blocks, i + 1) <= Start(index, blocks, |index|)
    ensures Flat(index, blocks, |index|)[Start(index, blocks, i) + j] == blocks(index[i].handle)[j]
  {
    FlatPrefix(index, blocks, i + 1, |index|);
    assert Flat(index, blocks, i + 1)[Start(index, blocks, i) + j] == blocks(index[i].handle)[j];
  }

  /** Entries of the concatenation before block i are at or before the separators before it. */
  lemma {:induction false} FlatBelow(index: seq<IndexEntry>, blocks: BlockFunction, n: nat, m: nat) returns (i: nat)
    requires InOrder(index, blocks) && n <= |index| && m < Start(index, blocks, n)
    ensures i < n && Start(index, blocks, i) <= m < Start(index, blocks, i + 1)
    ensures Flat(index, blocks, n)[m] == blocks(index[i].handle)[m - Start(index, blocks, i)]
    decreases n
  {
    if m < Start(index, blocks, n - 1) {
      i := FlatBelow(index, blocks, n - 1, m);
    } else {
      i := n - 1;
    }
  }

  lemma FlatSorted(index: seq<IndexEntry>, blocks: BlockFunction)
    requires InOrder(index, blocks)
    ensures SortedTable(Flat(index, blocks, |index|))
  {
    var all := Flat(index, blocks, |index|);
    forall a, b | 0 <= a < b < |all| ensures Less(KeyOf(all[a]), KeyOf(all[b])) {
      var i := FlatBelow(index, blocks, |index|, a);
      var k := FlatBelow(index, blocks, |index|, b);
      BlocksOrdered(index, blocks, i, a - Start(index, blocks, i), k, b - Start(index, blocks, k));
    }
  }

  lemma BlocksOrdered(index: seq<IndexEntry>, blocks: BlockFunction, i: nat, j: nat, k: nat, l: nat)
    requires InOrder(index, blocks) && i < |index| && k < |index|
    requires j < |blocks(index[i].handle)| && l < |blocks(index[k].handle)|
    requires Start(index, blocks, i) + j < Start(index, blocks, k) + l
    ensures Less(KeyOf(blocks(index[i].handle)[j]), KeyOf(blocks(index[k].handle)[l]))
  {
    if i == k {
      assert SortedTable(blocks(index[i].handle));
    } else {
      assert i < k by {
        if k < i {
          FlatPrefix(index, blocks, k + 1, i);
          FlatAt(index, blocks, k, l);
        }
      }
      assert !Less(index[i].separator, KeyOf(blocks(index[i].handle)[j]));
      assert Less(index[i].separator, KeyOf(blocks(index[k].handle)[l]));
    }
  }

  /** The first separator at or after `target`, as the index iterator seeks it. */
  function SeekSeparator(index: seq<IndexEntry>, target: IKey): (i: nat)
    ensures i <= |index|
    ensures forall k :: 0 <= k < i ==> Less(index[k].separator, target)
    ensures i < |index| ==> !Less(index[i].separator, target)
  {
    if index == [] || !Less(index[0].separator, target) then 0 else 1 + SeekSeparator(index[1..], target)
  }

  /** An entry at or after `target` cannot lie before the block whose separator is sought. */
  lemma SeekSide(index: seq<IndexEntry>, blocks: BlockFunction, target: IKey, i: nat, k: nat, j: nat)
    requires InOrder(index, blocks) && i < |index| && i == SeekSeparator(index, target)
    requires k < |index| && j < |blocks(index[k].handle)|
    ensures k < i ==> Less(KeyOf(blocks(index[k].handle)[j]), target)
    ensures k == i ==> (Less(KeyOf(blocks(index[k].handle)[j]), target) <==>
            j < SeekIndex(blocks(index[i].handle), target))
    ensures k > i ==> !Less(KeyOf(blocks(index[k].handle)[j]), target)
  {
    if k < i {
      assert !Less(index[k].separator, KeyOf(blocks(index[k].handle)[j]));
    } else if k > i {
      assert Less(index[i].separator, KeyOf(blocks(index[k].handle)[j]));
    }
  }

  lemma SeekBlock(index: seq<IndexEntry>, blocks: BlockFunction, target: IKey, i: nat, p: nat)
    requires InOrder(index, blocks) && i < |index| && i == SeekSeparator(index, target)
    requires p == SeekIndex(blocks(index[i].handle), target)
    ensures SortedTable(Flat(index, blocks, |index|))
    ensures SeekIndex(Flat(index, blocks, |index|), target) == Start(index, blocks, i) + p
  {
    FlatSorted(index, blocks);
    var all := Flat(index, blocks, |index|);
    var at := Start(index, blocks, i) + p;
    FlatPrefix(index, blocks, i + 1, |index|);
    forall m | 0 <= m < |all| ensures Less(KeyOf(all[m]), target) <==> m < at {
      var k := FlatBelow(index, blocks, |index|, m);
      SeekSide(index, blocks, target, i, k, m - Start(index, blocks, k));
      StartsAscend(index, blocks, i, k);
    }
    SeekIsUnique(all, target, at);
  }

  lemma StartsAscend(index: seq<IndexEntry>, blocks: BlockFunction, i: nat, k: nat)
    requires i < |index| && k < |index|
    ensures i < k ==> Start(index, blocks, i + 1) <= Start(index, blocks, k)
    ensures k < i ==> Start(index, blocks, k + 1) <= Start(index, blocks, i)
  {
    if i < k {
      FlatPrefix(index, blocks, i + 1, k);
    } else if k < i {
      FlatPrefix(index, blocks, k + 1, i);
    }
  }

  lemma SeekIsUnique(t: seq<Entry>, target: IKey, at: nat)
    requires SortedTable(t) && at <= |t| && forall m :: 0 <= m < |t| ==> (Less(KeyOf(t[m]), target) <==> m < at)
    ensures SeekIndex(t, target) == at
  {
    var i := SeekIndex(t, target);
    assert i < |t| ==> !Less(KeyOf(t[i]), target);
    assert at < |t| ==> !Less(KeyOf(t[at]), target);
  }

  lemma SeekPastEnd(index: seq<IndexEntry>, blocks: BlockFunction, target: IKey)
    requires InOrder(index, blocks) && SeekSeparator(index, target) == |index|
    ensures SortedTable(Flat(index, blocks, |index|))
    ensures SeekIndex(Flat(index, blocks, |index|), target) == Start(index, blocks, |index|)
  {
    FlatSorted(index, blocks);
    var all := Flat(index, blocks, |index|);
    forall m | 0 <= m < |all| ensures Less(KeyOf(all[m]), target) {
      var k := FlatBelow(index, blocks, |index|, m);
      assert !Less(index[k].separator, KeyOf(blocks(index[k].handle)[m - Start(index, blocks, k)]));
    }
    SeekIsUnique(all, target, |all|);
  }

  /** A data iterator: a block and a position in it. */
  datatype Cursor = Cursor(block: seq<Entry>, pos: nat)

  class TwoLevelIterator {
    const index: seq<IndexEntry>
    const blocks: BlockFunction
    var ipos: nat
    var data: Option<Cursor>
    var handle: Bytes
    /** Where the one cursor over the concatenation stands; its size when it is not valid. */
    ghost var at: nat

    ghost function All(): seq<Entry> {
      Flat(index, blocks, |index|)
    }

    /** The data iterator, if there is one, is over the block of the handle it was made for. */
    ghost predicate Cached()
      reads this
    {
      && InOrder(index, blocks) && ipos <= |index|
      && (data.Some? ==> data.value.block == blocks(handle) && data.value.pos <= |data.value.block|)
    }

    /** The data iterator is over the block that the index stands at. */
    ghost predicate Synced()
      reads this
    {
      Cached() && (data.Some? <==> ipos < |index|) && (data.Some? ==> handle == index[ipos].handle)
    }

    ghost predicate Valid()
      reads this
    {
      && Cached()
      && match data
         case None => at == |All()|
         case Some(c) => Synced() && c.pos < |c.block| && at == Start(index, blocks, ipos) + c.pos
    }

    constructor (index: seq<IndexEntry>, blocks: BlockFunction)
      requires InOrder(index, blocks)
      ensures Valid() && this.index == index && this.blocks == blocks && at == |All()|
    {
      this.index, this.blocks := index, blocks;
      ipos, data, handle := |index|, None, [];
      at := |Flat(index, blocks, |index|)|;
    }

    method InitDataBlock()
      requires Cached()
      modifies this`data, this`handle
      ensures Synced()
    {
      if ipos == |index| {
        data := None;
      } else {
        var h := index[ipos].handle;
        if data.Some? && h == handle {
        } else {
          data := Some(Cursor(blocks(h), 0));
          handle := h;
        }
      }
    }

    /** Standing at entry `t` of the concatenation, which is at the end of a block when the data
        iterator is. */
    ghost predicate FromHere(t: nat)
      reads this
    {
      Synced() && t == Start(index, blocks, ipos) + if data.Some? then data.value.pos else 0
    }

    method SkipEmptyDataBlocksForward(ghost t: nat)
      requires FromHere(t)
      modifies this`ipos, this`data, this`handle, this`at
      ensures Valid() && at == t
    {
      while data.None? || data.value.pos == |data.value.block|
        invariant FromHere(t)
        decreases |index| - ipos
      {
        if ipos == |index| {
          data := None;
          at := t;
          return;
        }
        ipos := ipos + 1;
        InitDataBlock();
        if data.Some? {
          data := Some(data.value.(pos := 0));
        }
      }
      at := t;
    }

    /** Standing before the entries from `t` on: at the one before it, or, when the data iterator is
        not valid, in front of its block. */
    ghost predicate UpToHere(t: nat)
      reads this
    {
      && Synced()
      && match data
         case None => t == 0
         case Some(c) => t == Start(index, blocks, ipos) + if c.pos < |c.block| then c.pos + 1 else 0
    }

    method SkipEmptyDataBlocksBackward(ghost t: nat)
      requires UpToHere(t)
      modifies this`ipos, this`data, this`handle, this`at
      ensures Valid() && at == if t > 0 then t - 1 else |All()|
    {
      while data.None? || data.value.pos == |data.value.block|
        invariant UpToHere(t)
        decreases data.Some?, ipos
      {
        if ipos == |index| {
          data := None;
          at := |All()|;
          return;
        }
        ipos := if ipos > 0 then ipos - 1 else |index|;
        InitDataBlock();
        if data.Some? {
          var n := |data.value.block|;
          data := Some(data.value.(pos := if n > 0 then n - 1 else 0));
        }
      }
      at := t - 1;
    }

    method SeekToFirst()
      requires Valid()
      modifies this
      ensures Valid() && at == 0
    {
      ipos := 0;
      InitDataBlock();
      if data.Some? {
        data := Some(data.value.(pos := 0));
      }
      SkipEmptyDataBlocksForward(0);
    }

    method SeekToLast()
      requires Valid()
      modifies this
      ensures Valid() && at == if |All()| > 0 then |All()| - 1 else 0
    {
      ipos := if |index| > 0 then |index| - 1 else 0;
      InitDataBlock();
      if data.Some? {
        var n := |data.value.block|;
        data := Some(data.value.(pos := if n > 0 then n - 1 else 0));
      }
      SkipEmptyDataBlocksBackward(|All()|);
    }

    /** The first entry of the concatenation at or after `target`. */
    method Seek(target: IKey)
      requires Valid()
      modifies this
      ensures SortedTable(All()) && Valid() && at == SeekIndex(All(), target)
    {
      ipos := SeekSeparator(index, target);
      InitDataBlock();
      FlatSorted(index, blocks);
      if data.Some? {
        var p := SeekIndex(data.value.block, target);
        SeekBlock(index, blocks, target, ipos, p);
        data := Some(data.value.(pos := p));
      } else {
        SeekPastEnd(index, blocks, target);
      }
      SkipEmptyDataBlocksForward(SeekIndex(All(), target));
    }

    method Next()
      requires Valid() && data.Some?
      modifies this
      ensures Valid() && at == old(at) + 1
    {
      data := Some(data.value.(pos := data.value.pos + 1));
      SkipEmptyDataBlocksForward(at + 1);
    }

    method Prev()
      requires Valid() && data.Some?
      modifies this
      ensures Valid() && at == if old(at) > 0 then old(at) - 1 else |All()|
    {
      var c := data.value;
      data := Some(c.(pos := if c.pos > 0 then c.pos - 1 else |c.block|));
      SkipEmptyDataBlocksBackward(at);
    }

    method Item() returns (e: Entry)
      requires Valid() && data.Some?
      ensures at < |All()| && e == All()[at]
    {
      e := data.value.block[data.value.pos];
      FlatAt(index, blocks, ipos, data.value.pos);
    }
  }
}
