/** Prefix-compressed blocks (table/block_builder.cpp, table/block.cpp).

    The iterator is given the offset of the restart array, which is where the entries end; at the end of
    this module is what the offset that the source computes does instead. */
module Blocks {
  import opened DbFormat
  import opened Coding
  import opened InternalKeys

  datatype Pair = Pair(key: Bytes, value: Bytes)

  //////////////////////////////////////////////////////////////////////////////
  // One entry: three sizes, the part of the key that is not shared, and the value.

  function Head(shared: nat, nonShared: nat, valueSize: nat): Bytes {
    Varint(shared) + (Varint(nonShared) + Varint(valueSize))
  }

  function EntryBytes(p: Pair, shared: nat): Bytes
    requires shared <= |p.key|
  {
    Head(shared, |p.key| - shared, |p.value|) + (p.key[shared..] + p.value)
  }

  /** The three sizes, and the size of the head that holds them. */
  datatype Sizes = Sizes(shared: nat, nonShared: nat, valueSize: nat, head: nat)

  /** The three varints at the front of `b`. */
  function ReadSizes(b: Bytes): (r: Option<Sizes>)
    ensures r.Some? ==> r.value.head <= |b|
  {
    var s := Unvarint(b, 5);
    if s.None? then None
    else
      var b1 := b[s.value.size..];
      var n := Unvarint(b1, 5);
      if n.None? then None
      else
        var b2 := b1[n.value.size..];
        var v := Unvarint(b2, 5);
        if v.None? then None
        else Some(Sizes(s.value.value % LIMIT32, n.value.value % LIMIT32, v.value.value % LIMIT32,
                        s.value.size + n.value.size + v.value.size))
  }

  /** The test of DecodeEntry on what follows the head; both sides are 32-bit integers. */
  predicate LooksLongEnough(left: nat, nonShared: nat, valueSize: nat) {
    left % LIMIT32 >= (nonShared + valueSize) % LIMIT32
  }

  /** The entry at the front of `b`, if what follows the head looks long enough. */
  function Entry1(b: Bytes): Option<Sizes> {
    var r := ReadSizes(b);
    if |b| < 3 || r.None? || !LooksLongEnough(|b| - r.value.head, r.value.nonShared, r.value.valueSize) then None
    else r
  }

  /** In a block of less than 2^32 bytes, an accepted entry lies within the block exactly when its two
      sizes do not wrap around. */
  lemma AcceptedEntryFits(b: Bytes)
    requires |b| < LIMIT32 && Entry1(b).Some?
    ensures var e := Entry1(b).value;
            e.head + e.nonShared + e.valueSize <= |b| <==> e.nonShared + e.valueSize < LIMIT32
  {
    var e := Entry1(b).value;
    assert (|b| - e.head) % LIMIT32 == |b| - e.head;
    assert e.nonShared + e.valueSize < LIMIT32 ==> (e.nonShared + e.valueSize) % LIMIT32 == e.nonShared + e.valueSize;
  }

  /** A head without anything behind it that is accepted: the sizes add up to 2^32. */
  lemma WrappingEntryIsAccepted()
    ensures Entry1(Head(0, 0x8000_0000, 0x8000_0000)).Some?
  {
    var head := Head(0, 0x8000_0000, 0x8000_0000);
    HeadRoundTrip(0, 0x8000_0000, 0x8000_0000, []);
    HeadSize(0, 0x8000_0000, 0x8000_0000);
    assert head + [] == head;
  }

  /** When the top bits of the first three bytes are clear they are the three sizes. */
  lemma FastSizes(b: Bytes)
    requires |b| >= 3 && b[0] < 128 && b[1] < 128 && b[2] < 128
    ensures ReadSizes(b) == Some(Sizes(b[0], b[1], b[2], 3))
  {
    assert b[1..][0] == b[1] && b[1..][1..] == b[2..];
  }

  /** The or of three bytes is below 128 exactly when each of them is. */
  method DecodeEntry(b: Bytes) returns (r: Option<Sizes>)
    ensures r == Entry1(b)
  {
    if |b| < 3 {
      return None;
    }
    var sizes;
    if b[0] < 128 && b[1] < 128 && b[2] < 128 {
      FastSizes(b);
      sizes := Sizes(b[0], b[1], b[2], 3);
    } else {
      var s, b1 := GetVarint32(b);
      if s.None? { return None; }
      var n, b2 := GetVarint32(b1);
      if n.None? { return None; }
      var v, b3 := GetVarint32(b2);
      if v.None? { return None; }
      sizes := Sizes(s.value, n.value, v.value, |b| - |b3|);
    }
    if (|b| - sizes.head) % LIMIT32 < (sizes.nonShared + sizes.valueSize) % LIMIT32 {
      return None;
    }
    return Some(sizes);
  }

  lemma HeadRoundTrip(shared: nat, nonShared: nat, valueSize: nat, rest: Bytes)
    requires shared < LIMIT32 && nonShared < LIMIT32 && valueSize < LIMIT32
    ensures ReadSizes(Head(shared, nonShared, valueSize) + rest) ==
            Some(Sizes(shared, nonShared, valueSize, |Head(shared, nonShared, valueSize)|))
  {
    var s, n, v := Varint(shared), Varint(nonShared), Varint(valueSize);
    Associative(s, n + v, rest);
    Associative(n, v, rest);
    Varint32RoundTrip(shared, n + (v + rest));
    Varint32RoundTrip(nonShared, v + rest);
    Varint32RoundTrip(valueSize, rest);
    DropFront(s, n + (v + rest));
    DropFront(n, v + rest);
  }

  lemma HeadSize(shared: nat, nonShared: nat, valueSize: nat)
    ensures |Head(shared, nonShared, valueSize)| >= 3
  {
  }

  /** An entry is found at `off`, its key going on from `shared` bytes of the one before, and the next
      entry begins at `next`. */
  ghost predicate EntryAt(data: Bytes, end: nat, off: nat, p: Pair, shared: nat, next: nat) {
    && off < next <= end <= |data| && shared <= |p.key|
    && var e := Entry1(data[off..end]);
    && e.Some? && e.value.shared == shared
    && var k := off + e.value.head;
    && k + e.value.nonShared + e.value.valueSize == next
    && data[k..k + e.value.nonShared] == p.key[shared..] && data[k + e.value.nonShared..next] == p.value
  }

  predicate Fits(p: Pair) {
    |p.key| < LIMIT32 && |p.value| < LIMIT32
  }

  lemma SplitEntry(head: Bytes, key: Bytes, value: Bytes, rest: Bytes)
    ensures var b := (head + (key + value)) + rest;
            && b == head + ((key + value) + rest)
            && b[|head|..|head| + |key|] == key && b[|head| + |key|..|head| + |key| + |value|] == value
  {
  }

  /** `head` is read back as three sizes, whatever follows it. */
  ghost predicate IsHead(head: Bytes, shared: nat, nonShared: nat, valueSize: nat) {
    && |head| >= 3
    && forall rest :: ReadSizes(head + rest) == Some(Sizes(shared, nonShared, valueSize, |head|))
  }

  lemma HeadIsHead(shared: nat, nonShared: nat, valueSize: nat)
    requires shared < LIMIT32 && nonShared < LIMIT32 && valueSize < LIMIT32
    ensures IsHead(Head(shared, nonShared, valueSize), shared, nonShared, valueSize)
  {
    HeadSize(shared, nonShared, valueSize);
    forall rest ensures ReadSizes(Head(shared, nonShared, valueSize) + rest) ==
                        Some(Sizes(shared, nonShared, valueSize, |Head(shared, nonShared, valueSize)|))
    {
      HeadRoundTrip(shared, nonShared, valueSize, rest);
    }
  }

  lemma EntryWithHead(head: Bytes, key: Bytes, value: Bytes, rest: Bytes, shared: nat)
    requires IsHead(head, shared, |key|, |value|)
    ensures Entry1((head + (key + value)) + rest) ==
            if LooksLongEnough(|key| + |value| + |rest|, |key|, |value|)
            then Some(Sizes(shared, |key|, |value|, |head|)) else None
  {
    SplitEntry(head, key, value, rest);
    assert ReadSizes(head + ((key + value) + rest)) == Some(Sizes(shared, |key|, |value|, |head|));
  }

  lemma EntryRoundTrip(p: Pair, shared: nat, rest: Bytes)
    requires Fits(p) && shared <= |p.key|
    ensures var head := Head(shared, |p.key| - shared, |p.value|);
            Entry1(EntryBytes(p, shared) + rest) ==
            if LooksLongEnough(|p.key| - shared + |p.value| + |rest|, |p.key| - shared, |p.value|)
            then Some(Sizes(shared, |p.key| - shared, |p.value|, |head|)) else None
  {
    HeadIsHead(shared, |p.key| - shared, |p.value|);
    EntryWithHead(Head(shared, |p.key| - shared, |p.value|), p.key[shared..], p.value, rest, shared);
  }

  /** Bytes that were appended for an entry are found as that entry, whatever lies around them. */
  lemma WrittenEntry(data: Bytes, before: Bytes, p: Pair, shared: nat, rest: Bytes, end: nat)
    requires Fits(p) && shared <= |p.key| && end <= |data| && data[..end] == (before + EntryBytes(p, shared)) + rest
    requires end < LIMIT32
    ensures EntryAt(data, end, |before|, p, shared, |before| + |EntryBytes(p, shared)|)
  {
    HeadIsHead(shared, |p.key| - shared, |p.value|);
    WrittenBytes(data, before, EntryBytes(p, shared), rest, end);
    WrittenWithHead(data, |before|, end, Head(shared, |p.key| - shared, |p.value|), p, shared, rest);
  }

  lemma WrittenWithHead(data: Bytes, off: nat, end: nat, head: Bytes, p: Pair, shared: nat, rest: Bytes)
    requires shared <= |p.key| && off <= end <= |data| && end < LIMIT32
    requires IsHead(head, shared, |p.key| - shared, |p.value|)
    requires data[off..end] == (head + (p.key[shared..] + p.value)) + rest
    ensures EntryAt(data, end, off, p, shared, off + |head| + (|p.key| - shared) + |p.value|)
  {
    EntryWithHead(head, p.key[shared..], p.value, rest, shared);
    WrittenParts(data, off, end, head, p.key[shared..], p.value, rest);
    ShortIsLongEnough(|p.key| - shared, |p.value|, |rest|);
  }

  lemma ShortIsLongEnough(nonShared: nat, valueSize: nat, rest: nat)
    requires nonShared + valueSize + rest < LIMIT32
    ensures LooksLongEnough(nonShared + valueSize + rest, nonShared, valueSize)
  {
  }

  lemma WrittenBytes(data: Bytes, before: Bytes, e: Bytes, rest: Bytes, end: nat)
    requires end <= |data| && data[..end] == (before + e) + rest
    ensures |before| + |e| <= end && data[|before|..end] == e + rest
  {
    assert data[|before|..end] == data[..end][|before|..];
  }

  lemma WrittenParts(data: Bytes, off: nat, end: nat, head: Bytes, key: Bytes, value: Bytes, rest: Bytes)
    requires off <= end <= |data| && data[off..end] == (head + (key + value)) + rest
    ensures var k := off + |head|;
            k + |key| + |value| <= end && data[k..k + |key|] == key && data[k + |key|..k + |key| + |value|] == value
  {
    SplitEntry(head, key, value, rest);
    SliceOfSlice(data, off, end, |head|, |head| + |key|);
    SliceOfSlice(data, off, end, |head| + |key|, |head| + |key| + |value|);
  }

  lemma SliceOfSlice(data: Bytes, off: nat, end: nat, a: nat, b: nat)
    requires off <= end <= |data| && a <= b <= end - off
    ensures data[off..end][a..b] == data[off + a..off + b]
  {
    var x, y := data[off..end][a..b], data[off + a..off + b];
    assert |x| == |y| && forall i :: 0 <= i < |x| ==> x[i] == data[off + a + i] == y[i];
  }

  //////////////////////////////////////////////////////////////////////////////
  // A block.

  /** What is known of a block: its pairs, how much of each key is shared, where each entry begins, and
      which entries are restart points. */
  datatype Layout = Layout(pairs: seq<Pair>, shared: seq<nat>, offs: seq<nat>, points: seq<nat>)

  /** The key of entry `i` begins with `n` bytes of the key before it. */
  ghost predicate Shares(pairs: seq<Pair>, i: nat, n: nat)
    requires i < |pairs|
  {
    n <= |pairs[i].key| && (n > 0 ==> i > 0 && n <= |pairs[i - 1].key| && pairs[i - 1].key[..n] == pairs[i].key[..n])
  }

  ghost predicate Shaped(l: Layout) {
    && |l.shared| == |l.pairs| && |l.offs| == |l.pairs| + 1 && l.offs[0] == 0
    && (forall i {:trigger Shares(l.pairs, i, l.shared[i])} :: 0 <= i < |l.pairs| ==> Shares(l.pairs, i, l.shared[i]))
    && |l.points| > 0 && l.points[0] == 0
    && (forall j, k :: 0 <= j < k < |l.points| ==> l.points[j] < l.points[k])
    && (forall j :: 0 <= j < |l.points| ==>
       l.points[j] <= |l.pairs| && (l.points[j] < |l.pairs| ==> l.shared[l.points[j]] == 0))
    && (forall j :: 0 < j < |l.points| ==> l.points[j] < |l.pairs|)
  }

  ghost predicate Entries(data: Bytes, end: nat, l: Layout)
    requires Shaped(l)
  {
    l.offs[|l.pairs|] == end && forall i {:trigger Found(data, end, l, i)} :: 0 <= i < |l.pairs| ==>
      Found(data, end, l, i)
  }

  ghost predicate Found(data: Bytes, end: nat, l: Layout, i: nat)
    requires Shaped(l) && i < |l.pairs|
  {
    EntryAt(data, end, l.offs[i], l.pairs[i], l.shared[i], l.offs[i + 1])
  }

  lemma {:induction false} OffsetsIncrease(data: Bytes, end: nat, l: Layout, i: nat, j: nat)
    requires Shaped(l) && Entries(data, end, l) && i < j <= |l.pairs|
    ensures l.offs[i] < l.offs[j]
    decreases j
  {
    assert Found(data, end, l, j - 1);
    if i < j - 1 {
      OffsetsIncrease(data, end, l, i, j - 1);
    }
  }

  /** The restart array after the entries holds the offsets of the restart points. */
  ghost predicate RestartArray(data: Bytes, end: nat, l: Layout)
    requires Shaped(l)
  {
    && end + 4 * |l.points| <= |data|
    && forall j {:trigger l.points[j]} :: 0 <= j < |l.points| ==>
       Unfixed(data[end + 4 * j..end + 4 * j + 4]) == l.offs[l.points[j]]
  }

  ghost predicate IsBlock(data: Bytes, end: nat, l: Layout) {
    Shaped(l) && Entries(data, end, l) && RestartArray(data, end, l)
  }

  /** A block, the whole of it: behind the restart array comes the number of restart points. */
  ghost predicate IsFinishedBlock(block: Bytes, end: nat, l: Layout) {
    && IsBlock(block, end, l) && |block| == end + 4 * |l.points| + 4 && end < LIMIT32
    && |l.points| < LIMIT32 && Unfixed(block[|block| - 4..]) == |l.points|
  }

  lemma {:induction false} OffsetsReach(data: Bytes, end: nat, l: Layout, i: nat)
    requires Shaped(l) && Entries(data, end, l) && i <= |l.pairs|
    ensures i <= l.offs[i]
  {
    if i > 0 {
      OffsetsReach(data, end, l, i - 1);
      OffsetsIncrease(data, end, l, i - 1, i);
    }
  }

  lemma {:induction false} PointsReach(l: Layout, j: nat)
    requires Shaped(l) && j < |l.points|
    ensures j <= l.points[j]
  {
    if j > 0 {
      PointsReach(l, j - 1);
    }
  }

  /** There are fewer restart points than bytes of entries, but for the one of an empty block. */
  lemma PointsFit(data: Bytes, end: nat, l: Layout)
    requires Shaped(l) && Entries(data, end, l) && end < LIMIT32
    ensures |l.points| < LIMIT32
  {
    OffsetsReach(data, end, l, |l.pairs|);
    PointsReach(l, |l.points| - 1);
  }

  //////////////////////////////////////////////////////////////////////////////
  // Building.

  /** The buffer is the entries of `l`, one after the other. */
  ghost predicate Wrote(buffer: Bytes, l: Layout)
    requires Shaped(l)
  {
    l.offs[|l.pairs|] == |buffer| && forall i {:trigger WroteAt(buffer, l, i)} :: 0 <= i < |l.pairs| ==>
      WroteAt(buffer, l, i)
  }

  ghost predicate WroteAt(buffer: Bytes, l: Layout, i: nat)
    requires Shaped(l) && i < |l.pairs|
  {
    WroteEntry(buffer, l.offs[i], l.pairs[i], l.shared[i], l.offs[i + 1])
  }

  ghost predicate WroteEntry(buffer: Bytes, off: nat, p: Pair, shared: nat, next: nat) {
    && Fits(p) && shared <= |p.key| && off <= next <= |buffer|
    && buffer[off..next] == EntryBytes(p, shared)
  }

  lemma WroteIsFound(data: Bytes, buffer: Bytes, off: nat, p: Pair, shared: nat, next: nat)
    requires WroteEntry(buffer, off, p, shared, next) && buffer <= data && |buffer| < LIMIT32
    ensures EntryAt(data, |buffer|, off, p, shared, next)
  {
    var before, rest := buffer[..off], buffer[next..];
    assert buffer == (before + buffer[off..next]) + rest;
    assert data[..|buffer|] == buffer;
    WrittenEntry(data, before, p, shared, rest, |buffer|);
  }

  function Extended(l: Layout, p: Pair, shared: nat, next: nat, restart: bool): Layout {
    Layout(l.pairs + [p], l.shared + [shared], l.offs + [next], if restart then l.points + [|l.pairs|] else l.points)
  }

  lemma ExtendedShaped(l: Layout, p: Pair, shared: nat, next: nat, restart: bool)
    requires Shaped(l) && Shares(l.pairs + [p], |l.pairs|, shared)
    requires restart ==> shared == 0 && l.points[|l.points| - 1] < |l.pairs|
    requires |l.pairs| == 0 ==> shared == 0
    ensures Shaped(Extended(l, p, shared, next, restart))
  {
    var l' := Extended(l, p, shared, next, restart);
    forall i | 0 <= i < |l'.pairs| ensures Shares(l'.pairs, i, l'.shared[i]) {
      assert i < |l.pairs| ==> Shares(l.pairs, i, l.shared[i]);
    }
  }

  lemma ExtendedWrote(buffer: Bytes, l: Layout, p: Pair, shared: nat, restart: bool, more: Bytes)
    requires Shaped(l) && Wrote(buffer, l) && Fits(p) && shared <= |p.key| && more == EntryBytes(p, shared)
    requires Shaped(Extended(l, p, shared, |buffer| + |more|, restart))
    ensures Wrote(buffer + more, Extended(l, p, shared, |buffer| + |more|, restart))
  {
    var l', buffer' := Extended(l, p, shared, |buffer| + |more|, restart), buffer + more;
    forall i | 0 <= i < |l'.pairs| ensures WroteAt(buffer', l', i) {
      if i < |l.pairs| {
        assert WroteAt(buffer, l, i);
        assert buffer'[l.offs[i]..l.offs[i + 1]] == buffer[l.offs[i]..l.offs[i + 1]];
      } else {
        assert buffer'[|buffer|..] == more;
      }
    }
  }

  /** The first `n` bytes are all that the two have in common. */
  predicate IsCommonPrefix(a: Bytes, b: Bytes, n: nat) {
    n <= |a| && n <= |b| && a[..n] == b[..n] && (n < |a| && n < |b| ==> a[n] != b[n])
  }

  /** How many bytes two keys have in common at the front. */
  method CommonPrefix(a: Bytes, b: Bytes) returns (n: nat)
    ensures IsCommonPrefix(a, b, n)
  {
    n := 0;
    while n < |a| && n < |b| && a[n] == b[n]
      invariant n <= |a| && n <= |b| && a[..n] == b[..n]
    {
      assert a[..n + 1] == a[..n] + [a[n]] && b[..n + 1] == b[..n] + [b[n]];
      n := n + 1;
    }
  }

  /** There are `counter` entries from the last restart point on, never more than `interval`. */
  ghost predicate Spaced(l: Layout, counter: nat, interval: nat)
    requires Shaped(l)
  {
    counter == |l.pairs| - l.points[|l.points| - 1] <= interval
  }

  ghost predicate Offsets(restarts: seq<nat>, l: Layout)
    requires Shaped(l)
  {
    |restarts| == |l.points| && forall j :: 0 <= j < |restarts| ==> restarts[j] == l.offs[l.points[j]]
  }

  function LastKey(pairs: seq<Pair>): Bytes {
    if pairs == [] then [] else pairs[|pairs| - 1].key
  }

  lemma ExtendedSpaced(l: Layout, counter: nat, interval: nat, p: Pair, shared: nat, next: nat, restart: bool)
    requires interval >= 1 && Shaped(l) && Spaced(l, counter, interval) && restart == (counter >= interval)
    requires Shaped(Extended(l, p, shared, next, restart))
    ensures Spaced(Extended(l, p, shared, next, restart), if restart then 1 else counter + 1, interval)
  {
  }

  lemma ExtendedOffsets(restarts: seq<nat>, l: Layout, p: Pair, shared: nat, next: nat, restart: bool)
    requires Shaped(l) && Offsets(restarts, l) && Shaped(Extended(l, p, shared, next, restart))
    ensures Offsets(if restart then restarts + [l.offs[|l.pairs|]] else restarts, Extended(l, p, shared, next, restart))
  {
  }

  lemma AddedEntry(l: Layout, buffer: Bytes, restarts: seq<nat>, counter: nat, interval: nat, p: Pair, shared: nat,
                   more: Bytes, restart: bool)
    requires interval >= 1 && Shaped(l) && Wrote(buffer, l) && Spaced(l, counter, interval) && Offsets(restarts, l)
    requires Fits(p) && shared <= |p.key| && more == EntryBytes(p, shared) && restart == (counter >= interval)
    requires shared <= |LastKey(l.pairs)| && LastKey(l.pairs)[..shared] == p.key[..shared] && (restart ==> shared == 0)
    ensures var l' := Extended(l, p, shared, |buffer| + |more|, restart);
            && Shaped(l') && Wrote(buffer + more, l') && Spaced(l', if restart then 1 else counter + 1, interval)
            && Offsets(if restart then restarts + [|buffer|] else restarts, l')
  {
    var next := |buffer| + |more|;
    assert Shares(l.pairs + [p], |l.pairs|, shared);
    ExtendedShaped(l, p, shared, next, restart);
    ExtendedWrote(buffer, l, p, shared, restart, more);
    ExtendedSpaced(l, counter, interval, p, shared, next, restart);
    ExtendedOffsets(restarts, l, p, shared, next, restart);
  }

  lemma CountAtEnd(block: Bytes, n: nat)
    requires n < LIMIT32
    ensures var b := block + Fixed(n, 4); Unfixed(b[|b| - 4..]) == n
  {
    Powers();
    UnfixedFixed(n, 4);
    DropFront(block, Fixed(n, 4));
  }

  lemma FinishedBlock(buffer: Bytes, l: Layout, restarts: seq<nat>, count: Bytes, block: Bytes)
    requires Shaped(l) && Wrote(buffer, l) && Offsets(restarts, l) && |buffer| < LIMIT32
    requires block == (buffer + Quads(FixedParts(restarts))) + count
    ensures IsBlock(block, |buffer|, l)
  {
    assert buffer <= block;
    forall i | 0 <= i < |l.pairs| ensures Found(block, |buffer|, l, i) {
      assert WroteAt(buffer, l, i);
      WroteIsFound(block, buffer, l.offs[i], l.pairs[i], l.shared[i], l.offs[i + 1]);
    }
    forall j | 0 <= j < |l.points|
      ensures Unfixed(block[|buffer| + 4 * j..|buffer| + 4 * j + 4]) == l.offs[l.points[j]]
    {
      assert l.points[j] < |l.pairs| ==> WroteAt(buffer, l, l.points[j]);
      FixedInBlock(buffer, restarts, count, block, j);
    }
  }

  lemma FinishedWhole(block: Bytes, end: nat, l: Layout)
    requires IsBlock(block, end, l) && end < LIMIT32 && |block| == end + 4 * |l.points| + 4
    requires Unfixed(block[|block| - 4..]) == |l.points| % LIMIT32
    ensures IsFinishedBlock(block, end, l)
  {
    PointsFit(block, end, l);
  }

  class BlockBuilder {
    const interval: nat
    var buffer: Bytes
    var restarts: seq<nat>
    var counter: nat
    var lastKey: Bytes
    ghost var layout: Layout

    ghost predicate Valid()
      reads this
    {
      && interval >= 1 && Shaped(layout) && Wrote(buffer, layout)
      && Spaced(layout, counter, interval) && Offsets(restarts, layout)
      && lastKey == LastKey(layout.pairs)
    }

    constructor (interval: nat)
      requires interval >= 1
      ensures Valid() && this.interval == interval && layout.pairs == []
    {
      this.interval := interval;
      buffer, restarts, counter, lastKey := [], [0], 0, [];
      layout := Layout([], [], [0], [0]);
    }

    method Add(key: Bytes, value: Bytes)
      requires Valid() && |key| < LIMIT32 && |value| < LIMIT32
      modifies this
      ensures Valid() && layout.pairs == old(layout.pairs) + [Pair(key, value)]
      ensures layout.points == if old(counter) < interval then old(layout.points)
              else old(layout.points) + [|old(layout.pairs)|]
      ensures old(counter) < interval ==> IsCommonPrefix(old(lastKey), key, layout.shared[|old(layout.pairs)|])
    {
      var shared := 0;
      var restart := counter >= interval;
      if !restart {
        shared := CommonPrefix(lastKey, key);
      }
      Append(key, value, shared, restart);
    }

    method Append(key: Bytes, value: Bytes, shared: nat, restart: bool)
      requires Valid() && shared <= |key| < LIMIT32 && |value| < LIMIT32 && restart == (counter >= interval)
      requires shared <= |lastKey| && lastKey[..shared] == key[..shared] && (restart ==> shared == 0)
      modifies this
      ensures Valid() && layout.pairs == old(layout.pairs) + [Pair(key, value)]
      ensures layout.points == if restart then old(layout.points) + [|old(layout.pairs)|] else old(layout.points)
      ensures layout.shared[|old(layout.pairs)|] == shared
    {
      var more := PutEntry(key, value, shared);
      layout := Extended(layout, Pair(key, value), shared, |buffer| + |more|, restart);
      if restart {
        restarts := restarts + [|buffer|];
        counter := 0;
      }
      buffer := buffer + more;
      lastKey := lastKey[..shared] + key[shared..];
      counter := counter + 1;
      AddedEntry(old(layout), old(buffer), old(restarts), old(counter), interval, Pair(key, value), shared, more,
        restart);
      assert lastKey == key by { assert key == key[..shared] + key[shared..]; }
    }

    /** The finished block: the entries, the restart array and its size. */
    method Finish() returns (block: Bytes)
      requires Valid() && |buffer| < LIMIT32
      ensures IsFinishedBlock(block, |buffer|, layout)
    {
      block := buffer;
      ghost var parts := FixedParts(restarts);
      for i := 0 to |restarts|
        invariant block == buffer + Quads(parts[..i])
      {
        OneMoreQuad(buffer, parts, i);
        block := block + Fixed(restarts[i], 4);
      }
      assert parts[..|restarts|] == parts;
      var count := Fixed(|restarts| % LIMIT32, 4);
      CountAtEnd(block, |restarts| % LIMIT32);
      block := block + count;
      FinishedBlock(buffer, layout, restarts, count, block);
      FinishedWhole(block, |buffer|, layout);
    }

    static method PutEntry(key: Bytes, value: Bytes, shared: nat) returns (r: Bytes)
      requires shared <= |key| < LIMIT32 && |value| < LIMIT32
      ensures r == EntryBytes(Pair(key, value), shared)
    {
      var s := EncodeVarint32(shared);
      var n := EncodeVarint32(|key| - shared);
      var v := EncodeVarint32(|value|);
      r := (s + (n + v)) + (key[shared..] + value);
    }
  }

  //////////////////////////////////////////////////////////////////////////////
  // Iterating.

  lemma OffsetOrder(data: Bytes, end: nat, l: Layout, i: nat, j: nat)
    requires Shaped(l) && Entries(data, end, l) && i <= |l.pairs| && j <= |l.pairs|
    ensures l.offs[i] < l.offs[j] <==> i < j
  {
    if i < j {
      OffsetsIncrease(data, end, l, i, j);
    } else if j < i {
      OffsetsIncrease(data, end, l, j, i);
    }
  }

  class Iter {
    const data: Bytes
    const end: nat
    const num: nat
    var current: nat
    var restartIndex: nat
    var key: Bytes
    var valueAt: nat
    var valueSize: nat
    ghost const layout: Layout
    /** The entry the iterator stands at, or the number of entries when it is not valid. */
    ghost var at: nat

    ghost predicate Fixed()
    {
      IsBlock(data, end, layout) && num == |layout.points|
    }

    /** The last entry parsed is entry `i`. */
    ghost predicate Standing(i: nat)
      reads this
      requires Fixed() && i < |layout.pairs|
    {
      && current == layout.offs[i] && key == layout.pairs[i].key && Ready(i + 1)
      && valueAt + valueSize <= |data| && data[valueAt..valueAt + valueSize] == layout.pairs[i].value
      && layout.points[restartIndex] <= i
    }

    /** Entry `i` is the next to be parsed. */
    ghost predicate Ready(i: nat)
      reads this
      requires Fixed() && i <= |layout.pairs|
    {
      && valueAt + valueSize == layout.offs[i] && restartIndex < num && layout.points[restartIndex] <= i
      && (i < |layout.pairs| ==>
          && layout.shared[i] <= |key| && layout.shared[i] <= |layout.pairs[i].key|
          && key[..layout.shared[i]] == layout.pairs[i].key[..layout.shared[i]])
    }

    ghost predicate Valid()
      reads this
    {
      && Fixed() && at <= |layout.pairs| && (current < end <==> at < |layout.pairs|)
      && (at < |layout.pairs| ==> Standing(at))
    }

    constructor (data: Bytes, end: nat, num: nat, ghost layout: Layout)
      requires IsBlock(data, end, layout) && num == |layout.points|
      ensures Valid() && this.layout == layout && at == |layout.pairs|
    {
      this.data, this.end, this.num, this.layout := data, end, num, layout;
      current, restartIndex, key, valueAt, valueSize, at := end, num, [], 0, 0, |layout.pairs|;
    }

    method GetRestartPoint(i: nat) returns (off: nat)
      requires Fixed() && i < num
      ensures off == layout.offs[layout.points[i]]
    {
      off := Unfixed(data[end + 4 * i..end + 4 * i + 4]);
    }

    method SeekToRestartPoint(i: nat)
      requires Fixed() && i < num
      modifies this
      ensures Ready(layout.points[i]) && restartIndex == i
    {
      key := [];
      restartIndex := i;
      valueAt := GetRestartPoint(i);
      valueSize := 0;
      assert layout.points[i] <= |layout.pairs|;
    }

    /** Parses the next entry; false at the end of the entries. */
    method ParseNextKey(ghost i: nat) returns (ok: bool)
      requires Fixed() && i <= |layout.pairs| && Ready(i)
      modifies this
      ensures Valid() && at == i && ok == (i < |layout.pairs|)
    {
      current := valueAt + valueSize;
      at := i;
      OffsetOrder(data, end, layout, i, |layout.pairs|);
      if current >= end {
        current, restartIndex := end, num;
        return false;
      }
      ParseEntry(i);
      return true;
    }

    /** Takes key and value from the entry at the current offset. */
    method ParseEntry(ghost i: nat)
      requires Fixed() && i < |layout.pairs| && current == layout.offs[i] && Ready(i)
      modifies this`key, this`valueAt, this`valueSize, this`restartIndex
      ensures Standing(i)
    {
      assert Found(data, end, layout, i);
      var e := DecodeEntry(data[current..end]);
      assert e.Some? && e.value.shared <= |key|;
      var p := current + e.value.head;
      TakeKey(e.value.shared, p, e.value.nonShared, i);
      valueAt, valueSize := p + e.value.nonShared, e.value.valueSize;
      AdvanceRestart(i);
      SharesNext(layout, i);
    }

    /** Rebuilds the key from its shared part and the bytes that follow. */
    method TakeKey(shared: nat, p: nat, n: nat, ghost i: nat)
      requires Fixed() && i < |layout.pairs| && shared == layout.shared[i] <= |layout.pairs[i].key|
      requires shared <= |key| && key[..shared] == layout.pairs[i].key[..shared]
      requires p + n <= |data| && data[p..p + n] == layout.pairs[i].key[shared..]
      modifies this`key
      ensures key == layout.pairs[i].key
    {
      key := key[..shared] + data[p..p + n];
    }

    method SeekToFirst()
      requires Valid()
      modifies this
      ensures Valid() && at == 0
    {
      SeekToRestartPoint(0);
      var _ := ParseNextKey(0);
    }

    method SeekToLast()
      requires Valid()
      modifies this
      ensures Valid() && at == if |layout.pairs| > 0 then |layout.pairs| - 1 else 0
    {
      SeekToRestartPoint(num - 1);
      var _ := ParseUpTo(layout.points[num - 1], |layout.pairs|, end);
    }

    method Next()
      requires Valid() && at < |layout.pairs|
      modifies this
      ensures Valid() && at == old(at) + 1
    {
      var _ := ParseNextKey(at + 1);
    }

    /** Parses from entry `i` on, until the next entry would begin at or after `limit`, where entry `n`
        begins. */
    method ParseUpTo(ghost i: nat, ghost n: nat, limit: nat) returns (ok: bool)
      requires Fixed() && i <= n <= |layout.pairs| && Ready(i) && limit == layout.offs[n]
      requires i == n ==> n == |layout.pairs|
      modifies this
      ensures Valid() && at == if i < n then n - 1 else n
    {
      ghost var k := i;
      ok := ParseNextKey(k);
      while ok && valueAt + valueSize < limit
        invariant Valid() && at == k && i <= k <= n && (k == n ==> i == n) && ok == (k < |layout.pairs|)
        decreases n - k
      {
        OffsetOrder(data, end, layout, k + 1, n);
        k := k + 1;
        ok := ParseNextKey(k);
      }
      if ok {
        OffsetOrder(data, end, layout, k + 1, n);
      }
    }

    /** Goes back to the last restart point before the current entry and parses up to it. */
    method Prev()
      requires Valid() && at < |layout.pairs|
      modifies this
      ensures Valid() && at == if old(at) > 0 then old(at) - 1 else |layout.pairs|
    {
      var original := current;
      ghost var i := at;
      var point := GetRestartPoint(restartIndex);
      while point >= original
        invariant Fixed() && restartIndex < num && point == layout.offs[layout.points[restartIndex]]
        invariant at == i && current == original
        decreases restartIndex
      {
        OffsetOrder(data, end, layout, layout.points[restartIndex], i);
        if restartIndex == 0 {
          current, restartIndex, at := end, num, |layout.pairs|;
          return;
        }
        restartIndex := restartIndex - 1;
        point := GetRestartPoint(restartIndex);
      }
      OffsetOrder(data, end, layout, layout.points[restartIndex], i);
      SeekToRestartPoint(restartIndex);
      var _ := ParseUpTo(layout.points[restartIndex], i, original);
    }

    /** The binary search of Seek: the last restart point with a key before the target, or the first one. */
    method FindRestart(compare: (Bytes, Bytes) -> int, ghost rank: Bytes -> UserKey, target: Bytes) returns (left: nat)
      requires Fixed() && Ranks(compare, rank) && Ascends(rank, layout.pairs)
      ensures left < num && (left > 0 ==> RestartBefore(rank, layout, left, target))
      ensures forall j :: left < j < num ==> !RestartBefore(rank, layout, j, target)
    {
      var right := num - 1;
      left := 0;
      while left < right
        invariant left <= right < num && (left > 0 ==> RestartBefore(rank, layout, left, target))
        invariant forall j :: right < j < num ==> !RestartBefore(rank, layout, j, target)
      {
        var mid := (left + right + 1) / 2;
        var region := GetRestartPoint(mid);
        assert layout.points[mid] < |layout.pairs|;
        assert Found(data, end, layout, layout.points[mid]);
        var e := DecodeEntry(data[region..end]);
        var at := region + e.value.head;
        var key := data[at..at + e.value.nonShared];
        assert key == layout.pairs[layout.points[mid]].key;
        if compare(key, target) < 0 {
          left := mid;
        } else {
          RestartsAscend(rank, layout, mid, target);
          right := mid - 1;
        }
      }
    }

    /** Seek: the result of the binary search is not used, and the linear search goes on from the entry
        after the one the iterator stands at. */
    method Seek(compare: (Bytes, Bytes) -> int, ghost rank: Bytes -> UserKey, target: Bytes)
      requires Valid() && at < |layout.pairs| && Ranks(compare, rank) && Ascends(rank, layout.pairs)
      modifies this
      ensures Valid() && at == FirstFrom(rank, layout.pairs, old(at) + 1, target)
    {
      var _ := FindRestart(compare, rank, target);
      ghost var from := at + 1;
      ghost var i := from;
      var ok := ParseNextKey(i);
      while ok && compare(key, target) < 0
        invariant Valid() && at == i && from <= i <= |layout.pairs| && ok == (i < |layout.pairs|)
        invariant FirstFrom(rank, layout.pairs, from, target) == FirstFrom(rank, layout.pairs, i, target)
        decreases |layout.pairs| - i
      {
        i := i + 1;
        ok := ParseNextKey(i);
      }
    }

    /** The pair the iterator stands at. */
    method Item() returns (p: Pair)
      requires Valid() && at < |layout.pairs|
      ensures p == layout.pairs[at]
    {
      p := Pair(key, data[valueAt..valueAt + valueSize]);
    }

    method AdvanceRestart(ghost i: nat)
      requires Fixed() && i < |layout.pairs| && current == layout.offs[i]
      requires restartIndex < num && layout.points[restartIndex] <= i
      modifies this`restartIndex
      ensures restartIndex < num && layout.points[restartIndex] <= i
    {
      while restartIndex + 1 < num
        invariant restartIndex < num && layout.points[restartIndex] <= i
        decreases num - restartIndex
      {
        var next := GetRestartPoint(restartIndex + 1);
        OffsetOrder(data, end, layout, layout.points[restartIndex + 1], i);
        if next >= current {
          return;
        }
        restartIndex := restartIndex + 1;
      }
    }
  }

  ghost predicate Ascends(rank: Bytes -> UserKey, pairs: seq<Pair>) {
    forall i, j :: 0 <= i < j < |pairs| ==> rank(pairs[i].key) < rank(pairs[j].key)
  }

  /** The first pair from `i` on at or after the target. */
  ghost function FirstFrom(rank: Bytes -> UserKey, pairs: seq<Pair>, i: nat, target: Bytes): nat
    requires i <= |pairs|
    decreases |pairs| - i
  {
    if i == |pairs| || rank(pairs[i].key) >= rank(target) then i else FirstFrom(rank, pairs, i + 1, target)
  }

  lemma {:induction false} FirstFromIs(rank: Bytes -> UserKey, pairs: seq<Pair>, i: nat, target: Bytes)
    requires i <= |pairs|
    ensures var n := FirstFrom(rank, pairs, i, target);
            && i <= n <= |pairs| && (n < |pairs| ==> rank(pairs[n].key) >= rank(target))
            && forall j :: i <= j < n ==> rank(pairs[j].key) < rank(target)
    decreases |pairs| - i
  {
    if i < |pairs| && rank(pairs[i].key) < rank(target) {
      FirstFromIs(rank, pairs, i + 1, target);
    }
  }

  /** Seek finds the first pair of the block at or after the target if and only if the one it stood at
      comes before the target. */
  lemma SeekIsRight(rank: Bytes -> UserKey, pairs: seq<Pair>, at: nat, target: Bytes)
    requires at < |pairs| && Ascends(rank, pairs)
    ensures FirstFrom(rank, pairs, at + 1, target) == FirstFrom(rank, pairs, 0, target) <==>
            rank(pairs[at].key) < rank(target)
  {
    FirstFromIs(rank, pairs, at + 1, target);
    FirstFromIs(rank, pairs, 0, target);
    if rank(pairs[at].key) < rank(target) {
      FirstFromUnique(rank, pairs, target, FirstFrom(rank, pairs, at + 1, target));
    }
  }

  lemma FirstFromUnique(rank: Bytes -> UserKey, pairs: seq<Pair>, target: Bytes, n: nat)
    requires n <= |pairs| && (n < |pairs| ==> rank(pairs[n].key) >= rank(target))
    requires forall j :: 0 <= j < n ==> rank(pairs[j].key) < rank(target)
    ensures FirstFrom(rank, pairs, 0, target) == n
  {
    FirstFromIs(rank, pairs, 0, target);
  }

  /** The key of a restart point comes before the target. */
  ghost predicate RestartBefore(rank: Bytes -> UserKey, l: Layout, j: nat, target: Bytes) {
    j < |l.points| && l.points[j] < |l.pairs| && rank(l.pairs[l.points[j]].key) < rank(target)
  }

  lemma RestartsAscend(rank: Bytes -> UserKey, l: Layout, mid: nat, target: Bytes)
    requires Shaped(l) && Ascends(rank, l.pairs) && mid < |l.points| && l.points[mid] < |l.pairs|
    requires rank(l.pairs[l.points[mid]].key) >= rank(target)
    ensures forall j :: mid <= j < |l.points| ==> !RestartBefore(rank, l, j, target)
  {
  }

  lemma SharesNext(l: Layout, i: nat)
    requires Shaped(l) && i < |l.pairs|
    ensures i + 1 < |l.pairs| ==>
      && l.shared[i + 1] <= |l.pairs[i].key| && l.shared[i + 1] <= |l.pairs[i + 1].key|
      && l.pairs[i].key[..l.shared[i + 1]] == l.pairs[i + 1].key[..l.shared[i + 1]]
  {
    if i + 1 < |l.pairs| {
      assert Shares(l.pairs, i + 1, l.shared[i + 1]);
    }
  }

  //////////////////////////////////////////////////////////////////////////////
  // Whole blocks.

  /** Builds a block out of pairs; its offsets must fit in 32 bits. */
  method Build(pairs: seq<Pair>, interval: nat) returns (block: Bytes, size: nat, ghost l: Layout)
    requires interval >= 1 && forall p :: p in pairs ==> Fits(p)
    ensures size < LIMIT32 ==> IsFinishedBlock(block, size, l) && l.pairs == pairs
  {
    var builder := new BlockBuilder(interval);
    for i := 0 to |pairs|
      invariant fresh(builder) && builder.Valid() && builder.layout.pairs == pairs[..i]
    {
      assert Fits(pairs[i]);
      builder.Add(pairs[i].key, pairs[i].value);
      assert pairs[..i] + [pairs[i]] == pairs[..i + 1];
    }
    assert pairs[..|pairs|] == pairs;
    size, block, l := |builder.buffer|, [], builder.layout;
    if size < LIMIT32 {
      block := builder.Finish();
    }
  }

  /** Whatever was added is read back from the bytes in either direction, by an iterator that begins where
      the restart array was meant to be found. */
  method BuildAndRead(pairs: seq<Pair>, interval: nat) returns (size: nat, forward: seq<Pair>, backward: seq<Pair>)
    requires interval >= 1 && forall p :: p in pairs ==> Fits(p)
    ensures size < LIMIT32 ==> forward == pairs && backward == pairs
  {
    var block;
    ghost var l;
    block, size, l := Build(pairs, interval);
    forward, backward := [], [];
    if size < LIMIT32 {
      var num, end := NumRestarts(block), IntendedOffset(block);
      forward := ReadForward(block, end, num, l);
      backward := ReadBackward(block, end, num, l);
    }
  }

  /** SeekToFirst and Next until the end read the pairs of a block in order. */
  method ReadForward(block: Bytes, end: nat, num: nat, ghost l: Layout) returns (pairs: seq<Pair>)
    requires IsBlock(block, end, l) && num == |l.points|
    ensures pairs == l.pairs
  {
    var it := new Iter(block, end, num, l);
    it.SeekToFirst();
    pairs := [];
    while it.current < end
      invariant fresh(it) && it.Valid() && it.layout == l && it.end == end && pairs == l.pairs[..it.at]
      decreases |l.pairs| - it.at
    {
      var p := it.Item();
      pairs := pairs + [p];
      it.Next();
    }
  }

  /** SeekToLast and Prev until the end read them backward. */
  method ReadBackward(block: Bytes, end: nat, num: nat, ghost l: Layout) returns (pairs: seq<Pair>)
    requires IsBlock(block, end, l) && num == |l.points|
    ensures pairs == l.pairs
  {
    var it := new Iter(block, end, num, l);
    it.SeekToLast();
    pairs := [];
    ghost var n: nat := |l.pairs|;
    while it.current < end
      invariant fresh(it) && it.Valid() && it.layout == l && it.end == end && n <= |l.pairs|
      invariant pairs == l.pairs[n..] && it.at == if n > 0 then n - 1 else |l.pairs|
      decreases n
    {
      var p := it.Item();
      pairs := [p] + pairs;
      n := it.at;
      assert pairs == l.pairs[n..];
      it.Prev();
    }
    assert l.pairs[0..] == l.pairs;
  }

  //////////////////////////////////////////////////////////////////////////////
  // Where the iterator of the source begins.

  function NumRestarts(block: Bytes): nat
    requires |block| >= 4
  {
    Unfixed(block[|block| - 4..])
  }

  /** Where the restart array begins. */
  function IntendedOffset(block: Bytes): int
    requires |block| >= 4
  {
    |block| - (1 + NumRestarts(block)) * 4
  }

  /** The 32-bit offset that the constructor of Block computes. */
  function RestartOffset(block: Bytes): nat
    requires |block| >= 4
  {
    (|block| - (1 + NumRestarts(block) * 4)) % LIMIT32
  }

  /** The offset at which SeekToFirst starts parsing in the source. */
  function FirstOffset(block: Bytes): nat
    requires |block| >= 4 && RestartOffset(block) + 4 <= |block|
  {
    Unfixed(block[RestartOffset(block)..RestartOffset(block) + 4])
  }

  /** Every finished block is read three bytes beyond its entries. */
  lemma OffsetIsThreeOff(block: Bytes, end: nat, l: Layout)
    requires IsFinishedBlock(block, end, l) && end + 3 < LIMIT32
    ensures NumRestarts(block) == |l.points| && IntendedOffset(block) == end
    ensures RestartOffset(block) == end + 3 && RestartOffset(block) + 4 <= |block|
  {
    assert (end + 3) % LIMIT32 == end + 3;
  }

  /** The four-byte integer that starts one byte before another one, after a zero byte. */
  lemma ShiftedWord(b: Bytes)
    requires |b| == 5 && b[0] == 0
    ensures Unfixed(b[..4]) == 256 * (Unfixed(b[1..]) % 0x100_0000)
  {
    var low := b[1..4];
    assert b[..4] == [0] + low && [0] + low != [] && ([0] + low)[1..] == low;
    TopByte(b[1..]);
    assert b[1..][..3] == low;
  }

  lemma TopByte(b: Bytes)
    requires |b| == 4
    ensures Unfixed(b[..3]) == Unfixed(b) % 0x100_0000
  {
    FixedUnfixed(b[..3]);
    assert Power(256, 3) == 0x100_0000 by { assert Power(256, 1) == 256; assert Power(256, 2) == 0x1_0000; }
    var x, y, z, w: nat := b[0], b[1], b[2], b[3];
    assert b[..3][1..] == [y, z] && [y, z][1..] == [z] && [z][1..] == [];
    assert Unfixed([z]) == z && Unfixed([y, z]) == y + 256 * z && Unfixed(b[..3]) == x + 256 * (y + 256 * z);
    assert b[1..] == [y, z, w] && [y, z, w][1..] == [z, w] && [z, w][1..] == [w] && [w][1..] == [];
    assert Unfixed([w]) == w && Unfixed([z, w]) == z + 256 * w && Unfixed([y, z, w]) == y + 256 * (z + 256 * w);
    assert Unfixed(b) == Unfixed(b[..3]) + 0x100_0000 * w;
  }

  /** The word behind the first entry of the restart array: the second restart point or the count. */
  ghost function SecondWord(l: Layout): nat
    requires Shaped(l)
  {
    if |l.points| >= 2 then l.offs[l.points[1]] else 1
  }

  /** What the source takes for the first restart point of a finished block. */
  lemma FirstOffsetIs(block: Bytes, end: nat, l: Layout)
    requires IsFinishedBlock(block, end, l) && end + 3 < LIMIT32
    ensures RestartOffset(block) + 4 <= |block| && FirstOffset(block) == 256 * (SecondWord(l) % 0x100_0000)
  {
    OffsetIsThreeOff(block, end, l);
    assert l.points[0] == 0;
    ZeroWord(block[end..end + 4]);
    var b := block[end + 3..end + 8];
    assert b[0] == block[end..end + 4][3] && b[..4] == block[end + 3..end + 7];
    assert b[1..] == block[end + 4..end + 8];
    if |l.points| >= 2 {
      assert l.points[1] == l.points[1];
    } else {
      assert block[end + 4..end + 8] == block[|block| - 4..];
    }
    ShiftedWord(b);
  }

  lemma ZeroWord(b: Bytes)
    requires |b| == 4 && Unfixed(b) == 0
    ensures b[3] == 0
  {
    FixedUnfixed(b);
    assert Fixed(0, 4) == [0, 0, 0, 0];
  }

  /** Exactly when SeekToFirst of the source starts at the first entry: when there is a second restart
      point and its offset is a multiple of 2^24. */
  lemma SeekToFirstStartsRight(block: Bytes, end: nat, l: Layout)
    requires IsFinishedBlock(block, end, l) && end + 3 < LIMIT32
    ensures RestartOffset(block) + 4 <= |block|
    ensures FirstOffset(block) == l.offs[0] <==> |l.points| >= 2 && l.offs[l.points[1]] % 0x100_0000 == 0
  {
    FirstOffsetIs(block, end, l);
  }

  const OnePair := Layout([Pair([1], [2])], [0], [0, 5], [0])

  /** The thirteen bytes of a block that holds the key 1 with the value 2. */
  predicate IsOnePair(b: Bytes) {
    && |b| == 13 && b[0] == 0 && b[1] == 1 && b[2] == 1 && b[3] == 1 && b[4] == 2
    && b[5] == b[6] == b[7] == b[8] == 0 && b[9] == 1 && b[10] == b[11] == b[12] == 0
  }

  lemma OnePairIsShaped()
    ensures Shaped(OnePair)
  {
    assert Shares(OnePair.pairs, 0, 0);
  }

  lemma OnePairIsFound(b: Bytes)
    requires IsOnePair(b)
    ensures EntryAt(b, 5, 0, Pair([1], [2]), 0, 5)
  {
    FastSizes(b[0..5]);
    assert b[3..4] == [1] && [1][0..] == [1] && b[4..5] == [2];
  }

  lemma OnePairIsFinished(b: Bytes)
    requires IsOnePair(b)
    ensures IsFinishedBlock(b, 5, OnePair)
  {
    OnePairIsShaped();
    OnePairIsFound(b);
    assert Entries(b, 5, OnePair);
    SmallWord(b[5..9]);
    SmallWord(b[9..]);
    assert b[|b| - 4..] == b[9..];
    assert b[5 + 4 * 0..5 + 4 * 0 + 4] == b[5..9];
  }

  lemma SmallWord(b: Bytes)
    requires |b| == 4 && b[1] == b[2] == b[3] == 0
    ensures Unfixed(b) == b[0]
  {
    TopByte(b);
    var c := b[1..];
    assert Unfixed(b) == b[0] + 256 * Unfixed(c);
    assert c[1..][1..][1..] == [];
    assert Unfixed(c[1..][1..]) == 0;
    assert Unfixed(c[1..]) == 0;
  }

  /** A block of one pair, for which SeekToFirst of the source starts beyond the end of the block. */
  lemma OnePairStartsWrong(b: Bytes)
    requires IsOnePair(b)
    ensures IsFinishedBlock(b, 5, OnePair) && RestartOffset(b) == 8 && FirstOffset(b) == 256 > |b|
  {
    OnePairIsFinished(b);
    OffsetIsThreeOff(b, 5, OnePair);
    FirstOffsetIs(b, 5, OnePair);
  }

  /** With the offset of the source, the bytes behind the last entry are read as one more, empty one. */
  lemma PhantomEntry(block: Bytes, end: nat, l: Layout)
    requires IsFinishedBlock(block, end, l) && end + 3 < LIMIT32
    ensures Entry1(block[end..RestartOffset(block)]) == Some(Sizes(0, 0, 0, 3))
  {
    OffsetIsThreeOff(block, end, l);
    assert l.points[0] == 0;
    var b := block[end..end + 4];
    FixedUnfixed(b);
    assert Fixed(0, 4) == [0, 0, 0, 0];
    FastSizes(block[end..end + 3]);
  }
}
