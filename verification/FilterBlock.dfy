/** Filter blocks (table/filter_block.cpp): one filter for every 2 KB of a table's blocks. */
module FilterBlocks {
  import opened DbFormat
  import opened Coding
  import opened Bloom

  const BASE_LG: Byte := 11
  const BASE: nat := 2048

  /** A key, and the offset of the block it was added for. */
  datatype Added = Added(offset: nat, key: Bytes)

  /** Filter `i` of a builder: the part of the result between two offsets. */
  ghost function FilterAt(result: Bytes, offsets: seq<nat>, i: nat): Bytes
    requires i < |offsets|
  {
    var next := if i + 1 < |offsets| then offsets[i + 1] else |result|;
    if offsets[i] <= next <= |result| then result[offsets[i]..next] else []
  }

  ghost predicate Ascending(result: Bytes, offsets: seq<nat>) {
    && (forall i, j :: 0 <= i <= j < |offsets| ==> offsets[i] <= offsets[j])
    && (forall i :: 0 <= i < |offsets| ==> offsets[i] <= |result|)
  }

  /** Every filter made so far matches the keys it was made for. */
  ghost predicate Covers(hash: Hash, result: Bytes, offsets: seq<nat>, covered: seq<seq<Bytes>>) {
    && Ascending(result, offsets) && |covered| == |offsets|
    && forall i, key :: 0 <= i < |covered| && key in covered[i] ==> MayMatch(hash, key, FilterAt(result, offsets, i))
  }

  /** Every key added is in the filter of its block, or waits for the filter that comes next. */
  ghost predicate Accounted(added: seq<Added>, covered: seq<seq<Bytes>>, pending: seq<Bytes>) {
    forall x :: x in added ==>
      || (x.offset / BASE < |covered| && x.key in covered[x.offset / BASE])
      || (x.offset / BASE == |covered| && x.key in pending)
  }

  lemma OneMoreFilter(hash: Hash, result: Bytes, offsets: seq<nat>, covered: seq<seq<Bytes>>, result': Bytes,
                      keys: seq<Bytes>)
    requires Covers(hash, result, offsets, covered) && result <= result'
    requires forall key :: key in keys ==> MayMatch(hash, key, result'[|result|..])
    ensures Covers(hash, result', offsets + [|result|], covered + [keys])
  {
    var offsets', covered' := offsets + [|result|], covered + [keys];
    forall i, key | 0 <= i < |covered'| && key in covered'[i]
      ensures MayMatch(hash, key, FilterAt(result', offsets', i))
    {
      if i < |covered| {
        assert FilterAt(result', offsets', i) == FilterAt(result, offsets, i);
      } else {
        assert FilterAt(result', offsets', i) == result'[|result|..];
      }
    }
  }

  lemma NowCovered(added: seq<Added>, covered: seq<seq<Bytes>>, pending: seq<Bytes>)
    requires Accounted(added, covered, pending)
    ensures Accounted(added, covered + [pending], [])
  {
  }

  //////////////////////////////////////////////////////////////////////////////
  // Keys are kept end to end, with the position where each begins.

  /** Where key `i` ends. */
  ghost function EndOf(keys: Bytes, start: seq<nat>, i: nat): nat {
    if i + 1 < |start| then start[i + 1] else |keys|
  }

  /** The bytes of the keys `pending` lie end to end in `keys`, beginning at `start`. */
  ghost predicate HoldsKeys(keys: Bytes, start: seq<nat>, pending: seq<Bytes>) {
    |start| == |pending| && forall i {:trigger pending[i]} :: 0 <= i < |start| ==>
      IsSlice(keys, start[i], EndOf(keys, start, i), pending[i])
  }

  ghost predicate IsSlice(keys: Bytes, from: nat, end: nat, key: Bytes) {
    from <= end <= |keys| && key == keys[from..end]
  }

  lemma HoldsOneMore(keys: Bytes, start: seq<nat>, pending: seq<Bytes>, key: Bytes)
    requires HoldsKeys(keys, start, pending)
    ensures HoldsKeys(keys + key, start + [|keys|], pending + [key])
  {
    var keys', start', pending' := keys + key, start + [|keys|], pending + [key];
    forall i {:trigger pending'[i]} | 0 <= i < |start'|
      ensures IsSlice(keys', start'[i], EndOf(keys', start', i), pending'[i])
    {
      if i < |start| {
        var end := EndOf(keys, start, i);
        assert IsSlice(keys, start[i], end, pending[i]);
        assert EndOf(keys', start', i) == end;
        assert keys'[start[i]..end] == keys[start[i]..end];
      } else {
        assert keys'[|keys|..] == key;
      }
    }
  }

  class FilterBlockBuilder {
    const hash: Hash
    const bitsPerKey: nat
    const k: nat
    var keys: Bytes
    var start: seq<nat>
    var result: Bytes
    var offsets: seq<nat>
    ghost var covered: seq<seq<Bytes>>
    ghost var pending: seq<Bytes>
    ghost var added: seq<Added>

    ghost predicate Valid()
      reads this
    {
      && 1 <= k <= 30 && HoldsKeys(keys, start, pending)
      && Covers(hash, result, offsets, covered) && Accounted(added, covered, pending)
    }

    constructor (hash: Hash, bitsPerKey: nat, k: nat)
      requires 1 <= k <= 30
      ensures Valid() && added == [] && offsets == [] && this.hash == hash
    {
      this.hash, this.bitsPerKey, this.k := hash, bitsPerKey, k;
      keys, start, result, offsets := [], [], [], [];
      covered, pending, added := [], [], [];
    }

    method GenerateFilter()
      requires Valid()
      modifies this
      ensures Valid() && |offsets| == |old(offsets)| + 1 && start == [] && added == old(added)
    {
      NowCovered(added, covered, pending);
      if |start| == 0 {
        OneMoreFilter(hash, result, offsets, covered, result, pending);
        offsets := offsets + [|result|];
      } else {
        var tmpKeys := SliceKeys();
        var more := CreateFilter(hash, bitsPerKey, k, tmpKeys, result);
        OneMoreFilter(hash, result, offsets, covered, more, pending);
        offsets := offsets + [|result|];
        result, keys, start := more, [], [];
      }
      covered, pending := covered + [pending], [];
    }

    /** The keys that wait, cut out of the bytes they are kept in. */
    method SliceKeys() returns (tmpKeys: seq<Bytes>)
      requires HoldsKeys(keys, start, pending)
      ensures tmpKeys == pending
    {
      tmpKeys := [];
      var starts := start + [|keys|];
      for i := 0 to |start|
        invariant tmpKeys == pending[..i]
      {
        assert starts[i + 1] == EndOf(keys, start, i) && IsSlice(keys, start[i], starts[i + 1], pending[i]);
        tmpKeys := tmpKeys + [keys[starts[i]..starts[i + 1]]];
      }
    }

    /** Keys added from here on belong to the block at `offset`. */
    method StartBlock(offset: nat)
      requires Valid() && |offsets| <= offset / BASE
      modifies this
      ensures Valid() && |offsets| == offset / BASE && added == old(added)
    {
      var index := offset / BASE;
      while index > |offsets|
        invariant Valid() && |offsets| <= index && added == old(added)
        decreases index - |offsets|
      {
        GenerateFilter();
      }
    }

    method AddKey(key: Bytes, ghost offset: nat)
      requires Valid() && |offsets| == offset / BASE
      modifies this
      ensures Valid() && offsets == old(offsets) && added == old(added) + [Added(offset, key)]
    {
      HoldsOneMore(keys, start, pending, key);
      start := start + [|keys|];
      keys := keys + key;
      pending := pending + [key];
      added := added + [Added(offset, key)];
    }

    /** The filters, the array of their offsets, where that array begins, and the encoding parameter. */
    method Finish() returns (contents: Bytes)
      requires Valid()
      modifies this
      ensures Covers(hash, result, offsets, covered) && Accounted(added, covered, []) && added == old(added)
      ensures contents == ((result + Quads(FixedParts(offsets + [|result|]))) + [BASE_LG])
    {
      if start != [] {
        GenerateFilter();
      }
      contents := PutOffsets(result, offsets);
      contents := contents + [BASE_LG];
    }

    static method PutOffsets(result: Bytes, offsets: seq<nat>) returns (contents: Bytes)
      ensures contents == result + Quads(FixedParts(offsets + [|result|]))
    {
      contents := result;
      ghost var parts := FixedParts(offsets + [|result|]);
      for i := 0 to |offsets|
        invariant contents == result + Quads(parts[..i])
      {
        OneMoreQuad(result, parts, i);
        contents := contents + Fixed(offsets[i], 4);
      }
      OneMoreQuad(result, parts, |offsets|);
      assert parts[..|offsets| + 1] == parts;
      contents := contents + Fixed(|result|, 4);
    }
  }

  //////////////////////////////////////////////////////////////////////////////
  // Reading.

  function ShiftRight(x: nat, n: nat): nat
    decreases n
  {
    if n == 0 then x else ShiftRight(x / 2, n - 1)
  }

  /** The fixed-width integer at a position. */
  function Word(data: Bytes, at: nat): nat
    requires at + 4 <= |data|
  {
    Unfixed(data[at..at + 4])
  }

  /** What a reader makes of a block's contents: where the offsets begin, how many there are, and the
      encoding parameter. */
  datatype Shape = Shape(offset: nat, num: nat, baseLg: nat)

  function ShapeOf(contents: Bytes): (r: Shape)
    ensures r.num > 0 ==> r.offset + 4 * r.num + 5 <= |contents|
  {
    var n := |contents|;
    if n < 5 then Shape(0, 0, 0)
    else
      var word := Word(contents, n - 5);
      if word > n - 5 then Shape(0, 0, contents[n - 1])
      else Shape(word, (n - 5 - word) / 4, contents[n - 1])
  }

  /** The answer of filter `index`; there is no telling without one. */
  ghost predicate Answers(hash: Hash, key: Bytes, data: Bytes, shape: Shape, index: nat)
    requires shape.num > 0 ==> shape.offset + 4 * shape.num + 5 <= |data|
  {
    index < shape.num ==>
      var start, limit := Word(data, shape.offset + 4 * index), Word(data, shape.offset + 4 * index + 4);
      if start <= limit <= shape.offset then MayMatch(hash, key, data[start..limit]) else start != limit
  }

  class FilterBlockReader {
    const hash: Hash
    const data: Bytes
    var shape: Shape

    ghost predicate Valid()
      reads this
    {
      shape == ShapeOf(data)
    }

    constructor (hash: Hash, contents: Bytes)
      ensures Valid() && this.hash == hash && data == contents
    {
      this.hash, data, shape := hash, contents, Shape(0, 0, 0);
      var n := |contents|;
      if n >= 5 {
        var word := Unfixed(contents[n - 5..n - 5 + 4]);
        shape := if word > n - 5 then Shape(0, 0, contents[n - 1])
          else Shape(word, (n - 5 - word) / 4, contents[n - 1]);
      }
    }

    method KeyMayMatch(blockOffset: nat, key: Bytes) returns (may: bool)
      requires Valid()
      ensures may == Answers(hash, key, data, shape, ShiftRight(blockOffset, shape.baseLg))
    {
      var index := ShiftRight(blockOffset, shape.baseLg);
      if index < shape.num {
        var start := Word(data, shape.offset + 4 * index);
        var limit := Word(data, shape.offset + 4 * index + 4);
        if start <= limit <= shape.offset {
          may := Bloom.KeyMayMatch(hash, key, data[start..limit]);
          return;
        } else if start == limit {
          return false;
        }
      }
      return true;
    }
  }

  //////////////////////////////////////////////////////////////////////////////
  // No false negatives.

  lemma ShiftIsDivision(x: nat)
    ensures ShiftRight(x, BASE_LG) == x / BASE
  {
    assert x / 2 / 2 / 2 / 2 == x / 16;
    assert x / 16 / 2 / 2 / 2 / 2 == x / 256;
    assert x / 256 / 2 / 2 / 2 == x / 2048;
  }

  /** The contents that Finish makes of some filters. */
  ghost predicate IsFinished(result: Bytes, offsets: seq<nat>, contents: Bytes) {
    contents == (result + Quads(FixedParts(offsets + [|result|]))) + [BASE_LG] && |result| < LIMIT32
  }

  lemma FinishedWord(result: Bytes, offsets: seq<nat>, contents: Bytes, i: nat, at: nat) returns (word: nat)
    requires IsFinished(result, offsets, contents) && Ascending(result, offsets) && i <= |offsets|
             && at == |result| + 4 * i
    ensures at + 4 <= |contents| && word == Word(contents, at) && word == if i < |offsets| then offsets[i] else |result|
  {
    var all := offsets + [|result|];
    FixedInBlock(result, all, [BASE_LG], contents, i);
    word := all[i];
  }

  lemma FinishedParts(result: Bytes, offsets: seq<nat>, contents: Bytes)
    requires IsFinished(result, offsets, contents)
    ensures |contents| == |result| + 4 * |offsets| + 5 && result <= contents && contents[|contents| - 1] == BASE_LG
  {
    var words := Quads(FixedParts(offsets + [|result|]));
    assert |words| == 4 * (|offsets| + 1);
  }

  /** What a reader finds in the finished contents: the filters, and behind them their offsets. */
  ghost predicate Readable(result: Bytes, offsets: seq<nat>, contents: Bytes) {
    && |contents| == |result| + 4 * |offsets| + 5 && result <= contents && contents[|contents| - 1] == BASE_LG
    && forall i :: 0 <= i <= |offsets| ==>
         OffsetWord(contents, |result|, i) == if i < |offsets| then offsets[i] else |result|
  }

  function OffsetWord(contents: Bytes, base: nat, i: nat): nat {
    if base + 4 * i + 4 <= |contents| then Word(contents, base + 4 * i) else 0
  }

  lemma FinishedIsReadable(result: Bytes, offsets: seq<nat>, contents: Bytes)
    requires IsFinished(result, offsets, contents) && Ascending(result, offsets)
    ensures Readable(result, offsets, contents)
  {
    FinishedParts(result, offsets, contents);
    forall i | 0 <= i <= |offsets|
      ensures OffsetWord(contents, |result|, i) == if i < |offsets| then offsets[i] else |result|
    {
      var word := FinishedWord(result, offsets, contents, i, |result| + 4 * i);
    }
  }

  lemma FinishedShape(result: Bytes, offsets: seq<nat>, contents: Bytes)
    requires Readable(result, offsets, contents)
    ensures ShapeOf(contents) == Shape(|result|, |offsets|, BASE_LG)
  {
    assert OffsetWord(contents, |result|, |offsets|) == |result|;
    ShapeFrom(contents, |result|, |offsets|);
  }

  lemma ShapeFrom(contents: Bytes, word: nat, num: nat)
    requires |contents| == word + 4 * num + 5 && word == Word(contents, |contents| - 5)
    ensures ShapeOf(contents) == Shape(word, num, contents[|contents| - 1])
  {
  }

  lemma AnswersFrom(hash: Hash, key: Bytes, data: Bytes, shape: Shape, i: nat, start: nat, limit: nat)
    requires i < shape.num && shape.offset + 4 * shape.num + 5 <= |data| && start <= limit <= shape.offset
    requires start == Word(data, shape.offset + 4 * i) && limit == Word(data, shape.offset + 4 * i + 4)
    requires MayMatch(hash, key, data[start..limit])
    ensures Answers(hash, key, data, shape, i)
  {
  }

  lemma PrefixSlice(a: Bytes, b: Bytes, x: nat, y: nat)
    requires a <= b && x <= y <= |a|
    ensures b[x..y] == a[x..y]
  {
  }

  /** The slice a reader cuts out for filter `i` is that filter. */
  lemma FinishedFilter(hash: Hash, result: Bytes, offsets: seq<nat>, contents: Bytes, i: nat, key: Bytes)
    requires Readable(result, offsets, contents) && Ascending(result, offsets) && i < |offsets|
    requires MayMatch(hash, key, FilterAt(result, offsets, i))
    ensures |result| + 4 * |offsets| + 5 <= |contents|
    ensures Answers(hash, key, contents, Shape(|result|, |offsets|, BASE_LG), i)
  {
    var start, limit := OffsetWord(contents, |result|, i), OffsetWord(contents, |result|, i + 1);
    PrefixSlice(result, contents, start, limit);
    AnswersFrom(hash, key, contents, Shape(|result|, |offsets|, BASE_LG), i, start, limit);
  }

  /** A key is never denied by the filter block of a table it was added to. */
  lemma NoFalseNegatives(hash: Hash, result: Bytes, offsets: seq<nat>, covered: seq<seq<Bytes>>, added: seq<Added>,
                         contents: Bytes, x: Added)
    requires Covers(hash, result, offsets, covered) && Accounted(added, covered, [])
             && IsFinished(result, offsets, contents)
    requires x in added
    ensures var shape := ShapeOf(contents); Answers(hash, x.key, contents, shape, ShiftRight(x.offset, shape.baseLg))
  {
    FinishedIsReadable(result, offsets, contents);
    FinishedShape(result, offsets, contents);
    ShiftIsDivision(x.offset);
    FinishedFilter(hash, result, offsets, contents, x.offset / BASE, x.key);
  }

  /** The keys of one data block. */
  datatype BlockKeys = BlockKeys(offset: nat, keys: seq<Bytes>)

  /** Whatever blocks a table has, at offsets that do not decrease, its filter block says of every key
      that it may be in its block. */
  method AskAfterBuilding(hash: Hash, bitsPerKey: nat, k: nat, blocks: seq<BlockKeys>, n: nat, key: Bytes)
    returns (may: bool, size: nat)
    requires 1 <= k <= 30 && n < |blocks| && key in blocks[n].keys
    requires forall i, j :: 0 <= i < j < |blocks| ==> blocks[i].offset <= blocks[j].offset
    ensures size < LIMIT32 ==> may
  {
    var builder := new FilterBlockBuilder(hash, bitsPerKey, k);
    for i := 0 to |blocks|
      invariant fresh(builder) && builder.Valid() && builder.hash == hash
      invariant |builder.offsets| <= if i > 0 then blocks[i - 1].offset / BASE else 0
      invariant n < i ==> Added(blocks[n].offset, key) in builder.added
    {
      builder.StartBlock(blocks[i].offset);
      AddKeys(builder, blocks[i]);
    }
    var contents := builder.Finish();
    size := |builder.result|;
    var reader := new FilterBlockReader(hash, contents);
    may := reader.KeyMayMatch(blocks[n].offset, key);
    if size < LIMIT32 {
      NoFalseNegatives(hash, builder.result, builder.offsets, builder.covered, builder.added, contents,
        Added(blocks[n].offset, key));
    }
  }

  method AddKeys(builder: FilterBlockBuilder, block: BlockKeys)
    requires builder.Valid() && |builder.offsets| == block.offset / BASE
    modifies builder
    ensures builder.Valid() && builder.offsets == old(builder.offsets)
    ensures forall x :: x in old(builder.added) ==> x in builder.added
    ensures forall key :: key in block.keys ==> Added(block.offset, key) in builder.added
  {
    for i := 0 to |block.keys|
      invariant builder.Valid() && builder.offsets == old(builder.offsets)
      invariant forall x :: x in old(builder.added) ==> x in builder.added
      invariant forall j :: 0 <= j < i ==> Added(block.offset, block.keys[j]) in builder.added
    {
      builder.AddKey(block.keys[i], block.offset);
    }
  }
}
