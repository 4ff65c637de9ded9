/** The encoded form of a write batch (db/write_batch.cpp). */
module WriteBatches {
  import opened DbFormat
  import opened Coding
  import opened History

  const BATCH_HEADER: nat := 12

  /** The count is a signed 32-bit integer. */
  const MAX_RECORDS: nat := 0x7fff_ffff

  datatype Record = PutRecord(key: Bytes, value: Bytes) | DeleteRecord(key: Bytes)

  predicate Storable(r: Record) {
    |r.key| < LIMIT32 && (r.PutRecord? ==> |r.value| < LIMIT32)
  }

  function RecordBytes(r: Record): Bytes {
    match r
    case PutRecord(k, v) => [1] + (Prefixed(k) + Prefixed(v))
    case DeleteRecord(k) => [0] + Prefixed(k)
  }

  function Parts(rs: seq<Record>): seq<Bytes> {
    seq(|rs|, i requires 0 <= i < |rs| => RecordBytes(rs[i]))
  }

  function RecordsBytes(rs: seq<Record>): Bytes {
    Join(Parts(rs))
  }

  function Layout(first: nat, count: nat, body: Bytes): Bytes {
    Fixed(first, 8) + (Fixed(count, 4) + body)
  }

  /** A batch: the sequence number of its first record, the number of records, the records. */
  function Rep(first: nat, rs: seq<Record>): Bytes {
    Layout(first, |rs|, RecordsBytes(rs))
  }

  //////////////////////////////////////////////////////////////////////////////
  // Parsing.

  datatype Next = Next(record: Record, rest: Bytes)

  function NextRecord(b: Bytes): (r: Option<Next>)
    requires b != []
    ensures r.Some? ==> |r.value.rest| < |b|
  {
    if b[0] > 1 then None
    else
      var k := Unprefixed(b[1..]);
      if k.None? then None
      else if b[0] == 0 then Some(Next(DeleteRecord(k.value.slice), k.value.rest))
      else
        var v := Unprefixed(k.value.rest);
        if v.None? then None else Some(Next(PutRecord(k.value.slice, v.value.slice), v.value.rest))
  }

  /** What a handler is told, and whether every record is well formed. */
  datatype Scan = Scan(records: seq<Record>, ok: bool)

  function ScanAll(b: Bytes): Scan {
    if b == [] then Scan([], true)
    else match NextRecord(b)
      case None => Scan([], false)
      case Some(n) =>
        var more := ScanAll(n.rest);
        Scan([n.record] + more.records, more.ok)
  }

  /** Iterate: also fails when the number of records is not the one in the header. */
  function Iterated(rep: Bytes): Scan {
    if |rep| < BATCH_HEADER then Scan([], false)
    else
      var s := ScanAll(rep[BATCH_HEADER..]);
      Scan(s.records, s.ok && |s.records| == Unfixed(rep[8..12]))
  }

  lemma PutBack(k: Bytes, v: Bytes, rest: Bytes)
    requires |k| < LIMIT32 && |v| < LIMIT32
    ensures Unprefixed((Prefixed(k) + Prefixed(v)) + rest) == Some(Cut(k, Prefixed(v) + rest))
    ensures Unprefixed(Prefixed(v) + rest) == Some(Cut(v, rest))
  {
    assert (Prefixed(k) + Prefixed(v)) + rest == Prefixed(k) + (Prefixed(v) + rest);
    PrefixedRoundTrip(v, rest);
    PrefixedRoundTrip(k, Prefixed(v) + rest);
  }

  lemma PutRecordBack(k: Bytes, v: Bytes, rest: Bytes)
    requires |k| < LIMIT32 && |v| < LIMIT32
    ensures NextRecord(RecordBytes(PutRecord(k, v)) + rest) == Some(Next(PutRecord(k, v), rest))
  {
    PutBack(k, v, rest);
    var payload := Prefixed(k) + Prefixed(v);
    Associative([1], payload, rest);
    assert ([1] + (payload + rest))[1..] == payload + rest;
  }

  lemma DeleteRecordBack(k: Bytes, rest: Bytes)
    requires |k| < LIMIT32
    ensures NextRecord(RecordBytes(DeleteRecord(k)) + rest) == Some(Next(DeleteRecord(k), rest))
  {
    PrefixedRoundTrip(k, rest);
    Associative([0], Prefixed(k), rest);
    assert ([0] + (Prefixed(k) + rest))[1..] == Prefixed(k) + rest;
  }

  lemma RecordBack(r: Record, rest: Bytes)
    requires Storable(r)
    ensures NextRecord(RecordBytes(r) + rest) == Some(Next(r, rest))
  {
    match r
    case PutRecord(k, v) => PutRecordBack(k, v, rest);
    case DeleteRecord(k) => DeleteRecordBack(k, rest);
  }

  lemma {:induction false} RecordsBack(rs: seq<Record>)
    requires forall r :: r in rs ==> Storable(r)
    ensures ScanAll(RecordsBytes(rs)) == Scan(rs, true)
  {
    if rs != [] {
      assert Parts(rs)[1..] == Parts(rs[1..]);
      RecordBack(rs[0], RecordsBytes(rs[1..]));
      RecordsBack(rs[1..]);
      assert [rs[0]] + rs[1..] == rs;
    }
  }

  lemma LayoutParts(first: nat, count: nat, body: Bytes)
    requires count < LIMIT32
    ensures var b := Layout(first, count, body);
            && |b| >= BATCH_HEADER && b[..8] == Fixed(first, 8) && b[8..12] == Fixed(count, 4) && b[12..] == body
            && Unfixed(b[8..12]) == count && (first < LIMIT64 ==> Unfixed(b[..8]) == first)
  {
    Powers();
    UnfixedFixed(count, 4);
    if first < LIMIT64 {
      UnfixedFixed(first, 8);
    }
    HeaderParts(Fixed(first, 8), Fixed(count, 4), body);
  }

  lemma HeaderParts(a: Bytes, b: Bytes, body: Bytes)
    requires |a| == 8 && |b| == 4
    ensures var r := a + (b + body); r[..8] == a && r[8..12] == b && r[12..] == body && r[8..] == b + body
  {
  }

  /** Iterating over a batch tells the handler exactly the records put into it, in order. */
  lemma BatchRoundTrip(first: nat, rs: seq<Record>)
    requires |rs| <= MAX_RECORDS && forall r :: r in rs ==> Storable(r)
    ensures Iterated(Rep(first, rs)) == Scan(rs, true)
  {
    LayoutParts(first, |rs|, RecordsBytes(rs));
    RecordsBack(rs);
  }

  //////////////////////////////////////////////////////////////////////////////
  // The object.

  lemma RecordsBytesConcat(a: seq<Record>, b: seq<Record>)
    ensures RecordsBytes(a + b) == RecordsBytes(a) + RecordsBytes(b)
  {
    assert Parts(a + b) == Parts(a) + Parts(b);
    JoinConcat(Parts(a), Parts(b));
  }

  lemma PartsExtend(rep: Bytes, a: Bytes, b: Bytes, c: Bytes, body: Bytes, more: Bytes)
    requires |a| == 8 && |b| == 4 && rep == a + (b + body)
    ensures |rep| >= 12 && rep[..8] + (c + (rep[12..] + more)) == a + (c + (body + more))
  {
    HeaderParts(a, b, body);
  }

  lemma RepExtends(first: nat, a: seq<Record>, b: seq<Record>, rep: Bytes, bytes: Bytes, n: Bytes, count: Bytes)
    requires n == Fixed(|a|, 4) && count == Fixed(|a| + |b|, 4) && bytes == RecordsBytes(b)
    requires rep == Fixed(first, 8) + (n + RecordsBytes(a))
    ensures |rep| >= BATCH_HEADER
    ensures rep[..8] + (count + (rep[12..] + bytes)) == Fixed(first, 8) + (count + RecordsBytes(a + b))
  {
    PartsExtend(rep, Fixed(first, 8), n, count, RecordsBytes(a), bytes);
    RecordsBytesConcat(a, b);
  }

  class WriteBatch {
    var rep: Bytes
    ghost var first: nat
    ghost var records: seq<Record>

    ghost predicate Valid()
      reads this
    {
      rep == Rep(first, records) && |records| <= MAX_RECORDS
    }

    constructor ()
      ensures Valid() && records == []
    {
      first, records := 0, [];
      rep := [0, 0, 0, 0, 0, 0, 0, 0, 0, 0, 0, 0];
      new;
      EmptyRep();
    }

    function Count(): (n: nat)
      requires Valid()
      reads this
      ensures n == |records|
    {
      LayoutParts(first, |records|, RecordsBytes(records));
      Unfixed(rep[8..12])
    }

    function Sequence(): (n: nat)
      requires Valid() && first < LIMIT64
      reads this
      ensures n == first
    {
      LayoutParts(first, |records|, RecordsBytes(records));
      Unfixed(rep[..8])
    }

    method SetSequence(s: nat)
      requires Valid()
      modifies this
      ensures Valid() && first == s && records == old(records)
    {
      HeaderParts(Fixed(first, 8), Fixed(|records|, 4), RecordsBytes(records));
      rep := Fixed(s, 8) + rep[8..];
      first := s;
    }

    method Put(key: Bytes, value: Bytes)
      requires Valid() && |records| < MAX_RECORDS
      modifies this
      ensures Valid() && first == old(first) && records == old(records) + [PutRecord(key, value)]
    {
      var k := PutLengthPrefixedSlice(key);
      var v := PutLengthPrefixedSlice(value);
      OneRecord(PutRecord(key, value));
      Extend(Count() + 1, [1] + (k + v), [PutRecord(key, value)]);
    }

    method Delete(key: Bytes)
      requires Valid() && |records| < MAX_RECORDS
      modifies this
      ensures Valid() && first == old(first) && records == old(records) + [DeleteRecord(key)]
    {
      var k := PutLengthPrefixedSlice(key);
      OneRecord(DeleteRecord(key));
      Extend(Count() + 1, [0] + k, [DeleteRecord(key)]);
    }

    /** Sets the count to `count` and appends the bytes of the records `more`. */
    method Extend(count: nat, bytes: Bytes, ghost more: seq<Record>)
      requires Valid() && bytes == RecordsBytes(more) && count == |records| + |more| <= MAX_RECORDS
      modifies this
      ensures Valid() && first == old(first) && records == old(records) + more
    {
      RepExtends(first, records, more, rep, bytes, Fixed(|records|, 4), Fixed(count, 4));
      rep := rep[..8] + (Fixed(count, 4) + (rep[12..] + bytes));
      records := records + more;
    }

    /** WriteBatchInternal::Append: the records of `src` follow those already here. */
    method Append(src: WriteBatch)
      requires Valid() && src.Valid() && src != this && |records| + |src.records| <= MAX_RECORDS
      modifies this
      ensures Valid() && first == old(first) && records == old(records) + src.records
    {
      HeaderParts(Fixed(src.first, 8), Fixed(|src.records|, 4), RecordsBytes(src.records));
      Extend(Count() + src.Count(), src.rep[12..], src.records);
    }
  }

  lemma OneRecord(r: Record)
    ensures RecordsBytes([r]) == RecordBytes(r)
  {
    var parts := Parts([r]);
    assert parts == [RecordBytes(r)];
    JoinOne(RecordBytes(r));
  }

  lemma EmptyRep()
    ensures Rep(0, []) == [0, 0, 0, 0, 0, 0, 0, 0, 0, 0, 0, 0]
  {
    assert Fixed(0, 4) == [0, 0, 0, 0];
    assert Fixed(0, 8) == [0, 0, 0, 0] + Fixed(0, 4);
  }

  //////////////////////////////////////////////////////////////////////////////
  // Iterating and inserting into a memtable.

  ghost predicate ScansOn(src: Bytes, done: seq<Record>, input: Bytes) {
    ScanAll(src).records == done + ScanAll(input).records && ScanAll(src).ok == ScanAll(input).ok
  }

  lemma ScansOneMore(src: Bytes, done: seq<Record>, input: Bytes, next: Option<Next>)
    requires ScansOn(src, done, input) && input != [] && next == NextRecord(input)
    ensures match next
            case None => ScanAll(src) == Scan(done, false)
            case Some(n) => ScansOn(src, done + [n.record], n.rest)
  {
    if next.Some? {
      var more := ScanAll(next.value.rest).records;
      assert done + ([next.value.record] + more) == (done + [next.value.record]) + more;
    }
  }

  method GetRecord(input: Bytes) returns (r: Option<Next>)
    requires input != []
    ensures r == NextRecord(input)
  {
    if input[0] > 1 {
      return None;
    }
    var key := GetLengthPrefixedSlice(input[1..]);
    if key.None? {
      return None;
    }
    if input[0] == 0 {
      return Some(Next(DeleteRecord(key.value.slice), key.value.rest));
    }
    var value := GetLengthPrefixedSlice(key.value.rest);
    if value.None? {
      return None;
    }
    return Some(Next(PutRecord(key.value.slice, value.value.slice), value.value.rest));
  }

  /** Iterate, with the handler's calls collected in order. */
  method Iterate(rep: Bytes) returns (records: seq<Record>, ok: bool)
    ensures Scan(records, ok) == Iterated(rep)
  {
    records := [];
    if |rep| < BATCH_HEADER {
      return [], false;
    }
    var src := rep[BATCH_HEADER..];
    var input := src;
    while input != []
      invariant ScansOn(src, records, input)
      decreases |input|
    {
      var r := GetRecord(input);
      ScansOneMore(src, records, input, r);
      if r.None? {
        return records, false;
      }
      records, input := records + [r.value.record], r.value.rest;
    }
    assert records + [] == records;
    ok := |records| == Unfixed(rep[8..12]);
  }

  function OpOf(rank: Bytes -> UserKey, r: Record): Op {
    match r
    case PutRecord(k, v) => Put(rank(k), v)
    case DeleteRecord(k) => Delete(rank(k))
  }

  /** The batch of the history that these bytes stand for. */
  function BatchOf(rank: Bytes -> UserKey, first: nat, rs: seq<Record>): Batch {
    Batch(first, seq(|rs|, i requires 0 <= i < |rs| => OpOf(rank, rs[i])))
  }

  /** The batch that InsertInto makes of the bytes: the records up to the first malformed one. */
  function ParsedBatch(rank: Bytes -> UserKey, rep: Bytes): Batch
    requires |rep| >= BATCH_HEADER
  {
    BatchOf(rank, Unfixed(rep[..8]), Iterated(rep).records)
  }

  /** InsertInto: every record before the first malformed one becomes a memtable entry with its own
      sequence number, counting up from the batch's. */
  method InsertInto(rep: Bytes, rank: Bytes -> UserKey) returns (entries: seq<Entry>, ok: bool)
    requires |rep| >= BATCH_HEADER
    ensures ok == Iterated(rep).ok && |entries| == |Iterated(rep).records|
    ensures forall i :: 0 <= i < |entries| ==> entries[i] == EntryAt(ParsedBatch(rank, rep), i)
    ensures forall i :: 0 <= i < |entries| ==> entries[i].sn == Unfixed(rep[..8]) + i
  {
    var records;
    records, ok := Iterate(rep);
    entries := InsertAll(records, Unfixed(rep[..8]), rank);
  }

  /** The bytes of a batch are inserted as the batch. */
  lemma BatchIsInserted(rank: Bytes -> UserKey, first: nat, rs: seq<Record>)
    requires first < LIMIT64 && |rs| <= MAX_RECORDS && forall r :: r in rs ==> Storable(r)
    ensures var rep := Rep(first, rs);
            && |rep| >= BATCH_HEADER && Unfixed(rep[..8]) == first && Unfixed(rep[8..12]) == |rs|
            && Iterated(rep).ok && ParsedBatch(rank, rep) == BatchOf(rank, first, rs)
  {
    LayoutParts(first, |rs|, RecordsBytes(rs));
    BatchRoundTrip(first, rs);
  }

  /** The inserter, called once for each record. */
  method InsertAll(records: seq<Record>, first: nat, rank: Bytes -> UserKey) returns (entries: seq<Entry>)
    ensures |entries| == |records|
    ensures forall i :: 0 <= i < |entries| ==> entries[i] == EntryAt(BatchOf(rank, first, records), i)
    ensures forall i :: 0 <= i < |entries| ==> entries[i].sn == first + i && entries[i].key == rank(records[i].key)
  {
    entries := [];
    var sequence := first;
    for i := 0 to |records|
      invariant |entries| == i && sequence == first + i
      invariant forall j :: 0 <= j < i ==> entries[j] == EntryAt(BatchOf(rank, first, records), j)
    {
      match records[i] {
        case PutRecord(k, v) => entries := entries + [Entry(rank(k), sequence, Value, v)];
        case DeleteRecord(k) => entries := entries + [Entry(rank(k), sequence, Deletion, [])];
      }
      sequence := sequence + 1;
    }
  }
}
