/** The log reader, and what it returns for files that a log writer left behind
    (db/log_reader.cpp). */
module LogReader {
  import opened DbFormat
  import opened LogFormat

  /** What ReadPhysicalRecord returns: a fragment, kBadRecord or kEof. */
  datatype Physical = Fragment(kind: Byte, data: Bytes) | BadRecord | Eof

  /** A physical record, the position after it, and the corruption reports made on the way. */
  datatype Scan = Scan(found: Physical, next: nat, reports: nat)

  function Min(a: nat, b: nat): nat {
    if a < b then a else b
  }

  /** The physical record at position `p` of the file.  Only the position matters: the buffer always
      holds the rest of the block of `p`. */
  function ScanAt(f: Framing, file: Bytes, p: nat): (r: Scan)
    requires p <= |file|
    ensures r.next <= |file|
    ensures r.found != Eof ==> p < r.next
    decreases |file| - p
  {
    var end := Min(BlockEnd(p), |file|);
    if end - p < HEADER then
      if BlockEnd(p) <= |file| then ScanAt(f, file, BlockEnd(p))
      else Scan(Eof, |file|, if p < |file| then 1 else 0)
    else
      var s := ScanBuffer(f, file[p..end]);
      s.(next := p + s.next)
  }

  /** The physical record at the front of the buffer; a bad one takes the whole buffer with it. */
  function ScanBuffer(f: Framing, b: Bytes): (r: Scan)
    requires HEADER <= |b|
    ensures 0 < r.next <= |b| && r.found != Eof
  {
    var n := Length(b[4], b[5]);
    if HEADER + n > |b| then Scan(BadRecord, |b|, 1)
    else if b[6] == 0 && n == 0 then Scan(BadRecord, |b|, 0)
    else if !f.matches(b[..4], b[6..HEADER + n]) then Scan(BadRecord, |b|, 1)
    else Scan(Fragment(b[6], b[HEADER..HEADER + n]), HEADER + n, 0)
  }

  /** A logical record, if there is one before the end of the file. */
  datatype Outcome = Outcome(record: Option<Bytes>, next: nat, reports: nat)

  function Report(o: Outcome, reports: nat): Outcome {
    o.(reports := o.reports + reports)
  }

  /** The type bytes that the switch of ReadRecord takes for kEof and kBadRecord. */
  const EOF_KIND: Byte := 5
  const BAD_KIND: Byte := 6

  /** What the switch of ReadRecord does with one physical record: return, or go on collecting. */
  datatype Digest = Return(record: Option<Bytes>, reports: nat) | Continue(inside: bool, scratch: Bytes, reports: nat)

  function Collect(found: Physical, inside: bool, scratch: Bytes): Digest {
    match found
    case Eof => AtEof(inside)
    case BadRecord => AfterBad(inside, scratch)
    case Fragment(kind, data) =>
      var unfinished := if inside && scratch != [] then 1 else 0;
      if kind == FULL then Return(Some(data), unfinished)
      else if kind == FIRST then Continue(true, data, unfinished)
      else if kind == MIDDLE then if inside then Continue(true, scratch + data, 0) else Continue(false, scratch, 1)
      else if kind == LAST then if inside then Return(Some(scratch + data), 0) else Continue(false, scratch, 1)
      else if kind == EOF_KIND then AtEof(inside)
      else if kind == BAD_KIND then AfterBad(inside, scratch)
      else Continue(false, [], 1)
  }

  function AtEof(inside: bool): Digest {
    Return(None, if inside then 1 else 0)
  }

  function AfterBad(inside: bool, scratch: Bytes): Digest {
    if inside then Continue(false, [], 1) else Continue(false, scratch, 0)
  }

  /** ReadRecord from position `p`, having collected `scratch` if it is inside a fragmented record. */
  function NextRecord(f: Framing, file: Bytes, p: nat, inside: bool, scratch: Bytes): (r: Outcome)
    requires p <= |file|
    ensures r.next <= |file| && (r.record.Some? ==> p < r.next)
    decreases |file| - p
  {
    var s := ScanAt(f, file, p);
    match Collect(s.found, inside, scratch)
    case Return(record, reports) => Outcome(record, s.next, s.reports + reports)
    case Continue(inside', scratch', reports) =>
      Report(NextRecord(f, file, s.next, inside', scratch'), s.reports + reports)
  }

  /** Going on from position `p` after `made` reports leads to `all`. */
  ghost predicate LeadsTo(f: Framing, file: Bytes, p: nat, inside: bool, scratch: Bytes, made: int, all: Outcome)
    requires p <= |file|
  {
    var o := NextRecord(f, file, p, inside, scratch);
    o.record == all.record && o.next == all.next && made + o.reports == all.reports
  }

  lemma LeadsOn(f: Framing, file: Bytes, p: nat, inside: bool, scratch: Bytes, made: int, all: Outcome)
    requires p <= |file| && LeadsTo(f, file, p, inside, scratch, made, all)
    ensures var s := ScanAt(f, file, p);
            match Collect(s.found, inside, scratch)
            case Return(record, reports) =>
              record == all.record && s.next == all.next && made + s.reports + reports == all.reports
            case Continue(inside', scratch', reports) =>
              p < s.next && LeadsTo(f, file, s.next, inside', scratch', made + s.reports + reports, all)
  {
  }

  /** All records that a caller gets by reading until ReadRecord returns false, and the reports made. */
  datatype Recovered = Recovered(records: seq<Bytes>, reports: nat)

  function ReadFrom(f: Framing, file: Bytes, p: nat): Recovered
    requires p <= |file|
    decreases |file| - p
  {
    var o := NextRecord(f, file, p, false, []);
    match o.record
    case None => Recovered([], o.reports)
    case Some(r) =>
      var rest := ReadFrom(f, file, o.next);
      Recovered([r] + rest.records, o.reports + rest.reports)
  }

  //////////////////////////////////////////////////////////////////////////////
  // The reader.

  /** What is known about the whole file when `done` has been read, the last call returned `next`, and
      the reader stands at `p` after `reports` reports. */
  ghost predicate ReadSoFar(f: Framing, file: Bytes, done: seq<Bytes>, next: Option<Bytes>, p: int, reports: nat) {
    0 <= p <= |file| &&
    var rest := if next.None? then Recovered([], 0) else ReadFrom(f, file, p);
    var all := ReadFrom(f, file, 0);
    all.reports == reports + rest.reports &&
    all.records == done + ((if next.None? then [] else [next.value]) + rest.records)
  }

  lemma ReadOneMore(f: Framing, file: Bytes, done: seq<Bytes>, b: Bytes, p: int, reports: nat)
    requires ReadSoFar(f, file, done, Some(b), p, reports)
    ensures var o := NextRecord(f, file, p, false, []);
            ReadSoFar(f, file, done + [b], o.record, o.next, reports + o.reports)
  {
    var o := NextRecord(f, file, p, false, []);
    var rest := if o.record.None? then [] else [o.record.value] + ReadFrom(f, file, o.next).records;
    assert done + ([b] + rest) == (done + [b]) + rest;
    assert o.record.None? ==> rest == [] + [];
  }

  lemma AllRead(f: Framing, file: Bytes, done: seq<Bytes>, p: int, reports: nat)
    requires ReadSoFar(f, file, done, None, p, reports)
    ensures ReadFrom(f, file, 0) == Recovered(done, reports)
  {
    var none: seq<Bytes> := [];
    assert done + (none + none) == done;
  }

  class Reader {
    const framing: Framing
    const file: Bytes
    var offset: nat
    var buffer: Bytes
    var eof: bool
    var reports: nat

    ghost function Position(): int
      reads this`offset, this`buffer
    {
      offset - |buffer|
    }

    /** The buffer holds what is left of a block; a short block is the last one. */
    ghost predicate Valid()
      reads this`offset, this`buffer, this`eof
    {
      && |buffer| <= offset <= |file|
      && buffer == file[offset - |buffer|..offset]
      && (eof ==> offset == |file| && BlockEnd(offset - |buffer|) > |file|)
      && (!eof ==> BlockEnd(offset) == offset + BLOCK && (buffer != [] ==> BlockEnd(offset - |buffer|) == offset))
    }

    constructor (framing: Framing, file: Bytes)
      ensures Valid() && Position() == 0 && reports == 0
      ensures this.framing == framing && this.file == file
    {
      this.framing, this.file := framing, file;
      offset, buffer, eof, reports := 0, [], false, 0;
    }

    /** Reads the next block into the buffer. */
    method FillBuffer()
      requires Valid() && |buffer| < HEADER && !eof
      modifies this`offset, this`buffer, this`eof
      ensures Valid() && Position() == old(offset)
      ensures offset == Min(old(offset) + BLOCK, |file|) && eof == (offset < old(offset) + BLOCK)
    {
      var n := Min(BLOCK, |file| - offset);
      SameBlock(offset, offset + n);
      buffer := file[offset..offset + n];
      offset := offset + n;
      eof := n < BLOCK;
    }

    method ReadPhysicalRecord() returns (found: Physical)
      requires Valid()
      modifies this`offset, this`buffer, this`eof, this`reports
      ensures Valid()
      ensures var s := ScanAt(framing, file, old(Position()));
              found == s.found && Position() == s.next && reports == old(reports) + s.reports
    {
      ghost var scan := ScanAt(framing, file, Position());
      while |buffer| < HEADER
        invariant Valid() && scan == ScanAt(framing, file, Position()) && reports == old(reports)
        decreases if eof then 0 else 1 + |file| - offset
      {
        if !eof {
          FillBuffer();
        } else if |buffer| == 0 {
          return Eof;
        } else {
          Consume(|buffer|);
          reports := reports + 1;
          return Eof;
        }
      }
      found := ParseHeader();
    }

    method Consume(n: nat)
      requires Valid() && n <= |buffer|
      modifies this`buffer
      ensures Valid() && buffer == old(buffer)[n..]
    {
      if buffer != [] {
        SameBlock(Position(), Position() + n);
      }
      buffer := buffer[n..];
    }

    method ParseHeader() returns (found: Physical)
      requires Valid() && HEADER <= |buffer|
      modifies this`buffer, this`reports
      ensures Valid()
      ensures var s := ScanBuffer(framing, old(buffer));
              found == s.found && Position() == old(Position()) + s.next && reports == old(reports) + s.reports
    {
      var n := Length(buffer[4], buffer[5]);
      var kind := buffer[6];
      if HEADER + n > |buffer| {
        Consume(|buffer|);
        reports := reports + 1;
        return BadRecord;
      }
      if kind == 0 && n == 0 {
        Consume(|buffer|);
        return BadRecord;
      }
      if !framing.matches(buffer[..4], buffer[6..HEADER + n]) {
        Consume(|buffer|);
        reports := reports + 1;
        return BadRecord;
      }
      found := Fragment(kind, buffer[HEADER..HEADER + n]);
      Consume(HEADER + n);
    }

    method ReadRecord() returns (record: Option<Bytes>)
      requires Valid()
      modifies this`offset, this`buffer, this`eof, this`reports
      ensures Valid()
      ensures var o := NextRecord(framing, file, old(Position()), false, []);
              record == o.record && Position() == o.next && reports == old(reports) + o.reports
    {
      var inside, scratch := false, [];
      ghost var all := NextRecord(framing, file, Position(), false, []);
      while true
        invariant Valid()
        invariant LeadsTo(framing, file, Position(), inside, scratch, reports - old(reports), all)
        decreases |file| - Position()
      {
        LeadsOn(framing, file, Position(), inside, scratch, reports - old(reports), all);
        var found := ReadPhysicalRecord();
        var d := Collect(found, inside, scratch);
        reports := reports + d.reports;
        if d.Return? {
          return d.record;
        }
        inside, scratch := d.inside, d.scratch;
      }
    }

    /** What the calls of ReadRecord so far have returned, and the last one. */
    ghost predicate Has(done: seq<Bytes>, next: Option<Bytes>)
      reads this`offset, this`buffer, this`reports
    {
      ReadSoFar(framing, file, done, next, Position(), reports)
    }

    method ReadFirst() returns (next: Option<Bytes>)
      requires Valid() && Position() == 0 && reports == 0
      modifies this`offset, this`buffer, this`eof, this`reports
      ensures Valid() && Has([], next)
    {
      next := ReadRecord();
    }

    method ReadAfter(ghost done: seq<Bytes>, ghost b: Bytes) returns (next: Option<Bytes>)
      requires Valid() && Has(done, Some(b))
      modifies this`offset, this`buffer, this`eof, this`reports
      ensures Valid() && Has(done + [b], next) && (next.Some? ==> Position() > old(Position()))
    {
      ReadOneMore(framing, file, done, b, Position(), reports);
      next := ReadRecord();
    }
  }

  /** The loop of a caller that reads a whole log. */
  method ReadLog(framing: Framing, file: Bytes) returns (records: seq<Bytes>, reports: nat)
    ensures Recovered(records, reports) == ReadFrom(framing, file, 0)
  {
    var reader := new Reader(framing, file);
    records := [];
    var next := reader.ReadFirst();
    while next.Some?
      invariant reader.Valid() && fresh(reader) && reader.framing == framing && reader.file == file
      invariant reader.Has(records, next)
      decreases next.Some?, |file| - reader.Position()
    {
      var b := next.value;
      next := reader.ReadAfter(records, b);
      records := records + [b];
    }
    AllRead(framing, file, records, reader.Position(), reader.reports);
    reports := reader.reports;
  }
}
