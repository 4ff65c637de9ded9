/** A log read back: whole, torn at any byte, or followed by preallocated zeros. */
module LogTheorems {
  import opened DbFormat
  import opened Coding
  import opened LogFormat
  import opened LogReader

  //////////////////////////////////////////////////////////////////////////////
  // Bytes of several pieces.

  /** The file holds the spelling of `xs` from position `p` on. */
  ghost predicate HoldsPieces(f: Framing, file: Bytes, p: nat, xs: seq<Piece>) {
    p + Extent(xs) <= |file| && file[p..p + Extent(xs)] == SpellAll(f, xs)
  }

  /** The file ends inside the spelling of `xs` at position `p`. */
  ghost predicate Torn(f: Framing, file: Bytes, p: nat, xs: seq<Piece>) {
    && p <= |file| < p + Extent(xs)
    && |file| - p <= |SpellAll(f, xs)| && file[p..] == SpellAll(f, xs)[..|file| - p]
  }

  lemma {:induction false} SpellAllConcat(f: Framing, xs: seq<Piece>, ys: seq<Piece>)
    ensures SpellAll(f, xs + ys) == SpellAll(f, xs) + SpellAll(f, ys)
    decreases |ys|
  {
    if ys == [] {
      assert xs + ys == xs;
    } else {
      var init, last := ys[..|ys| - 1], ys[|ys| - 1];
      SpellAllConcat(f, xs, init);
      Associative(SpellAll(f, xs), SpellAll(f, init), Spell(f, last));
      assert (xs + ys)[..|xs + ys| - 1] == xs + init;
    }
  }

  lemma {:induction false} ExtentConcat(xs: seq<Piece>, ys: seq<Piece>)
    ensures Extent(xs + ys) == Extent(xs) + Extent(ys)
    decreases |ys|
  {
    if ys == [] {
      assert xs + ys == xs;
    } else {
      ExtentConcat(xs, ys[..|ys| - 1]);
      assert (xs + ys)[..|xs + ys| - 1] == xs + ys[..|ys| - 1];
    }
  }

  lemma SpellOne(f: Framing, x: Piece)
    requires Sized(f)
    ensures SpellAll(f, [x]) == Spell(f, x) && Extent([x]) == Size(x) == |Spell(f, x)|
  {
    SpellAllSnoc(f, [], x);
    assert [] + [x] == [x];
  }

  lemma SplitSpelling(f: Framing, x: Piece, ys: seq<Piece>)
    requires Sized(f)
    ensures SpellAll(f, [x] + ys) == Spell(f, x) + SpellAll(f, ys)
    ensures Extent([x] + ys) == Size(x) + Extent(ys) && Size(x) == |Spell(f, x)|
  {
    SpellAllConcat(f, [x], ys);
    ExtentConcat([x], ys);
    SpellOne(f, x);
  }

  lemma SliceSplits(file: Bytes, p: nat, a: Bytes, b: Bytes)
    requires p + |a| + |b| <= |file| && file[p..p + |a| + |b|] == a + b
    ensures file[p..p + |a|] == a && file[p + |a|..p + |a| + |b|] == b
  {
    var all := file[p..p + |a| + |b|];
    assert all[..|a|] == file[p..p + |a|] && all[|a|..] == file[p + |a|..p + |a| + |b|];
  }

  lemma TornSliceSplits(file: Bytes, p: nat, a: Bytes, b: Bytes)
    requires p <= |file| <= p + |a| + |b| && file[p..] == (a + b)[..|file| - p]
    ensures p + |a| <= |file| ==> file[p..p + |a|] == a && file[p + |a|..] == b[..|file| - p - |a|]
    ensures |file| < p + |a| ==> file[p..] == a[..|file| - p]
  {
    if p + |a| <= |file| {
      var all := file[p..];
      assert all[..|a|] == file[p..p + |a|] && all[|a|..] == file[p + |a|..];
    }
  }

  lemma HoldsHead(f: Framing, file: Bytes, p: nat, x: Piece, ys: seq<Piece>)
    requires Sized(f) && HoldsPieces(f, file, p, [x] + ys)
    ensures p + Size(x) <= |file| && file[p..p + Size(x)] == Spell(f, x)
    ensures HoldsPieces(f, file, p + Size(x), ys)
  {
    SplitSpelling(f, x, ys);
    SpellExtent(f, ys);
    SliceSplits(file, p, Spell(f, x), SpellAll(f, ys));
  }

  lemma TornHead(f: Framing, file: Bytes, p: nat, x: Piece, ys: seq<Piece>)
    requires Sized(f) && Torn(f, file, p, [x] + ys)
    ensures p + Size(x) <= |file| ==> file[p..p + Size(x)] == Spell(f, x) && Torn(f, file, p + Size(x), ys)
    ensures |file| < p + Size(x) ==> file[p..] == Spell(f, x)[..|file| - p]
  {
    SplitSpelling(f, x, ys);
    SpellExtent(f, ys);
    TornSliceSplits(file, p, Spell(f, x), SpellAll(f, ys));
  }

  //////////////////////////////////////////////////////////////////////////////
  // Reading one piece.

  /** `x` is a piece the writer would place at `p`. */
  ghost predicate Fits(p: nat, x: Piece) {
    x.pad == Padding(p) && |x.data| <= Room(p) && FULL <= x.kind <= LAST
  }

  /** The header of the next piece and the room behind it fill the block it is placed in. */
  lemma Aligned(p: nat)
    ensures BlockEnd(p + Padding(p)) == p + Padding(p) + HEADER + Room(p)
  {
    SameBlock(p, p + Padding(p));
  }

  lemma ScanSkipsPadding(f: Framing, file: Bytes, p: nat)
    requires p + Padding(p) <= |file|
    ensures ScanAt(f, file, p) == ScanAt(f, file, p + Padding(p))
  {
  }

  lemma HeaderParts(f: Framing, kind: Byte, data: Bytes, b: Bytes)
    requires Lawful(f) && |data| < 0x1_0000
    requires HEADER <= |b| && b[..HEADER] == f.header(kind, data)
    ensures Length(b[4], b[5]) == |data| && b[6] == kind && f.matches(b[..4], [kind] + data)
  {
    var h := f.header(kind, data);
    assert IsHeader(f, kind, data, h);
    assert b[..4] == b[..HEADER][..4] && b[4] == b[..HEADER][4] && b[5] == b[..HEADER][5] && b[6] == b[..HEADER][6];
  }

  lemma SubSlice(file: Bytes, p: nat, end: nat, x: nat, y: nat)
    requires p <= end <= |file| && x <= y <= end - p
    ensures file[p..end][x..y] == file[p + x..p + y]
  {
    var l, r := file[p..end][x..y], file[p + x..p + y];
    assert |l| == |r| && forall i :: 0 <= i < |l| ==> l[i] == file[p + x + i] == r[i];
  }

  lemma ScanIsOfBuffer(f: Framing, file: Bytes, p: nat, b: Bytes)
    requires p <= |file| && b == file[p..Min(BlockEnd(p), |file|)] && HEADER <= |b|
    ensures var s := ScanBuffer(f, b); ScanAt(f, file, p) == s.(next := p + s.next)
  {
    var end := Min(BlockEnd(p), |file|);
    assert |b| == end - p && !(end - p < HEADER);
  }

  lemma BufferIsScanned(f: Framing, kind: Byte, data: Bytes, b: Bytes)
    requires Lawful(f) && |data| < 0x1_0000 && FULL <= kind
    requires HEADER + |data| <= |b| && b[..HEADER] == f.header(kind, data) && b[HEADER..HEADER + |data|] == data
    ensures ScanBuffer(f, b) == Scan(Fragment(kind, data), HEADER + |data|, 0)
  {
    HeaderParts(f, kind, data, b);
    assert b[6..HEADER + |data|] == [kind] + data;
  }

  lemma ScanHere(f: Framing, file: Bytes, q: nat, kind: Byte, data: Bytes)
    requires Lawful(f) && FULL <= kind && |data| < 0x1_0000
    requires q + HEADER + |data| <= |file| && q + HEADER + |data| <= BlockEnd(q)
    requires file[q..q + HEADER] == f.header(kind, data) && file[q + HEADER..q + HEADER + |data|] == data
    ensures ScanAt(f, file, q) == Scan(Fragment(kind, data), q + HEADER + |data|, 0)
  {
    var end := Min(BlockEnd(q), |file|);
    SubSlice(file, q, end, 0, HEADER);
    SubSlice(file, q, end, HEADER, HEADER + |data|);
    BufferIsScanned(f, kind, data, file[q..end]);
    ScanIsOfBuffer(f, file, q, file[q..end]);
  }

  lemma PieceParts(f: Framing, file: Bytes, p: nat, x: Piece)
    requires Sized(f) && p + Size(x) <= |file| && file[p..p + Size(x)] == Spell(f, x)
    ensures var q := p + x.pad; file[q..q + HEADER] == f.header(x.kind, x.data)
    ensures var q := p + x.pad; file[q + HEADER..q + HEADER + |x.data|] == x.data
  {
    var h := f.header(x.kind, x.data);
    Associative(Zeros(x.pad), h, x.data);
    SliceSplits(file, p, Zeros(x.pad), h + x.data);
    SliceSplits(file, p + x.pad, h, x.data);
  }

  /** Whatever follows it, a piece is read back as the fragment it holds, without a report. */
  lemma PieceIsRead(f: Framing, file: Bytes, p: nat, x: Piece)
    requires Lawful(f) && Fits(p, x)
    requires p + Size(x) <= |file| && file[p..p + Size(x)] == Spell(f, x)
    ensures ScanAt(f, file, p) == Scan(Fragment(x.kind, x.data), p + Size(x), 0)
  {
    PieceParts(f, file, p, x);
    PlacedIsRead(f, file, p, x, p + x.pad);
  }

  lemma PlacedIsRead(f: Framing, file: Bytes, p: nat, x: Piece, q: nat)
    requires Lawful(f) && Fits(p, x) && q == p + x.pad && q + HEADER + |x.data| <= |file|
    requires file[q..q + HEADER] == f.header(x.kind, x.data) && file[q + HEADER..q + HEADER + |x.data|] == x.data
    ensures ScanAt(f, file, p) == Scan(Fragment(x.kind, x.data), p + Size(x), 0)
  {
    Aligned(p);
    ScanSkipsPadding(f, file, p);
    ScanHere(f, file, q, x.kind, x.data);
  }

  lemma TornHere(f: Framing, file: Bytes, q: nat, kind: Byte, data: Bytes)
    requires Lawful(f) && |data| < 0x1_0000
    requires q <= |file| < q + HEADER + |data| <= BlockEnd(q)
    requires q + HEADER <= |file| ==> file[q..q + HEADER] == f.header(kind, data)
    ensures var s := ScanAt(f, file, q);
            && s.next == |file| && (s.found == Eof || (s.found == BadRecord && s.reports > 0))
            && (s.reports == 0 <==> |file| == q)
  {
    if q + HEADER <= |file| {
      var b := file[q..Min(BlockEnd(q), |file|)];
      assert b[..HEADER] == file[q..q + HEADER];
      HeaderParts(f, kind, data, b);
    }
  }

  /** The file ends where a record would begin, before or after the padding of its block. */
  predicate EndsCleanly(file: Bytes, p: nat) {
    |file| == p || |file| == p + Padding(p)
  }

  /** The reader finds nothing but the end of the file, and reports it unless the file ends cleanly. */
  ghost predicate Drops(f: Framing, file: Bytes, p: nat) {
    p <= |file| &&
    var s := ScanAt(f, file, p);
    && s.next == |file| && (s.found == Eof || (s.found == BadRecord && s.reports > 0))
    && (s.reports == 0 <==> EndsCleanly(file, p))
  }

  /** A piece that the file ends in is never taken for a fragment. */
  lemma TornPieceIsDropped(f: Framing, file: Bytes, p: nat, x: Piece)
    requires Lawful(f) && Fits(p, x)
    requires p <= |file| < p + Size(x) && file[p..] == Spell(f, x)[..|file| - p]
    ensures Drops(f, file, p)
  {
    var q := p + x.pad;
    if q <= |file| {
      var h := f.header(x.kind, x.data);
      Associative(Zeros(x.pad), h, x.data);
      TornSliceSplits(file, p, Zeros(x.pad), h + x.data);
      TornSliceSplits(file, q, h, x.data);
      Aligned(p);
      ScanSkipsPadding(f, file, p);
      TornHere(f, file, q, x.kind, x.data);
    }
  }

  //////////////////////////////////////////////////////////////////////////////
  // Reading one record.

  /** `x` is the first piece of `left`, and `rest` remains. */
  ghost predicate Begins(p: nat, left: Bytes, begin: bool, x: Piece, rest: Bytes) {
    Fits(p, x) && left == x.data + rest && x.kind == FragmentKind(begin, rest == [])
  }

  /** `xs` are pieces of a record, one behind the other. */
  ghost predicate IsCut(p: nat, left: Bytes, begin: bool, xs: seq<Piece>)
    decreases |xs|
  {
    xs != [] && |xs[0].data| <= |left| &&
    var rest := left[|xs[0].data|..];
    && Begins(p, left, begin, xs[0], rest)
    && (|xs| == 1 <==> rest == []) && (|xs| > 1 ==> IsCut(p + Size(xs[0]), rest, false, xs[1..]))
  }

  lemma PiecesAre(p: nat, left: Bytes, begin: bool, xs: seq<Piece>) returns (x: Piece, rest: Bytes)
    requires xs == Pieces(p, left, begin)
    ensures xs != [] && xs[0] == x && |x.data| <= |left| && rest == left[|x.data|..] && Begins(p, left, begin, x, rest)
    ensures if rest == [] then xs[1..] == [] else |x.data| == Room(p) && xs[1..] == Pieces(p + Size(x), rest, false)
  {
    x := NextPiece(p, left, begin);
    rest := left[|x.data|..];
  }

  lemma PiecesShrink(p: nat, left: Bytes, x: Piece, rest: Bytes)
    requires Fits(p, x) && left == x.data + rest && rest != [] && |x.data| == Room(p)
    ensures |rest| < |left| || (|rest| == |left| && Stalled(p + Size(x), rest) < Stalled(p, left))
  {
    if x.data == [] {
      RoomAgain(p);
    }
  }

  lemma {:induction false} PiecesAreCut(p: nat, left: Bytes, begin: bool, xs: seq<Piece>)
    requires xs == Pieces(p, left, begin)
    ensures IsCut(p, left, begin, xs)
    decreases |left|, Stalled(p, left)
  {
    var x, rest := PiecesAre(p, left, begin, xs);
    if rest != [] {
      PiecesShrink(p, left, x, rest);
      PiecesAreCut(p + Size(x), rest, false, xs[1..]);
      assert xs[1..] != [];
    }
  }

  lemma CutBegins(p: nat, left: Bytes, begin: bool, xs: seq<Piece>) returns (x: Piece, ys: seq<Piece>, rest: Bytes)
    requires IsCut(p, left, begin, xs)
    ensures xs == [x] + ys && Begins(p, left, begin, x, rest)
    ensures if rest == [] then ys == [] else IsCut(p + Size(x), rest, false, ys)
  {
    x, ys, rest := xs[0], xs[1..], left[|xs[0].data|..];
  }

  /** The pieces that the file holds whole are read one after the other. */
  ghost predicate ReadsAs(f: Framing, file: Bytes, p: nat, x: Piece) {
    p + Size(x) <= |file| && ScanAt(f, file, p) == Scan(Fragment(x.kind, x.data), p + Size(x), 0)
  }

  /** What reading piece `x` of a record adds to the part collected so far. */
  function Collected(begin: bool, scratch: Bytes, x: Piece): Bytes {
    if begin then x.data else scratch + x.data
  }

  /** After a piece that is not the last of its record the reader goes on collecting. */
  lemma PieceIsCollected(f: Framing, file: Bytes, p: nat, x: Piece, begin: bool, scratch: Bytes)
    requires ReadsAs(f, file, p, x) && x.kind == FragmentKind(begin, false) && (begin ==> scratch == [])
    ensures NextRecord(f, file, p, !begin, scratch) ==
            NextRecord(f, file, p + Size(x), true, Collected(begin, scratch, x))
  {
  }

  lemma LastPieceReturns(f: Framing, file: Bytes, p: nat, x: Piece, begin: bool, scratch: Bytes)
    requires ReadsAs(f, file, p, x) && x.kind == FragmentKind(begin, true) && (begin ==> scratch == [])
    ensures NextRecord(f, file, p, !begin, scratch) == Outcome(Some(scratch + x.data), p + Size(x), 0)
  {
    assert begin ==> scratch + x.data == x.data;
  }

  lemma DropsRecord(f: Framing, file: Bytes, p: nat, inside: bool, scratch: Bytes)
    requires Drops(f, file, p)
    ensures var o := NextRecord(f, file, p, inside, scratch);
            o.record == None && (o.reports == 0 <==> !inside && EndsCleanly(file, p))
  {
    NothingAtEnd(f, file, false, []);
    NothingAtEnd(f, file, false, scratch);
  }

  ghost predicate AllFit(p: nat, xs: seq<Piece>)
    decreases |xs|
  {
    xs == [] || (Fits(p, xs[0]) && AllFit(p + Size(xs[0]), xs[1..]))
  }

  lemma {:induction false} CutFits(p: nat, left: Bytes, begin: bool, xs: seq<Piece>)
    requires IsCut(p, left, begin, xs)
    ensures AllFit(p, xs)
    decreases |xs|
  {
    if |xs| > 1 {
      CutFits(p + Size(xs[0]), left[|xs[0].data|..], false, xs[1..]);
    }
  }

  /** All of these pieces are read one after the other. */
  ghost predicate PiecesRead(f: Framing, file: Bytes, p: nat, xs: seq<Piece>)
    decreases |xs|
  {
    xs == [] || (ReadsAs(f, file, p, xs[0]) && PiecesRead(f, file, p + Size(xs[0]), xs[1..]))
  }

  /** Some of these pieces are read one after the other, and the next one is dropped. */
  ghost predicate PiecesTorn(f: Framing, file: Bytes, p: nat, xs: seq<Piece>)
    decreases |xs|
  {
    xs != [] &&
    if p + Size(xs[0]) <= |file| then ReadsAs(f, file, p, xs[0]) && PiecesTorn(f, file, p + Size(xs[0]), xs[1..])
    else Drops(f, file, p)
  }

  lemma {:induction false} HeldIsRead(f: Framing, file: Bytes, p: nat, xs: seq<Piece>)
    requires Lawful(f) && AllFit(p, xs) && HoldsPieces(f, file, p, xs)
    ensures PiecesRead(f, file, p, xs)
    decreases |xs|
  {
    if xs != [] {
      assert [xs[0]] + xs[1..] == xs;
      HoldsHead(f, file, p, xs[0], xs[1..]);
      PieceIsRead(f, file, p, xs[0]);
      HeldIsRead(f, file, p + Size(xs[0]), xs[1..]);
    }
  }

  lemma {:induction false} TornIsRead(f: Framing, file: Bytes, p: nat, xs: seq<Piece>)
    requires Lawful(f) && AllFit(p, xs) && Torn(f, file, p, xs)
    ensures PiecesTorn(f, file, p, xs)
    decreases |xs|
  {
    assert [xs[0]] + xs[1..] == xs;
    TornHead(f, file, p, xs[0], xs[1..]);
    if p + Size(xs[0]) <= |file| {
      PieceIsRead(f, file, p, xs[0]);
      TornIsRead(f, file, p + Size(xs[0]), xs[1..]);
    } else {
      TornPieceIsDropped(f, file, p, xs[0]);
    }
  }

  lemma CollectedAll(begin: bool, scratch: Bytes, x: Piece, rest: Bytes, left: Bytes)
    requires left == x.data + rest && (begin ==> scratch == [])
    ensures Collected(begin, scratch, x) + rest == scratch + left
    ensures rest == [] ==> scratch + x.data == scratch + left
  {
  }

  lemma ExtentHead(x: Piece, ys: seq<Piece>)
    ensures Extent([x] + ys) == Size(x) + Extent(ys)
  {
    ExtentConcat([x], ys);
    assert Extent([x]) == Size(x);
  }

  lemma {:induction false} RecordIsRead(f: Framing, file: Bytes, p: nat, left: Bytes, begin: bool, scratch: Bytes,
                                        xs: seq<Piece>)
    requires IsCut(p, left, begin, xs) && PiecesRead(f, file, p, xs) && (begin ==> scratch == [])
    ensures p <= |file| && NextRecord(f, file, p, !begin, scratch) == Outcome(Some(scratch + left), p + Extent(xs), 0)
    decreases |xs|
  {
    var x, ys, rest := CutBegins(p, left, begin, xs);
    ExtentHead(x, ys);
    CollectedAll(begin, scratch, x, rest, left);
    if rest == [] {
      LastPieceReturns(f, file, p, x, begin, scratch);
    } else {
      PieceIsCollected(f, file, p, x, begin, scratch);
      RecordIsRead(f, file, p + Size(x), rest, false, Collected(begin, scratch, x), ys);
    }
  }

  /** Reading the first piece of a torn record: it is dropped, or the reader goes on to the others. */
  lemma TornStep(f: Framing, file: Bytes, p: nat, left: Bytes, begin: bool, scratch: Bytes, xs: seq<Piece>)
    returns (rest: Bytes, scratch': Bytes)
    requires IsCut(p, left, begin, xs) && PiecesTorn(f, file, p, xs) && (begin ==> scratch == [])
    ensures p <= |file|
    ensures var next := p + Size(xs[0]);
            var o := NextRecord(f, file, p, !begin, scratch);
            if next > |file| then o.record == None && (o.reports == 0 <==> begin && EndsCleanly(file, p))
            else && PiecesTorn(f, file, next, xs[1..]) && IsCut(next, rest, false, xs[1..])
                 && o == NextRecord(f, file, next, true, scratch') && !EndsCleanly(file, p)
  {
    rest, scratch' := left[|xs[0].data|..], Collected(begin, scratch, xs[0]);
    if p + Size(xs[0]) <= |file| {
      assert |xs| > 1;
      PieceIsCollected(f, file, p, xs[0], begin, scratch);
    } else {
      DropsRecord(f, file, p, !begin, scratch);
    }
  }

  lemma {:induction false} TornRecordIsDropped(f: Framing, file: Bytes, p: nat, left: Bytes, begin: bool,
                                               scratch: Bytes,
                                               xs: seq<Piece>)
    requires IsCut(p, left, begin, xs) && PiecesTorn(f, file, p, xs) && (begin ==> scratch == [])
    ensures p <= |file|
    ensures var o := NextRecord(f, file, p, !begin, scratch);
            o.record == None && (o.reports == 0 <==> begin && EndsCleanly(file, p))
    decreases |xs|
  {
    var rest, scratch' := TornStep(f, file, p, left, begin, scratch, xs);
    if p + Size(xs[0]) <= |file| {
      TornRecordIsDropped(f, file, p + Size(xs[0]), rest, false, scratch', xs[1..]);
    }
  }

  lemma TornRecordEnds(f: Framing, file: Bytes, p: nat, record: Bytes, xs: seq<Piece>)
    requires xs == Pieces(p, record, true) && Lawful(f) && Torn(f, file, p, xs)
    ensures var o := NextRecord(f, file, p, false, []);
            o.record == None && (o.reports == 0 <==> EndsCleanly(file, p))
  {
    PiecesAreCut(p, record, true, xs);
    CutFits(p, record, true, xs);
    TornIsRead(f, file, p, xs);
    TornRecordIsDropped(f, file, p, record, true, [], xs);
  }

  lemma WholeRecordIsRead(f: Framing, file: Bytes, p: nat, record: Bytes, xs: seq<Piece>)
    requires xs == Pieces(p, record, true) && Lawful(f) && HoldsPieces(f, file, p, xs)
    ensures NextRecord(f, file, p, false, []) == Outcome(Some(record), p + Extent(xs), 0)
  {
    PiecesAreCut(p, record, true, xs);
    CutFits(p, record, true, xs);
    HeldIsRead(f, file, p, xs);
    RecordIsRead(f, file, p, record, true, [], xs);
    assert [] + record == record;
  }

  lemma NothingAtEnd(f: Framing, file: Bytes, inside: bool, scratch: Bytes)
    ensures NextRecord(f, file, |file|, inside, scratch) == Outcome(None, |file|, if inside then 1 else 0)
  {
  }

  //////////////////////////////////////////////////////////////////////////////
  // Reading a whole log.

  /** The size of a log that holds `records`, which is the position of the next record. */
  function LogSize(records: seq<Bytes>): nat {
    Extent(LogPieces(records))
  }

  lemma LogBytesSize(f: Framing, records: seq<Bytes>)
    requires Sized(f)
    ensures |LogBytes(f, records)| == LogSize(records)
  {
    SpellExtent(f, LogPieces(records));
  }

  /** A log begins with the log of any prefix of its records. */
  lemma {:induction false} LogPrefix(f: Framing, records: seq<Bytes>, k: nat)
    requires Sized(f) && k <= |records|
    ensures LogSize(records[..k]) <= LogSize(records)
    ensures LogBytes(f, records[..k]) <= LogBytes(f, records)
    decreases |records|
  {
    if k == |records| {
      assert records[..k] == records;
    } else {
      var init := records[..|records| - 1];
      LogPrefix(f, init, k);
      assert init[..k] == records[..k];
      assert init + [records[|records| - 1]] == records;
      LogPiecesSnoc(init, records[|records| - 1]);
      SpellAllConcat(f, LogPieces(init), Pieces(LogSize(init), records[|records| - 1], true));
      ExtentConcat(LogPieces(init), Pieces(LogSize(init), records[|records| - 1], true));
    }
  }

  /** What a record adds to its log. */
  lemma LogSnoc(f: Framing, records: seq<Bytes>, k: nat)
    requires Sized(f) && k < |records|
    ensures var p := LogSize(records[..k]);
            var xs := Pieces(p, records[k], true);
            && LogBytes(f, records[..k + 1]) == LogBytes(f, records[..k]) + SpellAll(f, xs)
            && LogSize(records[..k + 1]) == p + Extent(xs)
  {
    var p := LogSize(records[..k]);
    LogPiecesSnoc(records[..k], records[k]);
    assert records[..k] + [records[k]] == records[..k + 1];
    SpellAllConcat(f, LogPieces(records[..k]), Pieces(p, records[k], true));
    ExtentConcat(LogPieces(records[..k]), Pieces(p, records[k], true));
  }

  lemma SliceOfPrefix(file: Bytes, a: Bytes, b: Bytes)
    requires a + b <= file
    ensures |a| + |b| <= |file| && file[|a|..|a| + |b|] == b
  {
    assert file[..|a| + |b|] == a + b;
    assert file[|a|..|a| + |b|] == file[..|a| + |b|][|a|..];
  }

  lemma RecordIsHeld(f: Framing, file: Bytes, records: seq<Bytes>, k: nat, p: nat, xs: seq<Piece>)
    requires Sized(f) && k < |records| && LogBytes(f, records) <= file
    requires p == LogSize(records[..k]) && xs == Pieces(p, records[k], true)
    ensures HoldsPieces(f, file, p, xs) && LogSize(records[..k + 1]) == p + Extent(xs)
  {
    LogPrefix(f, records, k + 1);
    LogSnoc(f, records, k);
    LogBytesSize(f, records[..k]);
    SpellExtent(f, xs);
    SliceOfPrefix(file, LogBytes(f, records[..k]), SpellAll(f, xs));
  }

  lemma RecordIsNext(f: Framing, file: Bytes, records: seq<Bytes>, k: nat, p: nat, q: nat)
    requires Lawful(f) && k < |records| && LogBytes(f, records) <= file
    requires p == LogSize(records[..k]) && q == LogSize(records[..k + 1])
    ensures p <= |file| && NextRecord(f, file, p, false, []) == Outcome(Some(records[k]), q, 0)
  {
    var xs := Pieces(p, records[k], true);
    RecordIsHeld(f, file, records, k, p, xs);
    WholeRecordIsRead(f, file, p, records[k], xs);
  }

  /** Every record of a log is returned, without a report, before the reader gets to what follows. */
  lemma {:induction false} RecordsAreRead(f: Framing, file: Bytes, records: seq<Bytes>, k: nat)
    requires Lawful(f) && k <= |records| && LogBytes(f, records) <= file
    ensures LogSize(records[..k]) <= LogSize(records) <= |file|
    ensures var rest := ReadFrom(f, file, LogSize(records));
            ReadFrom(f, file, LogSize(records[..k])) == Recovered(records[k..] + rest.records, rest.reports)
    decreases |records| - k
  {
    LogBytesSize(f, records);
    LogPrefix(f, records, k);
    var rest := ReadFrom(f, file, LogSize(records));
    if k == |records| {
      assert records[..k] == records && records[k..] == [];
    } else {
      RecordsAreRead(f, file, records, k + 1);
      RecordIsNext(f, file, records, k, LogSize(records[..k]), LogSize(records[..k + 1]));
      TakeOne(records, k, rest.records);
    }
  }

  lemma TakeOne(records: seq<Bytes>, k: nat, rest: seq<Bytes>)
    requires k < |records|
    ensures [records[k]] + (records[k + 1..] + rest) == records[k..] + rest
  {
  }

  /** Reading what AddRecord wrote returns the same records with no corruption report. */
  lemma RoundTrip(f: Framing, records: seq<Bytes>)
    requires Lawful(f)
    ensures ReadFrom(f, LogBytes(f, records), 0) == Recovered(records, 0)
  {
    var file := LogBytes(f, records);
    RecordsAreRead(f, file, records, 0);
    LogBytesSize(f, records);
    NothingAtEnd(f, file, false, []);
    assert records[0..] + [] == records;
  }

  /** How many records lie wholly within the first `n` bytes of their log, given that `k` do. */
  function WholeRecords(records: seq<Bytes>, n: nat, k: nat := 0): (m: nat)
    requires k <= |records| && LogSize(records[..k]) <= n
    ensures m <= |records| && LogSize(records[..m]) <= n
    ensures m < |records| ==> n < LogSize(records[..m + 1])
    decreases |records| - k
  {
    if k < |records| && LogSize(records[..k + 1]) <= n then WholeRecords(records, n, k + 1) else k
  }

  /** Cutting the file anywhere loses exactly the records that the cut leaves incomplete, and is reported
      unless it lies right after a record or right after the padding that follows one. */
  lemma TruncatedLog(f: Framing, records: seq<Bytes>, n: nat)
    requires Lawful(f) && n <= |LogBytes(f, records)|
    ensures var got, whole := ReadFrom(f, LogBytes(f, records)[..n], 0), records[..WholeRecords(records, n)];
            got.records == whole && (got.reports == 0 <==> EndsCleanly(LogBytes(f, records)[..n], LogSize(whole)))
  {
    var file, m := LogBytes(f, records)[..n], WholeRecords(records, n);
    var whole := records[..m];
    LogBytesSize(f, whole);
    LogBytesSize(f, records);
    LogPrefix(f, records, m);
    assert LogBytes(f, whole) <= file;
    RecordsAreRead(f, file, whole, 0);
    assert whole[0..] + [] == whole;
    if m == |records| {
      assert whole == records;
      NothingAtEnd(f, file, false, []);
    } else {
      var xs := Pieces(LogSize(whole), records[m], true);
      RecordIsTorn(f, records, n, m, LogSize(whole), xs);
      TornRecordEnds(f, file, LogSize(whole), records[m], xs);
    }
  }

  /** The whole records before a cut inside the last one. */
  lemma CutInLast(f: Framing, bs: seq<Bytes>, b: Bytes, n: nat)
    requires Sized(f) && LogSize(bs) <= n < LogSize(bs + [b])
    ensures WholeRecords(bs + [b], n) == |bs| && (bs + [b])[..|bs|] == bs && n <= |LogBytes(f, bs + [b])|
  {
    var all := bs + [b];
    assert all[..|bs|] == bs && all[..|all|] == all;
    LogBytesSize(f, all);
    forall k {:trigger all[..k]} | 0 <= k <= |bs| ensures LogSize(all[..k]) <= LogSize(bs) {
      LogPrefix(f, bs, k);
      assert all[..k] == bs[..k];
    }
  }

  /** A record takes at least its padding and a header. */
  lemma NextRecordSize(f: Framing, records: seq<Bytes>, r: Bytes)
    requires Sized(f)
    ensures LogSize(records + [r]) >= LogSize(records) + Padding(LogSize(records)) + HEADER
  {
    var p := LogSize(records);
    var xs := Pieces(p, r, true);
    LogPiecesSnoc(records, r);
    ExtentConcat(LogPieces(records), xs);
    var x, rest := PiecesAre(p, r, true, xs);
    assert [x] + xs[1..] == xs;
    ExtentHead(x, xs[1..]);
  }

  lemma RecordIsTorn(f: Framing, records: seq<Bytes>, n: nat, m: nat, p: nat, xs: seq<Piece>)
    requires Sized(f) && m < |records| && n <= |LogBytes(f, records)|
    requires p == LogSize(records[..m]) && xs == Pieces(p, records[m], true)
    requires p <= n < LogSize(records[..m + 1])
    ensures Torn(f, LogBytes(f, records)[..n], p, xs)
  {
    var file := LogBytes(f, records);
    RecordIsHeld(f, file, records, m, p, xs);
    SpellExtent(f, xs);
    CutSlice(file, p, p + Extent(xs), n);
  }

  lemma CutSlice(file: Bytes, p: nat, end: nat, n: nat)
    requires p <= n <= end <= |file|
    ensures file[..n][p..] == file[p..end][..n - p]
  {
    var l, r := file[..n][p..], file[p..end][..n - p];
    assert |l| == |r| && forall i :: 0 <= i < |l| ==> l[i] == file[p + i] == r[i];
  }

  lemma {:induction false} NothingInZeros(f: Framing, file: Bytes, p: nat)
    requires p <= |file| && forall i :: p <= i < |file| ==> file[i] == 0
    ensures NextRecord(f, file, p, false, []).record == None
    decreases |file| - p
  {
    ZerosAreSkipped(f, file, p);
    var s := ScanAt(f, file, p);
    if s.found == BadRecord {
      NothingInZeros(f, file, s.next);
    }
  }

  lemma {:induction false} ZerosAreSkipped(f: Framing, file: Bytes, p: nat)
    requires p <= |file| && forall i :: p <= i < |file| ==> file[i] == 0
    ensures !ScanAt(f, file, p).found.Fragment?
    decreases |file| - p
  {
    var end := Min(BlockEnd(p), |file|);
    if end - p < HEADER {
      if BlockEnd(p) <= |file| {
        ZerosAreSkipped(f, file, BlockEnd(p));
      }
    } else {
      var b := file[p..end];
      assert b[4] == 0 && b[5] == 0 && b[6] == 0;
    }
  }

  /** Zero bytes after the last record, as preallocation leaves them, change no returned record. */
  lemma ZeroTail(f: Framing, records: seq<Bytes>, n: nat)
    requires Lawful(f)
    ensures ReadFrom(f, LogBytes(f, records) + Zeros(n), 0).records == records
  {
    var file := LogBytes(f, records) + Zeros(n);
    RecordsAreRead(f, file, records, 0);
    LogBytesSize(f, records);
    NothingInZeros(f, file, LogSize(records));
    assert records[0..] + [] == records;
  }
}
