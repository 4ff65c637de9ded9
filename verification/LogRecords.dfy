/** What a record read from any file is, whatever has happened to the file: the data of consecutive
    fragments, from a first to a last one, with nothing between them (db/log_reader.cpp:57-160). */
module LogRecords {
  import opened DbFormat
  import opened LogFormat
  import opened LogReader
  import LogTheorems

  //////////////////////////////////////////////////////////////////////////////
  // Chains of fragments.

  /** There is a fragment of this kind at `q`. */
  ghost predicate IsKind(f: Framing, file: Bytes, q: nat, kind: nat) {
    q <= |file| && ScanAt(f, file, q).found.Fragment? && ScanAt(f, file, q).found.kind == kind
  }

  ghost function After(f: Framing, file: Bytes, q: nat): nat
    requires q <= |file|
  {
    ScanAt(f, file, q).next
  }

  ghost function DataAt(f: Framing, file: Bytes, q: nat): Bytes
    requires q <= |file| && ScanAt(f, file, q).found.Fragment?
  {
    ScanAt(f, file, q).found.data
  }

  /** A first fragment at `qs[0]` and middle ones right behind it, the last of which ends at `p`; together
      they hold `data`. */
  ghost predicate IsOpen(f: Framing, file: Bytes, qs: seq<nat>, p: nat, data: Bytes) {
    |qs| > 0 &&
    var n := |qs| - 1;
    && IsKind(f, file, qs[n], if n == 0 then 2 else 3) && After(f, file, qs[n]) == p
    && if n == 0 then data == DataAt(f, file, qs[0])
       else exists before :: IsOpen(f, file, qs[..n], qs[n], before) && data == before + DataAt(f, file, qs[n])
  }

  /** A whole record: one full fragment, or an open chain and a last fragment right behind it. */
  ghost predicate IsRecord(f: Framing, file: Bytes, qs: seq<nat>, end: nat, data: Bytes) {
    |qs| > 0 &&
    var n := |qs| - 1;
    if n == 0 then IsKind(f, file, qs[0], 1) && After(f, file, qs[0]) == end && data == DataAt(f, file, qs[0])
    else && IsKind(f, file, qs[n], 4) && After(f, file, qs[n]) == end
         && exists before :: IsOpen(f, file, qs[..n], qs[n], before) && data == before + DataAt(f, file, qs[n])
  }

  /** Every fragment of an open chain but the first is a middle one, and each begins where the one before
      it ends. */
  lemma {:induction false} OpenChain(f: Framing, file: Bytes, qs: seq<nat>, p: nat, data: Bytes, j: nat)
    requires IsOpen(f, file, qs, p, data) && j < |qs|
    ensures IsKind(f, file, qs[j], if j == 0 then 2 else 3)
    ensures After(f, file, qs[j]) == if j + 1 < |qs| then qs[j + 1] else p
    decreases |qs|
  {
    var n := |qs| - 1;
    if j < n {
      var before :| IsOpen(f, file, qs[..n], qs[n], before) && data == before + DataAt(f, file, qs[n]);
      OpenChain(f, file, qs[..n], qs[n], before, j);
    }
  }

  lemma RecordChain(f: Framing, file: Bytes, qs: seq<nat>, end: nat, data: Bytes, j: nat)
    requires IsRecord(f, file, qs, end, data) && j < |qs|
    ensures var n := |qs| - 1;
            IsKind(f, file, qs[j], if n == 0 then 1 else if j == 0 then 2 else if j < n then 3 else 4)
    ensures After(f, file, qs[j]) == if j + 1 < |qs| then qs[j + 1] else end
  {
    var n := |qs| - 1;
    if j < n {
      var before :| IsOpen(f, file, qs[..n], qs[n], before) && data == before + DataAt(f, file, qs[n]);
      OpenChain(f, file, qs[..n], qs[n], before, j);
    }
  }

  //////////////////////////////////////////////////////////////////////////////
  // What is returned is a record.

  /** What the loop has collected when it stands at `p`. */
  ghost predicate Collecting(f: Framing, file: Bytes, p: nat, inside: bool, scratch: Bytes, qs: seq<nat>) {
    inside ==> IsOpen(f, file, qs, p, scratch)
  }

  /** One more fragment of an open chain. */
  lemma Middle(f: Framing, file: Bytes, p: nat, scratch: Bytes, qs: seq<nat>)
    requires IsOpen(f, file, qs, p, scratch) && IsKind(f, file, p, 3)
    ensures IsOpen(f, file, qs + [p], After(f, file, p), scratch + DataAt(f, file, p))
  {
    assert (qs + [p])[..|qs|] == qs;
  }

  lemma Last(f: Framing, file: Bytes, p: nat, scratch: Bytes, qs: seq<nat>)
    requires IsOpen(f, file, qs, p, scratch) && IsKind(f, file, p, 4)
    ensures IsRecord(f, file, qs + [p], After(f, file, p), scratch + DataAt(f, file, p))
  {
    assert (qs + [p])[..|qs|] == qs;
  }

  lemma {:induction false} ReturnedIsRecord(f: Framing, file: Bytes, p: nat, inside: bool, scratch: Bytes, qs: seq<nat>)
    returns (chain: seq<nat>)
    requires p <= |file| && Collecting(f, file, p, inside, scratch, qs)
    ensures var o := NextRecord(f, file, p, inside, scratch);
            o.record.Some? ==> IsRecord(f, file, chain, o.next, o.record.value)
    decreases |file| - p
  {
    chain := [];
    var s := ScanAt(f, file, p);
    var d := Collect(s.found, inside, scratch);
    if d.Return? {
      if IsKind(f, file, p, 1) {
        chain := [p];
      } else if IsKind(f, file, p, 4) && inside {
        chain := qs + [p];
        Last(f, file, p, scratch, qs);
      }
    } else {
      var qs' := [];
      if IsKind(f, file, p, 2) {
        qs' := [p];
      } else if IsKind(f, file, p, 3) && inside {
        qs' := qs + [p];
        Middle(f, file, p, scratch, qs);
      }
      chain := ReturnedIsRecord(f, file, s.next, d.inside, d.scratch, qs');
    }
  }

  /** Whatever a file holds, ReadRecord returns only records: the data of one full fragment, or of a first,
      middle and a last fragment that follow each other directly. */
  lemma OnlyRecordsAreReturned(f: Framing, file: Bytes, p: nat) returns (chain: seq<nat>)
    requires p <= |file|
    ensures var o := NextRecord(f, file, p, false, []);
            o.record.Some? ==> IsRecord(f, file, chain, o.next, o.record.value)
  {
    chain := ReturnedIsRecord(f, file, p, false, [], []);
  }

  //////////////////////////////////////////////////////////////////////////////
  // Which record is returned.

  /** Losing what was collected is reported, unless an empty first fragment is followed by a new record;
      an unknown fragment is reported in any case. */
  ghost predicate ReportsLoss(f: Framing, file: Bytes, p: nat, scratch: Bytes)
    requires p <= |file|
  {
    || !ScanAt(f, file, p).found.Fragment? || IsKind(f, file, p, 5) || IsKind(f, file, p, 6)
    || ((IsKind(f, file, p, 1) || IsKind(f, file, p, 2)) && scratch != [])
  }

  /** Anything but a middle or a last fragment discards what was collected: the reader goes on as if it
      began there. */
  lemma CollectedIsDiscarded(f: Framing, file: Bytes, p: nat, inside: bool, scratch: Bytes)
    requires p <= |file| && !IsKind(f, file, p, 3) && !IsKind(f, file, p, 4)
    ensures var o, anew := NextRecord(f, file, p, inside, scratch), NextRecord(f, file, p, false, []);
            && o.record == anew.record && o.next == anew.next
            && o.reports == anew.reports + if inside && ReportsLoss(f, file, p, scratch) then 1 else 0
  {
    var s := ScanAt(f, file, p);
    if s.found == BadRecord || IsKind(f, file, p, 6) {
      Unstarted(f, file, s.next, scratch);
    }
  }

  /** Outside a record nothing has been collected. */
  lemma {:induction false} Unstarted(f: Framing, file: Bytes, p: nat, scratch: Bytes)
    requires p <= |file|
    ensures NextRecord(f, file, p, false, scratch) == NextRecord(f, file, p, false, [])
    decreases |file| - p
  {
    var s := ScanAt(f, file, p);
    var d := Collect(s.found, false, scratch);
    if d.Continue? && !d.inside {
      Unstarted(f, file, s.next, d.scratch);
      Unstarted(f, file, s.next, Collect(s.found, false, []).scratch);
    }
  }

  /** A reader that stands where no record begins goes on behind what is there. */
  lemma StrayIsSkipped(f: Framing, file: Bytes, p: nat)
    requires p <= |file| && ScanAt(f, file, p).found != Eof
    requires !IsKind(f, file, p, 1) && !IsKind(f, file, p, 2) && !IsKind(f, file, p, 5)
    ensures var o, behind := NextRecord(f, file, p, false, []), NextRecord(f, file, After(f, file, p), false, []);
            o.record == behind.record && o.next == behind.next
  {
    var d := Collect(ScanAt(f, file, p).found, false, []);
    Unstarted(f, file, After(f, file, p), d.scratch);
  }

  /** An open chain is collected. */
  lemma {:induction false} OpenIsCollected(f: Framing, file: Bytes, qs: seq<nat>, p: nat, data: Bytes)
    requires IsOpen(f, file, qs, p, data)
    ensures p <= |file| && qs[0] <= |file|
    ensures var o, rest := NextRecord(f, file, qs[0], false, []), NextRecord(f, file, p, true, data);
            o.record == rest.record && o.next == rest.next
    decreases |qs|
  {
    var n := |qs| - 1;
    if n > 0 {
      var before :| IsOpen(f, file, qs[..n], qs[n], before) && data == before + DataAt(f, file, qs[n]);
      OpenIsCollected(f, file, qs[..n], qs[n], before);
    }
  }

  /** A reader that stands where a whole record begins returns it. */
  lemma RecordIsReturned(f: Framing, file: Bytes, qs: seq<nat>, end: nat, data: Bytes)
    requires IsRecord(f, file, qs, end, data)
    ensures qs[0] <= |file|
    ensures var o := NextRecord(f, file, qs[0], false, []); o.record == Some(data) && o.next == end
  {
    var n := |qs| - 1;
    if n > 0 {
      var before :| IsOpen(f, file, qs[..n], qs[n], before) && data == before + DataAt(f, file, qs[n]);
      OpenIsCollected(f, file, qs[..n], qs[n], before);
    }
  }

  /** A reader that stands at a first fragment whose record is broken off goes on at the break. */
  lemma BrokenRecordIsDropped(f: Framing, file: Bytes, qs: seq<nat>, p: nat, data: Bytes)
    requires IsOpen(f, file, qs, p, data) && p <= |file| && !IsKind(f, file, p, 3) && !IsKind(f, file, p, 4)
    ensures qs[0] <= |file|
    ensures var o, behind := NextRecord(f, file, qs[0], false, []), NextRecord(f, file, p, false, []);
            o.record == behind.record && o.next == behind.next
  {
    OpenIsCollected(f, file, qs, p, data);
    CollectedIsDiscarded(f, file, p, true, data);
  }

  //////////////////////////////////////////////////////////////////////////////
  // What a fragment is.

  /** There is a header at `q`, and behind it, within the block, the data that it describes. */
  ghost predicate FragmentAt(f: Framing, file: Bytes, q: nat, kind: nat, data: Bytes) {
    && q + 7 + |data| <= |file| && q + 7 + |data| <= BlockEnd(q)
    && (var low: nat, high: nat := file[q + 4], file[q + 5]; low + 256 * high == |data|) && file[q + 6] == kind
    && f.matches(file[q..q + 4], file[q + 6..q + 7 + |data|]) && file[q + 7..q + 7 + |data|] == data
  }

  /** A fragment that is found lies in the file at the position or at the beginning of the next block, and
      its checksum matches; what is not one takes the rest of its block with it. */
  lemma {:induction false} FoundIsInFile(f: Framing, file: Bytes, p: nat) returns (q: nat)
    requires p <= |file|
    ensures var s := ScanAt(f, file, p);
            && (q == p || q == BlockEnd(p))
            && match s.found
               case Fragment(kind, data) => FragmentAt(f, file, q, kind, data) && s.next == q + 7 + |data|
               case BadRecord => q <= |file| && s.next == if BlockEnd(q) < |file| then BlockEnd(q) else |file|
               case Eof => s.next == |file|
    decreases |file| - p
  {
    var end := Min(BlockEnd(p), |file|);
    q := p;
    if end - p < HEADER {
      if BlockEnd(p) <= |file| {
        BlockAfter(p);
        q := BlockEnd(p);
        var r := FoundIsInFile(f, file, BlockEnd(p));
      }
    } else {
      BufferHolds(f, file, p, end, file[p..end]);
    }
  }

  lemma BlockAfter(p: nat)
    ensures BlockEnd(BlockEnd(p)) == BlockEnd(p) + 32768
  {
    SameBlock(p, BlockEnd(p));
  }

  lemma BufferHolds(f: Framing, file: Bytes, p: nat, end: nat, b: Bytes)
    requires p + HEADER <= end <= |file| && end <= BlockEnd(p) && b == file[p..end]
    ensures match ScanBuffer(f, b).found
            case Fragment(kind, data) =>
              FragmentAt(f, file, p, kind, data) && p + ScanBuffer(f, b).next == p + 7 + |data|
            case BadRecord => p + ScanBuffer(f, b).next == end
            case Eof => false
  {
    var n := Length(b[4], b[5]);
    if HEADER + n <= |b| {
      LogTheorems.SubSlice(file, p, end, 0, 4);
      LogTheorems.SubSlice(file, p, end, 6, HEADER + n);
      LogTheorems.SubSlice(file, p, end, HEADER, HEADER + n);
    }
  }

  //////////////////////////////////////////////////////////////////////////////
  // What the writer writes.

  /** The type bytes of a record: 1 for a record in one piece; otherwise 2 for the first piece, 4 for the
      last one and 3 for all between them. */
  lemma {:induction false} WrittenKinds(p: nat, left: Bytes, begin: bool, xs: seq<Piece>, j: nat)
    requires xs == Pieces(p, left, begin) && j < |xs|
    ensures var last := j == |xs| - 1;
            xs[j].kind == if j == 0 && begin then (if last then 1 else 2) else (if last then 4 else 3)
    decreases |left|, Stalled(p, left)
  {
    var x, rest := LogTheorems.PiecesAre(p, left, begin, xs);
    if j > 0 {
      LogTheorems.PiecesShrink(p, left, x, rest);
      WrittenKinds(p + Size(x), rest, false, xs[1..], j - 1);
    } else if rest != [] {
      LogTheorems.PiecesAreCut(p + Size(x), rest, false, xs[1..]);
    }
  }
}
