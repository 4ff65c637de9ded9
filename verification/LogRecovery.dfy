/** Reading a log back into memtables (db/db_impl.cpp, RecoverLogFile), from the bytes of the file to the
    batches of the store. */
module LogRecovery {
  import opened DbFormat
  import opened Coding
  import opened History
  import opened LogFormat
  import opened LogReader
  import opened LogTheorems
  import opened WriteBatches
  import opened Engine
  import opened EngineRecovery
  import opened EngineTheorems
  import Manifest

  //////////////////////////////////////////////////////////////////////////////
  // What the records of a log stand for.

  /** The batches that the records are inserted as; a record too small for a header is skipped. */
  function Batches(rank: Bytes -> UserKey, rs: seq<Bytes>): seq<Batch> {
    if rs == [] then []
    else
      var r := rs[|rs| - 1];
      Batches(rank, rs[..|rs| - 1]) + (if |r| < BATCH_HEADER then [] else [ParsedBatch(rank, r)])
  }

  /** The count of a batch is read as a signed integer. */
  function Signed(n: nat): int {
    if n > MAX_RECORDS then n - LIMIT32 else n
  }

  function LastSequenceIn(r: Bytes): nat
    requires |r| >= BATCH_HEADER
  {
    (Unfixed(r[..8]) + Signed(Unfixed(r[8..12])) - 1) % LIMIT64
  }

  function LargestSequence(rs: seq<Bytes>, from: nat): nat {
    if rs == [] then from
    else
      var before, r := LargestSequence(rs[..|rs| - 1], from), rs[|rs| - 1];
      if |r| >= BATCH_HEADER && LastSequenceIn(r) > before then LastSequenceIn(r) else before
  }

  predicate WellFormed(rs: seq<Bytes>) {
    forall r :: r in rs ==> |r| >= BATCH_HEADER && Iterated(r).ok
  }

  function EntriesOfBatch(b: Batch): seq<Entry> {
    seq(|b.ops|, i requires 0 <= i < |b.ops| => EntryAt(b, i))
  }

  function EntriesOfAll(log: seq<Batch>): seq<Entry> {
    if log == [] then [] else EntriesOfAll(log[..|log| - 1]) + EntriesOfBatch(log[|log| - 1])
  }

  lemma {:induction false} EntriesAreInLog(log: seq<Batch>, e: Entry)
    ensures e in EntriesOfAll(log) <==> InLog(log, e)
  {
    if log != [] {
      var init, last := log[..|log| - 1], log[|log| - 1];
      EntriesAreInLog(init, e);
      assert log == init + [last];
      InLogConcat(init, [last], e);
      assert InLog([last], e) <==> InBatch(last, e) by { assert last in [last]; }
      assert InBatch(last, e) <==> e in EntriesOfBatch(last) by {
        if i :| 0 <= i < |last.ops| && e == EntryAt(last, i) {
          assert e == EntriesOfBatch(last)[i];
        }
      }
    }
  }

  //////////////////////////////////////////////////////////////////////////////
  // RecoverLogFile.

  /** The loop of RecoverLogFile; in paranoid mode the first report or malformed record ends it. */
  method RecoverLogFile(f: Framing, file: Bytes, rank: Bytes -> UserKey, paranoid: bool, max: nat)
    returns (ok: bool, entries: seq<Entry>, maxSequence: nat)
    ensures var got := ReadFrom(f, file, 0);
            && ok == (!paranoid || (got.reports == 0 && WellFormed(got.records)))
            && (ok ==> && entries == EntriesOfAll(Batches(rank, got.records))
                       && maxSequence == LargestSequence(got.records, max))
  {
    var reader := new Reader(f, file);
    ok, entries, maxSequence := true, [], max;
    ghost var done := [];
    var next := reader.ReadFirst();
    while next.Some? && ok && (!paranoid || reader.reports == 0)
      invariant fresh(reader) && reader.Valid() && reader.framing == f && reader.file == file
      invariant reader.Has(done, next)
      invariant Recovers(rank, paranoid, done, max, ok, entries, maxSequence)
      decreases next.Some?, |file| - reader.Position()
    {
      var r := next.value;
      ok, entries, maxSequence := RecoverRecord(r, rank, paranoid, entries, maxSequence, done, max);
      next := reader.ReadAfter(done, r);
      done := done + [r];
    }
    RecoveryEnds(f, file, done, next, reader.Position(), reader.reports, paranoid, ok);
    ok := ok && (!paranoid || reader.reports == 0);
  }

  /** What the loop has made of the records `done`. */
  ghost predicate Recovers(rank: Bytes -> UserKey, paranoid: bool, done: seq<Bytes>, from: nat,
                           ok: bool, entries: seq<Entry>, max: nat)
  {
    && ok == (!paranoid || WellFormed(done))
    && (ok ==> entries == EntriesOfAll(Batches(rank, done)) && max == LargestSequence(done, from))
  }

  method RecoverRecord(r: Bytes, rank: Bytes -> UserKey, paranoid: bool, entries: seq<Entry>, max: nat,
                       ghost done: seq<Bytes>, ghost from: nat)
    returns (ok: bool, entries': seq<Entry>, max': nat)
    requires Recovers(rank, paranoid, done, from, true, entries, max)
    ensures Recovers(rank, paranoid, done + [r], from, ok, entries', max')
  {
    OneMoreRecord(rank, done, r, from);
    if |r| < BATCH_HEADER {
      return !paranoid, entries, max;
    }
    var more, fine := InsertInto(r, rank);
    assert more == EntriesOfBatch(ParsedBatch(rank, r));
    ok, entries', max' := fine || !paranoid, entries + more, max;
    if ok && LastSequenceIn(r) > max {
      max' := LastSequenceIn(r);
    }
  }

  lemma OneMoreRecord(rank: Bytes -> UserKey, done: seq<Bytes>, r: Bytes, max: nat)
    ensures EntriesOfAll(Batches(rank, done + [r])) ==
            EntriesOfAll(Batches(rank, done)) + (if |r| < BATCH_HEADER then []
              else EntriesOfBatch(ParsedBatch(rank, r)))
    ensures var before := LargestSequence(done, max);
            LargestSequence(done + [r], max) ==
            if |r| >= BATCH_HEADER && LastSequenceIn(r) > before then LastSequenceIn(r) else before
    ensures WellFormed(done + [r]) <==> WellFormed(done) && |r| >= BATCH_HEADER && Iterated(r).ok
  {
    assert (done + [r])[..|done|] == done;
    var before := Batches(rank, done);
    if |r| >= BATCH_HEADER {
      assert (before + [ParsedBatch(rank, r)])[..|before|] == before;
    } else {
      assert before + [] == before;
    }
  }

  /** When the loop stops, either everything has been read or recovery fails. */
  lemma RecoveryEnds(f: Framing, file: Bytes, done: seq<Bytes>, next: Option<Bytes>, p: int, reports: nat,
                     paranoid: bool, ok: bool)
    requires ReadSoFar(f, file, done, next, p, reports) && ok == (!paranoid || WellFormed(done))
    requires next.None? || !ok || (paranoid && reports > 0)
    ensures var got := ReadFrom(f, file, 0);
            if next.None? then got == Recovered(done, reports)
            else paranoid && !(got.reports == 0 && WellFormed(got.records))
  {
    var got := ReadFrom(f, file, 0);
    if next.None? {
      AllRead(f, file, done, p, reports);
    } else if !ok {
      var r :| r in done && !(|r| >= BATCH_HEADER && Iterated(r).ok);
      assert r in got.records;
    }
  }

  //////////////////////////////////////////////////////////////////////////////
  // The logs of the store, from their bytes.

  /** `r` is what the write queue logged for batch `b`. */
  ghost predicate CarriesBatch(rank: Bytes -> UserKey, r: Bytes, b: Batch) {
    exists first, rs :: IsRepOf(rank, r, b, first, rs)
  }

  ghost predicate IsRepOf(rank: Bytes -> UserKey, r: Bytes, b: Batch, first: nat, rs: seq<Record>) {
    && r == Rep(first, rs) && b == BatchOf(rank, first, rs)
    && 0 < first < LIMIT64 && first + |rs| <= LIMIT64 && |rs| <= MAX_RECORDS && forall x :: x in rs ==> Storable(x)
  }

  /** What recovery makes of a record. */
  ghost predicate ReadsAsBatch(rank: Bytes -> UserKey, r: Bytes, b: Batch) {
    && |r| >= BATCH_HEADER && Iterated(r).ok && ParsedBatch(rank, r) == b
    && LastSequenceIn(r) == b.first + |b.ops| - 1
  }

  lemma SequenceInRange(r: Bytes, first: nat, count: nat)
    requires |r| >= BATCH_HEADER && Unfixed(r[..8]) == first && Unfixed(r[8..12]) == count
    requires 0 < first && first + count <= LIMIT64 && count <= MAX_RECORDS
    ensures LastSequenceIn(r) == first + count - 1
  {
  }

  lemma RepIsRecovered(rank: Bytes -> UserKey, r: Bytes, b: Batch, first: nat, rs: seq<Record>)
    requires IsRepOf(rank, r, b, first, rs)
    ensures ReadsAsBatch(rank, r, b)
  {
    BatchIsInserted(rank, first, rs);
    SequenceInRange(r, first, |rs|);
  }

  lemma CarriedIsRecovered(rank: Bytes -> UserKey, r: Bytes, b: Batch)
    requires CarriesBatch(rank, r, b)
    ensures ReadsAsBatch(rank, r, b)
  {
    var first, rs :| IsRepOf(rank, r, b, first, rs);
    RepIsRecovered(rank, r, b, first, rs);
  }

  function Larger(a: int, b: int): int {
    if a > b then a else b
  }

  /** The last of several batches. */
  lemma LastIsRecovered(rank: Bytes -> UserKey, rs: seq<Bytes>, log: seq<Batch>, n: nat)
    requires |rs| == |log| == n + 1 && ReadsAsBatch(rank, rs[n], log[n]) && Batches(rank, rs[..n]) == log[..n]
    ensures Batches(rank, rs) == log
  {
    assert log[..n] + [log[n]] == log;
  }

  lemma LastIsLargest(rank: Bytes -> UserKey, rs: seq<Bytes>, log: seq<Batch>, from: nat, n: nat)
    requires |rs| == |log| == n + 1 && ReadsAsBatch(rank, rs[n], log[n])
    requires LargestSequence(rs[..n], from) == Larger(MaxSequence(log[..n]), from)
    ensures LargestSequence(rs, from) == Larger(MaxSequence(log), from)
  {
  }

  lemma {:induction false} AllAreRecovered(rank: Bytes -> UserKey, rs: seq<Bytes>, log: seq<Batch>, from: nat)
    requires |rs| == |log|
    requires forall i {:trigger ReadsAsBatch(rank, rs[i], log[i])} :: 0 <= i < |rs| ==>
             ReadsAsBatch(rank, rs[i], log[i])
    ensures Batches(rank, rs) == log && LargestSequence(rs, from) == Larger(MaxSequence(log), from)
  {
    if rs != [] {
      var n := |rs| - 1;
      forall i {:trigger ReadsAsBatch(rank, rs[..n][i], log[..n][i])} | 0 <= i < n
        ensures ReadsAsBatch(rank, rs[..n][i], log[..n][i])
      {
        assert ReadsAsBatch(rank, rs[i], log[i]);
      }
      AllAreRecovered(rank, rs[..n], log[..n], from);
      assert ReadsAsBatch(rank, rs[n], log[n]);
      LastIsRecovered(rank, rs, log, n);
      LastIsLargest(rank, rs, log, from, n);
    }
  }

  lemma CarriedAreRecovered(rank: Bytes -> UserKey, rs: seq<Bytes>, log: seq<Batch>, from: nat)
    requires |rs| == |log| && forall i :: 0 <= i < |rs| ==> CarriesBatch(rank, rs[i], log[i])
    ensures Batches(rank, rs) == log && WellFormed(rs) && LargestSequence(rs, from) == Larger(MaxSequence(log), from)
  {
    forall i | 0 <= i < |rs| ensures ReadsAsBatch(rank, rs[i], log[i]) {
      CarriedIsRecovered(rank, rs[i], log[i]);
    }
    AllAreRecovered(rank, rs, log, from);
  }

  /** The file holds the records of `log` and less than one more. */
  ghost predicate HoldsLog(f: Framing, rank: Bytes -> UserKey, file: Bytes, log: seq<Batch>) {
    exists rs, b, n :: IsLogFile(f, rank, file, log, rs, b, n)
  }

  ghost predicate IsLogFile(f: Framing, rank: Bytes -> UserKey, file: Bytes, log: seq<Batch>, rs: seq<Bytes>, b: Bytes,
                            n: nat)
  {
    && |rs| == |log| && (forall i :: 0 <= i < |rs| ==> CarriesBatch(rank, rs[i], log[i]))
    && LogSize(rs) <= n < LogSize(rs + [b]) && n <= |LogBytes(f, rs + [b])| && file == LogBytes(f, rs + [b])[..n]
  }

  /** A log recovers to its batches, wherever the record behind them was cut; in paranoid mode it fails
      unless the cut ends cleanly. */
  lemma LogRecovers(f: Framing, rank: Bytes -> UserKey, file: Bytes, log: seq<Batch>, rs: seq<Bytes>, b: Bytes, n: nat)
    requires Lawful(f) && IsLogFile(f, rank, file, log, rs, b, n)
    ensures var got := ReadFrom(f, file, 0);
            && Batches(rank, got.records) == log && WellFormed(got.records)
            && (forall from: nat :: LargestSequence(got.records, from) == Larger(MaxSequence(log), from))
            && (got.reports == 0 <==> EndsCleanly(file, LogSize(rs)))
  {
    CutInLast(f, rs, b, n);
    TruncatedLog(f, rs + [b], n);
    forall from: nat ensures LargestSequence(rs, from) == Larger(MaxSequence(log), from) {
      CarriedAreRecovered(rank, rs, log, from);
    }
    CarriedAreRecovered(rank, rs, log, 0);
  }

  /** The batches read from several files. */
  function ReadFiles(f: Framing, rank: Bytes -> UserKey, files: map<nat, Bytes>, order: seq<nat>): seq<Batch>
    requires forall n :: n in order ==> n in files
  {
    if order == [] then []
    else
      var last := order[|order| - 1];
      ReadFiles(f, rank, files, order[..|order| - 1]) + Batches(rank, ReadFrom(f, files[last], 0).records)
  }

  lemma {:induction false} FilesAreLogs(f: Framing, rank: Bytes -> UserKey, files: map<nat, Bytes>,
                                        logs: map<nat, seq<Batch>>, order: seq<nat>)
    requires Lawful(f) && forall n :: n in order ==> n in logs && n in files && HoldsLog(f, rank, files[n], logs[n])
    ensures ReadFiles(f, rank, files, order) == ReadLogs(logs, order)
  {
    if order != [] {
      var last := order[|order| - 1];
      FilesAreLogs(f, rank, files, logs, order[..|order| - 1]);
      assert HoldsLog(f, rank, files[last], logs[last]);
      var rs, b, n :| IsLogFile(f, rank, files[last], logs[last], rs, b, n);
      LogRecovers(f, rank, files[last], logs[last], rs, b, n);
    }
  }

  /** In every reachable state, the bytes of the logs that recovery reads, each with whatever a crash left
      of one more record, give back exactly the batches that no table covers. */
  lemma ReachableLogsRecover(states: seq<State>, steps: seq<Step>, i: nat,
                             f: Framing, rank: Bytes -> UserKey, files: map<nat, Bytes>, order: seq<nat>)
    requires IsRun(states, steps) && i < |states| && Lawful(f)
    requires RecoveryOrder(states[i].logs, states[i].logNumber, order)
    requires forall n :: n in order ==> n in files && HoldsLog(f, rank, files[n], states[i].logs[n])
    ensures states[i].flushed <= |LoggedHistory(states[i])|
    ensures ReadFiles(f, rank, files, order) == LoggedHistory(states[i])[states[i].flushed..]
  {
    RunStructure(states, steps, i);
    FilesAreLogs(f, rank, files, states[i].logs, order);
    RecoveredBatches(states[i], order);
  }

  /** Manifest and logs together, from their bytes: in every reachable state, the larger of the last
      sequence in the manifest and the largest one in the logs is that of the last logged operation. */
  lemma ReachableSequenceRecovers(states: seq<State>, steps: seq<Step>, i: nat, f: Framing, rank: Bytes -> UserKey,
                                  comparator: Bytes, bs: seq<Bytes>, files: map<nat, Bytes>, order: seq<nat>)
    requires IsRun(states, steps) && i < |states| && Lawful(f)
    requires |bs| == |states[i].manifest|
    requires forall j :: 0 <= j < |bs| ==> Manifest.Carries(rank, comparator, bs[j], states[i].manifest[j])
    requires RecoveryOrder(states[i].logs, states[i].logNumber, order)
    requires forall n :: n in order ==> n in files && HoldsLog(f, rank, files[n], states[i].logs[n])
    ensures var r := Manifest.Recovery(f, LogBytes(f, bs), rank, comparator);
            r.Some? && Larger(r.value.lastSequence, MaxSequence(ReadFiles(f, rank, files, order))) ==
                       End(LoggedHistory(states[i]))
  {
    var s := states[i];
    var h, n := LoggedHistory(s), s.flushed;
    Manifest.ReachableManifestRecovers(states, steps, i, f, rank, comparator, bs);
    ReachableLogsRecover(states, steps, i, f, rank, files, order);
    RunStructure(states, steps, i);
    LoggedContiguous(s);
    MaxSequenceIsEnd(h, n);
    assert h[..n] == s.history[..n];
    if n == |h| {
      assert h[..n] == h && h[n..] == [];
    }
  }
}
