/** Write batches and the history of acknowledged writes: the specification the store is held to
    (db/write_batch.cpp for how a batch numbers its operations). */
module History {
  import opened DbFormat

  datatype Op = Put(key: UserKey, value: Bytes) | Delete(key: UserKey)

  /** A batch that was given its first sequence number. */
  datatype Batch = Batch(first: nat, ops: seq<Op>)

  /** MemTableInserter: operation i of a batch is written with sequence number first + i. */
  function EntryAt(b: Batch, i: nat): Entry
    requires i < |b.ops|
  {
    match b.ops[i]
    case Put(k, v) => Entry(k, b.first + i, Value, v)
    case Delete(k) => Entry(k, b.first + i, Deletion, [])
  }

  ghost predicate InBatch(b: Batch, e: Entry) {
    exists i :: 0 <= i < |b.ops| && e == EntryAt(b, i)
  }

  ghost predicate InLog(log: seq<Batch>, e: Entry) {
    exists b :: b in log && InBatch(b, e)
  }

  ghost function LogEntries(log: seq<Batch>): iset<Entry> {
    iset e | InLog(log, e)
  }

  /** The last sequence number used by a history that starts at 1. */
  function End(log: seq<Batch>): nat {
    if log == [] then 0 else End(log[..|log| - 1]) + |log[|log| - 1].ops|
  }

  /** Each batch starts right after the previous one. */
  predicate Contiguous(log: seq<Batch>) {
    log == [] || (Contiguous(log[..|log| - 1]) && log[|log| - 1].first == End(log[..|log| - 1]) + 1)
  }

  lemma InLogConcat(a: seq<Batch>, b: seq<Batch>, e: Entry)
    ensures InLog(a + b, e) <==> InLog(a, e) || InLog(b, e)
  {
    if InLog(a + b, e) {
      var x :| x in a + b && InBatch(x, e);
      assert x in a || x in b;
    }
    if InLog(a, e) {
      var x :| x in a && InBatch(x, e);
      assert x in a + b;
    }
    if InLog(b, e) {
      var x :| x in b && InBatch(x, e);
      assert x in a + b;
    }
  }

  lemma LogEntriesConcat(a: seq<Batch>, b: seq<Batch>)
    ensures LogEntries(a + b) == LogEntries(a) + LogEntries(b)
  {
    forall e ensures InLog(a + b, e) <==> InLog(a, e) || InLog(b, e) {
      InLogConcat(a, b, e);
    }
  }

  lemma {:induction false} PrefixContiguous(log: seq<Batch>, n: nat)
    requires Contiguous(log) && n <= |log|
    ensures Contiguous(log[..n]) && End(log[..n]) <= End(log)
    decreases |log|
  {
    if n < |log| {
      var init := log[..|log| - 1];
      assert init[..n] == log[..n];
      PrefixContiguous(init, n);
    } else {
      assert log[..n] == log;
    }
  }

  /** Sequence numbers of a history lie between 1 and its end. */
  lemma {:induction false} SeqInRange(log: seq<Batch>, e: Entry)
    requires Contiguous(log) && InLog(log, e)
    ensures 1 <= e.sn <= End(log)
  {
    var init, last := log[..|log| - 1], log[|log| - 1];
    assert log == init + [last];
    InLogConcat(init, [last], e);
    if InLog(init, e) {
      SeqInRange(init, e);
    } else {
      var b :| b in [last] && InBatch(b, e);
    }
  }

  /** Later batches have larger sequence numbers. */
  lemma {:induction false} SeqAfter(log: seq<Batch>, n: nat, e: Entry)
    requires Contiguous(log) && n <= |log| && InLog(log[n..], e)
    ensures End(log[..n]) < e.sn <= End(log)
    decreases |log|
  {
    SuffixInLog(log, n, e);
    SeqInRange(log, e);
    var init, last := log[..|log| - 1], log[|log| - 1];
    var tail := log[n..|log| - 1];
    assert log[n..] == tail + [last];
    InLogConcat(tail, [last], e);
    assert init[..n] == log[..n];
    if InLog(tail, e) {
      assert init[n..] == tail;
      SeqAfter(init, n, e);
    } else {
      var b :| b in [last] && InBatch(b, e);
      PrefixContiguous(init, n);
    }
  }

  lemma SuffixInLog(log: seq<Batch>, n: nat, e: Entry)
    requires n <= |log| && InLog(log[n..], e)
    ensures InLog(log, e)
  {
    assert log == log[..n] + log[n..];
    InLogConcat(log[..n], log[n..], e);
  }

  /** No two operations of a history share a sequence number. */
  lemma {:induction false} HistoryUnique(log: seq<Batch>)
    requires Contiguous(log)
    ensures UniqueSeqs(LogEntries(log))
  {
    if log != [] {
      var n := |log| - 1;
      var init, last := log[..n], log[n];
      assert log == init + [last];
      HistoryUnique(init);
      LogEntriesConcat(init, [last]);
      forall e, d | e in LogEntries(log) && d in LogEntries(log) && e.sn == d.sn ensures e == d {
        InLastOrBefore(init, last, e);
        InLastOrBefore(init, last, d);
      }
    }
  }

  lemma InLastOrBefore(init: seq<Batch>, last: Batch, e: Entry)
    requires Contiguous(init) && last.first == End(init) + 1 && InLog(init + [last], e)
    ensures e.sn <= End(init) ==> InLog(init, e)
    ensures e.sn > End(init) ==> exists i :: 0 <= i < |last.ops| && e == EntryAt(last, i)
  {
    InLogConcat(init, [last], e);
    if InLog(init, e) {
      SeqInRange(init, e);
    } else {
      var b :| b in [last] && InBatch(b, e);
    }
  }

  /** A subset of a history has unique sequence numbers. */
  lemma UniqueSubset(all: iset<Entry>, part: iset<Entry>)
    requires UniqueSeqs(all) && part <= all
    ensures UniqueSeqs(part)
  {
  }

  //////////////////////////////////////////////////////////////////////////////
  // A history as a plain map.

  /** All operations of a history, one batch after the other. */
  function AllOps(log: seq<Batch>): (r: seq<Op>)
    ensures |r| == End(log)
  {
    if log == [] then [] else AllOps(log[..|log| - 1]) + log[|log| - 1].ops
  }

  /** A map from keys to values after some operations, the last one on a key deciding. */
  function Applied(ops: seq<Op>): map<UserKey, Bytes> {
    if ops == [] then map[]
    else
      var before := Applied(ops[..|ops| - 1]);
      match ops[|ops| - 1]
      case Put(k, v) => before[k := v]
      case Delete(k) => before - {k}
  }

  function Lookup(m: map<UserKey, Bytes>, k: UserKey): Option<Bytes> {
    if k in m then Some(m[k]) else None
  }

  /** The entry with sequence number `sn` is made of operation number `sn` of the history. */
  ghost predicate IsOperation(ops: seq<Op>, e: Entry) {
    && 1 <= e.sn <= |ops|
    && match ops[e.sn - 1]
       case Put(k, v) => e.key == k && e.kind.Value? && e.value == v
       case Delete(k) => e.key == k && e.kind.Deletion? && e.value == []
  }

  lemma {:induction false} EntriesAreOperations(log: seq<Batch>, e: Entry)
    requires Contiguous(log)
    ensures InLog(log, e) <==> IsOperation(AllOps(log), e)
  {
    if log != [] {
      var init, last := log[..|log| - 1], log[|log| - 1];
      assert log == init + [last];
      EntriesAreOperations(init, e);
      InLogConcat(init, [last], e);
      assert InLog([last], e) <==> InBatch(last, e) by { assert last in [last]; }
      LastOperations(init, last, e);
    }
  }

  /** The operations of the last batch are numbered in order, right after all others. */
  lemma LastOperations(init: seq<Batch>, last: Batch, e: Entry)
    requires last.first == End(init) + 1
    ensures IsOperation(AllOps(init) + last.ops, e) <==> IsOperation(AllOps(init), e) || InBatch(last, e)
  {
    var ops, n := AllOps(init) + last.ops, End(init);
    if IsOperation(ops, e) && e.sn > n {
      assert ops[e.sn - 1] == last.ops[e.sn - 1 - n];
      assert e == EntryAt(last, e.sn - 1 - n);
    }
    if i :| 0 <= i < |last.ops| && e == EntryAt(last, i) {
      assert ops[n + i] == last.ops[i];
    }
  }

  lemma HistoryOperations(log: seq<Batch>)
    requires Contiguous(log)
    ensures UniqueSeqs(LogEntries(log)) && forall e :: e in LogEntries(log) <==> IsOperation(AllOps(log), e)
  {
    HistoryUnique(log);
    forall e ensures e in LogEntries(log) <==> IsOperation(AllOps(log), e) {
      EntriesAreOperations(log, e);
    }
  }

  /** At sequence number `t` a history means the map after its first `t` operations. */
  lemma HistoryIsMap(log: seq<Batch>, k: UserKey, t: nat)
    requires Contiguous(log) && t <= End(log)
    ensures View(LogEntries(log), k, t) == Lookup(Applied(AllOps(log)[..t]), k)
  {
    HistoryOperations(log);
    OperationsAreMap(LogEntries(log), AllOps(log), k, t);
  }

  lemma {:induction false} OperationsAreMap(all: iset<Entry>, ops: seq<Op>, k: UserKey, t: nat)
    requires UniqueSeqs(all) && (forall e :: e in all <==> IsOperation(ops, e)) && t <= |ops|
    ensures View(all, k, t) == Lookup(Applied(ops[..t]), k)
    decreases t
  {
    if t == 0 {
      ViewIsNone(all, k, 0);
    } else {
      OperationsAreMap(all, ops, k, t - 1);
      LastOperationDecides(all, ops, k, t);
      OneMoreApplied(ops, k, t);
    }
  }

  lemma OneMoreApplied(ops: seq<Op>, k: UserKey, t: nat)
    requires 0 < t <= |ops|
    ensures Lookup(Applied(ops[..t]), k) == match ops[t - 1]
                                            case Put(j, v) =>
                                              if j == k then Some(v) else Lookup(Applied(ops[..t - 1]), k)
                                            case Delete(j) =>
                                              if j == k then None else Lookup(Applied(ops[..t - 1]), k)
  {
    assert ops[..t][..t - 1] == ops[..t - 1];
  }

  /** Going from one sequence number to the next, the operation there decides for its key and for no
      other. */
  lemma LastOperationDecides(all: iset<Entry>, ops: seq<Op>, k: UserKey, t: nat)
    requires UniqueSeqs(all) && (forall e :: e in all <==> IsOperation(ops, e)) && 0 < t <= |ops|
    ensures View(all, k, t) == match ops[t - 1]
                               case Put(j, v) => if j == k then Some(v) else View(all, k, t - 1)
                               case Delete(j) => if j == k then None else View(all, k, t - 1)
  {
    var e := match ops[t - 1] case Put(j, v) => Entry(j, t, Value, v) case Delete(j) => Entry(j, t, Deletion, []);
    assert IsOperation(ops, e);
    if e.key == k {
      assert IsNewest(all, k, t, e);
      ViewIs(all, k, t, e);
    } else {
      forall d | d in all ensures Visible(d, k, t) <==> Visible(d, k, t - 1) {
        assert d.sn == t ==> d == e;
      }
      SameNewest(all, k, t, t - 1);
    }
  }

  lemma SameNewest(all: iset<Entry>, k: UserKey, t: nat, u: nat)
    requires UniqueSeqs(all) && forall d :: d in all ==> (Visible(d, k, t) <==> Visible(d, k, u))
    ensures View(all, k, t) == View(all, k, u)
  {
    if e :| e in all && Visible(e, k, t) {
      var n := NewestExists(all, k, t, e);
      ViewIs(all, k, t, n);
      assert IsNewest(all, k, u, n);
      ViewIs(all, k, u, n);
    } else {
      ViewIsNone(all, k, t);
      ViewIsNone(all, k, u);
    }
  }
}
