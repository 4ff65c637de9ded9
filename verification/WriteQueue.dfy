/** Group commit: the queue of writers (db/db_impl.cpp: Write, BuildBatchGroup).

    Writers arrive at any time and are served in groups by the writer at the front.  The steps are the
    stretches between the points where the mutex is released or taken, and the leader's insertions,
    which readers may interleave with, one by one. */
module WriteQueue {
  import opened DbFormat
  import opened History

  /** A batch: its operations and the size of its encoding. */
  datatype Payload = Payload(ops: seq<Op>, size: nat)

  /** A queued writer; no batch is a request for a compaction. */
  datatype Writer = Writer(batch: Option<Payload>, sync: bool)

  function OpsOf(w: Writer): seq<Op> {
    if w.batch.Some? then w.batch.value.ops else []
  }

  //////////////////////////////////////////////////////////////////////////////
  // Building a group.

  const MAX_GROUP: nat := 0x10_0000
  const SMALL: nat := 0x2_0000

  function MaxSize(first: nat): nat {
    if first <= SMALL then first + SMALL else MAX_GROUP
  }

  /** The operations of the first `n` writers, in queue order. */
  function GroupOps(queue: seq<Writer>, n: nat): seq<Op>
    requires n <= |queue|
  {
    if n == 0 then [] else GroupOps(queue, n - 1) + OpsOf(queue[n - 1])
  }

  function GroupSize(queue: seq<Writer>, n: nat): nat
    requires n <= |queue|
  {
    if n == 0 then 0
    else GroupSize(queue, n - 1) + if queue[n - 1].batch.Some? then queue[n - 1].batch.value.size else 0
  }

  /** The size of a group adds up the batches of its writers, and nothing for a writer without one. */
  lemma {:induction false} GroupSizeAdds(a: seq<Writer>, b: seq<Writer>, w: Writer)
    ensures GroupSize(a + b, |a| + |b|) == GroupSize(a, |a|) + GroupSize(b, |b|)
    ensures GroupSize([w], 1) == if w.batch.Some? then w.batch.value.size else 0
    decreases |b|
  {
    assert GroupSize([w], 0) == 0;
    if b == [] {
      assert a + b == a;
    } else {
      var b' := b[..|b| - 1];
      GroupSizeAdds(a, b', w);
      GroupSizePrefix(a + b, a + b', |a| + |b'|);
      GroupSizePrefix(b, b', |b'|);
    }
  }

  lemma {:induction false} GroupSizePrefix(queue: seq<Writer>, queue': seq<Writer>, n: nat)
    requires n <= |queue| && n <= |queue'| && queue[..n] == queue'[..n]
    ensures GroupSize(queue, n) == GroupSize(queue', n)
  {
    if n > 0 {
      assert queue[..n][n - 1] == queue'[..n][n - 1];
      assert queue[..n - 1] == queue[..n][..n - 1] == queue'[..n][..n - 1] == queue'[..n - 1];
      GroupSizePrefix(queue, queue', n - 1);
    }
  }

  /** Writer `i` may not join the group led by writer 0. */
  predicate Refused(queue: seq<Writer>, i: nat)
    requires 0 < i < |queue| && queue[0].batch.Some?
  {
    || (queue[i].sync && !queue[0].sync)
    || (queue[i].batch.Some? && GroupSize(queue, i + 1) > MaxSize(queue[0].batch.value.size))
  }

  /** A group takes writers until one is refused. */
  ghost predicate IsGroup(queue: seq<Writer>, n: nat)
    requires queue != [] && queue[0].batch.Some?
  {
    1 <= n <= |queue| && Accepted(queue, n) && (n < |queue| ==> Refused(queue, n))
  }

  ghost predicate Accepted(queue: seq<Writer>, n: nat)
    requires n <= |queue| && queue != [] && queue[0].batch.Some?
  {
    forall i {:trigger Refused(queue, i)} :: 0 < i < n ==> !Refused(queue, i)
  }

  /** Some other writer of the group has a batch too. */
  ghost predicate SharesBatch(queue: seq<Writer>, n: nat)
    requires n <= |queue|
  {
    exists i :: 0 < i < n && queue[i].batch.Some?
  }

  lemma GroupOfOne(queue: seq<Writer>)
    requires queue != [] && queue[0].batch.Some?
    ensures GroupOps(queue, 1) == queue[0].batch.value.ops && GroupSize(queue, 1) == queue[0].batch.value.size
  {
    assert GroupOps(queue, 0) == [] && GroupSize(queue, 0) == 0;
  }

  lemma SharesOneMore(queue: seq<Writer>, n: nat)
    requires 0 < n < |queue|
    ensures SharesBatch(queue, n + 1) <==> SharesBatch(queue, n) || queue[n].batch.Some?
    ensures !SharesBatch(queue, n) ==> GroupOps(queue, n) == OpsOf(queue[0])
  {
    if !SharesBatch(queue, n) {
      SingleBatch(queue, n);
    }
  }

  /** What the leader logs and inserts: its own batch as it is, or, if another batch joins it, the
      temporary one with the batches of the group appended to whatever it held. */
  ghost function Updates(queue: seq<Writer>, n: nat, tmp: seq<Op>): seq<Op>
    requires 0 < n <= |queue|
  {
    if SharesBatch(queue, n) then tmp + GroupOps(queue, n) else OpsOf(queue[0])
  }

  lemma OneMoreWriter(queue: seq<Writer>, n: nat, tmp: seq<Op>)
    requires 0 < n < |queue|
    ensures SharesBatch(queue, n + 1) <==> SharesBatch(queue, n) || queue[n].batch.Some?
    ensures Updates(queue, n + 1, tmp) ==
            if queue[n].batch.None? then Updates(queue, n, tmp)
            else (if SharesBatch(queue, n) then Updates(queue, n, tmp) else tmp + OpsOf(queue[0])) + OpsOf(queue[n])
  {
    SharesOneMore(queue, n);
    var before, more := GroupOps(queue, n), OpsOf(queue[n]);
    assert GroupOps(queue, n + 1) == before + more;
    assert tmp + (before + more) == (tmp + before) + more;
    assert queue[n].batch.None? ==> before + more == before;
  }

  lemma UpdatesOfEmpty(queue: seq<Writer>, n: nat)
    requires 0 < n <= |queue|
    ensures Updates(queue, n, []) == GroupOps(queue, n)
  {
    if SharesBatch(queue, n) {
      assert [] + GroupOps(queue, n) == GroupOps(queue, n);
    } else {
      SingleBatch(queue, n);
    }
  }

  /** What stops a group: with 128 KB at most in its first batch it grows by 128 KB at most, and otherwise
      to 1 MB at most; and it leaves out the next writer only for that or for its sync. */
  ghost predicate WithinLimit(queue: seq<Writer>, n: nat)
    requires 0 < n <= |queue| && queue[0].batch.Some?
  {
    var first := queue[0].batch.value.size;
    var limit := if first <= 131072 then first + 131072 else 1048576;
    && (SharesBatch(queue, n) ==> GroupSize(queue, n) <= limit)
    && (n < |queue| ==>
          || (queue[n].sync && !queue[0].sync)
          || (queue[n].batch.Some? && GroupSize(queue, n) + queue[n].batch.value.size > limit))
  }

  lemma GroupIsWithinLimit(queue: seq<Writer>, n: nat)
    requires queue != [] && queue[0].batch.Some? && IsGroup(queue, n)
    ensures WithinLimit(queue, n)
  {
    if SharesBatch(queue, n) {
      AcceptedFits(queue, n);
    }
    if n < |queue| {
      assert Refused(queue, n);
    }
  }

  lemma {:induction false} AcceptedFits(queue: seq<Writer>, n: nat)
    requires 0 < n <= |queue| && queue[0].batch.Some? && Accepted(queue, n) && SharesBatch(queue, n)
    ensures GroupSize(queue, n) <= MaxSize(queue[0].batch.value.size)
  {
    assert !Refused(queue, n - 1);
    if queue[n - 1].batch.None? {
      AcceptedFits(queue, n - 1);
    }
  }

  method BuildBatchGroup(queue: seq<Writer>, tmp: seq<Op>) returns (n: nat, updates: seq<Op>, tmp': seq<Op>)
    requires queue != [] && queue[0].batch.Some?
    ensures IsGroup(queue, n) && WithinLimit(queue, n) && updates == Updates(queue, n, tmp)
    ensures tmp' == if SharesBatch(queue, n) then updates else tmp
    ensures tmp == [] ==> updates == GroupOps(queue, n)
  {
    var first := queue[0].batch.value;
    var size, maxSize := first.size, MaxSize(first.size);
    updates, tmp' := first.ops, tmp;
    var useTmp := false;
    n := 1;
    GroupOfOne(queue);
    while n < |queue|
      invariant 1 <= n <= |queue| && size == GroupSize(queue, n) && updates == Updates(queue, n, tmp)
      invariant Accepted(queue, n)
      invariant useTmp == SharesBatch(queue, n) && tmp' == if useTmp then updates else tmp
    {
      var w := queue[n];
      assert GroupSize(queue, n + 1) == size + if w.batch.Some? then w.batch.value.size else 0;
      OneMoreWriter(queue, n, tmp);
      if w.sync && !queue[0].sync {
        break;
      }
      if w.batch.Some? {
        size := size + w.batch.value.size;
        if size > maxSize {
          break;
        }
        if !useTmp {
          tmp', useTmp := tmp' + first.ops, true;
        }
        tmp' := tmp' + w.batch.value.ops;
        updates := tmp';
      }
      n := n + 1;
    }
    UpdatesOfEmpty(queue, n);
    GroupIsWithinLimit(queue, n);
  }

  /** Requests without a batch add nothing to a group. */
  lemma {:induction false} SingleBatch(queue: seq<Writer>, n: nat)
    requires 1 <= n <= |queue| && forall i :: 0 < i < n ==> queue[i].batch.None?
    ensures GroupOps(queue, n) == OpsOf(queue[0])
  {
    if n > 1 {
      SingleBatch(queue, n - 1);
    }
  }

  /** No sync write rides in a group that is not synced. */
  lemma SyncedTogether(queue: seq<Writer>, n: nat, i: nat)
    requires queue != [] && queue[0].batch.Some? && IsGroup(queue, n) && i < n
    ensures queue[i].sync ==> queue[0].sync
  {
    if i > 0 {
      assert !Refused(queue, i);
    }
  }

  //////////////////////////////////////////////////////////////////////////////
  // The queue as a state machine.

  /** The front writer at work on a group of `n` writers: whether its updates are in the temporary batch,
      whether it has logged the group, whether that went well, and how many operations it has inserted. */
  datatype Leader = Leader(n: nat, ops: seq<Op>, inTmp: bool, logged: bool, ok: bool, done: nat)

  /** How a writer finished: its status, the sequence number given to its first operation if it was in a
      group, and the writer that led it, by order of arrival. */
  datatype Result = Result(ok: bool, first: Option<nat>, leader: nat)

  /** `mem` holds the operation inserted for each sequence number; `arrived` and `finished` record, in
      order, every writer that came and how those that finished did. */
  datatype State = State(queue: seq<Writer>, leader: Option<Leader>, tmp: seq<Op>, lastSequence: nat,
                         mem: map<nat, Op>, arrived: seq<Writer>, finished: seq<Result>)

  datatype Step =
    | Arrive(w: Writer)
    | ServeAlone(ok: bool)
    | FormGroup(n: nat)
    | AppendLog(ok: bool)
    | InsertNext
    | FinishGroup

  ghost predicate Init(s: State) {
    s == State([], None, [], 0, map[], [], [])
  }

  ghost predicate ArriveStep(s: State, w: Writer, s': State) {
    s' == s.(queue := s.queue + [w], arrived := s.arrived + [w])
  }

  /** A writer without a batch, or for whom no room could be made, finishes without a group. */
  ghost predicate ServeAloneStep(s: State, ok: bool, s': State) {
    && s.leader.None? && s.queue != [] && (s.queue[0].batch.None? || !ok)
    && s' == s.(queue := s.queue[1..], finished := s.finished + [Result(ok, None, |s.finished|)])
  }

  ghost predicate FormGroupStep(s: State, n: nat, s': State) {
    && s.leader.None? && s.queue != [] && s.queue[0].batch.Some? && IsGroup(s.queue, n)
    && var ops, shared := Updates(s.queue, n, s.tmp), SharesBatch(s.queue, n);
    s' == s.(leader := Some(Leader(n, ops, shared, false, true, 0)), tmp := if shared then ops else s.tmp)
  }

  ghost predicate AppendLogStep(s: State, ok: bool, s': State) {
    && s.leader.Some? && !s.leader.value.logged
    && s' == s.(leader := Some(s.leader.value.(logged := true, ok := ok)))
  }

  ghost predicate InsertNextStep(s: State, s': State) {
    && s.leader.Some? && s.leader.value.logged && s.leader.value.ok && s.leader.value.done < |s.leader.value.ops|
    && var l := s.leader.value;
    s' == s.(leader := Some(l.(done := l.done + 1)), mem := s.mem[s.lastSequence + 1 + l.done := l.ops[l.done]])
  }

  /** What the writers of a group are told. */
  function GroupResults(queue: seq<Writer>, n: nat, last: nat, ok: bool, leader: nat): (r: seq<Result>)
    requires n <= |queue|
    ensures |r| == n
  {
    if n == 0 then []
    else GroupResults(queue, n - 1, last, ok, leader) + [Result(ok, Some(last + 1 + |GroupOps(queue, n - 1)|), leader)]
  }

  ghost predicate FinishGroupStep(s: State, s': State) {
    && s.leader.Some? && s.leader.value.logged && s.leader.value.n <= |s.queue|
    && var l := s.leader.value;
    && (l.ok ==> l.done == |l.ops|)
    && s' == s.(queue := s.queue[l.n..], leader := None, tmp := if l.inTmp then [] else s.tmp,
                lastSequence := s.lastSequence + |l.ops|,
                finished := s.finished + GroupResults(s.queue, l.n, s.lastSequence, l.ok, |s.finished|))
  }

  ghost predicate Next(s: State, step: Step, s': State) {
    match step
    case Arrive(w) => ArriveStep(s, w, s')
    case ServeAlone(ok) => ServeAloneStep(s, ok, s')
    case FormGroup(n) => FormGroupStep(s, n, s')
    case AppendLog(ok) => AppendLogStep(s, ok, s')
    case InsertNext => InsertNextStep(s, s')
    case FinishGroup => FinishGroupStep(s, s')
  }

  //////////////////////////////////////////////////////////////////////////////
  // The invariant.

  /** The sequence numbers given to the first `k` writers. */
  function Used(arrived: seq<Writer>, finished: seq<Result>, k: nat): nat
    requires k <= |finished| <= |arrived|
  {
    if k == 0 then 0
    else Used(arrived, finished, k - 1) + if finished[k - 1].first.Some? then |OpsOf(arrived[k - 1])| else 0
  }

  /** Writers finish in the order they came. */
  ghost predicate InOrder(queue: seq<Writer>, arrived: seq<Writer>, finished: seq<Result>) {
    |finished| <= |arrived| && queue == arrived[|finished|..]
  }

  /** Ranges of sequence numbers follow each other in queue order. */
  ghost predicate Numbered(arrived: seq<Writer>, finished: seq<Result>, last: nat) {
    && |finished| <= |arrived| && last == Used(arrived, finished, |finished|)
    && forall i {:trigger StartsRange(arrived, finished, i)} :: 0 <= i < |finished| ==>
       StartsRange(arrived, finished, i)
  }

  ghost predicate StartsRange(arrived: seq<Writer>, finished: seq<Result>, i: nat)
    requires i < |finished| <= |arrived|
  {
    finished[i].first.Some? ==> finished[i].first.value == Used(arrived, finished, i) + 1
  }

  /** The members of a group have the status of their leader, and none is synced without it. */
  ghost predicate Grouped(arrived: seq<Writer>, finished: seq<Result>) {
    |finished| <= |arrived| && forall i {:trigger Follows(arrived, finished, i)} :: 0 <= i < |finished| ==>
      Follows(arrived, finished, i)
  }

  ghost predicate Follows(arrived: seq<Writer>, finished: seq<Result>, i: nat)
    requires i < |finished| <= |arrived|
  {
    && finished[i].leader <= i && finished[i].ok == finished[finished[i].leader].ok
    && (arrived[i].sync ==> arrived[finished[i].leader].sync)
  }

  /** The operations `ops`, numbered from `first`, are all in the memtable, or all not. */
  ghost predicate Stored(mem: map<nat, Op>, first: nat, ops: seq<Op>, all: bool)
    decreases |ops|
  {
    ops == [] ||
    ((if all then first in mem && mem[first] == ops[0] else first !in mem) && Stored(mem, first + 1, ops[1..], all))
  }

  ghost predicate AllOrNone(mem: map<nat, Op>, arrived: seq<Writer>, finished: seq<Result>) {
    && |finished| <= |arrived|
    && forall i :: 0 <= i < |finished| && finished[i].first.Some? ==>
         Stored(mem, finished[i].first.value, OpsOf(arrived[i]), finished[i].ok)
  }

  ghost predicate LeaderOk(queue: seq<Writer>, l: Leader) {
    && queue != [] && queue[0].batch.Some? && 1 <= l.n <= |queue|
    && l.ops == GroupOps(queue, l.n) && l.done <= |l.ops|
    && (forall i :: 0 <= i < l.n ==> queue[i].sync ==> queue[0].sync)
    && (l.done > 0 ==> l.logged && l.ok)
  }

  ghost predicate MemOk(mem: map<nat, Op>, last: nat, leader: Option<Leader>) {
    var done := if leader.Some? then leader.value.done else 0;
    && (forall q :: q in mem ==> q <= last + done)
    && (leader.Some? ==> done <= |leader.value.ops| && Stored(mem, last + 1, leader.value.ops[..done], true))
  }

  ghost predicate Inv(s: State) {
    && InOrder(s.queue, s.arrived, s.finished) && Numbered(s.arrived, s.finished, s.lastSequence)
    && Grouped(s.arrived, s.finished) && AllOrNone(s.mem, s.arrived, s.finished)
    && (s.leader.Some? ==> LeaderOk(s.queue, s.leader.value))
       && (s.leader.None? || !s.leader.value.inTmp ==> s.tmp == [])
    && MemOk(s.mem, s.lastSequence, s.leader)
  }

  lemma InitInv(s: State)
    requires Init(s)
    ensures Inv(s)
  {
  }

  lemma {:induction false} UsedMonotone(arrived: seq<Writer>, finished: seq<Result>, i: nat, k: nat)
    requires i < k <= |finished| <= |arrived|
    ensures Used(arrived, finished, i) + (if finished[i].first.Some? then |OpsOf(arrived[i])|
            else 0) <= Used(arrived, finished, k)
    decreases k
  {
    if i < k - 1 {
      UsedMonotone(arrived, finished, i, k - 1);
    }
  }

  //////////////////////////////////////////////////////////////////////////////
  // One more arrival.

  lemma {:induction false} UsedArrival(arrived: seq<Writer>, finished: seq<Result>, k: nat, w: Writer)
    requires k <= |finished| <= |arrived|
    ensures Used(arrived + [w], finished, k) == Used(arrived, finished, k)
  {
    if k > 0 {
      UsedArrival(arrived, finished, k - 1, w);
    }
  }

  lemma ArrivalNumbered(arrived: seq<Writer>, finished: seq<Result>, last: nat, w: Writer)
    requires Numbered(arrived, finished, last)
    ensures Numbered(arrived + [w], finished, last)
  {
    UsedArrival(arrived, finished, |finished|, w);
    forall i | 0 <= i < |finished| ensures StartsRange(arrived + [w], finished, i) {
      UsedArrival(arrived, finished, i, w);
      assert StartsRange(arrived, finished, i);
    }
  }

  lemma ArrivalGrouped(mem: map<nat, Op>, arrived: seq<Writer>, finished: seq<Result>, w: Writer)
    requires Grouped(arrived, finished) && AllOrNone(mem, arrived, finished)
    ensures Grouped(arrived + [w], finished) && AllOrNone(mem, arrived + [w], finished)
  {
    forall i | 0 <= i < |finished| ensures Follows(arrived + [w], finished, i) {
      assert Follows(arrived, finished, i);
    }
  }

  /** More arrivals change nothing about the operations of a group. */
  lemma {:induction false} GroupOpsPrefix(queue: seq<Writer>, more: seq<Writer>, n: nat)
    requires n <= |queue|
    ensures GroupOps(queue + more, n) == GroupOps(queue, n)
  {
    if n > 0 {
      GroupOpsPrefix(queue, more, n - 1);
    }
  }

  lemma ArrivalLeader(queue: seq<Writer>, l: Leader, w: Writer)
    requires LeaderOk(queue, l)
    ensures LeaderOk(queue + [w], l)
  {
    GroupOpsPrefix(queue, [w], l.n);
  }

  lemma ArriveInv(s: State, w: Writer, s': State)
    requires Inv(s) && ArriveStep(s, w, s')
    ensures Inv(s')
  {
    ArrivalNumbered(s.arrived, s.finished, s.lastSequence, w);
    ArrivalGrouped(s.mem, s.arrived, s.finished, w);
    if s.leader.Some? {
      ArrivalLeader(s.queue, s.leader.value, w);
    }
  }

  //////////////////////////////////////////////////////////////////////////////
  // One more result.

  lemma {:induction false} UsedResult(arrived: seq<Writer>, finished: seq<Result>, k: nat, r: Result)
    requires k <= |finished| < |arrived|
    ensures Used(arrived, finished + [r], k) == Used(arrived, finished, k)
  {
    if k > 0 {
      UsedResult(arrived, finished, k - 1, r);
    }
  }

  /** The next range begins where the last one ended. */
  lemma ResultNumbered(arrived: seq<Writer>, finished: seq<Result>, last: nat, r: Result)
    requires Numbered(arrived, finished, last) && |finished| < |arrived|
    requires r.first.Some? ==> r.first.value == last + 1
    ensures Numbered(arrived, finished + [r], last + if r.first.Some? then |OpsOf(arrived[|finished|])| else 0)
  {
    UsedResult(arrived, finished, |finished|, r);
    forall i | 0 <= i < |finished + [r]| ensures StartsRange(arrived, finished + [r], i) {
      UsedResult(arrived, finished, i, r);
      assert i < |finished| ==> StartsRange(arrived, finished, i);
    }
  }

  lemma ResultGrouped(arrived: seq<Writer>, finished: seq<Result>, r: Result)
    requires Grouped(arrived, finished) && |finished| < |arrived| && r.leader <= |finished|
    requires r.leader < |finished| ==> r.ok == finished[r.leader].ok
    requires arrived[|finished|].sync ==> arrived[r.leader].sync
    ensures Grouped(arrived, finished + [r])
  {
    forall i | 0 <= i < |finished + [r]| ensures Follows(arrived, finished + [r], i) {
      assert i < |finished| ==> Follows(arrived, finished, i);
    }
  }

  lemma ResultAllOrNone(mem: map<nat, Op>, arrived: seq<Writer>, finished: seq<Result>, r: Result)
    requires AllOrNone(mem, arrived, finished) && |finished| < |arrived|
    requires r.first.Some? ==> Stored(mem, r.first.value, OpsOf(arrived[|finished|]), r.ok)
    ensures AllOrNone(mem, arrived, finished + [r])
  {
  }

  lemma ServeAloneInv(s: State, ok: bool, s': State)
    requires Inv(s) && ServeAloneStep(s, ok, s')
    ensures Inv(s')
  {
    var r := Result(ok, None, |s.finished|);
    ResultNumbered(s.arrived, s.finished, s.lastSequence, r);
    ResultGrouped(s.arrived, s.finished, r);
    ResultAllOrNone(s.mem, s.arrived, s.finished, r);
  }

  lemma FormGroupInv(s: State, n: nat, s': State)
    requires Inv(s) && FormGroupStep(s, n, s')
    ensures Inv(s')
  {
    forall i | 0 <= i < n ensures s.queue[i].sync ==> s.queue[0].sync {
      SyncedTogether(s.queue, n, i);
    }
    UpdatesOfEmpty(s.queue, n);
  }

  lemma AppendLogInv(s: State, ok: bool, s': State)
    requires Inv(s) && AppendLogStep(s, ok, s')
    ensures Inv(s')
  {
  }

  lemma {:induction false} StoredElsewhere(mem: map<nat, Op>, first: nat, ops: seq<Op>, all: bool, q: nat, op: Op)
    requires Stored(mem, first, ops, all) && first + |ops| <= q
    ensures Stored(mem[q := op], first, ops, all)
    decreases |ops|
  {
    if ops != [] {
      StoredElsewhere(mem, first + 1, ops[1..], all, q, op);
    }
  }

  lemma {:induction false} StoredConcat(mem: map<nat, Op>, first: nat, a: seq<Op>, b: seq<Op>, all: bool, mid: nat)
    requires mid == first + |a|
    ensures Stored(mem, first, a + b, all) <==> Stored(mem, first, a, all) && Stored(mem, mid, b, all)
    decreases |a|
  {
    if a == [] {
      assert a + b == b;
    } else {
      StoredConcat(mem, first + 1, a[1..], b, all, mid);
      assert (a + b)[1..] == a[1..] + b;
    }
  }

  lemma {:induction false} NothingStored(mem: map<nat, Op>, first: nat, ops: seq<Op>)
    requires forall q :: q in mem ==> q < first
    ensures Stored(mem, first, ops, false)
    decreases |ops|
  {
    if ops != [] {
      NothingStored(mem, first + 1, ops[1..]);
    }
  }

  /** Inserting an operation numbered after everything that has finished changes nothing for those. */
  lemma InsertKeepsOthers(mem: map<nat, Op>, arrived: seq<Writer>, finished: seq<Result>, last: nat, q: nat, op: Op)
    requires Numbered(arrived, finished, last) && AllOrNone(mem, arrived, finished) && last < q
    ensures AllOrNone(mem[q := op], arrived, finished)
  {
    forall i | 0 <= i < |finished| && finished[i].first.Some?
      ensures Stored(mem[q := op], finished[i].first.value, OpsOf(arrived[i]), finished[i].ok)
    {
      UsedMonotone(arrived, finished, i, |finished|);
      assert StartsRange(arrived, finished, i);
      StoredElsewhere(mem, finished[i].first.value, OpsOf(arrived[i]), finished[i].ok, q, op);
    }
  }

  lemma InsertKeepsMem(mem: map<nat, Op>, last: nat, l: Leader)
    requires MemOk(mem, last, Some(l)) && l.done < |l.ops|
    ensures MemOk(mem[last + 1 + l.done := l.ops[l.done]], last, Some(l.(done := l.done + 1)))
  {
    var q, op := last + 1 + l.done, l.ops[l.done];
    StoredElsewhere(mem, last + 1, l.ops[..l.done], true, q, op);
    assert [op][1..] == [];
    assert Stored(mem[q := op], q, [op], true);
    StoredConcat(mem[q := op], last + 1, l.ops[..l.done], [op], true, q);
    assert l.ops[..l.done] + [op] == l.ops[..l.done + 1];
  }

  lemma InsertNextInv(s: State, s': State)
    requires Inv(s) && InsertNextStep(s, s')
    ensures Inv(s')
  {
    var l := s.leader.value;
    InsertKeepsOthers(s.mem, s.arrived, s.finished, s.lastSequence, s.lastSequence + 1 + l.done, l.ops[l.done]);
    InsertKeepsMem(s.mem, s.lastSequence, l);
  }

  //////////////////////////////////////////////////////////////////////////////
  // A whole group finishes.

  /** What is stored of a group is stored of each of its members. */
  lemma {:induction false} MemberStored(mem: map<nat, Op>, last: nat, queue: seq<Writer>, n: nat, ok: bool, i: nat,
                                        first: nat)
    requires i < n <= |queue| && Stored(mem, last + 1, GroupOps(queue, n), ok)
             && first == last + 1 + |GroupOps(queue, i)|
    ensures Stored(mem, first, OpsOf(queue[i]), ok)
    decreases n
  {
    var before := GroupOps(queue, n - 1);
    assert GroupOps(queue, n) == before + OpsOf(queue[n - 1]);
    if i == n - 1 {
      StoredConcat(mem, last + 1, before, OpsOf(queue[i]), ok, first);
    } else {
      StoredConcat(mem, last + 1, before, OpsOf(queue[n - 1]), ok, last + 1 + |before|);
      MemberStored(mem, last, queue, n - 1, ok, i, first);
    }
  }

  ghost predicate Told(mem: map<nat, Op>, arrived: seq<Writer>, finished: seq<Result>, last: nat) {
    Numbered(arrived, finished, last) && Grouped(arrived, finished) && AllOrNone(mem, arrived, finished)
  }

  /** Telling the first `i` members of a group keeps order, numbering, status and contents right. */
  ghost predicate ToldSoFar(mem: map<nat, Op>, arrived: seq<Writer>, finished: seq<Result>, last: nat,
                            queue: seq<Writer>, ok: bool, i: nat)
    requires i <= |queue|
  {
    Told(mem, arrived, finished + GroupResults(queue, i, last, ok, |finished|), last + |GroupOps(queue, i)|)
  }

  lemma TellOne(mem: map<nat, Op>, arrived: seq<Writer>, finished: seq<Result>, last: nat,
                queue: seq<Writer>, n: nat, ok: bool, i: nat)
    requires |finished| <= |arrived| && queue == arrived[|finished|..] && 0 < i <= n <= |queue|
    requires Stored(mem, last + 1, GroupOps(queue, n), ok) && (queue[i - 1].sync ==> queue[0].sync)
    requires ToldSoFar(mem, arrived, finished, last, queue, ok, i - 1)
    ensures ToldSoFar(mem, arrived, finished, last, queue, ok, i)
  {
    var before, start := finished + GroupResults(queue, i - 1, last, ok, |finished|), last + |GroupOps(queue, i - 1)|;
    var after, end := finished + GroupResults(queue, i, last, ok, |finished|), last + |GroupOps(queue, i)|;
    var r := OneResultLess(finished, queue, i, last, ok, before, start, after, end);
    NextMemberTold(mem, arrived, before, start, r, |finished|, queue, n, i - 1, last, after, end);
  }

  lemma {:induction false} GroupTold(mem: map<nat, Op>, arrived: seq<Writer>, finished: seq<Result>, last: nat,
                                     queue: seq<Writer>, n: nat, ok: bool, i: nat)
    requires Told(mem, arrived, finished, last) && queue == arrived[|finished|..] && i <= n <= |queue|
    requires Stored(mem, last + 1, GroupOps(queue, n), ok)
    requires forall j :: 0 <= j < n ==> queue[j].sync ==> queue[0].sync
    ensures ToldSoFar(mem, arrived, finished, last, queue, ok, i)
  {
    if i == 0 {
      assert finished + GroupResults(queue, 0, last, ok, |finished|) == finished;
    } else {
      GroupTold(mem, arrived, finished, last, queue, n, ok, i - 1);
      TellOne(mem, arrived, finished, last, queue, n, ok, i);
    }
  }

  lemma NextMemberTold(mem: map<nat, Op>, arrived: seq<Writer>, before: seq<Result>, start: nat, r: Result, k: nat,
                       queue: seq<Writer>, n: nat, i: nat, last: nat, after: seq<Result>, end: nat)
    requires Told(mem, arrived, before, start) && k <= |arrived| && queue == arrived[k..] && i < n <= |queue|
    requires (queue[i].sync ==> queue[0].sync) && Stored(mem, last + 1, GroupOps(queue, n), r.ok)
    requires NextResult(before, start, r, k, queue, i, last, after, end)
    ensures Told(mem, arrived, after, end)
  {
    MemberStored(mem, last, queue, n, r.ok, i, start + 1);
    OneMoreTold(mem, arrived, before, start, r, k, queue[i], queue[0]);
  }

  /** The results `after` are those of `before` and `r`, which is the one of member `i` of the group. */
  ghost predicate NextResult(before: seq<Result>, start: nat, r: Result, k: nat, queue: seq<Writer>, i: nat,
                             last: nat, after: seq<Result>, end: nat)
  {
    && |before| == k + i && i < |queue| && start == last + |GroupOps(queue, i)|
    && r == Result(r.ok, Some(start + 1), k) && (i > 0 ==> before[k].ok == r.ok)
    && after == before + [r] && end == start + |OpsOf(queue[i])|
  }

  lemma OneResultLess(finished: seq<Result>, queue: seq<Writer>, i: nat, last: nat, ok: bool,
                      before: seq<Result>, start: nat, after: seq<Result>, end: nat)
    returns (r: Result)
    requires 0 < i <= |queue| && before == finished + GroupResults(queue, i - 1, last, ok, |finished|)
    requires after == finished + GroupResults(queue, i, last, ok, |finished|)
    requires start == last + |GroupOps(queue, i - 1)| && end == last + |GroupOps(queue, i)|
    ensures r.ok == ok && NextResult(before, start, r, |finished|, queue, i - 1, last, after, end)
  {
    r := Result(ok, Some(start + 1), |finished|);
    if i > 1 {
      LeaderResult(queue, i - 1, last, ok, |finished|);
    }
  }

  lemma {:induction false} LeaderResult(queue: seq<Writer>, n: nat, last: nat, ok: bool, leader: nat)
    requires 1 <= n <= |queue|
    ensures GroupResults(queue, n, last, ok, leader)[0].ok == ok
  {
    if n > 1 {
      LeaderResult(queue, n - 1, last, ok, leader);
    }
  }

  lemma OneMoreTold(mem: map<nat, Op>, arrived: seq<Writer>, finished: seq<Result>, last: nat, r: Result,
                    k: nat, w: Writer, leader: Writer)
    requires Told(mem, arrived, finished, last) && k <= |finished| < |arrived|
    requires arrived[|finished|] == w && arrived[k] == leader && (w.sync ==> leader.sync)
    requires r == Result(r.ok, Some(last + 1), k) && (k < |finished| ==> r.ok == finished[k].ok)
    requires Stored(mem, last + 1, OpsOf(w), r.ok)
    ensures Told(mem, arrived, finished + [r], last + |OpsOf(w)|)
  {
    ResultNumbered(arrived, finished, last, r);
    ResultGrouped(arrived, finished, r);
    ResultAllOrNone(mem, arrived, finished, r);
  }

  lemma FinishTold(s: State, l: Leader, after: seq<Result>, last': nat)
    requires Told(s.mem, s.arrived, s.finished, s.lastSequence) && InOrder(s.queue, s.arrived, s.finished)
    requires LeaderOk(s.queue, l) && MemOk(s.mem, s.lastSequence, Some(l)) && (l.ok ==> l.done == |l.ops|)
    requires after == s.finished + GroupResults(s.queue, l.n, s.lastSequence, l.ok, |s.finished|)
    requires last' == s.lastSequence + |l.ops|
    ensures Told(s.mem, s.arrived, after, last') && MemOk(s.mem, last', None)
  {
    LeaderStored(s.mem, s.lastSequence, l);
    GroupTold(s.mem, s.arrived, s.finished, s.lastSequence, s.queue, l.n, l.ok, l.n);
  }

  lemma FinishGroupInv(s: State, s': State)
    requires Inv(s) && FinishGroupStep(s, s')
    ensures Inv(s')
  {
    var l := s.leader.value;
    FinishTold(s, l, s'.finished, s'.lastSequence);
    QueueAdvances(s.queue, s.arrived, |s.finished|, l.n);
  }

  lemma QueueAdvances(queue: seq<Writer>, arrived: seq<Writer>, k: nat, n: nat)
    requires k <= |arrived| && queue == arrived[k..] && n <= |queue|
    ensures queue[n..] == arrived[k + n..]
  {
  }

  lemma LeaderStored(mem: map<nat, Op>, last: nat, l: Leader)
    requires MemOk(mem, last, Some(l)) && (l.ok ==> l.done == |l.ops|) && (l.done > 0 ==> l.ok)
    ensures Stored(mem, last + 1, l.ops, l.ok) && MemOk(mem, last + |l.ops|, None)
  {
    if l.ok {
      assert l.ops[..l.done] == l.ops;
    } else {
      NothingStored(mem, last + 1, l.ops);
    }
  }

  /** Every step keeps the invariant. */
  lemma NextInv(s: State, step: Step, s': State)
    requires Inv(s) && Next(s, step, s')
    ensures Inv(s')
  {
    match step
    case Arrive(w) => ArriveInv(s, w, s');
    case ServeAlone(ok) => ServeAloneInv(s, ok, s');
    case FormGroup(n) => FormGroupInv(s, n, s');
    case AppendLog(ok) => AppendLogInv(s, ok, s');
    case InsertNext => InsertNextInv(s, s');
    case FinishGroup => FinishGroupInv(s, s');
  }

  ghost predicate IsRun(states: seq<State>, steps: seq<Step>) {
    && |states| == |steps| + 1 && Init(states[0])
    && forall i :: 0 <= i < |steps| ==> Next(states[i], steps[i], states[i + 1])
  }

  lemma {:induction false} RunInv(states: seq<State>, steps: seq<Step>, i: nat)
    requires IsRun(states, steps) && i < |states|
    ensures Inv(states[i])
  {
    if i == 0 {
      InitInv(states[0]);
    } else {
      RunInv(states, steps, i - 1);
      NextInv(states[i - 1], steps[i - 1], states[i]);
    }
  }

  //////////////////////////////////////////////////////////////////////////////
  // What callers and readers may rely on.

  /** Writers are served in the order they came, each finishing once, with the status of the group it was
      in; those with a batch that was numbered have consecutive ranges in that order. */
  lemma ServedInOrder(states: seq<State>, steps: seq<Step>, t: nat, i: nat)
    requires IsRun(states, steps) && t < |states| && i < |states[t].finished|
    ensures var s := states[t];
            && |s.finished| <= |s.arrived| && s.arrived == s.arrived[..|s.finished|] + s.queue
            && s.finished[i].leader <= i && s.finished[i].ok == s.finished[s.finished[i].leader].ok
            && (s.arrived[i].sync ==> s.arrived[s.finished[i].leader].sync)
            && (s.finished[i].first.Some? ==> s.finished[i].first.value == Used(s.arrived, s.finished, i) + 1)
  {
    RunInv(states, steps, t);
    assert Follows(states[t].arrived, states[t].finished, i) && StartsRange(states[t].arrived, states[t].finished, i);
  }

  /** The temporary batch is empty whenever a group is formed. */
  lemma TemporaryBatchIsEmpty(states: seq<State>, steps: seq<Step>, t: nat)
    requires IsRun(states, steps) && t < |steps| && steps[t].FormGroup?
    ensures states[t].tmp == []
  {
    RunInv(states, steps, t);
    assert Next(states[t], steps[t], states[t + 1]);
  }

  /** A reader at the last sequence number sees all of a finished writer's operations or none of them,
      and nothing of the group that is being inserted. */
  lemma ReaderSeesWholeGroups(states: seq<State>, steps: seq<Step>, t: nat)
    requires IsRun(states, steps) && t < |states|
    ensures var s := states[t];
            && AllOrNone(s.mem, s.arrived, s.finished)
            && (forall i :: 0 <= i < |s.finished| && s.finished[i].first.Some? ==>
                  s.finished[i].first.value + |OpsOf(s.arrived[i])| <= s.lastSequence + 1)
            && (forall q :: q in s.mem && q > s.lastSequence ==>
                  s.leader.Some? && q - s.lastSequence - 1 < s.leader.value.done)
  {
    RunInv(states, steps, t);
    var s := states[t];
    forall i | 0 <= i < |s.finished| && s.finished[i].first.Some?
      ensures s.finished[i].first.value + |OpsOf(s.arrived[i])| <= s.lastSequence + 1
    {
      UsedMonotone(s.arrived, s.finished, i, |s.finished|);
      assert StartsRange(s.arrived, s.finished, i);
    }
  }
}
