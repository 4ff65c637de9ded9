/** Recovering a version from the bytes of a manifest (db/version_set.cpp: LogAndApply, Recover). */
module Manifest {
  import opened DbFormat
  import opened InternalKeys
  import opened Versions
  import opened VersionBuilder
  import opened VersionEdits
  import opened LogFormat
  import opened LogReader
  import opened LogTheorems
  import opened History
  import opened Engine
  import opened EngineTheorems

  //////////////////////////////////////////////////////////////////////////////
  // From the bytes of keys to ranked keys.

  function ReadKey(rank: Bytes -> UserKey, b: Bytes): IKey {
    match ParseInternalKey(b)
    case Some(k) => KeyIn(rank, k)
    case None => IKey(rank([]), 0, Deletion)
  }

  function ReadPlaced(rank: Bytes -> UserKey, a: Addition): Placed {
    Placed(a.level, File(a.file.number, a.file.size, ReadKey(rank, a.file.smallest), ReadKey(rank, a.file.largest)))
  }

  /** The edit that the contents of a VersionEdit object stand for. */
  function EditOf(rank: Bytes -> UserKey, c: Contents): Edit {
    Edit(c.logNumber, c.nextFile, c.lastSequence, c.deleted,
         seq(|c.added|, i requires 0 <= i < |c.added| => ReadPlaced(rank, c.added[i])))
  }

  //////////////////////////////////////////////////////////////////////////////
  // Recover.

  /** What Recover installs. */
  datatype Current = Current(levels: Levels, logNumber: nat, nextFile: nat, lastSequence: nat)

  /** One manifest record, decoded; a wrong comparator name is refused like a malformed record. */
  function DecodeRecord(rank: Bytes -> UserKey, comparator: Bytes, b: Bytes): Option<Edit> {
    var p := ParseAll(b);
    var c := SetAll(EMPTY, p.fields);
    if p.ok && (c.comparator.None? || c.comparator.value == comparator) then Some(EditOf(rank, c)) else None
  }

  function DecodeRecords(rank: Bytes -> UserKey, comparator: Bytes, bs: seq<Bytes>): (r: Option<seq<Edit>>)
    ensures r.Some? ==> |r.value| == |bs|
  {
    if bs == [] then Some([])
    else
      var init := DecodeRecords(rank, comparator, bs[..|bs| - 1]);
      var last := DecodeRecord(rank, comparator, bs[|bs| - 1]);
      if init.Some? && last.Some? then Some(init.value + [last.value]) else None
  }

  function Install(edits: seq<Edit>): Option<Current> {
    if LastNext(edits).None? || LastLog(edits).None? || LastSequenceOf(edits).None? then None
    else Some(Current(ReplayOnce(EmptyLevels, edits), LastLog(edits).value, LastNext(edits).value + 1,
                      LastSequenceOf(edits).value))
  }

  /** The last value that occurs in a list of optional ones. */
  ghost predicate IsLast(values: seq<Option<nat>>, v: Option<nat>) {
    && (v.None? <==> forall i :: 0 <= i < |values| ==> values[i].None?)
    && (v.Some? ==> exists i :: 0 <= i < |values| && values[i] == v
                              && forall j :: i < j < |values| ==> values[j].None?)
  }

  ghost function LogNumbers(edits: seq<Edit>): seq<Option<nat>> {
    seq(|edits|, i requires 0 <= i < |edits| => edits[i].logNumber)
  }

  ghost function NextFiles(edits: seq<Edit>): seq<Option<nat>> {
    seq(|edits|, i requires 0 <= i < |edits| => edits[i].nextFile)
  }

  ghost function Sequences(edits: seq<Edit>): seq<Option<nat>> {
    seq(|edits|, i requires 0 <= i < |edits| => edits[i].lastSequence)
  }

  /** The counters that Recover installs: each from the last edit that has it, and none may be missing. */
  lemma InstallTakesLast(edits: seq<Edit>) returns (log: Option<nat>, next: Option<nat>, sn: Option<nat>)
    ensures IsLast(LogNumbers(edits), log) && IsLast(NextFiles(edits), next) && IsLast(Sequences(edits), sn)
    ensures Install(edits).Some? <==> log.Some? && next.Some? && sn.Some?
    ensures Install(edits).Some? ==>
              && Install(edits).value.logNumber == log.value && Install(edits).value.nextFile == next.value + 1
              && Install(edits).value.lastSequence == sn.value
  {
    LastCounters(edits);
    log, next, sn := LastLog(edits), LastNext(edits), LastSequenceOf(edits);
  }

  lemma {:induction false} LastCounters(edits: seq<Edit>)
    ensures IsLast(LogNumbers(edits), LastLog(edits)) && IsLast(NextFiles(edits), LastNext(edits))
    ensures IsLast(Sequences(edits), LastSequenceOf(edits))
  {
    if edits != [] {
      var e, init := edits[|edits| - 1], edits[..|edits| - 1];
      LastCounters(init);
      LastOneMore(LogNumbers(init), LastLog(init), e.logNumber, LogNumbers(edits));
      LastOneMore(NextFiles(init), LastNext(init), e.nextFile, NextFiles(edits));
      LastOneMore(Sequences(init), LastSequenceOf(init), e.lastSequence, Sequences(edits));
    }
  }

  lemma LastOneMore(values: seq<Option<nat>>, v: Option<nat>, more: Option<nat>, values': seq<Option<nat>>)
    requires IsLast(values, v) && values' == values + [more]
    ensures IsLast(values', if more.Some? then more else v)
  {
    assert values'[|values|] == more;
    if more.None? && v.Some? {
      var i :| 0 <= i < |values| && values[i] == v && forall j :: i < j < |values| ==> values[j].None?;
      assert values'[i] == v;
    }
    if v.Some? || more.Some? {
      assert exists i :: 0 <= i < |values'| && values'[i].Some?;
    }
  }

  /** Any corruption report, malformed record or missing counter makes recovery fail. */
  function Recovery(f: Framing, file: Bytes, rank: Bytes -> UserKey, comparator: Bytes): Option<Current> {
    var got := ReadFrom(f, file, 0);
    var edits := DecodeRecords(rank, comparator, got.records);
    if got.reports > 0 || edits.None? then None else Install(edits.value)
  }

  /** Every level in an edit that was decoded exists. */
  ghost predicate ContentsLevelsExist(c: Contents) {
    (forall d :: d in c.deleted ==> 0 <= d.level < NUM_LEVELS) && forall a :: a in c.added ==> a.level < NUM_LEVELS
  }

  lemma FieldLevelExists(f: Field, c: Contents)
    requires ContentsLevelsExist(c) && LevelExists(f)
    ensures ContentsLevelsExist(Set(c, f))
  {
  }

  lemma {:induction false} DecodedLevelsExist(b: Bytes, c: Contents)
    requires ContentsLevelsExist(c)
    ensures ContentsLevelsExist(SetAll(c, ParseAll(b).fields))
    decreases |b|
  {
    if b != [] && ReadField(b).Some? {
      var r := ReadField(b).value;
      FieldLevelExists(r.value, c);
      DecodedLevelsExist(r.rest, Set(c, r.value));
      var fs := ParseAll(b).fields;
      assert fs[0] == r.value && fs[1..] == ParseAll(r.rest).fields;
    }
  }

  /** Decodes one record into a fresh edit. */
  method Decode(rank: Bytes -> UserKey, comparator: Bytes, b: Bytes) returns (r: Option<Edit>)
    ensures r == DecodeRecord(rank, comparator, b)
    ensures r.Some? ==> (forall d :: d in r.value.deleted ==> 0 <= d.level < NUM_LEVELS)
    ensures r.Some? ==> forall a :: a in r.value.added ==> 0 <= a.level < NUM_LEVELS
  {
    var edit := new VersionEdit();
    var ok := edit.DecodeFrom(b);
    DecodedLevelsExist(b, EMPTY);
    var c := edit.contents;
    if ok && (c.comparator.None? || c.comparator.value == comparator) {
      return Some(EditOf(rank, c));
    }
    return None;
  }

  lemma {:induction false} DecodeFailsOn(rank: Bytes -> UserKey, comparator: Bytes, bs: seq<Bytes>, more: seq<Bytes>)
    requires DecodeRecords(rank, comparator, bs) == None
    ensures DecodeRecords(rank, comparator, bs + more) == None
    decreases |more|
  {
    if more == [] {
      assert bs + more == bs;
    } else {
      DecodeFailsOn(rank, comparator, bs, more[..|more| - 1]);
      assert (bs + more)[..|bs + more| - 1] == bs + more[..|more| - 1];
    }
  }

  lemma DecodeSnoc(rank: Bytes -> UserKey, comparator: Bytes, bs: seq<Bytes>, b: Bytes)
    ensures var init, last := DecodeRecords(rank, comparator, bs), DecodeRecord(rank, comparator, b);
            DecodeRecords(rank, comparator, bs + [b]) ==
            if init.Some? && last.Some? then Some(init.value + [last.value]) else None
  {
    assert (bs + [b])[..|bs|] == bs;
  }

  /** The counters that the loop of Recover has seen last. */
  datatype Counters = Counters(log: Option<nat>, next: Option<nat>, last: Option<nat>)

  function Latest(edits: seq<Edit>): Counters {
    Counters(LastLog(edits), LastNext(edits), LastSequenceOf(edits))
  }

  function Or(a: Option<nat>, b: Option<nat>): Option<nat> {
    if a.Some? then a else b
  }

  lemma LatestSnoc(edits: seq<Edit>, e: Edit)
    ensures var c := Latest(edits);
            Latest(edits + [e]) == Counters(Or(e.logNumber, c.log), Or(e.nextFile, c.next), Or(e.lastSequence, c.last))
  {
    assert (edits + [e])[..|edits|] == edits;
  }

  /** What the loop has made of the records `done`. */
  ghost predicate Decoded(rank: Bytes -> UserKey, comparator: Bytes, done: seq<Bytes>, edits: seq<Edit>,
                          levels: seq<LevelState>, counters: Counters)
  {
    && DecodeRecords(rank, comparator, done) == Some(edits) && counters == Latest(edits)
    && |levels| == NUM_LEVELS && forall l :: 0 <= l < NUM_LEVELS ==> levels[l] == FoldLevel(NoChange, edits, l)
  }

  lemma DecodedOneMore(rank: Bytes -> UserKey, comparator: Bytes, done: seq<Bytes>, edits: seq<Edit>,
                       levels: seq<LevelState>, counters: Counters, b: Bytes, e: Edit, levels': seq<LevelState>)
    requires Decoded(rank, comparator, done, edits, levels, counters) && DecodeRecord(rank, comparator, b) == Some(e)
    requires |levels'| == NUM_LEVELS && forall l :: 0 <= l < NUM_LEVELS ==> levels'[l] == ApplyLevel(levels[l], e, l)
    ensures Decoded(rank, comparator, done + [b], edits + [e], levels',
                    Counters(Or(e.logNumber, counters.log), Or(e.nextFile, counters.next),
                      Or(e.lastSequence, counters.last)))
  {
    DecodeSnoc(rank, comparator, done, b);
    LatestSnoc(edits, e);
    assert (edits + [e])[..|edits|] == edits;
  }

  lemma RecoveryFails(f: Framing, file: Bytes, rank: Bytes -> UserKey, comparator: Bytes,
                      done: seq<Bytes>, next: Option<Bytes>, p: int, reports: nat)
    requires ReadSoFar(f, file, done, next, p, reports)
    requires reports > 0 || DecodeRecords(rank, comparator, done) == None
    ensures Recovery(f, file, rank, comparator) == None
  {
    if reports == 0 {
      var all := ReadFrom(f, file, 0).records;
      DecodeFailsOn(rank, comparator, done, all[|done|..]);
      assert done + all[|done|..] == all;
    }
  }

  /** The end of Recover: checks the counters and saves the builder. */
  method Finish(builder: Builder, counters: Counters, ghost edits: seq<Edit>) returns (r: Option<Current>)
    requires builder.Valid() && builder.base == EmptyLevels && counters == Latest(edits)
    requires forall l :: 0 <= l < NUM_LEVELS ==> builder.levels[l] == FoldLevel(NoChange, edits, l)
    ensures r == Install(edits)
  {
    if counters.next.None? || counters.log.None? || counters.last.None? {
      return None;
    }
    EmptyIsSorted();
    var v := builder.SaveTo();
    assert v == ReplayOnce(EmptyLevels, edits);
    return Some(Current(v, counters.log.value, counters.next.value + 1, counters.last.value));
  }

  method Recover(f: Framing, file: Bytes, rank: Bytes -> UserKey, comparator: Bytes) returns (r: Option<Current>)
    ensures r == Recovery(f, file, rank, comparator)
  {
    var reader := new Reader(f, file);
    var builder := new Builder(EmptyLevels);
    var counters, ok := Counters(None, None, None), true;
    ghost var done, edits := [], [];
    var next := reader.ReadFirst();
    while next.Some? && ok && reader.reports == 0
      invariant fresh(reader) && reader.Valid() && reader.framing == f && reader.file == file
      invariant fresh(builder) && builder.Valid() && builder.base == EmptyLevels
      invariant reader.Has(done, next)
      invariant if ok then Decoded(rank, comparator, done, edits, builder.levels, counters)
                else DecodeRecords(rank, comparator, done) == None
      decreases next.Some?, |file| - reader.Position()
    {
      var b := next.value;
      ok, counters, edits := RecoverOne(builder, rank, comparator, b, counters, done, edits);
      next := reader.ReadAfter(done, b);
      done := done + [b];
    }
    if !ok || reader.reports > 0 {
      RecoveryFails(f, file, rank, comparator, done, next, reader.Position(), reader.reports);
      return None;
    }
    AllRead(f, file, done, reader.Position(), reader.reports);
    r := Finish(builder, counters, edits);
  }

  method RecoverOne(builder: Builder, rank: Bytes -> UserKey, comparator: Bytes, b: Bytes, counters: Counters,
                    ghost done: seq<Bytes>, ghost edits: seq<Edit>)
    returns (ok: bool, counters': Counters, ghost edits': seq<Edit>)
    requires builder.Valid() && Decoded(rank, comparator, done, edits, builder.levels, counters)
    modifies builder
    ensures builder.Valid()
    ensures if ok then Decoded(rank, comparator, done + [b], edits', builder.levels, counters')
            else DecodeRecords(rank, comparator, done + [b]) == None
  {
    ghost var levels := builder.levels;
    var e := Decode(rank, comparator, b);
    DecodeSnoc(rank, comparator, done, b);
    ok, counters', edits' := e.Some?, counters, edits;
    if e.Some? {
      builder.Apply(e.value);
      DecodedOneMore(rank, comparator, done, edits, levels, counters, b, e.value, builder.levels);
      counters' := Counters(Or(e.value.logNumber, counters.log), Or(e.value.nextFile, counters.next),
                            Or(e.value.lastSequence, counters.last));
      edits' := edits + [e.value];
    }
  }

  //////////////////////////////////////////////////////////////////////////////
  // A manifest recovers to the version it was written for.

  /** `b` is what EncodeTo wrote for a VersionEdit that stands for `e`. */
  ghost predicate Carries(rank: Bytes -> UserKey, comparator: Bytes, b: Bytes, e: Edit) {
    exists fs, c :: Spells(b, fs, c) && EditOf(rank, c) == e && (c.comparator.None? || c.comparator.value == comparator)
  }

  lemma CarriedIsDecoded(rank: Bytes -> UserKey, comparator: Bytes, b: Bytes, e: Edit)
    requires Carries(rank, comparator, b, e)
    ensures DecodeRecord(rank, comparator, b) == Some(e)
  {
    var fs, c :| Spells(b, fs, c) && EditOf(rank, c) == e && (c.comparator.None? || c.comparator.value == comparator);
    FieldsRoundTrip(fs);
  }

  lemma {:induction false} AllDecoded(rank: Bytes -> UserKey, comparator: Bytes, bs: seq<Bytes>, es: seq<Edit>)
    requires |bs| == |es| && forall i :: 0 <= i < |bs| ==> DecodeRecord(rank, comparator, bs[i]) == Some(es[i])
    ensures DecodeRecords(rank, comparator, bs) == Some(es)
  {
    if bs != [] {
      var n := |bs| - 1;
      AllDecoded(rank, comparator, bs[..n], es[..n]);
      DecodeSnoc(rank, comparator, bs[..n], bs[n]);
      assert bs[..n] + [bs[n]] == bs;
      assert es[..n] + [es[n]] == es;
    }
  }

  lemma CarriedAreDecoded(rank: Bytes -> UserKey, comparator: Bytes, bs: seq<Bytes>, es: seq<Edit>)
    requires |bs| == |es| && forall i :: 0 <= i < |bs| ==> Carries(rank, comparator, bs[i], es[i])
    ensures DecodeRecords(rank, comparator, bs) == Some(es)
  {
    forall i | 0 <= i < |bs| ensures DecodeRecord(rank, comparator, bs[i]) == Some(es[i]) {
      CarriedIsDecoded(rank, comparator, bs[i], es[i]);
    }
    AllDecoded(rank, comparator, bs, es);
  }

  /** Reading back a manifest and replaying it once gives the version that installing its edits one
      by one gave. */
  lemma ManifestRecovers(f: Framing, rank: Bytes -> UserKey, comparator: Bytes, bs: seq<Bytes>, es: seq<Edit>)
    requires Lawful(f) && |bs| == |es| && forall i :: 0 <= i < |bs| ==> Carries(rank, comparator, bs[i], es[i])
    requires NeverReAdded(EmptyLevels, es)
    ensures Recovery(f, LogBytes(f, bs), rank, comparator) == Install(es)
    ensures Install(es).Some? ==> Install(es).value.levels == ReplayEach(EmptyLevels, es)
  {
    RoundTrip(f, bs);
    CarriedAreDecoded(rank, comparator, bs, es);
    EmptyIsSorted();
    ReplayOnceIsReplayEach(EmptyLevels, es);
  }

  lemma EmptyIsSorted()
    ensures SortedLevels(EmptyLevels)
  {
  }

  /** In every reachable state, the bytes of the manifest recover to the current version, its log
      number, a next file number above every file of it and not above the next one, and a last sequence
      that covers what is in tables and is not beyond the last one. */
  lemma ReachableManifestRecovers(states: seq<State>, steps: seq<Step>, i: nat,
                                  f: Framing, rank: Bytes -> UserKey, comparator: Bytes, bs: seq<Bytes>)
    requires IsRun(states, steps) && i < |states| && Lawful(f)
    requires |bs| == |states[i].manifest|
    requires forall j :: 0 <= j < |bs| ==> Carries(rank, comparator, bs[j], states[i].manifest[j])
    ensures var r := Recovery(f, LogBytes(f, bs), rank, comparator);
            && r.Some? && r.value.levels == states[i].levels && r.value.logNumber == states[i].logNumber
            && (forall l, g :: 0 <= l < NUM_LEVELS && g in states[i].levels[l] ==> g.number < r.value.nextFile)
            && states[i].logNumber < r.value.nextFile <= states[i].nextFile + 1
            && states[i].flushed <= |states[i].history|
            && End(states[i].history[..states[i].flushed]) <= r.value.lastSequence <= states[i].lastSeq
  {
    ManifestIsCurrent(states, steps, i);
    RunStructure(states, steps, i);
    ManifestRecovers(f, rank, comparator, bs, states[i].manifest);
  }

  //////////////////////////////////////////////////////////////////////////////
  // A manifest cut short.

  /** Recovering a manifest cut at any byte: it is that of the edits whose records are whole, if the cut
      lies right after a record or right after the padding behind it, and fails otherwise. */
  lemma TornManifest(f: Framing, rank: Bytes -> UserKey, comparator: Bytes, bs: seq<Bytes>, es: seq<Edit>, n: nat)
    requires Lawful(f) && |bs| == |es| && forall i :: 0 <= i < |bs| ==> Carries(rank, comparator, bs[i], es[i])
    requires n <= |LogBytes(f, bs)|
    ensures var m := WholeRecords(bs, n);
            Recovery(f, LogBytes(f, bs)[..n], rank, comparator) ==
            if EndsCleanly(LogBytes(f, bs)[..n], LogSize(bs[..m])) then Install(es[..m]) else None
  {
    var m := WholeRecords(bs, n);
    TruncatedLog(f, bs, n);
    CarriedAreDecoded(rank, comparator, bs[..m], es[..m]);
  }

  /** A process that crashes while it appends a record to the manifest leaves, in every reachable state,
      a manifest that recovers to the version before the append or, unless the cut ends cleanly, one
      that cannot be recovered at all. */
  lemma CrashInManifestAppend(states: seq<State>, steps: seq<Step>, i: nat,
                              f: Framing, rank: Bytes -> UserKey, comparator: Bytes, bs: seq<Bytes>, b: Bytes, n: nat)
    requires IsRun(states, steps) && i < |states| && Lawful(f)
    requires |bs| == |states[i].manifest|
    requires forall j :: 0 <= j < |bs| ==> Carries(rank, comparator, bs[j], states[i].manifest[j])
    requires LogSize(bs) <= n < LogSize(bs + [b])
    ensures n <= |LogBytes(f, bs + [b])|
    ensures var r := Recovery(f, LogBytes(f, bs + [b])[..n], rank, comparator);
            if n == LogSize(bs) || n == LogSize(bs) + Padding(LogSize(bs))
            then r.Some? && r.value.levels == states[i].levels && r.value.logNumber == states[i].logNumber
            else r.None?
  {
    CutInLast(f, bs, b, n);
    TruncatedLog(f, bs + [b], n);
    RoundTrip(f, bs);
    ReachableManifestRecovers(states, steps, i, f, rank, comparator, bs);
  }

  /** One byte of the next record is enough. */
  lemma TornAppendFails(f: Framing, rank: Bytes -> UserKey, comparator: Bytes, bs: seq<Bytes>, b: Bytes, n: nat)
    requires Lawful(f) && n == LogSize(bs) + Padding(LogSize(bs)) + 1
    ensures n <= |LogBytes(f, bs + [b])| && Recovery(f, LogBytes(f, bs + [b])[..n], rank, comparator) == None
  {
    NextRecordSize(f, bs, b);
    CutInLast(f, bs, b, n);
    TruncatedLog(f, bs + [b], n);
  }
}
