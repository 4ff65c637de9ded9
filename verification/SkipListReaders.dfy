/** One writer and any number of readers of a skip list, each load and store a step of its own
    (db/skiplist.h). */
module SkipListReaders {
  import opened SkipLists

  /** The writer between two of its stores: it is linking node `x`, and `own` says that it has already
      stored that node's link at `level`. */
  datatype Writer = Idle | Inserting(x: nat, prev: seq<nat>, height: nat, level: nat, own: bool)

  /** A reader between two of its loads. */
  datatype Reader = Searching(key: real, x: nat, level: nat) | Found(key: real, node: nat)

  /** `linked` records which nodes have been published at each level. */
  datatype State = State(nodes: Nodes, maxHeight: nat, linked: seq<set<nat>>, writer: Writer, readers: map<nat, Reader>)

  datatype Step =
    | RaiseHeight(height: nat)
    | BeginInsert(key: real, height: nat, prev: seq<nat>)
    | StoreOwnLink
    | Publish
    | EndInsert
    | BeginSearch(reader: nat, target: real, from: nat)
    | Load(reader: nat)

  ghost predicate Init(s: State) {
    s == State(Nodes([0.0], [seq(MAX_HEIGHT, _ => NIL)]), 1, seq(MAX_HEIGHT, _ => {}), Idle, map[])
  }

  ghost predicate RaiseHeightStep(s: State, height: nat, s': State) {
    s.writer.Idle? && s.maxHeight < height <= MAX_HEIGHT && s' == s.(maxHeight := height)
  }

  /** The writer has searched its predecessors, which nobody else changes, and allocates a node. */
  ghost predicate BeginInsertStep(s: State, key: real, height: nat, prev: seq<nat>, s': State) {
    && s.writer.Idle? && 1 <= height <= s.maxHeight && height <= MAX_HEIGHT == |prev| == |s.linked|
    && (forall i :: 0 <= i < height ==> AllNodes(s.nodes, s.linked[i]) && IsPrev(s.nodes, s.linked[i], prev[i], key))
    && AllNodes(s.nodes, s.linked[0]) && (forall q :: q in s.linked[0] ==> s.nodes.key[q] != key)
    && s' == s.(nodes := NewNode(s.nodes, key, height), writer := Inserting(|s.nodes.key|, prev, height, 0, false))
  }

  ghost predicate StoreOwnLinkStep(s: State, s': State) {
    && s.writer.Inserting? && !s.writer.own && s.writer.level < s.writer.height
    && var Inserting(x, prev, height, level, _) := s.writer;
    && level < |prev| && HasLevel(s.nodes, x, level) && HasLevel(s.nodes, prev[level], level)
    && s' == s.(nodes := SetNext(s.nodes, x, level, s.nodes.next[prev[level]][level]), writer := s.writer.(own := true))
  }

  ghost predicate PublishStep(s: State, s': State) {
    && s.writer.Inserting? && s.writer.own && s.writer.level < s.writer.height
    && var Inserting(x, prev, height, level, _) := s.writer;
    && level < |prev| && level < |s.linked| && HasLevel(s.nodes, prev[level], level)
    && s' == s.(nodes := SetNext(s.nodes, prev[level], level, x), linked := s.linked[level := s.linked[level] + {x}],
                writer := Inserting(x, prev, height, level + 1, false))
  }

  ghost predicate EndInsertStep(s: State, s': State) {
    s.writer.Inserting? && s.writer.level == s.writer.height && s' == s.(writer := Idle)
  }

  /** A search starts at the head, at the top of a height that it may have read early. */
  ghost predicate BeginSearchStep(s: State, reader: nat, key: real, from: nat, s': State) {
    && 1 <= from <= s.maxHeight
    && s' == s.(readers := s.readers[reader := Searching(key, HEAD, from - 1)])
  }

  /** One turn of the loop of FindGreaterOrEqual: a load, and what is made of it. */
  function AfterLoad(nodes: Nodes, r: Reader): Reader
    requires r.Searching? && HasLevel(nodes, r.x, r.level) && IsNode(nodes, nodes.next[r.x][r.level])
  {
    var m := nodes.next[r.x][r.level];
    if m != NIL && nodes.key[m] < r.key then r.(x := m)
    else if r.level == 0 then Found(r.key, m)
    else r.(level := r.level - 1)
  }

  ghost predicate LoadStep(s: State, reader: nat, s': State) {
    && reader in s.readers && s.readers[reader].Searching?
    && var r := s.readers[reader];
    && HasLevel(s.nodes, r.x, r.level) && IsNode(s.nodes, s.nodes.next[r.x][r.level])
    && s' == s.(readers := s.readers[reader := AfterLoad(s.nodes, r)])
  }

  ghost predicate Next(s: State, step: Step, s': State) {
    match step
    case RaiseHeight(height) => RaiseHeightStep(s, height, s')
    case BeginInsert(key, height, prev) => BeginInsertStep(s, key, height, prev, s')
    case StoreOwnLink => StoreOwnLinkStep(s, s')
    case Publish => PublishStep(s, s')
    case EndInsert => EndInsertStep(s, s')
    case BeginSearch(reader, key, from) => BeginSearchStep(s, reader, key, from, s')
    case Load(reader) => LoadStep(s, reader, s')
  }

  //////////////////////////////////////////////////////////////////////////////
  // The invariant.

  ghost predicate WriterOk(nodes: Nodes, linked: seq<set<nat>>, w: Writer) {
    w.Inserting? ==>
      && Linking(nodes, linked, w.x, w.prev, w.height, w.level)
      && (w.own ==>
          && w.level < w.height && HasLevel(nodes, w.prev[w.level], w.level)
          && nodes.next[w.x][w.level] == nodes.next[w.prev[w.level]][w.level])
  }

  ghost predicate ReaderOk(nodes: Nodes, linked: seq<set<nat>>, r: Reader) {
    r.Searching? ==>
      r.level < |linked| && AllNodes(nodes, linked[r.level]) && OnTheWay(nodes, linked[r.level], r.x, r.key)
  }

  ghost predicate ReadersOk(nodes: Nodes, linked: seq<set<nat>>, readers: map<nat, Reader>) {
    forall i :: i in readers ==> ReaderOk(nodes, linked, readers[i])
  }

  /** Every level is a chain at every moment, and every reader stands on its way. */
  ghost predicate Inv(s: State) {
    && Chains(s.nodes, s.linked) && |s.nodes.key| == |s.nodes.next| && 1 <= s.maxHeight <= MAX_HEIGHT
    && WriterOk(s.nodes, s.linked, s.writer) && ReadersOk(s.nodes, s.linked, s.readers)
  }

  /** Nodes keep their keys and, once published, stay published. */
  ghost predicate Grows(nodes: Nodes, linked: seq<set<nat>>, nodes': Nodes, linked': seq<set<nat>>) {
    && nodes.key <= nodes'.key && |nodes.next| <= |nodes'.next| && |linked| == |linked'|
    && forall i :: 0 <= i < |linked| ==> linked[i] <= linked'[i]
  }

  lemma ReadersStayOk(nodes: Nodes, linked: seq<set<nat>>, nodes': Nodes, linked': seq<set<nat>>,
                      readers: map<nat, Reader>)
    requires ReadersOk(nodes, linked, readers) && Grows(nodes, linked, nodes', linked')
    requires forall i :: 0 <= i < |linked'| ==> AllNodes(nodes', linked'[i])
    ensures ReadersOk(nodes', linked', readers)
  {
    forall i | i in readers ensures ReaderOk(nodes', linked', readers[i]) {
      assert ReaderOk(nodes, linked, readers[i]);
    }
  }

  lemma ChainsAreNodes(nodes: Nodes, linked: seq<set<nat>>)
    requires Chains(nodes, linked)
    ensures forall i :: 0 <= i < |linked| ==> AllNodes(nodes, linked[i])
  {
    forall i | 0 <= i < |linked| ensures AllNodes(nodes, linked[i]) {
      assert Chain(nodes, linked[i], i);
    }
  }

  lemma InitInv(s: State)
    requires Init(s)
    ensures Inv(s)
  {
  }

  lemma BeginInsertInv(s: State, key: real, height: nat, prev: seq<nat>, s': State)
    requires Inv(s) && BeginInsertStep(s, key, height, prev, s')
    ensures Inv(s') && Grows(s.nodes, s.linked, s'.nodes, s'.linked)
  {
    LinkingStarts(s.nodes, s.linked, prev, height, key);
    ChainsAreNodes(s'.nodes, s'.linked);
    ReadersStayOk(s.nodes, s.linked, s'.nodes, s'.linked, s.readers);
  }

  lemma StoreOwnLinkInv(s: State, s': State)
    requires Inv(s) && StoreOwnLinkStep(s, s')
    ensures Inv(s') && Grows(s.nodes, s.linked, s'.nodes, s'.linked)
  {
    var Inserting(x, prev, height, level, _) := s.writer;
    PrevHasLevel(s.nodes, s.linked, x, prev, height, level);
    OwnLinkStep(s.nodes, s.linked, x, prev, height, level, s.nodes.next[prev[level]][level]);
    ChainsAreNodes(s'.nodes, s'.linked);
    ReadersStayOk(s.nodes, s.linked, s'.nodes, s'.linked, s.readers);
  }

  lemma PublishInv(s: State, s': State)
    requires Inv(s) && PublishStep(s, s')
    ensures Inv(s') && Grows(s.nodes, s.linked, s'.nodes, s'.linked)
  {
    var Inserting(x, prev, height, level, _) := s.writer;
    PrevHasLevel(s.nodes, s.linked, x, prev, height, level);
    SkipLists.PublishStep(s.nodes, s.linked, x, prev, height, level, s'.linked);
    ChainsAreNodes(s'.nodes, s'.linked);
    ReadersStayOk(s.nodes, s.linked, s'.nodes, s'.linked, s.readers);
  }

  lemma LoadInv(s: State, reader: nat, s': State)
    requires Inv(s) && LoadStep(s, reader, s')
    ensures Inv(s')
  {
    var r := s.readers[reader];
    assert ReaderOk(s.nodes, s.linked, r);
    assert Chain(s.nodes, s.linked[r.level], r.level);
    SkipLists.LoadStep(s.nodes, s.linked[r.level], r.level, r.x, r.key);
    var r' := AfterLoad(s.nodes, r);
    if r'.Searching? && r'.level < r.level {
      assert s.linked[r.level] <= s.linked[r.level - 1];
      assert Chain(s.nodes, s.linked[r'.level], r'.level);
    }
    assert ReaderOk(s.nodes, s.linked, r');
  }

  lemma BeginSearchInv(s: State, reader: nat, key: real, from: nat, s': State)
    requires Inv(s) && BeginSearchStep(s, reader, key, from, s')
    ensures Inv(s')
  {
    ChainsAreNodes(s.nodes, s.linked);
    assert ReaderOk(s.nodes, s.linked, Searching(key, HEAD, from - 1));
  }

  /** Every step of the writer and of the readers keeps the invariant, and no node is ever lost. */
  lemma NextInv(s: State, step: Step, s': State)
    requires Inv(s) && Next(s, step, s')
    ensures Inv(s') && Grows(s.nodes, s.linked, s'.nodes, s'.linked)
  {
    match step
    case RaiseHeight(height) =>
    case BeginInsert(key, height, prev) => BeginInsertInv(s, key, height, prev, s');
    case StoreOwnLink => StoreOwnLinkInv(s, s');
    case Publish => PublishInv(s, s');
    case EndInsert =>
    case BeginSearch(reader, key, from) => BeginSearchInv(s, reader, key, from, s');
    case Load(reader) => LoadInv(s, reader, s');
  }

  ghost predicate IsRun(states: seq<State>, steps: seq<Step>) {
    && |states| == |steps| + 1 && Init(states[0])
    && forall i :: 0 <= i < |steps| ==> Next(states[i], steps[i], states[i + 1])
  }

  lemma {:induction false} RunInv(states: seq<State>, steps: seq<Step>, i: nat)
    requires IsRun(states, steps) && i < |states|
    ensures Inv(states[i])
  {
    if i == 0 {
      InitInv(states[0]);
    } else {
      RunInv(states, steps, i - 1);
      NextInv(states[i - 1], steps[i - 1], states[i]);
    }
  }

  /** However a search was interleaved with insertions, the node it returns is the first one at or
      after its key in the level-0 list as it is at the search's last load. */
  lemma SearchIsExact(states: seq<State>, steps: seq<Step>, i: nat, reader: nat)
    requires IsRun(states, steps) && i < |steps| && steps[i] == Load(reader)
    requires reader in states[i + 1].readers && states[i + 1].readers[reader].Found?
    ensures var s, found := states[i], states[i + 1].readers[reader];
            && |s.linked| == MAX_HEIGHT && AllNodes(s.nodes, s.linked[0])
            && IsFirstFrom(s.nodes, s.linked[0], found.key, found.node)
            && s.readers[reader].key == found.key
  {
    RunInv(states, steps, i);
    var s := states[i];
    assert Next(s, steps[i], states[i + 1]);
    var r := s.readers[reader];
    assert ReaderOk(s.nodes, s.linked, r);
    assert Chain(s.nodes, s.linked[r.level], r.level);
    SkipLists.LoadStep(s.nodes, s.linked[r.level], r.level, r.x, r.key);
  }

  lemma StepGrows(states: seq<State>, steps: seq<Step>, i: nat)
    requires IsRun(states, steps) && i < |steps|
    ensures Grows(states[i].nodes, states[i].linked, states[i + 1].nodes, states[i + 1].linked)
  {
    RunInv(states, steps, i);
    NextInv(states[i], steps[i], states[i + 1]);
  }

  lemma GrowsOn(a: State, b: State, c: State)
    requires Grows(a.nodes, a.linked, b.nodes, b.linked) && Grows(b.nodes, b.linked, c.nodes, c.linked)
    ensures Grows(a.nodes, a.linked, c.nodes, c.linked)
  {
    forall i | 0 <= i < |a.linked| ensures a.linked[i] <= c.linked[i] {
      assert a.linked[i] <= b.linked[i] && b.linked[i] <= c.linked[i];
    }
  }

  /** Along a run, nodes keep their keys and published nodes stay published at their levels. */
  lemma {:induction false} RunGrows(states: seq<State>, steps: seq<Step>, i: nat, j: nat)
    requires IsRun(states, steps) && i <= j < |states|
    ensures Grows(states[i].nodes, states[i].linked, states[j].nodes, states[j].linked)
    decreases j
  {
    if i < j {
      RunGrows(states, steps, i, j - 1);
      StepGrows(states, steps, j - 1);
      GrowsOn(states[i], states[j - 1], states[j]);
    }
  }
}
