/** The memtable's skip list (db/skiplist.h): one writer, readers that never wait.

    Nodes are numbered; node 0 is the head, which nothing links to, so a link to 0 is a null link.
    Keys are ranks in the comparator's order.  Loads and stores of links are taken to be sequentially
    consistent, and every one of them is a step of its own. */
module SkipLists {

  const MAX_HEIGHT: nat := 12
  const HEAD: nat := 0
  const NIL: nat := 0

  /** The arena of nodes: the key of each and its links, as many as it is high. */
  datatype Nodes = Nodes(key: seq<real>, next: seq<seq<nat>>)

  predicate IsNode(nodes: Nodes, n: nat) {
    n < |nodes.key| && n < |nodes.next|
  }

  predicate HasLevel(nodes: Nodes, n: nat, level: nat) {
    IsNode(nodes, n) && level < |nodes.next[n]|
  }

  function SetNext(nodes: Nodes, n: nat, level: nat, m: nat): Nodes
    requires HasLevel(nodes, n, level)
  {
    var links: seq<nat> := nodes.next[n][level := m];
    nodes.(next := nodes.next[n := links])
  }

  /** The head comes before every node. */
  predicate Before(nodes: Nodes, x: nat, y: nat)
    requires IsNode(nodes, x) && IsNode(nodes, y)
  {
    x == HEAD || nodes.key[x] < nodes.key[y]
  }

  //////////////////////////////////////////////////////////////////////////////
  // One level: the nodes linked there, each link leading to the next of them.

  ghost predicate AllNodes(nodes: Nodes, s: set<nat>) {
    forall q {:trigger q in s} :: q in s ==> IsNode(nodes, q)
  }

  /** The nodes in `s` exist, are not the head, and have a link for this level. */
  ghost predicate Members(nodes: Nodes, s: set<nat>, level: nat) {
    HasLevel(nodes, HEAD, level) && forall q {:trigger q in s} :: q in s ==> q != HEAD && HasLevel(nodes, q, level)
  }

  /** `m` is the first node of `s` after `x`, or null if there is none. */
  ghost predicate IsNext(nodes: Nodes, s: set<nat>, x: nat, m: nat)
    requires IsNode(nodes, x) && AllNodes(nodes, s)
  {
    if m == NIL then forall q :: q in s ==> !Before(nodes, x, q)
    else m in s && Before(nodes, x, m) && forall q :: q in s && Before(nodes, x, q) ==> nodes.key[m] <= nodes.key[q]
  }

  ghost predicate Chain(nodes: Nodes, s: set<nat>, level: nat) {
    Members(nodes, s, level) && forall x :: x == HEAD || x in s ==> IsNext(nodes, s, x, nodes.next[x][level])
  }

  ghost predicate Distinct(nodes: Nodes, s: set<nat>)
    requires AllNodes(nodes, s)
  {
    forall a, b :: a in s && b in s && nodes.key[a] == nodes.key[b] ==> a == b
  }

  /** Every level is a chain of some of the nodes of the level below. */
  ghost predicate Chains(nodes: Nodes, linked: seq<set<nat>>) {
    && Nested(linked)
    && (forall i :: 0 <= i < MAX_HEIGHT ==> Chain(nodes, linked[i], i))
    && Distinct(nodes, linked[0])
  }

  ghost predicate Nested(linked: seq<set<nat>>) {
    |linked| == MAX_HEIGHT && forall i :: 0 < i < MAX_HEIGHT ==> linked[i] <= linked[i - 1]
  }

  /** `p` is the last node of the level, or the head, before `key`. */
  ghost predicate IsPrev(nodes: Nodes, s: set<nat>, p: nat, key: real)
    requires AllNodes(nodes, s)
  {
    && (p == HEAD || (p in s && nodes.key[p] < key))
    && forall q :: q in s && nodes.key[q] < key ==> IsNode(nodes, p) && !Before(nodes, p, q)
  }

  //////////////////////////////////////////////////////////////////////////////
  // The two stores that link a node into a level.

  /** A store to a node that is not linked into the level changes no chain. */
  lemma PrivateStore(nodes: Nodes, s: set<nat>, level: nat, x: nat, i: nat, m: nat)
    requires Chain(nodes, s, level) && x !in s && x != HEAD && HasLevel(nodes, x, i)
    ensures Chain(SetNext(nodes, x, i, m), s, level)
  {
    var nodes' := SetNext(nodes, x, i, m);
    forall y | y == HEAD || y in s ensures IsNext(nodes', s, y, nodes'.next[y][level]) {
      assert IsNext(nodes, s, y, nodes.next[y][level]);
    }
  }

  /** A store to another level changes no chain of this level. */
  lemma OtherLevelStore(nodes: Nodes, s: set<nat>, level: nat, p: nat, i: nat, m: nat)
    requires Chain(nodes, s, level) && HasLevel(nodes, p, i) && i != level
    ensures Chain(SetNext(nodes, p, i, m), s, level)
  {
    var nodes' := SetNext(nodes, p, i, m);
    forall y | y == HEAD || y in s ensures IsNext(nodes', s, y, nodes'.next[y][level]) {
      assert IsNext(nodes, s, y, nodes.next[y][level]);
    }
  }

  /** Publishing `x` after its predecessor adds exactly `x` to the level's chain. */
  lemma PublishStore(nodes: Nodes, s: set<nat>, level: nat, p: nat, x: nat)
    requires CanPublish(nodes, s, level, p, x)
    ensures Chain(SetNext(nodes, p, level, x), s + {x}, level)
  {
    var nodes', s' := SetNext(nodes, p, level, x), s + {x};
    assert Members(nodes', s', level);
    forall y | y == HEAD || y in s' ensures IsNext(nodes', s', y, nodes'.next[y][level]) {
      if y == x {
        NextOfNew(nodes, s, level, p, x);
      } else if y == p {
        NextOfPrev(nodes, s, level, p, x);
      } else {
        NextOfOther(nodes, s, level, p, x, y);
      }
      StoreKeepsNext(nodes, nodes', s', y, nodes'.next[y][level]);
    }
  }

  ghost predicate CanPublish(nodes: Nodes, s: set<nat>, level: nat, p: nat, x: nat) {
    && Chain(nodes, s, level) && Distinct(nodes, s) && x !in s && x != HEAD && HasLevel(nodes, x, level)
    && IsPrev(nodes, s, p, nodes.key[x]) && nodes.next[x][level] == nodes.next[p][level]
    && forall q :: q in s ==> nodes.key[q] != nodes.key[x]
  }

  lemma StoreKeepsNext(nodes: Nodes, nodes': Nodes, s: set<nat>, y: nat, m: nat)
    requires nodes'.key == nodes.key && |nodes'.next| == |nodes.next|
    requires AllNodes(nodes, s) && IsNode(nodes, y) && IsNext(nodes, s, y, m)
    ensures AllNodes(nodes', s) && IsNext(nodes', s, y, m)
  {
  }

  lemma NextOfNew(nodes: Nodes, s: set<nat>, level: nat, p: nat, x: nat)
    requires CanPublish(nodes, s, level, p, x)
    ensures AllNodes(nodes, s + {x}) && IsNext(nodes, s + {x}, x, nodes.next[p][level])
  {
    assert IsNext(nodes, s, p, nodes.next[p][level]);
  }

  lemma NextOfPrev(nodes: Nodes, s: set<nat>, level: nat, p: nat, x: nat)
    requires CanPublish(nodes, s, level, p, x)
    ensures AllNodes(nodes, s + {x}) && IsNext(nodes, s + {x}, p, x)
  {
  }

  lemma NextOfOther(nodes: Nodes, s: set<nat>, level: nat, p: nat, x: nat, y: nat)
    requires CanPublish(nodes, s, level, p, x) && (y == HEAD || y in s) && y != p
    ensures AllNodes(nodes, s + {x}) && IsNext(nodes, s + {x}, y, nodes.next[y][level])
  {
    assert IsNext(nodes, s, y, nodes.next[y][level]);
    if Before(nodes, y, x) {
      assert Before(nodes, y, p);
    }
  }

  //////////////////////////////////////////////////////////////////////////////
  // What every single store keeps.

  function NewNode(nodes: Nodes, key: real, height: nat): Nodes {
    Nodes(nodes.key + [key], nodes.next + [seq(height, _ => NIL)])
  }

  lemma AllocationKeepsChain(nodes: Nodes, s: set<nat>, level: nat, key: real, height: nat)
    requires Chain(nodes, s, level) && |nodes.key| == |nodes.next|
    ensures Chain(NewNode(nodes, key, height), s, level)
  {
    var nodes' := NewNode(nodes, key, height);
    assert Members(nodes', s, level);
    forall y | y == HEAD || y in s ensures IsNext(nodes', s, y, nodes'.next[y][level]) {
      assert IsNext(nodes, s, y, nodes.next[y][level]);
    }
  }

  /** Allocating a node links nothing. */
  lemma AllocationKeepsChains(nodes: Nodes, linked: seq<set<nat>>, key: real, height: nat)
    requires Chains(nodes, linked) && |nodes.key| == |nodes.next|
    ensures Chains(NewNode(nodes, key, height), linked)
  {
    forall i | 0 <= i < MAX_HEIGHT ensures Chain(NewNode(nodes, key, height), linked[i], i) {
      AllocationKeepsChain(nodes, linked[i], i, key, height);
    }
  }

  /** Setting the new node's own link, which nobody can reach yet at that level. */
  lemma OwnLinkKeepsChains(nodes: Nodes, linked: seq<set<nat>>, x: nat, level: nat, m: nat)
    requires Chains(nodes, linked) && level < MAX_HEIGHT && x !in linked[level] && x != HEAD
             && HasLevel(nodes, x, level)
    ensures Chains(SetNext(nodes, x, level, m), linked)
  {
    forall i | 0 <= i < MAX_HEIGHT ensures Chain(SetNext(nodes, x, level, m), linked[i], i) {
      if i == level {
        PrivateStore(nodes, linked[i], i, x, level, m);
      } else {
        OtherLevelStore(nodes, linked[i], i, x, level, m);
      }
    }
  }

  lemma PublishKeepsChain(nodes: Nodes, linked: seq<set<nat>>, p: nat, level: nat, x: nat, i: nat)
    requires |linked| == MAX_HEIGHT && level < MAX_HEIGHT && i < MAX_HEIGHT
    requires Chain(nodes, linked[i], i) && CanPublish(nodes, linked[level], level, p, x)
    ensures Chain(SetNext(nodes, p, level, x), linked[level := linked[level] + {x}][i], i)
  {
    if i == level {
      PublishStore(nodes, linked[i], i, p, x);
    } else {
      OtherLevelStore(nodes, linked[i], i, p, level, x);
    }
  }

  /** Publishing the new node at a level, having published it at the levels below. */
  lemma PublishKeepsChains(nodes: Nodes, linked: seq<set<nat>>, p: nat, level: nat, x: nat, linked': seq<set<nat>>)
    requires Chains(nodes, linked) && level < MAX_HEIGHT && CanPublish(nodes, linked[level], level, p, x)
    requires level > 0 ==> x in linked[level - 1]
    requires linked' == linked[level := linked[level] + {x}]
    ensures Chains(SetNext(nodes, p, level, x), linked')
  {
    forall i | 0 <= i < MAX_HEIGHT ensures Chain(SetNext(nodes, p, level, x), linked'[i], i) {
      PublishKeepsChain(nodes, linked, p, level, x, i);
    }
    PublishKeepsDistinct(nodes, linked, p, level, x);
    PublishKeepsNested(linked, level, x);
  }

  lemma PublishKeepsNested(linked: seq<set<nat>>, level: nat, x: nat)
    requires Nested(linked) && level < MAX_HEIGHT && (level > 0 ==> x in linked[level - 1])
    ensures Nested(linked[level := linked[level] + {x}])
  {
  }

  lemma PublishKeepsDistinct(nodes: Nodes, linked: seq<set<nat>>, p: nat, level: nat, x: nat)
    requires |linked| == MAX_HEIGHT && level < MAX_HEIGHT && AllNodes(nodes, linked[0]) && Distinct(nodes, linked[0])
    requires CanPublish(nodes, linked[level], level, p, x)
    ensures var nodes', s' := SetNext(nodes, p, level, x), linked[level := linked[level] + {x}][0];
            AllNodes(nodes', s') && Distinct(nodes', s')
  {
  }

  lemma {:induction false} NestedInLowest(linked: seq<set<nat>>, i: nat)
    requires Nested(linked) && i < MAX_HEIGHT
    ensures linked[i] <= linked[0]
  {
    if i > 0 {
      NestedInLowest(linked, i - 1);
      assert linked[i] <= linked[i - 1];
    }
  }

  //////////////////////////////////////////////////////////////////////////////
  // An insertion under way.

  /** Node `x` is published at the levels below `level` and at no other; `prev` holds its predecessors
      at the levels still to do. */
  ghost predicate Linking(nodes: Nodes, linked: seq<set<nat>>, x: nat, prev: seq<nat>, height: nat, level: nat) {
    Chains(nodes, linked) && Placing(nodes, linked, x, prev, height, level)
  }

  /** The new node `x` is linked below `level`, and `prev` says where it belongs from there on. */
  ghost predicate Placing(nodes: Nodes, linked: seq<set<nat>>, x: nat, prev: seq<nat>, height: nat, level: nat) {
    && |nodes.key| == |nodes.next| && |linked| == MAX_HEIGHT
    && x != HEAD && IsNode(nodes, x) && |nodes.next[x]| == height && level <= height <= MAX_HEIGHT <= |prev|
    && (forall i :: 0 <= i < level ==> x in linked[i])
    && (forall i :: level <= i < MAX_HEIGHT ==> x !in linked[i])
    && (forall i :: level <= i < height ==>
       AllNodes(nodes, linked[i]) && IsPrev(nodes, linked[i], prev[i], nodes.key[x]))
    && AllNodes(nodes, linked[0]) && forall q :: q in linked[0] && q != x ==> nodes.key[q] != nodes.key[x]
  }

  lemma LinkingCanPublish(nodes: Nodes, linked: seq<set<nat>>, x: nat, prev: seq<nat>, height: nat, level: nat)
    requires Linking(nodes, linked, x, prev, height, level) && level < height
    requires HasLevel(nodes, prev[level], level) && nodes.next[x][level] == nodes.next[prev[level]][level]
    ensures CanPublish(nodes, linked[level], level, prev[level], x)
  {
    NestedInLowest(linked, level);
    assert Chain(nodes, linked[level], level);
  }

  lemma PrevHasLevel(nodes: Nodes, linked: seq<set<nat>>, x: nat, prev: seq<nat>, height: nat, level: nat)
    requires Linking(nodes, linked, x, prev, height, level) && level < height
    ensures HasLevel(nodes, prev[level], level) && prev[level] != x
  {
    assert Chain(nodes, linked[level], level);
  }

  /** Storing the new node's own link keeps every chain as it is. */
  lemma OwnLinkStep(nodes: Nodes, linked: seq<set<nat>>, x: nat, prev: seq<nat>, height: nat, level: nat, m: nat)
    requires Linking(nodes, linked, x, prev, height, level) && level < height
    ensures Linking(SetNext(nodes, x, level, m), linked, x, prev, height, level)
  {
    OwnLinkKeepsChains(nodes, linked, x, level, m);
  }

  /** Storing the predecessor's link publishes the new node at one more level. */
  lemma PublishStep(nodes: Nodes, linked: seq<set<nat>>, x: nat, prev: seq<nat>, height: nat, level: nat,
                    linked': seq<set<nat>>)
    requires Linking(nodes, linked, x, prev, height, level) && level < height
    requires HasLevel(nodes, prev[level], level) && prev[level] != x
    requires nodes.next[x][level] == nodes.next[prev[level]][level]
    requires linked' == linked[level := linked[level] + {x}]
    ensures Linking(SetNext(nodes, prev[level], level, x), linked', x, prev, height, level + 1)
  {
    LinkingCanPublish(nodes, linked, x, prev, height, level);
    PublishKeepsChains(nodes, linked, prev[level], level, x, linked');
    PublishPlaces(nodes, linked, x, prev, height, level, linked');
  }

  lemma PublishPlaces(nodes: Nodes, linked: seq<set<nat>>, x: nat, prev: seq<nat>, height: nat, level: nat,
                      linked': seq<set<nat>>)
    requires Placing(nodes, linked, x, prev, height, level) && level < height
    requires HasLevel(nodes, prev[level], level) && prev[level] != x
    requires linked' == linked[level := linked[level] + {x}]
    ensures Placing(SetNext(nodes, prev[level], level, x), linked', x, prev, height, level + 1)
  {
  }

  /** A new node, linked nowhere yet. */
  lemma LinkingStarts(nodes: Nodes, linked: seq<set<nat>>, prev: seq<nat>, height: nat, key: real)
    requires Chains(nodes, linked) && |nodes.key| == |nodes.next| && height <= MAX_HEIGHT <= |prev|
    requires forall i :: 0 <= i < height ==> AllNodes(nodes, linked[i]) && IsPrev(nodes, linked[i], prev[i], key)
    requires AllNodes(nodes, linked[0]) && forall q :: q in linked[0] ==> nodes.key[q] != key
    ensures Linking(NewNode(nodes, key, height), linked, |nodes.key|, prev, height, 0)
  {
    AllocationKeepsChains(nodes, linked, key, height);
    forall i | 0 <= i < MAX_HEIGHT ensures |nodes.key| !in linked[i] {
      assert Chain(nodes, linked[i], i);
    }
    assert IsNode(nodes, HEAD) by { assert Chain(nodes, linked[0], 0); }
  }

  //////////////////////////////////////////////////////////////////////////////
  // Searches.

  /** `m` is the first linked node at or after `key`, or null if there is none. */
  ghost predicate IsFirstFrom(nodes: Nodes, s: set<nat>, key: real, m: nat)
    requires AllNodes(nodes, s)
  {
    if m == NIL then forall q :: q in s ==> nodes.key[q] < key
    else m in s && key <= nodes.key[m] && forall q :: q in s && key <= nodes.key[q] ==> nodes.key[m] <= nodes.key[q]
  }

  /** A search for `key` may stand at `x`: the head, or a node of the level that comes before it. */
  ghost predicate OnTheWay(nodes: Nodes, s: set<nat>, x: nat, key: real)
    requires AllNodes(nodes, s)
  {
    x == HEAD || (x in s && nodes.key[x] < key)
  }

  /** What one load tells a search: to go on from there, or that `x` is the last node before the key. */
  lemma LoadStep(nodes: Nodes, s: set<nat>, level: nat, x: nat, key: real)
    requires Chain(nodes, s, level) && OnTheWay(nodes, s, x, key)
    ensures var m := nodes.next[x][level];
            if m != NIL && nodes.key[m] < key then OnTheWay(nodes, s, m, key)
            else IsPrev(nodes, s, x, key) && IsFirstFrom(nodes, s, key, m)
  {
    assert IsNext(nodes, s, x, nodes.next[x][level]);
  }

  /** The nodes of a level that a search standing at `x` has not passed. */
  ghost function Ahead(nodes: Nodes, s: set<nat>, x: nat): set<nat>
    requires IsNode(nodes, x) && AllNodes(nodes, s)
  {
    set q | q in s && Before(nodes, x, q)
  }

  class SkipList {
    var nodes: Nodes
    var maxHeight: nat
    ghost var linked: seq<set<nat>>

    ghost predicate Valid()
      reads this
    {
      && Chains(nodes, linked) && |nodes.key| == |nodes.next| && 1 <= maxHeight <= MAX_HEIGHT
      && forall i :: maxHeight <= i < MAX_HEIGHT ==> linked[i] == {}
    }

    constructor ()
      ensures Valid() && linked[0] == {}
    {
      nodes := Nodes([0.0], [seq(MAX_HEIGHT, _ => NIL)]);
      maxHeight := 1;
      linked := seq(MAX_HEIGHT, _ => {});
    }

    /** The first node at or after `key`, and the last node before it at every level in use. */
    method FindGreaterOrEqual(key: real) returns (m: nat, prev: seq<nat>)
      requires Valid()
      ensures Chain(nodes, linked[0], 0) && IsFirstFrom(nodes, linked[0], key, m)
      ensures |prev| == MAX_HEIGHT
      ensures forall i :: 0 <= i < maxHeight ==> Chain(nodes, linked[i], i) && IsPrev(nodes, linked[i], prev[i], key)
    {
      var x: nat, level: nat := HEAD, maxHeight - 1;
      prev := seq(MAX_HEIGHT, _ => HEAD);
      while true
        invariant level < maxHeight && |prev| == MAX_HEIGHT
        invariant Chain(nodes, linked[level], level) && OnTheWay(nodes, linked[level], x, key)
        invariant forall i :: level < i < maxHeight ==>
                  Chain(nodes, linked[i], i) && IsPrev(nodes, linked[i], prev[i], key)
        decreases level, Ahead(nodes, linked[level], x)
      {
        var next := nodes.next[x][level];
        LoadStep(nodes, linked[level], level, x, key);
        if next != NIL && nodes.key[next] < key {
          MovesAhead(nodes, linked[level], level, x);
          x := next;
        } else {
          prev := prev[level := x];
          if level == 0 {
            return next, prev;
          }
          level := level - 1;
          assert linked[level + 1] <= linked[level];
        }
      }
    }

    /** The last node before `key`, or the head. */
    method FindLessThan(key: real) returns (x: nat)
      requires Valid()
      ensures Chain(nodes, linked[0], 0) && IsPrev(nodes, linked[0], x, key)
    {
      var level: nat := maxHeight - 1;
      x := HEAD;
      while true
        invariant level < maxHeight && Chain(nodes, linked[level], level) && OnTheWay(nodes, linked[level], x, key)
        decreases level, Ahead(nodes, linked[level], x)
      {
        var next := nodes.next[x][level];
        LoadStep(nodes, linked[level], level, x, key);
        if next == NIL || nodes.key[next] >= key {
          if level == 0 {
            return x;
          }
          level := level - 1;
          assert linked[level + 1] <= linked[level];
        } else {
          MovesAhead(nodes, linked[level], level, x);
          x := next;
        }
      }
    }

    /** The last node, or the head of an empty list. */
    method FindLast() returns (x: nat)
      requires Valid()
      ensures Chain(nodes, linked[0], 0) && (x == HEAD || x in linked[0])
      ensures forall q :: q in linked[0] ==> !Before(nodes, x, q)
    {
      var level: nat := maxHeight - 1;
      x := HEAD;
      while true
        invariant level < maxHeight && Chain(nodes, linked[level], level) && (x == HEAD || x in linked[level])
        decreases level, Ahead(nodes, linked[level], x)
      {
        var next := nodes.next[x][level];
        assert IsNext(nodes, linked[level], x, next);
        if next == NIL {
          if level == 0 {
            return x;
          }
          level := level - 1;
          assert linked[level + 1] <= linked[level];
        } else {
          MovesAhead(nodes, linked[level], level, x);
          x := next;
        }
      }
    }

    /** Raises the list's height, with the head as predecessor at the new levels. */
    method Raise(prev0: seq<nat>, height: nat, ghost key: real) returns (prev: seq<nat>)
      requires Valid() && 1 <= height <= MAX_HEIGHT == |prev0|
      requires forall i :: 0 <= i < maxHeight ==> AllNodes(nodes, linked[i]) && IsPrev(nodes, linked[i], prev0[i], key)
      modifies this`maxHeight
      ensures Valid() && height <= maxHeight && |prev| == MAX_HEIGHT
      ensures forall i :: 0 <= i < height ==> AllNodes(nodes, linked[i]) && IsPrev(nodes, linked[i], prev[i], key)
    {
      prev := prev0;
      if height > maxHeight {
        for i := maxHeight to height
          invariant |prev| == MAX_HEIGHT && forall j :: 0 <= j < maxHeight ==> prev[j] == prev0[j]
          invariant forall j :: maxHeight <= j < i ==> prev[j] == HEAD
        {
          prev := prev[i := HEAD];
        }
        maxHeight := height;
      }
    }

    /** The two stores that link `x` into one level.  After each of them every level is a chain of nodes
        of the level below. */
    method Link(x: nat, prev: seq<nat>, height: nat, level: nat)
      requires Linking(nodes, linked, x, prev, height, level) && level < height
      modifies this`nodes, this`linked
      ensures Linking(nodes, linked, x, prev, height, level + 1)
      ensures nodes.key == old(nodes.key) && linked == old(linked)[level := old(linked)[level] + {x}]
    {
      PrevHasLevel(nodes, linked, x, prev, height, level);
      var p := prev[level];
      OwnLinkStep(nodes, linked, x, prev, height, level, nodes.next[p][level]);
      nodes := SetNext(nodes, x, level, nodes.next[p][level]);
      assert Chains(nodes, linked);
      PublishStep(nodes, linked, x, prev, height, level, linked[level := linked[level] + {x}]);
      nodes := SetNext(nodes, p, level, x);
      linked := linked[level := linked[level] + {x}];
      assert Chains(nodes, linked);
    }

    method LinkAll(x: nat, prev: seq<nat>, height: nat)
      requires Linking(nodes, linked, x, prev, height, 0) && 1 <= height
      modifies this`nodes, this`linked
      ensures Linking(nodes, linked, x, prev, height, height) && nodes.key == old(nodes.key)
      ensures forall j :: 0 <= j < height ==> linked[j] == old(linked)[j] + {x}
      ensures forall j :: height <= j < MAX_HEIGHT ==> linked[j] == old(linked)[j]
    {
      for i := 0 to height
        invariant Linking(nodes, linked, x, prev, height, i) && nodes.key == old(nodes.key)
        invariant forall j :: 0 <= j < i ==> linked[j] == old(linked)[j] + {x}
        invariant forall j :: i <= j < MAX_HEIGHT ==> linked[j] == old(linked)[j]
      {
        Link(x, prev, height, i);
      }
    }

    /** Inserts a key that is not in the list. */
    method Insert(key: real, height: nat)
      requires Valid() && 1 <= height <= MAX_HEIGHT
      requires AllNodes(nodes, linked[0]) && forall q :: q in linked[0] ==> nodes.key[q] != key
      modifies this
      ensures Valid() && nodes.key == old(nodes).key + [key]
      ensures forall i :: 0 <= i < height ==> linked[i] == old(linked[i]) + {|old(nodes).key|}
      ensures forall i :: height <= i < MAX_HEIGHT ==> linked[i] == old(linked[i])
    {
      var m, prev := FindGreaterOrEqual(key);
      prev := Raise(prev, height, key);
      var x := |nodes.key|;
      LinkingStarts(nodes, linked, prev, height, key);
      nodes := NewNode(nodes, key, height);
      LinkAll(x, prev, height);
    }

    method Contains(key: real) returns (found: bool)
      requires Valid()
      ensures Chain(nodes, linked[0], 0) && (found <==> exists q :: q in linked[0] && nodes.key[q] == key)
    {
      var m, _ := FindGreaterOrEqual(key);
      found := m != NIL && nodes.key[m] == key;
    }
  }

  lemma MovesAhead(nodes: Nodes, s: set<nat>, level: nat, x: nat)
    requires Chain(nodes, s, level) && (x == HEAD || x in s) && nodes.next[x][level] != NIL
    ensures var m := nodes.next[x][level]; m in s && Ahead(nodes, s, m) < Ahead(nodes, s, x)
  {
    var m := nodes.next[x][level];
    assert IsNext(nodes, s, x, m);
    assert m in Ahead(nodes, s, x) && m !in Ahead(nodes, s, m);
  }
}
