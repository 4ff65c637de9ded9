/** The hash table of the cache (util/cache.cpp: HandleTable): buckets of handles chained by their
    next_hash links.

    Handles are numbered; number 0 is the null pointer. */
module HandleTables {
  import opened DbFormat

  const NULL: nat := 0

  /** The part of a handle that never changes. */
  datatype Info = Info(key: Bytes, hash: nat)

  /** Where a pointer to a handle is stored: in a bucket, or in another handle. */
  datatype Location = Bucket(index: nat) | NextOf(handle: nat)

  ghost function Elem(chain: seq<nat>, j: nat): nat {
    if j < |chain| then chain[j] else NULL
  }

  /** The links from `head` on go through `chain`, from its element `j` on. */
  ghost predicate LinksFrom(next: map<nat, nat>, head: nat, chain: seq<nat>, j: nat) {
    && head == Elem(chain, j)
    && forall k :: j <= k < |chain| ==> chain[k] in next && next[chain[k]] == Elem(chain, k + 1)
  }

  /** Handles of a bucket: not null, known, hashed to it, and no two with the same key and hash. */
  ghost predicate InBucket(info: map<nat, Info>, chain: seq<nat>, size: nat, b: nat)
    requires size > 0
  {
    && (forall j :: 0 <= j < |chain| ==> chain[j] != NULL && chain[j] in info && info[chain[j]].hash % size == b)
    && (forall j, k :: 0 <= j < k < |chain| ==> info[chain[j]] != info[chain[k]])
  }

  ghost predicate Table(list: seq<nat>, next: map<nat, nat>, info: map<nat, Info>, chains: seq<seq<nat>>) {
    && |list| == |chains| > 0
    && (forall b :: 0 <= b < |chains| ==> LinksFrom(next, list[b], chains[b], 0))
    && (forall b :: 0 <= b < |chains| ==> InBucket(info, chains[b], |list|, b))
  }

  /** A handle is in the table if it is in the chain of its own bucket. */
  ghost predicate InTable(info: map<nat, Info>, chains: seq<seq<nat>>, h: nat) {
    h in info && |chains| > 0 && h in chains[info[h].hash % |chains|]
  }

  ghost predicate IsMembers(info: map<nat, Info>, chains: seq<seq<nat>>, members: set<nat>) {
    forall g: nat {:trigger InTable(info, chains, g)} :: g in members <==> InTable(info, chains, g)
  }

  ghost predicate Unlinked(chains: seq<seq<nat>>, h: nat) {
    forall b :: 0 <= b < |chains| ==> h !in chains[b]
  }

  ghost predicate NoRepeats(chain: seq<nat>) {
    forall i, k :: 0 <= i < k < |chain| ==> chain[i] != chain[k]
  }

  ghost function Count(chains: seq<seq<nat>>): nat {
    if chains == [] then 0 else Count(chains[..|chains| - 1]) + |chains[|chains| - 1]|
  }

  class HandleTable {
    var list: seq<nat>
    var next: map<nat, nat>
    var info: map<nat, Info>
    var elems: nat
    ghost var chains: seq<seq<nat>>
    ghost var members: set<nat>

    ghost predicate Valid()
      reads this
    {
      && Table(list, next, info, chains) && elems == Count(chains)
      && IsMembers(info, chains, members)
    }

    constructor ()
      ensures Valid() && info == map[] && members == {}
    {
      list, next, info, elems := seq(4, _ => NULL), map[], map[], 0;
      chains, members := seq(4, _ => []), {};
      new;
      EmptyTable(list, next, info, chains);
    }

    /** What a location holds. */
    function Load(p: Location): nat
      reads this
    {
      match p
      case Bucket(b) => if b < |list| then list[b] else NULL
      case NextOf(h) => if h in next then next[h] else NULL
    }

    /** The location of position `j` of bucket `b`. */
    ghost predicate IsLocation(p: Location, b: nat, j: nat)
      reads this
    {
      && b < |chains| && b < |list| && j <= |chains[b]|
      && p == (if j == 0 then Bucket(b) else NextOf(chains[b][j - 1]))
    }

    /** The location that points to the handle with this key and hash, or to the null pointer at the
        end of its chain. */
    method FindPointer(key: Bytes, hash: nat) returns (p: Location, ghost j: nat)
      requires Valid()
      ensures IsLocation(p, hash % |list|, j) && Load(p) == Elem(chains[hash % |list|], j)
      ensures forall k :: 0 <= k < j ==> info[chains[hash % |list|][k]] != Info(key, hash)
      ensures j < |chains[hash % |list|]| ==> info[chains[hash % |list|][j]] == Info(key, hash)
    {
      var b := hash % |list|;
      ghost var chain := chains[b];
      assert LinksFrom(next, list[b], chain, 0) && InBucket(info, chain, |list|, b);
      p, j := Bucket(b), 0;
      while Load(p) != NULL && info[Load(p)] != Info(key, hash)
        invariant j <= |chain| && IsLocation(p, b, j) && Load(p) == Elem(chain, j)
        invariant forall k :: 0 <= k < j ==> info[chain[k]] != Info(key, hash)
        decreases |chain| - j
      {
        p, j := NextOf(Load(p)), j + 1;
      }
    }

    /** The handle with this key and hash, or null when there is none. */
    method Lookup(key: Bytes, hash: nat) returns (h: nat)
      requires Valid()
      ensures h != NULL ==> h in members && h in info && info[h] == Info(key, hash)
      ensures forall g :: g in members ==> g in info && (info[g] == Info(key, hash) ==> g == h)
    {
      var p, _ := Locate(key, hash);
      h := Load(p);
    }

    /** Writes a pointer at a location. */
    method Store(p: Location, h: nat)
      modifies this`list, this`next
      requires p.Bucket? ==> p.index < |list|
      ensures list == StoredList(old(list), p, h) && next == StoredNext(old(next), p, h)
    {
      match p
      case Bucket(b) => list := list[b := h];
      case NextOf(g) => next := next[g := h];
    }

    /** Replaces the handle with the same key and hash, if there is one; it is returned. */
    method Insert(h: nat, key: Bytes, hash: nat) returns (replaced: nat)
      requires Valid() && h != NULL && h !in members
      modifies this
      ensures Valid() && info == old(info)[h := Info(key, hash)]
      ensures members == old(members) - {replaced} + {h}
      ensures replaced != NULL ==>
              replaced in old(members) && replaced in old(info) && old(info)[replaced] == Info(key, hash)
      ensures forall g :: g in old(members) ==> g in old(info) && (old(info)[g] == Info(key, hash) ==> g == replaced)
    {
      var p, j := Locate(key, hash);
      replaced := Load(p);
      NotInTable(list, next, info, chains, h);
      PutAt(p, hash % |list|, j, h, Info(key, hash));
      if replaced == NULL {
        Grow();
      }
    }

    /** FindPointer, in terms of the handles in the table. */
    method Locate(key: Bytes, hash: nat) returns (p: Location, ghost j: nat)
      requires Valid()
      ensures IsLocation(p, hash % |list|, j) && Load(p) == Elem(chains[hash % |list|], j)
      ensures forall k :: 0 <= k < |chains[hash % |list|]| && k != j ==>
                chains[hash % |list|][k] in info && info[chains[hash % |list|][k]] != Info(key, hash)
      ensures Load(p) != NULL ==> Load(p) in members && Load(p) in info && info[Load(p)] == Info(key, hash)
      ensures forall g :: g in members ==> g in info && (info[g] == Info(key, hash) ==> g == Load(p))
    {
      p, j := FindPointer(key, hash);
      ghost var b := hash % |list|;
      assert InBucket(info, chains[b], |list|, b);
      FoundInTable(list, next, info, chains, members, key, hash, j);
    }

    /** Counts a new element, and resizes when there are more elements than buckets. */
    method Grow()
      requires Table(list, next, info, chains) && elems + 1 == Count(chains) && IsMembers(info, chains, members)
      modifies this
      ensures Valid() && info == old(info) && members == old(members) && elems == old(elems) + 1 <= |list|
    {
      elems := elems + 1;
      if elems > |list| {
        Resize();
      }
    }

    /** The stores of Insert. */
    method PutAt(p: Location, ghost b: nat, ghost j: nat, h: nat, x: Info)
      requires Table(list, next, info, chains) && h != NULL && Unlinked(chains, h) && IsMembers(info, chains, members)
      requires IsLocation(p, b, j) && x.hash % |list| == b && Load(p) == Elem(chains[b], j)
      requires forall k :: 0 <= k < |chains[b]| && k != j ==> chains[b][k] in info && info[chains[b][k]] != x
      modifies this`list, this`next, this`info, this`chains, this`members
      ensures Table(list, next, info, chains) && info == old(info)[h := x]
      ensures Count(chains) == old(Count(chains)) + if old(Load(p)) == NULL then 1 else 0
      ensures members == old(members) - {old(Load(p))} + {h} && IsMembers(info, chains, members)
    {
      var at := Load(p);
      ghost var chain := chains[b];
      assert LinksFrom(next, list[b], chain, 0) && InBucket(info, chain, |list|, b);
      var after := if at == NULL then NULL else next[at];
      ghost var tail := [h] + if j < |chain| then chain[j + 1..] else [];
      info := info[h := x];
      next := next[h := after];
      Store(p, h);
      chains := chains[b := chain[..j] + tail];
      members := members - {at} + {h};
      PutTable(old(list), old(next), old(info), old(chains), b, j, p, h, x, after, tail, old(members));
    }

    /** Takes the handle with this key and hash out of its chain; null when there is none. */
    method Remove(key: Bytes, hash: nat) returns (h: nat)
      requires Valid()
      modifies this
      ensures Valid() && info == old(info) && members == old(members) - {h}
      ensures h != NULL ==> h in old(members) && h in info && info[h] == Info(key, hash)
      ensures forall g :: g in old(members) ==> g in info && (info[g] == Info(key, hash) ==> g == h)
    {
      var p, j := Locate(key, hash);
      h := Load(p);
      if h != NULL {
        TakeFrom(p, hash % |list|, j);
        elems := elems - 1;
      } else {
        NullNotInTable(list, next, info, chains);
        assert members == members - {h};
      }
    }

    /** The store of Remove. */
    method TakeFrom(p: Location, ghost b: nat, ghost j: nat)
      requires Table(list, next, info, chains) && IsLocation(p, b, j) && j < |chains[b]| && Load(p) == chains[b][j]
      requires IsMembers(info, chains, members)
      modifies this`list, this`next, this`chains, this`members
      ensures Table(list, next, info, chains) && Count(chains) == old(Count(chains)) - 1
      ensures members == old(members) - {old(Load(p))} && IsMembers(info, chains, members)
    {
      var h := Load(p);
      RemoveTable(list, next, info, chains, b, j, p);
      RemoveInTable(list, next, info, chains, b, j, members);
      Store(p, next[h]);
      chains := chains[b := chains[b][..j] + chains[b][j + 1..]];
      members := members - {h};
    }

    /** Moves every handle to a list with a bucket for each, relinking the handles as it goes. */
    method Resize()
      requires Valid()
      modifies this
      ensures Valid() && info == old(info) && elems == old(elems) <= |list| && members == old(members)
    {
      var newLength := 4;
      while newLength < elems
        invariant newLength > 0
      {
        newLength := newLength * 2;
      }
      var newList: seq<nat> := seq(newLength, _ => NULL);
      ghost var newChains: seq<seq<nat>> := seq(newLength, _ => []);
      EmptyTable(newList, next, info, newChains);
      for i := 0 to |list|
        invariant info == old(info) && list == old(list) && chains == old(chains) && elems == old(elems)
                  && members == old(members)
        invariant |newList| == newLength && Moving(list, next, info, chains, newList, newChains, i, 0)
      {
        newList, newChains := MoveBucket(i, newList, newChains);
      }
      MovedAll(list, next, info, chains, newList, newChains, members);
      list := newList;
      chains := newChains;
    }

    method MoveBucket(i: nat, newList0: seq<nat>, ghost newChains0: seq<seq<nat>>)
      returns (newList: seq<nat>, ghost newChains: seq<seq<nat>>)
      requires i < |list| && Moving(list, next, info, chains, newList0, newChains0, i, 0)
      modifies this`next
      ensures |newList| == |newList0| && Moving(list, next, info, chains, newList, newChains, i + 1, 0)
    {
      newList, newChains := newList0, newChains0;
      var h := list[i];
      ghost var j := 0;
      while h != NULL
        invariant j <= |chains[i]| && h == Elem(chains[i], j) && |newList| == |newList0|
        invariant Moving(list, next, info, chains, newList, newChains, i, j)
        decreases |chains[i]| - j
      {
        HandleToMove(list, next, info, chains, newList, newChains, i, j);
        var after := next[h];
        var b := info[h].hash % |newList|;
        MoveOne(list, next, info, chains, newList, newChains, i, j, b);
        next := next[h := newList[b]];
        newList := newList[b := h];
        newChains := newChains[b := [h] + newChains[b]];
        h, j := after, j + 1;
      }
      BucketMoved(list, next, info, chains, newList, newChains, i, j);
    }
  }

  //////////////////////////////////////////////////////////////////////////////
  // Resizing.

  /** Handle `g` is one of those in the buckets before `i`, or before position `j` of bucket `i`. */
  ghost predicate Done(info: map<nat, Info>, chains: seq<seq<nat>>, i: nat, j: nat, g: nat) {
    && g in info && |chains| > 0
    && var b := info[g].hash % |chains|;
    (b < i && g in chains[b]) || (b == i && j <= |chains[b]| && g in chains[b][..j])
  }

  /** The handles before position `j` of bucket `i` are in the new table, and the others still linked
      in the old one. */
  ghost predicate Moving(list: seq<nat>, next: map<nat, nat>, info: map<nat, Info>, chains: seq<seq<nat>>,
                         newList: seq<nat>, newChains: seq<seq<nat>>, i: nat, j: nat)
  {
    OldSide(list, next, info, chains, i, j) && NewSide(next, info, chains, newList, newChains, i, j)
  }

  ghost predicate OldSide(list: seq<nat>, next: map<nat, nat>, info: map<nat, Info>, chains: seq<seq<nat>>, i: nat,
                          j: nat)
  {
    && |list| == |chains| > 0 && i <= |chains|
    && (forall b :: 0 <= b < |chains| ==> InBucket(info, chains[b], |list|, b))
    && (i < |chains| ==> j <= |chains[i]| && LinksFrom(next, Elem(chains[i], j), chains[i], j))
    && (i < |chains| && j == 0 ==> list[i] == Elem(chains[i], 0))
    && (forall b :: i < b < |chains| ==> LinksFrom(next, list[b], chains[b], 0))
  }

  ghost predicate NewSide(next: map<nat, nat>, info: map<nat, Info>, chains: seq<seq<nat>>,
                          newList: seq<nat>, newChains: seq<seq<nat>>, i: nat, j: nat)
  {
    && Table(newList, next, info, newChains) && i <= |chains|
    && (forall g: nat :: InTable(info, newChains, g) <==> Done(info, chains, i, j, g))
    && Count(newChains) == Count(chains[..i]) + (if i < |chains| then j else 0)
  }

  function StoredList(list: seq<nat>, p: Location, h: nat): seq<nat> {
    match p
    case Bucket(b) => if b < |list| then list[b := h] else list
    case NextOf(_) => list
  }

  function StoredNext(next: map<nat, nat>, p: Location, h: nat): map<nat, nat> {
    match p
    case Bucket(_) => next
    case NextOf(g) => next[g := h]
  }

  /** In its bucket a key and hash are at most at the place that was found. */
  lemma OnlyThere(list: seq<nat>, next: map<nat, nat>, info: map<nat, Info>, chains: seq<seq<nat>>,
                  key: Bytes, hash: nat, j: nat)
    requires Table(list, next, info, chains) && j <= |chains[hash % |list|]|
    requires forall k :: 0 <= k < |chains[hash % |list|]| && k != j ==>
             info[chains[hash % |list|][k]] != Info(key, hash)
    ensures forall g: nat :: InTable(info, chains, g) && info[g] == Info(key, hash) ==>
              j < |chains[hash % |list|]| && g == chains[hash % |list|][j]
  {
    forall g | InTable(info, chains, g) && info[g] == Info(key, hash)
      ensures j < |chains[hash % |list|]| && g == chains[hash % |list|][j]
    {
      var k :| 0 <= k < |chains[hash % |list|]| && chains[hash % |list|][k] == g;
    }
  }

  //////////////////////////////////////////////////////////////////////////////
  // What a store does to the chains.

  /** Storing at position `j` of a chain the head of links through `tail` makes the chain go on with
      `tail` from there. */
  lemma SpliceChain(list: seq<nat>, next: map<nat, nat>, chain: seq<nat>, b: nat, j: nat, p: Location, v: nat,
                    tail: seq<nat>)
    requires b < |list| && LinksFrom(next, list[b], chain, 0) && j <= |chain|
    requires p == if j == 0 then Bucket(b) else NextOf(chain[j - 1])
    requires LinksFrom(next, v, tail, 0)
    requires forall i, k :: 0 <= i < k < |chain| ==> chain[i] != chain[k]
    requires forall k :: 0 <= k < |tail| ==> j > 0 ==> tail[k] != chain[j - 1]
    ensures LinksFrom(StoredNext(next, p, v), StoredList(list, p, v)[b], chain[..j] + tail, 0)
  {
    var chain', next' := chain[..j] + tail, StoredNext(next, p, v);
    forall k | 0 <= k < |chain'| ensures chain'[k] in next' && next'[chain'[k]] == Elem(chain', k + 1) {
      if k < j {
        assert chain'[k] == chain[k] && next[chain[k]] == Elem(chain, k + 1);
      } else {
        assert chain'[k] == tail[k - j] && next[tail[k - j]] == Elem(tail, k - j + 1);
      }
    }
  }

  /** A store elsewhere leaves a chain alone. */
  lemma OtherChain(list: seq<nat>, next: map<nat, nat>, chain: seq<nat>, b: nat, p: Location, v: nat)
    requires b < |list| && LinksFrom(next, list[b], chain, 0)
    requires p != Bucket(b) && (p.NextOf? ==> p.handle !in chain)
    ensures LinksFrom(StoredNext(next, p, v), StoredList(list, p, v)[b], chain, 0)
  {
  }

  /** A handle outside the table can be given an info and a link. */
  lemma AddHandle(list: seq<nat>, next: map<nat, nat>, info: map<nat, Info>, chains: seq<seq<nat>>, h: nat, x: Info,
                  v: nat)
    requires Table(list, next, info, chains) && Unlinked(chains, h)
    ensures Table(list, next[h := v], info[h := x], chains)
  {
    forall b | 0 <= b < |chains|
      ensures LinksFrom(next[h := v], list[b], chains[b], 0) && InBucket(info[h := x], chains[b], |list|, b)
    {
      assert h !in chains[b];
      assert LinksFrom(next, list[b], chains[b], 0) && InBucket(info, chains[b], |list|, b);
    }
  }

  lemma PutTailLinks(next: map<nat, nat>, chain: seq<nat>, j: nat, h: nat, tail: seq<nat>)
    requires j <= |chain| && h in next && next[h] == Elem(chain, j + 1)
    requires forall k :: 0 <= k < |chain| ==> chain[k] in next && next[chain[k]] == Elem(chain, k + 1)
    requires tail == [h] + if j < |chain| then chain[j + 1..] else []
    ensures LinksFrom(next, h, tail, 0)
  {
    forall k | 0 <= k < |tail| ensures tail[k] in next && next[tail[k]] == Elem(tail, k + 1) {
      if k > 0 {
        assert tail[k] == chain[j + k];
      }
    }
  }

  lemma PutTailInBucket(info: map<nat, Info>, chain: seq<nat>, size: nat, b: nat, j: nat, h: nat, tail: seq<nat>)
    requires size > 0 && j <= |chain| && h != NULL && h in info && info[h].hash % size == b
    requires InBucket(info, chain, size, b) && (forall k :: 0 <= k < |chain| && k != j ==> info[chain[k]] != info[h])
    requires tail == [h] + if j < |chain| then chain[j + 1..] else []
    ensures InBucket(info, chain[..j] + tail, size, b)
  {
    var chain' := chain[..j] + tail;
    assert forall k :: 0 <= k < |chain'| ==> chain'[k] == if k == j then h else chain[k];
  }

  lemma TailLinks(next: map<nat, nat>, chain: seq<nat>, j: nat)
    requires LinksFrom(next, Elem(chain, 0), chain, 0) && j <= |chain|
    ensures LinksFrom(next, Elem(chain, j), chain[j..], 0)
  {
    forall k | 0 <= k < |chain[j..]| ensures chain[j..][k] in next && next[chain[j..][k]] == Elem(chain[j..], k + 1) {
      assert chain[j..][k] == chain[j + k];
    }
  }

  lemma BucketsApart(info: map<nat, Info>, size: nat, c: seq<nat>, i: nat, d: seq<nat>, k: nat, h: nat)
    requires size > 0 && InBucket(info, c, size, i) && InBucket(info, d, size, k) && i != k && h in c
    ensures h !in d
  {
    var x :| 0 <= x < |c| && c[x] == h;
  }

  lemma SpliceTable(list: seq<nat>, next: map<nat, nat>, info: map<nat, Info>, chains: seq<seq<nat>>,
                    b: nat, j: nat, p: Location, v: nat, tail: seq<nat>)
    requires Table(list, next, info, chains) && b < |chains| && j <= |chains[b]|
    requires p == if j == 0 then Bucket(b) else NextOf(chains[b][j - 1])
    requires LinksFrom(next, v, tail, 0) && InBucket(info, chains[b][..j] + tail, |list|, b)
    ensures Table(StoredList(list, p, v), StoredNext(next, p, v), info, chains[b := chains[b][..j] + tail])
  {
    var list', next', chains' := StoredList(list, p, v), StoredNext(next, p, v), chains[b := chains[b][..j] + tail];
    var chain := chains[b];
    assert LinksFrom(next, list[b], chain, 0) && InBucket(info, chain, |list|, b);
    SpliceDistinct(info, chain, |list|, b, j, tail);
    forall c | 0 <= c < |chains|
      ensures LinksFrom(next', list'[c], chains'[c], 0) && InBucket(info, chains'[c], |list'|, c)
    {
      if c == b {
        SpliceChain(list, next, chain, b, j, p, v, tail);
      } else {
        assert LinksFrom(next, list[c], chains[c], 0) && InBucket(info, chains[c], |list|, c);
        if j > 0 {
          BucketsApart(info, |list|, chain, b, chains[c], c, chain[j - 1]);
        }
        OtherChain(list, next, chains[c], c, p, v);
      }
    }
  }

  lemma SpliceDistinct(info: map<nat, Info>, chain: seq<nat>, size: nat, b: nat, j: nat, tail: seq<nat>)
    requires size > 0 && j <= |chain| && InBucket(info, chain, size, b) && InBucket(info, chain[..j] + tail, size, b)
    ensures forall i, k :: 0 <= i < k < |chain| ==> chain[i] != chain[k]
    ensures forall k :: 0 <= k < |tail| ==> j > 0 ==> tail[k] != chain[j - 1]
  {
    var chain' := chain[..j] + tail;
    forall k | 0 <= k < |tail| && j > 0 ensures tail[k] != chain[j - 1] {
      assert chain'[j + k] == tail[k] && chain'[j - 1] == chain[j - 1];
    }
  }

  lemma {:induction false} CountUpdate(chains: seq<seq<nat>>, b: nat, c: seq<nat>)
    requires b < |chains|
    ensures Count(chains[b := c]) == Count(chains) - |chains[b]| + |c|
  {
    var n := |chains| - 1;
    if b < n {
      CountUpdate(chains[..n], b, c);
      assert chains[b := c][..n] == chains[..n][b := c];
    } else {
      assert chains[b := c][..n] == chains[..n];
    }
  }

  lemma InBucketNoRepeats(info: map<nat, Info>, chain: seq<nat>, size: nat, b: nat)
    requires size > 0 && InBucket(info, chain, size, b)
    ensures NoRepeats(chain)
  {
  }

  lemma PutMembers(chain: seq<nat>, j: nat, h: nat, tail: seq<nat>)
    requires j <= |chain| && NoRepeats(chain) && NULL !in chain
    requires tail == [h] + if j < |chain| then chain[j + 1..] else []
    ensures forall g: nat :: g in chain[..j] + tail <==> g == h || (g in chain && g != Elem(chain, j))
  {
    var chain' := chain[..j] + tail;
    assert forall k :: 0 <= k < |chain'| ==> chain'[k] == if k == j then h else chain[k];
    forall g | g in chain && g != Elem(chain, j) ensures g in chain' {
      var k :| 0 <= k < |chain| && chain[k] == g;
      assert chain'[k] == g;
    }
    assert chain'[j] == h;
  }

  lemma RemoveMembers(chain: seq<nat>, j: nat)
    requires j < |chain| && NoRepeats(chain)
    ensures forall g: nat :: g in chain[..j] + chain[j + 1..] <==> g in chain && g != chain[j]
  {
    var chain' := chain[..j] + chain[j + 1..];
    forall g | g in chain && g != chain[j] ensures g in chain' {
      var k :| 0 <= k < |chain| && chain[k] == g;
      assert g == chain'[if k < j then k else k - 1];
    }
  }

  lemma PutTable(list: seq<nat>, next: map<nat, nat>, info: map<nat, Info>, chains: seq<seq<nat>>,
                 b: nat, j: nat, p: Location, h: nat, x: Info, after: nat, tail: seq<nat>, members: set<nat>)
    requires Table(list, next, info, chains) && b < |chains| && j <= |chains[b]| && h != NULL && Unlinked(chains, h)
    requires IsMembers(info, chains, members)
    requires p == if j == 0 then Bucket(b) else NextOf(chains[b][j - 1])
    requires x.hash % |list| == b && after == Elem(chains[b], j + 1)
    requires forall k :: 0 <= k < |chains[b]| && k != j ==> chains[b][k] in info && info[chains[b][k]] != x
    requires tail == [h] + if j < |chains[b]| then chains[b][j + 1..] else []
    ensures Table(StoredList(list, p, h), StoredNext(next[h := after], p, h), info[h := x],
            chains[b := chains[b][..j] + tail])
    ensures Count(chains[b := chains[b][..j] + tail]) == Count(chains) + if j < |chains[b]| then 0 else 1
    ensures IsMembers(info[h := x], chains[b := chains[b][..j] + tail], members - {Elem(chains[b], j)} + {h})
  {
    PutInTable(list, next, info, chains, b, j, h, x, tail, members);
    AddHandle(list, next, info, chains, h, x, after);
    var next1, info1 := next[h := after], info[h := x];
    assert LinksFrom(next1, list[b], chains[b], 0) && InBucket(info1, chains[b], |list|, b);
    assert h !in chains[b];
    PutTailLinks(next1, chains[b], j, h, tail);
    PutTailInBucket(info1, chains[b], |list|, b, j, h, tail);
    SpliceTable(list, next1, info1, chains, b, j, p, h, tail);
    CountUpdate(chains, b, chains[b][..j] + tail);
  }

  lemma PutInTable(list: seq<nat>, next: map<nat, nat>, info: map<nat, Info>, chains: seq<seq<nat>>,
                   b: nat, j: nat, h: nat, x: Info, tail: seq<nat>, members: set<nat>)
    requires Table(list, next, info, chains) && b < |chains| && j <= |chains[b]| && x.hash % |list| == b
    requires tail == [h] + if j < |chains[b]| then chains[b][j + 1..] else []
    requires IsMembers(info, chains, members)
    ensures IsMembers(info[h := x], chains[b := chains[b][..j] + tail], members - {Elem(chains[b], j)} + {h})
  {
    var chains' := chains[b := chains[b][..j] + tail];
    assert InBucket(info, chains[b], |list|, b) && |chains'| == |chains|;
    InBucketNoRepeats(info, chains[b], |list|, b);
    NullNotInTable(list, next, info, chains);
    PutMembers(chains[b], j, h, tail);
    forall g: nat {:trigger g in info} | g != h
      ensures InTable(info[h := x], chains', g) <==> g in members && g != Elem(chains[b], j)
    {
      assert g in members <==> InTable(info, chains, g);
    }
    assert InTable(info[h := x], chains', h);
  }

  lemma RemoveTable(list: seq<nat>, next: map<nat, nat>, info: map<nat, Info>, chains: seq<seq<nat>>, b: nat, j: nat,
                    p: Location)
    requires Table(list, next, info, chains) && b < |chains| && j < |chains[b]|
    requires p == if j == 0 then Bucket(b) else NextOf(chains[b][j - 1])
    ensures chains[b][j] in next
    ensures var v, chains' := next[chains[b][j]], chains[b := chains[b][..j] + chains[b][j + 1..]];
            && Table(StoredList(list, p, v), StoredNext(next, p, v), info, chains')
            && Count(chains') == Count(chains) - 1
  {
    assert LinksFrom(next, list[b], chains[b], 0) && InBucket(info, chains[b], |list|, b);
    TailLinks(next, chains[b], j + 1);
    ShorterInBucket(info, chains[b], |list|, b, j);
    SpliceTable(list, next, info, chains, b, j, p, next[chains[b][j]], chains[b][j + 1..]);
    CountUpdate(chains, b, chains[b][..j] + chains[b][j + 1..]);
  }

  lemma ShorterInBucket(info: map<nat, Info>, chain: seq<nat>, size: nat, b: nat, j: nat)
    requires size > 0 && InBucket(info, chain, size, b) && j < |chain|
    ensures InBucket(info, chain[..j] + chain[j + 1..], size, b)
  {
    var chain' := chain[..j] + chain[j + 1..];
    assert forall k :: 0 <= k < |chain'| ==> chain'[k] == chain[if k < j then k else k + 1];
  }

  lemma RemoveInTable(list: seq<nat>, next: map<nat, nat>, info: map<nat, Info>, chains: seq<seq<nat>>, b: nat, j: nat,
                      members: set<nat>)
    requires Table(list, next, info, chains) && b < |chains| && j < |chains[b]| && IsMembers(info, chains, members)
    ensures IsMembers(info, chains[b := chains[b][..j] + chains[b][j + 1..]], members - {chains[b][j]})
  {
    var chains' := chains[b := chains[b][..j] + chains[b][j + 1..]];
    assert InBucket(info, chains[b], |list|, b) && |chains'| == |chains|;
    InBucketNoRepeats(info, chains[b], |list|, b);
    RemoveMembers(chains[b], j);
    forall g: nat {:trigger g in info} ensures InTable(info, chains', g) <==> g in members && g != chains[b][j] {
      assert g in members <==> InTable(info, chains, g);
    }
  }

  /** What FindPointer found, in terms of the handles in the table. */
  lemma FoundInTable(list: seq<nat>, next: map<nat, nat>, info: map<nat, Info>, chains: seq<seq<nat>>,
                     members: set<nat>,
                     key: Bytes, hash: nat, j: nat)
    requires Table(list, next, info, chains) && IsMembers(info, chains, members) && j <= |chains[hash % |list|]|
    requires forall k :: 0 <= k < |chains[hash % |list|]| && k != j ==>
             info[chains[hash % |list|][k]] != Info(key, hash)
    requires j < |chains[hash % |list|]| ==> info[chains[hash % |list|][j]] == Info(key, hash)
    ensures var h := Elem(chains[hash % |list|], j);
            && (h != NULL ==> h in members && h in info && info[h] == Info(key, hash))
            && forall g :: g in members ==> g in info && (info[g] == Info(key, hash) ==> g == h)
  {
    OnlyThere(list, next, info, chains, key, hash, j);
    var h := Elem(chains[hash % |list|], j);
    assert InBucket(info, chains[hash % |list|], |list|, hash % |list|);
    assert j < |chains[hash % |list|]| ==> InTable(info, chains, h);
    forall g | g in members ensures g in info && (info[g] == Info(key, hash) ==> g == h) {
      assert InTable(info, chains, g);
    }
  }

  lemma NullNotInTable(list: seq<nat>, next: map<nat, nat>, info: map<nat, Info>, chains: seq<seq<nat>>)
    requires Table(list, next, info, chains)
    ensures !InTable(info, chains, NULL) && forall b :: 0 <= b < |chains| ==> NULL !in chains[b]
  {
    forall b | 0 <= b < |chains| ensures NULL !in chains[b] {
      assert InBucket(info, chains[b], |list|, b);
    }
  }

  /** A handle that is not in the table is in no chain. */
  lemma NotInTable(list: seq<nat>, next: map<nat, nat>, info: map<nat, Info>, chains: seq<seq<nat>>, h: nat)
    requires Table(list, next, info, chains) && !InTable(info, chains, h)
    ensures Unlinked(chains, h)
  {
    forall b | 0 <= b < |chains| ensures h !in chains[b] {
      assert InBucket(info, chains[b], |list|, b);
    }
  }

  lemma {:induction false} EmptyCount(chains: seq<seq<nat>>)
    requires forall b :: 0 <= b < |chains| ==> chains[b] == []
    ensures Count(chains) == 0
  {
    if chains != [] {
      EmptyCount(chains[..|chains| - 1]);
    }
  }

  lemma EmptyTable(list: seq<nat>, next: map<nat, nat>, info: map<nat, Info>, chains: seq<seq<nat>>)
    requires |list| == |chains| > 0
    requires forall b :: 0 <= b < |chains| ==> list[b] == NULL && chains[b] == []
    ensures Table(list, next, info, chains) && Count(chains) == 0 && forall g :: !InTable(info, chains, g)
  {
    EmptyCount(chains);
  }

  /** The next handle to move is not yet in the new table, nor is any with its key and hash. */
  lemma HandleToMove(list: seq<nat>, next: map<nat, nat>, info: map<nat, Info>, chains: seq<seq<nat>>,
                     newList: seq<nat>, newChains: seq<seq<nat>>, i: nat, j: nat)
    requires Moving(list, next, info, chains, newList, newChains, i, j) && i < |chains| && j < |chains[i]|
    ensures var h := chains[i][j];
            && h != NULL && h in info && h in next && next[h] == Elem(chains[i], j + 1) && |newList| > 0
            && Unlinked(newChains, h)
            && forall b, k :: 0 <= b < |newChains| && 0 <= k < |newChains[b]| ==>
                 newChains[b][k] in info && info[newChains[b][k]] != info[h]
  {
    assert InBucket(info, chains[i], |list|, i);
    OthersMoved(list, next, info, chains, newList, newChains, i, j);
  }

  lemma OthersMoved(list: seq<nat>, next: map<nat, nat>, info: map<nat, Info>, chains: seq<seq<nat>>,
                    newList: seq<nat>, newChains: seq<seq<nat>>, i: nat, j: nat)
    requires NewSide(next, info, chains, newList, newChains, i, j) && i < |chains| && j < |chains[i]|
    requires |list| == |chains| && InBucket(info, chains[i], |list|, i)
    ensures forall b, k :: 0 <= b < |newChains| && 0 <= k < |newChains[b]| ==>
              newChains[b][k] in info && info[newChains[b][k]] != info[chains[i][j]] && newChains[b][k] != chains[i][j]
  {
    var h := chains[i][j];
    forall b, k | 0 <= b < |newChains| && 0 <= k < |newChains[b]|
      ensures newChains[b][k] in info && info[newChains[b][k]] != info[h] && newChains[b][k] != h
    {
      var g := newChains[b][k];
      assert InBucket(info, newChains[b], |newList|, b);
      assert InTable(info, newChains, g) && Done(info, chains, i, j, g);
      DoneIsOther(list, info, chains, i, j, g);
    }
  }

  lemma DoneIsOther(list: seq<nat>, info: map<nat, Info>, chains: seq<seq<nat>>, i: nat, j: nat, g: nat)
    requires |list| == |chains| > 0 && i < |chains| && j < |chains[i]| && Done(info, chains, i, j, g)
    requires InBucket(info, chains[i], |list|, i)
    ensures g != chains[i][j] && info[g] != info[chains[i][j]]
  {
    var b := info[g].hash % |chains|;
    if b == i {
      var k :| 0 <= k < j && chains[i][k] == g;
    }
  }

  lemma MoveOne(list: seq<nat>, next: map<nat, nat>, info: map<nat, Info>, chains: seq<seq<nat>>,
                newList: seq<nat>, newChains: seq<seq<nat>>, i: nat, j: nat, b: nat)
    requires Moving(list, next, info, chains, newList, newChains, i, j) && i < |chains| && j < |chains[i]|
    requires chains[i][j] in info && b == info[chains[i][j]].hash % |newList|
    ensures var h := chains[i][j];
            Moving(list, next[h := newList[b]], info, chains, newList[b := h], newChains[b := [h] + newChains[b]], i,
              j + 1)
  {
    var h := chains[i][j];
    HandleToMove(list, next, info, chains, newList, newChains, i, j);
    PushTable(newList, next, info, newChains, b, h);
    OldLinksStay(list, next, info, chains, i, j, newList[b]);
    MoveMembers(list, next, info, chains, newList, newChains, i, j, b);
  }

  lemma MoveMembers(list: seq<nat>, next: map<nat, nat>, info: map<nat, Info>, chains: seq<seq<nat>>,
                    newList: seq<nat>, newChains: seq<seq<nat>>, i: nat, j: nat, b: nat)
    requires NewSide(next, info, chains, newList, newChains, i, j) && i < |chains| && j < |chains[i]|
    requires |list| == |chains| > 0 && InBucket(info, chains[i], |list|, i)
    requires chains[i][j] in info && b == info[chains[i][j]].hash % |newList|
    ensures var h := chains[i][j];
            var newChains' := newChains[b := [h] + newChains[b]];
            && (forall g: nat :: InTable(info, newChains', g) <==> Done(info, chains, i, j + 1, g))
            && Count(newChains') == Count(chains[..i]) + j + 1
  {
    var h := chains[i][j];
    var newChains' := newChains[b := [h] + newChains[b]];
    PushMembers(info, newChains, b, h);
    CountUpdate(newChains, b, [h] + newChains[b]);
    OneMoreDone(list, info, chains, i, j);
    forall g: nat {:trigger g in info} ensures InTable(info, newChains', g) <==> Done(info, chains, i, j + 1, g) {
      assert InTable(info, newChains, g) <==> Done(info, chains, i, j, g);
    }
  }

  /** Pushing a handle in front of a chain of the new table. */
  lemma PushTable(list: seq<nat>, next: map<nat, nat>, info: map<nat, Info>, chains: seq<seq<nat>>, b: nat, h: nat)
    requires Table(list, next, info, chains) && b < |chains| && h != NULL && h in info && info[h].hash % |list| == b
    requires Unlinked(chains, h)
    requires forall c, k :: 0 <= c < |chains| && 0 <= k < |chains[c]| ==>
             chains[c][k] in info && info[chains[c][k]] != info[h]
    ensures Table(list[b := h], next[h := list[b]], info, chains[b := [h] + chains[b]])
  {
    var list', next', chains' := list[b := h], next[h := list[b]], chains[b := [h] + chains[b]];
    forall c | 0 <= c < |chains'|
      ensures LinksFrom(next', list'[c], chains'[c], 0) && InBucket(info, chains'[c], |list'|, c)
    {
      assert LinksFrom(next, list[c], chains[c], 0) && InBucket(info, chains[c], |list|, c) && h !in chains[c];
      if c == b {
        PushChain(next, list[b], chains[b], h);
        PushInBucket(info, chains[b], |list|, b, h);
      }
    }
  }

  lemma PushChain(next: map<nat, nat>, head: nat, chain: seq<nat>, h: nat)
    requires LinksFrom(next, head, chain, 0) && h !in chain
    ensures LinksFrom(next[h := head], h, [h] + chain, 0)
  {
    var chain', next' := [h] + chain, next[h := head];
    forall k | 0 <= k < |chain'| ensures chain'[k] in next' && next'[chain'[k]] == Elem(chain', k + 1) {
      assert k > 0 ==> chain'[k] == chain[k - 1];
    }
  }

  lemma PushInBucket(info: map<nat, Info>, chain: seq<nat>, size: nat, b: nat, h: nat)
    requires size > 0 && InBucket(info, chain, size, b) && h != NULL && h in info && info[h].hash % size == b
    requires forall k :: 0 <= k < |chain| ==> info[chain[k]] != info[h]
    ensures InBucket(info, [h] + chain, size, b)
  {
    var chain' := [h] + chain;
    assert forall k :: 0 < k < |chain'| ==> chain'[k] == chain[k - 1];
  }

  lemma PushMembers(info: map<nat, Info>, chains: seq<seq<nat>>, b: nat, h: nat)
    requires b < |chains| && h in info && info[h].hash % |chains| == b
    ensures forall g: nat :: InTable(info, chains[b := [h] + chains[b]], g) <==> g == h || InTable(info, chains, g)
  {
    var chains' := chains[b := [h] + chains[b]];
    assert |chains'| == |chains| && h in chains'[b];
    forall g: nat ensures InTable(info, chains', g) <==> g == h || InTable(info, chains, g) {
      if g in info {
        var c := info[g].hash % |chains|;
        assert c == b ==> (g in chains'[c] <==> g == h || g in chains[c]);
      }
    }
  }

  /** Relinking a handle that has been passed leaves the links not yet followed alone. */
  lemma OldLinksStay(list: seq<nat>, next: map<nat, nat>, info: map<nat, Info>, chains: seq<seq<nat>>, i: nat, j: nat,
                     v: nat)
    requires |list| == |chains| > 0 && i < |chains| && j < |chains[i]|
    requires forall b :: 0 <= b < |chains| ==> InBucket(info, chains[b], |list|, b)
    requires LinksFrom(next, Elem(chains[i], j), chains[i], j)
    requires forall b :: i < b < |chains| ==> LinksFrom(next, list[b], chains[b], 0)
    ensures var next' := next[chains[i][j] := v];
            && LinksFrom(next', Elem(chains[i], j + 1), chains[i], j + 1)
            && forall b :: i < b < |chains| ==> LinksFrom(next', list[b], chains[b], 0)
  {
    var h, next' := chains[i][j], next[chains[i][j] := v];
    InBucketNoRepeats(info, chains[i], |list|, i);
    forall b | i < b < |chains| ensures LinksFrom(next', list[b], chains[b], 0) {
      BucketsApart(info, |list|, chains[i], i, chains[b], b, h);
    }
  }

  lemma OneMoreDone(list: seq<nat>, info: map<nat, Info>, chains: seq<seq<nat>>, i: nat, j: nat)
    requires |list| == |chains| > 0 && i < |chains| && j < |chains[i]| && InBucket(info, chains[i], |list|, i)
    ensures forall g: nat :: Done(info, chains, i, j + 1, g) <==> g == chains[i][j] || Done(info, chains, i, j, g)
  {
    var h := chains[i][j];
    assert chains[i][..j + 1] == chains[i][..j] + [h];
    assert h in info && info[h].hash % |chains| == i;
    forall g: nat {:trigger g in info} ensures Done(info, chains, i, j + 1, g) <==>
      g == h || Done(info, chains, i, j, g)
    {
      assert g in chains[i][..j + 1] <==> g == h || g in chains[i][..j];
    }
  }

  lemma BucketMoved(list: seq<nat>, next: map<nat, nat>, info: map<nat, Info>, chains: seq<seq<nat>>,
                    newList: seq<nat>, newChains: seq<seq<nat>>, i: nat, j: nat)
    requires Moving(list, next, info, chains, newList, newChains, i, j) && i < |chains| && j == |chains[i]|
    ensures Moving(list, next, info, chains, newList, newChains, i + 1, 0)
  {
    assert chains[i][..j] == chains[i];
    forall g: nat ensures Done(info, chains, i + 1, 0, g) <==> Done(info, chains, i, j, g) {
    }
    assert chains[..i + 1][..i] == chains[..i];
  }

  lemma MovedAll(list: seq<nat>, next: map<nat, nat>, info: map<nat, Info>, chains: seq<seq<nat>>,
                 newList: seq<nat>, newChains: seq<seq<nat>>, members: set<nat>)
    requires Moving(list, next, info, chains, newList, newChains, |chains|, 0) && IsMembers(info, chains, members)
    ensures Table(newList, next, info, newChains) && Count(newChains) == Count(chains)
    ensures IsMembers(info, newChains, members)
  {
    assert chains[..|chains|] == chains;
    forall g: nat {:trigger g in info} ensures InTable(info, newChains, g) <==> g in members {
      assert InTable(info, newChains, g) <==> Done(info, chains, |chains|, 0, g);
      assert Done(info, chains, |chains|, 0, g) <==> InTable(info, chains, g);
    }
  }
}
