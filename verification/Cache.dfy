/** The LRU cache (util/cache.cpp: LRUCache). */
module Caches {
  import opened DbFormat
  import opened HandleTables
  import opened Rings

  /** The part of a handle that the cache itself updates, and what it holds. */
  datatype Handle = Handle(value: Bytes, charge: nat, refs: nat)

  /** The total charge of some handles. */
  ghost function Charges(handles: map<nat, Handle>): nat {
    if handles == map[] then 0
    else var h :| h in handles; handles[h].charge + Charges(handles - {h})
  }

  lemma {:induction false} ChargesWithout(handles: map<nat, Handle>, h: nat)
    requires h in handles
    ensures Charges(handles) == handles[h].charge + Charges(handles - {h})
  {
    var g :| g in handles && Charges(handles) == handles[g].charge + Charges(handles - {g});
    if g != h {
      ChargesWithout(handles - {g}, h);
      ChargesWithout(handles - {h}, g);
      assert handles - {g} - {h} == handles - {h} - {g};
    }
  }

  lemma ChargesPut(handles: map<nat, Handle>, h: nat, x: Handle)
    ensures Charges(handles[h := x]) == x.charge + Charges(handles - {h})
  {
    ChargesWithout(handles[h := x], h);
    assert handles[h := x] - {h} == handles - {h};
  }

  //////////////////////////////////////////////////////////////////////////////
  // The books: references, charges and deleters.

  /** References held by clients. */
  ghost function Held(out: map<nat, nat>, h: nat): nat {
    if h in out then out[h] else 0
  }

  ghost function Membership(cached: set<nat>, h: nat): nat {
    if h in cached then 1 else 0
  }

  /** A live handle has one reference for being in the cache and one for each that a client holds. */
  ghost predicate Counted(handles: map<nat, Handle>, cached: set<nat>, out: map<nat, nat>) {
    && (forall h :: h in handles ==> handles[h].refs == Membership(cached, h) + Held(out, h) > 0)
    && (forall h :: h in cached ==> h in handles)
    && (forall h :: Held(out, h) > 0 ==> h in handles)
  }

  /** Every handle ever made is live, or its deleter has run, once. */
  ghost predicate Disposed(handles: map<nat, Handle>, deleted: seq<nat>, last: nat) {
    && (forall h :: h in handles ==> 0 < h <= last)
    && (forall h :: 0 < h <= last ==> (h in deleted <==> h !in handles))
    && (forall h :: h in deleted ==> 0 < h <= last)
    && (forall i, j :: 0 <= i < j < |deleted| ==> deleted[i] != deleted[j])
  }

  ghost predicate Books(handles: map<nat, Handle>, cached: set<nat>, out: map<nat, nat>, deleted: seq<nat>, last: nat,
                        usage: int)
  {
    Counted(handles, cached, out) && Disposed(handles, deleted, last) && usage == Charges(handles)
  }

  /** Handle `h` has one reference more than is accounted for. */
  ghost predicate OneTooMany(handles: map<nat, Handle>, cached: set<nat>, out: map<nat, nat>, h: nat) {
    && h in handles && handles[h].refs == Membership(cached, h) + Held(out, h) + 1
    && (forall g :: g in handles && g != h ==> handles[g].refs == Membership(cached, g) + Held(out, g) > 0)
    && (forall g :: g in cached ==> g in handles)
    && (forall g :: Held(out, g) > 0 ==> g in handles)
  }

  /** The last reference goes: the deleter runs and the handle is gone. */
  lemma DropLast(handles: map<nat, Handle>, cached: set<nat>, out: map<nat, nat>, deleted: seq<nat>, last: nat, h: nat)
    requires OneTooMany(handles, cached, out, h) && handles[h].refs == 1 && Disposed(handles, deleted, last)
    ensures Books(handles - {h}, cached, out, deleted + [h], last, Charges(handles) - handles[h].charge)
  {
    ChargesWithout(handles, h);
    assert forall g :: g in deleted + [h] <==> g in deleted || g == h;
  }

  lemma ChargesSame(handles: map<nat, Handle>, h: nat, refs: nat)
    requires h in handles
    ensures Charges(handles[h := handles[h].(refs := refs)]) == Charges(handles)
  {
    ChargesPut(handles, h, handles[h].(refs := refs));
    ChargesWithout(handles, h);
  }

  lemma DisposedSame(handles: map<nat, Handle>, handles': map<nat, Handle>, deleted: seq<nat>, last: nat)
    requires Disposed(handles, deleted, last) && handles.Keys == handles'.Keys
    ensures Disposed(handles', deleted, last)
  {
    assert forall h: nat :: h in handles <==> h in handles.Keys;
    assert forall h: nat :: h in handles' <==> h in handles'.Keys;
  }

  lemma CountedOneMore(handles: map<nat, Handle>, cached: set<nat>, out: map<nat, nat>, h: nat)
    requires Counted(handles, cached, out) && h in handles
    ensures Counted(handles[h := handles[h].(refs := handles[h].refs + 1)], cached, out[h := Held(out, h) + 1])
  {
  }

  lemma CountedOneLess(handles: map<nat, Handle>, cached: set<nat>, out: map<nat, nat>, h: nat)
    requires OneTooMany(handles, cached, out, h) && handles[h].refs > 1
    ensures Counted(handles[h := handles[h].(refs := handles[h].refs - 1)], cached, out)
  {
  }

  lemma DropOne(handles: map<nat, Handle>, cached: set<nat>, out: map<nat, nat>, deleted: seq<nat>, last: nat, h: nat)
    requires OneTooMany(handles, cached, out, h) && handles[h].refs > 1 && Disposed(handles, deleted, last)
    ensures Books(handles[h := handles[h].(refs := handles[h].refs - 1)], cached, out, deleted, last, Charges(handles))
  {
    var handles' := handles[h := handles[h].(refs := handles[h].refs - 1)];
    ChargesSame(handles, h, handles[h].refs - 1);
    DisposedSame(handles, handles', deleted, last);
    CountedOneLess(handles, cached, out, h);
  }

  /** A client gives up one of its references, which is still counted. */
  lemma HeldOneLess(handles: map<nat, Handle>, cached: set<nat>, out: map<nat, nat>, deleted: seq<nat>, last: nat,
                    usage: int, h: nat)
    requires Books(handles, cached, out, deleted, last, usage) && Held(out, h) > 0
    ensures h in out && OneTooMany(handles, cached, out[h := out[h] - 1], h)
    ensures handles[h].refs == 1 <==> h !in cached && out[h] == 1
  {
  }

  lemma KeptOthers(handles: map<nat, Handle>, h: nat, refs: nat)
    requires h in handles
    ensures Kept(handles, handles - {h}) && Kept(handles, handles[h := handles[h].(refs := refs)])
  {
  }

  lemma HoldOneMore(handles: map<nat, Handle>, cached: set<nat>, out: map<nat, nat>, deleted: seq<nat>, last: nat,
                    usage: int, h: nat)
    requires Books(handles, cached, out, deleted, last, usage) && h in handles
    ensures Books(handles[h := handles[h].(refs := handles[h].refs + 1)], cached, out[h := Held(out, h) + 1], deleted,
            last, usage)
  {
    var handles' := handles[h := handles[h].(refs := handles[h].refs + 1)];
    ChargesSame(handles, h, handles[h].refs + 1);
    DisposedSame(handles, handles', deleted, last);
    CountedOneMore(handles, cached, out, h);
  }

  /** A new handle, held by its client and by the cache. */
  lemma AddOne(handles: map<nat, Handle>, cached: set<nat>, out: map<nat, nat>, deleted: seq<nat>, last: nat,
               usage: int, x: Handle)
    requires Books(handles, cached, out, deleted, last, usage) && x.refs == 2
    ensures Books(handles[last + 1 := x], cached + {last + 1}, out[last + 1 := 1], deleted, last + 1, usage + x.charge)
  {
    var h := last + 1;
    assert h !in handles && Held(out, h) == 0;
    assert handles - {h} == handles;
    ChargesPut(handles, h, x);
  }

  /** The handles that are left hold what they held. */
  ghost predicate Kept(handles: map<nat, Handle>, handles': map<nat, Handle>) {
    forall g :: g in handles' ==>
      g in handles && handles'[g].value == handles[g].value && handles'[g].charge == handles[g].charge
  }

  /** What disposing of `h` gives back. */
  ghost function Freed(handles: map<nat, Handle>, handles': map<nat, Handle>, h: nat): nat {
    if h in handles && h !in handles' then handles[h].charge else 0
  }

  /** Measured against earlier handles it is the same. */
  lemma FreedSince(handles: map<nat, Handle>, middle: map<nat, Handle>, handles': map<nat, Handle>, h: nat)
    requires Kept(handles, middle) && h in middle
    ensures Freed(middle, handles', h) == Freed(handles, handles', h)
  {
  }

  lemma KeptOn(handles: map<nat, Handle>, middle: map<nat, Handle>, handles': map<nat, Handle>)
    requires Kept(handles, middle) && Kept(middle, handles')
    ensures Kept(handles, handles')
  {
  }

  //////////////////////////////////////////////////////////////////////////////
  // Order of use.

  /** The list without element `h`. */
  ghost function Minus(order: seq<nat>, h: nat): seq<nat> {
    if order == [] then [] else if order[0] == h then order[1..] else [order[0]] + Minus(order[1..], h)
  }

  /** The order after `h` has been appended and `replaced`, if any, removed. */
  ghost function Entered(order: seq<nat>, h: nat, replaced: nat): seq<nat> {
    if replaced == NULL then order + [h] else Minus(order + [h], replaced)
  }

  lemma {:induction false} WithoutIsMinus(order: seq<nat>, i: nat)
    requires Distinct(order) && i < |order|
    ensures Without(order, i) == Minus(order, order[i])
  {
    if i > 0 {
      WithoutIsMinus(order[1..], i - 1);
      assert Without(order, i) == [order[0]] + Without(order[1..], i - 1);
    } else {
      assert Without(order, i) == order[1..];
    }
  }

  /** In the history of uses, `b` has been used after the last use of `a`. */
  ghost predicate UsedBefore(uses: seq<nat>, a: nat, b: nat) {
    exists j {:trigger uses[j..]} :: 0 <= j < |uses| && uses[j] == b && a !in uses[j..]
  }

  /** The list is in the order in which its elements were used last. */
  ghost predicate ByLastUse(order: seq<nat>, uses: seq<nat>) {
    forall i, j :: 0 <= i < j < |order| ==> UsedBefore(uses, order[i], order[j])
  }

  lemma UsedBeforeStill(uses: seq<nat>, a: nat, b: nat, h: nat)
    requires UsedBefore(uses, a, b) && h != a
    ensures UsedBefore(uses + [h], a, b)
  {
    var j :| 0 <= j < |uses| && uses[j] == b && a !in uses[j..];
    assert (uses + [h])[j..] == uses[j..] + [h];
  }

  /** Whatever is used goes to the end. */
  lemma UseGoesLast(order: seq<nat>, uses: seq<nat>, h: nat)
    requires ByLastUse(order, uses) && h !in order
    ensures ByLastUse(order + [h], uses + [h])
  {
    var order' := order + [h];
    forall i, j | 0 <= i < j < |order'| ensures UsedBefore(uses + [h], order'[i], order'[j]) {
      assert order'[i] in order;
      if j < |order| {
        UsedBeforeStill(uses, order[i], order[j], h);
      } else {
        assert (uses + [h])[|uses|..] == [h];
      }
    }
  }

  lemma FirstIsOldest(order: seq<nat>, uses: seq<nat>)
    requires ByLastUse(order, uses) && order != []
    ensures Minus(order, order[0]) == order[1..]
    ensures forall g :: g in order[1..] ==> UsedBefore(uses, order[0], g)
  {
  }

  lemma LeavesInOrder(order: seq<nat>, uses: seq<nat>, i: nat)
    requires ByLastUse(order, uses) && i < |order|
    ensures ByLastUse(Without(order, i), uses)
  {
    var rest := Without(order, i);
    forall a, b | 0 <= a < b < |rest| ensures UsedBefore(uses, rest[a], rest[b]) {
      var a', b' := if a < i then a else a + 1, if b < i then b else b + 1;
      assert UsedBefore(uses, order[a'], order[b']);
    }
  }

  //////////////////////////////////////////////////////////////////////////////
  // The cache.

  class LRUCache {
    const table: HandleTable
    const ring: Ring
    const capacity: nat
    var handles: map<nat, Handle>
    var usage: int
    var last: nat
    ghost var out: map<nat, nat>
    ghost var deleted: seq<nat>
    /** Every handle inserted or found, in order. */
    ghost var uses: seq<nat>

    /** The hash table and the ring hold the same handles. */
    ghost predicate Agree()
      reads table, ring, this`last
    {
      table.Valid() && ring.Valid() && table.members == ring.Members() && forall h :: h in table.info ==> h <= last
    }

    ghost predicate Valid()
      reads this, table, ring
    {
      Agree() && Books(handles, table.members, out, deleted, last, usage) && ByLastUse(ring.order, uses)
    }

    constructor (capacity: nat)
      ensures Valid() && fresh(table) && fresh(ring) && this.capacity == capacity
      ensures handles == map[] && out == map[] && deleted == [] && uses == []
    {
      this.capacity := capacity;
      table := new HandleTable();
      ring := new Ring();
      handles, usage, last, out, deleted, uses := map[], 0, 0, map[], [], [];
    }

    /** Drops one reference, held by the cache or by a client, which has just been given up. */
    method Unref(h: nat)
      requires OneTooMany(handles, table.members, out, h) && Disposed(handles, deleted, last)
               && usage == Charges(handles)
      modifies this`handles, this`usage, this`deleted
      ensures Books(handles, table.members, out, deleted, last, usage) && Kept(old(handles), handles)
      ensures deleted == if old(handles[h].refs) == 1 then old(deleted) + [h] else old(deleted)
      ensures usage == old(usage) - Freed(old(handles), handles, h)
    {
      if handles[h].refs == 1 {
        RunDeleter(h);
      } else {
        Decrement(h);
      }
    }

    /** Other references are left. */
    method Decrement(h: nat)
      requires OneTooMany(handles, table.members, out, h) && handles[h].refs > 1
      requires Disposed(handles, deleted, last) && usage == Charges(handles)
      modifies this`handles
      ensures Books(handles, table.members, out, deleted, last, usage) && Kept(old(handles), handles)
      ensures h in handles
    {
      DropOne(handles, table.members, out, deleted, last, h);
      KeptOthers(handles, h, handles[h].refs - 1);
      handles := handles[h := handles[h].(refs := handles[h].refs - 1)];
    }

    /** The last reference is gone. */
    method RunDeleter(h: nat)
      requires OneTooMany(handles, table.members, out, h) && handles[h].refs == 1
      requires Disposed(handles, deleted, last) && usage == Charges(handles)
      modifies this`handles, this`usage, this`deleted
      ensures Books(handles, table.members, out, deleted, last, usage) && Kept(old(handles), handles)
      ensures deleted == old(deleted) + [h]
      ensures h !in handles && usage == old(usage) - old(handles[h].charge)
    {
      usage := usage - handles[h].charge;
      handles := handles - {h};
      deleted := deleted + [h];
      DropLast(old(handles), table.members, out, old(deleted), last, h);
      KeptOthers(old(handles), h, 0);
    }

    /** One more client holds the handle. */
    method Hold(h: nat)
      requires Books(handles, table.members, out, deleted, last, usage) && h in handles
      modifies this`handles, this`out
      ensures Books(handles, table.members, out, deleted, last, usage) && Kept(old(handles), handles)
      ensures out == old(out)[h := Held(old(out), h) + 1]
    {
      HoldOneMore(handles, table.members, out, deleted, last, usage, h);
      KeptOthers(handles, h, handles[h].refs + 1);
      handles := handles[h := handles[h].(refs := handles[h].refs + 1)];
      out := out[h := Held(out, h) + 1];
    }

    /** Takes a handle out of the ring, wherever it is. */
    method Unlink(h: nat)
      requires ring.Valid() && h in ring.Members() && ByLastUse(ring.order, uses)
      modifies ring
      ensures ring.Valid() && ring.Members() == old(ring.Members()) - {h} && ByLastUse(ring.order, uses)
      ensures ring.order == Minus(old(ring.order), h) && |ring.order| == |old(ring.order)| - 1
    {
      ghost var i :| 0 <= i < |ring.order| && ring.order[i] == h;
      WithoutIsMinus(ring.order, i);
      LeavesInOrder(ring.order, uses, i);
      ring.Remove(h, i);
    }

    /** Moves a handle to the end of the ring, which makes it the most recently used one. */
    method Touch(h: nat)
      requires ring.Valid() && h in ring.Members() && ByLastUse(ring.order, uses)
      modifies ring, this`uses
      ensures ring.Valid() && ring.Members() == old(ring.Members()) && ring.order == Minus(old(ring.order), h) + [h]
      ensures uses == old(uses) + [h] && ByLastUse(ring.order, uses)
    {
      assert h in ring.order && h != SENTINEL;
      Unlink(h);
      assert h !in ring.Members();
      UseGoesLast(ring.order, uses, h);
      ring.Append(h);
      uses := uses + [h];
    }

    /** A cached handle with this key and hash becomes the most recently used one, and the caller holds
        a reference to it. */
    method Lookup(key: Bytes, hash: nat) returns (h: nat)
      requires Valid()
      modifies this`handles, this`out, this`uses, ring
      ensures Valid() && Kept(old(handles), handles)
      ensures h != NULL ==> h in table.members && h in table.info && table.info[h] == Info(key, hash)
      ensures ring.order == if h != NULL then Minus(old(ring.order), h) + [h] else old(ring.order)
      ensures h == NULL ==> handles == old(handles)
      ensures forall g :: g in table.members ==> g in table.info && (table.info[g] == Info(key, hash) ==> g == h)
      ensures out == if h != NULL then old(out)[h := Held(old(out), h) + 1] else old(out)
      ensures uses == if h != NULL then old(uses) + [h] else old(uses)
    {
      h := table.Lookup(key, hash);
      if h != NULL {
        Hold(h);
        Touch(h);
      }
    }

    /** A client gives up a reference. */
    method Release(h: nat)
      requires Valid() && Held(out, h) > 0
      modifies this`handles, this`usage, this`deleted, this`out
      ensures Valid() && Kept(old(handles), handles) && out == old(out)[h := old(out)[h] - 1]
      ensures deleted == if h in table.members || old(out)[h] > 1 then old(deleted) else old(deleted) + [h]
    {
      HeldOneLess(handles, table.members, out, deleted, last, usage, h);
      out := out[h := out[h] - 1];
      Unref(h);
    }

    /** The cache gives up its reference to a handle, which clients may still hold. */
    method Drop(h: nat, ghost cached: set<nat>)
      requires h !in table.members && cached == table.members + {h}
      requires Books(handles, cached, out, deleted, last, usage)
      modifies this`handles, this`usage, this`deleted
      ensures Books(handles, table.members, out, deleted, last, usage) && Kept(old(handles), handles)
      ensures deleted == if Held(out, h) > 0 then old(deleted) else old(deleted) + [h]
      ensures usage == old(usage) - Freed(old(handles), handles, h)
    {
      Unref(h);
    }

    /** A handle that has left the hash table leaves the ring, and the cache gives up its reference. */
    method Forget(h: nat, ghost cached: set<nat>)
      requires table.Valid() && ring.Valid() && ring.Members() == cached && ByLastUse(ring.order, uses)
      requires h in cached && table.members == cached - {h} && forall g :: g in table.info ==> g <= last
      requires Books(handles, cached, out, deleted, last, usage)
      modifies this`handles, this`usage, this`deleted, ring
      ensures Valid() && Kept(old(handles), handles) && ring.order == Minus(old(ring.order), h)
    {
      Unlink(h);
      Drop(h, cached);
    }

    method Erase(key: Bytes, hash: nat)
      requires Valid()
      modifies this`handles, this`usage, this`deleted, table, ring
      ensures Valid() && out == old(out) && table.info == old(table.info) && Kept(old(handles), handles)
      ensures forall g :: g in table.members <==>
              g in old(table.members) && g in table.info && table.info[g] != Info(key, hash)
    {
      var h := table.Remove(key, hash);
      if h != NULL {
        Forget(h, old(table.members));
      }
    }

    /** Takes a handle out of the ring and the hash table. */
    method Detach(h: nat)
      requires Agree() && h in ring.Members() && ByLastUse(ring.order, uses)
      modifies table, ring
      ensures Agree() && ByLastUse(ring.order, uses) && table.info == old(table.info)
      ensures ring.order == Minus(old(ring.order), h)
      ensures table.members == old(table.members) - {h}
    {
      assert InTable(table.info, table.chains, h);
      Unlink(h);
      var removed := table.Remove(table.info[h].key, table.info[h].hash);
      assert removed == h;
    }

    /** Evicts the least recently used handle. */
    method Evict()
      requires Valid() && ring.order != []
      modifies this`handles, this`usage, this`deleted, table, ring
      ensures Valid() && out == old(out) && table.info == old(table.info) && Kept(old(handles), handles)
      ensures ring.order == old(ring.order)[1..] && table.members == old(table.members) - {old(ring.order)[0]}
      ensures old(ring.order)[0] in old(handles)
              && usage == old(usage) - Freed(old(handles), handles, old(ring.order)[0])
      ensures forall g :: g in ring.order ==> UsedBefore(uses, old(ring.order)[0], g)
    {
      var h := ring.First();
      assert h in ring.Members() && h in handles;
      FirstIsOldest(ring.order, uses);
      Detach(h);
      Drop(h, old(table.members));
    }

    /** Handle `h` has been made and its references counted, but it is not in the cache yet. */
    ghost predicate Pending(h: nat)
      reads this, table, ring
    {
      && table.Valid() && ring.Valid() && table.members == ring.Members() && (forall g :: g in table.info ==> g < h)
      && h == last && h != NULL && h !in table.members
      && Books(handles, table.members + {h}, out, deleted, last, usage) && ByLastUse(ring.order, uses)
    }

    method NewHandle(value: Bytes, charge: nat) returns (h: nat)
      requires Valid()
      modifies this`handles, this`last, this`usage, this`out
      ensures Pending(h) && h == old(last) + 1 && out == old(out)[h := 1]
              && handles == old(handles)[h := Handle(value, charge, 2)]
    {
      h := last + 1;
      assert h !in table.members;
      Count(Handle(value, charge, 2), table.members);
    }

    /** A new handle, held by its maker and by the cache, is entered in the books. */
    method Count(e: Handle, ghost cached: set<nat>)
      requires Books(handles, cached, out, deleted, last, usage) && e.refs == 2
      modifies this`handles, this`last, this`usage, this`out
      ensures last == old(last) + 1 && Books(handles, cached + {last}, out, deleted, last, usage)
      ensures handles == old(handles)[last := e] && out == old(out)[last := 1]
    {
      AddOne(handles, cached, out, deleted, last, usage, e);
      handles, usage, out := handles[last + 1 := e], usage + e.charge, out[last + 1 := 1];
      last := last + 1;
    }

    /** Puts the handle made for a new value in the ring and the hash table, dropping the one it
        replaces. */
    method Enter(h: nat, key: Bytes, hash: nat) returns (replaced: nat)
      requires Pending(h)
      modifies this`handles, this`usage, this`deleted, this`uses, table, ring
      ensures Valid() && Kept(old(handles), handles) && h in table.members
              && table.info == old(table.info)[h := Info(key, hash)]
      ensures forall g :: g in table.members ==>
                g == h || (g in old(table.members) && g in old(table.info) && old(table.info)[g] != Info(key, hash))
      ensures replaced != NULL ==> replaced in old(table.info) && old(table.info)[replaced] == Info(key, hash)
      ensures ring.order == Entered(old(ring.order), h, replaced) && uses == old(uses) + [h]
    {
      assert h !in ring.order;
      UseGoesLast(ring.order, uses, h);
      ring.Append(h);
      uses := uses + [h];
      replaced := table.Insert(h, key, hash);
      if replaced != NULL {
        Forget(replaced, old(table.members) + {h});
      }
    }

    /** Evicts the least recently used handles, no more of them than it takes to fit. */
    method EvictToFit() returns (ghost n: nat)
      requires Valid()
      modifies this`handles, this`usage, this`deleted, table, ring
      ensures Valid() && out == old(out) && table.info == old(table.info) && Kept(old(handles), handles)
      ensures table.members <= old(table.members) && (usage <= capacity || ring.order == [])
      ensures n <= |old(ring.order)| && ring.order == old(ring.order)[n..]
      ensures n > 0 ==> old(ring.order)[n - 1] in old(handles)
      ensures n > 0 ==> usage + Freed(old(handles), handles, old(ring.order)[n - 1]) > capacity
    {
      n := 0;
      while usage > capacity && !ring.Empty()
        invariant Valid() && out == old(out) && table.info == old(table.info) && Kept(old(handles), handles)
        invariant table.members <= old(table.members)
        invariant n <= |old(ring.order)| && ring.order == old(ring.order)[n..]
        invariant n > 0 ==> old(ring.order)[n - 1] in old(handles)
        invariant n > 0 ==> usage + Freed(old(handles), handles, old(ring.order)[n - 1]) > capacity
        decreases |ring.order|
      {
        ghost var middle, h := handles, ring.order[0];
        Evict();
        FreedSince(old(handles), middle, handles, h);
        KeptOn(old(handles), middle, handles);
        n := n + 1;
      }
    }

    /** Inserts a value, for which the caller holds a reference, in place of one with the same key, and
        then evicts the least recently used handles, no more of them than it takes to fit. */
    method Insert(key: Bytes, hash: nat, value: Bytes, charge: nat) returns (h: nat, ghost replaced: nat, ghost n: nat)
      requires Valid()
      modifies this, table, ring
      ensures Valid() && h == old(last) + 1 && out == old(out)[h := 1] && uses == old(uses) + [h]
      ensures h in handles && handles[h].value == value && h in table.info && table.info[h] == Info(key, hash)
      ensures usage <= capacity || ring.order == []
      ensures forall g :: g in table.members && g != h ==> g in table.info && table.info[g] != Info(key, hash)
      ensures Kept(old(handles)[h := Handle(value, charge, 2)], handles)
      ensures replaced != NULL ==> replaced in old(table.info) && old(table.info)[replaced] == Info(key, hash)
      ensures var entered := Entered(old(ring.order), h, replaced);
              && n <= |entered| && ring.order == entered[n..]
              && (n > 0 ==> usage + Freed(old(handles)[h := Handle(value, charge, 2)], handles,
                 entered[n - 1]) > capacity)
    {
      h := NewHandle(value, charge);
      replaced, n := InsertNew(h, key, hash);
      assert Held(out, h) > 0;
    }

    method InsertNew(h: nat, key: Bytes, hash: nat) returns (ghost replaced: nat, ghost n: nat)
      requires Pending(h)
      modifies this`handles, this`usage, this`deleted, this`uses, table, ring
      ensures Valid() && Kept(old(handles), handles) && table.info == old(table.info)[h := Info(key, hash)]
      ensures uses == old(uses) + [h]
      ensures usage <= capacity || ring.order == []
      ensures forall g :: g in table.members && g != h ==> g in table.info && table.info[g] != Info(key, hash)
      ensures replaced != NULL ==> replaced in old(table.info) && old(table.info)[replaced] == Info(key, hash)
      ensures var entered := Entered(old(ring.order), h, replaced);
              && n <= |entered| && ring.order == entered[n..]
              && (n > 0 ==> usage + Freed(old(handles), handles, entered[n - 1]) > capacity)
    {
      replaced := Enter(h, key, hash);
      ghost var middle, entered := handles, ring.order;
      n := EvictToFit();
      KeptOn(old(handles), middle, handles);
      if n > 0 {
        FreedSince(old(handles), middle, handles, entered[n - 1]);
      }
    }
  }
}
