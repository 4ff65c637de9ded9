/** Circular doubly linked lists with a sentinel: the LRU ring of the cache (util/cache.cpp) and the
    list of snapshots (db/snapshot.h).

    Elements are numbered; the sentinel is number 0. */
module Rings {

  const SENTINEL: nat := 0

  /** Element i of the list; the positions before the first and after the last are the sentinel's. */
  ghost function At(order: seq<nat>, i: int): nat {
    if 0 <= i < |order| then order[i] else SENTINEL
  }

  ghost predicate Distinct(order: seq<nat>) {
    && (forall i :: 0 <= i < |order| ==> order[i] != SENTINEL)
    && (forall i, j :: 0 <= i < j < |order| ==> order[i] != order[j])
  }

  /** Without the element at position i. */
  ghost function Without(order: seq<nat>, i: nat): seq<nat>
    requires i < |order|
  {
    order[..i] + order[i + 1..]
  }

  /** The links go round from the sentinel through the list and back, in both directions. */
  ghost predicate Links(next: map<nat, nat>, prev: map<nat, nat>, order: seq<nat>) {
    && Distinct(order)
    && (forall i :: -1 <= i < |order| ==> At(order, i) in next && next[At(order, i)] == At(order, i + 1))
    && (forall i :: 0 <= i <= |order| ==> At(order, i) in prev && prev[At(order, i)] == At(order, i - 1))
  }

  class Ring {
    var next: map<nat, nat>
    var prev: map<nat, nat>
    ghost var order: seq<nat>

    ghost predicate Valid()
      reads this
    {
      Links(next, prev, order)
    }

    ghost function Members(): set<nat>
      reads this
    {
      set x | x in order
    }

    constructor ()
      ensures Valid() && order == [] && Members() == {}
    {
      next, prev, order := map[SENTINEL := SENTINEL], map[SENTINEL := SENTINEL], [];
    }

    predicate Empty()
      reads this
      requires Valid()
      ensures Empty() <==> order == []
    {
      assert next[At(order, -1)] == At(order, 0);
      next[SENTINEL] == SENTINEL
    }

    /** The first element: the least recently used handle, or the oldest snapshot. */
    function First(): (e: nat)
      reads this
      requires Valid() && order != []
      ensures e == order[0]
    {
      assert next[At(order, -1)] == At(order, 0);
      next[SENTINEL]
    }

    method Append(e: nat)
      requires Valid() && e != SENTINEL && e !in order
      modifies this
      ensures Valid() && order == old(order) + [e] && Members() == old(Members()) + {e}
    {
      assert prev[At(order, |order|)] == At(order, |order| - 1);
      var last := prev[SENTINEL];
      next := next[e := SENTINEL];
      prev := prev[e := last];
      next := next[last := e];
      prev := prev[SENTINEL := e];
      order := order + [e];
      AppendLinks(old(next), old(prev), old(order), e, next, prev);
    }

    method Remove(e: nat, ghost i: nat)
      requires Valid() && i < |order| && order[i] == e
      modifies this
      ensures Valid() && order == Without(old(order), i) && Members() == old(Members()) - {e}
    {
      WithoutMembers(order, i);
      assert next[At(order, i)] == At(order, i + 1) && prev[At(order, i)] == At(order, i - 1);
      var n, p := next[e], prev[e];
      prev := prev[n := p];
      next := next[p := n];
      order := Without(order, i);
      RemoveLinks(old(next), old(prev), old(order), i, next, prev);
    }
  }

  lemma WithoutMembers(order: seq<nat>, i: nat)
    requires Distinct(order) && i < |order|
    ensures forall g: nat :: g in Without(order, i) <==> g in order && g != order[i]
  {
    var order' := Without(order, i);
    forall g: nat | g in order && g != order[i] ensures g in order' {
      var k :| 0 <= k < |order| && order[k] == g;
      assert g == order'[if k < i then k else k - 1];
    }
  }

  /** Only the two ends of the list are the same element. */
  lemma AtDistinct(order: seq<nat>, a: int, b: int)
    requires Distinct(order) && -1 <= a <= |order| && -1 <= b <= |order| && At(order, a) == At(order, b)
    ensures a == b || (At(order, a) == SENTINEL && (a == -1 || a == |order|) && (b == -1 || b == |order|))
  {
  }

  lemma AppendLinks(next: map<nat, nat>, prev: map<nat, nat>, order: seq<nat>, e: nat, next': map<nat, nat>,
                    prev': map<nat, nat>)
    requires Links(next, prev, order) && e != SENTINEL && e !in order
    requires var last := At(order, |order| - 1);
             next' == next[e := SENTINEL][last := e] && prev' == prev[e := last][SENTINEL := e]
    ensures Links(next', prev', order + [e])
  {
    var order' := order + [e];
    forall i | -1 <= i < |order'| ensures At(order', i) in next' && next'[At(order', i)] == At(order', i + 1) {
      if i < |order| - 1 {
        assert next[At(order, i)] == At(order, i + 1);
        if At(order, i) == At(order, |order| - 1) {
          AtDistinct(order, i, |order| - 1);
        }
      }
    }
    forall i | 0 <= i <= |order'| ensures At(order', i) in prev' && prev'[At(order', i)] == At(order', i - 1) {
      if i < |order| {
        assert prev[At(order, i)] == At(order, i - 1);
      }
    }
  }

  lemma RemoveLinks(next: map<nat, nat>, prev: map<nat, nat>, order: seq<nat>, i: nat, next': map<nat, nat>,
                    prev': map<nat, nat>)
    requires Links(next, prev, order) && i < |order|
    requires var n, p := At(order, i + 1), At(order, i - 1); prev' == prev[n := p] && next' == next[p := n]
    ensures Links(next', prev', Without(order, i))
  {
    var order' := Without(order, i);
    forall k | -1 <= k < |order'| ensures At(order', k) in next' && next'[At(order', k)] == At(order', k + 1) {
      var o := if k < i then k else k + 1;
      assert At(order', k) == At(order, o) && next[At(order, o)] == At(order, o + 1);
      if At(order, o) == At(order, i - 1) {
        AtDistinct(order, o, i - 1);
      }
    }
    forall k | 0 <= k <= |order'| ensures At(order', k) in prev' && prev'[At(order', k)] == At(order', k - 1) {
      var o := if k < i then k else k + 1;
      assert At(order', k) == At(order, o) && prev[At(order, o)] == At(order, o - 1);
      if At(order, o) == At(order, i + 1) {
        AtDistinct(order, o, i + 1);
      }
    }
  }
}
