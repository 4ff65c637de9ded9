/** The list of snapshots (db/snapshot.h) as DBImpl uses it: numbers only grow, so the oldest snapshot
    is the smallest, which is what DoCompactionWork takes it for (db/db_impl.cpp:758-762). */
module Snapshots {
  import opened Rings

  /** The sequence numbers of the snapshots in the list's order. */
  ghost function Numbers(order: seq<nat>, number: map<nat, nat>): seq<nat> {
    seq(|order|, i requires 0 <= i < |order| => if order[i] in number then number[order[i]] else 0)
  }

  ghost predicate Ascending(numbers: seq<nat>) {
    forall i, j :: 0 <= i < j < |numbers| ==> numbers[i] <= numbers[j]
  }

  ghost predicate AtMost(numbers: seq<nat>, bound: nat) {
    forall i :: 0 <= i < |numbers| ==> numbers[i] <= bound
  }

  class SnapshotList {
    const ring: Ring
    var number: map<nat, nat>
    var next: nat

    ghost function Held(): seq<nat>
      reads this, ring
    {
      Numbers(ring.order, number)
    }

    ghost predicate Valid()
      reads this, ring
    {
      && ring.Valid() && Ascending(Held()) && next > SENTINEL
      && forall e :: e in ring.order ==> e < next && e in number
    }

    constructor ()
      ensures Valid() && fresh(ring) && Held() == []
    {
      ring := new Ring();
      number, next := map[], 1;
    }

    /** GetSnapshot passes the last sequence number, which no snapshot held exceeds. */
    method New(sequence: nat) returns (s: nat)
      requires Valid() && AtMost(Held(), sequence)
      modifies this, ring
      ensures Valid() && Held() == old(Held()) + [sequence] && ring.order == old(ring.order) + [s]
      ensures number == old(number)[s := sequence] && s !in old(ring.order)
    {
      s := next;
      next := next + 1;
      number := number[s := sequence];
      ring.Append(s);
      assert Held() == old(Held()) + [sequence];
    }

    method Delete(s: nat, ghost i: nat)
      requires Valid() && i < |ring.order| && ring.order[i] == s
      modifies this, ring
      ensures Valid() && Held() == Without(old(Held()), i) && ring.order == Without(old(ring.order), i)
      ensures number == old(number) - {s}
    {
      WithoutMembers(ring.order, i);
      ring.Remove(s, i);
      number := number - {s};
      assert s !in ring.order;
      forall j | 0 <= j < |ring.order| ensures Held()[j] == Without(old(Held()), i)[j] {
        assert ring.order[j] in ring.order;
      }
      assert Held() == Without(old(Held()), i);
    }

    /** The smallest snapshot of a compaction: the oldest one, or the last sequence if there is none. */
    method Smallest(lastSequence: nat) returns (smallest: nat)
      requires Valid() && AtMost(Held(), lastSequence)
      ensures smallest <= lastSequence && forall i :: 0 <= i < |Held()| ==> smallest <= Held()[i]
      ensures if Held() == [] then smallest == lastSequence else smallest in Held()
    {
      if ring.Empty() {
        smallest := lastSequence;
      } else {
        smallest := number[ring.First()];
        assert smallest == Held()[0];
      }
    }
  }
}
