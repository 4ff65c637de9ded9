/** Keys, entries and the one meaning every layer must preserve (db/dbformat.h, db/dbformat.cpp).

    A user key is represented by its rank in the user comparator's order.  User keys are finite
    byte strings, so there are countably many of them, and every countable total order embeds in
    the reals: nothing is lost by taking ranks to be `real`. */
module DbFormat {

  datatype Option<+T> = None | Some(value: T)

  type Byte = x: int | 0 <= x < 256

  type Bytes = seq<Byte>

  type UserKey = real

  const NUM_LEVELS := 7
  const MAX_SEQUENCE: nat := 0xff_ffff_ffff_ffff

  datatype Kind = Deletion | Value

  /** An internal key: the user key, the sequence number of the write, and its kind. */
  datatype IKey = IKey(user: UserKey, sn: nat, kind: Kind)

  /** One record of a memtable or table. */
  datatype Entry = Entry(key: UserKey, sn: nat, kind: Kind, value: Bytes)

  function KeyOf(e: Entry): IKey {
    IKey(e.key, e.sn, e.kind)
  }

  /** The 8-byte trailer of an encoded internal key. */
  function Tag(k: IKey): nat {
    k.sn * 256 + (if k.kind.Value? then 1 else 0)
  }

  /** Internal keys ascend by user key and, within one user key, descend by tag. */
  predicate Less(a: IKey, b: IKey) {
    || a.user < b.user
    || (a.user == b.user && (a.sn > b.sn || (a.sn == b.sn && a.kind.Value? && b.kind.Deletion?)))
  }

  predicate LessEq(a: IKey, b: IKey) {
    a == b || Less(a, b)
  }

  /** The three-way comparison of InternalKeyComparator, on the packed tags. */
  function Compare(a: IKey, b: IKey): int {
    if a.user < b.user then -1
    else if a.user > b.user then 1
    else if Tag(a) > Tag(b) then -1
    else if Tag(a) < Tag(b) then 1
    else 0
  }

  /** Comparing packed tags is the lexicographic order on (user, sequence descending, kind descending),
      and only equal keys compare equal. */
  lemma CompareIsOrder(a: IKey, b: IKey)
    ensures Compare(a, b) < 0 <==> Less(a, b)
    ensures Compare(a, b) == 0 <==> a == b
    ensures Compare(a, b) == -Compare(b, a)
  {
    if a.user == b.user && Tag(a) == Tag(b) {
      assert a.sn == Tag(a) / 256 == b.sn;
    }
  }

  /** The key that seeks to the newest entry of `user` visible at sequence `s`. */
  function SeekKey(user: UserKey, s: nat): IKey {
    IKey(user, s, Value)
  }

  predicate SortedTable(t: seq<Entry>) {
    forall i, j :: 0 <= i < j < |t| ==> Less(KeyOf(t[i]), KeyOf(t[j]))
  }

  //////////////////////////////////////////////////////////////////////////////
  // The view: what a set of entries says about a user key at a sequence number.

  predicate Visible(e: Entry, k: UserKey, s: nat) {
    e.key == k && e.sn <= s
  }

  ghost predicate IsNewest(all: iset<Entry>, k: UserKey, s: nat, e: Entry) {
    && e in all
    && Visible(e, k, s)
    && forall f :: f in all && Visible(f, k, s) ==> f.sn <= e.sn
  }

  /** Every write has its own sequence number. */
  ghost predicate UniqueSeqs(all: iset<Entry>) {
    forall e, f :: e in all && f in all && e.sn == f.sn ==> e == f
  }

  function Meaning(e: Entry): Option<Bytes> {
    if e.kind.Value? then Some(e.value) else None
  }

  /** The value a reader at sequence `s` must see for `k`: that of the newest visible entry. */
  ghost function View(all: iset<Entry>, k: UserKey, s: nat): Option<Bytes> {
    if exists e :: IsNewest(all, k, s, e)
    then var e :| IsNewest(all, k, s, e); Meaning(e)
    else None
  }

  lemma ViewIs(all: iset<Entry>, k: UserKey, s: nat, e: Entry)
    requires UniqueSeqs(all) && IsNewest(all, k, s, e)
    ensures View(all, k, s) == Meaning(e)
  {
    forall f | IsNewest(all, k, s, f) ensures f == e {
    }
  }

  lemma ViewIsNone(all: iset<Entry>, k: UserKey, s: nat)
    requires forall e :: e in all ==> !Visible(e, k, s)
    ensures View(all, k, s) == None
  {
  }

  /** A visible entry bounds a newest one: sequence numbers at most `s` cannot grow forever. */
  lemma {:induction false} NewestExists(all: iset<Entry>, k: UserKey, s: nat, e: Entry) returns (n: Entry)
    requires e in all && Visible(e, k, s)
    ensures IsNewest(all, k, s, n) && n.sn >= e.sn
    decreases s - e.sn
  {
    if f :| f in all && Visible(f, k, s) && f.sn > e.sn {
      n := NewestExists(all, k, s, f);
    } else {
      n := e;
    }
  }
}
