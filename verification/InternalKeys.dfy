/** Internal keys as byte strings (db/dbformat.h, db/dbformat.cpp). */
module InternalKeys {
  import opened DbFormat
  import opened Coding

  datatype ParsedKey = ParsedKey(user: Bytes, sn: nat, kind: Kind)

  function KindByte(k: Kind): nat {
    if k.Value? then 1 else 0
  }

  /** AppendInternalKey: the user key, then sequence and kind packed into eight bytes. */
  function KeyBytes(k: ParsedKey): Bytes {
    k.user + Fixed(k.sn * 256 + KindByte(k.kind), 8)
  }

  function ParseInternalKey(b: Bytes): Option<ParsedKey> {
    if |b| < 8 then None
    else
      var n := Unfixed(b[|b| - 8..]);
      if n % 256 == 0 then Some(ParsedKey(b[..|b| - 8], n / 256, Deletion))
      else if n % 256 == 1 then Some(ParsedKey(b[..|b| - 8], n / 256, Value))
      else None
  }

  /** The user key and the packed tag are where a decoder looks for them. */
  lemma KeyParts(k: ParsedKey)
    requires k.sn <= MAX_SEQUENCE
    ensures var b := KeyBytes(k);
            b[..|b| - 8] == k.user && Unfixed(b[|b| - 8..]) == k.sn * 256 + KindByte(k.kind)
  {
    var n := k.sn * 256 + KindByte(k.kind);
    var b := KeyBytes(k);
    Powers();
    UnfixedFixed(n, 8);
    assert b[|b| - 8..] == Fixed(n, 8);
  }

  /** Parsing inverts appending, for every sequence number that fits. */
  lemma KeyRoundTrip(k: ParsedKey)
    requires k.sn <= MAX_SEQUENCE
    ensures ParseInternalKey(KeyBytes(k)) == Some(k)
  {
    KeyParts(k);
  }

  /** A key that parses is the encoding of what it parses to. */
  lemma ParsedKeyIsEncoded(b: Bytes)
    ensures match ParseInternalKey(b)
            case None => true
            case Some(k) => k.sn <= MAX_SEQUENCE && KeyBytes(k) == b
  {
    if ParseInternalKey(b).Some? {
      var tail := b[|b| - 8..];
      Powers();
      FixedUnfixed(tail);
      assert b == b[..|b| - 8] + tail;
    }
  }

  /** A user comparator, and the rank in its order by which the rest of this project names user keys. */
  ghost predicate Ranks(compare: (Bytes, Bytes) -> int, rank: Bytes -> UserKey) {
    forall x, y ::
      && (compare(x, y) < 0 <==> rank(x) < rank(y))
      && (compare(x, y) == 0 <==> rank(x) == rank(y))
  }

  function KeyIn(rank: Bytes -> UserKey, k: ParsedKey): IKey {
    IKey(rank(k.user), k.sn, k.kind)
  }

  /** InternalKeyComparator::Compare on encoded keys. */
  function CompareEncoded(compare: (Bytes, Bytes) -> int, a: Bytes, b: Bytes): int
    requires |a| >= 8 && |b| >= 8
  {
    var r := compare(a[..|a| - 8], b[..|b| - 8]);
    if r != 0 then r
    else
      var m, n := Unfixed(a[|a| - 8..]), Unfixed(b[|b| - 8..]);
      if m > n then -1 else if m < n then 1 else 0
  }

  /** Comparing encoded keys is comparing the keys they encode. */
  lemma CompareEncodedIsOrder(compare: (Bytes, Bytes) -> int, rank: Bytes -> UserKey, a: ParsedKey, b: ParsedKey)
    requires Ranks(compare, rank) && a.sn <= MAX_SEQUENCE && b.sn <= MAX_SEQUENCE
    ensures var r := CompareEncoded(compare, KeyBytes(a), KeyBytes(b));
            && (r < 0 <==> Less(KeyIn(rank, a), KeyIn(rank, b)))
            && (r == 0 <==> KeyIn(rank, a) == KeyIn(rank, b))
  {
    KeyParts(a);
    KeyParts(b);
    CompareIsOrder(KeyIn(rank, a), KeyIn(rank, b));
  }
}
