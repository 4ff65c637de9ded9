/** Fixed-width, varint and length-prefixed encodings (util/coding.h, util/coding.cpp).

    A slice that a decoder consumes is the sequence of its remaining bytes; a decoder that fails
    returns None, where the source returns false or a null pointer. */
module Coding {
  import opened DbFormat

  const LIMIT32: nat := 0x1_0000_0000
  const LIMIT64: nat := 0x1_0000_0000_0000_0000

  //////////////////////////////////////////////////////////////////////////////
  // Fixed-width little-endian integers.

  function Power(base: nat, n: nat): nat {
    if n == 0 then 1 else base * Power(base, n - 1)
  }

  /** The `n` low-order bytes of `v`, least significant first. */
  function Fixed(v: nat, n: nat): (r: Bytes)
    ensures |r| == n
    decreases n
  {
    if n == 0 then [] else [v % 256] + Fixed(v / 256, n - 1)
  }

  function Unfixed(b: Bytes): nat {
    if b == [] then 0 else b[0] + 256 * Unfixed(b[1..])
  }

  /** Reading back a fixed-width integer gives the value, if it fits in the width. */
  lemma {:induction false} UnfixedFixed(v: nat, n: nat)
    requires v < Power(256, n)
    ensures Unfixed(Fixed(v, n)) == v
    decreases n
  {
    if n > 0 {
      assert v / 256 < Power(256, n - 1);
      UnfixedFixed(v / 256, n - 1);
      assert Fixed(v, n)[1..] == Fixed(v / 256, n - 1);
    }
  }

  lemma {:induction false} FixedUnfixed(b: Bytes)
    ensures Unfixed(b) < Power(256, |b|) && Fixed(Unfixed(b), |b|) == b
  {
    if b != [] {
      FixedUnfixed(b[1..]);
      assert Unfixed(b) / 256 == Unfixed(b[1..]) && Unfixed(b) % 256 == b[0];
      assert b == [b[0]] + b[1..];
    }
  }

  lemma Powers()
    ensures Power(256, 4) == LIMIT32 && Power(256, 8) == LIMIT64
    ensures Power(128, 4) == 0x1000_0000 && Power(128, 5) == 0x8_0000_0000
    ensures Power(128, 10) == 64 * LIMIT64
  {
    assert Power(256, 1) == 256 && Power(256, 2) == 0x1_0000 && Power(256, 3) == 0x100_0000;
    assert Power(256, 4) == LIMIT32;
    assert Power(256, 5) == 0x100 * LIMIT32 && Power(256, 6) == 0x1_0000 * LIMIT32;
    assert Power(128, 1) == 0x80 && Power(128, 2) == 0x4000 && Power(128, 3) == 0x20_0000;
    assert Power(128, 6) == 0x400_0000_0000 && Power(128, 7) == 0x2_0000_0000_0000;
    assert Power(128, 8) == 0x100_0000_0000_0000 && Power(128, 9) == 0x8000_0000_0000_0000;
  }

  //////////////////////////////////////////////////////////////////////////////
  // Byte strings in a row.

  function Join(parts: seq<Bytes>): Bytes {
    if parts == [] then [] else parts[0] + Join(parts[1..])
  }

  lemma JoinOne(b: Bytes)
    ensures Join([b]) == b
  {
    assert [b][1..] == [];
    assert b + [] == b;
  }

  lemma {:induction false} JoinConcat(a: seq<Bytes>, b: seq<Bytes>)
    ensures Join(a + b) == Join(a) + Join(b)
  {
    if a == [] {
      assert a + b == b;
    } else {
      JoinConcat(a[1..], b);
      assert (a + b)[1..] == a[1..] + b;
      assert (a[0] + Join(a[1..])) + Join(b) == a[0] + (Join(a[1..]) + Join(b));
    }
  }

  //////////////////////////////////////////////////////////////////////////////
  // Arrays of fixed-width integers.

  lemma Associative(a: Bytes, b: Bytes, c: Bytes)
    ensures (a + b) + c == a + (b + c)
  {
  }

  lemma DropFront(a: Bytes, b: Bytes)
    ensures (a + b)[|a|..] == b
  {
  }

  lemma UnfixedFixed32(v: nat)
    requires v < LIMIT32
    ensures Unfixed(Fixed(v, 4)) == v
  {
    Powers();
    UnfixedFixed(v, 4);
  }

  /** Four-byte pieces in a row. */
  function Quads(parts: seq<Bytes>): (r: Bytes)
    requires forall p :: p in parts ==> |p| == 4
    ensures |r| == 4 * |parts|
  {
    if parts == [] then [] else Quads(parts[..|parts| - 1]) + parts[|parts| - 1]
  }

  function FixedParts(vs: seq<nat>): (r: seq<Bytes>)
    ensures |r| == |vs| && forall p :: p in r ==> |p| == 4
    ensures forall j :: 0 <= j < |r| ==> r[j] == Fixed(vs[j], 4)
  {
    seq(|vs|, j requires 0 <= j < |vs| => Fixed(vs[j], 4))
  }

  lemma OneMoreQuad(buffer: Bytes, parts: seq<Bytes>, i: nat)
    requires i < |parts| && forall p :: p in parts ==> |p| == 4
    ensures buffer + Quads(parts[..i + 1]) == (buffer + Quads(parts[..i])) + parts[i]
  {
    assert parts[..i + 1][..i] == parts[..i];
    Associative(buffer, Quads(parts[..i]), parts[i]);
  }

  lemma SliceFront(a: Bytes, b: Bytes, x: nat, y: nat)
    requires x <= y <= |a|
    ensures (a + b)[x..y] == a[x..y]
  {
  }

  lemma SliceMiddle(a: Bytes, b: Bytes, c: Bytes, x: nat, y: nat)
    requires x <= y <= |b|
    ensures ((a + b) + c)[|a| + x..|a| + y] == b[x..y]
  {
    var l, r := ((a + b) + c)[|a| + x..|a| + y], b[x..y];
    assert |l| == |r| && forall i :: 0 <= i < |l| ==> l[i] == b[x + i] == r[i];
  }

  lemma {:induction false} QuadAt(parts: seq<Bytes>, j: nat, b: Bytes)
    requires j < |parts| && (forall p :: p in parts ==> |p| == 4) && b == Quads(parts)
    ensures b[4 * j..4 * j + 4] == parts[j]
    decreases |parts|
  {
    var n := |parts| - 1;
    var init := Quads(parts[..n]);
    assert b == init + parts[n];
    if j < n {
      QuadAt(parts[..n], j, init);
      SliceFront(init, parts[n], 4 * j, 4 * j + 4);
    } else {
      DropFront(init, parts[n]);
      assert b[4 * j..4 * j + 4] == b[|init|..];
    }
  }

  lemma QuadInBlock(buffer: Bytes, parts: seq<Bytes>, count: Bytes, block: Bytes, j: nat)
    requires j < |parts| && (forall p :: p in parts ==> |p| == 4) && block == (buffer + Quads(parts)) + count
    ensures block[|buffer| + 4 * j..|buffer| + 4 * j + 4] == parts[j]
  {
    QuadAt(parts, j, Quads(parts));
    SliceMiddle(buffer, Quads(parts), count, 4 * j, 4 * j + 4);
  }

  /** An integer of an array of fixed-width integers is read back where it was written. */
  lemma FixedInBlock(buffer: Bytes, vs: seq<nat>, count: Bytes, block: Bytes, j: nat)
    requires block == (buffer + Quads(FixedParts(vs))) + count && j < |vs| && vs[j] < LIMIT32
    ensures Unfixed(block[|buffer| + 4 * j..|buffer| + 4 * j + 4]) == vs[j]
  {
    QuadInBlock(buffer, FixedParts(vs), count, block, j);
    UnfixedFixed32(vs[j]);
  }

  //////////////////////////////////////////////////////////////////////////////
  // Varints: groups of seven bits, least significant first, a set top bit meaning more follow.

  function Varint(v: nat): (r: Bytes)
    ensures 0 < |r|
  {
    if v < 128 then [v] else [128 + v % 128] + Varint(v / 128)
  }

  /** What a decoder finds: the value and the number of bytes it took. */
  datatype Parsed = Parsed(value: nat, size: nat)

  /** The value spelled by the groups at the front of `b`, up to the first without its top bit. */
  function Groups(b: Bytes): (r: Option<Parsed>)
    ensures r.Some? ==> 0 < r.value.size <= |b|
  {
    if b == [] then None
    else if b[0] < 128 then Some(Parsed(b[0], 1))
    else match Groups(b[1..]) {
      case None => None
      case Some(p) => Some(Parsed(b[0] - 128 + 128 * p.value, p.size + 1))
    }
  }

  /** A decoder looks at no more than `limit` groups. */
  function Unvarint(b: Bytes, limit: nat): (r: Option<Parsed>)
    ensures r.Some? ==> 0 < r.value.size <= |b|
  {
    var r := Groups(b);
    if r.Some? && r.value.size <= limit then r else None
  }

  /** A varint is read back whatever follows it. */
  lemma {:induction false} GroupsVarint(v: nat, rest: Bytes)
    ensures Groups(Varint(v) + rest) == Some(Parsed(v, |Varint(v)|))
  {
    if v >= 128 {
      GroupsVarint(v / 128, rest);
      assert (Varint(v) + rest)[1..] == Varint(v / 128) + rest;
    }
  }

  /** The number of bytes of a varint. */
  method VarintLength(v: nat) returns (len: nat)
    ensures len == |Varint(v)|
  {
    var left := v;
    len := 1;
    while left >= 128
      invariant len - 1 + |Varint(left)| == |Varint(v)|
    {
      left := left / 128;
      len := len + 1;
    }
  }

  lemma {:induction false} VarintFits(v: nat, limit: nat)
    requires v < Power(128, limit) && limit > 0
    ensures |Varint(v)| <= limit
    decreases limit
  {
    if v >= 128 {
      assert v / 128 < Power(128, limit - 1);
      if limit > 1 {
        VarintFits(v / 128, limit - 1);
      }
    }
  }

  /** `v` shifted left by seven bits, `i` times. */
  function Shift(v: nat, i: nat): nat
    decreases i
  {
    if i == 0 then v else 128 * Shift(v, i - 1)
  }

  lemma {:induction false} ShiftSum(d: nat, v: nat, i: nat)
    ensures Shift(d + 128 * v, i) == Shift(d, i) + Shift(v, i + 1)
    decreases i
  {
    if i > 0 {
      ShiftSum(d, v, i - 1);
    }
  }

  /** The groups read so far, and what the remaining ones say about the whole. */
  ghost predicate Continues(b: Bytes, i: nat, sum: nat)
    requires i <= |b|
  {
    Groups(b) ==
    match Groups(b[i..])
    case None => None
    case Some(p) => Some(Parsed(sum + Shift(p.value, i), p.size + i))
  }

  lemma ContinuesOne(b: Bytes, i: nat, sum: nat)
    requires i < |b| && b[i] >= 128 && Continues(b, i, sum)
    ensures Continues(b, i + 1, sum + Shift(b[i] - 128, i))
  {
    assert b[i..][1..] == b[i + 1..];
    var next := Groups(b[i + 1..]);
    if next.Some? {
      ShiftSum(b[i] - 128, next.value.value, i);
    }
  }

  lemma ContinuesLast(b: Bytes, i: nat, sum: nat)
    requires i < |b| && b[i] < 128 && Continues(b, i, sum)
    ensures Groups(b) == Some(Parsed(sum + Shift(b[i], i), i + 1))
  {
  }

  /** What a 64-bit or a 32-bit integer keeps of `v`. */
  function Low(v: nat, wide: bool): nat {
    if wide then v % LIMIT64 else v % LIMIT32
  }

  lemma LowSum(a: nat, b: nat, wide: bool)
    ensures Low(Low(a, wide) + Low(b, wide), wide) == Low(a + b, wide)
  {
  }

  /** The decoding loop, for at most `groups` groups.  Group i is or-ed in
      above the bits that groups 0 to i - 1 can set, so the or is a sum; bits shifted beyond the width
      are lost. */
  method GetGroups(input: Bytes, groups: nat, wide: bool) returns (r: Option<nat>, rest: Bytes)
    ensures match Unvarint(input, groups)
            case None => r == None
            case Some(p) => r == Some(Low(p.value, wide)) && rest == input[p.size..]
  {
    var result: nat, i: nat := 0, 0;
    ghost var sum: nat := 0;
    assert input[0..] == input;
    while i < groups && i < |input|
      invariant 0 <= i <= groups && i <= |input|
      invariant result == Low(sum, wide)
      invariant Continues(input, i, sum)
    {
      var group: nat := if input[i] >= 128 then input[i] - 128 else input[i];
      var shifted: nat := Shift(group, i);
      LowSum(sum, shifted, wide);
      result := Low(result + Low(shifted, wide), wide);
      if input[i] >= 128 {
        ContinuesOne(input, i, sum);
        sum, i := sum + shifted, i + 1;
      } else {
        ContinuesLast(input, i, sum);
        return Some(result), input[i + 1..];
      }
    }
    return None, [];
  }

  method GetVarint32(input: Bytes) returns (r: Option<nat>, rest: Bytes)
    ensures match Unvarint(input, 5)
            case None => r == None
            case Some(p) => r == Some(p.value % LIMIT32) && rest == input[p.size..]
  {
    if 0 < |input| {
      var result := input[0];
      if result < 128 {
        return Some(result), input[1..];
      }
    }
    r, rest := GetGroups(input, 5, false);
  }

  method GetVarint64(input: Bytes) returns (r: Option<nat>, rest: Bytes)
    ensures match Unvarint(input, 10)
            case None => r == None
            case Some(p) => r == Some(p.value % LIMIT64) && rest == input[p.size..]
  {
    r, rest := GetGroups(input, 10, true);
  }

  method EncodeVarint32(v: nat) returns (r: Bytes)
    requires v < LIMIT32
    ensures r == Varint(v)
  {
    VarintSteps(v);
    if v < 0x80 {
      r := [v];
    } else if v < 0x4000 {
      r := [v % 128 + 128, v / 0x80];
    } else if v < 0x20_0000 {
      r := [v % 128 + 128, v / 0x80 % 128 + 128, v / 0x4000];
    } else if v < 0x1000_0000 {
      r := [v % 128 + 128, v / 0x80 % 128 + 128, v / 0x4000 % 128 + 128, v / 0x20_0000];
    } else {
      r := [v % 128 + 128, v / 0x80 % 128 + 128, v / 0x4000 % 128 + 128, v / 0x20_0000 % 128 + 128, v / 0x1000_0000];
    }
  }

  /** Shifting by 14, 21 and 28 bits is shifting by seven, two, three and four times. */
  lemma VarintSteps(v: nat)
    requires v < LIMIT32
    ensures v / 0x4000 == v / 128 / 128
    ensures v / 0x20_0000 == v / 128 / 128 / 128
    ensures v / 0x1000_0000 == v / 128 / 128 / 128 / 128
    ensures v >= 0x80 ==> Varint(v) == [v % 128 + 128] + Varint(v / 128)
    ensures v >= 0x4000 ==> Varint(v / 128) == [v / 128 % 128 + 128] + Varint(v / 128 / 128)
    ensures v >= 0x20_0000 ==> Varint(v / 128 / 128) == [v / 128 / 128 % 128 + 128] + Varint(v / 128 / 128 / 128)
    ensures v >= 0x1000_0000 ==>
      Varint(v / 128 / 128 / 128) == [v / 128 / 128 / 128 % 128 + 128] + Varint(v / 128 / 128 / 128 / 128)
  {
  }

  method EncodeVarint64(v: nat) returns (r: Bytes)
    ensures r == Varint(v)
  {
    r := [];
    var left := v;
    while left >= 128
      invariant Varint(v) == r + Varint(left)
    {
      r := r + [left % 128 + 128];
      left := left / 128;
    }
    r := r + [left];
  }

  lemma Varint32RoundTrip(v: nat, rest: Bytes)
    requires v < LIMIT32
    ensures Unvarint(Varint(v) + rest, 5) == Some(Parsed(v, |Varint(v)|)) && v % LIMIT32 == v
  {
    Powers();
    VarintFits(v, 5);
    GroupsVarint(v, rest);
  }

  lemma Varint64RoundTrip(v: nat, rest: Bytes)
    requires v < LIMIT64
    ensures Unvarint(Varint(v) + rest, 10) == Some(Parsed(v, |Varint(v)|)) && v % LIMIT64 == v
  {
    Powers();
    VarintFits(v, 10);
    GroupsVarint(v, rest);
  }

  //////////////////////////////////////////////////////////////////////////////
  // Length-prefixed slices.  The size is truncated to 32 bits when it is written.

  function Prefixed(s: Bytes): Bytes {
    Varint(|s| % LIMIT32) + s
  }

  /** The slice at the front of `b` and what follows it. */
  datatype Cut = Cut(slice: Bytes, rest: Bytes)

  function Unprefixed(b: Bytes): Option<Cut> {
    match Unvarint(b, 5)
    case None => None
    case Some(p) =>
      var n := p.value % LIMIT32;
      if n <= |b| - p.size then Some(Cut(b[p.size..p.size + n], b[p.size + n..])) else None
  }

  method PutLengthPrefixedSlice(s: Bytes) returns (r: Bytes)
    ensures r == Prefixed(s)
  {
    var size := EncodeVarint32(|s| % LIMIT32);
    r := size + s;
  }

  method GetLengthPrefixedSlice(input: Bytes) returns (r: Option<Cut>)
    ensures r == Unprefixed(input)
  {
    var len, rest := GetVarint32(input);
    if len.Some? && |rest| >= len.value {
      ghost var p := Unvarint(input, 5).value;
      assert rest[..len.value] == input[p.size..p.size + len.value];
      assert rest[len.value..] == input[p.size + len.value..];
      return Some(Cut(rest[..len.value], rest[len.value..]));
    }
    return None;
  }

  /** A slice survives exactly when its size fits in 32 bits. */
  lemma PrefixedRoundTrip(s: Bytes, rest: Bytes)
    ensures Unprefixed(Prefixed(s) + rest) == Some(Cut(s, rest)) <==> |s| < LIMIT32
  {
    var n := |s| % LIMIT32;
    var head := Varint(n);
    assert Prefixed(s) + rest == head + (s + rest);
    Varint32RoundTrip(n, s + rest);
    var b := head + (s + rest);
    assert b[|head|..|head| + n] == (s + rest)[..n];
    assert b[|head| + n..] == (s + rest)[n..];
    if |s| < LIMIT32 {
      assert (s + rest)[..n] == s && (s + rest)[n..] == rest;
    }
  }
}
