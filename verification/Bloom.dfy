/** Bloom filters (util/bloom.cpp).  The hash of a key is an abstract 32-bit function of its bytes. */
module Bloom {
  import opened DbFormat
  import opened Coding

  type Hash = Bytes -> nat

  //////////////////////////////////////////////////////////////////////////////
  // Bits of a byte, from the least significant one.

  predicate HasBit(x: nat, b: nat)
    decreases b
  {
    if b == 0 then x % 2 == 1 else HasBit(x / 2, b - 1)
  }

  /** `x` or-ed with a one shifted left by `b`. */
  function SetBit(x: nat, b: nat): nat
    decreases b
  {
    if b == 0 then x / 2 * 2 + 1 else SetBit(x / 2, b - 1) * 2 + x % 2
  }

  lemma {:induction false} SetBitFits(x: nat, b: nat, n: nat)
    requires b < n && x < Power(2, n)
    ensures SetBit(x, b) < Power(2, n)
    decreases n
  {
    if b > 0 {
      SetBitFits(x / 2, b - 1, n - 1);
    }
  }

  /** Setting a bit sets that bit and changes no other. */
  lemma {:induction false} SetBitSpec(x: nat, b: nat, c: nat)
    ensures HasBit(SetBit(x, b), c) <==> c == b || HasBit(x, c)
    decreases b
  {
    if b == 0 {
      assert c > 0 ==> SetBit(x, b) / 2 == x / 2;
    } else if c > 0 {
      SetBitSpec(x / 2, b - 1, c - 1);
      assert SetBit(x, b) / 2 == SetBit(x / 2, b - 1);
    }
  }

  /** Bit `i` of an array of bytes. */
  predicate BitAt(a: Bytes, i: nat)
    requires i < 8 * |a|
  {
    HasBit(a[i / 8], i % 8)
  }

  //////////////////////////////////////////////////////////////////////////////
  // Which bits belong to a key.

  /** The hash rotated right by 17 bits. */
  function Delta(h: nat): nat {
    h / 0x2_0000 + h % 0x2_0000 * 0x8000
  }

  /** Bit by bit: bit `i` of the rotated hash is bit `i + 17` of the hash, around 32 bits. */
  lemma DeltaRotates(h: nat, i: nat)
    requires h < LIMIT32 && i < 32
    ensures Delta(h) < LIMIT32 && (HasBit(Delta(h), i) <==> HasBit(h, (i + 17) % 32))
  {
    var low, high := h / 0x2_0000, h % 0x2_0000;
    PowersOfTwo();
    SplitBits(low, high, 15, i);
    if i < 15 {
      SplitBits(high, low, 17, i + 17);
    } else {
      SplitBits(high, low, 17, i - 15);
    }
  }

  /** The bits of a number in two parts, the lower one of `n` bits. */
  lemma {:induction false} SplitBits(low: nat, high: nat, n: nat, b: nat)
    requires low < Power(2, n)
    ensures HasBit(low + high * Power(2, n), b) <==> if b < n then HasBit(low, b) else HasBit(high, b - n)
    decreases n
  {
    if n > 0 {
      var x, half := low + high * Power(2, n), high * Power(2, n - 1);
      assert high * Power(2, n) == 2 * half;
      assert x % 2 == low % 2 && x / 2 == low / 2 + half;
      if b > 0 {
        SplitBits(low / 2, high, n - 1, b - 1);
      }
    }
  }

  lemma PowersOfTwo()
    ensures Power(2, 15) == 0x8000 && Power(2, 17) == 0x2_0000
  {
    assert Power(2, 1) == 2 && Power(2, 2) == 4 && Power(2, 3) == 8 && Power(2, 4) == 16;
    assert Power(2, 5) == 32 && Power(2, 6) == 64 && Power(2, 7) == 128 && Power(2, 8) == 256;
    assert Power(2, 9) == 512 && Power(2, 10) == 1024 && Power(2, 11) == 2048 && Power(2, 12) == 4096;
    assert Power(2, 13) == 8192 && Power(2, 14) == 0x4000 && Power(2, 15) == 0x8000;
  }

  /** The j-th hash of a key, by double hashing. */
  function Probe(h: nat, j: nat): nat
    decreases j
  {
    if j == 0 then h else (Probe(h, j - 1) + Delta(h)) % LIMIT32
  }

  /** The j-th hash is the first one and `j` times the rotated one, in 32 bits. */
  lemma {:induction false} ProbeIsLinear(h: nat, j: nat)
    requires h < LIMIT32
    ensures Probe(h, j) == (h + j * Delta(h)) % LIMIT32
  {
    if j > 0 {
      ProbeIsLinear(h, j - 1);
      AddWraps(h, Delta(h), j);
    }
  }

  lemma AddWraps(h: nat, d: nat, j: nat)
    requires j > 0
    ensures ((h + (j - 1) * d) % LIMIT32 + d) % LIMIT32 == (h + j * d) % LIMIT32
  {
    var before := h + (j - 1) * d;
    assert before + d == h + j * d;
    assert (before % LIMIT32 + d) % LIMIT32 == (before + d) % LIMIT32;
  }

  /** The first `k` bits of a key are set. */
  ghost predicate AllSet(a: Bytes, h: nat, k: nat)
    requires |a| > 0
  {
    forall j :: 0 <= j < k ==> BitAt(a, Probe(h, j) % (8 * |a|))
  }

  /** What KeyMayMatch answers for a filter. */
  ghost predicate MayMatch(hash: Hash, key: Bytes, filter: Bytes) {
    |filter| >= 2 && (filter[|filter| - 1] > 30 || AllSet(filter[..|filter| - 1], hash(key), filter[|filter| - 1]))
  }

  method KeyMayMatch(hash: Hash, key: Bytes, filter: Bytes) returns (may: bool)
    ensures may == MayMatch(hash, key, filter)
  {
    var len := |filter|;
    if len < 2 {
      return false;
    }
    var a, k := filter[..len - 1], filter[len - 1];
    var bits := |a| * 8;
    if k > 30 {
      return true;
    }
    var h := hash(key);
    var delta := Delta(h);
    for j := 0 to k
      invariant h == Probe(hash(key), j) && AllSet(a, hash(key), j)
    {
      var bitpos := h % bits;
      assert bitpos == Probe(hash(key), j) % (8 * |a|);
      if !HasBit(a[bitpos / 8], bitpos % 8) {
        return false;
      }
      h := (h + delta) % LIMIT32;
    }
    return true;
  }

  //////////////////////////////////////////////////////////////////////////////
  // Building a filter.

  /** Bit `i` of `bits` is one of the first `k` of a key. */
  ghost predicate Probed(h: nat, k: nat, bits: nat, i: nat)
    requires bits > 0
  {
    exists j :: 0 <= j < k && Probe(h, j) % bits == i
  }

  /** Bit `i` belongs to one of the first `n` keys. */
  ghost predicate Covered(hash: Hash, keys: seq<Bytes>, n: nat, k: nat, bits: nat, i: nat)
    requires bits > 0 && n <= |keys|
  {
    exists m :: 0 <= m < n && Probed(hash(keys[m]), k, bits, i)
  }

  /** The bits of one key, and no others, have been set. */
  ghost predicate Adds(a: Bytes, a': Bytes, h: nat, k: nat)
    requires |a| > 0
  {
    |a| == |a'| && forall i {:trigger BitAt(a', i)} ::
      0 <= i < 8 * |a| ==> (BitAt(a', i) <==> BitAt(a, i) || Probed(h, k, 8 * |a|, i))
  }

  lemma StoreBit(a: Bytes, i: nat, a': Bytes, n: nat)
    requires i < 8 * |a| && n < 8 * |a| && |a'| == |a| && a'[i / 8] == SetBit(a[i / 8], i % 8)
    requires forall m :: 0 <= m < |a| && m != i / 8 ==> a'[m] == a[m]
    ensures BitAt(a', n) <==> BitAt(a, n) || n == i
  {
    if n / 8 == i / 8 {
      SetBitSpec(a[i / 8], i % 8, n % 8);
    }
  }

  lemma ProbedOneMore(h: nat, j: nat, bits: nat, i: nat)
    requires bits > 0
    ensures Probed(h, j + 1, bits, i) <==> Probed(h, j, bits, i) || i == Probe(h, j) % bits
  {
  }

  lemma AddsOneMore(a: Bytes, was: Bytes, a': Bytes, h: nat, j: nat)
    requires |a| > 0 && Adds(a, was, h, j) && |a'| == |a|
    requires forall n {:trigger BitAt(a', n)} ::
               0 <= n < 8 * |a| ==> (BitAt(a', n) <==> BitAt(was, n) || n == Probe(h, j) % (8 * |a|))
    ensures Adds(a, a', h, j + 1)
  {
    forall n {:trigger BitAt(a', n)} | 0 <= n < 8 * |a|
      ensures BitAt(a', n) <==> BitAt(a, n) || Probed(h, j + 1, 8 * |a|, n)
    {
      ProbedOneMore(h, j, 8 * |a|, n);
    }
  }

  /** The bits set are exactly those of the first `n` keys. */
  ghost predicate Exactly(a: Bytes, hash: Hash, keys: seq<Bytes>, n: nat, k: nat)
    requires |a| > 0 && n <= |keys|
  {
    forall i {:trigger BitAt(a, i)} :: 0 <= i < 8 * |a| ==> (BitAt(a, i) <==> Covered(hash, keys, n, k, 8 * |a|, i))
  }

  lemma CoveredOneMore(hash: Hash, keys: seq<Bytes>, n: nat, k: nat, bits: nat, i: nat)
    requires bits > 0 && n < |keys|
    ensures Covered(hash, keys, n + 1, k, bits, i) <==>
            Covered(hash, keys, n, k, bits, i) || Probed(hash(keys[n]), k, bits, i)
  {
  }

  lemma OneMoreKey(a: Bytes, a': Bytes, hash: Hash, keys: seq<Bytes>, n: nat, k: nat)
    requires |a| > 0 && n < |keys| && Exactly(a, hash, keys, n, k) && Adds(a, a', hash(keys[n]), k)
    ensures Exactly(a', hash, keys, n + 1, k)
  {
    forall i {:trigger BitAt(a', i)} | 0 <= i < 8 * |a'|
      ensures BitAt(a', i) <==> Covered(hash, keys, n + 1, k, 8 * |a'|, i)
    {
      CoveredOneMore(hash, keys, n, k, 8 * |a|, i);
    }
  }

  lemma {:induction false} NoBitInZero(b: nat)
    ensures !HasBit(0, b)
    decreases b
  {
    if b > 0 {
      NoBitInZero(b - 1);
    }
  }

  lemma ZerosAreEmpty(a: Bytes, hash: Hash, keys: seq<Bytes>, k: nat)
    requires |a| > 0 && forall i :: 0 <= i < |a| ==> a[i] == 0
    ensures Exactly(a, hash, keys, 0, k)
  {
    forall i {:trigger BitAt(a, i)} | 0 <= i < 8 * |a| ensures !BitAt(a, i) {
      NoBitInZero(i % 8);
    }
  }

  /** A filter with exactly the bits of its keys may match each of them. */
  lemma ExactMatches(a: Bytes, hash: Hash, keys: seq<Bytes>, k: nat, key: Bytes)
    requires |a| > 0 && Exactly(a, hash, keys, |keys|, k) && key in keys
    ensures AllSet(a, hash(key), k)
  {
    var m :| 0 <= m < |keys| && keys[m] == key;
    forall j | 0 <= j < k ensures BitAt(a, Probe(hash(key), j) % (8 * |a|)) {
      assert Probed(hash(keys[m]), k, 8 * |a|, Probe(hash(key), j) % (8 * |a|));
    }
  }

  lemma ByteFits(x: Byte, b: nat)
    requires b < 8
    ensures SetBit(x, b) < 256
  {
    assert Power(2, 1) == 2 && Power(2, 2) == 4 && Power(2, 3) == 8 && Power(2, 4) == 16;
    assert Power(2, 5) == 32 && Power(2, 6) == 64 && Power(2, 7) == 128 && Power(2, 8) == 256;
    SetBitFits(x, b, 8);
  }

  /** Sets the bits of one key. */
  method AddBits(a: array<Byte>, h0: nat, k: nat)
    requires a.Length > 0
    modifies a
    ensures Adds(old(a[..]), a[..], h0, k)
  {
    var h, delta, bits := h0, Delta(h0), 8 * a.Length;
    for j := 0 to k
      invariant h == Probe(h0, j) && Adds(old(a[..]), a[..], h0, j)
    {
      var bitpos := h % bits;
      ghost var was := a[..];
      ByteFits(a[bitpos / 8], bitpos % 8);
      a[bitpos / 8] := SetBit(a[bitpos / 8], bitpos % 8);
      forall n {:trigger BitAt(a[..], n)} | 0 <= n < bits ensures BitAt(a[..], n) <==> BitAt(was, n) || n == bitpos {
        StoreBit(was, bitpos, a[..], n);
      }
      AddsOneMore(old(a[..]), was, a[..], h0, j);
      h := (h + delta) % LIMIT32;
    }
  }

  /** Bytes for the bits of `n` keys. */
  function FilterBytes(n: nat, bitsPerKey: nat): (r: nat)
    ensures r >= 8 && 8 * r >= n * bitsPerKey && (r > 8 ==> 8 * (r - 1) < n * bitsPerKey)
  {
    if n * bitsPerKey < 64 then 8 else (n * bitsPerKey + 7) / 8
  }

  /** Appends a filter with exactly the bits of the keys, which each of them therefore matches. */
  method CreateFilter(hash: Hash, bitsPerKey: nat, k: nat, keys: seq<Bytes>, dst: Bytes) returns (r: Bytes)
    requires 1 <= k <= 30
    ensures dst <= r && |r| == |dst| + FilterBytes(|keys|, bitsPerKey) + 1 && r[|r| - 1] == k
    ensures Exactly(r[|dst|..|r| - 1], hash, keys, |keys|, k)
    ensures forall key :: key in keys ==> MayMatch(hash, key, r[|dst|..])
  {
    var bits := |keys| * bitsPerKey;
    if bits < 64 {
      bits := 64;
    }
    var bytes := (bits + 7) / 8;
    var a := new Byte[bytes](_ => 0);
    ZerosAreEmpty(a[..], hash, keys, k);
    for i := 0 to |keys|
      invariant Exactly(a[..], hash, keys, i, k)
    {
      ghost var was := a[..];
      AddBits(a, hash(keys[i]), k);
      OneMoreKey(was, a[..], hash, keys, i, k);
    }
    r := dst + (a[..] + [k]);
    FilterOf(a[..], hash, keys, k, dst, r);
  }

  lemma FilterOf(a: Bytes, hash: Hash, keys: seq<Bytes>, k: Byte, dst: Bytes, r: Bytes)
    requires |a| > 0 && Exactly(a, hash, keys, |keys|, k) && r == dst + (a + [k])
    ensures r[|dst|..|r| - 1] == a && forall key :: key in keys ==> MayMatch(hash, key, r[|dst|..])
  {
    var filter := r[|dst|..];
    assert filter == a + [k] && filter[..|filter| - 1] == a;
    forall key | key in keys ensures MayMatch(hash, key, filter) {
      ExactMatches(a, hash, keys, k, key);
    }
  }
}
