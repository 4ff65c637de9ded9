/** The log format: records cut into fragments that never cross a 32 KB block
    (db/log_format.h, db/log_writer.cpp, db/log_reader.cpp).

    Files are read from offset 0, as every caller in the repository does. */
module LogFormat {
  import opened DbFormat
  import opened Coding

  const BLOCK: nat := 32768
  const HEADER: nat := 7

  const FULL: Byte := 1
  const FIRST: Byte := 2
  const MIDDLE: Byte := 3
  const LAST: Byte := 4

  //////////////////////////////////////////////////////////////////////////////
  // Headers and checksums.

  /** How headers are written and how their stored checksum is compared with the bytes it covers. */
  datatype Framing = Framing(header: (Byte, Bytes) -> Bytes, matches: (Bytes, Bytes) -> bool)

  function Length(low: Byte, high: Byte): nat {
    var h: nat := high;
    low + 256 * h
  }

  ghost predicate Sized(f: Framing) {
    forall kind, data :: |f.header(kind, data)| == HEADER
  }

  /** A header holds a checksum of the kind and the data, the size of the data and the kind. */
  ghost predicate IsHeader(f: Framing, kind: Byte, data: Bytes, h: Bytes) {
    |h| == HEADER && Length(h[4], h[5]) == |data| && h[6] == kind && f.matches(h[..4], [kind] + data)
  }

  ghost predicate Lawful(f: Framing) {
    && Sized(f)
    && forall kind, data :: |data| < 0x1_0000 ==> IsHeader(f, kind, data, f.header(kind, data))
  }

  /** The checksum is an abstract function of bytes; all that is used of it is that extending the
      checksum of A by B gives the checksum of A followed by B, as util/crc32c.h promises. */
  datatype Checksum = Checksum(value: Bytes -> nat, extend: (nat, Bytes) -> nat)

  ghost predicate Extends(crc: Checksum) {
    && (forall a :: crc.value(a) < LIMIT32)
    && (forall a, b :: crc.extend(crc.value(a), b) == crc.value(a + b))
  }

  const MASK_DELTA: nat := 0xa282ead8

  /** The two parts of the checksum change places, and a constant makes the result differ from it. */
  function Mask(c: nat): nat {
    (c / 0x8000 + c % 0x8000 * 0x2_0000 + MASK_DELTA) % LIMIT32
  }

  function Unmask(m: nat): nat {
    var rot := (m + LIMIT32 - MASK_DELTA) % LIMIT32;
    rot / 0x2_0000 + rot % 0x2_0000 * 0x8000
  }

  lemma UnmaskMask(c: nat)
    requires c < LIMIT32
    ensures Mask(c) < LIMIT32 && Unmask(Mask(c)) == c
  {
    var rot := c / 0x8000 + c % 0x8000 * 0x2_0000;
    assert rot < LIMIT32;
    assert (Mask(c) + LIMIT32 - MASK_DELTA) % LIMIT32 == rot;
    assert rot / 0x2_0000 == c % 0x8000 && rot % 0x2_0000 == c / 0x8000;
  }

  function CrcHeader(crc: Checksum, kind: Byte, data: Bytes): Bytes {
    Fixed(Mask(crc.extend(crc.value([kind]), data)), 4) + [|data| % 256, |data| / 256 % 256, kind]
  }

  /** The framing of the repository.  `verify` is the reader's checksum flag. */
  function CrcFraming(crc: Checksum, verify: bool): Framing {
    Framing((kind, data) => CrcHeader(crc, kind, data),
            (stored, covered) => !verify || Unmask(Unfixed(stored)) == crc.value(covered))
  }

  lemma CrcFramingIsLawful(crc: Checksum, verify: bool)
    requires Extends(crc)
    ensures Lawful(CrcFraming(crc, verify))
  {
    var f := CrcFraming(crc, verify);
    forall kind, data: Bytes | |data| < 0x1_0000 ensures IsHeader(f, kind, data, f.header(kind, data)) {
      var c := crc.extend(crc.value([kind]), data);
      UnmaskMask(c);
      Powers();
      UnfixedFixed(Mask(c), 4);
      assert f.header(kind, data)[..4] == Fixed(Mask(c), 4);
    }
  }

  //////////////////////////////////////////////////////////////////////////////
  // How a record is cut into pieces, for a file that has `p` bytes so far.

  /** A fragment and the zero bytes that fill up the previous block before it. */
  datatype Piece = Piece(pad: nat, kind: Byte, data: Bytes)

  function Size(x: Piece): nat {
    x.pad + HEADER + |x.data|
  }

  /** Where the block of position `p` ends. */
  function BlockEnd(p: nat): (e: nat)
    ensures p < e <= p + BLOCK
  {
    if p < BLOCK then BLOCK else BLOCK + BlockEnd(p - BLOCK)
  }

  /** Positions up to its end lie in the same block, and the end begins a block. */
  lemma {:induction false} SameBlock(p: nat, q: nat)
    requires p <= q <= BlockEnd(p)
    ensures BlockEnd(q) == if q < BlockEnd(p) then BlockEnd(p) else q + BLOCK
  {
    if p >= BLOCK {
      SameBlock(p - BLOCK, q - BLOCK);
    }
  }

  /** The bytes left in a block that are too few for a header. */
  function Padding(p: nat): nat {
    if BlockEnd(p) - p < HEADER then BlockEnd(p) - p else 0
  }

  /** The payload that the block of the next header has room for. */
  function Room(p: nat): (r: nat)
    ensures r <= BLOCK - HEADER
  {
    if BlockEnd(p) - p < HEADER then BLOCK - HEADER else BlockEnd(p) - p - HEADER
  }

  function FragmentKind(begin: bool, end: bool): Byte {
    if begin && end then FULL else if begin then FIRST else if end then LAST else MIDDLE
  }

  /** The next piece of a record of which `left` is still unwritten. */
  function NextPiece(p: nat, left: Bytes, begin: bool): (x: Piece)
    ensures |x.data| <= |left|
    ensures |x.data| == 0 && |left| > 0 ==> Room(p) == 0
  {
    var n := if |left| < Room(p) then |left| else Room(p);
    Piece(Padding(p), FragmentKind(begin, n == |left|), left[..n])
  }

  /** The writer's loop emits at most one empty fragment before it makes progress. */
  function Stalled(p: nat, left: Bytes): nat {
    if |left| > 0 && Room(p) == 0 then 1 else 0
  }

  /** A block left without room for payload is followed by an empty one. */
  lemma RoomAgain(p: nat)
    requires Room(p) == 0
    ensures Room(p + Padding(p) + HEADER) > 0
  {
    SameBlock(p, p + Padding(p) + HEADER);
  }

  function Pieces(p: nat, left: Bytes, begin: bool): seq<Piece>
    decreases |left|, Stalled(p, left)
  {
    var x := NextPiece(p, left, begin);
    if |x.data| == |left| then [x]
    else
      assert |x.data| == 0 ==> Room(p + Size(x)) > 0 by { if |x.data| == 0 { RoomAgain(p); } }
      [x] + Pieces(p + Size(x), left[|x.data|..], false)
  }

  function Extent(xs: seq<Piece>): nat {
    if xs == [] then 0 else Extent(xs[..|xs| - 1]) + Size(xs[|xs| - 1])
  }

  /** The pieces of a whole log. */
  function LogPieces(records: seq<Bytes>): seq<Piece> {
    if records == [] then []
    else
      var before := LogPieces(records[..|records| - 1]);
      before + Pieces(Extent(before), records[|records| - 1], true)
  }

  function Zeros(n: nat): (r: Bytes)
    ensures |r| == n && forall i :: 0 <= i < n ==> r[i] == 0
  {
    seq(n, _ => 0)
  }

  function Spell(f: Framing, x: Piece): Bytes {
    Zeros(x.pad) + f.header(x.kind, x.data) + x.data
  }

  function SpellAll(f: Framing, xs: seq<Piece>): Bytes {
    if xs == [] then [] else SpellAll(f, xs[..|xs| - 1]) + Spell(f, xs[|xs| - 1])
  }

  /** The whole log file that holds `records`. */
  function LogBytes(f: Framing, records: seq<Bytes>): Bytes {
    SpellAll(f, LogPieces(records))
  }

  lemma SpellAllSnoc(f: Framing, xs: seq<Piece>, x: Piece)
    ensures SpellAll(f, xs + [x]) == SpellAll(f, xs) + Spell(f, x)
    ensures Extent(xs + [x]) == Extent(xs) + Size(x)
  {
    assert (xs + [x])[..|xs|] == xs;
  }

  lemma LogPiecesSnoc(records: seq<Bytes>, r: Bytes)
    ensures LogPieces(records + [r]) == LogPieces(records) + Pieces(Extent(LogPieces(records)), r, true)
  {
    assert (records + [r])[..|records|] == records;
  }

  //////////////////////////////////////////////////////////////////////////////
  // The writer.

  /** The writer's block offset is the position in the block, or the block's size where a block begins. */
  ghost predicate IsOffset(offset: nat, p: nat) {
    BlockEnd(p) - p == if offset == BLOCK then BLOCK else BLOCK - offset
  }

  lemma OffsetAdvances(offset: nat, p: nat, n: nat)
    requires offset < BLOCK && IsOffset(offset, p) && offset + n <= BLOCK
    ensures IsOffset(offset + n, p + n)
  {
    SameBlock(p, p + n);
  }

  class Writer {
    const framing: Framing
    var dest: Bytes
    var blockOffset: nat
    ghost var records: seq<Bytes>

    ghost predicate Aligned()
      reads this
    {
      blockOffset <= BLOCK && IsOffset(blockOffset, |dest|)
    }

    ghost predicate Valid()
      reads this
    {
      Sized(framing) && Aligned() && dest == LogBytes(framing, records)
    }

    constructor (framing: Framing)
      requires Sized(framing)
      ensures Valid() && this.framing == framing && records == []
    {
      this.framing := framing;
      dest, blockOffset, records := [], 0, [];
    }

    method EmitPhysicalRecord(kind: Byte, data: Bytes)
      requires blockOffset + HEADER + |data| <= BLOCK
      modifies this`dest, this`blockOffset
      ensures dest == old(dest) + framing.header(kind, data) + data
      ensures blockOffset == old(blockOffset) + HEADER + |data|
    {
      assert |data| < 0x1_0000;
      dest := dest + framing.header(kind, data);
      dest := dest + data;
      blockOffset := blockOffset + HEADER + |data|;
    }

    /** Fills up the block when too little is left of it for a header. */
    method PadBlock()
      requires Aligned()
      modifies this`dest, this`blockOffset
      ensures dest == old(dest) + Zeros(Padding(|old(dest)|))
      ensures blockOffset + HEADER + Room(|old(dest)|) == BLOCK && Aligned()
    {
      if BLOCK - blockOffset < HEADER {
        SameBlock(|dest|, |dest| + Padding(|dest|));
      }
      var leftover := BLOCK - blockOffset;
      if leftover < HEADER {
        if leftover > 0 {
          dest := dest + Zeros(leftover);
        }
        blockOffset := 0;
      }
    }

    /** One round of the loop: pads the block if need be, then writes one fragment. */
    method EmitFragment(left: Bytes, begin: bool, ghost x: Piece) returns (n: nat)
      requires Sized(framing) && Aligned() && x == NextPiece(|dest|, left, begin)
      modifies this`dest, this`blockOffset
      ensures Aligned()
      ensures n == |x.data| && dest == old(dest) + Spell(framing, x) && |dest| == |old(dest)| + Size(x)
    {
      PadBlock();
      ghost var offset, p := blockOffset, |dest|;
      var avail := BLOCK - blockOffset - HEADER;
      n := if |left| < avail then |left| else avail;
      var end := |left| == n;
      var kind, data := FragmentKind(begin, end), left[..n];
      assert kind == x.kind && data == x.data;
      EmitPhysicalRecord(kind, data);
      OffsetAdvances(offset, p, HEADER + n);
      assert |dest| == p + (HEADER + n) && blockOffset == offset + (HEADER + n);
    }

    method EmitNext(left: Bytes, begin: bool, ghost rest: seq<Piece>) returns (n: nat)
      requires Sized(framing) && Aligned() && (begin || |left| > 0) && ToCome(|dest|, left, begin, rest)
      modifies this`dest, this`blockOffset
      ensures Aligned() && n <= |left| && rest != []
      ensures dest == old(dest) + Spell(framing, rest[0]) && ToCome(|dest|, left[n..], false, rest[1..])
    {
      ToComeStep(|dest|, left, begin, rest);
      n := EmitFragment(left, begin, rest[0]);
    }

    method AddRecord(data: Bytes)
      requires Valid()
      modifies this
      ensures Valid() && records == old(records) + [data]
    {
      var left, begin := data, true;
      ghost var pieces, rest := LogPieces(records), Pieces(|dest|, data, true);
      SpellExtent(framing, pieces);
      LogPiecesSnoc(records, data);
      ghost var all := LogPieces(records + [data]);
      while begin || |left| > 0
        invariant Aligned() && records == old(records)
        invariant Written(framing, dest, pieces, rest, all) && ToCome(|dest|, left, begin, rest)
        decreases |rest|
      {
        ghost var was := dest;
        var n := EmitNext(left, begin, rest);
        WrittenStep(framing, was, pieces, rest, all);
        left, begin := left[n..], false;
        pieces, rest := pieces + [rest[0]], rest[1..];
      }
      assert pieces == all;
      records := records + [data];
    }
  }

  /** The pieces that the writer's loop has still to write. */
  ghost predicate ToCome(p: nat, left: Bytes, begin: bool, rest: seq<Piece>) {
    rest == if begin || |left| > 0 then Pieces(p, left, begin) else []
  }

  /** What has been written so far of the pieces `all`. */
  ghost predicate Written(f: Framing, dest: Bytes, done: seq<Piece>, rest: seq<Piece>, all: seq<Piece>) {
    dest == SpellAll(f, done) && all == done + rest
  }

  lemma WrittenStep(f: Framing, dest: Bytes, done: seq<Piece>, rest: seq<Piece>, all: seq<Piece>)
    requires Written(f, dest, done, rest, all) && rest != []
    ensures Written(f, dest + Spell(f, rest[0]), done + [rest[0]], rest[1..], all)
  {
    SpellAllSnoc(f, done, rest[0]);
  }

  lemma ToComeStep(p: nat, left: Bytes, begin: bool, rest: seq<Piece>)
    requires ToCome(p, left, begin, rest) && (begin || |left| > 0)
    ensures var x := NextPiece(p, left, begin);
            rest != [] && rest[0] == x && ToCome(p + Size(x), left[|x.data|..], false, rest[1..])
  {
    PiecesStep(p, left, begin);
  }

  lemma {:induction false} SpellExtent(f: Framing, xs: seq<Piece>)
    requires Sized(f)
    ensures |SpellAll(f, xs)| == Extent(xs)
  {
    if xs != [] {
      SpellExtent(f, xs[..|xs| - 1]);
    }
  }

  lemma PiecesStep(p: nat, left: Bytes, begin: bool)
    ensures var xs, x := Pieces(p, left, begin), NextPiece(p, left, begin);
            && |xs| > 0 && xs[0] == x
            && xs[1..] == if |x.data| == |left| then [] else Pieces(p + Size(x), left[|x.data|..], false)
  {
  }
}
