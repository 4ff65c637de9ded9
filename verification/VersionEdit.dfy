/** The encoding of version edits (db/version_edit.h, db/version_edit.cpp). */
module VersionEdits {
  import opened DbFormat
  import opened Coding
  import opened VersionBuilder

  datatype FileRecord = FileRecord(number: nat, size: nat, smallest: Bytes, largest: Bytes)

  datatype Pointer = Pointer(level: nat, key: Bytes)

  datatype Addition = Addition(level: nat, file: FileRecord)

  /** What a VersionEdit holds.  Unset members are None; the set of deleted files is iterated in the
      order of its container, of which nothing is used. */
  datatype Contents = Contents(
    comparator: Option<Bytes>,
    logNumber: Option<nat>, prevLogNumber: Option<nat>, nextFile: Option<nat>, lastSequence: Option<nat>,
    pointers: seq<Pointer>, deleted: set<Slot>, added: seq<Addition>)

  const EMPTY := Contents(None, None, None, None, None, [], {}, [])

  /** Clear leaves the compaction pointers alone. */
  function Cleared(c: Contents): Contents {
    EMPTY.(pointers := c.pointers)
  }

  //////////////////////////////////////////////////////////////////////////////
  // Fields: an encoded edit is a sequence of tagged fields.

  datatype Field =
    | Comparator(name: Bytes)
    | LogNumber(number: nat)
    | NextFile(number: nat)
    | LastSequence(number: nat)
    | CompactPointer(pointer: Pointer)
    | DeletedFile(slot: Slot)
    | NewFile(addition: Addition)
    | PrevLogNumber(number: nat)

  function Set(c: Contents, f: Field): Contents {
    match f
    case Comparator(name) => c.(comparator := Some(name))
    case LogNumber(n) => c.(logNumber := Some(n))
    case NextFile(n) => c.(nextFile := Some(n))
    case LastSequence(n) => c.(lastSequence := Some(n))
    case CompactPointer(p) => c.(pointers := c.pointers + [p])
    case DeletedFile(s) => c.(deleted := c.deleted + {s})
    case NewFile(a) => c.(added := c.added + [a])
    case PrevLogNumber(n) => c.(prevLogNumber := Some(n))
  }

  function SetAll(c: Contents, fs: seq<Field>): Contents
    decreases |fs|
  {
    if fs == [] then c else SetAll(Set(c, fs[0]), fs[1..])
  }

  predicate Slice(b: Bytes) {
    |b| < LIMIT32
  }

  /** The field's numbers fit their types and its level exists. */
  predicate Encodable(f: Field) {
    match f
    case Comparator(name) => Slice(name)
    case LogNumber(n) => n < LIMIT64
    case NextFile(n) => n < LIMIT64
    case LastSequence(n) => n < LIMIT64
    case CompactPointer(p) => p.level < NUM_LEVELS && Slice(p.key)
    case DeletedFile(s) => 0 <= s.level < NUM_LEVELS && s.number < LIMIT64
    case NewFile(a) =>
      && a.level < NUM_LEVELS && a.file.number < LIMIT64 && a.file.size < LIMIT64
      && Slice(a.file.smallest) && Slice(a.file.largest)
    case PrevLogNumber(n) => n < LIMIT64
  }

  function TagOf(f: Field): nat {
    match f
    case Comparator(_) => 1
    case LogNumber(_) => 2
    case NextFile(_) => 3
    case LastSequence(_) => 4
    case CompactPointer(_) => 5
    case DeletedFile(_) => 6
    case NewFile(_) => 7
    case PrevLogNumber(_) => 9
  }

  function Payload(f: Field): Bytes
    requires Encodable(f)
  {
    match f
    case Comparator(name) => Prefixed(name)
    case LogNumber(n) => Varint(n)
    case NextFile(n) => Varint(n)
    case LastSequence(n) => Varint(n)
    case CompactPointer(p) => Varint(p.level) + Prefixed(p.key)
    case DeletedFile(s) => Varint(s.level) + Varint(s.number)
    case NewFile(a) => Varint(a.level) + FileBytes(a.file)
    case PrevLogNumber(n) => Varint(n)
  }

  function FieldBytes(f: Field): Bytes
    requires Encodable(f)
  {
    Varint(TagOf(f)) + Payload(f)
  }

  function FieldsBytes(fs: seq<Field>): Bytes
    requires forall f :: f in fs ==> Encodable(f)
  {
    if fs == [] then [] else FieldBytes(fs[0]) + FieldsBytes(fs[1..])
  }

  //////////////////////////////////////////////////////////////////////////////
  // Parsing.

  datatype Read<+T> = Read(value: T, rest: Bytes)

  function Read32(b: Bytes): (r: Option<Read<nat>>)
    ensures r.Some? ==> |r.value.rest| < |b|
  {
    match Unvarint(b, 5)
    case None => None
    case Some(p) => Some(Read(p.value % LIMIT32, b[p.size..]))
  }

  function Read64(b: Bytes): (r: Option<Read<nat>>)
    ensures r.Some? ==> |r.value.rest| < |b|
  {
    match Unvarint(b, 10)
    case None => None
    case Some(p) => Some(Read(p.value % LIMIT64, b[p.size..]))
  }

  function ReadLevel(b: Bytes): (r: Option<Read<nat>>)
    ensures r.Some? ==> |r.value.rest| < |b|
  {
    var v := Read32(b);
    if v.Some? && v.value.value < NUM_LEVELS then v else None
  }

  function ReadPointer(b: Bytes): (r: Option<Read<Pointer>>)
    ensures r.Some? ==> |r.value.rest| < |b|
  {
    var l := ReadLevel(b);
    if l.None? then None
    else
      var k := Unprefixed(l.value.rest);
      if k.None? then None else Some(Read(Pointer(l.value.value, k.value.slice), k.value.rest))
  }

  function ReadSlot(b: Bytes): (r: Option<Read<Slot>>)
    ensures r.Some? ==> |r.value.rest| < |b| && 0 <= r.value.value.level < NUM_LEVELS
  {
    var l := ReadLevel(b);
    if l.None? then None
    else
      var n := Read64(l.value.rest);
      if n.None? then None else Some(Read(Slot(l.value.value, n.value.value), n.value.rest))
  }

  function ReadFile(b: Bytes): (r: Option<Read<FileRecord>>)
    ensures r.Some? ==> |r.value.rest| < |b|
  {
    var n := Read64(b);
    if n.None? then None
    else
      var z := Read64(n.value.rest);
      if z.None? then None
      else
        var s := Unprefixed(z.value.rest);
        if s.None? then None
        else
          var l := Unprefixed(s.value.rest);
          if l.None? then None
          else Some(Read(FileRecord(n.value.value, z.value.value, s.value.slice, l.value.slice), l.value.rest))
  }

  function ReadAddition(b: Bytes): (r: Option<Read<Addition>>)
    ensures r.Some? ==> |r.value.rest| < |b| && r.value.value.level < NUM_LEVELS
  {
    var l := ReadLevel(b);
    if l.None? then None
    else
      var f := ReadFile(l.value.rest);
      if f.None? then None else Some(Read(Addition(l.value.value, f.value.value), f.value.rest))
  }

  /** A file is only ever deleted from or added to a level that exists. */
  predicate LevelExists(f: Field) {
    (f.DeletedFile? ==> 0 <= f.slot.level < NUM_LEVELS) && (f.NewFile? ==> f.addition.level < NUM_LEVELS)
  }

  /** The field whose tag has been read. */
  function ReadPayload(tag: nat, b: Bytes): (r: Option<Read<Field>>)
    ensures r.Some? ==> |r.value.rest| < |b| && LevelExists(r.value.value)
  {
    if tag == 1 then (match Unprefixed(b) case None => None case Some(c) => Some(Read(Comparator(c.slice), c.rest)))
    else if tag == 2 then (match Read64(b) case None => None case Some(r) => Some(Read(LogNumber(r.value), r.rest)))
    else if tag == 3 then (match Read64(b) case None => None case Some(r) => Some(Read(NextFile(r.value), r.rest)))
    else if tag == 4 then (match Read64(b) case None => None case Some(r) => Some(Read(LastSequence(r.value), r.rest)))
    else if tag == 5 then (match ReadPointer(b) case None => None
      case Some(r) => Some(Read(CompactPointer(r.value), r.rest)))
    else if tag == 6 then (match ReadSlot(b) case None => None case Some(r) => Some(Read(DeletedFile(r.value), r.rest)))
    else if tag == 7 then (match ReadAddition(b) case None => None case Some(r) => Some(Read(NewFile(r.value), r.rest)))
    else if tag == 9 then (match Read64(b) case None => None case Some(r) => Some(Read(PrevLogNumber(r.value), r.rest)))
    else None
  }

  function ReadField(b: Bytes): (r: Option<Read<Field>>)
    ensures r.Some? ==> |r.value.rest| < |b| && LevelExists(r.value.value)
  {
    var t := Read32(b);
    if t.None? then None else ReadPayload(t.value.value, t.value.rest)
  }

  /** The fields before the first malformed one, and whether there is none. */
  datatype Parse = Parse(fields: seq<Field>, ok: bool)

  function ParseAll(b: Bytes): Parse {
    if b == [] then Parse([], true)
    else match ReadField(b)
      case None => Parse([], false)
      case Some(r) =>
        var more := ParseAll(r.rest);
        Parse([r.value] + more.fields, more.ok)
  }

  //////////////////////////////////////////////////////////////////////////////
  // Round trips.

  lemma Read32Back(v: nat, rest: Bytes)
    requires v < LIMIT32
    ensures Read32(Varint(v) + rest) == Some(Read(v, rest))
  {
    Varint32RoundTrip(v, rest);
  }

  lemma Read64Back(v: nat, rest: Bytes)
    requires v < LIMIT64
    ensures Read64(Varint(v) + rest) == Some(Read(v, rest))
  {
    Varint64RoundTrip(v, rest);
  }

  lemma ReadKeysBack(smallest: Bytes, largest: Bytes, rest: Bytes)
    requires Slice(smallest) && Slice(largest)
    ensures Unprefixed((Prefixed(smallest) + Prefixed(largest)) + rest) == Some(Cut(smallest, Prefixed(largest) + rest))
    ensures Unprefixed(Prefixed(largest) + rest) == Some(Cut(largest, rest))
  {
    Associative(Prefixed(smallest), Prefixed(largest), rest);
    PrefixedRoundTrip(largest, rest);
    PrefixedRoundTrip(smallest, Prefixed(largest) + rest);
  }

  lemma ReadNumbersBack(number: nat, size: nat, keys: Bytes, rest: Bytes)
    requires number < LIMIT64 && size < LIMIT64
    ensures Read64((Varint(number) + (Varint(size) + keys)) + rest) == Some(Read(number, (Varint(size) + keys) + rest))
    ensures Read64((Varint(size) + keys) + rest) == Some(Read(size, keys + rest))
  {
    Associative(Varint(number), Varint(size) + keys, rest);
    Associative(Varint(size), keys, rest);
    Read64Back(number, (Varint(size) + keys) + rest);
    Read64Back(size, keys + rest);
  }

  function FileBytes(f: FileRecord): Bytes {
    Varint(f.number) + (Varint(f.size) + (Prefixed(f.smallest) + Prefixed(f.largest)))
  }

  lemma ReadFileBack(f: FileRecord, rest: Bytes)
    requires f.number < LIMIT64 && f.size < LIMIT64 && Slice(f.smallest) && Slice(f.largest)
    ensures ReadFile(FileBytes(f) + rest) == Some(Read(f, rest))
  {
    ReadNumbersBack(f.number, f.size, Prefixed(f.smallest) + Prefixed(f.largest), rest);
    ReadKeysBack(f.smallest, f.largest, rest);
  }

  lemma ReadLevelBack(level: nat, more: Bytes, rest: Bytes)
    requires level < NUM_LEVELS
    ensures ReadLevel((Varint(level) + more) + rest) == Some(Read(level, more + rest))
  {
    Associative(Varint(level), more, rest);
    Read32Back(level, more + rest);
  }

  lemma ReadPointerBack(p: Pointer, rest: Bytes)
    requires p.level < NUM_LEVELS && Slice(p.key)
    ensures ReadPointer((Varint(p.level) + Prefixed(p.key)) + rest) == Some(Read(p, rest))
  {
    ReadLevelBack(p.level, Prefixed(p.key), rest);
    PrefixedRoundTrip(p.key, rest);
  }

  lemma ReadSlotBack(s: Slot, rest: Bytes)
    requires 0 <= s.level < NUM_LEVELS && s.number < LIMIT64
    ensures ReadSlot((Varint(s.level) + Varint(s.number)) + rest) == Some(Read(s, rest))
  {
    ReadLevelBack(s.level, Varint(s.number), rest);
    Read64Back(s.number, rest);
  }

  lemma ReadAdditionBack(a: Addition, rest: Bytes)
    requires Encodable(NewFile(a))
    ensures ReadAddition((Varint(a.level) + FileBytes(a.file)) + rest) == Some(Read(a, rest))
  {
    ReadLevelBack(a.level, FileBytes(a.file), rest);
    ReadFileBack(a.file, rest);
  }

  lemma NumberRoundTrip(f: Field, rest: Bytes)
    requires Encodable(f) && (f.LogNumber? || f.NextFile? || f.LastSequence? || f.PrevLogNumber?)
    ensures ReadPayload(TagOf(f), Payload(f) + rest) == Some(Read(f, rest))
  {
    Read64Back(f.number, rest);
    assert Payload(f) == Varint(f.number);
  }

  lemma KeyRoundTrip(f: Field, rest: Bytes)
    requires Encodable(f) && (f.Comparator? || f.CompactPointer?)
    ensures ReadPayload(TagOf(f), Payload(f) + rest) == Some(Read(f, rest))
  {
    if f.Comparator? {
      PrefixedRoundTrip(f.name, rest);
    } else {
      ReadPointerBack(f.pointer, rest);
    }
  }

  lemma SlotField(b: Bytes, s: Slot, rest: Bytes)
    requires ReadSlot(b) == Some(Read(s, rest))
    ensures ReadPayload(6, b) == Some(Read(DeletedFile(s), rest))
  {
  }

  lemma AdditionField(b: Bytes, a: Addition, rest: Bytes)
    requires ReadAddition(b) == Some(Read(a, rest))
    ensures ReadPayload(7, b) == Some(Read(NewFile(a), rest))
  {
  }

  lemma DeletedRoundTrip(f: Field, rest: Bytes)
    requires Encodable(f) && f.DeletedFile?
    ensures ReadPayload(TagOf(f), Payload(f) + rest) == Some(Read(f, rest))
  {
    ReadSlotBack(f.slot, rest);
    SlotField(Payload(f) + rest, f.slot, rest);
  }

  lemma AddedRoundTrip(f: Field, rest: Bytes)
    requires Encodable(f) && f.NewFile?
    ensures ReadPayload(TagOf(f), Payload(f) + rest) == Some(Read(f, rest))
  {
    ReadAdditionBack(f.addition, rest);
    AdditionField(Payload(f) + rest, f.addition, rest);
  }

  lemma PayloadRoundTrip(f: Field, rest: Bytes)
    requires Encodable(f)
    ensures ReadPayload(TagOf(f), Payload(f) + rest) == Some(Read(f, rest))
  {
    if f.DeletedFile? {
      DeletedRoundTrip(f, rest);
    } else if f.NewFile? {
      AddedRoundTrip(f, rest);
    } else if f.Comparator? || f.CompactPointer? {
      KeyRoundTrip(f, rest);
    } else {
      NumberRoundTrip(f, rest);
    }
  }

  /** Every encodable field is read back, whatever follows it. */
  lemma FieldRoundTrip(f: Field, rest: Bytes)
    requires Encodable(f)
    ensures ReadField(FieldBytes(f) + rest) == Some(Read(f, rest))
  {
    Associative(Varint(TagOf(f)), Payload(f), rest);
    Read32Back(TagOf(f), Payload(f) + rest);
    PayloadRoundTrip(f, rest);
  }

  /** Decoding inverts encoding on every sequence of encodable fields. */
  lemma {:induction false} FieldsRoundTrip(fs: seq<Field>)
    requires forall f :: f in fs ==> Encodable(f)
    ensures ParseAll(FieldsBytes(fs)) == Parse(fs, true)
  {
    if fs != [] {
      FieldRoundTrip(fs[0], FieldsBytes(fs[1..]));
      FieldsRoundTrip(fs[1..]);
      assert [fs[0]] + fs[1..] == fs;
    }
  }

  //////////////////////////////////////////////////////////////////////////////
  // The object.

  /** Everything the edit holds fits its type. */
  predicate EncodableContents(c: Contents) {
    && (c.comparator.Some? ==> Encodable(Comparator(c.comparator.value)))
    && (c.logNumber.Some? ==> Encodable(LogNumber(c.logNumber.value)))
    && (c.prevLogNumber.Some? ==> Encodable(PrevLogNumber(c.prevLogNumber.value)))
    && (c.nextFile.Some? ==> Encodable(NextFile(c.nextFile.value)))
    && (c.lastSequence.Some? ==> Encodable(LastSequence(c.lastSequence.value)))
    && (forall p :: p in c.pointers ==> Encodable(CompactPointer(p)))
    && (forall s :: s in c.deleted ==> Encodable(DeletedFile(s)))
    && (forall a :: a in c.added ==> Encodable(NewFile(a)))
  }

  /** `b` spells fields that set exactly `c`. */
  ghost predicate Spells(b: Bytes, fs: seq<Field>, c: Contents) {
    (forall f :: f in fs ==> Encodable(f)) && b == FieldsBytes(fs) && SetAll(EMPTY, fs) == c
  }

  lemma {:induction false} SetAllSnoc(c: Contents, fs: seq<Field>, f: Field)
    ensures SetAll(c, fs + [f]) == Set(SetAll(c, fs), f)
    decreases |fs|
  {
    if fs != [] {
      SetAllSnoc(Set(c, fs[0]), fs[1..], f);
      assert (fs + [f])[1..] == fs[1..] + [f];
    }
  }

  lemma {:induction false} FieldsBytesSnoc(fs: seq<Field>, f: Field)
    requires Encodable(f) && forall g :: g in fs ==> Encodable(g)
    ensures FieldsBytes(fs + [f]) == FieldsBytes(fs) + FieldBytes(f)
  {
    if fs == [] {
      assert fs + [f] == [f];
      assert [f][1..] == [];
      assert FieldBytes(f) + [] == FieldBytes(f) == [] + FieldBytes(f);
    } else {
      FieldsBytesSnoc(fs[1..], f);
      assert (fs + [f])[1..] == fs[1..] + [f];
      Associative(FieldBytes(fs[0]), FieldsBytes(fs[1..]), FieldBytes(f));
    }
  }

  lemma SpellsSnoc(b: Bytes, fs: seq<Field>, c: Contents, f: Field)
    requires Spells(b, fs, c) && Encodable(f)
    ensures Spells(b + FieldBytes(f), fs + [f], Set(c, f))
  {
    SetAllSnoc(EMPTY, fs, f);
    FieldsBytesSnoc(fs, f);
  }

  lemma SpellsPointer(b: Bytes, fs: seq<Field>, c: Contents, ps: seq<Pointer>, i: nat)
    requires i < |ps| && Spells(b, fs, c.(pointers := ps[..i])) && Encodable(CompactPointer(ps[i]))
    ensures Spells(b + FieldBytes(CompactPointer(ps[i])), fs + [CompactPointer(ps[i])], c.(pointers := ps[..i + 1]))
  {
    SpellsSnoc(b, fs, c.(pointers := ps[..i]), CompactPointer(ps[i]));
    assert ps[..i] + [ps[i]] == ps[..i + 1];
  }

  lemma SpellsAdded(b: Bytes, fs: seq<Field>, c: Contents, added: seq<Addition>, i: nat)
    requires i < |added| && Spells(b, fs, c.(added := added[..i])) && Encodable(NewFile(added[i]))
    ensures Spells(b + FieldBytes(NewFile(added[i])), fs + [NewFile(added[i])], c.(added := added[..i + 1]))
  {
    SetAdded(c, added, i);
    SpellsSnoc(b, fs, c.(added := added[..i]), NewFile(added[i]));
  }

  lemma SetAdded(c: Contents, added: seq<Addition>, i: nat)
    requires i < |added|
    ensures Set(c.(added := added[..i]), NewFile(added[i])) == c.(added := added[..i + 1])
  {
    assert added[..i] + [added[i]] == added[..i + 1];
  }

  /** Writes a tag and its payload. */
  method PutField(dst: Bytes, f: Field) returns (r: Bytes)
    requires Encodable(f)
    ensures r == dst + FieldBytes(f)
  {
    var tag := EncodeVarint32(TagOf(f));
    var payload := PutPayload(f);
    r := dst + (tag + payload);
  }

  method PutPayload(f: Field) returns (r: Bytes)
    requires Encodable(f)
    ensures r == Payload(f)
  {
    match f
    case Comparator(name) => r := PutLengthPrefixedSlice(name);
    case LogNumber(n) => r := EncodeVarint64(n);
    case NextFile(n) => r := EncodeVarint64(n);
    case LastSequence(n) => r := EncodeVarint64(n);
    case PrevLogNumber(n) => r := EncodeVarint64(n);
    case CompactPointer(p) =>
      var level := EncodeVarint32(p.level);
      var key := PutLengthPrefixedSlice(p.key);
      r := level + key;
    case DeletedFile(s) =>
      var level := EncodeVarint32(s.level);
      var number := EncodeVarint64(s.number);
      r := level + number;
    case NewFile(a) =>
      var level := EncodeVarint32(a.level);
      var number := EncodeVarint64(a.file.number);
      var size := EncodeVarint64(a.file.size);
      var smallest := PutLengthPrefixedSlice(a.file.smallest);
      var largest := PutLengthPrefixedSlice(a.file.largest);
      r := level + (number + (size + (smallest + largest)));
  }

  class VersionEdit {
    var contents: Contents

    constructor ()
      ensures contents == EMPTY
    {
      contents := EMPTY;
    }

    method Clear()
      modifies this
      ensures contents == Cleared(old(contents))
    {
      contents := Contents(None, None, None, None, None, contents.pointers, {}, []);
    }

    method EncodeTo() returns (dst: Bytes, ghost fs: seq<Field>)
      requires EncodableContents(contents)
      ensures Spells(dst, fs, contents)
      ensures ParseAll(dst).ok && SetAll(EMPTY, ParseAll(dst).fields) == contents
    {
      var c := contents;
      dst, fs := EncodeNumbers(c);
      dst, fs := EncodePointers(c, dst, fs);
      dst, fs := EncodeDeleted(c, dst, fs);
      dst, fs := EncodeAdded(c, dst, fs);
      FieldsRoundTrip(fs);
    }

    static method EncodePointers(c: Contents, dst0: Bytes, ghost fs0: seq<Field>)
      returns (dst: Bytes, ghost fs: seq<Field>)
      requires EncodableContents(c) && Spells(dst0, fs0, c.(pointers := [], deleted := {}, added := []))
      ensures Spells(dst, fs, c.(deleted := {}, added := []))
    {
      ghost var so := c.(deleted := {}, added := []);
      dst, fs := dst0, fs0;
      var i := 0;
      while i < |c.pointers|
        invariant 0 <= i <= |c.pointers| && Spells(dst, fs, so.(pointers := c.pointers[..i]))
      {
        var f := CompactPointer(c.pointers[i]);
        SpellsPointer(dst, fs, so, c.pointers, i);
        dst := PutField(dst, f);
        fs, i := fs + [f], i + 1;
      }
      assert c.pointers[..i] == c.pointers;
    }

    static method EncodeDeleted(c: Contents, dst0: Bytes, ghost fs0: seq<Field>)
      returns (dst: Bytes, ghost fs: seq<Field>)
      requires EncodableContents(c) && Spells(dst0, fs0, c.(deleted := {}, added := []))
      ensures Spells(dst, fs, c.(added := []))
    {
      ghost var so := c.(added := []);
      dst, fs := dst0, fs0;
      var left := c.deleted;
      assert c.deleted - left == {};
      while left != {}
        invariant left <= c.deleted && Spells(dst, fs, so.(deleted := c.deleted - left))
        decreases |left|
      {
        var s :| s in left;
        var f := DeletedFile(s);
        SpellsSnoc(dst, fs, so.(deleted := c.deleted - left), f);
        assert c.deleted - left + {s} == c.deleted - (left - {s});
        dst := PutField(dst, f);
        fs, left := fs + [f], left - {s};
      }
      assert c.deleted - left == c.deleted;
    }

    static method EncodeAdded(c: Contents, dst0: Bytes, ghost fs0: seq<Field>)
      returns (dst: Bytes, ghost fs: seq<Field>)
      requires EncodableContents(c) && Spells(dst0, fs0, c.(added := []))
      ensures Spells(dst, fs, c)
    {
      dst, fs := dst0, fs0;
      var i := 0;
      while i < |c.added|
        invariant 0 <= i <= |c.added| && Spells(dst, fs, c.(added := c.added[..i]))
      {
        var f := NewFile(c.added[i]);
        SpellsAdded(dst, fs, c, c.added, i);
        dst := PutField(dst, f);
        fs, i := fs + [f], i + 1;
      }
      assert c.added[..i] == c.added;
    }

    /** The members that occur at most once, in the order they are written. */
    static method EncodeNumbers(c: Contents) returns (dst: Bytes, ghost fs: seq<Field>)
      requires EncodableContents(c)
      ensures Spells(dst, fs, c.(pointers := [], deleted := {}, added := []))
    {
      dst, fs := [], [];
      dst, fs := PutOnce(dst, fs, EMPTY, if c.comparator.Some? then Some(Comparator(c.comparator.value)) else None);
      ghost var so := EMPTY.(comparator := c.comparator);
      dst, fs := PutOnce(dst, fs, so, if c.logNumber.Some? then Some(LogNumber(c.logNumber.value)) else None);
      so := so.(logNumber := c.logNumber);
      dst, fs := PutOnce(dst, fs, so, if c.prevLogNumber.Some? then Some(PrevLogNumber(c.prevLogNumber.value))
        else None);
      so := so.(prevLogNumber := c.prevLogNumber);
      dst, fs := PutOnce(dst, fs, so, if c.nextFile.Some? then Some(NextFile(c.nextFile.value)) else None);
      so := so.(nextFile := c.nextFile);
      dst, fs := PutOnce(dst, fs, so, if c.lastSequence.Some? then Some(LastSequence(c.lastSequence.value)) else None);
    }

    static method PutOnce(dst: Bytes, ghost fs: seq<Field>, ghost c: Contents, f: Option<Field>)
      returns (dst': Bytes, ghost fs': seq<Field>)
      requires Spells(dst, fs, c) && (f.Some? ==> Encodable(f.value))
      ensures Spells(dst', fs', if f.Some? then Set(c, f.value) else c)
    {
      dst', fs' := dst, fs;
      if f.Some? {
        SpellsSnoc(dst, fs, c, f.value);
        dst' := PutField(dst, f.value);
        fs' := fs + [f.value];
      }
    }

    /** Decodes into this edit; on failure it has been set by the fields before the malformed one. */
    method DecodeFrom(src: Bytes) returns (ok: bool)
      modifies this
      ensures ok == ParseAll(src).ok
      ensures contents == SetAll(Cleared(old(contents)), ParseAll(src).fields)
    {
      Clear();
      ghost var start, done := contents, [];
      var input := src;
      ok := true;
      while ok && input != []
        invariant contents == SetAll(start, done)
        invariant if ok then ParsesOn(src, done, input) else ParseAll(src) == Parse(done, false)
        decreases ok, |input|
      {
        var r := GetField(input);
        ParsesOneMore(src, done, input, r);
        if r.Some? {
          SetAllSnoc(start, done, r.value.value);
          contents := Set(contents, r.value.value);
          done := done + [r.value.value];
          input := r.value.rest;
        } else {
          ok := false;
        }
      }
      if ok {
        ParsesToEnd(src, done);
      }
      assert ParseAll(src).fields == done;
    }
  }

  lemma ParsesToEnd(src: Bytes, done: seq<Field>)
    requires ParsesOn(src, done, [])
    ensures ParseAll(src) == Parse(done, true)
  {
    assert done + [] == done;
  }

  /** The fields of `src` are those of `done` and then those of `input`. */
  ghost predicate ParsesOn(src: Bytes, done: seq<Field>, input: Bytes) {
    ParseAll(src).fields == done + ParseAll(input).fields && ParseAll(src).ok == ParseAll(input).ok
  }

  lemma ParsesOneMore(src: Bytes, done: seq<Field>, input: Bytes, next: Option<Read<Field>>)
    requires ParsesOn(src, done, input) && input != [] && next == ReadField(input)
    ensures match next
            case None => ParseAll(src) == Parse(done, false)
            case Some(r) => ParsesOn(src, done + [r.value], r.rest)
  {
    if next.Some? {
      var f, more := next.value.value, ParseAll(next.value.rest).fields;
      assert done + ([f] + more) == (done + [f]) + more;
    }
  }

  method GetField(input: Bytes) returns (r: Option<Read<Field>>)
    ensures r == ReadField(input)
  {
    var tag, rest := GetVarint32(input);
    if tag.None? {
      return None;
    }
    r := GetPayload(tag.value, rest);
  }

  method GetNumber(input: Bytes) returns (r: Option<Read<nat>>)
    ensures r == Read64(input)
  {
    var n, rest := GetVarint64(input);
    r := if n.Some? then Some(Read(n.value, rest)) else None;
  }

  method GetLevel(input: Bytes) returns (r: Option<Read<nat>>)
    ensures r == ReadLevel(input)
  {
    var n, rest := GetVarint32(input);
    r := if n.Some? && n.value < NUM_LEVELS then Some(Read(n.value, rest)) else None;
  }

  method GetAddition(input: Bytes) returns (r: Option<Read<Addition>>)
    ensures r == ReadAddition(input)
  {
    var level := GetLevel(input);
    if level.None? { return None; }
    var number := GetNumber(level.value.rest);
    if number.None? { return None; }
    var size := GetNumber(number.value.rest);
    if size.None? { return None; }
    var smallest := GetLengthPrefixedSlice(size.value.rest);
    if smallest.None? { return None; }
    var largest := GetLengthPrefixedSlice(smallest.value.rest);
    if largest.None? { return None; }
    var file := FileRecord(number.value.value, size.value.value, smallest.value.slice, largest.value.slice);
    return Some(Read(Addition(level.value.value, file), largest.value.rest));
  }

  method GetPayload(tag: nat, input: Bytes) returns (r: Option<Read<Field>>)
    ensures r == ReadPayload(tag, input)
  {
    r := None;
    if tag == 1 {
      var name := GetLengthPrefixedSlice(input);
      r := if name.Some? then Some(Read(Comparator(name.value.slice), name.value.rest)) else None;
    } else if tag == 2 || tag == 3 || tag == 4 || tag == 9 {
      var n := GetNumber(input);
      if n.Some? {
        var v := n.value.value;
        var f := if tag == 2 then LogNumber(v) else if tag == 3 then NextFile(v)
                 else if tag == 4 then LastSequence(v) else PrevLogNumber(v);
        r := Some(Read(f, n.value.rest));
      }
    } else if tag == 5 {
      var level := GetLevel(input);
      if level.Some? {
        var key := GetLengthPrefixedSlice(level.value.rest);
        if key.Some? {
          r := Some(Read(CompactPointer(Pointer(level.value.value, key.value.slice)), key.value.rest));
        }
      }
    } else if tag == 6 {
      var level := GetLevel(input);
      if level.Some? {
        var n := GetNumber(level.value.rest);
        if n.Some? {
          r := Some(Read(DeletedFile(Slot(level.value.value, n.value.value)), n.value.rest));
        }
      }
    } else if tag == 7 {
      var a := GetAddition(input);
      r := if a.Some? then Some(Read(NewFile(a.value.value), a.value.rest)) else None;
    }
  }

  /** Decoding what EncodeTo wrote, into an edit that had contents `before`: everything is as encoded,
      except that compaction pointers already there are kept in front. */
  lemma EditRoundTrip(b: Bytes, fs: seq<Field>, c: Contents, before: Contents)
    requires Spells(b, fs, c)
    ensures ParseAll(b).ok
    ensures SetAll(Cleared(before), ParseAll(b).fields) == c.(pointers := before.pointers + c.pointers)
  {
    FieldsRoundTrip(fs);
    KeepsPointers(EMPTY, fs, before.pointers);
    var kept := before.pointers;
    assert EMPTY.(pointers := kept + EMPTY.pointers) == Cleared(before);
  }

  lemma {:induction false} KeepsPointers(c: Contents, fs: seq<Field>, ps: seq<Pointer>)
    ensures SetAll(c.(pointers := ps + c.pointers), fs) == SetAll(c, fs).(pointers := ps + SetAll(c, fs).pointers)
    decreases |fs|
  {
    if fs != [] {
      KeepsPointers(Set(c, fs[0]), fs[1..], ps);
      if fs[0].CompactPointer? {
        assert (ps + c.pointers) + [fs[0].pointer] == ps + (c.pointers + [fs[0].pointer]);
      }
    }
  }
}
