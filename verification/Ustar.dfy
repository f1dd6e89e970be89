/** The ustar archive format: the writer's header and entry layout, and an independent reader. */
module Ustar {
  import opened Wrappers
  import opened Octal

  const BLOCK: nat := 512
  const NAME_MAX: nat := 100
  const SIZE_LIMIT: nat := 0x2_0000_0000  // 8^11, the first size an 11-digit field cannot hold
  const MAGIC: Bytes := [117, 115, 116, 97, 114, 0, 48, 48]  // "ustar\0" "00"
  const REGULAR: Byte := 48
  const SLASH: Byte := 47

  function Sum(b: Bytes): (r: nat)
    ensures r <= 255 * |b|
  {
    if b == [] then 0 else Sum(b[..|b| - 1]) + b[|b| - 1]
  }

  // ---------------------------------------------------------------------
  // What the writer lays down
  // ---------------------------------------------------------------------

  function NameField(name: Bytes): (r: Bytes)
    ensures |r| == NAME_MAX
  {
    var kept := name[..Min(|name|, NAME_MAX - 1)];
    kept + Repeat(0, NAME_MAX - |kept|)
  }

  /** Name, mode, uid and gid: offsets 0 to 123. */
  function Front(name: Bytes): (r: Bytes)
    ensures |r| == 124
  {
    NameField(name) + Field(0x1A4, 8) + Field(0, 8) + Field(0, 8)
  }

  /** Type, link name, magic and version, and the fields left empty: offsets 156 to 511. */
  function Tail(): (r: Bytes)
    ensures |r| == 356
  {
    [REGULAR] + Repeat(0, 100) + MAGIC + Repeat(0, 247)
  }

  function WithSum(name: Bytes, size: nat, sum: Bytes): (r: Bytes)
    requires |sum| == 8
    ensures |r| == BLOCK
  {
    Front(name) + Field(size, 12) + Field(0, 12) + sum + Tail()
  }

  function Blanks(): Bytes {
    Repeat(SPACE, 8)
  }

  /** Six octal digits, a NUL and a space, cut to the field. */
  function SumField(sum: nat): (r: Bytes)
    ensures |r| == 8
  {
    (PadTo(sum, 6) + [NUL, SPACE])[..8]
  }

  function Header(name: Bytes, size: nat): (r: Bytes)
    ensures |r| == BLOCK
  {
    WithSum(name, size, SumField(Sum(WithSum(name, size, Blanks()))))
  }

  function PaddingFor(size: nat): nat {
    if size % BLOCK == 0 then 0 else BLOCK - size % BLOCK
  }

  function Padded(payload: Bytes): Bytes {
    payload + Repeat(0, PaddingFor(|payload|))
  }

  function EntryBytes(name: Bytes, payload: Bytes): Bytes {
    Header(name, |payload|) + Padded(payload)
  }

  datatype Entry = Entry(name: Bytes, payload: Bytes)

  function Body(entries: seq<Entry>): Bytes {
    if entries == [] then [] else EntryBytes(entries[0].name, entries[0].payload) + Body(entries[1..])
  }

  function Archive(entries: seq<Entry>): Bytes {
    Body(entries) + Repeat(0, 2 * BLOCK)
  }

  // ---------------------------------------------------------------------
  // The reader, after the ustar interchange format of POSIX.1
  // ---------------------------------------------------------------------

  function UpToNul(f: Bytes): Bytes {
    if f == [] || f[0] == NUL then [] else [f[0]] + UpToNul(f[1..])
  }

  /** A header names a regular file and its size, if its magic and its checksum are right. */
  function ReadHeader(h: Bytes): Option<(Bytes, nat)>
    requires |h| == BLOCK
  {
    var sum, size := ReadOctal(h[148..156]), ReadOctal(h[124..136]);
    if h[257..265] != MAGIC || h[156] != REGULAR || size.None? || !SumMatches(h, sum) then None
    else
      var name, prefix := UpToNul(h[0..100]), UpToNul(h[345..500]);
      Some((if prefix == [] then name else prefix + [SLASH] + name, size.value))
  }

  predicate SumMatches(h: Bytes, sum: Option<nat>)
    requires |h| == BLOCK
  {
    sum == Some(Sum(Put(h, 148, Blanks())))
  }

  function Read(b: Bytes): Option<seq<Entry>>
    decreases |b|
  {
    if |b| < BLOCK then None
    else if b[..BLOCK] == Repeat(0, BLOCK) then
      if |b| >= 2 * BLOCK && b[BLOCK..2 * BLOCK] == Repeat(0, BLOCK) then Some([]) else None
    else
      var h := ReadHeader(b[..BLOCK]);
      if h.None? || |b| < BLOCK + h.value.1 + PaddingFor(h.value.1) then None
      else
        var (name, size) := h.value;
        var rest := Read(b[BLOCK + size + PaddingFor(size)..]);
        if rest.None? then None
        else Some([Entry(name, b[BLOCK..BLOCK + size])] + rest.value)
  }

  // ---------------------------------------------------------------------
  // The writer
  // ---------------------------------------------------------------------

  lemma PutNext(done: Bytes, f: Bytes, n: nat)
    requires |f| <= n
    ensures Put(done + Repeat(0, n), |done|, f) == done + f + Repeat(0, n - |f|)
  {
  }

  lemma ZerosJoin(done: Bytes, m: nat, n: nat)
    ensures done + Repeat(0, m + n) == done + Repeat(0, m) + Repeat(0, n)
  {
  }

  lemma PutMiddle(a: Bytes, f: Bytes, c: Bytes, g: Bytes)
    requires |g| == |f|
    ensures Put(a + f + c, |a|, g) == a + g + c
  {
  }

  /** Offsets 0 to 99. */
  method WriteName(header: array<Byte>, name: Bytes)
    requires header.Length == BLOCK && header[..] == Repeat(0, BLOCK)
    modifies header
    ensures header[..] == NameField(name) + Repeat(0, 412)
  {
    var copy := Min(|name|, NAME_MAX - 1);
    assert [] + Repeat(0, BLOCK) == Repeat(0, BLOCK);
    PutNext([], name[..copy], BLOCK);
    CopyInto(header, 0, name[..copy]);
    assert [] + name[..copy] == name[..copy];
    ZerosJoin(name[..copy], NAME_MAX - copy, 412);
  }

  /** Offsets 0 to 123. */
  method WriteFront(header: array<Byte>, name: Bytes)
    requires header.Length == BLOCK && header[..] == Repeat(0, BLOCK)
    modifies header
    ensures header[..] == Front(name) + Repeat(0, 388)
  {
    WriteName(header, name);
    PutNext(NameField(name), Field(0x1A4, 8), 412);
    WriteOctal(header, 100, 108, 0x1A4);
    PutNext(NameField(name) + Field(0x1A4, 8), Field(0, 8), 404);
    WriteOctal(header, 108, 116, 0);
    PutNext(NameField(name) + Field(0x1A4, 8) + Field(0, 8), Field(0, 8), 396);
    WriteOctal(header, 116, 124, 0);
  }

  /** Offsets 124 to 155, the checksum still blank. */
  method WriteNumbers(header: array<Byte>, ghost front: Bytes, size: nat)
    requires header.Length == BLOCK && |front| == 124 && header[..] == front + Repeat(0, 388)
    requires size <= U64_MAX
    modifies header
    ensures header[..] == front + Field(size, 12) + Field(0, 12) + Blanks() + Repeat(0, 356)
  {
    PutNext(front, Field(size, 12), 388);
    WriteOctal(header, 124, 136, size);
    PutNext(front + Field(size, 12), Field(0, 12), 376);
    WriteOctal(header, 136, 148, 0);
    PutNext(front + Field(size, 12) + Field(0, 12), Blanks(), 364);
    CopyInto(header, 148, Blanks());
  }

  /** Offsets 156 to 511. */
  method WriteTail(header: array<Byte>, ghost done: Bytes)
    requires header.Length == BLOCK && |done| == 156 && header[..] == done + Repeat(0, 356)
    modifies header
    ensures header[..] == done + Tail()
  {
    PutNext(done, [REGULAR], 356);
    CopyInto(header, 156, [REGULAR]);
    ZerosJoin(done + [REGULAR], 100, 255);
    PutNext(done + [REGULAR] + Repeat(0, 100), MAGIC[..6], 255);
    CopyInto(header, 257, MAGIC[..6]);
    PutNext(done + [REGULAR] + Repeat(0, 100) + MAGIC[..6], MAGIC[6..], 249);
    CopyInto(header, 263, MAGIC[6..]);
    TailInPieces(done);
  }

  lemma TailInPieces(done: Bytes)
    ensures done + Tail() == done + [REGULAR] + Repeat(0, 100) + MAGIC[..6] + MAGIC[6..] + Repeat(0, 247)
  {
    assert MAGIC == MAGIC[..6] + MAGIC[6..];
  }

  method SumBytes(header: array<Byte>) returns (sum: nat)
    requires header.Length == BLOCK
    ensures sum == Sum(header[..])
  {
    sum := 0;
    for i := 0 to header.Length
      invariant sum == Sum(header[..i])
    {
      assert header[..i + 1][..i] == header[..i];
      sum := (sum + header[i]) % 0x1_0000_0000;
    }
    assert header[..header.Length] == header[..];
  }

  /** Append one header, the payload and its padding. */
  method WriteEntry(out: Bytes, name: Bytes, payload: Bytes) returns (r: Bytes)
    requires |payload| <= U64_MAX
    ensures r == out + EntryBytes(name, payload)
  {
    var header := new Byte[BLOCK](_ => 0);
    assert header[..] == Repeat(0, BLOCK);
    WriteFront(header, name);
    WriteNumbers(header, Front(name), |payload|);
    WriteTail(header, Front(name) + Field(|payload|, 12) + Field(0, 12) + Blanks());
    var sum := SumBytes(header);
    var cs := PadTo(sum, 6) + [NUL, SPACE];
    PutMiddle(Front(name) + Field(|payload|, 12) + Field(0, 12), Blanks(), Tail(), SumField(sum));
    CopyInto(header, 148, cs[..Min(|cs|, 8)]);
    assert header[..] == Header(name, |payload|);
    r := AppendPadded(out + header[..], payload);
    Associative(out, header[..], Padded(payload));
  }

  method AppendPadded(out: Bytes, payload: Bytes) returns (r: Bytes)
    ensures r == out + Padded(payload)
  {
    r := out + payload;
    var remainder := |payload| % BLOCK;
    if remainder != 0 {
      r := r + Repeat(0, BLOCK - remainder);
    }
  }

  lemma BodySplit(entries: seq<Entry>, i: nat)
    requires i < |entries|
    ensures Body(entries[i..]) == EntryBytes(entries[i].name, entries[i].payload) + Body(entries[i + 1..])
  {
    assert entries[i..][1..] == entries[i + 1..];
  }

  method WriteArchive(entries: seq<Entry>) returns (buffer: Bytes)
    requires forall e | e in entries :: |e.payload| <= U64_MAX
    ensures buffer == Archive(entries)
  {
    buffer := [];
    assert entries[0..] == entries;
    assert buffer + Body(entries) == Body(entries);
    for i := 0 to |entries|
      invariant buffer + Body(entries[i..]) == Body(entries)
    {
      assert entries[i] in entries;
      BodySplit(entries, i);
      Associative(buffer, EntryBytes(entries[i].name, entries[i].payload), Body(entries[i + 1..]));
      buffer := WriteEntry(buffer, entries[i].name, entries[i].payload);
    }
    assert buffer + [] == buffer;
    buffer := buffer + Repeat(0, 2 * BLOCK);
  }

  // ---------------------------------------------------------------------
  // The reader undoes the writer
  // ---------------------------------------------------------------------

  lemma ReadSumField(sum: nat)
    requires sum < Pow8(6)
    ensures ReadOctal(SumField(sum)) == Some(sum)
  {
    DigitCount(sum, 6);
    ValueOfPadded(sum, 6);
    ReadDigits(PadTo(sum, 6), [NUL, SPACE]);
    assert SumField(sum) == PadTo(sum, 6) + [NUL, SPACE];
  }

  lemma SliceOf(a: Bytes, f: Bytes, c: Bytes)
    ensures (a + f + c)[|a|..|a| + |f|] == f
  {
  }

  /** Where the reader finds each field. */
  lemma FieldsFound(name: Bytes, size: nat, sum: Bytes)
    requires |sum| == 8
    ensures var h := WithSum(name, size, sum);
            && h[0..100] == NameField(name) && h[124..136] == Field(size, 12) && h[148..156] == sum
            && Put(h, 148, Blanks()) == WithSum(name, size, Blanks())
  {
    var h := WithSum(name, size, sum);
    var rest := Field(0, 12) + sum + Tail();
    assert h == Front(name) + Field(size, 12) + rest;
    SliceOf(Front(name), Field(size, 12), rest);
    SliceOf(Front(name) + Field(size, 12) + Field(0, 12), sum, Tail());
    PutMiddle(Front(name) + Field(size, 12) + Field(0, 12), sum, Tail(), Blanks());
    assert h[0..100] == Front(name)[..100] == NameField(name);
  }

  lemma TailFound(done: Bytes)
    requires |done| == 156
    ensures var h := done + Tail();
            h[156] == REGULAR && h[257..265] == MAGIC && h[345..500] == Repeat(0, 155)
  {
    var front := done + [REGULAR] + Repeat(0, 100);
    assert done + Tail() == front + MAGIC + Repeat(0, 247);
    SliceOf(front, MAGIC, Repeat(0, 247));
  }

  lemma {:induction false} UpToNulPadded(name: Bytes, n: nat)
    requires n > 0
    ensures UpToNul(name + Repeat(0, n)) == UpToNul(name)
    decreases |name|
  {
    var f := name + Repeat(0, n);
    if name == [] || name[0] == NUL {
      assert f[0] == NUL;
    } else {
      assert f[1..] == name[1..] + Repeat(0, n);
      UpToNulPadded(name[1..], n);
    }
  }

  /** A written header reads back: its checksum verifies, its size is the payload's, and its name is
      the entry's up to the first NUL. */
  lemma HeaderReadsBack(name: Bytes, size: nat)
    requires |name| < NAME_MAX && size < SIZE_LIMIT
    ensures ReadHeader(Header(name, size)) == Some((UpToNul(name), size))
  {
    SumVerifies(name, size);
    SizeReadsBack(name, size);
    NameReadsBack(name);
    EdgesFound(name, size);
    ReadsAs(Header(name, size), UpToNul(name), size);
  }

  lemma ReadsAs(h: Bytes, name: Bytes, size: nat)
    requires |h| == BLOCK && h[257..265] == MAGIC && h[156] == REGULAR
    requires ReadOctal(h[124..136]) == Some(size) && SumMatches(h, ReadOctal(h[148..156]))
    requires UpToNul(h[0..100]) == name && UpToNul(h[345..500]) == []
    ensures ReadHeader(h) == Some((name, size))
  {
  }

  /** The name field and everything behind the checksum. */
  lemma EdgesFound(name: Bytes, size: nat)
    ensures var h := Header(name, size);
            && h[0..100] == NameField(name) && h[345..500] == Repeat(0, 155)
            && h[257..265] == MAGIC && h[156] == REGULAR
  {
    var sum := SumField(Sum(WithSum(name, size, Blanks())));
    FieldsFound(name, size, sum);
    TailFound(Front(name) + Field(size, 12) + Field(0, 12) + sum);
  }

  lemma NameReadsBack(name: Bytes)
    requires |name| < NAME_MAX
    ensures UpToNul(NameField(name)) == UpToNul(name) && UpToNul(Repeat(0, 155)) == []
  {
    assert name[..|name|] == name;
    UpToNulPadded(name, NAME_MAX - |name|);
  }

  lemma SumVerifies(name: Bytes, size: nat)
    ensures var h := Header(name, size); SumMatches(h, ReadOctal(h[148..156]))
  {
    var sum := Sum(WithSum(name, size, Blanks()));
    assert Pow8(6) == 262144;
    ReadSumField(sum);
    FieldsFound(name, size, SumField(sum));
  }

  lemma SizeReadsBack(name: Bytes, size: nat)
    requires size < SIZE_LIMIT
    ensures ReadOctal(Header(name, size)[124..136]) == Some(size)
  {
    assert Pow8(11) == SIZE_LIMIT;
    FieldReadsBack(size, 12);
    FieldsFound(name, size, SumField(Sum(WithSum(name, size, Blanks()))));
  }

  function NumberAt(h: Bytes, from: nat, to: nat): Option<nat>
    requires from <= to <= |h|
  {
    ReadOctal(h[from..to])
  }

  /** Every entry is owned by user and group 0, was modified at the epoch, and may be read by all and
      written by its owner. */
  lemma OwnershipReadsBack(name: Bytes, size: nat)
    ensures var h := Header(name, size);
            && NumberAt(h, 100, 108) == Some(6 * 64 + 4 * 8 + 4)
            && NumberAt(h, 108, 116) == Some(0) && NumberAt(h, 116, 124) == Some(0) && NumberAt(h, 136, 148) == Some(0)
  {
    var sum := SumField(Sum(WithSum(name, size, Blanks())));
    OwnershipFound(name, size, sum);
    assert Pow8(7) == 2097152;
    FieldReadsBack(0x1A4, 8);
    FieldReadsBack(0, 8);
    FieldReadsBack(0, 12);
  }

  lemma OwnershipFound(name: Bytes, size: nat, sum: Bytes)
    requires |sum| == 8
    ensures var h := WithSum(name, size, sum);
            && h[100..108] == Field(0x1A4, 8) && h[108..116] == Field(0, 8) && h[116..124] == Field(0, 8)
            && h[136..148] == Field(0, 12)
  {
    var h := WithSum(name, size, sum);
    SliceOf(Front(name) + Field(size, 12), Field(0, 12), sum + Tail());
    assert h == Front(name) + Field(size, 12) + Field(0, 12) + (sum + Tail());
    assert h[..124] == Front(name);
    assert h[100..108] == h[..124][100..108] && h[108..116] == h[..124][108..116] && h[116..124] == h[..124][116..124];
    SliceOf(NameField(name), Field(0x1A4, 8), Field(0, 8) + Field(0, 8));
    SliceOf(NameField(name) + Field(0x1A4, 8), Field(0, 8), Field(0, 8));
    assert Front(name) == NameField(name) + Field(0x1A4, 8) + (Field(0, 8) + Field(0, 8));
  }

  /** The standard marks: a regular file, `ustar` and a NUL, and version 00. */
  lemma StandardMarks(name: Bytes, size: nat)
    ensures var h := Header(name, size);
            && h[156] == 48 && h[257..263] == [117, 115, 116, 97, 114, 0] && h[263..265] == [48, 48]
  {
    EdgesFound(name, size);
    var h := Header(name, size);
    assert h[257..263] == h[257..265][..6] && h[263..265] == h[257..265][6..];
  }

  /** What reading an archive yields: names stop at their first NUL. */
  function AsRead(entries: seq<Entry>): (r: seq<Entry>)
    ensures |r| == |entries|
    ensures forall i | 0 <= i < |r| :: r[i] == Entry(UpToNul(entries[i].name), entries[i].payload)
  {
    seq(|entries|, i requires 0 <= i < |entries| => Entry(UpToNul(entries[i].name), entries[i].payload))
  }

  predicate Fits(e: Entry) {
    |e.name| < NAME_MAX && |e.payload| < SIZE_LIMIT
  }

  /** Reading a written archive recovers every payload and every name up to its first NUL. */
  lemma {:induction false} ArchiveReadsBack(entries: seq<Entry>)
    requires forall i | 0 <= i < |entries| :: Fits(entries[i])
    ensures Read(Archive(entries)) == Some(AsRead(entries))
    decreases |entries|
  {
    if entries == [] {
      assert Archive(entries) == Repeat(0, 2 * BLOCK);
      assert Archive(entries)[..BLOCK] == Repeat(0, BLOCK);
      assert Archive(entries)[BLOCK..2 * BLOCK] == Repeat(0, BLOCK);
    } else {
      var e := entries[0];
      assert Fits(e);
      forall i | 0 <= i < |entries[1..]| ensures Fits(entries[1..][i]) {
        assert Fits(entries[i + 1]);
      }
      ArchiveReadsBack(entries[1..]);
      HeaderReadsBack(e.name, |e.payload|);
      NotTheEnd(e.name, |e.payload|);
      ReadStep(Header(e.name, |e.payload|), UpToNul(e.name), e.payload, Archive(entries[1..]), AsRead(entries[1..]));
      ArchiveSplit(entries);
      assert AsRead(entries) == [Entry(UpToNul(e.name), e.payload)] + AsRead(entries[1..]);
    }
  }

  lemma ArchiveSplit(entries: seq<Entry>)
    requires entries != []
    ensures var e := entries[0];
            Archive(entries) == Header(e.name, |e.payload|) + Padded(e.payload) + Archive(entries[1..])
  {
    var e := entries[0];
    Associative(EntryBytes(e.name, e.payload), Body(entries[1..]), Repeat(0, 2 * BLOCK));
    Associative(Header(e.name, |e.payload|), e.payload, Repeat(0, PaddingFor(|e.payload|)));
  }

  lemma NotTheEnd(name: Bytes, size: nat)
    ensures Header(name, size) != Repeat(0, BLOCK)
  {
    TailFound(Header(name, size)[..156]);
    assert Header(name, size)[156] == REGULAR;
  }

  lemma ReadStep(h: Bytes, name: Bytes, payload: Bytes, more: Bytes, rest: seq<Entry>)
    requires |h| == BLOCK && h != Repeat(0, BLOCK) && ReadHeader(h) == Some((name, |payload|))
    requires Read(more) == Some(rest)
    ensures Read(h + Padded(payload) + more) == Some([Entry(name, payload)] + rest)
  {
    var size := |payload|;
    var b := h + Padded(payload) + more;
    assert b[..BLOCK] == h;
    assert b[BLOCK..BLOCK + size] == payload;
    assert b[BLOCK + size + PaddingFor(size)..] == more;
  }

  predicate NulFree(name: Bytes) {
    forall i | 0 <= i < |name| :: name[i] != NUL
  }

  lemma {:induction false} UpToNulIsAll(name: Bytes)
    ensures UpToNul(name) == name <==> NulFree(name)
    ensures |UpToNul(name)| <= |name|
    decreases |name|
  {
    if name != [] && name[0] != NUL {
      UpToNulIsAll(name[1..]);
      assert name == [name[0]] + name[1..];
    }
  }

  /** The exact condition for a faithful round trip: no name holds a NUL. */
  lemma RoundTrip(entries: seq<Entry>)
    requires forall i | 0 <= i < |entries| :: Fits(entries[i])
    ensures Read(Archive(entries)) == Some(entries) <==> forall i | 0 <= i < |entries| :: NulFree(entries[i].name)
  {
    ArchiveReadsBack(entries);
    forall i | 0 <= i < |entries| ensures AsRead(entries)[i] == entries[i] <==> NulFree(entries[i].name) {
      UpToNulIsAll(entries[i].name);
    }
    if forall i | 0 <= i < |entries| :: NulFree(entries[i].name) {
      assert AsRead(entries) == entries;
    }
  }

  lemma PaddedAligned(h: Bytes, payload: Bytes, more: Bytes)
    requires |h| == BLOCK && |more| % BLOCK == 0
    ensures |h + Padded(payload) + more| % BLOCK == 0
  {
  }

  lemma {:induction false} BodyAligned(entries: seq<Entry>)
    ensures |Body(entries)| % BLOCK == 0
    decreases |entries|
  {
    if entries != [] {
      BodyAligned(entries[1..]);
      var e := entries[0];
      PaddedAligned(Header(e.name, |e.payload|), e.payload, Body(entries[1..]));
    }
  }

  /** Every entry, and so every header, starts on a block boundary. */
  lemma Aligned(entries: seq<Entry>)
    ensures |Body(entries)| % BLOCK == 0 && |Archive(entries)| % BLOCK == 0
  {
    BodyAligned(entries);
  }

  // ---------------------------------------------------------------------
  // What the header checksum detects
  // ---------------------------------------------------------------------

  lemma {:induction false} SumUpdate(b: Bytes, i: nat, x: Byte)
    requires i < |b|
    ensures Sum(b[i := x]) == Sum(b) - b[i] + x
    decreases |b|
  {
    var c, n := b[i := x], |b| - 1;
    if i == n {
      assert c[..n] == b[..n];
    } else {
      assert c[..n] == b[..n][i := x];
      SumUpdate(b[..n], i, x);
    }
  }

  /** Damage to any one header byte outside the checksum field is rejected by the reader. */
  lemma HeaderDamageDetected(h: Bytes, i: nat, x: Byte)
    requires |h| == BLOCK && ReadHeader(h).Some?
    requires i < BLOCK && !(148 <= i < 156) && x != h[i]
    ensures ReadHeader(h[i := x]).None?
  {
    var g := h[i := x];
    assert g[148..156] == h[148..156];
    assert Put(g, 148, Blanks()) == Put(h, 148, Blanks())[i := x];
    SumUpdate(Put(h, 148, Blanks()), i, x);
  }
}
