/** The deterministic ZIP/ZIP64 writer of crates/ost-build/src/consumer_archive.rs: the bytes it lays out.
    CRC-32 is the parameter `crc`; integers are unbounded, and the archive is shorter than 2^64 bytes wherever a
    statement needs it. */
module Zip {
  import opened Prelude
  import opened Bytes
  import opened Order

  type u32 = x: int | 0 <= x < 0x1_0000_0000

  type Crc = seq<byte> -> u32

  /** A path inside the archive as UTF-8 bytes, and the file's contents. */
  datatype Entry = Entry(path: seq<byte>, contents: seq<byte>)

  datatype PackError = DuplicatePaths | NameTooLong

  const U16_MAX: nat := 0xffff
  const U32_MAX: nat := 0xffff_ffff

  const LOCAL_SIGNATURE: nat := 0x0403_4b50
  const CENTRAL_SIGNATURE: nat := 0x0201_4b50
  const END_SIGNATURE: nat := 0x0605_4b50
  const END64_SIGNATURE: nat := 0x0606_4b50
  const LOCATOR_SIGNATURE: nat := 0x0706_4b50

  const UTF8_NAMES: nat := 0x0800
  const DOS_DATE_1980: nat := 0x21
  const MADE_BY_UNIX: nat := 0x031e
  const FILE_MODE: nat := 0x81a4_0000 // 0o100644 << 16

  // ---------------------------------------------------------------------------------------
  // Sorting
  // ---------------------------------------------------------------------------------------

  predicate PathLess(a: Entry, b: Entry) {
    BytesLess(a.path, b.path)
  }

  function Sorted(entries: seq<Entry>): seq<Entry> {
    Sort(PathLess, entries)
  }

  predicate DistinctPaths(entries: seq<Entry>) {
    forall i, j | 0 <= i < j < |entries| :: entries[i].path != entries[j].path
  }

  // ---------------------------------------------------------------------------------------
  // Layout (APPNOTE 4.3.7, 4.3.12, 4.3.14, 4.3.15, 4.3.16, 4.5.3)
  // ---------------------------------------------------------------------------------------

  predicate NeedsZip64(value: nat) {
    value >= U32_MAX
  }

  predicate NeedsZip64Count(value: nat) {
    value >= U16_MAX
  }

  /** The 32-bit field for a value that may need ZIP64. */
  function Capped32(value: nat): nat {
    if NeedsZip64(value) then U32_MAX else value
  }

  function Capped16(value: nat): nat {
    if NeedsZip64Count(value) then U16_MAX else value
  }

  /** An extra-field block with the ZIP64 header id (4.5.3). */
  function Zip64Block(body: seq<byte>): seq<byte> {
    LE(1, 2) + (LE(|body|, 2) + body)
  }

  function LocalExtra(size: nat): seq<byte> {
    if NeedsZip64(size) then Zip64Block(LE(size, 8) + LE(size, 8)) else []
  }

  function LocalFields(crc: Crc, e: Entry): seq<Field> {
    var size := |e.contents|;
    [Field(4, LOCAL_SIGNATURE), Field(2, if NeedsZip64(size) then 45 else 20), Field(2, UTF8_NAMES), Field(2, 0),
     Field(2, 0), Field(2, DOS_DATE_1980), Field(4, crc(e.contents)), Field(4, Capped32(size)),
     Field(4, Capped32(size)), Field(2, |e.path|), Field(2, |LocalExtra(size)|)]
  }

  function LocalRecord(crc: Crc, e: Entry): seq<byte> {
    Encode(LocalFields(crc, e)) + (e.path + (LocalExtra(|e.contents|) + e.contents))
  }

  /** The local records of the first `n` entries. */
  function Locals(crc: Crc, entries: seq<Entry>, n: nat): seq<byte>
    requires n <= |entries|
  {
    if n == 0 then [] else Locals(crc, entries, n - 1) + LocalRecord(crc, entries[n - 1])
  }

  function CentralBody(size: nat, offset: nat): seq<byte> {
    (if NeedsZip64(size) then LE(size, 8) + LE(size, 8) else []) + (if NeedsZip64(offset) then LE(offset, 8) else [])
  }

  function CentralExtra(size: nat, offset: nat): seq<byte> {
    if NeedsZip64(size) || NeedsZip64(offset) then Zip64Block(CentralBody(size, offset)) else []
  }

  function CentralFields(crc: Crc, e: Entry, offset: nat): seq<Field> {
    var size := |e.contents|;
    [Field(4, CENTRAL_SIGNATURE), Field(2, MADE_BY_UNIX),
     Field(2, if NeedsZip64(size) || NeedsZip64(offset) then 45 else 20), Field(2, UTF8_NAMES), Field(2, 0),
     Field(2, 0), Field(2, DOS_DATE_1980), Field(4, crc(e.contents)), Field(4, Capped32(size)),
     Field(4, Capped32(size)), Field(2, |e.path|), Field(2, |CentralExtra(size, offset)|), Field(2, 0), Field(2, 0),
     Field(2, 0), Field(4, FILE_MODE), Field(4, Capped32(offset))]
  }

  function CentralRecord(crc: Crc, e: Entry, offset: nat): seq<byte> {
    Encode(CentralFields(crc, e, offset)) + (e.path + CentralExtra(|e.contents|, offset))
  }

  /** The central records of the first `n` entries, each with the offset of its local record. */
  function Centrals(crc: Crc, entries: seq<Entry>, n: nat): seq<byte>
    requires n <= |entries|
  {
    if n == 0 then []
    else Centrals(crc, entries, n - 1) + CentralRecord(crc, entries[n - 1], |Locals(crc, entries, n - 1)|)
  }

  function End64Fields(count: nat, size: nat, offset: nat): seq<Field> {
    [Field(4, END64_SIGNATURE), Field(8, 44), Field(2, MADE_BY_UNIX), Field(2, 45), Field(4, 0), Field(4, 0),
     Field(8, count), Field(8, count), Field(8, size), Field(8, offset)]
  }

  function LocatorFields(end64: nat): seq<Field> {
    [Field(4, LOCATOR_SIGNATURE), Field(4, 0), Field(8, end64), Field(4, 1)]
  }

  function EndFields(count: nat, size: nat, offset: nat): seq<Field> {
    [Field(4, END_SIGNATURE), Field(2, 0), Field(2, 0), Field(2, Capped16(count)), Field(2, Capped16(count)),
     Field(4, Capped32(size)), Field(4, Capped32(offset)), Field(2, 0)]
  }

  /** Whether the writer emits the ZIP64 end record: its own four-way test. */
  predicate EmitsEnd64(crc: Crc, entries: seq<Entry>, size: nat, offset: nat) {
    || NeedsZip64Count(|entries|) || NeedsZip64(offset) || NeedsZip64(size)
    || exists i | 0 <= i < |entries| :: NeedsZip64(|entries[i].contents|) || NeedsZip64(|Locals(crc, entries, i)|)
  }

  function Trailer(crc: Crc, entries: seq<Entry>, size: nat, offset: nat): seq<byte> {
    (if EmitsEnd64(crc, entries, size, offset)
     then Encode(End64Fields(|entries|, size, offset)) + Encode(LocatorFields(offset + size)) else [])
    + Encode(EndFields(|entries|, size, offset))
  }

  /** The whole archive of an already sorted list. */
  function Layout(crc: Crc, entries: seq<Entry>): seq<byte> {
    var locals, centrals := Locals(crc, entries, |entries|), Centrals(crc, entries, |entries|);
    locals + (centrals + Trailer(crc, entries, |centrals|, |locals|))
  }

  predicate NamesFit(entries: seq<Entry>) {
    forall i | 0 <= i < |entries| :: |entries[i].path| <= U16_MAX
  }

  function Packed(crc: Crc, entries: seq<Entry>): Result<seq<byte>, PackError> {
    if !DistinctPaths(entries) then Err(DuplicatePaths)
    else if !NamesFit(entries) then Err(NameTooLong)
    else Ok(Layout(crc, Sorted(entries)))
  }

  // ---------------------------------------------------------------------------------------
  // The order of the input does not matter
  // ---------------------------------------------------------------------------------------

  lemma PathLessIsWeak()
    ensures WeakOrder(PathLess)
  {
    BytesLessIsTotal();
    forall a: Entry ensures !PathLess(a, a) {
      assert !BytesLess(a.path, a.path);
    }
    forall a: Entry, b: Entry, c: Entry | PathLess(a, b) && PathLess(b, c) ensures PathLess(a, c) {
      assert BytesLess(a.path, b.path) && BytesLess(b.path, c.path);
    }
    forall a: Entry, b: Entry, c: Entry | !PathLess(a, b) && !PathLess(b, c) ensures !PathLess(a, c) {
      assert !BytesLess(a.path, b.path) && !BytesLess(b.path, c.path);
    }
  }

  /** Distinctness of paths, read off the bag of entries. */
  ghost predicate DistinctBag(bag: multiset<Entry>) {
    && (forall e :: bag[e] <= 1)
    && (forall e, f | e in bag && f in bag && e.path == f.path :: e == f)
  }

  lemma TwiceInTheBag(entries: seq<Entry>, i: nat, j: nat)
    requires i < j < |entries| && entries[i] == entries[j]
    ensures multiset(entries)[entries[i]] >= 2
  {
    assert entries == entries[..j] + entries[j..];
    assert entries[i] in entries[..j] && entries[j] in entries[j..];
  }

  lemma DistinctIsOfTheBag(entries: seq<Entry>)
    ensures DistinctPaths(entries) <==> DistinctBag(multiset(entries))
  {
    if DistinctBag(multiset(entries)) {
      forall i, j | 0 <= i < j < |entries| ensures entries[i].path != entries[j].path {
        assert entries[i] in multiset(entries) && entries[j] in multiset(entries);
        if entries[i] == entries[j] {
          TwiceInTheBag(entries, i, j);
        }
      }
    }
    if DistinctPaths(entries) {
      forall e ensures multiset(entries)[e] <= 1 {
        if e in entries {
          var i :| 0 <= i < |entries| && entries[i] == e;
          assert entries == entries[..i] + [e] + entries[i + 1..];
          assert e !in entries[..i] && e !in entries[i + 1..];
        }
      }
      forall e, f | e in multiset(entries) && f in multiset(entries) && e.path == f.path ensures e == f {
        var i :| 0 <= i < |entries| && entries[i] == e;
        var j :| 0 <= j < |entries| && entries[j] == f;
      }
    }
  }

  /** Sorting distinct paths gives the one strictly ascending arrangement. */
  lemma SortedIsStrict(entries: seq<Entry>)
    requires DistinctPaths(entries)
    ensures StrictlyAscending(PathLess, Sorted(entries)) && DistinctPaths(Sorted(entries))
    ensures multiset(Sorted(entries)) == multiset(entries)
  {
    PathLessIsWeak();
    SortMultiset(PathLess, entries);
    SortAscending(PathLess, entries);
    DistinctIsOfTheBag(entries);
    DistinctIsOfTheBag(Sorted(entries));
    BytesLessIsTotal();
    var sorted := Sorted(entries);
    forall i, j | 0 <= i < j < |sorted| ensures PathLess(sorted[i], sorted[j]) {
      assert !PathLess(sorted[j], sorted[i]) && sorted[i].path != sorted[j].path;
    }
  }

  lemma NamesFitOfTheBag(a: seq<Entry>, b: seq<Entry>)
    requires multiset(a) == multiset(b) && NamesFit(a)
    ensures NamesFit(b)
  {
    forall i | 0 <= i < |b| ensures |b[i].path| <= U16_MAX {
      assert b[i] in multiset(a);
    }
  }

  /** Any permutation of the input gives the same bytes, or the same refusal. */
  lemma PackingIgnoresOrder(crc: Crc, a: seq<Entry>, b: seq<Entry>)
    requires multiset(a) == multiset(b)
    ensures Packed(crc, a) == Packed(crc, b)
  {
    DistinctIsOfTheBag(a);
    DistinctIsOfTheBag(b);
    if NamesFit(a) {
      NamesFitOfTheBag(a, b);
    }
    if NamesFit(b) {
      NamesFitOfTheBag(b, a);
    }
    if DistinctPaths(a) {
      SortedIsStrict(a);
      SortedIsStrict(b);
      PathLessIsWeak();
      AscendingUnique(PathLess, Sorted(a), Sorted(b));
    }
  }
}
