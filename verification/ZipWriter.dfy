/** `pack_wheel` as the source writes it: field by field into a growing stream, with the central list on the
    side. Every write goes to the layout that `Zip` describes and `ZipReader` reads back. */
module ZipWriter {
  import opened Prelude
  import opened Bytes
  import opened Order
  import opened Zip

  type u16 = x: int | 0 <= x < 0x1_0000

  /** The buffered output. Since `start`, the writer has put out the first `done` fields of the header `plan`. */
  class Writer {
    var bytes: seq<byte>
    ghost var start: seq<byte>
    ghost var plan: seq<Field>
    ghost var done: nat

    ghost predicate Valid()
      reads this
    {
      done <= |plan| && bytes == start + EncodeTo(plan, done)
    }

    ghost predicate Awaits(f: Field)
      reads this
    {
      Valid() && done < |plan| && plan[done] == f
    }

    constructor ()
      ensures Valid() && bytes == []
    {
      bytes, start, plan, done := [], [], [], 0;
    }

    /** A header is to be written here. */
    ghost method Begin(header: seq<Field>)
      modifies this`start, this`plan, this`done
      ensures Valid() && start == bytes && plan == header && done == 0
    {
      start, plan, done := bytes, header, 0;
    }

    lemma Finished()
      requires Valid() && done == |plan|
      ensures bytes == start + Encode(plan)
    {
    }

    method WriteU16(value: u16)
      requires Awaits(Field(2, value))
      modifies this`bytes, this`done
      ensures Valid() && done == old(done) + 1
    {
      bytes, done := bytes + LE(value, 2), done + 1;
    }

    method WriteU32(value: u32)
      requires Awaits(Field(4, value))
      modifies this`bytes, this`done
      ensures Valid() && done == old(done) + 1
    {
      bytes, done := bytes + LE(value, 4), done + 1;
    }

    /** The low eight bytes of `value`. */
    method WriteU64(value: nat)
      requires Awaits(Field(8, value))
      modifies this`bytes, this`done
      ensures Valid() && done == old(done) + 1
    {
      bytes, done := bytes + LE(value, 8), done + 1;
    }

    method WriteAll(part: seq<byte>)
      modifies this
      ensures Valid() && bytes == old(bytes) + part
    {
      bytes := bytes + part;
      Begin([]);
    }
  }

  lemma ExtrasAreShort(size: nat, offset: nat)
    ensures |LocalExtra(size)| <= 20 && |CentralExtra(size, offset)| <= 28
  {
  }

  method WriteLocal(writer: Writer, crc: Crc, e: Entry)
    requires writer.Valid() && |e.path| <= U16_MAX
    modifies writer
    ensures writer.Valid() && writer.bytes == old(writer.bytes) + LocalRecord(crc, e)
  {
    ExtrasAreShort(|e.contents|, 0);
    hide LocalFields, LocalExtra, Encode, Writer.Valid;
    var extra := LocalExtra(|e.contents|);
    WriteLocalHeader(writer, crc(e.contents), |e.contents|, |e.path|, |extra|, crc, e);
    writer.WriteAll(e.path);
    writer.WriteAll(extra);
    writer.WriteAll(e.contents);
    InARow(old(writer.bytes), Encode(LocalFields(crc, e)), e.path, extra, e.contents);
  }

  lemma InARow(start: seq<byte>, a: seq<byte>, b: seq<byte>, c: seq<byte>, d: seq<byte>)
    ensures start + a + b + c + d == start + (a + (b + (c + d)))
  {
  }

  lemma LocalPlan(crc: Crc, e: Entry)
    ensures var plan, size := LocalFields(crc, e), |e.contents|;
      && |plan| == 11 && plan[0] == Field(4, LOCAL_SIGNATURE) && plan[1] == Field(2, if NeedsZip64(size) then 45 else 20)
      && plan[2] == Field(2, UTF8_NAMES) && plan[3] == Field(2, 0) && plan[4] == Field(2, 0)
      && plan[5] == Field(2, DOS_DATE_1980) && plan[6] == Field(4, crc(e.contents))
      && plan[7] == Field(4, Capped32(size)) && plan[8] == Field(4, Capped32(size))
      && plan[9] == Field(2, |e.path|) && plan[10] == Field(2, |LocalExtra(size)|)
  {
    hide LocalExtra, Capped32, NeedsZip64;
  }

  method WriteLocalHeader(writer: Writer, crc32: u32, size: nat, nameLength: u16, extraLength: u16,
                          ghost crc: Crc, ghost e: Entry)
    requires writer.Valid() && crc32 == crc(e.contents) && size == |e.contents|
    requires nameLength == |e.path| && extraLength == |LocalExtra(size)|
    modifies writer
    ensures writer.Valid() && writer.bytes == old(writer.bytes) + Encode(LocalFields(crc, e))
  {
    LocalPlan(crc, e);
    hide EncodeTo, LocalExtra, LocalFields, Writer.Valid;
    var zip64 := NeedsZip64(size);
    var size32: u32 := if zip64 then U32_MAX else size;
    hide NeedsZip64;
    writer.Begin(LocalFields(crc, e));
    writer.WriteU32(LOCAL_SIGNATURE);
    writer.WriteU16(if zip64 then 45 else 20);
    writer.WriteU16(UTF8_NAMES);
    writer.WriteU16(0);
    writer.WriteU16(0);
    writer.WriteU16(DOS_DATE_1980);
    writer.WriteU32(crc32);
    writer.WriteU32(size32);
    writer.WriteU32(size32);
    writer.WriteU16(nameLength);
    writer.WriteU16(extraLength);
    writer.Finished();
  }

  /** A row of the central list. */
  datatype ZipEntry = ZipEntry(path: seq<byte>, crc32: u32, size: nat, offset: nat)

  predicate Describes(row: ZipEntry, crc: Crc, e: Entry, offset: nat) {
    row.path == e.path && row.crc32 == crc(e.contents) && row.size == |e.contents| && row.offset == offset
  }

  /** The central list describes the first entries, each at the offset of its local record. */
  predicate DescribesAll(central: seq<ZipEntry>, crc: Crc, entries: seq<Entry>) {
    && |central| <= |entries|
    && forall j | 0 <= j < |central| :: Describes(central[j], crc, entries[j], |Locals(crc, entries, j)|)
  }

  lemma NoneDescribed(crc: Crc, entries: seq<Entry>)
    ensures DescribesAll([], crc, entries)
  {
  }

  lemma DescribesOneMore(central: seq<ZipEntry>, row: ZipEntry, crc: Crc, entries: seq<Entry>)
    requires DescribesAll(central, crc, entries) && |central| < |entries|
    requires Describes(row, crc, entries[|central|], |Locals(crc, entries, |central|)|)
    ensures DescribesAll(central + [row], crc, entries)
  {
    hide Describes, Locals;
  }

  method WriteCentral(writer: Writer, row: ZipEntry, ghost crc: Crc, ghost e: Entry)
    requires writer.Valid() && |row.path| <= U16_MAX
    requires Describes(row, crc, e, row.offset)
    modifies writer
    ensures writer.Valid() && writer.bytes == old(writer.bytes) + CentralRecord(crc, e, row.offset)
  {
    hide CentralFields, CentralExtra, EncodeTo;
    var extra := CentralExtra(row.size, row.offset);
    WriteCentralHeader(writer, row, extra, crc, e);
    writer.WriteAll(row.path);
    writer.WriteAll(extra);
  }

  lemma CentralPlan(crc: Crc, e: Entry, offset: nat)
    ensures var plan, size := CentralFields(crc, e, offset), |e.contents|;
      && |plan| == 17 && plan[0] == Field(4, CENTRAL_SIGNATURE) && plan[1] == Field(2, MADE_BY_UNIX)
      && plan[2] == Field(2, if NeedsZip64(size) || NeedsZip64(offset) then 45 else 20)
      && plan[3] == Field(2, UTF8_NAMES) && plan[4] == Field(2, 0) && plan[5] == Field(2, 0)
      && plan[6] == Field(2, DOS_DATE_1980) && plan[7] == Field(4, crc(e.contents))
      && plan[8] == Field(4, Capped32(size)) && plan[9] == Field(4, Capped32(size))
      && plan[10] == Field(2, |e.path|) && plan[11] == Field(2, |CentralExtra(size, offset)|)
      && plan[12] == Field(2, 0) && plan[13] == Field(2, 0) && plan[14] == Field(2, 0)
      && plan[15] == Field(4, FILE_MODE) && plan[16] == Field(4, Capped32(offset))
  {
    hide CentralExtra, Capped32, NeedsZip64;
  }

  method WriteCentralHeader(writer: Writer, row: ZipEntry, extra: seq<byte>, ghost crc: Crc, ghost e: Entry)
    requires writer.Valid() && |row.path| <= U16_MAX && extra == CentralExtra(row.size, row.offset)
    requires Describes(row, crc, e, row.offset)
    modifies writer
    ensures writer.Valid() && writer.bytes == old(writer.bytes) + Encode(CentralFields(crc, e, row.offset))
  {
    ExtrasAreShort(row.size, row.offset);
    CentralPlan(crc, e, row.offset);
    hide EncodeTo, CentralExtra, CentralFields, Writer.Valid;
    var size64, offset64 := NeedsZip64(row.size), NeedsZip64(row.offset);
    var size32: u32 := if size64 then U32_MAX else row.size;
    var offset32: u32 := if offset64 then U32_MAX else row.offset;
    hide NeedsZip64;
    writer.Begin(CentralFields(crc, e, row.offset));
    writer.WriteU32(CENTRAL_SIGNATURE);
    writer.WriteU16(MADE_BY_UNIX);
    writer.WriteU16(if size64 || offset64 then 45 else 20);
    writer.WriteU16(UTF8_NAMES);
    writer.WriteU16(0);
    writer.WriteU16(0);
    writer.WriteU16(DOS_DATE_1980);
    writer.WriteU32(row.crc32);
    writer.WriteU32(size32);
    writer.WriteU32(size32);
    writer.WriteU16(|row.path|);
    writer.WriteU16(|extra|);
    writer.WriteU16(0);
    writer.WriteU16(0);
    writer.WriteU16(0);
    writer.WriteU32(FILE_MODE);
    writer.WriteU32(offset32);
    writer.Finished();
  }

  method WriteEnd64(writer: Writer, count: nat, size: nat, offset: nat)
    requires writer.Valid()
    modifies writer
    ensures writer.Valid()
    ensures writer.bytes ==
      old(writer.bytes) + Encode(End64Fields(count, size, offset)) + Encode(LocatorFields(|old(writer.bytes)|))
  {
    hide EncodeTo, Writer.Valid;
    var end64 := |writer.bytes|;
    writer.Begin(End64Fields(count, size, offset));
    writer.WriteU32(END64_SIGNATURE);
    writer.WriteU64(44);
    writer.WriteU16(MADE_BY_UNIX);
    writer.WriteU16(45);
    writer.WriteU32(0);
    writer.WriteU32(0);
    writer.WriteU64(count);
    writer.WriteU64(count);
    writer.WriteU64(size);
    writer.WriteU64(offset);
    writer.Finished();
    WriteLocator(writer, end64);
  }

  method WriteLocator(writer: Writer, end64: nat)
    requires writer.Valid()
    modifies writer
    ensures writer.Valid() && writer.bytes == old(writer.bytes) + Encode(LocatorFields(end64))
  {
    hide EncodeTo;
    writer.Begin(LocatorFields(end64));
    writer.WriteU32(LOCATOR_SIGNATURE);
    writer.WriteU32(0);
    writer.WriteU64(end64);
    writer.WriteU32(1);
  }

  /** `u32::try_from(n).unwrap_or(u32::MAX)` and its 16-bit sibling: the caps, by another route. */
  function Saturated32(n: nat): (r: u32)
    ensures r == Capped32(n)
  {
    if n <= U32_MAX then n else U32_MAX
  }

  function Saturated16(n: nat): (r: u16)
    ensures r == Capped16(n)
  {
    if n <= U16_MAX then n else U16_MAX
  }

  method WriteEnd(writer: Writer, count: nat, size: nat, offset: nat)
    requires writer.Valid()
    modifies writer
    ensures writer.Valid() && writer.bytes == old(writer.bytes) + Encode(EndFields(count, size, offset))
  {
    hide EncodeTo;
    writer.Begin(EndFields(count, size, offset));
    writer.WriteU32(END_SIGNATURE);
    writer.WriteU16(0);
    writer.WriteU16(0);
    writer.WriteU16(Saturated16(count));
    writer.WriteU16(Saturated16(count));
    writer.WriteU32(Saturated32(size));
    writer.WriteU32(Saturated32(offset));
    writer.WriteU16(0);
  }

  /** `sorted_entries`: sort, then look for equal neighbours. */
  method SortedEntries(entries: seq<Entry>) returns (r: Result<seq<Entry>, PackError>)
    ensures r == if DistinctPaths(entries) then Ok(Sorted(entries)) else Err(DuplicatePaths)
  {
    hide Sorted, PathLess, DistinctPaths;
    var sorted := Sorted(entries);
    SortedIsAscending(entries);
    var i := 1;
    while i < |sorted|
      invariant 1 <= i
      invariant forall j | 1 <= j < i && j < |sorted| :: PathLess(sorted[j - 1], sorted[j])
    {
      if sorted[i - 1].path == sorted[i].path {
        RepeatedPath(sorted, i - 1, i);
        return Err(DuplicatePaths);
      }
      NeighboursDiffer(sorted, i);
      i := i + 1;
    }
    NeighboursSuffice(sorted);
    return Ok(sorted);
  }

  lemma SortedIsAscending(entries: seq<Entry>)
    ensures Ascending(PathLess, Sorted(entries)) && (DistinctPaths(Sorted(entries)) <==> DistinctPaths(entries))
  {
    PathLessIsWeak();
    SortMultiset(PathLess, entries);
    SortAscending(PathLess, entries);
    DistinctIsOfTheBag(entries);
    DistinctIsOfTheBag(Sorted(entries));
  }

  lemma RepeatedPath(entries: seq<Entry>, i: nat, j: nat)
    requires i < j < |entries| && entries[i].path == entries[j].path
    ensures !DistinctPaths(entries)
  {
  }

  lemma NeighboursDiffer(entries: seq<Entry>, i: nat)
    requires Ascending(PathLess, entries) && 0 < i < |entries| && entries[i - 1].path != entries[i].path
    ensures PathLess(entries[i - 1], entries[i])
  {
    BytesLessIsTotal();
  }

  lemma NeighboursSuffice(entries: seq<Entry>)
    requires forall j | 1 <= j < |entries| :: PathLess(entries[j - 1], entries[j])
    ensures DistinctPaths(entries)
  {
    PathLessIsWeak();
    forall i, j | 0 <= i < j < |entries| ensures entries[i].path != entries[j].path {
      ChainAscends(entries, i, j);
    }
  }

  lemma {:induction false} ChainAscends(entries: seq<Entry>, i: nat, j: nat)
    requires forall j | 1 <= j < |entries| :: PathLess(entries[j - 1], entries[j])
    requires WeakOrder(PathLess) && i < j < |entries|
    ensures PathLess(entries[i], entries[j])
  {
    if i < j - 1 {
      ChainAscends(entries, i, j - 1);
    }
    assert PathLess(entries[j - 1], entries[j]);
  }

  /** The whole writer computes the layout, or refuses, exactly as specified. */
  method PackWheel(crc: Crc, input: seq<Entry>) returns (r: Result<seq<byte>, PackError>)
    ensures r == Packed(crc, input)
  {
    hide Locals, Layout, NamesFit, DistinctPaths, Sorted, DescribesAll, Encode;
    var checked := SortedEntries(input);
    if checked.Err? {
      return Err(DuplicatePaths);
    }
    var entries := checked.value;
    SortedNames(input);
    var writer := new Writer();
    var written := WriteLocals(writer, crc, entries);
    if written.Err? {
      return Err(NameTooLong);
    }
    var bytes := FinishWheel(writer, crc, entries, written.value);
    return Ok(bytes);
  }

  /** The first loop: local records go out, the central list grows. */
  method WriteLocals(writer: Writer, crc: Crc, entries: seq<Entry>) returns (r: Result<seq<ZipEntry>, PackError>)
    requires writer.Valid() && writer.bytes == []
    modifies writer
    ensures writer.Valid() && (r.Ok? <==> NamesFit(entries)) && (r.Err? ==> r.error == NameTooLong)
    ensures r.Ok? ==> |r.value| == |entries| && DescribesAll(r.value, crc, entries)
    ensures r.Ok? ==> writer.bytes == Locals(crc, entries, |entries|)
  {
    hide LocalRecord, Encode, EncodeTo, DescribesAll, Writer.Valid;
    NoneDescribed(crc, entries);
    var central: seq<ZipEntry> := [];
    for i := 0 to |entries|
      invariant writer.Valid() && writer.bytes == Locals(crc, entries, i)
      invariant |central| == i && DescribesAll(central, crc, entries)
      invariant forall j | 0 <= j < i :: |entries[j].path| <= U16_MAX
    {
      var e := entries[i];
      if |e.path| > U16_MAX {
        return Err(NameTooLong);
      }
      var row := ZipEntry(e.path, crc(e.contents), |e.contents|, |writer.bytes|);
      DescribesOneMore(central, row, crc, entries);
      central := central + [row];
      WriteLocal(writer, crc, e);
    }
    return Ok(central);
  }

  lemma SortedNames(input: seq<Entry>)
    requires DistinctPaths(input)
    ensures NamesFit(Sorted(input)) <==> NamesFit(input)
  {
    SortedIsStrict(input);
    if NamesFit(input) {
      NamesFitOfTheBag(input, Sorted(input));
    }
    if NamesFit(Sorted(input)) {
      NamesFitOfTheBag(Sorted(input), input);
    }
  }

  /** The central directory and the end records. */
  method FinishWheel(writer: Writer, crc: Crc, ghost entries: seq<Entry>, central: seq<ZipEntry>)
    returns (bytes: seq<byte>)
    requires writer.Valid() && writer.bytes == Locals(crc, entries, |entries|) && NamesFit(entries)
    requires |central| == |entries| && DescribesAll(central, crc, entries)
    modifies writer
    ensures bytes == Layout(crc, entries)
  {
    hide LocalRecord, Locals, Centrals, Trailer, Encode;
    var offset := |writer.bytes|;
    WriteCentrals(writer, crc, entries, central);
    var size := |writer.bytes| - offset;
    WriteTrailer(writer, crc, entries, central, size, offset);
    return writer.bytes;
  }

  method WriteCentrals(writer: Writer, crc: Crc, ghost entries: seq<Entry>, central: seq<ZipEntry>)
    requires writer.Valid() && NamesFit(entries) && |central| == |entries| && DescribesAll(central, crc, entries)
    modifies writer
    ensures writer.Valid() && writer.bytes == old(writer.bytes) + Centrals(crc, entries, |entries|)
  {
    hide LocalRecord, Locals, CentralRecord, Encode, EncodeTo;
    for i := 0 to |central|
      invariant writer.Valid() && writer.bytes == old(writer.bytes) + Centrals(crc, entries, i)
    {
      assert Describes(central[i], crc, entries[i], |Locals(crc, entries, i)|);
      WriteCentral(writer, central[i], crc, entries[i]);
    }
  }

  method WriteTrailer(writer: Writer, crc: Crc, ghost entries: seq<Entry>, central: seq<ZipEntry>, size: nat, offset: nat)
    requires writer.Valid() && |writer.bytes| == offset + size
    requires |central| == |entries| && DescribesAll(central, crc, entries)
    modifies writer
    ensures writer.Valid() && writer.bytes == old(writer.bytes) + Trailer(crc, entries, size, offset)
  {
    hide Locals, Encode, EncodeTo, NeedsZip64, DescribesAll;
    var zip64 :=
      || NeedsZip64Count(|central|) || NeedsZip64(offset) || NeedsZip64(size)
      || exists i | 0 <= i < |central| :: NeedsZip64(central[i].size) || NeedsZip64(central[i].offset);
    RowsDecide(crc, entries, central);
    assert zip64 == EmitsEnd64(crc, entries, size, offset);
    hide EmitsEnd64;
    if zip64 {
      WriteEnd64(writer, |central|, size, offset);
    }
    WriteEnd(writer, |central|, size, offset);
  }

  lemma RowsDecide(crc: Crc, entries: seq<Entry>, central: seq<ZipEntry>)
    requires |central| == |entries| && DescribesAll(central, crc, entries)
    ensures (exists i | 0 <= i < |central| :: NeedsZip64(central[i].size) || NeedsZip64(central[i].offset))
       <==> exists i | 0 <= i < |entries| :: NeedsZip64(|entries[i].contents|) || NeedsZip64(|Locals(crc, entries, i)|)
  {
    forall i | 0 <= i < |entries|
      ensures NeedsZip64(central[i].size) == NeedsZip64(|entries[i].contents|)
      ensures NeedsZip64(central[i].offset) == NeedsZip64(|Locals(crc, entries, i)|)
    {
      assert Describes(central[i], crc, entries[i], |Locals(crc, entries, i)|);
    }
  }
}
