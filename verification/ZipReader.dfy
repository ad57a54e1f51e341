/** A reader that follows APPNOTE 4.3.7-4.3.16 and 4.5.3, and the proof that it recovers every packed archive. */
module ZipReader {
  import opened Prelude
  import opened Bytes
  import opened Order
  import opened Zip

  const LOCAL: seq<nat> := [4, 2, 2, 2, 2, 2, 4, 4, 4, 2, 2]
  const CENTRAL: seq<nat> := [4, 2, 2, 2, 2, 2, 2, 4, 4, 4, 2, 2, 2, 2, 2, 4, 4]
  const END: seq<nat> := [4, 2, 2, 2, 2, 4, 4, 2]
  const END64: seq<nat> := [4, 8, 2, 2, 4, 4, 8, 8, 8, 8]
  const LOCATOR: seq<nat> := [4, 4, 8, 4]

  const LOCAL_SIZE: nat := 30
  const CENTRAL_SIZE: nat := 46
  const END_SIZE: nat := 22
  const END64_SIZE: nat := 56
  const LOCATOR_SIZE: nat := 20

  function LocalHeader(bytes: seq<byte>, pos: nat): (r: Option<seq<nat>>)
    ensures r.Some? ==> |r.value| == 11
  {
    ReadFields(bytes, pos, LOCAL, 11)
  }

  function CentralHeader(bytes: seq<byte>, pos: nat): (r: Option<seq<nat>>)
    ensures r.Some? ==> |r.value| == 17
  {
    ReadFields(bytes, pos, CENTRAL, 17)
  }

  function EndHeader(bytes: seq<byte>, pos: nat): (r: Option<seq<nat>>)
    ensures r.Some? ==> |r.value| == 8
  {
    ReadFields(bytes, pos, END, 8)
  }

  function End64Header(bytes: seq<byte>, pos: nat): (r: Option<seq<nat>>)
    ensures r.Some? ==> |r.value| == 10
  {
    ReadFields(bytes, pos, END64, 10)
  }

  function LocatorHeader(bytes: seq<byte>, pos: nat): (r: Option<seq<nat>>)
    ensures r.Some? ==> |r.value| == 4
  {
    ReadFields(bytes, pos, LOCATOR, 4)
  }

  /** What a reader learns about one file. */
  datatype Member = Member(path: seq<byte>, crc: nat, size: nat, contents: seq<byte>, dosTime: nat, dosDate: nat, attributes: nat)

  /** The data of the extra-field block with that header id. */
  function FindBlock(extra: seq<byte>, id: nat): Option<seq<byte>> {
    if |extra| < 4 then None
    else
      var blockId, len := FromLE(extra[..2]), FromLE(extra[2..4]);
      if 4 + len > |extra| then None
      else if blockId == id then Some(extra[4..4 + len])
      else FindBlock(extra[4 + len..], id)
  }

  /** The sizes and offset behind a header's 32-bit fields: a field holding the sentinel is taken, in the order
      of 4.5.3, from the ZIP64 block, which must then hold it. */
  datatype Wide = Wide(size: nat, compressed: nat, offset: nat)

  function Widen(size: nat, compressed: nat, offset: nat, extra: seq<byte>): Option<Wide> {
    if size != U32_MAX && compressed != U32_MAX && offset != U32_MAX then Some(Wide(size, compressed, offset))
    else
      var block := FindBlock(extra, 1);
      if block.None? then None
      else
        var data := block.value;
        var a := if size == U32_MAX then 8 else 0;
        var b := a + if compressed == U32_MAX then 8 else 0;
        var c := b + if offset == U32_MAX then 8 else 0;
        if c > |data| then None
        else Some(Wide(if a > 0 then FromLE(data[..a]) else size,
                       if b > a then FromLE(data[a..b]) else compressed,
                       if c > b then FromLE(data[b..c]) else offset))
  }

  datatype LocalInfo = LocalInfo(path: seq<byte>, crc: nat, size: nat, data: nat)

  /** A local header (4.3.7): name, crc, size, and where the stored data begins. */
  function ReadLocal(bytes: seq<byte>, pos: nat): Option<LocalInfo> {
    var h := LocalHeader(bytes, pos);
    if h.None? then None
    else
      var f := h.value;
      var name := pos + LOCAL_SIZE;
      var extra := name + f[9];
      var data := extra + f[10];
      if f[0] != LOCAL_SIGNATURE || f[2] != UTF8_NAMES || f[3] != 0 || data > |bytes| then None
      else
        var wide := Widen(f[8], f[7], 0, bytes[extra..data]);
        if wide.None? || wide.value.size != wide.value.compressed then None
        else Some(LocalInfo(bytes[name..extra], f[6], wide.value.size, data))
  }

  datatype Step = Step(member: Member, next: nat)

  datatype CentralInfo = CentralInfo(path: seq<byte>, crc: nat, wide: Wide, dosTime: nat, dosDate: nat, attributes: nat, next: nat)

  /** A central header (4.3.12). */
  function ReadCentral(bytes: seq<byte>, pos: nat): Option<CentralInfo> {
    var h := CentralHeader(bytes, pos);
    if h.None? then None
    else
      var f := h.value;
      var name := pos + CENTRAL_SIZE;
      var extra := name + f[10];
      var comment := extra + f[11];
      var next := comment + f[12];
      if f[0] != CENTRAL_SIGNATURE || f[3] != UTF8_NAMES || f[4] != 0 || f[13] != 0 || next > |bytes| then None
      else
        var wide := Widen(f[9], f[8], f[16], bytes[extra..comment]);
        if wide.None? then None
        else Some(CentralInfo(bytes[name..extra], f[7], wide.value, f[5], f[6], f[15], next))
  }

  /** A central header together with the file it points to; both headers must tell the same story. */
  function ReadMember(bytes: seq<byte>, pos: nat): Option<Step> {
    var central := ReadCentral(bytes, pos);
    if central.None? then None
    else
      var c := central.value;
      var size, local := c.wide.size, ReadLocal(bytes, c.wide.offset);
      if local.None? || local.value.path != c.path || local.value.crc != c.crc || local.value.size != size
         || c.wide.compressed != size || local.value.data + size > |bytes| then None
      else
        var contents := bytes[local.value.data..local.value.data + size];
        Some(Step(Member(c.path, c.crc, size, contents, c.dosTime, c.dosDate, c.attributes), c.next))
  }

  /** `count` central headers in a row, which must end exactly at `end`. */
  function ReadMembers(bytes: seq<byte>, pos: nat, count: nat, end: nat): Option<seq<Member>>
    decreases count
  {
    if count == 0 then (if pos == end then Some([]) else None)
    else
      var step := ReadMember(bytes, pos);
      if step.None? then None
      else
        var rest := ReadMembers(bytes, step.value.next, count - 1, end);
        if rest.None? then None else Some([step.value.member] + rest.value)
  }

  /** Search backwards for the end record (4.3.16): its comment must reach the end of the file. */
  function FindEnd(bytes: seq<byte>, pos: nat): Option<nat> {
    var h := EndHeader(bytes, pos);
    if h.Some? && h.value[0] == END_SIGNATURE && pos + END_SIZE + h.value[7] == |bytes| then Some(pos)
    else if pos == 0 then None
    else FindEnd(bytes, pos - 1)
  }

  datatype Directory = Directory(count: nat, size: nat, offset: nat)

  /** The ZIP64 end record (4.3.14) that the locator (4.3.15) in front of the end record points to. */
  function ReadEnd64(bytes: seq<byte>, end: nat): Option<Directory> {
    if end < LOCATOR_SIZE then None
    else
      var l := LocatorHeader(bytes, end - LOCATOR_SIZE);
      if l.None? || l.value[0] != LOCATOR_SIGNATURE || l.value[1] != 0 || l.value[3] != 1 then None
      else
        var z := End64Header(bytes, l.value[2]);
        if z.None? || z.value[0] != END64_SIGNATURE || z.value[1] < 44 || z.value[4] != 0 || z.value[5] != 0
           || z.value[6] != z.value[7] then None
        else Some(Directory(z.value[7], z.value[8], z.value[9]))
  }

  /** Where the central directory is: each field of the end record that holds its sentinel is taken from the
      ZIP64 record, which must then be there. */
  function ReadEnd(bytes: seq<byte>, end: nat): Option<Directory> {
    var h := EndHeader(bytes, end);
    if h.None? || h.value[1] != 0 || h.value[2] != 0 || h.value[3] != h.value[4] then None
    else
      var f := h.value;
      if f[4] != U16_MAX && f[5] != U32_MAX && f[6] != U32_MAX then Some(Directory(f[4], f[5], f[6]))
      else
        var wide := ReadEnd64(bytes, end);
        if wide.None? then None
        else Some(Directory(if f[4] == U16_MAX then wide.value.count else f[4],
                            if f[5] == U32_MAX then wide.value.size else f[5],
                            if f[6] == U32_MAX then wide.value.offset else f[6]))
  }

  function ReadZip(bytes: seq<byte>): Option<seq<Member>> {
    if |bytes| < END_SIZE then None
    else
      var end := FindEnd(bytes, |bytes| - END_SIZE);
      if end.None? then None
      else
        var dir := ReadEnd(bytes, end.value);
        if dir.None? then None
        else ReadMembers(bytes, dir.value.offset, dir.value.count, dir.value.offset + dir.value.size)
  }

  // ---------------------------------------------------------------------------------------
  // Header sizes
  // ---------------------------------------------------------------------------------------

  /** The layouts add up to the sizes APPNOTE gives. */
  lemma HeaderSizes()
    ensures Offset(LOCAL, 11) == LOCAL_SIZE && Offset(CENTRAL, 17) == CENTRAL_SIZE
    ensures Offset(END, 8) == END_SIZE && Offset(END64, 10) == END64_SIZE && Offset(LOCATOR, 4) == LOCATOR_SIZE
  {
    assert Offset(LOCAL, 3) == 8 && Offset(LOCAL, 6) == 14 && Offset(LOCAL, 9) == 26;
    assert Offset(CENTRAL, 3) == 8 && Offset(CENTRAL, 6) == 14 && Offset(CENTRAL, 9) == 24 && Offset(CENTRAL, 12) == 32
        && Offset(CENTRAL, 15) == 38;
    assert Offset(END, 3) == 8 && Offset(END, 6) == 16;
    assert Offset(END64, 3) == 14 && Offset(END64, 6) == 24 && Offset(END64, 9) == 48;
    assert Offset(LOCATOR, 2) == 8;
  }

  lemma Powers()
    ensures Pow256(2) == 0x1_0000 && Pow256(4) == 0x1_0000_0000 && Pow256(8) == 0x1_0000_0000_0000_0000
  {
    assert Pow256(8) == 256 * 256 * 256 * 256 * Pow256(4);
  }

  // ---------------------------------------------------------------------------------------
  // Extra fields
  // ---------------------------------------------------------------------------------------

  lemma Slices(a: seq<byte>, b: seq<byte>, body: seq<byte>)
    requires |a| == 2 && |b| == 2
    ensures var s := a + (b + body);
      |s| == 4 + |body| && s[..2] == a && s[2..4] == b && s[4..4 + |body|] == body
  {
  }

  lemma BlockFound(body: seq<byte>)
    requires |body| < 0x1_0000
    ensures FindBlock(Zip64Block(body), 1) == Some(body)
  {
    Powers();
    LittleEndianReadsBack(1, 2);
    LittleEndianReadsBack(|body|, 2);
    Slices(LE(1, 2), LE(|body|, 2), body);
  }

  lemma LocalWidens(size: nat)
    requires size < 0x1_0000_0000_0000_0000
    ensures Widen(Capped32(size), Capped32(size), 0, LocalExtra(size)) == Some(Wide(size, size, 0))
  {
    if NeedsZip64(size) {
      var body := LE(size, 8) + LE(size, 8);
      BlockFound(body);
      Powers();
      LittleEndianReadsBack(size, 8);
      assert body[..8] == LE(size, 8) && body[8..16] == LE(size, 8);
    }
  }

  lemma BodySlices(a: seq<byte>, b: seq<byte>)
    ensures (a + a + b)[..|a|] == a && (a + a + b)[|a|..2 * |a|] == a && (a + a + b)[2 * |a|..2 * |a| + |b|] == b
  {
  }

  lemma CentralWidens(size: nat, offset: nat)
    requires size < 0x1_0000_0000_0000_0000 && offset < 0x1_0000_0000_0000_0000
    ensures Widen(Capped32(size), Capped32(size), Capped32(offset), CentralExtra(size, offset))
         == Some(Wide(size, size, offset))
  {
    if NeedsZip64(size) || NeedsZip64(offset) {
      BlockFound(CentralBody(size, offset));
      Powers();
      LittleEndianReadsBack(size, 8);
      LittleEndianReadsBack(offset, 8);
      hide LE, FromLE, FindBlock, Zip64Block;
      if NeedsZip64(size) {
        BodySlices(LE(size, 8), if NeedsZip64(offset) then LE(offset, 8) else []);
      } else {
        assert CentralBody(size, offset) == LE(offset, 8);
        assert LE(offset, 8)[0..8] == LE(offset, 8);
      }
    }
  }

  // ---------------------------------------------------------------------------------------
  // One file
  // ---------------------------------------------------------------------------------------

  predicate Small(n: nat) {
    n < 0x1_0000_0000_0000_0000
  }

  lemma LocalLayout(crc: Crc, e: Entry)
    requires |e.path| <= U16_MAX
    ensures HasLayout(LocalFields(crc, e), LOCAL)
    ensures forall i | 0 <= i < |LocalFields(crc, e)| :: Fits(LocalFields(crc, e)[i])
  {
    Powers();
  }

  lemma LocalValues(crc: Crc, e: Entry)
    ensures var f, size := Values(LocalFields(crc, e)), |e.contents|;
      && |f| == 11 && f[0] == LOCAL_SIGNATURE && f[2] == UTF8_NAMES && f[3] == 0 && f[6] == crc(e.contents)
      && f[7] == f[8] == Capped32(size) && f[9] == |e.path| && f[10] == |LocalExtra(size)|
  {
  }

  /** The parts of a local record. */
  lemma LocalParts(bytes: seq<byte>, pos: nat, crc: Crc, e: Entry)
    requires At(bytes, pos, LocalRecord(crc, e)) && |e.path| <= U16_MAX
    ensures LocalHeader(bytes, pos) == Some(Values(LocalFields(crc, e)))
    ensures
      var name := pos + LOCAL_SIZE;
      var extra := name + |e.path|;
      && At(bytes, name, e.path) && At(bytes, extra, LocalExtra(|e.contents|))
      && At(bytes, extra + |LocalExtra(|e.contents|)|, e.contents)
  {
    var extra := LocalExtra(|e.contents|);
    LocalLayout(crc, e);
    HeaderSizes();
    RecordReadsBack(bytes, pos, LocalFields(crc, e), LOCAL, e.path, extra + e.contents);
    AtSplit(bytes, pos + LOCAL_SIZE + |e.path|, extra, e.contents);
  }

  /** A local header with the given fields, name and extra field reads as what they say. */
  lemma ReadLocalFrom(bytes: seq<byte>, pos: nat, f: seq<nat>, path: seq<byte>, extra: seq<byte>, size: nat)
    requires LocalHeader(bytes, pos) == Some(f)
    requires f[0] == LOCAL_SIGNATURE && f[2] == UTF8_NAMES && f[3] == 0
    requires f[9] == |path| && f[10] == |extra| && Widen(f[8], f[7], 0, extra) == Some(Wide(size, size, 0))
    requires At(bytes, pos + LOCAL_SIZE, path) && At(bytes, pos + LOCAL_SIZE + |path|, extra)
    ensures ReadLocal(bytes, pos) == Some(LocalInfo(path, f[6], size, pos + LOCAL_SIZE + |path| + |extra|))
  {
    hide LocalHeader, Widen;
    AtSlice(bytes, pos + LOCAL_SIZE, path);
    AtSlice(bytes, pos + LOCAL_SIZE + |path|, extra);
  }

  lemma LocalReads(bytes: seq<byte>, pos: nat, crc: Crc, e: Entry)
    requires At(bytes, pos, LocalRecord(crc, e)) && |e.path| <= U16_MAX && Small(|e.contents|)
    ensures
      var local := ReadLocal(bytes, pos);
      && local.Some?
      && local.value.path == e.path && local.value.crc == crc(e.contents) && local.value.size == |e.contents|
      && At(bytes, local.value.data, e.contents)
  {
    hide LocalRecord, LocalFields, LocalHeader, LocalExtra, At, Widen, ReadLocal;
    LocalParts(bytes, pos, crc, e);
    LocalValues(crc, e);
    LocalWidens(|e.contents|);
    ReadLocalFrom(bytes, pos, Values(LocalFields(crc, e)), e.path, LocalExtra(|e.contents|), |e.contents|);
  }

  lemma CentralLayout(crc: Crc, e: Entry, offset: nat)
    requires |e.path| <= U16_MAX
    ensures HasLayout(CentralFields(crc, e, offset), CENTRAL)
    ensures forall i | 0 <= i < |CentralFields(crc, e, offset)| :: Fits(CentralFields(crc, e, offset)[i])
  {
    Powers();
  }

  /** The member a reader should see for an entry. */
  function MemberOf(crc: Crc, e: Entry): Member {
    Member(e.path, crc(e.contents), |e.contents|, e.contents, 0, DOS_DATE_1980, FILE_MODE)
  }

  /** What the central header of an entry says, and where its parts lie. */
  lemma CentralReads(bytes: seq<byte>, pos: nat, crc: Crc, e: Entry, offset: nat)
    requires At(bytes, pos, CentralRecord(crc, e, offset)) && |e.path| <= U16_MAX
    ensures CentralHeader(bytes, pos) == Some(Values(CentralFields(crc, e, offset)))
    ensures
      var name := pos + CENTRAL_SIZE;
      var extra := name + |e.path|;
      && At(bytes, name, e.path) && At(bytes, extra, CentralExtra(|e.contents|, offset))
      && extra + |CentralExtra(|e.contents|, offset)| == pos + |CentralRecord(crc, e, offset)|
  {
    CentralLayout(crc, e, offset);
    HeaderSizes();
    RecordReadsBack(bytes, pos, CentralFields(crc, e, offset), CENTRAL, e.path, CentralExtra(|e.contents|, offset));
  }

  lemma CentralValues(crc: Crc, e: Entry, offset: nat)
    ensures var f, size := Values(CentralFields(crc, e, offset)), |e.contents|;
      && |f| == 17 && f[0] == CENTRAL_SIGNATURE && f[3] == UTF8_NAMES && f[4] == 0 && f[5] == 0 && f[6] == DOS_DATE_1980
      && f[7] == crc(e.contents) && f[8] == f[9] == Capped32(size) && f[10] == |e.path|
      && f[11] == |CentralExtra(size, offset)| && f[12] == 0 && f[13] == 0 && f[15] == FILE_MODE
      && f[16] == Capped32(offset)
  {
  }

  /** A central header with the given fields, name and extra field reads as what they say. */
  lemma ReadCentralFrom(bytes: seq<byte>, pos: nat, f: seq<nat>, path: seq<byte>, extra: seq<byte>, wide: Wide)
    requires CentralHeader(bytes, pos) == Some(f)
    requires f[0] == CENTRAL_SIGNATURE && f[3] == UTF8_NAMES && f[4] == 0 && f[12] == 0 && f[13] == 0
    requires f[10] == |path| && f[11] == |extra| && Widen(f[9], f[8], f[16], extra) == Some(wide)
    requires At(bytes, pos + CENTRAL_SIZE, path)
    requires At(bytes, pos + CENTRAL_SIZE + |path|, extra)
    ensures ReadCentral(bytes, pos) ==
      Some(CentralInfo(path, f[7], wide, f[5], f[6], f[15], pos + CENTRAL_SIZE + |path| + |extra|))
  {
    AtSlice(bytes, pos + CENTRAL_SIZE, path);
    AtSlice(bytes, pos + CENTRAL_SIZE + |path|, extra);
  }

  /** The fields of an entry's central header, by what they must be. */
  lemma CentralFacts(bytes: seq<byte>, pos: nat, crc: Crc, e: Entry, offset: nat) returns (f: seq<nat>, extra: seq<byte>)
    requires At(bytes, pos, CentralRecord(crc, e, offset))
    requires |e.path| <= U16_MAX && Small(|e.contents|) && Small(offset)
    ensures CentralHeader(bytes, pos) == Some(f) && |f| == 17
    ensures f[0] == CENTRAL_SIGNATURE && f[3] == UTF8_NAMES && f[4] == 0 && f[12] == 0 && f[13] == 0
    ensures f[5] == 0 && f[6] == DOS_DATE_1980 && f[7] == crc(e.contents) && f[15] == FILE_MODE
    ensures f[10] == |e.path| && f[11] == |extra|
    ensures Widen(f[9], f[8], f[16], extra) == Some(Wide(|e.contents|, |e.contents|, offset))
    ensures At(bytes, pos + CENTRAL_SIZE, e.path)
    ensures At(bytes, pos + CENTRAL_SIZE + |e.path|, extra)
    ensures CENTRAL_SIZE + |e.path| + |extra| == |CentralRecord(crc, e, offset)|
  {
    f, extra := Values(CentralFields(crc, e, offset)), CentralExtra(|e.contents|, offset);
    CentralReads(bytes, pos, crc, e, offset);
    CentralValues(crc, e, offset);
    CentralWidens(|e.contents|, offset);
  }

  lemma CentralInfoReads(bytes: seq<byte>, pos: nat, crc: Crc, e: Entry, offset: nat)
    requires At(bytes, pos, CentralRecord(crc, e, offset))
    requires |e.path| <= U16_MAX && Small(|e.contents|) && Small(offset)
    ensures ReadCentral(bytes, pos) ==
      Some(CentralInfo(e.path, crc(e.contents), Wide(|e.contents|, |e.contents|, offset), 0, DOS_DATE_1980, FILE_MODE,
                       pos + |CentralRecord(crc, e, offset)|))
  {
    var f, extra := CentralFacts(bytes, pos, crc, e, offset);
    ReadCentralFrom(bytes, pos, f, e.path, extra, Wide(|e.contents|, |e.contents|, offset));
  }

  lemma MemberReads(bytes: seq<byte>, pos: nat, crc: Crc, e: Entry, offset: nat)
    requires At(bytes, pos, CentralRecord(crc, e, offset)) && At(bytes, offset, LocalRecord(crc, e))
    requires |e.path| <= U16_MAX && Small(|e.contents|) && Small(offset)
    ensures ReadMember(bytes, pos) == Some(Step(MemberOf(crc, e), pos + |CentralRecord(crc, e, offset)|))
  {
    hide CentralRecord, LocalRecord, Encode;
    CentralInfoReads(bytes, pos, crc, e, offset);
    LocalReads(bytes, offset, crc, e);
    AtSlice(bytes, ReadLocal(bytes, offset).value.data, e.contents);
  }

  // ---------------------------------------------------------------------------------------
  // All files
  // ---------------------------------------------------------------------------------------

  lemma {:induction false} LocalAt(bytes: seq<byte>, crc: Crc, entries: seq<Entry>, n: nat, i: nat)
    requires i < n <= |entries| && At(bytes, 0, Locals(crc, entries, n))
    ensures At(bytes, |Locals(crc, entries, i)|, LocalRecord(crc, entries[i]))
    ensures |Locals(crc, entries, i)| + |entries[i].contents| <= |Locals(crc, entries, n)|
  {
    AtSplit(bytes, 0, Locals(crc, entries, n - 1), LocalRecord(crc, entries[n - 1]));
    if i < n - 1 {
      LocalAt(bytes, crc, entries, n - 1, i);
    }
  }

  lemma {:induction false} CentralAt(bytes: seq<byte>, pos: nat, crc: Crc, entries: seq<Entry>, n: nat, i: nat)
    requires i < n <= |entries| && At(bytes, pos, Centrals(crc, entries, n))
    ensures At(bytes, pos + |Centrals(crc, entries, i)|, CentralRecord(crc, entries[i], |Locals(crc, entries, i)|))
  {
    hide CentralRecord, LocalRecord;
    AtSplit(bytes, pos, Centrals(crc, entries, n - 1),
            CentralRecord(crc, entries[n - 1], |Locals(crc, entries, n - 1)|));
    if i < n - 1 {
      CentralAt(bytes, pos, crc, entries, n - 1, i);
    }
  }

  /** What a reader should see of the entries from the `i`-th on. */
  function MembersFrom(crc: Crc, entries: seq<Entry>, i: nat): (members: seq<Member>)
    requires i <= |entries|
    ensures |members| == |entries| - i
    decreases |entries| - i
  {
    if i == |entries| then [] else [MemberOf(crc, entries[i])] + MembersFrom(crc, entries, i + 1)
  }

  /** The `i`-th central header reads as the `i`-th entry and leads to the next one. */
  lemma MemberStep(bytes: seq<byte>, pos: nat, crc: Crc, entries: seq<Entry>, i: nat)
    requires i < |entries| && NamesFit(entries) && Small(|bytes|)
    requires At(bytes, 0, Locals(crc, entries, |entries|)) && At(bytes, pos, Centrals(crc, entries, |entries|))
    ensures ReadMember(bytes, pos + |Centrals(crc, entries, i)|)
         == Some(Step(MemberOf(crc, entries[i]), pos + |Centrals(crc, entries, i + 1)|))
  {
    hide CentralRecord, LocalRecord, ReadMember;
    LocalAt(bytes, crc, entries, |entries|, i);
    CentralAt(bytes, pos, crc, entries, |entries|, i);
    MemberReads(bytes, pos + |Centrals(crc, entries, i)|, crc, entries[i], |Locals(crc, entries, i)|);
  }

  /** From the `i`-th central header on, the reader sees exactly the remaining entries. */
  lemma {:induction false} MembersRead(bytes: seq<byte>, pos: nat, crc: Crc, entries: seq<Entry>, i: nat)
    requires i <= |entries| && NamesFit(entries) && Small(|bytes|)
    requires At(bytes, 0, Locals(crc, entries, |entries|)) && At(bytes, pos, Centrals(crc, entries, |entries|))
    ensures ReadMembers(bytes, pos + |Centrals(crc, entries, i)|, |entries| - i,
                        pos + |Centrals(crc, entries, |entries|)|) == Some(MembersFrom(crc, entries, i))
    decreases |entries| - i
  {
    hide CentralRecord, LocalRecord, ReadMember, At;
    if i < |entries| {
      MemberStep(bytes, pos, crc, entries, i);
      MembersRead(bytes, pos, crc, entries, i + 1);
    }
  }

  // ---------------------------------------------------------------------------------------
  // The end records
  // ---------------------------------------------------------------------------------------

  lemma EndReads(bytes: seq<byte>, pos: nat, count: nat, size: nat, offset: nat)
    requires At(bytes, pos, Encode(EndFields(count, size, offset)))
    ensures EndHeader(bytes, pos) == Some([END_SIGNATURE, 0, 0, Capped16(count), Capped16(count),
                                                         Capped32(size), Capped32(offset), 0])
    ensures |Encode(EndFields(count, size, offset))| == END_SIZE
  {
    Powers();
    var fields := EndFields(count, size, offset);
    hide Encode, EncodeTo, ReadFields;
    HeaderSizes();
    HeaderReadsBack(bytes, pos, fields, END);
    assert Values(fields) == [END_SIGNATURE, 0, 0, Capped16(count), Capped16(count), Capped32(size), Capped32(offset), 0];
  }

  lemma End64Reads(bytes: seq<byte>, pos: nat, count: nat, size: nat, offset: nat)
    requires At(bytes, pos, Encode(End64Fields(count, size, offset))) && Small(count) && Small(size) && Small(offset)
    ensures End64Header(bytes, pos)
         == Some([END64_SIGNATURE, 44, MADE_BY_UNIX, 45, 0, 0, count, count, size, offset])
    ensures |Encode(End64Fields(count, size, offset))| == END64_SIZE
  {
    Powers();
    var fields := End64Fields(count, size, offset);
    hide Encode, EncodeTo, ReadFields;
    HeaderSizes();
    HeaderReadsBack(bytes, pos, fields, END64);
    assert Values(fields) == [END64_SIGNATURE, 44, MADE_BY_UNIX, 45, 0, 0, count, count, size, offset];
  }

  lemma LocatorReads(bytes: seq<byte>, pos: nat, end64: nat)
    requires At(bytes, pos, Encode(LocatorFields(end64))) && Small(end64)
    ensures LocatorHeader(bytes, pos) == Some([LOCATOR_SIGNATURE, 0, end64, 1])
    ensures |Encode(LocatorFields(end64))| == LOCATOR_SIZE
  {
    Powers();
    var fields := LocatorFields(end64);
    hide Encode, EncodeTo, ReadFields;
    HeaderSizes();
    HeaderReadsBack(bytes, pos, fields, LOCATOR);
    assert Values(fields) == [LOCATOR_SIGNATURE, 0, end64, 1];
  }

  /** Where the writer's trailer puts its three records. */
  lemma TrailerParts(bytes: seq<byte>, pos: nat, crc: Crc, entries: seq<Entry>, size: nat, offset: nat)
    requires At(bytes, pos, Trailer(crc, entries, size, offset)) && pos + |Trailer(crc, entries, size, offset)| == |bytes|
    requires Small(|entries|) && Small(size) && Small(offset) && Small(offset + size)
    ensures
      var end64 := if EmitsEnd64(crc, entries, size, offset) then END64_SIZE + LOCATOR_SIZE else 0;
      && |bytes| == pos + end64 + END_SIZE
      && At(bytes, pos + end64, Encode(EndFields(|entries|, size, offset)))
    ensures EmitsEnd64(crc, entries, size, offset) ==>
      && At(bytes, pos, Encode(End64Fields(|entries|, size, offset)))
      && At(bytes, pos + END64_SIZE, Encode(LocatorFields(offset + size)))
  {
    TrailerCases(crc, entries, size, offset);
    if EmitsEnd64(crc, entries, size, offset) {
      var a, b, c := Encode(End64Fields(|entries|, size, offset)), Encode(LocatorFields(offset + size)),
                     Encode(EndFields(|entries|, size, offset));
      hide Encode, EmitsEnd64, At, Small, EndFields, End64Fields, LocatorFields, Trailer, EndHeader, End64Header, LocatorHeader;
      AtSplit(bytes, pos, a + b, c);
      AtSplit(bytes, pos, a, b);
      End64Reads(bytes, pos, |entries|, size, offset);
      LocatorReads(bytes, pos + |a|, offset + size);
      EndReads(bytes, pos + |a| + |b|, |entries|, size, offset);
    } else {
      hide Encode, EmitsEnd64, At, Small, EndFields, End64Fields, LocatorFields, Trailer, EndHeader, End64Header, LocatorHeader;
      EndReads(bytes, pos, |entries|, size, offset);
    }
  }

  lemma TrailerCases(crc: Crc, entries: seq<Entry>, size: nat, offset: nat)
    ensures Trailer(crc, entries, size, offset) ==
      if EmitsEnd64(crc, entries, size, offset)
      then (Encode(End64Fields(|entries|, size, offset)) + Encode(LocatorFields(offset + size)))
           + Encode(EndFields(|entries|, size, offset))
      else Encode(EndFields(|entries|, size, offset))
  {
    hide Encode, EmitsEnd64;
    var c := Encode(EndFields(|entries|, size, offset));
    assert [] + c == c;
  }

  lemma EndFound(bytes: seq<byte>, end: nat, count: nat, size: nat, offset: nat)
    requires At(bytes, end, Encode(EndFields(count, size, offset))) && |bytes| == end + END_SIZE
    ensures FindEnd(bytes, end) == Some(end)
  {
    hide Encode, At, EndFields, EndHeader;
    EndReads(bytes, end, count, size, offset);
  }

  lemma End64Found(bytes: seq<byte>, pos: nat, count: nat, size: nat, offset: nat)
    requires At(bytes, pos, Encode(End64Fields(count, size, offset)))
    requires At(bytes, pos + END64_SIZE, Encode(LocatorFields(pos)))
    requires Small(count) && Small(size) && Small(offset) && Small(pos)
    ensures ReadEnd64(bytes, pos + END64_SIZE + LOCATOR_SIZE) == Some(Directory(count, size, offset))
  {
    hide Encode, At, Small, End64Fields, LocatorFields, End64Header, LocatorHeader;
    End64Reads(bytes, pos, count, size, offset);
    LocatorReads(bytes, pos + END64_SIZE, pos);
  }

  lemma SentinelEmits(crc: Crc, entries: seq<Entry>, size: nat, offset: nat)
    ensures NeedsZip64Count(|entries|) || NeedsZip64(offset) || NeedsZip64(size) ==> EmitsEnd64(crc, entries, size, offset)
  {
  }

  /** The reader finds the end record at once and the directory in it — in the ZIP64 record wherever a field
      holds its sentinel. */
  lemma DirectoryReads(bytes: seq<byte>, crc: Crc, entries: seq<Entry>, size: nat, offset: nat)
    requires At(bytes, offset + size, Trailer(crc, entries, size, offset))
    requires offset + size + |Trailer(crc, entries, size, offset)| == |bytes|
    requires Small(|entries|) && Small(size) && Small(offset) && Small(offset + size)
    ensures |bytes| >= END_SIZE
    ensures
      var end := |bytes| - END_SIZE;
      FindEnd(bytes, end) == Some(end) && ReadEnd(bytes, end) == Some(Directory(|entries|, size, offset))
  {
    SentinelEmits(crc, entries, size, offset);
    hide Encode, Trailer, At, Small, EndFields, End64Fields, LocatorFields, EndHeader, ReadEnd64, FindEnd, EmitsEnd64;
    TrailerParts(bytes, offset + size, crc, entries, size, offset);
    var end := |bytes| - END_SIZE;
    EndReads(bytes, end, |entries|, size, offset);
    EndFound(bytes, end, |entries|, size, offset);
    if EmitsEnd64(crc, entries, size, offset) {
      End64Found(bytes, offset + size, |entries|, size, offset);
    }
  }

  // ---------------------------------------------------------------------------------------
  // The archive
  // ---------------------------------------------------------------------------------------

  lemma {:induction false} CountBelowSize(crc: Crc, entries: seq<Entry>, n: nat)
    requires n <= |entries|
    ensures n <= |Centrals(crc, entries, n)|
  {
    if n > 0 {
      CountBelowSize(crc, entries, n - 1);
      CentralNonEmpty(crc, entries[n - 1], |Locals(crc, entries, n - 1)|);
    }
  }

  lemma CentralNonEmpty(crc: Crc, e: Entry, offset: nat)
    ensures |CentralRecord(crc, e, offset)| >= 1
  {
    var fields := CentralFields(crc, e, offset);
    assert |EncodeTo(fields, 1)| == 4;
    EncodeGrows(fields, 1, 17);
  }

  lemma {:induction false} EncodeGrows(fields: seq<Field>, m: nat, n: nat)
    requires m <= n <= |fields|
    ensures |EncodeTo(fields, m)| <= |EncodeTo(fields, n)|
  {
    if m < n {
      EncodeGrows(fields, m, n - 1);
    }
  }

  lemma LayoutParts(crc: Crc, entries: seq<Entry>)
    ensures
      var bytes, locals, centrals := Layout(crc, entries), Locals(crc, entries, |entries|), Centrals(crc, entries, |entries|);
      && At(bytes, 0, locals) && At(bytes, |locals|, centrals)
      && At(bytes, |locals| + |centrals|, Trailer(crc, entries, |centrals|, |locals|))
      && |bytes| == |locals| + |centrals| + |Trailer(crc, entries, |centrals|, |locals|)|
  {
    hide Locals, Centrals, Trailer, At;
    var locals, centrals := Locals(crc, entries, |entries|), Centrals(crc, entries, |entries|);
    ThreeParts(locals, centrals, Trailer(crc, entries, |centrals|, |locals|));
  }

  lemma NoCentrals(crc: Crc, entries: seq<Entry>)
    ensures |Centrals(crc, entries, 0)| == 0
  {
  }

  /** A laid-out archive reads back as its entries, in order. */
  lemma LayoutReads(crc: Crc, entries: seq<Entry>)
    requires NamesFit(entries) && Small(|Layout(crc, entries)|)
    ensures ReadZip(Layout(crc, entries)) == Some(MembersFrom(crc, entries, 0))
  {
    hide Layout, Locals, Centrals, Trailer, NamesFit, At, ReadMembers, FindEnd, ReadEnd, MembersFrom;
    var bytes, size, offset := Layout(crc, entries), |Centrals(crc, entries, |entries|)|, |Locals(crc, entries, |entries|)|;
    LayoutParts(crc, entries);
    CountBelowSize(crc, entries, |entries|);
    NoCentrals(crc, entries);
    MembersRead(bytes, offset, crc, entries, 0);
    DirectoryReads(bytes, crc, entries, size, offset);
  }

  /** For every list of entries with distinct paths whose names fit, and every archive a 64-bit length can
      describe: the reader recovers from `pack_wheel`'s bytes exactly the path-sorted list of path, checksum,
      size and contents, with the fixed time stamp and file mode. */
  lemma PackedReadsBack(crc: Crc, entries: seq<Entry>)
    requires DistinctPaths(entries) && NamesFit(entries)
    requires Small(|Layout(crc, Sorted(entries))|)
    ensures Packed(crc, entries).Ok?
    ensures ReadZip(Packed(crc, entries).value) == Some(MembersFrom(crc, Sorted(entries), 0))
    ensures StrictlyAscending(PathLess, Sorted(entries)) && multiset(Sorted(entries)) == multiset(entries)
  {
    SortedIsStrict(entries);
    NamesFitOfTheBag(entries, Sorted(entries));
    LayoutReads(crc, Sorted(entries));
  }

  lemma {:induction false} MembersAre(crc: Crc, entries: seq<Entry>, i: nat)
    requires i <= |entries|
    ensures forall j | i <= j < |entries| :: MembersFrom(crc, entries, i)[j - i] == MemberOf(crc, entries[j])
    decreases |entries| - i
  {
    if i < |entries| {
      MembersAre(crc, entries, i + 1);
    }
  }

  /** The packer's bytes determine its input: two lists with the same archive hold the same files. */
  lemma PackingLosesNothing(crc: Crc, a: seq<Entry>, b: seq<Entry>)
    requires Packed(crc, a).Ok? && Packed(crc, a) == Packed(crc, b) && Small(|Packed(crc, a).value|)
    ensures multiset(a) == multiset(b)
  {
    hide Layout, ReadZip, Small, Sorted, MembersFrom, PathLess;
    PackedReadsBack(crc, a);
    PackedReadsBack(crc, b);
    MembersAre(crc, Sorted(a), 0);
    MembersAre(crc, Sorted(b), 0);
    assert |Sorted(a)| == |MembersFrom(crc, Sorted(a), 0)| == |Sorted(b)|;
    forall i | 0 <= i < |Sorted(a)| ensures Sorted(a)[i] == Sorted(b)[i] {
      assert MemberOf(crc, Sorted(a)[i]) == MemberOf(crc, Sorted(b)[i]);
    }
    assert Sorted(a) == Sorted(b);
  }

  // ---------------------------------------------------------------------------------------
  // The ZIP64 end record and the sentinels
  // ---------------------------------------------------------------------------------------

  /** The writer emits the ZIP64 end record exactly when a field of the end record holds its sentinel: its test
      on the individual entries never decides, and no sentinel is ever left without the wide value. */
  lemma End64ExactlyForSentinels(crc: Crc, entries: seq<Entry>)
    ensures
      var size, offset := |Centrals(crc, entries, |entries|)|, |Locals(crc, entries, |entries|)|;
      EmitsEnd64(crc, entries, size, offset)
      <==> Capped16(|entries|) == U16_MAX || Capped32(size) == U32_MAX || Capped32(offset) == U32_MAX
  {
    var size, offset := |Centrals(crc, entries, |entries|)|, |Locals(crc, entries, |entries|)|;
    forall i | 0 <= i < |entries|
      ensures |entries[i].contents| <= offset && |Locals(crc, entries, i)| <= offset
    {
      LocalsGrow(crc, entries, i, |entries|);
    }
  }

  lemma {:induction false} LocalsGrow(crc: Crc, entries: seq<Entry>, i: nat, n: nat)
    requires i < n <= |entries|
    ensures |Locals(crc, entries, i)| + |entries[i].contents| <= |Locals(crc, entries, n)|
  {
    if i < n - 1 {
      LocalsGrow(crc, entries, i, n - 1);
    }
  }
}
