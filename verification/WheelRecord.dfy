/** The wheel `RECORD` of crates/ost-build/src/consumer_archive.rs: its text, and that a consumer reading it as
    CSV with base64url hashes finds exactly the packed files. SHA-256 is the parameter `sha`; text is bytes. */
module WheelRecord {
  import opened Prelude
  import opened Text
  import Zip
  import ZipWriter
  import Base64
  import Csv

  type Entry = Zip.Entry

  /** The raw digest of some contents. */
  type Sha = seq<byte> -> seq<byte>

  datatype RecordError = UnsafePath | DuplicatePaths | OddHex | InvalidHex

  // ---------------------------------------------------------------------------------------
  // Hexadecimal (decode_hex) and decimal text
  // ---------------------------------------------------------------------------------------

  type nibble = x: int | 0 <= x < 16

  function HexDigit(v: nibble): byte {
    if v < 10 then 48 + v else 97 + (v - 10)
  }

  function HexValue(c: byte): Option<nibble> {
    if 48 <= c <= 57 then Some(c - 48) else if 97 <= c <= 102 then Some(c - 97 + 10) else None
  }

  /** The lower-case hexadecimal digest text. */
  function Hex(bytes: seq<byte>): seq<byte> {
    if bytes == [] then [] else [HexDigit(bytes[0] / 16), HexDigit(bytes[0] % 16)] + Hex(bytes[1..])
  }

  function DecodePairs(s: seq<byte>): Result<seq<byte>, RecordError>
    requires |s| % 2 == 0
  {
    if s == [] then Ok([])
    else
      var high, low := HexValue(s[0]), HexValue(s[1]);
      if high.None? || low.None? then Err(InvalidHex)
      else
        var more := DecodePairs(s[2..]);
        if more.Err? then more else Ok([high.value * 16 + low.value] + more.value)
  }

  function DecodeHex(s: seq<byte>): Result<seq<byte>, RecordError> {
    if |s| % 2 != 0 then Err(OddHex) else DecodePairs(s)
  }

  lemma HexDigitsAreDistinct(v: nibble, c: byte)
    ensures HexValue(c) == Some(v) <==> c == HexDigit(v)
  {
  }

  lemma {:induction false} HexReadsBack(bytes: seq<byte>)
    ensures |Hex(bytes)| == 2 * |bytes| && DecodePairs(Hex(bytes)) == Ok(bytes)
  {
    if bytes != [] {
      var s := Hex(bytes);
      HexReadsBack(bytes[1..]);
      assert s[2..] == Hex(bytes[1..]);
      HexDigitsAreDistinct(bytes[0] / 16, s[0]);
      HexDigitsAreDistinct(bytes[0] % 16, s[1]);
      assert bytes == [bytes[0]] + bytes[1..];
    }
  }

  lemma {:induction false} PairsAreCanonical(s: seq<byte>, bytes: seq<byte>)
    requires |s| % 2 == 0 && DecodePairs(s) == Ok(bytes)
    ensures s == Hex(bytes)
    decreases |s|
  {
    if s != [] {
      var high, low := HexValue(s[0]).value, HexValue(s[1]).value;
      PairsAreCanonical(s[2..], bytes[1..]);
      HexDigitsAreDistinct(high, s[0]);
      HexDigitsAreDistinct(low, s[1]);
      assert bytes[0] / 16 == high && bytes[0] % 16 == low;
      assert s == [s[0], s[1]] + s[2..];
    }
  }

  /** `decode_hex` accepts exactly the lower-case hexadecimal text of its result. */
  lemma DecodesHexExactly(s: seq<byte>, bytes: seq<byte>)
    ensures DecodeHex(s) == Ok(bytes) <==> s == Hex(bytes)
  {
    HexReadsBack(bytes);
    if DecodeHex(s) == Ok(bytes) {
      PairsAreCanonical(s, bytes);
    }
  }

  function ParseDigits(s: seq<byte>): nat
    requires forall i | 0 <= i < |s| :: IsDigit(s[i])
  {
    if s == [] then 0
    else
      assert IsDigit(s[|s| - 1]);
      ParseDigits(s[..|s| - 1]) * 10 + (s[|s| - 1] - 48)
  }

  function ParseDecimal(s: seq<byte>): Option<nat> {
    if s != [] && forall i | 0 <= i < |s| :: IsDigit(s[i]) then Some(ParseDigits(s)) else None
  }

  lemma {:induction false} DecimalReadsBack(n: nat)
    ensures Decimal(n) != [] && (forall i | 0 <= i < |Decimal(n)| :: IsDigit(Decimal(n)[i]))
    ensures ParseDigits(Decimal(n)) == n
  {
    var s := Decimal(n);
    if n < 10 {
      assert s[..|s| - 1] == [];
    } else {
      DecimalReadsBack(n / 10);
      assert s[..|s| - 1] == Decimal(n / 10);
    }
  }

  // ---------------------------------------------------------------------------------------
  // The text
  // ---------------------------------------------------------------------------------------

  const SLASH: byte := 47
  const DOT: byte := 46

  /** `validate_archive_path`. */
  predicate SafePath(path: seq<byte>) {
    path != [] && path[0] != SLASH && 0 !in path
    && forall part | part in Split(path, SLASH) :: part != [] && part != [DOT] && part != [DOT, DOT]
  }

  /** The text `sha256=`. */
  const SHA256_TAG: seq<byte> := [115, 104, 97, 50, 53, 54, 61]

  function HashField(digest: seq<byte>): seq<byte> {
    SHA256_TAG + Base64.Encode(digest)
  }

  function FieldsOf(sha: Sha, e: Entry): seq<seq<byte>> {
    [e.path, HashField(sha(e.contents)), Decimal(|e.contents|)]
  }

  /** The lines of the first `n` entries. */
  function LinesTo(sha: Sha, entries: seq<Entry>, n: nat): seq<byte>
    requires n <= |entries|
  {
    if n == 0 then [] else LinesTo(sha, entries, n - 1) + Csv.Line(FieldsOf(sha, entries[n - 1]))
  }

  function RecordText(sha: Sha, entries: seq<Entry>, recordPath: seq<byte>): seq<byte> {
    LinesTo(sha, entries, |entries|) + Csv.Line([recordPath, [], []])
  }

  function Record(sha: Sha, entries: seq<Entry>, recordPath: seq<byte>): Result<seq<byte>, RecordError> {
    if !SafePath(recordPath) then Err(UnsafePath)
    else if !Zip.DistinctPaths(entries) then Err(DuplicatePaths)
    else Ok(RecordText(sha, Zip.Sorted(entries), recordPath))
  }

  // ---------------------------------------------------------------------------------------
  // wheel_record
  // ---------------------------------------------------------------------------------------

  lemma {:induction false} DecimalIsPlain(n: nat)
    ensures Csv.Plain(Decimal(n))
  {
    DecimalReadsBack(n);
    forall i | 0 <= i < |Decimal(n)| ensures !Csv.Special(Decimal(n)[i]) {
      assert IsDigit(Decimal(n)[i]);
    }
  }

  lemma HashIsPlain(digest: seq<byte>)
    ensures Csv.Plain(HashField(digest))
  {
    hide Base64.Sextet;
    forall i | 0 <= i < |Base64.Encode(digest)| ensures !Csv.Special(Base64.Encode(digest)[i]) {
      assert Base64.Encode(digest)[i] == Base64.Symbol(Base64.Sextet(digest, i));
    }
  }

  /** Only the path can need quotes. */
  lemma LineOf(sha: Sha, e: Entry)
    ensures Csv.Line(FieldsOf(sha, e)) ==
      Csv.Field(e.path) + [Csv.COMMA] + SHA256_TAG + Base64.Encode(sha(e.contents)) + [Csv.COMMA]
      + Decimal(|e.contents|) + [Csv.NEWLINE]
  {
    HashIsPlain(sha(e.contents));
    DecimalIsPlain(|e.contents|);
    hide Base64.Encode, Decimal, Csv.Plain, Csv.Line, Csv.Field;
    PlainTail(e.path, HashField(sha(e.contents)), Decimal(|e.contents|));
  }

  lemma PlainTail(first: seq<byte>, second: seq<byte>, third: seq<byte>)
    requires Csv.Plain(second) && Csv.Plain(third)
    ensures Csv.Line([first, second, third]) ==
      Csv.Field(first) + [Csv.COMMA] + second + [Csv.COMMA] + third + [Csv.NEWLINE]
  {
    PlainField(second);
    PlainField(third);
    hide Csv.Plain, Csv.Field;
    var fields := [first, second, third];
    assert fields[1..] == [second, third] && [second, third][1..] == [third];
    assert Csv.Line([third]) == third + [Csv.NEWLINE];
    assert Csv.Line([second, third]) == second + ([Csv.COMMA] + (third + [Csv.NEWLINE]));
  }

  lemma PlainField(s: seq<byte>)
    requires Csv.Plain(s)
    ensures Csv.Field(s) == s
  {
    hide Csv.Plain;
  }

  lemma LastLine(path: seq<byte>)
    ensures Csv.Line([path, [], []]) == Csv.Field(path) + [Csv.COMMA, Csv.COMMA, Csv.NEWLINE]
  {
    var fields: seq<seq<byte>> := [path, [], []];
    assert Csv.Plain([]);
    assert fields[1..] == [[], []] && fields[1..][1..] == [[]];
    assert Csv.Line([[]]) == [Csv.NEWLINE];
    assert Csv.Line([[], []]) == [Csv.COMMA, Csv.NEWLINE];
  }

  /** `wheel_record` writes the specified text, or refuses, exactly as specified; the digest text of a file never
      fails to decode. */
  method Render(sha: Sha, input: seq<Entry>, recordPath: seq<byte>) returns (r: Result<seq<byte>, RecordError>)
    ensures r == Record(sha, input, recordPath)
  {
    hide SafePath, Zip.DistinctPaths, Zip.Sorted, Csv.Line, FieldsOf;
    if !SafePath(recordPath) {
      return Err(UnsafePath);
    }
    var checked := ZipWriter.SortedEntries(input);
    if checked.Err? {
      return Err(DuplicatePaths);
    }
    var entries := checked.value;
    var output: seq<byte> := [];
    for i := 0 to |entries|
      invariant output == LinesTo(sha, entries, i)
    {
      var e := entries[i];
      var digest := DecodeHex(Hex(sha(e.contents)));
      DecodesHexExactly(Hex(sha(e.contents)), sha(e.contents));
      LineOf(sha, e);
      output := AppendLine(output, e.path, digest.value, |e.contents|);
    }
    LastLine(recordPath);
    ghost var lines := output;
    output := output + Csv.Field(recordPath);
    output := output + [Csv.COMMA, Csv.COMMA, Csv.NEWLINE];
    assert output == lines + (Csv.Field(recordPath) + [Csv.COMMA, Csv.COMMA, Csv.NEWLINE]);
    return Ok(output);
  }

  method AppendLine(start: seq<byte>, path: seq<byte>, digest: seq<byte>, size: nat) returns (output: seq<byte>)
    ensures output == start + (Csv.Field(path) + [Csv.COMMA] + SHA256_TAG + Base64.Encode(digest) + [Csv.COMMA]
                               + Decimal(size) + [Csv.NEWLINE])
  {
    hide Csv.Field, Base64.Encode, Decimal;
    output := start + Csv.Field(path);
    output := output + [Csv.COMMA] + SHA256_TAG;
    var text := Base64.Base64UrlNoPad(digest);
    output := output + text;
    output := output + [Csv.COMMA];
    output := output + Decimal(size);
    output := output + [Csv.NEWLINE];
  }

  // ---------------------------------------------------------------------------------------
  // A consumer
  // ---------------------------------------------------------------------------------------

  datatype Row = Row(path: seq<byte>, digest: Option<seq<byte>>, size: Option<nat>)

  function ReadHash(field: seq<byte>): Option<Option<seq<byte>>> {
    if field == [] then Some(None)
    else if SHA256_TAG <= field && Base64.Decode(field[|SHA256_TAG|..]).Some?
    then Some(Base64.Decode(field[|SHA256_TAG|..]))
    else None
  }

  function ReadSize(field: seq<byte>): Option<Option<nat>> {
    if field == [] then Some(None)
    else if ParseDecimal(field).Some? then Some(ParseDecimal(field))
    else None
  }

  function ReadRow(fields: seq<seq<byte>>): Option<Row> {
    if |fields| == 3 && ReadHash(fields[1]).Some? && ReadSize(fields[2]).Some?
    then Some(Row(fields[0], ReadHash(fields[1]).value, ReadSize(fields[2]).value))
    else None
  }

  /** Lines as CSV, then each as a row. */
  function Read(text: seq<byte>): Option<seq<Row>>
    decreases |text|
  {
    if text == [] then Some([])
    else
      var line := Csv.ReadLine(text);
      if line.None? || ReadRow(line.value.value).None? then None
      else
        var more := Read(line.value.rest);
        if more.None? then None else Some([ReadRow(line.value.value).value] + more.value)
  }

  function RowOf(sha: Sha, e: Entry): Row {
    Row(e.path, Some(sha(e.contents)), Some(|e.contents|))
  }

  function RowsFrom(sha: Sha, entries: seq<Entry>, recordPath: seq<byte>, i: nat): seq<Row>
    requires i <= |entries|
    decreases |entries| - i
  {
    if i == |entries| then [Row(recordPath, None, None)]
    else [RowOf(sha, entries[i])] + RowsFrom(sha, entries, recordPath, i + 1)
  }

  lemma RowReadsBack(sha: Sha, e: Entry)
    ensures ReadRow(FieldsOf(sha, e)) == Some(RowOf(sha, e))
  {
    var digest := sha(e.contents);
    Base64.DecodeEncode(digest);
    DecimalReadsBack(|e.contents|);
    hide Base64.Encode, Base64.Decode, Decimal;
    assert HashField(digest)[|SHA256_TAG|..] == Base64.Encode(digest);
  }

  /** Reading one line and going on. */
  lemma ReadStep(fields: seq<seq<byte>>, tail: seq<byte>)
    requires fields != [] && ReadRow(fields).Some? && Read(tail).Some?
    ensures Read(Csv.Line(fields) + tail) == Some([ReadRow(fields).value] + Read(tail).value)
  {
    hide Csv.Line, Csv.ReadLine, ReadRow;
    Csv.LineReadsBack(fields, tail);
    LineNonempty(fields);
  }

  lemma LineNonempty(fields: seq<seq<byte>>)
    requires fields != []
    ensures Csv.Line(fields) != []
  {
  }

  /** The lines from the `i`-th entry on. */
  function LinesFrom(sha: Sha, entries: seq<Entry>, recordPath: seq<byte>, i: nat): seq<byte>
    requires i <= |entries|
    decreases |entries| - i
  {
    if i == |entries| then Csv.Line([recordPath, [], []])
    else Csv.Line(FieldsOf(sha, entries[i])) + LinesFrom(sha, entries, recordPath, i + 1)
  }

  lemma {:induction false} TextFrom(sha: Sha, entries: seq<Entry>, recordPath: seq<byte>, i: nat)
    requires i <= |entries|
    ensures RecordText(sha, entries, recordPath) == LinesTo(sha, entries, i) + LinesFrom(sha, entries, recordPath, i)
    decreases |entries| - i
  {
    hide Csv.Line, FieldsOf;
    if i < |entries| {
      TextFrom(sha, entries, recordPath, i + 1);
    }
  }

  lemma {:induction false} LinesReadBack(sha: Sha, entries: seq<Entry>, recordPath: seq<byte>, i: nat)
    requires i <= |entries|
    ensures Read(LinesFrom(sha, entries, recordPath, i)) == Some(RowsFrom(sha, entries, recordPath, i))
    decreases |entries| - i
  {
    hide Csv.Line, Csv.ReadLine;
    if i < |entries| {
      hide Read, ReadRow;
      LinesReadBack(sha, entries, recordPath, i + 1);
      RowReadsBack(sha, entries[i]);
      ReadStep(FieldsOf(sha, entries[i]), LinesFrom(sha, entries, recordPath, i + 1));
    } else {
      assert [Row(recordPath, None, None)] + [] == [Row(recordPath, None, None)];
      assert ReadRow([recordPath, [], []]) == Some(Row(recordPath, None, None)) && Read([]) == Some([]);
      ReadStep([recordPath, [], []], []);
      assert Csv.Line([recordPath, [], []]) + [] == Csv.Line([recordPath, [], []]);
    }
  }

  /** The `RECORD` reads back as exactly the sorted (path, digest, size) list followed by its own unhashed row,
      whatever bytes the paths hold. */
  lemma RecordReadsBack(sha: Sha, entries: seq<Entry>, recordPath: seq<byte>)
    requires Record(sha, entries, recordPath).Ok?
    ensures Read(Record(sha, entries, recordPath).value)
         == Some(RowsFrom(sha, Zip.Sorted(entries), recordPath, 0))
  {
    hide LinesFrom, RowsFrom, Read;
    var sorted := Zip.Sorted(entries);
    TextFrom(sha, sorted, recordPath, 0);
    assert LinesTo(sha, sorted, 0) + LinesFrom(sha, sorted, recordPath, 0) == LinesFrom(sha, sorted, recordPath, 0);
    LinesReadBack(sha, sorted, recordPath, 0);
  }
}
