/** Little-endian integers and fixed-layout headers: how the archive writer puts numbers into bytes, and how a
    reader gets them back. */
module Bytes {
  import opened Prelude

  /** `to_le_bytes` of the low `width` bytes. */
  function LE(n: nat, width: nat): (s: seq<byte>)
    ensures |s| == width
  {
    if width == 0 then [] else [n % 256] + LE(n / 256, width - 1)
  }

  function FromLE(s: seq<byte>): nat {
    if s == [] then 0 else s[0] + 256 * FromLE(s[1..])
  }

  function Pow256(width: nat): nat {
    if width == 0 then 1 else 256 * Pow256(width - 1)
  }

  lemma {:induction false} LittleEndianReadsBack(n: nat, width: nat)
    requires n < Pow256(width)
    ensures FromLE(LE(n, width)) == n
  {
    if width > 0 {
      assert n / 256 < Pow256(width - 1);
      LittleEndianReadsBack(n / 256, width - 1);
      assert LE(n, width)[1..] == LE(n / 256, width - 1);
    }
  }

  /** `part` occurs in `bytes` at `pos`. */
  predicate At(bytes: seq<byte>, pos: nat, part: seq<byte>) {
    pos + |part| <= |bytes| && forall i {:trigger part[i]} | 0 <= i < |part| :: bytes[pos + i] == part[i]
  }

  lemma AtSlice(bytes: seq<byte>, pos: nat, part: seq<byte>)
    ensures At(bytes, pos, part) <==> pos + |part| <= |bytes| && bytes[pos..pos + |part|] == part
  {
    if pos + |part| <= |bytes| && bytes[pos..pos + |part|] == part {
      forall i | 0 <= i < |part| ensures bytes[pos + i] == part[i] {
        assert bytes[pos..pos + |part|][i] == bytes[pos + i];
      }
    }
  }

  lemma AtSplit(bytes: seq<byte>, pos: nat, a: seq<byte>, b: seq<byte>)
    ensures At(bytes, pos, a + b) <==> At(bytes, pos, a) && At(bytes, pos + |a|, b)
  {
    if At(bytes, pos, a + b) {
      forall i | 0 <= i < |a| ensures bytes[pos + i] == a[i] {
        assert (a + b)[i] == a[i];
      }
      forall i | 0 <= i < |b| ensures bytes[pos + |a| + i] == b[i] {
        assert (a + b)[|a| + i] == b[i];
      }
    }
  }

  /** Three parts in a row lie one after the other. */
  lemma ThreeParts(a: seq<byte>, b: seq<byte>, c: seq<byte>)
    ensures At(a + (b + c), 0, a) && At(a + (b + c), |a|, b) && At(a + (b + c), |a| + |b|, c)
  {
    var bytes := a + (b + c);
    assert At(bytes, 0, bytes);
    AtSplit(bytes, 0, a, b + c);
    AtSplit(bytes, |a|, b, c);
  }

  // ---------------------------------------------------------------------------------------
  // Headers: sequences of fixed-width fields
  // ---------------------------------------------------------------------------------------

  datatype Field = Field(width: nat, value: nat)

  predicate Fits(f: Field) {
    f.value < Pow256(f.width)
  }

  /** The bytes of the first `n` fields. */
  function EncodeTo(fields: seq<Field>, n: nat): seq<byte>
    requires n <= |fields|
  {
    if n == 0 then [] else EncodeTo(fields, n - 1) + LE(fields[n - 1].value, fields[n - 1].width)
  }

  function Encode(fields: seq<Field>): seq<byte> {
    EncodeTo(fields, |fields|)
  }

  /** The total width of the first `n` fields of a layout. */
  function Offset(layout: seq<nat>, n: nat): nat
    requires n <= |layout|
  {
    if n == 0 then 0 else Offset(layout, n - 1) + layout[n - 1]
  }

  /** A reader's view: the first `n` numbers of a layout, starting at `pos`. */
  function ReadFields(bytes: seq<byte>, pos: nat, layout: seq<nat>, n: nat): (r: Option<seq<nat>>)
    requires n <= |layout|
    ensures r.Some? ==> |r.value| == n
  {
    if n == 0 then (if pos <= |bytes| then Some([]) else None)
    else
      var front := ReadFields(bytes, pos, layout, n - 1);
      var at := pos + Offset(layout, n - 1);
      if front.None? || at + layout[n - 1] > |bytes| then None
      else Some(front.value + [FromLE(bytes[at..at + layout[n - 1]])])
  }

  predicate HasLayout(fields: seq<Field>, layout: seq<nat>) {
    |fields| == |layout| && forall i | 0 <= i < |fields| :: fields[i].width == layout[i]
  }

  function ValuesTo(fields: seq<Field>, n: nat): (values: seq<nat>)
    requires n <= |fields|
    ensures |values| == n
  {
    seq(n, i requires 0 <= i < n => fields[i].value)
  }

  function Values(fields: seq<Field>): seq<nat> {
    ValuesTo(fields, |fields|)
  }

  lemma {:induction false} EncodeLength(fields: seq<Field>, layout: seq<nat>, n: nat)
    requires HasLayout(fields, layout) && n <= |layout|
    ensures |EncodeTo(fields, n)| == Offset(layout, n)
  {
    if n > 0 {
      EncodeLength(fields, layout, n - 1);
    }
  }

  /** Fields whose values fit are read back exactly. */
  lemma {:induction false} FieldsReadBack(bytes: seq<byte>, pos: nat, fields: seq<Field>, layout: seq<nat>, n: nat)
    requires HasLayout(fields, layout) && n <= |layout| && At(bytes, pos, EncodeTo(fields, n))
    requires forall i | 0 <= i < |fields| :: Fits(fields[i])
    ensures ReadFields(bytes, pos, layout, n) == Some(ValuesTo(fields, n))
  {
    if n > 0 {
      var f := fields[n - 1];
      AtSplit(bytes, pos, EncodeTo(fields, n - 1), LE(f.value, f.width));
      AtSlice(bytes, pos + |EncodeTo(fields, n - 1)|, LE(f.value, f.width));
      FieldsReadBack(bytes, pos, fields, layout, n - 1);
      EncodeLength(fields, layout, n - 1);
      LittleEndianReadsBack(f.value, f.width);
      assert ValuesTo(fields, n) == ValuesTo(fields, n - 1) + [f.value];
    }
  }

  /** The whole header at once. */
  lemma HeaderReadsBack(bytes: seq<byte>, pos: nat, fields: seq<Field>, layout: seq<nat>)
    requires HasLayout(fields, layout) && At(bytes, pos, Encode(fields))
    requires forall i | 0 <= i < |fields| :: Fits(fields[i])
    ensures ReadFields(bytes, pos, layout, |layout|) == Some(Values(fields))
    ensures |Encode(fields)| == Offset(layout, |layout|)
  {
    FieldsReadBack(bytes, pos, fields, layout, |layout|);
    EncodeLength(fields, layout, |layout|);
  }

  /** A header followed by a name and the rest of its record. */
  lemma RecordReadsBack(bytes: seq<byte>, pos: nat, fields: seq<Field>, layout: seq<nat>, name: seq<byte>, rest: seq<byte>)
    requires HasLayout(fields, layout) && At(bytes, pos, Encode(fields) + (name + rest))
    requires forall i | 0 <= i < |fields| :: Fits(fields[i])
    ensures ReadFields(bytes, pos, layout, |layout|) == Some(Values(fields))
    ensures |Encode(fields)| == Offset(layout, |layout|)
    ensures At(bytes, pos + Offset(layout, |layout|), name)
    ensures At(bytes, pos + Offset(layout, |layout|) + |name|, rest)
  {
    AtSplit(bytes, pos, Encode(fields), name + rest);
    HeaderReadsBack(bytes, pos, fields, layout);
    AtSplit(bytes, pos + |Encode(fields)|, name, rest);
  }
}
