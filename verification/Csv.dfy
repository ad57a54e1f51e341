/** Comma-separated text on bytes: the field quoting of crates/ost-build/src/consumer_archive.rs and a reader that
    follows the grammar of section 2 of RFC 4180, with a line feed as the line break. */
module Csv {
  import opened Prelude

  const COMMA: byte := 44
  const QUOTE: byte := 34
  const NEWLINE: byte := 10
  const RETURN: byte := 13

  predicate Special(c: byte) {
    c == COMMA || c == QUOTE || c == NEWLINE || c == RETURN
  }

  predicate Plain(value: seq<byte>) {
    forall i | 0 <= i < |value| :: !Special(value[i])
  }

  /** `replace('"', "\"\"")`. */
  function Doubled(value: seq<byte>): seq<byte> {
    if value == [] then [] else Escape(value[0]) + Doubled(value[1..])
  }

  function Escape(c: byte): seq<byte> {
    if c == QUOTE then [QUOTE, QUOTE] else [c]
  }

  /** `csv_field`. */
  function Field(value: seq<byte>): seq<byte> {
    if Plain(value) then value else [QUOTE] + (Doubled(value) + [QUOTE])
  }

  /** A line: the fields, separated by commas. */
  function Line(fields: seq<seq<byte>>): seq<byte>
    requires fields != []
  {
    if |fields| == 1 then Field(fields[0]) + [NEWLINE] else Field(fields[0]) + ([COMMA] + Line(fields[1..]))
  }

  // ---------------------------------------------------------------------------------------
  // The reader
  // ---------------------------------------------------------------------------------------

  /** What a reader has found, and the text it has not looked at yet. */
  datatype Found<T> = Found(value: T, rest: seq<byte>)

  /** `non-escaped`: everything up to the next special byte. */
  function ReadPlain(s: seq<byte>): (r: Found<seq<byte>>)
    ensures |r.rest| <= |s|
  {
    if s == [] || Special(s[0]) then Found([], s)
    else var more := ReadPlain(s[1..]); Found([s[0]] + more.value, more.rest)
  }

  /** The inside of `escaped`, after its opening quote: a doubled quote is a quote, a single one ends the field. */
  function ReadQuoted(s: seq<byte>): (r: Option<Found<seq<byte>>>)
    ensures r.Some? ==> |r.value.rest| < |s|
  {
    if s == [] then None
    else if s[0] == QUOTE && !(|s| > 1 && s[1] == QUOTE) then Some(Found([], s[1..]))
    else
      var more := ReadQuoted(if s[0] == QUOTE then s[2..] else s[1..]);
      if more.None? then None else Some(Found([s[0]] + more.value.value, more.value.rest))
  }

  function ReadField(s: seq<byte>): (r: Option<Found<seq<byte>>>)
    ensures r.Some? ==> |r.value.rest| <= |s|
  {
    if s != [] && s[0] == QUOTE then ReadQuoted(s[1..]) else Some(ReadPlain(s))
  }

  function ReadLine(s: seq<byte>): (r: Option<Found<seq<seq<byte>>>>)
    ensures r.Some? ==> |r.value.rest| < |s|
    decreases |s|
  {
    var field := ReadField(s);
    if field.None? || field.value.rest == [] then None
    else
      var f, rest := field.value.value, field.value.rest;
      if rest[0] == NEWLINE then Some(Found([f], rest[1..]))
      else if rest[0] != COMMA then None
      else
        var more := ReadLine(rest[1..]);
        if more.None? then None else Some(Found([f] + more.value.value, more.value.rest))
  }

  // ---------------------------------------------------------------------------------------
  // Every field reads back, whatever bytes it holds
  // ---------------------------------------------------------------------------------------

  lemma {:induction false} PlainReadsBack(value: seq<byte>, tail: seq<byte>)
    requires Plain(value) && tail != [] && Special(tail[0])
    ensures ReadPlain(value + tail) == Found(value, tail)
  {
    if value == [] {
      assert value + tail == tail;
    } else {
      assert (value + tail)[1..] == value[1..] + tail;
      PlainReadsBack(value[1..], tail);
      assert value == [value[0]] + value[1..];
    }
  }

  lemma QuotedStep(c: byte, rest: seq<byte>)
    ensures ReadQuoted(Escape(c) + rest) ==
      if ReadQuoted(rest).None? then None else Some(Found([c] + ReadQuoted(rest).value.value, ReadQuoted(rest).value.rest))
  {
    var s := Escape(c) + rest;
    assert s[|Escape(c)|..] == rest;
  }

  lemma {:induction false} QuotedReadsBack(value: seq<byte>, end: seq<byte>)
    requires end != [] && end[0] == QUOTE && (|end| > 1 ==> end[1] != QUOTE)
    ensures ReadQuoted(Doubled(value) + end) == Some(Found(value, end[1..]))
  {
    if value == [] {
      assert Doubled(value) + end == end;
    } else {
      DoubledTail(value, end);
      hide *;
      QuotedReadsBack(value[1..], end);
      QuotedStep(value[0], Doubled(value[1..]) + end);
      assert value == [value[0]] + value[1..];
    }
  }

  lemma DoubledTail(value: seq<byte>, end: seq<byte>)
    requires value != []
    ensures Doubled(value) + end == Escape(value[0]) + (Doubled(value[1..]) + end)
  {
  }

  lemma FieldReadsBack(value: seq<byte>, tail: seq<byte>)
    requires tail != [] && (tail[0] == COMMA || tail[0] == NEWLINE)
    ensures ReadField(Field(value) + tail) == Some(Found(value, tail))
  {
    hide Doubled, ReadQuoted, ReadPlain;
    if Plain(value) {
      PlainReadsBack(value, tail);
      assert (value + tail)[0] != QUOTE;
    } else {
      QuotedReadsBack(value, [QUOTE] + tail);
      QuotedField(Doubled(value), tail);
    }
  }

  lemma QuotedField(inner: seq<byte>, tail: seq<byte>)
    ensures var s := [QUOTE] + (inner + [QUOTE]) + tail; s[0] == QUOTE && s[1..] == inner + ([QUOTE] + tail)
    ensures ([QUOTE] + tail)[1..] == tail
  {
  }

  /** A written line is read back field by field, even when fields hold commas, quotes or line breaks. */
  lemma {:induction false} LineReadsBack(fields: seq<seq<byte>>, tail: seq<byte>)
    requires fields != []
    ensures ReadLine(Line(fields) + tail) == Some(Found(fields, tail))
    decreases |fields|
  {
    hide Field, ReadField;
    if |fields| == 1 {
      var after := [NEWLINE] + tail;
      FieldReadsBack(fields[0], after);
      assert Line(fields) + tail == Field(fields[0]) + after;
      assert after[1..] == tail && fields == [fields[0]];
    } else {
      var after := [COMMA] + (Line(fields[1..]) + tail);
      FieldReadsBack(fields[0], after);
      assert Line(fields) + tail == Field(fields[0]) + after;
      assert after[1..] == Line(fields[1..]) + tail;
      LineReadsBack(fields[1..], tail);
      assert fields == [fields[0]] + fields[1..];
    }
  }
}
