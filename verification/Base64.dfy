/** Unpadded base64url (section 5 of RFC 4648): the chunk encoder of crates/ost-build/src/consumer_archive.rs and
    the bit-accumulator decoder of crates/ost-artifact/src/policy.rs, each proved against a digit-by-digit
    reading of the standard. Text is bytes. */
module Base64 {
  import opened Prelude

  type sextet = x: int | 0 <= x < 64

  function Symbol(v: sextet): byte {
    if v < 26 then 'A' as int + v
    else if v < 52 then 'a' as int + (v - 26)
    else if v < 62 then '0' as int + (v - 52)
    else if v == 62 then '-' as int
    else '_' as int
  }

  function SymbolValue(c: byte): Option<sextet> {
    if 'A' as int <= c <= 'Z' as int then Some(c - 'A' as int)
    else if 'a' as int <= c <= 'z' as int then Some(c - 'a' as int + 26)
    else if '0' as int <= c <= '9' as int then Some(c - '0' as int + 52)
    else if c == '-' as int then Some(62)
    else if c == '_' as int then Some(63)
    else None
  }

  lemma SymbolsAreDistinct(v: sextet, c: byte)
    ensures SymbolValue(c) == Some(v) <==> c == Symbol(v)
  {
  }

  // ---------------------------------------------------------------------------------------
  // The standard, digit by digit
  // ---------------------------------------------------------------------------------------

  // Three octets are four sextets: cutting, and joining again.

  function Cut0(a: byte): sextet { a / 4 }
  function Cut1(a: byte, b: byte): sextet { a % 4 * 16 + b / 16 }
  function Cut2(b: byte, c: byte): sextet { b % 16 * 4 + c / 64 }
  function Cut3(c: byte): sextet { c % 64 }

  function Join0(w: sextet, x: sextet): byte { w * 4 + x / 16 }
  function Join1(x: sextet, y: sextet): byte { x % 16 * 16 + y / 4 }
  function Join2(y: sextet, z: sextet): byte { y % 4 * 64 + z }

  lemma CutThenJoin(a: byte, b: byte, c: byte)
    ensures Join0(Cut0(a), Cut1(a, b)) == a
    ensures Join1(Cut1(a, b), Cut2(b, c)) == b
    ensures Join2(Cut2(b, c), Cut3(c)) == c
  {
  }

  lemma JoinThenCut(w: sextet, x: sextet, y: sextet, z: sextet)
    ensures Cut0(Join0(w, x)) == w
    ensures Cut1(Join0(w, x), Join1(x, y)) == x && (x % 16 == 0 ==> Cut1(Join0(w, x), 0) == x)
    ensures Cut2(Join1(x, y), Join2(y, z)) == y && (y % 4 == 0 ==> Cut2(Join1(x, y), 0) == y)
    ensures Cut3(Join2(y, z)) == z
  {
  }

  /** Octet `i`, or the zero padding past the end. */
  function Octet(bytes: seq<byte>, i: nat): byte {
    if i < |bytes| then bytes[i] else 0
  }

  /** Bits `6j .. 6j+6` of the octet string. */
  function Sextet(bytes: seq<byte>, j: nat): sextet {
    var q := j / 4 * 3;
    if j % 4 == 0 then Cut0(Octet(bytes, q))
    else if j % 4 == 1 then Cut1(Octet(bytes, q), Octet(bytes, q + 1))
    else if j % 4 == 2 then Cut2(Octet(bytes, q + 1), Octet(bytes, q + 2))
    else Cut3(Octet(bytes, q + 2))
  }

  function EncodedLength(n: nat): nat {
    (4 * n + 2) / 3
  }

  function Encode(bytes: seq<byte>): seq<byte> {
    seq(EncodedLength(|bytes|), j requires 0 <= j => Symbol(Sextet(bytes, j)))
  }

  predicate InAlphabet(text: seq<byte>) {
    forall i | 0 <= i < |text| :: SymbolValue(text[i]).Some?
  }

  /** The value of the `i`-th digit (zero where it is not one). */
  function Digit(text: seq<byte>, i: nat): sextet
    requires i < |text|
  {
    if SymbolValue(text[i]).Some? then SymbolValue(text[i]).value else 0
  }

  /** Bits `8k .. 8k+8` of the digit string. */
  function DecodedOctet(text: seq<byte>, k: nat): byte
    requires k / 3 * 4 + k % 3 + 1 < |text|
  {
    var q := k / 3 * 4;
    if k % 3 == 0 then Join0(Digit(text, q), Digit(text, q + 1))
    else if k % 3 == 1 then Join1(Digit(text, q + 1), Digit(text, q + 2))
    else Join2(Digit(text, q + 2), Digit(text, q + 3))
  }

  /** The octets that the first `n` digits complete. */
  function DecodedTo(text: seq<byte>, n: nat): (out: seq<byte>)
    requires n <= |text|
    ensures |out| == n * 3 / 4
  {
    seq(n * 3 / 4, k requires 0 <= k < n * 3 / 4 => DecodedOctet(text, k))
  }

  /** The number of bits that the first `n` digits leave over. */
  function LeftoverBits(n: nat): nat {
    if n % 4 == 0 then 0 else 8 - 2 * (n % 4)
  }

  /** The value of those bits. */
  function Leftover(text: seq<byte>, n: nat): nat
    requires n <= |text|
  {
    if n % 4 == 0 then 0
    else if n % 4 == 1 then Digit(text, n - 1)
    else if n % 4 == 2 then Digit(text, n - 1) % 16
    else Digit(text, n - 1) % 4
  }

  function Decode(text: seq<byte>): Option<seq<byte>> {
    if |text| % 4 == 1 || !InAlphabet(text) || Leftover(text, |text|) != 0 then None
    else Some(DecodedTo(text, |text|))
  }

  // ---------------------------------------------------------------------------------------
  // The two are exact inverses
  // ---------------------------------------------------------------------------------------

  lemma EncodedDigits(bytes: seq<byte>)
    ensures InAlphabet(Encode(bytes))
    ensures forall j | 0 <= j < |Encode(bytes)| :: Digit(Encode(bytes), j) == Sextet(bytes, j)
  {
    hide Symbol, SymbolValue, Sextet;
    var text := Encode(bytes);
    forall j | 0 <= j < |text| ensures SymbolValue(text[j]) == Some(Sextet(bytes, j)) {
      SymbolsAreDistinct(Sextet(bytes, j), text[j]);
    }
  }

  lemma GroupSextets(bytes: seq<byte>, q: nat)
    ensures Sextet(bytes, 4 * q) == Cut0(Octet(bytes, 3 * q))
    ensures Sextet(bytes, 4 * q + 1) == Cut1(Octet(bytes, 3 * q), Octet(bytes, 3 * q + 1))
    ensures Sextet(bytes, 4 * q + 2) == Cut2(Octet(bytes, 3 * q + 1), Octet(bytes, 3 * q + 2))
    ensures Sextet(bytes, 4 * q + 3) == Cut3(Octet(bytes, 3 * q + 2))
  {
    hide Octet, Cut0, Cut1, Cut2, Cut3;
    assert 4 * q / 4 == q && (4 * q + 1) / 4 == q && (4 * q + 2) / 4 == q && (4 * q + 3) / 4 == q;
  }

  lemma GroupOctets(text: seq<byte>, q: nat)
    ensures 4 * q + 1 < |text| ==> DecodedOctet(text, 3 * q) == Join0(Digit(text, 4 * q), Digit(text, 4 * q + 1))
    ensures 4 * q + 2 < |text| ==> DecodedOctet(text, 3 * q + 1) == Join1(Digit(text, 4 * q + 1), Digit(text, 4 * q + 2))
    ensures 4 * q + 3 < |text| ==> DecodedOctet(text, 3 * q + 2) == Join2(Digit(text, 4 * q + 2), Digit(text, 4 * q + 3))
  {
    hide Digit, Join0, Join1, Join2;
    assert (3 * q) / 3 == q && (3 * q + 1) / 3 == q && (3 * q + 2) / 3 == q;
  }

  /** The octet that neighbouring sextets of an octet string spell is the octet they came from. */
  lemma OctetComesBack(bytes: seq<byte>, text: seq<byte>, q: nat)
    requires |text| == EncodedLength(|bytes|) && 3 * q < |bytes|
    requires forall j | 0 <= j < |text| :: Digit(text, j) == Sextet(bytes, j)
    ensures 4 * q + 1 < |text| && DecodedOctet(text, 3 * q) == bytes[3 * q]
    ensures 3 * q + 1 < |bytes| ==> 4 * q + 2 < |text| && DecodedOctet(text, 3 * q + 1) == bytes[3 * q + 1]
    ensures 3 * q + 2 < |bytes| ==> 4 * q + 3 < |text| && DecodedOctet(text, 3 * q + 2) == bytes[3 * q + 2]
  {
    hide Digit, Sextet, DecodedOctet, Cut0, Cut1, Cut2, Cut3, Join0, Join1, Join2;
    GroupSextets(bytes, q);
    GroupOctets(text, q);
    CutThenJoin(Octet(bytes, 3 * q), Octet(bytes, 3 * q + 1), Octet(bytes, 3 * q + 2));
  }

  /** Decoding an encoded octet string gives it back. */
  lemma DecodeEncode(bytes: seq<byte>)
    ensures Decode(Encode(bytes)) == Some(bytes)
  {
    var text := Encode(bytes);
    EncodedDigits(bytes);
    hide Sextet, Symbol, SymbolValue, DecodedOctet, Digit;
    forall k | 0 <= k < |bytes| ensures DecodedTo(text, |text|)[k] == bytes[k] {
      OctetComesBack(bytes, text, k / 3);
    }
    NoBitsLeft(bytes);
    assert DecodedTo(text, |text|) == bytes;
  }

  lemma NoBitsLeft(bytes: seq<byte>)
    requires forall j | 0 <= j < |Encode(bytes)| :: Digit(Encode(bytes), j) == Sextet(bytes, j)
    ensures Leftover(Encode(bytes), |Encode(bytes)|) == 0 && |Encode(bytes)| % 4 != 1
  {
    hide InAlphabet, Digit;
  }

  /** Only canonical text is accepted: what decodes to `bytes` is the encoding of `bytes`. */
  lemma DecodeIsCanonical(text: seq<byte>, bytes: seq<byte>)
    requires Decode(text) == Some(bytes)
    ensures text == Encode(bytes)
  {
    hide Sextet, Symbol, SymbolValue, DecodedOctet, Digit;
    assert |Encode(bytes)| == |text|;
    assert InAlphabet(text);
    hide Decode, InAlphabet, Leftover, DecodedTo;
    forall j | 0 <= j < |text| ensures Encode(bytes)[j] == text[j] {
      DigitIsCanonical(text, bytes, j);
    }
  }

  lemma DigitIsCanonical(text: seq<byte>, bytes: seq<byte>, j: nat)
    requires Decode(text) == Some(bytes) && InAlphabet(text) && j < |text|
    ensures Symbol(Sextet(bytes, j)) == text[j]
  {
    hide *;
    assert j == 4 * (j / 4) + j % 4;
    SextetComesBack(text, bytes, j / 4);
    SymbolOfDigit(text, j);
  }

  lemma SymbolOfDigit(text: seq<byte>, j: nat)
    requires InAlphabet(text) && j < |text|
    ensures Symbol(Digit(text, j)) == text[j]
  {
    SymbolsAreDistinct(Digit(text, j), text[j]);
  }

  lemma SextetComesBack(text: seq<byte>, bytes: seq<byte>, q: nat)
    requires Decode(text) == Some(bytes) && 4 * q < |text|
    ensures Sextet(bytes, 4 * q) == Digit(text, 4 * q)
    ensures 4 * q + 1 < |text| && Sextet(bytes, 4 * q + 1) == Digit(text, 4 * q + 1)
    ensures 4 * q + 2 < |text| ==> Sextet(bytes, 4 * q + 2) == Digit(text, 4 * q + 2)
    ensures 4 * q + 3 < |text| ==> Sextet(bytes, 4 * q + 3) == Digit(text, 4 * q + 3)
  {
    hide *;
    GroupOfText(text, bytes, q);
    GroupSextets(bytes, q);
    JoinThenCut(Digit(text, 4 * q), Digit(text, 4 * q + 1),
                if 4 * q + 2 < |text| then Digit(text, 4 * q + 2) else 0,
                if 4 * q + 3 < |text| then Digit(text, 4 * q + 3) else 0);
  }

  lemma GroupLengths(n: nat, q: nat)
    requires 4 * q < n && n % 4 != 1
    ensures 4 * q + 1 < n && 3 * q < n * 3 / 4
    ensures 4 * q + 2 < n <==> 3 * q + 1 < n * 3 / 4
    ensures 4 * q + 3 < n <==> 3 * q + 2 < n * 3 / 4
    ensures (4 * q + 2 == n ==> n % 4 == 2) && (4 * q + 3 == n ==> n % 4 == 3)
  {
  }

  /** The octets of the `q`-th group, by the digits that are there. */
  lemma GroupOfText(text: seq<byte>, bytes: seq<byte>, q: nat)
    requires Decode(text) == Some(bytes) && 4 * q < |text|
    ensures 4 * q + 1 < |text| && Octet(bytes, 3 * q) == Join0(Digit(text, 4 * q), Digit(text, 4 * q + 1))
    ensures
      if 4 * q + 2 < |text| then Octet(bytes, 3 * q + 1) == Join1(Digit(text, 4 * q + 1), Digit(text, 4 * q + 2))
      else Octet(bytes, 3 * q + 1) == 0 == Digit(text, 4 * q + 1) % 16
    ensures 4 * q + 2 < |text| ==>
      if 4 * q + 3 < |text| then Octet(bytes, 3 * q + 2) == Join2(Digit(text, 4 * q + 2), Digit(text, 4 * q + 3))
      else Octet(bytes, 3 * q + 2) == 0 == Digit(text, 4 * q + 2) % 4
  {
    hide InAlphabet, Digit, DecodedOctet, Join0, Join1, Join2;
    GroupOctets(text, q);
    GroupLengths(|text|, q);
  }

  /** The decoder is the exact inverse of the encoder, on every text. */
  lemma DecodesExactly(text: seq<byte>, bytes: seq<byte>)
    ensures Decode(text) == Some(bytes) <==> text == Encode(bytes)
  {
    DecodeEncode(bytes);
    if Decode(text) == Some(bytes) {
      DecodeIsCanonical(text, bytes);
    }
  }

  // ---------------------------------------------------------------------------------------
  // base64_url_no_pad: three octets at a time through a 24-bit value
  // ---------------------------------------------------------------------------------------

  lemma SextetsOfValue(a: byte, b: byte, c: byte, value: nat)
    requires value == a * 0x1_0000 + b * 0x100 + c
    ensures value / 0x4_0000 % 64 == Cut0(a) && value / 0x1000 % 64 == Cut1(a, b)
    ensures value / 64 % 64 == Cut2(b, c) && value % 64 == Cut3(c)
  {
    assert value == Cut0(a) * 0x4_0000 + Cut1(a, b) * 0x1000 + Cut2(b, c) * 64 + Cut3(c);
    FourDigits(Cut0(a), Cut1(a, b), Cut2(b, c), Cut3(c), value);
  }

  lemma FourDigits(s0: sextet, s1: sextet, s2: sextet, s3: sextet, value: nat)
    requires value == s0 * 0x4_0000 + s1 * 0x1000 + s2 * 64 + s3
    ensures value / 0x4_0000 % 64 == s0 && value / 0x1000 % 64 == s1 && value / 64 % 64 == s2 && value % 64 == s3
  {
    assert value / 64 == s0 * 0x1000 + s1 * 64 + s2;
    assert value / 0x1000 == s0 * 64 + s1;
    assert value / 0x4_0000 == s0;
  }

  method Base64UrlNoPad(bytes: seq<byte>) returns (output: seq<byte>)
    ensures output == Encode(bytes)
  {
    hide Symbol, Sextet, Octet;
    output := [];
    var q := 0;
    while 3 * q < |bytes|
      invariant |output| == if 3 * q <= |bytes| then 4 * q else EncodedLength(|bytes|)
      invariant forall j | 0 <= j < |output| :: output[j] == Symbol(Sextet(bytes, j))
    {
      var chunk := bytes[3 * q..if 3 * q + 3 <= |bytes| then 3 * q + 3 else |bytes|];
      var digits := EncodeChunk(chunk, bytes, q);
      output := output + digits;
      q := q + 1;
    }
  }

  lemma ChunkSextets(bytes: seq<byte>, q: nat, value: nat)
    requires value == Octet(bytes, 3 * q) * 0x1_0000 + Octet(bytes, 3 * q + 1) * 0x100 + Octet(bytes, 3 * q + 2)
    ensures value / 0x4_0000 % 64 == Sextet(bytes, 4 * q) && value / 0x1000 % 64 == Sextet(bytes, 4 * q + 1)
    ensures value / 64 % 64 == Sextet(bytes, 4 * q + 2) && value % 64 == Sextet(bytes, 4 * q + 3)
  {
    hide *;
    SextetsOfValue(Octet(bytes, 3 * q), Octet(bytes, 3 * q + 1), Octet(bytes, 3 * q + 2), value);
    GroupSextets(bytes, q);
  }

  /** One round of the loop: the digits of one chunk. */
  method EncodeChunk(chunk: seq<byte>, ghost bytes: seq<byte>, ghost q: nat) returns (digits: seq<byte>)
    requires 3 * q < |bytes| && chunk == bytes[3 * q..if 3 * q + 3 <= |bytes| then 3 * q + 3 else |bytes|]
    ensures |digits| == |chunk| + 1
    ensures digits[0] == Symbol(Sextet(bytes, 4 * q)) && digits[1] == Symbol(Sextet(bytes, 4 * q + 1))
    ensures |digits| > 2 ==> digits[2] == Symbol(Sextet(bytes, 4 * q + 2))
    ensures |digits| > 3 ==> digits[3] == Symbol(Sextet(bytes, 4 * q + 3))
  {
    var first: nat := chunk[0];
    var second: nat := if |chunk| > 1 then chunk[1] else 0;
    var third: nat := if |chunk| > 2 then chunk[2] else 0;
    var value := first * 0x1_0000 + second * 0x100 + third;
    assert first == Octet(bytes, 3 * q) && second == Octet(bytes, 3 * q + 1) && third == Octet(bytes, 3 * q + 2);
    hide *;
    ChunkSextets(bytes, q, value);
    var d0, d1, d2, d3 := value / 0x4_0000 % 64, value / 0x1000 % 64, value / 64 % 64, value % 64;
    digits := [Symbol(d0), Symbol(d1)];
    if |chunk| > 1 {
      digits := digits + [Symbol(d2)];
    }
    if |chunk| > 2 {
      digits := digits + [Symbol(d3)];
    }
  }

  // ---------------------------------------------------------------------------------------
  // decode_base64url: one digit at a time through a bit accumulator
  // ---------------------------------------------------------------------------------------

  function Pow2(n: nat): (p: nat)
    ensures p > 0
  {
    if n == 0 then 1 else 2 * Pow2(n - 1)
  }

  lemma SmallPowers()
    ensures Pow2(0) == 1 && Pow2(2) == 4 && Pow2(4) == 16 && Pow2(6) == 64
  {
    assert Pow2(1) == 2 && Pow2(3) == 8 && Pow2(5) == 32;
  }

  /** The octet that digit `i` completes. */
  function Completed(text: seq<byte>, i: nat): byte
    requires i < |text| && i % 4 != 0
  {
    if i % 4 == 1 then Join0(Digit(text, i - 1), Digit(text, i))
    else if i % 4 == 2 then Join1(Digit(text, i - 1), Digit(text, i))
    else Join2(Digit(text, i - 1), Digit(text, i))
  }

  lemma OutputStep(text: seq<byte>, i: nat)
    requires i < |text|
    ensures DecodedTo(text, i + 1) == DecodedTo(text, i) + if i % 4 == 0 then [] else [Completed(text, i)]
  {
    hide Digit;
    if i % 4 != 0 {
      var k := i * 3 / 4;
      assert k / 3 * 4 == i / 4 * 4 && k % 3 == i % 4 - 1;
      assert DecodedOctet(text, k) == Completed(text, i);
    }
  }

  /** One digit more, in the accumulator's arithmetic: the bits stay below the capacity (so a 32-bit word never
      overflows and the octet taken off is never truncated). */
  lemma AccumulatorStep(text: seq<byte>, i: nat, acc: nat)
    requires i < |text| && acc == Leftover(text, i) * 64 + Digit(text, i)
    ensures acc < 0x1000 && Leftover(text, i + 1) < Pow2(LeftoverBits(i + 1))
    ensures i % 4 == 0 ==> LeftoverBits(i) + 6 == LeftoverBits(i + 1) < 8 && acc == Leftover(text, i + 1)
    ensures i % 4 != 0 ==>
      && LeftoverBits(i) + 6 == LeftoverBits(i + 1) + 8
      && acc / Pow2(LeftoverBits(i + 1)) == Completed(text, i)
      && acc % Pow2(LeftoverBits(i + 1)) == Leftover(text, i + 1)
  {
    hide Digit;
    SmallPowers();
    var d: nat := Digit(text, i);
    if i % 4 == 1 {
      Shifted(Leftover(text, i), d, 4, 16);
    } else if i % 4 == 2 {
      Shifted(Leftover(text, i), d, 16, 4);
    } else if i % 4 == 3 {
      Shifted(Leftover(text, i), d, 64, 1);
    }
  }

  lemma Shifted(leftover: nat, d: nat, scale: nat, unit: nat)
    requires (scale == 4 && unit == 16) || (scale == 16 && unit == 4) || (scale == 64 && unit == 1)
    ensures (leftover * 64 + d) / unit == leftover * scale + d / unit && (leftover * 64 + d) % unit == d % unit
  {
  }

  lemma NothingDecoded(text: seq<byte>)
    ensures LeftoverBits(0) == 0 && Leftover(text, 0) == 0 && Pow2(0) == 1 && DecodedTo(text, 0) == []
  {
  }

  method DecodeBase64Url(value: seq<byte>) returns (r: Option<seq<byte>>)
    ensures r == Decode(value)
  {
    NothingDecoded(value);
    hide SymbolValue, Leftover, LeftoverBits, DecodedTo, Pow2, Completed;
    if |value| % 4 == 1 {
      return None;
    }
    var output: seq<byte>, accumulator: nat, bits: nat := [], 0, 0;
    for i := 0 to |value|
      invariant forall j | 0 <= j < i :: SymbolValue(value[j]).Some?
      invariant bits == LeftoverBits(i) && accumulator == Leftover(value, i) < Pow2(bits)
      invariant output == DecodedTo(value, i)
    {
      var decoded := SymbolValue(value[i]);
      if decoded.None? {
        return None;
      }
      OutputStep(value, i);
      accumulator := accumulator * 64 + decoded.value;
      AccumulatorStep(value, i, accumulator);
      assert accumulator < 0x1_0000_0000;
      bits := bits + 6;
      if bits >= 8 {
        bits := bits - 8;
        output := output + [accumulator / Pow2(bits) % 256];
        accumulator := accumulator % Pow2(bits);
      }
    }
    if accumulator != 0 {
      return None;
    }
    return Some(output);
  }
}
