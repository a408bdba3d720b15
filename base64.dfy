/**
 * The "base64" encoding of section 4 of RFC 4648: every three bytes become four
 * six-bit values written with a 64-character alphabet, and a final group of one or
 * two bytes gives two or three values completed with "=" padding. The application
 * encodes the image bytes with it before the analysis request, and the analyzer
 * decodes them again.
 *
 * Both directions go through the sequence of six-bit values, so that the bit
 * arithmetic (Sextets/Bytes) and the alphabet (EncodeChar/DecodeChar) are proved
 * separately.
 */
module Base64 {
  import opened Wrappers

  type byte = b: int | 0 <= b < 256

  /** A six-bit value. */
  type sextet = v: int | 0 <= v < 64

  const Pad: char := '='

  /** Value to character, after Table 1 of RFC 4648. */
  function EncodeChar(v: sextet): (c: char)
    ensures c != Pad
    ensures 'A' <= c <= 'Z' || 'a' <= c <= 'z' || '0' <= c <= '9' || c == '+' || c == '/'
  {
    if v < 26 then ('A' as int + v) as char
    else if v < 52 then ('a' as int + (v - 26)) as char
    else if v < 62 then ('0' as int + (v - 52)) as char
    else if v == 62 then '+'
    else '/'
  }

  /** Character to value; None for a character outside the alphabet (padding included). */
  function DecodeChar(c: char): (r: Option<sextet>)
    ensures r.Some? ==> EncodeChar(r.value) == c
  {
    if 'A' <= c <= 'Z' then Some(c as int - 'A' as int)
    else if 'a' <= c <= 'z' then Some(c as int - 'a' as int + 26)
    else if '0' <= c <= '9' then Some(c as int - '0' as int + 52)
    else if c == '+' then Some(62)
    else if c == '/' then Some(63)
    else None
  }

  predicate InAlphabet(c: char) {
    DecodeChar(c).Some?
  }

  /** Every value has its own character, and that character is not the padding. */
  lemma DecodeEncodeChar(v: sextet)
    ensures DecodeChar(EncodeChar(v)) == Some(v)
    ensures EncodeChar(v) != Pad
  {
  }

  /** Number of "=" characters that close the encoding of n bytes. */
  function PadCount(n: nat): nat {
    (3 - n % 3) % 3
  }

  /** The six-bit values of the bytes, four per group of three and two or three for
      a final group of one or two bytes. */
  function Sextets(data: seq<byte>): (vs: seq<sextet>)
    ensures |vs| == |data| + (|data| + 2) / 3
    decreases |data|
  {
    if |data| == 0 then []
    else if |data| == 1 then [data[0] / 4, (data[0] % 4) * 16]
    else if |data| == 2 then [data[0] / 4, (data[0] % 4) * 16 + data[1] / 16, (data[1] % 16) * 4]
    else
      [data[0] / 4, (data[0] % 4) * 16 + data[1] / 16, (data[1] % 16) * 4 + data[2] / 64, data[2] % 64]
      + Sextets(data[3..])
  }

  /** Bytes back from six-bit values; the low bits of a final partial group are ignored,
      as Python's decoder ignores them. */
  function Bytes(vs: seq<sextet>): seq<byte>
    requires |vs| % 4 != 1
    decreases |vs|
  {
    if |vs| == 0 then []
    else
      var v0, v1, v2: int := vs[0], vs[1], if |vs| >= 3 then vs[2] else 0;
      if |vs| == 2 then [v0 * 4 + v1 / 16]
      else if |vs| == 3 then [v0 * 4 + v1 / 16, (v1 % 16) * 16 + v2 / 4]
      else [v0 * 4 + v1 / 16, (v1 % 16) * 16 + v2 / 4, (v2 % 4) * 64 + vs[3]] + Bytes(vs[4..])
  }

  function Chars(vs: seq<sextet>): (t: string)
    ensures |t| == |vs|
    ensures forall i :: 0 <= i < |vs| ==> t[i] == EncodeChar(vs[i])
  {
    seq(|vs|, i requires 0 <= i < |vs| => EncodeChar(vs[i]))
  }

  function Values(t: string): (vs: seq<sextet>)
    requires forall i :: 0 <= i < |t| ==> InAlphabet(t[i])
    ensures |vs| == |t|
  {
    seq<sextet>(|t|, i requires 0 <= i < |t| && InAlphabet(t[i]) => DecodeChar(t[i]).value)
  }

  function Pads(n: nat): (t: string)
    ensures |t| == n && forall i :: 0 <= i < n ==> t[i] == Pad
  {
    seq(n, i => Pad)
  }

  /** Python's `base64.b64encode(data).decode("utf-8")`. */
  function Encode(data: seq<byte>): (t: string)
    ensures |t| == 4 * ((|data| + 2) / 3)
  {
    Chars(Sextets(data)) + Pads(PadCount(|data|))
  }

  /** Number of "=" at the end of the text, at most two. */
  function TrailingPads(t: string): (n: nat)
    ensures n <= 2 && n <= |t|
  {
    if |t| >= 2 && t[|t| - 1] == Pad && t[|t| - 2] == Pad then 2
    else if |t| >= 1 && t[|t| - 1] == Pad then 1
    else 0
  }

  /** Decoding of section 4 of RFC 4648; None when the text is not a padded encoding. */
  function Decode(t: string): (r: Option<seq<byte>>)
    ensures |t| % 4 != 0 ==> r.None?
    ensures r.Some? ==> forall i :: 0 <= i < |t| - TrailingPads(t) ==> InAlphabet(t[i])
  {
    if |t| % 4 != 0 then None
    else
      var body := t[..|t| - TrailingPads(t)];
      if forall i :: 0 <= i < |body| ==> InAlphabet(body[i]) then Some(Bytes(Values(body)))
      else None
  }

  /** Encoded text: a multiple of four characters, all from the alphabet except the last
      `pads` characters, which are "=". */
  predicate WellFormed(t: string, pads: nat) {
    |t| % 4 == 0 && pads <= 2 && pads <= |t| &&
    forall i :: 0 <= i < |t| ==> if i < |t| - pads then InAlphabet(t[i]) else t[i] == Pad
  }

  /** The encoder emits only alphabet characters, followed by exactly the padding the
      length of the input calls for. */
  lemma EncodeWellFormed(data: seq<byte>)
    ensures WellFormed(Encode(data), PadCount(|data|))
  {
    var vs := Sextets(data);
    var t := Encode(data);
    forall i | 0 <= i < |vs| ensures InAlphabet(t[i]) {
      DecodeEncodeChar(vs[i]);
    }
  }

  /** The characters of some values are in the alphabet, and their values are those values. */
  lemma ValuesOfChars(vs: seq<sextet>)
    ensures forall i :: 0 <= i < |vs| ==> InAlphabet(Chars(vs)[i])
    ensures Values(Chars(vs)) == vs
  {
    var t := Chars(vs);
    forall i | 0 <= i < |vs| ensures InAlphabet(t[i]) && DecodeChar(t[i]).value == vs[i] {
      DecodeEncodeChar(vs[i]);
    }
  }

  /** The bit arithmetic of one group of three bytes. */
  lemma GroupArithmetic(b0: byte, b1: byte, b2: byte)
    ensures var c1, c2 := (b0 % 4) * 16 + b1 / 16, (b1 % 16) * 4 + b2 / 64;
      (b0 / 4) * 4 + c1 / 16 == b0 && (c1 % 16) * 16 + c2 / 4 == b1 && (c2 % 4) * 64 + b2 % 64 == b2
  {
  }

  /** A final group of one byte reads back as that byte. */
  lemma OneByteGroup(b0: byte)
    ensures Bytes(Sextets([b0])) == [b0]
  {
    assert ((b0 % 4) * 16) / 16 == b0 % 4;
  }

  /** A final group of two bytes reads back as those bytes. */
  lemma TwoByteGroup(b0: byte, b1: byte)
    ensures Bytes(Sextets([b0, b1])) == [b0, b1]
  {
    GroupArithmetic(b0, b1, 0);
  }

  /** The first four values of three or more bytes read back as the first three bytes. */
  lemma GroupBytes(data: seq<byte>)
    requires |data| >= 3
    ensures var vs := Sextets(data); var v0, v1, v2, v3: int := vs[0], vs[1], vs[2], vs[3];
      v0 * 4 + v1 / 16 == data[0] && (v1 % 16) * 16 + v2 / 4 == data[1] && (v2 % 4) * 64 + v3 == data[2]
  {
    GroupArithmetic(data[0], data[1], data[2]);
  }

  /** Four or more values read back as three bytes from the first four, then the rest. */
  lemma BytesStep(vs: seq<sextet>)
    requires |vs| >= 4 && |vs[4..]| % 4 != 1
    ensures |vs| % 4 != 1
    ensures var v0, v1, v2, v3: int := vs[0], vs[1], vs[2], vs[3];
      Bytes(vs) == [v0 * 4 + v1 / 16, (v1 % 16) * 16 + v2 / 4, (v2 % 4) * 64 + v3] + Bytes(vs[4..])
  {
    var n := |vs[4..]|;
    assert |vs| == n + 4;
    assert (n + 4) % 4 == n % 4;
  }

  /** A full group of three bytes reads back as those bytes, followed by the rest. */
  lemma FullGroup(data: seq<byte>)
    requires |data| >= 3 && |Sextets(data[3..])| % 4 != 1
    ensures |Sextets(data)| % 4 != 1
    ensures Bytes(Sextets(data)) == data[..3] + Bytes(Sextets(data[3..]))
  {
    var vs := Sextets(data);
    assert vs[4..] == Sextets(data[3..]);
    BytesStep(vs);
    GroupBytes(data);
    assert data[..3] == [data[0], data[1], data[2]];
  }

  /** Reading back the values of some bytes gives the bytes. */
  lemma {:induction false} BytesOfSextets(data: seq<byte>)
    ensures |Sextets(data)| % 4 != 1
    ensures Bytes(Sextets(data)) == data
    decreases |data|
  {
    if |data| == 1 {
      OneByteGroup(data[0]);
      assert data == [data[0]];
    } else if |data| == 2 {
      TwoByteGroup(data[0], data[1]);
      assert data == [data[0], data[1]];
    } else if |data| >= 3 {
      BytesOfSextets(data[3..]);
      FullGroup(data);
      assert data == data[..3] + data[3..];
    }
  }

  /** A step of `PaddingOfEncoding`, kept apart so that its nonlinear term stays out of the
      larger proof. */
  lemma FourPerGroup(groups: nat)
    ensures (4 * groups) % 4 == 0
  {
  }

  /** The decoder counts exactly the padding the encoder wrote, and what precedes it is the
      characters of the values. */
  lemma PaddingOfEncoding(data: seq<byte>)
    ensures var t := Encode(data); var p := PadCount(|data|);
      |t| % 4 == 0 && TrailingPads(t) == p && p <= |t| && t[..|t| - p] == Chars(Sextets(data))
  {
    FourPerGroup((|data| + 2) / 3);
    var vs := Sextets(data);
    var t := Encode(data);
    var p := PadCount(|data|);
    assert t == Chars(vs) + Pads(p);
    if |vs| > 0 {
      DecodeEncodeChar(vs[|vs| - 1]);
      assert t[|vs| - 1] == EncodeChar(vs[|vs| - 1]);
    }
    assert t[..|t| - p] == Chars(vs);
  }

  /** Decoding an encoding gives back the original bytes. */
  lemma RoundTrip(data: seq<byte>)
    ensures Decode(Encode(data)) == Some(data)
  {
    var vs := Sextets(data);
    var t := Encode(data);
    PaddingOfEncoding(data);
    var body := t[..|t| - TrailingPads(t)];
    assert body == Chars(vs);
    ValuesOfChars(vs);
    assert Values(body) == vs;
    BytesOfSextets(data);
  }

  /** Different byte strings have different encodings. */
  lemma EncodeInjective(a: seq<byte>, b: seq<byte>)
    requires Encode(a) == Encode(b)
    ensures a == b
  {
    RoundTrip(a);
    RoundTrip(b);
  }
}
