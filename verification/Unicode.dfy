/** The two Unicode encodings the evidence code relies on: UTF-8 for the hashed bytes and
    UTF-16BE for the order of object keys. A Dafny `char` is a Unicode scalar value. */
module Unicode {
  import opened Bytes

  // ----- UTF-8 -----

  function Utf8Char(c: char): (b: seq<Byte>)
    ensures 1 <= |b| <= 4
  {
    var n := c as int;
    if n < 0x80 then [n]
    else if n < 0x800 then [0xC0 + n / 0x40, 0x80 + n % 0x40]
    else if n < 0x10000 then [0xE0 + n / 0x1000, 0x80 + n / 0x40 % 0x40, 0x80 + n % 0x40]
    else [0xF0 + n / 0x40000, 0x80 + n / 0x1000 % 0x40, 0x80 + n / 0x40 % 0x40, 0x80 + n % 0x40]
  }

  // str.encode("utf-8") on a string of scalar values
  function Utf8(s: string): seq<Byte> {
    if s == "" then [] else Utf8Char(s[0]) + Utf8(s[1..])
  }

  predicate Continuation(b: Byte) {
    0x80 <= b < 0xC0
  }

  // The range the second byte must lie in, by lead byte (well-formed UTF-8 sequences).
  predicate SecondByte(lead: Byte, b: Byte) {
    && Continuation(b)
    && (lead == 0xE0 ==> b >= 0xA0)
    && (lead == 0xED ==> b < 0xA0)
    && (lead == 0xF0 ==> b >= 0x90)
    && (lead == 0xF4 ==> b < 0x90)
  }

  const REPLACEMENT: char := '\U{FFFD}'

  datatype Decoded = Decoded(c: char, width: nat)

  // The scalar value of a multi-byte sequence.
  function Scalar2(x: int, y: int): int {
    (x - 0xC0) * 0x40 + (y - 0x80)
  }

  function Scalar3(x: int, y: int, z: int): int {
    (x - 0xE0) * 0x1000 + (y - 0x80) * 0x40 + (z - 0x80)
  }

  function Scalar4(x: int, y: int, z: int, w: int): int {
    (x - 0xF0) * 0x40000 + (y - 0x80) * 0x1000 + (z - 0x80) * 0x40 + (w - 0x80)
  }

  // One step of bytes.decode("utf-8", errors="replace"): a well-formed sequence gives its
  // scalar value, a maximal ill-formed prefix gives one replacement character.
  function DecodeStep(b: seq<Byte>): (d: Decoded)
    requires b != []
    ensures 1 <= d.width <= |b|
  {
    var lead := b[0];
    if lead < 0x80 then Decoded(lead as char, 1)
    else if lead < 0xC2 || lead > 0xF4 || |b| < 2 || !SecondByte(lead, b[1]) then Decoded(REPLACEMENT, 1)
    else if lead < 0xE0 then Decoded(Scalar2(lead, b[1]) as char, 2)
    else if |b| < 3 || !Continuation(b[2]) then Decoded(REPLACEMENT, 2)
    else if lead < 0xF0 then Decoded(Scalar3(lead, b[1], b[2]) as char, 3)
    else if |b| < 4 || !Continuation(b[3]) then Decoded(REPLACEMENT, 3)
    else Decoded(Scalar4(lead, b[1], b[2], b[3]) as char, 4)
  }

  function Decode(b: seq<Byte>): string {
    if b == [] then "" else
      var d := DecodeStep(b);
      [d.c] + Decode(b[d.width..])
  }

  lemma EncodedBytes(c: char)
    ensures var u := Utf8Char(c);
      || (|u| == 1 && u[0] < 0x80 && u[0] == c as int)
      || (|u| == 2 && 0xC2 <= u[0] < 0xE0 && SecondByte(u[0], u[1]) && Scalar2(u[0], u[1]) == c as int)
      || (|u| == 3 && 0xE0 <= u[0] < 0xF0 && SecondByte(u[0], u[1]) && Continuation(u[2])
          && Scalar3(u[0], u[1], u[2]) == c as int)
      || (|u| == 4 && 0xF0 <= u[0] <= 0xF4 && SecondByte(u[0], u[1]) && Continuation(u[2]) && Continuation(u[3])
          && Scalar4(u[0], u[1], u[2], u[3]) == c as int)
  {
    var n := c as int;
    var q := n / 0x40;
    assert n == q * 0x40 + n % 0x40;
    var r := q / 0x40;
    assert q == r * 0x40 + q % 0x40;
    assert n / 0x1000 == r;
    var t := r / 0x40;
    assert r == t * 0x40 + r % 0x40;
    assert n / 0x40000 == t;
  }

  lemma DecodeStepEncoded(c: char, rest: seq<Byte>)
    ensures DecodeStep(Utf8Char(c) + rest) == Decoded(c, |Utf8Char(c)|)
  {
    EncodedBytes(c);
    var u := Utf8Char(c);
    var b := u + rest;
    assert b[0] == u[0];
    assert |u| >= 2 ==> b[1] == u[1];
    assert |u| >= 3 ==> b[2] == u[2];
    assert |u| >= 4 ==> b[3] == u[3];
  }

  // Decoding undoes encoding, so strings with equal UTF-8 bytes are equal.
  lemma {:induction false} Utf8RoundTrip(s: string)
    ensures Decode(Utf8(s)) == s
  {
    if s != "" {
      var u := Utf8Char(s[0]);
      DecodeStepEncoded(s[0], Utf8(s[1..]));
      assert Utf8(s)[|u|..] == Utf8(s[1..]);
      Utf8RoundTrip(s[1..]);
    }
  }

  const LF: Byte := 10

  lemma DecodeStepStopsAtLineFeed(a: seq<Byte>, b: seq<Byte>)
    requires a != []
    ensures DecodeStep(a + [LF] + b) == DecodeStep(a)
  {
    var whole := a + [LF] + b;
    assert forall i :: 0 <= i < |a| ==> whole[i] == a[i];
    assert whole[|a|] == LF;
    assert !Continuation(LF);
  }

  // A line feed never sits inside a multi-byte sequence and stops an ill-formed one exactly
  // where the end of the data would, so decoding splits at every line feed.
  lemma {:induction false} DecodeSplitsAtLineFeed(a: seq<Byte>, b: seq<Byte>)
    ensures Decode(a + [LF] + b) == Decode(a) + "\n" + Decode(b)
  {
    var whole := a + [LF] + b;
    if a == [] {
      assert whole == [LF] + b;
      assert whole[1..] == b;
      assert (LF as char) == '\n';
    } else {
      var d := DecodeStep(a);
      DecodeStepStopsAtLineFeed(a, b);
      assert whole[d.width..] == a[d.width..] + [LF] + b;
      DecodeSplitsAtLineFeed(a[d.width..], b);
    }
  }

  // ----- UTF-16BE, the key order of RFC 8785 section 3.2.3 -----

  function BigEndian(unit: int): seq<Byte>
    requires 0 <= unit < 0x10000
  {
    [unit / 0x100, unit % 0x100]
  }

  function Utf16Char(c: char): seq<Byte> {
    var n := c as int;
    if n < 0x10000 then BigEndian(n)
    else BigEndian(0xD800 + (n - 0x10000) / 0x400) + BigEndian(0xDC00 + (n - 0x10000) % 0x400)
  }

  // str.encode("utf-16-be")
  function Utf16(s: string): seq<Byte> {
    if s == "" then [] else Utf16Char(s[0]) + Utf16(s[1..])
  }

  lemma Utf16CharPrefixFree(c: char, d: char, x: seq<Byte>, y: seq<Byte>)
    requires Utf16Char(c) + x == Utf16Char(d) + y
    ensures c == d && x == y
  {
    var u, v := Utf16Char(c), Utf16Char(d);
    assert u[0] == (u + x)[0] == (v + y)[0] == v[0];
    assert u[1] == (u + x)[1] == (v + y)[1] == v[1];
    if |u| == 4 && |v| == 4 {
      assert u[2] == (u + x)[2] == (v + y)[2] == v[2];
      assert u[3] == (u + x)[3] == (v + y)[3] == v[3];
    }
    assert c == d;
    assert x == (u + x)[|u|..] == (v + y)[|v|..] == y;
  }

  lemma {:induction false} Utf16Injective(s: string, t: string)
    requires Utf16(s) == Utf16(t)
    ensures s == t
  {
    if s != "" && t != "" {
      Utf16CharPrefixFree(s[0], t[0], Utf16(s[1..]), Utf16(t[1..]));
      Utf16Injective(s[1..], t[1..]);
      assert s == [s[0]] + s[1..] == [t[0]] + t[1..] == t;
    }
  }
}
