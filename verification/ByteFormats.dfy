/** The exact bytes that are hashed, signed and shown: hexadecimal, UTF-8, leaves, nodes and domains. */
module ByteFormats {
  import opened Bytes
  import opened Unicode
  import opened Json
  import opened TreeShape
  import opened Merkle
  import opened Evidence

  // ----- hexadecimal -----

  /** Each byte is shown by its high and its low digit, in lower case. */
  lemma {:induction false} HexShows(b: seq<Byte>, i: nat)
    requires i < |b|
    ensures Hex(b)[2 * i] == HEX_DIGITS[b[i] / 16] && Hex(b)[2 * i + 1] == HEX_DIGITS[b[i] % 16]
  {
    if i > 0 {
      HexShows(b[1..], i - 1);
      var s, pair := Hex(b), [HexDigit(b[0] / 16), HexDigit(b[0] % 16)];
      assert s[2 * i] == Hex(b[1..])[2 * (i - 1)] && s[2 * i + 1] == Hex(b[1..])[2 * (i - 1) + 1];
    } else {
      HexDigitIs(b[0] / 16);
      HexDigitIs(b[0] % 16);
    }
  }

  // Reading hexadecimal takes either letter case and skips white space between bytes.
  lemma HexReads(c: char, d: char, rest: string)
    ensures IsAsciiSpace(c) <==> c as int == 32 || 9 <= c as int <= 13
    ensures IsHexDigit(c) <==> 48 <= c as int <= 57 || 65 <= c as int <= 70 || 97 <= c as int <= 102
    ensures 65 <= c as int <= 70 ==> HexValue(c) == c as int - 55
    ensures IsAsciiSpace(c) ==> FromHex([c] + rest) == FromHex(rest)
    ensures IsHexDigit(c) && IsHexDigit(d) && FromHex(rest).Some? ==>
      FromHex([c, d] + rest) == Some([HexValue(c) * 16 + HexValue(d)] + FromHex(rest).value)
  {
    assert ([c] + rest)[1..] == rest && ([c, d] + rest)[2..] == rest;
  }

  // ----- UTF-8 -----

  /** A character takes one to four bytes by its size; the first byte tells how many and starts the number,
      each further one adds six bits. */
  lemma Utf8Shows(c: char)
    ensures
      var n, u := c as int, Utf8Char(c);
      if n < 0x80 then |u| == 1 && u[0] == n
      else if n < 0x800 then
        |u| == 2 && 192 <= u[0] < 224 && 128 <= u[1] < 192 && n == (u[0] as int - 192) * 64 + (u[1] as int - 128)
      else if n < 0x10000 then
        && |u| == 3 && 224 <= u[0] < 240 && 128 <= u[1] < 192 && 128 <= u[2] < 192
        && n == (u[0] as int - 224) * 4096 + (u[1] as int - 128) * 64 + (u[2] as int - 128)
      else
        && |u| == 4 && 240 <= u[0] < 248 && 128 <= u[1] < 192 && 128 <= u[2] < 192 && 128 <= u[3] < 192
        && n == (u[0] as int - 240) * 262144 + (u[1] as int - 128) * 4096
                + (u[2] as int - 128) * 64 + (u[3] as int - 128)
  {
    EncodedBytes(c);
    assert c as int < 0x11_0000;
  }

  lemma {:induction false} Utf8Joins(s: string, c: char)
    ensures Utf8("") == [] && Utf8(s + [c]) == Utf8(s) + Utf8Char(c)
  {
    if s == "" {
      assert [c][1..] == "" && "" + [c] == [c];
      assert Utf8Char(c) + [] == Utf8Char(c);
    } else {
      assert (s + [c])[1..] == s[1..] + [c];
      Utf8Joins(s[1..], c);
    }
  }

  lemma StepIsStrict(b: seq<Byte>)
    requires b != []
    ensures var d := DecodeStep(b); d.c != REPLACEMENT ==> Utf8Char(d.c) == b[..d.width]
  {
    var d := DecodeStep(b);
    if d.c != REPLACEMENT {
      if d.width == 1 {
        assert b[..1] == [b[0]];
      } else if d.width == 2 {
        assert b[..2] == [b[0], b[1]];
        assert d.c as int == (b[0] as int - 0xC0) * 0x40 + (b[1] as int - 0x80);
      } else if d.width == 3 {
        StepOfThree(b);
      } else {
        StepOfFour(b);
      }
    }
  }

  lemma StepOfThree(b: seq<Byte>)
    requires b != [] && DecodeStep(b).c != REPLACEMENT && DecodeStep(b).width == 3
    ensures Utf8Char(DecodeStep(b).c) == b[..3]
  {
    var x, y, z, n := b[0] as int - 0xE0, b[1] as int - 0x80, b[2] as int - 0x80, DecodeStep(b).c as int;
    assert b[..3] == [b[0], b[1], b[2]];
    assert n == (x * 0x40 + y) * 0x40 + z;
    assert n / 0x40 == x * 0x40 + y && n % 0x40 == z;
    assert n / 0x1000 == x;
  }

  lemma StepOfFour(b: seq<Byte>)
    requires b != [] && DecodeStep(b).c != REPLACEMENT && DecodeStep(b).width == 4
    ensures Utf8Char(DecodeStep(b).c) == b[..4]
  {
    var x, y, z, w := b[0] as int - 0xF0, b[1] as int - 0x80, b[2] as int - 0x80, b[3] as int - 0x80;
    var n := DecodeStep(b).c as int;
    assert b[..4] == [b[0], b[1], b[2], b[3]];
    assert n == ((x * 0x40 + y) * 0x40 + z) * 0x40 + w;
    assert n / 0x40 == (x * 0x40 + y) * 0x40 + z && n % 0x40 == w;
    assert n / 0x40 % 0x40 == z && n / 0x1000 == x * 0x40 + y;
    assert n / 0x1000 % 0x40 == y && n / 0x40000 == x;
  }

  lemma DecodeBegins(b: seq<Byte>)
    requires b != []
    ensures var d := DecodeStep(b); Decode(b) == [d.c] + Decode(b[d.width..])
  {
    hide DecodeStep;
  }

  lemma InTail(c: char, tail: string, x: char)
    requires x !in [c] + tail
    ensures x != c && x !in tail
  {
    assert ([c] + tail)[0] == c;
    assert tail == ([c] + tail)[1..];
  }

  lemma Utf8Begins(c: char, rest: string)
    ensures Utf8([c] + rest) == Utf8Char(c) + Utf8(rest)
  {
    hide Utf8Char;
    assert ([c] + rest)[1..] == rest;
  }

  lemma StrictStep(b: seq<Byte>)
    requires b != [] && DecodeStep(b).c != REPLACEMENT
    requires Utf8(Decode(b[DecodeStep(b).width..])) == b[DecodeStep(b).width..]
    ensures Utf8(Decode(b)) == b
  {
    hide *;
    var d := DecodeStep(b);
    var w := d.width;
    DecodeBegins(b);
    StepIsStrict(b);
    Utf8Begins(d.c, Decode(b[w..]));
    CutAndJoin(b, w);
  }

  lemma CutAndJoin(b: seq<Byte>, w: nat)
    requires w <= |b|
    ensures b[..w] + b[w..] == b
  {
  }

  lemma TailIsClean(b: seq<Byte>)
    requires b != [] && REPLACEMENT !in Decode(b)
    ensures DecodeStep(b).c != REPLACEMENT && REPLACEMENT !in Decode(b[DecodeStep(b).width..])
  {
    hide *;
    DecodeBegins(b);
    InTail(DecodeStep(b).c, Decode(b[DecodeStep(b).width..]), REPLACEMENT);
  }

  /** Decoding is strict: bytes that decode without a replacement character are the encoding of the text. */
  lemma {:induction false} DecodeIsStrict(b: seq<Byte>)
    requires REPLACEMENT !in Decode(b)
    ensures Utf8(Decode(b)) == b
  {
    if b == [] {
      NothingEncoded();
    } else {
      hide *;
      TailIsClean(b);
      DecodeIsStrict(b[DecodeStep(b).width..]);
      StrictStep(b);
    }
  }

  lemma NothingEncoded()
    ensures Utf8(Decode([])) == []
  {
  }

  // An ill-formed sequence gives one replacement character up to the first byte that cannot go on.
  lemma IllFormedShows()
    ensures Decode([0xE2, 0x82]) == [REPLACEMENT] && Decode([0xE0, 0x80]) == [REPLACEMENT, REPLACEMENT]
    ensures Decode([0xF0, 0x9F, 0x41]) == [REPLACEMENT, 'A'] && Decode([0xED, 0xA0]) == [REPLACEMENT, REPLACEMENT]
  {
    var none: seq<Byte> := [];
    assert [0xE2, 0x82][2..] == none && [0xE0, 0x80][1..] == [0x80] && [0x80][1..] == none;
    assert [0xF0, 0x9F, 0x41][2..] == [0x41] && [0x41][1..] == none;
    assert [0xED, 0xA0][1..] == [0xA0] && [0xA0][1..] == none;
    assert Decode(none) == "" && Decode([0x80]) == [REPLACEMENT] && Decode([0xA0]) == [REPLACEMENT];
    assert Decode([0x41]) == ['A'];
  }

  // ----- the tree -----

  const LEAF_TEXT := Ascii("NAUTGATE-MERKLE-LEAF-V1\0")
  const NODE_TEXT := Ascii("NAUTGATE-MERKLE-NODE-V1\0")

  function IsPowerOfTwo(n: nat): bool {
    n == 1 || (n > 1 && n % 2 == 0 && IsPowerOfTwo(n / 2))
  }

  lemma {:induction false} SplitIsPower(n: nat)
    requires n > 1
    ensures IsPowerOfTwo(Split(n)) && Split(n) < n <= 2 * Split(n)
  {
    if n > 2 {
      SplitIsPower((n + 1) / 2);
      assert Split(n) / 2 == Split((n + 1) / 2);
    }
  }

  /** The root of one receipt is the hash of its digest behind the leaf text; that of more is the hash of the
      roots of the first receipts, of which there are the largest power of two below their number, and of the
      rest, behind the node text. */
  lemma RootIs(h: HashFunction, ds: seq<Digest>, k: nat)
    requires ds != [] && (|ds| > 1 ==> IsPowerOfTwo(k) && k < |ds| <= 2 * k)
    ensures |ds| == 1 ==> Root(h, ds) == h(LEAF_TEXT + ds[0])
    ensures |ds| > 1 ==>
      Root(h, ds) == h(NODE_TEXT + Root(h, ds[..k]) + Root(h, ds[k..]))
  {
    if |ds| > 1 {
      SplitIsPower(|ds|);
      OnePower(k, Split(|ds|), |ds|);
      RootSplits(h, ds);
    }
  }

  lemma {:induction false} OnePower(j: nat, k: nat, n: nat)
    requires IsPowerOfTwo(j) && IsPowerOfTwo(k) && j < n <= 2 * j && k < n <= 2 * k
    ensures j == k
  {
    if j > 1 && k > 1 {
      OnePower(j / 2, k / 2, (n + 1) / 2);
    }
  }

  /** One step of a proof puts the sibling on its side. */
  lemma StepIs(h: HashFunction, d: Digest, proof: seq<ProofItem>, item: ProofItem)
    ensures ProofRoot(h, d, []) == h(LEAF_TEXT + d)
    ensures item.side == Left ==>
      ProofRoot(h, d, proof + [item]) == h(NODE_TEXT + item.sibling + ProofRoot(h, d, proof))
    ensures item.side == Right ==>
      ProofRoot(h, d, proof + [item]) == h(NODE_TEXT + ProofRoot(h, d, proof) + item.sibling)
  {
    assert (proof + [item])[..|proof|] == proof;
  }

  // ----- receipts and checkpoints -----

  const DECISION := Ascii("NAUTGATE-DECISION-RECEIPT-V1\0")
  const CONTROL := Ascii("NAUTGATE-MAX-GUARD-CONTROL-RECEIPT-V1\0")
  const CHECKPOINT := Ascii("NAUTGATE-AUDIT-CHECKPOINT-V1\0")

  function Named(o: Object, schema: string): bool {
    Get(o, "schema") == Some(Str(schema))
  }

  /** A receipt of each schema is hashed behind its own text, and anything else is refused. */
  lemma ReceiptHashIs(h: HashFunction, receipt: Object)
    ensures
      var json := CanonicalJson(Obj(receipt));
      ReceiptHash(h, receipt) ==
        if json.None? then None
        else if Named(receipt, "dev.nautgate.decision-receipt/v1") then Some(h(DECISION + json.value))
        else if Named(receipt, "dev.nautgate.max-guard-control-receipt/v1") then Some(h(CONTROL + json.value))
        else None
  {
    hide Canonical, DECISION, CONTROL, Utf8;
    DomainsAre();
  }

  lemma DomainsAre()
    ensures DECISION == RECEIPT_DOMAIN && CONTROL == CONTROL_RECEIPT_DOMAIN && CHECKPOINT == CHECKPOINT_DOMAIN
  {
  }

  lemma CheckpointPayloadIs(checkpoint: Object)
    ensures
      var json := CanonicalJson(Obj(checkpoint));
      CheckpointPayload(checkpoint) ==
        if json.Some? && Named(checkpoint, "dev.nautgate.audit-checkpoint/v1") then Some(CHECKPOINT + json.value)
        else None
  {
    hide Canonical, Utf8;
    DomainsAre();
  }
}
