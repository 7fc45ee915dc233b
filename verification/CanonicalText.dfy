/** The canonical text said without the printer: the order of keys as numbers, the layout of arrays and
    objects, decimal notation and escapes. */
module CanonicalText {
  import opened Bytes
  import opened Unicode
  import opened Json

  // ----- the order of keys -----

  // The UTF-16 code units of a character: itself, or a high and a low surrogate.
  function UnitsOfChar(c: char): (units: seq<int>)
    ensures |units| == 1 ==> units[0] == c as int < 0x10000
    ensures |units| == 2 ==> 0xD800 <= units[0] < 0xDC00 <= units[1] < 0xE000
    ensures |units| == 2 ==> c as int == 0x10000 + (units[0] - 0xD800) * 0x400 + (units[1] - 0xDC00)
    ensures 1 <= |units| <= 2
  {
    var n := c as int;
    if n < 0x10000 then [n] else [0xD800 + (n - 0x10000) / 0x400, 0xDC00 + (n - 0x10000) % 0x400]
  }

  function Units(s: string): seq<int> {
    if s == "" then [] else UnitsOfChar(s[0]) + Units(s[1..])
  }

  // A proper prefix, or smaller at the first difference.
  ghost predicate Before(x: seq<int>, y: seq<int>) {
    exists n :: DiffersAt(x, y, n)
  }

  predicate DiffersAt(x: seq<int>, y: seq<int>, n: int) {
    && 0 <= n <= |x| && n < |y| && x[..n] == y[..n]
    && (n == |x| || x[n] < y[n])
  }

  predicate AreUnits(x: seq<int>) {
    forall i :: 0 <= i < |x| ==> 0 <= x[i] < 0x10000
  }

  function BytesOf(x: seq<int>): seq<Byte>
    requires AreUnits(x)
  {
    if x == [] then [] else [x[0] / 0x100, x[0] % 0x100] + BytesOf(x[1..])
  }

  lemma {:induction false} BytesOfJoin(x: seq<int>, y: seq<int>)
    requires AreUnits(x) && AreUnits(y)
    ensures AreUnits(x + y) && BytesOf(x + y) == BytesOf(x) + BytesOf(y)
  {
    if x == [] {
      assert x + y == y;
    } else {
      BytesOfJoin(x[1..], y);
      hide AreUnits;
      assert (x + y)[1..] == x[1..] + y && (x + y)[0] == x[0];
      assert BytesOf(x) == [x[0] / 0x100, x[0] % 0x100] + BytesOf(x[1..]);
    }
  }

  lemma Utf16CharIsUnits(c: char)
    ensures AreUnits(UnitsOfChar(c)) && Utf16Char(c) == BytesOf(UnitsOfChar(c))
  {
    var u := UnitsOfChar(c);
    assert c as int < 0x11_0000;
    if |u| == 1 {
      assert u == [u[0]] && u[1..] == [];
    } else {
      assert u == [u[0]] + [u[1]];
      assert [u[0]][1..] == [] && [u[1]][1..] == [];
      BytesOfJoin([u[0]], [u[1]]);
    }
  }

  lemma {:induction false} Utf16IsUnits(s: string)
    ensures AreUnits(Units(s)) && Utf16(s) == BytesOf(Units(s))
  {
    hide AreUnits, UnitsOfChar, Utf16Char;
    if s == "" {
      NoUnits();
    } else {
      Utf16IsUnits(s[1..]);
      Utf16CharIsUnits(s[0]);
      BytesOfJoin(UnitsOfChar(s[0]), Units(s[1..]));
    }
  }

  lemma NoUnits()
    ensures AreUnits([])
  {
  }

  lemma UnitOrder(m: int, n: int)
    requires 0 <= m < 0x10000 && 0 <= n < 0x10000
    ensures m < n <==> m / 0x100 < n / 0x100 || (m / 0x100 == n / 0x100 && m % 0x100 < n % 0x100)
  {
  }

  lemma {:induction false} BytesOrder(x: seq<int>, y: seq<int>)
    requires AreUnits(x) && AreUnits(y) && x != y && LexLeq(BytesOf(x), BytesOf(y))
    ensures Before(x, y)
  {
    if x == [] {
      assert DiffersAt(x, y, 0);
    } else {
      var a, b := BytesOf(x), BytesOf(y);
      assert y != [];
      assert a[1..][0] == x[0] % 0x100 && b[1..][0] == y[0] % 0x100;
      UnitOrder(x[0], y[0]);
      if x[0] != y[0] {
        UnitOrder(y[0], x[0]);
        assert DiffersAt(x, y, 0);
      } else {
        assert a[1..][1..] == BytesOf(x[1..]) && b[1..][1..] == BytesOf(y[1..]);
        assert x == [x[0]] + x[1..] && y == [y[0]] + y[1..];
        BytesOrder(x[1..], y[1..]);
        var n :| DiffersAt(x[1..], y[1..], n);
        assert x[..n + 1] == [x[0]] + x[1..][..n] && y[..n + 1] == [y[0]] + y[1..][..n];
        assert DiffersAt(x, y, n + 1);
      }
    }
  }

  /** Of two keys of an object the one printed first is a proper prefix of the other, or has the smaller
      16-bit code unit where they first differ. */
  lemma KeysInUnitOrder(ks: set<string>, i: nat, j: nat)
    requires i < j < |SortedKeys(ks)|
    ensures Before(Units(SortedKeys(ks)[i]), Units(SortedKeys(ks)[j]))
  {
    var order := SortedKeys(ks);
    Utf16IsUnits(order[i]);
    Utf16IsUnits(order[j]);
    if Units(order[i]) == Units(order[j]) {
      Utf16Injective(order[i], order[j]);
    }
    BytesOrder(Units(order[i]), Units(order[j]));
  }

  lemma BeforeIsOneWay(x: seq<int>, y: seq<int>)
    requires Before(x, y)
    ensures !Before(y, x) && x != y
  {
    var n :| DiffersAt(x, y, n);
    forall m ensures !DiffersAt(y, x, m) {
      if 0 <= m < n {
        assert x[..n][m] == y[..n][m];
      } else if n < m && m <= |y| && m < |x| {
        assert x[..m][n] == x[n] && y[..m][n] == y[n];
      }
    }
  }

  lemma BeforeIsKeyOrder(a: string, b: string)
    requires Before(Units(a), Units(b))
    ensures KeyLeq(a, b)
  {
    var x, y := Units(a), Units(b);
    BeforeIsOneWay(x, y);
    Utf16IsUnits(a);
    Utf16IsUnits(b);
    LexLeqTotal(Utf16(a), Utf16(b));
    if !LexLeq(Utf16(a), Utf16(b)) {
      BytesOrder(y, x);
    }
  }

  // ----- the layout of objects and arrays -----

  // Each part behind a comma.
  function CommaBefore(parts: seq<string>): string {
    if parts == [] then "" else "," + parts[0] + CommaBefore(parts[1..])
  }

  function Joined(parts: seq<string>): string {
    if parts == [] then "" else parts[0] + CommaBefore(parts[1..])
  }

  lemma JoinedSteps(parts: seq<string>)
    ensures parts == [] ==> Joined(parts) == ""
    ensures |parts| == 1 ==> Joined(parts) == parts[0]
    ensures |parts| > 1 ==> Joined(parts) == parts[0] + "," + Joined(parts[1..])
  {
    if |parts| > 1 {
      var rest := parts[1..];
      assert parts[0] + "," + (rest[0] + CommaBefore(rest[1..])) == parts[0] + ("," + rest[0] + CommaBefore(rest[1..]));
    }
  }

  function MemberText(m: map<string, Value>, k: string): string
    requires Valid(Obj(m)) && k in m
  {
    Quote(k) + ":" + Canonical(m[k])
  }

  lemma {:induction false} MembersJoined(m: map<string, Value>, keys: seq<string>, parts: seq<string>)
    requires Valid(Obj(m)) && (forall k :: k in keys ==> k in m) && |parts| == |keys|
    requires forall i :: 0 <= i < |keys| ==> parts[i] == MemberText(m, keys[i])
    ensures Members(Obj(m), keys) == Joined(parts)
  {
    hide Quote, Canonical, Joined;
    JoinedSteps(parts);
    if |keys| > 1 {
      MembersJoined(m, keys[1..], parts[1..]);
    }
  }

  /** An object is printed with its members in ascending order of the code units of their keys: whichever
      listing of the keys ascends, the text is its members behind one another. */
  lemma ObjectText(m: map<string, Value>, keys: seq<string>, parts: seq<string>)
    requires Valid(Obj(m)) && Lists(keys, m.Keys) && |parts| == |keys|
    requires forall i, j :: 0 <= i < j < |keys| ==> Before(Units(keys[i]), Units(keys[j]))
    requires forall i :: 0 <= i < |keys| ==> parts[i] == MemberText(m, keys[i])
    ensures Canonical(Obj(m)) == "{" + Joined(parts) + "}"
  {
    hide KeyLeq, Before, Joined, Members, Quote;
    forall i, j | 0 <= i < j < |keys| ensures KeyLeq(keys[i], keys[j]) {
      BeforeIsKeyOrder(keys[i], keys[j]);
    }
    SortingForgetsOrder(keys, m.Keys);
    MembersJoined(m, keys, parts);
  }

  lemma {:induction false} ItemsJoined(items: seq<Value>, from: nat, parts: seq<string>)
    requires Valid(Arr(items)) && from <= |items| && |parts| == |items| - from
    requires forall i :: 0 <= i < |parts| ==> parts[i] == Canonical(items[from + i])
    ensures Items(Arr(items), from) == Joined(parts)
    decreases |items| - from
  {
    hide Canonical, Joined;
    JoinedSteps(parts);
    if from + 1 < |items| {
      ItemsJoined(items, from + 1, parts[1..]);
    }
  }

  /** An array is printed with its items in their own order. */
  lemma ArrayText(items: seq<Value>, parts: seq<string>)
    requires Valid(Arr(items)) && |parts| == |items|
    requires forall i :: 0 <= i < |items| ==> parts[i] == Canonical(items[i])
    ensures Canonical(Arr(items)) == "[" + Joined(parts) + "]"
  {
    hide Joined, Items;
    ItemsJoined(items, 0, parts);
  }

  // ----- numbers -----

  function TenTo(n: nat): nat {
    if n == 0 then 1 else 10 * TenTo(n - 1)
  }

  // Decimal notation read from the left.
  function Denotes(s: string): int {
    if s == "" then 0 else (s[0] as int - 48) * TenTo(|s| - 1) + Denotes(s[1..])
  }

  lemma {:induction false} DenotesAppend(s: string, c: char)
    ensures Denotes(s + [c]) == 10 * Denotes(s) + (c as int - 48)
  {
    if s == "" {
      assert [c][1..] == "" && "" + [c] == [c];
    } else {
      assert (s + [c])[1..] == s[1..] + [c];
      DenotesAppend(s[1..], c);
      var d, p := s[0] as int - 48, TenTo(|s| - 1);
      assert d * (10 * p) == 10 * (d * p);
    }
  }

  lemma {:induction false} DecimalDenotes(n: nat)
    ensures Denotes(Decimal(n)) == n && (n > 0 ==> Decimal(n)[0] != '0') && (n == 0 ==> Decimal(n) == "0")
  {
    if n < 10 {
      assert [Digit(n)][1..] == "";
    } else {
      DecimalDenotes(n / 10);
      DenotesAppend(Decimal(n / 10), Digit(n % 10));
    }
  }

  /** An integer is printed in decimal notation with no leading zero, behind a minus sign if negative. */
  lemma IntegerText(n: int)
    requires Valid(Int(n))
    ensures -0x20_0000_0000_0000 < n < 0x20_0000_0000_0000
    ensures
      var text := Canonical(Int(n));
      var digits := if n < 0 then text[1..] else text;
      && text != "" && (n < 0 <==> text[0] == '-')
      && digits != "" && (forall i :: 0 <= i < |digits| ==> '0' <= digits[i] <= '9')
      && Denotes(digits) == (if n < 0 then -n else n) && (digits[0] == '0' ==> n == 0 && digits == "0")
  {
    DecimalDenotes(if n < 0 then -n else n);
  }

  // ----- strings -----

  // RFC 8785 section 3.2.2.2: seven short escapes, six characters for any other control character, and
  // every other character as it is.
  function Escaped(c: char): string {
    var short := map[
      '\"' := "\\\"", '\\' := "\\\\", '\U{8}' := "\\b", '\U{9}' := "\\t", '\U{A}' := "\\n", '\U{C}' := "\\f",
      '\U{D}' := "\\r"];
    if c in short then short[c]
    else if c as int < 0x20 then "\\u00" + [HEX_DIGITS[c as int / 16], HEX_DIGITS[c as int % 16]]
    else [c]
  }

  lemma {:induction false} EscapeAppend(s: string, c: char)
    ensures Escape(s + [c]) == Escape(s) + EscapeChar(c)
  {
    if s == "" {
      assert [c][1..] == "" && "" + [c] == [c];
      assert EscapeChar(c) + "" == EscapeChar(c);
    } else {
      assert (s + [c])[1..] == s[1..] + [c];
      EscapeAppend(s[1..], c);
    }
  }

  /** A string is printed between quotes, character by character. */
  lemma StringText(s: string, c: char)
    ensures Canonical(Str("")) == "\"\""
    ensures
      var open := Canonical(Str(s));
      open != "" && Canonical(Str(s + [c])) == open[..|open| - 1] + Escaped(c) + "\""
  {
    EscapeAppend(s, c);
    EscapedIs(c);
    EmptyQuote();
    hide EscapeChar, Escaped, Escape;
    OpenQuote(s);
    QuoteAppend(Escape(s), Escaped(c));
  }

  lemma EmptyQuote()
    ensures Quote("") == "\"\""
  {
  }

  lemma OpenQuote(s: string)
    ensures Quote(s) != "" && Quote(s)[..|Quote(s)| - 1] == "\"" + Escape(s)
  {
    hide Escape;
  }

  lemma QuoteAppend(front: string, e: string)
    ensures "\"" + (front + e) + "\"" == "\"" + front + e + "\""
  {
    assert "\"" + (front + e) == "\"" + front + e;
  }

  lemma EscapedIs(c: char)
    ensures EscapeChar(c) == Escaped(c)
  {
    if c == '\"' || c == '\\' || c == '\U{8}' || c == '\U{9}' || c == '\U{A}' || c == '\U{C}' || c == '\U{D}' {
      assert EscapeChar(c) == Escaped(c);
    } else if c as int < 0x20 {
      ControlEscaped(c);
    } else {
      assert EscapeChar(c) == [c];
      assert Escaped(c) == [c];
    }
  }

  lemma ControlEscaped(c: char)
    requires c as int < 0x20 && c != '\U{8}' && c != '\U{9}' && c != '\U{A}' && c != '\U{C}' && c != '\U{D}'
    ensures EscapeChar(c) == Escaped(c)
  {
    HexDigitIs(c as int / 16);
    HexDigitIs(c as int % 16);
    hide HexDigit;
    assert c < ' ';
    assert EscapeChar(c) == "\\u00" + [HexDigit(c as int / 16), HexDigit(c as int % 16)];
    assert Escaped(c) == "\\u00" + [HEX_DIGITS[c as int / 16], HEX_DIGITS[c as int % 16]];
  }

  // ----- the published vector -----

  lemma JoinedOfThree(a: string, b: string, c: string)
    ensures Joined([a, b, c]) == a + "," + (b + "," + c)
  {
    assert [a, b, c][1..] == [b, c] && [b, c][1..] == [c];
    hide Joined;
    JoinedSteps([a, b, c]);
    JoinedSteps([b, c]);
    JoinedSteps([c]);
  }

  lemma JoinedOfFour(a: string, b: string, c: string, d: string)
    ensures Joined([a, b, c, d]) == a + "," + (b + "," + (c + "," + d))
  {
    assert [a, b, c, d][1..] == [b, c, d];
    hide Joined;
    JoinedSteps([a, b, c, d]);
    JoinedOfThree(b, c, d);
  }

  lemma UnitsOfOne(c: char)
    ensures Units([c]) == UnitsOfChar(c)
  {
    assert [c][1..] == "";
    assert UnitsOfChar(c) + Units("") == UnitsOfChar(c);
  }

  lemma OneUnitBefore(x: string, y: string)
    requires |x| == |y| == 1 && UnitsOfChar(x[0])[0] < UnitsOfChar(y[0])[0]
    ensures Before(Units(x), Units(y))
  {
    UnitsOfOne(x[0]);
    UnitsOfOne(y[0]);
    assert x == [x[0]] && y == [y[0]];
    assert DiffersAt(Units(x), Units(y), 0);
  }

  const COMPASS := "\U{1F9ED}"
  const PRIVATE := "\U{E000}"

  predicate NeedsNoEscape(s: string) {
    forall i :: 0 <= i < |s| ==> s[i] >= ' ' && s[i] != '\"' && s[i] != '\\'
  }

  lemma {:induction false} PlainEscape(s: string)
    requires NeedsNoEscape(s)
    ensures Escape(s) == s
  {
    if s != "" {
      assert EscapeChar(s[0]) == [s[0]];
      hide EscapeChar;
      PlainEscape(s[1..]);
      assert s == [s[0]] + s[1..];
    }
  }

  lemma PlainQuote(s: string)
    requires NeedsNoEscape(s)
    ensures Quote(s) == "\"" + s + "\""
  {
    PlainEscape(s);
  }

  lemma VectorKeys(keys: seq<string>)
    requires keys == ["a", "z", COMPASS, PRIVATE]
    ensures forall i, j :: 0 <= i < j < 4 ==> Before(Units(keys[i]), Units(keys[j]))
    ensures forall i, j :: 0 <= i < j < 4 ==> keys[i] != keys[j]
  {
    assert keys[0][0] == 'a' && keys[1][0] == 'z' && keys[2][0] == '\U{1F9ED}' && keys[3][0] == '\U{E000}';
    forall i, j | 0 <= i < j < 4 ensures Before(Units(keys[i]), Units(keys[j])) && keys[i] != keys[j] {
      OneUnitBefore(keys[i], keys[j]);
      assert keys[i][0] != keys[j][0];
    }
  }

  lemma PlainCanonical(s: string)
    requires NeedsNoEscape(s)
    ensures Canonical(Str(s)) == "\"" + s + "\""
  {
    PlainQuote(s);
  }

  lemma MinusSeven()
    ensures Canonical(Int(-7)) == "-7"
  {
    assert Decimal(7) == "7";
  }

  lemma VectorArray(items: seq<Value>)
    requires items == [Str("Gr\U{FC}ezi"), Bool(true), Int(-7)]
    ensures Valid(Arr(items))
    ensures Canonical(Arr(items)) == "[" + ("\"" + "Gr\U{FC}ezi" + "\"" + "," + ("true" + "," + "-7")) + "]"
  {
    assert NeedsNoEscape("Gr\U{FC}ezi");
    PlainCanonical("Gr\U{FC}ezi");
    MinusSeven();
    hide NeedsNoEscape;
    var parts := [Canonical(items[0]), Canonical(items[1]), Canonical(items[2])];
    assert Canonical(items[1]) == "true";
    hide Canonical, Joined;
    ArrayText(items, parts);
    JoinedOfThree(parts[0], parts[1], parts[2]);
  }

  lemma PlainMember(m: map<string, Value>, k: string)
    requires Valid(Obj(m)) && k in m
    requires NeedsNoEscape(k)
    ensures MemberText(m, k) == "\"" + k + "\"" + ":" + Canonical(m[k])
  {
    PlainQuote(k);
    hide Quote, Canonical, Valid;
  }

  lemma VectorLists(keys: seq<string>, ks: set<string>)
    requires keys == ["a", "z", COMPASS, PRIVATE] && ks == {"a", "z", COMPASS, PRIVATE}
    requires forall i, j :: 0 <= i < j < 4 ==> keys[i] != keys[j]
    ensures Lists(keys, ks)
  {
    forall k ensures k in keys <==> k in ks {
      assert k in keys <==> k == keys[0] || k == keys[1] || k == keys[2] || k == keys[3];
    }
  }

  lemma VectorValid(items: seq<Value>, m: map<string, Value>)
    requires m.Keys == {"a", "z", COMPASS, PRIVATE} && m["a"] == Arr(items) && m["z"] == Null
    requires m[COMPASS] == Str("compass") && m[PRIVATE] == Str("private-use") && Valid(Arr(items))
    ensures Valid(Obj(m))
  {
    forall k | k in m ensures Valid(m[k]) {
      assert k in m.Keys;
    }
  }

  /** The published canonicalization vector: a non-ASCII text, a negative number, and a key beyond the
      basic plane that sorts before one inside it. */
  lemma PublishedVector(items: seq<Value>, m: map<string, Value>)
    requires items == [Str("Gr\U{FC}ezi"), Bool(true), Int(-7)]
    requires m.Keys == {"a", "z", COMPASS, PRIVATE} && m["a"] == Arr(items) && m["z"] == Null
    requires m[COMPASS] == Str("compass") && m[PRIVATE] == Str("private-use")
    ensures
      var list := "[" + ("\"" + "Gr\U{FC}ezi" + "\"" + "," + ("true" + "," + "-7")) + "]";
      var a, z := "\"" + "a" + "\"" + ":" + list, "\"" + "z" + "\"" + ":" + "null";
      var compass := "\"" + COMPASS + "\"" + ":" + ("\"" + "compass" + "\"");
      var private := "\"" + PRIVATE + "\"" + ":" + ("\"" + "private-use" + "\"");
      Valid(Obj(m)) && Canonical(Obj(m)) == "{" + (a + "," + (z + "," + (compass + "," + private))) + "}"
  {
    VectorArray(items);
    VectorValid(items, m);
    VectorMembers(items, m);
    VectorJoined(m);
    hide *;
  }

  lemma VectorMembers(items: seq<Value>, m: map<string, Value>)
    requires Valid(Obj(m)) && Valid(Arr(items))
    requires m.Keys == {"a", "z", COMPASS, PRIVATE} && m["a"] == Arr(items) && m["z"] == Null
    requires m[COMPASS] == Str("compass") && m[PRIVATE] == Str("private-use")
    ensures MemberText(m, "a") == "\"" + "a" + "\"" + ":" + Canonical(Arr(items))
    ensures MemberText(m, "z") == "\"" + "z" + "\"" + ":" + "null"
    ensures MemberText(m, COMPASS) == "\"" + COMPASS + "\"" + ":" + ("\"" + "compass" + "\"")
    ensures MemberText(m, PRIVATE) == "\"" + PRIVATE + "\"" + ":" + ("\"" + "private-use" + "\"")
  {
    assert Canonical(Null) == "null";
    assert NeedsNoEscape("a") && NeedsNoEscape("z") && NeedsNoEscape(COMPASS) && NeedsNoEscape(PRIVATE);
    assert NeedsNoEscape("compass") && NeedsNoEscape("private-use");
    hide *;
    PlainCanonical("compass");
    PlainCanonical("private-use");
    PlainMember(m, "a");
    PlainMember(m, "z");
    PlainMember(m, COMPASS);
    PlainMember(m, PRIVATE);
  }

  lemma VectorJoined(m: map<string, Value>)
    requires Valid(Obj(m)) && m.Keys == {"a", "z", COMPASS, PRIVATE}
    ensures
      var a, z := MemberText(m, "a"), MemberText(m, "z");
      var compass, private := MemberText(m, COMPASS), MemberText(m, PRIVATE);
      Canonical(Obj(m)) == "{" + (a + "," + (z + "," + (compass + "," + private))) + "}"
  {
    hide *;
    var keys := ["a", "z", COMPASS, PRIVATE];
    VectorKeys(keys);
    VectorLists(keys, m.Keys);
    var parts := [MemberText(m, "a"), MemberText(m, "z"), MemberText(m, COMPASS), MemberText(m, PRIVATE)];
    JoinedOfFour(parts[0], parts[1], parts[2], parts[3]);
    ObjectText(m, keys, parts);
  }

  // ----- which values have a text -----

  /** Null, truth values and texts are accepted, integers within 53 bits, no floating-point number and no other
      kind of value; arrays and objects exactly when all they hold is. */
  lemma AcceptedIff(n: int, r: real, s: string, items: seq<Value>, m: map<string, Value>)
    ensures CanonicalJson(Null).Some? && CanonicalJson(Bool(true)).Some? && CanonicalJson(Bool(false)).Some?
    ensures CanonicalJson(Str(s)).Some? && CanonicalJson(Float(r)).None? && CanonicalJson(Opaque).None?
    ensures CanonicalJson(Int(n)).Some? <==> -9007199254740991 <= n <= 9007199254740991
    ensures CanonicalJson(Arr(items)).Some? <==> forall i :: 0 <= i < |items| ==> CanonicalJson(items[i]).Some?
    ensures CanonicalJson(Obj(m)).Some? <==> forall k :: k in m ==> CanonicalJson(m[k]).Some?
  {
    hide Canonical, Utf8;
  }

  /** The three fixed texts. */
  lemma FixedTexts()
    ensures Canonical(Null) == "null" && Canonical(Bool(true)) == "true" && Canonical(Bool(false)) == "false"
  {
  }
}
