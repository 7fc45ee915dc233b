/** A parser that undoes the canonical printer: the left inverse that makes it injective. */
module JsonParser {
  import opened Bytes
  import opened Unicode
  import opened Json

  datatype Parsed<T> = Parsed(value: T, rest: string)

  function DigitOf(c: char): int
    requires IsDigit(c)
  {
    c as int - '0' as int
  }

  // Reads digits onto the number read so far.
  function ReadDigits(s: string, soFar: int): (p: Parsed<int>)
    ensures |p.rest| <= |s|
    ensures s != "" && IsDigit(s[0]) ==> |p.rest| < |s|
  {
    if s == "" || !IsDigit(s[0]) then Parsed(soFar, s)
    else ReadDigits(s[1..], soFar * 10 + DigitOf(s[0]))
  }

  function ReadInt(s: string): (p: Option<Parsed<int>>)
    ensures p.Some? ==> |p.value.rest| < |s|
  {
    if s == "" then None
    else if s[0] == '-' then
      if |s| >= 2 && IsDigit(s[1]) then
        var p := ReadDigits(s[1..], 0);
        Some(Parsed(-p.value, p.rest))
      else None
    else if IsDigit(s[0]) then Some(ReadDigits(s, 0))
    else None
  }

  // One possibly escaped character.
  function ReadChar(s: string): (p: Option<Parsed<char>>)
    ensures p.Some? ==> |p.value.rest| < |s|
  {
    if s == "" || s[0] < ' ' || s[0] == '\"' then None
    else if s[0] != '\\' then Some(Parsed(s[0], s[1..]))
    else if |s| < 2 then None
    else
      match s[1]
      case '\"' => Some(Parsed('\"', s[2..]))
      case '\\' => Some(Parsed('\\', s[2..]))
      case 'n' => Some(Parsed('\n', s[2..]))
      case 'r' => Some(Parsed('\r', s[2..]))
      case 't' => Some(Parsed('\t', s[2..]))
      case 'f' => Some(Parsed(FORM_FEED, s[2..]))
      case 'b' => Some(Parsed(BACKSPACE, s[2..]))
      case 'u' =>
        if |s| >= 6 && s[2..4] == "00" && IsHexDigit(s[4]) && IsHexDigit(s[5]) then
          Some(Parsed((HexValue(s[4]) * 16 + HexValue(s[5])) as char, s[6..]))
        else None
      case _ => None
  }

  // The characters up to the closing quote, which is consumed.
  function ReadString(s: string): (p: Option<Parsed<string>>)
    ensures p.Some? ==> |p.value.rest| < |s|
  {
    if s == "" then None
    else if s[0] == '\"' then Some(Parsed("", s[1..]))
    else
      match ReadChar(s)
      case None => None
      case Some(c) =>
        match ReadString(c.rest)
        case None => None
        case Some(tail) => Some(Parsed([c.value] + tail.value, tail.rest))
  }

  function ReadValue(s: string): (p: Option<Parsed<Value>>)
    ensures p.Some? ==> |p.value.rest| < |s|
    decreases |s|, 0
  {
    if s == "" then None
    else if s[0] == 'n' then if "null" <= s then Some(Parsed(Null, s[4..])) else None
    else if s[0] == 't' then if "true" <= s then Some(Parsed(Bool(true), s[4..])) else None
    else if s[0] == 'f' then if "false" <= s then Some(Parsed(Bool(false), s[5..])) else None
    else if s[0] == '\"' then
      match ReadString(s[1..])
      case None => None
      case Some(p) => Some(Parsed(Str(p.value), p.rest))
    else if s[0] == '[' then ReadArray(s)
    else if s[0] == '{' then ReadObject(s)
    else
      match ReadInt(s)
      case None => None
      case Some(p) => Some(Parsed(Int(p.value), p.rest))
  }

  function ReadArray(s: string): (p: Option<Parsed<Value>>)
    requires s != ""
    ensures p.Some? ==> |p.value.rest| < |s|
    decreases |s| - 1, 2
  {
    if |s| < 2 then None
    else if s[1] == ']' then Some(Parsed(Arr([]), s[2..]))
    else
      match ReadItems(s[1..])
      case None => None
      case Some(p) => Some(Parsed(Arr(p.value), p.rest))
  }

  function ReadObject(s: string): (p: Option<Parsed<Value>>)
    requires s != ""
    ensures p.Some? ==> |p.value.rest| < |s|
    decreases |s| - 1, 2
  {
    if |s| < 2 then None
    else if s[1] == '}' then Some(Parsed(Obj(map[]), s[2..]))
    else
      match ReadMembers(s[1..])
      case None => None
      case Some(p) => Some(Parsed(Obj(p.value), p.rest))
  }

  // One or more items and the closing bracket.
  function ReadItems(s: string): (p: Option<Parsed<seq<Value>>>)
    ensures p.Some? ==> |p.value.rest| < |s|
    decreases |s|, 1
  {
    match ReadValue(s)
    case None => None
    case Some(first) =>
      if first.rest == "" then None
      else if first.rest[0] == ']' then Some(Parsed([first.value], first.rest[1..]))
      else if first.rest[0] == ',' then
        match ReadItems(first.rest[1..])
        case None => None
        case Some(tail) => Some(Parsed([first.value] + tail.value, tail.rest))
      else None
  }

  // One or more members and the closing brace.
  function ReadMembers(s: string): (p: Option<Parsed<map<string, Value>>>)
    ensures p.Some? ==> |p.value.rest| < |s|
    decreases |s|, 1
  {
    if s == "" || s[0] != '\"' then None else
      match ReadString(s[1..])
      case None => None
      case Some(key) =>
        if key.rest == "" || key.rest[0] != ':' then None else
          match ReadValue(key.rest[1..])
          case None => None
          case Some(child) =>
            if child.rest == "" then None
            else if child.rest[0] == '}' then Some(Parsed(map[key.value := child.value], child.rest[1..]))
            else if child.rest[0] == ',' then
              match ReadMembers(child.rest[1..])
              case None => None
              case Some(tail) => Some(Parsed(tail.value[key.value := child.value], tail.rest))
            else None
  }

  function ParseJson(b: seq<Byte>): Option<Value> {
    match ReadValue(Decode(b))
    case None => None
    case Some(p) => if p.rest == "" then Some(p.value) else None
  }

  // ----- the round trip -----

  // What may follow a value inside a canonical text: nothing that extends a number.
  predicate Ends(rest: string) {
    rest == "" || !IsDigit(rest[0])
  }

  lemma {:induction false} DecimalReads(n: nat, rest: string)
    ensures ReadDigits(Decimal(n) + rest, 0) == ReadDigits(rest, n)
  {
    var s := Decimal(n) + rest;
    if n < 10 {
      assert s[0] == Digit(n) && s[1..] == rest;
    } else {
      var tail := [Digit(n % 10)] + rest;
      assert s == Decimal(n / 10) + tail;
      DecimalReads(n / 10, tail);
      assert tail[1..] == rest;
    }
  }

  lemma NatReads(n: nat, rest: string)
    requires Ends(rest)
    ensures ReadDigits(Decimal(n) + rest, 0) == Parsed(n, rest)
  {
    DecimalReads(n, rest);
  }

  lemma IntReads(n: int, rest: string)
    requires Ends(rest)
    ensures ReadInt(IntText(n) + rest) == Some(Parsed(n, rest))
  {
    hide Decimal, ReadDigits;
    NatReads(if n < 0 then -n else n, rest);
    var digits := Decimal(if n < 0 then -n else n);
    var s := digits + rest;
    assert s[0] == digits[0] && IsDigit(s[0]);
    if n < 0 {
      assert IntText(n) + rest == "-" + s;
      assert ("-" + s)[1..] == s;
    }
  }

  lemma CharReads(c: char, rest: string)
    ensures ReadChar(EscapeChar(c) + rest) == Some(Parsed(c, rest))
    ensures EscapeChar(c)[0] != '\"'
  {
    var e := EscapeChar(c);
    var s := e + rest;
    assert s[0] == e[0];
    assert s[|e|..] == rest;
    if |e| == 2 {
      assert s[1] == e[1];
    } else if |e| == 6 {
      assert s[1] == e[1] && s[4] == e[4] && s[5] == e[5];
      assert s[2..4] == e[2..4] == "00";
      var n := c as int;
      assert HexValue(e[4]) == n / 16 && HexValue(e[5]) == n % 16;
    }
  }

  lemma {:induction false} StringReads(t: string, rest: string)
    ensures ReadString(Escape(t) + "\"" + rest) == Some(Parsed(t, rest))
  {
    var s := Escape(t) + "\"" + rest;
    if t == "" {
      assert s == "\"" + rest;
      assert s[1..] == rest;
    } else {
      var e := EscapeChar(t[0]);
      var tail := Escape(t[1..]) + "\"" + rest;
      assert s == e + tail;
      CharReads(t[0], tail);
      StringReads(t[1..], rest);
      assert t == [t[0]] + t[1..];
    }
  }

  lemma QuoteReads(t: string, rest: string)
    ensures (Quote(t) + rest)[0] == '\"'
    ensures ReadString((Quote(t) + rest)[1..]) == Some(Parsed(t, rest))
  {
    assert (Quote(t) + rest)[1..] == Escape(t) + "\"" + rest;
    StringReads(t, rest);
  }

  lemma ScalarReads(v: Value, rest: string)
    requires Valid(v) && !v.Arr? && !v.Obj? && Ends(rest)
    ensures ReadValue(Canonical(v) + rest) == Some(Parsed(v, rest))
  {
    var s := Canonical(v) + rest;
    match v
    case Null =>
      assert s[4..] == rest;
    case Bool(b) =>
      if b {
        assert s[0] == 't' && s[4..] == rest;
      } else {
        assert s[0] == 'f' && s[5..] == rest;
      }
    case Int(n) =>
      IntReads(n, rest);
      assert s[0] == IntText(n)[0];
    case Str(t) =>
      QuoteReads(t, rest);
  }

  lemma EmptyReads(v: Value, rest: string)
    requires v == Arr([]) || (v.Obj? && v.members.Keys == {})
    ensures ReadValue(Canonical(v) + rest) == Some(Parsed(v, rest))
  {
    hide ReadMembers, ReadItems, ReadString, ReadInt;
    var s := Canonical(v) + rest;
    if v.Obj? {
      assert v.members == map[];
      assert Canonical(v) == "{" + "" + "}";
      assert s[0] == '{' && s[1] == '}' && s[2..] == rest;
    } else {
      assert Canonical(v) == "[" + "" + "]";
      assert s[0] == '[' && s[1] == ']' && s[2..] == rest;
    }
  }

  lemma ArrayReads(inside: string, items: seq<Value>, rest: string)
    requires inside != "" && inside[0] != ']'
    requires ReadItems(inside + "]" + rest) == Some(Parsed(items, rest))
    ensures ReadValue("[" + inside + "]" + rest) == Some(Parsed(Arr(items), rest))
  {
    hide ReadMembers, ReadItems, ReadString, ReadInt;
    var s := "[" + inside + "]" + rest;
    assert s[0] == '[' && s[1] == inside[0];
    assert s[1..] == inside + "]" + rest;
  }

  lemma ObjectReads(inside: string, m: map<string, Value>, rest: string)
    requires inside != "" && inside[0] == '\"'
    requires ReadMembers(inside + "}" + rest) == Some(Parsed(m, rest))
    ensures ReadValue("{" + inside + "}" + rest) == Some(Parsed(Obj(m), rest))
  {
    hide ReadMembers, ReadItems, ReadString, ReadInt;
    var s := "{" + inside + "}" + rest;
    assert s[0] == '{' && s[1] == inside[0];
    assert s[1..] == inside + "}" + rest;
  }

  // Every canonical text is followed unambiguously by what comes after it.
  lemma {:induction false} ValueReads(v: Value, rest: string)
    requires Valid(v) && Ends(rest)
    ensures ReadValue(Canonical(v) + rest) == Some(Parsed(v, rest))
    decreases v, 1
  {
    hide ReadValue, ReadItems, ReadMembers, Items, Members;
    if v.Arr? {
      if v.items == [] {
        EmptyReads(v, rest);
      } else {
        ItemsRead(v, 0, rest);
        ItemsStart(v, 0);
        assert v.items[0..] == v.items;
        ArrayReads(Items(v, 0), v.items, rest);
      }
    } else if v.Obj? {
      var keys := SortedKeys(v.members.Keys);
      if v.members.Keys == {} {
        EmptyReads(v, rest);
      } else {
        MembersRead(v, keys, rest);
        MembersStart(v, keys);
        assert (map k | k in keys :: v.members[k]) == v.members;
        ObjectReads(Members(v, keys), v.members, rest);
      }
    } else {
      ScalarReads(v, rest);
    }
  }

  // A canonical text never starts like the end of an array.
  lemma CanonicalStart(v: Value)
    requires Valid(v)
    ensures Canonical(v) != "" && Canonical(v)[0] != ']'
  {
  }

  lemma ItemsStart(v: Value, i: nat)
    requires Valid(v) && v.Arr? && i < |v.items|
    ensures Items(v, i) != "" && Items(v, i)[0] != ']'
  {
    CanonicalStart(v.items[i]);
  }

  lemma MembersStart(v: Value, keys: seq<string>)
    requires Valid(v) && v.Obj? && keys != [] && forall k :: k in keys ==> k in v.members
    ensures Members(v, keys) != "" && Members(v, keys)[0] == '\"'
  {
    assert Members(v, keys)[0] == Quote(keys[0])[0];
  }

  // ----- regrouping a list's text around its first element -----

  lemma ItemsSplit(v: Value, i: nat, rest: string)
    requires Valid(v) && v.Arr? && i + 1 < |v.items|
    ensures Items(v, i) + "]" + rest == Canonical(v.items[i]) + ("," + (Items(v, i + 1) + "]" + rest))
  {
    hide Canonical, Quote;
  }

  lemma ItemsLast(v: Value, rest: string)
    requires Valid(v) && v.Arr? && v.items != []
    ensures var i := |v.items| - 1;
      Items(v, i) + "]" + rest == Canonical(v.items[i]) + ("]" + rest) && v.items[i..] == [v.items[i]]
  {
    hide Canonical, Quote;
  }

  lemma SplitText(q: string, t: string, m: string, rest: string)
    ensures (q + ":" + t) + "," + m + "}" + rest == q + (":" + (t + ("," + (m + "}" + rest))))
  {
    var tail := m + "}" + rest;
    assert (q + ":" + t) + "," + m + "}" + rest == (q + ":" + t) + ("," + tail);
    assert (q + ":" + t) + ("," + tail) == q + (":" + (t + ("," + tail)));
  }

  lemma MembersUnfold(v: Value, keys: seq<string>)
    requires Valid(v) && v.Obj? && |keys| > 1 && forall k :: k in keys ==> k in v.members
    ensures Members(v, keys) == (Quote(keys[0]) + ":" + Canonical(v.members[keys[0]])) + "," + Members(v, keys[1..])
  {
    hide Quote, Canonical;
  }

  lemma MembersSplit(v: Value, keys: seq<string>, rest: string)
    requires Valid(v) && v.Obj? && |keys| > 1 && forall k :: k in keys ==> k in v.members
    ensures Members(v, keys) + "}" + rest
         == Quote(keys[0]) + (":" + (Canonical(v.members[keys[0]]) + ("," + (Members(v, keys[1..]) + "}" + rest))))
  {
    MembersUnfold(v, keys);
    hide *;
    SplitText(Quote(keys[0]), Canonical(v.members[keys[0]]), Members(v, keys[1..]), rest);
  }

  lemma MembersLast(v: Value, key: string, rest: string)
    requires Valid(v) && v.Obj? && key in v.members
    ensures Members(v, [key]) + "}" + rest == Quote(key) + (":" + (Canonical(v.members[key]) + ("}" + rest)))
  {
    hide Canonical, Quote;
  }

  lemma ReadLastItem(s: string, x: Value, rest: string)
    requires ReadValue(s) == Some(Parsed(x, "]" + rest))
    ensures ReadItems(s) == Some(Parsed([x], rest))
  {
    hide ReadValue;
    assert ("]" + rest)[1..] == rest;
  }

  lemma ReadNextItem(s: string, x: Value, more: string, xs: seq<Value>, rest: string)
    requires ReadValue(s) == Some(Parsed(x, "," + more))
    requires ReadItems(more) == Some(Parsed(xs, rest))
    ensures ReadItems(s) == Some(Parsed([x] + xs, rest))
  {
    hide ReadValue;
    assert ("," + more)[1..] == more;
    assert ("," + more)[0] == ',';
  }

  lemma {:induction false} ItemsRead(v: Value, i: nat, rest: string)
    requires Valid(v) && v.Arr? && i < |v.items|
    ensures ReadItems(Items(v, i) + "]" + rest) == Some(Parsed(v.items[i..], rest))
    decreases v, 0, |v.items| - i
  {
    hide ReadValue, ReadItems, Canonical, Items;
    var item := v.items[i];
    var text := Canonical(item);
    if i == |v.items| - 1 {
      ItemsLast(v, rest);
      ValueReads(item, "]" + rest);
      ReadLastItem(text + ("]" + rest), item, rest);
    } else {
      var more := Items(v, i + 1) + "]" + rest;
      ItemsSplit(v, i, rest);
      ValueReads(item, "," + more);
      ItemsRead(v, i + 1, rest);
      ReadNextItem(text + ("," + more), item, more, v.items[i + 1..], rest);
      assert v.items[i..] == [item] + v.items[i + 1..];
    }
  }

  lemma ReadLastMember(key: string, text: string, x: Value, rest: string)
    requires ReadValue(text + ("}" + rest)) == Some(Parsed(x, "}" + rest))
    ensures ReadMembers(Quote(key) + (":" + (text + ("}" + rest)))) == Some(Parsed(map[key := x], rest))
  {
    hide ReadValue, ReadString, Quote;
    var after := ":" + (text + ("}" + rest));
    QuoteReads(key, after);
    assert after[1..] == text + ("}" + rest);
    assert ("}" + rest)[1..] == rest;
  }

  lemma ReadNextMember(key: string, text: string, x: Value, more: string, xs: map<string, Value>, rest: string)
    requires ReadValue(text + ("," + more)) == Some(Parsed(x, "," + more))
    requires ReadMembers(more) == Some(Parsed(xs, rest))
    ensures ReadMembers(Quote(key) + (":" + (text + ("," + more)))) == Some(Parsed(xs[key := x], rest))
  {
    hide ReadValue, ReadString, Quote;
    var after := ":" + (text + ("," + more));
    QuoteReads(key, after);
    assert after[1..] == text + ("," + more);
    assert ("," + more)[1..] == more;
    assert ("," + more)[0] == ',';
  }

  lemma {:induction false} MembersRead(v: Value, keys: seq<string>, rest: string)
    requires Valid(v) && v.Obj? && keys != [] && forall k :: k in keys ==> k in v.members
    ensures ReadMembers(Members(v, keys) + "}" + rest) == Some(Parsed(map k | k in keys :: v.members[k], rest))
    decreases v, 0, |keys|
  {
    hide ReadValue, ReadMembers, Canonical, Members, ReadString;
    var key, child := keys[0], v.members[keys[0]];
    var text := Canonical(child);
    if |keys| == 1 {
      assert keys == [key];
      MembersLast(v, key, rest);
      ValueReads(child, "}" + rest);
      ReadLastMember(key, text, child, rest);
      assert (map k | k in keys :: v.members[k]) == map[key := child];
    } else {
      var more := Members(v, keys[1..]) + "}" + rest;
      MembersSplit(v, keys, rest);
      ValueReads(child, "," + more);
      MembersRead(v, keys[1..], rest);
      ReadNextMember(key, text, child, more, map k | k in keys[1..] :: v.members[k], rest);
      assert keys == [key] + keys[1..];
      assert (map k | k in keys :: v.members[k]) == (map k | k in keys[1..] :: v.members[k])[key := child];
    }
  }

  // Parsing recovers every accepted value from its canonical bytes.
  lemma ParseRecovers(v: Value)
    requires Valid(v)
    ensures CanonicalJson(v).Some? && ParseJson(CanonicalJson(v).value) == Some(v)
  {
    Utf8RoundTrip(Canonical(v));
    ValueReads(v, "");
    assert Canonical(v) + "" == Canonical(v);
  }

  // Distinct values never share canonical bytes.
  lemma CanonicalInjective(v: Value, w: Value)
    requires CanonicalJson(v).Some? && CanonicalJson(v) == CanonicalJson(w)
    ensures v == w
  {
    ParseRecovers(v);
    ParseRecovers(w);
  }
}
