/** The strict canonical JSON of the evidence contract (a profile of RFC 8785): which values
    are accepted, and the one text each accepted value is printed as. */
module Json {
  import opened Bytes
  import opened Unicode

  // A Python value handed to the canonicaliser. `Opaque` stands for every value the profile
  // has no text for: bytes, a string holding a lone surrogate, a mapping with a key that is
  // not a string of scalar values, or any other type.
  datatype Value =
    | Null
    | Bool(b: bool)
    | Int(n: int)
    | Float(r: real)
    | Str(s: string)
    | Arr(items: seq<Value>)
    | Obj(members: map<string, Value>)
    | Opaque

  const MAX_SAFE_INTEGER := 9007199254740991

  // _validate raises exactly when this is false.
  predicate Valid(v: Value) {
    match v
    case Null => true
    case Bool(_) => true
    case Int(n) => -MAX_SAFE_INTEGER <= n <= MAX_SAFE_INTEGER
    case Float(_) => false
    case Str(_) => true
    case Arr(items) => forall i :: 0 <= i < |items| ==> Valid(items[i])
    case Obj(m) => forall k :: k in m ==> Valid(m[k])
    case Opaque => false
  }

  // ----- integers -----

  function Digit(n: int): char
    requires 0 <= n < 10
  {
    '0' + n as char
  }

  function Decimal(n: nat): (s: string)
    ensures s != ""
    ensures forall i :: 0 <= i < |s| ==> '0' <= s[i] <= '9'
  {
    if n < 10 then [Digit(n)] else Decimal(n / 10) + [Digit(n % 10)]
  }

  // str(n)
  function IntText(n: int): string {
    if n < 0 then "-" + Decimal(-n) else Decimal(n)
  }

  // ----- strings -----

  const BACKSPACE: char := '\U{08}'
  const FORM_FEED: char := '\U{0C}'

  // json.dumps(..., ensure_ascii=False): RFC 8785 section 3.2.2.2.
  function EscapeChar(c: char): (e: string)
    ensures |e| == (if c in ['\"', '\\', '\n', '\r', '\t', FORM_FEED, BACKSPACE] then 2 else if c < ' ' then 6 else 1)
  {
    if c == '\"' then "\\\""
    else if c == '\\' then "\\\\"
    else if c == '\n' then "\\n"
    else if c == '\r' then "\\r"
    else if c == '\t' then "\\t"
    else if c == FORM_FEED then "\\f"
    else if c == BACKSPACE then "\\b"
    else if c < ' ' then "\\u00" + [HexDigit(c as int / 16), HexDigit(c as int % 16)]
    else [c]
  }

  function Escape(s: string): string {
    if s == "" then "" else EscapeChar(s[0]) + Escape(s[1..])
  }

  function Quote(s: string): string {
    "\"" + Escape(s) + "\""
  }

  // ----- object keys -----

  // RFC 8785 section 3.2.3: property names are ordered by their UTF-16 code units.
  predicate KeyLeq(a: string, b: string) {
    LexLeq(Utf16(a), Utf16(b))
  }

  predicate IsLeast(k: string, ks: set<string>) {
    k in ks && forall x :: x in ks ==> KeyLeq(k, x)
  }

  lemma {:induction false} LeastExists(ks: set<string>)
    requires ks != {}
    ensures exists k :: IsLeast(k, ks)
  {
    var x :| x in ks;
    LexLeqTotal(Utf16(x), Utf16(x));
    if ks == {x} {
      assert IsLeast(x, ks);
    } else {
      LeastExists(ks - {x});
      var y :| IsLeast(y, ks - {x});
      LexLeqTotal(Utf16(x), Utf16(y));
      if KeyLeq(y, x) {
        assert IsLeast(y, ks);
      } else {
        forall z | z in ks ensures KeyLeq(x, z) {
          if z != x {
            assert z in ks - {x};
            LexLeqTransitive(Utf16(x), Utf16(y), Utf16(z));
          }
        }
        assert IsLeast(x, ks);
      }
    }
  }

  lemma LeastUnique(a: string, b: string, ks: set<string>)
    requires IsLeast(a, ks) && IsLeast(b, ks)
    ensures a == b
  {
    LexLeqAntisymmetric(Utf16(a), Utf16(b));
    Utf16Injective(a, b);
  }

  function Least(ks: set<string>): (k: string)
    requires ks != {}
    ensures IsLeast(k, ks)
  {
    LeastExists(ks);
    assert forall a, b :: IsLeast(a, ks) && IsLeast(b, ks) ==> a == b by {
      forall a, b | IsLeast(a, ks) && IsLeast(b, ks) ensures a == b {
        LeastUnique(a, b, ks);
      }
    }
    var k :| IsLeast(k, ks);
    k
  }

  // `order` lists the keys of `ks`, each once, as iterating over a dict does.
  ghost predicate Lists(order: seq<string>, ks: set<string>) {
    && (forall k :: k in order <==> k in ks)
    && (forall i, j :: 0 <= i < j < |order| ==> order[i] != order[j])
  }

  predicate KeysAscend(order: seq<string>) {
    forall i, j :: 0 <= i < j < |order| ==> KeyLeq(order[i], order[j])
  }

  // sorted(value, key=utf-16-be)
  function SortedKeys(ks: set<string>): (order: seq<string>)
    ensures Lists(order, ks)
    ensures KeysAscend(order)
  {
    if ks == {} then [] else
      var k := Least(ks);
      [k] + SortedKeys(ks - {k})
  }

  // However a dict was filled, sorting its keys gives the same list: mapping order never matters.
  lemma {:induction false} SortingForgetsOrder(order: seq<string>, ks: set<string>)
    requires Lists(order, ks) && KeysAscend(order)
    ensures order == SortedKeys(ks)
  {
    if order == [] {
      assert ks == {};
    } else {
      assert order[0] in ks;
      assert IsLeast(order[0], ks) by {
        LexLeqTotal(Utf16(order[0]), Utf16(order[0]));
        forall x | x in ks ensures KeyLeq(order[0], x) {
          var i :| 0 <= i < |order| && order[i] == x;
        }
      }
      LeastUnique(order[0], Least(ks), ks);
      var rest := order[1..];
      forall k ensures k in rest <==> k in ks - {order[0]} {
        if k in ks - {order[0]} {
          var i :| 0 <= i < |order| && order[i] == k;
          assert rest[i - 1] == k;
        }
        if k in rest {
          var i :| 0 <= i < |rest| && rest[i] == k;
          assert order[i + 1] == k;
        }
      }
      SortingForgetsOrder(rest, ks - {order[0]});
      assert order == [order[0]] + rest;
    }
  }

  // ----- the printer -----

  function Canonical(v: Value): string
    requires Valid(v)
    decreases v, 1
  {
    match v
    case Null => "null"
    case Bool(b) => if b then "true" else "false"
    case Int(n) => IntText(n)
    case Str(s) => Quote(s)
    case Arr(items) => "[" + Items(v, 0) + "]"
    case Obj(m) => "{" + Members(v, SortedKeys(m.Keys)) + "}"
  }

  // ",".join(_canonical(item) for item in value), from item i on
  function Items(v: Value, i: nat): string
    requires Valid(v) && v.Arr? && i <= |v.items|
    decreases v, 0, |v.items| - i
  {
    if i == |v.items| then ""
    else if i == |v.items| - 1 then Canonical(v.items[i])
    else Canonical(v.items[i]) + "," + Items(v, i + 1)
  }

  // ",".join(f"{_string(key)}:{_canonical(value[key])}" for key in keys)
  function Members(v: Value, keys: seq<string>): string
    requires Valid(v) && v.Obj? && forall k :: k in keys ==> k in v.members
    decreases v, 0, |keys|
  {
    if keys == [] then ""
    else
      var first := Quote(keys[0]) + ":" + Canonical(v.members[keys[0]]);
      if |keys| == 1 then first else first + "," + Members(v, keys[1..])
  }

  // canonical_json: None is EvidenceFormatError.
  function CanonicalJson(v: Value): Option<seq<Byte>> {
    if Valid(v) then Some(Utf8(Canonical(v))) else None
  }
}
