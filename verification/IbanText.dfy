/** Making and checking written IBANs. */
module IbanText {
  import opened Bytes
  import opened Iban

  const IBAN_LENGTHS: map<string, nat> := map[
    "AD" := 24, "AT" := 20, "BE" := 16, "BG" := 22, "CH" := 21, "CY" := 28, "CZ" := 24, "DE" := 22, "DK" := 18,
    "EE" := 20, "ES" := 24, "FI" := 18, "FR" := 27, "GB" := 22, "GI" := 23, "GR" := 27, "HR" := 21, "HU" := 28,
    "IE" := 22, "IS" := 26, "IT" := 27, "LI" := 21, "LT" := 20, "LU" := 20, "LV" := 21, "MC" := 27, "MT" := 31,
    "NL" := 18, "NO" := 15, "PL" := 28, "PT" := 25, "RO" := 24, "SE" := 24, "SI" := 19, "SK" := 24, "SM" := 27,
    "VA" := 22]

  // The table, with 0 for a country it does not list.
  function LengthOf(country: string): nat {
    if country in IBAN_LENGTHS then IBAN_LENGTHS[country] else 0
  }

  function UpperChar(c: char): char {
    if 'a' <= c <= 'z' then c - 'a' + 'A' else c
  }

  function Upper(s: string): (r: string)
    ensures |r| == |s|
  {
    if s == "" then "" else Upper(s[..|s| - 1]) + [UpperChar(s[|s| - 1])]
  }

  // compact_alnum on ASCII text
  function Compact(s: string): (r: string)
    ensures Alphanumeric(r)
  {
    if s == "" then ""
    else
      var front, c := Compact(s[..|s| - 1]), UpperChar(s[|s| - 1]);
      if IsDigit(c) || IsUpper(c) then front + [c] else front
  }

  function Rearranged(s: string): (r: string)
    requires |s| >= 4
    ensures |r| == |s| && (Alphanumeric(s) ==> Alphanumeric(r))
  {
    s[4..] + s[..4]
  }

  predicate ValidCompact(s: string)
    requires Alphanumeric(s)
  {
    && |s| >= 4 && |s| == LengthOf(s[..2])
    && IsUpper(s[0]) && IsUpper(s[1]) && IsDigit(s[2]) && IsDigit(s[3])
    && Number(Rearranged(s)) % 97 == 1
  }

  predicate IsValidIban(value: string) {
    ValidCompact(Compact(value))
  }

  // Groups of four, separated by spaces.
  function Grouped(s: string): string {
    if |s| <= 4 then s else s[..4] + " " + Grouped(s[4..])
  }

  function FormatIban(value: string): string {
    Grouped(Compact(value))
  }

  // f"{n:02d}"
  function TwoDigits(n: nat): (r: string)
    requires n < 100
    ensures |r| == 2
  {
    ['0' + (n / 10) as char, '0' + (n % 10) as char]
  }

  function CheckNumber(country: string, bban: string): (n: nat)
    requires Alphanumeric(country) && Alphanumeric(bban)
    ensures 2 <= n <= 98
  {
    98 - Number(bban + country + "00") % 97
  }

  function MakeIban(country: string, bban: string): string
    requires Alphanumeric(Upper(country))
  {
    var c, b := Upper(country), Compact(bban);
    FormatIban(c + TwoDigits(CheckNumber(c, b)) + b)
  }

  // ----- compacting -----

  lemma {:induction false} CompactJoin(x: string, y: string)
    ensures Compact(x + y) == Compact(x) + Compact(y)
  {
    if y == "" {
      assert x + y == x;
    } else {
      assert (x + y)[..|x + y| - 1] == x + y[..|y| - 1];
      CompactJoin(x, y[..|y| - 1]);
    }
  }

  lemma {:induction false} CompactKeeps(s: string)
    requires Alphanumeric(s)
    ensures Compact(s) == s
  {
    if s != "" {
      CompactKeeps(s[..|s| - 1]);
    }
  }

  lemma {:induction false} GroupingIsInvisible(s: string)
    requires Alphanumeric(s)
    ensures Compact(Grouped(s)) == s
  {
    if |s| <= 4 {
      CompactKeeps(s);
    } else {
      GroupingIsInvisible(s[4..]);
      CompactJoin(s[..4] + " ", Grouped(s[4..]));
      CompactJoin(s[..4], " ");
      CompactKeeps(s[..4]);
      assert " "[..0] == "" && Compact(" ") == "";
      assert s == s[..4] + s[4..];
    }
  }

  /** Formatting changes neither what an IBAN compacts to nor whether it is valid. */
  lemma FormatKeepsIban(value: string)
    ensures Compact(FormatIban(value)) == Compact(value)
  {
    GroupingIsInvisible(Compact(value));
  }

  lemma {:induction false} GroupedLength(s: string)
    ensures s != "" ==> |Grouped(s)| == |s| + (|s| - 1) / 4
    decreases |s|
  {
    if |s| > 4 {
      GroupedLength(s[4..]);
      assert (|s| - 1) / 4 == (|s| - 5) / 4 + 1;
    }
  }

  /** Formatting puts a space after every fourth character that another one follows, and nothing else. */
  lemma {:induction false} GroupedShows(s: string, i: nat)
    requires i < |Grouped(s)|
    ensures i % 5 == 4 ==> Grouped(s)[i] == ' '
    ensures i % 5 != 4 ==> i / 5 * 4 + i % 5 < |s| && Grouped(s)[i] == s[i / 5 * 4 + i % 5]
    ensures s != "" ==> |Grouped(s)| == |s| + (|s| - 1) / 4
    decreases |s|
  {
    GroupedLength(s);
    if |s| > 4 && i >= 5 {
      var rest, k := s[4..], i - 5;
      FirstGroup(s, i);
      GroupedShows(rest, k);
      hide Grouped;
      assert k / 5 == i / 5 - 1 && k % 5 == i % 5;
      assert k % 5 != 4 ==> rest[k / 5 * 4 + k % 5] == s[i / 5 * 4 + i % 5];
    }
  }

  lemma FirstGroup(s: string, i: nat)
    requires |s| > 4 && 5 <= i < |Grouped(s)|
    ensures i - 5 < |Grouped(s[4..])| && Grouped(s)[i] == Grouped(s[4..])[i - 5]
  {
  }

  // Compacting keeps letters, as capitals, and digits, and drops everything else.
  lemma CompactShows(front: string, c: char)
    ensures Compact("") == ""
    ensures Compact(front + [c]) == Compact(front) + (
      if 48 <= c as int <= 57 || 65 <= c as int <= 90 then [c]
      else if 97 <= c as int <= 122 then [(c as int - 32) as char]
      else "")
  {
    assert (front + [c])[..|front|] == front;
    assert Compact(front) + "" == Compact(front);
  }

  // ----- made IBANs validate -----

  lemma CheckDigitsFit(n: nat, check: nat)
    requires check == 98 - n * 100 % 97
    ensures (n * 100 + check) % 97 == 1
  {
    var m := n * 100;
    assert m == m / 97 * 97 + m % 97;
    Multiple(98, m / 97);
  }

  lemma TwoDigitsNumber(n: nat)
    requires n < 100
    ensures Alphanumeric(TwoDigits(n)) && IsDigit(TwoDigits(n)[0]) && IsDigit(TwoDigits(n)[1])
    ensures Number(TwoDigits(n)) == n && Weight(TwoDigits(n)) == 100
  {
    var s := TwoDigits(n);
    assert Code(s[0]) == n / 10 && Code(s[1]) == n % 10;
    TwoCharacters(s[0], s[1]);
    assert s == [s[0], s[1]];
  }

  lemma MadeNumber(country: string, bban: string)
    requires Alphanumeric(country) && Alphanumeric(bban)
    ensures var digits := TwoDigits(CheckNumber(country, bban));
            Alphanumeric(bban + country + digits) && Number(bban + country + digits) % 97 == 1
  {
    var check, front := CheckNumber(country, bban), bban + country;
    TwoDigitsNumber(check);
    TwoDigitsNumber(0);
    assert TwoDigits(0) == "00";
    NumberOfJoin(front, "00");
    NumberOfJoin(front, TwoDigits(check));
    CheckDigitsFit(Number(front), check);
  }

  lemma MadeCompacts(country: string, bban: string)
    requires Alphanumeric(Upper(country))
    ensures var c, b := Upper(country), Compact(bban);
            var digits := TwoDigits(CheckNumber(c, b));
            IsDigit(digits[0]) && IsDigit(digits[1]) && Compact(MakeIban(country, bban)) == c + digits + b
  {
    hide Number, CheckNumber, TwoDigits, FormatIban;
    var c, b := Upper(country), Compact(bban);
    var digits := TwoDigits(CheckNumber(c, b));
    TwoDigitsNumber(CheckNumber(c, b));
    FormatKeepsIban(c + digits + b);
    CompactKeeps(c + digits + b);
  }

  // ----- country codes of other lengths -----

  lemma {:induction false} WeightOfJoin(x: string, y: string)
    ensures Weight(x + y) == Weight(x) * Weight(y)
  {
    if y == "" {
      assert x + y == x;
    } else {
      var front, c := y[..|y| - 1], y[|y| - 1];
      assert (x + y)[..|x + y| - 1] == x + front;
      WeightOfJoin(x, front);
      Distribute(Weight(x), Weight(front), 0, Shift(c));
    }
  }

  lemma RotationStep(a: int, b: int, v: int, w: int)
    requires Divides97(a * w + b - 1)
    ensures Divides97(b * v + a - 1) <==> Divides97((w * v - 1) * a - (v - 1))
  {
    hide Divides97;
    var k := Quotient(a * w + b - 1);
    var x, y := b * v + a - 1, (w * v - 1) * a - (v - 1);
    assert x + y == v * (a * w + b - 1) == 97 * (v * k) by {
      assert v * (a * w + b - 1) == v * (97 * k) == 97 * (v * k);
    }
    if Divides97(x) {
      var l := Quotient(x);
      IsMultiple(y, v * k - l);
    }
    if Divides97(y) {
      var l := Quotient(y);
      IsMultiple(x, v * k - l);
    }
  }

  // A number that leaves 1 still does after its last part has been moved to the front.
  lemma Rotated(front: string, back: string)
    requires Alphanumeric(front) && Alphanumeric(back) && Number(front + back) % 97 == 1
    ensures Number(back + front) % 97 == 1
       <==> Divides97((Weight(front + back) - 1) * Number(front) - (Weight(front) - 1))
  {
    hide Number, Weight, Divides97;
    NumberOfJoin(front, back);
    NumberOfJoin(back, front);
    WeightOfJoin(front, back);
    SameRemainder(Number(front + back), 1);
    SameRemainder(Number(back + front), 1);
    RotationStep(Number(front), Number(back), Weight(front), Weight(back));
    assert Weight(front) * Weight(back) == Weight(back) * Weight(front);
  }

  // The made text before formatting.
  function Made(c: string, b: string): (s: string)
    requires Alphanumeric(c) && Alphanumeric(b)
    ensures |s| == |c| + 2 + |b|
  {
    c + TwoDigits(CheckNumber(c, b)) + b
  }

  /** When a code longer than two characters passes: it is read as a listed country, two check digits
      and part of the account, and 97 divides the difference that this makes. */
  predicate LongCodePasses(c: string, b: string)
    requires Alphanumeric(c) && Alphanumeric(b) && |c| > 2
  {
    var s := Made(c, b);
    var front := b + s[..4];
    && |s| == LengthOf(c[..2]) && IsDigit(s[2]) && IsDigit(s[3])
    && Divides97((Weight(s) - 1) * Number(front) - (Weight(front) - 1))
  }

  lemma LongCode(c: string, b: string)
    requires Alphanumeric(c) && Alphanumeric(b) && |c| > 2
    ensures Alphanumeric(Made(c, b)) && (ValidCompact(Made(c, b)) <==> LongCodePasses(c, b))
  {
    hide LengthOf, Number, Weight, CheckNumber, TwoDigits, Divides97;
    var digits, s := TwoDigits(CheckNumber(c, b)), Made(c, b);
    TwoDigitsNumber(CheckNumber(c, b));
    MadeNumber(c, b);
    var front, back := b + s[..4], s[4..|c| + 2];
    assert c + digits == s[..4] + back;
    assert front + back == b + c + digits;
    assert Rearranged(s) == back + front by {
      assert s[4..] == back + b;
    }
    Rotated(front, back);
    SameWeight(c, digits, b);
    if LengthOf(s[..2]) > 0 {
      ListedIsLetters(s[..2]);
    }
    assert s[..2] == c[..2];
  }

  lemma SameWeight(c: string, digits: string, b: string)
    ensures Weight(b + c + digits) == Weight(c + digits + b)
  {
    hide Weight;
    assert b + c + digits == b + (c + digits);
    WeightOfJoin(b, c + digits);
    WeightOfJoin(c + digits, b);
  }

  /** What make_iban builds for a two-character country validates exactly when the country is listed
      and the account part has the listed length; for a shorter country it never does, and for a
      longer one exactly when the code passes. */
  lemma MadeIbansValidate(country: string, bban: string)
    requires Alphanumeric(Upper(country))
    ensures |country| == 2 ==>
      (IsValidIban(MakeIban(country, bban)) <==> 4 + |Compact(bban)| == LengthOf(Upper(country)))
    ensures |country| < 2 ==> !IsValidIban(MakeIban(country, bban))
    ensures |country| > 2 ==> (IsValidIban(MakeIban(country, bban)) <==> LongCodePasses(Upper(country), Compact(bban)))
  {
    MadeCompacts(country, bban);
    hide LengthOf, CheckNumber, TwoDigits, MakeIban, LongCodePasses, ValidCompact;
    if |country| > 2 {
      LongCode(Upper(country), Compact(bban));
    } else {
      ShortCode(Upper(country), Compact(bban));
    }
  }

  lemma ShortCode(c: string, b: string)
    requires Alphanumeric(c) && Alphanumeric(b) && |c| <= 2
    ensures Alphanumeric(Made(c, b)) && (ValidCompact(Made(c, b)) <==> |c| == 2 && 4 + |b| == LengthOf(c))
  {
    hide LengthOf, Number, CheckNumber, TwoDigits;
    var digits, s := TwoDigits(CheckNumber(c, b)), Made(c, b);
    TwoDigitsNumber(CheckNumber(c, b));
    if |c| == 2 {
      MadeNumber(c, b);
      assert s[..2] == c && s[2] == digits[0] && s[3] == digits[1];
      assert s[4..] == b && s[..4] == c + digits;
      assert Rearranged(s) == b + c + digits;
      if |s| == LengthOf(c) {
        ListedIsLetters(c);
      }
    } else {
      assert |c| == 1 ==> s[1] == digits[0];
      assert |c| == 0 ==> s[0] == digits[0];
    }
  }

  lemma NumberStep(x: string, c: char)
    requires Alphanumeric(x) && (IsDigit(c) || IsUpper(c))
    ensures Alphanumeric(x + [c]) && Number(x + [c]) == Number(x) * Shift(c) + Code(c)
      && Weight(x + [c]) == Weight(x) * Shift(c)
  {
    assert (x + [c])[..|x|] == x;
  }

  lemma AccountNumber(bban: string, country: string)
    requires bban == "000000067" && country == "NO00"
    ensures Alphanumeric(bban) && Number(bban) == 67 && Weight(bban) == 1000000000
    ensures Alphanumeric(country) && Number(country) == 232400 && Weight(country) == 1000000
  {
    hide Number, Weight;
    EmptyNumber();
    var zeros := SevenZeros();
    NumberStep(zeros, '6');
    NumberStep(zeros + "6", '7');
    assert bban == zeros + "6" + "7";
    NumberStep("", 'N');
    NumberStep("N", 'O');
    NumberStep("NO", '0');
    NumberStep("NO0", '0');
    assert "" + ['N'] == "N" && "N" + ['O'] == "NO" && "NO" + ['0'] == "NO0" && "NO0" + ['0'] == country;
  }

  lemma SevenZeros() returns (z: string)
    ensures z == "0000000" && Alphanumeric(z) && Number(z) == 0 && Weight(z) == 10000000
  {
    z := "";
    while |z| < 7
      invariant |z| <= 7 && Alphanumeric(z) && Number(z) == 0 && forall i :: 0 <= i < |z| ==> z[i] == '0'
      invariant Weight(z) == TenTo(|z|)
    {
      NumberStep(z, '0');
      z := z + ['0'];
    }
  }

  function TenTo(n: nat): nat {
    if n == 0 then 1 else 10 * TenTo(n - 1)
  }

  lemma EmptyNumber()
    ensures Number("") == 0 && Weight("") == 1
  {
  }

  lemma ChanceCheck(c: string, b: string)
    requires b == "000000067" && c == "NO00"
    ensures Alphanumeric(b) && Alphanumeric(c) && CheckNumber(c, b) == 42
  {
    hide Number, Weight;
    AccountNumber(b, c);
    TwoDigitsNumber(0);
    assert TwoDigits(0) == "00";
    NumberOfJoin(b, c);
    NumberOfJoin(b + c, "00");
  }

  lemma ChanceNumber(c: string, b: string)
    requires b == "000000067" && c == "NO00"
    ensures Alphanumeric("42" + b + c) && Number("42" + b + c) % 97 == 1
  {
    hide Number, Weight;
    AccountNumber(b, c);
    TwoDigitsNumber(42);
    assert TwoDigits(42) == "42";
    NumberOfJoin("42", b);
    NumberOfJoin("42" + b, c);
  }

  lemma ChanceShape(c: string, b: string)
    requires b == "000000067" && c == "NO00"
    ensures var s := c + "42" + b;
            |s| == 15 && s[..2] == "NO" && IsDigit(s[2]) && IsDigit(s[3]) && Rearranged(s) == "42" + b + c
  {
    var s := c + "42" + b;
    assert s[4..] == "42" + b && s[..4] == c;
  }

  // A longer country code is read as the country plus part of the account, and may pass by chance.
  lemma LongCountryMayPass()
    ensures Alphanumeric(Upper("NO00")) && IsValidIban(MakeIban("NO00", "000000067"))
  {
    hide Number, MakeIban, LengthOf, CheckNumber, Upper, Compact, Rearranged;
    var c, b := "NO00", "000000067";
    UpperKeeps(c);
    CompactKeeps(b);
    ChanceCheck(c, b);
    ChanceNumber(c, b);
    ChanceShape(c, b);
    MadeCompacts(c, b);
    NorwayIsListed();
    assert TwoDigits(42) == "42";
  }

  lemma NorwayIsListed()
    ensures LengthOf("NO") == 15
  {
  }

  lemma {:induction false} UpperKeeps(s: string)
    requires Alphanumeric(s)
    ensures Upper(s) == s
  {
    if s != "" {
      UpperKeeps(s[..|s| - 1]);
    }
  }

  lemma ListedIsLetters(country: string)
    requires LengthOf(country) > 0
    ensures |country| == 2 && IsUpper(country[0]) && IsUpper(country[1])
    ensures 15 <= LengthOf(country) <= 31
  {
  }

  // ----- single errors -----

  lemma RearrangedAround(s: string, i: nat) returns (x: string, y: string)
    requires Alphanumeric(s) && |s| >= 4 && i < |s|
    ensures Alphanumeric(x) && Alphanumeric(y) && Rearranged(s) == x + [s[i]] + y
    ensures forall c :: Rearranged(s[i := c]) == x + [c] + y
  {
    if i >= 4 {
      x, y := s[4..i], s[i + 1..] + s[..4];
    } else {
      x, y := s[4..] + s[..i], s[i + 1..4];
    }
    forall c ensures Rearranged(s[i := c]) == x + [c] + y {
      var t := s[i := c];
      if i >= 4 {
        assert t[4..] == x + [c] + s[i + 1..];
      } else {
        assert t[..4] == s[..i] + [c] + y && t[4..] == s[4..];
      }
    }
    assert s[i := s[i]] == s;
  }

  /** One character of a valid IBAN replaced by another of its class is always caught. */
  lemma SubstitutionCaught(s: string, i: nat, c: char)
    requires Alphanumeric(s) && ValidCompact(s) && i < |s| && SameClass(s[i], c) && c != s[i]
    ensures Alphanumeric(s[i := c]) && !ValidCompact(s[i := c])
  {
    hide LengthOf, Number;
    var x, y := RearrangedAround(s, i);
    SubstitutionChanges(x, s[i], c, y);
  }

  // A swap within one of the two parts that rearranging exchanges.
  lemma RearrangedSwap(s: string, i: nat) returns (x: string, y: string)
    requires Alphanumeric(s) && |s| >= 4 && i + 1 < |s| && i != 3
    ensures Alphanumeric(x) && Alphanumeric(y) && Rearranged(s) == x + [s[i], s[i + 1]] + y
    ensures Rearranged(Swapped(s, i)) == x + [s[i + 1], s[i]] + y
  {
    if i >= 4 {
      x, y := s[4..i], s[i + 2..] + s[..4];
      BackSwap(s, i);
    } else {
      x, y := s[4..] + s[..i], s[i + 2..4];
      FrontSwap(s, i);
    }
  }

  lemma BackSwap(s: string, i: nat)
    requires 4 <= i && i + 1 < |s|
    ensures Rearranged(s) == s[4..i] + [s[i], s[i + 1]] + (s[i + 2..] + s[..4])
    ensures Rearranged(Swapped(s, i)) == s[4..i] + [s[i + 1], s[i]] + (s[i + 2..] + s[..4])
  {
    var t := Swapped(s, i);
    assert s[4..] == s[4..i] + [s[i], s[i + 1]] + s[i + 2..];
    assert t[4..] == s[4..i] + [s[i + 1], s[i]] + s[i + 2..] && t[..4] == s[..4];
  }

  lemma FrontSwap(s: string, i: nat)
    requires i < 3 && 4 <= |s|
    ensures Rearranged(s) == s[4..] + s[..i] + [s[i], s[i + 1]] + s[i + 2..4]
    ensures Rearranged(Swapped(s, i)) == s[4..] + s[..i] + [s[i + 1], s[i]] + s[i + 2..4]
  {
    var t := Swapped(s, i);
    assert s[..4] == s[..i] + [s[i], s[i + 1]] + s[i + 2..4];
    assert t[..4] == s[..i] + [s[i + 1], s[i]] + s[i + 2..4] && t[4..] == s[4..];
  }

  function Swapped(s: string, i: nat): string
    requires i + 1 < |s|
  {
    s[i := s[i + 1]][i + 1 := s[i]]
  }

  lemma InverseCancels(d: int, z: int, inverse: int, turns: int)
    requires d * inverse == 97 * turns + 1 && Divides97(d * z)
    ensures Divides97(z)
  {
    hide Divides97;
    var k := Quotient(d * z);
    assert (d * inverse) * z == inverse * (d * z) == inverse * (97 * k) == 97 * (inverse * k);
    assert (97 * turns + 1) * z == 97 * (turns * z) + z;
    IsMultiple(z, inverse * k - turns * z);
  }

  lemma DigitCancels(d: int, z: int)
    requires 1 <= d <= 9
    ensures Divides97(d * z) <==> Divides97(z)
  {
    hide Divides97;
    if Divides97(z) {
      var k := Quotient(z);
      assert d * (97 * k) == 97 * (d * k);
      IsMultiple(d * z, d * k);
    }
    if Divides97(d * z) {
      match d
      case 1 => InverseCancels(1, z, 1, 0);
      case 2 => InverseCancels(2, z, 49, 1);
      case 3 => InverseCancels(3, z, 65, 2);
      case 4 => InverseCancels(4, z, 73, 3);
      case 5 => InverseCancels(5, z, 39, 2);
      case 6 => InverseCancels(6, z, 81, 5);
      case 7 => InverseCancels(7, z, 14, 1);
      case 8 => InverseCancels(8, z, 85, 7);
      case _ => InverseCancels(9, z, 54, 5);
    }
  }

  // The weight of everything between the fourth character and, after rearranging, the fifth.
  function SeamWeight(s: string): nat
    requires |s| >= 5 && Alphanumeric(s)
  {
    Weight(s[5..] + s[..3])
  }

  lemma EndsNumber(a: char, m: string, b: char)
    requires IsDigit(a) && IsDigit(b) && Alphanumeric(m)
    ensures Alphanumeric([a] + m + [b])
    ensures Number([a] + m + [b]) == (Code(a) * Weight(m) + Number(m)) * 10 + Code(b)
  {
    OneCharacter(a);
    OneCharacter(b);
    NumberOfJoin([a], m);
    NumberOfJoin([a] + m, [b]);
  }

  lemma EndsDiffer(a: int, b: int, w: int, n: int)
    ensures ((a * w + n) * 10 + b) - ((b * w + n) * 10 + a) == (a - b) * (10 * w - 1)
  {
  }

  // The fourth and fifth characters, two different digits, end up at the two ends.
  lemma SeamSwap(s: string)
    requires Alphanumeric(s) && ValidCompact(s) && |s| >= 5 && IsDigit(s[4]) && s[3] != s[4]
    ensures Alphanumeric(Swapped(s, 3))
    ensures ValidCompact(Swapped(s, 3)) <==> Divides97(10 * SeamWeight(s) - 1)
  {
    hide LengthOf, Number, Weight, Divides97;
    var m, a, b, t := s[5..] + s[..3], s[4], s[3], Swapped(s, 3);
    assert Rearranged(s) == [a] + m + [b] && Rearranged(t) == [b] + m + [a];
    assert t[..2] == s[..2];
    EndsDecide(a, m, b);
  }

  lemma EndsDecide(a: char, m: string, b: char)
    requires IsDigit(a) && IsDigit(b) && a != b && Alphanumeric(m)
    ensures Alphanumeric([a] + m + [b]) && Alphanumeric([b] + m + [a])
    ensures Number([a] + m + [b]) % 97 == Number([b] + m + [a]) % 97 <==> Divides97(10 * Weight(m) - 1)
  {
    hide Number, Weight, Divides97;
    EndsNumber(a, m, b);
    EndsNumber(b, m, a);
    var p, q := Number([a] + m + [b]), Number([b] + m + [a]);
    SameRemainder(p, q);
    SameRemainder(q, p);
    EndsDiffer(Code(a), Code(b), Weight(m), Number(m));
    EndsDiffer(Code(b), Code(a), Weight(m), Number(m));
    if Code(a) > Code(b) {
      DigitCancels(Code(a) - Code(b), 10 * Weight(m) - 1);
    } else {
      DigitCancels(Code(b) - Code(a), 10 * Weight(m) - 1);
    }
  }

  // ----- powers of ten modulo 97: the order of ten is 96 -----

  function Residue0(n: nat): nat {
    if n == 0 then 1 else if n == 1 then 10 else if n == 2 then 3 else if n == 3 then 30 else
    if n == 4 then 9 else if n == 5 then 90 else if n == 6 then 27 else if n == 7 then 76 else
    if n == 8 then 81 else if n == 9 then 34 else if n == 10 then 49 else if n == 11 then 5 else
    if n == 12 then 50 else if n == 13 then 15 else if n == 14 then 53 else 45
  }

  lemma Residue0Steps(n: nat)
    requires 0 <= n < 15
    ensures Residue0(n + 1) == Residue0(n) * 10 % 97 && Residue0(n + 1) != 1
  {
  }

  function Residue15(n: nat): nat {
    if n == 15 then 45 else if n == 16 then 62 else if n == 17 then 38 else if n == 18 then 89 else
    if n == 19 then 17 else if n == 20 then 73 else if n == 21 then 51 else if n == 22 then 25 else
    if n == 23 then 56 else if n == 24 then 75 else if n == 25 then 71 else if n == 26 then 31 else
    if n == 27 then 19 else if n == 28 then 93 else if n == 29 then 57 else 85
  }

  lemma Residue15Steps(n: nat)
    requires 15 <= n < 30
    ensures Residue15(n + 1) == Residue15(n) * 10 % 97 && Residue15(n + 1) != 1
  {
  }

  function Residue30(n: nat): nat {
    if n == 30 then 85 else if n == 31 then 74 else if n == 32 then 61 else if n == 33 then 28 else
    if n == 34 then 86 else if n == 35 then 84 else if n == 36 then 64 else if n == 37 then 58 else
    if n == 38 then 95 else if n == 39 then 77 else if n == 40 then 91 else if n == 41 then 37 else
    if n == 42 then 79 else if n == 43 then 14 else if n == 44 then 43 else 42
  }

  lemma Residue30Steps(n: nat)
    requires 30 <= n < 45
    ensures Residue30(n + 1) == Residue30(n) * 10 % 97 && Residue30(n + 1) != 1
  {
  }

  function Residue45(n: nat): nat {
    if n == 45 then 42 else if n == 46 then 32 else if n == 47 then 29 else if n == 48 then 96 else
    if n == 49 then 87 else if n == 50 then 94 else if n == 51 then 67 else if n == 52 then 88 else
    if n == 53 then 7 else if n == 54 then 70 else if n == 55 then 21 else if n == 56 then 16 else
    if n == 57 then 63 else if n == 58 then 48 else if n == 59 then 92 else 47
  }

  lemma Residue45Steps(n: nat)
    requires 45 <= n < 60
    ensures Residue45(n + 1) == Residue45(n) * 10 % 97 && Residue45(n + 1) != 1
  {
  }

  function Residue(n: nat): nat
    requires n <= 60
  {
    if n <= 15 then Residue0(n) else if n <= 30 then Residue15(n) else if n <= 45 then Residue30(n) else Residue45(n)
  }

  lemma ResidueSteps(n: nat)
    requires n < 60
    ensures Residue(n + 1) == Residue(n) * 10 % 97 && Residue(n + 1) != 1
  {
    BlocksMeet();
    hide Residue0, Residue15, Residue30, Residue45;
    if n < 15 {
      Residue0Steps(n);
    } else if n < 30 {
      Residue15Steps(n);
    } else if n < 45 {
      Residue30Steps(n);
    } else {
      Residue45Steps(n);
    }
  }

  lemma BlocksMeet()
    ensures Residue0(15) == Residue15(15) && Residue15(30) == Residue30(30) && Residue30(45) == Residue45(45)
  {
  }

  // The decimal places of the expanded text.
  function Places(s: string): (n: nat)
    requires Alphanumeric(s)
    ensures n <= 2 * |s|
  {
    if s == "" then 0 else Places(s[..|s| - 1]) + if IsDigit(s[|s| - 1]) then 1 else 2
  }

  lemma {:induction false} WeightResidue(s: string)
    requires Alphanumeric(s) && Places(s) <= 60
    ensures Weight(s) % 97 == Residue(Places(s))
  {
    hide Residue;
    if s == "" {
      FirstResidue();
    } else {
      var front, w := s[..|s| - 1], Weight(s[..|s| - 1]);
      WeightResidue(front);
      RemainderStep(w, 0);
      ResidueSteps(Places(front));
      if !IsDigit(s[|s| - 1]) {
        RemainderStep(w * 10, 0);
        ResidueSteps(Places(front) + 1);
      }
    }
  }

  lemma FirstResidue()
    ensures Residue(0) == 1
  {
  }

  lemma SeamNeverCloses(s: string)
    requires Alphanumeric(s) && 5 <= |s| <= 31
    ensures !Divides97(10 * SeamWeight(s) - 1)
  {
    hide Residue, Weight, Places, Divides97;
    var m := s[5..] + s[..3];
    WeightResidue(m);
    RemainderStep(Weight(m), 0);
    ResidueSteps(Places(m));
    SameRemainder(10 * Weight(m), 1);
  }

  /** Two different neighbours of one class swapped in a valid IBAN are always caught, the fourth and
      fifth characters included, which rearranging pulls apart. */
  lemma SwapCaught(s: string, i: nat)
    requires Alphanumeric(s) && ValidCompact(s) && i + 1 < |s| && SameClass(s[i], s[i + 1]) && s[i] != s[i + 1]
    ensures Alphanumeric(Swapped(s, i)) && !ValidCompact(Swapped(s, i))
  {
    ListedIsLetters(s[..2]);
    hide LengthOf, Number, Divides97, SeamWeight;
    if i == 3 {
      SeamSwap(s);
      SeamNeverCloses(s);
    } else {
      var x, y := RearrangedSwap(s, i);
      SwapChanges(x, s[i], s[i + 1], y);
    }
  }

  /** A digit and a letter that stand side by side in a valid IBAN and are swapped go unnoticed exactly
      behind the check digits and for 1B, 2M and 3X, in either order. */
  lemma MixedSwapIff(s: string, i: nat)
    requires Alphanumeric(s) && ValidCompact(s) && i + 1 < |s| && !SameClass(s[i], s[i + 1])
    ensures Alphanumeric(Swapped(s, i))
    ensures ValidCompact(Swapped(s, i)) <==> i >= 4 && (IsBlind(s[i], s[i + 1]) || IsBlind(s[i + 1], s[i]))
  {
    ListedIsLetters(s[..2]);
    if i == 1 {
      assert IsDigit(Swapped(s, 1)[1]);
    } else if i >= 4 {
      hide LengthOf, Number;
      var x, y := RearrangedSwap(s, i);
      assert Swapped(s, i)[..2] == s[..2];
      if IsDigit(s[i]) {
        MixedSwap(x, s[i], s[i + 1], y);
      } else {
        MixedSwap(x, s[i + 1], s[i], y);
      }
    }
  }
}
