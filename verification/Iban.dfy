/** IBAN check digits: the remainder modulo 97 of the expanded number (MOD 97-10 of ISO/IEC 7064).
    Text is ASCII. */
module Iban {
  import opened Bytes

  predicate IsUpper(c: char) {
    'A' <= c <= 'Z'
  }

  // 0..9 for a digit, 10..35 for a letter
  function Code(c: char): (n: nat)
    requires IsDigit(c) || IsUpper(c)
    ensures n < 36
  {
    if IsDigit(c) then c as int - '0' as int else c as int - 55
  }

  predicate Alphanumeric(s: string) {
    forall i :: 0 <= i < |s| ==> IsDigit(s[i]) || IsUpper(s[i])
  }

  // The decimal digits a character expands to.
  function Digits(c: char): seq<nat>
    requires IsDigit(c) || IsUpper(c)
  {
    if IsDigit(c) then [Code(c)] else [Code(c) / 10, Code(c) % 10]
  }

  function Expand(s: string): (r: seq<nat>)
    requires Alphanumeric(s)
  {
    if s == "" then [] else Expand(s[..|s| - 1]) + Digits(s[|s| - 1])
  }

  // The number a digit string writes.
  function Written(digits: seq<nat>): nat {
    if digits == [] then 0 else Written(digits[..|digits| - 1]) * 10 + digits[|digits| - 1]
  }

  // A digit moves what precedes it one place, a letter two.
  function Shift(c: char): nat {
    if IsDigit(c) then 10 else 100
  }

  // The number the whole text stands for.
  function Number(s: string): nat
    requires Alphanumeric(s)
  {
    if s == "" then 0 else Number(s[..|s| - 1]) * Shift(s[|s| - 1]) + Code(s[|s| - 1])
  }

  lemma {:induction false} WrittenOfAppend(a: seq<nat>, d: nat)
    ensures Written(a + [d]) == Written(a) * 10 + d
  {
    assert (a + [d])[..|a|] == a;
  }

  // What one more character adds to the written digits.
  lemma WrittenOfDigits(digits: seq<nat>, c: char)
    requires IsDigit(c) || IsUpper(c)
    ensures Written(digits + Digits(c)) == Written(digits) * Shift(c) + Code(c)
  {
    hide Written, Code;
    if IsDigit(c) {
      WrittenOfAppend(digits, Code(c));
    } else {
      var tens, ones := Code(c) / 10, Code(c) % 10;
      WrittenOfAppend(digits, tens);
      WrittenOfAppend(digits + [tens], ones);
      assert digits + Digits(c) == digits + [tens] + [ones];
    }
  }

  lemma {:induction false} NumberIsExpansion(s: string)
    requires Alphanumeric(s)
    ensures Written(Expand(s)) == Number(s)
  {
    if s != "" {
      var front, c := s[..|s| - 1], s[|s| - 1];
      NumberIsExpansion(front);
      hide Written, Digits, Code;
      WrittenOfDigits(Expand(front), c);
    }
  }

  /** The digit-by-digit loop gives the remainder of the whole number, at any length; a character
      that is neither digit nor capital letter is refused. */
  method IbanMod97(value: string) returns (r: Option<nat>)
    ensures r.Some? <==> Alphanumeric(value)
    ensures r.Some? ==> r.value == Number(value) % 97
  {
    var numeric: seq<nat> := [];
    for i := 0 to |value|
      invariant Alphanumeric(value[..i]) && numeric == Expand(value[..i])
    {
      var c := value[i];
      if !IsDigit(c) && !IsUpper(c) {
        return None;
      }
      assert value[..i + 1][..i] == value[..i];
      numeric := numeric + Digits(c);
    }
    assert value[..|value|] == value;
    var remainder := 0;
    for i := 0 to |numeric|
      invariant remainder == Written(numeric[..i]) % 97
    {
      assert numeric[..i + 1][..i] == numeric[..i];
      RemainderStep(Written(numeric[..i]), numeric[i]);
      remainder := (remainder * 10 + numeric[i]) % 97;
    }
    assert numeric[..|numeric|] == numeric;
    NumberIsExpansion(value);
    return Some(remainder);
  }

  lemma RemainderStep(n: nat, d: nat)
    ensures (n % 97 * 10 + d) % 97 == (n * 10 + d) % 97
  {
    assert n == n / 97 * 97 + n % 97;
    Multiple(n % 97 * 10 + d, n / 97 * 10);
  }

  lemma Multiple(a: int, k: int)
    ensures (a + 97 * k) % 97 == a % 97
  {
  }

  // ----- splitting a number -----

  function Weight(s: string): nat {
    if s == "" then 1 else Weight(s[..|s| - 1]) * Shift(s[|s| - 1])
  }

  lemma {:induction false} NumberOfJoin(x: string, y: string)
    requires Alphanumeric(x) && Alphanumeric(y)
    ensures Alphanumeric(x + y) && Number(x + y) == Number(x) * Weight(y) + Number(y)
  {
    if y == "" {
      assert x + y == x;
    } else {
      var front, c := y[..|y| - 1], y[|y| - 1];
      assert (x + y)[..|x + y| - 1] == x + front;
      NumberOfJoin(x, front);
      Distribute(Number(x), Weight(front), Number(front), Shift(c));
    }
  }

  lemma Distribute(n: nat, w: nat, m: nat, k: nat)
    ensures (n * w + m) * k == n * (w * k) + m * k
  {
  }

  // ----- which differences vanish modulo 97 -----

  predicate Divides97(x: int) {
    x % 97 == 0
  }

  lemma Quotient(x: int) returns (k: int)
    requires Divides97(x)
    ensures x == 97 * k
  {
    k := x / 97;
  }

  lemma IsMultiple(x: int, k: int)
    requires x == 97 * k
    ensures Divides97(x)
  {
  }

  lemma DropMultiple(x: int, k: int)
    ensures Divides97(x + 97 * k) <==> Divides97(x)
  {
  }

  lemma SmallIsNoMultiple(x: int)
    requires 0 < x < 97 || -97 < x < 0
    ensures !Divides97(x)
  {
  }

  // 680 == 7 * 97 + 1
  lemma TenCancels(x: int)
    ensures Divides97(10 * x) <==> Divides97(x)
  {
    hide Divides97;
    if Divides97(10 * x) {
      var k := Quotient(10 * x);
      IsMultiple(x, 68 * k - 7 * x);
    }
    if Divides97(x) {
      var k := Quotient(x);
      IsMultiple(10 * x, 10 * k);
    }
  }

  // 486 == 5 * 97 + 1
  lemma NineCancels(x: int)
    ensures Divides97(9 * x) <==> Divides97(x)
  {
    hide Divides97;
    if Divides97(9 * x) {
      var k := Quotient(9 * x);
      IsMultiple(x, 54 * k - 5 * x);
    }
    if Divides97(x) {
      var k := Quotient(x);
      IsMultiple(9 * x, 9 * k);
    }
  }

  lemma {:induction false} WeightCancels(x: int, s: string)
    ensures Divides97(x * Weight(s)) <==> Divides97(x)
  {
    hide Divides97;
    if s != "" {
      var front, c := s[..|s| - 1], s[|s| - 1];
      WeightCancels(x, front);
      var y := x * Weight(front);
      assert x * Weight(s) == y * Shift(c) by {
        assert x * (Weight(front) * Shift(c)) == x * Weight(front) * Shift(c);
      }
      TenCancels(y);
      TenCancels(10 * y);
      assert 100 * y == 10 * (10 * y);
    }
  }

  lemma SameRemainder(a: int, b: int)
    ensures a % 97 == b % 97 <==> Divides97(a - b)
  {
    assert a == a / 97 * 97 + a % 97 && b == b / 97 * 97 + b % 97;
    if a % 97 == b % 97 {
      assert a - b == 97 * (a / 97 - b / 97);
    } else if Divides97(a - b) {
      Multiple(b, (a - b) / 97);
    }
  }

  /** Replacing the middle of a text by a middle of the same expanded length is missed exactly when
      97 divides the difference of the two numbers. */
  lemma MiddleDecides(x: string, p: string, q: string, y: string)
    requires Alphanumeric(x) && Alphanumeric(p) && Alphanumeric(q) && Alphanumeric(y) && Weight(p) == Weight(q)
    ensures Alphanumeric(x + p + y) && Alphanumeric(x + q + y)
    ensures Number(x + p + y) % 97 == Number(x + q + y) % 97 <==> Divides97(Number(p) - Number(q))
  {
    hide Number, Weight, Divides97;
    NumberOfJoin(x, p);
    NumberOfJoin(x, q);
    NumberOfJoin(x + p, y);
    NumberOfJoin(x + q, y);
    Factor(Number(x + p), Number(x + q), Weight(y), Number(y));
    SameRemainder(Number(x + p + y), Number(x + q + y));
    WeightCancels(Number(p) - Number(q), y);
  }

  lemma Factor(a: int, b: int, w: int, n: int)
    ensures (a * w + n) - (b * w + n) == (a - b) * w
  {
  }

  predicate SameClass(c: char, d: char) {
    (IsDigit(c) && IsDigit(d)) || (IsUpper(c) && IsUpper(d))
  }

  lemma OneCharacter(c: char)
    requires IsDigit(c) || IsUpper(c)
    ensures Number([c]) == Code(c) && Weight([c]) == Shift(c)
  {
    assert [c][..0] == "";
  }

  lemma TwoCharacters(c: char, d: char)
    requires (IsDigit(c) || IsUpper(c)) && (IsDigit(d) || IsUpper(d))
    ensures Number([c, d]) == Code(c) * Shift(d) + Code(d) && Weight([c, d]) == Shift(c) * Shift(d)
  {
    OneCharacter(c);
    assert [c, d][..1] == [c];
  }

  /** Any one character replaced by another of its class changes the remainder. */
  lemma SubstitutionChanges(x: string, c: char, d: char, y: string)
    requires Alphanumeric(x) && Alphanumeric(y) && SameClass(c, d) && c != d
    ensures Alphanumeric(x + [c] + y) && Alphanumeric(x + [d] + y)
    ensures Number(x + [c] + y) % 97 != Number(x + [d] + y) % 97
  {
    hide Number, Weight, Divides97;
    OneCharacter(c);
    OneCharacter(d);
    MiddleDecides(x, [c], [d], y);
    SmallIsNoMultiple(Code(c) - Code(d));
  }

  /** Two different neighbours of one class swapped change the remainder. */
  lemma SwapChanges(x: string, c: char, d: char, y: string)
    requires Alphanumeric(x) && Alphanumeric(y) && SameClass(c, d) && c != d
    ensures Alphanumeric(x + [c, d] + y) && Alphanumeric(x + [d, c] + y)
    ensures Number(x + [c, d] + y) % 97 != Number(x + [d, c] + y) % 97
  {
    hide Number, Weight, Divides97;
    TwoCharacters(c, d);
    TwoCharacters(d, c);
    MiddleDecides(x, [c, d], [d, c], y);
    var gap := Code(c) - Code(d);
    if IsDigit(c) {
      SmallIsNoMultiple(9 * gap);
    } else {
      DropMultiple(2 * gap, gap);
      SmallIsNoMultiple(2 * gap);
    }
  }

  predicate IsBlind(digit: char, letter: char) {
    (digit, letter) in {('1', 'B'), ('2', 'M'), ('3', 'X')}
  }

  /** A digit and a letter swapped are missed exactly when the letter's code is eleven times the
      digit: 1B, 2M and 3X. */
  lemma MixedSwap(x: string, digit: char, letter: char, y: string)
    requires Alphanumeric(x) && Alphanumeric(y) && IsDigit(digit) && IsUpper(letter)
    ensures Alphanumeric(x + [digit, letter] + y) && Alphanumeric(x + [letter, digit] + y)
    ensures Number(x + [digit, letter] + y) % 97 == Number(x + [letter, digit] + y) % 97
       <==> IsBlind(digit, letter)
  {
    hide Number, Weight, Divides97;
    TwoCharacters(digit, letter);
    TwoCharacters(letter, digit);
    MiddleDecides(x, [digit, letter], [letter, digit], y);
    var gap := 11 * Code(digit) - Code(letter);
    NineCancels(gap);
    if gap == 0 {
      IsMultiple(gap, 0);
    } else {
      SmallIsNoMultiple(gap);
    }
  }
}
