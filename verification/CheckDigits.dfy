/** The Luhn checksum (ISO/IEC 7812-1 Annex B) and the EAN-13 check digit, over ASCII digits. */
module CheckDigits {
  import opened Bytes

  type Digit = d: int | 0 <= d < 10

  function DigitOf(c: char): Digit
    requires IsDigit(c)
  {
    c as int - '0' as int
  }

  // compact_digits
  function DigitsIn(value: string): seq<Digit> {
    if value == "" then []
    else
      var front, c := DigitsIn(value[..|value| - 1]), value[|value| - 1];
      if IsDigit(c) then front + [DigitOf(c)] else front
  }

  // The digits of a text, in order, and nothing else.
  lemma DigitsKept(front: string, c: char)
    ensures DigitsIn("") == []
    ensures DigitsIn(front + [c]) == DigitsIn(front) + if 48 <= c as int <= 57 then [c as int - 48] else []
  {
    assert (front + [c])[..|front|] == front;
  }

  // ----- Luhn -----

  function Doubled(d: Digit): Digit {
    if 2 * d > 9 then 2 * d - 9 else 2 * d
  }

  // What a digit adds, with `left` digits from it to the end.
  function Share(d: Digit, left: nat): Digit {
    if left % 2 == 0 then Doubled(d) else d
  }

  function Luhn(s: seq<Digit>): nat {
    if s == [] then 0 else Share(s[0], |s|) + Luhn(s[1..])
  }

  method LuhnChecksum(value: string) returns (r: nat)
    ensures r == Luhn(DigitsIn(value)) % 10
  {
    var digits := DigitsIn(value);
    var total, parity := 0, |digits| % 2;
    for i := 0 to |digits|
      invariant total + Luhn(digits[i..]) == Luhn(digits)
    {
      assert digits[i..][1..] == digits[i + 1..];
      var digit: int := digits[i];
      if i % 2 == parity {
        digit := digit * 2;
        if digit > 9 {
          digit := digit - 9;
        }
      }
      assert i % 2 == parity <==> (|digits| - i) % 2 == 0;
      total := total + digit;
    }
    return total % 10;
  }

  lemma {:induction false} LuhnOfChange(s: seq<Digit>, i: nat, d: Digit)
    requires i < |s|
    ensures Luhn(s[i := d]) == Luhn(s) - Share(s[i], |s| - i) + Share(d, |s| - i)
  {
    if i > 0 {
      assert s[i := d][1..] == s[1..][i - 1 := d];
      LuhnOfChange(s[1..], i - 1, d);
    } else {
      assert s[i := d][1..] == s[1..];
    }
  }

  /** Any one wrong digit changes the checksum, at any length. */
  lemma LuhnCatchesDigit(s: seq<Digit>, i: nat, d: Digit)
    requires i < |s| && d != s[i]
    ensures Luhn(s[i := d]) % 10 != Luhn(s) % 10
  {
    LuhnOfChange(s, i, d);
    var before: int, after: int := Share(s[i], |s| - i), Share(d, |s| - i);
    assert before != after;
    SameLastDigit(Luhn(s), after - before);
  }

  lemma SameLastDigit(n: int, gap: int)
    requires -20 < gap < 20
    ensures (n + gap) % 10 == n % 10 <==> gap == 0 || gap == 10 || gap == -10
  {
  }

  /** Two neighbours swapped change the checksum unless they are equal or 0 and 9. */
  lemma LuhnCatchesSwap(s: seq<Digit>, i: nat)
    requires i + 1 < |s|
    ensures Luhn(s[i := s[i + 1]][i + 1 := s[i]]) % 10 == Luhn(s) % 10 <==>
      s[i] == s[i + 1] || {s[i], s[i + 1]} == {0, 9}
  {
    hide Luhn;
    var a, b, left := s[i], s[i + 1], |s| - i;
    LuhnOfChange(s, i, b);
    LuhnOfChange(s[i := b], i + 1, a);
    var gap := Share(b, left) - Share(a, left) + Share(a, left - 1) - Share(b, left - 1);
    SameLastDigit(Luhn(s), gap);
    assert left % 2 == 0 <==> (left - 1) % 2 != 0;
    assert left % 2 == 0 ==> gap == (Doubled(b) - b) - (Doubled(a) - a);
    assert left % 2 != 0 ==> gap == (Doubled(a) - a) - (Doubled(b) - b);
    NineAndZero(a, b);
  }

  lemma NineAndZero(a: Digit, b: Digit)
    ensures var gap := (Doubled(b) - b) - (Doubled(a) - a);
            (gap == 0 || gap == 10 || gap == -10) <==> (a == b || {a, b} == {0, 9})
  {
    assert {a, b} == {0, 9} <==> (a == 0 && b == 9) || (a == 9 && b == 0) by {
      if {a, b} == {0, 9} {
        assert a in {0, 9} && b in {0, 9} && 0 in {a, b} && 9 in {a, b};
      }
    }
  }

  // What the sum of a longer payload makes of the last two digits.
  lemma {:induction false} LuhnOfTwoMore(s: seq<Digit>, e: Digit, d: Digit)
    ensures Luhn(s + [e, d]) == Luhn(s) + (if e < 5 then 2 * e else 2 * e - 9) + d
  {
    var t := s + [e, d];
    if s == [] {
      assert t == [e, d] && [e, d][1..] == [d] && [d][1..] == [];
    } else {
      LuhnOfTwoMore(s[1..], e, d);
      assert t[1..] == s[1..] + [e, d];
      assert Share(t[0], |t|) == Share(s[0], |s|);
    }
  }

  lemma LuhnOfOne(d: Digit)
    ensures Luhn([]) == 0 && Luhn([d]) == d
  {
    assert [d][1..] == [];
  }

  lemma LastCountsOnce(s: seq<Digit>, d: Digit)
    ensures Luhn(s + [d]) == Luhn(s + [0]) + d
  {
    hide Luhn;
    if s != [] {
      var front, last := s[..|s| - 1], s[|s| - 1];
      LuhnOfTwoMore(front, last, d);
      LuhnOfTwoMore(front, last, 0);
      assert s + [d] == front + [last, d] && s + [0] == front + [last, 0];
    } else {
      LuhnOfOne(d);
      LuhnOfOne(0);
      assert s + [d] == [d] && s + [0] == [0];
    }
  }

  /** From the right: the last digit counts once, the digit before it is doubled with its digits added, and
      so on in pairs. */
  lemma LuhnFromRight(s: seq<Digit>, e: Digit, d: Digit)
    ensures Luhn([]) == 0 && Luhn([d]) == d
    ensures Luhn(s + [e, d]) == Luhn(s) + (2 * e / 10 + 2 * e % 10) + d
    ensures Luhn(s + [d]) == Luhn(s + [0]) + d
  {
    LuhnOfOne(d);
    hide Luhn;
    LuhnOfTwoMore(s, e, d);
    LastCountsOnce(s, d);
  }

  /** Every payload has exactly one check digit. */
  lemma LuhnCheckDigit(payload: seq<Digit>, d: Digit)
    ensures Luhn(payload + [d]) % 10 == 0 <==> d == (10 - Luhn(payload + [0]) % 10) % 10
  {
    LastCountsOnce(payload, d);
    hide Luhn;
    Complement(Luhn(payload + [0]), d);
  }

  // ----- EAN-13 -----

  function Weighted(d: Digit, index: nat): nat {
    if index % 2 == 0 then d else 3 * d
  }

  function WeightedSum(s: seq<Digit>): nat {
    if s == [] then 0 else WeightedSum(s[..|s| - 1]) + Weighted(s[|s| - 1], |s| - 1)
  }

  lemma LastDigitAdds(first: seq<Digit>, d: Digit)
    requires |first| % 2 == 0
    ensures WeightedSum(first + [d]) == WeightedSum(first) + d
  {
    assert (first + [d])[..|first|] == first;
  }

  lemma Complement(n: nat, d: Digit)
    ensures (n + d) % 10 == 0 <==> d == (10 - n % 10) % 10
  {
  }

  // Weights 1 and 3 by turns, from the left.
  lemma WeightsAlternate(s: seq<Digit>, d: Digit)
    ensures WeightedSum([]) == 0
    ensures WeightedSum(s + [d]) == WeightedSum(s) + (if |s| % 2 == 0 then d as int else 3 * d)
  {
    assert (s + [d])[..|s|] == s;
  }

  /** The check digit is the one digit that makes the weighted sum of all thirteen a multiple of ten. */
  method Ean13CheckDigit(first: seq<Digit>) returns (check: Digit)
    requires |first| == 12
    ensures forall d: Digit :: WeightedSum(first + [d]) % 10 == 0 <==> d == check
  {
    var total: nat := 0;
    for i := 0 to |first|
      invariant total == WeightedSum(first[..i])
    {
      assert first[..i + 1][..i] == first[..i];
      total := total + first[i] as int * (if i % 2 == 0 then 1 else 3);
    }
    assert first[..|first|] == first;
    check := (10 - total % 10) % 10;
    hide WeightedSum;
    forall d: Digit ensures WeightedSum(first + [d]) % 10 == 0 <==> d == check {
      LastDigitAdds(first, d);
      Complement(total, d);
    }
  }

  // is_valid_ahv on its thirteen digits
  predicate ValidAhv(s: seq<Digit>) {
    |s| == 13 && s[..3] == [7, 5, 6] && WeightedSum(s) % 10 == 0
  }

  /** A number is valid exactly when it has thirteen digits, the prefix, and the check digit of the first
      twelve. */
  lemma AhvHasCheckDigit(s: seq<Digit>)
    ensures ValidAhv(s) <==>
      |s| == 13 && s[0] == 7 && s[1] == 5 && s[2] == 6 && s[12] == (10 - WeightedSum(s[..12]) % 10) % 10
  {
    if |s| == 13 {
      assert s == s[..12] + [s[12]];
      WeightsAlternate(s[..12], s[12]);
      Complement(WeightedSum(s[..12]), s[12]);
      hide WeightedSum;
      assert s[..3] == [s[0], s[1], s[2]];
    }
  }

  lemma {:induction false} SumOfChange(s: seq<Digit>, i: nat, d: Digit)
    requires i < |s|
    ensures WeightedSum(s[i := d]) == WeightedSum(s) - Weighted(s[i], i) + Weighted(d, i)
  {
    var n := |s| - 1;
    if i < n {
      assert s[i := d][..n] == s[..n][i := d];
      SumOfChange(s[..n], i, d);
    } else {
      assert s[i := d][..n] == s[..n];
    }
  }

  /** One wrong digit is always caught. */
  lemma AhvCatchesDigit(s: seq<Digit>, i: nat, d: Digit)
    requires ValidAhv(s) && i < 13 && d != s[i]
    ensures !ValidAhv(s[i := d])
  {
    hide WeightedSum;
    SumOfChange(s, i, d);
    var gap: int := d as int - s[i] as int;
    assert Weighted(d, i) - Weighted(s[i], i) == gap * (if i % 2 == 0 then 1 else 3);
  }

  /** Two different neighbours swapped are missed exactly when they stand behind the prefix and are
      five apart. */
  lemma AhvSwap(s: seq<Digit>, i: nat)
    requires ValidAhv(s) && i < 12 && s[i] != s[i + 1]
    ensures ValidAhv(s[i := s[i + 1]][i + 1 := s[i]]) <==>
      i >= 3 && (s[i] as int == s[i + 1] as int + 5 || s[i + 1] as int == s[i] as int + 5)
  {
    hide WeightedSum;
    var a: int, b: int := s[i], s[i + 1];
    var t := s[i := b][i + 1 := a];
    if i >= 3 {
      SumOfChange(s, i, b);
      SumOfChange(s[i := b], i + 1, a);
      assert t[..3] == s[..3];
      var gap := if i % 2 == 0 then 2 * (a - b) else 2 * (b - a);
      assert WeightedSum(t) == WeightedSum(s) + gap;
      SameLastDigit(WeightedSum(s), gap);
    } else {
      assert t[..3][i] == b && s[..3][i] == a;
    }
  }
}
