/**
 The card number check of the redactor: `luhn_check`, the modulus 10 formula of
 Annex B of ISO/IEC 7812-1 over the digits of a text.
 */
module Luhn {

  const MIN_DIGITS: nat := 13

  predicate IsDigit(c: char) { '0' <= c <= '9' }

  type Digit = d: nat | d < 10

  /** The text's digits, everything else left out. */
  function Digits(text: string): seq<Digit> {
    if text == [] then []
    else DigitAt(text[0]) + Digits(text[1..])
  }

  function Value(d: Digit, double: bool): (v: Digit)
  {
    if !double then d else if 2 * d > 9 then 2 * d - 9 else 2 * d
  }

  /** The sum from the right, `double` saying whether the last digit is doubled. */
  function Sum(ds: seq<Digit>, double: bool): nat {
    if ds == [] then 0 else Value(ds[|ds| - 1], double) + Sum(ds[..|ds| - 1], !double)
  }

  predicate Accepted(ds: seq<Digit>) { |ds| >= MIN_DIGITS && Sum(ds, false) % 10 == 0 }

  predicate Doubled(fromRight: nat) { fromRight % 2 == 1 }

  // ------------------------------------------------------------ on digits

  lemma {:induction false} SumConcat(a: seq<Digit>, b: seq<Digit>, double: bool)
    ensures Sum(a + b, double) == Sum(a, double != Doubled(|b|)) + Sum(b, double)
  {
    if b == [] {
      assert a + b == a;
    } else {
      assert (a + b)[..|a + b| - 1] == a + b[..|b| - 1];
      SumConcat(a, b[..|b| - 1], !double);
    }
  }

  /** The sum around one digit. */
  lemma SumAround(a: seq<Digit>, d: Digit, b: seq<Digit>)
    ensures Sum(a + [d] + b, false) == Sum(a, !Doubled(|b|)) + Value(d, Doubled(|b|)) + Sum(b, false)
  {
    SumConcat(a + [d], b, false);
    SumConcat(a, [d], Doubled(|b|));
  }

  lemma ValueIsInjective(c: Digit, d: Digit, double: bool)
    ensures Value(c, double) == Value(d, double) <==> c == d
  {
  }

  /** Sums with one value changed have the same remainder only when it did not change. */
  lemma SameRemainder(rest: nat, u: nat, v: nat)
    requires (rest + u) % 10 == 0
    ensures (rest + v) % 10 == 0 <==> u % 10 == v % 10
  {
    var q := (rest + u) / 10;
    assert rest + v == 10 * q + v - u;
    assert u % 10 == v % 10 <==> (v - u) % 10 == 0;
  }

  /** One digit changed: an accepted number is rejected. */
  lemma OneDigitChanged(a: seq<Digit>, c: Digit, d: Digit, b: seq<Digit>)
    requires c != d && Accepted(a + [c] + b)
    ensures !Accepted(a + [d] + b)
  {
    hide Sum, Value, Doubled;
    SumAround(a, c, b);
    SumAround(a, d, b);
    ValueIsInjective(c, d, Doubled(|b|));
    SameRemainder(Sum(a, !Doubled(|b|)) + Sum(b, false), Value(c, Doubled(|b|)), Value(d, Doubled(|b|)));
  }

  /** The sum around two neighbours. */
  lemma SumAroundTwo(a: seq<Digit>, c: Digit, d: Digit, b: seq<Digit>)
    ensures
      var double := Doubled(|b|);
      Sum(a + [c, d] + b, false) == Sum(a, double) + Value(c, !double) + Value(d, double) + Sum(b, false)
  {
    hide Sum, Value;
    var double := Doubled(|b|);
    assert a + [c, d] + b == (a + [c]) + [d] + b;
    SumAround(a + [c], d, b);
    SumConcat(a, [c], !double);
    SumOfOne(c, !double);
  }

  lemma SumOfOne(d: Digit, double: bool)
    ensures Sum([d], double) == Value(d, double)
  {
  }

  /** Two different neighbours swapped: still accepted exactly when they are 0 and 9. */
  lemma NeighboursSwapped(a: seq<Digit>, c: Digit, d: Digit, b: seq<Digit>)
    requires c != d && Accepted(a + [c, d] + b)
    ensures Accepted(a + [d, c] + b) <==> ZeroAndNine(c, d)
  {
    hide Sum, Value, Doubled;
    var double := Doubled(|b|);
    SumAroundTwo(a, c, d, b);
    SumAroundTwo(a, d, c, b);
    SwapValues(c, d, double);
    SameRemainder(Sum(a, double) + Sum(b, false), Value(c, !double) + Value(d, double), Value(d, !double) + Value(c, double));
  }

  predicate ZeroAndNine(c: Digit, d: Digit) { (c == 0 && d == 9) || (c == 9 && d == 0) }

  lemma SwapValues(c: Digit, d: Digit, double: bool)
    requires c != d
    ensures (Value(c, !double) + Value(d, double)) % 10 == (Value(d, !double) + Value(c, double)) % 10
            <==> ZeroAndNine(c, d)
  {
    var x, y := Value(c, true) + d, Value(d, true) + c;
    assert x % 10 == y % 10 <==> x == y || x == y + 10 || y == x + 10;
  }

  /** Twelve digits or more have exactly one check digit. */
  lemma CheckDigit(a: seq<Digit>, d: Digit)
    requires |a| >= MIN_DIGITS - 1
    ensures Accepted(a + [d]) <==> d == (10 - Sum(a, true) % 10) % 10
  {
    hide Sum;
    SumConcat(a, [d], false);
    SumOfOne(d, false);
    CheckRemainder(Sum(a, true), d);
  }

  lemma CheckRemainder(rest: nat, d: Digit)
    ensures (rest + d) % 10 == 0 <==> d == (10 - rest % 10) % 10
  {
    assert rest + d == 10 * (rest / 10) + (rest % 10 + d);
  }

  // -------------------------------------------------------------- on texts

  function DigitAt(c: char): seq<Digit> { if IsDigit(c) then [(c - '0') as nat] else [] }

  lemma {:induction false} DigitsConcat(a: string, b: string)
    ensures Digits(a + b) == Digits(a) + Digits(b)
  {
    hide DigitAt;
    if a == [] {
      assert a + b == b;
    } else {
      assert (a + b)[1..] == a[1..] + b;
      DigitsConcat(a[1..], b);
    }
  }

  lemma {:induction false} NoDigits(separators: string)
    requires forall c | c in separators :: !IsDigit(c)
    ensures Digits(separators) == []
  {
    if separators != [] { NoDigits(separators[1..]); }
  }

  predicate Check(number: string) { Accepted(Digits(number)) }

  function DigitOf(c: char): (d: Digit)
    requires IsDigit(c)
  {
    (c - '0') as nat
  }

  lemma OneDigit(c: char)
    requires IsDigit(c)
    ensures Digits([c]) == [DigitOf(c)]
  {
    assert [c][1..] == [];
  }

  /** Separators anywhere do not change the verdict. */
  lemma SeparatorsAreFree(a: string, separators: string, b: string)
    requires forall c | c in separators :: !IsDigit(c)
    ensures Check(a + separators + b) == Check(a + b)
  {
    NoDigits(separators);
    DigitsConcat(a + separators, b);
    DigitsConcat(a, separators);
    DigitsConcat(a, b);
    assert Digits(a) + [] == Digits(a);
  }

  /** One digit mistyped in an accepted text. */
  lemma MistypedIsRejected(a: string, c: char, d: char, b: string)
    requires IsDigit(c) && IsDigit(d) && c != d && Check(a + [c] + b)
    ensures !Check(a + [d] + b)
  {
    forall x | x == c || x == d
      ensures Digits(a + [x] + b) == Digits(a) + [DigitOf(x)] + Digits(b)
    {
      DigitsConcat(a + [x], b);
      DigitsConcat(a, [x]);
      OneDigit(x);
    }
    OneDigitChanged(Digits(a), DigitOf(c), DigitOf(d), Digits(b));
  }

  /** Two digits swapped with nothing but separators between them. */
  lemma SwappedIsRejectedIff(a: string, c: char, separators: string, d: char, b: string)
    requires IsDigit(c) && IsDigit(d) && c != d && (forall s | s in separators :: !IsDigit(s))
    requires Check(a + [c] + separators + [d] + b)
    ensures Check(a + [d] + separators + [c] + b) <==> (c == '0' && d == '9') || (c == '9' && d == '0')
  {
    hide Check, Accepted, Digits;
    DigitsAround(a, c, separators, d, b);
    DigitsAround(a, d, separators, c, b);
    CheckOfDigits(a + [c] + separators + [d] + b);
    CheckOfDigits(a + [d] + separators + [c] + b);
    NeighboursSwapped(Digits(a), DigitOf(c), DigitOf(d), Digits(b));
    ZeroAndNineOf(c, d);
  }

  lemma CheckOfDigits(text: string)
    ensures Check(text) == Accepted(Digits(text))
  {
  }

  lemma ZeroAndNineOf(c: char, d: char)
    requires IsDigit(c) && IsDigit(d)
    ensures ZeroAndNine(DigitOf(c), DigitOf(d)) <==> (c == '0' && d == '9') || (c == '9' && d == '0')
  {
  }

  lemma DigitsAround(a: string, c: char, separators: string, d: char, b: string)
    requires IsDigit(c) && IsDigit(d) && (forall s | s in separators :: !IsDigit(s))
    ensures Digits(a + [c] + separators + [d] + b) == Digits(a) + [DigitOf(c), DigitOf(d)] + Digits(b)
  {
    NoDigits(separators);
    DigitsConcat(a + [c] + separators + [d], b);
    DigitsConcat(a + [c] + separators, [d]);
    DigitsConcat(a + [c], separators);
    DigitsConcat(a, [c]);
    OneDigit(c);
    OneDigit(d);
  }

  /** The ten ASCII digits count, each for its place among them. */
  lemma DigitsAre(c: char)
    ensures IsDigit(c) <==> c in "0123456789"
    ensures IsDigit(c) ==> Digits([c]) == [DigitOf(c)] && "0123456789"[DigitOf(c)] == c
  {
    if IsDigit(c) { OneDigit(c); }
    if k: nat :| k < 10 && "0123456789"[k] == c {
      assert IsDigit("0123456789"[k]);
    }
  }

  /** Two more digits on the right: the last is added as it is, the one before it counts
      for the digits of its double; thirteen are needed and a multiple of ten. */
  lemma CheckIs(text: string, ds: seq<Digit>, c: Digit, d: Digit)
    ensures Sum([], false) == 0 && Sum([c], false) == c
    ensures Sum(ds + [c, d], false) == Sum(ds, false) + 2 * c / 10 + 2 * c % 10 + d
    ensures Check(text) <==> |Digits(text)| > 12 && Sum(Digits(text), false) % 10 == 0
  {
    var both := ds + [c, d];
    assert both[..|both| - 1] == ds + [c] && (ds + [c])[..|ds|] == ds;
    SumOfOne(c, false);
  }

  // -------------------------------------------------------------- the loop

  lemma SumStep(digits: seq<Digit>, i: nat)
    requires i < |digits|
    ensures Sum(digits[i..], false) == Value(digits[i], Doubled(|digits| - (i + 1))) + Sum(digits[i + 1..], false)
    ensures Doubled(|digits| - i) != Doubled(|digits| - (i + 1))
  {
    hide Sum, Value;
    assert digits[i..] == [digits[i]] + digits[i + 1..];
    SumConcat([digits[i]], digits[i + 1..], false);
    SumOfOne(digits[i], Doubled(|digits| - (i + 1)));
  }

  lemma SumOfNone()
    ensures Sum([], false) == 0 && !Doubled(0)
  {
  }

  method LuhnCheck(number: string) returns (ok: bool)
    ensures ok == Check(number)
  {
    hide Sum, Doubled, Digits;
    var digits := Digits(number);
    if |digits| < MIN_DIGITS {
      return false;
    }
    var sum, double := 0, false;
    assert digits[|digits|..] == [];
    SumOfNone();
    for i := |digits| downto 0
      invariant sum == Sum(digits[i..], false) && double == Doubled(|digits| - i)
    {
      SumStep(digits, i);
      var val: nat := digits[i];
      if double {
        val := val * 2;
        if val > 9 {
          val := val - 9;
        }
      }
      sum := sum + val;
      double := !double;
    }
    assert digits[0..] == digits;
    ok := sum % 10 == 0;
  }
}
