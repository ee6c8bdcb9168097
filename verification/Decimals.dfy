/** Decimal printing of unsigned integers, and Rust's `str::parse::<u64>`. */
module Decimals {
  import opened Common

  predicate IsDigit(c: char) {
    '0' <= c <= '9'
  }

  function DigitOf(d: nat): (c: char)
    requires d < 10
  {
    '0' + d as char
  }

  function ValueOf(c: char): (d: nat)
    requires IsDigit(c)
  {
    (c - '0') as nat
  }

  predicate AllDigits(s: string) {
    forall i :: 0 <= i < |s| ==> IsDigit(s[i])
  }

  /** The number a run of digits denotes. */
  function NumberOf(s: string): nat
    requires AllDigits(s)
  {
    if s == [] then 0 else 10 * NumberOf(s[..|s| - 1]) + ValueOf(s[|s| - 1])
  }

  /** The shortest decimal representation, as `{}` prints it. */
  function Decimal(n: nat): (s: string)
    ensures s != [] && AllDigits(s)
  {
    if n < 10 then [DigitOf(n)] else Decimal(n / 10) + [DigitOf(n % 10)]
  }

  function Zeros(k: nat): (s: string)
    ensures |s| == k && AllDigits(s)
  {
    seq(k, _ => '0')
  }

  /** `{:0width}`: zeros on the left up to the given width. */
  function Padded(n: nat, width: nat): (s: string)
    ensures s != [] && AllDigits(s)
  {
    Zeros(SaturatingSub(width, |Decimal(n)|)) + Decimal(n)
  }

  /** `parse::<u64>`: an optional plus sign, at least one digit, nothing else, no overflow. */
  function ParseU64(s: string): Option<u64> {
    var digits := if s != [] && s[0] == '+' then s[1..] else s;
    if digits == [] || !AllDigits(digits) then None
    else if NumberOf(digits) < TWO_64 then Some(NumberOf(digits)) else None
  }

  /** The digits, in order. */
  lemma DigitsInOrder(c: char, d: nat)
    requires d < 10
    ensures DigitOf(d) == "0123456789"[d]
    ensures IsDigit(c) <==> c in "0123456789"
  {
    if IsDigit(c) {
      assert c == "0123456789"[ValueOf(c)];
    }
  }

  /** Decimal notation: the last digit is worth one, and all before it tens. */
  lemma DecimalAppends(n: nat, d: nat)
    requires n >= 1 && d < 10
    ensures Decimal(10 * n + d) == Decimal(n) + [DigitOf(d)]
  {
  }

  lemma PaddedSeven()
    ensures Padded(7, 4) == "0007"
  {
    assert Decimal(7) == "7";
    assert Zeros(3) == "000";
  }

  lemma {:induction false} NumberOfDecimal(n: nat)
    ensures NumberOf(Decimal(n)) == n
    decreases n
  {
    if n < 10 {
    } else {
      NumberOfDecimal(n / 10);
      var s := Decimal(n);
      assert s[..|s| - 1] == Decimal(n / 10);
    }
  }

  lemma {:induction false} LeadingZerosDoNotCount(k: nat, s: string)
    requires AllDigits(s)
    ensures NumberOf(Zeros(k) + s) == NumberOf(s)
    decreases k + |s|
  {
    var z := Zeros(k) + s;
    if s != [] {
      LeadingZerosDoNotCount(k, s[..|s| - 1]);
      assert z[..|z| - 1] == Zeros(k) + s[..|s| - 1];
    } else if k > 0 {
      LeadingZerosDoNotCount(k - 1, s);
      assert z[..|z| - 1] == Zeros(k - 1) + s;
    }
  }

  lemma DecimalDoesNotStartWithPlus(n: nat, width: nat)
    ensures Padded(n, width)[0] != '+'
  {
    assert IsDigit(Padded(n, width)[0]);
  }

  /** Printing with any padding and parsing back gives the number, or nothing if it exceeds u64. */
  lemma ParsePadded(n: nat, width: nat)
    ensures ParseU64(Padded(n, width)) == if n < TWO_64 then Some(n) else None
  {
    DecimalDoesNotStartWithPlus(n, width);
    NumberOfDecimal(n);
    LeadingZerosDoNotCount(SaturatingSub(width, |Decimal(n)|), Decimal(n));
  }
}
