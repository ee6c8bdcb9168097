/** Reading the actual rollup height out of a rejected state assertion. */
module HeightErrors {
  import opened Common
  import opened Decimals

  const MARKER := "Block state assertion failed at rollup height "

  predicate OccursAt(text: string, part: string, i: nat) {
    i + |part| <= |text| && text[i..i + |part|] == part
  }

  /** The first occurrence of `part` at or after `from`. */
  function FindFrom(text: string, part: string, from: nat): (r: Option<nat>)
    ensures r.Some? ==> r.value >= from && OccursAt(text, part, r.value)
    decreases |text| - from
  {
    if from + |part| > |text| then None
    else if OccursAt(text, part, from) then Some(from)
    else if from == |text| then None
    else FindFrom(text, part, from + 1)
  }

  function LeadingDigits(s: string): (digits: string)
    ensures AllDigits(digits)
    ensures digits <= s
    ensures |digits| < |s| ==> !IsDigit(s[|digits|])
  {
    if s == [] || !IsDigit(s[0]) then [] else [s[0]] + LeadingDigits(s[1..])
  }

  /** The number behind the first occurrence of a marker. */
  function NumberAfter(message: string, marker: string): Option<u64> {
    match FindFrom(message, marker, 0)
    case None => None
    case Some(start) => ParseU64(LeadingDigits(message[start + |marker|..]))
  }

  function ExtractRollupHeight(message: string): Option<u64> {
    NumberAfter(message, MARKER)
  }

  /** A rejected assertion came too late if the reported height is past the expected one. */
  predicate IsTooLate(message: Option<string>, expectedHeight: nat) {
    && message.Some?
    && ExtractRollupHeight(message.value).Some?
    && ExtractRollupHeight(message.value).value > expectedHeight
  }

  /** The part is found at position `i` of the text, and not before. */
  ghost predicate FirstAt(text: string, part: string, i: nat) {
    && i <= |text| && part <= text[i..]
    && forall j: nat :: j < i ==> !(part <= text[j..])
  }

  lemma OccursAsPrefix(text: string, part: string, i: nat)
    requires i <= |text|
    ensures OccursAt(text, part, i) <==> part <= text[i..]
  {
    if part <= text[i..] {
      assert text[i..][..|part|] == text[i..i + |part|];
    }
    if OccursAt(text, part, i) {
      assert text[i..][..|part|] == text[i..i + |part|];
    }
  }

  /** A rejected assertion at a rollup height, with anything around it. */
  function AssertionMessage(before: string, height: nat, after: string): string {
    before + "Block state assertion failed at rollup height " + Decimal(height) + after
  }

  /** The height is the first in the message, and ends with its digits. */
  ghost predicate NamesHeight(before: string, height: nat, after: string) {
    && FirstAt(AssertionMessage(before, height, after), "Block state assertion failed at rollup height ", |before|)
    && (after == [] || after[0] !in "0123456789")
  }

  lemma {:induction false} FindFromFindsFirst(text: string, part: string, from: nat, i: nat)
    requires from <= i && FirstAt(text, part, i)
    ensures FindFrom(text, part, from) == Some(i)
    decreases i - from
  {
    OccursAsPrefix(text, part, from);
    if from == i {
    } else {
      FindFromFindsFirst(text, part, from + 1, i);
    }
  }

  lemma {:induction false} FindFromIsSound(text: string, part: string, from: nat)
    requires from <= |text| && forall j: nat :: j < from ==> !(part <= text[j..])
    ensures match FindFrom(text, part, from)
            case Some(i) => FirstAt(text, part, i)
            case None => forall j: nat :: j <= |text| ==> !(part <= text[j..])
    decreases |text| - from
  {
    OccursAsPrefix(text, part, from);
    if from + |part| > |text| || OccursAt(text, part, from) || from == |text| {
    } else {
      FindFromIsSound(text, part, from + 1);
    }
  }

  lemma {:induction false} LeadingDigitsOf(digits: string, rest: string)
    requires AllDigits(digits) && (rest == [] || !IsDigit(rest[0]))
    ensures LeadingDigits(digits + rest) == digits
    decreases |digits|
  {
    if digits != [] {
      assert (digits + rest)[1..] == digits[1..] + rest;
      LeadingDigitsOf(digits[1..], rest);
    } else {
      assert digits + rest == rest;
    }
  }

  lemma ParseDecimal(n: nat)
    ensures ParseU64(Decimal(n)) == if n < TWO_64 then Some(n) else None
  {
    ParsePadded(n, 0);
    assert Padded(n, 0) == Decimal(n);
  }

  lemma NumberAfterMarker(before: string, marker: string, number: nat, after: string)
    requires FirstAt(before + marker + Decimal(number) + after, marker, |before|)
    requires after == [] || !IsDigit(after[0])
    ensures NumberAfter(before + marker + Decimal(number) + after, marker)
         == if number < TWO_64 then Some(number) else None
  {
    hide Decimal, ParseU64, LeadingDigits, FirstAt, OccursAt, FindFrom, AllDigits;
    var message := before + marker + Decimal(number) + after;
    FindFromFindsFirst(message, marker, 0, |before|);
    assert message[|before| + |marker|..] == Decimal(number) + after;
    LeadingDigitsOf(Decimal(number), after);
    ParseDecimal(number);
  }

  /** Error heights round-trip: whatever precedes the first marker, the printed height is recovered,
      and a run of digits that does not fit in u64 is rejected. */
  lemma HeightRoundTrip(before: string, height: nat, after: string)
    requires NamesHeight(before, height, after)
    ensures ExtractRollupHeight(AssertionMessage(before, height, after))
         == if height <= 0xFFFF_FFFF_FFFF_FFFF then Some(height) else None
  {
    hide FirstAt, NumberAfter, Decimal;
    assert after != [] ==> !IsDigit(after[0]) by {
      if after != [] {
        DigitsInOrder(after[0], 0);
      }
    }
    assert "Block state assertion failed at rollup height " == MARKER;
    NumberAfterMarker(before, MARKER, height, after);
  }

  lemma ParsedDigits(digits: string, n: u64)
    requires AllDigits(digits) && ParseU64(digits) == Some(n)
    ensures digits != [] && NumberOf(digits) == n
  {
    assert digits != [] ==> IsDigit(digits[0]);
  }

  /** The digits at the start of a text: all up to the first character that is none. */
  ghost predicate LeadsWith(text: string, digits: string) {
    && digits <= text
    && (forall k :: 0 <= k < |digits| ==> digits[k] in "0123456789")
    && (|digits| < |text| ==> text[|digits|] !in "0123456789")
  }

  lemma LeadingDigitsLead(text: string)
    ensures LeadsWith(text, LeadingDigits(text))
  {
    var digits := LeadingDigits(text);
    forall k | 0 <= k < |digits| ensures digits[k] in "0123456789" {
      DigitsInOrder(digits[k], 0);
    }
    if |digits| < |text| {
      DigitsInOrder(text[|digits|], 0);
    }
  }

  /** A height is only ever read from behind the first marker, and only the digits right behind it
      count. */
  lemma ExtractedHeightIsBehindFirstMarker(message: string, height: u64) returns (start: nat, digits: string)
    requires ExtractRollupHeight(message) == Some(height)
    ensures FirstAt(message, "Block state assertion failed at rollup height ", start)
    ensures LeadsWith(message[start + 46..], digits)
    ensures digits != [] && AllDigits(digits) && NumberOf(digits) == height
  {
    start := NumberIsBehindFirst(message, MARKER, height);
    assert |MARKER| == 46;
    digits := LeadingDigits(message[start + 46..]);
    LeadingDigitsLead(message[start + 46..]);
  }

  lemma NumberIsBehindFirst(message: string, marker: string, number: u64) returns (start: nat)
    requires NumberAfter(message, marker) == Some(number)
    ensures FirstAt(message, marker, start)
    ensures var digits := LeadingDigits(message[start + |marker|..]);
            digits != [] && NumberOf(digits) == number
  {
    hide ParseU64, LeadingDigits;
    FindFromIsSound(message, marker, 0);
    start := FindFrom(message, marker, 0).value;
    ParsedDigits(LeadingDigits(message[start + |marker|..]), number);
  }

  /** The reported height decides: the rejection is "too late" exactly when it exceeds the expected one. */
  lemma TooLateIff(before: string, height: u64, after: string, expected: nat)
    requires NamesHeight(before, height, after)
    ensures IsTooLate(Some(AssertionMessage(before, height, after)), expected) <==> height > expected
  {
    HeightRoundTrip(before, height, after);
  }

  /** Without a message, or without the marker in it, nothing is too late. */
  lemma NotTooLateWithoutMarker(message: string, expected: nat)
    requires forall j: nat :: j <= |message| ==> !("Block state assertion failed at rollup height " <= message[j..])
    ensures !IsTooLate(None, expected) && !IsTooLate(Some(message), expected)
  {
    FindFromIsSound(message, MARKER, 0);
  }
}
