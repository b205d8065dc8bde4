/** The Luhn (mod 10) check-digit scheme of ISO/IEC 7812-1, Annex B, as
    `luhnAlgorithm` computes it: walk the characters from the right, let the
    digits at odd positions (counting from 0 at the right) contribute the digit
    sum of their double and the others themselves, and accept when the total is
    a multiple of ten. A character that is not a digit rejects at once. */
module Luhn {
  import opened Chars

  /** The value of a decimal digit character. */
  function DigitValue(c: char): (d: nat)
    requires IsDigit(c)
    ensures d <= 9
    ensures d == 0 <==> c == '0'
  {
    c as int - '0' as int
  }

  /** Sum of the decimal digits of `n`. */
  function DigitSum(n: nat): nat
  {
    if n < 10 then n else n % 10 + DigitSum(n / 10)
  }

  /** What the digit `d` at reversed position `idx` adds to the sum. The code
      takes `9` for a doubled nine and `(2 * d) % 9` for any other doubled
      digit; both are the digit sum of `2 * d`, so every contribution is a
      single digit. */
  function Contribution(idx: nat, d: nat): (v: nat)
    requires d <= 9
    ensures v <= 9
    ensures v == (if idx % 2 == 1 then DigitSum(2 * d) else d)
  {
    if idx % 2 == 1 && d == 9 then 9
    else if idx % 2 == 1 then (d * 2) % 9
    else d
  }

  /** `string.reversed()`. */
  function Reverse(s: string): (r: string)
    ensures |r| == |s|
    ensures forall i :: 0 <= i < |s| ==> r[i] == s[|s| - 1 - i]
  {
    if s == [] then [] else [s[|s| - 1]] + Reverse(s[..|s| - 1])
  }

  predicate AllDigits(s: string) {
    forall i :: 0 <= i < |s| ==> IsDigit(s[i])
  }

  /** The running sum after the first `k` characters of the reversed text,
      each of which must be a digit. It never exceeds `9 * k`. */
  function PrefixSum(reversed: string, k: nat): (sum: nat)
    requires k <= |reversed|
    requires forall i :: 0 <= i < k ==> IsDigit(reversed[i])
    ensures sum <= 9 * k
  {
    if k == 0 then 0
    else PrefixSum(reversed, k - 1) + Contribution(k - 1, DigitValue(reversed[k - 1]))
  }

  /** What `luhnAlgorithm` accepts. */
  predicate LuhnValid(s: string) {
    AllDigits(s) && PrefixSum(Reverse(s), |s|) % 10 == 0
  }

  /** `luhnAlgorithm(_:)`: one pass over the reversed characters with an
      early `false` on the first one that is not a digit. */
  method LuhnAlgorithm(s: string) returns (valid: bool)
    ensures valid <==> LuhnValid(s)
  {
    var sum := 0;
    var reversed := Reverse(s);
    for idx := 0 to |reversed|
      invariant forall i :: 0 <= i < idx ==> IsDigit(reversed[i])
      invariant sum == PrefixSum(reversed, idx)
    {
      var element := reversed[idx];
      if !IsDigit(element) {
        assert !IsDigit(s[|s| - 1 - idx]);
        return false;
      }
      var digit := DigitValue(element);
      if idx % 2 == 1 && digit == 9 {
        sum := sum + 9;
      } else if idx % 2 == 1 {
        sum := sum + (digit * 2) % 9;
      } else {
        sum := sum + digit;
      }
    }
    assert forall i :: 0 <= i < |s| ==> s[i] == reversed[|s| - 1 - i];
    return sum % 10 == 0;
  }

  /** Reference definition read off ISO/IEC 7812-1, Annex B, left to right:
      the digit `p` places from the right end is doubled (and its digits
      summed) when `p` is odd. */
  function IsoSum(s: string): nat
    requires AllDigits(s)
  {
    if s == [] then 0
    else
      var p := |s| - 1;
      var d := DigitValue(s[0]);
      (if p % 2 == 1 then DigitSum(2 * d) else d) + IsoSum(s[1..])
  }

  predicate IsoValid(s: string) {
    AllDigits(s) && IsoSum(s) % 10 == 0
  }

  /** The running sum over the last `k` characters equals the reference sum
      of that suffix. */
  lemma {:induction false} PrefixSumIsIsoSum(s: string, k: nat)
    requires k <= |s| && AllDigits(s)
    ensures PrefixSum(Reverse(s), k) == IsoSum(s[|s| - k..])
  {
    if k > 0 {
      PrefixSumIsIsoSum(s, k - 1);
      var suffix := s[|s| - k..];
      assert suffix[1..] == s[|s| - (k - 1)..];
      assert Reverse(s)[k - 1] == suffix[0];
    }
  }

  /** The code's shortcut computes exactly the standard's check. */
  lemma LuhnMatchesIso(s: string)
    ensures LuhnValid(s) <==> IsoValid(s)
  {
    if AllDigits(s) {
      PrefixSumIsIsoSum(s, |s|);
      assert s[0..] == s;
    }
  }

  /** The empty text is accepted: its sum is 0. */
  lemma EmptyAccepted()
    ensures LuhnValid("")
  {
  }

  /** A text with a character that is not a digit anywhere is rejected,
      whatever its digits. */
  lemma NonDigitRejected(s: string, i: nat)
    requires i < |s| && !IsDigit(s[i])
    ensures !LuhnValid(s)
  {
  }

  /** The example: a space inside a valid number rejects it. */
  lemma SpaceRejected(s: string)
    requires s == "7992 7398713"
    ensures !LuhnValid(s)
  {
    NonDigitRejected(s, 4);
  }

  /** "79927398713" is accepted: its reversed digits sum to 70. */
  lemma KnownNumberAccepted(s: string)
    requires s == "79927398713"
    ensures LuhnValid(s)
  {
    var r := Reverse(s);
    assert r == "31789372997";
    KnownNumberFront(r);
    KnownNumberBack(r);
  }

  /** The running sums over the reversed example, split in two halves. */
  lemma KnownNumberFront(r: string)
    requires r == "31789372997"
    ensures PrefixSum(r, 5) == 28
  {
    assert PrefixSum(r, 1) == 3;
    assert PrefixSum(r, 2) == 5;
    assert PrefixSum(r, 3) == 12;
    assert PrefixSum(r, 4) == 19;
  }

  lemma KnownNumberBack(r: string)
    requires r == "31789372997" && PrefixSum(r, 5) == 28
    ensures PrefixSum(r, 11) == 70
  {
    assert PrefixSum(r, 6) == 34;
    assert PrefixSum(r, 7) == 41;
    assert PrefixSum(r, 8) == 45;
    assert PrefixSum(r, 9) == 54;
    assert PrefixSum(r, 10) == 63;
  }

  /** "123" is rejected: its reversed digits sum to 8. */
  lemma ShortNumberRejected(s: string)
    requires s == "123"
    ensures !LuhnValid(s)
  {
    var r := Reverse(s);
    assert r == "321";
    assert PrefixSum(r, 1) == 3;
    assert PrefixSum(r, 2) == 7;
    assert PrefixSum(r, 3) == 8;
  }

  /** The card number "5578 8549 6021 0681" of the library's tests, without
      its spaces, passes: its reversed digits sum to 70. */
  lemma CardNumberExample(s: string)
    requires s == "5578854960210681"
    ensures LuhnValid(s)
  {
    var r := Reverse(s);
    assert r == "1860120694588755";
    CardNumberSum1(r);
    CardNumberSum2(r);
    CardNumberSum3(r);
    CardNumberSum4(r);
  }

  /** The running sums over the reversed card number, four digits at a time. */
  lemma CardNumberSum1(r: string)
    requires r == "1860120694588755"
    ensures PrefixSum(r, 4) == 14
  {
    assert PrefixSum(r, 1) == 1;
    assert PrefixSum(r, 2) == 8;
    assert PrefixSum(r, 3) == 14;
  }

  lemma CardNumberSum2(r: string)
    requires r == "1860120694588755" && PrefixSum(r, 4) == 14
    ensures PrefixSum(r, 8) == 22
  {
    assert PrefixSum(r, 5) == 15;
    assert PrefixSum(r, 6) == 19;
    assert PrefixSum(r, 7) == 19;
  }

  lemma CardNumberSum3(r: string)
    requires r == "1860120694588755" && PrefixSum(r, 8) == 22
    ensures PrefixSum(r, 12) == 51
  {
    assert PrefixSum(r, 9) == 31;
    assert PrefixSum(r, 10) == 39;
    assert PrefixSum(r, 11) == 44;
  }

  lemma CardNumberSum4(r: string)
    requires r == "1860120694588755" && PrefixSum(r, 12) == 51
    ensures PrefixSum(r, 16) == 70
  {
    assert PrefixSum(r, 13) == 59;
    assert PrefixSum(r, 14) == 64;
    assert PrefixSum(r, 15) == 69;
  }
}
