/** The pure `String` extensions of the library: grouping a text with a
    separator, masking a range, the digits-only test and card validation. */
module StringExt {
  import opened Chars
  import opened Luhn

  /** `StringifyError`. */
  datatype StringifyError = OutOfUpperIndex | InvalidCard | IncorrectPattern | IncorrectDate

  /** A value, or the error a throwing function throws. */
  datatype Result<T> = Ok(value: T) | Err(error: StringifyError)

  // ---------------------------------------------------------------------------
  // separate(every:with:)
  // ---------------------------------------------------------------------------

  /** `separate(every: stride, with: separator)`: each character keeps its
      place in order, and the one at index `i` is preceded by `separator`
      when `i > 0 && i % stride == 0`. Swift evaluates `i % stride` only for
      `i > 0`, and traps when `stride` is 0 there, hence the precondition.
      Dafny's `%` agrees with Swift's for a positive left operand. */
  function Separate(s: string, stride: int, separator: char): (r: string)
    requires stride != 0 || |s| <= 1
    ensures |r| >= |s|
    decreases |s|
  {
    if s == [] then []
    else
      var i := |s| - 1;
      Separate(s[..i], stride, separator)
        + (if i > 0 && i % stride == 0 then [separator, s[i]] else [s[i]])
  }

  /** A positive multiple of `k` is at least `k`. */
  lemma {:induction false} MulAtLeast(k: int, m: int)
    requires k > 0 && m >= 1
    ensures k * m >= k
    decreases m
  {
    if m > 1 {
      MulAtLeast(k, m - 1);
      assert k * m == k * (m - 1) + k;
    }
  }

  /** Division with remainder determines quotient and remainder. */
  lemma DivModUnique(n: int, k: int, q: int, r: int)
    requires k > 0 && 0 <= r < k && n == k * q + r
    ensures n / k == q && n % k == r
  {
    var q', r' := n / k, n % k;
    assert n == k * q' + r' && 0 <= r' < k;
    if q' > q {
      MulAtLeast(k, q' - q);
      assert false;
    } else if q' < q {
      MulAtLeast(k, q - q');
      assert false;
    }
  }

  /** Moving from `n - 1` to `n` raises the quotient by one exactly when `n`
      is a multiple of `k`. */
  lemma DivStep(n: int, k: int)
    requires n >= 1 && k > 0
    ensures n / k == (n - 1) / k + (if n % k == 0 then 1 else 0)
  {
    var q, r := (n - 1) / k, (n - 1) % k;
    assert n - 1 == k * q + r;
    if r == k - 1 {
      DivModUnique(n, k, q + 1, 0);
    } else {
      DivModUnique(n, k, q, r + 1);
    }
  }

  /** A text of `n > 0` characters grouped every `k` gains `(n - 1) / k`
      separators. */
  lemma {:induction false} SeparateLength(s: string, k: int, separator: char)
    requires k > 0 && s != []
    ensures |Separate(s, k, separator)| == |s| + (|s| - 1) / k
    decreases |s|
  {
    var n := |s| - 1;
    if n > 0 {
      SeparateLength(s[..n], k, separator);
      DivStep(n, k);
    }
  }

  /** Where each character lands: the character at index `i` sits at
      `i + i / k`, right behind a separator when `i > 0 && i % k == 0` and
      right behind the previous character otherwise. */
  lemma {:induction false} SeparateAt(s: string, k: int, separator: char, i: nat)
    requires k > 0 && i < |s|
    ensures i + i / k < |Separate(s, k, separator)|
    ensures Separate(s, k, separator)[i + i / k] == s[i]
    ensures i > 0 && i % k == 0 ==> Separate(s, k, separator)[i + i / k - 1] == separator
    ensures i > 0 && i % k != 0 ==> Separate(s, k, separator)[i + i / k - 1] == s[i - 1]
    decreases |s|
  {
    var n := |s| - 1;
    var front := s[..n];
    var r := Separate(s, k, separator);
    var head := Separate(front, k, separator);
    assert r == head + (if n > 0 && n % k == 0 then [separator, s[n]] else [s[n]]);
    if i < n {
      SeparateAt(front, k, separator, i);
      assert r[i + i / k] == head[i + i / k];
      if i > 0 {
        assert r[i + i / k - 1] == head[i + i / k - 1];
      }
    } else if n > 0 {
      SeparateLength(front, k, separator);
      DivStep(n, k);
      if n % k != 0 {
        SeparateAt(front, k, separator, n - 1);
      }
    }
  }

  /** Removing the separators from a grouped text gives the text back, as
      long as the text did not itself contain the separator. */
  lemma {:induction false} SeparateStrip(s: string, stride: int, separator: char)
    requires stride != 0 || |s| <= 1
    requires separator !in s
    ensures RemoveChar(Separate(s, stride, separator), separator) == s
    decreases |s|
  {
    if s != [] {
      var i := |s| - 1;
      var front := s[..i];
      var head := Separate(front, stride, separator);
      var piece := if i > 0 && i % stride == 0 then [separator, s[i]] else [s[i]];
      assert s == front + [s[i]];
      SeparateStrip(front, stride, separator);
      StripPiece(piece, separator, s[i]);
      calc {
        RemoveChar(Separate(s, stride, separator), separator);
        RemoveChar(head + piece, separator);
        { RemoveCharAppend(head, piece, separator); }
        RemoveChar(head, separator) + RemoveChar(piece, separator);
        front + [s[i]];
      }
    }
  }

  /** A separator followed by a character, or the character alone, strips
      to the character. */
  lemma StripPiece(piece: string, separator: char, c: char)
    requires c != separator
    requires piece == [separator, c] || piece == [c]
    ensures RemoveChar(piece, separator) == [c]
  {
    if |piece| == 2 {
      assert piece[1..] == [c];
    }
  }

  /** Examples of the library's tests: nothing to group, a text shorter
      than the stride, and "123" in twos with colons. */
  lemma SeparateExamples()
    ensures Separate("", 4, ' ') == ""
    ensures Separate("123", 4, ' ') == "123"
    ensures Separate("123", 2, ':') == "12:3"
  {
    assert "123"[..2] == "12";
    assert "12"[..1] == "1";
    assert "1"[..0] == "";
  }

  /** A text is grouped when regrouping its separator-free content gives
      it back. */
  predicate IsGrouped(t: string, stride: int, separator: char)
  {
    (stride != 0 || |RemoveChar(t, separator)| <= 1)
    && t == Separate(RemoveChar(t, separator), stride, separator)
  }

  /** Grouping is idempotent once the separators are stripped: the output of
      `Separate` is grouped, and carries exactly the input's characters. */
  lemma RegroupIdempotent(s: string, stride: int, separator: char)
    requires stride != 0 || |s| <= 1
    requires separator !in s
    ensures IsGrouped(Separate(s, stride, separator), stride, separator)
    ensures Separate(RemoveChar(Separate(s, stride, separator), separator), stride, separator)
      == Separate(s, stride, separator)
  {
    SeparateStrip(s, stride, separator);
  }

  // ---------------------------------------------------------------------------
  // maskSubstring(in:with:)
  // ---------------------------------------------------------------------------

  /** `t` is `s` with the positions in `[lo, hi)` overwritten by `mask`. */
  predicate Masked(s: string, t: string, lo: int, hi: int, mask: char)
  {
    |t| == |s| && forall i :: 0 <= i < |s| ==> t[i] == (if lo <= i < hi then mask else s[i])
  }

  /** `String(repeating: mask, count: n)`. */
  function Repeat(mask: char, n: nat): (r: string)
    ensures |r| == n && forall i :: 0 <= i < n ==> r[i] == mask
  {
    if n == 0 then [] else [mask] + Repeat(mask, n - 1)
  }

  /** `replacingCharacters(in: lo..<hi, with: String(repeating: mask, count: hi - lo))`. */
  function Overwrite(s: string, lo: nat, hi: nat, mask: char): (r: string)
    requires lo <= hi <= |s|
    ensures Masked(s, r, lo, hi, mask)
  {
    s[..lo] + Repeat(mask, hi - lo) + s[hi..]
  }

  /** `maskSubstring(in: lo..<hi, with:)`. A range with `lo > hi` cannot be
      formed, and a negative `lo` traps once the guard has passed. */
  function MaskRange(s: string, lo: int, hi: int, mask: char): (r: Result<string>)
    requires lo <= hi
    requires hi <= |s| ==> 0 <= lo
    ensures r.Err? <==> hi > |s|
    ensures r.Err? ==> r.error == OutOfUpperIndex
    ensures r.Ok? ==> Masked(s, r.value, lo, hi, mask)
  {
    if !(hi <= |s|) then Err(OutOfUpperIndex)
    else Ok(Overwrite(s, lo, hi, mask))
  }

  /** `maskSubstring(in: lo...hi, with:)`: masks `hi - lo + 1` characters. */
  function MaskClosedRange(s: string, lo: int, hi: int, mask: char): (r: Result<string>)
    requires lo <= hi
    requires hi < |s| ==> 0 <= lo
    ensures r.Err? <==> hi >= |s|
    ensures r.Err? ==> r.error == OutOfUpperIndex
    ensures r.Ok? ==> Masked(s, r.value, lo, hi + 1, mask)
  {
    if !(hi < |s|) then Err(OutOfUpperIndex)
    else Ok(Overwrite(s, lo, hi + 1, mask))
  }

  /** `maskSubstring(in: lo..., with:)`: masks from `lo` to the end. */
  function MaskFrom(s: string, lo: int, mask: char): (r: Result<string>)
    requires 0 <= lo
    ensures r.Err? <==> lo >= |s|
    ensures r.Err? ==> r.error == OutOfUpperIndex
    ensures r.Ok? ==> Masked(s, r.value, lo, |s|, mask)
  {
    if !(lo < |s|) then Err(OutOfUpperIndex)
    else Ok(Overwrite(s, lo, |s|, mask))
  }

  /** `maskSubstring(in: ...hi, with:)`: masks the first `hi + 1` characters. */
  function MaskThrough(s: string, hi: int, mask: char): (r: Result<string>)
    requires hi < |s| ==> 0 <= hi
    ensures r.Err? <==> hi >= |s|
    ensures r.Err? ==> r.error == OutOfUpperIndex
    ensures r.Ok? ==> Masked(s, r.value, 0, hi + 1, mask)
  {
    if !(hi < |s|) then Err(OutOfUpperIndex)
    else Ok(Overwrite(s, 0, hi + 1, mask))
  }

  /** `maskSubstring(in: ..<hi, with:)`: masks the first `hi` characters. */
  function MaskUpTo(s: string, hi: int, mask: char): (r: Result<string>)
    requires hi <= |s| ==> 0 <= hi
    ensures r.Err? <==> hi > |s|
    ensures r.Err? ==> r.error == OutOfUpperIndex
    ensures r.Ok? ==> Masked(s, r.value, 0, hi, mask)
  {
    if !(hi <= |s|) then Err(OutOfUpperIndex)
    else Ok(Overwrite(s, 0, hi, mask))
  }

  /** The masking examples of the library's documentation and tests. */
  lemma MaskExamples()
    ensures MaskRange("abcdefg", 1, 10, '*') == Err(OutOfUpperIndex)
    ensures MaskRange("abcdefg", 5, 7, '*') == Ok("abcde**")
    ensures MaskClosedRange("abcdefg", 5, 7, '*') == Err(OutOfUpperIndex)
    ensures MaskClosedRange("abcdefg", 5, 6, '*') == Ok("abcde**")
    ensures MaskFrom("abcdefg", 6, '*') == Ok("abcdef*")
    ensures MaskFrom("abcdefg", 7, '*') == Err(OutOfUpperIndex)
    ensures MaskThrough("abcdefg", 2, '*') == Ok("***defg")
    ensures MaskThrough("abcdefg", 7, '*') == Err(OutOfUpperIndex)
    ensures MaskUpTo("abcdefg", 6, '*') == Ok("******g")
    ensures MaskUpTo("abcdefg", 8, '*') == Err(OutOfUpperIndex)
    ensures MaskFrom("abcdefg", 5, '*') == Ok("abcde**")
    ensures MaskThrough("abcdefg", 6, '*') == Ok("*******")
    ensures MaskUpTo("abcdefg", 2, '*') == Ok("**cdefg")
    ensures MaskUpTo("abcdefg", 7, '*') == Ok("*******")
  {
    var s := "abcdefg";
    assert Overwrite(s, 5, 7, '*') == "abcde**";
    assert Overwrite(s, 6, 7, '*') == "abcdef*";
    assert Overwrite(s, 0, 3, '*') == "***defg";
    assert Overwrite(s, 0, 6, '*') == "******g";
    assert Overwrite(s, 0, 7, '*') == "*******";
    assert Overwrite(s, 0, 2, '*') == "**cdefg";
  }

  // ---------------------------------------------------------------------------
  // hasOnlyDigits(), validateCreditCard()
  // ---------------------------------------------------------------------------

  /** `hasOnlyDigits()`: non-empty and no character that is not a digit. */
  function HasOnlyDigits(s: string): (r: bool)
    ensures r <==> s != [] && forall i :: 0 <= i < |s| ==> IsDigit(s[i])
  {
    if s == [] then false else !ContainsWhere(s, c => !IsDigit(c))
  }

  /** The digits-only examples of the library's tests. */
  lemma HasOnlyDigitsExamples(digits: string, mixed: string)
    requires digits == "123456" && mixed == "123a56"
    ensures HasOnlyDigits(digits) && !HasOnlyDigits(mixed)
    ensures !HasOnlyDigits(" ") && !HasOnlyDigits("")
  {
    assert !IsDigit(mixed[3]);
    assert !IsDigit(" "[0]);
  }

  /** The text `validateCreditCard` hands to the Luhn check: trimmed at both
      ends, then every space and tab removed. */
  function CardNumberOf(s: string): (r: string)
    ensures forall i :: 0 <= i < |r| ==> !IsWhitespace(r[i])
    ensures r != [] ==> !IsWhitespaceOrNewline(r[0]) && !IsWhitespaceOrNewline(r[|r| - 1])
    ensures exists a, b :: AllBlank(a) && AllBlank(b) && RemoveWhitespace(s) == a + r + b
  {
    var t := Trim(s);
    var r := RemoveWhitespace(t);
    EndsSurviveWhitespaceRemoval(t);
    CardNumberKept(s);
    r
  }

  /** Removing the whitespace of the whole text leaves the prepared number
      with only blanks around it. */
  lemma CardNumberKept(s: string)
    ensures var r := RemoveWhitespace(Trim(s));
      exists a, b :: AllBlank(a) && AllBlank(b) && RemoveWhitespace(s) == a + r + b
  {
    var k, t := TrimStart(s), Trim(s);
    TrimParts(s);
    var p, q := s[..k], s[k + |t|..];
    RemoveWhitespaceAppend(p + t, q);
    RemoveWhitespaceAppend(p, t);
    RemoveWhitespaceBlank(p);
    RemoveWhitespaceBlank(q);
    assert RemoveWhitespace(s) == RemoveWhitespace(p) + RemoveWhitespace(t) + RemoveWhitespace(q);
  }

  /** Removing inner whitespace from a trimmed text keeps its ends unblank. */
  lemma {:induction false} EndsSurviveWhitespaceRemoval(t: string)
    requires t != [] ==> !IsWhitespaceOrNewline(t[0]) && !IsWhitespaceOrNewline(t[|t| - 1])
    ensures var r := RemoveWhitespace(t);
      r != [] ==> !IsWhitespaceOrNewline(r[0]) && !IsWhitespaceOrNewline(r[|r| - 1])
  {
    var r := RemoveWhitespace(t);
    if t != [] {
      assert r[0] == t[0];
      LastSurvives(t);
    }
  }

  /** A last character that is not whitespace stays last. */
  lemma {:induction false} LastSurvives(t: string)
    requires t != [] && !IsWhitespace(t[|t| - 1])
    ensures RemoveWhitespace(t) != [] && RemoveWhitespace(t)[|RemoveWhitespace(t)| - 1] == t[|t| - 1]
  {
    if |t| > 1 {
      LastSurvives(t[1..]);
    }
  }

  /** `validateCreditCard()`: `true`, or the `invalidCard` error when the
      prepared number fails the Luhn check. */
  method ValidateCreditCard(s: string) returns (r: Result<bool>)
    ensures r.Ok? ==> r.value
    ensures r.Ok? <==> LuhnValid(CardNumberOf(s))
    ensures r.Err? ==> r.error == InvalidCard
  {
    var preparedString := RemoveWhitespace(Trim(s));
    var valid := LuhnAlgorithm(preparedString);
    if !valid {
      return Err(InvalidCard);
    }
    return Ok(true);
  }

  /** The groups glued together without separators. */
  function Concat(groups: seq<string>): string
  {
    if groups == [] then [] else Concat(groups[..|groups| - 1]) + groups[|groups| - 1]
  }

  predicate DigitGroups(groups: seq<string>) {
    forall k :: 0 <= k < |groups| ==> HasOnlyDigits(groups[k])
  }

  /** A card number written as digit groups separated by single spaces, as
      `separate(every: 4, with: " ")` lays it out, is prepared back into the
      bare digits. */
  lemma GroupedCardNumber(groups: seq<string>)
    requires DigitGroups(groups)
    ensures CardNumberOf(Join(groups, ' ')) == Concat(groups)
  {
    var t := Join(groups, ' ');
    if groups != [] {
      JoinEnds(groups);
    }
    TrimUnblank(t);
    RemoveWhitespaceJoin(groups);
  }

  /** The joined text starts with the first group and ends with the last. */
  lemma {:induction false} JoinEnds(groups: seq<string>)
    requires groups != [] && DigitGroups(groups)
    ensures var t := Join(groups, ' ');
      t != [] && t[0] == groups[0][0] && t[|t| - 1] == groups[|groups| - 1][|groups[|groups| - 1]| - 1]
  {
    if |groups| > 1 {
      var init := groups[..|groups| - 1];
      JoinEnds(init);
    }
  }

  /** Dropping the spaces of the joined text leaves the groups glued. */
  lemma {:induction false} RemoveWhitespaceJoin(groups: seq<string>)
    requires DigitGroups(groups)
    ensures RemoveWhitespace(Join(groups, ' ')) == Concat(groups)
  {
    if |groups| == 1 {
      assert groups[..0] == [];
      assert forall i :: 0 <= i < |groups[0]| ==> !IsWhitespace(groups[0][i]);
    } else if |groups| > 1 {
      var init := groups[..|groups| - 1];
      var last := groups[|groups| - 1];
      RemoveWhitespaceJoin(init);
      RemoveWhitespaceAppend(Join(init, ' ') + [' '], last);
      RemoveWhitespaceAppend(Join(init, ' '), [' ']);
      assert [' '][1..] == [];
      assert forall i :: 0 <= i < |last| ==> !IsWhitespace(last[i]);
    }
  }

  /** The spaced card number of the library's tests, written as its four
      groups, is prepared into the digits "5578854960210681", which pass the
      Luhn check by `Luhn.CardNumberExample`. */
  lemma SpacedCardExample(t: string)
    requires t == "5578 8549 6021 0681"
    ensures CardNumberOf(t) == "5578854960210681"
  {
    var g := ["5578", "8549", "6021", "0681"];
    CardGroups(g);
    GroupedCardNumber(g);
  }

  /** The four groups of the spaced example, joined and glued. */
  lemma CardGroups(g: seq<string>)
    requires g == ["5578", "8549", "6021", "0681"]
    ensures DigitGroups(g)
    ensures Join(g, ' ') == "5578 8549 6021 0681"
    ensures Concat(g) == "5578854960210681"
  {
    assert g[..3][..2][..1] == g[..1] == ["5578"];
    assert g[..3][..2] == g[..2] == ["5578", "8549"];
    assert g[..3] == ["5578", "8549", "6021"];
    CardGroupsJoined(g);
    CardGroupsGlued(g);
  }

  lemma CardGroupsJoined(g: seq<string>)
    requires g == ["5578", "8549", "6021", "0681"]
    requires g[..3] == ["5578", "8549", "6021"] && g[..3][..2] == ["5578", "8549"] && g[..3][..2][..1] == ["5578"]
    ensures Join(g, ' ') == "5578 8549 6021 0681"
  {
    assert Join(g[..3][..2], ' ') == "5578 8549";
    assert Join(g[..3], ' ') == "5578 8549 6021";
  }

  lemma CardGroupsGlued(g: seq<string>)
    requires g == ["5578", "8549", "6021", "0681"]
    requires g[..3] == ["5578", "8549", "6021"] && g[..3][..2] == ["5578", "8549"] && g[..3][..2][..1] == ["5578"]
    ensures Concat(g) == "5578854960210681"
  {
    assert Concat(g[..3][..2][..1]) == "5578";
    assert Concat(g[..3][..2]) == "5578" + "8549";
    assert Concat(g[..3]) == "55788549" + "6021";
  }
}
