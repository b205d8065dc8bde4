/** Character classes and the Foundation string operations that the library
    builds on, over ASCII text: one `char` stands for one character, so a
    Swift `count`, an `NSString` length and an index offset all agree. */
module Chars {

  /** `CharacterSet.decimalDigits`, `Character.isNumber` and what `Int(_:)`
      accepts for a one-character string, restricted to ASCII. */
  predicate IsDigit(c: char) {
    '0' <= c <= '9'
  }

  /** `CharacterSet.whitespaces` in ASCII: space and horizontal tab. */
  predicate IsWhitespace(c: char) {
    c == ' ' || c == '\t'
  }

  /** `CharacterSet.whitespacesAndNewlines` in ASCII: the whitespace above
      and line feed, vertical tab, form feed, carriage return. */
  predicate IsWhitespaceOrNewline(c: char) {
    IsWhitespace(c) || '\n' <= c <= '\r'
  }

  /** `contains(where:)`: some character satisfies `p`. */
  function ContainsWhere(s: string, p: char -> bool): (r: bool)
    ensures r <==> exists i :: 0 <= i < |s| && p(s[i])
  {
    if s == [] then false
    else if p(s[0]) then true
    else
      var rest := ContainsWhere(s[1..], p);
      assert forall i :: 1 <= i < |s| ==> s[i] == s[1..][i - 1];
      rest
  }

  /** `replacingOccurrences(of: String(c), with: "")`. */
  function RemoveChar(s: string, c: char): (r: string)
    ensures |r| <= |s|
    ensures c !in r
    ensures c !in s ==> r == s
  {
    if s == [] then []
    else (if s[0] == c then [] else [s[0]]) + RemoveChar(s[1..], c)
  }

  /** Removing `c` keeps every other character as often as it occurs. */
  lemma {:induction false} RemoveCharCount(s: string, c: char)
    ensures multiset(RemoveChar(s, c)) == multiset(s)[c := 0]
  {
    if s != [] {
      assert s == [s[0]] + s[1..];
      RemoveCharCount(s[1..], c);
    }
  }

  /** Removing a character commutes with concatenation. */
  lemma {:induction false} RemoveCharAppend(a: string, b: string, c: char)
    ensures RemoveChar(a + b, c) == RemoveChar(a, c) + RemoveChar(b, c)
  {
    if a == [] {
      assert a + b == b;
    } else {
      var head := if a[0] == c then [] else [a[0]];
      assert (a + b)[0] == a[0] && (a + b)[1..] == a[1..] + b;
      RemoveCharAppend(a[1..], b, c);
      calc {
        RemoveChar(a + b, c);
        head + RemoveChar(a[1..] + b, c);
        head + (RemoveChar(a[1..], c) + RemoveChar(b, c));
        (head + RemoveChar(a[1..], c)) + RemoveChar(b, c);
      }
    }
  }

  /** `components(separatedBy: .whitespaces).joined(separator: "")`:
      every space and tab is dropped, everything else kept in order. */
  function RemoveWhitespace(s: string): (r: string)
    ensures |r| <= |s|
    ensures forall i :: 0 <= i < |r| ==> !IsWhitespace(r[i])
    ensures (forall i :: 0 <= i < |s| ==> !IsWhitespace(s[i])) ==> r == s
  {
    if s == [] then []
    else (if IsWhitespace(s[0]) then [] else [s[0]]) + RemoveWhitespace(s[1..])
  }

  /** Removing whitespace commutes with concatenation. */
  lemma {:induction false} RemoveWhitespaceAppend(a: string, b: string)
    ensures RemoveWhitespace(a + b) == RemoveWhitespace(a) + RemoveWhitespace(b)
  {
    if a == [] {
      assert a + b == b;
    } else {
      assert (a + b)[0] == a[0] && (a + b)[1..] == a[1..] + b;
      RemoveWhitespaceAppend(a[1..], b);
    }
  }

  /** Removing whitespace drops every space and tab and keeps every other
      character as often as it occurred. */
  lemma {:induction false} RemoveWhitespaceCount(s: string)
    ensures multiset(RemoveWhitespace(s)) == multiset(s)[' ' := 0]['\t' := 0]
  {
    if s != [] {
      assert s == [s[0]] + s[1..];
      RemoveWhitespaceCount(s[1..]);
    }
  }

  /** What is left of a blank text after removing whitespace is blank. */
  lemma {:induction false} RemoveWhitespaceBlank(s: string)
    requires AllBlank(s)
    ensures AllBlank(RemoveWhitespace(s))
  {
    if s != [] {
      AllBlankDrop(s);
      RemoveWhitespaceBlank(s[1..]);
      var head := if IsWhitespace(s[0]) then [] else [s[0]];
      AllBlankConcat(head, RemoveWhitespace(s[1..]));
    }
  }

  /** `replacingOccurrences(of: pat, with: "")`: a left-to-right scan that
      drops each non-overlapping occurrence of `pat`. */
  function RemoveOccurrences(s: string, pat: string): (r: string)
    ensures |r| <= |s|
    ensures pat == [] ==> r == s
    ensures |pat| == 1 ==> r == RemoveChar(s, pat[0])
    decreases |s|
  {
    if pat == [] || |s| < |pat| then
      assert |pat| == 1 ==> s == [];
      s
    else if s[..|pat|] == pat then
      RemoveOccurrences(s[|pat|..], pat)
    else
      [s[0]] + RemoveOccurrences(s[1..], pat)
  }

  /** Every character is whitespace or a newline. */
  predicate AllBlank(s: string) {
    forall i :: 0 <= i < |s| ==> IsWhitespaceOrNewline(s[i])
  }

  /** Blank texts concatenate to a blank text. */
  lemma AllBlankConcat(a: string, b: string)
    requires AllBlank(a) && AllBlank(b)
    ensures AllBlank(a + b)
  {
    assert forall i :: |a| <= i < |a + b| ==> (a + b)[i] == b[i - |a|];
  }

  /** Whitespace and newlines dropped from the front. */
  function TrimLeading(s: string): (r: string)
    ensures |r| <= |s| && r == s[|s| - |r|..]
    ensures AllBlank(s[..|s| - |r|])
    ensures r != [] ==> !IsWhitespaceOrNewline(r[0])
  {
    if s != [] && IsWhitespaceOrNewline(s[0]) then
      var r := TrimLeading(s[1..]);
      assert s[..|s| - |r|] == [s[0]] + s[1..][..|s| - 1 - |r|];
      AllBlankConcat([s[0]], s[1..][..|s| - 1 - |r|]);
      r
    else
      assert s[..0] == [];
      s
  }

  /** Whitespace and newlines dropped from the back. */
  function TrimTrailing(s: string): (r: string)
    ensures |r| <= |s| && r == s[..|r|]
    ensures AllBlank(s[|r|..])
    ensures r != [] ==> !IsWhitespaceOrNewline(r[|r| - 1])
  {
    if s != [] && IsWhitespaceOrNewline(s[|s| - 1]) then
      var front := s[..|s| - 1];
      var r := TrimTrailing(front);
      assert s[|r|..] == front[|r|..] + [s[|s| - 1]];
      AllBlankConcat(front[|r|..], [s[|s| - 1]]);
      r
    else
      assert s[|s|..] == [];
      s
  }

  /** Where `trim()` starts keeping characters: the count of leading blanks. */
  function TrimStart(s: string): nat
  {
    |s| - |TrimLeading(s)|
  }

  /** `trim()`, i.e. `trimmingCharacters(in: .whitespacesAndNewlines)`: the
      infix of `s` from `TrimStart(s)` that neither starts nor ends with
      whitespace or a newline; all that is cut away on either side is blank. */
  function Trim(s: string): (r: string)
    ensures r != [] ==> !IsWhitespaceOrNewline(r[0]) && !IsWhitespaceOrNewline(r[|r| - 1])
    ensures TrimStart(s) + |r| <= |s|
    ensures r == s[TrimStart(s)..TrimStart(s) + |r|]
    ensures AllBlank(s[..TrimStart(s)]) && AllBlank(s[TrimStart(s) + |r|..])
  {
    var lead := TrimLeading(s);
    var r := TrimTrailing(lead);
    var a := |s| - |lead|;
    assert a == TrimStart(s) && lead == s[a..];
    SuffixSlices(s, a, |r|);
    assert r == s[a..a + |r|] && lead[|r|..] == s[a + |r|..];
    r
  }

  /** Slices of the suffix of `s` from `a` are slices of `s`. */
  lemma SuffixSlices(s: string, a: nat, k: nat)
    requires a + k <= |s|
    ensures s[a..][..k] == s[a..a + k] && s[a..][k..] == s[a + k..]
  {
  }

  /** A text is what `trim()` keeps with blanks on either side. */
  lemma TrimParts(s: string)
    ensures var a := TrimStart(s); var r := Trim(s);
      s == s[..a] + r + s[a + |r|..] && AllBlank(s[..a]) && AllBlank(s[a + |r|..])
  {
    var a := TrimStart(s);
    var r := Trim(s);
    SplitThree(s, a, a + |r|);
  }

  lemma SplitThree(s: string, i: nat, j: nat)
    requires i <= j <= |s|
    ensures s == s[..i] + s[i..j] + s[j..]
  {
  }

  /** Trimming leaves alone a string whose ends are not blank. */
  lemma TrimUnblank(s: string)
    requires s == [] || (!IsWhitespaceOrNewline(s[0]) && !IsWhitespaceOrNewline(s[|s| - 1]))
    ensures Trim(s) == s
  {
    if s != [] {
      assert TrimLeading(s) == s;
    }
  }

  /** Trimming keeps only characters of the input. */
  lemma TrimKeepsAbsent(s: string, c: char)
    requires c !in s
    ensures c !in Trim(s)
  {
    var r := Trim(s);
    var a := TrimStart(s);
    assert forall i :: 0 <= i < |r| ==> r[i] == s[a + i];
  }

  /** Trimming is determined by its properties: a text made of blanks, a
      middle whose ends are not blank, and blanks trims to that middle. */
  lemma TrimUnique(s: string, p: string, m: string, q: string)
    requires s == p + m + q
    requires AllBlank(p) && AllBlank(q)
    requires m != [] ==> !IsWhitespaceOrNewline(m[0]) && !IsWhitespaceOrNewline(m[|m| - 1])
    ensures Trim(s) == m
  {
    if m == [] {
      AllBlankConcat(p, q);
      assert s == p + q;
    } else {
      assert s == p + (m + q);
      LeadingBlanksDropped(p, m + q);
      TrailingBlanksDropped(m, q);
    }
  }

  /** Blanks in front of a text that does not start with one are dropped,
      and nothing else is. */
  lemma {:induction false} LeadingBlanksDropped(p: string, rest: string)
    requires AllBlank(p) && rest != [] && !IsWhitespaceOrNewline(rest[0])
    ensures TrimLeading(p + rest) == rest
    decreases |p|
  {
    if p == [] {
      assert p + rest == rest;
    } else {
      assert (p + rest)[0] == p[0] && (p + rest)[1..] == p[1..] + rest;
      AllBlankDrop(p);
      LeadingBlanksDropped(p[1..], rest);
    }
  }

  /** Blanks behind a text that does not end with one are dropped, and
      nothing else is. */
  lemma {:induction false} TrailingBlanksDropped(m: string, q: string)
    requires AllBlank(q) && m != [] && !IsWhitespaceOrNewline(m[|m| - 1])
    ensures TrimTrailing(m + q) == m
    decreases |q|
  {
    if q == [] {
      assert m + q == m;
    } else {
      var n := |m + q|;
      assert (m + q)[n - 1] == q[|q| - 1];
      assert (m + q)[..n - 1] == m + q[..|q| - 1];
      AllBlankTake(q, |q| - 1);
      TrailingBlanksDropped(m, q[..|q| - 1]);
    }
  }

  /** A blank text stays blank without its first character. */
  lemma AllBlankDrop(s: string)
    requires AllBlank(s) && s != []
    ensures AllBlank(s[1..])
  {
    assert forall k :: 0 <= k < |s| - 1 ==> s[1..][k] == s[k + 1];
  }

  /** Every prefix of a blank text is blank. */
  lemma AllBlankTake(s: string, n: nat)
    requires AllBlank(s) && n <= |s|
    ensures AllBlank(s[..n])
  {
    assert forall k :: 0 <= k < n ==> s[..n][k] == s[k];
  }

  /** `components(separatedBy: String(c))`: the pieces between occurrences
      of `c`, one more than there are occurrences. */
  function Components(s: string, c: char): (parts: seq<string>)
    ensures |parts| == multiset(s)[c] + 1
    ensures forall k :: 0 <= k < |parts| ==> c !in parts[k]
    decreases |s|
  {
    if s == [] then [[]]
    else
      var init := Components(s[..|s| - 1], c);
      assert s == s[..|s| - 1] + [s[|s| - 1]];
      if s[|s| - 1] == c then init + [[]]
      else init[..|init| - 1] + [init[|init| - 1] + [s[|s| - 1]]]
  }

  /** `joined(separator: String(c))`. */
  function Join(parts: seq<string>, c: char): string
  {
    if parts == [] then []
    else if |parts| == 1 then parts[0]
    else Join(parts[..|parts| - 1], c) + [c] + parts[|parts| - 1]
  }

  /** Joining parts that do not contain the separator puts exactly one
      separator between each two neighbouring parts. */
  lemma {:induction false} JoinSeparatorCount(parts: seq<string>, c: char)
    requires forall k :: 0 <= k < |parts| ==> c !in parts[k]
    ensures multiset(Join(parts, c))[c] == if parts == [] then 0 else |parts| - 1
  {
    if |parts| == 1 {
      assert c !in parts[0];
    } else if |parts| > 1 {
      var init := parts[..|parts| - 1];
      var last := parts[|parts| - 1];
      JoinSeparatorCount(init, c);
      assert c !in last;
      assert multiset(Join(init, c) + [c] + last) == multiset(Join(init, c)) + multiset{c} + multiset(last);
    }
  }

  /** Splitting at a character and joining with it gives the text back. */
  lemma {:induction false} JoinComponents(s: string, c: char)
    ensures Join(Components(s, c), c) == s
    decreases |s|
  {
    if s != [] {
      var front := s[..|s| - 1];
      var init := Components(front, c);
      JoinComponents(front, c);
      assert s == front + [s[|s| - 1]];
      if s[|s| - 1] != c {
        JoinLastExtended(init, c, s[|s| - 1]);
      } else {
        assert Components(s, c) == init + [[]];
        JoinEmptyLast(init, c);
      }
    }
  }

  /** A trailing empty part adds one separator to the joined text. */
  lemma JoinEmptyLast(parts: seq<string>, c: char)
    requires parts != []
    ensures Join(parts + [[]], c) == Join(parts, c) + [c]
  {
    var ps := parts + [[]];
    assert ps[..|ps| - 1] == parts;
  }

  /** Appending to the last part appends to the joined text. */
  lemma JoinLastExtended(parts: seq<string>, c: char, x: char)
    requires parts != []
    ensures Join(parts[..|parts| - 1] + [parts[|parts| - 1] + [x]], c) == Join(parts, c) + [x]
  {
    var ps := parts[..|parts| - 1] + [parts[|parts| - 1] + [x]];
    assert ps[..|ps| - 1] == parts[..|parts| - 1];
  }

  /** The last component is everything after the last occurrence of `c`. */
  lemma {:induction false} LastComponent(s: string, c: char, i: nat)
    requires i < |s| && s[i] == c
    requires forall j :: i < j < |s| ==> s[j] != c
    ensures Components(s, c)[multiset(s)[c]] == s[i + 1..]
    decreases |s|
  {
    var front := s[..|s| - 1];
    assert s == front + [s[|s| - 1]];
    if i < |s| - 1 {
      LastComponent(front, c, i);
      assert front[i + 1..] + [s[|s| - 1]] == s[i + 1..];
    }
  }

  /** `uppercased()` on one ASCII character: a lower-case letter becomes the
      capital at the same place in the alphabet, anything else is kept. */
  function Upper(c: char): (u: char)
    ensures !('a' <= u <= 'z')
    ensures 'a' <= c <= 'z' ==> 'A' <= u <= 'Z' && u as int - 'A' as int == c as int - 'a' as int
    ensures !('a' <= c <= 'z') ==> u == c
  {
    if 'a' <= c <= 'z' then (c as int - 32) as char else c
  }

  /** `uppercased()`: each character mapped to its capital. */
  function UpperCased(s: string): (r: string)
    ensures |r| == |s|
    ensures forall i :: 0 <= i < |s| ==> r[i] == Upper(s[i])
    ensures forall i :: 0 <= i < |r| ==> !('a' <= r[i] <= 'z')
  {
    if s == [] then [] else [Upper(s[0])] + UpperCased(s[1..])
  }
}
