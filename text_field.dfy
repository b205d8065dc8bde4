/** `StringifyTextField`, the format-as-you-type text field. Each keystroke
    arrives as a range of the current text and a replacement; the handler
    either lets the caller apply the edit (it returns `true`) or rewrites
    `text` itself and returns `false`, and for card, IBAN and expiry input it
    also asks for a caret position. The `NumberFormatter` paths of the amount
    format are functions the field is given. */
module TextField {
  import opened Chars
  import opened StringExt
  import opened Optionals

  /** `StringifyTextField.TextType`; `NoFormat` is the case `none`. */
  datatype TextType = Amount | CreditCard | Iban | ExpDate | NoFormat

  /** What a keystroke handler decides: whether the caller applies the edit,
      the field's text afterwards, and the caret offset it requests (`None`
      when it requests none). */
  datatype Edit = Edit(accept: bool, text: string, cursor: Option<nat>)

  /** Longest candidate text that card and IBAN input regroup. */
  const CardMaxLength: nat := 19
  const IbanMaxLength: nat := 42
  /** Longest pasted text (spaces removed) that is installed. */
  const CardPasteLength: nat := 16
  const IbanPasteLength: nat := 34
  /** Longest candidate text that expiry input regroups. */
  const ExpDateMaxLength: nat := 5

  /** `(text as NSString).replacingCharacters(in: range, with: rep)` for the
      range starting at `loc` of length `len`. */
  function Splice(t: string, loc: nat, len: nat, rep: string): (r: string)
    requires loc + len <= |t|
    ensures |r| == |t| - len + |rep|
    ensures r[..loc] == t[..loc] && r[loc..loc + |rep|] == rep && r[loc + |rep|..] == t[loc + len..]
  {
    t[..loc] + rep + t[loc + len..]
  }

  /** `position(from: beginningOfDocument, offset: loc + |rep|)`, taken in
      the text as it is before the handler rewrites it: no position past its
      end. */
  function CursorAfter(t: string, loc: nat, rep: string): (r: Option<nat>)
    ensures r.Some? <==> loc + |rep| <= |t|
    ensures r.Some? ==> r.value == loc + |rep|
  {
    if loc + |rep| <= |t| then Some(loc + |rep|) else None
  }

  /** `replacingOccurrences(of: String(c), with: "").trim()`: what is kept
      is the text without `c`, less the blanks at either end. */
  function StripTrim(t: string, c: char): (r: string)
    ensures c !in r
    ensures r != [] ==> !IsWhitespaceOrNewline(r[0]) && !IsWhitespaceOrNewline(r[|r| - 1])
    ensures exists a, b :: AllBlank(a) && AllBlank(b) && RemoveChar(t, c) == a + r + b
  {
    var u := RemoveChar(t, c);
    TrimKeepsAbsent(u, c);
    TrimAround(u);
    Trim(u)
  }

  /** A text is its trimmed middle with blanks on either side. */
  lemma TrimAround(s: string)
    ensures exists a, b :: AllBlank(a) && AllBlank(b) && s == a + Trim(s) + b
  {
    var k := TrimStart(s);
    TrimParts(s);
    assert s == s[..k] + Trim(s) + s[k + |Trim(s)|..];
  }

  /** `rangeOfCharacter(from: .decimalDigits) != nil`. */
  function ContainsDigit(s: string): (r: bool)
    ensures r <==> exists i :: 0 <= i < |s| && IsDigit(s[i])
  {
    ContainsWhere(s, IsDigit)
  }

  /** Two occurrences of `c` at different places count twice. */
  lemma TwoOccurrences(s: string, c: char, i: nat, j: nat)
    requires i < j < |s| && s[i] == c && s[j] == c
    ensures multiset(s)[c] >= 2
  {
    assert s == s[..j] + s[j..];
    assert s[..j][i] == c;
    assert s[j..][0] == c;
    assert multiset(s[..j])[c] >= 1;
    assert multiset(s[j..])[c] >= 1;
  }

  /** The characters after the only occurrence of `c` form the last of the
      components, and no other character is `c`. */
  lemma OnlyOccurrence(s: string, c: char, i: nat)
    requires i < |s| && s[i] == c && multiset(s)[c] == 1
    ensures Components(s, c)[1] == s[i + 1..]
  {
    forall j | i < j < |s| ensures s[j] != c {
      if s[j] == c {
        TwoOccurrences(s, c, i, j);
      }
    }
    LastComponent(s, c, i);
  }

  /** What `shouldChangeText(in:with:and:with:)` decides for card and IBAN
      input. A deletion is left to the caller. Any other edit is refused and
      asks for the caret after the replacement; when the edited text is at
      most `maxLength` long, the text becomes it regrouped in fours with
      spaces, with the same characters apart from spaces, and otherwise it
      stays as it was. */
  function GroupEdit(t: string, loc: nat, len: nat, rep: string, maxLength: nat): (r: Edit)
    requires rep != [] ==> loc + len <= |t|
    ensures rep == [] ==> r.accept && r.text == t && r.cursor == None
    ensures rep != [] ==> !r.accept && r.cursor == CursorAfter(t, loc, rep)
    ensures rep != [] && |Splice(t, loc, len, rep)| <= maxLength ==>
      IsGrouped(r.text, 4, ' ') && RemoveChar(r.text, ' ') == RemoveChar(Splice(t, loc, len, rep), ' ')
    ensures rep != [] && |Splice(t, loc, len, rep)| > maxLength ==> r.text == t
  {
    if rep == [] then Edit(true, t, None)
    else
      var possibleText := Splice(t, loc, len, rep);
      var cursor := CursorAfter(t, loc, rep);
      if |possibleText| <= maxLength then
        var digits := RemoveChar(possibleText, ' ');
        RegroupIdempotent(digits, 4, ' ');
        SeparateStrip(digits, 4, ' ');
        Edit(false, Separate(digits, 4, ' '), cursor)
      else Edit(false, t, cursor)
  }

  /** What `shouldChangeExpDate(in:with:and:)` decides. A deletion is left
      to the caller. Any other edit is refused and asks for the caret after
      the replacement; an edited text of two characters gets a slash
      appended, one of other length up to five is regrouped in twos with
      slashes, and a longer one leaves the text as it was. */
  function ExpDateEdit(t: string, loc: nat, len: nat, rep: string): (r: Edit)
    requires rep != [] ==> loc + len <= |t|
    ensures rep == [] ==> r.accept && r.text == t && r.cursor == None
    ensures rep != [] ==> !r.accept && r.cursor == CursorAfter(t, loc, rep)
    ensures rep != [] && |Splice(t, loc, len, rep)| == 2 ==> r.text == Splice(t, loc, len, rep) + "/"
    ensures rep != [] && |Splice(t, loc, len, rep)| != 2 && |Splice(t, loc, len, rep)| <= ExpDateMaxLength ==>
      IsGrouped(r.text, 2, '/') && RemoveChar(r.text, '/') == RemoveChar(Splice(t, loc, len, rep), '/')
    ensures rep != [] && |Splice(t, loc, len, rep)| > ExpDateMaxLength ==> r.text == t
  {
    if rep == [] then Edit(true, t, None)
    else
      var possibleText := Splice(t, loc, len, rep);
      var cursor := CursorAfter(t, loc, rep);
      if |possibleText| == 2 then Edit(false, possibleText + "/", cursor)
      else if |possibleText| <= ExpDateMaxLength then
        var digits := RemoveChar(possibleText, '/');
        RegroupIdempotent(digits, 2, '/');
        SeparateStrip(digits, 2, '/');
        Edit(false, Separate(digits, 2, '/'), cursor)
      else Edit(false, t, cursor)
  }

  class StringifyTextField {
    /** The field's text (`text!`). */
    var text: string
    /** The caret offset the handlers last asked for (`selectedTextRange`),
        `None` before any. */
    var selection: Option<nat>

    const textType: TextType
    /** Currency mark of the amount format. */
    const currencyMark: string
    /** Whether amounts have a fraction part. */
    const decimal: bool
    /** Separator between the integer and the fraction part of an amount. */
    const decimalSeparator: char
    /** Most digits the integer part of an amount may have. */
    const maxIntegerDigits: nat
    /** `applyFormat(.custom(formatter: numberFormatter))`. */
    const numberFormat: string -> string
    /** `st.clean(fractionDigits: 0)`. */
    const cleanInteger: string -> string
    /** `st.clean()`. */
    const cleanAmount: string -> string

    /** `init(type:)` with the given settings; the text starts empty. */
    constructor(textType: TextType, currencyMark: string, decimal: bool, decimalSeparator: char,
                maxIntegerDigits: nat, numberFormat: string -> string,
                cleanInteger: string -> string, cleanAmount: string -> string)
      ensures this.textType == textType && this.currencyMark == currencyMark
      ensures this.decimal == decimal && this.decimalSeparator == decimalSeparator
      ensures this.maxIntegerDigits == maxIntegerDigits
      ensures this.numberFormat == numberFormat && this.cleanInteger == cleanInteger
      ensures this.cleanAmount == cleanAmount
      ensures text == [] && selection == None
    {
      this.textType := textType;
      this.currencyMark := currencyMark;
      this.decimal := decimal;
      this.decimalSeparator := decimalSeparator;
      this.maxIntegerDigits := maxIntegerDigits;
      this.numberFormat := numberFormat;
      this.cleanInteger := cleanInteger;
      this.cleanAmount := cleanAmount;
      text := [];
      selection := None;
    }

    // -------------------------------------------------------------------------
    // Clean values
    // -------------------------------------------------------------------------

    /** `cleanValue()`: the text without its spaces, trimmed. */
    function CleanValue(): (r: string)
      reads this
      ensures ' ' !in r
      ensures r != [] ==> !IsWhitespaceOrNewline(r[0]) && !IsWhitespaceOrNewline(r[|r| - 1])
      ensures exists a, b :: AllBlank(a) && AllBlank(b) && RemoveChar(text, ' ') == a + r + b
    {
      StripTrim(text, ' ')
    }

    /** `expDateCleanValue()`: the text without its slashes, trimmed. */
    function ExpDateCleanValue(): (r: string)
      reads this
      ensures '/' !in r
      ensures r != [] ==> !IsWhitespaceOrNewline(r[0]) && !IsWhitespaceOrNewline(r[|r| - 1])
      ensures exists a, b :: AllBlank(a) && AllBlank(b) && RemoveChar(text, '/') == a + r + b
    {
      StripTrim(text, '/')
    }

    /** `cleanValueForSum()`: the trimmed text without the currency mark,
        then cleaned by the formatter, or, without a fraction part, stripped
        of its spaces. Without a fraction part and with a mark of at most
        one character, what is kept is the text between the blanks that
        trimming cuts away, less the mark and the spaces. */
    function CleanValueForSum(): (r: string)
      reads this
      ensures !decimal ==> ' ' !in r
      ensures decimal && currencyMark == [] ==> r == cleanAmount(Trim(text))
      ensures !decimal && currencyMark == [] ==>
        exists a, m, b :: AllBlank(a) && AllBlank(b) && text == a + m + b
          && (m != [] ==> !IsWhitespaceOrNewline(m[0]) && !IsWhitespaceOrNewline(m[|m| - 1]))
          && r == RemoveChar(m, ' ')
      ensures !decimal && |currencyMark| == 1 ==>
        exists a, m, b :: AllBlank(a) && AllBlank(b) && text == a + m + b
          && (m != [] ==> !IsWhitespaceOrNewline(m[0]) && !IsWhitespaceOrNewline(m[|m| - 1]))
          && r == RemoveChar(RemoveChar(m, currencyMark[0]), ' ')
    {
      var t := Trim(text);
      var withoutCurrency := if currencyMark != [] then RemoveOccurrences(t, currencyMark) else t;
      TrimAround(text);
      if decimal then cleanAmount(withoutCurrency) else RemoveChar(withoutCurrency, ' ')
    }

    /** `associatedValue`: the value behind the formatted text. */
    function AssociatedValue(): (r: string)
      reads this
      ensures textType == CreditCard ==> r == CleanValue()
      ensures textType == Iban ==> r == UpperCased(CleanValue()) && ' ' !in r
      ensures textType == Iban ==> forall i :: 0 <= i < |r| ==> !('a' <= r[i] <= 'z')
      ensures textType == ExpDate ==> r == ExpDateCleanValue() && '/' !in r
      ensures textType == Amount ==> r == CleanValueForSum()
      ensures textType == Amount && !decimal ==> ' ' !in r
      ensures textType == NoFormat ==> r == text
    {
      match textType
      case Amount => CleanValueForSum()
      case CreditCard => CleanValue()
      case Iban =>
        var v := CleanValue();
        UpperKeepsSpaceOut(v);
        UpperCased(v)
      case ExpDate => ExpDateCleanValue()
      case NoFormat => text
    }

    // -------------------------------------------------------------------------
    // Keystroke decisions
    // -------------------------------------------------------------------------

    /** What `shouldChangeSumText(in:with:and:)` decides. It never asks for a
        caret position and looks only at the end of the text.
        - A deletion from a text of at most one character is left to the
          caller; from a longer one the last character is dropped and the
          rest kept as it is when it ends in the decimal separator, and
          formatted otherwise.
        - A replacement with no digit appends the decimal separator unless
          the text already has one.
        - A replacement with a digit, appended, gives a text with exactly one
          separator: the caller applies the edit exactly when at most two
          characters follow that separator. With no separator or several,
          the appended text is formatted when its integer digits fit in
          `maxIntegerDigits`, and nothing changes otherwise. */
    function SumEdit(t: string, rep: string): (r: Edit)
      ensures r.cursor == None
      ensures r.accept ==> r.text == t
      ensures rep == [] ==> (r.accept <==> |t| <= 1)
      ensures rep == [] && |t| > 1 && t[|t| - 2] == decimalSeparator ==> r.text == t[..|t| - 1]
      ensures rep == [] && |t| > 1 && t[|t| - 2] != decimalSeparator ==> r.text == numberFormat(t[..|t| - 1])
      ensures rep != [] && !ContainsDigit(rep) ==>
        !r.accept && decimalSeparator in r.text && multiset(r.text)[decimalSeparator] == (if decimalSeparator in t then multiset(t)[decimalSeparator] else 1)
      ensures rep != [] && !ContainsDigit(rep) && decimalSeparator in t ==> r.text == t
      ensures rep != [] && !ContainsDigit(rep) && decimalSeparator !in t ==> r.text == t + [decimalSeparator]
      ensures ContainsDigit(rep) && multiset(t + rep)[decimalSeparator] == 1 ==>
        r.text == t && forall i :: 0 <= i < |t + rep| && (t + rep)[i] == decimalSeparator ==>
          (r.accept <==> |t + rep| - i - 1 <= 2)
      ensures ContainsDigit(rep) && multiset(t + rep)[decimalSeparator] != 1 ==> !r.accept
      ensures ContainsDigit(rep) && multiset(t + rep)[decimalSeparator] != 1 ==>
        r.text == (if |cleanInteger(t + rep)| <= maxIntegerDigits then numberFormat(t + rep) else t)
    {
      if rep == [] then
        if |t| > 1 then
          var possibleText := t[..|t| - 1];
          if possibleText[|possibleText| - 1] == decimalSeparator then Edit(false, possibleText, None)
          else Edit(false, numberFormat(possibleText), None)
        else Edit(true, t, None)
      else if !ContainsDigit(rep) then
        if decimalSeparator !in t then
          assert multiset(t + [decimalSeparator]) == multiset(t) + multiset{decimalSeparator};
          Edit(false, t + [decimalSeparator], None)
        else Edit(false, t, None)
      else
        var possibleText := t + rep;
        var amountParts := Components(possibleText, decimalSeparator);
        if |amountParts| == 2 then
          FractionIsLastPart(possibleText, decimalSeparator);
          if |amountParts[1]| > 2 then Edit(false, t, None) else Edit(true, t, None)
        else if |cleanInteger(possibleText)| <= maxIntegerDigits then
          Edit(false, numberFormat(possibleText), None)
        else Edit(false, t, None)
    }

    /** What `textField(_:shouldChangeCharactersIn:replacementString:)`
        decides, by text type: 19 characters for card numbers, 42 for IBANs,
        and anything goes without a format. */
    function ChangeCharacters(t: string, loc: nat, len: nat, rep: string): (r: Edit)
      requires UsesRange(rep) ==> loc + len <= |t|
      ensures textType == NoFormat ==> r == Edit(true, t, None)
      ensures textType == Amount ==> r == SumEdit(t, rep)
      ensures textType == CreditCard ==> r == GroupEdit(t, loc, len, rep, CardMaxLength)
      ensures textType == Iban ==> r == GroupEdit(t, loc, len, rep, IbanMaxLength)
      ensures textType == ExpDate ==> r == ExpDateEdit(t, loc, len, rep)
    {
      match textType
      case Amount => SumEdit(t, rep)
      case CreditCard => GroupEdit(t, loc, len, rep, CardMaxLength)
      case Iban => GroupEdit(t, loc, len, rep, IbanMaxLength)
      case ExpDate => ExpDateEdit(t, loc, len, rep)
      case NoFormat => Edit(true, t, None)
    }

    /** Whether the handler for this field splices `rep` into the text at the
        given range, which must then lie inside the text. */
    predicate UsesRange(rep: string) {
      rep != [] && (textType == CreditCard || textType == Iban || textType == ExpDate)
    }

    // -------------------------------------------------------------------------
    // Handlers
    // -------------------------------------------------------------------------

    /** `shouldChangeText(in:with:and:with:)`. */
    method ShouldChangeText(loc: nat, len: nat, rep: string, maxLength: nat) returns (accept: bool)
      requires rep != [] ==> loc + len <= |text|
      modifies this`text, this`selection
      ensures var e := GroupEdit(old(text), loc, len, rep, maxLength);
        accept == e.accept && text == e.text && selection == (if e.cursor.Some? then e.cursor else old(selection))
      ensures rep != [] && |Splice(old(text), loc, len, rep)| <= maxLength ==>
        CleanValue() == Trim(RemoveChar(Splice(old(text), loc, len, rep), ' '))
    {
      if rep == [] {
        return true;
      }
      var cursorLocation := CursorAfter(text, loc, rep);
      var possibleText := Splice(text, loc, len, rep);
      if |possibleText| <= maxLength {
        text := Separate(RemoveChar(possibleText, ' '), 4, ' ');
        SeparateStrip(RemoveChar(possibleText, ' '), 4, ' ');
      }
      if cursorLocation.Some? {
        selection := cursorLocation;
      }
      return false;
    }

    /** `shouldChangeExpDate(in:with:and:)`. */
    method ShouldChangeExpDate(loc: nat, len: nat, rep: string) returns (accept: bool)
      requires rep != [] ==> loc + len <= |text|
      modifies this`text, this`selection
      ensures var e := ExpDateEdit(old(text), loc, len, rep);
        accept == e.accept && text == e.text && selection == (if e.cursor.Some? then e.cursor else old(selection))
    {
      if rep == [] {
        return true;
      }
      var cursorLocation := CursorAfter(text, loc, rep);
      var possibleText := Splice(text, loc, len, rep);
      if |possibleText| == 2 {
        text := possibleText + "/";
      } else if |possibleText| <= ExpDateMaxLength {
        text := Separate(RemoveChar(possibleText, '/'), 2, '/');
      }
      if cursorLocation.Some? {
        selection := cursorLocation;
      }
      return false;
    }

    /** `shouldChangeSumText(in:with:and:)`. */
    method ShouldChangeSumText(rep: string) returns (accept: bool)
      modifies this`text
      ensures var e := SumEdit(old(text), rep);
        accept == e.accept && text == e.text
    {
      if rep == [] {
        if |text| > 1 {
          var possibleText := text[..|text| - 1];
          if possibleText[|possibleText| - 1] == decimalSeparator {
            text := possibleText;
          } else {
            text := numberFormat(possibleText);
          }
          return false;
        } else {
          return true;
        }
      }
      var isNumber := ContainsDigit(rep);
      if !isNumber && decimalSeparator !in text {
        text := text + [decimalSeparator];
      } else if isNumber {
        var possibleText := text + rep;
        var amountParts := Components(possibleText, decimalSeparator);
        if |amountParts| == 2 {
          if |amountParts[|amountParts| - 1]| > 2 {
            // the text is set to itself
          } else {
            return true;
          }
        } else {
          if |cleanInteger(possibleText)| > maxIntegerDigits {
            return false;
          }
          text := numberFormat(possibleText);
        }
      }
      return false;
    }

    /** `textField(_:shouldChangeCharactersIn:replacementString:)`. */
    method ShouldChangeCharacters(loc: nat, len: nat, rep: string) returns (accept: bool)
      requires UsesRange(rep) ==> loc + len <= |text|
      modifies this`text, this`selection
      ensures var e := ChangeCharacters(old(text), loc, len, rep);
        accept == e.accept && text == e.text && selection == (if e.cursor.Some? then e.cursor else old(selection))
    {
      match textType
      case Amount => accept := ShouldChangeSumText(rep);
      case CreditCard => accept := ShouldChangeText(loc, len, rep, CardMaxLength);
      case Iban => accept := ShouldChangeText(loc, len, rep, IbanMaxLength);
      case ExpDate => accept := ShouldChangeExpDate(loc, len, rep);
      case NoFormat => accept := true;
    }

    /** The text `paste(_:)` installs for the clipboard contents: with its
        spaces removed, a card number of at most 16 digits or an IBAN of at
        most 34 characters, grouped in fours. `None` when nothing is
        installed. */
    function PastedText(clipboard: Option<string>): (r: Option<string>)
      ensures r.Some? ==> clipboard.Some?
      ensures textType == CreditCard ==>
        (r.Some? <==> clipboard.Some? && HasOnlyDigits(RemoveChar(clipboard.value, ' '))
                      && |RemoveChar(clipboard.value, ' ')| <= CardPasteLength)
      ensures textType == Iban ==>
        (r.Some? <==> clipboard.Some? && |RemoveChar(clipboard.value, ' ')| <= IbanPasteLength)
      ensures textType != CreditCard && textType != Iban ==> r.None?
      ensures r.Some? ==> IsGrouped(r.value, 4, ' ') && RemoveChar(r.value, ' ') == RemoveChar(clipboard.value, ' ')
    {
      match clipboard
      case None => None
      case Some(s) =>
        var pastedString := RemoveChar(s, ' ');
        RegroupIdempotent(pastedString, 4, ' ');
        SeparateStrip(pastedString, 4, ' ');
        if textType == CreditCard && HasOnlyDigits(pastedString) && |pastedString| <= CardPasteLength then
          Some(Separate(pastedString, 4, ' '))
        else if textType == Iban && |pastedString| <= IbanPasteLength then
          Some(Separate(pastedString, 4, ' '))
        else None
    }

    /** `paste(_:)` with the clipboard's string, if any. For text types other
        than card and IBAN the platform's own paste runs (`deferred`), which
        is not part of this model. A card number installed this way is
        exactly the field's associated value afterwards. */
    method Paste(clipboard: Option<string>) returns (deferred: bool)
      modifies this`text
      ensures PastedText(clipboard).Some? ==> text == PastedText(clipboard).value
      ensures PastedText(clipboard).None? ==> text == old(text)
      ensures deferred <==> clipboard.Some? && textType != CreditCard && textType != Iban
      ensures textType == CreditCard && PastedText(clipboard).Some? ==>
        AssociatedValue() == RemoveChar(clipboard.value, ' ')
      ensures textType == Iban && PastedText(clipboard).Some? ==>
        AssociatedValue() == UpperCased(Trim(RemoveChar(clipboard.value, ' ')))
    {
      deferred := false;
      if clipboard.None? {
        return;
      }
      var pastedString := RemoveChar(clipboard.value, ' ');
      match textType
      case CreditCard =>
        if HasOnlyDigits(pastedString) && |pastedString| <= CardPasteLength {
          text := Separate(pastedString, 4, ' ');
          SeparateStrip(pastedString, 4, ' ');
          TrimUnblank(pastedString);
        }
      case Iban =>
        if |pastedString| <= IbanPasteLength {
          text := Separate(pastedString, 4, ' ');
          SeparateStrip(pastedString, 4, ' ');
        }
      case _ =>
        deferred := true;
    }

    // -------------------------------------------------------------------------
    // Editing begins and ends
    // -------------------------------------------------------------------------

    /** `textFieldDidBeginEditing(_:)`: for a non-empty amount with a
        currency mark, `applySumFormat()` takes the mark out and trims. A
        one-character mark then no longer occurs in the text. */
    method DidBeginEditing()
      modifies this`text
      ensures old(text) != [] && textType == Amount && currencyMark != [] ==>
        text == Trim(RemoveOccurrences(old(text), currencyMark))
      ensures !(old(text) != [] && textType == Amount && currencyMark != []) ==> text == old(text)
      ensures old(text) != [] && textType == Amount && |currencyMark| == 1 ==> currencyMark[0] !in text
    {
      if text == [] {
        return;
      }
      if textType == Amount && currencyMark != [] {
        var withoutMark := RemoveOccurrences(text, currencyMark);
        if |currencyMark| == 1 {
          TrimKeepsAbsent(withoutMark, currencyMark[0]);
        }
        text := Trim(withoutMark);
      }
    }

    /** `textFieldDidEndEditing(_:)`: a non-empty amount is formatted and
        followed by a space and the currency mark, then trimmed
        (`sumFormatEnding()`). */
    method DidEndEditing()
      modifies this`text
      ensures old(text) != [] && textType == Amount ==> text == Trim(numberFormat(old(text)) + " " + currencyMark)
      ensures old(text) != [] && textType == Amount ==>
        text != [] ==> !IsWhitespaceOrNewline(text[0]) && !IsWhitespaceOrNewline(text[|text| - 1])
      ensures !(old(text) != [] && textType == Amount) ==> text == old(text)
    {
      if text == [] {
        return;
      }
      if textType == Amount {
        text := Trim(numberFormat(text) + " " + currencyMark);
      }
    }
  }

  /** Card and IBAN input keeps the text grouped: an edit that is not a
      deletion either regroups the text or leaves it as it was. */
  lemma GroupingKept(t: string, loc: nat, len: nat, rep: string, maxLength: nat)
    requires rep != [] && loc + len <= |t| && IsGrouped(t, 4, ' ')
    ensures IsGrouped(GroupEdit(t, loc, len, rep, maxLength).text, 4, ' ')
  {
  }

  /** Typing a character other than a space at the end of the text appends
      it to the characters of the field, when the result is short enough. */
  lemma TypingAtEnd(t: string, c: char, maxLength: nat)
    requires c != ' ' && |t| + 1 <= maxLength
    ensures var r := GroupEdit(t, |t|, 0, [c], maxLength);
      IsGrouped(r.text, 4, ' ') && RemoveChar(r.text, ' ') == RemoveChar(t, ' ') + [c]
  {
    AppendSplice(t, c);
    AppendKept(t, c);
  }

  /** Replacing the empty range at the end appends. */
  lemma AppendSplice(t: string, c: char)
    ensures Splice(t, |t|, 0, [c]) == t + [c]
  {
  }

  /** Removing spaces from a text with one more character that is not a
      space. */
  lemma AppendKept(t: string, c: char)
    requires c != ' '
    ensures RemoveChar(t + [c], ' ') == RemoveChar(t, ' ') + [c]
  {
    assert [c][1..] == [];
    RemoveCharAppend(t, [c], ' ');
  }

  /** A grouped text of `n` characters besides spaces is `n + (n - 1) / 4`
      long. */
  lemma GroupedLength(t: string)
    requires IsGrouped(t, 4, ' ')
    ensures var n := |RemoveChar(t, ' ')|; |t| == if n == 0 then 0 else n + (n - 1) / 4
  {
    var s := RemoveChar(t, ' ');
    if s != [] {
      SeparateLength(s, 4, ' ');
    }
  }

  /** The length limits of card and IBAN input are the grouped lengths of
      `limit` characters: typed at the end of a grouped text, characters are
      taken until there are `limit` of them and refused after that. */
  lemma GroupedLimit(t: string, c: char, limit: nat)
    requires limit > 0 && c != ' '
    requires IsGrouped(t, 4, ' ') && |RemoveChar(t, ' ')| <= limit
    ensures var r := GroupEdit(t, |t|, 0, [c], limit + (limit - 1) / 4);
      IsGrouped(r.text, 4, ' ') && |RemoveChar(r.text, ' ')| <= limit
      && (|RemoveChar(t, ' ')| < limit ==> RemoveChar(r.text, ' ') == RemoveChar(t, ' ') + [c])
      && (|RemoveChar(t, ' ')| == limit ==> r.text == t)
  {
    var n := |RemoveChar(t, ' ')|;
    GroupedLength(t);
    AppendSplice(t, c);
    if n < limit {
      assert (n - 1) / 4 <= (limit - 1) / 4;
      TypingAtEnd(t, c, limit + (limit - 1) / 4);
    }
  }

  /** The length limit is checked on the edited text with its spaces, so
      typing over a space of a grouped text that fits adds one character
      without removing one. */
  lemma SpaceReplacedByCharacter(t: string, loc: nat, c: char, maxLength: nat)
    requires loc < |t| && t[loc] == ' ' && c != ' ' && |t| <= maxLength
    ensures var r := GroupEdit(t, loc, 1, [c], maxLength);
      IsGrouped(r.text, 4, ' ') && |RemoveChar(r.text, ' ')| == |RemoveChar(t, ' ')| + 1
  {
    var front, back := t[..loc], t[loc + 1..];
    assert t == front + [' '] + back;
    assert Splice(t, loc, 1, [c]) == front + [c] + back;
    RemoveCharAppend(front + [' '], back, ' ');
    RemoveCharAppend(front, [' '], ' ');
    RemoveCharAppend(front + [c], back, ' ');
    RemoveCharAppend(front, [c], ' ');
    assert RemoveChar([c], ' ') == [c];
    assert RemoveChar([' '], ' ') == [];
  }

  /** A card field holding 16 grouped digits takes a 17th when it is typed
      over the first space: the limit of 19 does not bound the digits to 16
      for edits inside the text. */
  lemma CardTakesSeventeenDigits(t: string, c: char)
    requires IsGrouped(t, 4, ' ') && |RemoveChar(t, ' ')| == CardPasteLength && c != ' '
    ensures var r := GroupEdit(t, 4, 1, [c], CardMaxLength);
      IsGrouped(r.text, 4, ' ') && |RemoveChar(r.text, ' ')| == CardPasteLength + 1
  {
    var d := RemoveChar(t, ' ');
    GroupedLength(t);
    SeparateAt(d, 4, ' ', 4);
    SpaceReplacedByCharacter(t, 4, c, CardMaxLength);
  }

  /** A deletion is left to the caller, so deleting the first space of a
      full card field ungroups it, and the shorter text then takes a 17th
      digit typed at its end. */
  lemma DeletedSpaceTakesSeventeenDigits(g: string, c: char)
    requires IsGrouped(g, 4, ' ') && |RemoveChar(g, ' ')| == CardPasteLength && c != ' '
    ensures |g| == CardMaxLength && g[4] == ' '
    ensures GroupEdit(g, 4, 1, [], CardMaxLength).accept
    ensures var t := Splice(g, 4, 1, []); var r := GroupEdit(t, |t|, 0, [c], CardMaxLength);
      IsGrouped(r.text, 4, ' ') && |RemoveChar(r.text, ' ')| == CardPasteLength + 1
  {
    FullCardLayout(g);
    SpaceDeleted(g, 4);
    TypingAtEnd(Splice(g, 4, 1, []), c, CardMaxLength);
  }

  /** A full card field is 19 characters long with a space after the first
      group. */
  lemma FullCardLayout(g: string)
    requires IsGrouped(g, 4, ' ') && |RemoveChar(g, ' ')| == CardPasteLength
    ensures |g| == CardMaxLength && g[4] == ' '
  {
    GroupedLength(g);
    SeparateAt(RemoveChar(g, ' '), 4, ' ', 4);
  }

  /** Deleting a space keeps the characters besides spaces. */
  lemma SpaceDeleted(g: string, i: nat)
    requires i < |g| && g[i] == ' '
    ensures RemoveChar(Splice(g, i, 1, []), ' ') == RemoveChar(g, ' ')
  {
    var front, back := g[..i], g[i + 1..];
    assert g == front + [' '] + back;
    assert Splice(g, i, 1, []) == front + back;
    RemoveCharAppend(front + [' '], back, ' ');
    RemoveCharAppend(front, [' '], ' ');
    RemoveCharAppend(front, back, ' ');
    assert RemoveChar([' '], ' ') == [];
  }

  /** A card field takes 16 digits and an IBAN field 34 characters. */
  lemma CardAndIbanLimits()
    ensures CardMaxLength == CardPasteLength + (CardPasteLength - 1) / 4
    ensures IbanMaxLength == IbanPasteLength + (IbanPasteLength - 1) / 4
  {
  }

  /** Pressing a key without digits twice in an amount field is the same as
      pressing it once: the separator goes in at most once. */
  lemma SeparatorKeyIdempotent(f: StringifyTextField, t: string, rep1: string, rep2: string)
    requires rep1 != [] && rep2 != [] && !ContainsDigit(rep1) && !ContainsDigit(rep2)
    ensures var once := f.SumEdit(t, rep1).text;
      f.SumEdit(once, rep2).text == once
  {
  }

  /** Ending an edit and beginning the next one gives back the formatted
      amount, trimmed: `sumFormatEnding()` appends a space and the currency
      mark, and `applySumFormat()` removes the mark again, as long as the
      mark is one character that is not blank and the formatted amount does
      not contain it. */
  lemma CurrencyMarkRoundTrip(x: string, m: char)
    requires !IsWhitespaceOrNewline(m) && m !in x
    ensures Trim(RemoveOccurrences(Trim(x + " " + [m]), [m])) == Trim(x)
  {
    var a, t := TrimStart(x), Trim(x);
    TrimParts(x);
    var p, q := x[..a], x[a + |t|..];
    SliceAbsent(x, m, a, a + |t|);
    SliceAbsent(x, m, a + |t|, |x|);
    RoundTripParts(p, t, q, m);
  }

  /** A character absent from a text is absent from each of its slices. */
  lemma SliceAbsent(x: string, m: char, i: nat, j: nat)
    requires m !in x && i <= j <= |x|
    ensures m !in x[i..j]
  {
    assert forall k :: 0 <= k < j - i ==> x[i..j][k] == x[i + k];
  }

  /** The round trip on a text split into its leading blanks, its trimmed
      middle and its trailing blanks. */
  lemma RoundTripParts(p: string, t: string, q: string, m: char)
    requires AllBlank(p) && AllBlank(q) && !IsWhitespaceOrNewline(m) && m !in t && m !in q
    requires t != [] ==> !IsWhitespaceOrNewline(t[0]) && !IsWhitespaceOrNewline(t[|t| - 1])
    ensures Trim(RemoveOccurrences(Trim(p + t + q + " " + [m]), [m])) == t
  {
    var q' := q + " ";
    AllBlankConcat(q, " ");
    Regroup(p, t, q, " ", [m]);
    var w := if t == [] then [] else t + q';
    if t == [] {
      BlankThenMark(p, q', m);
    } else {
      TextThenMark(p, t, q', m);
    }
    AbsentFromTail(t, q, m);
    MarkRemoved(w, m);
    if t != [] {
      TrimMiddle(t, q');
    }
  }

  /** Regrouping the concatenation around the appended space. */
  lemma Regroup(p: string, t: string, q: string, sp: string, k: string)
    ensures p + t + q + sp + k == p + t + (q + sp) + k
  {
  }

  /** A non-space mark is absent from the middle followed by blanks and a space. */
  lemma AbsentFromTail(t: string, q: string, m: char)
    requires m !in t && m !in q && m != ' '
    ensures m !in t + (q + " ")
  {
  }

  /** Trimming a text that is already trimmed at the front only drops its trailing blanks. */
  lemma TrimMiddle(t: string, q: string)
    requires AllBlank(q) && t != [] && !IsWhitespaceOrNewline(t[0]) && !IsWhitespaceOrNewline(t[|t| - 1])
    ensures Trim(t + q) == t
  {
    assert t + q == [] + t + q;
    TrimUnique(t + q, [], t, q);
  }

  /** Only blanks before the mark: trimming leaves the mark alone. */
  lemma BlankThenMark(p: string, q: string, m: char)
    requires AllBlank(p) && AllBlank(q) && !IsWhitespaceOrNewline(m)
    ensures Trim(p + [] + q + [m]) == [m]
  {
    AllBlankConcat(p, q);
    assert p + [] + q + [m] == (p + q) + [m] + [];
    TrimUnique(p + [] + q + [m], p + q, [m], []);
  }

  /** Text, blanks, then the mark: trimming drops only the leading blanks. */
  lemma TextThenMark(p: string, t: string, q: string, m: char)
    requires AllBlank(p) && AllBlank(q) && !IsWhitespaceOrNewline(m)
    requires t != [] && !IsWhitespaceOrNewline(t[0])
    ensures Trim(p + t + q + [m]) == t + q + [m]
  {
    var mid := t + q + [m];
    assert mid[0] == t[0];
    assert p + t + q + [m] == p + mid + [];
    TrimUnique(p + t + q + [m], p, mid, []);
  }

  /** Removing the mark from the end of a text without it. */
  lemma MarkRemoved(w: string, m: char)
    requires m !in w
    ensures RemoveOccurrences(w + [m], [m]) == w
  {
    RemoveCharAppend(w, [m], m);
    assert RemoveChar([m], m) == [];
    assert w + [] == w;
  }

  /** Capitals of a text without spaces have no spaces. */
  lemma UpperKeepsSpaceOut(s: string)
    requires ' ' !in s
    ensures ' ' !in UpperCased(s)
  {
    var r := UpperCased(s);
    assert forall i :: 0 <= i < |r| ==> r[i] == Upper(s[i]);
  }

  /** With exactly one separator, the second component is what follows it. */
  lemma FractionIsLastPart(s: string, c: char)
    requires multiset(s)[c] == 1
    ensures forall i :: 0 <= i < |s| && s[i] == c ==> Components(s, c)[1] == s[i + 1..]
  {
    forall i | 0 <= i < |s| && s[i] == c ensures Components(s, c)[1] == s[i + 1..] {
      OnlyOccurrence(s, c, i);
    }
  }
}
