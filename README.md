# Stringify in Dafny

A model of the string core of the Swift library Stringify:

- the `String` extensions that group a text with a separator (`separate`),
  mask part of it (the five `maskSubstring` overloads and their
  `outOfUpperIndex` error), test for digits only and validate a card
  number;
- the Luhn check (`luhnAlgorithm`), as a loop proved against the
  check-digit scheme of ISO/IEC 7812-1, Annex B;
- the format-as-you-type text field `StringifyTextField`: a class whose
  `text` (and requested caret position) the keystroke handlers, `paste`
  and the begin/end-editing callbacks update, for amounts, card numbers,
  IBANs and expiry dates;
- the `Optional` conveniences `orEmpty` and `isBlank` and the default
  values of `String` and `Data`.

Files:

| file | module | models |
|---|---|---|
| `chars.dfy` | `Chars` | the Foundation operations the library relies on: character classes, `trimmingCharacters(in: .whitespacesAndNewlines)`, `replacingOccurrences(of:with: "")`, `components(separatedBy:)`, `uppercased()` |
| `luhn.dfy` | `Luhn` | `luhnAlgorithm` |
| `string_ext.dfy` | `StringExt` | `Sources/Stringify+String.swift` |
| `optional.dfy` | `Optionals` | `Sources/Stringify+Optional.swift` |
| `text_field.dfy` | `TextField` | `Sources/StringifyTextField.swift` |

Each handler of the text field is a method that changes `text` (and
`selection`). A pure function of the field describes the handler's
decision as an `Edit`: whether the caller applies the edit, the text
afterwards, and the caret offset requested. The method's postcondition
ties the new state to that function. The lemmas are stated about the
function: for example, grouping is preserved and typing at the end
appends. Typed at the end of a grouped text, card input stops at 16
digits and IBAN input at 34 characters. Deletions are applied by the caller
and are not regrouped: deleting a space ungroups the text, and typing at
the end of it then passes 16 digits or 34 characters. Typed over a space
inside the text, a character is added without one being removed. Either
way a card field can hold 17 digits.

The amount format's `NumberFormatter` paths are given to the field at
construction as three functions and are otherwise uninterpreted:

- `numberFormat` is `applyFormat(.custom(formatter:))`;
- `cleanInteger` is `clean(fractionDigits: 0)`;
- `cleanAmount` is `clean()`.

Text is ASCII: one `char` is one character, so Swift's `count`, an
`NSString` length and an `NSRange` offset agree.

## Model

| member | source | states |
|---|---|---|
| Chars.IsDigit | Stringify/Classes/Luhn.swift:19 | the ASCII digits '0' to '9': what `Int(_:)` accepts for one character, `isNumber` and `.decimalDigits` |
| Chars.IsWhitespace | Sources/Stringify+String.swift:259 | `.whitespaces` in ASCII: space and tab |
| Chars.IsWhitespaceOrNewline | Sources/Stringify+String.swift:77-79 | `.whitespacesAndNewlines` in ASCII: space, tab, and line feed to carriage return |
| Chars.ContainsWhere | Sources/Stringify+String.swift:73 | `contains(where:)` is true exactly when some character satisfies the predicate |
| Chars.RemoveChar | Sources/StringifyTextField.swift:268 | removing a character leaves none of it, never lengthens the text, and leaves a text without it unchanged |
| Chars.RemoveCharCount | Sources/StringifyTextField.swift:268 | removing `c` drops every occurrence of `c` and keeps every other character as often as it occurred |
| Chars.RemoveCharAppend | Sources/StringifyTextField.swift:281 | removing a character distributes over concatenation |
| Chars.RemoveWhitespace | Sources/Stringify+String.swift:259 | splitting at whitespace and joining with "" leaves no space or tab, and leaves a text without them unchanged |
| Chars.RemoveWhitespaceCount | Sources/Stringify+String.swift:259 | removing whitespace drops every space and tab and keeps every other character as often as it occurred |
| Chars.RemoveWhitespaceBlank | Sources/Stringify+String.swift:259 | what is left of a blank text is blank |
| Chars.RemoveWhitespaceAppend | Sources/Stringify+String.swift:259 | removing whitespace distributes over concatenation |
| Chars.RemoveOccurrences | Sources/StringifyTextField.swift:190 | removing a substring never lengthens the text; an empty pattern changes nothing; a one-character pattern is `RemoveChar` |
| Chars.TrimLeading | Sources/Stringify+String.swift:77-79 | the result is a suffix of the input; what was dropped is all blank; the result does not start with a blank |
| Chars.TrimTrailing | Sources/Stringify+String.swift:77-79 | the result is a prefix of the input; what was dropped is all blank; the result does not end with a blank |
| Chars.Trim | Sources/Stringify+String.swift:77-79 | `trim()` returns a contiguous slice of the input with no blank at either end; everything before and after that slice is blank |
| Chars.TrimParts | Sources/Stringify+String.swift:77-79 | the input is its blank prefix, then its trimmed text, then its blank suffix |
| Chars.TrimUnique | Sources/Stringify+String.swift:77-79 | any split of a text into blanks, a middle with no blank at either end, and blanks trims to that middle; this characterises `trim()` |
| Chars.TrimUnblank | Sources/Stringify+String.swift:77-79 | a text with no blank at either end is unchanged by trimming |
| Chars.TrimKeepsAbsent | Sources/Stringify+String.swift:77-79 | trimming introduces no character |
| Chars.Components | Sources/StringifyTextField.swift:244 | `components(separatedBy:)` gives one more part than there are separators, and no part contains the separator |
| Chars.Join | Sources/StringifyTextField.swift:244 | the inverse of `components(separatedBy:)`: the parts in order with the separator character between each two neighbours; it also lays out digit groups with spaces |
| Chars.JoinSeparatorCount | Sources/StringifyTextField.swift:244 | rebuilding a text from parts free of the separator, as `components(separatedBy:)` yields them, puts exactly one separator between each two neighbouring parts |
| Chars.JoinComponents | Sources/StringifyTextField.swift:244 | joining the components with the separator gives the text back |
| Chars.LastComponent | Sources/StringifyTextField.swift:247 | the last component (`amountParts.last`) is what follows the last separator |
| Chars.Upper | Sources/StringifyTextField.swift:82 | a lower-case letter becomes the capital at the same place in the alphabet; anything else is kept; the result is never lower-case |
| Chars.UpperCased | Sources/StringifyTextField.swift:82 | `uppercased()` keeps the length, maps each character to its capital, and leaves no lower-case letter |
| Luhn.DigitValue | Stringify/Classes/Luhn.swift:19 | the value of a digit character is between 0 and 9, and is 0 only for '0' |
| Luhn.Contribution | Stringify/Classes/Luhn.swift:21-28 | a digit at an odd reversed index adds 9 for a nine and `(2d) % 9` otherwise; this equals the digit sum of `2d`; at an even index it adds itself; every contribution is at most 9 |
| Luhn.Reverse | Stringify/Classes/Luhn.swift:16 | `reversed()` keeps the length and maps index `i` to index `n - 1 - i` |
| Luhn.PrefixSum | Stringify/Classes/Luhn.swift:18-29 | the running sum after `k` digits is at most `9 * k` |
| Luhn.LuhnAlgorithm | Stringify/Classes/Luhn.swift:14-32 | the loop returns true exactly when every character is a digit and the sum of the contributions is a multiple of ten; a non-digit returns false early |
| Luhn.PrefixSumIsIsoSum | Stringify/Classes/Luhn.swift:18-29 | the running sum over the last `k` characters equals the ISO/IEC 7812-1 sum of that suffix read left to right |
| Luhn.LuhnMatchesIso | Stringify/Classes/Luhn.swift:14-32 | the code accepts exactly the texts that the ISO/IEC 7812-1 Annex B check accepts |
| Luhn.EmptyAccepted | Stringify/Classes/Luhn.swift:15 | the empty text is accepted: its sum is 0 |
| Luhn.NonDigitRejected | Stringify/Classes/Luhn.swift:19 | a text with a character that is not a digit anywhere is rejected |
| Luhn.SpaceRejected | Stringify/Classes/Luhn.swift:19 | the example "7992 7398713": a space inside a valid number rejects it |
| Luhn.KnownNumberAccepted | StringifyTests/StringifyTests.swift:151-157 | "79927398713" is accepted |
| Luhn.ShortNumberRejected | StringifyTests/StringifyTests.swift:150-154 | "123" is rejected |
| Luhn.CardNumberExample | StringifyTests/StringifyTests.swift:152-160 | "5578854960210681" is accepted |
| StringExt.StringifyError | Sources/Stringify+String.swift:20-25 | the four error cases |
| StringExt.Result | Sources/Stringify+String.swift:126-128 | a throwing function's outcome: its value, or the error it throws |
| StringExt.Separate | Sources/Stringify+String.swift:85-91 | grouping never shortens the text |
| StringExt.SeparateLength | Sources/Stringify+String.swift:85-91 | a text of `n > 0` characters grouped every `k` is `n + (n - 1) / k` long |
| StringExt.SeparateAt | Sources/Stringify+String.swift:86-88 | the character at index `i` lands at `i + i / k`; the separator sits right before it exactly when `i > 0 && i % k == 0`, and otherwise the previous character does |
| StringExt.SeparateStrip | Sources/Stringify+String.swift:85-91 | removing the separators from the grouped text gives the text back, when the text did not contain the separator |
| StringExt.RegroupIdempotent | Sources/Stringify+String.swift:85-91 | grouped output is grouped: stripping and regrouping it changes nothing |
| StringExt.SeparateExamples | StringifyTests/StringifyTests.swift:120-140 | "" stays ""; "123" every 4 stays "123"; "123" every 2 with ":" gives "12:3" |
| StringExt.Repeat | Sources/Stringify+String.swift:131 | `String(repeating:count:)` has `count` copies of the mask |
| StringExt.Overwrite | Sources/Stringify+String.swift:133-136 | replacing the range with the mask string masks exactly the positions in the range and keeps the length and every other position |
| StringExt.MaskRange | Sources/Stringify+String.swift:126-137 | `lo..<hi` fails with `outOfUpperIndex` exactly when `hi > count`; otherwise it masks `[lo, hi)` |
| StringExt.MaskClosedRange | Sources/Stringify+String.swift:155-166 | `lo...hi` fails exactly when `hi >= count`; otherwise it masks `hi - lo + 1` positions from `lo` |
| StringExt.MaskFrom | Sources/Stringify+String.swift:184-194 | `lo...` fails exactly when `lo >= count`; otherwise it masks from `lo` to the end |
| StringExt.MaskThrough | Sources/Stringify+String.swift:212-222 | `...hi` fails exactly when `hi >= count`; otherwise it masks the first `hi + 1` characters |
| StringExt.MaskUpTo | Sources/Stringify+String.swift:240-250 | `..<hi` fails exactly when `hi > count`; otherwise it masks the first `hi` characters |
| StringExt.MaskExamples | StringifyTests/StringifyTests.swift:255-299 | all fourteen results and failures of the masking tests on "abcdefg" |
| StringExt.HasOnlyDigits | Sources/Stringify+String.swift:70-74 | true exactly when the text is non-empty and every character is a digit |
| StringExt.HasOnlyDigitsExamples | StringifyTests/StringifyTests.swift:399-409 | "123456" passes; "123a56", " " and "" fail |
| StringExt.CardNumberOf | Sources/Stringify+String.swift:259 | the prepared number has no space or tab and no blank at either end, and it is what removing the whitespace of the whole text leaves, less blanks at either end |
| StringExt.CardNumberKept | Sources/Stringify+String.swift:259 | removing the whitespace of the whole text gives the prepared number with only blanks around it |
| StringExt.EndsSurviveWhitespaceRemoval | Sources/Stringify+String.swift:259 | removing inner whitespace from a trimmed text keeps its ends non-blank |
| StringExt.ValidateCreditCard | Sources/Stringify+String.swift:258-266 | returns `true` exactly when the trimmed, whitespace-free text passes the Luhn check; otherwise it throws `invalidCard` |
| StringExt.GroupedCardNumber | Sources/Stringify+String.swift:259 | a card number written as digit groups separated by single spaces is prepared back into the bare digits |
| StringExt.RemoveWhitespaceJoin | Sources/Stringify+String.swift:259 | dropping the spaces between digit groups glues the groups together |
| StringExt.SpacedCardExample | StringifyTests/StringifyTests.swift:152-160 | "5578 8549 6021 0681" is prepared into "5578854960210681" |
| Optionals.StringDefault | Sources/Stringify+Optional.swift:34-38 | String's default value is empty |
| Optionals.DataDefault | Sources/Stringify+Optional.swift:40-44 | Data's default value has no bytes |
| Optionals.OrEmpty | Sources/Stringify+Optional.swift:17-24 | a present value is returned unchanged; nil gives the type's default |
| Optionals.OrEmptyString | Sources/Stringify+Optional.swift:17-24 | a nil string gives "" and a present one is kept |
| Optionals.OrEmptyData | Sources/Stringify+Optional.swift:17-24 | nil data gives no bytes and present data is kept |
| Optionals.IsBlank | Sources/Stringify+Optional.swift:29-31 | true exactly for nil or the empty string |
| Optionals.BlankIffOrEmptyIsEmpty | Sources/Stringify+Optional.swift:29-31 | an optional string is blank exactly when `orEmpty` makes it "" |
| Optionals.OrEmptyOfSome | Sources/Stringify+Optional.swift:19-20 | wrapping and then unwrapping with `orEmpty` gives the value back, whatever the default |
| Optionals.OptionalExamples | StringifyTests/StringifyTests.swift:445-461 | nil is blank and gives ""; "abc" is kept and not blank; nil data gives no bytes |
| TextField.TextType | Sources/StringifyTextField.swift:20-26 | the five input formats; `NoFormat` is the case `none` |
| TextField.Splice | Sources/StringifyTextField.swift:278 | `replacingCharacters(in:with:)` keeps the text before the range, puts the replacement in the range and keeps the text after it |
| TextField.CursorAfter | Sources/StringifyTextField.swift:276 | the caret position is `location + length of the replacement`; there is none when that lies past the end of the text the handler was given |
| TextField.StripTrim | Sources/StringifyTextField.swift:268 | removing a character and trimming leaves none of it and no blank at either end; what is removed besides the character is only blanks at either end |
| TextField.TrimAround | Sources/Stringify+String.swift:77-79 | a text is its trimmed middle with blanks on either side |
| TextField.ContainsDigit | Sources/StringifyTextField.swift:233 | true exactly when the replacement contains a decimal digit |
| TextField.OnlyOccurrence | Sources/StringifyTextField.swift:244-247 | with exactly one separator, the second component is what follows it |
| TextField.GroupEdit | Sources/StringifyTextField.swift:271-289 | for card and IBAN input: a deletion is left to the caller and the text is untouched; any other edit is refused and the caret is requested after the replacement; a candidate of at most `maxLength` characters becomes grouped in fours with the candidate's non-space characters; a longer one leaves the text unchanged |
| TextField.ExpDateEdit | Sources/StringifyTextField.swift:298-318 | a deletion is left to the caller; otherwise the edit is refused and the caret requested; a two-character candidate gets "/" appended; one of any other length up to 5 is regrouped in twos with "/" and keeps its other characters; a longer one leaves the text unchanged |
| TextField.StringifyTextField.constructor | Sources/StringifyTextField.swift:41-57 | the settings are the given ones and the text starts empty |
| TextField.StringifyTextField.CleanValue | Sources/StringifyTextField.swift:267-269 | `cleanValue()` has no space and no blank at either end, and is the text without spaces less only blanks at either end |
| TextField.StringifyTextField.ExpDateCleanValue | Sources/StringifyTextField.swift:294-296 | `expDateCleanValue()` has no "/" and no blank at either end, and is the text without slashes less only blanks at either end |
| TextField.StringifyTextField.CleanValueForSum | Sources/StringifyTextField.swift:198-210 | without a fraction part, the clean amount has no space, and for a mark of at most one character it is the text between the blanks at either end with the mark and the spaces removed; with a fraction part and no mark, it is the formatter's clean value of the trimmed text |
| TextField.StringifyTextField.AssociatedValue | Sources/StringifyTextField.swift:75-88 | card: the clean value; IBAN: the clean value upper-cased, with no space and no lower-case letter; expiry: `ExpDateCleanValue`; amount: `CleanValueForSum`; no format: the text itself |
| TextField.StringifyTextField.SumEdit | Sources/StringifyTextField.swift:212-262 | for amounts: never a caret; deleting from a text of at most one character is left to the caller, otherwise the last character is dropped and the rest is kept raw after a separator and formatted otherwise; a key without digits adds the decimal separator once; a digit key with exactly one separator in the candidate is accepted exactly when at most two characters follow it; any other digit key is refused, and the candidate is formatted when its integer digits fit `maxIntegerDigits` |
| TextField.StringifyTextField.ChangeCharacters | Sources/StringifyTextField.swift:334-349 | dispatches by text type: amounts to `SumEdit`, cards with limit 19, IBANs with limit 42, expiry dates to `ExpDateEdit`; with no format every edit is accepted |
| TextField.StringifyTextField.ShouldChangeText | Sources/StringifyTextField.swift:271-289 | returns `GroupEdit`'s decision, sets the text to it, and moves the selection only when a caret position is requested; the new clean value is the trimmed candidate without spaces |
| TextField.StringifyTextField.ShouldChangeExpDate | Sources/StringifyTextField.swift:298-318 | returns `ExpDateEdit`'s decision, sets the text to it, and moves the selection only when a caret position is requested |
| TextField.StringifyTextField.ShouldChangeSumText | Sources/StringifyTextField.swift:212-262 | returns `SumEdit`'s decision and sets the text to it |
| TextField.StringifyTextField.ShouldChangeCharacters | Sources/StringifyTextField.swift:334-349 | returns the decision of `ChangeCharacters` and installs its text and caret |
| TextField.StringifyTextField.PastedText | Sources/StringifyTextField.swift:159-178 | spaces are removed from the clipboard string; a card field takes it exactly when it is all digits and at most 16 long; an IBAN field exactly when it is at most 34 long; the installed text is grouped in fours with the same characters; other types install nothing |
| TextField.StringifyTextField.Paste | Sources/StringifyTextField.swift:159-178 | installs `PastedText` or leaves the text unchanged; other types defer to the platform's paste; after a card paste the associated value is the pasted digits; after an IBAN paste it is the trimmed pasted text upper-cased |
| TextField.StringifyTextField.DidBeginEditing | Sources/StringifyTextField.swift:188-192 | a non-empty amount with a currency mark loses the mark and is trimmed; everything else is unchanged; a one-character mark no longer occurs afterwards |
| TextField.StringifyTextField.DidEndEditing | Sources/StringifyTextField.swift:194-196 | a non-empty amount becomes its formatted form, a space and the currency mark, trimmed; the result has no blank at either end; everything else is unchanged |
| TextField.GroupingKept | Sources/StringifyTextField.swift:278-282 | a grouped card or IBAN text stays grouped after any edit that is not a deletion |
| TextField.TypingAtEnd | Sources/StringifyTextField.swift:278-282 | typing a non-space character at the end of a short enough text appends it to the field's characters |
| TextField.GroupedLength | Sources/StringifyTextField.swift:281 | a grouped text of `n` characters besides spaces is `n + (n - 1) / 4` long |
| TextField.GroupedLimit | Sources/StringifyTextField.swift:280-282 | typed at the end of a grouped text with limit `L + (L - 1) / 4`, characters are taken until there are `L` of them and refused after that |
| TextField.SpaceReplacedByCharacter | Sources/StringifyTextField.swift:278-282 | typing a character over a space of a text that fits the limit keeps it grouped and adds one character to the field |
| TextField.CardTakesSeventeenDigits | Sources/StringifyTextField.swift:278-282 | a card field holding 16 grouped digits takes a 17th typed over its first space |
| TextField.FullCardLayout | Sources/StringifyTextField.swift:280-281 | a grouped card text of 16 digits is 19 characters long with a space after the first group |
| TextField.SpaceDeleted | Sources/StringifyTextField.swift:272-274 | deleting a space, which the caller applies, keeps every character besides spaces |
| TextField.DeletedSpaceTakesSeventeenDigits | Sources/StringifyTextField.swift:272-282 | the deletion of the first space of a full card field is left to the caller, and the ungrouped text then takes a 17th digit typed at its end |
| TextField.CardAndIbanLimits | Sources/StringifyTextField.swift:341-343 | the limits 19 and 42 are the grouped lengths of the 16 digits and 34 characters a paste takes |
| TextField.SeparatorKeyIdempotent | Sources/StringifyTextField.swift:239-240 | pressing a key without digits twice in an amount field has the effect of pressing it once |
| TextField.CurrencyMarkRoundTrip | Sources/StringifyTextField.swift:188-196 | ending an edit (a space and the mark appended, trimmed) and beginning the next (the mark removed, trimmed) gives back the formatted amount, trimmed |
| TextField.UpperKeepsSpaceOut | Sources/StringifyTextField.swift:82 | upper-casing a text without spaces introduces none |
| TextField.FractionIsLastPart | Sources/StringifyTextField.swift:244-247 | with exactly one separator, `amountParts.last` is the text after it |

## Left out

- `toDouble`, `clean`, `applyFormat`, `triadString` and the `NumberFormatter` behind them: floating point and locale formatting in a foreign library. The field receives them as the uninterpreted functions `numberFormat`, `cleanInteger` and `cleanAmount`.
- `validate` and `invokeRegularExpression`: regular-expression matching in `NSRegularExpression`.
- `convertDate`, `size(width:font:)`, `attributed`, the `NSAttributedString` and `UIColor` extensions: date, layout and colour code outside the string core.
- UIKit plumbing of the text field: `configure`, the keyboard settings, `closestPosition`, `canPerformAction`, delegate wiring and `textFieldShouldReturn`.
- Reading `UIPasteboard`: the clipboard's string is a parameter of `Paste`. The platform's own `super.paste` is not modelled; `Paste` only reports it as `deferred`.
- `UITextPosition` resolution: the requested caret is an offset kept in `selection`. UIKit moving the caret when `text` is assigned is not modelled.
- Applying an accepted edit: when a handler returns `true`, UIKit performs the edit; the model stops at the decision.
- A nil `text` (`text!`, and the guard in `shouldChangeCharactersIn`): the field's text is always a string.
- The settings (`textType`, `currencyMark`, `decimal`, `decimalSeparator`, `maxIntegerDigits`) are fixed at construction. Changing them later and their property observers are not modelled.
- `decimalSeparator` is one character. The source allows any string; its default "," is one character.
- Unicode: text is ASCII. Grapheme clusters, UTF-16 offsets versus `count`, non-ASCII digits, whitespace and case mapping are not modelled.
- Chars.RemoveOccurrences: the contract states the result for an empty or one-character pattern only; for longer patterns only the length bound is stated.
- TextField.StringifyTextField.CleanValueForSum: with a fraction part, the result goes through the formatter's `clean()`, so the contract says nothing about it except when there is no currency mark. Without a fraction part, what is kept is stated for a mark of at most one character only, because `RemoveOccurrences` is only characterised for such patterns.
- TextField.StringifyTextField.DidBeginEditing: when the currency mark is longer than one character, the contract states the new text but not that the mark is gone.
- TextField.CurrencyMarkRoundTrip: proved for a one-character mark that is not blank and does not occur in the formatted amount.
- The length limits of card and IBAN input (19 and 42) are checked on the candidate text including the spaces it already has. So they bound the digits to 16 and the IBAN to 34 characters only for typing at the end of a grouped text (`GroupedLimit`). A deletion is applied by the caller without regrouping, so deleting a space ungroups the text, and typing at its end then passes the bound (`DeletedSpaceTakesSeventeenDigits`). Typed over a space, a character is added too (`CardTakesSeventeenDigits`). The model keeps the code's check.
- Swift runtime traps become preconditions instead of modelled crashes. `Separate` requires a non-zero stride when the text has more than one character. The masks require `lo <= hi`, because a reversed range cannot be formed, and a non-negative offset once the bound check has passed. `Splice` and the grouping handlers require the edited range to lie inside the text, as `replacingCharacters(in:with:)` traps otherwise.
- ISO/IEC 7812-1 is cited only for the Luhn check itself. Issuer prefixes and the permitted card-number lengths are not modelled.
