# mt-utilities guard clauses, transliteration and MtException in Dafny

This project models three small, pure parts of the `Mt.Utilities` library:

- **`Check`**, the guard clauses `NotEmpty` (for strings and for sequences), `NotNull`,
  `NotZero` and `FromInterval`. Each one returns its argument unchanged or reports the
  exception it would throw. `NullArg(paramName, message)` stands for an
  `ArgumentNullException`. `InvalidArg(message)` stands for an `ArgumentException`.
  On every failure path except the malformed-interval one of `FromInterval`
  (`Mt.Utilities/Check.cs:116-118`), a guard first validates its own `parameterName`
  with a nested call `NotEmpty(parameterName, "parameterName", …)`. `NotNull` and
  `NotZero` pass their `message` on to that call (`Check.cs:76`, `:98`). A nested
  failure there uses the caller's message when it has text, and the default otherwise
  (`Check.cs:27`, `:33`). The other guards pass no message (`Check.cs:26`, `:32`, `:50`,
  `:56`, `:123`). The nested call is itself a `NotEmpty`, so a null or blank name
  makes it fail in turn and check its own name. That own name is the non-blank literal
  "parameterName", so this last check always succeeds and the recursion stops there.
  The model keeps the recursion as it is written.
- **`StringExtensions.Ru2Eng`**, the Cyrillic-to-Latin transliteration after ISO 9:1995 /
  GOST 7.79-2000 System B. It looks up each character's lower-case form in a 33-entry
  table. A capital letter gets the upper-cased entry. A character without an entry is
  copied unchanged.
- **`MtException`**, whose three constructors share one rule. The title is the code's
  title. The description is the message when the message has text, and the code's
  description otherwise. The code and the inner exception are stored unchanged.

A C# `null` is `Nullable.Null`. Strings are `seq<char>`. "Blank" means that every
character satisfies `char.IsWhiteSpace`, which `Text.IsWhiteSpace` lists. `int` is the
subset type `Check.Int32`. The overflow-free difference `(long)maxValue - minValue` is
checked to fit in `Check.Int64`.

Where the code and its unit tests disagree, the model follows the code:

- The code writes `FromInterval`'s two messages in Russian
  (`Mt.Utilities/Check.cs:118`, `:124`). The unit tests expect English text
  (`test/Mt.Utilities.Test/CheckTest.cs:236-239`). The model keeps the Russian text.
- `NotZero` keeps a blank custom message (see "## Findings").

`Check.NameFailure` is a non-recursive reference definition of the nested failure. The
guards' contracts are stated against it.

Module layout: `nullable.dfy`, `text.dfy` (white space, `Trim`), `decimal.dfy` (how an
`int` is written into a message), `check.dfy`, `check_properties.dfy`,
`string_extensions.dfy`, `string_extensions_properties.dfy`, `mt_exception.dfy`.

## Model

| member | source | states |
|---|---|---|
| Text.IsWhiteSpace | Mt.Utilities/Check.cs:27-30 | `char.IsWhiteSpace`, which decides every "blank" and every `Trim`: space, tab, line feed and carriage return are white space; no ASCII letter or digit, and no character of the Cyrillic block, is |
| Text.IsNullOrWhiteSpace | Mt.Utilities/Check.cs:27 | `string.IsNullOrWhiteSpace`, also used at src/Mt.Utilities/Exceptions/MtException.cs:17: null and "" count as blank |
| Text.NullOrWhiteSpaceIffTrimEmpty | Mt.Utilities/Check.cs:27-30 | `IsNullOrWhiteSpace(s)` holds exactly when `s` is null or `s.Trim()` is empty, so the two tests the guards use agree |
| Text.TrimStart | Mt.Utilities/Check.cs:30 | the result is a suffix of the input, the dropped prefix is all white space, and the result does not start with white space |
| Text.TrimEnd | Mt.Utilities/Check.cs:30 | the result is a prefix of the input, the dropped suffix is all white space, and the result does not end with white space |
| Text.TrimEmptyIffBlank | Mt.Utilities/Check.cs:30 | `value.Trim().Length is 0` holds exactly when every character is white space, which is the `IsNullOrWhiteSpace` notion of blank |
| Decimal.IntToString | Mt.Utilities/Check.cs:118-124 | an integer is written as '-' exactly when negative, followed by decimal digits without leading zeros ("0" for zero) |
| Decimal.NatToStringRoundTrip | Mt.Utilities/Check.cs:118 | the digits written for a natural number read back as that number |
| Decimal.IntToStringRoundTrip | Mt.Utilities/Check.cs:118-124 | an integer written into an interval message (sign, then digits) reads back as the same integer |
| Check.BadIntervalMessage | Mt.Utilities/Check.cs:118 | the malformed-interval message is never blank, and with `CheckProperties.BadIntervalMessageDeterminesBounds` it determines both bounds |
| Check.OutOfIntervalMessage | Mt.Utilities/Check.cs:124 | the out-of-interval message is never blank, and with `CheckProperties.OutOfIntervalMessageDeterminesAll` it determines the name, the value and both bounds |
| Check.NameFailure | Mt.Utilities/Check.cs:24-33 | the failure of the nested check at Check.cs:26, :32, :50, :56, :76, :98 and :123 for a null or blank `parameterName`: a null-argument failure about "parameterName" for a null name and an invalid-argument failure for a blank one; its message is the nested message when that has text and is never blank |
| Check.PickMessage | Mt.Utilities/Check.cs:27 | a message with text is used as given, a null or blank message gives the default, and so the chosen message is never blank when the default is not |
| Check.Checked.Text | Mt.Utilities/Check.cs:27 | the `Message` of a null-argument failure is its message followed by " (Parameter '<name>')" when the name is non-empty; an invalid-argument failure's text is its message alone |
| Check.ParameterNameLiteralHasText | Mt.Utilities/Check.cs:26 | the literal "parameterName" used by the nested check is not blank, so the nested check of that literal under its own name always succeeds and the recursion stops there |
| Check.NotEmpty | Mt.Utilities/Check.cs:22-37 | returns the input unchanged exactly when it is non-null and not blank; with a valid name, null gives `NullArg(name, message or "Checked parameter is null.")` and blank gives `InvalidArg(message or "Checked parameter '<name>' is empty.")`; with a null or blank name any failure is the nested failure about "parameterName" |
| Check.NotEmptySeq | Mt.Utilities/Check.cs:46-61 | returns the sequence unchanged exactly when it is non-null and has an element; null and zero length fail as for strings; a bad name gives the nested failure |
| Check.NotNull | Mt.Utilities/Check.cs:72-81 | returns any non-null value unchanged, "" and white space included; null fails with the null-argument message rule; a bad name gives the nested failure, which receives `message` |
| Check.NotZero | Mt.Utilities/Check.cs:92-103 | returns any non-default value unchanged; the default value fails with `message` whenever it is non-null, even blank, else with "Input parameter '<name>' is zero value."; a bad name gives the nested failure, which receives `message` |
| Check.NotZeroIntended | Mt.Utilities/Check.cs:95-102 | the corrected `NotZero`: the default value fails with the message only when it has text, else with the default text |
| Check.FromInterval | Mt.Utilities/Check.cs:114-128 | `max <= min` fails with the interval message whatever the value and name; otherwise returns the value exactly when `min <= value <= max`, and otherwise fails with the message embedding name, value, min and max, or the nested failure for a bad name |
| CheckProperties.NullTextHasSuffix | Mt.Utilities/Check.cs:24-27 | the observable text of a null failure of `NotEmpty` and `NotNull` is the chosen message followed by " (Parameter '<name>')", with or without a custom message |
| CheckProperties.EmptyTextHasNoSuffix | Mt.Utilities/Check.cs:30-33 | the observable text of a blank-string failure is the chosen message alone |
| CheckProperties.NameFailureIsNestedCheck | Mt.Utilities/Check.cs:24-33 | for every null or blank name and any message, `NameFailure` equals what the nested `NotEmpty(parameterName, "parameterName", message)` returns |
| CheckProperties.BadIntervalMessageDeterminesBounds | Mt.Utilities/Check.cs:118 | two malformed-interval messages are equal only for equal bounds |
| CheckProperties.OutOfIntervalMessageDeterminesAll | Mt.Utilities/Check.cs:124 | two out-of-interval messages are equal only for equal names, values and bounds |
| CheckProperties.NestedCheckSucceeds | Mt.Utilities/Check.cs:26 | the nested check of the literal "parameterName" under its own name returns it unchanged |
| CheckProperties.NotEmptyNullBlankMessageCase | test/Mt.Utilities.Test/CheckTest.cs:34 | a null string with a tab as message fails with the default null message for "value" |
| CheckProperties.NotEmptyNullCustomMessageCase | test/Mt.Utilities.Test/CheckTest.cs:35 | a null string with "Test message." fails with that message for "value" |
| CheckProperties.NotEmptyBlankValueCase | test/Mt.Utilities.Test/CheckTest.cs:57 | " " fails as empty with the default text for "value" |
| CheckProperties.NotEmptyEmptyCustomMessageCase | test/Mt.Utilities.Test/CheckTest.cs:56 | "" with "Test message." fails with that message alone |
| CheckProperties.NotNullAcceptsBlankStrings | test/Mt.Utilities.Test/CheckTest.cs:128-130 | `NotNull` returns "" and white-space strings unchanged |
| CheckProperties.NotZeroKeepsBlankMessage | Mt.Utilities/Check.cs:99 | as written, a zero value with message " " fails with the message " " |
| CheckProperties.NotZeroIntendedBlankMessageCase | test/Mt.Utilities.Test/CheckTest.cs:197 | the corrected guard gives the default zero-value text for message " " |
| CheckProperties.NotZeroIntendedMessageHasText | Mt.Utilities/Check.cs:99 | with the corrected rule, a zero-value failure under a valid name never has a blank message |
| CheckProperties.FromIntervalInvertedCase | Mt.Utilities/Check.cs:116-118 | `FromInterval(100, "test parameter", 300, 200)` fails with the Russian interval message "[min:300; max:200]." |
| CheckProperties.FromIntervalOutsideCase | Mt.Utilities/Check.cs:121-124 | `FromInterval(300, "test parameter", 100, 200)` fails with the out-of-interval message for 300, 100 and 200 |
| CheckProperties.FromIntervalWidestCase | Mt.Utilities/Check.cs:116 | the interval from `int.MinValue` to `int.MaxValue` is accepted, because the 64-bit span does not overflow |
| CheckProperties.DegenerateOrInvertedIntervalRejected | Mt.Utilities/Check.cs:116-118 | an interval with `max <= min` is rejected with the interval message whatever the value and name, and one with `min == max` is rejected even for the value equal to both |
| StringExtensions.ToLower | src/Mt.Utilities/Extensions/StringExtensions.cs:63 | 'А'..'Я' map to the letter 0x20 above ('а'..'я'), 'Ё' maps to 'ё', and every other character is unchanged |
| StringExtensions.IsUpper | src/Mt.Utilities/Extensions/StringExtensions.cs:70 | `char.IsUpper` on the characters the lookup reaches: a character is upper-case exactly when `ToLower` changes it, and then its lower-case form is a table key |
| StringExtensions.ToUpper | src/Mt.Utilities/Extensions/StringExtensions.cs:70 | upper-casing keeps the length, turns each small Latin letter into its own capital (0x20 below) and leaves other characters alone |
| StringExtensions.AlphabetKeys | src/Mt.Utilities/Extensions/StringExtensions.cs:13-48 | a character is a key of the table exactly when it is one of the 33 small Russian letters |
| StringExtensions.AlphabetEntries | src/Mt.Utilities/Extensions/StringExtensions.cs:15-47 | every entry has at most three characters, all small Latin letters |
| StringExtensions.Image | src/Mt.Utilities/Extensions/StringExtensions.cs:63-71 | one character's output has at most three characters, is the character itself when its lower-case form is not a key, and contains no character that would be transliterated again |
| StringExtensions.Transliterate | src/Mt.Utilities/Extensions/StringExtensions.cs:60-74 | the output is at most three times as long as the input and contains no character that would be transliterated again |
| StringExtensions.Ru2Eng | src/Mt.Utilities/Extensions/StringExtensions.cs:56-75 | a null input fails with `NullArg("str", "Checked parameter is null.")`; otherwise the loop's output is the concatenation of the per-character images |
| StringExtensionsProperties.TransliterateEmpty | src/Mt.Utilities/Extensions/StringExtensions.cs:60-74 | the empty string maps to the empty string |
| StringExtensionsProperties.TransliterateConcat | src/Mt.Utilities/Extensions/StringExtensions.cs:60-74 | transliterating `a + b` gives the transliteration of `a` followed by that of `b` |
| StringExtensionsProperties.TransliterateSingle | src/Mt.Utilities/Extensions/StringExtensions.cs:61-72 | a one-character string maps to that character's image |
| StringExtensionsProperties.UntouchedUnchanged | src/Mt.Utilities/Extensions/StringExtensions.cs:63-66 | a string of characters without table entries is returned unchanged |
| StringExtensionsProperties.UntouchedIffNotCyrillic | src/Mt.Utilities/Extensions/StringExtensions.cs:63-66 | a character is copied unchanged exactly when it is not a Russian letter |
| StringExtensionsProperties.NonCyrillicUnchanged | src/Mt.Utilities/Extensions/StringExtensions.cs:63-66 | text without Russian letters is returned unchanged |
| StringExtensionsProperties.NoCyrillicInOutput | src/Mt.Utilities/Extensions/StringExtensions.cs:13-48 | no Russian letter appears in the output |
| StringExtensionsProperties.TransliterateIdempotent | src/Mt.Utilities/Extensions/StringExtensions.cs:60-74 | transliterating the output again changes nothing |
| StringExtensionsProperties.LowerCyrillicImage | src/Mt.Utilities/Extensions/StringExtensions.cs:70 | a small Russian letter becomes exactly its table entry |
| StringExtensionsProperties.UpperCyrillicImage | src/Mt.Utilities/Extensions/StringExtensions.cs:70 | a capital Russian letter becomes the upper-cased table entry of its small form |
| StringExtensionsProperties.ImageExamples | src/Mt.Utilities/Extensions/StringExtensions.cs:21-41 | 'щ' gives "shh", 'ц' "cz", 'ё' "yo", 'Ж' "ZH", 'Щ' "SHH", and 'Q' and '7' are copied |
| StringExtensionsProperties.SignsVanish | src/Mt.Utilities/Extensions/StringExtensions.cs:42-44 | 'ъ', 'ь' and their capitals produce no output |
| StringExtensionsProperties.SignAddsNothing | src/Mt.Utilities/Extensions/StringExtensions.cs:42-44 | appending a hard or soft sign leaves the output unchanged, so the output can be shorter than the input |
| MtExceptions.Create | src/Mt.Utilities/Exceptions/MtException.cs:16-20 | the code and inner exception are stored as given, the title is the code's title, and the description is the message when it has text and the code's description otherwise |
| MtExceptions.CreateWithMessage | src/Mt.Utilities/Exceptions/MtException.cs:27-30 | the two-argument constructor equals the general one with no inner exception |
| MtExceptions.CreateFromCode | src/Mt.Utilities/Exceptions/MtException.cs:36-39 | the code-only constructor has no inner exception and the code's description |
| MtExceptions.CodeIsStored | src/Mt.Utilities/Exceptions/MtException.cs:44 | the `Code` property (the `code` field, assigned at MtException.cs:19) holds the constructor's code, whichever constructor is used |
| MtExceptions.DescriptionHasText | src/Mt.Utilities/Exceptions/MtException.cs:17 | the description is never blank when the code's own description is not |
| MtExceptions.InnerDoesNotAffectText | src/Mt.Utilities/Exceptions/MtException.cs:17 | the inner exception changes neither the title nor the description |

## Left out

- `ErrorCode.Title()`, `ErrorCode.Desc()` and `MtBaseException` are not part of this model. `MtExceptions.Catalog` takes the two lookups as given functions over an abstract code type.
- The .NET exception hierarchy is left out, for example that an `ArgumentNullException` is also an `ArgumentException`. Only the " (Parameter '<name>')" suffix of its `Message` is modelled, in `Checked.Text`.
- `NotEmpty<T>` takes a finite `seq<T>`. Lazy or single-use `IEnumerable` sources and the side effects of enumerating them in `Any()` are not modelled.
- `NotZero` is generic over a type with equality and a given `zero` for `default(T)`. Floating-point equality (`-0.0`, NaN) and the individual `struct` types are not modelled.
- `ToLower` and `IsUpper` follow `char.ToLower` and `char.IsUpper` only where the table lookup observes them. `ToUpper` upper-cases ASCII only, which is the culture-invariant result on the table's entries. Culture-specific casing, such as Turkish dotted 'İ', is left out.
- `Decimal.IntToString` writes integers with the invariant culture's '-' sign. C# interpolation of an `int` uses the current culture's negative sign, which some cultures write as U+2212. The interval messages for negative bounds or values follow the invariant culture.
- A Dafny `char` is a Unicode scalar value, not a UTF-16 code unit. A character outside the BMP is one `char` here and two in C#. It is copied unchanged either way.
- The interval test cases at `int.MinValue` and `int.MaxValue` are stated only as the accepted case (`FromIntervalWidestCase`). The ten-digit messages are not spelled out.
- Concurrency and thread safety are left out. Nothing here shares state.

## Findings

| source | as written | input that shows it | evidently intended | confidence | as-written member | corrected member |
|---|---|---|---|---|---|---|
| Mt.Utilities/Check.cs:99 | `message ?? default` keeps an empty or white-space custom message | `NotZero(0, "test parameter", " ")` fails with the message " " | use the default text unless the message has text, as the other guards do at Check.cs:27 and :33 and as test/Mt.Utilities.Test/CheckTest.cs:196-198 expects | not executed; medium | CheckProperties.NotZeroKeepsBlankMessage | Check.NotZeroIntended |
