# User registration form: age gate and RFC check

A model of the logic inside the registration form component
(`src/app/user-form/user-form.component.ts`) of a client-side sign-up form.
The form asks adults for their RFC, a Mexican taxpayer identifier. It checks
the typed RFC against one it derives from the names and the birth date. The
derivation is a simplified approximation of the RFC, not the tax authority's
algorithm. The model has three parts:

- **Age gate** (`checkAge`). The age is the difference of the years, minus
  one while this year's birthday is still ahead. The gate `showRFC` is open
  when that age is at least 18. `AgeGate.Age` is the specification.
  `UserForm.CheckAge` recomputes it with `checkAge`'s local variable that is
  decremented in place. `UserForm.SetBirthDate` models the subscription that
  re-runs the gate whenever the birth-date control changes.
- **RFC derivation** (`generateRFC`), written as pure functions in module
  `Rfc`. The letter block is the father's initial, the first vowel of the
  father's surname (`[AEIOUaeiou]`, possibly the initial itself, possibly
  none), the mother's initial and the first name's initial, upper-cased.
  The date block is the last two characters of the year, the 1-based month
  padded to two digits, and the day **plus one** padded to two digits. The
  day is not wrapped, so the 31st gives "32". The suffix is the literal
  `"xxx"`. The JavaScript built-ins it uses (`toUpperCase`, `slice(-2)`,
  `slice(0, -3)`, `padStart`, `toString`) are modelled in module
  `JsStrings`, including their behaviour on short strings. An empty name
  is interpolated as JavaScript does it: `s[0]` is `undefined`, which
  becomes the text "UNDEFINED" after upper-casing.
- **Submit validator** (`onSubmit`). `UserFormComponent.Submit` is the
  specification of the transition on `showRFC`, `submitted` and `rfcError`.
  `UserForm.OnSubmit` is the imperative handler with its early return.
  Both identifiers lose their last three characters before comparison. With
  the gate open and the two differing, the error is
  `"RFC does not match. Expected: "` followed by the truncated expected value,
  and `submitted` is left as it was. Otherwise the error is cleared and
  `submitted` is set.

Dates are given by their components, as `getFullYear()`, `getMonth()`
(0 for January) and `getDate()` return them. Today's date is a parameter
and is not read from a clock.

For Ana Lopez Garcia, born 10 May 2000, the identifier is
"LOGA000511xxx"; the third letter is the mother's initial
(`Rfc.ExampleAnaLopezGarcia`). The identifier is not of fixed length: it
has 12 characters when the father's surname has no vowel, and the date
block is shorter for years below 10.

## Model

| member | source | states |
|---|---|---|
| `JsStrings.ToUpperCase` | src/app/user-form/user-form.component.ts:68 | upper-casing keeps the length and maps each character by `UpperChar` (ASCII letters only) |
| `JsStrings.ToUpperCaseConcat` | src/app/user-form/user-form.component.ts:68 | upper-casing a template result is upper-casing each interpolated part |
| `JsStrings.ToUpperCaseIdempotent` | src/app/user-form/user-form.component.ts:68 | upper-casing an upper-cased string changes nothing |
| `JsStrings.UpperChar` | src/app/user-form/user-form.component.ts:68 | a lower-case ASCII letter becomes its capital, any other character is unchanged, and no result is lower-case |
| `JsStrings.SliceLast` | src/app/user-form/user-form.component.ts:70 | `slice(-k)` is the suffix of length k, or the whole string when it is shorter |
| `JsStrings.SliceDropLast` | src/app/user-form/user-form.component.ts:84-85 | `slice(0, -k)` is the prefix that is k shorter, or empty when the string has at most k characters |
| `JsStrings.SliceDropLastAppend` | src/app/user-form/user-form.component.ts:84-85 | dropping the last k characters ignores what those k characters were |
| `JsStrings.PadStart` | src/app/user-form/user-form.component.ts:71-72 | `padStart(n, c)` has length max(n, length), ends with the input and is filled with c before it |
| `JsStrings.NatToString` | src/app/user-form/user-form.component.ts:70-72 | `toString()` of a non-negative number is a non-empty digit string with no leading zero, one character exactly below 10 |
| `JsStrings.IntToStringReadBack` | src/app/user-form/user-form.component.ts:70-72 | `toString()` of any integer reads back as it: digits alone for a non-negative one, a minus sign followed by the digits of its magnitude for a negative one |
| `JsStrings.ParseNatToString` | src/app/user-form/user-form.component.ts:70-72 | reading the decimal digits of n back gives n (round trip) |
| `JsStrings.NatToStringBelow100` | src/app/user-form/user-form.component.ts:71-72 | a number below 100 is written with at most two digits |
| `JsStrings.LastTwoDigits` | src/app/user-form/user-form.component.ts:70 | for a year of at least 10, `slice(-2)` gives two digits whose value is the year modulo 100 |
| `JsStrings.PadTwoDigits` | src/app/user-form/user-form.component.ts:71-72 | a number below 100 padded to two with '0' is two digits that read back as that number |
| `AgeGate.AgeCompletedYears` | src/app/user-form/user-form.component.ts:49-56 | the computed age is the number of birth anniversaries reached: the one `age` years on is not after today, the next one is |
| `AgeGate.AnniversaryOrder` | src/app/user-form/user-form.component.ts:49-56 | reaching a later anniversary means every earlier one was reached |
| `AgeGate.AgeUnique` | src/app/user-form/user-form.component.ts:49-56 | the anniversary count is the only number with that property, so it is an independent definition of the age |
| `AgeGate.IsAdultIff` | src/app/user-form/user-form.component.ts:57 | the gate is open if and only if today is on or after the eighteenth anniversary of the birth date |
| `AgeGate.AgeMonotone` | src/app/user-form/user-form.component.ts:49-56 | a later birth date never gives a larger age |
| `AgeGate.EighteenthBirthday` | src/app/user-form/user-form.component.ts:49-57 | born exactly 18 years before today (same month and day): age 18, gate open |
| `AgeGate.DayBeforeEighteenthBirthday` | src/app/user-form/user-form.component.ts:49-57 | same year and month but one day later: age 17, gate closed |
| `Rfc.FirstCharUpper` | src/app/user-form/user-form.component.ts:68 | an interpolated initial, after `toUpperCase()`, is the upper-cased first character, or "UNDEFINED" for an empty name |
| `Rfc.LetterPartEmptyFatherSurname` | src/app/user-form/user-form.component.ts:66-68 | with an empty father's surname the letter block is "UNDEFINED" followed by the other two upper-cased initials; no vowel is found |
| `Rfc.FirstVowel` | src/app/user-form/user-form.component.ts:66 | the result is empty exactly when the string has no vowel of either case; otherwise it is the single character at the earliest vowel position |
| `Rfc.UpperVowel` | src/app/user-form/user-form.component.ts:66-68 | an upper-cased vowel of `[AEIOUaeiou]` is one of "AEIOU" |
| `Rfc.LetterPartBlocks` | src/app/user-form/user-form.component.ts:66-68 | with non-empty names the letter block is the upper-cased father's initial, upper-cased first vowel, mother's initial and first-name initial |
| `Rfc.FirstVowelUpper` | src/app/user-form/user-form.component.ts:66-68 | a vowel that is found appears as a single capital vowel in the letter block |
| `Rfc.LetterPartShape` | src/app/user-form/user-form.component.ts:66-68 | the letter block has 4 characters with a capital vowel second when the father's surname has a vowel, and 3 when it has none; it starts with the father's initial and ends with the mother's and the first-name initials |
| `Rfc.DatePartDigits` | src/app/user-form/user-form.component.ts:70-73 | for years of at least 10 and months and days in the getter ranges, the date block is 6 digits reading back as year mod 100, month0 + 1 and day + 1 |
| `Rfc.DayThirtyOne` | src/app/user-form/user-form.component.ts:72 | the day digits of the 31st are "32": the increment is not wrapped |
| `Rfc.GenerateRFCSuffix` | src/app/user-form/user-form.component.ts:75-77 | the identifier ends with "xxx", and dropping its last three characters leaves exactly the letter and date blocks |
| `Rfc.GenerateRFCLength` | src/app/user-form/user-form.component.ts:66-77 | with non-empty names, a vowel in the father's surname and a year of at least 10, the identifier has 13 characters |
| `Rfc.ExampleLetters` | src/app/user-form/user-form.component.ts:66-68 | the letters for Ana Lopez Garcia are "LOGA" |
| `Rfc.ExampleDate` | src/app/user-form/user-form.component.ts:70-73 | the date block for 10 May 2000 is "000511" |
| `Rfc.ExampleAnaLopezGarcia` | src/app/user-form/user-form.component.ts:60-77 | the whole identifier for Ana Lopez Garcia, born 10 May 2000, is "LOGA000511xxx" |
| `UserFormComponent.SubmitBlockedIff` | src/app/user-form/user-form.component.ts:87-93 | a submit shows an error if and only if the gate is open and the truncated identifiers differ; a blocked submit keeps `submitted`, an accepted one sets it; the gate is untouched |
| `UserFormComponent.SubmitErrorNamesExpected` | src/app/user-form/user-form.component.ts:84-88 | the error text is the fixed prefix followed by the letter and date blocks of the expected identifier |
| `UserFormComponent.SubmitMinorAlwaysAccepted` | src/app/user-form/user-form.component.ts:87-93 | with the gate closed a submit succeeds whatever the RFC field holds |
| `UserFormComponent.SubmitSuffixBlind` | src/app/user-form/user-form.component.ts:84-87 | two typed identifiers that differ only in their last three characters give the same outcome |
| `UserFormComponent.SubmitAcceptsExpected` | src/app/user-form/user-form.component.ts:84-93 | typing the expected identifier with any three-character suffix (such as "XXX") is accepted |
| `UserFormComponent.SubmitIdempotent` | src/app/user-form/user-form.component.ts:80-95 | submitting a second time on the resulting state changes nothing |
| `UserFormComponent.UserForm.constructor` | src/app/user-form/user-form.component.ts:17-19 | a fresh component has the gate closed, is not submitted and shows no error |
| `UserFormComponent.UserForm.CheckAge` | src/app/user-form/user-form.component.ts:46-58 | after the handler, `showRFC` is whether the age is at least 18; only `showRFC` may change |
| `UserFormComponent.UserForm.SetBirthDate` | src/app/user-form/user-form.component.ts:41-43 | a new birth date is stored and the gate is recomputed from it; nothing else changes |
| `UserFormComponent.UserForm.OnSubmit` | src/app/user-form/user-form.component.ts:80-95 | the new state is `Submit` of the old one: on a mismatch with the gate open, the error names the truncated expected identifier and `submitted` is kept; otherwise the error is cleared and `submitted` is set; only `rfcError` and `submitted` may change |

These definitions only compute; the lemmas above state what they compute:
`Rfc.GenerateRFC` (src/app/user-form/user-form.component.ts:60-78),
`Rfc.LetterPart` (:66-68), `Rfc.FirstChar` (:68), `Rfc.DatePart` (:70-73),
`JsStrings.IntToString` (:70-72), `AgeGate.Age` (:49-56),
`UserFormComponent.Submit` (:80-95) and `JsStrings.ParseDigits`, the
decoding used to read digits back.

## Left out

- Angular plumbing is not modelled: the component decorator, `FormGroup`/`FormControl`, the template and the styles. The form values are one `Profile` field. `Validators.required` is not enforced, because no custom logic depends on it. The lemmas that need non-empty names require them.
- The option lists loaded in `ngOnInit` (lines 36-38) are not modelled. They only copy names out of data modules that are not part of this model.
- `new Date(string)` and `new Date()` are left out. Parsing, time zones and the clock depend on the environment. The model takes date components and today's date as inputs. Any shift of the day caused by parsing "YYYY-MM-DD" as UTC is therefore not modelled. An unparsable date, which yields NaN components, is not modelled either.
- Date components are not checked against the calendar. The age gate compares them as given, for example a 29 February anniversary in a non-leap year.
- `console.log` (lines 76 and 94) is left out. It is output only.
- `toUpperCase` covers ASCII letters only. Other characters are left unchanged, whereas JavaScript also upper-cases letters such as "ñ" and can lengthen "ß".
- PDF export and the club-logo lookup are not part of the file this model covers.
- `JsStrings.SliceLast`, `JsStrings.SliceDropLast`: they require a positive count. `generateRFC` and `onSubmit` only call them with 2 and 3, and the count-zero case of `slice`, which behaves differently, is not modelled.
- Rfc.FirstChar, JsStrings.SliceLast, JsStrings.SliceDropLast, JsStrings.PadStart: strings are indexed by character, not by UTF-16 code unit as JavaScript does. A name that starts with a character outside the Basic Multilingual Plane gives a lone surrogate as its initial in the code but the whole character in the model. A typed RFC holding such a character loses a different number of characters to `slice(0, -3)`, so the comparison at line 87 can come out differently.
