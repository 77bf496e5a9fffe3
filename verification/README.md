# Password-update form validation, modelled in Dafny

This project models the client-side validator of a password-update form
(`script.js`). The form has two password inputs ("new password" and "confirm
password"), an error slot under each, a "show password" checkbox and a submit
button.

- **`validateNewPassword`** trims the new password. It then applies six rules
  in a fixed order: required, at least 8 code units, an ASCII uppercase
  letter, an ASCII lowercase letter, an ASCII digit, and a code unit outside
  `[A-Za-z0-9]`. The first rule that fails decides the one message written into
  the slot. The function returns true exactly when no rule failed.
- **`validateConfirmPassword`** trims both values. It reports a missing
  confirmation first, then a confirmation that differs from the trimmed new
  password. It never looks at the complexity rules.
- **The submit handler** always suppresses navigation and always runs both
  validators, with no short-circuit. It accepts exactly when both pass. On
  acceptance it alerts the user and resets the form. Otherwise it logs a
  diagnostic.
- **The checkbox handler** sets both inputs to `text` when checked and to
  `password` otherwise.

Files:

- `text.dfy` (module `Text`) holds ECMAScript string values as sequences of
  UTF-16 code units (`CodeUnit`). It also holds the whitespace set of
  `String.prototype.trim` and `Trim` itself, with its slice, idempotence and
  uniqueness lemmas. `Utf16` encodes a Dafny `string` as a JavaScript string
  value, so scenarios can be written as text.
- `rules.dfy` (module `PasswordRules`) holds the two validators as pure
  functions of the field values. `CheckNewPassword` is built on the rule chain
  `FirstFailingRule` and the message table `RuleMessage`. Each rule also has an
  independent meaning, `Satisfies`, stated with quantifiers; the lemmas connect
  the chain to it. `Test` models `RegExp.prototype.test` for a one-class pattern.
- `form.dfy` (module `PasswordForm`) holds the page as a value: the field
  values, the input types and the two error slots. The two validators, the
  submit handler and the checkbox handler are functions from one page state to
  the next.

The regexes have no `i` or `u` flag, so they compare raw UTF-16 code units:
letters and digits outside ASCII count as special characters, and so does each
half of a surrogate pair. `.length` counts code units, so six characters of
which three lie outside the Basic Multilingual Plane already meet the length
rule (`ScenarioSurrogatePairs`).

The model follows `script.js` on the value `"Password1"`. It has no code
unit outside `[A-Za-z0-9]`, so `validateNewPassword` rejects it with the
special-character message. A reading in which "Password1" passes every
complexity rule does not match the code (`ScenarioNoSpecial`,
`ScenarioMismatch`).

## Model

| member | source | states |
|---|---|---|
| `Text.Trim` | script.js:14 | the trimmed value has no whitespace at either end, is no longer than the input, and is empty exactly when the input is all whitespace |
| `Text.TrimIsSlice` | script.js:14 | the trimmed value is one contiguous slice of the input, and everything cut away on either side is whitespace |
| `Text.TrimOfTrimmed` | script.js:14 | a value with no whitespace at its ends is left unchanged by trimming |
| `Text.TrimIdempotent` | script.js:14 | trimming twice is the same as trimming once |
| `Text.TrimUnique` | script.js:53-54 | any slice with whitespace only outside it and none at its own ends equals the trimmed value, so `Trim` is determined by its contract |
| `Text.Utf16OfBmp` | script.js:22 | for text inside the Basic Multilingual Plane the string value has one code unit per character, so `.length` counts characters there |
| `PasswordRules.Test` | script.js:26-38 | a one-class regex test is true exactly when some code unit of the value is in the class |
| `PasswordRules.RuleMessagesDistinct` | script.js:19-39 | every rule message is non-empty and no two rules share a message |
| `PasswordRules.FirstFailingRule` | script.js:18-40 | the chain yields no rule exactly when the trimmed value satisfies all six rules; otherwise it yields the first violated rule in the order |
| `PasswordRules.CheckNewPassword` | script.js:13-46 | the result is true exactly when the message is empty, and exactly when the trimmed value satisfies every rule |
| `PasswordRules.FirstViolatedRuleWins` | script.js:18-40 | the message is rule k's message if and only if rule k is the first rule in the order that the trimmed value violates |
| `PasswordRules.EmptyNewPasswordIsRequired` | script.js:14-19 | an all-whitespace new password gets "New Password is required." and false |
| `PasswordRules.ShortNewPasswordIsTooShort` | script.js:22-23 | a trimmed value of 1 to 7 code units gets the length message and false, whatever it contains |
| `PasswordRules.UppercaseReportedBeforeDigit` | script.js:26-36 | a long enough value lacking both an uppercase letter and a digit is told only about the uppercase letter |
| `PasswordRules.NewPasswordAcceptance` | script.js:26-45 | true if and only if the trimmed value has at least 8 code units and contains an ASCII uppercase letter, an ASCII lowercase letter, an ASCII digit and a code unit outside all three |
| `PasswordRules.CheckNewPasswordSeesTrimmedValue` | script.js:14 | checking the trimmed value gives the same result as checking the raw value |
| `PasswordRules.CheckConfirmPassword` | script.js:52-73 | true exactly when the message is empty, and exactly when the trimmed confirmation is non-empty and equal to the trimmed new password; "required" exactly for a blank confirmation; "do not match" exactly for a non-blank, different one |
| `PasswordRules.CheckConfirmPasswordSeesTrimmedValues` | script.js:53-54 | checking the trimmed values gives the same result as checking the raw values |
| `PasswordRules.ConfirmIgnoresComplexity` | script.js:62-72 | any non-blank value confirms itself, whether or not it meets the complexity rules |
| `PasswordRules.ScenarioStrongPassword` | script.js:18-45 | "Abc123!@" is already trimmed and passes with an empty message |
| `PasswordRules.ScenarioNoSpecial` | script.js:37-40 | "Password1" fails only the special-character rule and gets that message |
| `PasswordRules.ScenarioNonAsciiUppercase` | script.js:26-27 | a value whose only capital letter is outside ASCII fails the uppercase rule |
| `PasswordRules.ScenarioNonAsciiSpecial` | script.js:37-45 | a letter outside ASCII counts as the special character, so the value passes |
| `PasswordRules.ScenarioSurrogatePairs` | script.js:22-40 | a six-character value with three surrogate pairs is nine code units long and passes every rule |
| `PasswordRules.ScenarioPaddedPassword` | script.js:53-66 | blanks around "Abc123!@" are trimmed before the rules and the comparison, so both checks pass |
| `PasswordForm.ValidateNewPassword` | script.js:13-46 | only the new-password error slot changes; it is empty exactly when the result is true, which is exactly when the trimmed value satisfies every rule |
| `PasswordForm.ValidateConfirmPassword` | script.js:52-73 | only the confirmation error slot changes; it is empty exactly when the result is true, which is exactly when the trimmed values are equal and non-empty |
| `PasswordForm.ValidatorsOverwriteSlots` | script.js:43-70 | the text a validator writes depends on the field values only, never on what the slot held before |
| `PasswordForm.ValidatorsIdempotent` | script.js:43-70 | running a validator again on the same values changes nothing |
| `PasswordForm.Reset` | script.js:90 | both field values become empty and nothing else changes |
| `PasswordForm.Submit` | script.js:82-94 | navigation is always suppressed; both slots are refreshed from both checks; acceptance is exactly both validators passing; acceptance empties the fields and alerts, blocking keeps the values and logs; input types never change |
| `PasswordForm.SubmitAcceptance` | script.js:85-88 | a submit is accepted exactly when the trimmed new password satisfies every rule and the trimmed confirmation equals it |
| `PasswordForm.AcceptedSubmitLeavesCleanForm` | script.js:88-90 | after an accepted submit both fields are empty and both error slots are clear |
| `PasswordForm.BlockedSubmitShowsError` | script.js:88-93 | a blocked submit leaves at least one error slot non-empty |
| `PasswordForm.TypeFor` | script.js:77 | the selected input type is plain text exactly when the box is checked |
| `PasswordForm.ToggleVisibility` | script.js:76-80 | both inputs get the same type, plain text exactly when checked, and nothing else changes |
| `PasswordForm.ToggleLastWins` | script.js:76-80 | the inputs mirror the latest checkbox state, whatever came before |
| `PasswordForm.ToggleRoundTrip` | script.js:76-80 | checking and then unchecking the box restores a masked form |
| `PasswordForm.ToggleIndependentOfSubmit` | script.js:76-94 | the checkbox never changes what a submit decides or writes |
| `PasswordForm.ScenarioAccepted` | script.js:82-90 | "Abc123!@" in both fields is accepted, the success alert is chosen and both fields are emptied |
| `PasswordForm.ScenarioPaddedAccepted` | script.js:82-90 | a new password padded with blanks still matches its unpadded confirmation and is accepted |
| `PasswordForm.ScenarioTooShort` | script.js:82-93 | "abc" in both fields is blocked with the length message, a clear confirmation slot and the values kept |
| `PasswordForm.ScenarioMismatch` | script.js:82-93 | "Password1" against "Password2" is blocked, with the special-character message and "Passwords do not match." |

## Left out

- The DOM lookups (script.js:1-6) are replaced by the `Form` value and plain parameters.
- Event registration (script.js:76, 82) is left out. The two handlers are the functions `ToggleVisibility` and `Submit`.
- `event.preventDefault()` (script.js:83) is only the flag `defaultPrevented`, which is always true.
- `alert` and `console.log` (script.js:89, 92) are only the returned `Notice`. Its `Text()` gives the fixed string, and nothing is displayed or written.
- Reset: `form.reset()` (script.js:90) is modelled as emptying both password fields. The page markup is not part of this model, so default values other than empty are not modelled. The checkbox's own reset is not modelled either, because the checkbox state is an event parameter here and not part of `Form`.
- Text.IsWhitespace: the Unicode "Zs" category is fixed as of Unicode 15. A later Unicode version that adds space separators is not followed.
- Lone surrogates cannot appear in a Dafny `string`, so `Utf16` produces only well-formed UTF-16. `CodeUnit` sequences themselves may hold lone surrogates, and every rule is stated over them.
