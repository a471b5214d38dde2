# Feedback form: validator and submission state, modelled in Dafny

This project models the citizen feedback form of a public-services web
site (`src/components/FeedbackForm.tsx`). The form collects six text
values: name, email, phone, category, subject and message. Its validator
turns them into a map from failing field to error. Two event handlers
drive the form's state:

- a keystroke edits one field;
- pressing "send" validates the form and then either shows a red notice
  or sends the data and shows the result.

The project has five modules:

- `Chars` (`chars.dfy`): the JavaScript string operations the validator
  uses.
  - The ECMAScript whitespace set, which `trim` and the regex class `\s`
    share.
  - `trim`, written with index-based scans.
  - `replace(/\s+/g, '')` as `StripWhitespace`.
  - `.length` as a count of UTF-16 code units.
- `Patterns` (`patterns.dfy`): the two regular expressions, written by hand.
  - Email: the regex's language (`EmailShape`: three runs glued by "@"
    and ".") is proved equal to a direct scanner (`EmailMatches`).
  - Phone: a list of single-character atoms, each required or optional.
    The regex meaning (`Matches`, which backtracks over optional atoms)
    is proved equal to a one-pass greedy matcher (`MatchGreedy`) for
    every pattern where no optional atom can clash with what follows it.
    The phone pattern is proved to be such a pattern.
- `Validation` (`validation.dfy`): the form data, the rules and `Validate`
  (`validateForm` without its state update).
  - A per-field verdict lemma says exactly when each field fails and with
    which kind of error.
- `Form` (`form.dfy`): the component as a class.
  - It holds `formData`, `errors`, `isSubmitting` and the notifications
    shown so far.
  - The class invariant: every error on display is the validator's
    current verdict for that field.
  - `handleSubmit` waits on a timer, which splits it into two events:
    - `BeginSubmit`: validate, then either show a notice or raise the
      sending flag;
    - `FinishSubmit(outcome)`: the sending step's result comes in as a
      parameter.
  - `Submit` runs both back to back. `PressSubmit` is a press of the
    button, which is disabled while sending.
- `Examples` (`examples.dfy`): concrete inputs and end-to-end scenarios.
  - The example names, emails, phones and subjects the form's behaviour
    is explained with, each proved about `Validate` itself.
  - Typing a passing form and sending it.
  - Sending the untouched form.
  - Sending a form without a category.

Error messages are represented by their kind (`Required`, `TooShort`,
`BadFormat`). In the source, the field and the kind together fix the text.
Notifications are represented by their variant and a tag naming which of
the three fixed title/description pairs was shown.

Points where the code's behaviour may be surprising:

- The category is only tested for being non-empty. It is not checked
  against the six offered values (`CategoryNotCheckedAgainstList`).
- The category is tested as entered, without trimming.
- The email regex is applied to the untrimmed value, so a leading space
  fails the format test (`PaddedEmailRejected`).
- The phone regex is applied after all whitespace is removed, so the `\s`
  inside its separator classes can never match anything.
- Length minimums count UTF-16 code units of the trimmed value.
- The sending step in the source always succeeds. The failure path exists
  only as the `catch` branch, and the model reaches it through the
  `Failed` outcome.
- Edits typed while a submission is in flight stay in `formData`. A
  successful finish then discards them together with everything else,
  because it resets the form to empty.

## Model

| member | source | states |
|---|---|---|
| Chars.IsWhitespace | src/components/FeedbackForm.tsx:68 | the ECMAScript WhiteSpace and LineTerminator code points, the set both `trim` and `\s` use; what this means for trimming and stripping is stated by `TrimSlice`, `TrimEmptyIff` and `StripEmptyIff` |
| Chars.Trim | src/components/FeedbackForm.tsx:54 | `.trim()`; its meaning is stated by `TrimSlice` (exact shape of the result), `TrimEmptyIff` and `TrimIdempotent` |
| Chars.StripWhitespace | src/components/FeedbackForm.tsx:68 | `.replace(/\s+/g, '')`: the result is no longer than the input and holds no whitespace; `StripConcat`, `StripIgnoresWhitespace`, `StripKeepsClean` and `StripEmptyIff` state the rest |
| Chars.TrimSlice | src/components/FeedbackForm.tsx:54-56 | `trim` keeps one contiguous piece whose first and last characters are not whitespace, and everything cut off on either side is whitespace |
| Chars.TrimEmptyIff | src/components/FeedbackForm.tsx:54 | `!value.trim()` holds exactly when every character is whitespace (or there are none) |
| Chars.TrimIdempotent | src/components/FeedbackForm.tsx:54-56 | trimming an already trimmed value changes nothing |
| Chars.StripConcat | src/components/FeedbackForm.tsx:68 | removing whitespace from a concatenation is removing it from each part |
| Chars.StripIgnoresWhitespace | src/components/FeedbackForm.tsx:68 | a whitespace character inserted anywhere in a phone number makes no difference after stripping |
| Chars.StripKeepsClean | src/components/FeedbackForm.tsx:68 | stripping keeps every non-whitespace character in order: a whitespace-free value is unchanged |
| Chars.StripIdempotent | src/components/FeedbackForm.tsx:68 | stripping twice is stripping once |
| Chars.StripEmptyIff | src/components/FeedbackForm.tsx:66-68 | the stripped phone is empty exactly when the raw phone is all whitespace, which the emptiness rule catches first |
| Chars.Utf16Length | src/components/FeedbackForm.tsx:56 | `.length` lies between the character count and twice it, and is 0 only for the empty string |
| Chars.Utf16LengthBmp | src/components/FeedbackForm.tsx:56 | for text in the Basic Multilingual Plane `.length` is the character count |
| Patterns.EmailMatches | src/components/FeedbackForm.tsx:62 | the email regex test on the untrimmed value; `EmailMatchesIffShape` proves it accepts exactly the regex's language |
| Patterns.PhoneMatches | src/components/FeedbackForm.tsx:68 | the phone regex test on the whitespace-free value; `PhoneMatchesIffRegex` proves it equal to regex membership, `PhoneHasElevenDigits` bounds what it accepts |
| Patterns.EmailMatchesIffShape | src/components/FeedbackForm.tsx:62 | the scanner accepts exactly the strings of the form run "@" run "." run, each run non-empty and free of whitespace and "@" |
| Patterns.GreedyIsExact | src/components/FeedbackForm.tsx:68 | for a pattern whose optional atoms never clash with what can follow them, one greedy pass decides the backtracking regex semantics exactly (both directions) |
| Patterns.PhonePatternDeterministic | src/components/FeedbackForm.tsx:68 | the phone regex is such a pattern: each optional atom is disjoint from every class that can come next |
| Patterns.PhoneMatchesIffRegex | src/components/FeedbackForm.tsx:68 | the phone test accepts a raw value exactly when its whitespace-free form is in the regex's language |
| Patterns.MatchDigitCount | src/components/FeedbackForm.tsx:68 | when no optional atom takes a digit, every match holds exactly as many digits as the pattern has required digit atoms |
| Patterns.PhoneHasElevenDigits | src/components/FeedbackForm.tsx:68 | every accepted phone number holds exactly eleven digits once whitespace is removed |
| Validation.FormData.Set | src/components/FeedbackForm.tsx:137 | the spread update gives the edited field the new value and keeps the other five |
| Validation.LengthRule | src/components/FeedbackForm.tsx:54-58 | the if / else-if of the name, subject and message fields; `LengthRuleMeaning` states when it gives "required" and when "too short" |
| Validation.FormatRule | src/components/FeedbackForm.tsx:60-64 | the if / else-if of the email and phone fields; `EmailRuleMeaning` and `PhoneRuleMeaning` state when it gives "required" and when "bad format" |
| Validation.Validate | src/components/FeedbackForm.tsx:51-90 | `validateForm`'s error map; what it holds is stated field by field by `NameVerdict`, `EmailVerdict`, `PhoneVerdict`, `CategoryVerdict`, `SubjectVerdict`, `MessageVerdict`, and as a whole by `ValidIffAllRulesHold` and `RequiredTakesPrecedence` |
| Validation.IsValid | src/components/FeedbackForm.tsx:89 | `Object.keys(newErrors).length === 0`; `ValidIffAllRulesHold` states when it holds |
| Validation.LengthRuleMeaning | src/components/FeedbackForm.tsx:54-58 | a length rule gives "required" exactly on blank text, fails exactly when the trimmed `.length` is under the minimum, and never gives a format error |
| Validation.EmailRuleMeaning | src/components/FeedbackForm.tsx:60-64 | the email rule gives "required" exactly on blank text and fails exactly outside the regex language |
| Validation.PhoneRuleMeaning | src/components/FeedbackForm.tsx:66-70 | the phone rule gives "required" exactly on blank text and fails exactly when the stripped value is outside the regex language |
| Validation.NameVerdict | src/components/FeedbackForm.tsx:54-58 | name has an error exactly when its trimmed `.length` is under 2; the error is "required" when blank, else "too short" |
| Validation.EmailVerdict | src/components/FeedbackForm.tsx:60-64 | email has an error exactly outside the regex language; "required" when blank, else "bad format" |
| Validation.PhoneVerdict | src/components/FeedbackForm.tsx:66-70 | phone has an error exactly when its whitespace-free form misses the regex; "required" when blank, else "bad format" |
| Validation.CategoryVerdict | src/components/FeedbackForm.tsx:72-74 | category has an error, always "required", exactly when it is the empty string |
| Validation.SubjectVerdict | src/components/FeedbackForm.tsx:76-80 | subject has an error exactly when its trimmed `.length` is under 5; "required" when blank, else "too short" |
| Validation.MessageVerdict | src/components/FeedbackForm.tsx:82-86 | message has an error exactly when its trimmed `.length` is under 10; "required" when blank, else "too short" |
| Validation.RequiredTakesPrecedence | src/components/FeedbackForm.tsx:54-86 | a blank field always gets "required" and only a blank field does; a non-blank failing field gets its second rule's kind |
| Validation.ValidIffAllRulesHold | src/components/FeedbackForm.tsx:51-90 | the form passes (no key in the error map) exactly when all six fields satisfy their rules |
| Validation.EmptyFormAllRequired | src/components/FeedbackForm.tsx:32-39 | the form as first shown fails all six fields with "required" |
| Validation.VerdictIsLocal | src/components/FeedbackForm.tsx:51-90 | each field's verdict depends on that field's value only: editing another field changes neither its presence nor its kind |
| Validation.CategoryNotCheckedAgainstList | src/components/FeedbackForm.tsx:72-74 | a category value outside the offered list passes |
| Form.EditKeepsErrorsAgreeing | src/components/FeedbackForm.tsx:136-141 | editing one field and removing that field's error keeps every remaining error current |
| Form.EditWithoutClearingCanDisagree | src/components/FeedbackForm.tsx:138-140 | without the clearing step a shown error can go stale (choosing a category leaves a wrong "required") |
| Form.CheckLength | src/components/FeedbackForm.tsx:54-58 | the if / else-if of a length-checked field adds exactly the entry the length rule gives |
| Form.CheckFormat | src/components/FeedbackForm.tsx:60-70 | the if / else-if of a pattern-checked field adds exactly the entry the format rule gives |
| Form.FeedbackForm.constructor | src/components/FeedbackForm.tsx:31-40 | a new form has six empty fields, no errors, is not sending and has shown nothing |
| Form.FeedbackForm.ValidateForm | src/components/FeedbackForm.tsx:51-90 | the error map is replaced wholesale by the validator's verdict, and the result says whether it is empty |
| Form.FeedbackForm.InputChange | src/components/FeedbackForm.tsx:136-141 | exactly one field takes the new value, only that field's error is removed, and the invariant is kept |
| Form.FeedbackForm.BeginSubmit | src/components/FeedbackForm.tsx:92-104 | validation replaces the errors; an invalid form adds one red "validation failed" notice and leaves the flag alone; a valid one raises the flag and shows nothing |
| Form.FeedbackForm.FinishSubmit | src/components/FeedbackForm.tsx:106-133 | success adds a "sent" notice and empties fields and errors; failure adds a red "send failed" notice and keeps data and errors; the flag always drops |
| Form.FeedbackForm.Submit | src/components/FeedbackForm.tsx:92-134 | the three ways a submission ends: rejected by validation, sent, or failed, with the data, errors, flag and notices of each |
| Form.FeedbackForm.PressSubmit | src/components/FeedbackForm.tsx:297 | while sending, a press changes nothing; otherwise it is the start of a submission |
| Examples.OneLetterNameTooShort | src/components/FeedbackForm.tsx:56-57 | name "A" is too short |
| Examples.PaddedNameTooShort | src/components/FeedbackForm.tsx:56-57 | name " A " is too short, because it is trimmed before counting |
| Examples.TwoLetterNameAccepted | src/components/FeedbackForm.tsx:54-58 | name "Al" passes |
| Examples.BlankNameRequired | src/components/FeedbackForm.tsx:54-55 | a name of spaces is "required", not "too short" |
| Examples.EmailWithoutDotRejected | src/components/FeedbackForm.tsx:62-63 | email "a@b" is badly formed |
| Examples.PlainEmailMatches | src/components/FeedbackForm.tsx:62 | the email scanner accepts "user@example.com" |
| Examples.PlainEmailAccepted | src/components/FeedbackForm.tsx:60-64 | email "user@example.com" passes |
| Examples.PaddedEmailRejected | src/components/FeedbackForm.tsx:62-63 | email " a@b.c" is badly formed, because the format test sees the untrimmed value |
| Examples.StripTwoSpaces | src/components/FeedbackForm.tsx:68 | removing the whitespace from two whitespace-free pieces joined by single spaces glues the pieces |
| Examples.PlusFormGreedy | src/components/FeedbackForm.tsx:68 | the greedy pass accepts "+7912345-67-89" |
| Examples.ParenFormGreedy | src/components/FeedbackForm.tsx:68 | the greedy pass accepts "8(912)345-67-89" |
| Examples.PlusFormMatches | src/components/FeedbackForm.tsx:68 | the phone test accepts "+7 912 345-67-89" |
| Examples.ParenFormMatches | src/components/FeedbackForm.tsx:68 | the phone test accepts "8 (912) 345-67-89" |
| Examples.FormattedPhonesAccepted | src/components/FeedbackForm.tsx:66-70 | both phone spellings above pass validation |
| Examples.ShortPhoneRejected | src/components/FeedbackForm.tsx:68-69 | phone "123" is badly formed |
| Examples.ShortSubjectRejected | src/components/FeedbackForm.tsx:78-79 | subject "Hi" is too short |
| Examples.SubjectAccepted | src/components/FeedbackForm.tsx:76-80 | subject "Hi there" passes |
| Examples.MessageAccepted | src/components/FeedbackForm.tsx:82-86 | message "Please call me back" passes |
| Examples.SampleIsValid | src/components/FeedbackForm.tsx:51-90 | a fully filled sample form produces an empty error map |
| Examples.SubmitUntouchedForm | src/components/FeedbackForm.tsx:92-102 | sending the untouched form flags all six fields as required, shows one red notice and sends nothing |
| Examples.Fill | src/components/FeedbackForm.tsx:136-141 | typing six values into a fresh form yields exactly those values and no errors |
| Examples.SendPassing | src/components/FeedbackForm.tsx:104-133 | a passing form is sent, a second press meanwhile is ignored, and success leaves one notice and an empty form |
| Examples.FillAndSend | src/components/FeedbackForm.tsx:92-134 | typing any passing form and sending it ends with a single "sent" notice and the form empty again |
| Examples.SubmitWithoutCategory | src/components/FeedbackForm.tsx:72-74 | a form without a category gets a "required" category error and one red notice, and nothing is sent |
| Examples.SendSample | src/components/FeedbackForm.tsx:92-134 | the sample form goes through |

## Left out

- Validation.Validate: carries no contract of its own. What it returns is stated field by field in the verdict lemmas and as a whole in `ValidIffAllRulesHold`, because a single contract over all six fields is too costly for the solver.
- Rendering: the markup, labels, icons, placeholders and the red borders keyed on `errors` are not modelled.
- Message texts: the Russian error messages and notification texts are not modelled. Each is identified by field and error kind, or by notice tag.
- Notification library: the library that displays notifications is not part of this model. Notifications are appended to a log instead.
- Timer and async: the 1.5-second timer and the `async`/`await` machinery are replaced by the split into `BeginSubmit` and `FinishSubmit`, with the outcome passed in.
- `preventDefault`: the call has no state to model.
- React state: updates are applied immediately, one event at a time. Batching and updater-function queues are not modelled, and neither are stale closures between events. Inside one event the source reads and writes the same state the model does.
- Regular expressions: both are written out by hand for the two patterns in the source. No general JavaScript regex engine is modelled.
- Lone surrogates: Dafny characters are Unicode scalar values, so strings holding lone surrogates cannot be represented. `.length` is the UTF-16 length of the represented text.
- Form.FeedbackForm.InputChange: clearing an error removes the key, where the source stores `undefined` under it (:139). Nothing in the source counts or lists the keys of `errors`; it only tests `errors[field]` for truthiness, so the two are indistinguishable.
- Page that hosts the form: it contains no logic and is not part of this model.
