# Contact-enquiry validation of the cv-website portfolio

This project models the contact page of a personal portfolio site, written in React. The page has two parts:

- **`ContactForm`** holds a draft of eight text inputs. Each keystroke goes through `handleChange`. On submit, `validateForm` checks every field and returns a map from field name to message. The form stores that map, and it hands the draft to its parent only when the map is empty. The four field predicates are:
  - `checkEmails`: the confirmation matches the address, ignoring case and surrounding white space.
  - `checkDate`: the start date is at least one calendar day ahead.
  - `isValidEmail`: a loose `local@domain.tld` regular expression.
  - `isValidPhone`: a UK number after all white space is removed.
- **`ContactSection`** keeps two state variables: `show` (the summary dialog is open) and `data` (the last accepted enquiry). A valid submit stores the enquiry and opens the dialog. Closing the dialog hides it and keeps the enquiry.

The modules:

- `Text`: JavaScript's `trim`, ASCII `toLowerCase`, and `replace(/\s+/g, "")`. White space is the ECMAScript WhiteSpace and LineTerminator set, which `trim` and `\s` share.
- `Enquiry`: the eight `Field`s, the `Draft` record and its one-field update, and the `Clock` the date rule reads.
- `Rules`: the four field predicates. Each regular expression is written out as a predicate on strings. The browser's own date arithmetic is modelled alongside the date rule (see Findings).
- `Validation`: `validateForm`, as one branch per field. The result is a `map<Field, string>`.
- `Form`: class `ContactForm`, with fields `form` and `errors` and the two handlers.
- `Section`: class `ContactSection`, with fields `show` and `data`, its handlers, and the lines of the summary dialog.
- `Scenarios`: a draft typed in and submitted, the dialog closed, the confirmation changed, and the form submitted again. It is proved for any acceptable draft, and for the sample enquiry "Karim / a@b.com / A@B.com / 07123456789".

The model follows the code. The one exception is the date rule: the validation uses the calendar-day rule the code evidently intends, and the browser's own computation is modelled beside it (see Findings and "Left out"). Three behaviours of the code the model keeps:

- **Untrimmed fields.** The preferred-contact choice and the start date are tested for emptiness untrimmed (`!formData.preferredContact`). The other six inputs are trimmed first.
- **Closing the dialog keeps the enquiry.** Both close handlers, the dialog's `onHide` and the Close button, run `setShow(false)`; neither touches `data`.
- **Plain strings.** All eight draft values are the strings the inputs hold. The contact choice is "", "email" or "phone"; the date is a date-input string.

## Model

| member | source | states |
|---|---|---|
| Text.TrimBounds | src/components/ContactForm.jsx:35 | `Trim(s)` is exactly the slice `s[i..j]` between a white-space prefix `s[..i]` and a white-space suffix `s[j..]`, with non-space ends when non-empty |
| Text.Trim | src/components/ContactForm.jsx:35 | `trim()` result is no longer than its input and is empty or has non-space characters at both ends |
| Text.TrimIsCore | src/components/ContactForm.jsx:35 | any sub-string flanked by white space with non-space ends is exactly the trimmed value |
| Text.TrimIgnoresMargins | src/components/ContactForm.jsx:35 | white space added around a string does not change its trimmed value |
| Text.IsBlank | src/components/ContactForm.jsx:76 | definition: `!s.trim()`, the string is empty once trimmed; characterised by `Text.BlankIffAllSpace` and `Text.VisibleStartNotBlank` |
| Text.VisibleStartNotBlank | src/components/ContactForm.jsx:76 | a string whose first character is not white space is not blank |
| Text.TrimKeepsVisibleEnds | src/components/ContactForm.jsx:35 | a string with non-space characters at both ends is its own trim |
| Text.BlankIffAllSpace | src/components/ContactForm.jsx:76 | `!s.trim()` holds exactly when every character of `s` is white space |
| Text.LowerChar | src/components/ContactForm.jsx:35 | no capital letter survives lower-casing, letters stay letters, nothing else becomes one, only capitals change, and each capital becomes the small letter at the same place in the alphabet |
| Text.ToLower | src/components/ContactForm.jsx:35 | lower-casing keeps the length and maps each character through ASCII case folding |
| Text.ToLowerIdempotent | src/components/ContactForm.jsx:35 | lower-casing a lower-cased string changes nothing |
| Text.TrimToLower | src/components/ContactForm.jsx:35 | trimming and lower-casing commute |
| Text.StripSpaces | src/components/ContactForm.jsx:63 | the result has no white space, is no longer than the input, and uses only the input's characters |
| Text.StripSpacesConcat | src/components/ContactForm.jsx:63 | removing white space distributes over concatenation, so the other characters keep their order |
| Text.StripSpacesNoSpace | src/components/ContactForm.jsx:63 | a string without white space is unchanged |
| Text.StripSpacesAllSpace | src/components/ContactForm.jsx:63 | a string of white space disappears entirely |
| Enquiry.Draft.With | src/components/ContactForm.jsx:131 | `{ ...prev, [name]: value }` sets the named input to `value` and keeps the other seven |
| Enquiry.WithLaws | src/components/ContactForm.jsx:131 | writing back a field's own value changes nothing; a second write to a field supersedes the first |
| Rules.CheckEmails | src/components/ContactForm.jsx:34-36 | definition: the two addresses are equal once each is trimmed and lower-cased; characterised by `Rules.CheckEmailsEquivalence`, `Rules.CheckEmailsIgnoresCase` and `Rules.CheckEmailsIgnoresMargins` |
| Rules.CheckEmailsEquivalence | src/components/ContactForm.jsx:34-36 | `checkEmails` is reflexive, symmetric and transitive |
| Rules.CheckEmailsIgnoresCase | src/components/ContactForm.jsx:34-36 | `checkEmails(a, b)` holds exactly when the trimmed lower-cased strings are equal, and whenever `a` and `b` differ only in case |
| Rules.CheckEmailsIgnoresMargins | src/components/ContactForm.jsx:34-36 | white space around either address never changes the outcome |
| Rules.CheckDate | src/components/ContactForm.jsx:39-50 | definition: false for the empty string and for a string that names no day, otherwise whether the named day is at least one day after today; characterised by `Rules.CheckDateDays` and `Rules.CheckDateEarlierToday`, and tied to the browser's computation by `Rules.BrowserAgreesEast` |
| Rules.CheckDateDays | src/components/ContactForm.jsx:39-50 | empty and unparseable dates are rejected; otherwise the date is accepted exactly when its day is after today, so today and past days fail and tomorrow passes |
| Rules.CheckDateEarlierToday | src/components/ContactForm.jsx:39-50 | a date accepted today is still accepted on any earlier day |
| Rules.LocalMidnight | src/components/ContactForm.jsx:45-46 | definition: `setHours(0, 0, 0, 0)`, the instant of local midnight of the local day containing an instant, at a constant UTC offset |
| Rules.CheckDateInBrowser | src/components/ContactForm.jsx:41-49 | definition: the date check as the browser runs it, the selected date read as UTC midnight, both instants moved to local midnight, and their difference in days compared with 1; characterised by `Rules.BrowserCompares`, `Rules.BrowserAgreesEast` and `Rules.BrowserRejectsTomorrowWest` |
| Rules.UtcMidnightLocalDay | src/components/ContactForm.jsx:41-45 | the local day of a date string's UTC midnight is the named day at or east of Greenwich and the day before west of it |
| Rules.BrowserCompares | src/components/ContactForm.jsx:41-49 | the browser's millisecond difference compares the two local day numbers, with the chosen day moved back one west of Greenwich |
| Rules.BrowserAgreesEast | src/components/ContactForm.jsx:39-50 | at or east of Greenwich the browser's check equals the calendar-day rule |
| Rules.BrowserRejectsTomorrowWest | src/components/ContactForm.jsx:39-50 | at every negative UTC offset, tomorrow satisfies the calendar-day rule but the browser's check rejects it |
| Rules.EmailPattern | src/components/ContactForm.jsx:54 | definition: the language of `/^[^\s@]+@[^\s@]+\.[^\s@]+$/`, an '@' and a later '.' splitting the string into three non-empty parts free of white space and '@'; `Rules.IsValidEmail` is proved equal to it |
| Rules.FirstAt | src/components/ContactForm.jsx:54 | the index of the first '@', or the length when there is none |
| Rules.IsValidEmail | src/components/ContactForm.jsx:52-56 | accepted exactly when the address is `L@D.T` with `L`, `D`, `T` non-empty and free of white space and '@' |
| Rules.ValidEmailHasNoSpace | src/components/ContactForm.jsx:52-56 | an accepted address has no white space, at least five characters and exactly one '@' |
| Rules.AddressFromParts | src/components/ContactForm.jsx:52-56 | every `local@domain.tld` built from clean non-empty parts is accepted |
| Rules.IsUkNumber | src/components/ContactForm.jsx:64 | definition: the language of `/^(?:\+44|0|0044)\d{9,10}$/`, one of the three prefixes followed by 9 or 10 digits and nothing else; characterised by `Rules.UkNumberShape` and `Rules.UkNumberNotZero` |
| Rules.IsValidPhone | src/components/ContactForm.jsx:62-66 | definition: white space removed, then the UK pattern; characterised by `Rules.PhoneIgnoresSpaces`, `Rules.PhoneWithoutSpaces`, `Rules.PrefixedNumberAccepted` and `Rules.ForeignCodeRejected` |
| Rules.UkNumberShape | src/components/ContactForm.jsx:64 | the UK pattern, character by character: '+44' then 9 or 10 digits, or an all-digit '0…' number of 10 or 11 characters, or a '0044…' number of 13 or 14 |
| Rules.PhoneIgnoresSpaces | src/components/ContactForm.jsx:62-66 | white space inserted anywhere in a number does not change the outcome |
| Rules.PhoneWithoutSpaces | src/components/ContactForm.jsx:62-66 | a number typed without white space is checked against the pattern as it is |
| Rules.PrefixedNumberAccepted | src/components/ContactForm.jsx:62-66 | each of '+44', '0' and '0044' followed by 9 or 10 digits is accepted |
| Rules.DocumentedPhonesAccepted | src/components/ContactForm.jsx:58-61 | 07123456789, +447123456789 and 00447123456789 are accepted |
| Rules.UkNumberNotZero | src/components/ContactForm.jsx:64 | an accepted number that does not start with '0' starts with '+44' |
| Rules.ShortPhoneRejected | src/components/ContactForm.jsx:62-66 | a six-digit number is rejected |
| Rules.ForeignCodeRejected | src/components/ContactForm.jsx:62-66 | any number starting with '+' and a country code not beginning with 4 is rejected |
| Rules.ForeignPhoneRejected | src/components/ContactForm.jsx:62-66 | "+1 212 555 0100" is rejected |
| Validation.Prompt | src/components/ContactForm.jsx:76-120 | definition: the message each field gets when it is left empty, the eight strings of the source; `Validation.EmptyFieldGetsPrompt` shows they are given exactly to empty fields |
| Validation.IsEmptyInput | src/components/ContactForm.jsx:76-119 | definition: the emptiness test of each branch, trimmed for six inputs and untrimmed for the contact choice and the date; used by `Validation.EmptyFieldGetsPrompt` and `Validation.EmptyDraftAllEmpty` |
| Validation.FieldError | src/components/ContactForm.jsx:75-121 | definition: one field's `if`/`else if` branch, the message it assigns or none; characterised by `Validation.FieldErrorIffRuleFails`, `Validation.EmptyFieldGetsPrompt`, `Validation.ConfirmOnlyCompares` and `Validation.FieldsIndependent` |
| Validation.FieldRule | src/components/ContactForm.jsx:75-121 | definition: the rule a field must satisfy, stated on the raw values; `Validation.FieldErrorIffRuleFails` ties it to the branches |
| Validation.Record | src/components/ContactForm.jsx:76-121 | one branch's assignment `e.f = msg`: adds or overwrites only key `f`, and only when the branch fires |
| Enquiry.FieldOrderCovers | src/components/ContactForm.jsx:75-121 | the branches visit all eight fields, so the set of fields is exactly those listed |
| Validation.RunBranches | src/components/ContactForm.jsx:73-123 | after the branches for a list of fields, a field has a message exactly when it is in the list and its branch fires, and the message is that branch's |
| Validation.ValidateForm | src/components/ContactForm.jsx:72-124 | a field is a key of the result exactly when its branch fires, with that branch's message; no branch is skipped because an earlier one fired |
| Validation.ValidEmailNotBlank | src/components/ContactForm.jsx:86-90 | a well-formed address is never blank, so the rule for the address field (`FieldRule`) can state the format test alone without a separate blank test |
| Validation.ValidPhoneNotBlank | src/components/ContactForm.jsx:100-104 | a well-formed number is never blank |
| Validation.FieldErrorIffRuleFails | src/components/ContactForm.jsx:75-121 | a field gets a message exactly when its rule on the raw values fails |
| Validation.ErrorsAreFailedRules | src/components/ContactForm.jsx:72-124 | the keys of the result are exactly the fields whose rule fails |
| Validation.ValidIffAllRulesPass | src/components/ContactForm.jsx:68-124 | the result is empty exactly when all eight rules pass |
| Validation.EmptyFieldGetsPrompt | src/components/ContactForm.jsx:72-121 | an empty field gets its "please enter/confirm/choose/select" prompt, and a field gets its prompt only when it is empty |
| Validation.EmptyDraftAllEmpty | src/components/ContactForm.jsx:17-26 | every input of the initial state counts as empty |
| Validation.InitialDraftErrors | src/components/ContactForm.jsx:17-26 | the initial draft gets all eight prompts and nothing else |
| Validation.PaddedEmailGetsFormatMessage | src/components/ContactForm.jsx:86-90 | a non-blank address with white space at either end gets the format message |
| Validation.ConfirmOnlyCompares | src/components/ContactForm.jsx:92-97 | once the confirmation is filled in, it is reported exactly when `checkEmails` fails, always with the mismatch message, whether or not the address is well formed |
| Validation.MalformedTwiceReportedOnce | src/components/ContactForm.jsx:85-97 | a malformed address typed twice gets the format message and no confirmation message |
| Validation.FieldsIndependent | src/components/ContactForm.jsx:75-121 | editing one field never changes another field's outcome, except that the address feeds the confirmation check |
| Form.ContactForm.constructor | src/components/ContactForm.jsx:17-29 | every input starts empty and no message is stored |
| Form.ContactForm.HandleChange | src/components/ContactForm.jsx:128-132 | the named input takes the value; the other seven inputs and the stored messages are unchanged |
| Form.ContactForm.HandleSubmit | src/components/ContactForm.jsx:134-143 | the stored messages become `validateForm` of the draft, and the draft is handed on exactly when there are none, which is exactly when all rules pass |
| Section.ContactSection.constructor | src/components/ContactSection.jsx:19-20 | the dialog starts closed and no enquiry is held |
| Section.ContactSection.HandleValidSubmit | src/components/ContactSection.jsx:23-26 | the submitted enquiry replaces any earlier one and the dialog opens |
| Section.ContactSection.CloseSummary | src/components/ContactSection.jsx:74-97 | `onHide` and the Close button close the dialog and keep the enquiry |
| Section.ContactSection.Submit | src/components/ContactSection.jsx:68 | a successful submit opens the dialog on exactly the draft; a failed one leaves the dialog and the stored enquiry as they were |
| Section.Label | src/components/ContactSection.jsx:84-91 | definition: the label of each field's line in the summary; used by `Section.ContactSection.SummaryRows` |
| Section.ContactSection.SummaryRows | src/components/ContactSection.jsx:79-93 | the dialog always shows the recipient, and shows the eight labelled fields of the stored enquiry only when one is held; an open dialog always shows all nine lines |
| Scenarios.SampleEmailValid | src/components/ContactForm.jsx:52-56 | "a@b.com" is accepted |
| Scenarios.SampleConfirmMatches | src/components/ContactForm.jsx:34-36 | "A@B.com" confirms "a@b.com" |
| Scenarios.DifferentConfirmMismatches | src/components/ContactForm.jsx:34-36 | "different@b.com" does not confirm "a@b.com" |
| Scenarios.NoErrorsFromRules | src/components/ContactForm.jsx:68-124 | a draft that passes the eight rules one by one gets no message |
| Scenarios.SampleDraftValid | src/components/ContactForm.jsx:72-124 | the sample enquiry with tomorrow's date gets no message |
| Scenarios.OnlyConfirmFails | src/components/ContactForm.jsx:92-97 | an accepted draft whose confirmation becomes a non-matching address gets the mismatch message alone |
| Scenarios.FillIn | src/components/ContactForm.jsx:128-132 | eight `handleChange` calls turn the empty draft into any given draft |
| Scenarios.VisitorSession | src/components/ContactSection.jsx:23-26 | submit an acceptable draft, close the dialog, break the confirmation and submit again: one mismatch message, the dialog closed, the first enquiry still held |
| Scenarios.SampleSession | src/components/ContactForm.jsx:134-143 | the same session for the sample enquiry and "different@b.com" |

## Left out

- JSX rendering, the react-bootstrap components and the info card. They are presentation only. The summary's content is modelled as `SummaryRows`.
- React's `useState` re-rendering and the closures of the handlers. The `setForm`, `setErrors`, `setShow` and `setData` updates are modelled as field assignments on the two classes. `e.preventDefault()` is left out.
- JavaScript `Date` parsing. The calendar day a date string names, and today's day, are a `Clock` parameter (`dayOf`, `today`). Daylight-saving changes between the two days are not modelled; the UTC offset is one constant.
- Validation.FieldError: its date branch uses the calendar-day rule `CheckDate` on day numbers. The browser's UTC reading of the date string and its local `setHours` appear only in `CheckDateInBrowser`, which the validation does not call, so the model does not reproduce the west-of-Greenwich rejection of tomorrow (see Findings).
- Unicode case folding: `toLowerCase` is modelled on ASCII letters only. White space is the exact ECMAScript set.
- Inputs other than the eight: `handleChange` takes a `Field`, because only the eight inputs call it.
- Header.jsx (scroll listener, `scrollIntoView`), Portfolio.jsx, AboutMe.jsx, Home.jsx, Footer.jsx and App.jsx: DOM plumbing and static content with no logic.

## Findings

| source | as written | input that shows it | evidently intended | confidence | as-written member | corrected member |
|---|---|---|---|---|---|---|
| src/components/ContactForm.jsx:41-49 | `new Date("YYYY-MM-DD")` parses a date-only string as midnight UTC. `setHours(0, 0, 0, 0)` then moves to midnight of the local day containing that instant, which is the previous day anywhere west of Greenwich. | Any day at UTC-4 (New York in summer): choosing tomorrow's date is rejected with "Start date must be at least one day in the future." | The chosen calendar day is compared with today's calendar day; tomorrow is accepted everywhere. | not executed | Rules.BrowserRejectsTomorrowWest | Rules.CheckDateDays |
