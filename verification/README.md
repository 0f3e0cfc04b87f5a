# Giveaway entry form — a Dafny model

This project models the entry form of the Soul Calibre LLC giveaway page
(`src/App.tsx`). The form has four fields: the email address, the PHCorner
name, the chosen product and the reason. It also has three UI flags:
`submitted`, `formError` and `isLoading`. All of the page's logic lives in two
places, and the model covers both:

- **The validation pass of the submit handler.** Five checks run in a fixed
  order and the first failure decides the message. The email, name and reason
  are tested for emptiness after trimming. The product is tested for plain
  emptiness. The email format is tested last, with the anchored regular
  expression `^[^\s@]+@[^\s@]+\.[^\s@]+$`. Trimming is only a test: an accepted
  entry carries the values exactly as typed.
- **The form as a state machine.** Each handler is one atomic transition over
  a `FormState` record: a field's change handler, the submit handler, the
  resolution of the simulated delay, its (unreachable) rejection, and the
  "Submit Another Entry" button. The 1500 ms delay becomes two events,
  `BeginSubmit` and `CompleteSubmit`. The `disabled={isLoading}` attributes
  and the two-view rendering (`submitted ? thank-you : form`) become guards. A
  handler whose control is disabled or not on screen leaves the state
  unchanged.

Files and modules:

- `text.dfy`, module `Text`: `IsWs`, the whitespace of ECMA-262 (the
  WhiteSpace and LineTerminator productions, sections 12.2 and 12.3). It is
  shared by `String.prototype.trim` and the regular-expression class `\s`. The
  module also defines `IsBlank` and `NoWs`, and `Trim` through the lengths of
  its two blank margins.
- `email_pattern.dfy`, module `EmailPattern`: the regular expression read as
  "there exist two split points" (`RegexMatches`). It also gives a closed form
  that needs no search (`EmailShape`): no whitespace, exactly one `@`, a
  non-empty part before it, and a `.` after it that is neither the first nor
  the last character of that part. `RegexIffShape` proves that the two agree.
- `validation.dfy`, module `Validation`: the product list, the messages, and
  `Validate`. `Validate` is proved equal to `Expected`, a reference pass stated
  with `IsBlank` and `RegexMatches` instead of `Trim` and the closed form.
- `form.dfy`, module `Form`: the state, the events, the handlers, `Step` and
  `Run`. It also holds the reachable-state invariant `Inv` and the lemmas about
  event sequences.

The submit handler tests the product only for emptiness (`!product`,
src/App.tsx:36). What keeps the value in range is the select's options
(src/App.tsx:170-175). So `Validate` accepts any non-empty product, and the
restriction sits in the product edit (`Form.EditField`), where `Form.Inv`
carries it.

## Model

| member | source | states |
|---|---|---|
| Text.IsWs | src/App.tsx:26-47 | the characters `.trim()` strips and `\s` matches; neither `@` nor `.` is one of them |
| Text.IsWsMatchesTables | src/App.tsx:26-47 | those characters are exactly the WhiteSpace and LineTerminator code points of ECMA-262 |
| Text.Trim | src/App.tsx:26-44 | `.trim()` is the part of the text between a blank leading margin and a blank trailing margin; it is empty exactly when the text is blank (every character WhiteSpace or LineTerminator); otherwise it starts and ends with a non-whitespace character; text without whitespace is left as it is |
| Text.LeadingWs | src/App.tsx:26 | the leading margin `.trim()` removes: the longest blank prefix, followed by a non-whitespace character or by the end of the text |
| Text.TrailingWs | src/App.tsx:26 | the trailing margin `.trim()` removes: the longest blank suffix, preceded by a non-whitespace character or by the start of the text |
| Text.TrimIdempotent | src/App.tsx:26 | trimming trimmed text changes nothing |
| EmailPattern.RegexMatches | src/App.tsx:47 | the anchored pattern matches when the text splits into three non-empty runs without whitespace or `@`, joined by `@` and `.`; a match has at least five characters and neither starts nor ends with `@` |
| EmailPattern.EmailShape | src/App.tsx:47 | the closed form; a text of that form has at least five characters and starts with a non-whitespace character |
| EmailPattern.RegexIffShape | src/App.tsx:47 | the regular expression matches exactly when the text has no whitespace, exactly one `@`, a non-empty part before it, and an inner `.` in the part after it |
| EmailPattern.MatchHasShape | src/App.tsx:47 | any split that matches the regular expression yields the closed form, the split's `@` being the only one |
| EmailPattern.ShapeHasMatch | src/App.tsx:47 | the closed form yields a split that matches: at the `@` and at the inner `.` |
| EmailPattern.EmailRegexTest | src/App.tsx:47-48 | `emailRegex.test(email)`, computed without search, is true exactly when some split matches the regular expression |
| EmailPattern.MatchIsNotBlank | src/App.tsx:26-48 | any email the regular expression accepts also passes the trimmed-emptiness test and is its own trim |
| Validation.IsOption | src/App.tsx:170-175 | the values the product select can hold are those of its options: the placeholder `""` or one of the four offerings |
| Validation.ProductsWellFormed | src/App.tsx:4-9 | the select offers exactly four distinct offerings, none of them the empty placeholder |
| Validation.Message | src/App.tsx:27-67 | every problem the form reports shows a non-empty banner |
| Validation.MessageInjective | src/App.tsx:27-67 | distinct problems show distinct messages |
| Validation.Validate | src/App.tsx:26-51 | the trim-and-closed-form chain gives the same verdict as the reference pass over blankness and the regular expression's match, first failure in source order |
| Validation.FirstFailureWins | src/App.tsx:26-44 | each missing-field message appears exactly when every earlier check passed and its own check fails |
| Validation.AcceptedExactly | src/App.tsx:41-51 | with every field present the format decides; an accepted entry is the four values as typed; the submission-failure message is never a validation verdict |
| Validation.BlankEmailWins | src/App.tsx:26-29 | a blank email gives the missing-email message whatever the other fields hold |
| Validation.ProductCheckIsEmptiness | src/App.tsx:36-39 | any non-empty product passes its check, offered or not; the empty one fails it exactly when email and name passed |
| Validation.FormatCheckedLast | src/App.tsx:41-51 | a malformed email with a blank reason reports the reason; with a present reason it reports the format |
| Validation.AcceptedValuesUntrimmed | src/App.tsx:26-51 | an accepted email is its own trim; the accepted name and reason are the untrimmed values |
| Validation.AllChecksPass | src/App.tsx:26-51 | an entry that passes every check is accepted unchanged |
| Validation.NotAnEmailExample | src/App.tsx:41-51 | `"not-an-email"` with valid other fields gives the malformed-email message; with a blank reason, the reason message |
| Validation.WellFormedEntryExample | src/App.tsx:26-51 | `"user@example.com"`, `"tester"`, any offering and `"because"` are accepted unchanged |
| Validation.PaddedNameKept | src/App.tsx:31-51 | the same entry with the name padded by spaces is accepted, and the name is kept padded |
| Form.Editable | src/App.tsx:92-201 | the guard of `disabled={isLoading}` and of the `submitted ?` view switch: the form's controls respond only while the form is on screen and no submission is in flight |
| Form.EditableIffResponsive | src/App.tsx:92-201 | some value typed into the email field changes the state exactly when the form is editable |
| Form.EditField | src/App.tsx:133-190 | a change handler sets its own field and changes nothing else, banner included; while loading or in the thank-you view it does nothing; the select only delivers its options |
| Form.Submit | src/App.tsx:22-55 | a rejected entry shows its message and changes nothing else; an accepted one clears the banner and locks the form; fields are never rewritten; a disabled or hidden submit does nothing |
| Form.Complete | src/App.tsx:57-71 | when the delay resolves the thank-you view replaces the form and the lock is released, fields and banner untouched |
| Form.FailSubmission | src/App.tsx:66-71 | the `catch` branch shows the generic message, releases the lock and keeps the form on screen |
| Form.Reset | src/App.tsx:97-103 | "Submit Another Entry" empties the four fields, returns to the form, and leaves the banner and lock untouched |
| Form.Step | src/App.tsx:22-201 | one handler per event: only the delay's resolution enters the thank-you view and only "Submit Another Entry" leaves it; only edits and that button change the fields; only the submit handler takes the lock |
| Form.Logged | src/App.tsx:62 | the entry `console.log` receives: one is logged whenever an event moves the page into the thank-you view, and only when the delay resolves and releases the lock into that view; a logged entry is the one that view holds |
| Form.Run | src/App.tsx:22-201 | a sequence of events in order; without edits or resets the fields stay as they were, and without a reset a thank-you view stays |
| Form.InitInv | src/App.tsx:13-19 | the initial state satisfies the invariant |
| Form.StepInv | src/App.tsx:13-103 | every event keeps the invariant: never locked and thanked at once, product one of the options, while locked or thanked the fields form an accepted entry with no banner, the banner one of the form's messages |
| Form.RunInv | src/App.tsx:13-103 | every sequence of events keeps the invariant |
| Form.ReachableInv | src/App.tsx:13-103 | every state reachable from page load satisfies the invariant |
| Form.LoggedIsAccepted | src/App.tsx:62 | the entry handed to the log is one the validator accepted, every value exactly as typed |
| Form.LoadingLock | src/App.tsx:133-201 | while a submission is in flight, edits and submits leave the state unchanged |
| Form.RejectedSubmitOnlySetsError | src/App.tsx:26-51 | a failed submit changes only the banner |
| Form.SubmitIdempotent | src/App.tsx:22-55 | submitting twice in a row has the effect of submitting once |
| Form.SubmitThenComplete | src/App.tsx:53-71 | an accepted submit followed by the delay ends in the thank-you view with no banner and the fields untouched, and logs exactly those fields |
| Form.ResetReturnsToInit | src/App.tsx:97-103 | in any reachable thank-you view, "Submit Another Entry" restores the page-load state |
| Form.EditsCommute | src/App.tsx:133-190 | edits of different fields commute |
| Form.LastEditWins | src/App.tsx:133-190 | of two edits of one field, the last wins, even when the first was an ignored product value |
| Form.FillIn | src/App.tsx:133-190 | typing the sample entry into the fresh page yields exactly those four values with no flag changed |
| Form.HappyPath | src/App.tsx:53-71 | typing a valid entry, submitting and waiting reaches the thank-you view with no banner and logs the entry typed |

## Left out

- Rendering: the JSX markup, CSS classes, the background image, the button's
  spinner and label (src/App.tsx:74-224). They are presentation only.
- The 1500 ms `setTimeout`. It is replaced by the `BeginSubmit` and
  `CompleteSubmit` events; nothing about time is modelled.
- `console.log` and `console.error`. They are output. The logged entry is
  modelled as `Form.Logged`; the error object of `console.error` is not.
- React closures and state batching. Each handler is one atomic transition
  over the state record. The values the submit handler closes over are
  therefore the current fields; the fields cannot change while loading.
- The `catch` branch is unreachable in the page, because the delay never
  rejects. It is kept as the optional `FailSubmit` event.
- The browser-side `required` and `type="email"` checks. They belong to the
  browser, not to the page's code, and they run before `onSubmit`. The
  browser also sanitizes the values it reports: a `type="email"` input
  strips line breaks and leading and trailing ASCII whitespace, the name's
  `type="text"` input strips line breaks, and the `<textarea>` reports CR and
  CRLF as LF. So `Edit(Email, v)`, `Edit(Name, v)` and `Edit(Reason, v)`
  accept values the page never receives; the model allows strictly more
  inputs than the page sees, and no proved property depends on them.
- Form.EditField: a product value outside the select's options is ignored. The
  page never receives one, because a `<select>` only reports the value of one
  of its options.
- Strings are sequences of Unicode scalar values. JavaScript strings are
  UTF-16 code units. Every whitespace character is in the Basic Multilingual
  Plane, and neither half of a surrogate pair is whitespace or `@`. So trimming
  and the regular expression agree on every string both can represent. Lone
  surrogates cannot be represented.
- `vite.config.ts` is build and dev-server configuration with no behaviour.
