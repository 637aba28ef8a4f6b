# User story to tests: component state model

A Dafny model of the single React component of the "User Story to Tests"
front end (`frontend/src/App.tsx`). The component collects a user story in a
four-field form, sends it to a remote test-generation service, and shows the
returned test cases in a table whose rows expand into numbered step
breakdowns. A side panel pretends to link an issue tracker: it checks three
credential fields, then fabricates a fixed list of five tickets.

With the markup and styles removed, what remains is a small sequential state
machine and a few pure derivations. The model has six modules:

- `Text`: the string functions the component uses. These are
  `String.prototype.trim` with the exact ECMAScript whitespace set, `String(n)`
  for integers with a parse-back, `padStart`, and an ASCII `toLowerCase`.
- `Types`: the request, response, test case, thrown value and credential records.
- `Form`: editing one field, and the required-field guard of the submit handler.
- `Expansion`: the expanded-row set and its toggle.
- `Rendering`: step rows (label, text, test data, expected result), summary
  rows, and the results meta line.
- `App`: one state record with one field per `useState`. Each handler is a
  pure transition. `Step` dispatches user events. A control that is not on
  screen, or is disabled, makes its event a no-op. So does a submit while the
  title or the acceptance criteria is empty: both controls are `required`, and
  the browser's constraint validation cancels the submission before the
  handler runs. `Run` folds a sequence of events.

The generation call is cut out. A valid submit *issues* the call: the request
is an output of the transition. The call's settlement arrives later as an
event carrying either the response or the thrown value. Between the two, any
other event can interleave, as it can in the browser.

The model follows the code. In particular:

- A successful response does not clear the expanded set. The handler only
  calls `setResults`. An id expanded before the response therefore stays
  expanded, and a new case with the same id opens expanded at once
  (`App.SuccessKeepsStaleExpansion`).
- The fallback message `'Failed to generate tests'` is used only when the
  thrown value is not an `Error`. An `Error` with an empty message sets the
  error to the empty string, and then the error banner is hidden.
- The connect check tests for empty strings, not blank ones. Credentials made
  only of spaces connect (`App.ConnectDoesNotTrim`).
- The handler's own required-field message appears only for a title or
  acceptance criteria that is non-empty but whitespace only. An empty one is
  caught earlier by the `required` attribute, and the handler never runs
  (`App.SubmitGate`).
- No stale-response guard exists. A settlement always applies to the current
  state.

## Model

| member | source | states |
|---|---|---|
| Expansion.Toggle | frontend/src/App.tsx:23-31 | the toggled id's membership flips and every other id keeps its membership |
| Expansion.ToggleTwice | frontend/src/App.tsx:23-31 | toggling the same id twice gives back the original set |
| Expansion.TogglesCommute | frontend/src/App.tsx:23-31 | toggles of two ids commute |
| Expansion.ToggleSize | frontend/src/App.tsx:23-31 | a toggle removes exactly one id when present and adds exactly one when absent |
| App.ToggleRow | frontend/src/App.tsx:23-31 | clicking a row flips only that id in the expanded set; no other state changes |
| App.ClickRowTwice | frontend/src/App.tsx:836-845 | clicking a shown row twice returns the whole component state to what it was |
| Form.EditField | frontend/src/App.tsx:33-35 | the named field takes the new value and the other three fields keep theirs |
| Form.EditFieldLastWins | frontend/src/App.tsx:33-35 | of two edits to the same field only the second survives |
| Form.EditFieldSameValue | frontend/src/App.tsx:33-35 | writing back a field's own value leaves the request unchanged |
| Form.EditFieldsCommute | frontend/src/App.tsx:33-35 | edits to different fields do not interfere |
| Form.EditFieldDetermined | frontend/src/App.tsx:33-35 | the edit's contract fixes its result: any request holding the new value in that field and the old values elsewhere is the edited request |
| App.EditForm | frontend/src/App.tsx:33-35 | a form edit changes only that field; results, loading flag, error, tracker and expanded set are untouched |
| Text.LeadingWhitespace | frontend/src/App.tsx:83 | the count of leading characters removed by trim covers only whitespace and stops at the first non-whitespace character |
| Text.TrailingWhitespace | frontend/src/App.tsx:83 | the trailing run removed by trim is all whitespace and is preceded by a non-whitespace character or nothing |
| Text.TrimIsInfix | frontend/src/App.tsx:83 | the trimmed string is the contiguous run of the input that follows its leading whitespace |
| Text.TrimCutsOnlyWhitespace | frontend/src/App.tsx:83 | everything trim removes, before and after the kept run, is whitespace |
| Text.TrimHasNoOuterWhitespace | frontend/src/App.tsx:83 | the trimmed string neither starts nor ends with whitespace |
| Text.Trim | frontend/src/App.tsx:83 | the trimmed string is never longer than the input, and it is empty exactly when every character is whitespace |
| Form.MissingRequiredIffBlank | frontend/src/App.tsx:83 | the submit guard fires exactly when the title or the acceptance criteria is blank; description and additional info play no part |
| App.SubmitStart | frontend/src/App.tsx:80-90 | a blank required field sets exactly the fixed required-field message, issues no call and changes nothing else; otherwise the call is issued with the current form, loading starts, the error is cleared and nothing else changes |
| App.RejectedSubmitIssuesNothing | frontend/src/App.tsx:83-86 | a submit that passes the browser's check but has a whitespace-only title or acceptance criteria sends no request, leaves everything but the error as it was, and shows the required-field message |
| App.SubmitGate | frontend/src/App.tsx:736-795 | a call goes out exactly when nothing is loading and neither required field is blank; while loading, or with either required field empty, a submit changes nothing |
| App.SubmitSuccess | frontend/src/App.tsx:92-98 | the response replaces the results and loading ends; form, error, tracker and expanded set are not modified |
| App.SuccessKeepsStaleExpansion | frontend/src/App.tsx:92-93 | an id expanded before a new response stays expanded, so the new case with that id shows its steps at once |
| App.FailureMessage | frontend/src/App.tsx:95 | an `Error` contributes its message; any other thrown value gives the fallback text |
| App.SubmitFailure | frontend/src/App.tsx:94-98 | the error becomes the message or the fallback, loading ends, and prior results, form, tracker and expanded set stay exactly as they were |
| App.FailureAfterSuccessKeepsResults | frontend/src/App.tsx:91-98 | after a success and then a failure, the successful results are still shown next to the new error, and both calls carried the unchanged form |
| App.ErrorBanner | frontend/src/App.tsx:799-803 | the banner shows the error exactly when there is a non-empty error message |
| App.Step | frontend/src/App.tsx:790-796 | a disabled event changes nothing; only an enabled submit click issues a call, and only when not loading, after which loading holds; only a settlement ends loading |
| App.TrackerControlsGate | frontend/src/App.tsx:657-705 | the connect button acts only while disconnected; disconnect and ticket selection act only while connected, and a selection is a listed ticket or the empty placeholder |
| App.ModalControlsGate | frontend/src/App.tsx:890-970 | with the modal closed, credential edits, Connect and closing change nothing |
| App.RowClickGate | frontend/src/App.tsx:811-845 | a click on a row that is not among the shown results changes nothing |
| App.CallsBalance | frontend/src/App.tsx:790-796 | over any event sequence, calls issued plus the initially outstanding call equal calls settled plus the finally outstanding call |
| App.AtMostOneCallInFlight | frontend/src/App.tsx:790-796 | from the initial state at most one call is ever outstanding, and one is outstanding exactly while loading |
| App.EditCredential | frontend/src/App.tsx:45-47 | a credential edit changes only the named credential |
| App.Connect | frontend/src/App.tsx:49-64 | an empty url, email or token leaves the state unchanged; otherwise the panel is connected, the modal closes, the tickets are exactly the five fabricated ones, and credentials, selection, form, submission state and expanded set are kept |
| App.ConnectDoesNotTrim | frontend/src/App.tsx:51-54 | any three non-empty credentials made only of whitespace pass the connect check |
| App.Disconnect | frontend/src/App.tsx:66-72 | connection flag, tickets, selection and all three credentials are cleared; story id, form, submission state, expanded set and modal flag are kept |
| App.ConnectThenDisconnect | frontend/src/App.tsx:49-72 | connecting then disconnecting leaves no connection, no tickets, no selection and empty credentials, with the form and submission state untouched |
| App.StepKeepsConsistent | frontend/src/App.tsx:49-72 | every event keeps the reachable-state invariant: no error while loading, and the ticket list and selection agree with the connection flag |
| App.RunKeepsConsistent | frontend/src/App.tsx:657-705 | every event sequence keeps that invariant |
| App.InitialConsistent | frontend/src/App.tsx:6-21 | the first-render state satisfies the invariant |
| Text.NatToDecimal | frontend/src/App.tsx:869 | a number's decimal text is a non-empty digit string with no leading zero, one digit long exactly below ten |
| Text.DecimalRoundTrip | frontend/src/App.tsx:869 | reading back a number's decimal text gives the number |
| Text.IntToDecimal | frontend/src/App.tsx:818 | an integer's text has a minus sign exactly when it is negative, followed by digits with no leading zero that read back as its magnitude |
| Text.PadStart | frontend/src/App.tsx:869 | padding reaches the target width, keeps the original as a suffix and fills the rest with the fill character |
| Text.ZeroPadKeepsValue | frontend/src/App.tsx:869 | zero-padding a digit string keeps the number it denotes |
| Rendering.StepLabel | frontend/src/App.tsx:869 | a step label is `S` followed by at least two digits |
| Rendering.StepLabelRoundTrip | frontend/src/App.tsx:869 | the label of 0-based step i reads back as step number i + 1 |
| Rendering.StepLabelsDistinct | frontend/src/App.tsx:869 | different steps get different labels |
| Rendering.StepLabelWidth | frontend/src/App.tsx:869 | labels have two digits up to step 99, and steps 1 to 9 get a leading zero |
| Rendering.TestDataText | frontend/src/App.tsx:871 | the test-data column shows the test data when it is present and non-empty, and `N/A` otherwise |
| Rendering.StepRows | frontend/src/App.tsx:866-877 | one row per step, in order, labelled by its 1-based number, carrying the step text and test data; earlier rows show the placeholder and the last row the case's expected result |
| Rendering.ExpectedResultOnlyOnLastRow | frontend/src/App.tsx:872-874 | when the expected result differs from the placeholder, the last row is the only row showing it |
| Rendering.ThreeStepExample | frontend/src/App.tsx:866-874 | three steps are labelled S01, S02, S03; the first two show the placeholder and the third the expected result |
| Rendering.CategoryClass | frontend/src/App.tsx:849 | the style class is `category-` followed by the category with every ASCII capital lowered |
| Rendering.CategoryClassIgnoresCase | frontend/src/App.tsx:849 | categories differing only in letter case share a style class |
| Text.ToLower | frontend/src/App.tsx:849 | lower-casing keeps the length and lowers each ASCII capital in place |
| Text.ToLowerIdempotent | frontend/src/App.tsx:849 | lower-casing twice equals lower-casing once |
| Rendering.CaseRows | frontend/src/App.tsx:833-883 | one summary row per case, in order, showing its id, title, category text with its style class, and expected result; a row carries the case's step rows exactly when its id is in the expanded set |
| App.ClickRowShowsSteps | frontend/src/App.tsx:855-877 | clicking a collapsed row shows its breakdown with one row per step |
| Rendering.MetaSegments | frontend/src/App.tsx:816-818 | the meta line starts with the case count; it shows the model only for a non-empty model name, and the prompt-plus-completion token sum only when prompt tokens are positive; each piece appears at most once, in that order |
| Rendering.MetaTextStartsWithCount | frontend/src/App.tsx:816 | the meta text opens with the case count in decimal, which reads back as the number of cases; with no model and no positive prompt count, it is only the count sentence |
| Rendering.MetaTextLayout | frontend/src/App.tsx:816-818 | the meta text is the count sentence, then ` • Model: ` and the name for a non-empty model, then ` • Tokens: ` and the prompt-plus-completion sum for a positive prompt count |

## Left out

- The generation call (`generateTests` from `./api`) is remote I/O. Its
  response or thrown value is an input to the settlement events. The `./api`
  and `./types` files are not part of this model.
- Async scheduling, React's batching of `setState` calls, and render-closure
  staleness are left out. Each handler's updates apply together to the latest
  state. The settlement events can happen only while loading, because the
  model has no other outstanding call to settle.
- `alert` and `console.log` are left out. So is `handleFetchFromJira`, which
  only logs and alerts. The fetch click is a no-op, enabled only for a
  non-blank story id.
- The modal is modelled as a boolean flag only. The overlay click and the close
  button both close it, and the `stopPropagation` on the content is not modelled.
- JSX markup, CSS, the submit button's label and the loading indicator are
  left out. Of the styling, only the category style class is kept.
- Rendering.CategoryClass: lower-cases ASCII letters only. JavaScript's
  `toLowerCase` also maps non-ASCII capitals, which would need Unicode case
  tables.
- Text.ToLower: covers ASCII letters only, for the same reason.
- Rendering.MetaSegments: token counts are whole numbers. JavaScript numbers
  may be fractional, and the text of a fractional sum is not modelled.
- `handleJiraCredentialChange` is modelled for the three field names it is
  called with. Arbitrary field names are left out.
