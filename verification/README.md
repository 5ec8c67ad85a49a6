# Spreadsheet upload widget — Dafny model

A model of the browser-side controller of a small upload page (`script.js`).
The user drops or picks a spreadsheet. The controller checks the file's name
and size, keeps it as the current selection, and on submit posts it to a
webhook. It then shows one of three status panels: loading, error or success.

The model has seven modules:

- `Wrappers`: the `Option` type, standing for JavaScript's `null`/`undefined`.
- `Decimal`: how a template literal prints a safe integer, and a parser that
  reads the numeral back. The success message prints the document count.
- `Plural`: `getDocumentWord`, the Russian plural form of "документ". It uses
  JavaScript's truncating `%`, written out explicitly.
- `Validation`: the checks at the top of `handleFileSelect`. The regular
  expression `/\.(xlsx|xls)$/i` is modelled as the search `match` performs.
  It is proved equal to "the ASCII-lowercased name ends in `.xlsx` or
  `.xls`". The 10 MiB size check comes after it.
- `StatusPanels`: the status section and its three panels.
- `Controller`: the page state `Ui` and the transitions `handleFileSelect`,
  `clearFile`, `hideAllStatus`, `showLoading`, `showError`, `showSuccess` and
  `handleSubmit`. The network exchange is an input `Outcome`:
  `TransportFail | HttpNotOk(code) | ParseFail | Parsed(body)`.
- `Events`: the controller driven by an event sequence. `handleSubmit` is
  split into a click (`SubmitClick`, up to the `fetch`) and a later settle
  (`SubmitSettle`). The settle stands for both awaits (script.js:195 and
  206): nothing on the page changes between them. The two `setTimeout`
  callbacks are explicit events that fire once each, at any later point,
  and are never cancelled. A second,
  sequential variant (`Action`, `RunActions`) settles every submission
  before anything else happens.

Two consequences of the code that are easy to miss:

- The 1-second callback after a success calls `clearFile`, which runs
  `hideAllStatus` (script.js:146). So the success panel is hidden one second
  after a success (`Events.ClearTimer`).
- The text thrown for a non-OK status (script.js:202) is replaced by the
  `catch` with the fixed connectivity message (script.js:217). No status code
  ever reaches the page (`Controller.HttpCodeDiscarded`).

Two further behaviours of the code as written, proved in `Events`:

- The remove button stays active during an upload. Removing the file
  disables submit, but the request's `finally` enables it again. The page
  then has no file and an enabled button, and the next click reaches the
  "choose a file" branch (`Events.RemoveDuringUpload`). Without such
  interleaving that branch is dead (`Events.SequentialSubmitHasFile`).
- An error's 10-second auto-hide is not cancelled by a later success. It can
  hide the success panel (`Events.StaleErrorTimerHidesSuccess`).

## Model

| member | source | states |
|---|---|---|
| `Decimal.IntText` | script.js:273 | How the template literal prints a safe integer: a minus sign only for negatives, no space; `ParseIntText` and `ParseIntCanonical` state that it is inverse to reading |
| `Decimal.ParseIntText` | script.js:273 | The count printed into the success message reads back as the same integer |
| `Decimal.ParseIntCanonical` | script.js:273 | Every numeral the reader accepts is the one printed for its value, so printing and reading are inverse |
| `Decimal.NatTextParse` | script.js:273 | Printing the value of a numeral without leading zeros gives that numeral back |
| `Plural.JsRem` | script.js:291-292 | `%` keeps the dividend's sign, lies strictly between -b and b, and agrees with the Euclidean remainder on naturals |
| `Plural.JsRemOdd` | script.js:291-292 | The remainder is odd in the dividend: `(-a) % b == -(a % b)` |
| `Plural.DocumentWord` | script.js:290-307 | The model of `getDocumentWord`, using the truncating remainder; always one of the three forms. Its behaviour is stated by `DocumentWordForms`, `DocumentWordLastTwoDigits`, `NegativeCountIsMany` and `DocumentWordMatchesNumeral` |
| `Plural.DocumentWordForms` | script.js:290-307 | For a natural count: "документ" exactly when it ends in 1 but not 11; "документа" exactly when it ends in 2–4 but not 12–14; "документов" otherwise |
| `Plural.DocumentWordLastTwoDigits` | script.js:290-307 | Two natural counts with the same last two digits get the same form |
| `Plural.NegativeCountIsMany` | script.js:290-307 | A negative count always gets "документов", because the truncating `%` never yields 1..19 |
| `Plural.DocumentWordExamples` | script.js:290-307 | 1, 21 and 101 give "документ"; 2, 3 and 24 give "документа"; 0, 5, 11, 12, 111 and 112 give "документов" |
| `Plural.DocumentWordMatchesNumeral` | script.js:290-307 | The arithmetic rule agrees with reading the printed numeral: tens digit 1 means "документов", otherwise the last digit decides |
| `Validation.SearchFrom` | script.js:105 | The search succeeds exactly when the pattern matches at some start position from `from` to the end of the name |
| `Validation.ExtensionMatchesPattern` | script.js:105 | A name whose ASCII-lowercased form ends in ".xlsx" or ".xls" matches the regular expression |
| `Validation.PatternMatchesExtension` | script.js:105 | A name the regular expression matches has an ASCII-lowercased form ending in ".xlsx" or ".xls" |
| `Validation.PatternIffExtension` | script.js:105 | The regular expression matches exactly the names whose ASCII-lowercased form ends in ".xlsx" or ".xls" |
| `Validation.Validate` | script.js:105-115 | Accepted iff the extension is right and size ≤ 10485760; WrongFormat iff the extension is wrong, whatever the size; TooLarge iff the extension is right and the size exceeds the limit |
| `Validation.SizeLimitIsInclusive` | script.js:111-112 | With a right name, 10485760 bytes is accepted and 10485761 is rejected as too large |
| `Validation.FormatReportedBeforeSize` | script.js:105-115 | A wrongly named file gets the format verdict at every size |
| `Validation.WrongLastLetterRejected` | script.js:105 | A name whose last character is no x or s of either case never matches |
| `Validation.AcceptedNameExamples` | script.js:105 | "Claims.XLSX", "a.Xls" and ".xlsx" match |
| `Validation.RejectedNameExamples` | script.js:105 | "table.xlsx.txt", "xlsx" and "report.csv" do not match |
| `StatusPanels.HideAll` | script.js:231-236 | Neither the section nor any panel is shown afterwards |
| `StatusPanels.Show` | script.js:241-270 | The section is shown with the requested panel as its only visible panel |
| `StatusPanels.LastShownWins` | script.js:241-270 | Showing two panels in a row leaves only the second, as if the first had never been shown |
| `Controller.FormatFileSize` | script.js:154-155 | Zero bytes gets the fixed zero label, and only zero does; other sizes keep their byte count |
| `Controller.HideAllStatus` | script.js:231-236 | Hides the whole status area and changes nothing else |
| `Controller.ShowLoading` | script.js:241-245 | Only the loading panel is shown; file area, texts and timers are unchanged |
| `Controller.ShowError` | script.js:251-261 | Only the error panel is shown, holding the message; one more auto-hide is pending; the file area is unchanged |
| `Controller.CountText` | script.js:273 | The printed count reads back as the count; an absent count prints as a text that reads as no number |
| `Controller.WordFor` | script.js:273 | `getDocumentWord(result.documentsCount)`: an absent count gives NaN remainders that fail every test, so "документов"; a present natural count gets the form read off its printed numeral |
| `Controller.SuccessText` | script.js:273 | The template message: it starts with the fixed prefix, ends with a dot, and the word after the count reads back as `WordFor` of the count; `SuccessTextNamesCount` reads the count back too |
| `Controller.Href` | script.js:277 | The link's href is the reply's folder URL, or the text "undefined" when the reply has none |
| `Controller.ShowSuccess` | script.js:267-283 | Only the success panel is shown with the message for the count; the link takes `Href` of the folder URL, "undefined" included; one more clear callback is pending |
| `Controller.SuccessTextNamesCount` | script.js:273 | Reading the success message back yields the count followed by its word form |
| `Controller.SuccessTextWithoutCount` | script.js:273 | A reply without a count yields a message with no readable count |
| `Controller.HandleFileSelect` | script.js:103-131 | An accepted file is stored, labelled and enables submit, with the status hidden; a rejected one changes only the error panel, its text and the auto-hide count, with the format message taking precedence over the size message |
| `Controller.ClearFile` | script.js:136-147 | No file, submit disabled, drop zone shown, file block hidden, status hidden; texts unchanged |
| `Controller.SubmitStart` | script.js:178-185 | With a file: loading panel only, submit disabled, one more request in flight; file area and labels unchanged |
| `Controller.SubmitClick` | script.js:171-185 | Without a file: the "choose a file" error, one hide timer armed, no request, file area and other texts untouched; with one: loading panel only, submit disabled, one more request in flight, selection, file area, labels, texts and timers unchanged |
| `Controller.FailureText` | script.js:201-217 | A rejected reply shows its non-empty message or the fixed fallback; every other failure shows the connectivity message |
| `Controller.SubmitSettle` | script.js:201-221 | Success shows the success panel and message; anything else shows the error panel with the mapped text; submit is enabled on every path; file area and labels unchanged |
| `Controller.HandleSubmit` | script.js:171-222 | Without a file: the "choose a file" error, one hide timer armed, no request, file area and other texts untouched; with one: the outcome's panel and text (success also sets the folder link and arms the clear timer, failure arms the hide timer), file area and labels kept, submit enabled |
| `Controller.HttpCodeDiscarded` | script.js:201-217 | A non-OK status of any code, a transport failure and a parse failure lead to the same page |
| `Controller.ErrorThenSuccess` | script.js:251-270 | An error followed by a success leaves only the success panel visible |
| `Controller.ClearFileIdempotent` | script.js:136-147 | Clearing twice is the same as clearing once |
| `Events.ErrorTimer` | script.js:258-260 | The auto-hide hides every panel, whichever is showing, and uses up one pending callback |
| `Events.ClearTimer` | script.js:280-282 | The post-success callback clears the file and also hides the success panel; the name and size labels and the texts keep their old values |
| `Events.Step` | script.js:55-93 | The handler each event runs: an accepted pick sets the selection and enables submit, a rejected one leaves both alone, removal and the post-success callback drop the selection and disable submit, a settle enables submit, no other event changes the selection |
| `Events.StepKeepsInv` | script.js:103-283 | Every event keeps the page invariant: at most one panel, with the section exactly when one is shown; the file block exactly when a file is selected; a selected file is acceptable and its labels describe it |
| `Events.RunKeepsInv` | script.js:103-283 | Any sequence of events keeps the page invariant |
| `Events.ReachableKeepsInv` | script.js:231-283 | Every reachable page shows at most one status panel |
| `Events.RemoveDuringUpload` | script.js:171-221 | Pick, click, remove, settle ends with no file and submit enabled; the next click shows the "choose a file" error |
| `Events.StaleErrorTimerHidesSuccess` | script.js:251-283 | After a rejected pick, an accepted pick and a successful upload, the old auto-hide hides the success panel while the file is still selected |
| `Events.ApplyKeepsSequentialInv` | script.js:103-222 | Without interleaving, every action keeps the invariant plus "no file means submit disabled" |
| `Events.RunActionsKeepsSequentialInv` | script.js:103-222 | Any sequence of actions without interleaving keeps that invariant |
| `Events.SequentialSubmitHasFile` | script.js:171-221 | Without interleaving, every allowed submit has a file and ends with it still selected and submit enabled |
| `Events.SubmitIsClickThenSettle` | script.js:171-221 | A submission without interleaving is the click followed at once by the settle of its request |

## Left out

- Event wiring, default-action suppression, drag highlighting and click forwarding (script.js:32-93). These only call the modelled transitions. `Events.Step` records which handler each event runs.
- `fetch`, `FormData` and `response.json()` (script.js:187-206). These are foreign I/O, so the exchange is the input `Outcome`. The request payload, including the claim type and the token, is not modelled.
- The claim-type lookup (script.js:179) reads the page markup and is not modelled. If no option were checked it would throw before the loading panel; that case is not modelled.
- Controller.FormatFileSize: models only the zero-byte text. The tier choice and rounding use floating-point `Math.log`, `Math.pow` and `Math.round` (script.js:157-161).
- Timer durations. Wall-clock time is not modelled. A scheduled callback may fire at any later point, so the model allows more orders than 1 s and 10 s delays permit.
- Re-entrant submissions while a request is in flight. `inFlight` counts them, but the model makes no claim about how their settlements order.
- Reply fields beyond their JavaScript meaning. `success` is its truthiness, `message` is an optional string, `documentsCount` is an optional safe integer and `folderUrl` is an optional string. Other JSON types in these fields, non-integer counts and counts beyond 2^53-1 are not modelled. A JSON `null` body throws when `result.success` is read, so it is `ParseFail` (connectivity text); any other non-object body (a number, string or boolean) has no `success` or `message`, so it is `Parsed(Body(false, None, None, None))` (fallback text).
- `fileInput.value = ''` in clearFile (script.js:138). It only lets the input fire again for the same file, which belongs to the event wiring.
- The startup configuration check (script.js:313-323) and `config.js`. These probe the environment with `typeof` and are not part of this model.
- Events.Init: the page markup is not part of this model. The initial page is assumed to be the one clearFile produces: drop zone shown, file block hidden, submit disabled, no status.
- Console logging (script.js:216, 315, 321, 325) is not modelled.
