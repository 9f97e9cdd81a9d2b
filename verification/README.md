# Meta Sender Protect web client: a Dafny model of the form and analysis logic

The web client of Meta Sender Protect (`frontend/src/App.js`) lets a user type a
sender address, message content and optional raw headers, or upload an `.eml`
file, and sends them to a remote spam classifier. Its results panel then shows
the baseline or the enhanced model's verdict, along with notes about the
sender's domain.

This project models the logic of the `App` component without React and without
the network:

- `EmlParser`: the `.eml` ingestion of `handleFileChange`. It checks the file
  name, splits headers from body at the first blank line, and scans for `From:`
  and `Subject:`.
- `LineEndings`: the same message saved with CRLF and with LF line endings
  yields the same sender and subject, but not always the same body.
- `RegexSplit`: the JavaScript `String.prototype.split` on `/\r?\n/` and
  `/\r?\n\r?\n/` that the parser uses.
- `JsString`: `trim`, `toLowerCase`, `startsWith`, `endsWith`, and `||` on strings.
- `Api`: the reply payload as the client reads it.
- `AppState`: the form and UI state, with `handleInputChange`, `handleFileChange`
  and `handleReset` as pure transitions.
- `Analyze`: `handleAnalyze`. It chooses between the file request and the text
  request, applies the local validation gate, and reduces every reply or
  exception to exactly one of a stored result or an error message.
- `ResultsView`: the selections the results panel makes.

Each handler is one atomic transition `Ui -> Ui`. The `FileReader` callback runs
as part of the file-change step. The outcome of the `fetch` round trip is an
input value (`Analyze.Exchange`): a response with its `ok` flag and a body, or a
rejection with a message.

Behaviours of App.js worth knowing:

- The results panel reads the live `formData.useEnhanced` (App.js:451-461, 518).
  It does not read a flag captured when the request was sent. Toggling the
  checkbox after a result is shown therefore switches the figures shown
  (`ResultsView.ToggleSwitchesShownModel`).
- `handleAnalyze` never looks at `response.ok` (App.js:297). A reply with an
  error status but a JSON body is handled exactly like a 200 reply
  (`Analyze.StatusIgnored`). Every exception inside the `try` (App.js:262-305)
  becomes a "Failed to connect to server" message. That covers a rejected
  `fetch`, a body that `response.json()` cannot parse, and a JSON `null` body,
  whose `data.success` read at App.js:299 throws.
- A missing `Subject:` does not keep the previous content when the body is
  non-empty: the content becomes the body alone. A `From:` line with an empty
  value that comes after a non-empty one resets the extracted sender to `""`.
  The previous sender is then kept.

## Model

| member | source | states |
|---|---|---|
| `JsString.Leading` | frontend/src/App.js:229 | the whitespace run that `trim` drops at the start: every counted character is whitespace and the next one is not |
| `JsString.Trailing` | frontend/src/App.js:229 | the whitespace run that `trim` drops at the end, characterised the same way |
| `JsString.Trim` | frontend/src/App.js:229 | `trim` returns a contiguous slice of its input with only whitespace removed on either side; the result has no whitespace at either end and is empty exactly when the input is all whitespace |
| `JsString.TrimKeepsTrimmed` | frontend/src/App.js:236 | a string with no whitespace at either end is its own trim |
| `JsString.TrimIdempotent` | frontend/src/App.js:236-240 | trimming twice equals trimming once |
| `JsString.TrimAppendSpace` | frontend/src/App.js:236 | a whitespace character appended to a string, such as a stray `\r`, does not change its trim |
| `JsString.StartsWithLower` | frontend/src/App.js:237-239 | `s.toLowerCase().startsWith(key)` for a key without upper-case letters holds exactly when `s` begins with `key` up to ASCII letter case, character by character |
| `RegexSplit.MatchIsSeparator` | frontend/src/App.js:227 | every match of `/\r?\n\r?\n/` (or `/\r?\n/`) spans one of the spellings that pattern accepts |
| `RegexSplit.SeparatorIsMatch` | frontend/src/App.js:232 | every accepted spelling at a position is matched there, with its own length: no separator is missed or mismeasured |
| `RegexSplit.Split` | frontend/src/App.js:227 | `split` yields at least one part; part 0 is a prefix of the text; with one part that part is the whole text; with more parts a match follows part 0 |
| `RegexSplit.FirstPartIsLeftmost` | frontend/src/App.js:227-228 | part 0 ends at the leftmost match: no match of the text starts inside it |
| `RegexSplit.FirstPartHasNoMatch` | frontend/src/App.js:228 | part 0 holds no match of its own |
| `RegexSplit.SinglePartIffNoMatch` | frontend/src/App.js:227-229 | the split has exactly one part iff the text holds no match |
| `RegexSplit.PartsHaveNoMatch` | frontend/src/App.js:232 | no part of a split holds a match |
| `RegexSplit.SplitTail` | frontend/src/App.js:229 | the parts after part 0 are the split of the text after the first match |
| `RegexSplit.NoMatchCons` | frontend/src/App.js:227 | text is free of matches iff no match starts at its head and its tail is free of matches |
| `RegexSplit.JoinSplitNormalizes` | frontend/src/App.js:227-229 | splitting and re-joining with `"\n\n"` (or `"\n"`) equals rewriting each separator, in place and leftmost first, to that canonical spelling; no text is lost or reordered |
| `RegexSplit.NormalizeNoMatch` | frontend/src/App.js:229 | text without a separator is left as it is when separators are rewritten |
| `EmlParser.IsEmlName` | frontend/src/App.js:214-215 | a name passes `toLowerCase().endsWith('.eml')` exactly when its last four characters are `.`, `e`/`E`, `m`/`M`, `l`/`L` |
| `EmlParser.SplitMessage` | frontend/src/App.js:227-228 | the header block is a prefix of the text that ends before its leftmost blank-line separator and contains no separator itself |
| `EmlParser.SplitMessageWithoutSeparator` | frontend/src/App.js:227-229 | with no blank line, the headers are the whole text and the body is `""` |
| `EmlParser.SplitMessageBody` | frontend/src/App.js:227-229 | with a blank line, a separator directly follows the header block, and the body is the trimmed text after it with every later separator spelled `"\n\n"` |
| `EmlParser.SplitRest` | frontend/src/App.js:229 | the parts after the header block, joined with `"\n\n"`, are the text after the first separator with later separators normalised |
| `EmlParser.ClassifyLine` | frontend/src/App.js:236-241 | a header value extracted from a `from:` or `subject:` line carries no whitespace at either end |
| `EmlParser.ClassifyLineCases` | frontend/src/App.js:236-241 | a line is a sender line exactly when, trimmed, it begins with `from:` in any letter case, and then its value is the trimmed rest after those five characters; it is a subject line exactly when it is not a sender line and, trimmed, begins with `subject:` in any letter case, and then its value is the trimmed rest after those eight characters |
| `EmlParser.ClassifyLineTrailingSpace` | frontend/src/App.js:236 | a trailing whitespace character, such as a `\r`, does not change how a header line is read |
| `EmlParser.ScanStep` | frontend/src/App.js:235-241 | one line changes at most one field: the field its key names takes the line's value, and a field whose key the line does not carry keeps its value |
| `EmlParser.ScanFrom` | frontend/src/App.js:235-242 | when no line carries either key, the scan ends with the values it started from |
| `EmlParser.Scan` | frontend/src/App.js:232-242 | starting from `''`, each field ends as the value of the last line carrying its key, or `''` when no line does |
| `EmlParser.ScanSnoc` | frontend/src/App.js:235-242 | running the `forEach` over one more line applies one more step to the previous outcome |
| `EmlParser.ScanIsLastValue` | frontend/src/App.js:235-242 | the front-to-back scan yields, for a given key, the value of the last line carrying it, or the field's starting value when no line does |
| `EmlParser.LastValueAbsent` | frontend/src/App.js:233-234 | a field that no line carries stays at its starting value (`''`) |
| `EmlParser.ScanLaterFromWins` | frontend/src/App.js:237-238 | a later `From:` line overwrites the sender found so far and leaves the subject alone |
| `EmlParser.ScanLaterSubjectWins` | frontend/src/App.js:239-240 | a later `Subject:` line overwrites the subject found so far and leaves the sender alone |
| `EmlParser.ScanIgnoresOther` | frontend/src/App.js:235-242 | a line that is neither `From:` nor `Subject:` has no effect on the scan |
| `EmlParser.Extract` | frontend/src/App.js:225-242 | the parse gives the message's header block and body, and the last `From:`/`Subject:` values among the header block's lines |
| `LineEndings.LinesOfCrLf` | frontend/src/App.js:232 | splitting a header block saved with CRLF endings on `/\r?\n/` gives the same lines as splitting the LF version |
| `LineEndings.HeadersOfCrLf` | frontend/src/App.js:227-228 | the header block of a CRLF message is the CRLF form of the header block of the LF message: the first blank line is found at the same place |
| `LineEndings.ExtractCrLf` | frontend/src/App.js:225-242 | a message saved with CRLF endings yields the same sender and subject as the same message with LF endings, and the CRLF form of its header block |
| `LineEndings.CrLfBodyKeepsLineBreak` | frontend/src/App.js:229 | the body does depend on the line-ending style: in `"\n\na\nb"` the body is `"a\nb"`, and in its CRLF form it is `"a\r\nb"` |
| `AppState.HandleInputChange` | frontend/src/App.js:203-208 | the named field takes `checked` for the checkbox and `value` for a text input; every other field and all non-form state stay unchanged |
| `AppState.AutoFill` | frontend/src/App.js:244-249 | each text field takes the file's value when that value is non-empty and otherwise keeps its previous value; the content is `subject + "\n\n" + body` when a subject was found, else the body; `useEnhanced` is never changed, and no non-empty field is emptied |
| `AppState.AutoFillEmptyFile` | frontend/src/App.js:225-249 | an empty file fills nothing in |
| `AppState.AutoFillIdempotent` | frontend/src/App.js:244-249 | reading the same file again changes nothing more |
| `AppState.HandleFileChange` | frontend/src/App.js:211-255 | an empty pick changes nothing; a name without the `.eml` suffix sets the error and drops the file, and the form is untouched; an accepted file clears the error, becomes the selection and pre-fills the form once read; after any pick the native picker holds that pick; results, loading flag and enhanced flag are never touched |
| `AppState.FileKeptIff` | frontend/src/App.js:213-220 | after a pick, a file is selected exactly when its name ends in `.eml` in any letter case |
| `AppState.HandleReset` | frontend/src/App.js:311-331 | the form returns to empty fields with `useEnhanced` false; file, results and error are cleared; the native picker is blanked; the loading flag is not touched |
| `AppState.ResetIdempotent` | frontend/src/App.js:311-331 | resetting twice equals resetting once |
| `AppState.ResetRestoresInitial` | frontend/src/App.js:189-201 | when nothing is loading, a reset returns the component to its first-render state, except that the picker is marked as blanked |
| `Analyze.DispatchPrefersFile` | frontend/src/App.js:265-274 | with a file selected, the file request carrying the current enhanced flag goes out, whatever the text fields hold |
| `Analyze.Dispatch` | frontend/src/App.js:265-295 | the file request goes out exactly when a file is selected and carries that file; no request goes out exactly when there is no file and the sender or the content is empty; the text request carries the sender, content and raw headers of the form; every request carries the enhanced flag as it is at the call |
| `Analyze.RawHeadersOptional` | frontend/src/App.js:277 | the raw headers never decide whether a request goes out |
| `Analyze.HandleAnalyze` | frontend/src/App.js:257-309 | loading ends false; results and error are never both set; form, file and picker are unchanged; the validation failure gives its fixed message; an exception gives `'Failed to connect to server: ' + message`; a reply stores the result when `success` holds, and otherwise gives a non-empty error that is the reply's own message whenever that message is non-empty |
| `Analyze.ResultsIff` | frontend/src/App.js:299-303 | a result is stored exactly when a request went out, a JSON reply came back and its `success` holds |
| `Analyze.FallbackWhenNoError` | frontend/src/App.js:302 | a failed reply with no usable `error` shows `'Analysis failed'` |
| `Analyze.StatusIgnored` | frontend/src/App.js:297 | the HTTP status does not influence the outcome |
| `Analyze.AttemptForgetsPrevious` | frontend/src/App.js:258-260 | each attempt starts by clearing the previous results and error, so they cannot affect the outcome |
| `Analyze.AnalyzeAfterReset` | frontend/src/App.js:277-281 | straight after a reset, analysis always stops at the validation gate and nothing is sent |
| `Analyze.AnalyzeAfterFilePick` | frontend/src/App.js:265-269 | after a pick of a name ending in `.EML`, analysis sends that file with the current enhanced flag |
| `Analyze.AnalyzeAfterRefusedPick` | frontend/src/App.js:215-218 | a refused pick leaves no file, so the next analysis is decided by the text fields alone |
| `ResultsView.Render` | frontend/src/App.js:444-548 | the panel shows results exactly when some are stored; the main card shows the record and heading of the model the live flag selects; the enhanced block appears iff the live flag is set; the spam wording follows `prediction === 'spam'`; the domain-type note is the free-mail text iff `domain_type === 'Free Email'` and the custom-domain text otherwise; the flag note is the free-mail text iff `domain_flag` and the custom-domain text otherwise; the parsed sender and subject are the reply's |
| `ResultsView.ToggleSwitchesShownModel` | frontend/src/App.js:451-456 | toggling the checkbox after a result is shown keeps the stored result and switches the main card to the other model's record |
| `ResultsView.RenderAfterAnalyze` | frontend/src/App.js:299-300 | after a successful analysis, the panel shows the record selected by the current flag and the reply's parsed data |
| `ResultsView.FreeMailSpamExample` | frontend/src/App.js:283-300 | a text submission from `a@gmail.com` answered with a baseline spam verdict at 92.3 shows the baseline heading, the spam verdict, that confidence, no enhanced block and both free-domain notes |
| `ResultsView.TextEditKeepsView` | frontend/src/App.js:451-456 | editing a text field does not change what the results panel shows |

## Left out

- The HTTP transport is not modelled: `fetch`, `FormData`, `response.json()` and the configurable base URL. A round trip is an input value `Analyze.Exchange`. A body `response.json()` cannot parse, and a JSON `null` body whose `data.success` read throws, are `Unreadable` with the exception's message. Any other JSON value that is not an object, such as `42`, `"x"`, `true` or `[]`, has no `success` or `error` property and is `Json(Reply(false, None, ...))`, which ends in `'Analysis failed'`.
- The multipart request sends `use_enhanced` as the text `"true"`/`"false"`. The model carries the boolean.
- Asynchrony is not modelled. `handleAnalyze` is one transition; its intermediate `loading = true` state and the disabled Analyze button are not observable. A reset while a request is in flight is not modelled.
- The `FileReader` read is applied at once. A read failure is `SelectedFile.text == None`, for which `onload` never fires.
- The native file input's value is kept only as the boolean `Ui.pickerCleared`. It is set by the reset (App.js:321-327) and cleared by any pick.
- EmlParser.Extract: the body is not line-ending independent, and the model does not claim it is. Only the separators of paragraphs are rewritten to `"\n\n"` (App.js:229), so a single line break inside the body of a CRLF file stays `"\r\n"` (`LineEndings.CrLfBodyKeepsLineBreak`). Sender and subject are independent of it (`LineEndings.ExtractCrLf`).
- `handleInputChange` is modelled for the inputs the component renders: the `useEnhanced` checkbox and three text inputs (`AppState.Rendered`). An arbitrary `name` adding a new key to `formData` is not modelled.
- `JsString.LowerChar` folds only ASCII letters. `toLowerCase`'s other Unicode mappings are left out, and strings are sequences of code points, not UTF-16 code units. The keys and suffix matched are all ASCII.
- `ModelMetrics` (App.js:36-120) is left out: it fetches metrics on mount and rounds percentages in floating point.
- `SpamPredictionDemo` (App.js:123-176) is left out. It is a second demo form and, unlike `handleAnalyze`, treats a non-OK status as an error (App.js:141).
- Rendering is reduced to what `ResultsView.View` selects. JSX markup, `recharts`, `toUpperCase` of the badge, `toFixed(2)` of the confidence, and the static components `FeatureEngineering` and `EthicalConsiderations` are left out.
- A stored reply always has every field (`Api.Reply`). A success reply missing `baseline`, `enhanced` or `metadata`, which would make the render throw, is not modelled.
