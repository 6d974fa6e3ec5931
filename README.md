# Chips and FileUpload list logic, in Dafny

This project models the list-editing and validation logic of two PrimeReact
widgets, with React and the DOM taken away.

- **Chips** (`components/lib/chips/Chips.js`) is a controlled tag input. Its
  token list arrives as the `value` prop and is never changed in place. Every
  edit (`addItem`, `removeItem`, `onPaste`, and the key dispatcher `onKeyDown`)
  is reported as a new list through `onChange`, with `onAdd`/`onRemove`
  alongside. The only state the widget changes itself is the text of its input
  element. The model has a class `Chips.ChipsInput` holding `props`, `value` and
  `input`. Its methods change only `input` and return an `Emitted` record: the
  payloads the callbacks receive and whether the default action is prevented.
  Pure functions state what is emitted, and lemmas state its properties.
- **FileUpload** (`components/lib/fileupload/FileUpload.js`) keeps a list of
  chosen files. Files are deduplicated by the text `name + type + size` and
  checked against `maxFileSize`. Entries can be removed or the list cleared. The
  widget enables and disables its buttons, accepts or refuses drops, reports
  upload progress, and resets after the XHR completes. It also skips the
  duplicate change event IE11 fires after its input is cleared. The model has a
  class `FileUpload.Uploader` with fields `files`, `progress`,
  `uploadedFileCount` and `duplicateIEEvent`, and `File(name, mimeType, size)`
  values. Whether the browser is IE11, the event type and the XHR status are
  parameters.
- Two shared modules support them. `Text` models JavaScript `trim` (only as
  "is the trimmed text empty") and `split` with a non-empty separator. `Common`
  holds an option type, `filter`, and `splice(i, 1)` on a copy.

The model keeps the code's own conditions. Some consequences:
- `removeItem` refuses only when `disabled` and `readOnly` are both set, so
  Backspace in a read-only (but enabled) widget still removes the last token.
- A file drop with `multiple` unset is accepted only when it carries no files.
- The deduplication key is a plain concatenation, so two different files can
  collide.

Lemmas state each of these.

## Model

| member | source | states |
|---|---|---|
| `Text.TrimStart` | components/lib/chips/Chips.js:109 | `trim` drops exactly the leading whitespace: the result is a suffix, does not start with whitespace, and everything dropped is whitespace |
| `Text.TrimEnd` | components/lib/chips/Chips.js:109 | `trim` drops exactly the trailing whitespace, symmetrically |
| `Text.Trim` | components/lib/chips/Chips.js:109 | the trimmed text is no longer than the input, neither starts nor ends with whitespace, and is non-empty whenever the input has a non-whitespace character |
| `Text.IsBlank` | components/lib/chips/Chips.js:109 | the empty string is blank, and text that starts with a non-whitespace character never is |
| `Text.BlankIffAllWhitespace` | components/lib/chips/Chips.js:109 | an item is blank (`!item.trim().length`) exactly when every character is ECMAScript whitespace or a line terminator |
| `Text.Find` | components/lib/chips/Chips.js:191 | the separator search returns the first position where the separator occurs, or none when it occurs nowhere |
| `Text.Split` | components/lib/chips/Chips.js:191 | `split` always yields at least one piece |
| `Text.SplitJoin` | components/lib/chips/Chips.js:191 | joining the pieces of `split` with the separator gives back the pasted text |
| `Text.SplitPiecesAvoidSeparator` | components/lib/chips/Chips.js:191 | no piece produced by `split` contains the separator |
| `Text.SplitCutsAtFirst` | components/lib/chips/Chips.js:191 | `split` cuts at the first occurrence the search finds and splits the rest after the separator, so an overlapping separator is matched as early as possible |
| `Text.SplitWithoutOccurrence` | components/lib/chips/Chips.js:191 | text without the separator splits into itself alone |
| `Text.SplitOverlappingSeparator` | components/lib/chips/Chips.js:191 | "aaa" split on "aa" gives ["", "a"] |
| `Common.Filter` | components/lib/chips/Chips.js:192 | `filter` keeps only elements of the input that satisfy the test, never more than the input |
| `Common.RemoveAt` | components/lib/chips/Chips.js:79-80 | `splice(i, 1)` on a copy removes exactly position `i`: earlier elements stay put, later ones shift down by one, and an index past the end changes nothing |
| `Common.SplicedOut` | components/lib/chips/Chips.js:80 | `splice` returns the removed element as a one-element array, or an empty one past the end |
| `Common.RemoveAtPermutation` | components/lib/fileupload/FileUpload.js:55-58 | the remaining list and the removed element together are a permutation of the old list |
| `Chips.IsMaxedOut` | components/lib/chips/Chips.js:219-221 | maxed out exactly when `max` is non-zero and equals the list length |
| `Chips.IsFilled` | components/lib/chips/Chips.js:223-225 | filled exactly when there is a token or typed text |
| `Chips.IsRemovable` | components/lib/chips/Chips.js:227-229 | a boolean `removable` answers every removal the same way; a callback is asked about the spliced-out token and its index |
| `Chips.Appended` | components/lib/chips/Chips.js:110-114 | the emitted list keeps the old list as a prefix; it gains the item at the end exactly when duplicates are allowed or the item is absent, and is otherwise the old list |
| `Chips.RemoveItem` | components/lib/chips/Chips.js:74-106 | nothing is emitted when both `disabled` and `readOnly` are set or the removal is refused; otherwise `onRemove` gets the spliced-out element and `onChange` the list without position `index` |
| `Chips.KeptPieces` | components/lib/chips/Chips.js:192 | every kept pasted piece is non-blank and, unless duplicates are allowed, absent from the old list |
| `Chips.KeptPiecesMember` | components/lib/chips/Chips.js:192 | a piece is kept exactly when it was pasted, is non-blank, and is new or duplicates are allowed |
| `Chips.KeptPiecesConcat` | components/lib/chips/Chips.js:192 | pieces are judged one by one against the old list: order is kept and repeats within one paste are not deduplicated |
| `Chips.PastedList` | components/lib/chips/Chips.js:189-195 | the pasted list is the old list followed by exactly the pasted pieces that are non-blank and, unless duplicates are allowed, not already listed |
| `Chips.KeyDownAction` | components/lib/chips/Chips.js:131-161 | Backspace removes exactly when the input is empty and the list non-empty; a key press adds exactly when it is Enter with non-blank text and the list below `max`, or the comma key with separator "," and the list not maxed out; other keys are blocked exactly when maxed out |
| `Chips.KeyDownWithinMax` | components/lib/chips/Chips.js:144-158 | no key press takes a list that is within a positive `max` past it |
| `Chips.BackspaceDropsLast` | components/lib/chips/Chips.js:137-140 | Backspace on an empty input emits the list without its last token |
| `Chips.ReadOnlyAloneAllowsBackspaceRemoval` | components/lib/chips/Chips.js:75-77 | `readOnly` without `disabled` does not block removal |
| `Chips.ChipsInput.constructor` | components/lib/chips/Chips.js:58-72 | a new widget has an empty input |
| `Chips.ChipsInput.UpdateInput` | components/lib/chips/Chips.js:163-183 | `onChange` receives the given list, the input is cleared, and the default is prevented as asked |
| `Chips.ChipsInput.AddItem` | components/lib/chips/Chips.js:108-125 | a blank item emits nothing and keeps the input; otherwise `onChange` gets `Appended`, the input is cleared, and `onAdd` fires exactly when the item was appended |
| `Chips.ChipsInput.OnKeyDown` | components/lib/chips/Chips.js:131-161 | carries out `KeyDownAction`: removal of the last token, an add of the input text (`onChange` gets `Appended`, nothing is removed, `onAdd` fires exactly when the text was appended), a prevented keystroke, or nothing |
| `Chips.ChipsInput.OnPaste` | components/lib/chips/Chips.js:185-199 | with a separator and non-empty text, `onChange` gets `PastedList` and the input is cleared; otherwise nothing happens |
| `FileUpload.Decimal` | components/lib/fileupload/FileUpload.js:138 | a size prints as decimal digits without leading zeros |
| `FileUpload.DecimalRoundTrip` | components/lib/fileupload/FileUpload.js:138 | reading the printed size back gives the size |
| `FileUpload.DecimalInjective` | components/lib/fileupload/FileUpload.js:138 | different sizes print differently |
| `FileUpload.Key` | components/lib/fileupload/FileUpload.js:138 | the key is the name, then the type, then at least one decimal digit of the size |
| `FileUpload.AlreadySelected` | components/lib/fileupload/FileUpload.js:136-142 | a file already in the list always counts as selected |
| `FileUpload.KeyDeterminesSize` | components/lib/fileupload/FileUpload.js:136-142 | two files with the same name and type share a key only if they have the same size |
| `FileUpload.KeyCollision` | components/lib/fileupload/FileUpload.js:138 | different files ("a.txt", 12 bytes and "a.txt1", 2 bytes) share a key, so the second counts as already selected |
| `FileUpload.Validate` | components/lib/fileupload/FileUpload.js:148-168 | a file is rejected exactly when `maxFileSize` is non-zero and the size exceeds it; a size equal to the limit passes |
| `FileUpload.Accepted` | components/lib/fileupload/FileUpload.js:103-112 | every appended file is new with respect to the old list and passes `validate` |
| `FileUpload.Rejected` | components/lib/fileupload/FileUpload.js:148-165 | the files reported to `onValidationFail` are new and fail `validate` |
| `FileUpload.SelectionClassifies` | components/lib/fileupload/FileUpload.js:103-112 | each selected file is exactly one of: already listed, rejected, accepted |
| `FileUpload.AcceptedConcat` | components/lib/fileupload/FileUpload.js:103-112 | acceptance is decided file by file against the old list, in selection order |
| `FileUpload.BatchDuplicatesAdmitted` | components/lib/fileupload/FileUpload.js:101-112 | two identical new files in one selection are both appended |
| `FileUpload.IsImage` | components/lib/fileupload/FileUpload.js:25-27 | a file is an image exactly when its type is "image/" followed by anything |
| `FileUpload.ChooseDisabled` | components/lib/fileupload/FileUpload.js:29-31 | choose is disabled exactly when `disabled` is set or a file limit is set and listed plus uploaded files reach it (counter read as intended) |
| `FileUpload.UploadDisabled` | components/lib/fileupload/FileUpload.js:33-35 | upload is disabled exactly when `disabled` is set or the list is empty |
| `FileUpload.CancelDisabled` | components/lib/fileupload/FileUpload.js:37-39 | cancel is disabled exactly when `disabled` is set or the list is empty |
| `FileUpload.ButtonLabel` | components/lib/fileupload/FileUpload.js:41-51 | a given label always wins, then the options' label, then the locale default; the result is empty only if all three are |
| `FileUpload.DropAllowed` | components/lib/fileupload/FileUpload.js:302-315 | a drop is processed exactly when the widget is enabled and `multiple` is set or nothing was dropped |
| `FileUpload.FlagAfterSelection` | components/lib/fileupload/FileUpload.js:95-98 | in IE11 every non-drop change event flips the duplicate flag; drops and other browsers leave it |
| `FileUpload.IgnoresSelection` | components/lib/fileupload/FileUpload.js:95-98 | a selection is ignored only while the flag is set, and never for a drop or outside IE11 |
| `FileUpload.IEChangeEventsAlternate` | components/lib/fileupload/FileUpload.js:124-126 | in IE11, consecutive non-drop change events are processed and ignored alternately |
| `FileUpload.OutsideIENothingIgnored` | components/lib/fileupload/FileUpload.js:95 | outside IE11 no selection is ignored |
| `FileUpload.DropsNeverIgnored` | components/lib/fileupload/FileUpload.js:95 | a drop is never ignored |
| `FileUpload.ProgressPercent` | components/lib/fileupload/FileUpload.js:204 | the percentage is the nearest integer to `loaded * 100 / total`, halves rounded up |
| `FileUpload.ProgressInRange` | components/lib/fileupload/FileUpload.js:204 | with `0 <= loaded <= total`, progress lies in 0..100 and is 100 when everything is sent |
| `FileUpload.ProgressMonotone` | components/lib/fileupload/FileUpload.js:204 | more bytes sent never lowers the percentage |
| `FileUpload.IsSuccess` | components/lib/fileupload/FileUpload.js:218 | success is exactly the 2xx class of statuses |
| `FileUpload.Completion` | components/lib/fileupload/FileUpload.js:214-234 | on completion, progress is 0 and the list is cleared whatever the status; success is exactly a 2xx status; only success adds the files sent to the counter, and only with a file limit |
| `FileUpload.CompletionAccounting` | components/lib/fileupload/FileUpload.js:215-233 | after completion upload and cancel are disabled; a success leaves the choose button's limit state unchanged; a failure only frees slots |
| `FileUpload.CustomUploadStart` | components/lib/fileupload/FileUpload.js:171-175 | a custom upload adds the listed files to the counter when a file limit is set and changes nothing else |
| `FileUpload.CustomUploadThenClear` | components/lib/fileupload/FileUpload.js:171-183 | a custom upload followed by the handler's `clear` keeps the choose button's limit state |
| `FileUpload.NumberValue` | components/lib/fileupload/FileUpload.js:30 | a string converts to a number only if it is all decimal digits |
| `FileUpload.ChooseDisabledAsWritten` | components/lib/fileupload/FileUpload.js:30 | as written, `disabled` always disables choose, and otherwise only a set file limit could |
| `FileUpload.ChooseDisabledAsWrittenIgnoresLimit` | components/lib/fileupload/FileUpload.js:30 | as written, the file limit never disables the choose button |
| `FileUpload.ChooseDisabledCounterexample` | components/lib/fileupload/FileUpload.js:30 | with limit 1 and one file listed, the code leaves choose enabled and the intended rule disables it |
| `FileUpload.CustomUploadAsWritten` | components/lib/fileupload/FileUpload.js:172-173 | as written, a custom upload with a file limit throws before `uploadHandler` runs |
| `FileUpload.CompletionAsWritten` | components/lib/fileupload/FileUpload.js:214-221 | as written, progress is reset in every case; a success under a file limit throws and keeps the list and counter; every other case is `Completion` |
| `FileUpload.CompletionAsWrittenKeepsFiles` | components/lib/fileupload/FileUpload.js:218-221 | as written, a successful upload under a file limit resets progress, then throws and leaves the file listed |
| `FileUpload.Uploader.constructor` | components/lib/fileupload/FileUpload.js:11-19 | a new widget has no files, progress 0, counter 0 and the IE flag clear |
| `FileUpload.Uploader.HasFiles` | components/lib/fileupload/FileUpload.js:21-23 | there are files exactly when the list is non-empty |
| `FileUpload.Uploader.IsFileSelected` | components/lib/fileupload/FileUpload.js:136-142 | the scan answers true exactly when some listed file has the same key |
| `FileUpload.Uploader.OnFileSelect` | components/lib/fileupload/FileUpload.js:94-134 | IE11's echo event is ignored and resets the flag; otherwise the new list is the old list followed by `Accepted`, the rejected files are reported, and the flag follows `FlagAfterSelection` |
| `FileUpload.Uploader.OnDrop` | components/lib/fileupload/FileUpload.js:302-315 | an allowed drop selects the dropped files without touching the IE flag; a refused one changes nothing |
| `FileUpload.Uploader.Remove` | components/lib/fileupload/FileUpload.js:53-67 | the list loses exactly entry `index`, and the removed file is reported |
| `FileUpload.Uploader.Clear` | components/lib/fileupload/FileUpload.js:252-258 | the list is emptied |
| `FileUpload.Uploader.Upload` | components/lib/fileupload/FileUpload.js:170-199 | the list is what is sent; a custom upload updates the counter as `CustomUploadStart` says |
| `FileUpload.Uploader.OnUploadProgress` | components/lib/fileupload/FileUpload.js:202-212 | a length-computable event sets progress to `ProgressPercent`; other events change nothing |
| `FileUpload.Uploader.OnReadyStateChange` | components/lib/fileupload/FileUpload.js:214-235 | `readyState` 4 applies `Completion` to the state; any other state changes nothing |
| `FileUpload.Uploader.OnSimpleUploaderClick` | components/lib/fileupload/FileUpload.js:317-324 | with files listed the click uploads them, and the counter changes only for a custom upload as `CustomUploadStart` says; otherwise it opens the chooser and changes nothing. The handler is attached only in basic mode, see "## Left out" |

## Findings

| source | as written | input that shows it | evidently intended | confidence | as-written member | corrected member |
|---|---|---|---|---|---|---|
| components/lib/fileupload/FileUpload.js:30 | `files.length + uploadedFileCount` adds the ref object, which gives the string "n[object Object]"; `fileLimit <=` that string compares with NaN and is always false | `fileLimit` 1, one file listed, not disabled: the choose button stays enabled | compare against `files.length + uploadedFileCount.current` | high; not executed | `FileUpload.ChooseDisabledCounterexample` | `FileUpload.ChooseDisabled` |
| components/lib/fileupload/FileUpload.js:173 | `uploadedFileCount += files.length` assigns to a `const` binding and throws a TypeError before `uploadHandler` is called | `customUpload` with `fileLimit` 1 and one file, upload clicked | `uploadedFileCount.current += files.length` | high; not executed | `FileUpload.CustomUploadAsWritten` | `FileUpload.CustomUploadStart` |
| components/lib/fileupload/FileUpload.js:220 | the same assignment throws inside `onreadystatechange` after `setProgress(0)`, so neither `onUpload` nor `clear` runs | `fileLimit` 1, one file, XHR status 200 | `uploadedFileCount.current += files.length`, then `onUpload` and `clear` | high; not executed | `FileUpload.CompletionAsWrittenKeepsFiles` | `FileUpload.Completion` |

The rest of the model uses the corrected members, with the counter as an integer
field of `FileUpload.Uploader`.

## Left out

- `components/lib/chart/Chart.js`: it only manages the lifetime of an external chart.js instance. It has no logic of its own.
- `formatSize`: it uses floating-point `Math.log`, `Math.pow` and `toFixed`. The text of the validation messages and the Messages display are left out with it.
- Building the request (`XMLHttpRequest`, `FormData`, `open`, `send`, `withCredentials`) and the `onBeforeUpload`/`onBeforeSend` hooks: these are network I/O. `Uploader.Upload` returns the list that would be sent.
- The auto-upload check after a selection (FileUpload.js:116): it reads the `files` state from before the selection. Modelling React's render and batching order is out of scope.
- The `progress` value passed to `onProgress` (FileUpload.js:207): it is stale for the same reason.
- `setMsgs([])`, `clearInput` and `onClear`, which only touch the DOM or notify.
- The payloads of `onSelect` and `onUpload`/`onError` beyond the file lists.
- DOM effects:
  - drag highlighting and `dropEffect`;
  - `createObjectURL` previews (`IsImage` is modelled, its effect is not);
  - hiding the file input in basic mode;
  - focus state;
  - tooltips;
  - `updateInputRef`;
  - `onWrapperClick`;
  - all rendering and class names.
- Browser detection: `isIE11` is a parameter. The model assumes the file input is mounted when `clearIEInput` runs.
- Event objects (`originalEvent`, `stopPropagation`, `target.name`/`id`): not modelled. `Emitted` records only the list payloads and `preventDefault`.
- The clipboard lookup (`event.clipboardData` or `window.clipboardData`): the pasted text is a parameter. The browser's own paste into the input, when the handler does nothing, is not modelled.
- JavaScript's `null`/`undefined`/`""` for props: they become `""` for strings and `0` for `max`, `fileLimit` and `maxFileSize`. A `null` Chips `value` becomes the empty list. `removeItem` would throw on `null`, but it is only reached with a non-empty list.
- The `removable` callback on the rendering path, where it receives the token rather than the spliced-out array: rendering is not modelled.
- Numbers are mathematical integers. Sizes are `nat`, and the progress percentage is computed exactly rather than in IEEE doubles.
- `FileUpload.Uploader.OnUploadProgress`: requires a positive `total` for length-computable events. The source would store NaN or Infinity for a total of 0, which a multipart request body never reports.
- `FileUpload.NumberValue`: models JavaScript's string-to-number conversion only for strings of decimal digits, and treats every other string as NaN. That is all the comparison at FileUpload.js:30 depends on.
- `Emitted` is a record, so the order in which `onRemove` or `onAdd` fires before `onChange` (Chips.js:86-105, 115-122) is not modelled.
- `Emitted.changed` is the list handed to `onChange` whenever the handler reaches that call (Chips.js:93, 164). Whether the `onChange` prop is set is not modelled.
- Dafny strings are sequences of Unicode scalar values, not UTF-16 code units. `split` and `trim` on text with lone surrogates are not modelled.
- Basic mode (FileUpload.js:465-466): `const hasFiles = hasFiles();` calls the new binding inside its own initialiser, which throws a ReferenceError, so basic mode never renders. `onSimpleUploaderClick` is attached only there (line 483), so in practice it is never called. `FileUpload.Uploader.OnSimpleUploaderClick` models the handler as if that line called the outer `hasFiles`. Rendering is not modelled, so this is not listed as a finding.
