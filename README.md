# RFID scan log — a Dafny model

This project models the browser page that records RFID scans. A keyboard-wedge
reader types a code into the input field. The page trims it, stamps it with the
local time as `DD/MM/YYYY HH:MM:SS` and puts the entry `<timestamp> <code>` in two
places: at the top of the on-screen log and at the end of the in-memory log. When
the user has picked a text file, the page also appends the entry and a newline to
that file. A save button offers the whole log for download, one entry per line,
under a name made from the current time. A clear button empties the log after the
user confirms; it does not touch the file.

The model has four modules:

- `Text` (`text.dfy`) covers the JavaScript string operations the page relies on:
  - `String(n)` for integers below 10^21, which covers every `Date` field;
  - `padStart` with a one-character fill;
  - `String.prototype.trim`, with ECMAScript's exact set of white-space and
    line-terminator characters;
  - `Array.prototype.join`;
  - `split` on one character, used to state what an export reads back as.
- `Timestamps` (`timestamp.dfy`) holds `formatTimestamp` over the fields a `Date`
  reports, and a reader for the text it produces.
- `Files` (`file.dfy`) holds the picked file as a class with its contents and its
  write permission. It also holds the append that `writeFile` performs: read the
  size, open a stream that keeps the data, seek to the size, write, close.
- `ScanLog` (`session.dfy`) holds the page state as a class, `ScanSession`, with
  these fields:
  - the log array;
  - the entries shown on screen, top first;
  - the input field's value;
  - the picked file handle.

  The page's handlers are its methods. `Valid()` states that the screen shows the
  log newest first (`NewestFirst`).

The clock (`new Date()`) is a `DateTime` parameter. The user's answers to the
confirm dialog and to the permission prompt are boolean parameters. The file
picker's result is a parameter: a handle, or null when the picker is dismissed.

The file selection handler assigns the picked handle before it checks for
permission, so when the user refuses permission the handle stays set
(`ScanLog.ScanSession.SelectFile` keeps this as written). The model takes the
answer given at file selection as final: with the handle set and no permission,
every later scan's write fails and is reported, and the entry is still logged.
The browser may ask the user again when a write opens its stream; that is not
modelled (see "Left out").

## Model

| member | source | states |
|---|---|---|
| `Text.NatToString` | script.js:22-27 | `String(n)` for n below 10^21: at least one digit, digits only, no leading zero. `ParseNatToString` and `NatToStringParse` make it the inverse of reading decimals. |
| `Text.IntToString` | script.js:24 | The definition of `String(year)`, with a minus sign for negative years. `FourDigitYear` states its form for years 1000-9999. |
| `Text.ParseNatToString` | script.js:22 | Reading `String(n)` back as a decimal gives `n`. |
| `Text.NatToStringParse` | script.js:22 | Every digit string without a leading zero is `String(n)` of its own value. |
| `Text.NatToStringLength` | script.js:22 | `String(n)` has at most `k` digits exactly when `n < 10^k`. |
| `Text.PadStart` | script.js:22 | The definition of `padStart(width, fill)` with a one-character fill. `PadStartShape` states its length, suffix and fill prefix. |
| `Text.PadStartShape` | script.js:22 | `padStart(width, fill)` reaches `max(length, width)` characters by adding fill characters in front only. The original string is its suffix. |
| `Text.Pad2Digits` | script.js:22-27 | A field below 100 pads to exactly two digits that read back as the field. |
| `Text.Pad2Parse` | script.js:22-27 | Every two-digit string is the padded form of its own value. |
| `Text.Trim` | script.js:57 | The trimmed code is empty exactly when the input is all white space. Otherwise neither of its ends is white space. |
| `Text.TrimSlice` | script.js:57 | Trimming removes only a white-space prefix and a white-space suffix. The result is the contiguous rest of the input. |
| `Text.TrimIdempotent` | script.js:57 | Trimming an already trimmed code changes nothing. |
| `Text.SplitLength` | script.js:132 | Splitting at a character yields one more piece than the text has occurrences of it. |
| `Text.SplitJoin` | script.js:132 | Parts free of the separator come back, in order, from splitting their join. |
| `Text.Join` | script.js:132 | The definition of `join`: the empty array gives the empty text, and the separator goes only between parts. `SplitJoin`, `JoinEndsWithLast` and `ExportedLines` state its properties. |
| `Text.JoinEndsWithLast` | script.js:132 | The joined text ends with the last part. No separator is written after it. |
| `Timestamps.FormatTimestamp` | script.js:21-28 | The definition of `formatTimestamp`: five fields padded to two digits, the month shifted to one-based, the year as `String(year)`, in the template. `FormatTimestampLayout`, `FormatTimestampShape`, `ParseFormatTimestamp` and `FormatParseTimestamp` state its properties. |
| `Timestamps.FormatTimestampLayout` | script.js:21-28 | For any year, the text is two-digit day, `/`, two-digit one-based month, `/`, `String(year)`, space, then two-digit hours, minutes and seconds separated by `:`. Each two-digit group reads back as its field. |
| `Timestamps.MonthIsOneBased` | script.js:23 | Characters 3-4 read as `getMonth() + 1`, which lies in 1..12. |
| `Timestamps.FourDigitYear` | script.js:24 | A year in 1000..9999 is written with exactly four digits that read back as the year. |
| `Timestamps.TemplateShape` | script.js:28 | Filling the template literal with digit groups of lengths 2, 2, 4, 2, 2, 2 gives 19 characters. The separators sit at positions 2, 5, 10, 13 and 16, with digits everywhere else. |
| `Timestamps.FormatTimestampShape` | script.js:21-28 | With a four-digit year, the timestamp has that 19-character `DD/MM/YYYY HH:MM:SS` shape. |
| `Timestamps.ParseTemplate` | script.js:28 | Reading the filled template gives back the six digit groups it was filled with. |
| `Timestamps.ParseFormatTimestamp` | script.js:21-28 | For years 1000-9999, reading a formatted timestamp gives back the date and time fields it was made from. Distinct times therefore format to distinct texts. |
| `Timestamps.FormatParseTimestamp` | script.js:21-28 | Every text that reads as a time with a year of at least 1000 is exactly what formatting that time produces. Distinct texts therefore read as distinct times. |
| `Files.WriteAt` | script.js:115-118 | The definition of writing a chunk at a stream position: the chunk replaces what it covers and extends the data past its end. `WriteAtEnd` states the append it gives at the end. |
| `Files.WriteAtEnd` | script.js:112-118 | Writing at a position equal to the size of the existing data appends to it. |
| `Files.FileHandle.RequestWritePermission` | script.js:89-95 | Permission is granted when it already was, or when the user grants it at the prompt. The handle's write permission becomes the answer. |
| `Files.FileHandle.Append` | script.js:107-121 | With write permission, the new contents are the old contents followed by the content, and the call succeeds. Without it, the call fails and the contents are unchanged. |
| `ScanLog.EntryText` | script.js:33 | The definition of the entry text: timestamp, a space, the code. `ParseEntryText` states that it reads back. |
| `ScanLog.ParseEntryText` | script.js:33 | For a scan whose year is in 1000-9999, the entry text reads back as that scan's time and code. |
| `ScanLog.PrependPush` | script.js:39-42 | Showing an entry at the top of the screen and pushing it onto the log keeps the k-th entry on screen equal to the k-th from the end of the log. |
| `ScanLog.NewestFirstUnique` | script.js:39-42 | The log determines the screen: two screens that both show it newest first are equal. |
| `ScanLog.ReplaceSeparators` | script.js:136 | Each `/`, `:` and space becomes `_`. Every other character is kept at its position. |
| `ScanLog.FileNameOf` | script.js:136 | The definition of the name made from a timestamp text: separators replaced, `.txt` added. `FileNameOfShape` and `FileNameOfHasNoSeparators` state its form. |
| `ScanLog.DefaultFileName` | script.js:134-136 | The definition of the default export name: `FileNameOf` of the current timestamp. `DefaultFileNameShape` and `DefaultFileNameHasNoSeparators` state its form. |
| `ScanLog.DefaultFileNameHasNoSeparators` | script.js:136 | The default export name contains no `/`, `:` or space, whatever the date. |
| `ScanLog.DefaultFileNameShape` | script.js:134-136 | With a four-digit year the default name is `DD_MM_YYYY_HH_MM_SS.txt`: 23 characters, with `_` where the timestamp has a separator and the timestamp's digits elsewhere. |
| `ScanLog.ScanSession.constructor` | script.js:9-10 | At page load the log, the screen and the input are empty, and no file is picked. |
| `ScanLog.ScanSession.WriteFile` | script.js:104-122 | With no file picked, nothing happens. Otherwise the content is appended when the file is writable. When it is not, the write fails and the file is unchanged. |
| `ScanLog.ScanSession.AddLogEntry` | script.js:32-53 | The entry `<timestamp> <code>` is appended to the log and shown first on screen, so the screen stays the reversed log. A picked, writable file gets the entry and a newline appended. A failed write leaves the entry in the log. |
| `ScanLog.ScanSession.HandleAddEntry` | script.js:56-63 | An entry is added exactly when the input is not all white space. An empty or white-space-only input changes nothing: log, screen, input and file stay as they were. Otherwise exactly one entry is added: the current timestamp, a space and the trimmed code. The input field is emptied. |
| `ScanLog.ScanSession.SelectFile` | script.js:79-101 | A dismissed picker keeps the previous handle. A picked file becomes the handle, even when permission is then refused. The outcome tells whether the file can be written. Its contents are not touched. |
| `ScanLog.ScanSession.Save` | script.js:125-136 | There is nothing to save exactly when the log is empty. Otherwise the download is the log joined with newlines, under the default name for the current time. The state is unchanged. |
| `ScanLog.ScanSession.Clear` | script.js:152-158 | If confirmed, the log, the screen and the input become empty; otherwise nothing changes. The picked file and its contents are never touched. |
| `ScanLog.ExportedLines` | script.js:132 | For entries without newlines, splitting the saved text at newlines gives back the log in order. The text holds one newline fewer than there are entries. |

## Left out

- The DOM is not modelled: element creation, class names, `innerHTML`, and keeping the input focused (`maintainFocus`, the blur handler). Only the list of entry texts on screen is kept.
- Event wiring is not modelled. Both the Enter key handler and the Add button handler call `HandleAddEntry`; `preventDefault` is left out.
- `addLogEntry` is asynchronous and `handleAddEntry` does not await it. The model completes the file write inside the call, so it leaves out interleavings: two quick scans whose writes overlap, or a write that finishes after the input was cleared.
- File contents are modelled as characters, not as the UTF-8 bytes the browser writes. The file's size is its length in characters, and the seek uses that length.
- Files.FileHandle.Append takes the permission settled at file selection as final. `createWritable` (script.js:112) checks readwrite permission itself and may prompt the user again; that request is not modelled. So when permission was refused, `ScanLog.ScanSession.WriteFile`, `AddLogEntry` and `HandleAddEntry` report a failed write where the browser might still ask and then succeed.
- The only write failure modelled is missing write permission. A revoked handle, a full disk or an I/O error while getting the file or the stream are left out. So is a stream that is not closed because a write threw.
- `alert`, `confirm` and `console.error` output is left out. The confirm answer is a parameter; the alerts appear only as the `WriteOutcome`, `SelectOutcome` and `SaveResult` values.
- The file picker's options (text files only, a single file) are left out; a picked file is a `FileHandle` parameter.
- `Blob` and object-URL creation, the download link click and revoking the URL are left out. `Save` returns the text and the file name it would offer.
- The clock is a parameter. The `DateTime` fields are what `getDate`, `getMonth`, `getFullYear`, `getHours`, `getMinutes` and `getSeconds` return; time zones and calendars are not modelled.
- Persisting the log in browser local storage is not done by this script and is not part of this model.
- ScanLog.ParseEntryText states that an entry reads back only for years 1000-9999, because it relies on the 19-character timestamp shape.
- Timestamps.FormatTimestampShape, Timestamps.ParseFormatTimestamp and ScanLog.DefaultFileNameShape state the 19-character shape for years 1000-9999 only. Other years print with another number of characters, as `FormatTimestampLayout` states for any year.
- ScanLog.ExportedLines assumes that no entry contains a newline. The script does not check this; the model assumes that the input field does not accept line breaks, which holds for a single-line text input. The page's markup and the browser's input sanitisation are not modelled.
