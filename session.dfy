/**
 * The scan log session: the log of entries kept in memory, the log element
 * that shows them newest first, the input field the reader types into, the
 * file picked for incremental saving, and the handlers that change them.
 * The clock and the user's answers to dialogs are parameters.
 */
module ScanLog {
  import opened Text
  import opened Timestamps
  import opened Files

  // ---------------------------------------------------------------------------
  // Entries

  /** The text of a log entry: the timestamp, a space, the scanned code. */
  function EntryText(timestamp: string, code: string): string
  {
    timestamp + " " + code
  }

  /** Reads a log line back into the time and the code it records. */
  function ParseEntry(line: string): Option<(DateTime, string)>
  {
    if |line| >= 20 && line[19] == ' ' then
      match ParseTimestamp(line[..19])
      case Some(t) => Some((t, line[20..]))
      case None => None
    else
      None
  }

  /** A line made of a readable timestamp, a space and a code reads back as that time and code. */
  lemma ParseEntryOf(timestamp: string, code: string)
    requires ParseTimestamp(timestamp).Some?
    ensures ParseEntry(EntryText(timestamp, code)) == Some((ParseTimestamp(timestamp).value, code))
  {
    var line := EntryText(timestamp, code);
    assert |timestamp| == 19;
    assert line[..19] == timestamp;
    assert line[20..] == code;
  }

  /** A line written for a scan reads back as that scan's time and code. */
  lemma ParseEntryText(t: DateTime, code: string)
    requires t.Valid() && 1000 <= t.year <= 9999
    ensures ParseEntry(EntryText(FormatTimestamp(t), code)) == Some((t, code))
  {
    ParseFormatTimestamp(t);
    ParseEntryOf(FormatTimestamp(t), code);
  }

  // ---------------------------------------------------------------------------
  // Display order

  /** The screen lists the log newest first: its k-th entry is the k-th from the end of the log. */
  predicate NewestFirst(display: seq<string>, log: seq<string>)
  {
    |display| == |log| && forall k :: 0 <= k < |display| ==> display[k] == log[|log| - 1 - k]
  }

  /** Showing an entry at the top while pushing it onto the log keeps the screen newest first. */
  lemma PrependPush(display: seq<string>, log: seq<string>, entry: string)
    requires NewestFirst(display, log)
    ensures NewestFirst([entry] + display, log + [entry])
  {
    var shown := [entry] + display;
    var logged := log + [entry];
    forall k | 0 <= k < |shown| ensures shown[k] == logged[|logged| - 1 - k] {
      if k > 0 {
        assert shown[k] == display[k - 1];
        assert logged[|logged| - 1 - k] == log[|log| - 1 - (k - 1)];
      }
    }
  }

  /** The log determines the screen: two screens that both show it newest first are the same. */
  lemma NewestFirstUnique(display: seq<string>, other: seq<string>, log: seq<string>)
    requires NewestFirst(display, log) && NewestFirst(other, log)
    ensures display == other
  {
    forall k | 0 <= k < |display| ensures display[k] == other[k] {
      assert display[k] == log[|log| - 1 - k];
    }
  }

  // ---------------------------------------------------------------------------
  // Export file name

  /** The characters the save handler's pattern /[\/: ]/g matches. */
  predicate IsNameSeparator(c: char)
  {
    c == '/' || c == ':' || c == ' '
  }

  /** Replaces every '/', ':' and space with '_' and keeps every other character. */
  function ReplaceSeparators(s: string): (r: string)
    ensures |r| == |s|
    ensures forall i :: 0 <= i < |s| ==> r[i] == (if IsNameSeparator(s[i]) then '_' else s[i])
  {
    if s == [] then [] else [if IsNameSeparator(s[0]) then '_' else s[0]] + ReplaceSeparators(s[1..])
  }

  /** The export name made from a timestamp text: separators replaced, ".txt" added. */
  function FileNameOf(timestamp: string): string
  {
    ReplaceSeparators(timestamp) + ".txt"
  }

  /** The default name of an exported log: the sanitised current timestamp and ".txt". */
  function DefaultFileName(now: DateTime): string
  {
    FileNameOf(FormatTimestamp(now))
  }

  /** A name made from any text holds no '/', ':' or space. */
  lemma FileNameOfHasNoSeparators(timestamp: string)
    ensures var name := FileNameOf(timestamp);
            forall i :: 0 <= i < |name| ==> !IsNameSeparator(name[i])
  {
    var replaced := ReplaceSeparators(timestamp);
    var name := FileNameOf(timestamp);
    forall i | 0 <= i < |name| ensures !IsNameSeparator(name[i]) {
      if i >= |replaced| {
        assert name[i] == ".txt"[i - |replaced|];
      }
    }
  }

  /** The default file name holds no '/', ':' or space, whatever the date. */
  lemma DefaultFileNameHasNoSeparators(now: DateTime)
    ensures var name := DefaultFileName(now);
            forall i :: 0 <= i < |name| ==> !IsNameSeparator(name[i])
  {
    FileNameOfHasNoSeparators(FormatTimestamp(now));
  }

  /** The name made from a text of the timestamp shape. */
  lemma FileNameOfShape(ts: string)
    requires TimestampShaped(ts)
    ensures var name := FileNameOf(ts);
            |name| == 23 && name[19..] == ".txt"
            && (forall i :: 0 <= i < 19 && IsSeparatorPosition(i) ==> name[i] == '_')
            && (forall i :: 0 <= i < 19 && !IsSeparatorPosition(i) ==> name[i] == ts[i] && IsDigit(name[i]))
  {
    var name := FileNameOf(ts);
    assert name[..19] == ReplaceSeparators(ts);
  }

  /**
   * With a four-digit year the default name is DD_MM_YYYY_HH_MM_SS.txt:
   * 23 characters, '_' where the timestamp has a separator, the timestamp's
   * digits everywhere else, and the ".txt" extension.
   */
  lemma DefaultFileNameShape(now: DateTime)
    requires now.Valid() && 1000 <= now.year <= 9999
    ensures var name := DefaultFileName(now); var ts := FormatTimestamp(now);
            |name| == 23 && name[19..] == ".txt"
            && (forall i :: 0 <= i < 19 && IsSeparatorPosition(i) ==> name[i] == '_')
            && (forall i :: 0 <= i < 19 && !IsSeparatorPosition(i) ==> name[i] == ts[i] && IsDigit(name[i]))
  {
    FormatTimestampShape(now);
    FileNameOfShape(FormatTimestamp(now));
  }

  // ---------------------------------------------------------------------------
  // Results of the handlers

  /** What an attempt to write an entry to the picked file came to. */
  datatype WriteOutcome =
    | NoFile        // no file picked: nothing is written
    | Written       // the entry line was appended to the file
    | WriteFailed   // the write was refused; the failure is reported to the user

  /** What the file selection handler came to. */
  datatype SelectOutcome =
    | Selected          // a file is picked and may be written
    | Cancelled         // the picker was dismissed; the previous handle stays
    | PermissionDenied  // a file was picked but write permission was refused

  /** What the save handler produces. */
  datatype SaveResult =
    | NothingToSave                          // the "No entries to save." notice
    | Download(data: string, fileName: string)  // the text offered for download and its name

  // ---------------------------------------------------------------------------
  // The session

  class ScanSession {
    /** The entries in the order they were added. */
    var log: seq<string>
    /** The entries shown in the log element, top first. */
    var display: seq<string>
    /** The value of the input field. */
    var input: string
    /** The picked file, or null before one has been picked. */
    var handle: FileHandle?

    /** The log element shows the entries newest first. */
    ghost predicate Valid()
      reads this
    {
      NewestFirst(display, log)
    }

    /** The state when the page loads. */
    constructor ()
      ensures Valid()
      ensures log == [] && display == [] && input == "" && handle == null
    {
      log := [];
      display := [];
      input := "";
      handle := null;
    }

    /** The reader (or the user) types text into the input field. */
    method SetInput(value: string)
      modifies this`input
      ensures input == value
    {
      input := value;
    }

    /**
     * writeFile: append content to the picked file; with no file picked it
     * returns at once.
     */
    method WriteFile(content: string) returns (outcome: WriteOutcome)
      modifies handle
      ensures handle == null ==> outcome == NoFile
      ensures handle != null ==>
                handle.writable == old(handle.writable)
                && outcome == (if handle.writable then Written else WriteFailed)
                && handle.contents == if handle.writable then old(handle.contents) + content
                                      else old(handle.contents)
    {
      if handle == null {
        return NoFile;
      }
      var ok := handle.Append(content);
      outcome := if ok then Written else WriteFailed;
    }

    /**
     * addLogEntry: show the entry at the top of the log element, append it to
     * the log and, when a file is picked, append the entry and a newline to
     * the file. A failed write is reported and the entry stays in the log.
     */
    method AddLogEntry(code: string, timestamp: string) returns (outcome: WriteOutcome)
      requires Valid()
      modifies this`log, this`display, handle
      ensures Valid()
      ensures log == old(log) + [EntryText(timestamp, code)]
      ensures display == [EntryText(timestamp, code)] + old(display)
      ensures handle == null ==> outcome == NoFile
      ensures handle != null ==>
                handle.writable == old(handle.writable)
                && outcome == (if handle.writable then Written else WriteFailed)
                && handle.contents == if handle.writable
                                      then old(handle.contents) + EntryText(timestamp, code) + "\n"
                                      else old(handle.contents)
    {
      var entryText := EntryText(timestamp, code);
      PrependPush(display, log, entryText);
      display := [entryText] + display;
      log := log + [entryText];
      outcome := NoFile;
      if handle != null {
        outcome := WriteFile(entryText + "\n");
      }
    }

    /**
     * handleAddEntry: trim the input; when something is left, log it with the
     * current time and empty the input field. Input that is empty or only
     * white space changes nothing, and stays in the field.
     */
    method HandleAddEntry(now: DateTime) returns (added: bool, outcome: WriteOutcome)
      requires Valid()
      modifies this`log, this`display, this`input, handle
      ensures Valid()
      ensures added <==> !AllSpace(old(input))
      ensures !added ==> log == old(log) && display == old(display) && input == old(input)
      ensures added ==>
                log == old(log) + [EntryText(FormatTimestamp(now), Trim(old(input)))]
                && display == [EntryText(FormatTimestamp(now), Trim(old(input)))] + old(display)
                && input == ""
      ensures handle != null ==>
                handle.writable == old(handle.writable)
                && handle.contents == if added && handle.writable
                                      then old(handle.contents) + EntryText(FormatTimestamp(now), Trim(old(input))) + "\n"
                                      else old(handle.contents)
      ensures outcome == if !added || handle == null then NoFile
                         else if handle.writable then Written else WriteFailed
    {
      var code := Trim(input);
      added := code != [];
      if !added {
        return added, NoFile;
      }
      var timestamp := FormatTimestamp(now);
      outcome := AddLogEntry(code, timestamp);
      input := "";
    }

    /**
     * The file selection handler: the picked handle is kept as soon as the
     * picker returns it, then write permission is queried and, if need be,
     * requested. A dismissed picker leaves the previous handle in place.
     */
    method SelectFile(picked: FileHandle?, userGrants: bool) returns (outcome: SelectOutcome)
      modifies this`handle, picked
      ensures picked == null ==> handle == old(handle) && outcome == Cancelled
      ensures picked != null ==>
                handle == picked
                && picked.contents == old(picked.contents)
                && picked.writable == (old(picked.writable) || userGrants)
                && outcome == if picked.writable then Selected else PermissionDenied
    {
      if picked == null {
        return Cancelled;
      }
      handle := picked;
      var granted := picked.RequestWritePermission(userGrants);
      outcome := if granted then Selected else PermissionDenied;
    }

    /**
     * The save handler: with no entries only the notice; otherwise the
     * entries joined by newlines, under the default name for the current time.
     */
    method Save(now: DateTime) returns (result: SaveResult)
      ensures result == NothingToSave <==> log == []
      ensures log != [] ==> result == Download(Join(log, "\n"), DefaultFileName(now))
    {
      if |log| == 0 {
        return NothingToSave;
      }
      var data := Join(log, "\n");
      var defaultFileName := DefaultFileName(now);
      result := Download(data, defaultFileName);
    }

    /**
     * The clear handler: when the user confirms, empty the log element, the
     * log and the input field. The picked file and its contents are not touched.
     */
    method Clear(confirmed: bool)
      requires Valid()
      modifies this`log, this`display, this`input
      ensures Valid()
      ensures confirmed ==> log == [] && display == [] && input == ""
      ensures !confirmed ==> log == old(log) && display == old(display) && input == old(input)
    {
      if confirmed {
        display := [];
        log := [];
        input := "";
      }
    }
  }

  /**
   * The saved text, split at its newlines, gives back the log, entry by entry
   * and in order: it holds one line per entry, so one newline fewer than entries.
   */
  lemma ExportedLines(log: seq<string>)
    requires log != []
    requires forall k :: 0 <= k < |log| ==> '\n' !in log[k]
    ensures Split(Join(log, "\n"), '\n') == log
    ensures Count(Join(log, "\n"), '\n') == |log| - 1
  {
    SplitJoin(log, '\n');
    SplitLength(Join(log, "\n"), '\n');
  }
}
