# audio-split-helper in Dafny

A model of `generate_script` from `audio_split_helper.py`, with proofs. This function takes a CSV of performances and produces a bash script. The CSV gives a date, time, artist, start and end for each performance. The reference timestamp names a moment in the recording, and the recording datetime says when that moment happened. The script cuts one audio file into one `.mp3` per performance with `ffmpeg`, and names each file after the wall-clock time and the artist.

The model is functional. The CSV arrives as rows already split into fields, `seq<seq<string>>`. The recording datetime is an integer instant. The `strftime("%Y-%m-%d_%H%M")` formatter is a function parameter `format: int -> string`. The Python exceptions the code can raise become `Err(ValueError)`, `Err(IndexError)` or `Err(OverflowError)` in a `Result`.

| file | module | what it holds |
|---|---|---|
| `results.dfy` | `Results` | `Result`/`Option`, and the three Python exceptions the modelled code can raise |
| `text.dfy` | `Text` | `str.split` on one character, `join`, one-character `replace`, the `in` test on strings |
| `decimal.dfy` | `Decimal` | `int()` on digit strings, `str()` of a natural number |
| `audio_split.dfy` | `AudioSplit` | the core: row filtering, `time_to_seconds`, reference parsing, filename instant, artist sanitising, `ffmpeg` commands, script assembly |
| `time_properties.dfy` | `TimeProperties` | what the time parsers compute, field by field |
| `name_properties.dfy` | `NameProperties` | the sanitiser as a per-character map; the file word of each command |
| `command_properties.dfy` | `CommandProperties` | the shell words of each command line |
| `script_properties.dfy` | `ScriptProperties` | which rows become commands, in what order, and what surrounds them |
| `suite_examples.dfy` | `SuiteExamples` | what the model gives for the CSV inputs of the repository's test suite |
| `saved_file.dfy` | `SavedFile` | `save_to_file`, and how the command-line entry point calls it (see Findings) |

Behaviours of the code that the model keeps:
- **Error order in the reference.** `int(parts[0])` is evaluated before `parts[1]` is indexed. So `"abc"` fails with ValueError, while `"12:30"` fails with IndexError because it has no third field. Fields after the third are ignored.
- **Four or more fields in a start or end time.** `time_to_seconds` falls through all three branches and returns 0.
- **The range of `timedelta`.** A duration of 1000000000 days (86400·10^9 seconds) or more raises OverflowError, both in `time_to_seconds` and in the reference; `timedelta` holds at most 999999999 whole days and part of the next. An example is the end field `99999999999:00:00`. All fields are read first, so a field `int()` rejects raises ValueError before any overflow. Current Python's `int()` also rejects digit strings of more than 4300 digits; the model does not (see "## Left out").
- **The `-to` argument.** `-to` is left out only for an empty end field. An end that parses to 0 still gives `-to 0`.
- **Script shape.** The script always has the four prologue entries and the closing `echo`, even with no command between them.

## Model

| member | source | states |
|---|---|---|
| AudioSplit.DataSegments | audio_split_helper.py:35-40 | The tuples of the data rows: at most one per row |
| AudioSplit.SelectSegments | audio_split_helper.py:29-40 | The tuples of a whole CSV: fewer tuples than rows, since the title row never yields one |
| AudioSplit.CollectSegments | audio_split_helper.py:29-40 | The reading loop, with its counter that skips the first row and its length test, collects exactly the tuples of rows 2.. that have at least five fields, in row order |
| AudioSplit.DataSegmentsAppend | audio_split_helper.py:30-40 | Filtering distributes over concatenation of the row list, so tuples keep their rows' order |
| ScriptProperties.HeaderIgnored | audio_split_helper.py:29-33 | The title row never yields a tuple: replacing it by any other row leaves the tuples unchanged, even when it has five or more fields |
| ScriptProperties.HeaderNeverCommand | audio_split_helper.py:29-33 | Replacing the title row by any other row leaves the whole generated script unchanged |
| ScriptProperties.RowContributes | audio_split_helper.py:30-40 | Each data row j contributes its own tuple, or nothing when it has fewer than five fields, placed between the tuples of the rows before and after it |
| ScriptProperties.ShortRowsDropped | audio_split_helper.py:35-40 | Rows with fewer than five fields contribute no tuple |
| ScriptProperties.WideRowsKept | audio_split_helper.py:35-37 | When every row has five or more fields, there are as many tuples as rows, and tuple k is fields 0-4 of row k |
| Decimal.ParseNat | audio_split_helper.py:47-51 | `int()` succeeds exactly on non-empty digit strings; anything else (including `""`) is ValueError. The 4300-digit limit of current Python is not modelled (see "## Left out") |
| Decimal.ParseNatToString | audio_split_helper.py:83 | The decimal text the f-string writes for a number reads back as that number |
| Decimal.NatToStringParse | audio_split_helper.py:83 | A digit string without a leading zero is the decimal text of its value |
| Text.SplitCount | audio_split_helper.py:45 | `split(":")` gives one piece more than there are colons, empty pieces included |
| Text.JoinSplit | audio_split_helper.py:45 | Joining the pieces of a split with the separator gives back the original string |
| Text.SplitJoin | audio_split_helper.py:9 | Splitting a join of separator-free pieces at the separator gives back the pieces |
| Text.ReplaceChar | audio_split_helper.py:76 | After `replace`, the target character is gone unless the replacement brings it back; every other character of the input survives, and no character appears that was in neither the input nor the replacement |
| AudioSplit.Timedelta | audio_split_helper.py:18-20 | Building a `timedelta` from hours, minutes and seconds succeeds exactly when the total stays below 1000000000 days (86400·10^9 seconds); otherwise it raises OverflowError |
| AudioSplit.TimeToSeconds | audio_split_helper.py:43-52 | `time_to_seconds` never raises IndexError: its fields are indexed only after their count is checked. It can raise only ValueError from `int()` or OverflowError from `timedelta` |
| AudioSplit.ParseReference | audio_split_helper.py:18-20 | A reference that parses has at least three colon-separated fields, and its value lies within the `timedelta` range |
| TimeProperties.TimeToSecondsThreeFields | audio_split_helper.py:45-52 | `H:M:S` with digit fields is `3600*H + 60*M + S` seconds, or OverflowError when that reaches 1000000000 days (86400·10^9 seconds) |
| TimeProperties.TimeToSecondsTwoFields | audio_split_helper.py:48-52 | `M:S` with digit fields is `60*M + S` seconds, or OverflowError beyond the range |
| TimeProperties.TimeToSecondsOneField | audio_split_helper.py:50-52 | A single digit field `S` is `S` seconds, or OverflowError beyond the range |
| TimeProperties.TimeToSecondsOverflows | audio_split_helper.py:47-52 | A time whose hours field is 24000000000 or more, such as `99999999999:00:00`, raises OverflowError. In current Python a field of more than 4300 digits raises ValueError instead (see "## Left out") |
| TimeProperties.TimeToSecondsManyFields | audio_split_helper.py:44-52 | A time with three or more colons matches no branch and is 0 seconds, whatever its fields hold |
| TimeProperties.TimeToSecondsFails | audio_split_helper.py:45-51 | `time_to_seconds` raises ValueError exactly when the time has at most three fields and one of them is not a number. Current Python also raises it for a field of more than 4300 digits (see "## Left out") |
| TimeProperties.TimeToSecondsClock | audio_split_helper.py:43-52 | Writing hours, minutes and seconds as `H:M:S` and parsing the result gives `3600*h + 60*m + s`, or OverflowError beyond the range |
| TimeProperties.ParseReferenceCases | audio_split_helper.py:18-20 | The reference parses exactly when its first three fields are numbers whose total stays in the `timedelta` range, and then to `3600*h + 60*m + s`. It fails with IndexError exactly when it has fewer than three fields and all of them are numbers. It fails with OverflowError exactly when there are three number fields whose total leaves the range. Every other failure is ValueError |
| TimeProperties.ReferenceAgreesOnThreeFields | audio_split_helper.py:18-20 | On a three-field stamp, reference parsing and `time_to_seconds` give the same result, the same error included |
| TimeProperties.ReferenceAndTimeOnFourFields | audio_split_helper.py:18-20 | On a four-field stamp the two disagree: the reference reads the first three fields, while `time_to_seconds` gives 0 |
| TimeProperties.ShortReference | audio_split_helper.py:18-20 | A reference of two digit fields fails with IndexError |
| TimeProperties.InvalidReference | tests/test_general.py:60-63 | `"invalid:timestamp"` fails with ValueError |
| ScriptProperties.InvalidReferenceScript | tests/test_general.py:60-63 | With the reference `"invalid:timestamp"`, the whole script fails with ValueError, whatever the rows |
| AudioSplit.SanitiseArtist | audio_split_helper.py:76 | The sanitised artist contains no space, `+` or `/`, and every other character of the artist is still there |
| NameProperties.SanitiseIsCharwise | audio_split_helper.py:76 | The three chained replacements act as one left-to-right map: space and `/` become `-`, `+` becomes `plus`, everything else is kept |
| NameProperties.SanitiseIdempotent | audio_split_helper.py:76 | Sanitising a sanitised name changes nothing |
| NameProperties.SanitiseTwoWords | audio_split_helper.py:76 | Two words without space, `+` or `/`, separated by a space, become the words joined by `-`; dashes already present are kept |
| NameProperties.SanitiseArtistA | tests/test_general.py:34 | `"Artist A"` becomes `"Artist-A"` |
| AudioSplit.FilenameInstant | audio_split_helper.py:55-56 | Defines the filename instant: the recording instant moved by the start's distance from the reference (no contract; its property is stated by the next two rows) |
| NameProperties.FileWordOffset | audio_split_helper.py:55-79 | The last shell word of a segment's command is the quoted file `format(recording + start - reference)_<sanitised artist>.mp3`, where `start` is `time_to_seconds` of the start field and `reference` is the parsed reference timestamp |
| NameProperties.FileWordAtReference | audio_split_helper.py:55-79 | A segment whose start equals the parsed reference writes to the file named after the recording datetime itself: `format(recording)_<sanitised artist>.mp3` |
| AudioSplit.OutputFile | audio_split_helper.py:79 | The output filename ends in `.mp3`, and the part after the formatted instant holds no space and no `/`, whatever the artist |
| CommandProperties.OutputFileHasNoSpace | audio_split_helper.py:76-79 | With a formatter whose output has no space, the output filename has no space |
| AudioSplit.EndSeconds | audio_split_helper.py:70 | An empty end field means no end time. Any other end field succeeds exactly when `time_to_seconds` does, and carries its value |
| AudioSplit.Command | audio_split_helper.py:82-85 | Defines the two command templates, with `-to` only when there is an end (no contract; `CommandProperties.CommandWordsMeaning` states what its words carry) |
| AudioSplit.SegmentCommand | audio_split_helper.py:68-85 | A tuple gives a command exactly when its start and end parse; a failure is never IndexError |
| CommandProperties.CommandSplitsIntoWords | audio_split_helper.py:82-85 | When the output filename has no space, splitting a command at spaces gives its argument words |
| CommandProperties.CommandWordsMeaning | audio_split_helper.py:82-85 | The command words are `ffmpeg -i "$input_file" -ss <start>`, then `-to <end>` exactly when there is an end, then `-c:a copy "<file>"`. The start and end words parse back to the start and end seconds |
| CommandProperties.SegmentCommandArguments | audio_split_helper.py:68-85 | For a tuple's command: `-ss` carries `time_to_seconds(start)`; `-to` appears exactly when the end field is non-empty and then carries `time_to_seconds(end)`; the last word is the quoted file named after the shifted instant and the sanitised artist |
| ScriptProperties.CommandIsEntry | audio_split_helper.py:82-85 | Every command line starts with `ffmpeg -i` |
| AudioSplit.Commands | audio_split_helper.py:68-88 | The tuples give commands exactly when each tuple does. There is one command per tuple, and command k is tuple k's command. A failure is never IndexError |
| AudioSplit.ScriptEntries | audio_split_helper.py:60-91 | The script lines are the four prologue entries, one command per tuple in order, and the closing echo: `5 + N` entries for N tuples |
| ScriptProperties.CommandEntriesArePositions | audio_split_helper.py:60-91 | Of the `5 + N` entries, exactly those at positions 4 to 3+N start with `ffmpeg -i`; the fixed ones do not |
| ScriptProperties.FixedTextHasNoCommand | audio_split_helper.py:60-94 | The prologue and epilogue joined by newlines contain `ffmpeg -i` nowhere, not even across a line break |
| AudioSplit.GenerateScript | audio_split_helper.py:17-94 | A reference that fails to parse fails the whole call with its own error, before any row is looked at. Otherwise the call succeeds exactly when every accepted tuple gives a command |
| ScriptProperties.ScriptHasCommandIffSegments | audio_split_helper.py:60-94 | A successfully generated script contains `ffmpeg -i` exactly when at least one data row was accepted |
| ScriptProperties.ShortRowsGiveNoCommands | tests/test_general.py:37-44 | When no data row has five fields, the script is the prologue plus the epilogue and contains `ffmpeg -i` nowhere |
| SuiteExamples.ReferenceSeconds | tests/test_general.py:17 | `01:26:31` is 5191 seconds |
| SuiteExamples.FirstCommand | tests/test_general.py:19-21 | The first row of the valid CSV gives `-ss 300 -to 600`, into the file for the instant 4891 s before the recording instant, with `Artist-A` |
| SuiteExamples.ValidCsvEntries | tests/test_general.py:27-35 | The valid CSV gives a script, and the fifth entry of `script_lines` is the first row's command |
| SuiteExamples.ValidCsvScript | tests/test_general.py:27-35 | The valid CSV's script contains `ffmpeg -i` and `Artist-A.mp3` |
| SuiteExamples.ShortCsvScript | tests/test_general.py:37-44 | The four-column CSV's script contains `ffmpeg -i` nowhere |
| SavedFile.FileText | audio_split_helper.py:6-9 | The text `save_to_file` writes ends in a newline and starts with the first line |
| SavedFile.FileHoldsEveryLine | tests/test_general.py:65-78 | Every line given to `save_to_file` appears in the file's text |
| SavedFile.FileSplitsIntoLines | audio_split_helper.py:6-9 | Splitting the file at newlines gives back lines that contain no newline, followed by one empty piece from the final newline |
| SavedFile.SavedAsWritten | audio_split_helper.py:112-115 | Models the entry point as written: the `str` script is handed to `save_to_file`, so each of its characters becomes a saved line (no contract; `SavedAsWrittenDoubles` states what it produces) |
| SavedFile.SavedAsWrittenDoubles | audio_split_helper.py:112-115 | As written, a saved script of n characters becomes 2n characters, one newline after each; for n >= 2 this differs from the intended file |
| SavedFile.SavedAsWrittenExample | audio_split_helper.py:115 | As written, `"ab"` is saved as `"a\nb\n"`, while the intended file is `"ab\n"` |
| SavedFile.SavedScript | audio_split_helper.py:112-115 | The intended file is the script followed by one newline |

## Left out

- CSV reading (audio_split_helper.py:27-28): opening the file and the `csv` module's tokenising and quoting are not modelled, and rows arrive already split. The test suite's CSV lines start with eight spaces, and its last line is only spaces. The example rows in `SuiteExamples` keep both: the leading spaces belong to the date field, and the space-only line is a one-field row.
- Debug output and the final `print(final_script)` (lines 25-26, 39-40, 95): side effects only.
- `datetime.strptime` of the recording datetime (line 21): the recording instant is given as an integer number of seconds. A malformed recording datetime raising ValueError is therefore not modelled.
- `strftime("%Y-%m-%d_%H%M")` (line 57): `format` is a parameter. Calendar details and minute truncation are not modelled.
- AudioSplit.FilenameInstant: the addition of a `timedelta` to the recording datetime (line 56) raises OverflowError when the result leaves the years 1 to 9999. The recording instant is an unbounded integer here, so that error is not modelled.
- `timedelta(...).total_seconds()` returns a float (lines 18-20, 52). The model uses exact naturals. Every duration within the `timedelta` range is below 2^53 seconds, so the float is exact and `int(...)` at line 69 loses nothing.
- CommandProperties.SegmentCommandArguments: the requirement that the formatter output contains no space holds for `%Y-%m-%d_%H%M`, but the formatter itself is not modelled.
- Decimal.ParseNat: only non-empty ASCII digit strings are accepted. Python's `int()` also accepts surrounding whitespace, a sign, underscores between digits and non-ASCII digits. A time such as `" 5"` or `"-5"` is a ValueError in the model but not in Python. In the other direction, Python 3.11 and later (and the 2022 security releases of 3.7 to 3.10) reject with ValueError any digit string longer than `sys.get_int_max_str_digits()`, 4300 by default, leading zeros included. The model accepts any length, because the limit depends on the Python version and on runtime settings. So a field of 4301 ones overflows in the model but is a ValueError in such a Python, and a field of 4301 zeros is 0 in the model. `str()` has the same limit, but the numbers the f-string at line 83 writes are below 86400·10^9, which is 14 digits.
- TimeProperties.TimeToSecondsFails: ValueError from the digit limit of `int()` is not part of the characterisation, as explained under `Decimal.ParseNat`.
- TimeProperties.TimeToSecondsOverflows: an hours field of more than 4300 digits raises ValueError in current Python instead of OverflowError, as explained under `Decimal.ParseNat`.
- The `row[4] if len(row) >= 5 else None` at line 37 is inside a branch where `len(row) >= 5` always holds, so its `None` arm is dead. The model keeps `row[4]`.
- The `argparse` block and its messages (lines 99-114) are not modelled, including the message at line 114, which lacks its `f` prefix.
- `save_to_file` is modelled only through the text it writes (`SavedFile.FileText`); the file I/O is not.

## Findings

| source | as written | input that shows it | evidently intended | confidence | as-written member | corrected member |
|---|---|---|---|---|---|---|
| audio_split_helper.py:115 | The finished script, a `str`, is passed to `save_to_file`, which joins its argument with newlines; a `str` is joined character by character | script `"ab"` is saved as `"a\nb\n"` | the file holds the script followed by one newline, `"ab\n"` | high, not executed | SavedFile.SavedAsWrittenDoubles | SavedFile.SavedScript |
