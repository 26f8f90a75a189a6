# Gecko triage tool: a verified model of `Triage_Tools`

Gecko's triage tool runs when an observer reports a problem at the telescope.
It writes a report file that starts with the observer's message. It then adds
the error and warning lines from the last 24 hours of every configured log,
and tries to take a screenshot of every configured VNC session. This project
models the core of the `Triage_Tools` class (`triage_package/triage_tool.py`)
in Dafny and proves what it promises.

The model has these parts:

- **Configuration** (`config_values.dfy`, module `ConfigValues`):
  - the `email_alerts` flag: lower-case, strip, compare with `"true"`;
  - the comma-separated `vnc_sessions` list read through Python's `int()`;
  - the report file name;
  - the first two writes to the report.
- **Python text primitives** (`text.dfy`, module `Text`):
  - `str.strip` with Python's whitespace set, `split` and `join` on one character;
  - `str(int)` and `int(str)`, including the sign, `_` separators and leading zeros;
  - the `02d` format.
- **Log combing** (`log_comb.dfy`, module `LogComb`):
  - the report section `_comb_logs` writes for each log path;
  - universal-newline reading of the file;
  - the case-insensitive, multi-line `error`/`warning` selection;
  - the leading `YYYY-MM-DD HH:MM:SS` stamp and its `strptime` validity;
  - the inclusive comparison with the cutoff;
  - the skipping of logs that are missing or cannot be read.
- **Screenshots** (`screenshots.dfy`, module `Screenshots`):
  - the session string, the VNC connect target, the screenshot name and path;
  - the trailing-slash normalisation of `reports_path`;
  - one capture attempt. The VNC connect-and-capture is an oracle function, and its
    `false` stands for any exception it raises.
- **The object** (`triage.dfy`, module `Triage`): class `TriageTools`.
  - Its fields are the attributes that `__init__` and `load_config` set, and
    that `_take_screenshots` updates (`reports_path`). `_comb_logs` sets no
    attribute: it only appends to the report file.
  - `report` is the sequence of strings written to the report file, in order.
  - The file system seen by `_comb_logs` is a map from path to `Option<string>`.
    A path not in the map does not exist. `None` is a file that exists but
    cannot be opened or read.
  - The clock readings (`utc_date`, `utc_time`, `cutoff`) are constructor inputs.

`ConfigValues.ParseSessionList` reads `vnc_sessions` as the source does: split
at commas, strip each piece, read it with `int()`; one piece that `int()`
rejects makes the whole load fail, as the `ValueError` does.
`ConfigValues.SessionListRoundTrip` proves that any non-empty list of session
numbers written with commas reads back as that list, and
`ConfigValues.EmptySessionListFails` that an empty value fails.

`LogComb.CombText` states which lines a file contributes:
- exactly the lines that mention error or warning and carry a stamp at or
  after the cutoff, in file order, with their multiplicities;
- nothing at all when one of the matched lines has a stamp that is not a real
  calendar date. `strptime` then raises inside the comprehension and the
  exception handler skips the rest of that file.

## Model

| member | source | states |
|---|---|---|
| LogComb.ValidDateTime | triage_package/triage_tool.py:210 | definition: the fields strptime and datetime accept: year 1-9999, month 1-12, day within the Gregorian month (leap years included), hour 0-23, minute 0-59, second 0-59 |
| LogComb.AtOrAfter | triage_package/triage_tool.py:210 | definition: naive datetime >=, field by field, most significant first, down to the microsecond |
| LogComb.ReadStamp | triage_package/triage_tool.py:209-210 | definition: no stamp when the line does not start with the 19-character pattern of ASCII digits and separators; a bad stamp when those fields are not a valid date-time; otherwise the date-time, with no microseconds |
| LogComb.ContainsFolded | triage_package/triage_tool.py:87 | definition: the word occurs somewhere in the line under IGNORECASE folding, tried at every start position |
| LogComb.Mentions | triage_package/triage_tool.py:205-206 | definition: the line contains "error" or "warning" in any letter case |
| LogComb.Lines | triage_package/triage_tool.py:205-206 | definition: the text split at every "\n", which are the lines the MULTILINE anchors delimit |
| LogComb.Recent | triage_package/triage_tool.py:209-210 | definition: the comprehension keeps a match when it starts with a stamp that strptime accepts and that is at or after the cutoff |
| LogComb.Header | triage_package/triage_tool.py:196 | definition: the section header written for a log path: two newlines, "=====", the path, "=====", a newline |
| LogComb.Terminated | triage_package/triage_tool.py:214-215 | definition: the writes for the kept lines: each line followed by "\n", in order |
| LogComb.LogSection | triage_package/triage_tool.py:195-224 | definition: the header for the path, then, when the file exists, reads and combs without an exception, each kept line followed by "\n" |
| LogComb.CombAll | triage_package/triage_tool.py:192-226 | definition: the sections of the paths, one after another in configuration order |
| ConfigValues.EmailAlertsFlag | triage_package/triage_tool.py:62-65 | definition: the value lower-cased and stripped equals "true" |
| ConfigValues.ParsePiece | triage_package/triage_tool.py:82 | definition: int() of one stripped piece; None where int() raises |
| ConfigValues.ParseInts | triage_package/triage_tool.py:82 | definition: the list comprehension over the pieces: one int per piece, in order, when every piece parses; None when any piece fails |
| ConfigValues.ParseSessionList | triage_package/triage_tool.py:81-82 | definition: split at commas, each piece read by ParsePiece; None when any piece fails |
| ConfigValues.ReportName | triage_package/triage_tool.py:86 | definition: <report_path>/<UTC date>/gecko_report_<UTC time>.txt |
| ConfigValues.InitialReport | triage_package/triage_tool.py:90-92 | definition: the two writes that open the report: the user banner, then the message and a blank line |
| Text.Strip | triage_package/triage_tool.py:62 | definition: the input without its leading and trailing runs of Python whitespace |
| Text.PyInt | triage_package/triage_tool.py:82 | definition: int() in base 10 after stripping: an optional sign, then ASCII digits with single underscores between digits; None where int() raises |
| Text.ZeroPadded | triage_package/triage_tool.py:150 | definition: format(n, "0<width>d"): the sign, then zeros, then the digits of the magnitude |
| Screenshots.SessionString | triage_package/triage_tool.py:150 | definition: f"{session:02d}" |
| Screenshots.ScreenshotName | triage_package/triage_tool.py:152 | definition: gecko_screenshot_<session string>_<UTC time>.png |
| Screenshots.PathJoin | triage_package/triage_tool.py:153 | definition: os.path.join of two components on POSIX: an absolute name wins; otherwise "/" is inserted unless the directory is empty or already ends in one |
| Screenshots.ConnectTarget | triage_package/triage_tool.py:157 | definition: host, ":59", then the session string |
| Screenshots.Attempt | triage_package/triage_tool.py:155-162 | definition: the names one session derives and whether the capture oracle succeeded; false stands for any exception the loop catches |
| Triage.TriageTools.constructor | triage_package/triage_tool.py:36-46 | the message, UTC date, UTC time and cutoff are those of the run; nothing has been written to the report and there are no sessions yet |
| Triage.TriageTools.LoadConfig | triage_package/triage_tool.py:51-92 | email_alerts is the flag of the configured value; the target email, reports path, host and password are copied; loading succeeds iff the session list parses; on success the sessions are the parsed list, the report name is built from path/date/time, and the report holds the user header then the message followed by a blank line; on failure the sessions, report name and report are unchanged |
| Triage.TriageTools.Store | triage_package/triage_tool.py:60-92 | the assignments load_config makes once values are derived: every setting is stored; sessions, report name and the first two report writes only when the session list parsed |
| Triage.TriageTools.TakeScreenshots | triage_package/triage_tool.py:139-162 | reports_path ends up normalised to end in "/"; one capture attempt per session, in session order, each with that session's names and target under the normalised directory, whatever earlier attempts returned |
| Screenshots.CaptureAll | triage_package/triage_tool.py:148-162 | one capture attempt per session, in session order, each carrying that session's string, target, path and the oracle's answer; a failed attempt does not stop the loop |
| Screenshots.CaptureOne | triage_package/triage_tool.py:149-162 | one pass of the session loop yields the attempt for that session |
| Triage.TriageTools.CombLogs | triage_package/triage_tool.py:188-226 | the report grows by exactly the sections of all configured log paths, in configuration order |
| Triage.TriageTools.CombOne | triage_package/triage_tool.py:192-226 | for one log path the report grows by its header, then the kept lines each followed by a newline; a missing or unreadable file, or one whose matches hold an invalid calendar stamp, contributes only the header |
| Triage.TriageTools.WriteLines | triage_package/triage_tool.py:213-215 | the report grows by each kept line followed by "\n", in order |
| LogComb.CombText | triage_package/triage_tool.py:205-211 | fails iff some error/warning line has a stamp that is not a calendar date; otherwise keeps, in file order, exactly the lines that mention error or warning and are stamped at or after the cutoff |
| LogComb.KeepRecent | triage_package/triage_tool.py:207-211 | fails iff some match has an invalid stamp; otherwise an order-preserving selection that keeps each match iff it is stamped at or after the cutoff |
| LogComb.SelectMentions | triage_package/triage_tool.py:205-206 | an order-preserving selection keeping exactly the lines containing "error" or "warning" in any letter case, with their multiplicities |
| LogComb.ContainsFoldedIff | triage_package/triage_tool.py:87 | the case-insensitive search finds the word iff some position of the line matches it letter by letter under case folding |
| LogComb.TranslateNewlines | triage_package/triage_tool.py:200-202 | text read in universal-newline mode holds no carriage return, and text without one is read unchanged |
| LogComb.TranslateCrLf | triage_package/triage_tool.py:200-202 | a "\r\n" pair is read as one "\n", and the text before it is read unchanged |
| LogComb.TranslateLoneCr | triage_package/triage_tool.py:200-202 | a "\r" not followed by "\n" is read as one "\n", and the text before it is read unchanged |
| LogComb.CrSeparatesLines | triage_package/triage_tool.py:200-206 | in a log written with bare carriage returns, each one still ends a line for the MULTILINE selection |
| LogComb.StampRoundTrip | triage_package/triage_tool.py:46 | a parsed stamp is a valid date-time with no microseconds, and formatting it gives back the first 19 characters of the line |
| LogComb.StampComplete | triage_package/triage_tool.py:209-210 | every valid date-time, formatted at the head of a line, is read back as that date-time |
| LogComb.BadStampIsNoDate | triage_package/triage_tool.py:209-210 | a stamp rejected as invalid is not the formatting of any valid date-time |
| LogComb.ThirteenthMonthIsBad | triage_package/triage_tool.py:210 | a stamp with month 13 has the right shape but is rejected as invalid |
| LogComb.AtOrAfterIsTotalOrder | triage_package/triage_tool.py:210 | the comparison with the cutoff is a total order: reflexive, total, antisymmetric, transitive |
| LogComb.CutoffIsInclusive | triage_package/triage_tool.py:210 | a line stamped exactly at the cutoff is kept |
| LogComb.CombTwoLines | triage_package/triage_tool.py:205-211 | of two matching lines, the one stamped before the cutoff is dropped and the one not before it is kept |
| LogComb.CutoffSeparatesLines | triage_package/triage_tool.py:205-211 | a log of an old and a recent stamped error line contributes exactly the recent one |
| LogComb.CombAllConcat | triage_package/triage_tool.py:192-193 | combing two lists of paths writes the first list's sections then the second's |
| LogComb.SkippedLogOnlyHeader | triage_package/triage_tool.py:197-226 | a missing or unreadable log among others contributes only its header and does not disturb the sections around it |
| LogComb.BadStampOnlyHeader | triage_package/triage_tool.py:207-224 | one matched line with an invalid calendar stamp reduces the file's section to its header |
| LogComb.SectionHeaders | triage_package/triage_tool.py:195-196 | each section holds exactly one header line, its own path's |
| LogComb.HeadersInOrder | triage_package/triage_tool.py:192-196 | the headers in the combed output are those of the configured paths, one each, in configuration order |
| ConfigValues.EmailAlertsFlagIff | triage_package/triage_tool.py:62-65 | email alerts are on iff the value, apart from surrounding whitespace, is "true" in any ASCII letter case |
| ConfigValues.SessionListRoundTrip | triage_package/triage_tool.py:81-82 | any non-empty list of ints written with commas parses back to that list |
| ConfigValues.ParseIntStrings | triage_package/triage_tool.py:82 | the decimal strings of a list of ints hold no comma and each parses back to its int |
| ConfigValues.PieceRoundTrip | triage_package/triage_tool.py:82 | int(str(x).strip()) == x and str(x) holds no comma |
| ConfigValues.EmptySessionListFails | triage_package/triage_tool.py:81-82 | an empty vnc_sessions value makes loading fail |
| Text.StripIsSlice | triage_package/triage_tool.py:62 | strip removes exactly the leading and trailing whitespace runs: the result is a slice with whitespace on both sides and non-whitespace at both ends |
| Text.SplitOfJoin | triage_package/triage_tool.py:82 | splitting a join on a separator absent from the parts gives back the parts |
| Text.Split | triage_package/triage_tool.py:82 | split gives at least one piece, no piece holds the separator, and the pieces join back to the input |
| Text.ZeroPaddedParses | triage_package/triage_tool.py:150 | a zero-padded decimal reads back as the number it formats |
| Text.ZeroPaddedLength | triage_package/triage_tool.py:150 | the padded string is as long as the width, or as str(n) when that is longer |
| Text.PyIntOfIntToString | triage_package/triage_tool.py:82 | int(str(n)) == n |
| Screenshots.SessionStringParses | triage_package/triage_tool.py:150 | the session string reads back as the session number |
| Screenshots.SessionStringLength | triage_package/triage_tool.py:150 | the session string has at least two characters, more only when str(session) is longer |
| Screenshots.SessionStringDigits | triage_package/triage_tool.py:150 | sessions 0-9 get one leading zero; every other session prints as str() prints it |
| Screenshots.ConnectTargetInjective | triage_package/triage_tool.py:157 | two sessions share a VNC connect target only if they are the same session |
| Screenshots.ScreenshotNameInjective | triage_package/triage_tool.py:152 | two sessions of one run share a screenshot name only if they are the same session |
| Screenshots.NormalizeDir | triage_package/triage_tool.py:145-146 | the result ends in "/", extends the input by at most that one character, and leaves a path already ending in "/" alone |
| Screenshots.NormalizeDirIdempotent | triage_package/triage_tool.py:145-146 | normalising twice is normalising once |
| Screenshots.JoinUnderNormalized | triage_package/triage_tool.py:153 | joining a relative name onto the normalised directory is plain concatenation |
| Screenshots.AttemptsDoNotCollide | triage_package/triage_tool.py:148-162 | distinct sessions never write the same screenshot path nor connect to the same target |
| Screenshots.OnlyFailedSessionUnsaved | triage_package/triage_tool.py:155-162 | when the capture raises for one session's target only, that session alone is unsaved |

## Left out

- `gather_system_info`: its values come from psutil, and it only writes them to the report.
- `gather_logs`, `compress_report`: they only copy files and build a tar archive through shutil and tarfile.
- `send_report`: it calls `add_attachment()` with no arguments and opens an SMTP connection, neither of which has a meaning to model.
- `__gather_instrument_info`, `__generate_report`: their bodies are empty.
- `package/triage_tool.py` is not part of this model. It holds stub copies of the same class.
- The configuration file is not parsed. Its values come in as a `Config` record. A missing file, section or key (`FileNotFoundError`, `KeyError`) and configparser's `DEFAULT` section are not modelled.
- `cpu_threshold`, `memory_threshold`, `os` and `os_version` are copied by `load_config` but used by nothing in the core, so they are not fields.
- The clock: `datetime.now` readings (the UTC date and time strings and the local-time cutoff) are inputs. Mixing UTC and local time is the caller's concern.
- `os.mkdir` of the dated report folder, and any write failure on the report file, are not modelled. The report is the sequence of writes.
- Console `print` output is not modelled.
- The race between `os.path.exists` and `open` is folded into "cannot be read", as is a text-decoding error while reading.
- `\d` and `int()` accept only ASCII digits in this model. Python also accepts other Unicode decimal digits.
- `str.lower` is modelled on ASCII letters only. The case-insensitive search models Python's folding for the letters of "error" and "warning", including the dotted and dotless `i`.
- Regex-engine behaviour other than the `error`/`warning` line selection and the stamp prefix is not modelled.
- The VNC connect-and-capture and how the VNC client reads `host:59NN` are an oracle: `Attempt` records the derived names and the oracle's answer.
- The capture oracle `grab` always returns. In the source, `api.connect` has no timeout, so a capture that never returns stops the loop at that session. The one-attempt-per-session promise of `CaptureAll` and `TakeScreenshots` holds only for captures that finish.
- The file system `fs` is fixed for the whole of `CombLogs` and kept apart from `report`. In the source the report is itself a file. A `[Logs]` path equal to the report file would be read back with its own header already appended. The model does not capture that aliasing.
- Text.PyInt: Python 3.11 and later also reject, by default, decimal strings of more than 4300 digits. `PyInt` accepts them.
