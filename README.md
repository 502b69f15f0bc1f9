# GstValidate test harness: the row loop of `run_tests`

`gst_test.py` drives `gst-validate-1.0` over a list of media files and
scenarios read from a CSV file. It runs the validator once per row that is not skipped, gives
each run ten minutes, logs each run's output to `<log_dir>/<scenario>.log`,
counts passes, failures and timeouts, and writes an HTML report with one
coloured row per test plus a pass rate. This project models the part of
`run_tests` that decides things, with the I/O taken out:

- **Text.dfy** holds the Python string operations the loop relies on:
  - `str.strip()`, using the full `str.isspace()` character set;
  - `str.startswith`;
  - `" ".join`;
  - `"=" * 50`;
  - the two-argument POSIX `os.path.join`, where an absolute second argument replaces the first.
- **Cases.dfy** holds the rules for one row:
  - the skip rule and how fields are read;
  - the validator's argument vector, its `file:///streams/` URI and the scenario path under `/usr/share/gstreamer-1.0/validate/scenarios/`;
  - the log file's name, path and contents;
  - the classification of the child's outcome into PASS / FAIL / TIMEOUT and the recorded exit code (a return code or `KILLED`);
  - the row colour and the report row.
- **Harness.dfy** holds the loop itself and what it is specified by:
  - `RunRows` is a `while` loop over the rows. It updates the four counters, the report rows and the log directory in place.
  - `RunRow` is one pass of that loop: skip the row, or read the case and call `RecordCase`.
  - `RecordCase` runs one case through `RunCase` and counts it, logs it and reports it.
  - `RunTests` adds the zero-guarded pass rate.

  The loop is proved against `StateAfter`, a row-by-row fold. That fold is in turn proved equal to three independent specifications:
  - `TallyOf(Statuses(outcomes))`, the counters;
  - `Report(...)`, the table rows in case order;
  - `Overwrite(existing, LogWrites(...))`, the log directory: the files already in it, with one `"w"` write per case over them.

The validator is not run. Each run's result is a value of type `Outcome`:
either it exited with a return code and output, or it timed out with the
output it had produced by then. `outcomes[k]` is the result of the k-th
validator call, made for the k-th row that is not skipped, so the loop
methods require exactly one outcome per case. The log directory is a map
from path to file contents. It starts as `existing`, the files already in
`log_dir`: the source creates the directory only when it is missing and
never empties it.

Behaviours the model reproduces as the code has them:
- **Comment test.** A row is skipped only when it is empty or its first field, as read, starts with `#`.
  - `" #x"` is a case named `#x`.
  - A row with an empty first field is a case.
- **Scenario path and log link.** The scenario path and the log path are built with `os.path.join`, but the report's link is built by concatenating `log_dir + "/" + name`.
  - The link and the log path agree when the scenario name is relative and `log_dir` is non-empty with no trailing slash.
  - An absolute scenario name writes the log outside `log_dir` while the link still points inside it. This is `LinkMatchesLogPath`.
  - A relative scenario name with `..` components, such as `../x`, gives a log path that starts with `log_dir` as text but names a file outside it.
- **Old files stay.** A file already in `log_dir` that no case writes keeps its contents, so it ends up in the tarball beside the new logs. This is `OtherFilesSurvive`.
- **Shared log files.** Two rows with the same scenario name share one log file, and the later run's log replaces the earlier one. This is `LastWriterKeepsItsLog`, which compares log paths as text.

## Model

| member | source | states |
|---|---|---|
| Text.TrimStartIsWhitespaceFreeSuffix | gst_test.py:39-40 | dropping leading whitespace leaves a suffix; every dropped character is whitespace and the rest does not start with whitespace |
| Text.TrimEndIsWhitespaceFreePrefix | gst_test.py:39-40 | the same at the other end: a prefix whose dropped tail is all whitespace and whose last character is not whitespace |
| Text.StripRemovesOnlyEdgeWhitespace | gst_test.py:39-40 | `strip()` returns the contiguous slice of the field between its leading and trailing whitespace; everything removed is whitespace and the result neither starts nor ends with whitespace |
| Text.StripIdempotent | gst_test.py:39-40 | stripping an already stripped field changes nothing |
| Text.Strip | gst_test.py:39-40 | a stripped field is no longer than the field and neither starts nor ends with whitespace |
| Text.Join | gst_test.py:56 | joining no parts gives the empty string; otherwise the result starts with the first part |
| Text.JoinEnds | gst_test.py:56 | when a second part follows, the joined text starts with the first part and the separator; it always ends with the last part |
| Text.AbsoluteIgnoresSuffix | gst_test.py:46-47 | appending a suffix that does not start with `/` keeps a name absolute or relative, so `<scenario>.log` is absolute exactly when the scenario name is |
| Text.Repeat | gst_test.py:56 | `"=" * n` has length n and consists only of `=` |
| Text.PathJoin | gst_test.py:43 | POSIX `os.path.join(a, b)`: an absolute `b` is the result; otherwise the result starts with `a` and ends with `b`, with exactly one `/` inserted when `a` is non-empty and does not end with `/` |
| Cases.IsSkipped | gst_test.py:36 | a row is skipped if and only if it is empty or its first field, as read, starts with `#` |
| Cases.ParseRow | gst_test.py:36-40 | a row is skipped if and only if it is empty or its unstripped first field starts with `#`; otherwise the file name is the stripped first field and the scenario name is the stripped second field, or the file name when there is no second field |
| Cases.ParseRowRoundTrip | gst_test.py:39-40 | a case whose names carry no surrounding whitespace, and whose file name does not start with `#`, written as a two-field row, is read back as the same case |
| Cases.IndentedHashIsNotComment | gst_test.py:36-40 | the row `" #x"` is not a comment: it is the case (`#x`, `#x`) |
| Cases.EmptyFirstFieldIsACase | gst_test.py:36-40 | the row `"", "x"` is not skipped: it is the case with an empty file name and scenario `x` |
| Cases.Uri | gst_test.py:42 | the URI starts with `file:///streams/` and is as long as that prefix and the file name together |
| Cases.ScenarioPath | gst_test.py:43 | the scenario path ends with the scenario name followed by `.scenario` |
| Cases.Command | gst_test.py:44 | the argument vector has six entries and starts with `gst-validate-1.0` |
| Cases.CommandCarriesCase | gst_test.py:42-44 | the third argument is `uri=file:///streams/` followed by the file name; for a relative scenario name the last argument is the base directory, the name and `.scenario`, from which the name can be read back; an absolute name gives `<name>.scenario` |
| Cases.LogFileName | gst_test.py:46 | the log file name is the scenario name followed by `.log`: it starts with the name, ends with `.log` and is exactly four characters longer |
| Cases.LogPath | gst_test.py:47 | the log path ends with the scenario name followed by `.log` |
| Cases.LogPathStaysInLogDir | gst_test.py:47 | for a relative scenario name the log path starts with the log directory, as text |
| Cases.LogLink | gst_test.py:90 | the report's link starts with the log directory followed by `/` |
| Cases.LinkMatchesLogPath | gst_test.py:46-47 | the report link equals the log path when the log directory is non-empty without a trailing slash and the scenario name is relative; for an absolute scenario name the log path is `<name>.log` and the link differs from it |
| Cases.LogHeader | gst_test.py:56 | the header starts with `Command: `, the space-joined argument vector and a newline, ends with 50 `=` and a newline, and is exactly as long as those two parts together, so nothing lies between them |
| Cases.LogText | gst_test.py:55-76 | the final log starts with the header; after a timeout it ends with the timeout notice |
| Cases.LogTextHoldsOutput | gst_test.py:55-76 | the log is exactly as long as the header, the child's output and, after a timeout, the notice, and the child's output sits unchanged right after the header |
| Cases.LogFirstLineIsCommand | gst_test.py:56 | when the names contain no newline, the first line of every log is exactly `Command: ` and the space-joined command |
| Cases.ArgumentsHaveNoLineBreak | gst_test.py:42-44 | no argument of the command contains a newline when the names contain none |
| Cases.CommandHasNoLineBreak | gst_test.py:56 | the command line contains no newline when the names contain none |
| Cases.ScenarioPathHasNoLineBreak | gst_test.py:43 | the scenario path contains no newline when the scenario name contains none |
| Cases.Classify | gst_test.py:63-75 | PASS if and only if the child exited with 0; FAIL if and only if it exited with anything else; TIMEOUT if and only if it timed out; the exit code is `KILLED` exactly on a timeout and otherwise the return code unchanged |
| Cases.ColourDistinguishesStatus | gst_test.py:83 | two statuses get the same colour if and only if they are equal, so PASS, TIMEOUT and FAIL rows are told apart by colour alone |
| Cases.Colour | gst_test.py:83 | every row colour is a seven-character `#rrggbb` code |
| Cases.MakeRow | gst_test.py:83-92 | a report row carries the case's scenario and file names, its status and exit code as classified, the colour of that status, and a link ending in the log file name |
| Harness.CasesOf | gst_test.py:35-40 | there are no more cases than rows |
| Harness.CasesCountKeptRows | gst_test.py:36-38 | the number of cases is the number of rows that are not skipped |
| Harness.CasesOfAppend | gst_test.py:35 | the cases of two blocks of rows are those of the first block followed by those of the second, so cases keep CSV order |
| Harness.CasesOfOneRow | gst_test.py:36-40 | a single row yields its parsed case, or nothing when it is skipped |
| Harness.FilterMapCount | gst_test.py:35-38 | a filtered list has as many elements as there are positions kept |
| Harness.Statuses | gst_test.py:63-75 | there is one status per outcome |
| Harness.StatusesAt | gst_test.py:63-75 | status k is the classification of outcome k |
| Harness.Step | gst_test.py:63-75 | one case raises the total by one, raises exactly the counter of its status by one and leaves the other two unchanged |
| Harness.TallyOf | gst_test.py:20-23 | after any sequence of statuses, starting from zero, the total is their number and passed + failed + timed out equals the total |
| Harness.TallyCountsStatuses | gst_test.py:63-75 | each counter equals the number of cases with that status |
| Harness.AllPassedIff | gst_test.py:63-65 | the pass counter reaches the total if and only if every case passed |
| Harness.Report | gst_test.py:84-92 | the table has exactly one row per case |
| Harness.ReportAt | gst_test.py:84-92 | row k of the table is the report row of case k with outcome k, so the rows keep case order |
| Harness.ReportAgreesWithTally | gst_test.py:84-92 | the status shown in row k is the status counted for case k |
| Harness.ReportIgnoresLogDir | gst_test.py:84-92 | apart from the link, the table does not depend on the log directory |
| Harness.Overwrite | gst_test.py:55 | after a series of writes over a directory's files, the path of the last write holds what that write wrote |
| Harness.OverwriteKeys | gst_test.py:55 | after a series of writes, the files that exist are exactly the files that were there before together with the paths written |
| Harness.OverwriteSize | gst_test.py:55 | after a series of writes there are at most as many files as before plus one per write |
| Harness.OverwriteLastWriter | gst_test.py:55 | a path holds what the last write to it wrote |
| Harness.OverwriteKeepsUntouched | gst_test.py:55 | a file that was there before and that no write touches keeps its contents |
| Harness.LogWrites | gst_test.py:55-56 | there is one log write per case |
| Harness.LogWritesAt | gst_test.py:47-76 | write k goes to case k's log path and writes case k's log text |
| Harness.LogsAreTheCasesLogs | gst_test.py:26-55 | every case's log path exists in the log directory afterwards, every file that was there before still exists, and every other file there is the log path of some case |
| Harness.OtherFilesSurvive | gst_test.py:26-55 | a file already in the log directory that is no case's log path keeps its contents |
| Harness.LastWriterKeepsItsLog | gst_test.py:46-76 | a case's log file holds that case's own log unless a later case has the same log path, compared as text |
| Harness.PassRate | gst_test.py:95 | the rate is 0 when there are no cases; with passed ≤ total it lies in [0, 100]; it is 100 exactly when every case passed and 0 exactly when none passed or none ran, so no division by zero occurs |
| Harness.PassRateExtremes | gst_test.py:95 | over a run's statuses, the rate is 100 if and only if at least one case ran and all passed, and 0 if and only if no case passed |
| Harness.RowStep | gst_test.py:35-92 | a skipped row leaves the cases as they were; any other row adds its case, one counter step and one report row at the end |
| Harness.RowStepLogs | gst_test.py:35-55 | a row that is not skipped adds its case and writes its log over the log directory as it was |
| Harness.Record | gst_test.py:38-92 | recording a case raises the total by one, appends one report row after the earlier ones with the case's classified status, and leaves the case's log text at its log path |
| Harness.Advance | gst_test.py:35-92 | a skipped row leaves the loop's variables unchanged; any other row raises the total by one |
| Harness.StateAfter | gst_test.py:35-38 | after i rows the total is the number of cases among them |
| Harness.AdvanceKeepsSpec | gst_test.py:35-92 | processing one more row takes a state that matches the specifications for i rows to one that matches them for i + 1 rows |
| Harness.StateAfterMeetsSpec | gst_test.py:35-92 | after every prefix of rows, the loop's variables are the tally of the statuses so far, the report of the cases so far and the log directory with their logs written over it |
| Harness.CountersAddUpAfterEveryRow | gst_test.py:36-75 | after every row, passed + failed + timed out equals the total, and the total is the number of rows so far that were not skipped |
| Harness.StateAfterAllRows | gst_test.py:35-92 | after the last row, the state is the tally of all statuses, the full report and the log directory with all the logs written over it |
| Harness.RunCase | gst_test.py:55-78 | one case's status and exit code are its classification, and the log file ends with the case's log text |
| Harness.RecordCase | gst_test.py:38-92 | recording a case adds one counter step, writes its log to its log path and appends its report row |
| Harness.RunRow | gst_test.py:36-92 | one loop pass leaves the state alone for a skipped row and otherwise records the row's case with the next outcome |
| Harness.RunRows | gst_test.py:35-92 | the loop ends in the state `StateAfter` gives for all rows |
| Harness.RunTests | gst_test.py:20-95 | the summary is the tally of the statuses (the total is the number of cases, and the counters add up to it); the table is the report of all cases in CSV order; the log directory holds the files that were there before with the cases' logs written over them; the pass rate is the guarded rate and lies in [0, 100] |

## Left out

- Running the validator (gst_test.py:61). It is a foreign process with a wall-clock timeout, and its result arrives as an `Outcome` parameter. The ten-minute limit is not modelled.
- The child's output after a timeout, written from `e.stdout` and `e.stderr` (gst_test.py:77-78). With output sent to the log file, both are `None`, so the child's output is modelled as already in the file before the notice.
- A validator launch that raises anything other than a timeout, such as a missing binary. It leaves the row loop through the catch-all handler (gst_test.py:140-141) and aborts the rest of the run. The model assumes every launch yields an outcome.
- CSV tokenisation by `csv.reader` (gst_test.py:34). Rows arrive already split into fields, as `seq<seq<string>>`.
- RunTests: assumes every file write succeeds. In the source, a log file that cannot be opened at gst_test.py:55 raises. Examples are a scenario name such as `sub/seek` whose subdirectory does not exist, a name too long for the file system, or a `log_dir` that is a plain file. The catch-all at gst_test.py:140-141 then abandons the remaining rows, the HTML report and the tarball.
- RunRows: for the same reason, the source loop can stop at the row whose log cannot be opened. The model's loop always runs to the last row.
- RunTests: does not model `os.makedirs(log_dir)` at gst_test.py:26-27, which is outside the `try`. An empty `log_dir` makes `os.path.exists("")` false and `os.makedirs("")` raise, so the run stops before any row is read. The model accepts any `logDir`, the empty one included.
- Colour: the contract states only the shape of a colour. Which colour goes with which status is in the function body, and their distinctness is `ColourDistinguishesStatus`.
- Uri, ScenarioPath, LogPath, LogLink: the contracts state prefixes, suffixes and lengths. Reading the names back is `CommandCarriesCase`, and the path and link relations are `LogPathStaysInLogDir` and `LinkMatchesLogPath`. Stating these on the functions themselves makes every proof that mentions a log path too expensive for the verifier.
- LastWriterKeepsItsLog, LogsAreTheCasesLogs, OtherFilesSurvive, Overwrite: the log directory is a map keyed by the path's text, and paths are never normalised. Different spellings of one file, such as `logs/a.log` and `logs/./a.log`, `x/../a`, names that differ only in case on a case-insensitive file system, or symlinks, are different files in the model. In the source the later write replaces the earlier log, or an old file under another spelling of a case's path. Path resolution by the operating system is not modelled.
- LogPathStaysInLogDir: the log path starts with the log directory as text only. A relative name with `..` components, such as `../x`, names a file outside the directory.
- File system effects: `os.makedirs`, opening, flushing and closing files, and writing the HTML file (gst_test.py:26-27, 55-57, 126-127). The log directory is a map from path to contents that starts from the files already there. The HTML file is not modelled.
- The HTML and CSS template text (gst_test.py:84-124). Only the values each row interpolates are modelled, in `ReportRow`.
- The `.1f` formatting of the pass rate (gst_test.py:114).
- Floating point. The rate is computed in exact reals.
- Timestamps and the tarball (gst_test.py:12-13, 130-138), `sys.argv` (gst_test.py:15-17), the environment variable (gst_test.py:25), argparse (gst_test.py:143-149) and every `print`. These are clock reads, archive I/O, process state and console output.
- Order of counter updates. The source bumps a counter inside the `try` just before leaving it. `RecordCase` bumps the counter after `RunCase` returns. The difference cannot be observed, because no other statement runs in between.
- Strings are sequences of code points. UTF-8 decoding of the CSV file is not modelled; the child's output reaches the log as bytes through the inherited file descriptor, and the model holds those bytes as code points.
