# Windows admin toolkit audits, modelled in Dafny

This project models the three audits in `Activity-03/analyze_windows.py`:

- **`win_services`** queries the service listing and parses it into records. It keeps the services named on the watch list, with case ignored; an empty list keeps them all. It then reports the services whose `STATE` begins with `STOPPED`, or prints that every watched service is running.
- **`win_tasks`** parses the verbose scheduled-task listing with the same record parser. It keeps the tasks whose `TaskName` does not mention `Microsoft`. It prints their names and next run times in two columns, with the name column as wide as the longest name.
- **`win_vss`** picks the used and maximum shadow-storage sizes out of the storage listing and prints them. It warns when the used size is more than a tenth of the maximum, reading sizes in GB and TB only.

The modules are:

| module | file | contents |
|---|---|---|
| `Wrappers` | `wrappers.dfy` | `Option` |
| `Text` | `text.dfy` | The Python string operations the scripts use: `strip` with Python's full whitespace set, `in`, `startswith`, `upper`/`lower`, `split(sep, 1)` and `split(sep)[0]`. |
| `Seqs` | `seqs.dfy` | List comprehensions as `Filter` and `Map`, with order-preserving selection proved. |
| `BlockParser` | `blocks.dfy` | The record parser shared by the service and task audits. |
| `ServiceAudit`, `ServiceExample` | `services.dfy` | The service audit, and a worked listing. |
| `TaskAudit` | `tasks.dfy` | The task audit. |
| `ShadowStorage` | `shadow.dfy` | The shadow-storage check. |

The three parse loops are imperative methods: `CollectServices`, `CollectTasks` and `ScanShadowStorage`. Each is proved equal to a reference definition written without a loop:

- `ParseBlocks` splits the lines at whitespace-only lines and builds one record from each block a blank line closes. It keeps the records that hold a field.
- `TaskRows` filters and projects those records.
- `ScanLines` folds the size lines left to right.

The properties of the program are proved about those definitions.

Commands, their output and Python's `float` are not modelled as code:

- A command's output is a parameter: `None` when the command failed, otherwise its lines.
- `float` is the parameter `toNumber`, which returns `None` when the text is rejected.
- Sizes are exact reals.

There is no flush after the loop, so a block that no whitespace-only line follows is never reported, whether it holds a service or a task. `BlockParser.FinalBlockDropped` states this.

**A size line without a colon raises an error that nothing catches.** In `win_vss`, taking the text after the colon fails on such a line, and that code is outside the `try`, so the script stops with a traceback. The model returns `Crashed(k)`, where `k` is the first such line.

## Model

| member | source | states |
|---|---|---|
| Text.Trim | Activity-03/analyze_windows.py:24 | `strip()` leaves nothing exactly when the line is all whitespace, so `not line.strip()` means a whitespace-only line. |
| Text.TrimStart | Activity-03/analyze_windows.py:31 | Leading strip: the result is a suffix, everything dropped is whitespace, and the result does not start with whitespace. |
| Text.TrimEnd | Activity-03/analyze_windows.py:31 | Trailing strip: the result is a prefix, everything dropped is whitespace, and the result does not end with whitespace. |
| Text.TrimEnds | Activity-03/analyze_windows.py:31 | A stripped key or value neither starts nor ends with whitespace. |
| Text.TrimSurrounded | Activity-03/analyze_windows.py:31 | Stripping removes only the surrounding whitespace: a core with no whitespace at either end comes back unchanged. |
| Text.StartsWithJoin | Activity-03/analyze_windows.py:39 | `s.startswith(prefix)` holds exactly when `s` is `prefix` followed by some text. |
| Text.ContainsNoLonger | Activity-03/analyze_windows.py:72 | `sub in s` needs `sub` to be no longer than `s`, so `"Microsoft"` is never in `"?"`. |
| Text.ContainsAt | Activity-03/analyze_windows.py:115 | `sub in s` holds exactly when `sub` occurs at some position of `s`. |
| Text.MissingFirstNotContained | Activity-03/analyze_windows.py:117 | A text without the first character of `sub` does not contain `sub`. |
| Text.Upper | Activity-03/analyze_windows.py:114 | `upper()` keeps the length and maps each character on its own. |
| Text.Lower | Activity-03/analyze_windows.py:35 | `lower()` keeps the length and maps each character on its own. |
| Text.CaseMapping | Activity-03/analyze_windows.py:35 | Upper-casing leaves no lower-case ASCII letter and keeps every other character; lower-casing leaves no upper-case ASCII letter and keeps every other character. |
| Text.UpperForgetsCase | Activity-03/analyze_windows.py:114 | Upper-casing gives the same text for a string and for its lower-cased form, and it is idempotent. |
| Text.FirstToken | Activity-03/analyze_windows.py:116 | `s.split(" ")[0]` is a prefix of `s` free of the separator, ending at the first separator or at the end. |
| Text.FirstTokenOf | Activity-03/analyze_windows.py:116 | For `a + " " + b` with no space in `a`, the first token is `a`. |
| Text.SplitOnce | Activity-03/analyze_windows.py:30 | `split(":", 1)` gives the text before the first colon and the rest: they rejoin around the colon to the line, and the first part has no colon. |
| Text.SplitOnceOfJoin | Activity-03/analyze_windows.py:30 | Splitting undoes joining when the first part has no colon, so values keep their own colons. |
| Seqs.Filter | Activity-03/analyze_windows.py:39 | A comprehension with a condition keeps exactly the elements that pass the test: every kept element passes and occurs in the input, and every passing element is kept. |
| Seqs.FilterSelects | Activity-03/analyze_windows.py:39 | The kept elements are exactly the passing elements, at increasing positions, so order is preserved. |
| BlockParser.Field | Activity-03/analyze_windows.py:29-31 | A line sets a field exactly when it contains a colon. |
| BlockParser.FieldOfJoin | Activity-03/analyze_windows.py:29-31 | `name:value` with no colon in `name` sets the stripped name to the stripped value, whatever colons `value` holds. |
| BlockParser.FieldOfLine | Activity-03/analyze_windows.py:29-31 | `name: value` with stripped parts sets `name` to `value`. |
| BlockParser.AssignField | Activity-03/analyze_windows.py:29-31 | A line `name:value` whose name has no colon sets the stripped name to the stripped value, even when the value holds colons. A line without a colon leaves the record unchanged. |
| BlockParser.Lookup | Activity-03/analyze_windows.py:35 | `rec.get(key, default)` is the key's value when the key is present, and the default otherwise. |
| BlockParser.BuildWithHas | Activity-03/analyze_windows.py:28-31 | For any splitter, a block's record has a field exactly when some line of the block sets it. |
| BlockParser.BuildWithLastWins | Activity-03/analyze_windows.py:28-31 | For any splitter, a field's value comes from the last line that sets it. |
| BlockParser.BuildHas | Activity-03/analyze_windows.py:28-31 | A record has a field exactly when some line of its block sets it. |
| BlockParser.BuildLastWins | Activity-03/analyze_windows.py:28-31 | A repeated key keeps the value of its last line. |
| BlockParser.BuildTwoFields | Activity-03/analyze_windows.py:28-31 | Two `name: value` lines with stripped parts give exactly the record with those two fields. |
| BlockParser.Segments | Activity-03/analyze_windows.py:23-27 | There is one more group of lines than there are whitespace-only lines. |
| BlockParser.SegmentsCover | Activity-03/analyze_windows.py:23-31 | The groups, read in order, are exactly the non-blank lines: no line is lost or repeated. |
| BlockParser.TerminatedBlocks | Activity-03/analyze_windows.py:24-27 | There is one closed block per whitespace-only line. |
| BlockParser.ParseBlocks | Activity-03/analyze_windows.py:25-26 | No emitted record is empty, and there are at most as many records as blank lines. |
| BlockParser.RecordsAreClosedBlocks | Activity-03/analyze_windows.py:21-31 | The records are the non-empty records of the closed blocks, in order, and every non-empty closed block gives one. |
| BlockParser.ParseBlankLine | Activity-03/analyze_windows.py:24-27 | A whitespace-only line emits the accumulator if it holds a field, and empties it. |
| BlockParser.ParseTextLine | Activity-03/analyze_windows.py:28-31 | Any other line emits nothing and assigns its field, if it has one, to the accumulator. |
| BlockParser.ParseStep | Activity-03/analyze_windows.py:23-31 | One loop step, for both kinds of line: what it emits and what the accumulator becomes. |
| BlockParser.FinalBlockDropped | Activity-03/analyze_windows.py:21-31 | Lines after the last blank line never become a record: there is no flush after the loop. |
| BlockParser.ParseSplitsAtBlank | Activity-03/analyze_windows.py:24-27 | Parsing distributes over a split just after a blank line. |
| BlockParser.BlankLinesAddNoRecord | Activity-03/analyze_windows.py:25-27 | Leading blank lines, and extra blank lines after a blank line, emit nothing. |
| BlockParser.SegmentsOfText | Activity-03/analyze_windows.py:28-31 | Lines with no blank among them form one group. |
| BlockParser.ParseOneClosedBlock | Activity-03/analyze_windows.py:21-31 | One block closed by a blank line gives its record, or nothing if no line set a field; trailing text is dropped. |
| BlockParser.FieldLineNotBlank | Activity-03/analyze_windows.py:24 | A `name: value` line with a stripped name is not whitespace only. |
| BlockParser.ParseTwoFieldBlock | Activity-03/analyze_windows.py:21-31 | Two field lines and an empty line give exactly one record with those two fields. |
| BlockParser.CollectServices | Activity-03/analyze_windows.py:21-31 | The parse loop computes exactly `ParseBlocks`. |
| ServiceAudit.WatchedIffNamed | Activity-03/analyze_windows.py:35 | A name is in the lower-cased watch list exactly when some entry names it, case ignored. |
| ServiceAudit.FilterWatched | Activity-03/analyze_windows.py:34-37 | An empty watch list keeps every service; otherwise the filter keeps exactly the services some entry names, case ignored. |
| ServiceAudit.WatchedInOrder | Activity-03/analyze_windows.py:34-37 | The watched services are the parsed ones in listing order, repeats included. Every service that some entry names is among them, and with no watch list every service is. |
| ServiceAudit.WatchIgnoresCase | Activity-03/analyze_windows.py:35 | A service whose name matches a watch-list entry up to case is kept, wherever it stands in the listing. |
| ServiceAudit.Stopped | Activity-03/analyze_windows.py:39 | Exactly the services that have a `STATE` beginning with `STOPPED` are listed; a service without a state never is. |
| ServiceAudit.StoppedInOrder | Activity-03/analyze_windows.py:39 | The stopped services keep the order of the watched ones, and every stopped watched service is among them. |
| ServiceAudit.ServiceReport | Activity-03/analyze_windows.py:41-44 | The header, then one two-space-indented line per stopped service, with its name or `?`; with none stopped, the single all-running line. |
| ServiceAudit.Audit | Activity-03/analyze_windows.py:15-54 | A failed query prints its one message. Otherwise the report is either the all-running line, or the header followed by at least one service line. |
| ServiceAudit.AuditOutcome | Activity-03/analyze_windows.py:15-54 | A failed query prints its one message. Otherwise "all running" is printed exactly when no watched service is stopped, and a report otherwise has the header and one line per stopped service. |
| ServiceExample.ListingParsed | Activity-03/analyze_windows.py:21-31 | A stopped and a running service, the second without a closing blank line, parse to the first record only. |
| ServiceExample.FirstServiceReported | Activity-03/analyze_windows.py:21-44 | For that listing with no watch list, the report is the header and the first service's name. |
| TaskAudit.TaskRows | Activity-03/analyze_windows.py:68-78 | There are at most as many task rows as parsed records. |
| TaskAudit.NoMicrosoftRow | Activity-03/analyze_windows.py:72-73 | No reported name mentions Microsoft, not even the `?` of a task without a name. |
| TaskAudit.TaskRowsSelect | Activity-03/analyze_windows.py:68-78 | The rows are exactly the parsed records whose name does not mention Microsoft, in order, each projected to its name and next run time. |
| TaskAudit.TaskRowsBlankLine | Activity-03/analyze_windows.py:71-74 | A blank line adds the accumulated task's row exactly when the task holds a field and is not Microsoft's. |
| TaskAudit.TaskRowsStep | Activity-03/analyze_windows.py:70-78 | One loop step, for both kinds of line: the rows it adds and what the accumulator becomes. |
| TaskAudit.CollectTasks | Activity-03/analyze_windows.py:68-78 | The task loop computes exactly `TaskRows`. |
| TaskAudit.NameWidth | Activity-03/analyze_windows.py:81 | The width is at least every name's length and equal to some name's length, so it is the longest name's length. |
| TaskAudit.PadRight | Activity-03/analyze_windows.py:85 | Left-aligned padding keeps the text and fills up to the width with spaces; a longer text is kept whole. |
| TaskAudit.ColumnLine | Activity-03/analyze_windows.py:85 | The left cell padded to the width, one space, then the right cell. |
| TaskAudit.Rule | Activity-03/analyze_windows.py:83 | `"-" * n` is `n` dashes. |
| TaskAudit.TableBody | Activity-03/analyze_windows.py:84-85 | One line per task, with every next run time starting at column `width + 1`. |
| TaskAudit.Table | Activity-03/analyze_windows.py:80-85 | The table has two lines more than there are tasks. |
| TaskAudit.TableAt | Activity-03/analyze_windows.py:80-85 | For any name-column width, the table has two lines more than there are tasks. |
| TaskAudit.TableLayout | Activity-03/analyze_windows.py:81-85 | For any headers: the header is aligned, the rule is 20 dashes longer than the name column, and every task line is aligned on the longest name. |
| TaskAudit.TaskTable | Activity-03/analyze_windows.py:80-87 | With no task, the single "none found" line; otherwise a header, a rule and one line per task. |
| TaskAudit.TaskTableLayout | Activity-03/analyze_windows.py:80-85 | The printed table's layout, with the `Task Name` and `Next Run Time` headers. |
| TaskAudit.Audit | Activity-03/analyze_windows.py:62-66 | A failed query prints its one message. |
| TaskAudit.AuditOutcome | Activity-03/analyze_windows.py:68-87 | "None found" is printed exactly when every parsed record mentions Microsoft; otherwise there are two lines plus one per row. |
| TaskAudit.TwoTasksParsed | Activity-03/analyze_windows.py:68-78 | Two task blocks, each closed by an empty line, parse to their two records. |
| TaskAudit.MicrosoftTaskSkipped | Activity-03/analyze_windows.py:68-78 | Of two tasks, the one whose name mentions Microsoft is dropped and the other is the only row. |
| ShadowStorage.Classify | Activity-03/analyze_windows.py:103-106 | A line is a used-size line when it holds the used phrase. It is a maximum-size line when it holds the maximum phrase and not the used phrase. It is broken exactly when it is a size line without a colon, and otherwise it carries the stripped text after the colon. |
| ShadowStorage.ScanWith | Activity-03/analyze_windows.py:101-106 | A failing scan names a line of the listing. |
| ShadowStorage.NoValueSticks | Activity-03/analyze_windows.py:102-106 | Once the scan has failed, later lines change nothing. |
| ShadowStorage.ScanShadowStorage | Activity-03/analyze_windows.py:101-106 | The scan loop, which stops at the failing line, computes exactly `ScanLines`. |
| ShadowStorage.StopsAtFirstWith | Activity-03/analyze_windows.py:102-106 | For any classifier, the scan fails exactly when some line is broken, and then at the first one. |
| ShadowStorage.ScanStopsAtFirst | Activity-03/analyze_windows.py:102-106 | The script fails exactly when some size line lacks a colon, and it fails at the first such line. |
| ShadowStorage.UsedIsLastWith | Activity-03/analyze_windows.py:103-104 | For any classifier, the used size is missing exactly when no line gives it; otherwise it comes from the last line that does. |
| ShadowStorage.MaximumIsLastWith | Activity-03/analyze_windows.py:105-106 | For any classifier, the maximum is missing exactly when no line gives it; otherwise it comes from the last line that does. |
| ShadowStorage.UsedIsLast | Activity-03/analyze_windows.py:103-104 | The used size is `None` exactly when no line holds the used phrase; otherwise it is the value of the last such line. |
| ShadowStorage.MaximumIsLast | Activity-03/analyze_windows.py:105-106 | The maximum is `None` exactly when no line is a maximum line; otherwise it is the value of the last such line. |
| ShadowStorage.Display | Activity-03/analyze_windows.py:108-109 | `value or "N/A"` is never empty. It is N/A when the value is missing or empty, and the value itself otherwise. |
| ShadowStorage.ParseSize | Activity-03/analyze_windows.py:113-119 | A missing value fails, and a value whose upper-cased text names neither GB nor TB is 0 without being read. |
| ShadowStorage.ParseSizeIgnoresCase | Activity-03/analyze_windows.py:114 | A size and its lower-cased form parse alike. |
| ShadowStorage.ParseSizeOfUnits | Activity-03/analyze_windows.py:115-118 | "x GB" is `x` and "x TB" is `1024 * x`. |
| ShadowStorage.GigabyteSize | Activity-03/analyze_windows.py:115-116 | "x GB" is `x`. |
| ShadowStorage.TerabyteSize | Activity-03/analyze_windows.py:117-118 | "x TB" is `1024 * x`. |
| ShadowStorage.GigabytesTestedFirst | Activity-03/analyze_windows.py:115-118 | A text naming both units, such as "x TB (y GB)", is read as `x` GB, because GB is tested before TB. |
| ShadowStorage.NoGigabytes | Activity-03/analyze_windows.py:115-117 | A numeral followed by " TB" does not contain "GB", so the TB branch is taken. |
| ShadowStorage.HasUnit | Activity-03/analyze_windows.py:115-117 | A numeral followed by " GB" or " TB" contains its unit. |
| ShadowStorage.NumeralUnit | Activity-03/analyze_windows.py:114-116 | Upper-casing keeps "numeral unit", and its first token is the numeral. |
| ShadowStorage.UsageVerdict | Activity-03/analyze_windows.py:121-126 | The percentage "could not be calculated" exactly when one of the two sizes failed to parse. A maximum that parses to 0 never warns. |
| ShadowStorage.WarnsOverTenth | Activity-03/analyze_windows.py:123-124 | With a positive maximum, the warning is given exactly when ten times the used size exceeds the maximum. |
| ShadowStorage.UnknownMaximumNeverWarns | Activity-03/analyze_windows.py:119-123 | A maximum in neither GB nor TB counts as 0 and never warns. |
| ShadowStorage.TerabyteAgainstGigabytes | Activity-03/analyze_windows.py:121-124 | 1 TB used against `m` GB maximum warns exactly when `m < 10240`, so units are converted before comparing. |
| ShadowStorage.GigabytesCompared | Activity-03/analyze_windows.py:121-124 | "x GB" used against "y GB" maximum warns exactly when `10x > y`. For example, 50 against 400 warns and 10 against 400 does not. |
| ShadowStorage.Audit | Activity-03/analyze_windows.py:95-126 | A failed listing prints its message. The script fails exactly when a size line lacks a colon. A finished check prints the used line, the maximum line, and at most one more line; `ShadowStorage.UsedShown` and `ShadowStorage.MaximumShown` state which values the first two show. |
| ShadowStorage.UsedShown | Activity-03/analyze_windows.py:101-107 | A finished check's first line shows the value of the last used-size line. It shows N/A when there is no such line. |
| ShadowStorage.MaximumShown | Activity-03/analyze_windows.py:101-108 | A finished check's second line shows the value of the last maximum-size line. It shows N/A when there is no such line. |
| ShadowStorage.ReportFollowsVerdict | Activity-03/analyze_windows.py:121-126 | The third line is the warning exactly when the verdict is over a tenth, and the remark exactly when a size failed to parse; there is no third line otherwise. |
| ShadowStorage.MissingUsedSize | Activity-03/analyze_windows.py:101-126 | A listing with no size lines prints N/A twice and the "could not calculate" remark. |

## Left out

- Running `sc`, `schtasks` and `vssadmin` (lines 16, 63, 96) is not modelled. Their output is a parameter, and the `CalledProcessError` case is `None`.
- The corrective `sc start` loop behind `--fix` (lines 45-52) is left out: it only runs commands and prints their outcome.
- The banner lines, and each emoji with the spaces after it, are left out: the model gives the report as a sequence of lines.
- `main`, its argument parser and the dummy `win_events`/`win_pkgs` functions (lines 131-170) are left out, because they only dispatch to the audits.
- `str.splitlines` is not modelled: the listings are given as sequences of lines.
- `ShadowStorage.ParseSize`: Python's `float` is the parameter `toNumber`, so which texts parse as numbers is not modelled. Sizes are exact reals, with no floating-point rounding, and the 0.10 threshold is exactly one tenth.
- `Text.Upper` and `Text.Lower` map only ASCII letters. Python's Unicode case mapping, including case changes that alter the length, is not modelled.
- `ServiceAudit.AuditOutcome` describes the report without the corrective starts that `--fix` adds after it.
- In `win_vss`, the `IndexError` raised outside the `try` ends the script with a traceback. The model returns `Crashed` with the failing line, and the traceback text is not modelled.
- The other scripts of the repository are not part of this model.
