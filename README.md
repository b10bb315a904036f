# tr-log-analyzer: the log-to-call-record engine, in Dafny

This project models `trlog.py`, a script that reads a trunk-recorder log and rebuilds a table of calls. Each line whose header matches is classified by four sub-patterns on its trailing event text: `excluded`, `encrypted`, `unknown_tg` and `standard`. Each matching sub-pattern stores a fresh record in `calldict`. The key is the line's timestamp truncated to whole seconds. A `standard` line ("Call Elapsed: N") stores the duration, not the class, and moves the call date back by N seconds. Afterwards `pandasconvert` turns the dictionary into a frame and gives the class `standard` to every row with a duration. `main` then sorts the rows by call date.

Modules, one file each:

- `Wrappers`: `Option` and `Result`.
- `EventPatterns`: the four sub-patterns, matched the way `re.match` matches them. The leading `.*` cannot cross a line break. Greedy backtracking makes the captured elapsed seconds come from the last reachable occurrence. Also here: the class that survives the inner loop (the last match wins).
- `CallLog`: headers, records, `calldict` (its entries plus its key insertion order, as a Python dict keeps them), the key, and the per-line step. `ParseLog` is the imperative outer loop over the lines and `ScanLine` the inner loop over the sub-patterns. Together they are proved equal to the fold `ParseLines`.
- `Materialize`: the frame, the in-place duration fix-up, the in-place sort, and the whole of `main` without its output (`ProcessLog`).

Timestamps are integer microseconds since 1970-01-01 00:00:00 on the log's own naive clock. The caller supplies the header pattern and `strptime` as a function `matcher` from a line to `NoMatch`, `BadTimestamp` or the converted header fields.

## Behaviour as written

The model follows the code where the code's comments or its evident intent say otherwise:

- The key is only the truncated second (trlog.py:31). The talkgroup is not part of it, although the comment at trlog.py:30 says it is. Two classified lines in the same second share one record whatever their talkgroups.
- The inner loop has no `break`, so the LAST matching sub-pattern wins, not the first. A line holding both "Not recording talkgroup." and "Call Elapsed: 5" ends up as a duration with no class.
- Records are replaced, never merged: each match assigns a fresh dict. A line that no sub-pattern matches is dropped; there is no "unclassified" record and no "no source" class.
- Errors end the whole run; they do not just drop a line. `strptime` raising on a bracketed token that is not a date gives `TimestampUnparsable`. A call date moved back before `datetime.min` (0001-01-01) gives `DateOutOfRange`. A frame in which no record has a duration has no "duration" column, so `calldf["duration"]` raises and `pandasconvert` gives `MissingDurationColumn`. This includes a log that has only encrypted calls (`EncryptedOnlyLog`).

## Model

| member | source | states |
|---|---|---|
| EventPatterns.Horizon | trlog.py:35-38 | the leading `.*` reaches exactly the characters before the first line break |
| EventPatterns.LastMatchAt | trlog.py:35-38 | backtracking from position i finds the greatest position at or below i where the pattern body matches; `None` means no position up to i matches |
| EventPatterns.MatchesIff | trlog.py:40-41 | a sub-pattern matches the event text iff its body matches at some position with no line break before it |
| EventPatterns.MatchPositionIsLast | trlog.py:38 | the match used for the capture is at the last reachable position: no later reachable position matches |
| EventPatterns.LastMatching | trlog.py:40-44 | the surviving class is one of the tried classes and matches the text; there is none iff no tried sub-pattern matches |
| EventPatterns.LastMatchingIsLast | trlog.py:40-44 | the surviving class sits at a position of the tried list after which no tried sub-pattern matches: the last match wins |
| EventPatterns.ClassifyPrecedence | trlog.py:34-44 | with no `break`, standard beats unknown_tg, which beats encrypted, which beats excluded; no class iff none of the four matches |
| EventPatterns.DecimalRoundTrip | trlog.py:44 | `int` of the decimal digits of n is n |
| EventPatterns.ElapsedRoundTrip | trlog.py:38-44 | whatever text with no line break precedes it, a closing "Call Elapsed: n" makes the standard pattern match and capture exactly n |
| EventPatterns.EncryptedMarkerAlone | trlog.py:34-42 | the bare "ENCRYPTED" marker is classified encrypted |
| CallLog.Assign | trlog.py:42-44 | `calldict[k] = r` stores r at k, keeps every other key and value, keeps an existing key in its slot and appends a new key at the end |
| CallLog.CallIndex | trlog.py:29-31 | the key is the epoch second truncated toward zero: k seconds contain the timestamp (from below after the epoch, from above before it) |
| CallLog.SameSecondSameIndex | trlog.py:29-31 | two timestamps within the same whole second after the epoch share the key (before the epoch truncation toward zero splits a second between two keys) |
| CallLog.FailureIsFinal | trlog.py:23-49 | once a line raises, the run's result is that error whatever lines follow |
| CallLog.ScanLine | trlog.py:40-59 | the inner loop over the sub-patterns does exactly one `StepLine`: in dict order, every match overwrites the record at the key, so the last match's record stays; a date before `datetime.min` raises |
| CallLog.StandardOutOfRange | trlog.py:43-49 | only the standard sub-pattern can raise while building its record, and the error is `DateOutOfRange` |
| CallLog.ParseLog | trlog.py:13-61 | the outer loop computes exactly `ParseLines`: each line in order through the inner loop, a header that fails `strptime` or any raised error ending the run |
| CallLog.ParseLinesWellFormed | trlog.py:42-59 | every table produced has distinct keys in insertion order matching its entries, and each record has exactly one of class and duration, never the class standard |
| CallLog.UnclassifiedLineIgnored | trlog.py:23-41 | a line failing the header pattern, or matching no sub-pattern, leaves `calldict` unchanged |
| CallLog.ReplacedNotMerged | trlog.py:42-50 | after a classified line, the record at its key is the same whatever the table held before, and every other key keeps its value |
| CallLog.StandardLine | trlog.py:43-59 | a standard match stores duration = captured seconds, no class, date = timestamp − duration, header fields; it raises instead when that date precedes `datetime.min` |
| CallLog.TaggedLine | trlog.py:42-59 | an excluded, encrypted or unknown_tg line stores that class, no duration, the raw timestamp and the header fields |
| CallLog.SameSecondCollision | trlog.py:29-44 | two classified lines with the same truncated second, whatever their talkgroups: after both, the table is what the second line alone makes of it |
| CallLog.StepLineIdempotent | trlog.py:40-59 | re-reading a line changes nothing more |
| CallLog.SampleLine | trlog.py:17-49 | the sample line at 12:31:45.009426 with "Call Elapsed: 12" is stored with call date 12:31:33.009426 and duration 12 |
| CallLog.ExcludedThenElapsed | trlog.py:34-44 | text matching both excluded and standard ends with duration 5 and no class |
| Materialize.Frame | trlog.py:65 | one row per key: as many rows as entries, every stored record a row; the model takes the rows in the dict's insertion order (row i is the record stored at the i-th key) |
| Materialize.FixUpClasses | trlog.py:69 | on parsed rows, the fix-up leaves every row with a class, the class standard exactly on rows with a duration, other rows and cells unchanged, same row count |
| Materialize.PandasConvert | trlog.py:64-70 | raises exactly when no record has a duration; otherwise the frame is the fixed-up rows |
| Materialize.Insert | trlog.py:76 | inserting into date-sorted rows keeps them sorted and adds exactly that row |
| Materialize.SortRows | trlog.py:76 | the result is sorted ascending by call date and is a permutation of the input |
| Materialize.SortByCallDate | trlog.py:76 | the in-place sort leaves the array sorted by call date and a permutation of what it held |
| Materialize.ProcessLog | trlog.py:73-78 | the output is the error of the run, or the fixed-up rows sorted by call date as a permutation; every output row has a class, standard exactly when it has a duration |
| Materialize.EncryptedOnlyParse | trlog.py:23-59 | a log of one encrypted line parses to one record at the line's key: class encrypted, no duration, the raw timestamp as call date |
| Materialize.EncryptedOnlyLog | trlog.py:34-70 | a log whose one line is encrypted parses to one encrypted record without duration, and the frame then has no duration column |

## Left out

- Reading the gzip log, closing it, `print` and `to_csv` (trlog.py:15, 60, 77-78) are I/O and are not modelled.
- The header pattern (trlog.py:19) and `strptime` (trlog.py:28) are not modelled. They are the `matcher` parameter, which also gives the converted call number and the stripped talkgroup. The `ValueError` that `int(match[4])` (trlog.py:55) raises on a call number of more than 4300 digits (the default int/str conversion limit since Python 3.11) cannot be expressed by `matcher`'s three outcomes and is not modelled.
- `timestamp()` depends on the local time zone (trlog.py:29). The model reads the naive clock as if it were UTC, and it does not model float rounding of the timestamp. Nor does it model the `ValueError` that `timestamp()` raises for a date on 0001-01-01 (the local-time conversion steps outside the year range); the model stores a record for such a line.
- `float(...)` of the frequency (trlog.py:57) is not modelled. The frequency is carried as the text the pattern captured.
- `\d` in Python also matches non-ASCII decimal digits. The model accepts only `0`-`9`.
- The key is `int(callts)` formatted as a decimal string (trlog.py:31). The model keeps the integer; the formatting is one-to-one, so the table has the same keys in the same order.
- The record dict is modelled as one record value. The dict literal and its `.update` (trlog.py:42-59) become one assignment, with the same result.
- Frame details are not modelled: the index column, and the float dtype that a column with missing cells takes.
- CallLog.StandardOutOfRange: does not model the `ValueError` that `int(datamatch[1])` (trlog.py:44) raises when the captured elapsed seconds have more than 4300 digits (the default int/str conversion limit since Python 3.11). On such a capture the model reads the digits as a number, moves the date back before `datetime.min` and gives `DateOutOfRange`, where the source raises `ValueError`. Either way the run ends with an error.
- Materialize.Frame: pandas' row order for `from_dict(..., orient="index")` on records with different keys is not modelled. pandas builds the index column by column, so rows lacking the first column can come later. The model takes the dict's insertion order. Only the order before the sort differs, and `ProcessLog` claims only a sorted permutation.
- Materialize.SortByCallDate: pandas' sort algorithm is not modelled. Only the result is claimed (sorted, a permutation), not the order among rows with equal dates.
