# Session billing from a user activity log, modelled in Dafny

The program reads a log whose lines read `HH:MM:SS <user> Start|End`, keeps the
lines that parse, groups their timestamps by user and by action, repairs each
user's Start and End lists until they have the same length, pairs the k-th Start
with the k-th End, and reports, per user in order of first appearance, the number
of sessions and their total length in seconds. `main.py` is the current version;
`main_v1.py` is an earlier one without the username check that prints the report
line by line.

The model follows the program's stages, one module each:

- `Types`: timestamps as whole seconds after midnight, events, and the
  insertion-ordered dictionary (`Dict`: a key sequence plus a map) that the
  program's output order depends on.
- `PyStr`: the parts of Python's `str` the program uses: `split()`, `strip()`
  and `str(int)`. It also holds a split at one separator character (`SplitOn`),
  which the program itself never calls: the model uses it for the literal `:`
  of the `%H:%M:%S` time format and to read a report back at its newlines.
- `Parser`: `validate_username`, `parse_log` (including `strptime` with
  `%H:%M:%S`) and `parse_all_logs`.
- `Grouper`: `create_bin`. The loop is a method, and its result is the function
  `Group`.
- `Reconciler`: `make_equal_bin_size`. Each of its two passes is a method, proved
  against a closed form:
  - the first pass is `Misaligned`, which counts the insertions;
  - the whole repair is `ReconciledStarts` / `ReconciledEnds`.
- `Aggregator`: `calculate_log_time`, with `Pairwise` giving the durations.
- `Pipeline`: `process_logs`, the text built by `generate_report`, and facts
  about the whole composition.
- `Legacy`: `main_v1.py`'s `parse_log` and `process_logs`, and how they relate
  to `main.py`.

The first pass of `make_equal_bin_size` inserts at the front of the list that
`zip` is walking. Python's list iterator reads the mutated list at the next
index. After an insertion, the same Start value is therefore compared again, with
the next End. `Misaligned` models exactly this walk. It is not a one-shot
comparison against the originally zipped positions.

Durations are not guaranteed to be non-negative for every order of a user's
Starts and Ends, although the pairing is meant to produce such sessions. The model
follows the code:

- `Pipeline.OutOfOrderLog` shows a two-line log that yields two sessions of -5
  seconds.
- `Pipeline.ChronologicalNonNegative` proves non-negativity for logs whose
  accepted lines are in time order.

## Model

| member | source | states |
|---|---|---|
| PyStr.Split | main.py:65 | every token of `split()` is non-empty and holds no whitespace |
| PyStr.SplitJoinSpace | main.py:65 | splitting tokens joined by single spaces gives the tokens back |
| PyStr.SplitStrip | main.py:65 | stripping before `split()` changes nothing |
| PyStr.Strip | main.py:65 | the result is no longer than the input and has no blank at either end |
| PyStr.StripStart | main.py:65 | `lstrip()` drops exactly a whitespace prefix and leaves a non-blank first character |
| PyStr.StripEnd | main.py:65 | `rstrip()` drops exactly a whitespace suffix and leaves a non-blank last character |
| PyStr.StripTrailingNewline | main.py:287 | stripping a non-blank-ended text plus one newline removes just the newline |
| PyStr.NatToStringValue | main.py:284 | the digits `str(n)` writes read back as `n` |
| PyStr.IntToString | main.py:284 | `str(i)` is non-empty and whitespace-free, with a minus sign exactly for negative `i` |
| PyStr.SplitOnThree | main.py:77 | three separator-free pieces joined by the separator split back into themselves |
| Parser.MatchTailMeaning | main.py:46 | the pattern's tail matches exactly alphanumerics to the end, or up to a final newline |
| Parser.ValidateUsername | main.py:36-48 | the username check; what it accepts is stated by `ValidateUsernameMeaning` |
| Parser.ValidateUsernameMeaning | main.py:36-48 | a name passes exactly when it is a letter followed by ASCII letters and digits, possibly with one trailing newline |
| Parser.ValidateToken | main.py:70 | on a whitespace-free token, as `split()` yields, validation is exactly the identifier rule |
| Parser.ParseTime | main.py:76-79 | an accepted time token denotes a time of day in [0, 86400) |
| Parser.ParseFormatTime | main.py:77 | parsing the `%H:%M:%S` text of any time of day gives it back |
| Parser.Pad2Field | main.py:77 | a zero-padded two-digit field reads back as its value |
| Parser.ParseLog | main.py:51-81 | an accepted line yields a time of day and an identifier user |
| Parser.ParseLogAccepts | main.py:65-81 | a line is accepted exactly when it has three tokens: a valid time, a valid username, then Start or End; the event is built from them |
| Parser.ParseFormatEvent | main.py:51-81 | parsing an event's canonical text gives the event back |
| Parser.SomeIndices | main.py:99-102 | the kept events are the present parses, at increasing positions, and every present parse is kept |
| Parser.FilterSomeEmpty | main.py:104-105 | nothing is kept exactly when every entry is absent |
| Parser.ActionOf | main.py:69 | a token names an action exactly when it is `Start` or `End`, and that action's name is the token |
| Parser.Accepted | main.py:97-107 | the events of the lines that parse, in line order; stated by `AcceptedEmpty`, `Pipeline.AcceptedUser` and `Legacy.AcceptedAgree` |
| Parser.AcceptedEmpty | main.py:104-105 | no event is accepted exactly when every line is rejected |
| Parser.ParseAllLogs | main.py:84-107 | None exactly when every line is rejected; otherwise the accepted events in input order |
| Parser.UsernameExamples | test_main.py:63-100 | the repository's username cases: `Alice99` and `xyz123` pass; `9Alice`, `Alice#99`, `Alice 99`, the empty name, `@xyz` and ` abc` fail |
| Parser.ParseLogAcceptsExample | test_main.py:103-110 | `14:02:03 ALICE99 Start` parses to 14:02:03 (50523 s), ALICE99, Start |
| Parser.ParseLogRejectsAction | test_main.py:121-127 | an unknown action is rejected |
| Parser.ParseLogRejectsUsername | test_main.py:129-135 | a username starting with a digit is rejected |
| Parser.ParseLogRejectsTime | test_main.py:137-143 | `99:99:99` is rejected |
| Parser.ParseLogRejectsTwoTokens | test_main_v1.py:102-106 | a line with two tokens is rejected |
| Grouper.BucketOf | main.py:128-130 | a user's inner dictionary has a key exactly for the actions the user has events with, holding their times in input order |
| Grouper.Group | main.py:124-131 | the grouping is a well-formed ordered dictionary |
| Grouper.CreateBin | main.py:110-135 | None exactly for no events; otherwise the grouping of the events |
| Grouper.GroupLists | main.py:126-130 | a listed user's Start and End lists hold exactly the times of that user's events with that action, in input order |
| Grouper.BucketStep | main.py:126-130 | one more event appends its time to its own user's list for its action and changes no other user |
| Grouper.UsersOfMembership | main.py:128 | the users listed are exactly those with an event, each once |
| Grouper.NotUserHasNoTimes | main.py:128 | a user without events has no times |
| Grouper.GroupEmpty | main.py:132-133 | the grouping is empty exactly when there are no events |
| Grouper.UsersOfOrder | main.py:128 | users are listed in the order of their first event |
| Grouper.GroupStoresEveryEvent | main.py:126-130 | the lists of all users together hold exactly one timestamp per event |
| Grouper.UsersSnoc | main.py:128 | one more event lists its user if the user is new |
| Grouper.TimesSnoc | main.py:129-130 | one more event appends its time to its user's list for its action |
| Grouper.CreateBinExample | test_main.py:188-213 | the repository's five-event example: ALICE99 then CHARLIE, with ALICE99 Start [14:02:03, 14:04:41], End [14:02:34] and CHARLIE Start [14:03:02], End [14:03:37] |
| Reconciler.Misaligned | main.py:161-163 | the first pass inserts at most one timestamp per End |
| Reconciler.ReconcileAll | main.py:157-179 | users and their order are unchanged, and the dictionary stays well-formed |
| Reconciler.InsertLeadingStarts | main.py:161-163 | the first pass yields `Misaligned` copies of the first timestamp in front of the Start list |
| Reconciler.PadToEqualLength | main.py:165-174 | the second pass yields equal lengths: the shorter list is padded with the first timestamp in front of the Starts or the last after the Ends, by the difference in lengths |
| Reconciler.EqualizeBucket | main.py:158-174 | both passes together give lists of equal length, equal to the closed forms |
| Reconciler.ReconcileItems | main.py:157-174 | one user's inner dictionary after `setdefault` and both passes is the reconciled dictionary |
| Reconciler.MakeEqualBinSize | main.py:138-179 | None exactly for an empty dictionary; otherwise every user reconciled |
| Reconciler.ReconcileStep | main.py:157-174 | one user's turn of the loop reconciles that user and leaves every later user untouched |
| Reconciler.ReconciledStarts | main.py:157-174 | the Start list after both passes; its length and padding are stated by `ReconciledLengths` and `ReconciledOnlyPads` |
| Reconciler.ReconciledEnds | main.py:157-174 | the End list after both passes; its length and padding are stated by `ReconciledLengths` and `ReconciledOnlyPads` |
| Reconciler.ReconciledBucket | main.py:157-174 | one user's inner dictionary after both passes; stated by `ReconciledBucketMeaning` |
| Reconciler.ReconciledLengths | main.py:168-174 | after reconciliation both lists have the larger of the End count and the Start count plus insertions |
| Reconciler.ReconciledOnlyPads | main.py:161-174 | reconciliation only adds the first timestamp in front of the Starts and the last after the Ends |
| Reconciler.MisalignedZero | main.py:161-163 | the first pass inserts nothing exactly when each Start is no later than the End at its position |
| Reconciler.ReconcileIdempotent | main.py:157-174 | a bucket of equal-length lists is left unchanged exactly when it is pairwise in order |
| Reconciler.ReconciledBucketMeaning | main.py:157-174 | a reconciled bucket has both keys and equal lengths, and extends the old lists only by padding |
| Reconciler.MisalignedPairsInOrder | main.py:161-163 | with the Ends in order, each kept Start is no later than the End it ends up paired with |
| Reconciler.ReconciledPairsInOrder | main.py:157-174 | with the Ends in order and the pads bounding the times, every reconciled pair is in order |
| Reconciler.OutOfOrderGivesNegative | main.py:161-174 | a single Start at 10 s with an End at 5 s reconciles to Starts [10, 10] and Ends [5, 5] |
| Reconciler.CharlieFixture | test_main.py:21-35 | CHARLIE's lists from the repository's log reconcile to Starts [14:02:03, 14:03:02, 14:04:41] and Ends [14:02:05, 14:03:37, 14:04:41] |
| Reconciler.AliceFixture | test_main.py:21-35 | ALICE99's lists from the repository's log gain one leading Start and keep their four Ends |
| Reconciler.BinSizeExample | test_main.py:223-253 | the repository's example: ALICE99's extra Start is closed at 14:04:41, and CHARLIE is unchanged |
| Aggregator.Pairwise | main.py:203-204 | there is one duration per pair up to the shorter list, each End minus its Start |
| Aggregator.LogTimes | main.py:199-205 | every user appears, in the same order, and the dictionary stays well-formed |
| Aggregator.SessionDurations | main.py:202-204 | the inner loop appends exactly the pairwise durations |
| Aggregator.CalculateLogTime | main.py:182-209 | None exactly for an empty dictionary; otherwise every user's pairwise durations |
| Aggregator.DurationsStep | main.py:201-204 | one user's turn adds that user, in order, with their pairwise durations |
| Aggregator.AllDurations | main.py:199-209 | once every user holds their durations, the dictionary is `calculate_log_time`'s result |
| Aggregator.PairwiseTotal | main.py:203-204 | for equal lengths, the total duration is the sum of Ends minus the sum of Starts |
| Aggregator.ReconciledTotal | main.py:157-209 | a reconciled user's total is their Ends minus their Starts, plus the last timestamp per appended End, minus the first per inserted Start |
| Aggregator.PaddedTotal | main.py:163-174 | the total over padded lists in terms of the original lists and the pads |
| Aggregator.TwoUsersExample | test_main.py:266-288 | the repository's example gives ALICE99 [31, 4] and CHARLIE [35] |
| Aggregator.FixtureDurations | tests/test_main.py:32-40 | the repository's log gives ALICE99 [31, 92, 67, 50] and CHARLIE [2, 35, 0] from the reconciled lists |
| Pipeline.SummaryOf | main.py:212-258 | a summary, when there is one, is a well-formed ordered dictionary |
| Pipeline.ProcessLogs | main.py:212-258 | None for an unread file; otherwise the durations of the grouped, reconciled accepted events, padded with the first and last accepted times |
| Pipeline.SummaryNone | main.py:233-236 | `process_logs` gives None exactly when every line is rejected |
| Pipeline.SummaryMeaning | main.py:238-258 | the summary lists each user with an accepted line once, in order of first appearance, with the pairwise durations of their reconciled Start and End times |
| Pipeline.SummaryUser | main.py:238-258 | one user's durations are the pairwise differences of their own reconciled Start and End times |
| Pipeline.AcceptedUser | main.py:70 | every accepted event names an identifier |
| Pipeline.SummaryNames | main.py:67-72 | every user in the summary is an identifier |
| Pipeline.UsersNamed | main.py:128 | users whose events all name identifiers are identifiers |
| Pipeline.SessionCount | main.py:161-174 | a user's session count is the larger of their End count and Start count plus insertions, so it is never below either |
| Pipeline.SessionCountOf | main.py:161-174 | the same count, stated over the accepted events |
| Pipeline.TimesOfInOrder | main.py:126-130 | in a time-ordered log a user's times of one action are in order and lie between the first and last accepted times |
| Pipeline.ChronologicalNonNegative | main.py:212-258 | every duration of a time-ordered log is non-negative |
| Pipeline.OutOfOrderLog | main.py:212-258 | the log `00:00:10 A Start`, `00:00:05 A End` gives A two sessions of -5 seconds |
| Pipeline.LateStartEarlyEnd | main.py:212-258 | any two lines parsing to A's Start at 10 s and End at 5 s give A [-5, -5] |
| Pipeline.LateStartEarlyEndBins | main.py:157-209 | a grouping with only A: Start [10], End [5] gives A [-5, -5] |
| Pipeline.LateStartEarlyEndGroup | main.py:124-131 | two events of A group to A: Start [10], End [5] |
| Pipeline.ParsesLateStart | main.py:51-81 | `00:00:10 A Start` parses to A's Start at 10 s |
| Pipeline.ParsesEarlyEnd | main.py:51-81 | `00:00:05 A End` parses to A's End at 5 s |
| Pipeline.ReportLine | main.py:284 | one user's line: name, session count and total; its shape is stated by `ReportLineShape` |
| Pipeline.ReportLines | main.py:283-285 | there is one report line per user |
| Pipeline.RenderReport | main.py:283-287 | the loop and the final `strip()` give the stripped concatenation of newline-terminated user lines |
| Pipeline.GenerateReport | main.py:261-289 | None exactly when the file was not read or no line is accepted; otherwise the report text of the summary |
| Pipeline.Terminated | main.py:283-285 | the text is empty exactly when there are no lines, and otherwise ends with a newline |
| Pipeline.ReportText | main.py:283-287 | the stripped report has no blank at either end |
| Pipeline.TerminatedSnoc | main.py:285 | appending one more terminated line extends the text by that line and a newline |
| Pipeline.TerminatedJoin | main.py:285-287 | newline-terminated lines are the newline-joined lines plus one final newline |
| Pipeline.JoinLinesEdges | main.py:287 | a join of non-blank-edged lines starts and ends with a non-blank character |
| Pipeline.ReportLineShape | main.py:284 | a report line has no newline and non-blank ends, and splits into user, session count and truncated total |
| Pipeline.ReportIsJoinedLines | main.py:283-287 | with plain user names, the report is its lines joined by newlines, with no trailing newline |
| Pipeline.SplitOnJoinLines | main.py:287 | newline-free lines joined by newlines split back into themselves |
| Pipeline.ReportRoundTrip | main.py:283-287 | splitting the report at newlines gives back its lines |
| Pipeline.SplitJoinLines | main.py:283-287 | lines without newlines, joined by newlines, split back into the same lines |
| Pipeline.GeneratedReportReadsBack | main.py:261-289 | any report `generate_report` returns splits into one line per user, each reading user, session count and total |
| Pipeline.FixtureReport | tests/test_main.py:47-53 | the repository's summary gives the lines `ALICE99 4 240` and `CHARLIE 3 37` |
| Pipeline.FixtureReportText | tests/test_main.py:47-53 | the repository's summary gives the report text `ALICE99 4 240`, a newline, `CHARLIE 3 37` |
| Legacy.ParseLogV1 | main_v1.py:20-31 | an accepted line yields a time of day and a non-empty, whitespace-free user |
| Legacy.ParseLogV1Accepts | main_v1.py:20-31 | a line is accepted exactly when it has three tokens, `Start` or `End` last and a valid time first; the event holds that time, the middle token unchecked as user, and that action |
| Legacy.AcceptedV1 | main_v1.py:37-38 | the events of the lines `main_v1.py` accepts, in line order; stated by `AcceptedAgree` and `AcceptedV1User` |
| Legacy.PrintedLines | main_v1.py:72-73 | the printing loop prints one line per user: user, session count, truncated total |
| Legacy.ProcessLogsV1 | main_v1.py:34-75 | returns the reconciled grouping of the accepted events and prints the report lines of its durations |
| Legacy.ParseLogRefinesV1 | main.py:65-81 | `main.py`'s parser accepts what `main_v1.py`'s accepts with an identifier user, giving the same event, and nothing else |
| Legacy.AcceptedAgree | main_v1.py:37-38 | when every accepted user is an identifier, both versions keep the same events |
| Legacy.SameReport | main_v1.py:34-75 | on such logs both versions compute the same durations, and `main.py`'s report is `main_v1.py`'s printed lines joined by newlines |
| Legacy.AcceptedV1User | main_v1.py:20-38 | every event `main_v1.py` keeps names a non-empty, whitespace-free user |
| Legacy.PrintedCounts | main_v1.py:59-73 | each printed line splits into the user, the session count and the total, and the count equals the user's reconciled Start and End lengths |
| Legacy.DigitNameExample | main_v1.py:22-31 | `14:02:03 9Alice Start` is accepted by `main_v1.py` as user `9Alice` and rejected by `main.py` |

## Left out

- `read_file` (both versions) is left out because it is file I/O. `ProcessLogs`
  takes the lines, or None for a file that could not be read.
  `GenerateReport` takes the same, with None also standing for an empty file.
- `print_report` and the `__main__` blocks are left out because they are
  command-line argument handling and printing. `main_v1.py`'s `generate_report`
  is never called on the data `process_logs` builds.
- Logging calls are left out because they have no effect on results.
- Python's `\d` in `strptime` also accepts non-ASCII Unicode digits. The model
  accepts ASCII digits only.
- Timestamps are whole seconds after midnight, not `datetime` values on
  1900-01-01. This is exact, because `%H:%M:%S` has whole-second resolution.
  Durations are exact integers rather than floats, and `int(sum(...))` is then
  the sum itself.
- `Legacy.ProcessLogsV1` requires at least one accepted line. With none, the
  source raises `IndexError` at `parsed_logs[0]`. With a missing file, it raises
  `TypeError`, because `read_file` returns None. These crashes are not modelled.
- `make_equal_bin_size` and `calculate_log_time` update nested dictionaries and
  lists in place, and the lists may be shared with the caller. The model passes
  values: each method returns the new dictionary, so sharing is not captured.
- The example lemmas stop short of the full eleven-line log of the repository's
  tests. That log is checked from its grouped lists onward
  (`Reconciler.AliceFixture`, `Reconciler.CharlieFixture`,
  `Aggregator.FixtureDurations`, `Pipeline.FixtureReport`). Parsing and grouping
  are checked on the shorter examples.
- `tests/test_main.py` expects the text `Can't Read File` for an unreadable file.
  The code returns None, and the model follows the code.
