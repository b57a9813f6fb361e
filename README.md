# gramine_libfuzzer_test utilities, modelled in Dafny

This project models the parts of `libs/utils.py` that make decisions, with their
shell commands replaced by the text those commands print:

- `track_process` watches a child process's stdout line by line. It stops when the
  accumulated output contains a success marker. It also stops when a deadline has
  passed, or when the stream is drained and the process has exited. It returns the
  success flag and the captured text.
- `set_threads_cnt_env_var` scans `lscpu` output for four CPU-topology counters and
  stops as soon as all four are non-zero. It then writes `CORES_COUNT`,
  `THREADS_CNT`, `CORES_PER_SOCKET` and `SOCKETS` into the environment.
- `check_machine` decides which provisioning service the host runs:
  Azure Linux Agent, DCAP client, or none.
- `get_workload_name` returns the second space-separated field of a docker image
  string.
- `check_and_enable_edmm_in_manifest` decides which `sgx.*` options are appended to a
  Gramine manifest.

Files:

- `wrappers.dfy`: `Option` and `Result`. They stand for the values Python signals by
  raising (`ValueError`, `KeyError`).
- `pystr.dfy`: the Python string builtins the code relies on, each with its own
  lemmas. These are `in`, `str.count`, `str.split`, `[-1]`, `str.splitlines`,
  `str.strip`, `int()` and `str()`.
- `process_output.dfy`: `track_process`.
  - `Process` is a class whose read position advances with each `readline`.
  - `TrackProcess` is the `while True` loop as a method.
  - `Watch` is the specification function the method is proved against.
- `lscpu_env.dfy`: `set_threads_cnt_env_var`.
  - `SetThreadsCntEnvVar` is the `for` loop as a method, over a `map` that stands
    for `os.environ`.
  - `Scan` is its early-exit specification, and `Fold` is the same scan without the
    early exit.
  - `Latest` is an independent description of what each counter holds.
- `helpers.dfy`: `check_machine`, `get_workload_name` and the manifest decision, as
  functions.

The clock of `track_process` is a parameter: a start reading, and one reading for
each line read. The `systemctl` and `lscpu` outputs, the manifest contents and the
environment are parameters too.

The loop of `track_process` breaks on the line that completes the marker
(libs/utils.py:486-489), so later lines are neither read nor captured;
`WatchStopsAtMarkerLine` states this.

## Model

| member | source | states |
|---|---|---|
| ProcessOutput.WatchFrom | libs/utils.py:472-491 | no contract; specified by WatchFromShape, WatchFromPasses, WatchFromMatches and WatchFromSameWithoutDeadline |
| ProcessOutput.Watch | libs/utils.py:470-494 | no contract; specified by WatchShape, WatchSucceedsAtFirstMarker, WatchFindsMarker, WatchDrained, WatchTimesOut, WatchWithoutTimeout, WatchIgnoresClockWithoutTimeout, WatchEmptyMarker and WatchStopsAtMarkerLine; TrackProcess is proved equal to it |
| PyStr.Contains | libs/utils.py:301 | no contract; specified by ContainsAt, ContainsHasPosition, ContainsAppend, ContainsPrepend, ContainsMiddle, ContainedCharsOccur and MissingCharNotContained |
| PyStr.Count | libs/utils.py:486 | no contract; specified by CountPositiveIffContains |
| PyStr.SplitLines | libs/utils.py:298 | no contract; specified by LineEnd, SplitLinesHaveNoBreaks and SplitLinesTerminated |
| PyStr.Strip | libs/utils.py:302 | no contract; specified by TrimLeftCuts, TrimRightCuts, StripKeeps and StripPadded |
| PyStr.PyInt | libs/utils.py:302 | no contract; specified by PyIntDigits, PyIntNegatedDigits, PyIntStr, PyIntStripped, PyIntAfterStrip, IntSpaceNarrowerThanStrip and the PyIntRejects lemmas |
| PyStr.IntStrip | libs/utils.py:302 | no contract; the whitespace `int()` skips itself, specified by IntStripKeeps and IntSpaceNarrowerThanStrip |
| PyStr.LastField | libs/utils.py:302 | no contract; `split(':')[-1]`, specified by LastFieldIsTail and LastFieldAfter |
| ProcessOutput.Process.Exited | libs/utils.py:473 | no contract; `process.poll() is not None`, true once the output is drained; TrackProcess's loop stops on it after reading '' |
| ProcessOutput.Deadline | libs/utils.py:470-471 | no contract; the reassigned `timeout`, specified by WatchShape, WatchTimesOut and WatchIgnoresClockWithoutTimeout |
| ProcessOutput.TimedOut | libs/utils.py:490 | no contract; the deadline test, specified by WatchShape, WatchFindsMarker and WatchTimesOut |
| LscpuEnv.AllSet | libs/utils.py:309 | no contract; the break condition, specified by ScanIgnoresLaterLines, ScanFromIsFold and ScanFromContinues |
| PyStr.Str | libs/utils.py:312-315 | no contract; specified by NatStrValue, PyIntStr and StrIsPlain |
| LscpuEnv.FieldValue | libs/utils.py:302 | no contract; specified by FieldValueOfKeyLine, RangeFieldRejected and FieldValueRejects |
| LscpuEnv.Step | libs/utils.py:301-308 | no contract; specified by StepFailsOnBadLine and the StepOn lemmas |
| LscpuEnv.ScanFrom | libs/utils.py:300-310 | no contract; specified by ScanFromIsFold, ScanFromContinues, ScanSkipsKeyFree, ScanStopsOnBadLine and the ScanPast lemmas |
| LscpuEnv.Scan | libs/utils.py:300-310 | no contract; specified by ScanIsFoldOfReadLines, ScanIgnoresLaterLines, TypicalOutputStopsAfterSockets and NumaLineBeforeAllSetFails; SetThreadsCntEnvVar is proved against it |
| LscpuEnv.Fold | libs/utils.py:300-308 | no contract; specified by FoldSnoc, FoldErrPersists, FoldIsLatest and FoldFailsAtFirstBadLine |
| LscpuEnv.Latest | libs/utils.py:299-308 | no contract; the independent description FoldIsLatest connects to the scan |
| LscpuEnv.Export | libs/utils.py:312-315 | no contract; specified by ExportWritesFourEntries |
| Helpers.CheckMachine | libs/utils.py:343-351 | no contract; specified by CheckMachinePriority and CheckMachineMonotone |
| Helpers.GetWorkloadName | libs/utils.py:373-377 | no contract; specified by WorkloadNameWithoutSpace, WorkloadNameIsSecondField and WorkloadNameHasNoSpace |
| Helpers.SedAppend | libs/utils.py:449-456 | no contract; specified by SedAppendAddsLastLine, SedAppendContains and SedAppendKeeps |
| Helpers.EnableEdmm | libs/utils.py:440-456 | no contract; specified by EnableEdmmAppends, EnableEdmmMentionsBoth, EnableEdmmIdempotent and EnableEdmmOnlyWhenSet |
| ProcessOutput.Process.ReadLine | libs/utils.py:476 | `readline()` returns the next unread line and advances the position by one; at the end of the stream it returns "" and the position stays |
| ProcessOutput.Process.CloseStdout | libs/utils.py:487 | after `stdout.close()` the stream is closed |
| ProcessOutput.TrackProcess | libs/utils.py:458-494 | the flag, the captured text and the lines consumed are those of `Watch` over the unread lines; stdout is closed exactly when the marker was found |
| ProcessOutput.WatchFromShape | libs/utils.py:472-491 | from any line the loop reaches: it reads a prefix of the lines and captures exactly their text; no line before the last read completes the marker or passes the deadline; it succeeds iff the text read contains the marker; stopping before the end means marker or deadline |
| ProcessOutput.WatchShape | libs/utils.py:472-491 | the same for a whole watch: a non-empty output reads at least one line, the capture is the concatenation of the lines read, and the stop reason is one of the three exits |
| ProcessOutput.WatchSucceedsAtFirstMarker | libs/utils.py:483-489 | `result` is true exactly when the captured text contains the marker; the loop then stopped at the first line that completed it, and the capture ends with that line |
| ProcessOutput.WatchFindsMarker | libs/utils.py:486-491 | a marker completed by line k is found by line k at the latest, unless a deadline check on an earlier line stopped the loop; the marker check takes precedence over the deadline on the same line |
| ProcessOutput.WatchDrained | libs/utils.py:472-494 | an output that never contains the marker gives `False`; read to its end, the capture is the concatenation of all lines |
| ProcessOutput.MarkerPersists | libs/utils.py:485-486 | once the accumulated text contains the marker, every longer accumulation does too |
| ProcessOutput.WatchTimesOut | libs/utils.py:470-491 | stopping before the end without success means a non-zero timeout and a clock reading past start plus timeout after the last line read, with no earlier reading past it; the capture does not contain the marker |
| ProcessOutput.WatchWithoutTimeout | libs/utils.py:470-491 | with timeout 0 the loop never exits on time: it succeeds iff the whole output contains the marker, and otherwise reads and captures all of it |
| ProcessOutput.WatchIgnoresClockWithoutTimeout | libs/utils.py:470-471 | with timeout 0 neither the start reading nor the clock readings affect the result |
| ProcessOutput.WatchEmptyMarker | libs/utils.py:486-489 | `''.count` is positive, so an empty success string succeeds on the first line and captures just it |
| ProcessOutput.WatchStopsAtMarkerLine | libs/utils.py:483-489 | for any timeout whose deadline check after the first line passes, a marker first completed by the second line (alone, or together with the end of the first) ends the watch there with success and both lines captured; lines after it are neither read nor captured |
| ProcessOutput.ConcatSnoc | libs/utils.py:485 | `final_output += output`: the text of k+1 lines is the text of k lines followed by line k |
| PyStr.ContainsAt | libs/utils.py:301 | an occurrence of t at a position makes `t in s` true |
| PyStr.ContainsHasPosition | libs/utils.py:301 | `t in s` yields a position where t occurs |
| PyStr.ContainsAppend | libs/utils.py:485-486 | appending text keeps every substring |
| PyStr.ContainsPrepend | libs/utils.py:485-486 | prepending text keeps every substring |
| PyStr.ContainsMiddle | libs/utils.py:301 | a text holding t between two pieces contains t |
| PyStr.ContainedCharsOccur | libs/utils.py:301 | every character of a contained text occurs in the containing text |
| PyStr.MissingCharNotContained | libs/utils.py:303 | a text lacking one of t's characters does not contain t |
| PyStr.CountPositiveIffContains | libs/utils.py:486 | `s.count(t) > 0` holds exactly when `t in s`, the empty t included |
| PyStr.Split | libs/utils.py:375 | `str.split(c)` never returns an empty list |
| PyStr.JoinSplit | libs/utils.py:375 | joining the fields with the separator gives back the string, and no field holds the separator |
| PyStr.JoinSplitRoundTrip | libs/utils.py:375 | `c.join(s.split(c)) == s` |
| PyStr.SplitFieldsFree | libs/utils.py:375 | no field of `s.split(c)` contains c |
| PyStr.SplitJoin | libs/utils.py:375 | splitting a join of separator-free fields gives back the fields |
| PyStr.SplitField | libs/utils.py:375 | a string without the separator splits into itself alone |
| PyStr.SplitCons | libs/utils.py:375 | a separator-free first field followed by the separator splits off first |
| PyStr.JoinEndsWithLast | libs/utils.py:302 | a join ends with its last field, preceded by the separator when there are several fields |
| PyStr.LastFieldIsTail | libs/utils.py:302 | `s.split(c)[-1]` is a separator-free suffix of s, preceded by c or reaching the start |
| PyStr.LastFieldAfter | libs/utils.py:302 | whatever precedes the last separator, `[-1]` is the text after it |
| PyStr.LineEnd | libs/utils.py:298 | the line boundary `splitlines` cuts at is the first one at or after the position |
| PyStr.SplitLinesHaveNoBreaks | libs/utils.py:298 | no line `splitlines` yields holds a line boundary |
| PyStr.SplitLinesTerminated | libs/utils.py:298 | `splitlines` recovers newline-terminated lines that hold no boundary |
| PyStr.LineEndIsFirstBreak | libs/utils.py:298 | a boundary with none before it is what the line cut finds |
| PyStr.TrimLeftCuts | libs/utils.py:302 | the left trim keeps a suffix, cuts only whitespace, and keeps no leading whitespace |
| PyStr.TrimRightCuts | libs/utils.py:302 | the right trim keeps a prefix, cuts only whitespace, and keeps no trailing whitespace |
| PyStr.StripKeeps | libs/utils.py:302 | `strip()` leaves a string without surrounding whitespace unchanged |
| PyStr.StripPadded | libs/utils.py:302 | `strip()` removes leading whitespace before a word |
| PyStr.DigitBodyEnds | libs/utils.py:302 | a digit string accepted by `int()` starts and ends with a digit |
| PyStr.DigitsAreBody | libs/utils.py:302 | a non-empty run of digits is accepted by `int()` |
| PyStr.DigitBodyChars | libs/utils.py:302 | a digit string holds only digits and `_` |
| PyStr.NatStrValue | libs/utils.py:312 | `str(n)` of a natural number is a digit string whose value is n |
| PyStr.PyIntDigits | libs/utils.py:302 | `int()` reads a digit string as its value |
| PyStr.PyIntNegatedDigits | libs/utils.py:302 | `int()` reads `-` plus a digit string as the negated value |
| PyStr.PyIntStr | libs/utils.py:312-315 | `int(str(i)) == i` for every integer |
| PyStr.PyIntRejectsRange | libs/utils.py:302 | `int()` raises on a CPU range `a-b` |
| PyStr.PyIntRejectsDash | libs/utils.py:302 | `int()` raises on two digit-bounded parts joined by `-` |
| PyStr.PyIntRejectsUnsigned | libs/utils.py:302 | `int()` raises on a digit-bounded string holding a character that is neither a digit nor `_` |
| PyStr.IntLiteralRejectsBody | libs/utils.py:302 | an unsigned literal that is not a digit string is rejected |
| PyStr.PyIntStripped | libs/utils.py:302 | on a string without surrounding whitespace `int()` reads the literal as it is |
| PyStr.IntStripKeeps | libs/utils.py:302 | `int()`'s own trim leaves a string without surrounding whitespace unchanged |
| PyStr.StripEnds | libs/utils.py:302 | what `strip()` leaves neither starts nor ends with whitespace |
| PyStr.PyIntAfterStrip | libs/utils.py:302 | on the output of `strip()`, as `int(... .strip())` has it, `int()` trims nothing more and reads the literal itself |
| PyStr.IntSpaceNarrowerThanStrip | libs/utils.py:302 | `strip()` removes a leading U+001C but `int('\x1c5')` raises; after `strip()` the value is read |
| PyStr.StrIsPlain | libs/utils.py:312-315 | `str(i)` is non-empty, made of digits and `-`, with no whitespace or line boundary |
| LscpuEnv.SetThreadsCntEnvVar | libs/utils.py:292-315 | the loop's result is the environment updated from `Scan` of the `splitlines` of the output, or the `ValueError` of `Scan` |
| LscpuEnv.SetThreadsCntEnvVarResult | libs/utils.py:297-315 | after a successful call the four entries are `str()` of the most recent value of each key among the lines read, THREADS_CNT the product of cores per socket and threads per core; nothing else changes |
| LscpuEnv.ExportWritesFourEntries | libs/utils.py:312-315 | exactly the four keys are added or overwritten, with `str()` of the counters and THREADS_CNT as the product; every other entry is unchanged |
| LscpuEnv.FirstStop | libs/utils.py:309-310 | the index found is within the lines |
| LscpuEnv.FoldSnoc | libs/utils.py:300-308 | the counters after one more line are one more iteration of the loop body |
| LscpuEnv.FoldSnocErr | libs/utils.py:300-308 | a failure stays the same failure when one more line is added |
| LscpuEnv.FoldErrPersists | libs/utils.py:300-308 | a failure in a prefix is the failure of every longer prefix |
| LscpuEnv.FirstStopAfterErr | libs/utils.py:309-310 | after a failure the loop never breaks |
| LscpuEnv.ScanFromIsFold | libs/utils.py:300-310 | from any position the early-exit loop gives the counters of the lines up to its first break |
| LscpuEnv.ScanIsFoldOfReadLines | libs/utils.py:300-310 | the loop's result is the fold of exactly the lines read before the break |
| LscpuEnv.FirstStopOfExtension | libs/utils.py:309-310 | once a prefix sets all four counters, extra lines after it do not move the break |
| LscpuEnv.ScanIgnoresLaterLines | libs/utils.py:309-310 | once the lines read set all four counters, later lines cannot affect the result |
| LscpuEnv.FoldIsLatest | libs/utils.py:299-308 | each counter holds the value after the last `:` of the most recent line with its key, and keys that never appear leave it 0 |
| LscpuEnv.StepFailsOnBadLine | libs/utils.py:301-308 | one loop iteration unfolded, used as a proof step by FoldFailsAtFirstBadLine and ScanStopsOnBadLine: it raises exactly on a line that mentions a key and whose value `int()` rejects, with that literal |
| LscpuEnv.FirstBad | libs/utils.py:301-308 | the index is that of the first bad line, or the length when none is bad |
| LscpuEnv.FoldFailsAtFirstBadLine | libs/utils.py:300-308 | the scan without early exit fails iff some line is bad, with the literal of the first bad one |
| LscpuEnv.PaddedValue | libs/utils.py:302 | whitespace and `str(v)` hold no colon and strip to `str(v)` |
| LscpuEnv.FieldValueOfKeyLine | libs/utils.py:302 | a line ending in a key's colon, whitespace and `str(v)` yields v, whatever precedes the key |
| LscpuEnv.OwnKeyPresent | libs/utils.py:301 | a key line contains its key |
| LscpuEnv.OtherKeyAbsent | libs/utils.py:301-308 | a key line lacks another key when a character tells the two apart |
| LscpuEnv.CpusKeyChars | libs/utils.py:301-308 | each other key has a character absent from `CPU(s):` |
| LscpuEnv.ThreadsKeyChars | libs/utils.py:301-308 | each other key has a character absent from `Thread(s) per core:` |
| LscpuEnv.CoresKeyChars | libs/utils.py:301-308 | each other key has a character absent from `Core(s) per socket:` |
| LscpuEnv.SocketsKeyChars | libs/utils.py:301-308 | each other key has a character absent from `Socket(s):` |
| LscpuEnv.CpusLineKeys | libs/utils.py:301-308 | a `CPU(s):` line matches only the first `if` |
| LscpuEnv.ThreadsLineKeys | libs/utils.py:301-308 | a `Thread(s) per core:` line matches only its own `if` |
| LscpuEnv.CoresLineKeys | libs/utils.py:301-308 | a `Core(s) per socket:` line matches only its own `if`, not `Socket(s):` |
| LscpuEnv.SocketsLineKeys | libs/utils.py:301-308 | a `Socket(s):` line matches only its own `if` |
| LscpuEnv.StepOnCpusLine | libs/utils.py:301-302 | a `CPU(s):` line sets cores_count to its value and nothing else |
| LscpuEnv.StepOnThreadsLine | libs/utils.py:305-306 | a `Thread(s) per core:` line sets threads_per_core and nothing else |
| LscpuEnv.StepOnCoresLine | libs/utils.py:303-304 | a `Core(s) per socket:` line sets core_per_socket and nothing else |
| LscpuEnv.StepOnSocketsLine | libs/utils.py:307-308 | a `Socket(s):` line sets sockets and nothing else |
| LscpuEnv.ScanFromContinues | libs/utils.py:300-310 | one loop iteration unfolded, used as a proof step by the ScanPast lemmas: a line that parses ends the loop once all four are set, and otherwise passes on |
| LscpuEnv.ScanPastCpusLine | libs/utils.py:300-310 | the loop passes a `CPU(s):` line that leaves a counter unset |
| LscpuEnv.ScanPastThreadsLine | libs/utils.py:300-310 | the loop passes a `Thread(s) per core:` line that leaves a counter unset |
| LscpuEnv.ScanPastCoresLine | libs/utils.py:300-310 | the loop passes a `Core(s) per socket:` line that leaves a counter unset |
| LscpuEnv.ScanStopsAtSocketsLine | libs/utils.py:300-310 | a `Socket(s):` line that completes the four counters ends the loop |
| LscpuEnv.TypicalOutputStopsAfterSockets | libs/utils.py:300-310 | output whose four key lines come in the order CPU count, threads per core, cores per socket, sockets, each possibly indented, with non-zero values and only key-free lines before and between them, gives their four values, whatever follows |
| LscpuEnv.ScanSkipsKeyFree | libs/utils.py:300-310 | while a counter is zero, lines that mention no key pass through the loop without changing anything |
| LscpuEnv.ScanFourKeyLines | libs/utils.py:300-310 | the same from any position, with the socket count still zero |
| LscpuEnv.ScanThreadsCoresSockets | libs/utils.py:300-310 | threads, cores and sockets lines after a set CPU count end the loop with their values |
| LscpuEnv.ScanCoresSockets | libs/utils.py:300-310 | cores and sockets lines after set CPU and thread counts end the loop with their values |
| LscpuEnv.ScanSocketsAfterGap | libs/utils.py:307-310 | with three counters set, key-free lines and then a sockets line end the loop with the socket count |
| LscpuEnv.PaddedRange | libs/utils.py:302 | whitespace and a CPU range hold no colon and strip to the range |
| LscpuEnv.RangeIsPlain | libs/utils.py:302 | a CPU range holds no colon and starts and ends with a digit |
| LscpuEnv.ColonFreePadded | libs/utils.py:302 | whitespace before a colon-free text adds no colon |
| LscpuEnv.RangeLineLastField | libs/utils.py:302 | the field after the CPU key's colon is the padded range |
| LscpuEnv.RangeFieldRejected | libs/utils.py:302 | a line whose last field is a padded range raises ValueError naming the range |
| LscpuEnv.RangeValueRejected | libs/utils.py:302 | whatever precedes the CPU key, a range after it raises ValueError |
| LscpuEnv.FieldValueRejects | libs/utils.py:302 | a value field that strips to a rejected literal raises ValueError naming it |
| LscpuEnv.KeyLineMentionsKey | libs/utils.py:301 | a line holding a key mentions it |
| LscpuEnv.BadCpusLine | libs/utils.py:301-302 | a `CPU(s):` line whose value `int()` rejects is a failing line |
| LscpuEnv.NumaLineIsBad | libs/utils.py:301-302 | a line such as `NUMA node0 CPU(s):   0-7` matches the CPU key, and `int()` raises on its range |
| LscpuEnv.ScanStopsOnBadLine | libs/utils.py:300-308 | a failing line ends the loop with its ValueError |
| LscpuEnv.NumaLineBeforeAllSetFails | libs/utils.py:300-310 | a NUMA line reached while a counter is still zero (after a CPU line and key-free lines) makes the function fail with the range's ValueError |
| LscpuEnv.ScanCpusThenNuma | libs/utils.py:300-310 | the same from any position |
| Helpers.CheckMachinePriority | libs/utils.py:343-351 | "Azure Linux Agent" iff `walinuxagent.service` occurs, even with `pccs.service`; "DCAP client" iff only `pccs.service` occurs; otherwise "No Provisioning enabled" |
| Helpers.CheckMachineMonotone | libs/utils.py:343-351 | more listed services never lower the answer |
| Helpers.WorkloadNameWithoutSpace | libs/utils.py:373-377 | an image string with no space gives '' |
| Helpers.WorkloadNameIsSecondField | libs/utils.py:375 | the name is the text between the first space and the next one or the end, '' for two adjacent spaces |
| Helpers.WorkloadNameHasNoSpace | libs/utils.py:375 | a workload name never holds a space |
| Helpers.SedAppendAddsLastLine | libs/utils.py:449-452 | on a non-empty file, `sed '$ a text'` keeps the contents as a prefix and makes text a new last line |
| Helpers.SedAppendContains | libs/utils.py:449-456 | what is appended occurs in the result |
| Helpers.SedAppendKeeps | libs/utils.py:449-456 | appending keeps what the contents held |
| Helpers.LinesMentionKeys | libs/utils.py:450-454 | each appended line holds the key it is appended for |
| Helpers.EnableEdmmMentionsBoth | libs/utils.py:441-456 | with EDMM "1" and a non-empty manifest both keys are present afterwards |
| Helpers.EnableEdmmAppends | libs/utils.py:441-456 | the two guarded appends stated case by case, used as the proof step of EnableEdmmMentionsBoth: each line is appended only if its key is absent, `sgx.edmm_enable` before `sgx.require_exinfo` |
| Helpers.EnableEdmmIdempotent | libs/utils.py:440-456 | applying the check twice gives what applying it once gives |
| Helpers.EnableEdmmOnlyWhenSet | libs/utils.py:441 | with EDMM unset the lookup raises KeyError; with any value other than "1" the manifest is unchanged |

## Left out

- Running commands is outside the model. The outputs of `exec_shell_cmd('lscpu')` and of the `systemctl` listing come in as text parameters, and so do the manifest's contents. The `sed '$ a'` edit is modelled by `SedAppend`, and the manifest's new contents are returned rather than written. `exec_shell_cmd` returns the output stripped at both ends (libs/utils.py:47), and the model takes that stripped text.
- The model assumes every command succeeds. When one fails, `exec_shell_cmd` prints the error and returns None (libs/utils.py:51-52). Then `None.splitlines()` raises AttributeError in `set_threads_cnt_env_var` (298), `in` on None raises TypeError in `check_machine` (343), and a failing `sed` (452, 456) leaves the manifest as it was without an error.
- Printing, and the debug-mode console log of `track_process`, are not modelled: outside debug mode they produce output without changing the result. `test_config_dict` only selects that log, so it is not a parameter.
- TrackProcess: the error paths of debug mode are not modelled. `test_config_dict['test_name']` raises KeyError when the key is missing (libs/utils.py:467), and opening the log file can raise (libs/utils.py:468).
- TrackProcess: it requires a stdout that is still open. A process whose stdout an earlier successful watch closed (libs/utils.py:487) makes `readline` raise ValueError (libs/utils.py:476); that error is not modelled.
- `track_process` with `process=None` would raise `AttributeError`; the model always has a process.
- Process.Exited: the process is modelled as exiting exactly when its output is drained, and its output as a finite list of lines. A real process may have exited while lines are still buffered; the loop then reads on, with the same result. A process that closes stdout but keeps running makes the loop spin on `''` until `poll()` reports the exit, and never ends if it does not exit. A process that falls silent without closing stdout blocks `readline` (libs/utils.py:476) indefinitely. Output that never ends is outside the model.
- TrackProcess: the source checks the deadline only after a non-empty line that does not complete the marker (libs/utils.py:483-491), so a deadline does not end a wait for output that never comes. The model reflects this, since its clock is read only after each line.
- TrackProcess: `time.time()` floats are modelled as exact `real` readings, one taken after each line read, so rounding is not modelled. The clock is not required to be non-decreasing.
- PyStr.PyInt: non-ASCII decimal digits (such as Arabic-Indic digits) and Python's 4300-digit conversion limit are not modelled. ASCII digits, a sign and `_` between digits are modelled. So is the surrounding whitespace `int()` skips: every character `str.isspace` accepts except U+001C to U+001F, which `strip()` removes but `int()` rejects.
- The `'$ a'` append of GNU sed is modelled on the contents. An empty file has no last line, so nothing is appended. A missing final newline is supplied before the new line.
- The other functions of `libs/utils.py` are not part of this model. Some have decisions of their own, such as the installed-binary and distribution checks of `gramine_package_install`, the zero-baseline and throughput branches of `percent_degradation`, and the retry loop of `reboot_client`. They are left out because those decisions depend on shell commands, `psutil`, sockets, YAML, `re`, threads or floating point.
