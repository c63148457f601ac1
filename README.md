# pi_tvservice_monitor, modelled in Dafny

`pi_tvservice_monitor.py` watches the output of `tvservice -M`, the Raspberry
Pi display monitor, and runs shell commands when a screen is attached or
unplugged. Its core is `tvservice_loop`. The loop reads one line at a time
and strips it. It stops the program with `exit(-1)` when the stripped line is
empty and the child process has exited. Otherwise it classifies a non-empty
line by two independent substring searches, `"attached"` and `"unplugged"`.
For each search that matches, it runs the commands of the `onattach` or
`ondetach` mapping of the configuration, one after the other, in the
mapping's insertion order.

The project has two modules:

- `PyText` (`text.dfy`) models the two pieces of Python's string library the
  loop uses:
  - `Strip` is `str.strip()` with Python's whitespace set, written as the two
    index scans CPython performs.
  - `Contains` is `re.search` with a literal pattern: an unanchored,
    case-sensitive substring test.
- `TvserviceMonitor` (`tvservice_monitor.dfy`) models the configuration, the
  per-line dispatch and the loop:
  - `Section` is a configuration key: `Absent`, `NotMapping` (a value that is
    not a JSON object) or `Mapping` (its `(name, command)` entries in
    insertion order).
  - `Dispatch` is a pure function from a stripped line and the configuration
    to the commands that line runs.
  - `RunActions`, `HandleLine` and `TvserviceLoop` are methods with the
    source's own loops and tests. They are proved against the specification
    functions `Commands`, `Dispatch`, `Consumed` and `Trace`.
  - Running a command appends its string to a trace.
  - The child process becomes a finite sequence of `Reading`s. Each reading is
    the line `readline()` returned, plus whether `poll()` would report that the
    child has exited.
  - The loop returns `Exit(-1)` when it stops. It returns `Exhausted` when the
    model's finite input runs out first.
  - The configuration is a value that no operation can change, so the loop
    leaves it untouched by construction.
- The lemmas on the sample output (the `*LineStrips`, `*LineIsAttach`,
  `*LineNotAttach`, `*LineIsDetach` and `*LineNotDetach` facts, and the
  helpers `Regroup` and `SampleCommands`) are proof helpers. Each proves one
  fact about a literal line, because several such facts in one proof exceed
  the verifier's resource limit. The `*Reading` lemmas and the scenarios
  state the results.

## Model

| member | source | states |
|---|---|---|
| `PyText.Strip` | pi_tvservice_monitor.py:58 | the stripped line has no whitespace at either end, and it is empty exactly when the raw line is all whitespace |
| `PyText.StripIsInfix` | pi_tvservice_monitor.py:58 | the stripped line is the part of the raw line between a whitespace prefix and a whitespace suffix |
| `PyText.StripExact` | pi_tvservice_monitor.py:58 | stripping whitespace + m + whitespace gives back m whenever m has no whitespace at its ends, so strip removes exactly the surrounding whitespace |
| `PyText.StripIdempotent` | pi_tvservice_monitor.py:58 | stripping twice is the same as stripping once |
| `PyText.IsSpace` | pi_tvservice_monitor.py:58 | definition: the characters `str.isspace` accepts, the set `strip()` removes; Strip's contract and StripExact state what removing them gives |
| `PyText.Contains` | pi_tvservice_monitor.py:67 | definition: `re.search` with a literal pattern, tried at the start of the line and then one character further on; ContainsIff states it is unanchored substring occurrence |
| `PyText.ContainsIff` | pi_tvservice_monitor.py:67 | the substring search succeeds exactly when the pattern occurs at some index of the line (unanchored search) |
| `PyText.MissingCharNotContained` | pi_tvservice_monitor.py:73 | a line lacking one of the pattern's characters does not match the pattern |
| `PyText.OccursContains` | pi_tvservice_monitor.py:67 | an occurrence of the pattern at any index makes the search succeed |
| `TvserviceMonitor.Commands` | pi_tvservice_monitor.py:69-72 | a mapping section yields exactly its commands, one per entry, in insertion order; an absent or non-mapping section yields none |
| `TvserviceMonitor.CommandsOf` | pi_tvservice_monitor.py:70-72 | the commands of a mapping, one per entry, entry i giving command i |
| `TvserviceMonitor.IsAttach` | pi_tvservice_monitor.py:66-67 | definition: the line is non-empty and contains "attached"; the dispatch lemmas below state what it fires |
| `TvserviceMonitor.IsDetach` | pi_tvservice_monitor.py:73 | definition: the line is non-empty and contains "unplugged"; the dispatch lemmas below state what it fires |
| `TvserviceMonitor.Dispatch` | pi_tvservice_monitor.py:66-78 | definition: the commands one stripped line runs, the `onattach` commands when it is an attach line followed by the `ondetach` commands when it is a detach line; DispatchLayout, AttachRunsEachActionOnce, DetachRunsEachActionOnce, BothEventsFireAttachFirst, NothingRunsIff and MissingSectionIsEmpty state its properties |
| `TvserviceMonitor.DispatchLayout` | pi_tvservice_monitor.py:66-78 | a line runs the attach commands at positions [0, a) and the detach commands right after them, each in insertion order, and nothing else |
| `TvserviceMonitor.AttachRunsEachActionOnce` | pi_tvservice_monitor.py:67-72 | a non-empty line with "attached" and without "unplugged" runs each `onattach` command exactly once, in insertion order |
| `TvserviceMonitor.DetachRunsEachActionOnce` | pi_tvservice_monitor.py:73-78 | a non-empty line with "unplugged" and without "attached" runs each `ondetach` command exactly once, in insertion order |
| `TvserviceMonitor.BothEventsFireAttachFirst` | pi_tvservice_monitor.py:66-78 | a line with both substrings runs all `onattach` commands followed by all `ondetach` commands |
| `TvserviceMonitor.NothingRunsIff` | pi_tvservice_monitor.py:66 | a line runs nothing exactly when each section it fires is empty; an empty line, or one matching neither pattern, runs nothing |
| `TvserviceMonitor.MissingSectionIsEmpty` | pi_tvservice_monitor.py:69 | an absent or non-mapping section behaves as an empty mapping: no command and no error |
| `TvserviceMonitor.SubstringClassification` | pi_tvservice_monitor.py:67 | "unattached" counts as an attach line, and "detached" is neither an attach nor a detach line |
| `TvserviceMonitor.EndsLoop` | pi_tvservice_monitor.py:61 | definition: the termination test, the raw line is all whitespace (so it strips to "", by Strip's contract) and the child has exited; FirstEnd and EmptyReading state its effect |
| `TvserviceMonitor.HasEnd` | pi_tvservice_monitor.py:61 | definition: some reading passes the termination test; Consumed and TvserviceLoop state that the loop exits with -1 exactly then |
| `TvserviceMonitor.Consumed` | pi_tvservice_monitor.py:56-64 | the loop takes readings up to and including the first that ends it, or all readings when none does |
| `TvserviceMonitor.ConsumedFrom` | pi_tvservice_monitor.py:61 | from reading i on, the scan stops just past the first reading that ends the loop, or at the end of the input |
| `TvserviceMonitor.Flatten` | pi_tvservice_monitor.py:56-57 | definition: what a sequence of readings runs, the first reading's commands followed by the rest's; FlattenAppend and FlattenSeven state its properties |
| `TvserviceMonitor.FlattenAppend` | pi_tvservice_monitor.py:56-57 | running two segments of input one after the other runs the first segment's commands followed by the second's |
| `TvserviceMonitor.LineCommands` | pi_tvservice_monitor.py:57-58 | definition: what one reading runs, the dispatch of its stripped line |
| `TvserviceMonitor.Trace` | pi_tvservice_monitor.py:56-78 | definition: every command run for a sequence of readings, in input order; TvserviceLoop, TraceStep, TraceAppend and TraceCons state its properties |
| `TvserviceMonitor.RunActions` | pi_tvservice_monitor.py:69-78 | the loop over one section, used for `onattach` (lines 69-72) and `ondetach` (lines 75-78): the trace grows by exactly the section's commands, in insertion order, and by nothing for an absent or non-mapping section |
| `TvserviceMonitor.HandleLine` | pi_tvservice_monitor.py:66-78 | the trace grows by exactly the dispatch of the stripped line |
| `TvserviceMonitor.TvserviceLoop` | pi_tvservice_monitor.py:46-78 | the loop takes `Consumed(stream)` readings, ends with status -1 exactly when some reading ends it, and its trace is the dispatches of the taken readings in input order |
| `TvserviceMonitor.NoEndStep` | pi_tvservice_monitor.py:61 | a reading that fails the termination test extends the prefix that has not ended |
| `TvserviceMonitor.NoEndAtAll` | pi_tvservice_monitor.py:56 | when no reading ends the loop, all of them are taken |
| `TvserviceMonitor.FirstEnd` | pi_tvservice_monitor.py:61-64 | the first reading with an empty stripped line from an exited child is the last one taken |
| `TvserviceMonitor.TraceStep` | pi_tvservice_monitor.py:57-78 | taking one more reading appends exactly that reading's dispatch to the trace |
| `TvserviceMonitor.TraceAppend` | pi_tvservice_monitor.py:56-78 | the trace of two input segments is the trace of the first followed by the trace of the second |
| `TvserviceMonitor.TraceCons` | pi_tvservice_monitor.py:56-78 | the trace of a reading followed by more readings is that reading's dispatch followed by the rest's trace |
| `TvserviceMonitor.ConsumedCons` | pi_tvservice_monitor.py:61-64 | a leading reading that does not end the loop shifts the point where the loop ends by one and leaves whether it ends unchanged |
| `TvserviceMonitor.ContinuesPast` | pi_tvservice_monitor.py:61-66 | a reading that does not end the loop runs its dispatch and the loop carries on; a blank line from a running child adds nothing |
| `TvserviceMonitor.LaterInputIgnored` | pi_tvservice_monitor.py:64 | readings after the one that ends the loop change neither the outcome, the count of readings taken nor the trace |
| `TvserviceMonitor.AttachLineStrips` | pi_tvservice_monitor.py:7 | the sample attach line, read with its newline, strips to itself |
| `TvserviceMonitor.AttachLineIsAttach` | pi_tvservice_monitor.py:7 | the sample attach line contains "attached" |
| `TvserviceMonitor.AttachLineNotDetach` | pi_tvservice_monitor.py:7 | the sample attach line does not contain "unplugged" |
| `TvserviceMonitor.DetachLineStrips` | pi_tvservice_monitor.py:6 | the sample unplug line, read with its newline, strips to itself |
| `TvserviceMonitor.DetachLineNotAttach` | pi_tvservice_monitor.py:6 | the sample unplug line does not contain "attached" |
| `TvserviceMonitor.DetachLineIsDetach` | pi_tvservice_monitor.py:6 | the sample unplug line contains "unplugged" |
| `TvserviceMonitor.StartLineStrips` | pi_tvservice_monitor.py:5 | the monitor's start-up line strips to itself |
| `TvserviceMonitor.StartLineNotAttach` | pi_tvservice_monitor.py:5 | the start-up line does not contain "attached" |
| `TvserviceMonitor.StartLineNotDetach` | pi_tvservice_monitor.py:5 | the start-up line does not contain "unplugged" |
| `TvserviceMonitor.StopLineStrips` | pi_tvservice_monitor.py:10 | the shut-down line strips to itself |
| `TvserviceMonitor.StopLineNotAttach` | pi_tvservice_monitor.py:10 | the shut-down line does not contain "attached" |
| `TvserviceMonitor.StopLineNotDetach` | pi_tvservice_monitor.py:10 | the shut-down line does not contain "unplugged" |
| `TvserviceMonitor.AttachReading` | pi_tvservice_monitor.py:7 | the sample attach reading runs exactly the `onattach` commands and does not end the loop |
| `TvserviceMonitor.DetachReading` | pi_tvservice_monitor.py:6 | the sample unplug reading runs exactly the `ondetach` commands and does not end the loop |
| `TvserviceMonitor.StartReading` | pi_tvservice_monitor.py:5 | the start-up reading runs nothing and does not end the loop |
| `TvserviceMonitor.StopReading` | pi_tvservice_monitor.py:10 | the shut-down reading runs nothing and does not end the loop |
| `TvserviceMonitor.EmptyReading` | pi_tvservice_monitor.py:61 | an empty reading runs nothing, and it ends the loop exactly when the child has exited |
| `TvserviceMonitor.AttachScenario` | pi_tvservice_monitor.py:67-72 | with one `onattach` entry and no `ondetach` key, an attach line runs that one command once and the loop keeps waiting |
| `TvserviceMonitor.EmptyConfigScenario` | pi_tvservice_monitor.py:66-78 | with an empty configuration, an unplug line and an attach line run nothing and the loop keeps waiting |
| `TvserviceMonitor.ChildExitScenario` | pi_tvservice_monitor.py:61-64 | when the child exits with no more output, the first reading ends the loop, nothing runs, and no later input is taken |
| `TvserviceMonitor.FlattenSeven` | pi_tvservice_monitor.py:56-57 | the commands of seven readings are those of each reading, in input order |
| `TvserviceMonitor.SessionEnds` | pi_tvservice_monitor.py:61-64 | in the sample session the loop ends at the seventh reading, and the eighth is never taken |
| `TvserviceMonitor.SampleSession` | pi_tvservice_monitor.py:4-10 | readings that classify as the sample lines run off, on, off, on and stop at the blank line from the exited child |
| `TvserviceMonitor.SampleOutputSession` | pi_tvservice_monitor.py:4-10 | the sample output with `onattach` "leds --on" and `ondetach` "leds --off" runs exactly "leds --off", "leds --on", "leds --off", "leds --on" and ends with status -1 |

## Left out

- Spawning `tvservice -M` with stderr redirected to stdout (pi_tvservice_monitor.py lines 50-53) is not modelled; its output is the sequence of readings.
- Running a command through the shell (lines 72 and 78) becomes an append to the trace. The command's own exit status is ignored by the source and plays no part. A command that cannot be launched raises an exception in the source; the model does not have that path.
- `poll()` and `returncode` (lines 61-62) become the `exited` flag of a reading. Because of short-circuiting, `poll()` is only consulted for an empty stripped line, and the flag matters only there.
- The UTF-8 decoding of each line (line 58) is not modelled: readings are already text, so a decoding error cannot happen in the model.
- Logging and the optional `rich` formatting (lines 19-40, and the `log` calls in the loop) produce no state the loop reads; they are left out.
- Argument parsing, the check that the configuration file exists, and JSON loading (lines 43-44 and 83-95) are outside the loop and not modelled.
- The configuration's top level is taken to be an object. Mapping values are taken to be strings, the command passed to the shell. A non-string value, which `subprocess.run` would treat differently or reject, is not modelled.
- `re.search` is modelled only for literal patterns, which are the only ones the source uses. General regular expressions are not modelled.
- `exit(-1)` is modelled as the status -1 that the source passes. The process status the operating system then reports (255) is not modelled.
- TvserviceLoop: the source loops for ever while the child runs. The model reads a finite sequence of readings and reports `Exhausted` when it runs out without meeting the termination test.
