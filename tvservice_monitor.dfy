/**
 The event loop of the tvservice monitor: it reads the lines that
 `tvservice -M` prints, classifies each one as an attach event, a detach
 ("unplugged") event, both or neither, and runs the shell commands that the
 configuration lists for each event, in the configuration's order. The loop
 ends, with exit status -1, on the first line that is empty after stripping
 and read when the child process has already exited.

 Running a command is recorded by appending its string to a trace; the
 child process is replaced by a sequence of readings.
 */
module TvserviceMonitor {
  import opened PyText

  /** One entry of an action mapping: a label used only for logging and the
      shell command that is run. */
  datatype Action = Action(name: string, command: string)

  /** What the loaded configuration holds under `onattach` or `ondetach`:
      no such key, a value that is not a JSON object, or an object. The
      actions of an object are the items of the dict `json.load` built, in
      insertion order, so their names are distinct (a repeated key in the
      file keeps its first position and takes its last value). Nothing
      below relies on the names being distinct: every property holds for
      any sequence of actions. */
  datatype Section = Absent | NotMapping | Mapping(actions: seq<Action>)

  datatype Config = Config(onattach: Section, ondetach: Section)

  /** The patterns handed to `re.search`. */
  const AttachPattern: string := "attached"
  const DetachPattern: string := "unplugged"

  /** The commands a section runs, in order; a missing key or a value that
      is not a mapping runs nothing. */
  function Commands(section: Section): (r: seq<string>)
    ensures section.Mapping? ==> |r| == |section.actions|
    ensures section.Mapping? ==> forall i :: 0 <= i < |r| ==> r[i] == section.actions[i].command
    ensures !section.Mapping? ==> r == []
  {
    match section
    case Mapping(actions) => CommandsOf(actions)
    case _ => []
  }

  function CommandsOf(actions: seq<Action>): (r: seq<string>)
    ensures |r| == |actions|
    ensures forall i :: 0 <= i < |r| ==> r[i] == actions[i].command
  {
    if actions == [] then [] else [actions[0].command] + CommandsOf(actions[1..])
  }

  /** Which of the two tests a stripped line passes. */
  predicate IsAttach(line: string) { line != "" && Contains(line, AttachPattern) }
  predicate IsDetach(line: string) { line != "" && Contains(line, DetachPattern) }

  /** The commands one stripped line causes to run, in order: the two
      tests are independent, and the attach commands come first. */
  function Dispatch(line: string, config: Config): seq<string>
  {
    (if IsAttach(line) then Commands(config.onattach) else [])
    + (if IsDetach(line) then Commands(config.ondetach) else [])
  }

  // ---------------------------------------------------------------------
  // Properties of one dispatch

  /** Where each command of a dispatch comes from: the attach commands,
      if the line is an attach line, fill positions [0, a) in insertion
      order, and the detach commands, if it is a detach line, fill the
      positions after them, also in insertion order; nothing else runs. */
  lemma DispatchLayout(line: string, config: Config)
    ensures var r := Dispatch(line, config);
      var a := if IsAttach(line) then |Commands(config.onattach)| else 0;
      var d := if IsDetach(line) then |Commands(config.ondetach)| else 0;
      && |r| == a + d
      && (IsAttach(line) && config.onattach.Mapping? ==>
            forall i :: 0 <= i < a ==> r[i] == config.onattach.actions[i].command)
      && (IsDetach(line) && config.ondetach.Mapping? ==>
            forall j :: 0 <= j < d ==> r[a + j] == config.ondetach.actions[j].command)
  {
  }

  /** An attach line that is not also a detach line runs exactly the
      `onattach` commands, each once, in insertion order. */
  lemma AttachRunsEachActionOnce(line: string, config: Config)
    requires line != "" && Contains(line, AttachPattern) && !Contains(line, DetachPattern)
    requires config.onattach.Mapping?
    ensures var r, acts := Dispatch(line, config), config.onattach.actions;
      |r| == |acts| && forall i :: 0 <= i < |acts| ==> r[i] == acts[i].command
  {
  }

  /** A detach line that is not also an attach line runs exactly the
      `ondetach` commands, each once, in insertion order. */
  lemma DetachRunsEachActionOnce(line: string, config: Config)
    requires line != "" && Contains(line, DetachPattern) && !Contains(line, AttachPattern)
    requires config.ondetach.Mapping?
    ensures var r, acts := Dispatch(line, config), config.ondetach.actions;
      |r| == |acts| && forall i :: 0 <= i < |acts| ==> r[i] == acts[i].command
  {
  }

  /** A line that passes both tests fires both sections, and every attach
      command precedes every detach command. */
  lemma BothEventsFireAttachFirst(line: string, config: Config)
    requires line != "" && Contains(line, AttachPattern) && Contains(line, DetachPattern)
    ensures Dispatch(line, config) == Commands(config.onattach) + Commands(config.ondetach)
  {
  }

  /** Nothing runs for a line exactly when every section it fires is
      empty; in particular an empty line, or one matching neither pattern,
      runs nothing. */
  lemma NothingRunsIff(line: string, config: Config)
    ensures Dispatch(line, config) == [] <==>
      (!IsAttach(line) || Commands(config.onattach) == []) &&
      (!IsDetach(line) || Commands(config.ondetach) == [])
    ensures line == "" || (!Contains(line, AttachPattern) && !Contains(line, DetachPattern))
      ==> Dispatch(line, config) == []
  {
  }

  /** A missing key, or a key whose value is not a mapping, behaves as an
      empty mapping: the event is still recognised, runs nothing, and is
      not an error. */
  lemma MissingSectionIsEmpty(line: string, config: Config)
    ensures !config.onattach.Mapping? ==>
      Dispatch(line, config) == Dispatch(line, config.(onattach := Mapping([])))
    ensures !config.ondetach.Mapping? ==>
      Dispatch(line, config) == Dispatch(line, config.(ondetach := Mapping([])))
  {
  }

  /** The tests are unanchored and literal: "unattached" counts as an
      attach line, and a line such as "detached" is no event at all. */
  lemma SubstringClassification()
    ensures IsAttach("unattached")
    ensures !IsAttach("detached") && !IsDetach("detached")
  {
    OccursContains("unattached", AttachPattern, 2);
    assert "detached"[..8] != AttachPattern by { assert "detached"[0] != AttachPattern[0]; }
    assert !Contains("detached"[1..], AttachPattern);
  }

  // ---------------------------------------------------------------------
  // The loop

  /** One pass of the loop: the line `readline()` returned and, should it
      be empty after stripping, whether `poll()` then reports that the
      child has exited. */
  datatype Reading = Reading(raw: string, exited: bool)

  /** How a run over a finite prefix of the child's output ends: the call
      to `exit(-1)`, or no more readings to look at. */
  datatype Outcome = Exit(status: int) | Exhausted

  const ExitStatus: int := -1

  /** The termination test: an empty stripped line from an exited child.
      The line strips to "" exactly when it is all whitespace (the contract
      of Strip), which is the form used here. */
  predicate EndsLoop(e: Reading) {
    AllSpace(e.raw) && e.exited
  }

  predicate HasEnd(stream: seq<Reading>) {
    exists k :: 0 <= k < |stream| && EndsLoop(stream[k])
  }

  /** None of the first `n` readings ends the loop. */
  predicate NoEndBefore(stream: seq<Reading>, n: nat)
    requires n <= |stream|
  {
    forall k :: 0 <= k < n ==> !EndsLoop(stream[k])
  }

  /** How many readings the loop takes from `stream`: up to and including
      the first one that ends it, or all of them. */
  function Consumed(stream: seq<Reading>): (n: nat)
    ensures n <= |stream|
    ensures forall k :: 0 <= k < n - 1 ==> !EndsLoop(stream[k])
    ensures HasEnd(stream) ==> 0 < n && EndsLoop(stream[n - 1])
    ensures !HasEnd(stream) ==> n == |stream|
  {
    ConsumedFrom(stream, 0)
  }

  /** The scan behind Consumed, from reading `i` on. */
  function ConsumedFrom(stream: seq<Reading>, i: nat): (n: nat)
    requires i <= |stream|
    ensures i <= n <= |stream|
    ensures forall k :: i <= k < n - 1 ==> !EndsLoop(stream[k])
    ensures n == |stream| || (i < n && EndsLoop(stream[n - 1]))
    ensures (i < n && EndsLoop(stream[n - 1])) || forall k :: i <= k < n ==> !EndsLoop(stream[k])
    decreases |stream| - i
  {
    if i == |stream| then i
    else if EndsLoop(stream[i]) then i + 1
    else ConsumedFrom(stream, i + 1)
  }

  /** The commands run for `readings`, one reading after another, where
      `run` gives what a single reading runs. */
  function Flatten(run: Reading -> seq<string>, readings: seq<Reading>): seq<string>
  {
    if readings == [] then [] else run(readings[0]) + Flatten(run, readings[1..])
  }

  lemma {:induction false} FlattenAppend(run: Reading -> seq<string>, a: seq<Reading>, b: seq<Reading>)
    ensures Flatten(run, a + b) == Flatten(run, a) + Flatten(run, b)
    decreases |a|
  {
    if a == [] {
      assert a + b == b;
    } else {
      assert (a + b)[0] == a[0];
      assert (a + b)[1..] == a[1..] + b;
      FlattenAppend(run, a[1..], b);
    }
  }

  /** What one reading runs: the dispatch of its stripped line. */
  function LineCommands(config: Config): Reading -> seq<string>
  {
    (e: Reading) => Dispatch(Strip(e.raw), config)
  }

  /** Every command run for `readings`, in input order. */
  function Trace(config: Config, readings: seq<Reading>): seq<string>
  {
    Flatten(LineCommands(config), readings)
  }

  /** Running one section (pi_tvservice_monitor.py, lines 69-72 and 75-78):
      when the section is a mapping, run its commands one after the other
      in insertion order. */
  method RunActions(section: Section, trace: seq<string>) returns (trace': seq<string>)
    ensures trace' == trace + Commands(section)
  {
    trace' := trace;
    if section.Mapping? {
      var actions := section.actions;
      for i := 0 to |actions|
        invariant |trace'| == |trace| + i
        invariant trace'[..|trace|] == trace
        invariant forall k :: 0 <= k < i ==> trace'[|trace| + k] == actions[k].command
      {
        trace' := trace' + [actions[i].command];
      }
    }
  }

  /** Handling one stripped line (pi_tvservice_monitor.py, lines 66-78):
      the attach test, then, independently, the detach test. */
  method HandleLine(config: Config, output: string, trace: seq<string>) returns (trace': seq<string>)
    ensures trace' == trace + Dispatch(output, config)
  {
    trace' := trace;
    if output != "" {
      if Contains(output, AttachPattern) {
        trace' := RunActions(config.onattach, trace');
      }
      if Contains(output, DetachPattern) {
        trace' := RunActions(config.ondetach, trace');
      }
    }
  }

  /** `tvservice_loop` over the readings in `stream`: it stops at the first
      reading that ends the loop, with status -1, or when the readings run
      out; `trace` holds every command run, and `consumed` is how many
      readings were taken. */
  method TvserviceLoop(config: Config, stream: seq<Reading>)
    returns (trace: seq<string>, outcome: Outcome, consumed: nat)
    ensures consumed == Consumed(stream)
    ensures outcome == (if HasEnd(stream) then Exit(ExitStatus) else Exhausted)
    ensures trace == Trace(config, stream[..consumed])
  {
    trace := [];
    var i := 0;
    while i < |stream|
      invariant 0 <= i <= |stream|
      invariant NoEndBefore(stream, i)
      invariant trace == Trace(config, stream[..i])
    {
      var output := Strip(stream[i].raw);
      TraceStep(config, stream, i);
      if output == "" && stream[i].exited {
        FirstEnd(stream, i);
        outcome, consumed := Exit(ExitStatus), i + 1;
        return;
      }
      NoEndStep(stream, i);
      trace := HandleLine(config, output, trace);
      i := i + 1;
    }
    NoEndAtAll(stream);
    outcome, consumed := Exhausted, i;
  }

  lemma NoEndStep(stream: seq<Reading>, i: nat)
    requires i < |stream| && NoEndBefore(stream, i) && !EndsLoop(stream[i])
    ensures NoEndBefore(stream, i + 1)
  {
  }

  /** A stream none of whose readings ends the loop is taken whole. */
  lemma NoEndAtAll(stream: seq<Reading>)
    requires NoEndBefore(stream, |stream|)
    ensures !HasEnd(stream) && Consumed(stream) == |stream| && stream[..|stream|] == stream
  {
  }

  /** The first reading that passes the termination test is the last one
      the loop takes. */
  lemma FirstEnd(stream: seq<Reading>, i: nat)
    requires i < |stream| && EndsLoop(stream[i]) && NoEndBefore(stream, i)
    ensures HasEnd(stream) && Consumed(stream) == i + 1
  {
  }

  /** Taking one more reading appends that reading's dispatch. */
  lemma TraceStep(config: Config, stream: seq<Reading>, i: nat)
    requires i < |stream|
    ensures Trace(config, stream[..i + 1])
         == Trace(config, stream[..i]) + Dispatch(Strip(stream[i].raw), config)
  {
    assert stream[..i + 1] == stream[..i] + [stream[i]];
    FlattenAppend(LineCommands(config), stream[..i], [stream[i]]);
    assert Flatten(LineCommands(config), [stream[i]]) == LineCommands(config)(stream[i]) + [];
  }

  // ---------------------------------------------------------------------
  // Properties of the loop

  /** Input order is trace order: the commands run for `a` followed by `b`
      are those run for `a`, then those run for `b`. */
  lemma TraceAppend(config: Config, a: seq<Reading>, b: seq<Reading>)
    ensures Trace(config, a + b) == Trace(config, a) + Trace(config, b)
  {
    FlattenAppend(LineCommands(config), a, b);
  }

  /** The commands run for a reading and those after it: that reading's
      dispatch, then the rest. */
  lemma TraceCons(config: Config, e: Reading, rest: seq<Reading>)
    ensures Trace(config, [e] + rest) == Dispatch(Strip(e.raw), config) + Trace(config, rest)
  {
    assert ([e] + rest)[0] == e && ([e] + rest)[1..] == rest;
  }

  /** Whether a stream ends the loop, and where, after one reading that
      does not. */
  lemma ConsumedCons(e: Reading, rest: seq<Reading>)
    requires !EndsLoop(e)
    ensures HasEnd([e] + rest) == HasEnd(rest)
    ensures Consumed([e] + rest) == 1 + Consumed(rest)
  {
    var s := [e] + rest;
    assert s[1..] == rest;
    assert forall k :: 0 <= k < |rest| ==> s[k + 1] == rest[k];
    if HasEnd(rest) {
      var k :| 0 <= k < |rest| && EndsLoop(rest[k]);
      assert EndsLoop(s[k + 1]);
    }
  }

  /** A reading that does not end the loop adds its line's dispatch to the
      trace and the loop carries on with the next reading; a blank line
      from a child that is still running adds nothing. */
  lemma ContinuesPast(config: Config, e: Reading, rest: seq<Reading>)
    requires !EndsLoop(e)
    ensures HasEnd([e] + rest) == HasEnd(rest)
    ensures Consumed([e] + rest) == 1 + Consumed(rest)
    ensures Trace(config, ([e] + rest)[..Consumed([e] + rest)])
         == Dispatch(Strip(e.raw), config) + Trace(config, rest[..Consumed(rest)])
    ensures Strip(e.raw) == "" ==>
      Trace(config, ([e] + rest)[..Consumed([e] + rest)]) == Trace(config, rest[..Consumed(rest)])
  {
    ConsumedCons(e, rest);
    var n := Consumed(rest);
    assert ([e] + rest)[..1 + n] == [e] + rest[..n];
    TraceCons(config, e, rest[..n]);
  }

  /** Readings after the one that ends the loop are never looked at:
      appending more input changes neither the outcome, nor the count of
      readings taken, nor the trace. */
  lemma LaterInputIgnored(config: Config, stream: seq<Reading>, later: seq<Reading>)
    requires HasEnd(stream)
    ensures HasEnd(stream + later)
    ensures Consumed(stream + later) == Consumed(stream)
    ensures Trace(config, (stream + later)[..Consumed(stream + later)])
         == Trace(config, stream[..Consumed(stream)])
  {
    var s := stream + later;
    var n := Consumed(stream);
    assert forall k :: 0 <= k < |stream| ==> s[k] == stream[k];
    assert EndsLoop(s[n - 1]);
    FirstEnd(s, n - 1);
    assert s[..n] == stream[..n];
  }

  // ---------------------------------------------------------------------
  // Scenarios, on the output shown in the module documentation of
  // pi_tvservice_monitor.py

  const AttachLine: string := "[I] HDMI is attached"
  const DetachLine: string := "[I] HDMI cable is unplugged. Display 2"
  const StartLine: string := "Starting to monitor for HDMI events"
  const StopLine: string := "Shutting down..."

  /** How the sample lines strip and classify, one fact at a time. These
      are proof helpers for the reading lemmas below: proving several facts
      about the literal lines in one lemma costs far more than proving
      them apart. */
  lemma AttachLineStrips()
    ensures Strip(AttachLine + "\n") == AttachLine
  {
    StripExact([], AttachLine, "\n");
    assert [] + AttachLine + "\n" == AttachLine + "\n";
  }

  lemma AttachLineIsAttach()
    ensures IsAttach(AttachLine)
  {
    OccursContains(AttachLine, AttachPattern, 12);
  }

  lemma AttachLineNotDetach()
    ensures !IsDetach(AttachLine)
  {
    MissingCharNotContained(AttachLine, DetachPattern, 'u');
  }

  lemma DetachLineStrips()
    ensures Strip(DetachLine + "\n") == DetachLine
  {
    StripExact([], DetachLine, "\n");
    assert [] + DetachLine + "\n" == DetachLine + "\n";
  }

  lemma DetachLineNotAttach()
    ensures !IsAttach(DetachLine)
  {
    MissingCharNotContained(DetachLine, AttachPattern, 't');
  }

  lemma DetachLineIsDetach()
    ensures IsDetach(DetachLine)
  {
    OccursContains(DetachLine, DetachPattern, 18);
  }

  lemma StartLineStrips()
    ensures Strip(StartLine + "\n") == StartLine
  {
    StripExact([], StartLine, "\n");
    assert [] + StartLine + "\n" == StartLine + "\n";
  }

  lemma StartLineNotAttach()
    ensures !IsAttach(StartLine)
  {
    MissingCharNotContained(StartLine, AttachPattern, 'c');
  }

  lemma StartLineNotDetach()
    ensures !IsDetach(StartLine)
  {
    MissingCharNotContained(StartLine, DetachPattern, 'u');
  }

  lemma StopLineStrips()
    ensures Strip(StopLine + "\n") == StopLine
  {
    StripExact([], StopLine, "\n");
    assert [] + StopLine + "\n" == StopLine + "\n";
  }

  lemma StopLineNotAttach()
    ensures !IsAttach(StopLine)
  {
    MissingCharNotContained(StopLine, AttachPattern, 'a');
  }

  lemma StopLineNotDetach()
    ensures !IsDetach(StopLine)
  {
    MissingCharNotContained(StopLine, DetachPattern, 'p');
  }

  /** What each sample reading runs, under any configuration. */
  lemma AttachReading(config: Config, exited: bool)
    ensures Dispatch(Strip(AttachLine + "\n"), config) == Commands(config.onattach)
    ensures !EndsLoop(Reading(AttachLine + "\n", exited))
  {
    assert !EndsLoop(Reading(AttachLine + "\n", exited)) by {
      AttachLineStrips();
    }
    assert Dispatch(Strip(AttachLine + "\n"), config) == Commands(config.onattach) by {
      AttachLineStrips();
      AttachLineIsAttach();
      AttachLineNotDetach();
    }
  }

  lemma DetachReading(config: Config, exited: bool)
    ensures Dispatch(Strip(DetachLine + "\n"), config) == Commands(config.ondetach)
    ensures !EndsLoop(Reading(DetachLine + "\n", exited))
  {
    assert !EndsLoop(Reading(DetachLine + "\n", exited)) by {
      DetachLineStrips();
    }
    assert Dispatch(Strip(DetachLine + "\n"), config) == Commands(config.ondetach) by {
      DetachLineStrips();
      DetachLineNotAttach();
      DetachLineIsDetach();
    }
  }

  lemma StartReading(config: Config, exited: bool)
    ensures Dispatch(Strip(StartLine + "\n"), config) == []
    ensures !EndsLoop(Reading(StartLine + "\n", exited))
  {
    assert !EndsLoop(Reading(StartLine + "\n", exited)) by {
      StartLineStrips();
    }
    assert Dispatch(Strip(StartLine + "\n"), config) == [] by {
      StartLineStrips();
      StartLineNotAttach();
      StartLineNotDetach();
    }
  }

  lemma StopReading(config: Config, exited: bool)
    ensures Dispatch(Strip(StopLine + "\n"), config) == []
    ensures !EndsLoop(Reading(StopLine + "\n", exited))
  {
    assert !EndsLoop(Reading(StopLine + "\n", exited)) by {
      StopLineStrips();
    }
    assert Dispatch(Strip(StopLine + "\n"), config) == [] by {
      StopLineStrips();
      StopLineNotAttach();
      StopLineNotDetach();
    }
  }

  lemma EmptyReading(config: Config, exited: bool)
    ensures Dispatch(Strip(""), config) == []
    ensures EndsLoop(Reading("", exited)) == exited
  {
    StripExact([], [], []);
  }

  /** An attach line with one `onattach` action and no `ondetach` key: the
      command runs once and the loop keeps waiting. */
  lemma AttachScenario()
    ensures var config := Config(Mapping([Action("a", "echo hi")]), Absent);
      var stream := [Reading(AttachLine + "\n", false)];
      && !HasEnd(stream) && Consumed(stream) == 1
      && Trace(config, stream[..Consumed(stream)]) == ["echo hi"]
  {
    var config := Config(Mapping([Action("a", "echo hi")]), Absent);
    var attach := Reading(AttachLine + "\n", false);
    AttachReading(config, false);
    NoEndAtAll([attach]);
    TraceCons(config, attach, []);
    assert [attach] == [attach] + [];
  }

  /** With an empty configuration, a detach line and an attach line run
      nothing, and the loop keeps waiting. */
  lemma EmptyConfigScenario()
    ensures var config := Config(Absent, Absent);
      var stream := [Reading(DetachLine + "\n", false), Reading(AttachLine + "\n", false)];
      && !HasEnd(stream) && Consumed(stream) == 2
      && Trace(config, stream[..Consumed(stream)]) == []
  {
    var config := Config(Absent, Absent);
    var detach, attach := Reading(DetachLine + "\n", false), Reading(AttachLine + "\n", false);
    DetachReading(config, false);
    AttachReading(config, false);
    NoEndAtAll([detach, attach]);
    TraceCons(config, attach, []);
    TraceCons(config, detach, [attach]);
    assert [detach, attach] == [detach] + [attach];
    assert [attach] == [attach] + [];
  }

  /** The child exits without printing anything more: the first reading
      ends the loop with status -1 and nothing runs. */
  lemma ChildExitScenario(config: Config, later: seq<Reading>)
    ensures var stream := [Reading("", true)] + later;
      && HasEnd(stream) && Consumed(stream) == 1
      && Trace(config, stream[..Consumed(stream)]) == []
  {
    var end := Reading("", true);
    var stream := [end] + later;
    EmptyReading(config, true);
    FirstEnd(stream, 0);
    assert stream[..1] == [end] + [];
    TraceCons(config, end, []);
  }

  /** Flattening seven readings, one after another. */
  lemma FlattenSeven(run: Reading -> seq<string>, a: Reading, b: Reading, c: Reading, d: Reading,
                     e: Reading, f: Reading, g: Reading)
    ensures Flatten(run, [a, b, c, d, e, f, g])
         == run(a) + (run(b) + (run(c) + (run(d) + (run(e) + (run(f) + run(g))))))
  {
    var s := [a, b, c, d, e, f, g];
    assert s[1..] == [b, c, d, e, f, g];
    assert s[1..][1..] == [c, d, e, f, g];
    assert s[1..][1..][1..] == [d, e, f, g];
    assert s[1..][1..][1..][1..] == [e, f, g];
    assert s[1..][1..][1..][1..][1..] == [f, g];
    assert s[1..][1..][1..][1..][1..][1..] == [g];
    assert Flatten(run, [g]) == run(g) + [];
    assert Flatten(run, [f, g]) == run(f) + Flatten(run, [g]);
    assert Flatten(run, [e, f, g]) == run(e) + Flatten(run, [f, g]);
    assert Flatten(run, [d, e, f, g]) == run(d) + Flatten(run, [e, f, g]);
    assert Flatten(run, [c, d, e, f, g]) == run(c) + Flatten(run, [d, e, f, g]);
    assert Flatten(run, [b, c, d, e, f, g]) == run(b) + Flatten(run, [c, d, e, f, g]);
  }

  /** Where the sample session stops: at the blank line read after the
      child has exited, the seventh reading. */
  lemma SessionEnds(start: Reading, detach: Reading, attach: Reading,
                    stop: Reading, end: Reading, later: Reading)
    requires !EndsLoop(start) && !EndsLoop(detach) && !EndsLoop(attach) && !EndsLoop(stop) && EndsLoop(end)
    ensures var stream := [start, detach, attach, detach, attach, stop, end, later];
      && HasEnd(stream) && Consumed(stream) == 7
      && stream[..Consumed(stream)] == [start, detach, attach, detach, attach, stop, end]
  {
    var stream := [start, detach, attach, detach, attach, stop, end, later];
    FirstEnd(stream, 6);
  }

  /** The sample session, for any readings that classify as the sample
      lines do: events alternate detach, attach, detach, attach; the child
      then exits; the reading after that is never taken. The sample lines
      themselves classify so by StartReading, DetachReading, AttachReading,
      StopReading and EmptyReading. */
  lemma SampleSession(config: Config, start: Reading, detach: Reading, attach: Reading,
                      stop: Reading, end: Reading, later: Reading)
    requires !EndsLoop(start) && !EndsLoop(detach) && !EndsLoop(attach) && !EndsLoop(stop) && EndsLoop(end)
    requires LineCommands(config)(start) == [] && LineCommands(config)(stop) == []
    requires LineCommands(config)(end) == []
    requires LineCommands(config)(detach) == Commands(config.ondetach)
    requires LineCommands(config)(attach) == Commands(config.onattach)
    ensures var stream := [start, detach, attach, detach, attach, stop, end, later];
      var on, off := Commands(config.onattach), Commands(config.ondetach);
      && HasEnd(stream) && Consumed(stream) == 7
      && Trace(config, stream[..Consumed(stream)]) == off + on + off + on
  {
    var on, off := Commands(config.onattach), Commands(config.ondetach);
    SessionEnds(start, detach, attach, stop, end, later);
    FlattenSeven(LineCommands(config), start, detach, attach, detach, attach, stop, end);
    Regroup(off, on);
  }

  /** Proof helper: the trace of the sample session, regrouped. */
  lemma Regroup(off: seq<string>, on: seq<string>)
    ensures [] + (off + (on + (off + (on + ([] + []))))) == off + on + off + on
  {
    assert on + ([] + []) == on;
    assert off + (on + (off + on)) == off + on + off + on;
  }

  /** The sample output itself, with one `onattach` and one `ondetach`
      action. */
  lemma SampleOutputSession()
    ensures var config := Config(Mapping([Action("on", "leds --on")]), Mapping([Action("off", "leds --off")]));
      var stream := [Reading(StartLine + "\n", false),
                     Reading(DetachLine + "\n", false), Reading(AttachLine + "\n", false),
                     Reading(DetachLine + "\n", false), Reading(AttachLine + "\n", false),
                     Reading(StopLine + "\n", false), Reading("", true),
                     Reading(AttachLine + "\n", false)];
      && HasEnd(stream) && Consumed(stream) == 7
      && Trace(config, stream[..Consumed(stream)]) == ["leds --off", "leds --on", "leds --off", "leds --on"]
  {
    var config := Config(Mapping([Action("on", "leds --on")]), Mapping([Action("off", "leds --off")]));
    assert Commands(config.onattach) == ["leds --on"] && Commands(config.ondetach) == ["leds --off"];
    var start, detach, attach, stop, end :=
      Reading(StartLine + "\n", false), Reading(DetachLine + "\n", false), Reading(AttachLine + "\n", false),
      Reading(StopLine + "\n", false), Reading("", true);
    var run := LineCommands(config);
    assert !EndsLoop(start) && run(start) == [] by { StartReading(config, false); }
    assert !EndsLoop(detach) && run(detach) == ["leds --off"] by { DetachReading(config, false); }
    assert !EndsLoop(attach) && run(attach) == ["leds --on"] by { AttachReading(config, false); }
    assert !EndsLoop(stop) && run(stop) == [] by { StopReading(config, false); }
    assert EndsLoop(end) && run(end) == [] by { EmptyReading(config, true); }
    SampleSession(config, start, detach, attach, stop, end, attach);
    SampleCommands();
  }

  /** Proof helper: the concrete trace of the sample output, regrouped. */
  lemma SampleCommands()
    ensures ["leds --off"] + ["leds --on"] + ["leds --off"] + ["leds --on"]
         == ["leds --off", "leds --on", "leds --off", "leds --on"]
  {
  }
}
