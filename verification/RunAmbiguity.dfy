/** Launches whose streams cannot always be read back. A launch then writes at most two terminals, and
    two exactly when its own terminal is committed, raises and stays unknown, and the failure follows. */
module RunAmbiguity {
  import opened Outcomes
  import opened Sorting
  import opened RunProtocol
  import opened RunTheorems
  import opened RunSafety
  import F = FixtureAdapter

  /** The event gets written at this step, whatever is reported. */
  ghost predicate Commits(fault: Fault) {
    fault == Fine || fault.CommitsThenRaises? || fault == Dies(true)
  }

  /** The write is committed, raises and cannot be read back. */
  ghost predicate Misleads(fault: Fault) {
    fault.CommitsThenRaises? && !fault.readable
  }

  // ---------------------------------------------------------------- under any faults

  /** No launch-ending event is there. */
  ghost predicate Unended(s: seq<Event>) {
    forall i | 0 <= i < |s| :: !EndsLaunch(s[i])
  }

  /** Any step keeps keys unique, readable or not. */
  lemma DoKeepsUnique(p: Place, action: Action, faults: Faults)
    requires UniqueKeys(p.stream)
    ensures UniqueKeys(Do(p, action, faults).place.stream)
  {
  }

  /** Playing any script keeps keys unique, and adds no ending that is not in it. */
  lemma {:induction false} PlayKeepsUnended(p: Place, script: seq<Action>, faults: Faults)
    requires UniqueKeys(p.stream) && Unended(p.stream) && Unended(EventsOf(script))
    ensures var r := Play(p, script, faults); UniqueKeys(r.place.stream) && Unended(r.place.stream)
    decreases |script|
  {
    PlayKeepsUnique(p, script, faults);
    PlayAdds(p, script, faults);
    var s := Play(p, script, faults).place.stream;
    forall i | 0 <= i < |s| ensures !EndsLaunch(s[i]) {
      assert s[i] in p.stream || s[i] in EventsOf(script);
    }
  }

  lemma {:induction false} PlayKeepsUnique(p: Place, script: seq<Action>, faults: Faults)
    requires UniqueKeys(p.stream)
    ensures UniqueKeys(Play(p, script, faults).place.stream)
    decreases |script|
  {
    if script != [] {
      var first := Do(p, script[0], faults);
      DoKeepsUnique(p, script[0], faults);
      if first.signal == Done { PlayKeepsUnique(first.place, script[1..], faults); }
    }
  }

  /** A script that ends well has taken one step for each action. */
  lemma {:induction false} PlayTakesSteps(p: Place, script: seq<Action>, faults: Faults)
    requires Play(p, script, faults).signal == Done
    ensures Play(p, script, faults).place.clock == p.clock + |script|
    decreases |script|
  {
    if script != [] { PlayTakesSteps(Do(p, script[0], faults).place, script[1..], faults); }
  }

  /** A new event under any fault: written exactly when committed, and done exactly when known to be. */
  lemma WriteUnreliable(p: Place, e: Event, faults: Faults)
    requires UniqueKeys(p.stream) && !KeyTaken(p.stream, e)
    ensures var r := Do(p, Write(e), faults);
            && r.place.stream == (if Commits(faults(p.clock)) then p.stream + [e] else p.stream)
            && UniqueKeys(r.place.stream) && r.place.clock == p.clock + 1
            && (r.signal.Raised? <==> faults(p.clock).Raises? || Misleads(faults(p.clock)))
            && (r.signal == Done <==> EndsWell(Write(e), faults(p.clock)))
  {
    var s := if Commits(faults(p.clock)) then p.stream + [e] else p.stream;
    assert UniqueKeys(s);
    assert e in p.stream + [e];
    assert e !in p.stream;
    ReconcilesIffPresent(s, e);
  }

  /** The fault lets the action end well: other work needs none, a write may be known by reading back. */
  ghost predicate EndsWell(action: Action, fault: Fault) {
    match action
    case Write(_) => fault == Fine || (fault.CommitsThenRaises? && fault.readable)
    case Work(_) => fault == Fine
    case Fail(_) => false
  }

  /** A script of new events ends well exactly when the fault at each of its steps lets it. */
  lemma {:induction false} PlaysThroughExactly(p: Place, script: seq<Action>, faults: Faults)
    requires UniqueKeys(p.stream + EventsOf(script))
    ensures Play(p, script, faults).signal == Done <==>
            forall i | 0 <= i < |script| :: EndsWell(script[i], faults(p.clock + i))
    decreases |script|
  {
    if script != [] {
      var first, rest := Do(p, script[0], faults), script[1..];
      if script[0].Write? {
        NewKey(p.stream, script[0].event, EventsOf(rest));
        WriteUnreliable(p, script[0].event, faults);
        assert (p.stream + [script[0].event]) + EventsOf(rest) == p.stream + ([script[0].event] + EventsOf(rest));
      }
      assert first.signal == Done <==> EndsWell(script[0], faults(p.clock + 0));
      if first.signal == Done {
        PlaysThroughExactly(first.place, rest, faults);
        assert forall i | 0 <= i < |rest| :: rest[i] == script[i + 1];
        if forall i | 0 <= i < |rest| :: EndsWell(rest[i], faults(first.place.clock + i)) {
          forall i | 0 <= i < |script| ensures EndsWell(script[i], faults(p.clock + i)) {
            if i > 0 { assert EndsWell(rest[i - 1], faults(first.place.clock + (i - 1))); }
          }
        }
        if forall i | 0 <= i < |script| :: EndsWell(script[i], faults(p.clock + i)) {
          forall i | 0 <= i < |rest| ensures EndsWell(rest[i], faults(first.place.clock + i)) {
            assert EndsWell(script[i + 1], faults(p.clock + (i + 1)));
          }
        }
      }
    }
  }

  // ---------------------------------------------------------------- counting endings

  /** How many launch-ending events a stream holds. */
  function Endings(s: seq<Event>): nat { |Filter(s, Ends())| }

  lemma {:induction false} EndingsConcat(s: seq<Event>, t: seq<Event>)
    ensures Endings(s + t) == Endings(s) + Endings(t)
  {
    if s == [] {
      assert s + t == t;
    } else {
      assert (s + t)[0] == s[0] && (s + t)[1..] == s[1..] + t;
      EndingsConcat(s[1..], t);
    }
  }

  lemma {:induction false} UnendedHasNone(s: seq<Event>)
    requires Unended(s)
    ensures Endings(s) == 0
  {
    if s != [] {
      assert forall i | 0 <= i < |s[1..]| :: s[1..][i] == s[i + 1];
      UnendedHasNone(s[1..]);
    }
  }

  lemma OneMore(s: seq<Event>, e: Event)
    ensures Endings(s + [e]) == Endings(s) + (if EndsLaunch(e) then 1 else 0)
  {
    EndingsConcat(s, [e]);
    assert [e][1..] == [];
    assert Filter([e], Ends()) == (if EndsLaunch(e) then [e] else []) + Filter([], Ends());
  }

  lemma EndingIsNew(s: seq<Event>, e: Event)
    requires Unended(s) && EndsLaunch(e)
    ensures !KeyTaken(s, e) && e !in s
  {
  }

  /** A failure after launch writes at most one ending. */
  lemma FailureEndsOnce(p: Place, phase: Phase, error: Error, faults: Faults)
    requires UniqueKeys(p.stream) && Unended(p.stream)
    ensures Endings(Terminalize(p, phase, error, faults).place.stream) <= 1
  {
    var code := CodeOf(error, phase);
    var note, failed := Write(IngestionFailed(code)), RunFailed(phase, code);
    var noted := if phase == ArtifactIngestion then Do(p, note, faults) else Played(p, Done);
    DoKeepsUnique(p, note, faults);
    DoAdds(p, note, faults);
    var s := noted.place.stream;
    forall i | 0 <= i < |s| ensures !EndsLaunch(s[i]) { assert s[i] in s; }
    UnendedHasNone(s);
    EndingIsNew(s, failed);
    WriteUnreliable(noted.place, failed, faults);
    OneMore(s, failed);
  }

  // ---------------------------------------------------------------- the end of a run

  /** Writing the terminal of a run and, if that raises, its failure. */
  ghost function EndRun(p: Place, terminal: Event, phase: Phase, status: Status, faults: Faults): Outcome {
    Settle(In(phase, Do(p, Write(terminal), faults)), status, faults)
  }

  ghost predicate IsTerminalOf(terminal: Event, phase: Phase) {
    EndsLaunch(terminal) && !terminal.RunFailed? && phase != ArtifactIngestion
  }

  lemma TerminalizeWrites(p: Place, phase: Phase, error: Error, faults: Faults)
    requires phase != ArtifactIngestion
    ensures Terminalize(p, phase, error, faults).place ==
              Do(p, Write(RunFailed(phase, CodeOf(error, phase))), faults).place
  {
  }

  lemma FailureIsNew(s: seq<Event>, terminal: Event, failed: Event)
    requires Unended(s) && EndsLaunch(terminal) && !terminal.RunFailed? && failed.RunFailed?
    ensures !KeyTaken(s, failed) && !KeyTaken(s + [terminal], failed)
  {
    EndingIsNew(s, failed);
  }

  /** What ending a run writes, under any faults. */
  lemma EndRunWrites(p: Place, terminal: Event, phase: Phase, status: Status, faults: Faults)
    requires UniqueKeys(p.stream) && Unended(p.stream) && IsTerminalOf(terminal, phase)
    ensures var first := Do(p, Write(terminal), faults);
            var once := if Commits(faults(p.clock)) then p.stream + [terminal] else p.stream;
            EndRun(p, terminal, phase, status, faults).place.stream ==
            if first.signal.Raised? && Commits(faults(p.clock + 1)) then
              once + [RunFailed(phase, CodeOf(first.signal.error, phase))]
            else once
  {
    EndingIsNew(p.stream, terminal);
    var first := Do(p, Write(terminal), faults);
    WriteUnreliable(p, terminal, faults);
    if first.signal.Raised? {
      var failed := RunFailed(phase, CodeOf(first.signal.error, phase));
      TerminalizeWrites(first.place, phase, first.signal.error, faults);
      FailureIsNew(p.stream, terminal, failed);
      WriteUnreliable(first.place, failed, faults);
    }
  }

  /** The terminal write itself ends a run twice exactly when it misleads and the failure commits. */
  lemma EndsTwiceExactly(p: Place, terminal: Event, phase: Phase, status: Status, faults: Faults)
    requires UniqueKeys(p.stream) && Unended(p.stream) && IsTerminalOf(terminal, phase)
    ensures Endings(EndRun(p, terminal, phase, status, faults).place.stream) <= 2
    ensures Endings(EndRun(p, terminal, phase, status, faults).place.stream) == 2 <==>
            Misleads(faults(p.clock)) && Commits(faults(p.clock + 1))
  {
    EndRunWrites(p, terminal, phase, status, faults);
    EndingIsNew(p.stream, terminal);
    WriteUnreliable(p, terminal, faults);
    var first := Do(p, Write(terminal), faults);
    var once := if Commits(faults(p.clock)) then p.stream + [terminal] else p.stream;
    UnendedHasNone(p.stream);
    OneMore(p.stream, terminal);
    if first.signal.Raised? {
      OneMore(once, RunFailed(phase, CodeOf(first.signal.error, phase)));
    }
  }

  /** A stage of a launch whose last action is the terminal write. */
  lemma StageEndsTwiceExactly(p: Place, lead: seq<Action>, terminal: Event, phase: Phase, status: Status,
                              faults: Faults)
    requires UniqueKeys(p.stream) && Unended(p.stream) && Unended(EventsOf(lead)) && IsTerminalOf(terminal, phase)
    ensures var s := Settle(In(phase, Play(p, lead + [Write(terminal)], faults)), status, faults).place.stream;
            Endings(s) <= 2 && (Endings(s) == 2 <==> ThenMisled(p, lead, faults))
  {
    PlayConcat(p, lead, [Write(terminal)], faults);
    PlayKeepsUnended(p, lead, faults);
    var reached := Play(p, lead, faults);
    if reached.signal == Done {
      assert [Write(terminal)][1..] == [];
      assert Play(reached.place, [Write(terminal)], faults) == Do(reached.place, Write(terminal), faults);
      EndsTwiceExactly(reached.place, terminal, phase, status, faults);
    } else {
      StoppedEndsOnce(reached, phase, status, faults);
    }
  }

  /** A stage that stopped before any ending writes at most one. */
  lemma StoppedEndsOnce(played: Played, phase: Phase, status: Status, faults: Faults)
    requires UniqueKeys(played.place.stream) && Unended(played.place.stream)
    ensures Endings(Settle(In(phase, played), status, faults).place.stream) <= 1
  {
    UnendedHasNone(played.place.stream);
    if played.signal.Raised? {
      FailureEndsOnce(played.place, phase, played.signal.error, faults);
    }
  }

  // ---------------------------------------------------------------- whole launches

  /** The actions of the last stages that come before the terminal write. */
  function Lead(a: Attempt, output: Output): seq<Action> {
    match output.core.termination
    case Cancelled => [Write(CancellationRequested), Work(NoEffect)]
    case Interrupted => [Work(NoEffect)]
    case Completed => IngestActions(a, output.core) + [Work(NoEffect)]
  }

  /** The actions from the launch event to the terminal write. */
  function FromLaunch(a: Attempt, output: Output): seq<Action> {
    [Work(NoEffect)] + (OutputActions(output, a.run) + Lead(a, output))
  }

  /** Every action of a launch before its terminal write, from the first read of the run id on. */
  function RunUp(a: Attempt, output: Output): seq<Action> {
    [Work(NoEffect)] + (Opening(a) + FromLaunch(a, output))
  }

  /** A script ends well, the write after it misleads, and the one after that commits. */
  ghost predicate ThenMisled(p: Place, script: seq<Action>, faults: Faults) {
    var reached := Play(p, script, faults);
    reached.signal == Done && Misleads(faults(reached.place.clock)) && Commits(faults(reached.place.clock + 1))
  }

  /** The attempt is one that can come to a terminal write of its own. */
  predicate MayEnd(a: Attempt) {
    && Launchable(a) && a.adapter.Returns?
    && (a.adapter.output.core.termination == F.Completed ==> a.adapter.output.core.members.Some?)
  }

  /** The launch comes to its terminal write, that write misleads, and the failure after it commits. The
      step of the terminal write is known beforehand. */
  ghost predicate EndsTwice(p: Place, a: Attempt, faults: Faults) {
    && MayEnd(a) && Play(p, RunUp(a, a.adapter.output), faults).signal == Done
    && var terminal := p.clock + |RunUp(a, a.adapter.output)|;
       Misleads(faults(terminal)) && Commits(faults(terminal + 1))
  }

  lemma LeadIsUnended(a: Attempt, output: Output)
    ensures Unended(EventsOf(Lead(a, output)))
  {
    PairOfActions(Write(CancellationRequested), Work(NoEffect));
    assert [Work(NoEffect)][1..] == [] && EventsOf([Work(NoEffect)]) == [];
    EventsOfConcat(IngestActions(a, output.core), [Work(NoEffect)]);
    if output.core.members.Some? {
      SmallScripts(a, output);
    } else {
      assert IngestActions(a, output.core)[1..] == [];
    }
  }

  lemma OutputIsUnended(output: Output, run: Run)
    ensures Unended(EventsOf(OutputActions(output, run)))
  {
    OutputIs(output, run);
  }

  /** From the returned output on. */
  lemma FinishEndsTwiceExactly(p: Place, a: Attempt, output: Output, status: Status, faults: Faults)
    requires UniqueKeys(p.stream) && Unended(p.stream)
    ensures var s := Settle(Finish(p, a, output, faults), status, faults).place.stream;
            Endings(s) <= 2
            && (Endings(s) == 2 <==> ThenMisled(p, OutputActions(output, a.run) + Lead(a, output), faults))
  {
    var recorded := Play(p, OutputActions(output, a.run), faults);
    ThenMisledAfter(p, OutputActions(output, a.run), Lead(a, output), faults);
    OutputIsUnended(output, a.run);
    PlayKeepsUnended(p, OutputActions(output, a.run), faults);
    if recorded.signal != Done {
      StoppedEndsOnce(recorded, RuntimeOutput, status, faults);
    } else {
      match output.core.termination {
        case Cancelled => CancellationEndsTwiceExactly(recorded.place, a, output, status, faults);
        case Interrupted => InterruptionEndsTwiceExactly(recorded.place, a, output, status, faults);
        case Completed => CompletionEndsTwiceExactly(recorded.place, a, output, status, faults);
      }
    }
  }

  lemma ThenMisledAfter(p: Place, first: seq<Action>, rest: seq<Action>, faults: Faults)
    ensures var r := Play(p, first, faults);
            ThenMisled(p, first + rest, faults) <==> r.signal == Done && ThenMisled(r.place, rest, faults)
  {
    PlayConcat(p, first, rest, faults);
  }

  lemma CancellationEndsTwiceExactly(p: Place, a: Attempt, output: Output, status: Status, faults: Faults)
    requires UniqueKeys(p.stream) && Unended(p.stream) && output.core.termination == F.Cancelled
    ensures var s := Settle(In(Cancellation, Play(p, CancelActions, faults)), status, faults).place.stream;
            Endings(s) <= 2 && (Endings(s) == 2 <==> ThenMisled(p, Lead(a, output), faults))
  {
    LeadIsUnended(a, output);
    assert CancelActions == Lead(a, output) + [Write(RunCancelled)];
    StageEndsTwiceExactly(p, Lead(a, output), RunCancelled, Cancellation, status, faults);
  }

  lemma InterruptionEndsTwiceExactly(p: Place, a: Attempt, output: Output, status: Status, faults: Faults)
    requires UniqueKeys(p.stream) && Unended(p.stream) && output.core.termination == F.Interrupted
    ensures var run := Play(p, InterruptActions(output.core), faults);
            var s := Settle(In(Interruption, run), status, faults).place.stream;
            Endings(s) <= 2 && (Endings(s) == 2 <==> ThenMisled(p, Lead(a, output), faults))
  {
    LeadIsUnended(a, output);
    var terminal := RunInterrupted(|output.core.checkpoints|);
    assert InterruptActions(output.core) == Lead(a, output) + [Write(terminal)];
    StageEndsTwiceExactly(p, Lead(a, output), terminal, Interruption, status, faults);
  }

  /** Ingestion has its own phase, so its failures cannot end a run twice. */
  lemma CompletionEndsTwiceExactly(p: Place, a: Attempt, output: Output, status: Status, faults: Faults)
    requires UniqueKeys(p.stream) && Unended(p.stream) && output.core.termination == F.Completed
    ensures var ingested := Play(p, IngestActions(a, output.core), faults);
            var finished :=
              if ingested.signal != Done || output.core.members == None then In(ArtifactIngestion, ingested)
              else In(Completion, Play(ingested.place, CompleteActions(a, output.core.members.value), faults));
            var s := Settle(finished, status, faults).place.stream;
            Endings(s) <= 2 && (Endings(s) == 2 <==> ThenMisled(p, Lead(a, output), faults))
  {
    var ingest := IngestActions(a, output.core);
    var ingested := Play(p, ingest, faults);
    PlayConcat(p, ingest, [Work(NoEffect)], faults);
    IngestIsUnended(a, output);
    PlayKeepsUnended(p, ingest, faults);
    if ingested.signal != Done {
      StoppedEndsOnce(ingested, ArtifactIngestion, status, faults);
    } else {
      assert output.core.members.Some?;
      var terminal := RunCompleted(ArtifactOf(a, output.core.members.value));
      assert CompleteActions(a, output.core.members.value) == [Work(NoEffect)] + [Write(terminal)];
      assert [Work(NoEffect)][1..] == [];
      StageEndsTwiceExactly(ingested.place, [Work(NoEffect)], terminal, Completion, status, faults);
    }
  }

  lemma IngestIsUnended(a: Attempt, output: Output)
    ensures Unended(EventsOf(IngestActions(a, output.core)))
  {
    if output.core.members.Some? {
      SmallScripts(a, output);
    } else {
      assert IngestActions(a, output.core)[1..] == [];
    }
  }

  /** From the launch on. */
  lemma ExecuteEndsTwiceExactly(p: Place, a: Attempt, faults: Faults)
    requires UniqueKeys(p.stream) && Unended(p.stream)
    ensures Endings(Execute(p, a, faults).place.stream) <= 2
    ensures Endings(Execute(p, a, faults).place.stream) == 2 <==>
            a.adapter.Returns? && ThenMisled(p, FromLaunch(a, a.adapter.output), faults)
  {
    var started := Do(p, Work(NoEffect), faults);
    OneStep(p, Work(NoEffect), faults);
    if a.adapter.Returns? {
      ThenMisledAfter(p, [Work(NoEffect)], OutputActions(a.adapter.output, a.run) + Lead(a, a.adapter.output), faults);
    }
    if started.signal != Done {
      StoppedEndsOnce(started, Runtime, FailedStatus, faults);
    } else {
      match a.adapter {
        case Returns(output) =>
          FinishEndsTwiceExactly(started.place, a, output, StatusFor(output.core.termination), faults);
        case Fails(error) => FailureEndsOnce(started.place, Runtime, error, faults);
        case FailsWithEvidence(error, messages, receipts) =>
          BoundaryEvents(messages, receipts, a.run);
          PlayKeepsUnended(started.place, Boundary(messages, receipts, a.run), faults);
          var kept := Play(started.place, Boundary(messages, receipts, a.run), faults);
          UnendedHasNone(kept.place.stream);
          FailureEndsOnce(kept.place, Runtime, error, faults);
          if kept.signal.Raised? { FailureEndsOnce(kept.place, RuntimeOutput, kept.signal.error, faults); }
      }
    }
  }

  lemma OneStep(p: Place, action: Action, faults: Faults)
    ensures Play(p, [action], faults) == Do(p, action, faults)
  {
    assert [action][1..] == [];
  }

  /** A completed output without its bundle never comes to a terminal write. */
  lemma MissingBundleStops(p: Place, a: Attempt, output: Output, faults: Faults)
    requires output.core.termination == F.Completed && output.core.members == None
    ensures Play(p, FromLaunch(a, output), faults).signal != Done
  {
    var before := [Work(NoEffect)] + OutputActions(output, a.run);
    assert FromLaunch(a, output) == before + Lead(a, output);
    PlayConcat(p, before, Lead(a, output), faults);
    assert Lead(a, output)[0] == Fail(ServiceError("artifact_output_incomplete"));
  }

  /** For every launch of an unused run id, every attempt and every faults, readable or not: at most two
      terminals are written, and two exactly under that condition. */
  lemma TwoTerminalsExactly(p: Place, a: Attempt, faults: Faults)
    requires p.stream == [] && p.run == None
    ensures Endings(LaunchOwned(p, a, faults).place.stream) <= 2
    ensures Endings(LaunchOwned(p, a, faults).place.stream) == 2 <==> EndsTwice(p, a, faults)
  {
    var read := Do(p, Work(NoEffect), faults);
    var begun := Play(read.place, Opening(a), faults);
    OpeningKeepsUnended(read.place, a, faults);
    LaunchReachesExecution(p, a, faults);
    if Launchable(a) && read.signal == Done && begun.signal == Done {
      ExecutionEndsTwiceExactly(p, a, faults);
    } else {
      UnreachedEndsOnce(p, a, faults);
    }
  }

  /** The condition seen from the completed opening. */
  lemma ExecutionEndsTwiceExactly(p: Place, a: Attempt, faults: Faults)
    requires p.stream == [] && Launchable(a) && Do(p, Work(NoEffect), faults).signal == Done
    requires Play(Do(p, Work(NoEffect), faults).place, Opening(a), faults).signal == Done
    ensures var begun := Play(Do(p, Work(NoEffect), faults).place, Opening(a), faults);
            var s := Execute(begun.place, a, faults).place.stream;
            Endings(s) <= 2 && (Endings(s) == 2 <==> EndsTwice(p, a, faults))
  {
    var read := Do(p, Work(NoEffect), faults);
    OpeningKeepsUnended(read.place, a, faults);
    EndsTwiceFromLaunch(p, a, faults);
    ExecuteEndsTwiceExactly(Play(read.place, Opening(a), faults).place, a, faults);
  }

  lemma EndsTwiceFromLaunch(p: Place, a: Attempt, faults: Faults)
    requires Launchable(a) && Do(p, Work(NoEffect), faults).signal == Done
    requires Play(Do(p, Work(NoEffect), faults).place, Opening(a), faults).signal == Done
    ensures var begun := Play(Do(p, Work(NoEffect), faults).place, Opening(a), faults);
            EndsTwice(p, a, faults) <==>
              a.adapter.Returns? && ThenMisled(begun.place, FromLaunch(a, a.adapter.output), faults)
  {
    if MayEnd(a) {
      RunUpInStages(p, a, a.adapter.output, faults);
    } else if a.adapter.Returns? {
      MissingBundleStops(Play(Do(p, Work(NoEffect), faults).place, Opening(a), faults).place, a, a.adapter.output,
                         faults);
    }
  }

  lemma UnreachedEndsOnce(p: Place, a: Attempt, faults: Faults)
    requires var read := Do(p, Work(NoEffect), faults);
             !(Launchable(a) && read.signal == Done && Play(read.place, Opening(a), faults).signal == Done)
    ensures !EndsTwice(p, a, faults)
  {
    if MayEnd(a) { RunUpInStages(p, a, a.adapter.output, faults); }
  }

  /** A launch either executes from its completed opening, or leaves at most what of the opening was written. */
  lemma LaunchReachesExecution(p: Place, a: Attempt, faults: Faults)
    requires p.stream == [] && p.run == None
    ensures var read := Do(p, Work(NoEffect), faults);
            var begun := Play(read.place, Opening(a), faults);
            var s := LaunchOwned(p, a, faults).place.stream;
            if Launchable(a) && read.signal == Done && begun.signal == Done
            then s == Execute(begun.place, a, faults).place.stream
            else s == [] || s == begun.place.stream
  {
  }

  lemma OpeningKeepsUnended(p: Place, a: Attempt, faults: Faults)
    requires p.stream == []
    ensures Endings([]) == 0 && Endings(Play(p, Opening(a), faults).place.stream) == 0
    ensures UniqueKeys(Play(p, Opening(a), faults).place.stream) && Unended(Play(p, Opening(a), faults).place.stream)
  {
    OpeningIs(a);
    OpeningAscends(a);
    PlayKeepsUnended(p, Opening(a), faults);
    UnendedHasNone(p.stream);
    UnendedHasNone(Play(p, Opening(a), faults).place.stream);
  }

  /** The run-up taken apart into the stages a launch goes through. */
  lemma RunUpInStages(p: Place, a: Attempt, output: Output, faults: Faults)
    ensures var read := Do(p, Work(NoEffect), faults);
            var begun := Play(read.place, Opening(a), faults);
            var last := Play(begun.place, FromLaunch(a, output), faults);
            && (Play(p, RunUp(a, output), faults).signal == Done <==>
                  read.signal == Done && begun.signal == Done && last.signal == Done)
            && (Play(p, RunUp(a, output), faults).signal == Done ==> last.place.clock == p.clock + |RunUp(a, output)|)
  {
    OneStep(p, Work(NoEffect), faults);
    PlayConcat(p, [Work(NoEffect)], Opening(a) + FromLaunch(a, output), faults);
    PlayConcat(Do(p, Work(NoEffect), faults).place, Opening(a), FromLaunch(a, output), faults);
    if Play(p, RunUp(a, output), faults).signal == Done { PlayTakesSteps(p, RunUp(a, output), faults); }
  }

  /** When the output repeats no key, the whole condition is about the faults alone, step by step. */
  lemma TwoTerminalsByFaults(p: Place, a: Attempt, faults: Faults)
    requires p.stream == [] && p.run == None
    requires MayEnd(a) ==> UniqueKeys(EventsOf(OutputActions(a.adapter.output, a.run)))
    ensures Endings(LaunchOwned(p, a, faults).place.stream) == 2 <==>
            && MayEnd(a)
            && var script := RunUp(a, a.adapter.output);
               && (forall i | 0 <= i < |script| :: EndsWell(script[i], faults(p.clock + i)))
               && Misleads(faults(p.clock + |script|)) && Commits(faults(p.clock + |script| + 1))
  {
    TwoTerminalsExactly(p, a, faults);
    if MayEnd(a) {
      RunUpIsUnique(a, a.adapter.output);
      assert [] + EventsOf(RunUp(a, a.adapter.output)) == EventsOf(RunUp(a, a.adapter.output));
      PlaysThroughExactly(p, RunUp(a, a.adapter.output), faults);
    }
  }

  lemma EventsOfRunUp(a: Attempt, output: Output)
    ensures EventsOf(RunUp(a, output)) ==
            OpeningEvents(a) + EventsOf(OutputActions(output, a.run)) + EventsOf(Lead(a, output))
  {
    var work, from := [Work(NoEffect)], OutputActions(output, a.run) + Lead(a, output);
    assert work[1..] == [] && EventsOf(work) == [];
    OpeningIs(a);
    EventsOfConcat(work, Opening(a) + (work + from));
    EventsOfConcat(Opening(a), work + from);
    EventsOfConcat(work, from);
    EventsOfConcat(OutputActions(output, a.run), Lead(a, output));
    assert [] + (OpeningEvents(a) + ([] + (EventsOf(OutputActions(output, a.run)) + EventsOf(Lead(a, output)))))
        == OpeningEvents(a) + EventsOf(OutputActions(output, a.run)) + EventsOf(Lead(a, output));
  }

  /** Opening, output and ending never share a key. */
  lemma RunUpIsUnique(a: Attempt, output: Output)
    requires UniqueKeys(EventsOf(OutputActions(output, a.run)))
    ensures UniqueKeys(EventsOf(RunUp(a, output)))
  {
    var opening, events := OpeningEvents(a), EventsOf(OutputActions(output, a.run));
    EventsOfRunUp(a, output);
    OpeningAscends(a);
    AscendingIsUnique(opening);
    OutputIs(output, a.run);
    HigherRanksAreNew(opening, events, 3);
    LeadAscends(a, output);
    HigherRanksAreNew(opening + events, EventsOf(Lead(a, output)), 4);
  }

  lemma LeadAscends(a: Attempt, output: Output)
    ensures UniqueKeys(EventsOf(Lead(a, output))) && RanksWithin(EventsOf(Lead(a, output)), 5, 8)
  {
    PairOfActions(Write(CancellationRequested), Work(NoEffect));
    assert [Work(NoEffect)][1..] == [] && EventsOf([Work(NoEffect)]) == [];
    EventsOfConcat(IngestActions(a, output.core), [Work(NoEffect)]);
    if output.core.members.Some? {
      SmallScripts(a, output);
    } else {
      assert IngestActions(a, output.core)[1..] == [];
    }
  }

  /** Over any launches of one run id, under any faults, there are never more than two. */
  lemma {:induction false} NeverMoreThanTwo(w: World, attempts: seq<Attempt>, faults: Faults)
    requires Endings(w.place.stream) <= 2
    ensures Endings(LaunchAll(w, attempts, faults).place.stream) <= 2
    ensures w.place.stream != [] ==> LaunchAll(w, attempts, faults).place.stream == w.place.stream
    decreases |attempts|
  {
    if attempts != [] {
      var a := attempts[0];
      var p := Claim(w, a.claim, faults).world.place;
      LaunchStream(w, a, faults);
      ClaimKeepsStream(w, a.claim, faults);
      if p.stream == [] && p.run == None { TwoTerminalsExactly(p, a, faults); }
      else { UsedRunIdIsRefused(p, a, faults); }
      NeverMoreThanTwo(Launch(w, a, faults).0, attempts[1..], faults);
    }
  }

  // ---------------------------------------------------------------- it does happen

  /** An interrupted run with nothing else to record. */
  function QuietInterruption(): Output { Output(F.Output(F.Interrupted, [], [], [], None), [], []) }

  /** With unreadable streams two terminals do happen, and the status then reports a conflict. */
  lemma TwoTerminalsHappen() returns (a: Attempt, faults: Faults)
    ensures StatusOf(Launch(Start, a, faults).0.place.stream) == Err("run_terminal_evidence_conflict")
    ensures !Reliable(faults)
  {
    a := SomeAttempt(Returns(QuietInterruption()));
    faults := t => if t == 8 then CommitsThenRaises(OtherError, false) else Fine;
    assert !Readable(faults(8));
    var p := Place([], 1, None, None);
    QuietRunUp(a);
    TwoTerminalsByFaults(p, a, faults);
    LaunchStream(Start, a, faults);
    EndingsAreTerminals(LaunchOwned(p, a, faults).place.stream);
    assert Claim(Start, a.claim, faults).world.place == p;
  }

  lemma QuietRunUp(a: Attempt)
    requires a.preflight.Ready? && a.resumed == None
    ensures var script := RunUp(a, QuietInterruption());
            |script| == 7 && forall i | 0 <= i < |script| :: EndsWell(script[i], Fine)
    ensures EventsOf(OutputActions(QuietInterruption(), a.run)) == []
  {
    assert OutputActions(QuietInterruption(), a.run) == [];
  }

  lemma {:induction false} EndingsAreTerminals(s: seq<Event>)
    ensures Endings(s) <= |Filter(s, Terminals())|
  {
    if s != [] { EndingsAreTerminals(s[1..]); }
  }
}
