/** What one launch comes to: completely when nothing disturbs it, and which failure is recorded when
    something does. */
module RunOutcomes {
  import opened Outcomes
  import opened Sorting
  import opened RunProtocol
  import opened RunTheorems
  import opened RunSafety
  import opened RunReopen
  import opened RunOwnership
  import F = FixtureAdapter
  import C = RunController

  ghost predicate Undisturbed(faults: Faults) {
    forall t :: faults(t) == Fine
  }

  // ---------------------------------------------------------------- undisturbed scripts

  ghost predicate NeverFails(script: seq<Action>) {
    forall i | 0 <= i < |script| :: !script[i].Fail?
  }

  /** Undisturbed, a script of new events writes them all. */
  lemma {:induction false} UndisturbedPlay(p: Place, script: seq<Action>, faults: Faults)
    requires Undisturbed(faults) && NeverFails(script) && UniqueKeys(p.stream + EventsOf(script))
    ensures var r := Play(p, script, faults);
            r.signal == Done && r.place.stream == p.stream + EventsOf(script)
    decreases |script|
  {
    if script == [] {
      assert p.stream + [] == p.stream;
    } else {
      var rest := EventsOf(script[1..]);
      var next := Do(p, script[0], faults).place;
      assert faults(p.clock) == Fine && NeverFails(script[1..]);
      if script[0].Write? {
        var e := script[0].event;
        NewKey(p.stream, e, rest);
        assert (p.stream + [e]) + rest == p.stream + ([e] + rest);
      }
      UndisturbedPlay(next, script[1..], faults);
    }
  }

  lemma {:induction false} CheckpointsNeverFail(checkpoints: seq<F.Checkpoint>)
    ensures NeverFails(CheckpointActions(checkpoints))
  {
    if checkpoints != [] { CheckpointsNeverFail(checkpoints[..|checkpoints| - 1]); }
  }

  lemma OutputNeverFails(output: Output, run: Run)
    requires Belong(output.messages, run)
    ensures NeverFails(OutputActions(output, run))
  {
    CheckpointsNeverFail(output.core.checkpoints);
  }

  // ---------------------------------------------------------------- an undisturbed launch

  /** What the adapter hands back can be recorded: messages of this run, no key twice, and the bundle of a
      completed run. */
  ghost predicate Recordable(output: Output, run: Run) {
    && Belong(output.messages, run) && UniqueKeys(OutputEvents(output))
    && (output.core.termination == F.Completed ==> output.core.members.Some?)
  }

  lemma WholeStreamIsUnique(a: Attempt, output: Output)
    requires a.preflight.Ready? && a.adapter == Returns(output) && Recordable(output, a.run)
    ensures UniqueKeys(OpeningEvents(a) + OutputEvents(output) + ClosingEvents(a))
    ensures UniqueKeys(OpeningEvents(a) + OutputEvents(output))
  {
    var opening, events, closing := OpeningEvents(a), OutputEvents(output), ClosingEvents(a);
    OutputIs(output, a.run);
    OpeningAscends(a);
    AscendingIsUnique(opening);
    ClosingAscends(a);
    AscendingIsUnique(closing);
    HigherRanksAreNew(opening, events, 3);
    HigherRanksAreNew(opening + events, closing, 4);
  }

  /** What an attempt's place holds when its run has ended as the adapter said. */
  function EndedPlace(p: Place, a: Attempt, output: Output): Place
    requires output.core.termination == F.Completed ==> output.core.members.Some?
  {
    p.(stream := OpeningEvents(a) + OutputEvents(output) + ClosingEvents(a),
       artifact := if output.core.termination == F.Completed then Some(ArtifactOf(a, output.core.members.value))
                   else p.artifact)
  }

  lemma UndisturbedFinish(p: Place, a: Attempt, output: Output, faults: Faults)
    requires Undisturbed(faults) && a.preflight.Ready? && a.adapter == Returns(output) && Recordable(output, a.run)
    requires p.stream == OpeningEvents(a)
    ensures var r := Finish(p, a, output, faults);
            r.signal == Done && r.place == EndedPlace(p, a, output).(clock := r.place.clock)
  {
    OutputNeverFails(output, a.run);
    OutputIs(output, a.run);
    WholeStreamIsUnique(a, output);
    UndisturbedPlay(p, OutputActions(output, a.run), faults);
    OutputRecordsNothing(output, a.run);
    PlayLeavesRecords(p, OutputActions(output, a.run), faults);
    UndisturbedEnding(Play(p, OutputActions(output, a.run), faults).place, a, output, faults);
  }

  lemma UndisturbedEnding(p: Place, a: Attempt, output: Output, faults: Faults)
    requires Undisturbed(faults) && a.adapter == Returns(output) && UniqueKeys(p.stream + ClosingEvents(a))
    requires output.core.termination == F.Completed ==> output.core.members.Some?
    requires p.stream == OpeningEvents(a) + OutputEvents(output)
    ensures match output.core.termination
            case Cancelled =>
              var r := Play(p, CancelActions, faults);
              r.signal == Done && r.place == EndedPlace(p, a, output).(clock := r.place.clock)
            case Interrupted =>
              var r := Play(p, InterruptActions(output.core), faults);
              r.signal == Done && r.place == EndedPlace(p, a, output).(clock := r.place.clock)
            case Completed =>
              var q := Play(p, IngestActions(a, output.core), faults);
              var r := Play(q.place, CompleteActions(a, output.core.members.value), faults);
              q.signal == Done && r.signal == Done && r.place == EndedPlace(p, a, output).(clock := r.place.clock)
  {
    SmallScripts(a, output);
    match output.core.termination {
      case Cancelled =>
        UndisturbedPlay(p, CancelActions, faults);
        PlayLeavesRecords(p, CancelActions, faults);
      case Interrupted =>
        UndisturbedPlay(p, InterruptActions(output.core), faults);
        PlayLeavesRecords(p, InterruptActions(output.core), faults);
      case Completed => UndisturbedCompletion(p, a, output, faults);
    }
  }

  lemma UndisturbedCompletion(p: Place, a: Attempt, output: Output, faults: Faults)
    requires Undisturbed(faults) && a.adapter == Returns(output) && UniqueKeys(p.stream + ClosingEvents(a))
    requires output.core.termination == F.Completed && output.core.members.Some?
    ensures var q := Play(p, IngestActions(a, output.core), faults);
            var r := Play(q.place, CompleteActions(a, output.core.members.value), faults);
            && q.signal == Done && r.signal == Done && r.place.stream == p.stream + ClosingEvents(a)
            && r.place.run == p.run && r.place.artifact == Some(ArtifactOf(a, output.core.members.value))
  {
    var ingest, complete := IngestActions(a, output.core), CompleteActions(a, output.core.members.value);
    SmallScripts(a, output);
    assert ClosingEvents(a) == EventsOf(ingest) + EventsOf(complete);
    assert p.stream + ClosingEvents(a) == p.stream + EventsOf(ingest) + EventsOf(complete);
    UniqueSplit(p.stream, ClosingEvents(a), 2);
    assert ClosingEvents(a)[..2] == EventsOf(ingest);
    UndisturbedPlay(p, ingest, faults);
    var q := Play(p, ingest, faults).place;
    UndisturbedPlay(q, complete, faults);
    IngestKeeps(a, output.core, p.artifact);
    PlayKeeps(p, ingest, faults);
    PlayLeavesRecords(q, complete, faults);
  }

  /** Undisturbed, a launch of a free run id runs to the end the adapter gives it: the whole stream is
      there, the records are kept, the claim is released, and the status says so. */
  lemma UndisturbedLaunch(w: World, a: Attempt, faults: Faults)
    requires Undisturbed(faults) && Free(w, a.claim) && w.place.stream == [] && w.place.run == None
    requires Launchable(a) && a.adapter.Returns? && Recordable(a.adapter.output, a.run)
    ensures var output := a.adapter.output;
            var (after, reply) := Launch(w, a, faults);
            && reply == Returned(StatusFor(output.core.termination))
            && after.claim == after.resolved == Some(a.claim)
            && after.place == EndedPlace(w.place.(run := Some(a.run)), a, output).(clock := after.place.clock)
  {
    var output := a.adapter.output;
    LetInExactly(w, a.claim, faults);
    var claimed := Claim(w, a.claim, faults).world;
    UndisturbedOwned(claimed.place, a, faults);
    var r := LaunchOwned(claimed.place, a, faults);
    ReleaseAfter(claimed.(place := r.place), a, output, r.reply, faults);
  }

  /** Undisturbed, a launchable attempt gets as far as its adapter. */
  lemma UndisturbedStart(p: Place, a: Attempt, faults: Faults) returns (begun: Place, started: Place)
    requires Undisturbed(faults) && p.stream == [] && p.run == None && Launchable(a)
    ensures started == p.(stream := OpeningEvents(a), run := Some(a.run), clock := started.clock)
    ensures LaunchOwned(p, a, faults) == Execute(begun, a, faults)
    ensures Do(begun, Work(NoEffect), faults) == Played(started, Done)
  {
    var q := p.(clock := p.clock + 1);
    assert Do(p, Work(NoEffect), faults) == Played(q, Done);
    CalmOpening(q, a, faults);
    begun := Play(q, Opening(a), faults).place;
    started := begun.(clock := begun.clock + 1);
  }

  lemma UndisturbedOwned(p: Place, a: Attempt, faults: Faults)
    requires Undisturbed(faults) && p.stream == [] && p.run == None
    requires Launchable(a) && a.adapter.Returns? && Recordable(a.adapter.output, a.run)
    ensures var output := a.adapter.output;
            var r := LaunchOwned(p, a, faults);
            && r.reply == Returned(StatusFor(output.core.termination))
            && r.place == EndedPlace(p.(run := Some(a.run)), a, output).(clock := r.place.clock)
  {
    var begun, started := UndisturbedStart(p, a, faults);
    UndisturbedFinish(started, a, a.adapter.output, faults);
  }

  lemma ReleaseAfter(w: World, a: Attempt, output: Output, reply: Reply, faults: Faults)
    requires Undisturbed(faults) && (w.resolved == None || w.resolved == Some(a.claim))
    requires a.preflight.Ready? && a.adapter == Returns(output) && Recordable(output, a.run)
    requires w.place.stream == OpeningEvents(a) + OutputEvents(output) + ClosingEvents(a)
    ensures var (after, answer) := ResolveOwnership(w, a.claim, reply, faults);
            && answer == reply && after.claim == w.claim && after.resolved == Some(a.claim)
            && after.place == w.place.(clock := after.place.clock)
  {
    EndedIsReleasable(a, output);
    UndisturbedRelease(w, a.claim, reply, faults);
  }

  lemma UndisturbedRelease(w: World, id: string, reply: Reply, faults: Faults)
    requires Undisturbed(faults) && (w.resolved == None || w.resolved == Some(id)) && Releasable(w.place.stream)
    ensures var (after, answer) := ResolveOwnership(w, id, reply, faults);
            && answer == reply && after.claim == w.claim && after.resolved == Some(id)
            && after.place == w.place.(clock := after.place.clock)
  {
    assert faults(w.place.clock) == Fine && faults(w.place.clock + 1) == Fine;
  }

  /** The whole stream of an attempt fits its shape, and its run is over. */
  lemma EndedIsReleasable(a: Attempt, output: Output)
    requires a.preflight.Ready? && a.adapter == Returns(output) && Recordable(output, a.run)
    ensures Releasable(OpeningEvents(a) + OutputEvents(output) + ClosingEvents(a))
  {
    var s := OpeningEvents(a) + OutputEvents(output) + ClosingEvents(a);
    EndedFits(a, output, s);
    ShapedIsLifecycle(s, a);
    ClosingAscends(a);
    assert s[|s| - 1] == ClosingEvents(a)[|ClosingEvents(a)| - 1];
    ReleasableIffNotLeftRunning(s);
  }

  lemma EndedFits(a: Attempt, output: Output, s: seq<Event>)
    requires a.preflight.Ready? && a.adapter == Returns(output) && Recordable(output, a.run)
    requires s == OpeningEvents(a) + OutputEvents(output) + ClosingEvents(a)
    ensures Fits(Trace(|OpeningEvents(a)|, OutputEvents(output), |ClosingEvents(a)|, []), a, s)
  {
    WholeStreamIsUnique(a, output);
    OutputIs(output, a.run);
    var opening, closing := OpeningEvents(a), ClosingEvents(a);
    assert opening[..|opening|] == opening && closing[..|closing|] == closing;
    assert s == s + [];
  }

  // ---------------------------------------------------------------- the failure that is recorded

  /** An error that carries a code is recorded by it. */
  lemma OwnCodeIsKept(error: Error, phase: Phase)
    requires !error.OtherError? && error.code != ""
    ensures CodeOf(error, phase) == error.code
  {
  }

  /** Any other error is recorded by where it happened. */
  lemma OtherCodesNameThePhase(error: Error)
    requires error.OtherError? || error.code == ""
    ensures CodeOf(error, Runtime) == "run_runtime_failed"
    ensures CodeOf(error, RuntimeOutput) == "run_output_persistence_failed"
    ensures CodeOf(error, Cancellation) == "run_cancellation_persistence_failed"
    ensures CodeOf(error, Interruption) == "run_interruption_persistence_failed"
    ensures CodeOf(error, ArtifactIngestion) == "artifact_ingestion_failed"
    ensures CodeOf(error, Completion) == "run_completion_persistence_failed"
  {
  }

  function FailureEvents(phase: Phase, code: string): seq<Event> {
    (if phase == ArtifactIngestion then [IngestionFailed(code)] else []) + [RunFailed(phase, code)]
  }

  /** Undisturbed, a failure is recorded by its code, a failed ingestion in two events, and raised by it. */
  lemma FailureIsRecorded(p: Place, phase: Phase, error: Error, faults: Faults)
    requires Undisturbed(faults) && UniqueKeys(p.stream + FailureEvents(phase, CodeOf(error, phase)))
    ensures var r := Terminalize(p, phase, error, faults);
            && r.reply == Threw(ServiceError(CodeOf(error, phase)))
            && r.place == p.(stream := p.stream + FailureEvents(phase, CodeOf(error, phase)), clock := r.place.clock)
  {
    var code := CodeOf(error, phase);
    assert faults(p.clock) == Fine && faults(p.clock + 1) == Fine;
    if phase == ArtifactIngestion {
      NewKey(p.stream, IngestionFailed(code), [RunFailed(phase, code)]);
      assert [IngestionFailed(code)] + [RunFailed(phase, code)] == FailureEvents(phase, code);
      assert (p.stream + [IngestionFailed(code)]) + ([RunFailed(phase, code)] + []) ==
               p.stream + FailureEvents(phase, code);
      NewKey(p.stream + [IngestionFailed(code)], RunFailed(phase, code), []);
    } else {
      assert FailureEvents(phase, code) == [RunFailed(phase, code)] + [];
      NewKey(p.stream, RunFailed(phase, code), []);
    }
  }

  /** Disturbed or not, nothing else is ever written about a failure, and nothing else is raised than its code
      or the error of writing it. */
  lemma OnlyTheFailureIsRecorded(p: Place, phase: Phase, error: Error, faults: Faults)
    ensures var r := Terminalize(p, phase, error, faults);
            && !r.reply.Returned?
            && (forall e | e in r.place.stream :: e in p.stream || e in FailureEvents(phase, CodeOf(error, phase)))
  {
    var code := CodeOf(error, phase);
    var noted := if phase == ArtifactIngestion then Do(p, Write(IngestionFailed(code)), faults) else Played(p, Done);
    DoAdds(p, Write(IngestionFailed(code)), faults);
    DoAdds(noted.place, Write(RunFailed(phase, code)), faults);
  }

  /** What a failed run leaves: its opening, the output kept, and the failure. */
  ghost predicate FailedWith(r: Outcome, a: Attempt, kept: seq<Event>, phase: Phase, error: Error) {
    var code := CodeOf(error, phase);
    && r.reply == Threw(ServiceError(code)) && r.place.run == Some(a.run)
    && r.place.stream == OpeningEvents(a) + kept + FailureEvents(phase, code)
  }

  lemma FailureAfterOutput(p: Place, a: Attempt, kept: seq<Event>, phase: Phase, error: Error, faults: Faults)
    requires Undisturbed(faults) && p.stream == OpeningEvents(a) + kept && p.run == Some(a.run)
    requires UniqueKeys(kept) && RanksWithin(kept, 4, 4)
    ensures FailedWith(Terminalize(p, phase, error, faults), a, kept, phase, error)
  {
    var failure := FailureEvents(phase, CodeOf(error, phase));
    OpeningAscends(a);
    AscendingIsUnique(OpeningEvents(a));
    AscendingIsUnique(failure);
    HigherRanksAreNew(OpeningEvents(a), kept, 3);
    HigherRanksAreNew(p.stream, failure, 4);
    FailureIsRecorded(p, phase, error, faults);
  }

  /** An adapter that fails ends an otherwise undisturbed run by its own error, after the evidence it kept;
      foreign evidence is itself the failure. */
  lemma FailedLaunch(p: Place, a: Attempt, faults: Faults)
    requires Undisturbed(faults) && p.stream == [] && p.run == None && Launchable(a)
    ensures a.adapter.Fails? ==> FailedWith(LaunchOwned(p, a, faults), a, [], Runtime, a.adapter.error)
    ensures a.adapter.FailsWithEvidence? && !Belong(a.adapter.messages, a.run) ==>
              FailedWith(LaunchOwned(p, a, faults), a, [], RuntimeOutput,
                         ServiceError("runtime_worker_message_invalid"))
    ensures a.adapter.FailsWithEvidence? && Belong(a.adapter.messages, a.run)
            && UniqueKeys(MessageEvents(a.adapter.messages) + ReceiptEvents(a.adapter.receipts)) ==>
              FailedWith(LaunchOwned(p, a, faults), a,
                         MessageEvents(a.adapter.messages) + ReceiptEvents(a.adapter.receipts), Runtime,
                         a.adapter.error)
  {
    var begun, started := UndisturbedStart(p, a, faults);
    assert OpeningEvents(a) + [] == OpeningEvents(a);
    match a.adapter {
      case Returns(_) =>
      case Fails(error) => FailureAfterOutput(started, a, [], Runtime, error, faults);
      case FailsWithEvidence(error, messages, receipts) =>
        var script := Boundary(messages, receipts, a.run);
        if Belong(messages, a.run) {
          var kept := MessageEvents(messages) + ReceiptEvents(receipts);
          BoundaryEvents(messages, receipts, a.run);
          if UniqueKeys(kept) {
            OpeningAscends(a);
            AscendingIsUnique(OpeningEvents(a));
            HigherRanksAreNew(OpeningEvents(a), kept, 3);
            UndisturbedPlay(started, script, faults);
            PlayLeavesRecords(started, script, faults);
            FailureAfterOutput(Play(started, script, faults).place, a, kept, Runtime, error, faults);
          }
        } else {
          FailureAfterOutput(started, a, [], RuntimeOutput, ServiceError("runtime_worker_message_invalid"), faults);
        }
    }
  }

  /** A run said to be complete without its bundle fails while ingesting, and both failure events say so. */
  lemma IncompleteLaunch(p: Place, a: Attempt, faults: Faults)
    requires Undisturbed(faults) && p.stream == [] && p.run == None && Launchable(a) && a.adapter.Returns?
    requires Belong(a.adapter.output.messages, a.run) && UniqueKeys(OutputEvents(a.adapter.output))
    requires a.adapter.output.core.termination == F.Completed && a.adapter.output.core.members == None
    ensures FailedWith(LaunchOwned(p, a, faults), a, OutputEvents(a.adapter.output), ArtifactIngestion,
                       ServiceError("artifact_output_incomplete"))
  {
    var output := a.adapter.output;
    var script := OutputActions(output, a.run);
    var begun, started := UndisturbedStart(p, a, faults);
    OutputNeverFails(output, a.run);
    OutputIs(output, a.run);
    OpeningAscends(a);
    AscendingIsUnique(OpeningEvents(a));
    HigherRanksAreNew(OpeningEvents(a), OutputEvents(output), 3);
    UndisturbedPlay(started, script, faults);
    OutputRecordsNothing(output, a.run);
    PlayLeavesRecords(started, script, faults);
    var recorded := Play(started, script, faults).place;
    FailureAfterOutput(recorded, a, OutputEvents(output), ArtifactIngestion,
                       ServiceError("artifact_output_incomplete"), faults);
    assert Play(recorded, IngestActions(a, output.core), faults) ==
             Played(recorded, Raised(ServiceError("artifact_output_incomplete")));
  }

  /** What keeps an attempt from being launched at all, in the order it is looked at; only a blocked
      preflight leaves anything behind. */
  lemma RefusedLaunch(p: Place, a: Attempt, faults: Faults)
    requires Undisturbed(faults) && !Launchable(a)
    ensures var r := LaunchOwned(p, a, faults);
            && r.reply == Threw(ServiceError(
                 if !a.evaluates then "run_evaluation_mode_not_supported"
                 else if p.stream != [] || p.run.Some? then "run_id_already_used"
                 else if a.refusal.Some? then a.refusal.value
                 else if a.preflight.Blocked? then "run_preflight_blocked"
                 else "run_launch_record_invalid"))
            && r.place.run == p.run && r.place.artifact == p.artifact
            && r.place.stream ==
               if a.evaluates && p.stream == [] && p.run == None && a.refusal == None && a.preflight.Blocked?
               then [PreflightBlocked(a.preflight.id)] else p.stream
  {
    var q := p.(clock := p.clock + 1);
    assert Do(p, Work(NoEffect), faults) == Played(q, Done);
    if a.evaluates && p.stream == [] && p.run == None && a.refusal == None && a.preflight.Blocked? {
      OpeningIs(a);
      assert [] + OpeningEvents(a) == OpeningEvents(a);
      UndisturbedPlay(q, Opening(a), faults);
      assert RecordsNothing(Opening(a));
      PlayLeavesRecords(q, Opening(a), faults);
    }
  }

  // ---------------------------------------------------------------- what a launched stream begins with

  /** Whatever fails, a launched stream begins with the whole opening of its attempt: the preflight, the
      request, the recovery exactly when the attempt resumes one, and the launch. */
  lemma LaunchedStreamOpens(p: Place, a: Attempt, faults: Faults)
    requires Reliable(faults) && p.stream == [] && p.run == None
    requires HasLaunched(LaunchOwned(p, a, faults).place.stream)
    ensures var s := LaunchOwned(p, a, faults).place.stream;
            && |s| >= 3 && s[0] == PreflightSucceeded(a.preflight.id)
            && s[1] == RequestFrozen(a.run.runtime, a.preflight.id)
            && (match a.resumed
                case None => s[2] == Launched(a.run, a.fixture)
                case Some(from) => |s| >= 4 && s[2] == Recovered(from.0, from.1) && s[3] == Launched(a.run, a.fixture))
            && (forall i | 0 <= i < |s| && s[i].Recovered? :: i == 2 && a.resumed.Some?)
  {
    OnlyLaunchableLaunches(p, a, faults);
    var t := LaunchShaped(p, a, faults);
    var s, opening := LaunchOwned(p, a, faults).place.stream, OpeningEvents(a);
    OpeningAscends(a);
    var launch :| 0 <= launch < |s| && s[launch].Launched?;
    OpeningIsWhole(a, t, s, launch);
    assert forall i | 0 <= i < |opening| :: s[i] == opening[i];
    forall i | 0 <= i < |s| && s[i].Recovered? ensures i == 2 && a.resumed.Some? { RecoveryIsThird(a, t, s, i); }
  }

  lemma RecoveryIsThird(a: Attempt, t: Trace, s: seq<Event>, i: nat)
    requires a.preflight.Ready? && Fits(t, a, s) && i < |s| && s[i].Recovered?
    ensures i == 2 && a.resumed.Some?
  {
    RankOfPosition(s, a, t, i);
  }

  lemma OpeningIsWhole(a: Attempt, t: Trace, s: seq<Event>, launch: nat)
    requires a.preflight.Ready? && Fits(t, a, s) && launch < |s| && s[launch].Launched?
    ensures t.begun == |OpeningEvents(a)|
  {
    RankOfPosition(s, a, t, launch);
    OpeningAscends(a);
  }

  // ---------------------------------------------------------------- reopening any place

  /** The recomputed output of an uninterrupted first attempt. */
  function Recomputed(a: Attempt, science: F.Science, digest: F.Digest): Output
    requires F.WellFormed(RequestOf(a, science)) && a.run.runtime.start == 0
  {
    Output(F.OutputOf(RequestOf(a, science), F.Unhindered, digest), [], [])
  }

  /** The attempt as a first one whose trainer runs through. */
  function Uninterrupted(a: Attempt, science: F.Science, digest: F.Digest): Attempt
    requires F.WellFormed(RequestOf(a, science)) && a.run.runtime.start == 0
  {
    a.(fixture := true, resumed := None, adapter := Returns(Recomputed(a, science, digest)))
  }

  lemma RecomputedIsRecordable(a: Attempt, science: F.Science, digest: F.Digest)
    requires F.WellFormed(RequestOf(a, science))
    requires F.ExecuteRefusal(RequestOf(a, science), F.Unhindered, None) == None
    ensures a.run.runtime.start == 0 && Recordable(Recomputed(a, science, digest), a.run)
  {
    FixtureKeysDiffer(RequestOf(a, science), F.Unhindered, digest);
  }

  lemma ExpectedIsCompleted(a: Attempt, science: F.Science, digest: F.Digest)
    requires F.WellFormed(RequestOf(a, science)) && a.preflight.Ready?
    requires F.ExecuteRefusal(RequestOf(a, science), F.Unhindered, None) == None
    ensures a.run.runtime.start == 0 && Recomputed(a, science, digest).core.members.Some?
    ensures StatusOf(ExpectedEvents(a, Recomputed(a, science, digest))) == Ok(CompletedStatus)
  {
    RecomputedIsRecordable(a, science, digest);
    var b, output := Uninterrupted(a, science, digest), Recomputed(a, science, digest);
    var s, t := ExpectedEvents(a, output), Trace(|OpeningEvents(b)|, OutputEvents(output), |ClosingEvents(b)|, []);
    ExpectedIsLeft(b, output.core);
    WholeStreamIsUnique(b, output);
    OutputIs(output, b.run);
    assert OpeningEvents(b)[..t.begun] == OpeningEvents(b) && ClosingEvents(b)[..t.closed] == ClosingEvents(b);
    assert s == OpeningEvents(b) + OutputEvents(output) + ClosingEvents(b) + [];
    assert Fits(t, b, s);
    ClosedStatus(s, b, t);
  }

  /** Whatever a place holds and however it came to hold it: it reopens for an attempt exactly when the
      attempt is valid for a first uninterrupted run, and run record, artifact and the whole stream are those
      recomputed from it; and what is given back is that artifact. */
  lemma ReopensExactlyTheRecomputed(place: Place, a: Attempt, science: F.Science, digest: F.Digest)
    requires F.WellFormed(RequestOf(a, science))
    ensures Reopen(place, a, science, digest).Ok? <==>
              && a.evaluates && a.refusal == None && a.buildable && a.preflight.Ready?
              && F.ExecuteRefusal(RequestOf(a, science), F.Unhindered, None) == None
              && var output := Recomputed(a, science, digest);
                 && place.run == Some(a.run) && place.artifact == Some(ArtifactOf(a, output.core.members.value))
                 && place.stream == ExpectedEvents(a, output)
    ensures Reopen(place, a, science, digest).Ok? ==> place.artifact == Some(Reopen(place, a, science, digest).value)
  {
    if a.preflight.Ready? && F.ExecuteRefusal(RequestOf(a, science), F.Unhindered, None) == None {
      ExpectedIsCompleted(a, science, digest);
    }
  }

  /** So one place never reopens for attempts of different runs, preflights or bundles. */
  lemma OnePlaceOneAttempt(place: Place, a: Attempt, b: Attempt, science: F.Science, other: F.Science, digest: F.Digest)
    requires F.WellFormed(RequestOf(a, science)) && F.WellFormed(RequestOf(b, other))
    requires Reopen(place, a, science, digest).Ok? && Reopen(place, b, other, digest).Ok?
    ensures a.run == b.run && a.preflight == b.preflight && a.artifactId == b.artifactId && science == other
  {
    ReopensExactlyTheRecomputed(place, a, science, digest);
    ReopensExactlyTheRecomputed(place, b, other, digest);
    assert place.stream[0] == PreflightSucceeded(a.preflight.id) == PreflightSucceeded(b.preflight.id);
  }

  /** Why a place does not reopen for a valid attempt: nothing is there, another run or a blocked one, a run that
      did not complete, another artifact, or another course of events. */
  lemma WhyNotReopened(place: Place, a: Attempt, science: F.Science, digest: F.Digest)
    requires F.WellFormed(RequestOf(a, science)) && a.evaluates && a.refusal == None && a.buildable
    requires F.ExecuteRefusal(RequestOf(a, science), F.Unhindered, None) == None
    ensures var r := Reopen(place, a, science, digest);
            var status := StatusOf(place.stream);
            if place.stream == [] && place.run == None then r == Err("run_not_found")
            else if place.run != Some(a.run) || a.preflight.Blocked? then r == Err("run_existing_conflict")
            else if status.Err? then r == Err(status.code)
            else if status != Ok(CompletedStatus) then r == Err("run_existing_not_completed")
            else
              var output := Recomputed(a, science, digest);
              if place.artifact != Some(ArtifactOf(a, output.core.members.value)) then
                r == Err("run_existing_artifact_conflict")
              else r.Err? ==> r == Err("run_existing_lifecycle_conflict")
  {
  }

  // ---------------------------------------------------------------- what can be recorded

  /** A message belongs to a run exactly when the run's controller would not refuse it for its subject. */
  lemma BelongingIs(messages: seq<C.Message>, run: Run)
    ensures Belong(messages, run) <==>
              forall i | 0 <= i < |messages| ::
                C.Answer([], C.Subject(run.runtime.id, run.runId), messages[i])
                != C.Refused("controller_message_subject_mismatch")
  {
  }

  /** The messages of a lawful controller log, any receipts and the output of the trainer can always be recorded:
      they belong to the run and no two of them share a key. */
  lemma LawfulOutputIsRecordable(run: Run, messages: seq<C.Message>, receipts: seq<string>, request: F.Request,
                                 control: F.Control, digest: F.Digest)
    requires C.Lawful(messages, C.Subject(run.runtime.id, run.runId))
    requires F.WellFormed(request) && F.ExecuteRefusal(request, control, None) == None
    ensures Recordable(Output(F.OutputOf(request, control, digest), messages, receipts), run)
  {
    forall i | 0 <= i < |messages|
      ensures messages[i].subject == C.Subject(run.runtime.id, run.runId) && messages[i].sequence as int == i + 1
    {
      assert C.LawfulAt(messages, C.Subject(run.runtime.id, run.runId), i);
    }
    MessageAt(messages);
    ReceiptAt(receipts);
    var core := F.OutputOf(request, control, digest);
    FixtureKeysDiffer(request, control, digest);
    TrainerEventsAre(core);
    OutputInParts(core, messages, receipts);
    KindsKeepApart(MessageEvents(messages), ReceiptEvents(receipts), OutputEvents(Output(core, [], [])));
  }

  lemma OutputInParts(core: F.Output, messages: seq<C.Message>, receipts: seq<string>)
    ensures var trained := OutputEvents(Output(core, [], []));
            && OutputEvents(Output(core, messages, receipts)) ==
               MessageEvents(messages) + ReceiptEvents(receipts) + trained
            && trained == ProgressEvents(core.progress) + CheckpointEvents(core.checkpoints) + LogEvents(core.logs)
  {
    var p, c, l := ProgressEvents(core.progress), CheckpointEvents(core.checkpoints), LogEvents(core.logs);
    assert [] + [] + p + c + l == p + c + l;
    assert MessageEvents(messages) + ReceiptEvents(receipts) + p + c + l ==
           MessageEvents(messages) + ReceiptEvents(receipts) + (p + c + l);
  }

  lemma TrainerEventsAre(core: F.Output)
    ensures forall e | e in ProgressEvents(core.progress) + CheckpointEvents(core.checkpoints) + LogEvents(core.logs) ::
              e.ProgressMade? || e.CheckpointSaved? || e.Logged?
  {
    ProgressAt(core.progress);
    CheckpointAt(core.checkpoints);
    LogAt(core.logs);
  }

  lemma KindsKeepApart(m: seq<Event>, r: seq<Event>, t: seq<Event>)
    requires forall i | 0 <= i < |m| :: m[i].WorkerMessage? && m[i].message.sequence as int == i + 1
    requires forall i | 0 <= i < |r| :: r[i].TransferVerified? && r[i].index == i + 1
    requires UniqueKeys(t) && forall e | e in t :: e.ProgressMade? || e.CheckpointSaved? || e.Logged?
    ensures UniqueKeys(m + r + t)
  {
    var all := m + r + t;
    forall i, j | 0 <= i < j < |all| ensures !SameKey(all[i], all[j]) {
      if i >= |m + r| {
        assert all[i] == t[i - |m + r|] && all[j] == t[j - |m + r|];
      } else if j >= |m + r| {
        assert all[j] in t;
      }
    }
  }

  // ---------------------------------------------------------------- what a status tells

  ghost predicate EndsIn(s: seq<Event>, told: Event -> bool) { s != [] && told(s[|s| - 1]) }

  /** Each status of a lawful stream means its own last event, and running that it was launched and not ended. */
  lemma StatusTells(s: seq<Event>)
    requires Lifecycle(s)
    ensures StatusOf(s) == Ok(BlockedStatus) <==> EndsIn(s, (e: Event) => e.PreflightBlocked?)
    ensures StatusOf(s) == Ok(CancelledStatus) <==> EndsIn(s, (e: Event) => e.RunCancelled?)
    ensures StatusOf(s) == Ok(InterruptedStatus) <==> EndsIn(s, (e: Event) => e.RunInterrupted?)
    ensures StatusOf(s) == Ok(CompletedStatus) <==> EndsIn(s, (e: Event) => e.RunCompleted?)
    ensures StatusOf(s) == Ok(FailedStatus) <==> EndsIn(s, (e: Event) => e.RunFailed?)
    ensures StatusOf(s) == Ok(RunningStatus) <==> HasLaunched(s) && !EndsLaunch(s[|s| - 1])
  {
    StatusIsExact(s);
    if HasLaunched(s) && s[|s| - 1].PreflightBlocked? {
      var i :| 0 <= i < |s| && s[i].Launched?;
      assert LawfulAt(s, i) && s[0].PreflightSucceeded?;
      assert SameKey(s[0], s[|s| - 1]);
    }
  }
}
