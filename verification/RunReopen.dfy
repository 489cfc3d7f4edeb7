/** Reopening a completed first attempt of the deterministic trainer: the stream a launch leaves is
    exactly the one that can be recomputed from its inputs, so a run reopens exactly when it completed,
    even if the process that launched it died right after the last append. */
module RunReopen {
  import opened Outcomes
  import opened Sorting
  import opened RunProtocol
  import opened RunTheorems
  import opened RunSafety
  import F = FixtureAdapter
  import C = RunController

  // ---------------------------------------------------------------- the trainer as the adapter

  function RequestOf(a: Attempt, science: F.Science): F.Request { F.Request(science, a.run.runtime, a.run.runId) }

  function FixtureResult(request: F.Request, control: F.Control, digest: F.Digest): AdapterResult
    requires F.WellFormed(request)
  {
    match F.ExecuteRefusal(request, control, None)
    case Some(code) => Fails(ServiceError(code))
    case None => Returns(Output(F.OutputOf(request, control, digest), [], []))
  }

  /** A first attempt whose adapter is the trainer, under some control. */
  ghost predicate FirstAttempt(a: Attempt, science: F.Science, control: F.Control, digest: F.Digest) {
    && a.fixture && a.resumed == None && a.run.attempt == 1
    && F.WellFormed(RequestOf(a, science))
    && a.adapter == FixtureResult(RequestOf(a, science), control, digest)
  }

  // ---------------------------------------------------------------- its events have different keys

  lemma {:induction false} MessageAt(messages: seq<C.Message>)
    ensures |MessageEvents(messages)| == |messages|
    ensures forall i | 0 <= i < |messages| :: MessageEvents(messages)[i] == WorkerMessage(messages[i])
  {
    if messages != [] { MessageAt(messages[..|messages| - 1]); }
  }

  lemma {:induction false} ReceiptAt(receipts: seq<string>)
    ensures |ReceiptEvents(receipts)| == |receipts|
    ensures forall i | 0 <= i < |receipts| :: ReceiptEvents(receipts)[i] == TransferVerified(i + 1, receipts[i])
  {
    if receipts != [] { ReceiptAt(receipts[..|receipts| - 1]); }
  }

  lemma {:induction false} ProgressAt(progress: seq<F.Progress>)
    ensures |ProgressEvents(progress)| == |progress|
    ensures forall i | 0 <= i < |progress| :: ProgressEvents(progress)[i] == ProgressMade(progress[i])
  {
    if progress != [] { ProgressAt(progress[..|progress| - 1]); }
  }

  lemma {:induction false} CheckpointAt(checkpoints: seq<F.Checkpoint>)
    ensures |CheckpointEvents(checkpoints)| == |checkpoints|
    ensures forall i | 0 <= i < |checkpoints| :: CheckpointEvents(checkpoints)[i] == CheckpointSaved(checkpoints[i])
  {
    if checkpoints != [] { CheckpointAt(checkpoints[..|checkpoints| - 1]); }
  }

  lemma {:induction false} LogAt(logs: seq<F.Log>)
    ensures |LogEvents(logs)| == |logs|
    ensures forall i | 0 <= i < |logs| :: LogEvents(logs)[i] == Logged(logs[i])
  {
    if logs != [] { LogAt(logs[..|logs| - 1]); }
  }

  lemma ProgressKeysDiffer(progress: seq<F.Progress>)
    requires forall i, j | 0 <= i < j < |progress| :: progress[i].step != progress[j].step
    ensures UniqueKeys(ProgressEvents(progress))
            && forall i | 0 <= i < |ProgressEvents(progress)| :: ProgressEvents(progress)[i].ProgressMade?
  {
    ProgressAt(progress);
  }

  lemma CheckpointKeysDiffer(checkpoints: seq<F.Checkpoint>)
    requires forall i, j | 0 <= i < j < |checkpoints| :: checkpoints[i].step != checkpoints[j].step
    ensures UniqueKeys(CheckpointEvents(checkpoints))
    ensures forall i | 0 <= i < |CheckpointEvents(checkpoints)| :: CheckpointEvents(checkpoints)[i].CheckpointSaved?
  {
    CheckpointAt(checkpoints);
  }

  lemma LogKeysDiffer(logs: seq<F.Log>)
    requires forall i | 0 <= i < |logs| :: logs[i].ordinal == i + 1
    ensures UniqueKeys(LogEvents(logs)) && forall i | 0 <= i < |LogEvents(logs)| :: LogEvents(logs)[i].Logged?
  {
    LogAt(logs);
  }

  lemma FixtureKeysDiffer(request: F.Request, control: F.Control, digest: F.Digest)
    requires F.WellFormed(request) && F.ExecuteRefusal(request, control, None) == None
    ensures UniqueKeys(OutputEvents(Output(F.OutputOf(request, control, digest), [], [])))
  {
    var stop := F.StopOf(request, control);
    var progress, checkpoints := F.ProgressTo(request, digest, stop), F.CheckpointsTo(request, control, stop);
    var logs := F.Entered(F.LogsTo(request, control, stop), F.LastCode(control), stop);
    F.ProgressIs(request, digest, stop);
    ProgressKeysDiffer(progress);
    F.CheckpointsAre(request, control, stop);
    CheckpointKeysDiffer(checkpoints);
    F.LogsAreNumbered(request, control, stop);
    LogKeysDiffer(logs);
    KindsApart(ProgressEvents(progress), CheckpointEvents(checkpoints), LogEvents(logs));
    assert [] + [] + ProgressEvents(progress) == ProgressEvents(progress);
    assert OutputEvents(Output(F.OutputOf(request, control, digest), [], [])) ==
           ProgressEvents(progress) + CheckpointEvents(checkpoints) + LogEvents(logs);
  }

  lemma KindsApart(p: seq<Event>, c: seq<Event>, l: seq<Event>)
    requires UniqueKeys(p) && UniqueKeys(c) && UniqueKeys(l)
    requires forall i | 0 <= i < |p| :: p[i].ProgressMade?
    requires forall i | 0 <= i < |c| :: c[i].CheckpointSaved?
    requires forall i | 0 <= i < |l| :: l[i].Logged?
    ensures UniqueKeys(p + c + l)
  {
  }

  // ---------------------------------------------------------------- what a script keeps

  /** A done script has had all its effects on the records. */
  function KeptArtifact(script: seq<Action>, artifact: Option<Artifact>): Option<Artifact>
    decreases |script|
  {
    if script == [] then artifact
    else
      var first := script[0];
      KeptArtifact(script[1..],
                   if first.Work? && first.effect.KeepArtifact? then Some(first.effect.artifact) else artifact)
  }

  lemma {:induction false} PlayKeeps(p: Place, script: seq<Action>, faults: Faults)
    requires forall i | 0 <= i < |script| :: !(script[i].Work? && script[i].effect.KeepRun?)
    ensures Play(p, script, faults).place.run == p.run
    ensures Play(p, script, faults).signal == Done ==>
              Play(p, script, faults).place.artifact == KeptArtifact(script, p.artifact)
    decreases |script|
  {
    if script != [] {
      var first := Do(p, script[0], faults);
      if first.signal == Done { PlayKeeps(first.place, script[1..], faults); }
    }
  }

  ghost predicate Completes(s: seq<Event>) {
    exists e :: e in s && e.RunCompleted?
  }

  lemma TerminalizeCompletesNothing(p: Place, phase: Phase, error: Error, faults: Faults)
    requires !Completes(p.stream)
    ensures !Completes(Terminalize(p, phase, error, faults).place.stream)
  {
    var code := CodeOf(error, phase);
    var noted := if phase == ArtifactIngestion then Do(p, Write(IngestionFailed(code)), faults) else Played(p, Done);
    DoAdds(p, Write(IngestionFailed(code)), faults);
    DoAdds(noted.place, Write(RunFailed(phase, code)), faults);
  }

  // ---------------------------------------------------------------- a completed stream is exact

  /** What a completed attempt leaves: every event of its opening, output and closing, and its records. */
  ghost predicate LeftBy(a: Attempt, output: Output, place: Place) {
    && output.core.termination == F.Completed && output.core.members.Some?
    && place.stream == OpeningEvents(a) + OutputEvents(output) + ClosingEvents(a)
    && place.artifact == Some(ArtifactOf(a, output.core.members.value))
  }

  lemma OpeningCompletesNothing(a: Attempt)
    ensures !Completes(OpeningEvents(a))
  {
    OpeningAscends(a);
  }

  /** Messages of another run stop the recording at once. */
  lemma ForeignMessagesStop(p: Place, output: Output, run: Run, faults: Faults)
    requires !Belong(output.messages, run)
    ensures Play(p, OutputActions(output, run), faults).signal.Raised?
  {
    assert OutputActions(output, run)[0] == Fail(ServiceError("runtime_worker_message_invalid"));
  }

  lemma OutputCompletesNothing(p: Place, a: Attempt, output: Output, faults: Faults)
    requires p.stream == OpeningEvents(a)
    ensures !Completes(Play(p, OutputActions(output, a.run), faults).place.stream)
  {
    OutputIs(output, a.run);
    LevelCompletesNothing(EventsOf(OutputActions(output, a.run)));
    OpeningCompletesNothing(a);
    PlayAdds(p, OutputActions(output, a.run), faults);
  }

  lemma LevelCompletesNothing(events: seq<Event>)
    requires RanksWithin(events, 4, 4)
    ensures !Completes(events)
  {
    forall e | e in events ensures !e.RunCompleted? {
      var i :| 0 <= i < |events| && events[i] == e;
    }
  }

  lemma OutputTrace(a: Attempt, output: Output)
    requires a.preflight.Ready? && UniqueKeys(OutputEvents(output)) && RanksWithin(OutputEvents(output), 4, 4)
    ensures Live(Trace(|OpeningEvents(a)|, OutputEvents(output), 0, []), a, OpeningEvents(a) + OutputEvents(output))
  {
    var opening, events := OpeningEvents(a), OutputEvents(output);
    OpeningAscends(a);
    OpeningFits(a, 0);
    HigherRanksAreNew(opening, events, 3);
    assert opening[..|opening|] == opening && ClosingEvents(a)[..0] == [];
    assert opening + events + [] + [] == opening + events;
  }

  lemma OutputRecorded(p: Place, a: Attempt, output: Output, faults: Faults)
    requires Reliable(faults) && p.stream == OpeningEvents(a) && a.preflight.Ready? && UniqueKeys(OutputEvents(output))
    requires Play(p, OutputActions(output, a.run), faults).signal == Done
    ensures var r := Play(p, OutputActions(output, a.run), faults);
            && r.place.stream == OpeningEvents(a) + OutputEvents(output)
            && Live(Trace(|OpeningEvents(a)|, OutputEvents(output), 0, []), a, r.place.stream)
  {
    if !Belong(output.messages, a.run) {
      ForeignMessagesStop(p, output, a.run, faults);
    }
    var script := OutputActions(output, a.run);
    OutputIs(output, a.run);
    OutputTrace(a, output);
    var k := PlayNew(p, script, faults);
    assert EventsOf(script)[..k] == OutputEvents(output);
  }

  /** A trace that did not close completely completes nothing. */
  lemma PartCompletesNothing(t: Trace, a: Attempt, s: seq<Event>)
    requires Fits(t, a, s) && t.tail == [] && t.closed < |ClosingEvents(a)|
    ensures !Completes(s)
  {
    OpeningCompletesNothing(a);
    ClosingAscends(a);
    forall e | e in s ensures !e.RunCompleted? {
      var i :| 0 <= i < |s| && s[i] == e;
      FourParts(OpeningEvents(a)[..t.begun], t.output, ClosingEvents(a)[..t.closed], t.tail, i);
      var c := t.begun + |t.output|;
      if i < t.begun {
        assert e == OpeningEvents(a)[i];
      } else if i >= c {
        assert e == ClosingEvents(a)[i - c];
      }
    }
  }

  lemma IngestKeeps(a: Attempt, output: F.Output, before: Option<Artifact>)
    requires output.members.Some?
    ensures var artifact := Some(ArtifactOf(a, output.members.value));
            && KeptArtifact(IngestActions(a, output), before) == artifact
            && KeptArtifact(CompleteActions(a, output.members.value), artifact) == artifact
  {
    var s, artifact := IngestActions(a, output), ArtifactOf(a, output.members.value);
    var s1 := s[1..];
    assert s1 == [Work(NoEffect), Work(KeepArtifact(artifact)), Write(IngestionVerified(artifact))];
    var s2 := s1[1..];
    assert s2 == [Work(KeepArtifact(artifact)), Write(IngestionVerified(artifact))];
    var s3 := s2[1..];
    assert s3 == [Write(IngestionVerified(artifact))] && s3[1..] == [];
    assert KeptArtifact(s3, Some(artifact)) == Some(artifact);
    assert KeptArtifact(s2, before) == Some(artifact);
    assert KeptArtifact(s1, before) == Some(artifact);
    var c := CompleteActions(a, output.members.value);
    var c1 := c[1..];
    assert c1 == [Write(RunCompleted(artifact))] && c1[1..] == [];
    assert KeptArtifact(c1, Some(artifact)) == Some(artifact);
  }

  lemma AddsNoCompletion(p: Place, script: seq<Action>, faults: Faults)
    requires !Completes(p.stream) && !Completes(EventsOf(script))
    ensures !Completes(Play(p, script, faults).place.stream)
  {
    PlayAdds(p, script, faults);
  }

  /** Scripts that touch only the stream. */
  ghost predicate RecordsNothing(script: seq<Action>) {
    forall x | x in script :: x.Work? ==> x.effect == NoEffect
  }

  lemma {:induction false} PlayLeavesRecords(p: Place, script: seq<Action>, faults: Faults)
    requires RecordsNothing(script)
    ensures Play(p, script, faults).place.run == p.run && Play(p, script, faults).place.artifact == p.artifact
    decreases |script|
  {
    if script != [] {
      assert script[0] in script && forall x | x in script[1..] :: x in script;
      var first := Do(p, script[0], faults);
      if first.signal == Done { PlayLeavesRecords(first.place, script[1..], faults); }
    }
  }

  lemma {:induction false} CheckpointsRecordNothing(checkpoints: seq<F.Checkpoint>)
    ensures RecordsNothing(CheckpointActions(checkpoints))
  {
    if checkpoints != [] { CheckpointsRecordNothing(checkpoints[..|checkpoints| - 1]); }
  }

  lemma OutputRecordsNothing(output: Output, run: Run)
    ensures RecordsNothing(OutputActions(output, run))
  {
    CheckpointsRecordNothing(output.core.checkpoints);
  }

  /** If finishing an attempt wrote its completion, it wrote everything. */
  lemma FinishCompletes(p: Place, a: Attempt, output: Output, faults: Faults)
    requires Reliable(faults) && p.stream == OpeningEvents(a) && a.preflight.Ready?
    requires a.adapter == Returns(output) && UniqueKeys(OutputEvents(output))
    ensures var r := Finish(p, a, output, faults);
            Completes(r.place.stream) ==> LeftBy(a, output, r.place) && r.place.run == p.run && !r.signal.Raised?
  {
    var recorded := Play(p, OutputActions(output, a.run), faults);
    OutputCompletesNothing(p, a, output, faults);
    if recorded.signal == Done {
      OutputRecorded(p, a, output, faults);
      OutputRecordsNothing(output, a.run);
      PlayLeavesRecords(p, OutputActions(output, a.run), faults);
      SmallScripts(a, output);
      match output.core.termination {
        case Cancelled => AddsNoCompletion(recorded.place, CancelActions, faults);
        case Interrupted => AddsNoCompletion(recorded.place, InterruptActions(output.core), faults);
        case Completed =>
          if output.core.members.Some? {
            ArtifactCompletes(recorded.place, a, output, faults);
          }
      }
    }
  }

  lemma ArtifactCompletes(p: Place, a: Attempt, output: Output, faults: Faults)
    requires Reliable(faults) && a.adapter == Returns(output) && !Completes(p.stream)
    requires output.core.termination == F.Completed && output.core.members.Some?
    requires p.stream == OpeningEvents(a) + OutputEvents(output)
    requires Live(Trace(|OpeningEvents(a)|, OutputEvents(output), 0, []), a, p.stream)
    ensures var ingested := Play(p, IngestActions(a, output.core), faults);
            && (ingested.signal != Done ==> !Completes(ingested.place.stream))
            && (ingested.signal == Done ==>
                  var r := Play(ingested.place, CompleteActions(a, output.core.members.value), faults);
                  Completes(r.place.stream) ==> LeftBy(a, output, r.place) && r.place.run == p.run && !r.signal.Raised?)
  {
    SmallScripts(a, output);
    AddsNoCompletion(p, IngestActions(a, output.core), faults);
    var t := Trace(|OpeningEvents(a)|, OutputEvents(output), 0, []);
    var ingested := Play(p, IngestActions(a, output.core), faults);
    if ingested.signal == Done {
      t := ClosingFits(p, a, t, IngestActions(a, output.core), faults);
      IngestKeeps(a, output.core, p.artifact);
      PlayKeeps(p, IngestActions(a, output.core), faults);
      CompletionCompletes(ingested.place, a, output, t, faults);
    }
  }

  lemma CompletionCompletes(p: Place, a: Attempt, output: Output, t: Trace, faults: Faults)
    requires Reliable(faults) && a.adapter == Returns(output)
    requires output.core.termination == F.Completed && output.core.members.Some?
    requires t == Trace(|OpeningEvents(a)|, OutputEvents(output), 2, []) && Live(t, a, p.stream)
    requires p.artifact == Some(ArtifactOf(a, output.core.members.value))
    ensures var r := Play(p, CompleteActions(a, output.core.members.value), faults);
            Completes(r.place.stream) ==> LeftBy(a, output, r.place) && r.place.run == p.run && !r.signal.Raised?
  {
    var script := CompleteActions(a, output.core.members.value);
    SmallScripts(a, output);
    var t' := ClosingFits(p, a, t, script, faults);
    PlayLeavesRecords(p, script, faults);
    var r := Play(p, script, faults);
    if t'.closed < |ClosingEvents(a)| {
      PartCompletesNothing(t', a, r.place.stream);
    } else {
      assert OpeningEvents(a)[..t'.begun] == OpeningEvents(a) && ClosingEvents(a)[..t'.closed] == ClosingEvents(a);
      assert OpeningEvents(a) + OutputEvents(output) + ClosingEvents(a) + [] ==
               OpeningEvents(a) + OutputEvents(output) + ClosingEvents(a);
    }
  }

  lemma OpeningDone(p: Place, a: Attempt, faults: Faults)
    requires Reliable(faults) && p.stream == [] && a.preflight.Ready?
    ensures var r := Play(p, Opening(a), faults);
            && !Completes(r.place.stream)
            && (r.signal == Done ==> r.place.stream == OpeningEvents(a) && r.place.run == Some(a.run))
  {
    var k := OpeningShaped(p, a, faults);
    OpeningCompletesNothing(a);
    assert forall e | e in OpeningEvents(a)[..k] :: e in OpeningEvents(a);
    var first := Do(p, Work(KeepRun(a.run)), faults);
    assert Opening(a)[1..] == Writes(OpeningEvents(a));
    if first.signal == Done {
      assert RecordsNothing(Writes(OpeningEvents(a)));
      PlayLeavesRecords(first.place, Writes(OpeningEvents(a)), faults);
    }
  }

  /** If a launch wrote its completion, even one whose process then died, it left everything. */
  lemma ExecuteCompletes(p: Place, a: Attempt, faults: Faults)
    requires Reliable(faults) && p.stream == OpeningEvents(a) && a.preflight.Ready?
    requires a.adapter.Returns? ==> UniqueKeys(OutputEvents(a.adapter.output))
    ensures var r := Execute(p, a, faults);
            Completes(r.place.stream) ==>
              a.adapter.Returns? && LeftBy(a, a.adapter.output, r.place) && r.place.run == p.run
  {
    OpeningCompletesNothing(a);
    var started := Do(p, Work(NoEffect), faults);
    if started.signal.Raised? {
      TerminalizeCompletesNothing(started.place, Runtime, started.signal.error, faults);
    } else if started.signal == Done {
      match a.adapter {
        case Returns(output) =>
          FinishCompletes(started.place, a, output, faults);
          var done := Finish(started.place, a, output, faults);
          if done.signal.Raised? {
            TerminalizeCompletesNothing(done.place, done.phase, done.signal.error, faults);
          }
        case Fails(error) => TerminalizeCompletesNothing(started.place, Runtime, error, faults);
        case FailsWithEvidence(error, messages, receipts) => EvidenceCompletesNothing(started.place, a, faults);
      }
    }
  }

  lemma EvidenceCompletesNothing(p: Place, a: Attempt, faults: Faults)
    requires a.adapter.FailsWithEvidence? && !Completes(p.stream)
    ensures var kept := Play(p, Boundary(a.adapter.messages, a.adapter.receipts, a.run), faults);
            && !Completes(kept.place.stream)
            && forall phase, error :: !Completes(Terminalize(kept.place, phase, error, faults).place.stream)
  {
    var script := Boundary(a.adapter.messages, a.adapter.receipts, a.run);
    var events := EventsOf(script);
    BoundaryEvents(a.adapter.messages, a.adapter.receipts, a.run);
    forall e | e in events ensures Rank(e) == 4 {
      var i :| 0 <= i < |events| && events[i] == e;
    }
    AddsNoCompletion(p, script, faults);
    var kept := Play(p, script, faults);
    forall phase, error ensures !Completes(Terminalize(kept.place, phase, error, faults).place.stream) {
      TerminalizeCompletesNothing(kept.place, phase, error, faults);
    }
  }

  lemma LaunchCompletes(p: Place, a: Attempt, faults: Faults)
    requires Reliable(faults) && p.stream == [] && p.run == None
    requires a.adapter.Returns? ==> UniqueKeys(OutputEvents(a.adapter.output))
    ensures var r := LaunchOwned(p, a, faults);
            Completes(r.place.stream) ==>
              && a.evaluates && a.refusal == None && a.preflight.Ready? && a.buildable
              && a.adapter.Returns? && LeftBy(a, a.adapter.output, r.place) && r.place.run == Some(a.run)
  {
    var read := Do(p, Work(NoEffect), faults);
    if read.signal == Done && a.evaluates && a.refusal == None && (a.preflight.Blocked? || a.buildable) {
      if a.preflight.Ready? {
        OpeningDone(read.place, a, faults);
        var begun := Play(read.place, Opening(a), faults);
        if begun.signal == Done { ExecuteCompletes(begun.place, a, faults); }
      } else {
        OpeningIs(a);
        PlayAdds(read.place, Opening(a), faults);
      }
    }
  }

  // ---------------------------------------------------------------- reopening

  /** Reopening recomputes everything from the inputs and compares; it writes nothing. */
  function Reopen(place: Place, a: Attempt, science: F.Science, digest: F.Digest): Result<Artifact>
    requires F.WellFormed(RequestOf(a, science))
  {
    if !a.evaluates then Err("run_evaluation_mode_not_supported")
    else if a.refusal.Some? then Err(a.refusal.value)
    else if !a.buildable then Err("run_existing_conflict")
    else if place.stream == [] && place.run == None then Err("run_not_found")
    else if a.preflight.Blocked? || place.run != Some(a.run) then Err("run_existing_conflict")
    else if StatusOf(place.stream).Err? then Err(StatusOf(place.stream).code)
    else if StatusOf(place.stream).value != CompletedStatus then Err("run_existing_not_completed")
    else
      match FixtureResult(RequestOf(a, science), F.Unhindered, digest)
      case Fails(_) => Err("run_existing_lifecycle_conflict")
      case Returns(output) =>
        if output.core.members == None then Err("run_existing_lifecycle_conflict")
        else if place.artifact != Some(ArtifactOf(a, output.core.members.value)) then
          Err("run_existing_artifact_conflict")
        else if place.stream != ExpectedEvents(a, output) then Err("run_existing_lifecycle_conflict")
        else Ok(ArtifactOf(a, output.core.members.value))
  }

  /** The events an uninterrupted first attempt must have left, recomputed. */
  function ExpectedEvents(a: Attempt, output: Output): seq<Event>
    requires output.core.members.Some?
  {
    var bundle := output.core.members.value;
    [PreflightSucceeded(a.preflight.id), RequestFrozen(a.run.runtime, a.preflight.id), Launched(a.run, true)]
    + ProgressEvents(output.core.progress) + CheckpointEvents(output.core.checkpoints) + LogEvents(output.core.logs)
    + [IngestionStarted(bundle), IngestionVerified(ArtifactOf(a, bundle)), RunCompleted(ArtifactOf(a, bundle))]
  }

  lemma ExpectedIsLeft(a: Attempt, core: F.Output)
    requires a.fixture && a.resumed == None && a.preflight.Ready? && a.adapter == Returns(Output(core, [], []))
    requires core.termination == F.Completed && core.members.Some?
    ensures OpeningEvents(a) + OutputEvents(a.adapter.output) + ClosingEvents(a) == ExpectedEvents(a, a.adapter.output)
  {
    var o, p, c, l := OpeningEvents(a), ProgressEvents(core.progress), CheckpointEvents(core.checkpoints),
                      LogEvents(core.logs);
    assert o == [PreflightSucceeded(a.preflight.id), RequestFrozen(a.run.runtime, a.preflight.id),
                 Launched(a.run, true)];
    assert [] + [] + p + c + l == p + c + l;
    assert o + (p + c + l) + ClosingEvents(a) == o + p + c + l + ClosingEvents(a);
  }

  /** A first attempt reopens exactly when its evidence says it completed, whatever failed on the way,
      and reopening gives the artifact whose verification that evidence holds. */
  lemma ReopensExactlyWhenCompleted(p: Place, a: Attempt, science: F.Science, control: F.Control, digest: F.Digest,
                                    faults: Faults)
    requires Reliable(faults) && p.stream == [] && p.run == None && FirstAttempt(a, science, control, digest)
    ensures var place := LaunchOwned(p, a, faults).place;
            && (Reopen(place, a, science, digest).Ok? <==> StatusOf(place.stream) == Ok(CompletedStatus))
            && (Reopen(place, a, science, digest).Ok? ==>
                  IngestionVerified(Reopen(place, a, science, digest).value) in place.stream)
  {
    var place, request := LaunchOwned(p, a, faults).place, RequestOf(a, science);
    if F.ExecuteRefusal(request, control, None) == None { FixtureKeysDiffer(request, control, digest); }
    LaunchCompletes(p, a, faults);
    OwnedIsLifecycle(p, a, faults);
    StatusIsExact(place.stream);
    if StatusOf(place.stream) == Ok(CompletedStatus) {
      assert place.stream[|place.stream| - 1] in place.stream;
      CompletedReopens(place, a, science, control, digest);
    } else {
      OnlyCompletedReopens(place, a, science, digest);
    }
  }

  lemma OnlyCompletedReopens(place: Place, a: Attempt, science: F.Science, digest: F.Digest)
    requires F.WellFormed(RequestOf(a, science)) && StatusOf(place.stream) != Ok(CompletedStatus)
    ensures Reopen(place, a, science, digest).Err?
  {
  }

  lemma CompletedReopens(place: Place, a: Attempt, science: F.Science, control: F.Control, digest: F.Digest)
    requires FirstAttempt(a, science, control, digest) && a.adapter.Returns? && LeftBy(a, a.adapter.output, place)
    requires a.evaluates && a.refusal == None && a.preflight.Ready? && a.buildable && place.run == Some(a.run)
    requires StatusOf(place.stream) == Ok(CompletedStatus)
    ensures var artifact := ArtifactOf(a, a.adapter.output.core.members.value);
            Reopen(place, a, science, digest) == Ok(artifact) && IngestionVerified(artifact) in place.stream
  {
    assert control == F.Unhindered;
    ExpectedIsLeft(a, a.adapter.output.core);
    VerifiedIsExpected(a, a.adapter.output);
  }

  lemma VerifiedIsExpected(a: Attempt, output: Output)
    requires output.core.members.Some?
    ensures IngestionVerified(ArtifactOf(a, output.core.members.value)) in ExpectedEvents(a, output)
  {
    var e := ExpectedEvents(a, output);
    assert e[|e| - 2] == IngestionVerified(ArtifactOf(a, output.core.members.value));
  }

  lemma OwnedIsLifecycle(p: Place, a: Attempt, faults: Faults)
    requires Reliable(faults) && p.stream == [] && p.run == None
    ensures Lifecycle(LaunchOwned(p, a, faults).place.stream)
  {
    var t := LaunchShaped(p, a, faults);
    ShapedIsLifecycle(LaunchOwned(p, a, faults).place.stream, a);
  }

  /** In particular a launch that returns completed reopens. */
  lemma CompletedLaunchReopens(p: Place, a: Attempt, science: F.Science, control: F.Control, digest: F.Digest,
                               faults: Faults)
    requires Reliable(faults) && FirstAttempt(a, science, control, digest)
    requires LaunchOwned(p, a, faults).reply == Returned(CompletedStatus)
    ensures Reopen(LaunchOwned(p, a, faults).place, a, science, digest).Ok?
  {
    if p.stream != [] || p.run.Some? { UsedRunIdIsRefused(p, a, faults); }
    ReturnedStatusIsDurable(p, a, faults);
    ReopensExactlyWhenCompleted(p, a, science, control, digest, faults);
  }
}
