/** The run service: it owns the durable stream, records and claim of one run id, and takes the steps of
    the lifecycle one by one, reconciling ambiguous appends as it goes. */
module RunService {
  import opened Outcomes
  import opened Sorting
  import opened RunProtocol
  import P = RunProtocol
  import opened RunTheorems
  import opened RunSafety
  import opened RunReopen
  import F = FixtureAdapter
  import C = RunController

  // ---------------------------------------------------------------- scripts step by step

  /** One more action of a script. */
  lemma ScriptStep(p: Place, script: seq<Action>, i: nat, faults: Faults)
    requires i < |script| && Play(p, script[..i], faults).signal == Done
    ensures Play(p, script[..i + 1], faults) == Do(Play(p, script[..i], faults).place, script[i], faults)
  {
    assert script[..i + 1] == script[..i] + [script[i]];
    PlayConcat(p, script[..i], [script[i]], faults);
    var q := Play(p, script[..i], faults).place;
    assert Play(q, [script[i]], faults) == Do(q, script[i], faults);
  }

  /** Nothing after the action that stopped it matters. */
  lemma ScriptStop(p: Place, script: seq<Action>, i: nat, faults: Faults)
    requires i <= |script| && Play(p, script[..i], faults).signal != Done
    ensures Play(p, script, faults) == Play(p, script[..i], faults)
  {
    assert script == script[..i] + script[i..];
    PlayConcat(p, script[..i], script[i..], faults);
  }

  lemma WholeScript(script: seq<Action>)
    ensures script[..|script|] == script
  {
  }

  lemma {:induction false} CheckpointActionAt(checkpoints: seq<F.Checkpoint>)
    ensures |CheckpointActions(checkpoints)| == 2 * |checkpoints|
    ensures forall i | 0 <= i < |checkpoints| ::
              CheckpointActions(checkpoints)[2 * i] == Work(NoEffect)
              && CheckpointActions(checkpoints)[2 * i + 1] == Write(CheckpointSaved(checkpoints[i]))
  {
    if checkpoints != [] { CheckpointActionAt(checkpoints[..|checkpoints| - 1]); }
  }

  class RunService {
    const faults: Faults
    var stream: seq<Event>
    var clock: nat
    var run: Option<Run>
    var artifact: Option<Artifact>
    var claim: Option<string>
    var resolved: Option<string>

    constructor (faults: Faults)
      ensures this.faults == faults && Everything() == Start && Valid()
    {
      this.faults := faults;
      stream, clock, run, artifact, claim, resolved := [], 0, None, None, None, None;
    }

    ghost function Here(): Place reads this { Place(stream, clock, run, artifact) }

    ghost function Everything(): World reads this { World(Here(), claim, resolved) }

    /** The stream is one that can be read back: no key occurs twice. */
    ghost predicate Valid() reads this { UniqueKeys(stream) }

    // -------------------------------------------------------------- single steps

    /** The store's append: the first event under the key decides. */
    method AppendEvent(e: Event, fault: Fault) returns (signal: Signal)
      requires Valid()
      modifies this`stream
      ensures Valid()
      ensures P.Appended(stream, signal) == StoreAppend(old(stream), e, fault)
    {
      if fault.Raises? {
        return Raised(fault.error);
      }
      if fault == Dies(false) {
        return Died;
      }
      var taken, conflict := FindKey(e);
      if !taken {
        stream := stream + [e];
      }
      signal := if fault.Dies? then Died
                else if conflict then Raised(CONFLICT)
                else if fault.CommitsThenRaises? then Raised(fault.error)
                else Done;
    }

    /** Walks the stream for the key; the event found there conflicts unless it is the same. */
    method FindKey(e: Event) returns (taken: bool, conflict: bool)
      requires Valid()
      ensures taken == KeyTaken(stream, e) && conflict == Conflicts(stream, e)
    {
      for i := 0 to |stream|
        invariant forall j | 0 <= j < i :: !SameKey(stream[j], e)
      {
        if SameKey(stream[i], e) {
          return true, stream[i] != e;
        }
      }
      return false, false;
    }

    /** Exactly one durable event under the key, and it is the requested one. */
    method ReconcileAmbiguousAppend(e: Event) returns (found: bool)
      ensures found == Reconciles(stream, e)
    {
      var matches := Filter(stream, WithKeyOf(e));
      if |matches| != 1 {
        return false;
      }
      return matches[0] == e;
    }

    method Append(e: Event) returns (signal: Signal)
      requires Valid()
      modifies this`stream, this`clock
      ensures Valid() && Played(Here(), signal) == Do(old(Here()), Write(e), faults)
    {
      var fault := faults(clock);
      clock := clock + 1;
      signal := AppendEvent(e, fault);
      if signal.Raised? && Readable(fault) {
        var found := ReconcileAmbiguousAppend(e);
        if found {
          signal := Done;
        }
      }
    }

    /** Any other step: files, verification, records. */
    method Proceed(effect: Effect) returns (signal: Signal)
      modifies this`clock, this`run, this`artifact
      ensures Played(Here(), signal) == Do(old(Here()), Work(effect), faults)
    {
      var fault := faults(clock);
      clock := clock + 1;
      if fault.Raises? {
        return Raised(fault.error);
      }
      if fault == Dies(false) {
        return Died;
      }
      match effect {
        case NoEffect =>
        case KeepRun(r) => run := Some(r);
        case KeepArtifact(a) => artifact := Some(a);
      }
      return if fault.CommitsThenRaises? then Raised(fault.error) else if fault.Dies? then Died else Done;
    }

    // -------------------------------------------------------------- recording what the adapter returned

    method RecordMessages(messages: seq<C.Message>) returns (signal: Signal)
      requires Valid()
      modifies this`stream, this`clock
      ensures Valid() && Played(Here(), signal) == Play(old(Here()), Writes(MessageEvents(messages)), faults)
    {
      ghost var start, script := Here(), Writes(MessageEvents(messages));
      MessageAt(messages);
      for i := 0 to |messages|
        invariant Valid() && Played(Here(), Done) == Play(start, script[..i], faults)
      {
        ScriptStep(start, script, i, faults);
        signal := Append(WorkerMessage(messages[i]));
        if signal != Done {
          ScriptStop(start, script, i + 1, faults);
          return;
        }
      }
      WholeScript(script);
      return Done;
    }

    method RecordReceipts(receipts: seq<string>) returns (signal: Signal)
      requires Valid()
      modifies this`stream, this`clock
      ensures Valid() && Played(Here(), signal) == Play(old(Here()), Writes(ReceiptEvents(receipts)), faults)
    {
      ghost var start, script := Here(), Writes(ReceiptEvents(receipts));
      ReceiptAt(receipts);
      for i := 0 to |receipts|
        invariant Valid() && Played(Here(), Done) == Play(start, script[..i], faults)
      {
        ScriptStep(start, script, i, faults);
        signal := Append(TransferVerified(i + 1, receipts[i]));
        if signal != Done {
          ScriptStop(start, script, i + 1, faults);
          return;
        }
      }
      WholeScript(script);
      return Done;
    }

    method RecordProgress(progress: seq<F.Progress>) returns (signal: Signal)
      requires Valid()
      modifies this`stream, this`clock
      ensures Valid() && Played(Here(), signal) == Play(old(Here()), Writes(ProgressEvents(progress)), faults)
    {
      ghost var start, script := Here(), Writes(ProgressEvents(progress));
      ProgressAt(progress);
      for i := 0 to |progress|
        invariant Valid() && Played(Here(), Done) == Play(start, script[..i], faults)
      {
        ScriptStep(start, script, i, faults);
        signal := Append(ProgressMade(progress[i]));
        if signal != Done {
          ScriptStop(start, script, i + 1, faults);
          return;
        }
      }
      WholeScript(script);
      return Done;
    }

    method RecordCheckpoints(checkpoints: seq<F.Checkpoint>) returns (signal: Signal)
      requires Valid()
      modifies this`stream, this`clock, this`run, this`artifact
      ensures Valid() && Played(Here(), signal) == Play(old(Here()), CheckpointActions(checkpoints), faults)
    {
      ghost var start, script := Here(), CheckpointActions(checkpoints);
      CheckpointActionAt(checkpoints);
      for i := 0 to |checkpoints|
        invariant Valid() && Played(Here(), Done) == Play(start, script[..2 * i], faults)
      {
        ScriptStep(start, script, 2 * i, faults);
        signal := Proceed(NoEffect);
        if signal != Done {
          ScriptStop(start, script, 2 * i + 1, faults);
          return;
        }
        ScriptStep(start, script, 2 * i + 1, faults);
        signal := Append(CheckpointSaved(checkpoints[i]));
        if signal != Done {
          ScriptStop(start, script, 2 * i + 2, faults);
          return;
        }
      }
      WholeScript(script);
      return Done;
    }

    method RecordLogs(logs: seq<F.Log>) returns (signal: Signal)
      requires Valid()
      modifies this`stream, this`clock
      ensures Valid() && Played(Here(), signal) == Play(old(Here()), Writes(LogEvents(logs)), faults)
    {
      ghost var start, script := Here(), Writes(LogEvents(logs));
      LogAt(logs);
      for i := 0 to |logs|
        invariant Valid() && Played(Here(), Done) == Play(start, script[..i], faults)
      {
        ScriptStep(start, script, i, faults);
        signal := Append(Logged(logs[i]));
        if signal != Done {
          ScriptStop(start, script, i + 1, faults);
          return;
        }
      }
      WholeScript(script);
      return Done;
    }

    /** Every message and receipt, unless some message is another run's. */
    method RecordBoundaryEvidence(r: Run, messages: seq<C.Message>, receipts: seq<string>) returns (signal: Signal)
      requires Valid()
      modifies this`stream, this`clock
      ensures Valid() && Played(Here(), signal) == Play(old(Here()), Boundary(messages, receipts, r), faults)
    {
      if !Belong(messages, r) {
        return Raised(ServiceError("runtime_worker_message_invalid"));
      }
      PlayConcat(Here(), Writes(MessageEvents(messages)), Writes(ReceiptEvents(receipts)), faults);
      signal := RecordMessages(messages);
      if signal != Done {
        return;
      }
      signal := RecordReceipts(receipts);
    }

    method RecordRuntimeOutput(r: Run, output: Output) returns (signal: Signal)
      requires Valid()
      modifies this`stream, this`clock, this`run, this`artifact
      ensures Valid() && Played(Here(), signal) == Play(old(Here()), OutputActions(output, r), faults)
    {
      OutputInParts(Here(), output, r, faults);
      signal := RecordBoundaryEvidence(r, output.messages, output.receipts);
      if signal != Done {
        return;
      }
      signal := RecordProgress(output.core.progress);
      if signal != Done {
        return;
      }
      signal := RecordCheckpoints(output.core.checkpoints);
      if signal != Done {
        return;
      }
      signal := RecordLogs(output.core.logs);
    }

    // -------------------------------------------------------------- the endings

    method Cancel() returns (signal: Signal)
      requires Valid()
      modifies this`stream, this`clock, this`run, this`artifact
      ensures Valid() && Played(Here(), signal) == Play(old(Here()), CancelActions, faults)
    {
      ghost var start := Here();
      ThreeActions(start, CancelActions, faults);
      signal := Append(CancellationRequested);
      if signal != Done {
        return;
      }
      signal := Proceed(NoEffect);
      if signal != Done {
        return;
      }
      signal := Append(RunCancelled);
    }

    method Interrupt(output: F.Output) returns (signal: Signal)
      requires Valid()
      modifies this`stream, this`clock, this`run, this`artifact
      ensures Valid() && Played(Here(), signal) == Play(old(Here()), InterruptActions(output), faults)
    {
      TwoActions(Here(), Work(NoEffect), Write(RunInterrupted(|output.checkpoints|)), faults);
      signal := Proceed(NoEffect);
      if signal != Done {
        return;
      }
      signal := Append(RunInterrupted(|output.checkpoints|));
    }

    /** Between the two ingestion events: the bundle's files and its manifest, then the records. */
    method IngestArtifact(a: Attempt, output: F.Output) returns (signal: Signal)
      requires Valid()
      modifies this`stream, this`clock, this`run, this`artifact
      ensures Valid() && Played(Here(), signal) == Play(old(Here()), IngestActions(a, output), faults)
    {
      if output.members == None {
        return Raised(ServiceError("artifact_output_incomplete"));
      }
      var bundle := output.members.value;
      FourActions(Here(), IngestActions(a, output), faults);
      signal := Append(IngestionStarted(bundle));
      if signal != Done {
        return;
      }
      signal := Proceed(NoEffect);
      if signal != Done {
        return;
      }
      signal := Proceed(KeepArtifact(ArtifactOf(a, bundle)));
      if signal != Done {
        return;
      }
      signal := Append(IngestionVerified(ArtifactOf(a, bundle)));
    }

    method Complete(a: Attempt, bundle: F.Members) returns (signal: Signal)
      requires Valid()
      modifies this`stream, this`clock, this`run, this`artifact
      ensures Valid() && Played(Here(), signal) == Play(old(Here()), CompleteActions(a, bundle), faults)
    {
      TwoActions(Here(), Work(NoEffect), Write(RunCompleted(ArtifactOf(a, bundle))), faults);
      signal := Proceed(NoEffect);
      if signal != Done {
        return;
      }
      signal := Append(RunCompleted(ArtifactOf(a, bundle)));
    }

    /** The output, then the ending it asks for; the phase says where a failure happened. */
    method FinishLaunch(a: Attempt, output: Output) returns (phase: Phase, signal: Signal)
      requires Valid()
      modifies this`stream, this`clock, this`run, this`artifact
      ensures Valid() && Progressed(Here(), phase, signal) == Finish(old(Here()), a, output, faults)
    {
      phase := RuntimeOutput;
      signal := RecordRuntimeOutput(a.run, output);
      if signal != Done {
        return;
      }
      match output.core.termination {
        case Cancelled =>
          phase := Cancellation;
          signal := Cancel();
        case Interrupted =>
          phase := Interruption;
          signal := Interrupt(output.core);
        case Completed =>
          phase := ArtifactIngestion;
          signal := IngestArtifact(a, output.core);
          if signal != Done || output.core.members == None {
            return;
          }
          phase := Completion;
          signal := Complete(a, output.core.members.value);
      }
    }

    method TerminalizePostLaunchFailure(phase: Phase, error: Error) returns (reply: Reply)
      requires Valid()
      modifies this`stream, this`clock
      ensures Valid() && Outcome(Here(), reply) == Terminalize(old(Here()), phase, error, faults)
    {
      var code := CodeOf(error, phase);
      if phase == ArtifactIngestion {
        var noted := Append(IngestionFailed(code));
        if noted == Died {
          return Gone;
        }
        if noted.Raised? && !noted.error.EvidenceError? {
          return Threw(noted.error);
        }
      }
      var ended := Append(RunFailed(phase, code));
      match ended {
        case Died => return Gone;
        case Raised(failure) => return Threw(failure);
        case Done => return Threw(ServiceError(code));
      }
    }

    /** From the launch event on: no error leaves this method before the failure was recorded, if it can be. */
    method ExecuteLaunched(a: Attempt) returns (reply: Reply)
      requires Valid()
      modifies this`stream, this`clock, this`run, this`artifact
      ensures Valid() && Outcome(Here(), reply) == P.Execute(old(Here()), a, faults)
    {
      var phase, signal := Runtime, Done;
      signal := Proceed(NoEffect);
      if signal == Died {
        return Gone;
      }
      if signal.Raised? {
        reply := TerminalizePostLaunchFailure(phase, signal.error);
        return;
      }
      match a.adapter {
        case Returns(output) =>
          phase, signal := FinishLaunch(a, output);
          if signal == Died {
            return Gone;
          }
          if signal.Raised? {
            reply := TerminalizePostLaunchFailure(phase, signal.error);
            return;
          }
          return Returned(StatusFor(output.core.termination));
        case Fails(error) =>
          reply := TerminalizePostLaunchFailure(phase, error);
        case FailsWithEvidence(error, messages, receipts) =>
          signal := RecordBoundaryEvidence(a.run, messages, receipts);
          if signal == Died {
            return Gone;
          }
          if signal.Raised? {
            reply := TerminalizePostLaunchFailure(RuntimeOutput, signal.error);
            return;
          }
          reply := TerminalizePostLaunchFailure(phase, error);
      }
    }

    /** The opening: the launch records, then each opening event in turn. */
    method Open(a: Attempt) returns (signal: Signal)
      requires Valid()
      modifies this`stream, this`clock, this`run, this`artifact
      ensures Valid() && Played(Here(), signal) == Play(old(Here()), Opening(a), faults)
    {
      if a.preflight.Blocked? {
        OneAction(Here(), Opening(a), faults);
        signal := Append(PreflightBlocked(a.preflight.id));
        return;
      }
      ghost var start, script := Here(), Opening(a);
      ScriptStep(start, script, 0, faults);
      signal := Proceed(KeepRun(a.run));
      if signal != Done {
        ScriptStop(start, script, 1, faults);
        return;
      }
      var events := OpeningEvents(a);
      for i := 0 to |events|
        invariant Valid() && Played(Here(), Done) == Play(start, script[..i + 1], faults)
      {
        ScriptStep(start, script, i + 1, faults);
        signal := Append(events[i]);
        if signal != Done {
          ScriptStop(start, script, i + 2, faults);
          return;
        }
      }
      WholeScript(script);
      return Done;
    }

    method LaunchOwned(a: Attempt) returns (reply: Reply)
      requires Valid()
      modifies this`stream, this`clock, this`run, this`artifact
      ensures Valid() && Outcome(Here(), reply) == P.LaunchOwned(old(Here()), a, faults)
    {
      if !a.evaluates {
        return Threw(ServiceError("run_evaluation_mode_not_supported"));
      }
      var signal := Proceed(NoEffect);
      if signal != Done {
        return Stopped(signal);
      }
      if stream != [] || run.Some? {
        return Threw(ServiceError("run_id_already_used"));
      }
      if a.refusal.Some? {
        return Threw(ServiceError(a.refusal.value));
      }
      if a.preflight.Ready? && !a.buildable {
        return Threw(ServiceError("run_launch_record_invalid"));
      }
      signal := Open(a);
      if signal != Done {
        return Stopped(signal);
      }
      if a.preflight.Blocked? {
        return Threw(ServiceError("run_preflight_blocked"));
      }
      reply := ExecuteLaunched(a);
    }

    // -------------------------------------------------------------- ownership

    /** The durable claim: written once, and let in again only after a resolution. */
    method ClaimOwnership(id: string) returns (refused: Option<Reply>)
      modifies this`clock, this`claim
      ensures P.Claimed(Everything(), refused) == Claim(old(Everything()), id, faults)
    {
      var fault, first := faults(clock), claim == None;
      clock := clock + 1;
      if fault.Raises? {
        return Some(UNAVAILABLE);
      }
      if fault == Dies(false) {
        return Some(Gone);
      }
      if first {
        claim := Some(id);
      }
      if fault.Dies? {
        return Some(Gone);
      }
      if !first && claim.value != id {
        return Some(Threw(ServiceError("run_ownership_claim_conflict")));
      }
      if fault.CommitsThenRaises? {
        return Some(UNAVAILABLE);
      }
      if !first && resolved == None {
        return Some(Threw(ServiceError("run_ownership_unresolved")));
      }
      if resolved.Some? && (first || resolved.value != id) {
        return Some(Threw(ServiceError("run_ownership_resolution_conflict")));
      }
      return None;
    }

    method ResolveClaim(id: string, reply: Reply) returns (final: Reply)
      modifies this`clock, this`resolved
      ensures (Everything(), final) == Resolve(old(Everything()), id, reply, faults)
    {
      var fault := faults(clock);
      clock := clock + 1;
      if fault.Raises? {
        return Threw(ServiceError("run_ownership_resolution_failed"));
      }
      if fault == Dies(false) {
        return Gone;
      }
      var conflict := resolved.Some? && resolved.value != id;
      if resolved == None {
        resolved := Some(id);
      }
      if fault.Dies? {
        return Gone;
      }
      if fault.CommitsThenRaises? {
        return Threw(ServiceError("run_ownership_resolution_failed"));
      }
      return if conflict then Threw(ServiceError("run_ownership_resolution_conflict")) else reply;
    }

    /** Releases the claim before launch, or after one durable terminal; nothing when unreadable. */
    method ResolveRunOwnership(id: string, reply: Reply) returns (final: Reply)
      modifies this`clock, this`resolved
      ensures (Everything(), final) == ResolveOwnership(old(Everything()), id, reply, faults)
    {
      var fault := faults(clock);
      clock := clock + 1;
      if fault.Dies? {
        return Gone;
      }
      if fault != Fine {
        return reply;
      }
      var launched, ends := Filter(stream, Launches()), Filter(stream, Ends());
      if launched == [] || (|launched| == 1 && |ends| == 1 && stream[|stream| - 1] == ends[0]) {
        final := ResolveClaim(id, reply);
      } else {
        final := reply;
      }
    }

    /** One launch under the claim. With readable streams the lifecycle stays lawful, whatever fails. */
    method Launch(a: Attempt) returns (reply: Reply)
      requires Valid()
      modifies this
      ensures Valid() && (Everything(), reply) == P.Launch(old(Everything()), a, faults)
      ensures Reliable(faults) && old(Lifecycle(stream)) ==> Lifecycle(stream)
    {
      ghost var before := Everything();
      if Reliable(faults) && Lifecycle(stream) {
        LaunchKeepsLifecycle(before, a, faults);
      }
      var refused := ClaimOwnership(a.claim);
      if refused.Some? {
        return refused.value;
      }
      reply := LaunchOwned(a);
      if reply == Gone {
        return;
      }
      reply := ResolveRunOwnership(a.claim, reply);
    }

    // -------------------------------------------------------------- reading

    method Status() returns (r: Result<Status>)
      ensures r == StatusOf(stream)
    {
      if stream == [] {
        return Err("run_not_found");
      }
      var terminals := Filter(stream, Terminals());
      if |terminals| > 1 {
        return Err("run_terminal_evidence_conflict");
      }
      if terminals != [] && !IsTerminal(stream[|stream| - 1]) {
        return Err("run_event_after_terminal");
      }
      if terminals != [] {
        return Ok(StatusOfEvent(terminals[0]));
      }
      if exists i | 0 <= i < |stream| :: stream[i].Launched? {
        return Ok(RunningStatus);
      }
      return Err("run_lifecycle_incomplete");
    }

    /** Recomputes what a completed first attempt must have left, and compares; nothing is written. */
    method ReopenCompleted(a: Attempt, science: F.Science, digest: F.Digest) returns (r: Result<Artifact>)
      requires F.WellFormed(RequestOf(a, science))
      ensures r == Reopen(Here(), a, science, digest)
    {
      if !a.evaluates {
        return Err("run_evaluation_mode_not_supported");
      }
      if a.refusal.Some? {
        return Err(a.refusal.value);
      }
      if !a.buildable {
        return Err("run_existing_conflict");
      }
      if stream == [] && run == None {
        return Err("run_not_found");
      }
      if a.preflight.Blocked? || run != Some(a.run) {
        return Err("run_existing_conflict");
      }
      var status := Status();
      if status.Err? {
        return Err(status.code);
      }
      if status.value != CompletedStatus {
        return Err("run_existing_not_completed");
      }
      var expected := F.Execute(RequestOf(a, science), F.Unhindered, None, digest);
      if expected.Err? || expected.value.members == None {
        return Err("run_existing_lifecycle_conflict");
      }
      var kept := ArtifactOf(a, expected.value.members.value);
      if artifact != Some(kept) {
        return Err("run_existing_artifact_conflict");
      }
      if stream != ExpectedEvents(a, Output(expected.value, [], [])) {
        return Err("run_existing_lifecycle_conflict");
      }
      return Ok(kept);
    }
  }

  lemma OneAction(p: Place, script: seq<Action>, faults: Faults)
    requires |script| == 1
    ensures Play(p, script, faults) == Do(p, script[0], faults)
  {
    assert script[1..] == [];
  }

  /** Actions one after the other, until one does not end well. */
  function AndThen(first: Played, action: Action, faults: Faults): Played {
    if first.signal != Done then first else Do(first.place, action, faults)
  }

  lemma ThreeActions(p: Place, s: seq<Action>, faults: Faults)
    requires |s| == 3
    ensures Play(p, s, faults) == AndThen(AndThen(Do(p, s[0], faults), s[1], faults), s[2], faults)
  {
    assert s == [s[0], s[1]] + [s[2]];
    PlayConcat(p, [s[0], s[1]], [s[2]], faults);
    TwoActions(p, s[0], s[1], faults);
    var q := Play(p, [s[0], s[1]], faults);
    OneAction(q.place, [s[2]], faults);
  }

  lemma FourActions(p: Place, s: seq<Action>, faults: Faults)
    requires |s| == 4
    ensures Play(p, s, faults) == AndThen(AndThen(AndThen(Do(p, s[0], faults), s[1], faults), s[2], faults), s[3],
                                          faults)
  {
    assert s == [s[0], s[1], s[2]] + [s[3]];
    PlayConcat(p, [s[0], s[1], s[2]], [s[3]], faults);
    ThreeActions(p, [s[0], s[1], s[2]], faults);
    OneAction(Play(p, [s[0], s[1], s[2]], faults).place, [s[3]], faults);
  }

  function Then(first: Played, script: seq<Action>, faults: Faults): Played {
    if first.signal != Done then first else Play(first.place, script, faults)
  }

  lemma OutputInParts(p: Place, output: Output, r: Run, faults: Faults)
    ensures Play(p, OutputActions(output, r), faults) ==
            Then(Then(Then(Play(p, Boundary(output.messages, output.receipts, r), faults),
                           Writes(ProgressEvents(output.core.progress)), faults),
                      CheckpointActions(output.core.checkpoints), faults),
                 Writes(LogEvents(output.core.logs)), faults)
  {
    var b, s := Boundary(output.messages, output.receipts, r), Writes(ProgressEvents(output.core.progress));
    var c, l := CheckpointActions(output.core.checkpoints), Writes(LogEvents(output.core.logs));
    PlayConcat(p, b + s + c, l, faults);
    PlayConcat(p, b + s, c, faults);
    PlayConcat(p, b, s, faults);
  }
}
