/** The run lifecycle as a script of durable steps. Any step may fail, any append may commit and still
    raise, and the process may die at any step; a raised append is reconciled by reading the stream. */
module RunProtocol {
  import opened Outcomes
  import opened Sorting
  import F = FixtureAdapter
  import C = RunController

  datatype Error = ServiceError(code: string) | EvidenceError(code: string) | OtherError

  datatype Phase = Runtime | RuntimeOutput | Cancellation | Interruption | ArtifactIngestion | Completion

  datatype Run = Run(runId: string, attempt: nat, retryOf: Option<string>, runtime: F.RuntimeRequest)

  datatype Artifact = Artifact(artifactId: string, producer: Run, bundle: F.Members)

  datatype Event =
    | PreflightBlocked(preflight: string)
    | PreflightSucceeded(preflight: string)
    | RequestFrozen(runtime: F.RuntimeRequest, preflight: string)
    | Recovered(prior: string, resumed: F.Checkpoint)
    | Launched(run: Run, fixture: bool)
    | WorkerMessage(message: C.Message)
    | TransferVerified(index: nat, receipt: string)
    | ProgressMade(progress: F.Progress)
    | CheckpointSaved(checkpoint: F.Checkpoint)
    | Logged(log: F.Log)
    | CancellationRequested
    | IngestionStarted(bundle: F.Members)
    | IngestionVerified(verified: Artifact)
    | IngestionFailed(code: string)
    | RunCancelled
    | RunInterrupted(checkpoints: nat)
    | RunCompleted(artifact: Artifact)
    | RunFailed(phase: Phase, failure: string)

  /** The idempotency key an event is appended under; two events share one only where the program does. */
  function KeyOf(e: Event): (string, int) {
    match e
    case PreflightBlocked(_) => ("preflight", 0)
    case PreflightSucceeded(_) => ("preflight", 0)
    case RequestFrozen(_, _) => ("request-frozen", 0)
    case Recovered(_, _) => ("recovered", 0)
    case Launched(_, _) => ("launched", 0)
    case WorkerMessage(m) => ("worker-message", m.sequence as int)
    case TransferVerified(index, _) => ("transfer-receipt", index)
    case ProgressMade(p) => ("progress", p.step)
    case CheckpointSaved(c) => ("checkpoint", c.step)
    case Logged(l) => ("log", l.ordinal)
    case CancellationRequested => ("cancellation-requested", 0)
    case IngestionStarted(_) => ("artifact-ingestion-started", 0)
    case IngestionVerified(_) => ("artifact-ingestion-verified", 0)
    case IngestionFailed(_) => ("artifact-ingestion-failed", 0)
    case RunCancelled => ("cancelled", 0)
    case RunInterrupted(_) => ("interrupted", 0)
    case RunCompleted(_) => ("completed", 0)
    case RunFailed(_, _) => ("failed", 0)
  }

  /** The events that end a run after it was launched. */
  predicate EndsLaunch(e: Event) {
    e.RunCancelled? || e.RunInterrupted? || e.RunCompleted? || e.RunFailed?
  }

  predicate IsTerminal(e: Event) { EndsLaunch(e) || e.PreflightBlocked? }

  // ---------------------------------------------------------------- one append

  /** What happens at one step: nothing bad, an error after or before the effect, or the end of the
      process. After an error the stream may or may not be readable for reconciliation. */
  datatype Fault =
    | Fine
    | CommitsThenRaises(error: Error, readable: bool)
    | Raises(error: Error, readable: bool)
    | Dies(committed: bool)

  datatype Signal = Done | Raised(error: Error) | Died

  const CONFLICT := EvidenceError("event_idempotency_conflict")

  predicate SameKey(a: Event, b: Event) { KeyOf(a) == KeyOf(b) }

  function WithKeyOf(e: Event): Event -> bool { (x: Event) => SameKey(x, e) }

  predicate KeyTaken(stream: seq<Event>, e: Event) {
    exists i | 0 <= i < |stream| :: SameKey(stream[i], e)
  }

  /** The stream after a committed append: an event already there is not written twice. */
  function Commit(stream: seq<Event>, e: Event): seq<Event> {
    if KeyTaken(stream, e) then stream else stream + [e]
  }

  /** The event is there under its key, alone and exactly as requested. */
  predicate Reconciles(stream: seq<Event>, e: Event) {
    Filter(stream, WithKeyOf(e)) == [e]
  }

  /** Another event already has the key. */
  predicate Conflicts(stream: seq<Event>, e: Event) {
    KeyTaken(stream, e) && e !in stream
  }

  datatype Appended = Appended(stream: seq<Event>, signal: Signal)

  /** The store's keyed append. */
  function StoreAppend(stream: seq<Event>, e: Event, fault: Fault): Appended {
    match fault
    case Fine => Appended(Commit(stream, e), if Conflicts(stream, e) then Raised(CONFLICT) else Done)
    case CommitsThenRaises(error, _) =>
      Appended(Commit(stream, e), Raised(if Conflicts(stream, e) then CONFLICT else error))
    case Raises(error, _) => Appended(stream, Raised(error))
    case Dies(committed) => Appended(if committed then Commit(stream, e) else stream, Died)
  }

  predicate Readable(fault: Fault) {
    match fault
    case CommitsThenRaises(_, readable) => readable
    case Raises(_, readable) => readable
    case _ => true
  }

  /** The service's append: a raised one counts as done when the event turns out to be there. */
  function Append(stream: seq<Event>, e: Event, fault: Fault): Appended {
    var stored := StoreAppend(stream, e, fault);
    if stored.signal.Raised? && Readable(fault) && Reconciles(stored.stream, e) then stored.(signal := Done) else stored
  }

  // ---------------------------------------------------------------- scripts of steps

  type Faults = nat -> Fault

  /** What is durable about one run, and how many steps have been taken. */
  datatype Place = Place(stream: seq<Event>, clock: nat, run: Option<Run>, artifact: Option<Artifact>)

  datatype Effect = NoEffect | KeepRun(run: Run) | KeepArtifact(artifact: Artifact)

  /** Append an event, do other work that may fail, or fail for sure. */
  datatype Action = Write(event: Event) | Work(effect: Effect) | Fail(error: Error)

  datatype Played = Played(place: Place, signal: Signal)

  function Effected(p: Place, effect: Effect): Place {
    match effect
    case NoEffect => p
    case KeepRun(run) => p.(run := Some(run))
    case KeepArtifact(artifact) => p.(artifact := Some(artifact))
  }

  function Do(p: Place, action: Action, faults: Faults): Played {
    var next := p.(clock := p.clock + 1);
    match action
    case Write(e) =>
      var appended := Append(p.stream, e, faults(p.clock));
      Played(next.(stream := appended.stream), appended.signal)
    case Work(effect) =>
      (match faults(p.clock)
       case Fine => Played(Effected(next, effect), Done)
       case CommitsThenRaises(error, _) => Played(Effected(next, effect), Raised(error))
       case Raises(error, _) => Played(next, Raised(error))
       case Dies(committed) => Played(if committed then Effected(next, effect) else next, Died))
    case Fail(error) => Played(p, Raised(error))
  }

  /** The actions in order, up to the first that does not end well. */
  function Play(p: Place, script: seq<Action>, faults: Faults): Played
    decreases |script|
  {
    if script == [] then Played(p, Done)
    else
      var first := Do(p, script[0], faults);
      if first.signal != Done then first else Play(first.place, script[1..], faults)
  }

  // ---------------------------------------------------------------- what one launch attempts

  datatype Output = Output(core: F.Output, messages: seq<C.Message>, receipts: seq<string>)

  /** What the adapter does: it returns, raises, or raises with the evidence gathered so far. */
  datatype AdapterResult =
    | Returns(output: Output)
    | Fails(error: Error)
    | FailsWithEvidence(error: Error, messages: seq<C.Message>, receipts: seq<string>)

  datatype Preflight = Ready(id: string) | Blocked(id: string)

  /** One launch: its immutable inputs, what validation finds, and what the adapter will do. */
  datatype Attempt = Attempt(claim: string, evaluates: bool, refusal: Option<string>, preflight: Preflight,
                             buildable: bool,
                             run: Run, resumed: Option<(string, F.Checkpoint)>, fixture: bool, artifactId: string,
                             adapter: AdapterResult)

  /** Nothing but failures keeps the attempt from being launched. */
  predicate Launchable(a: Attempt) {
    a.evaluates && a.refusal == None && a.preflight.Ready? && a.buildable
  }

  function OpeningEvents(a: Attempt): seq<Event> {
    if a.preflight.Blocked? then [PreflightBlocked(a.preflight.id)]
    else
      [PreflightSucceeded(a.preflight.id), RequestFrozen(a.run.runtime, a.preflight.id)]
      + (if a.resumed.Some? then [Recovered(a.resumed.value.0, a.resumed.value.1)] else [])
      + [Launched(a.run, a.fixture)]
  }

  function Writes(events: seq<Event>): seq<Action> {
    seq(|events|, i requires 0 <= i < |events| => Write(events[i]))
  }

  function Opening(a: Attempt): seq<Action> {
    if a.preflight.Blocked? then Writes(OpeningEvents(a)) else [Work(KeepRun(a.run))] + Writes(OpeningEvents(a))
  }

  /** Every message must belong to this run and this request. */
  predicate Belong(messages: seq<C.Message>, run: Run) {
    forall i | 0 <= i < |messages| :: messages[i].subject == C.Subject(run.runtime.id, run.runId)
  }

  function MessageEvents(messages: seq<C.Message>): seq<Event> {
    if messages == [] then [] else MessageEvents(messages[..|messages| - 1]) + [WorkerMessage(messages[|messages| - 1])]
  }

  function ReceiptEvents(receipts: seq<string>): seq<Event> {
    if receipts == [] then []
    else ReceiptEvents(receipts[..|receipts| - 1]) + [TransferVerified(|receipts|, receipts[|receipts| - 1])]
  }

  function ProgressEvents(progress: seq<F.Progress>): seq<Event> {
    if progress == [] then [] else ProgressEvents(progress[..|progress| - 1]) + [ProgressMade(progress[|progress| - 1])]
  }

  function CheckpointEvents(checkpoints: seq<F.Checkpoint>): seq<Event> {
    if checkpoints == [] then []
    else CheckpointEvents(checkpoints[..|checkpoints| - 1]) + [CheckpointSaved(checkpoints[|checkpoints| - 1])]
  }

  /** Each checkpoint's file is written before its event. */
  function CheckpointActions(checkpoints: seq<F.Checkpoint>): seq<Action> {
    if checkpoints == [] then []
    else
      CheckpointActions(checkpoints[..|checkpoints| - 1])
      + [Work(NoEffect), Write(CheckpointSaved(checkpoints[|checkpoints| - 1]))]
  }

  function LogEvents(logs: seq<F.Log>): seq<Event> {
    if logs == [] then [] else LogEvents(logs[..|logs| - 1]) + [Logged(logs[|logs| - 1])]
  }

  function Boundary(messages: seq<C.Message>, receipts: seq<string>, run: Run): seq<Action> {
    if !Belong(messages, run) then [Fail(ServiceError("runtime_worker_message_invalid"))]
    else Writes(MessageEvents(messages)) + Writes(ReceiptEvents(receipts))
  }

  function OutputActions(output: Output, run: Run): seq<Action> {
    Boundary(output.messages, output.receipts, run) + Writes(ProgressEvents(output.core.progress))
    + CheckpointActions(output.core.checkpoints) + Writes(LogEvents(output.core.logs))
  }

  function ArtifactOf(a: Attempt, bundle: F.Members): Artifact { Artifact(a.artifactId, a.run, bundle) }

  /** Bundle verification and records come between the two ingestion events. */
  function IngestActions(a: Attempt, output: F.Output): seq<Action> {
    match output.members
    case None => [Fail(ServiceError("artifact_output_incomplete"))]
    case Some(bundle) =>
      [Write(IngestionStarted(bundle)), Work(NoEffect), Work(KeepArtifact(ArtifactOf(a, bundle))),
       Write(IngestionVerified(ArtifactOf(a, bundle)))]
  }

  function CompleteActions(a: Attempt, bundle: F.Members): seq<Action> {
    [Work(NoEffect), Write(RunCompleted(ArtifactOf(a, bundle)))]
  }

  const CancelActions: seq<Action> := [Write(CancellationRequested), Work(NoEffect), Write(RunCancelled)]

  function InterruptActions(output: F.Output): seq<Action> {
    [Work(NoEffect), Write(RunInterrupted(|output.checkpoints|))]
  }

  // ---------------------------------------------------------------- the launch as a whole

  datatype Progressed = Progressed(place: Place, phase: Phase, signal: Signal)

  function In(phase: Phase, played: Played): Progressed { Progressed(played.place, phase, played.signal) }

  /** After the adapter has returned: output, then the ending its termination asks for. */
  function Finish(p: Place, a: Attempt, output: Output, faults: Faults): Progressed {
    var recorded := Play(p, OutputActions(output, a.run), faults);
    if recorded.signal != Done then In(RuntimeOutput, recorded)
    else
      match output.core.termination
      case Cancelled => In(Cancellation, Play(recorded.place, CancelActions, faults))
      case Interrupted => In(Interruption, Play(recorded.place, InterruptActions(output.core), faults))
      case Completed =>
        var ingested := Play(recorded.place, IngestActions(a, output.core), faults);
        if ingested.signal != Done || output.core.members == None then In(ArtifactIngestion, ingested)
        else In(Completion, Play(ingested.place, CompleteActions(a, output.core.members.value), faults))
  }

  datatype Status = BlockedStatus | RunningStatus | CancelledStatus | InterruptedStatus | CompletedStatus | FailedStatus

  datatype Reply = Returned(status: Status) | Threw(error: Error) | Gone

  datatype Outcome = Outcome(place: Place, reply: Reply)

  function CodeOf(error: Error, phase: Phase): string {
    if !error.OtherError? && error.code != "" then error.code
    else
      match phase
      case Runtime => "run_runtime_failed"
      case RuntimeOutput => "run_output_persistence_failed"
      case Cancellation => "run_cancellation_persistence_failed"
      case Interruption => "run_interruption_persistence_failed"
      case ArtifactIngestion => "artifact_ingestion_failed"
      case Completion => "run_completion_persistence_failed"
  }

  /** A failure after launch: the ingestion failure is noted if possible, then the run is ended. */
  function Terminalize(p: Place, phase: Phase, error: Error, faults: Faults): Outcome {
    var code := CodeOf(error, phase);
    var noted := if phase == ArtifactIngestion then Do(p, Write(IngestionFailed(code)), faults) else Played(p, Done);
    if noted.signal == Died then Outcome(noted.place, Gone)
    else if noted.signal.Raised? && !noted.signal.error.EvidenceError? then
      Outcome(noted.place, Threw(noted.signal.error))
    else
      var ended := Do(noted.place, Write(RunFailed(phase, code)), faults);
      match ended.signal
      case Died => Outcome(ended.place, Gone)
      case Raised(failure) => Outcome(ended.place, Threw(failure))
      case Done => Outcome(ended.place, Threw(ServiceError(code)))
  }

  function StatusFor(termination: F.Termination): Status {
    match termination
    case Completed => CompletedStatus
    case Cancelled => CancelledStatus
    case Interrupted => InterruptedStatus
  }

  function Settle(done: Progressed, status: Status, faults: Faults): Outcome {
    match done.signal
    case Done => Outcome(done.place, Returned(status))
    case Died => Outcome(done.place, Gone)
    case Raised(error) => Terminalize(done.place, done.phase, error, faults)
  }

  /** From the moment the run is launched. */
  function Execute(p: Place, a: Attempt, faults: Faults): Outcome {
    var started := Do(p, Work(NoEffect), faults);
    if started.signal != Done then Settle(In(Runtime, started), FailedStatus, faults)
    else
      match a.adapter
      case Returns(output) =>
        Settle(Finish(started.place, a, output, faults), StatusFor(output.core.termination), faults)
      case Fails(error) => Terminalize(started.place, Runtime, error, faults)
      case FailsWithEvidence(error, messages, receipts) =>
        var kept := Play(started.place, Boundary(messages, receipts, a.run), faults);
        match kept.signal
        case Died => Outcome(kept.place, Gone)
        case Raised(failure) => Terminalize(kept.place, RuntimeOutput, failure, faults)
        case Done => Terminalize(kept.place, Runtime, error, faults)
  }

  /** Reading the stream and the records may fail like any other step. */
  function LaunchOwned(p: Place, a: Attempt, faults: Faults): Outcome {
    if !a.evaluates then Outcome(p, Threw(ServiceError("run_evaluation_mode_not_supported")))
    else
      var read := Do(p, Work(NoEffect), faults);
      if read.signal != Done then Outcome(read.place, Stopped(read.signal))
      else if p.stream != [] || p.run.Some? then Outcome(read.place, Threw(ServiceError("run_id_already_used")))
      else if a.refusal.Some? then Outcome(read.place, Threw(ServiceError(a.refusal.value)))
      else if a.preflight.Ready? && !a.buildable then
        Outcome(read.place, Threw(ServiceError("run_launch_record_invalid")))
      else
        var begun := Play(read.place, Opening(a), faults);
        if begun.signal != Done then Outcome(begun.place, Stopped(begun.signal))
        else if a.preflight.Blocked? then Outcome(begun.place, Threw(ServiceError("run_preflight_blocked")))
        else Execute(begun.place, a, faults)
  }

  function Stopped(signal: Signal): Reply {
    match signal case Raised(error) => Threw(error) case _ => Gone
  }

  // ---------------------------------------------------------------- ownership

  /** The durable claim of a run id, and the resolution that releases it. */
  datatype World = World(place: Place, claim: Option<string>, resolved: Option<string>)

  datatype Claimed = Claimed(world: World, reply: Option<Reply>)

  const UNAVAILABLE := Threw(ServiceError("run_ownership_unavailable"))

  /** A first claim is written once; a later one must be the same, and released by a resolution. */
  function Claim(w: World, id: string, faults: Faults): Claimed {
    var fault := faults(w.place.clock);
    var next := w.(place := w.place.(clock := w.place.clock + 1));
    var written := if w.claim == None then next.(claim := Some(id)) else next;
    match fault
    case Raises(_, _) => Claimed(next, Some(UNAVAILABLE))
    case Dies(committed) => Claimed(if committed then written else next, Some(Gone))
    case _ =>
      if w.claim.Some? && w.claim.value != id then
        Claimed(next, Some(Threw(ServiceError("run_ownership_claim_conflict"))))
      else if fault.CommitsThenRaises? then Claimed(written, Some(UNAVAILABLE))
      else if w.claim.Some? && w.resolved == None then
        Claimed(next, Some(Threw(ServiceError("run_ownership_unresolved"))))
      else if w.resolved.Some? && (w.claim == None || w.resolved.value != id) then
        Claimed(written, Some(Threw(ServiceError("run_ownership_resolution_conflict"))))
      else Claimed(written, None)
  }

  function Launches(): Event -> bool { (e: Event) => e.Launched? }
  function Ends(): Event -> bool { (e: Event) => EndsLaunch(e) }
  function Terminals(): Event -> bool { (e: Event) => IsTerminal(e) }

  /** The claim is released before launch, or after one launch that ended with its only terminal. */
  predicate Releasable(stream: seq<Event>) {
    var launched := Filter(stream, Launches());
    var ends := Filter(stream, Ends());
    launched == [] || (|launched| == 1 && |ends| == 1 && stream[|stream| - 1] == ends[0])
  }

  /** Writing the resolution: once, and always the same. */
  function Resolve(w: World, id: string, reply: Reply, faults: Faults): (World, Reply) {
    var next := w.(place := w.place.(clock := w.place.clock + 1));
    var written := if w.resolved == None then next.(resolved := Some(id)) else next;
    match faults(w.place.clock)
    case Raises(_, _) => (next, Threw(ServiceError("run_ownership_resolution_failed")))
    case CommitsThenRaises(_, _) => (written, Threw(ServiceError("run_ownership_resolution_failed")))
    case Dies(committed) => (if committed then written else next, Gone)
    case Fine =>
      if w.resolved.Some? && w.resolved.value != id then
        (next, Threw(ServiceError("run_ownership_resolution_conflict")))
      else (written, reply)
  }

  /** An unreadable stream leaves the claim as it is. */
  function ResolveOwnership(w: World, id: string, reply: Reply, faults: Faults): (World, Reply) {
    var next := w.(place := w.place.(clock := w.place.clock + 1));
    match faults(w.place.clock)
    case Dies(_) => (next, Gone)
    case Fine => if Releasable(w.place.stream) then Resolve(next, id, reply, faults) else (next, reply)
    case _ => (next, reply)
  }

  function Launch(w: World, a: Attempt, faults: Faults): (World, Reply) {
    var claimed := Claim(w, a.claim, faults);
    if claimed.reply.Some? then (claimed.world, claimed.reply.value)
    else
      var outcome := LaunchOwned(claimed.world.place, a, faults);
      var after := claimed.world.(place := outcome.place);
      if outcome.reply == Gone then (after, Gone) else ResolveOwnership(after, a.claim, outcome.reply, faults)
  }

  // ---------------------------------------------------------------- status

  function StatusOfEvent(e: Event): Status {
    match e
    case PreflightBlocked(_) => BlockedStatus
    case RunCancelled => CancelledStatus
    case RunInterrupted(_) => InterruptedStatus
    case RunCompleted(_) => CompletedStatus
    case _ => FailedStatus
  }

  /** The status derived from the stream alone. */
  function StatusOf(stream: seq<Event>): Result<Status> {
    if stream == [] then Err("run_not_found")
    else
      var terminals := Filter(stream, Terminals());
      if |terminals| > 1 then Err("run_terminal_evidence_conflict")
      else if terminals != [] && !IsTerminal(stream[|stream| - 1]) then Err("run_event_after_terminal")
      else if terminals != [] then Ok(StatusOfEvent(terminals[0]))
      else if exists i | 0 <= i < |stream| :: stream[i].Launched? then Ok(RunningStatus)
      else Err("run_lifecycle_incomplete")
  }
}
