/** The deterministic trainer: its step loop under an optional stop, checkpoints and their validation,
    and how an interrupted first attempt and one resumed attempt compose to the uninterrupted run. */
module FixtureAdapter {
  import opened Outcomes

  type Positive = n: nat | n >= 1 witness 1

  datatype Resolution = Resolution(id: string, steps: Positive, cadence: Positive)

  /** What a training state depends on: experiment, recipe and rendered data. */
  datatype Science = Science(experiment: string, resolution: Resolution, dataset: string)

  /** Identities are the values they identify. */
  datatype State = State(science: Science, step: int)

  type RunRef = string

  datatype Payload = Payload(producer: RunRef, science: Science, target: string, step: int, state: State)

  datatype Bytes = Canonical(payload: Payload) | Unreadable(text: string)

  datatype Checkpoint = Checkpoint(step: int, state: State, identity: Bytes, bytes: Bytes, resumable: bool)

  datatype RuntimeRequest = RuntimeRequest(id: string, target: string, start: nat, state: State,
                                           resumeFrom: Option<RunRef>, resumeCheckpoint: Option<Bytes>)

  datatype Request = Request(science: Science, runtime: RuntimeRequest, run: RunRef)

  datatype Control = Unhindered | CancelAfter(step: Positive) | InterruptAfter(step: Positive)

  datatype Termination = Completed | Cancelled | Interrupted

  datatype Progress = Progress(step: nat, total: nat, loss: nat)

  datatype Log = Log(ordinal: nat, code: string, step: nat)

  datatype Adapter = Adapter(science: Science, final: State)
  datatype Config = Config(science: Science, adapter: Adapter)
  datatype Provenance = Provenance(run: RunRef, runtime: RuntimeRequest, science: Science, final: State)
  datatype Members = Members(adapter: Adapter, config: Config, provenance: Provenance)

  datatype Output = Output(termination: Termination, progress: seq<Progress>, checkpoints: seq<Checkpoint>,
                           logs: seq<Log>, members: Option<Members>)

  type Digest = (Science, nat) -> nat

  function Loss(science: Science, step: nat, digest: Digest): (loss: nat)
    requires step <= science.resolution.steps
  {
    (science.resolution.steps - step + 1) * 1000000 + digest(science, step) % 1000
  }

  /** Loss falls with every step, whatever the jitter. */
  lemma LossFalls(science: Science, digest: Digest, i: nat, j: nat)
    requires i < j <= science.resolution.steps
    ensures Loss(science, j, digest) < Loss(science, i, digest)
  {
    var n := science.resolution.steps;
    assert (n - i + 1) * 1000000 >= (n - j + 1) * 1000000 + 1000000;
  }

  /** It tells how many steps remain, with a jitter that never reaches the next. */
  lemma LossTellsRemaining(science: Science, digest: Digest, step: nat)
    requires step <= science.resolution.steps
    ensures Loss(science, step, digest) / 1000000 == science.resolution.steps - step + 1
    ensures Loss(science, step, digest) % 1000000 == digest(science, step) % 1000
  {
    var n, jitter := science.resolution.steps - step + 1, digest(science, step) % 1000;
    assert (n * 1000000 + jitter) / 1000000 == n;
  }

  // ---------------------------------------------------------------- checkpoints

  function BuildCheckpoint(request: Request, step: int): Checkpoint {
    var state := State(request.science, step);
    var bytes := Canonical(Payload(request.run, request.science, request.runtime.target, step, state));
    Checkpoint(step, state, bytes, bytes, step < request.science.resolution.steps)
  }

  /** The run a checkpoint must have been written by: the one resumed from, else the run itself. */
  function ExpectedProducer(request: Request): RunRef {
    match request.runtime.resumeFrom case Some(prior) => prior case None => request.run
  }

  function CheckpointRefusal(request: Request, c: Checkpoint): Option<string> {
    if c.step < 0 || c.step > request.science.resolution.steps then Some("fixture_training_state_step_invalid")
    else
      var state := State(request.science, c.step);
      var payload := Payload(ExpectedProducer(request), request.science, request.runtime.target, c.step, state);
      if || c.bytes != Canonical(payload)
         || c.state != state
         || c.identity != c.bytes
         || c.resumable != (c.step < request.science.resolution.steps)
      then Some("fixture_checkpoint_invalid")
      else None
  }

  /** A checkpoint that some run built validates for a request exactly when the science, the target and
      the producer agree: no two differing runs can share one. */
  lemma ValidatesExactly(request: Request, writer: Request, step: int)
    ensures CheckpointRefusal(request, BuildCheckpoint(writer, step)) == None <==>
            && 0 <= step <= writer.science.resolution.steps
            && request.science == writer.science
            && request.runtime.target == writer.runtime.target
            && ExpectedProducer(request) == writer.run
  {
    if writer.science != request.science {
      assert BuildCheckpoint(writer, step).state != State(request.science, step);
    }
  }

  /** Whatever validates was built by the expected producer. */
  lemma ValidatedWasBuilt(request: Request, c: Checkpoint)
    requires CheckpointRefusal(request, c) == None
    ensures c == BuildCheckpoint(request.(run := ExpectedProducer(request)), c.step)
  {
  }

  // ---------------------------------------------------------------- what one execution yields

  function Total(request: Request): nat { request.science.resolution.steps }

  /** The step at which the run stops. */
  function StopOf(request: Request, control: Control): nat {
    if control.Unhindered? then Total(request) else control.step
  }

  predicate Due(request: Request, control: Control, step: nat) {
    step % request.science.resolution.cadence == 0 || control == InterruptAfter(step)
  }

  function ProgressTo(request: Request, digest: Digest, stop: nat): seq<Progress>
    requires request.runtime.start <= stop <= Total(request)
    decreases stop
  {
    if stop == request.runtime.start then []
    else ProgressTo(request, digest, stop - 1) + [Progress(stop, Total(request), Loss(request.science, stop, digest))]
  }

  function CheckpointsTo(request: Request, control: Control, stop: nat): seq<Checkpoint>
    requires request.runtime.start <= stop
    decreases stop
  {
    if stop == request.runtime.start then []
    else
      CheckpointsTo(request, control, stop - 1)
      + (if Due(request, control, stop) then [BuildCheckpoint(request, stop)] else [])
  }

  function Entered(logs: seq<Log>, code: string, step: nat): seq<Log> {
    logs + [Log(|logs| + 1, code, step)]
  }

  function LogsTo(request: Request, control: Control, stop: nat): seq<Log>
    requires request.runtime.start <= stop
    decreases stop
  {
    if stop == request.runtime.start then Entered([], "fixture_runtime_started", stop)
    else
      var completed := Entered(LogsTo(request, control, stop - 1), "fixture_step_completed", stop);
      if Due(request, control, stop) then Entered(completed, "fixture_checkpoint_saved", stop) else completed
  }

  function AdapterOf(science: Science): Adapter {
    Adapter(science, State(science, science.resolution.steps))
  }

  function MembersOf(request: Request): Members {
    var science := request.science;
    Members(AdapterOf(science), Config(science, AdapterOf(science)),
            Provenance(request.run, request.runtime, science, State(science, science.resolution.steps)))
  }

  function TerminationOf(control: Control): Termination {
    match control case Unhindered => Completed case CancelAfter(_) => Cancelled case InterruptAfter(_) => Interrupted
  }

  function LastCode(control: Control): string {
    match control
    case Unhindered => "fixture_artifact_emitted"
    case CancelAfter(_) => "fixture_cancelled"
    case InterruptAfter(_) => "fixture_interrupted"
  }

  function OutputOf(request: Request, control: Control, digest: Digest): Output
    requires request.runtime.start <= StopOf(request, control) <= Total(request)
  {
    var stop := StopOf(request, control);
    Output(TerminationOf(control), ProgressTo(request, digest, stop), CheckpointsTo(request, control, stop),
           Entered(LogsTo(request, control, stop), LastCode(control), stop),
           if control.Unhindered? then Some(MembersOf(request)) else None)
  }

  /** The request's own shape: it resumes from a run and a checkpoint exactly when it starts late. */
  predicate WellFormed(request: Request) {
    && request.runtime.start < Total(request)
    && (request.runtime.resumeFrom.Some? <==> request.runtime.start > 0)
    && (request.runtime.resumeCheckpoint.Some? <==> request.runtime.start > 0)
  }

  function ExecuteRefusal(request: Request, control: Control, resume: Option<Checkpoint>): Option<string> {
    if request.runtime.state != State(request.science, request.runtime.start) then
      Some("fixture_training_state_mismatch")
    else if (request.runtime.start > 0) != resume.Some? then Some("fixture_resume_checkpoint_missing")
    else if resume.Some? && CheckpointRefusal(request, resume.value).Some? then CheckpointRefusal(request, resume.value)
    else if resume.Some? && request.runtime.resumeCheckpoint != Some(resume.value.identity) then
      Some("fixture_resume_checkpoint_mismatch")
    else if control.CancelAfter? && !(request.runtime.start < control.step <= Total(request)) then
      Some("fixture_control_out_of_range")
    else if control.InterruptAfter? && !(request.runtime.start < control.step < Total(request)) then
      Some("fixture_control_out_of_range")
    else None
  }

  /** The training loop. */
  method Execute(request: Request, control: Control, resume: Option<Checkpoint>, digest: Digest)
    returns (r: Result<Output>)
    requires WellFormed(request)
    ensures match ExecuteRefusal(request, control, resume)
            case Some(code) => r == Err(code)
            case None => r == Ok(OutputOf(request, control, digest))
  {
    if request.runtime.state != State(request.science, request.runtime.start) {
      return Err("fixture_training_state_mismatch");
    }
    if (request.runtime.start > 0) != resume.Some? {
      return Err("fixture_resume_checkpoint_missing");
    }
    if resume.Some? {
      var refusal := CheckpointRefusal(request, resume.value);
      if refusal.Some? {
        return Err(refusal.value);
      }
      if request.runtime.resumeCheckpoint != Some(resume.value.identity) {
        return Err("fixture_resume_checkpoint_mismatch");
      }
    }
    var start, total := request.runtime.start, request.science.resolution.steps;
    if control.CancelAfter? && !(start < control.step <= total) {
      return Err("fixture_control_out_of_range");
    }
    if control.InterruptAfter? && !(start < control.step < total) {
      return Err("fixture_control_out_of_range");
    }
    var output := Train(request, control, digest);
    return Ok(output);
  }

  method Train(request: Request, control: Control, digest: Digest) returns (output: Output)
    requires request.runtime.start < StopOf(request, control) <= Total(request)
    ensures output == OutputOf(request, control, digest)
  {
    var start, total := request.runtime.start, Total(request);
    var progress, checkpoints := [], [];
    var logs := [Log(1, "fixture_runtime_started", start)];
    for done := start to total
      invariant control.Unhindered? || done < control.step
      invariant progress == ProgressTo(request, digest, done)
      invariant checkpoints == CheckpointsTo(request, control, done)
      invariant logs == LogsTo(request, control, done)
    {
      var step := done + 1;
      progress := progress + [Progress(step, total, Loss(request.science, step, digest))];
      logs := Entered(logs, "fixture_step_completed", step);
      var interrupted := control == InterruptAfter(step);
      if step % request.science.resolution.cadence == 0 || interrupted {
        checkpoints := checkpoints + [BuildCheckpoint(request, step)];
        logs := Entered(logs, "fixture_checkpoint_saved", step);
      }
      if control == CancelAfter(step) {
        return Output(Cancelled, progress, checkpoints, Entered(logs, "fixture_cancelled", step), None);
      }
      if interrupted {
        return Output(Interrupted, progress, checkpoints, Entered(logs, "fixture_interrupted", step), None);
      }
    }
    return Output(Completed, progress, checkpoints, Entered(logs, "fixture_artifact_emitted", total),
                  Some(MembersOf(request)));
  }

  // ---------------------------------------------------------------- reading the sequences

  /** One progress entry per step, in order. */
  lemma {:induction false} ProgressIs(request: Request, digest: Digest, stop: nat)
    requires request.runtime.start <= stop <= Total(request)
    ensures var p := ProgressTo(request, digest, stop);
            |p| == stop - request.runtime.start
            && forall i | 0 <= i < |p| ::
                 var step := request.runtime.start + 1 + i;
                 p[i] == Progress(step, Total(request), Loss(request.science, step, digest))
    decreases stop
  {
    if stop > request.runtime.start {
      ProgressIs(request, digest, stop - 1);
    }
  }

  /** A checkpoint for every due step and no other, each built for its step. */
  lemma {:induction false} CheckpointsAre(request: Request, control: Control, stop: nat)
    requires request.runtime.start <= stop
    ensures forall c :: c in CheckpointsTo(request, control, stop) <==>
                        && request.runtime.start < c.step <= stop && Due(request, control, c.step)
                        && c == BuildCheckpoint(request, c.step)
    ensures forall i, j | 0 <= i < j < |CheckpointsTo(request, control, stop)| ::
              CheckpointsTo(request, control, stop)[i].step < CheckpointsTo(request, control, stop)[j].step
    decreases stop
  {
    if stop > request.runtime.start {
      CheckpointsAre(request, control, stop - 1);
      var earlier := CheckpointsTo(request, control, stop - 1);
      forall i | 0 <= i < |earlier| ensures earlier[i].step < stop { assert earlier[i] in earlier; }
    }
  }

  /** Logs are numbered from 1 without gaps. */
  lemma {:induction false} LogsAreNumbered(request: Request, control: Control, stop: nat)
    requires request.runtime.start <= stop
    ensures forall i | 0 <= i < |LogsTo(request, control, stop)| :: LogsTo(request, control, stop)[i].ordinal == i + 1
    decreases stop
  {
    if stop > request.runtime.start {
      LogsAreNumbered(request, control, stop - 1);
    }
  }

  /** What the log of a run up to a step says: the start, every step, and every checkpoint. */
  ghost predicate Says(request: Request, control: Control, stop: nat, code: string, step: nat) {
    || (code == "fixture_runtime_started" && step == request.runtime.start)
    || (code == "fixture_step_completed" && request.runtime.start < step <= stop)
    || (code == "fixture_checkpoint_saved" && request.runtime.start < step <= stop && Due(request, control, step))
  }

  ghost predicate Logs(logs: seq<Log>, code: string, step: nat) {
    exists l :: l in logs && l.code == code && l.step == step
  }

  /** It says exactly that. */
  lemma {:induction false} LogsSay(request: Request, control: Control, stop: nat, code: string, step: nat)
    requires request.runtime.start <= stop
    ensures Logs(LogsTo(request, control, stop), code, step) <==> Says(request, control, stop, code, step)
    decreases stop
  {
    if stop == request.runtime.start {
      StartSays(request, control, code, step);
    } else {
      LogsSay(request, control, stop - 1, code, step);
      LogsNext(request, control, stop, code, step);
      SaysNext(request, control, stop, code, step);
    }
  }

  lemma StartSays(request: Request, control: Control, code: string, step: nat)
    ensures Logs(LogsTo(request, control, request.runtime.start), code, step) <==>
              code == "fixture_runtime_started" && step == request.runtime.start
  {
    var first := Log(1, "fixture_runtime_started", request.runtime.start);
    assert LogsTo(request, control, request.runtime.start) == [first] && [first][0] == first;
  }

  lemma LogsNext(request: Request, control: Control, stop: nat, code: string, step: nat)
    requires request.runtime.start < stop
    ensures Logs(LogsTo(request, control, stop), code, step) <==>
              || Logs(LogsTo(request, control, stop - 1), code, step)
              || (code == "fixture_step_completed" && step == stop)
              || (code == "fixture_checkpoint_saved" && step == stop && Due(request, control, stop))
  {
    var before := LogsTo(request, control, stop - 1);
    EnteredSays(before, "fixture_step_completed", stop, code, step);
    EnteredSays(Entered(before, "fixture_step_completed", stop), "fixture_checkpoint_saved", stop, code, step);
  }

  lemma SaysNext(request: Request, control: Control, stop: nat, code: string, step: nat)
    requires request.runtime.start < stop
    ensures Says(request, control, stop, code, step) <==>
              || Says(request, control, stop - 1, code, step)
              || (code == "fixture_step_completed" && step == stop)
              || (code == "fixture_checkpoint_saved" && step == stop && Due(request, control, stop))
  {
  }

  /** Each thing is said once, in the order of the steps, and a checkpoint right after its step. */
  lemma {:induction false} LogsInOrder(request: Request, control: Control, stop: nat)
    requires request.runtime.start <= stop
    ensures var logs := LogsTo(request, control, stop);
            && |logs| == 1 + (stop - request.runtime.start) + |CheckpointsTo(request, control, stop)|
            && InStepOrder(logs) && logs[|logs| - 1].step == stop
    decreases stop
  {
    if stop > request.runtime.start {
      var before := LogsTo(request, control, stop - 1);
      LogsInOrder(request, control, stop - 1);
      var completed := Entered(before, "fixture_step_completed", stop);
      StepEntered(before, "fixture_step_completed", stop);
      StepEntered(completed, "fixture_checkpoint_saved", stop);
    }
  }

  lemma StepEntered(logs: seq<Log>, code: string, step: nat)
    requires InStepOrder(logs) && logs != [] && logs[|logs| - 1].step <= step
    requires code == "fixture_checkpoint_saved" ==>
               logs[|logs| - 1].code == "fixture_step_completed" && logs[|logs| - 1].step == step
    ensures InStepOrder(Entered(logs, code, step))
  {
    var more, n := Entered(logs, code, step), |logs|;
    assert more[n] == Log(n + 1, code, step) && forall i | 0 <= i < n :: more[i] == logs[i];
    assert forall i | 0 <= i < n :: more[i].step <= logs[n - 1].step;
    forall i | 0 <= i < |more| && more[i].code == "fixture_checkpoint_saved"
      ensures i > 0 && more[i - 1].code == "fixture_step_completed" && more[i - 1].step == more[i].step
    {
      assert i < n ==> logs[i].code == more[i].code;
    }
  }

  lemma EnteredSays(logs: seq<Log>, added: string, at: nat, code: string, step: nat)
    ensures Logs(Entered(logs, added, at), code, step) <==> Logs(logs, code, step) || (code == added && step == at)
  {
    var more := Entered(logs, added, at);
    assert more[|logs|] in more;
  }

  /** Steps never decrease, and a checkpoint is logged right after the step it is of. */
  ghost predicate InStepOrder(logs: seq<Log>) {
    && (forall i, j | 0 <= i < j < |logs| :: logs[i].step <= logs[j].step)
    && (forall i | 0 <= i < |logs| && logs[i].code == "fixture_checkpoint_saved" ::
          i > 0 && logs[i - 1].code == "fixture_step_completed" && logs[i - 1].step == logs[i].step)
  }

  /** A bundle of this run: one adapter and its configuration, of this science and final state, and where it
      comes from. */
  ghost predicate OfRun(bundle: Members, request: Request, final: State) {
    && bundle.adapter.science == request.science && bundle.adapter.final == final
    && bundle.config.science == request.science && bundle.config.adapter == bundle.adapter
    && bundle.provenance.run == request.run && bundle.provenance.runtime == request.runtime
    && bundle.provenance.science == request.science && bundle.provenance.final == final
  }

  /** How a run ends: at the step it was told to stop at or at its last one, cancelled, interrupted or complete;
      its last log entry says so, and only a complete run has a bundle, of its own final state. */
  lemma EndsAsControlled(request: Request, control: Control, resume: Option<Checkpoint>, digest: Digest)
    requires WellFormed(request) && ExecuteRefusal(request, control, resume) == None
    ensures var output := OutputOf(request, control, digest);
            var last := output.logs[|output.logs| - 1];
            && output.progress != [] && output.progress[|output.progress| - 1].step == last.step
            && match control
               case Unhindered =>
                 && output.termination == Completed && last.code == "fixture_artifact_emitted"
                 && last.step == request.science.resolution.steps
                 && output.members.Some? && OfRun(output.members.value, request, State(request.science, last.step))
               case CancelAfter(step) =>
                 output.termination == Cancelled && last.code == "fixture_cancelled" && last.step == step
                 && output.members == None
               case InterruptAfter(step) =>
                 output.termination == Interrupted && last.code == "fixture_interrupted" && last.step == step
                 && output.members == None
  {
    ProgressIs(request, digest, StopOf(request, control));
  }

  /** Which stops a run from the beginning can be given: after any of its steps it can be cancelled, after any but
      the last interrupted, so that something is left to resume. */
  lemma StopsAllowed(request: Request, control: Control)
    requires WellFormed(request) && request.runtime.state == State(request.science, request.runtime.start)
    ensures ExecuteRefusal(request, control, None) == None <==>
              && request.runtime.start == 0
              && match control
                 case Unhindered => true
                 case CancelAfter(step) => step <= Total(request)
                 case InterruptAfter(step) => BuildCheckpoint(request, step).resumable
  {
  }

  /** A late start is accepted exactly with a checkpoint that the expected producer built, on this science and
      target, that the request names, and with a stop that lies ahead. */
  lemma ResumesExactly(request: Request, control: Control, c: Checkpoint)
    requires WellFormed(request)
    ensures ExecuteRefusal(request, control, Some(c)) == None <==>
              && request.runtime.start > 0 && request.runtime.state == State(request.science, request.runtime.start)
              && 0 <= c.step <= Total(request)
              && c == BuildCheckpoint(request.(run := ExpectedProducer(request)), c.step)
              && request.runtime.resumeCheckpoint == Some(c.bytes)
              && match control
                 case Unhindered => true
                 case CancelAfter(step) => request.runtime.start < step <= Total(request)
                 case InterruptAfter(step) => request.runtime.start < step < Total(request)
  {
    if CheckpointRefusal(request, c) == None { ValidatedWasBuilt(request, c); }
  }

  // ---------------------------------------------------------------- interruption and recovery

  /** An interrupted run keeps a resumable checkpoint at the very step it stopped at. */
  lemma InterruptedRunIsResumable(request: Request, step: Positive, digest: Digest)
    requires WellFormed(request) && ExecuteRefusal(request, InterruptAfter(step), None) == None
    ensures var cs := OutputOf(request, InterruptAfter(step), digest).checkpoints;
            cs != [] && cs[|cs| - 1] == BuildCheckpoint(request, step) && cs[|cs| - 1].resumable
  {
  }

  /** The request that recovery makes of a prior run and one of its checkpoints. */
  function RecoveryRequest(prior: Request, c: Checkpoint, id: string, run: RunRef): Request
    requires c.step >= 0
  {
    Request(prior.science,
            RuntimeRequest(id, prior.runtime.target, c.step, State(prior.science, c.step), Some(prior.run),
                           Some(c.identity)),
            run)
  }

  /** Recovery validates the checkpoint twice: against the prior request, then against its own. */
  function RecoveryRefusal(prior: Request, c: Checkpoint, id: string, run: RunRef, control: Control): Option<string> {
    if !c.resumable then Some("run_recovery_checkpoint_incompatible")
    else if c.step < 1 then Some("run_event_invalid")
    else if c.state != State(prior.science, c.step) || CheckpointRefusal(prior, c).Some? then
      Some("run_recovery_checkpoint_mismatch")
    else ExecuteRefusal(RecoveryRequest(prior, c, id, run), control, Some(c))
  }

  /** A retained checkpoint of a run recovers exactly when it lies before the last step and the run did
      not itself resume from another run. */
  lemma RecoversExactlyFirstAttempts(prior: Request, interruption: Control, stop: nat, c: Checkpoint, id: string,
                                     run: RunRef)
    requires WellFormed(prior) && prior.runtime.start <= stop <= Total(prior)
    requires c in CheckpointsTo(prior, interruption, stop)
    ensures RecoveryRefusal(prior, c, id, run, Unhindered) == None <==>
            c.step < Total(prior) && (prior.runtime.resumeFrom == None || prior.runtime.resumeFrom == Some(prior.run))
  {
    CheckpointsAre(prior, interruption, stop);
    ValidatesExactly(prior, prior, c.step);
    if c.step < Total(prior) {
      ValidatesExactly(RecoveryRequest(prior, c, id, run), prior, c.step);
    }
  }

  /** So a checkpoint written by a recovered run never recovers again. */
  lemma ChainedRecoveryIsRefused(prior: Request, c: Checkpoint, id: string, run: RunRef, id': string, run': RunRef,
                                 c': Checkpoint, interruption: Control, stop: nat)
    requires WellFormed(prior) && 1 <= c.step < Total(prior) && run != prior.run
    requires var resumed := RecoveryRequest(prior, c, id, run);
             c.step <= stop <= Total(prior) && c' in CheckpointsTo(resumed, interruption, stop)
    ensures RecoveryRefusal(RecoveryRequest(prior, c, id, run), c', id', run', Unhindered).Some?
  {
    RecoversExactlyFirstAttempts(RecoveryRequest(prior, c, id, run), interruption, stop, c', id', run');
  }

  ghost predicate SavedAt(checkpoints: seq<Checkpoint>, step: int) {
    exists i :: 0 <= i < |checkpoints| && checkpoints[i].step == step
  }

  /** A first attempt that stopped where told, and a checkpoint it kept that can be resumed. */
  ghost predicate StoppedWith(first: Request, stopped: Control, c: Checkpoint) {
    && WellFormed(first) && first.runtime.start == 0
    && ExecuteRefusal(first, stopped, None) == None
    && c in CheckpointsTo(first, stopped, StopOf(first, stopped)) && c.resumable
  }

  /** The checkpoint is accepted, and lies at or before the stop. */
  lemma ResumeIsAccepted(first: Request, stopped: Control, c: Checkpoint, id: string, run: RunRef)
    requires StoppedWith(first, stopped, c)
    ensures RecoveryRefusal(first, c, id, run, Unhindered) == None
    ensures 0 < c.step <= StopOf(first, stopped) && c.step < Total(first)
            && WellFormed(RecoveryRequest(first, c, id, run))
  {
    CheckpointsAre(first, stopped, StopOf(first, stopped));
    RecoversExactlyFirstAttempts(first, stopped, StopOf(first, stopped), c, id, run);
  }

  /** Stopping a run and resuming it from any checkpoint it kept is the same as not stopping it: the
      progress up to the checkpoint and the progress after it make the uninterrupted progress. */
  lemma ResumeContinuesProgress(first: Request, stopped: Control, c: Checkpoint, id: string, run: RunRef,
                                digest: Digest)
    requires StoppedWith(first, stopped, c) && 0 < c.step < Total(first)
    ensures c.step <= StopOf(first, stopped) <= Total(first)
    ensures c.step <= |OutputOf(first, stopped, digest).progress|
    ensures OutputOf(first, stopped, digest).progress[..c.step]
            + OutputOf(RecoveryRequest(first, c, id, run), Unhindered, digest).progress
            == OutputOf(first, Unhindered, digest).progress
  {
    ResumeIsAccepted(first, stopped, c, id, run);
    ProgressIs(first, digest, Total(first));
    ProgressIs(first, digest, StopOf(first, stopped));
    ProgressIs(RecoveryRequest(first, c, id, run), digest, Total(first));
  }

  /** The checkpoints after it are at the steps the uninterrupted run would save. */
  lemma ResumeSavesSameSteps(first: Request, stopped: Control, c: Checkpoint, id: string, run: RunRef, digest: Digest,
                             step: int)
    requires StoppedWith(first, stopped, c) && 0 < c.step < Total(first)
    ensures SavedAt(OutputOf(RecoveryRequest(first, c, id, run), Unhindered, digest).checkpoints, step) <==>
            SavedAt(OutputOf(first, Unhindered, digest).checkpoints, step) && step > c.step
  {
    var resumed := RecoveryRequest(first, c, id, run);
    SavedSteps(first, step);
    SavedSteps(resumed, step);
  }

  lemma SavedSteps(request: Request, step: int)
    requires request.runtime.start <= Total(request)
    ensures SavedAt(CheckpointsTo(request, Unhindered, Total(request)), step) <==>
            request.runtime.start < step <= Total(request) && Due(request, Unhindered, step)
  {
    var saved := CheckpointsTo(request, Unhindered, Total(request));
    CheckpointsAre(request, Unhindered, Total(request));
    if SavedAt(saved, step) {
      var i :| 0 <= i < |saved| && saved[i].step == step;
      assert saved[i] in saved;
    }
    if request.runtime.start < step <= Total(request) && Due(request, Unhindered, step) {
      assert BuildCheckpoint(request, step) in saved;
    }
  }

  /** The adapter and its configuration are those of the uninterrupted run; the provenance is another. */
  lemma ResumeEmitsSameAdapter(first: Request, c: Checkpoint, id: string, run: RunRef, digest: Digest)
    requires WellFormed(first) && first.runtime.start == 0 && 0 < c.step < Total(first)
    ensures var whole := OutputOf(first, Unhindered, digest).members;
            var resumed := OutputOf(RecoveryRequest(first, c, id, run), Unhindered, digest).members;
            && whole.Some? && resumed.Some?
            && resumed.value.adapter == whole.value.adapter && resumed.value.config == whole.value.config
            && resumed.value.provenance != whole.value.provenance
  {
    var whole := OutputOf(first, Unhindered, digest).members;
    var resumed := OutputOf(RecoveryRequest(first, c, id, run), Unhindered, digest).members;
    assert resumed.value.provenance.runtime.start != whole.value.provenance.runtime.start;
  }
}
