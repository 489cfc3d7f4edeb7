/** The live controller of one run: it accepts ordered runtime messages, replays included, and the
    histories it can have accepted are exactly those of a declarative grammar over the message log. */
module RunController {
  import opened Outcomes

  type Position = n: int | n >= 1 witness 1

  datatype Subject = Subject(request: string, runId: string)

  datatype Body =
    | Launched
    | Progress(step: nat)
    | Metric
    | Checkpoint(checkpointStep: Position)
    | Log
    | Heartbeat
    | CancellationRequested
    | Disconnected(lastReceived: nat)
    | Reconnected(resumeAfter: nat)
    | ArtifactReady(bundle: string)
    | Completed
    | Cancelled
    | Interrupted
    | Failed

  /** A message is its own identity: every field takes part in it. */
  datatype Message = Message(subject: Subject, sequence: Position, body: Body)

  datatype State =
    | Created | Active | Cancelling | Offline | Ready | WasCancelled | WasInterrupted | WasCompleted | HasFailed

  datatype Snapshot = Snapshot(subject: Subject, state: State, lastSequence: nat, lastStep: nat, heartbeats: nat,
                               checkpoints: nat, metrics: nat, artifact: Option<string>, terminal: Option<Message>)

  predicate IsTerminal(s: State) {
    s == WasCancelled || s == WasInterrupted || s == WasCompleted || s == HasFailed
  }

  predicate Ends(b: Body) { b.Completed? || b.Cancelled? || b.Interrupted? || b.Failed? }

  function StepOf(b: Body): Option<nat> {
    match b
    case Progress(step) => Some(step)
    case Checkpoint(step) => Some(step as int)
    case _ => None
  }

  // ---------------------------------------------------------------- the log read as a whole

  /** Cancellation was requested. */
  ghost predicate Requested(log: seq<Message>) {
    exists j :: 0 <= j < |log| && log[j].body.CancellationRequested?
  }

  ghost predicate ReconnectedAfter(log: seq<Message>, j: int) {
    exists k :: j < k < |log| && 0 <= k && log[k].body.Reconnected?
  }

  /** Every disconnection was followed by a reconnection. */
  ghost predicate Online(log: seq<Message>) {
    forall j | 0 <= j < |log| && log[j].body.Disconnected? :: ReconnectedAfter(log, j)
  }

  /** No artifact was announced. */
  ghost predicate Unannounced(log: seq<Message>) {
    forall j | 0 <= j < |log| :: !log[j].body.ArtifactReady?
  }

  ghost predicate StepsUpTo(log: seq<Message>, step: int) {
    forall j | 0 <= j < |log| && StepOf(log[j].body).Some? :: StepOf(log[j].body).value <= step
  }

  /** What may follow a log: the grammar of a run, in terms of earlier messages only. */
  ghost predicate MayFollow(log: seq<Message>, b: Body) {
    && (b.Launched? <==> log == [])
    && (forall j | 0 <= j < |log| :: !Ends(log[j].body))
    && match b
       case Launched => true
       case Progress(step) => Online(log) && Unannounced(log) && StepsUpTo(log, step)
       case Checkpoint(step) => Online(log) && Unannounced(log) && StepsUpTo(log, step)
       case Metric => Online(log) && Unannounced(log)
       case Log => Online(log) && Unannounced(log)
       case Heartbeat => Online(log) && Unannounced(log)
       case CancellationRequested => Online(log) && Unannounced(log) && !Requested(log)
       case Disconnected(last) => Online(log) && Unannounced(log) && last == |log|
       case Reconnected(after) => !Online(log) && after == |log|
       case ArtifactReady(_) => Online(log) && Unannounced(log) && !Requested(log)
       case Completed => log[|log| - 1].body.ArtifactReady?
       case Cancelled => Online(log) && Unannounced(log) && Requested(log)
       case Interrupted => Unannounced(log)
       case Failed => true
  }

  /** A log of one subject, numbered from 1 without gaps, each message allowed after those before it. */
  ghost predicate Lawful(log: seq<Message>, subject: Subject) {
    forall i | 0 <= i < |log| :: LawfulAt(log, subject, i)
  }

  ghost predicate LawfulAt(log: seq<Message>, subject: Subject, i: nat)
    requires i < |log|
  {
    log[i].subject == subject && log[i].sequence as int == i + 1 && MayFollow(log[..i], log[i].body)
  }

  // ---------------------------------------------------------------- the snapshot, read off the log

  ghost function StateOf(log: seq<Message>): State {
    if log == [] then Created
    else
      match log[|log| - 1].body
      case Completed => WasCompleted
      case Cancelled => WasCancelled
      case Interrupted => WasInterrupted
      case Failed => HasFailed
      case ArtifactReady(_) => Ready
      case _ => if !Online(log) then Offline else if Requested(log) then Cancelling else Active
  }

  function Count(log: seq<Message>, counted: Body -> bool): nat {
    if log == [] then 0
    else Count(log[..|log| - 1], counted) + (if counted(log[|log| - 1].body) then 1 else 0)
  }

  function Heartbeats(): Body -> bool { (b: Body) => b.Heartbeat? }
  function Checkpoints(): Body -> bool { (b: Body) => b.Checkpoint? }
  function Metrics(): Body -> bool { (b: Body) => b.Metric? }

  /** The step of the latest progress or checkpoint message. */
  function LastStep(log: seq<Message>): nat {
    if log == [] then 0
    else if StepOf(log[|log| - 1].body).Some? then StepOf(log[|log| - 1].body).value
    else LastStep(log[..|log| - 1])
  }

  function Announced(log: seq<Message>): Option<string> {
    if log == [] then None
    else if log[|log| - 1].body.ArtifactReady? then Some(log[|log| - 1].body.bundle)
    else Announced(log[..|log| - 1])
  }

  function Terminal(log: seq<Message>): Option<Message> {
    if log != [] && Ends(log[|log| - 1].body) then Some(log[|log| - 1]) else None
  }

  /** The state to return to on reconnection. */
  ghost function Saved(log: seq<Message>): Option<State> {
    if Online(log) then None else Some(if Requested(log) then Cancelling else Active)
  }

  ghost function SnapshotOf(log: seq<Message>, subject: Subject): Snapshot {
    Snapshot(subject, StateOf(log), |log|, LastStep(log), Count(log, Heartbeats()), Count(log, Checkpoints()),
             Count(log, Metrics()), Announced(log), Terminal(log))
  }

  // ---------------------------------------------------------------- what the controller answers

  datatype Verdict = Refused(code: string) | Replayed | Accepted

  /** The refusal of a message that comes next in a live run, if any. */
  function Refusal(state: State, lastStep: nat, received: nat, b: Body): Option<string> {
    if b.Launched? then
      if state == Created then None else Some("controller_duplicate_launch")
    else if state == Created then Some("controller_launch_missing")
    else
      match b
      case Launched => None
      case Progress(step) =>
        if state != Active && state != Cancelling then Some("controller_activity_in_invalid_state")
        else if step < lastStep then Some("controller_progress_regressed") else None
      case Checkpoint(step) =>
        if state != Active && state != Cancelling then Some("controller_activity_in_invalid_state")
        else if step < lastStep then Some("controller_checkpoint_regressed") else None
      case Metric =>
        if state != Active && state != Cancelling then Some("controller_activity_in_invalid_state") else None
      case Log => if state != Active && state != Cancelling then Some("controller_activity_in_invalid_state") else None
      case Heartbeat =>
        if state != Active && state != Cancelling then Some("controller_activity_in_invalid_state") else None
      case CancellationRequested => if state != Active then Some("controller_cancellation_invalid") else None
      case Disconnected(last) =>
        if state != Active && state != Cancelling then Some("controller_disconnect_invalid")
        else if last != received then Some("controller_disconnect_sequence_mismatch") else None
      case Reconnected(after) =>
        if state != Offline then Some("controller_reconnect_invalid")
        else if after != received then Some("controller_reconnect_sequence_mismatch") else None
      case ArtifactReady(_) => if state != Active then Some("controller_artifact_invalid") else None
      case Completed => if state != Ready then Some("controller_completion_without_artifact") else None
      case Cancelled => if state != Cancelling then Some("controller_cancelled_without_request") else None
      case Interrupted =>
        if state != Active && state != Cancelling && state != Offline
        then Some("controller_interruption_invalid")
        else None
      case Failed => None
  }

  /** The answer to any message at all, given the log so far. */
  ghost function Answer(log: seq<Message>, subject: Subject, m: Message): Verdict {
    if m.subject != subject then Refused("controller_message_subject_mismatch")
    else if m.sequence <= |log| then
      if log[m.sequence - 1] == m then Replayed else Refused("controller_message_replay_conflict")
    else if m.sequence != |log| + 1 then Refused("controller_message_sequence_gap")
    else if IsTerminal(StateOf(log)) then Refused("controller_message_after_terminal")
    else
      var refusal := Refusal(StateOf(log), LastStep(log), |log|, m.body);
      if refusal.Some? then Refused(refusal.value) else Accepted
  }

  // ---------------------------------------------------------------- the answer follows the grammar

  lemma LawfulPrefix(log: seq<Message>, subject: Subject, n: nat)
    requires Lawful(log, subject) && n <= |log|
    ensures Lawful(log[..n], subject)
  {
    forall i | 0 <= i < n ensures LawfulAt(log[..n], subject, i) {
      assert LawfulAt(log, subject, i) && log[..n][..i] == log[..i];
    }
  }

  lemma LawfulAppend(log: seq<Message>, subject: Subject, m: Message)
    requires Lawful(log, subject)
    ensures Lawful(log + [m], subject) <==>
              m.subject == subject && m.sequence as int == |log| + 1 && MayFollow(log, m.body)
  {
    var longer := log + [m];
    assert longer[..|log|] == log && longer[|log|] == m;
    assert LawfulAt(longer, subject, |log|) <==>
             m.subject == subject && m.sequence as int == |log| + 1 && MayFollow(log, m.body);
    forall i | 0 <= i < |log| ensures LawfulAt(longer, subject, i) {
      assert LawfulAt(log, subject, i) && longer[..i] == log[..i];
    }
  }

  /** The predicates on logs, one message later. */
  lemma Extended(log: seq<Message>, m: Message)
    ensures Requested(log + [m]) <==> Requested(log) || m.body.CancellationRequested?
    ensures Online(log + [m]) <==> m.body.Reconnected? || (Online(log) && !m.body.Disconnected?)
    ensures Unannounced(log + [m]) <==> Unannounced(log) && !m.body.ArtifactReady?
  {
    var longer := log + [m];
    assert longer[|log|] == m;
    assert forall j | 0 <= j < |log| :: longer[j] == log[j];
    if Requested(log) {
      var j :| 0 <= j < |log| && log[j].body.CancellationRequested?;
      assert longer[j].body.CancellationRequested?;
    }
    OnlineExtended(log, m);
    assert m.body.ArtifactReady? ==> longer[|log|].body.ArtifactReady?;
    if Unannounced(longer) {
      forall j | 0 <= j < |log| ensures !log[j].body.ArtifactReady? { assert longer[j] == log[j]; }
    }
  }

  lemma OnlineExtended(log: seq<Message>, m: Message)
    ensures Online(log + [m]) <==> m.body.Reconnected? || (Online(log) && !m.body.Disconnected?)
  {
    var longer := log + [m];
    assert longer[|log|] == m;
    assert forall j | 0 <= j < |log| :: longer[j] == log[j];
    forall j | 0 <= j < |log| ensures ReconnectedAfter(longer, j) <==> m.body.Reconnected? || ReconnectedAfter(log, j) {
      if ReconnectedAfter(log, j) {
        var k :| j < k < |log| && log[k].body.Reconnected?;
        assert longer[k].body.Reconnected?;
      }
      if m.body.Reconnected? {
        assert longer[|log|].body.Reconnected?;
      }
    }
    assert !ReconnectedAfter(longer, |log|);
    if Online(longer) && !m.body.Reconnected? {
      forall j | 0 <= j < |log| && log[j].body.Disconnected? ensures ReconnectedAfter(log, j) {
        assert longer[j].body.Disconnected?;
      }
    }
  }

  /** After an artifact only the end of the run can follow, so the latest message tells. */
  lemma {:induction false} LatestTells(log: seq<Message>, subject: Subject)
    requires Lawful(log, subject) && log != []
    ensures var last := log[|log| - 1].body;
            (forall j | 0 <= j < |log| - 1 :: !Ends(log[j].body))
            && (!Ends(last) ==> (Unannounced(log) <==> !last.ArtifactReady?))
    ensures log[|log| - 1].body.ArtifactReady? ==> Online(log)
    ensures forall j | 0 <= j < |log| :: log[j].body.Launched? <==> j == 0
  {
    var n := |log| - 1;
    var before := log[..n];
    assert LawfulAt(log, subject, n) && log == before + [log[n]];
    assert forall j | 0 <= j < n :: log[j] == before[j];
    Extended(before, log[n]);
    if before != [] {
      LawfulPrefix(log, subject, n);
      LatestTells(before, subject);
    }
  }

  /** The latest step is the largest. */
  lemma {:induction false} LatestStepIsLargest(log: seq<Message>, subject: Subject, step: nat)
    requires Lawful(log, subject)
    ensures StepsUpTo(log, step) <==> LastStep(log) <= step
  {
    if log != [] {
      var n := |log| - 1;
      assert LawfulAt(log, subject, n) && log == log[..n] + [log[n]];
      LawfulPrefix(log, subject, n);
      LatestStepIsLargest(log[..n], subject, step);
      assert forall j | 0 <= j < n :: log[j] == log[..n][j];
      if StepsUpTo(log, step) {
        assert StepOf(log[n].body).Some? ==> StepOf(log[n].body).value <= step;
        assert StepsUpTo(log[..n], step);
      }
    }
  }

  /** The controller accepts a next message exactly when the grammar allows it. */
  lemma AcceptsExactlyTheGrammar(log: seq<Message>, subject: Subject, m: Message)
    requires Lawful(log, subject)
    ensures Answer(log, subject, m) == Accepted <==> Lawful(log + [m], subject)
  {
    LawfulAppend(log, subject, m);
    if m.subject == subject && m.sequence as int == |log| + 1 {
      AllowedIffNotRefused(log, subject, m.body);
    }
  }

  /** The state read as facts about the log. */
  lemma StateMeans(log: seq<Message>, subject: Subject)
    requires Lawful(log, subject) && log != []
    ensures var state := StateOf(log);
            && state != Created
            && (IsTerminal(state) <==> Ends(log[|log| - 1].body))
            && (!IsTerminal(state) ==>
                  && (state == Ready <==> log[|log| - 1].body.ArtifactReady?) && (state == Ready <==> !Unannounced(log))
                  && (state == Offline <==> !Online(log))
                  && (state == Cancelling <==> Online(log) && Unannounced(log) && Requested(log))
                  && (state == Active <==> Online(log) && Unannounced(log) && !Requested(log)))
    ensures (exists j :: 0 <= j < |log| && Ends(log[j].body)) <==> IsTerminal(StateOf(log))
  {
    LatestTells(log, subject);
  }

  lemma AllowedIffNotRefused(log: seq<Message>, subject: Subject, b: Body)
    requires Lawful(log, subject)
    ensures MayFollow(log, b) <==> !IsTerminal(StateOf(log)) && Refusal(StateOf(log), LastStep(log), |log|, b) == None
  {
    if log != [] {
      StateMeans(log, subject);
      if StepOf(b).Some? {
        LatestStepIsLargest(log, subject, StepOf(b).value);
      }
    }
  }

  // ---------------------------------------------------------------- whole runs of calls

  /** The log after any calls, refused ones included. */
  ghost function LogAfter(log: seq<Message>, subject: Subject, calls: seq<Message>): seq<Message>
    decreases |calls|
  {
    if calls == [] then log
    else LogAfter(if Answer(log, subject, calls[0]) == Accepted then log + [calls[0]] else log, subject, calls[1..])
  }

  /** Whatever is called, the log only grows and stays lawful. */
  lemma {:induction false} EveryRunIsLawful(log: seq<Message>, subject: Subject, calls: seq<Message>)
    requires Lawful(log, subject)
    ensures Lawful(LogAfter(log, subject, calls), subject)
    ensures log <= LogAfter(log, subject, calls)
    decreases |calls|
  {
    if calls != [] {
      AcceptsExactlyTheGrammar(log, subject, calls[0]);
      var next := if Answer(log, subject, calls[0]) == Accepted then log + [calls[0]] else log;
      EveryRunIsLawful(next, subject, calls[1..]);
    }
  }

  /** Every lawful log is reached by sending its messages: reconstruction gives back the same log. */
  lemma {:induction false} ReplayRebuilds(log: seq<Message>, subject: Subject, n: nat)
    requires Lawful(log, subject) && n <= |log|
    ensures LogAfter(log[..n], subject, log[n..]) == log
    ensures forall i | n <= i < |log| :: Answer(log[..i], subject, log[i]) == Accepted
    decreases |log| - n
  {
    if n == |log| {
      assert log[..n] == log;
    } else {
      assert log[n..][0] == log[n] && log[n..][1..] == log[n + 1..] && log[..n] + [log[n]] == log[..n + 1];
      LawfulPrefix(log, subject, n);
      LawfulPrefix(log, subject, n + 1);
      AcceptsExactlyTheGrammar(log[..n], subject, log[n]);
      ReplayRebuilds(log, subject, n + 1);
    }
  }

  /** A message already in the log may be sent again at any later time: it changes nothing. */
  lemma ReplayIsAccepted(log: seq<Message>, subject: Subject, calls: seq<Message>, i: nat)
    requires Lawful(log, subject) && i < |log|
    ensures Answer(LogAfter(log, subject, calls), subject, log[i]) == Replayed
  {
    EveryRunIsLawful(log, subject, calls);
    assert LogAfter(log, subject, calls)[i] == log[i] && LawfulAt(log, subject, i);
  }

  // ---------------------------------------------------------------- what every accepted history satisfies

  /** A completed run was launched, announced its artifact in the message before, and never had a
      cancellation request, whatever disconnections lie between. */
  lemma CompletedHistory(log: seq<Message>, subject: Subject)
    requires Lawful(log, subject) && StateOf(log) == WasCompleted
    ensures |log| >= 3 && log[0].body == Launched
    ensures log[|log| - 2].body.ArtifactReady? && Announced(log) == Some(log[|log| - 2].body.bundle)
    ensures !Requested(log) && Online(log)
  {
    var n := |log| - 1;
    assert LawfulAt(log, subject, n) && log == log[..n] + [log[n]] && log[..n][n - 1] == log[n - 1];
    Extended(log[..n], log[n]);
    LawfulPrefix(log, subject, n);
    ArtifactHistory(log[..n], subject);
    assert log[..n][0] == log[0];
  }

  /** When the artifact is announced the run was launched, is online and was never asked to stop. */
  lemma ArtifactHistory(log: seq<Message>, subject: Subject)
    requires Lawful(log, subject) && log != [] && log[|log| - 1].body.ArtifactReady?
    ensures |log| >= 2 && log[0].body == Launched && !Requested(log) && Online(log)
    ensures Announced(log) == Some(log[|log| - 1].body.bundle)
  {
    var n := |log| - 1;
    assert LawfulAt(log, subject, n) && log == log[..n] + [log[n]];
    Extended(log[..n], log[n]);
    assert LawfulAt(log, subject, 0);
  }

  /** A cancelled run had a request, and after the request only activity, disconnections and
      reconnections. */
  lemma CancelledHistory(log: seq<Message>, subject: Subject)
    requires Lawful(log, subject) && StateOf(log) == WasCancelled
    ensures log[0].body == Launched
    ensures exists j :: 0 < j < |log| - 1 && log[j].body.CancellationRequested?
    ensures Announced(log) == None && Online(log)
  {
    var n := |log| - 1;
    var before := log[..n];
    assert LawfulAt(log, subject, n) && log == before + [log[n]];
    var j :| 0 <= j < n && before[j].body.CancellationRequested?;
    assert log[j] == before[j] && LawfulAt(log, subject, 0);
    assert log[j].body.CancellationRequested?;
    Extended(before, log[n]);
    NothingAnnounced(log);
  }

  lemma {:induction false} NothingAnnounced(log: seq<Message>)
    ensures Announced(log) == None <==> Unannounced(log)
  {
    if log != [] {
      NothingAnnounced(log[..|log| - 1]);
      assert log == log[..|log| - 1] + [log[|log| - 1]];
      Extended(log[..|log| - 1], log[|log| - 1]);
    }
  }

  /** Steps never go back. */
  lemma StepsNeverRegress(log: seq<Message>, subject: Subject, i: nat, j: nat)
    requires Lawful(log, subject) && i < j < |log|
    requires StepOf(log[i].body).Some? && StepOf(log[j].body).Some?
    ensures StepOf(log[i].body).value <= StepOf(log[j].body).value
  {
    assert LawfulAt(log, subject, j) && log[..j][i] == log[i];
  }

  /** At most one cancellation request, at most one artifact, and never both. */
  lemma OneRequestOrArtifact(log: seq<Message>, subject: Subject, i: nat, j: nat)
    requires Lawful(log, subject) && i < j < |log|
    requires log[i].body.CancellationRequested? || log[i].body.ArtifactReady?
    ensures !log[j].body.CancellationRequested? && !log[j].body.ArtifactReady?
  {
    assert LawfulAt(log, subject, j) && log[..j][i] == log[i];
  }

  // ---------------------------------------------------------------- one message later

  function NextState(state: State, saved: Option<State>, b: Body): State {
    match b
    case Launched => Active
    case CancellationRequested => Cancelling
    case Disconnected(_) => Offline
    case Reconnected(_) => if saved.Some? then saved.value else state
    case ArtifactReady(_) => Ready
    case Completed => WasCompleted
    case Cancelled => WasCancelled
    case Interrupted => WasInterrupted
    case Failed => HasFailed
    case _ => state
  }

  function NextSaved(state: State, saved: Option<State>, b: Body): Option<State> {
    if b.Disconnected? then Some(state) else if b.Reconnected? then None else saved
  }

  /** The state and the saved state after one more message. */
  lemma StateExtended(log: seq<Message>, subject: Subject, m: Message)
    requires Lawful(log, subject) && MayFollow(log, m.body)
    ensures StateOf(log + [m]) == NextState(StateOf(log), Saved(log), m.body)
    ensures Saved(log + [m]) == NextSaved(StateOf(log), Saved(log), m.body)
  {
    Extended(log, m);
    if log != [] {
      LatestTells(log, subject);
    }
  }

  /** While offline the saved state is active or cancelling: reconnecting always finds one. */
  lemma OfflineHasSavedState(log: seq<Message>, subject: Subject)
    requires Lawful(log, subject) && StateOf(log) == Offline
    ensures Saved(log) == Some(Active) || Saved(log) == Some(Cancelling)
  {
  }

  lemma CountsExtended(log: seq<Message>, m: Message)
    ensures LastStep(log + [m]) == (if StepOf(m.body).Some? then StepOf(m.body).value else LastStep(log))
    ensures Announced(log + [m]) == (if m.body.ArtifactReady? then Some(m.body.bundle) else Announced(log))
    ensures Terminal(log + [m]) == (if Ends(m.body) then Some(m) else None)
    ensures Count(log + [m], Heartbeats()) == Count(log, Heartbeats()) + (if m.body.Heartbeat? then 1 else 0)
    ensures Count(log + [m], Checkpoints()) == Count(log, Checkpoints()) + (if m.body.Checkpoint? then 1 else 0)
    ensures Count(log + [m], Metrics()) == Count(log, Metrics()) + (if m.body.Metric? then 1 else 0)
  {
    assert (log + [m])[..|log|] == log && (log + [m])[|log|] == m;
  }

  lemma TerminalExtended(log: seq<Message>, subject: Subject, m: Message)
    requires Lawful(log, subject) && MayFollow(log, m.body)
    ensures Terminal(log) == None
    ensures Terminal(log + [m]) == if IsTerminal(StateOf(log + [m])) then Some(m) else None
  {
  }

  // ---------------------------------------------------------------- the controller itself

  class SerializedRunController {
    const subject: Subject
    var state: State
    var lastSequence: nat
    var lastStep: nat
    var heartbeats: nat
    var checkpoints: nat
    var metrics: nat
    var artifact: Option<string>
    var terminal: Option<Message>
    var messages: map<int, Message>
    var beforeDisconnect: Option<State>

    ghost predicate Numbered() reads this {
      forall n :: n in messages <==> 1 <= n <= lastSequence
    }

    /** The messages in sequence order. */
    ghost function Messages(): (log: seq<Message>)
      reads this
      requires Numbered()
      ensures |log| == lastSequence && forall i | 0 <= i < |log| :: log[i] == messages[i + 1]
    {
      seq(lastSequence, i requires 0 <= i < lastSequence reads this requires Numbered() => messages[i + 1])
    }

    /** What the step sets is what the log says. */
    ghost predicate Reads(log: seq<Message>) reads this {
      && state == StateOf(log) && lastStep == LastStep(log)
      && heartbeats == Count(log, Heartbeats()) && checkpoints == Count(log, Checkpoints())
      && metrics == Count(log, Metrics())
      && artifact == Announced(log) && beforeDisconnect == Saved(log)
    }

    /** Every field is what the log says. */
    ghost predicate Reflects(log: seq<Message>) reads this {
      Reads(log) && lastSequence == |log| && terminal == Terminal(log)
    }

    ghost predicate Valid() reads this {
      Numbered() && Lawful(Messages(), subject) && Reflects(Messages())
    }

    constructor (subject: Subject)
      ensures Valid() && this.subject == subject && Messages() == []
    {
      this.subject := subject;
      state, lastSequence, lastStep, heartbeats, checkpoints, metrics := Created, 0, 0, 0, 0, 0;
      artifact, terminal, messages, beforeDisconnect := None, None, map[], None;
    }

    method TakeSnapshot() returns (s: Snapshot)
      requires Valid()
      ensures s == SnapshotOf(Messages(), subject)
    {
      s := Snapshot(subject, state, lastSequence, lastStep, heartbeats, checkpoints, metrics, artifact, terminal);
    }

    /** Accepts, replays or refuses; only an accepted message changes anything, and then exactly the log. */
    method Accept(m: Message) returns (r: Result<Snapshot>)
      requires Valid()
      modifies this
      ensures Valid()
      ensures match Answer(old(Messages()), subject, m)
              case Refused(code) => r == Err(code) && unchanged(this)
              case Replayed => r == Ok(SnapshotOf(Messages(), subject)) && unchanged(this)
              case Accepted => r == Ok(SnapshotOf(Messages(), subject)) && Messages() == old(Messages()) + [m]
    {
      ghost var log := Messages();
      if m.subject != subject {
        return Err("controller_message_subject_mismatch");
      }
      if m.sequence in messages {
        if messages[m.sequence] != m {
          return Err("controller_message_replay_conflict");
        }
        var current := TakeSnapshot();
        return Ok(current);
      }
      if m.sequence != lastSequence + 1 {
        return Err("controller_message_sequence_gap");
      }
      if IsTerminal(state) {
        return Err("controller_message_after_terminal");
      }
      var refusal := AcceptNext(m);
      if refusal.Some? {
        return Err(refusal.value);
      }
      var taken := TakeSnapshot();
      return Ok(taken);
    }

    /** The next message of a live run: the step, then the log. */
    method AcceptNext(m: Message) returns (refusal: Option<string>)
      requires Valid() && !IsTerminal(state) && m.subject == subject && m.sequence as int == lastSequence + 1
      modifies this
      ensures Valid()
      ensures refusal == Refusal(StateOf(old(Messages())), LastStep(old(Messages())), old(lastSequence), m.body)
      ensures refusal.Some? ==> unchanged(this)
      ensures refusal == None ==> Messages() == old(Messages()) + [m]
    {
      ghost var log := Messages();
      refusal := Transition(m);
      if refusal.Some? {
        return;
      }
      TerminalExtended(log, subject, m);
      LawfulAppend(log, subject, m);
      Store(m, log);
    }

    /** The message enters the log; one that ends the run is kept as its end. */
    method Store(m: Message, ghost log: seq<Message>)
      requires Numbered() && Messages() == log && Lawful(log + [m], subject) && Reads(log + [m])
      requires m.sequence as int == lastSequence + 1 && terminal == None
      requires Terminal(log + [m]) == if IsTerminal(state) then Some(m) else None
      modifies this`messages, this`lastSequence, this`terminal
      ensures Valid() && Messages() == log + [m]
    {
      Enter(m, log);
      if IsTerminal(state) {
        terminal := Some(m);
      }
      assert Messages() == log + [m];
    }

    method Enter(m: Message, ghost log: seq<Message>)
      requires Numbered() && Messages() == log && m.sequence as int == lastSequence + 1
      modifies this`messages, this`lastSequence
      ensures Numbered() && Messages() == log + [m]
    {
      messages := messages[m.sequence := m];
      lastSequence := m.sequence;
      assert Messages() == log + [m];
    }

    /** The state machine's step, field by field; the log itself is extended by the caller. */
    method Transition(m: Message) returns (refusal: Option<string>)
      requires Valid() && !IsTerminal(state)
      modifies this`state, this`lastStep, this`heartbeats, this`checkpoints, this`metrics, this`artifact,
               this`beforeDisconnect
      ensures refusal == Refusal(old(state), old(lastStep), lastSequence, m.body)
      ensures refusal.Some? ==> unchanged(this)
      ensures refusal == None ==> MayFollow(old(Messages()), m.body) && Reads(old(Messages()) + [m])
    {
      ghost var log := Messages();
      AllowedIffNotRefused(log, subject, m.body);
      CountsExtended(log, m);
      if Refusal(state, lastStep, lastSequence, m.body) == None {
        StateExtended(log, subject, m);
      }
      if m.body.Launched? {
        if state != Created {
          return Some("controller_duplicate_launch");
        }
        state := Active;
        return None;
      }
      if state == Created {
        return Some("controller_launch_missing");
      }
      if m.body.Progress? || m.body.Metric? || m.body.Checkpoint? || m.body.Log? || m.body.Heartbeat? {
        refusal := Activity(m.body);
      } else {
        if state == Offline {
          OfflineHasSavedState(log, subject);
        }
        refusal := Lifecycle(m.body);
      }
    }

    /** Cancellation, disconnection, the artifact and the ends of a run. */
    method Lifecycle(b: Body) returns (refusal: Option<string>)
      requires !(b.Launched? || b.Progress? || b.Metric? || b.Checkpoint? || b.Log? || b.Heartbeat?)
      requires state != Created
      requires state == Offline ==> beforeDisconnect == Some(Active) || beforeDisconnect == Some(Cancelling)
      modifies this`state, this`artifact, this`beforeDisconnect
      ensures refusal == Refusal(old(state), lastStep, lastSequence, b)
      ensures refusal.Some? ==> unchanged(this)
      ensures refusal == None ==> state == NextState(old(state), old(beforeDisconnect), b)
      ensures refusal == None ==> beforeDisconnect == NextSaved(old(state), old(beforeDisconnect), b)
      ensures refusal == None ==> artifact == if b.ArtifactReady? then Some(b.bundle) else old(artifact)
    {
      match b {
        case CancellationRequested =>
          if state != Active {
            return Some("controller_cancellation_invalid");
          }
          state := Cancelling;
          return None;
        case Disconnected(last) =>
          if state != Active && state != Cancelling {
            return Some("controller_disconnect_invalid");
          }
          if last != lastSequence {
            return Some("controller_disconnect_sequence_mismatch");
          }
          beforeDisconnect := Some(state);
          state := Offline;
          return None;
        case Reconnected(after) =>
          if state != Offline {
            return Some("controller_reconnect_invalid");
          }
          if after != lastSequence {
            return Some("controller_reconnect_sequence_mismatch");
          }
          assert beforeDisconnect == Some(Active) || beforeDisconnect == Some(Cancelling);
          state := beforeDisconnect.value;
          beforeDisconnect := None;
          return None;
        case ArtifactReady(bundle) =>
          if state != Active {
            return Some("controller_artifact_invalid");
          }
          artifact := Some(bundle);
          state := Ready;
          return None;
        case Completed =>
          if state != Ready {
            return Some("controller_completion_without_artifact");
          }
          state := WasCompleted;
          return None;
        case Cancelled =>
          if state != Cancelling {
            return Some("controller_cancelled_without_request");
          }
          state := WasCancelled;
          return None;
        case Interrupted =>
          if state != Active && state != Cancelling && state != Offline {
            return Some("controller_interruption_invalid");
          }
          state := WasInterrupted;
          return None;
        case Failed =>
          state := HasFailed;
          return None;
      }
    }

    /** Progress, metrics, checkpoints, logs and heartbeats: only while the run is active. */
    method Activity(b: Body) returns (refusal: Option<string>)
      requires b.Progress? || b.Metric? || b.Checkpoint? || b.Log? || b.Heartbeat?
      requires state != Created
      modifies this`lastStep, this`heartbeats, this`checkpoints, this`metrics
      ensures refusal == Refusal(state, old(lastStep), lastSequence, b)
      ensures refusal.Some? ==> unchanged(this)
      ensures refusal == None ==>
                && lastStep == (if StepOf(b).Some? then StepOf(b).value else old(lastStep))
                && heartbeats == old(heartbeats) + (if b.Heartbeat? then 1 else 0)
                && checkpoints == old(checkpoints) + (if b.Checkpoint? then 1 else 0)
                && metrics == old(metrics) + (if b.Metric? then 1 else 0)
    {
      if state != Active && state != Cancelling {
        return Some("controller_activity_in_invalid_state");
      }
      if b.Progress? {
        if b.step < lastStep {
          return Some("controller_progress_regressed");
        }
        lastStep := b.step;
      } else if b.Metric? {
        metrics := metrics + 1;
      } else if b.Checkpoint? {
        if b.checkpointStep < lastStep {
          return Some("controller_checkpoint_regressed");
        }
        lastStep := b.checkpointStep;
        checkpoints := checkpoints + 1;
      } else if b.Heartbeat? {
        heartbeats := heartbeats + 1;
      }
      return None;
    }
  }

  /** Rebuilding sends every message to a new controller; the first refused one stops it. */
  method Reconstruct(subject: Subject, messages: seq<Message>) returns (r: Result<SerializedRunController>)
    ensures r.Ok? ==> fresh(r.value) && r.value.Valid() && r.value.subject == subject
                      && r.value.Messages() == LogAfter([], subject, messages)
    ensures r.Ok? <==> forall n | 0 <= n < |messages| :: !AnswerTo(subject, messages, n).Refused?
  {
    var controller := new SerializedRunController(subject);
    assert messages[..0] == [];
    for n := 0 to |messages|
      invariant fresh(controller) && controller.Valid() && controller.subject == subject
      invariant controller.Messages() == LogAfter([], subject, messages[..n])
      invariant forall i | 0 <= i < n :: !AnswerTo(subject, messages, i).Refused?
    {
      CallOnceMore([], subject, messages, n);
      var answer := controller.Accept(messages[n]);
      if answer.Err? {
        assert AnswerTo(subject, messages, n).Refused?;
        return Err(answer.code);
      }
    }
    assert messages[..|messages|] == messages;
    return Ok(controller);
  }

  /** The answer to one of a sequence of messages sent to a new controller. */
  ghost function AnswerTo(subject: Subject, messages: seq<Message>, n: nat): Verdict
    requires n < |messages|
  {
    Answer(LogAfter([], subject, messages[..n]), subject, messages[n])
  }

  /** So a lawful log is rebuilt exactly, and with it the snapshot. */
  lemma LawfulLogIsRebuilt(log: seq<Message>, subject: Subject)
    requires Lawful(log, subject)
    ensures LogAfter([], subject, log) == log
    ensures forall n | 0 <= n < |log| :: AnswerTo(subject, log, n) == Accepted
  {
    assert log[..|log|] == log;
    RebuiltSoFar(log, subject, |log|);
    forall n | 0 <= n < |log| ensures AnswerTo(subject, log, n) == Accepted { RebuiltSoFar(log, subject, n); }
  }

  lemma {:induction false} CallOnceMore(log: seq<Message>, subject: Subject, calls: seq<Message>, n: nat)
    requires n < |calls|
    ensures var soFar := LogAfter(log, subject, calls[..n]);
            LogAfter(log, subject, calls[..n + 1]) ==
              if Answer(soFar, subject, calls[n]) == Accepted then soFar + [calls[n]] else soFar
    decreases n
  {
    if n > 0 {
      var next := if Answer(log, subject, calls[0]) == Accepted then log + [calls[0]] else log;
      assert calls[..n][1..] == calls[1..][..n - 1] && calls[..n + 1][1..] == calls[1..][..n];
      CallOnceMore(next, subject, calls[1..], n - 1);
    } else {
      assert calls[..1][1..] == [];
    }
  }

  lemma RebuiltSoFar(log: seq<Message>, subject: Subject, n: nat)
    requires Lawful(log, subject) && n <= |log|
    ensures LogAfter([], subject, log[..n]) == log[..n]
    ensures n < |log| ==> Answer(log[..n], subject, log[n]) == Accepted
  {
    LawfulPrefix(log, subject, n);
    ReplayRebuilds(log[..n], subject, 0);
    assert log[..n][..0] == [] && log[..n][0..] == log[..n];
    ReplayRebuilds(log, subject, n);
  }
}
