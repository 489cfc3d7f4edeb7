/** The workflow coordinator's evidence gate. Each command is a transaction on the stored state: it loads
    the state, works on it, validates it and writes it, and an error leaves it as it was. What worker,
    route and lease checks decide enters as an input of the command. */
module WorkflowGate {
  import opened Outcomes

  datatype Phase = Reconcile | Deliberate | Decide | Plan | Dispatch | Verify | Integrate | Close

  datatype Authorization =
    | Proposed | ReviewedWithCorrections | MaintainerAuthorized | ImplementationReady
    | Implementing | Verified | IntegrationAuthorized | Integrated

  datatype Identity = Commit(head: string) | Patch(patch: string)

  datatype VerificationRequest = VerificationRequest(finalGate: bool, details: string)

  datatype Verdict = Pass | Fail | Unknown | NonReusable

  /** A verification record; `audit` holds the category verdicts of a public-safety audit. */
  datatype Verification = Verification(task: string, reference: string, subject: Identity, request: VerificationRequest,
                                       status: Verdict, byRoot: bool, audit: Option<seq<Verdict>>, invalidated: bool,
                                       inputsKnown: bool, afterEvidenceLoss: bool, sequence: nat)

  datatype Bound = Bound(reference: string, request: VerificationRequest)

  datatype Handoff = Handoff(task: string, identity: Identity, decisions: seq<string>, verifications: seq<Bound>,
                             sequence: nat)

  datatype ReviewStatus = Required | RepairInProgress | Passed

  datatype Review = Review(task: string, status: ReviewStatus, repairs: nat, subject: Identity, sequence: nat,
                           completed: Option<nat>)

  /** The registered tasks, and which of them need a review: fixed by their class and triggers. */
  datatype State = State(phase: Phase, authorization: Authorization, tasks: map<string, bool>, handoffs: seq<Handoff>,
                         reviews: seq<Review>, verifications: seq<Verification>, sequence: nat)

  // ---------------------------------------------------------------- the phase table

  function Allowed(from: Phase): set<Phase> {
    match from
    case Reconcile => {Deliberate}
    case Deliberate => {Decide}
    case Decide => {Plan}
    case Plan => {Dispatch}
    case Dispatch => {Verify, Reconcile}
    case Verify => {Plan, Integrate, Reconcile}
    case Integrate => {Plan, Verify, Decide, Reconcile, Close}
    case Close => {}
  }

  function PhasesOf(a: Authorization): set<Phase> {
    match a
    case Proposed => {Reconcile}
    case ReviewedWithCorrections => {Reconcile}
    case MaintainerAuthorized => {Reconcile, Deliberate, Decide, Plan}
    case ImplementationReady => {Plan, Dispatch}
    case Implementing => {Dispatch, Verify}
    case Verified => {Verify}
    case IntegrationAuthorized => {Integrate}
    case Integrated => {Close}
  }

  // ---------------------------------------------------------------- looking evidence up

  function LatestHandoff(s: seq<Handoff>, key: string): Option<Handoff> {
    if s == [] then None
    else if s[|s| - 1].task == key then Some(s[|s| - 1])
    else LatestHandoff(s[..|s| - 1], key)
  }

  function ReviewFor(s: seq<Review>, key: string): Option<Review> {
    if s == [] then None else if s[0].task == key then Some(s[0]) else ReviewFor(s[1..], key)
  }

  function LatestWhere(s: seq<Verification>, fits: Verification -> bool): Option<Verification> {
    if s == [] then None
    else if fits(s[|s| - 1]) then Some(s[|s| - 1])
    else LatestWhere(s[..|s| - 1], fits)
  }

  function Matching(key: string, subject: Identity, request: VerificationRequest): Verification -> bool {
    (v: Verification) => v.task == key && v.subject == subject && v.request == request
  }

  function FinalGates(key: string, subject: Identity): Verification -> bool {
    (v: Verification) => v.task == key && v.subject == subject && v.request.finalGate
  }

  function SafetyAudits(key: string, subject: Identity): Verification -> bool {
    (v: Verification) => v.task == key && v.subject == subject && v.audit.Some?
  }

  predicate Reusable(v: Verification, subject: Identity, request: VerificationRequest) {
    v.status == Pass && v.subject == subject && !v.invalidated && v.request == request && v.inputsKnown
  }

  predicate BoundTo(h: Handoff, v: Verification) {
    v.task == h.task && v.subject == h.identity && Bound(v.reference, v.request) in h.verifications
  }

  function CompletedAt(r: Option<Review>): nat {
    match r
    case None => 0
    case Some(review) => if review.completed.Some? then review.completed.value else review.sequence
  }

  /** The latest final gate of the candidate, if it is root's, later than the handoff and the review, and
      the latest verification of its own request. */
  function LatestGate(s: State, key: string, h: Handoff, r: Option<Review>): Option<Verification> {
    match LatestWhere(s.verifications, FinalGates(key, h.identity))
    case None => None
    case Some(gate) =>
      if LatestWhere(s.verifications, Matching(key, h.identity, gate.request)) != Some(gate) then None
      else if gate.sequence <= h.sequence || gate.sequence <= CompletedAt(r) || !gate.byRoot then None
      else Some(gate)
  }

  function LatestSafety(s: State, key: string, h: Handoff, after: nat): Option<Verification> {
    match LatestWhere(s.verifications, SafetyAudits(key, h.identity))
    case None => None
    case Some(audit) =>
      if LatestWhere(s.verifications, Matching(key, h.identity, audit.request)) != Some(audit) then None
      else if audit.sequence <= after || !audit.byRoot then None
      else Some(audit)
  }

  predicate Current(v: Option<Verification>) {
    v.Some? && v.value.status == Pass && !v.value.invalidated
  }

  // ---------------------------------------------------------------- commands

  datatype Command =
    | Transition(target: Phase)
    | AuthorizeMaintainer(byMaintainer: bool)
    | AuthorizeIntegration(byMaintainer: bool, task: string, identity: Identity, decision: string, reference: string,
                           request: VerificationRequest)
    | RegisterTask(name: string, needsReview: bool)
    | AcquireOwnership(granted: bool)
    | IngestHandoff(handoff: Handoff, workerActive: bool)
    | RecordVerification(record: Verification)
    | RecordEvidence
    | Advance(key: string, ambiguousSpawn: bool, canStart: bool, reviewStatus: Option<string>,
              requested: VerificationRequest)

  const REFUSED := "workflow_error"

  function Move(s: State, target: Phase): Result<State> {
    if target !in Allowed(s.phase) || target == Integrate || target !in PhasesOf(s.authorization) then Err(REFUSED)
    else Ok(s.(phase := target))
  }

  /** The verdict an audit's categories amount to. */
  function Summary(categories: seq<Verdict>): Verdict {
    if Fail in categories then Fail
    else if Unknown in categories then Unknown
    else if NonReusable in categories then NonReusable
    else Pass
  }

  const CATEGORIES := 5

  predicate AuditHolds(v: Verification) {
    v.audit.Some? ==> |v.audit.value| == CATEGORIES && v.status == Summary(v.audit.value)
  }

  /** Everything the maintainer's integration decision rests on. */
  function IntegrationRefusal(s: State, key: string, identity: Identity, decision: string, reference: string,
                              request: VerificationRequest): bool {
    if s.phase != Verify || s.authorization != Verified || key !in s.tasks then true
    else
      match LatestHandoff(s.handoffs, key)
      case None => true
      case Some(h) =>
        var found := LatestWhere(s.verifications, Matching(key, identity, request));
        var review := ReviewFor(s.reviews, key);
        if identity != h.identity || decision !in h.decisions then true
        else if found == None || found.value.reference != reference
                || !Reusable(found.value, identity, request)
        then true
        else if !BoundTo(h, found.value) then true
        else if s.tasks[key] && review == None then true
        else if review.Some? && (review.value.status != Passed || review.value.subject != identity) then true
        else
          var gate := LatestGate(s, key, h, review);
          !Current(gate) || !Current(LatestSafety(s, key, h, gate.value.sequence))
  }

  /** A gate may be recorded once per candidate, and again only when all earlier ones lost their evidence. */
  predicate MayRepeat(v: Verification, earlier: seq<Verification>) {
    forall e | e in earlier && e.task == v.task && e.subject == v.subject && e.request.finalGate ::
             e.invalidated && v.afterEvidenceLoss
  }

  function VerificationRefusal(s: State, v: Verification): bool {
    if s.phase != Verify || (s.authorization != Implementing && s.authorization != Verified)
       || v.task !in s.tasks
    then true
    else if !AuditHolds(v) then true
    else if (v.request.finalGate || v.audit.Some?) && !v.byRoot then true
    else if v.request.finalGate && GateRefusal(s, v) then true
    else
      exists e | e in s.verifications ::
        e.reference == v.reference && !(e.task == v.task && e.subject == v.subject && e.request == v.request)
  }

  function GateRefusal(s: State, v: Verification): bool {
    var h, review := LatestHandoff(s.handoffs, v.task), ReviewFor(s.reviews, v.task);
    || h == None || h.value.identity != v.subject
    || (v.task in s.tasks && s.tasks[v.task]
        && (review == None || review.value.status != Passed || review.value.subject != v.subject))
    || !MayRepeat(v, s.verifications)
  }

  /** A verification the handoff names is the newest of its request and reusable. */
  predicate NamedAndReusable(vs: seq<Verification>, h: Handoff, b: Bound) {
    var latest := LatestWhere(vs, Matching(h.task, h.identity, b.request));
    latest.Some? && Reusable(latest.value, h.identity, b.request) && BoundTo(h, latest.value)
  }

  /** Looking back, some task's latest handoff has such a verification. */
  predicate HandoffVerified(vs: seq<Verification>, handoffs: seq<Handoff>, seen: set<string>)
    decreases |handoffs|
  {
    handoffs != [] &&
    var h, rest := handoffs[|handoffs| - 1], handoffs[..|handoffs| - 1];
    if h.task in seen then HandoffVerified(vs, rest, seen)
    else (exists b | b in h.verifications :: NamedAndReusable(vs, h, b)) || HandoffVerified(vs, rest, seen + {h.task})
  }

  /** Recording a verification decides anew whether the candidate is verified. */
  function Refresh(s: State): State {
    if s.phase != Verify || (s.authorization != Implementing && s.authorization != Verified) then s
    else s.(authorization := if HandoffVerified(s.verifications, s.handoffs, {}) then Verified else Implementing)
  }

  function Repair(s: State): Result<State> {
    if Plan !in Allowed(s.phase) then Err(REFUSED) else Ok(s.(phase := Plan, authorization := MaintainerAuthorized))
  }

  /** The review of a task put in place of the old one. */
  function WithReview(reviews: seq<Review>, r: Review): seq<Review> {
    if reviews == [] then []
    else if reviews[0].task == r.task then [r] + reviews[1..]
    else [reviews[0]] + WithReview(reviews[1..], r)
  }

  /** In VERIFY: review first, then the gate, then the audit; failures send the task back to repair. */
  function AdvanceVerify(s: State, key: string, reviewStatus: Option<string>,
                         requested: VerificationRequest): Result<State>
    requires key in s.tasks
  {
    match LatestHandoff(s.handoffs, key)
    case None => Ok(s)
    case Some(h) =>
      var found := LatestWhere(s.verifications, Matching(key, h.identity, requested));
      if found == None || !Reusable(found.value, h.identity, requested) || s.authorization != Verified
         || !BoundTo(h, found.value)
      then Ok(s)
      else
        var review := ReviewFor(s.reviews, key);
        if !s.tasks[key] then AdvanceGate(s, key, h, review)
        else if review == None then
          var asked := Review(key, Required, 0, h.identity, s.sequence + 1, None);
          Ok(s.(reviews := s.reviews + [asked], sequence := s.sequence + 1))
        else AdvanceReview(s, key, h, review.value, reviewStatus)
  }

  /** A review under repair starts again when there is a new subject. */
  function Retargeted(found: Review, h: Handoff): Review {
    if found.status == RepairInProgress && found.subject != h.identity
    then found.(subject := h.identity, status := Required)
    else found
  }

  function AdvanceReview(s: State, key: string, h: Handoff, found: Review,
                         reviewStatus: Option<string>): Result<State> {
    var review := Retargeted(found, h);
    match reviewStatus
    case None =>
      var t := s.(reviews := WithReview(s.reviews, review));
      if review.status != Passed then Ok(t) else AdvanceGate(t, key, h, Some(review))
    case Some(answer) =>
      if answer == "PASS" then PassReview(s, key, h, review)
      else if answer == "REPAIR_REQUIRED" then
        Repair(s.(reviews := WithReview(s.reviews, review.(repairs := review.repairs + 1, status := RepairInProgress))))
      else Err(REFUSED)
  }

  function PassReview(s: State, key: string, h: Handoff, review: Review): Result<State> {
    if review.status == Passed then AdvanceGate(s.(reviews := WithReview(s.reviews, review)), key, h, Some(review))
    else
      var passed := review.(status := Passed, completed := Some(s.sequence + 1));
      AdvanceGate(s.(reviews := WithReview(s.reviews, passed), sequence := s.sequence + 1), key, h, Some(passed))
  }

  function AdvanceGate(s: State, key: string, h: Handoff, review: Option<Review>): Result<State> {
    var gate := LatestGate(s, key, h, review);
    if !Current(gate) then RepairIfFailed(s, gate, review)
    else
      var audit := LatestSafety(s, key, h, gate.value.sequence);
      if !Current(audit) then RepairIfFailed(s, audit, review) else Ok(s)
  }

  function RepairIfFailed(s: State, v: Option<Verification>, review: Option<Review>): Result<State> {
    if v.Some? && v.value.status == Fail && !v.value.invalidated then
      Repair(if review.Some? then s.(reviews := WithReview(s.reviews, review.value.(status := RepairInProgress)))
             else s)
    else Ok(s)
  }

  /** From reconciliation to planning without a stop. */
  function ToPlan(s: State): Result<State>
    decreases match s.phase case Reconcile => 3 case Deliberate => 2 case Decide => 1 case _ => 0
  {
    match s.phase
    case Reconcile => if Move(s, Deliberate).Ok? then ToPlan(Move(s, Deliberate).value) else Err(REFUSED)
    case Deliberate => if Move(s, Decide).Ok? then ToPlan(Move(s, Decide).value) else Err(REFUSED)
    case Decide => Move(s, Plan)
    case _ => Ok(s)
  }

  function ApplyAdvance(s: State, c: Command): Result<State>
    requires c.Advance?
  {
    if s.phase == Integrate || s.phase == Close then Ok(s)
    else if s.authorization !in {MaintainerAuthorized, ImplementationReady, Implementing, Verified}
            || c.ambiguousSpawn
    then Ok(s)
    else if c.key !in s.tasks then Err(REFUSED)
    else if s.phase == Dispatch then if c.canStart then Ok(s) else Err(REFUSED)
    else if s.phase == Verify then AdvanceVerify(s, c.key, c.reviewStatus, c.requested)
    else
      match ToPlan(s)
      case Err(code) => Err(code)
      case Ok(t) =>
        if t.authorization != ImplementationReady then Ok(t)
        else if !c.canStart || Move(t, Dispatch).Err? then Err(REFUSED)
        else Ok(Move(t, Dispatch).value.(authorization := Implementing))
  }

  function Apply(s: State, c: Command): Result<State> {
    match c
    case Transition(target) => Move(s, target)
    case AuthorizeMaintainer(byMaintainer) =>
      if !byMaintainer || s.phase != Reconcile
         || s.authorization !in {Proposed, ReviewedWithCorrections, MaintainerAuthorized}
      then Err(REFUSED)
      else Ok(s.(authorization := MaintainerAuthorized))
    case AuthorizeIntegration(byMaintainer, key, identity, decision, reference, request) =>
      if !byMaintainer || IntegrationRefusal(s, key, identity, decision, reference, request) then Err(REFUSED)
      else Ok(s.(phase := Integrate, authorization := IntegrationAuthorized))
    case RegisterTask(name, needsReview) =>
      if s.phase != Reconcile || s.authorization != MaintainerAuthorized || name in s.tasks then Err(REFUSED)
      else Ok(s.(tasks := s.tasks[name := needsReview]))
    case AcquireOwnership(granted) =>
      if (s.authorization != MaintainerAuthorized && s.authorization != ImplementationReady)
         || s.phase != Plan || !granted
      then Err(REFUSED)
      else Ok(s.(authorization := ImplementationReady))
    case IngestHandoff(handoff, workerActive) =>
      if s.phase != Dispatch || s.authorization != Implementing || handoff.task !in s.tasks || !workerActive then
        Err(REFUSED)
      else
        Move(s.(handoffs := s.handoffs + [handoff.(sequence := s.sequence + 1)], sequence := s.sequence + 1), Verify)
    case RecordVerification(v) =>
      if VerificationRefusal(s, v) then Err(REFUSED)
      else
        var recorded := s.verifications + [v.(sequence := s.sequence + 1)];
        Ok(Refresh(s.(verifications := recorded, sequence := s.sequence + 1)))
    case RecordEvidence => Ok(s.(sequence := s.sequence + 1))
    case Advance(_, _, _, _, _) => ApplyAdvance(s, c)
  }

  function ValueOf(i: Identity): string { match i case Commit(head) => head case Patch(patch) => patch }

  /** The stored-state validation: phase and authorization agree, gates are not repeated, and one review a
      task. Its gate check compares only the text of the subject. */
  predicate Validates(s: State) {
    && s.phase in PhasesOf(s.authorization)
    && (forall i | 0 <= i < |s.verifications| && s.verifications[i].request.finalGate ::
          GateRepeatsWell(s.verifications, i))
    && (forall i, j | 0 <= i < j < |s.reviews| :: s.reviews[i].task != s.reviews[j].task)
  }

  predicate GateRepeatsWell(vs: seq<Verification>, i: nat)
    requires i < |vs|
  {
    forall j | 0 <= j < i && vs[j].request.finalGate && vs[j].task == vs[i].task
           && ValueOf(vs[j].subject) == ValueOf(vs[i].subject) ::
      vs[j].invalidated && vs[i].afterEvidenceLoss
  }

  /** One command as a transaction. */
  function Execute(s: State, c: Command): State {
    match Apply(s, c)
    case Err(_) => s
    case Ok(t) => if Validates(t) then t else s
  }

  function ExecuteAll(s: State, cs: seq<Command>): State
    decreases |cs|
  {
    if cs == [] then s else ExecuteAll(Execute(s, cs[0]), cs[1..])
  }

  // ---------------------------------------------------------------- what every state keeps

  /** Stored sequence numbers rise and never exceed the counter; audits are consistent. */
  ghost predicate Numbered(s: State) {
    && (forall i | 0 <= i < |s.verifications| ::
          1 <= s.verifications[i].sequence <= s.sequence && AuditHolds(s.verifications[i]))
    && (forall i, j | 0 <= i < j < |s.verifications| :: s.verifications[i].sequence < s.verifications[j].sequence)
    && (forall i | 0 <= i < |s.handoffs| :: 1 <= s.handoffs[i].sequence <= s.sequence)
    && (forall i, j | 0 <= i < j < |s.handoffs| :: s.handoffs[i].sequence < s.handoffs[j].sequence)
  }

  ghost predicate Newest(s: State, fits: Verification -> bool, v: Verification) {
    v in s.verifications && fits(v) && forall x | x in s.verifications && fits(x) :: x.sequence <= v.sequence
  }

  ghost predicate Passing(v: Verification) { v.byRoot && v.status == Pass && !v.invalidated }

  /** The latest handoff of the task. */
  ghost predicate Assembled(s: State, key: string, h: Handoff) {
    h in s.handoffs && h.task == key && forall x | x in s.handoffs && x.task == key :: x.sequence <= h.sequence
  }

  /** Every review of the task passed on this subject, and there is one if the task needs it. */
  ghost predicate Reviewed(s: State, key: string, subject: Identity) {
    && key in s.tasks
    && (s.tasks[key] ==> exists r :: r in s.reviews && r.task == key)
    && (forall r | r in s.reviews && r.task == key :: r.status == Passed && r.subject == subject)
  }

  /** The evidence for integrating a task's latest handoff: a root gate that passed after the handoff and
      after every review of the task, then a root safety audit that passed in every category, both the
      newest of their kind, and all on one identity. */
  ghost predicate Evidenced(s: State, key: string, h: Handoff, gate: Verification, audit: Verification) {
    && Assembled(s, key, h) && Reviewed(s, key, h.identity)
    && Newest(s, FinalGates(key, h.identity), gate) && Passing(gate)
    && Newest(s, SafetyAudits(key, h.identity), audit) && Passing(audit)
    && Newest(s, Matching(key, h.identity, audit.request), audit)
    && (forall x | x in audit.audit.value :: x == Pass)
    && h.sequence < gate.sequence < audit.sequence
    && (forall r | r in s.reviews && r.task == key :: CompletedAt(Some(r)) < gate.sequence)
  }

  ghost predicate Integrable(s: State) {
    exists key, h, gate, audit :: Evidenced(s, key, h, gate, audit)
  }

  ghost predicate Safe(s: State) {
    Numbered(s) && Validates(s) && s.phase != Close && (s.phase == Integrate ==> Integrable(s))
  }

  // ---------------------------------------------------------------- lookups find the newest

  lemma {:induction false} LatestHandoffIs(s: State, n: nat, key: string)
    requires Numbered(s) && n <= |s.handoffs|
    ensures match LatestHandoff(s.handoffs[..n], key)
            case None => forall x | x in s.handoffs[..n] :: x.task != key
            case Some(h) =>
              h in s.handoffs[..n] && h.task == key
              && forall x | x in s.handoffs[..n] && x.task == key :: x.sequence <= h.sequence
    decreases n
  {
    if n > 0 {
      LatestHandoffIs(s, n - 1, key);
      assert s.handoffs[..n][..n - 1] == s.handoffs[..n - 1];
      assert s.handoffs[..n] == s.handoffs[..n - 1] + [s.handoffs[n - 1]];
      forall x | x in s.handoffs[..n - 1] ensures x.sequence < s.handoffs[n - 1].sequence {
        var i :| 0 <= i < n - 1 && s.handoffs[..n - 1][i] == x;
      }
    }
  }

  lemma {:induction false} LatestWhereIs(s: State, n: nat, fits: Verification -> bool)
    requires Numbered(s) && n <= |s.verifications|
    ensures match LatestWhere(s.verifications[..n], fits)
            case None => forall x | x in s.verifications[..n] :: !fits(x)
            case Some(v) =>
              v in s.verifications[..n] && fits(v)
              && forall x | x in s.verifications[..n] && fits(x) :: x.sequence <= v.sequence
    decreases n
  {
    if n > 0 {
      LatestWhereIs(s, n - 1, fits);
      assert s.verifications[..n][..n - 1] == s.verifications[..n - 1];
      assert s.verifications[..n] == s.verifications[..n - 1] + [s.verifications[n - 1]];
      forall x | x in s.verifications[..n - 1] ensures x.sequence < s.verifications[n - 1].sequence {
        var i :| 0 <= i < n - 1 && s.verifications[..n - 1][i] == x;
      }
    }
  }

  /** A lookup gives exactly the newest record that fits. */
  lemma NewestIsFound(s: State, fits: Verification -> bool, v: Verification)
    requires Numbered(s)
    ensures LatestWhere(s.verifications, fits) == Some(v) <==> Newest(s, fits, v)
  {
    var n := |s.verifications|;
    assert s.verifications[..n] == s.verifications;
    LatestWhereIs(s, n, fits);
    if Newest(s, fits, v) && LatestWhere(s.verifications, fits).Some? {
      SameSequence(s, v, LatestWhere(s.verifications, fits).value);
    }
  }

  lemma SameSequence(s: State, v: Verification, w: Verification)
    requires Numbered(s) && v in s.verifications && w in s.verifications && v.sequence == w.sequence
    ensures v == w
  {
    var i :| 0 <= i < |s.verifications| && s.verifications[i] == v;
    var j :| 0 <= j < |s.verifications| && s.verifications[j] == w;
  }

  lemma AssembledIsFound(s: State, key: string, h: Handoff)
    requires Numbered(s)
    ensures LatestHandoff(s.handoffs, key) == Some(h) <==> Assembled(s, key, h)
  {
    var n := |s.handoffs|;
    assert s.handoffs[..n] == s.handoffs;
    LatestHandoffIs(s, n, key);
    if Assembled(s, key, h) && LatestHandoff(s.handoffs, key).Some? {
      var g := LatestHandoff(s.handoffs, key).value;
      var i :| 0 <= i < n && s.handoffs[i] == h;
      var j :| 0 <= j < n && s.handoffs[j] == g;
    }
  }

  lemma {:induction false} ReviewForIs(s: seq<Review>, key: string)
    requires forall i, j | 0 <= i < j < |s| :: s[i].task != s[j].task
    ensures match ReviewFor(s, key)
            case None => forall r | r in s :: r.task != key
            case Some(found) => found in s && found.task == key && forall r | r in s && r.task == key :: r == found
  {
    if s != [] && s[0].task != key {
      ReviewForIs(s[1..], key);
      assert s == [s[0]] + s[1..];
    }
  }

  // ---------------------------------------------------------------- the integration decision is exact

  /** The verification the maintainer names: the newest of its request, reusable, and named by the handoff. */
  ghost predicate NamedVerification(s: State, key: string, h: Handoff, reference: string,
                                    request: VerificationRequest, v: Verification) {
    Newest(s, Matching(key, h.identity, request), v) && v.reference == reference && Sound(v) && BoundTo(h, v)
  }

  /** A verification that passed, lost no evidence and knows its inputs. */
  ghost predicate Sound(v: Verification) { v.status == Pass && !v.invalidated && v.inputsKnown }

  lemma GateIsFound(s: State, key: string, h: Handoff, gate: Verification)
    requires Numbered(s) && Validates(s) && Assembled(s, key, h)
    ensures var r := ReviewFor(s.reviews, key);
            (LatestGate(s, key, h, r) == Some(gate) && Current(Some(gate))) <==>
            && Newest(s, FinalGates(key, h.identity), gate) && Passing(gate) && h.sequence < gate.sequence
            && (forall x | x in s.reviews && x.task == key :: CompletedAt(Some(x)) < gate.sequence)
  {
    NewestIsFound(s, FinalGates(key, h.identity), gate);
    NewestIsFound(s, Matching(key, h.identity, gate.request), gate);
    ReviewForIs(s.reviews, key);
    GatesByRequest(s, key, h.identity, gate);
    var i :| 0 <= i < |s.handoffs| && s.handoffs[i] == h;
  }

  /** The newest gate is the newest of its own request as well. */
  lemma GatesByRequest(s: State, key: string, subject: Identity, gate: Verification)
    ensures Newest(s, FinalGates(key, subject), gate) ==> Newest(s, Matching(key, subject, gate.request), gate)
  {
  }
}
