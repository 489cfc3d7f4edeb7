/** What advancing does in VERIFY, which moves a valid state can make, and that integration can be reached. */
module WorkflowAdvance {
  import opened Outcomes
  import opened WorkflowGate
  import opened WorkflowSafety

  // ---------------------------------------------------------------- moves

  /** The moves a stored state can make by itself. The phase table lists ways back from DISPATCH, VERIFY and
      INTEGRATE as well, but the authorization such a state carries goes with none of them. */
  lemma MovesAre(s: State, target: Phase)
    requires Validates(s)
    ensures Move(s, target).Ok? <==>
              || (s.authorization == MaintainerAuthorized
                  && ((s.phase == Reconcile && target == Deliberate) || (s.phase == Deliberate && target == Decide)
                      || (s.phase == Decide && target == Plan)))
              || (s.authorization == ImplementationReady && s.phase == Plan && target == Dispatch)
              || (s.authorization == Implementing && s.phase == Dispatch && target == Verify)
    ensures Move(s, target).Ok? ==> Move(s, target).value == s.(phase := target)
  {
  }

  /** An authorized state is taken to planning in one go. */
  lemma ToPlanPlans(s: State)
    requires Validates(s) && s.authorization == MaintainerAuthorized
    ensures ToPlan(s) == Ok(s.(phase := Plan))
  {
    var deliberating, deciding := s.(phase := Deliberate), s.(phase := Decide);
    assert ToPlan(deciding) == Ok(s.(phase := Plan));
    assert ToPlan(deliberating) == ToPlan(deciding);
    if s.phase == Reconcile { assert ToPlan(s) == ToPlan(deliberating); }
  }

  /** Advancing outside VERIFY: nothing happens once integration is reached, without authority, or while a spawn is
      unclear; otherwise the task must be registered, and an authorized state goes to planning, a planned one with
      its ownership to dispatch, if a writer can start. */
  lemma AdvanceElsewhere(s: State, key: string, ambiguous: bool, canStart: bool, answer: Option<string>,
                         request: VerificationRequest)
    requires Validates(s)
    ensures var r := Apply(s, Advance(key, ambiguous, canStart, answer, request));
            if s.authorization in {Proposed, ReviewedWithCorrections, IntegrationAuthorized, Integrated} || ambiguous
            then r == Ok(s)
            else if key !in s.tasks then r == Err(REFUSED)
            else if s.authorization == MaintainerAuthorized then r == Ok(s.(phase := Plan))
            else if s.authorization == ImplementationReady && s.phase == Plan then
              r == if canStart then Ok(s.(phase := Dispatch, authorization := Implementing)) else Err(REFUSED)
            else if s.phase == Dispatch then r == if canStart then Ok(s) else Err(REFUSED)
            else s.phase == Verify && r == AdvanceVerify(s, key, answer, request)
  {
    if s.authorization == MaintainerAuthorized { ToPlanPlans(s); }
    if s.phase == Plan {
      MovesAre(s, Dispatch);
      assert ToPlan(s) == Ok(s);
    }
  }

  /** The maintainer's decision, and nobody else's, integrates, and exactly on the evidence it rests on. */
  lemma DecisionIsExact(s: State, given: bool, key: string, identity: Identity, decision: string, reference: string,
                        request: VerificationRequest)
    requires Numbered(s) && Validates(s)
    ensures Apply(s, AuthorizeIntegration(given, key, identity, decision, reference, request)).Ok? <==>
              && given && s.phase == Verify && s.authorization == Verified
              && exists h, gate, audit, named ::
                   && Evidenced(s, key, h, gate, audit) && h.identity == identity && decision in h.decisions
                   && NamedVerification(s, key, h, reference, request, named)
  {
    IntegrationIsExact(s, key, identity, decision, reference, request);
  }

  // ---------------------------------------------------------------- recording a verification

  /** An audit's verdict is its worst category: a failure before an unknown one, that before one that cannot be
      reused, and a pass only if all pass. */
  lemma VerdictIsWorst(categories: seq<Verdict>)
    ensures Summary(categories) == Fail <==> Fail in categories
    ensures Summary(categories) == Unknown <==> Unknown in categories && Fail !in categories
    ensures Summary(categories) == Pass <==> forall v | v in categories :: v == Pass
  {
    if Summary(categories) == Pass {
      forall v | v in categories ensures v == Pass { assert v != Fail && v != Unknown && v != NonReusable; }
    }
  }

  /** A final gate may be recorded for the latest handoff alone, after a review that passed on it if one is
      needed, and again only once every earlier gate of the candidate has lost its evidence. */
  ghost predicate GateInOrder(s: State, v: Verification) {
    && (exists h :: Assembled(s, v.task, h) && h.identity == v.subject)
    && (v.task in s.tasks && s.tasks[v.task] ==>
          exists r :: ReviewOf(s, v.task, r) && r.status == Passed && r.subject == v.subject)
    && forall e | e in s.verifications && FinalGates(v.task, v.subject)(e) :: e.invalidated && v.afterEvidenceLoss
  }

  lemma GateRefusalIs(s: State, v: Verification)
    requires Numbered(s) && Validates(s)
    ensures GateRefusal(s, v) <==> !GateInOrder(s, v)
  {
    var handoff, review := LatestHandoff(s.handoffs, v.task), ReviewFor(s.reviews, v.task);
    if handoff.Some? { AssembledIsFound(s, v.task, handoff.value); }
    if exists h :: Assembled(s, v.task, h) && h.identity == v.subject {
      var h :| Assembled(s, v.task, h) && h.identity == v.subject;
      AssembledIsFound(s, v.task, h);
    }
    ReviewForIs(s.reviews, v.task);
    assert MayRepeat(v, s.verifications) <==>
           forall e | e in s.verifications && FinalGates(v.task, v.subject)(e) :: e.invalidated && v.afterEvidenceLoss;
  }

  /** What is recorded, and nothing else is refused: in VERIFY, for a registered task; audits complete and
      summed up; gates and audits made by root, gates in order; and no reference used for two things. */
  lemma RecordingIsExact(s: State, v: Verification)
    requires Numbered(s) && Validates(s)
    ensures Apply(s, RecordVerification(v)).Ok? <==>
              && s.phase == Verify && (s.authorization == Implementing || s.authorization == Verified)
              && v.task in s.tasks
              && (v.audit.Some? ==> |v.audit.value| == CATEGORIES && v.status == Summary(v.audit.value) && v.byRoot)
              && (v.request.finalGate ==> v.byRoot && GateInOrder(s, v))
              && forall e | e in s.verifications && e.reference == v.reference ::
                   Matching(v.task, v.subject, v.request)(e)
  {
    GateRefusalIs(s, v);
  }

  /** A recorded verification comes last with the next number, and the state is verified from then on exactly if
      some task's latest handoff rests on a verification. */
  lemma RecordingDecides(s: State, v: Verification)
    requires Apply(s, RecordVerification(v)).Ok?
    ensures var t := Apply(s, RecordVerification(v)).value;
            && t.verifications == s.verifications + [v.(sequence := s.sequence + 1)] && t.sequence == s.sequence + 1
            && t == s.(verifications := t.verifications, sequence := t.sequence, authorization := t.authorization)
            && t.authorization == if SomeHandoffVerified(t, t.handoffs, {}) then Verified else Implementing
  {
    var t := Apply(s, RecordVerification(v)).value;
    ScanIsExact(t, t.handoffs, {});
  }

  /** A recorded gate is kept by the validation of the state exactly when every earlier gate of the task on the same
      text of identity, be it a commit or a patch, has lost its evidence. */
  lemma GateIsKeptExactly(s: State, v: Verification)
    requires Validates(s) && v.request.finalGate && Apply(s, RecordVerification(v)).Ok?
    ensures Execute(s, RecordVerification(v)) != s <==>
              forall e | e in s.verifications && e.request.finalGate && e.task == v.task
                         && ValueOf(e.subject) == ValueOf(v.subject) ::
                e.invalidated && v.afterEvidenceLoss
  {
    RecordingDecides(s, v);
    var t := Apply(s, RecordVerification(v)).value;
    var vs, n := t.verifications, |s.verifications|;
    assert forall i | 0 <= i < n :: vs[i] == s.verifications[i];
    forall i | 0 <= i < n && vs[i].request.finalGate ensures GateRepeatsWell(vs, i) {
      assert GateRepeatsWell(s.verifications, i);
    }
    assert Validates(t) <==> GateRepeatsWell(vs, n);
    assert GateRepeatsWell(vs, n) <==>
             forall e | e in s.verifications && e.request.finalGate && e.task == v.task
                        && ValueOf(e.subject) == ValueOf(v.subject) ::
               e.invalidated && v.afterEvidenceLoss;
  }

  /** The commands that set a task going: who may give them, when, and what they change. */
  lemma EarlyCommandsAre(s: State, given: bool, key: string, needsReview: bool, h: Handoff)
    requires Validates(s)
    ensures Apply(s, AuthorizeMaintainer(given)) ==
            (if given && s.phase == Reconcile then Ok(s.(authorization := MaintainerAuthorized)) else Err(REFUSED))
    ensures Apply(s, RegisterTask(key, needsReview)) ==
            (if s.phase == Reconcile && s.authorization == MaintainerAuthorized && key !in s.tasks
             then Ok(s.(tasks := s.tasks[key := needsReview])) else Err(REFUSED))
    ensures Apply(s, AcquireOwnership(given)) ==
            (if given && s.phase == Plan then Ok(s.(authorization := ImplementationReady)) else Err(REFUSED))
    ensures Apply(s, RecordEvidence) == Ok(s.(sequence := s.sequence + 1))
    ensures Apply(s, IngestHandoff(h, given)) ==
            (if given && s.phase == Dispatch && s.authorization == Implementing && h.task in s.tasks
             then Ok(s.(phase := Verify, sequence := s.sequence + 1,
                        handoffs := s.handoffs + [h.(sequence := s.sequence + 1)]))
             else Err(REFUSED))
  {
  }

  // ---------------------------------------------------------------- the stages of VERIFY

  /** The task's latest handoff rests on a verification: named by it, the newest of its request and reusable. */
  ghost predicate Verifiable(s: State, key: string, h: Handoff, request: VerificationRequest) {
    && key in s.tasks && s.phase == Verify && s.authorization == Verified && Assembled(s, key, h)
    && exists v :: Newest(s, Matching(key, h.identity, request), v) && Sound(v) && BoundTo(h, v)
  }

  /** Without one, advancing changes nothing. */
  lemma UnverifiedWaits(s: State, key: string, answer: Option<string>, request: VerificationRequest)
    requires Numbered(s) && key in s.tasks && s.phase == Verify
    requires forall h :: !Verifiable(s, key, h, request)
    ensures AdvanceVerify(s, key, answer, request) == Ok(s)
  {
    var handoff := LatestHandoff(s.handoffs, key);
    if handoff.Some? {
      var h := handoff.value;
      AssembledIsFound(s, key, h);
      assert !Verifiable(s, key, h, request);
      var found := LatestWhere(s.verifications, Matching(key, h.identity, request));
      if found.Some? { NewestIsFound(s, Matching(key, h.identity, request), found.value); }
    }
  }

  lemma VerifiableIsSeen(s: State, key: string, h: Handoff, answer: Option<string>, request: VerificationRequest)
    requires Numbered(s) && Verifiable(s, key, h, request)
    ensures AdvanceVerify(s, key, answer, request) ==
            var review := ReviewFor(s.reviews, key);
            if !s.tasks[key] then AdvanceGate(s, key, h, review)
            else if review == None then
              var asked := Review(key, Required, 0, h.identity, s.sequence + 1, None);
              Ok(s.(reviews := s.reviews + [asked], sequence := s.sequence + 1))
            else AdvanceReview(s, key, h, review.value, answer)
  {
    AssembledIsFound(s, key, h);
    var v :| Newest(s, Matching(key, h.identity, request), v) && Sound(v) && BoundTo(h, v);
    NewestIsFound(s, Matching(key, h.identity, request), v);
  }

  ghost predicate ReviewOf(s: State, key: string, r: Review) { r in s.reviews && r.task == key }

  lemma ReviewIsFound(s: State, key: string, r: Review)
    requires Validates(s)
    ensures ReviewFor(s.reviews, key) == Some(r) <==> ReviewOf(s, key, r)
  {
    ReviewForIs(s.reviews, key);
  }

  /** A task that needs a review gets one asked for, on the identity handed in. */
  lemma ReviewIsAsked(s: State, key: string, h: Handoff, answer: Option<string>, request: VerificationRequest)
    requires Numbered(s) && Validates(s) && Verifiable(s, key, h, request)
    requires s.tasks[key] && forall r | r in s.reviews :: r.task != key
    ensures AdvanceVerify(s, key, answer, request) ==
            Ok(s.(reviews := s.reviews + [Review(key, Required, 0, h.identity, s.sequence + 1, None)],
                  sequence := s.sequence + 1))
  {
    VerifiableIsSeen(s, key, h, answer, request);
    ReviewForIs(s.reviews, key);
  }

  lemma {:induction false} WithReviewIs(reviews: seq<Review>, before: Review, after: Review)
    requires forall i, j | 0 <= i < j < |reviews| :: reviews[i].task != reviews[j].task
    requires before in reviews && after.task == before.task
    ensures forall r :: r in WithReview(reviews, after) <==> r == after || (r in reviews && r != before)
    ensures |WithReview(reviews, after)| == |reviews|
  {
    assert reviews == [reviews[0]] + reviews[1..];
    if reviews[0].task == after.task {
      assert before == reviews[0];
      assert WithReview(reviews, after) == [after] + reviews[1..];
    } else {
      WithReviewIs(reviews[1..], before, after);
    }
  }

  // ---------------------------------------------------------------- the gate stage

  /** The final gate that counts: the newest for the candidate, made by root, after handoff and reviews. */
  ghost predicate CountingGate(s: State, key: string, h: Handoff, gate: Verification) {
    && Newest(s, FinalGates(key, h.identity), gate) && gate.byRoot && h.sequence < gate.sequence
    && forall r | r in s.reviews && r.task == key :: CompletedAt(Some(r)) < gate.sequence
  }

  /** The safety audit that counts after a gate. */
  ghost predicate CountingAudit(s: State, key: string, h: Handoff, after: nat, audit: Verification) {
    && Newest(s, SafetyAudits(key, h.identity), audit) && Newest(s, Matching(key, h.identity, audit.request), audit)
    && audit.byRoot && after < audit.sequence
  }

  ghost predicate Broken(v: Verification) { v.status == Fail && !v.invalidated }

  ghost predicate GateFailed(s: State, key: string, h: Handoff) {
    exists gate :: CountingGate(s, key, h, gate) && Broken(gate)
  }

  ghost predicate AuditFailed(s: State, key: string, h: Handoff) {
    exists gate, audit ::
      CountingGate(s, key, h, gate) && Passing(gate) && CountingAudit(s, key, h, gate.sequence, audit) && Broken(audit)
  }

  lemma CountingGateIsFound(s: State, key: string, h: Handoff, gate: Verification)
    requires Numbered(s) && Validates(s) && Assembled(s, key, h)
    ensures LatestGate(s, key, h, ReviewFor(s.reviews, key)) == Some(gate) <==> CountingGate(s, key, h, gate)
  {
    NewestIsFound(s, FinalGates(key, h.identity), gate);
    NewestIsFound(s, Matching(key, h.identity, gate.request), gate);
    ReviewForIs(s.reviews, key);
    GatesByRequest(s, key, h.identity, gate);
    var i :| 0 <= i < |s.handoffs| && s.handoffs[i] == h;
  }

  lemma CountingAuditIsFound(s: State, key: string, h: Handoff, after: nat, audit: Verification)
    requires Numbered(s)
    ensures LatestSafety(s, key, h, after) == Some(audit) <==> CountingAudit(s, key, h, after, audit)
  {
    NewestIsFound(s, SafetyAudits(key, h.identity), audit);
    NewestIsFound(s, Matching(key, h.identity, audit.request), audit);
  }

  /** A failure sends the task back to planning, its review to be repeated. */
  ghost function SentBack(s: State, review: Option<Review>): State {
    var reviews := if review.Some? then WithReview(s.reviews, review.value.(status := RepairInProgress)) else s.reviews;
    s.(phase := Plan, authorization := MaintainerAuthorized, reviews := reviews)
  }

  /** A failed gate, or a failed audit after a passing gate, sends the task back; anything else waits. */
  lemma GateStageIs(s: State, key: string, h: Handoff)
    requires Numbered(s) && Validates(s) && Assembled(s, key, h) && s.phase == Verify
    ensures var review := ReviewFor(s.reviews, key);
            AdvanceGate(s, key, h, review) ==
            Ok(if GateFailed(s, key, h) || AuditFailed(s, key, h) then SentBack(s, review) else s)
  {
    var review := ReviewFor(s.reviews, key);
    var found := LatestGate(s, key, h, review);
    forall gate ensures found == Some(gate) <==> CountingGate(s, key, h, gate) {
      CountingGateIsFound(s, key, h, gate);
    }
    if found.Some? {
      var gate := found.value;
      assert CountingGate(s, key, h, gate);
      assert GateFailed(s, key, h) <==> Broken(gate);
      AuditStageIs(s, key, h, gate);
    }
  }

  lemma AuditStageIs(s: State, key: string, h: Handoff, gate: Verification)
    requires Numbered(s) && CountingGate(s, key, h, gate)
    requires forall other :: CountingGate(s, key, h, other) <==> other == gate
    ensures AuditFailed(s, key, h) <==>
              Passing(gate) && LatestSafety(s, key, h, gate.sequence).Some?
              && Broken(LatestSafety(s, key, h, gate.sequence).value)
  {
    var found := LatestSafety(s, key, h, gate.sequence);
    if found.Some? { CountingAuditIsFound(s, key, h, gate.sequence, found.value); }
    if AuditFailed(s, key, h) {
      var other, audit :|
        CountingGate(s, key, h, other) && Passing(other) && CountingAudit(s, key, h, other.sequence, audit)
        && Broken(audit);
      CountingAuditIsFound(s, key, h, gate.sequence, audit);
    }
  }

  // ---------------------------------------------------------------- answers to a review

  /** The task's review as an answer finds it: asked again if it was under repair and the identity is new. */
  ghost predicate Asks(found: Review, h: Handoff, review: Review) {
    if found.status == RepairInProgress && found.subject != h.identity
    then review == found.(subject := h.identity, status := Required)
    else review == found
  }

  /** The reviews are as before, but for this one. */
  ghost predicate OnlyReview(s: State, t: State, before: Review, after: Review) {
    |t.reviews| == |s.reviews| && forall r :: r in t.reviews <==> r == after || (r in s.reviews && r != before)
  }

  lemma SameReviews(reviews: seq<Review>, r: Review)
    requires r in reviews && forall i, j | 0 <= i < j < |reviews| :: reviews[i].task != reviews[j].task
    ensures WithReview(reviews, r) == reviews
  {
    if reviews[0].task != r.task {
      SameReviews(reviews[1..], r);
    }
  }

  lemma ReviewIsAnswered(s: State, key: string, h: Handoff, found: Review, answer: Option<string>,
                         request: VerificationRequest)
    requires Numbered(s) && Validates(s) && Verifiable(s, key, h, request)
    requires s.tasks[key] && ReviewOf(s, key, found)
    ensures AdvanceVerify(s, key, answer, request) == AdvanceReview(s, key, h, found, answer)
  {
    VerifiableIsSeen(s, key, h, answer, request);
    ReviewIsFound(s, key, found);
  }

  /** PASS for a review that has not passed: it has passed now, later than any gate, so nothing else happens. */
  lemma PassIsRecorded(s: State, key: string, h: Handoff, found: Review, request: VerificationRequest)
    requires Numbered(s) && Validates(s) && Verifiable(s, key, h, request)
    requires s.tasks[key] && ReviewOf(s, key, found) && found.status != Passed
    ensures var r := AdvanceVerify(s, key, Some("PASS"), request);
            r.Ok? && exists review, passed ::
              && Asks(found, h, review) && passed == review.(status := Passed, completed := Some(s.sequence + 1))
              && OnlyReview(s, r.value, found, passed)
              && r.value == s.(reviews := r.value.reviews, sequence := s.sequence + 1)
  {
    var review := Retargeted(found, h);
    var passed := review.(status := Passed, completed := Some(s.sequence + 1));
    var t := s.(reviews := WithReview(s.reviews, passed), sequence := s.sequence + 1);
    ReviewIsAnswered(s, key, h, found, Some("PASS"), request);
    WithReviewIs(s.reviews, found, passed);
    PassAnswers(s, key, h, found);
    NothingFollowsPass(s, t, key, h, found, passed);
    assert Asks(found, h, review) && OnlyReview(s, t, found, passed);
  }

  lemma PassAnswers(s: State, key: string, h: Handoff, found: Review)
    requires found.status != Passed
    ensures var passed := Retargeted(found, h).(status := Passed, completed := Some(s.sequence + 1));
            var t := s.(reviews := WithReview(s.reviews, passed), sequence := s.sequence + 1);
            AdvanceReview(s, key, h, found, Some("PASS")) == AdvanceGate(t, key, h, Some(passed))
  {
  }

  lemma NothingFollowsPass(s: State, t: State, key: string, h: Handoff, found: Review, passed: Review)
    requires Numbered(s) && Validates(s) && Assembled(s, key, h) && s.phase == Verify && ReviewOf(s, key, found)
    requires passed.task == key && passed.completed == Some(s.sequence + 1)
    requires t == s.(reviews := WithReview(s.reviews, passed), sequence := s.sequence + 1)
    ensures AdvanceGate(t, key, h, Some(passed)) == Ok(t)
  {
    WithReviewIs(s.reviews, found, passed);
    WithReviewKeepsTasks(s.reviews, passed);
    assert ReviewOf(t, key, passed) && Numbered(t) && Validates(t) && Assembled(t, key, h);
    ReviewIsFound(t, key, passed);
    NewestReviewComesLast(t, key, h, passed);
    GateStageIs(t, key, h);
  }

  /** No gate counts for a review that has just passed. */
  lemma NewestReviewComesLast(s: State, key: string, h: Handoff, passed: Review)
    requires Numbered(s) && ReviewOf(s, key, passed) && passed.completed == Some(s.sequence)
    ensures !GateFailed(s, key, h) && !AuditFailed(s, key, h)
  {
    forall gate ensures !CountingGate(s, key, h, gate) {
      if gate in s.verifications { var i :| 0 <= i < |s.verifications| && s.verifications[i] == gate; }
    }
  }

  /** So a review ends passed on the identity handed in exactly when it was asked for on that identity, or was
      under repair: a review asked for and not answered is not asked again when the identity changes. */
  lemma PassedOnTheHandoffExactly(s: State, key: string, h: Handoff, found: Review, request: VerificationRequest)
    requires Numbered(s) && Validates(s) && Verifiable(s, key, h, request)
    requires s.tasks[key] && ReviewOf(s, key, found) && found.status != Passed
    ensures var r := AdvanceVerify(s, key, Some("PASS"), request);
            && r.Ok?
            && ((exists passed :: ReviewOf(r.value, key, passed) && passed.status == Passed
                                  && passed.subject == h.identity) <==>
                  found.subject == h.identity || found.status == RepairInProgress)
  {
    PassIsRecorded(s, key, h, found, request);
    var t := AdvanceVerify(s, key, Some("PASS"), request).value;
    var review, passed :|
      && Asks(found, h, review) && passed == review.(status := Passed, completed := Some(s.sequence + 1))
      && OnlyReview(s, t, found, passed);
    assert ReviewOf(t, key, passed);
    ReviewForIs(s.reviews, key);
    ReviewIsFound(s, key, found);
  }

  /** REPAIR_REQUIRED counts one repair and sends the task back to planning, whatever the review was. */
  lemma RepairIsRecorded(s: State, key: string, h: Handoff, found: Review, request: VerificationRequest)
    requires Numbered(s) && Validates(s) && Verifiable(s, key, h, request)
    requires s.tasks[key] && ReviewOf(s, key, found)
    ensures var r := AdvanceVerify(s, key, Some("REPAIR_REQUIRED"), request);
            r.Ok? && exists review, repair ::
              && Asks(found, h, review)
              && repair == review.(status := RepairInProgress, repairs := found.repairs + 1)
              && OnlyReview(s, r.value, found, repair)
              && r.value == s.(phase := Plan, authorization := MaintainerAuthorized, reviews := r.value.reviews)
  {
    var review := Retargeted(found, h);
    var repair := review.(repairs := review.repairs + 1, status := RepairInProgress);
    ReviewIsAnswered(s, key, h, found, Some("REPAIR_REQUIRED"), request);
    WithReviewIs(s.reviews, found, repair);
    var t := s.(phase := Plan, authorization := MaintainerAuthorized, reviews := WithReview(s.reviews, repair));
    assert AdvanceReview(s, key, h, found, Some("REPAIR_REQUIRED")) == Ok(t);
    assert Asks(found, h, review) && OnlyReview(s, t, found, repair);
    assert repair == review.(status := RepairInProgress, repairs := found.repairs + 1);
  }

  /** Without an answer a review that has not passed waits, asked again if it must be; any answer but the two
      is refused. */
  lemma UnansweredWaits(s: State, key: string, h: Handoff, found: Review, answer: string, request: VerificationRequest)
    requires Numbered(s) && Validates(s) && Verifiable(s, key, h, request)
    requires s.tasks[key] && ReviewOf(s, key, found)
    ensures found.status != Passed ==>
              var r := AdvanceVerify(s, key, None, request);
              r.Ok? && exists review ::
                Asks(found, h, review) && OnlyReview(s, r.value, found, review)
                && r.value == s.(reviews := r.value.reviews)
    ensures answer != "PASS" && answer != "REPAIR_REQUIRED" ==>
              AdvanceVerify(s, key, Some(answer), request) == Err(REFUSED)
  {
    var review := Retargeted(found, h);
    ReviewIsAnswered(s, key, h, found, None, request);
    ReviewIsAnswered(s, key, h, found, Some(answer), request);
    WithReviewIs(s.reviews, found, review);
    assert Asks(found, h, review) && OnlyReview(s, s.(reviews := WithReview(s.reviews, review)), found, review);
  }

  /** Once the review has passed, or none is needed, the evidence decides: a failed gate, or a failed audit
      after a passing gate, sends the task back to planning with its review under repair; nothing else does. */
  lemma FailuresSendBack(s: State, key: string, h: Handoff, answer: Option<string>, request: VerificationRequest)
    requires Numbered(s) && Validates(s) && Verifiable(s, key, h, request)
    requires answer == None || answer == Some("PASS")
    requires s.tasks[key] ==> exists found :: ReviewOf(s, key, found) && found.status == Passed
    ensures AdvanceVerify(s, key, answer, request) ==
            Ok(if GateFailed(s, key, h) || AuditFailed(s, key, h) then SentBack(s, ReviewFor(s.reviews, key)) else s)
  {
    VerifiableIsSeen(s, key, h, answer, request);
    GateStageIs(s, key, h);
    if s.tasks[key] {
      var found :| ReviewOf(s, key, found) && found.status == Passed;
      ReviewIsFound(s, key, found);
      SameReviews(s.reviews, found);
    }
  }

  // ---------------------------------------------------------------- integration can be reached

  /** A verification that root records as passed. */
  function PassingRecord(key: string, subject: Identity, request: VerificationRequest, audit: Option<seq<Verdict>>,
                         n: nat): Verification {
    Verification(key, request.details, subject, request, Pass, true, audit, false, true, false, n)
  }

  const CHECKS := VerificationRequest(false, "checks")
  const GATE := VerificationRequest(true, "gate")
  const AUDIT := VerificationRequest(false, "audit")

  lemma LookupAppends(vs: seq<Verification>, v: Verification, fits: Verification -> bool)
    ensures LatestWhere(vs + [v], fits) == if fits(v) then Some(v) else LatestWhere(vs, fits)
  {
    assert (vs + [v])[..|vs|] == vs;
  }

  lemma LookupNothing(fits: Verification -> bool)
    ensures LatestWhere([], fits) == None
  {
  }

  /** The one task, with the handoff of its candidate. */
  function HandedIn(key: string, h: Handoff): State {
    State(Verify, Implementing, map[key := true], [h.(sequence := 1)], [], [], 1)
  }

  ghost predicate Candidate(key: string, h: Handoff) {
    h.task == key && h.verifications == [Bound("checks", CHECKS)] && h.decisions != []
  }

  /** From nothing to planning. */
  lemma PlanIsReached(key: string)
    ensures var s1 := Start(map[]).(authorization := MaintainerAuthorized);
            var s2 := s1.(tasks := map[key := true]);
            && Execute(Start(map[]), AuthorizeMaintainer(true)) == s1 && Execute(s1, RegisterTask(key, true)) == s2
            && Execute(s2, Advance(key, false, true, None, CHECKS)) == s2.(phase := Plan)
  {
    ToPlanPlans(Start(map[]).(authorization := MaintainerAuthorized, tasks := map[key := true]));
  }

  /** From there to an implementing dispatch. */
  lemma DispatchIsReached(key: string, s: State)
    requires s == State(Plan, MaintainerAuthorized, map[key := true], [], [], [], 0)
    ensures var ready := s.(authorization := ImplementationReady);
            && Execute(s, AcquireOwnership(true)) == ready
            && Execute(ready, Advance(key, false, true, None, CHECKS)) ==
               s.(phase := Dispatch, authorization := Implementing)
  {
  }

  /** And from there to the handoff of a candidate. */
  lemma HandoffIsReached(key: string, h: Handoff) returns (cs: seq<Command>)
    requires Candidate(key, h)
    ensures ExecuteAll(Start(map[]), cs) == HandedIn(key, h)
  {
    var s1 := Start(map[]).(authorization := MaintainerAuthorized);
    var s3 := s1.(tasks := map[key := true], phase := Plan);
    var s5 := s3.(phase := Dispatch, authorization := Implementing);
    PlanIsReached(key);
    DispatchIsReached(key, s3);
    var advance := Advance(key, false, true, None, CHECKS);
    HandoffIsIngested(key, h, s5);
    cs := [AuthorizeMaintainer(true), RegisterTask(key, true), advance, AcquireOwnership(true), advance,
           IngestHandoff(h, true)];
    SixCommands(Start(map[]), cs, s1, s1.(tasks := map[key := true]), s3, s3.(authorization := ImplementationReady), s5,
                HandedIn(key, h));
  }

  lemma HandoffIsIngested(key: string, h: Handoff, s: State)
    requires Candidate(key, h) && s == State(Dispatch, Implementing, map[key := true], [], [], [], 0)
    ensures Execute(s, IngestHandoff(h, true)) == HandedIn(key, h)
  {
    assert s.handoffs + [h.(sequence := 1)] == [h.(sequence := 1)];
  }

  lemma SixCommands(s0: State, cs: seq<Command>, s1: State, s2: State, s3: State, s4: State, s5: State, s6: State)
    requires |cs| == 6 && Execute(s0, cs[0]) == s1 && Execute(s1, cs[1]) == s2 && Execute(s2, cs[2]) == s3
    requires Execute(s3, cs[3]) == s4 && Execute(s4, cs[4]) == s5 && Execute(s5, cs[5]) == s6
    ensures ExecuteAll(s0, cs) == s6
  {
    var t1 := cs[1..];
    var t2 := t1[1..];
    var t3 := t2[1..];
    var t4 := t3[1..];
    var t5 := t4[1..];
    assert t5 == [cs[5]] && t5[1..] == [];
    assert ExecuteAll(s5, t5) == ExecuteAll(s6, []);
    assert ExecuteAll(s4, t4) == ExecuteAll(s5, t5);
    assert ExecuteAll(s3, t3) == ExecuteAll(s4, t4);
    assert ExecuteAll(s2, t2) == ExecuteAll(s3, t3);
    assert ExecuteAll(s1, t1) == ExecuteAll(s2, t2);
  }

  /** The state in which the candidate is verified, with its reviews and what was recorded since. */
  function VerifiedWith(key: string, h: Handoff, reviews: seq<Review>, more: seq<Verification>, n: nat): State {
    HandedIn(key, h).(authorization := Verified, reviews := reviews, sequence := n,
                      verifications := [PassingRecord(key, h.identity, CHECKS, None, 2)] + more)
  }

  lemma VerifiedIsVerifiable(key: string, h: Handoff, reviews: seq<Review>)
    requires Candidate(key, h)
    ensures var s := VerifiedWith(key, h, reviews, [], 3);
            Verifiable(s, key, h.(sequence := 1), CHECKS)
    ensures Verifiable(VerifiedWith(key, h, reviews, [], 2), key, h.(sequence := 1), CHECKS)
  {
    var check := PassingRecord(key, h.identity, CHECKS, None, 2);
    assert [check] + [] == [check] && check in [check];
    assert Newest(VerifiedWith(key, h, reviews, [], 3), Matching(key, h.identity, CHECKS), check);
    assert Newest(VerifiedWith(key, h, reviews, [], 2), Matching(key, h.identity, CHECKS), check);
    assert BoundTo(h.(sequence := 1), check);
  }

  /** A valid state in which a review asked for on another identity passes, and nothing then says that the identity
      handed in was reviewed. */
  lemma StaleReviewPasses(key: string, h: Handoff, other: Identity)
    requires Candidate(key, h) && other != h.identity
    ensures var s := VerifiedWith(key, h, [Review(key, Required, 0, other, 3, None)], [], 3);
            && Numbered(s) && Validates(s)
            && var r := AdvanceVerify(s, key, Some("PASS"), CHECKS);
               r.Ok? && forall x | ReviewOf(r.value, key, x) && x.status == Passed :: x.subject != h.identity
  {
    var asked := Review(key, Required, 0, other, 3, None);
    var s := VerifiedWith(key, h, [asked], [], 3);
    VerifiedIsVerifiable(key, h, [asked]);
    assert ReviewOf(s, key, asked);
    PassedOnTheHandoffExactly(s, key, h.(sequence := 1), asked, CHECKS);
  }

  /** Advancing a verified state in VERIFY is its stages, if the result is valid. */
  lemma AdvancesTo(s: State, key: string, answer: Option<string>, request: VerificationRequest, t: State)
    requires s.phase == Verify && s.authorization == Verified && key in s.tasks
    requires AdvanceVerify(s, key, answer, request) == Ok(t) && Validates(t)
    ensures Execute(s, Advance(key, false, true, answer, request)) == t
  {
  }

  function AskedFor(key: string, h: Handoff): Review { Review(key, Required, 0, h.identity, 3, None) }

  function PassedReview(key: string, h: Handoff): Review {
    AskedFor(key, h).(status := Passed, completed := Some(4))
  }

  /** Its review is asked for. */
  lemma ReviewIsReached(key: string, h: Handoff)
    requires Candidate(key, h)
    ensures Execute(VerifiedWith(key, h, [], [], 2), Advance(key, false, true, None, CHECKS)) ==
            VerifiedWith(key, h, [AskedFor(key, h)], [], 3)
  {
    var s, asked := VerifiedWith(key, h, [], [], 2), AskedFor(key, h);
    assert [] + [asked] == [asked];
    VerifiedIsVerifiable(key, h, []);
    ReviewIsAsked(s, key, h.(sequence := 1), None, CHECKS);
    AdvancesTo(s, key, None, CHECKS, VerifiedWith(key, h, [asked], [], 3));
  }

  /** And passes. */
  lemma PassIsReached(key: string, h: Handoff)
    requires Candidate(key, h)
    ensures Execute(VerifiedWith(key, h, [AskedFor(key, h)], [], 3), Advance(key, false, true, Some("PASS"), CHECKS)) ==
            VerifiedWith(key, h, [PassedReview(key, h)], [], 4)
  {
    var g, asked, passed := h.(sequence := 1), AskedFor(key, h), PassedReview(key, h);
    var s, t := VerifiedWith(key, h, [asked], [], 3), VerifiedWith(key, h, [passed], [], 4);
    VerifiedIsVerifiable(key, h, [asked]);
    assert ReviewOf(s, key, asked);
    ReviewIsAnswered(s, key, g, asked, Some("PASS"), CHECKS);
    AnswerPasses(s, t, key, g, asked, passed);
    AdvancesTo(s, key, Some("PASS"), CHECKS, t);
  }

  lemma AnswerPasses(s: State, t: State, key: string, h: Handoff, asked: Review, passed: Review)
    requires Numbered(s) && Validates(s) && Assembled(s, key, h) && s.phase == Verify
    requires s.reviews == [asked] && asked.task == key && asked.status == Required
    requires passed == asked.(status := Passed, completed := Some(s.sequence + 1))
    requires t == s.(reviews := [passed], sequence := s.sequence + 1)
    ensures AdvanceReview(s, key, h, asked, Some("PASS")) == Ok(t)
  {
    assert WithReview([asked], passed) == [passed] by { assert [asked][1..] == []; }
    NothingFollowsPass(s, t, key, h, asked, passed);
  }

  function GateRecord(key: string, h: Handoff): Verification { PassingRecord(key, h.identity, GATE, None, 5) }

  function AuditRecord(key: string, h: Handoff): Verification {
    PassingRecord(key, h.identity, AUDIT, Some([Pass, Pass, Pass, Pass, Pass]), 6)
  }

  /** Later records of other requests leave the candidate verified. */
  lemma StaysVerified(key: string, h: Handoff, more: seq<Verification>)
    requires Candidate(key, h) && forall v | v in more :: v.request != CHECKS
    ensures var check := PassingRecord(key, h.identity, CHECKS, None, 2);
            HandoffVerified([check] + more, [h.(sequence := 1)], {})
  {
    var g, check := h.(sequence := 1), PassingRecord(key, h.identity, CHECKS, None, 2);
    OnlyCheckFits(check, key, h, more);
    assert Bound("checks", CHECKS) in g.verifications;
    assert NamedAndReusable([check] + more, g, Bound("checks", CHECKS));
    assert [g][..0] == [];
  }

  lemma {:induction false} OnlyCheckFits(check: Verification, key: string, h: Handoff, more: seq<Verification>)
    requires check == PassingRecord(key, h.identity, CHECKS, None, 2) && forall v | v in more :: v.request != CHECKS
    ensures LatestWhere([check] + more, Matching(key, h.identity, CHECKS)) == Some(check)
  {
    if more == [] {
      assert [check] + more == [check];
    } else {
      var n := |more| - 1;
      assert [check] + more == ([check] + more[..n]) + [more[n]];
      assert more[n] in more;
      LookupAppends([check] + more[..n], more[n], Matching(key, h.identity, CHECKS));
      OnlyCheckFits(check, key, h, more[..n]);
    }
  }

  /** Its check recorded as passed makes it verified. */
  lemma CheckIsRecorded(key: string, h: Handoff)
    requires Candidate(key, h)
    ensures Execute(HandedIn(key, h), RecordVerification(PassingRecord(key, h.identity, CHECKS, None, 2))) ==
            VerifiedWith(key, h, [], [], 2)
  {
    var s, check := HandedIn(key, h), PassingRecord(key, h.identity, CHECKS, None, 2);
    assert s.verifications + [check] == [check] + [];
    StaysVerified(key, h, []);
    RecordsTo(s, check, VerifiedWith(key, h, [], [], 2));
  }

  /** Recording in VERIFY leads to the verified state, if nothing refuses the record and the scan finds it. */
  lemma RecordsTo(s: State, v: Verification, t: State)
    requires !VerificationRefusal(s, v) && s.phase == Verify && v.sequence == s.sequence + 1
    requires t == s.(verifications := s.verifications + [v], sequence := s.sequence + 1, authorization := Verified)
    requires HandoffVerified(t.verifications, t.handoffs, {}) && Validates(t)
    ensures Execute(s, RecordVerification(v)) == t
  {
  }

  lemma GateIsReached(key: string, h: Handoff)
    requires Candidate(key, h)
    ensures Execute(VerifiedWith(key, h, [PassedReview(key, h)], [], 4), RecordVerification(GateRecord(key, h))) ==
            VerifiedWith(key, h, [PassedReview(key, h)], [GateRecord(key, h)], 5)
  {
    var s, gate := VerifiedWith(key, h, [PassedReview(key, h)], [], 4), GateRecord(key, h);
    assert s.verifications + [gate] == VerifiedWith(key, h, [PassedReview(key, h)], [gate], 5).verifications;
    StaysVerified(key, h, [gate]);
    RecordsTo(s, gate, VerifiedWith(key, h, [PassedReview(key, h)], [gate], 5));
  }

  lemma AuditIsReached(key: string, h: Handoff)
    requires Candidate(key, h)
    ensures Execute(VerifiedWith(key, h, [PassedReview(key, h)], [GateRecord(key, h)], 5),
                    RecordVerification(AuditRecord(key, h))) ==
            VerifiedWith(key, h, [PassedReview(key, h)], [GateRecord(key, h), AuditRecord(key, h)], 6)
  {
    var s, gate, audit := VerifiedWith(key, h, [PassedReview(key, h)], [GateRecord(key, h)], 5), GateRecord(key, h),
                          AuditRecord(key, h);
    assert s.verifications + [audit] == VerifiedWith(key, h, [PassedReview(key, h)], [gate, audit], 6).verifications;
    StaysVerified(key, h, [gate, audit]);
    RecordsTo(s, audit, VerifiedWith(key, h, [PassedReview(key, h)], [gate, audit], 6));
  }

  function Audited(key: string, h: Handoff): State {
    VerifiedWith(key, h, [PassedReview(key, h)], [GateRecord(key, h), AuditRecord(key, h)], 6)
  }

  lemma EvidenceIsReached(key: string, h: Handoff)
    requires Candidate(key, h)
    ensures var s := Audited(key, h);
            && Numbered(s) && Validates(s)
            && Evidenced(s, key, h.(sequence := 1), GateRecord(key, h), AuditRecord(key, h))
            && NamedVerification(s, key, h.(sequence := 1), "checks", CHECKS,
                                 PassingRecord(key, h.identity, CHECKS, None, 2))
  {
    var s, gate, audit := Audited(key, h), GateRecord(key, h), AuditRecord(key, h);
    var check := PassingRecord(key, h.identity, CHECKS, None, 2);
    assert s.verifications == [check, gate, audit];
    AuditedIsValid(key, h);
    AuditCounts(s, key, h, check, gate, audit);
  }

  lemma AuditedIsValid(key: string, h: Handoff)
    requires Candidate(key, h)
    ensures var s := Audited(key, h);
            && Numbered(s) && Validates(s) && Assembled(s, key, h.(sequence := 1)) && Reviewed(s, key, h.identity)
  {
    var s := Audited(key, h);
    var check := PassingRecord(key, h.identity, CHECKS, None, 2);
    assert s.verifications == [check, GateRecord(key, h), AuditRecord(key, h)];
    assert h.(sequence := 1) in s.handoffs && PassedReview(key, h) in s.reviews;
  }

  lemma AuditCounts(s: State, key: string, h: Handoff, check: Verification, gate: Verification, audit: Verification)
    requires check == PassingRecord(key, h.identity, CHECKS, None, 2)
    requires gate == GateRecord(key, h) && audit == AuditRecord(key, h) && s.verifications == [check, gate, audit]
    ensures Newest(s, Matching(key, h.identity, CHECKS), check) && Newest(s, FinalGates(key, h.identity), gate)
    ensures Newest(s, SafetyAudits(key, h.identity), audit) && Newest(s, Matching(key, h.identity, AUDIT), audit)
  {
    assert check in s.verifications && gate in s.verifications && audit in s.verifications;
  }

  lemma DecisionIsGranted(key: string, h: Handoff)
    requires Candidate(key, h)
    ensures Execute(Audited(key, h), AuthorizeIntegration(true, key, h.identity, h.decisions[0], "checks", CHECKS)) ==
            Audited(key, h).(phase := Integrate, authorization := IntegrationAuthorized)
  {
    EvidenceIsReached(key, h);
    EvidenceIsGranted(Audited(key, h), key, h.decisions[0], "checks", CHECKS, h.(sequence := 1), GateRecord(key, h),
                      AuditRecord(key, h), PassingRecord(key, h.identity, CHECKS, None, 2));
  }

  lemma {:induction false} ExecuteAllConcat(s: State, a: seq<Command>, b: seq<Command>)
    ensures ExecuteAll(s, a + b) == ExecuteAll(ExecuteAll(s, a), b)
    decreases |a|
  {
    if a == [] {
      assert a + b == b;
    } else {
      assert (a + b)[0] == a[0] && (a + b)[1..] == a[1..] + b;
      ExecuteAllConcat(Execute(s, a[0]), a[1..], b);
    }
  }

  /** Every candidate, of any identity, can come from nothing to integration: handed in, checked, reviewed, gated
      and audited, and decided on. */
  lemma IntegrationIsReached(key: string, h: Handoff) returns (cs: seq<Command>)
    requires Candidate(key, h)
    ensures ExecuteAll(Start(map[]), cs).phase == Integrate
  {
    var early := HandoffIsReached(key, h);
    var passed, gate, audit := PassedReview(key, h), GateRecord(key, h), AuditRecord(key, h);
    var check := PassingRecord(key, h.identity, CHECKS, None, 2);
    var s1, s2 := VerifiedWith(key, h, [], [], 2), VerifiedWith(key, h, [AskedFor(key, h)], [], 3);
    var s3, s4 := VerifiedWith(key, h, [passed], [], 4), VerifiedWith(key, h, [passed], [gate], 5);
    var s5 := Audited(key, h);
    var decide := AuthorizeIntegration(true, key, h.identity, h.decisions[0], "checks", CHECKS);
    var late := [RecordVerification(check), Advance(key, false, true, None, CHECKS),
                 Advance(key, false, true, Some("PASS"), CHECKS), RecordVerification(gate), RecordVerification(audit),
                 decide];
    CheckIsRecorded(key, h);
    ReviewIsReached(key, h);
    PassIsReached(key, h);
    GateIsReached(key, h);
    AuditIsReached(key, h);
    DecisionIsGranted(key, h);
    SixCommands(HandedIn(key, h), late, s1, s2, s3, s4, s5, Execute(s5, decide));
    ExecuteAllConcat(Start(map[]), early, late);
    cs := early + late;
  }
}
