/** What holds of every state the coordinator can reach by commands: evidence is only added, integration
    rests on evidence in the right order, and an integrating state never changes again. */
module WorkflowSafety {
  import opened Outcomes
  import opened WorkflowGate

  lemma SafetyIsFound(s: State, key: string, h: Handoff, after: nat, audit: Verification)
    requires Numbered(s)
    ensures (LatestSafety(s, key, h, after) == Some(audit) && Current(Some(audit))) <==>
            && Newest(s, SafetyAudits(key, h.identity), audit)
            && Newest(s, Matching(key, h.identity, audit.request), audit)
            && Passing(audit) && after < audit.sequence
  {
    NewestIsFound(s, SafetyAudits(key, h.identity), audit);
    NewestIsFound(s, Matching(key, h.identity, audit.request), audit);
  }

  /** A passing audit passed in every category. */
  lemma PassingAuditPassesAll(s: State, audit: Verification)
    requires Numbered(s) && audit in s.verifications && audit.audit.Some? && audit.status == Pass
    ensures forall x | x in audit.audit.value :: x == Pass
  {
    var i :| 0 <= i < |s.verifications| && s.verifications[i] == audit;
    assert Summary(audit.audit.value) == Pass;
    forall x | x in audit.audit.value ensures x == Pass {
      assert x != Fail && x != Unknown && x != NonReusable;
    }
  }

  /** The maintainer's decision goes through exactly when the evidence is there, in order, for the identity,
      decision and verification that are named. */
  lemma IntegrationIsExact(s: State, key: string, identity: Identity, decision: string, reference: string,
                           request: VerificationRequest)
    requires Numbered(s) && Validates(s)
    ensures !IntegrationRefusal(s, key, identity, decision, reference, request) <==>
            && s.phase == Verify && s.authorization == Verified
            && exists h, gate, audit, named ::
                 && Evidenced(s, key, h, gate, audit) && h.identity == identity && decision in h.decisions
                 && NamedVerification(s, key, h, reference, request, named)
  {
    if !IntegrationRefusal(s, key, identity, decision, reference, request) {
      var h, gate, audit, named := GrantedRestsOnEvidence(s, key, identity, decision, reference, request);
    }
    if s.phase == Verify && s.authorization == Verified
       && exists h, gate, audit, named ::
            && Evidenced(s, key, h, gate, audit) && h.identity == identity && decision in h.decisions
            && NamedVerification(s, key, h, reference, request, named)
    {
      var h, gate, audit, named :|
        && Evidenced(s, key, h, gate, audit) && h.identity == identity && decision in h.decisions
        && NamedVerification(s, key, h, reference, request, named);
      EvidenceIsGranted(s, key, decision, reference, request, h, gate, audit, named);
    }
  }

  lemma GrantedRestsOnEvidence(s: State, key: string, identity: Identity, decision: string, reference: string,
                               request: VerificationRequest)
    returns (h: Handoff, gate: Verification, audit: Verification, named: Verification)
    requires Numbered(s) && Validates(s) && !IntegrationRefusal(s, key, identity, decision, reference, request)
    ensures Evidenced(s, key, h, gate, audit) && h.identity == identity && decision in h.decisions
    ensures NamedVerification(s, key, h, reference, request, named)
  {
    h := LatestHandoff(s.handoffs, key).value;
    AssembledIsFound(s, key, h);
    var review := ReviewFor(s.reviews, key);
    ReviewForIs(s.reviews, key);
    named := LatestWhere(s.verifications, Matching(key, identity, request)).value;
    NewestIsFound(s, Matching(key, identity, request), named);
    gate := LatestGate(s, key, h, review).value;
    GateIsFound(s, key, h, gate);
    audit := LatestSafety(s, key, h, gate.sequence).value;
    SafetyIsFound(s, key, h, gate.sequence, audit);
    PassingAuditPassesAll(s, audit);
  }

  lemma EvidenceIsGranted(s: State, key: string, decision: string, reference: string, request: VerificationRequest,
                          h: Handoff, gate: Verification, audit: Verification, named: Verification)
    requires Numbered(s) && Validates(s) && s.phase == Verify && s.authorization == Verified
    requires Evidenced(s, key, h, gate, audit) && decision in h.decisions
             && NamedVerification(s, key, h, reference, request, named)
    ensures !IntegrationRefusal(s, key, h.identity, decision, reference, request)
  {
    AssembledIsFound(s, key, h);
    ReviewForIs(s.reviews, key);
    NewestIsFound(s, Matching(key, h.identity, request), named);
    GateIsFound(s, key, h, gate);
    SafetyIsFound(s, key, h, gate.sequence, audit);
  }

  // ---------------------------------------------------------------- evidence is only added

  lemma {:induction false} WithReviewKeepsTasks(reviews: seq<Review>, r: Review)
    ensures |WithReview(reviews, r)| == |reviews|
    ensures forall i | 0 <= i < |reviews| :: WithReview(reviews, r)[i].task == reviews[i].task
  {
    if reviews != [] && reviews[0].task != r.task {
      WithReviewKeepsTasks(reviews[1..], r);
    }
  }

  /** Advancing moves phases and reviews; it never touches handoffs or verifications, and never integrates. */
  ghost predicate AdvanceEffect(s: State, t: State) {
    && t.handoffs == s.handoffs && t.verifications == s.verifications && t.tasks == s.tasks && t.sequence >= s.sequence
    && (t.phase == s.phase || (t.phase != Integrate && t.phase != Close))
    && ((s.phase == Integrate || s.phase == Close) ==> t == s)
    && (t.authorization == Verified ==> s.authorization == Verified)
  }

  lemma GateEffect(s: State, key: string, h: Handoff, review: Option<Review>)
    requires s.phase == Verify
    ensures AdvanceGate(s, key, h, review).Ok? ==>
              var t := AdvanceGate(s, key, h, review).value;
              t.handoffs == s.handoffs && t.verifications == s.verifications && t.tasks == s.tasks
              && t.sequence == s.sequence
              && (t.phase == Verify || t.phase == Plan)
              && (t.authorization == s.authorization || t.authorization == MaintainerAuthorized)
  {
  }

  lemma {:induction false} ToPlanEffect(s: State)
    ensures ToPlan(s).Ok? ==> AdvanceEffect(s, ToPlan(s).value) && ToPlan(s).value.authorization == s.authorization
    ensures ToPlan(s).Ok? && s.phase in {Reconcile, Deliberate, Decide} ==> ToPlan(s).value.phase == Plan
    decreases match s.phase case Reconcile => 3 case Deliberate => 2 case Decide => 1 case _ => 0
  {
    if s.phase == Reconcile && Move(s, Deliberate).Ok? {
      ToPlanEffect(Move(s, Deliberate).value);
    } else if s.phase == Deliberate && Move(s, Decide).Ok? {
      ToPlanEffect(Move(s, Decide).value);
    }
  }

  lemma AdvanceHasEffect(s: State, c: Command)
    requires c.Advance? && Apply(s, c).Ok?
    ensures AdvanceEffect(s, Apply(s, c).value)
  {
    if s.phase == Verify && c.key in s.tasks {
      VerifyEffect(s, c.key, c.reviewStatus, c.requested);
    } else if s.phase != Dispatch {
      ToPlanEffect(s);
    }
  }

  lemma VerifyEffect(s: State, key: string, reviewStatus: Option<string>, requested: VerificationRequest)
    requires key in s.tasks && s.phase == Verify
    ensures AdvanceVerify(s, key, reviewStatus, requested).Ok? ==>
              AdvanceEffect(s, AdvanceVerify(s, key, reviewStatus, requested).value)
  {
    var handoff, review := LatestHandoff(s.handoffs, key), ReviewFor(s.reviews, key);
    if handoff.Some? {
      GateEffect(s, key, handoff.value, review);
      if review.Some? {
        ReviewEffect(s, key, handoff.value, review.value, reviewStatus);
      }
    }
  }

  /** The gate stage, entered with other reviews and perhaps a later number. */
  lemma GateEffectFrom(s: State, t: State, key: string, h: Handoff, review: Review)
    requires s.phase == Verify && t == s.(reviews := t.reviews, sequence := t.sequence) && t.sequence >= s.sequence
    ensures AdvanceGate(t, key, h, Some(review)).Ok? ==> AdvanceEffect(s, AdvanceGate(t, key, h, Some(review)).value)
  {
    GateEffect(t, key, h, Some(review));
  }

  lemma PassEffect(s: State, key: string, h: Handoff, review: Review)
    requires s.phase == Verify
    ensures PassReview(s, key, h, review).Ok? ==> AdvanceEffect(s, PassReview(s, key, h, review).value)
  {
    if review.status == Passed {
      GateEffectFrom(s, s.(reviews := WithReview(s.reviews, review)), key, h, review);
    } else {
      var passed := review.(status := Passed, completed := Some(s.sequence + 1));
      GateEffectFrom(s, s.(reviews := WithReview(s.reviews, passed), sequence := s.sequence + 1), key, h, passed);
    }
  }

  lemma ReviewEffect(s: State, key: string, h: Handoff, found: Review, reviewStatus: Option<string>)
    requires s.phase == Verify
    ensures AdvanceReview(s, key, h, found, reviewStatus).Ok? ==>
              AdvanceEffect(s, AdvanceReview(s, key, h, found, reviewStatus).value)
  {
    var review := Retargeted(found, h);
    GateEffectFrom(s, s.(reviews := WithReview(s.reviews, review)), key, h, review);
    PassEffect(s, key, h, review);
  }

  /** Handoffs and verifications only added to, tasks kept. */
  ghost predicate Extends(s: State, t: State) {
    && s.handoffs <= t.handoffs && s.verifications <= t.verifications && s.sequence <= t.sequence
    && forall k | k in s.tasks :: k in t.tasks && t.tasks[k] == s.tasks[k]
  }

  /** Handoffs and verifications are only ever appended to, with a higher number than all before. */
  lemma EvidenceIsAppended(s: State, c: Command)
    requires Numbered(s)
    ensures Numbered(Execute(s, c)) && Extends(s, Execute(s, c))
  {
    match c {
      case Advance(_, _, _, _, _) => if Apply(s, c).Ok? { AdvanceHasEffect(s, c); }
      case IngestHandoff(_, _) => HandoffIsAppended(s, c);
      case RecordVerification(_) => VerificationIsAppended(s, c);
      case _ =>
    }
  }

  lemma HandoffIsAppended(s: State, c: Command)
    requires Numbered(s) && c.IngestHandoff?
    ensures Numbered(Execute(s, c)) && Extends(s, Execute(s, c))
  {
    HandoffKeepsNumbers(s, c.handoff);
  }

  lemma VerificationIsAppended(s: State, c: Command)
    requires Numbered(s) && c.RecordVerification?
    ensures Numbered(Execute(s, c)) && Extends(s, Execute(s, c))
  {
    if Apply(s, c).Ok? { VerificationKeepsNumbers(s, c.record); }
  }

  lemma HandoffKeepsNumbers(s: State, h: Handoff)
    requires Numbered(s)
    ensures Numbered(s.(handoffs := s.handoffs + [h.(sequence := s.sequence + 1)], sequence := s.sequence + 1))
  {
  }

  lemma VerificationKeepsNumbers(s: State, v: Verification)
    requires Numbered(s) && AuditHolds(v)
    ensures var recorded := s.verifications + [v.(sequence := s.sequence + 1)];
            Numbered(s.(verifications := recorded, sequence := s.sequence + 1))
  {
  }

  // ---------------------------------------------------------------- every reachable state

  /** No command leaves integration: nothing but the evidence counter can change. */
  lemma IntegrationIsFinal(s: State, c: Command)
    requires Validates(s) && s.phase == Integrate
    ensures Execute(s, c) == s.(sequence := Execute(s, c).sequence)
  {
    assert s.authorization == IntegrationAuthorized;
  }

  lemma ExecuteIsSafe(s: State, c: Command)
    requires Safe(s)
    ensures Safe(Execute(s, c))
  {
    var t := Execute(s, c);
    EvidenceIsAppended(s, c);
    if s.phase == Integrate {
      IntegrationIsFinal(s, c);
      var key, h, gate, audit :| Evidenced(s, key, h, gate, audit);
      StillEvidenced(s, t, key, h, gate, audit);
    } else if t != s {
      match c {
        case AuthorizeIntegration(_, key, identity, decision, reference, request) =>
          var h, gate, audit, named := GrantedRestsOnEvidence(s, key, identity, decision, reference, request);
          StillEvidenced(s, t, key, h, gate, audit);
        case Advance(_, _, _, _, _) => AdvanceHasEffect(s, c);
        case _ =>
      }
    }
  }

  lemma StillEvidenced(s: State, t: State, key: string, h: Handoff, gate: Verification, audit: Verification)
    requires Evidenced(s, key, h, gate, audit)
    requires t.tasks == s.tasks && t.handoffs == s.handoffs && t.reviews == s.reviews
             && t.verifications == s.verifications
    ensures Evidenced(t, key, h, gate, audit)
  {
  }

  /** A final gate is recorded only at root, for the latest handoff, after a review that passed on it if one
      is needed, and again only when every earlier gate of the candidate lost its evidence. */
  lemma GateIsRecordedAfterReview(s: State, v: Verification)
    requires Numbered(s) && Validates(s) && v.request.finalGate && Apply(s, RecordVerification(v)).Ok?
    ensures v.byRoot && v.task in s.tasks
    ensures exists h :: Assembled(s, v.task, h) && h.identity == v.subject
    ensures s.tasks[v.task] ==>
              exists r :: r in s.reviews && r.task == v.task && r.status == Passed && r.subject == v.subject
    ensures forall e | e in s.verifications && e.task == v.task && e.subject == v.subject && e.request.finalGate ::
              e.invalidated && v.afterEvidenceLoss
  {
    AssembledIsFound(s, v.task, LatestHandoff(s.handoffs, v.task).value);
    ReviewForIs(s.reviews, v.task);
  }

  /** Some task's latest handoff names a verification that is the newest of its request and reusable. */
  ghost predicate SomeHandoffVerified(s: State, handoffs: seq<Handoff>, seen: set<string>) {
    exists i :: 0 <= i < |handoffs| && VerifiedAt(s.verifications, handoffs, seen, i)
  }

  ghost predicate VerifiedAt(vs: seq<Verification>, handoffs: seq<Handoff>, seen: set<string>, i: nat)
    requires i < |handoffs|
  {
    && handoffs[i].task !in seen
    && (forall j | i < j < |handoffs| :: handoffs[j].task != handoffs[i].task)
    && exists b :: b in handoffs[i].verifications && NamedAndReusable(vs, handoffs[i], b)
  }

  /** The backwards scan with its set of seen tasks looks at exactly the latest handoff of each task. */
  lemma {:induction false} ScanIsExact(s: State, handoffs: seq<Handoff>, seen: set<string>)
    ensures HandoffVerified(s.verifications, handoffs, seen) <==> SomeHandoffVerified(s, handoffs, seen)
    decreases |handoffs|
  {
    if handoffs != [] {
      var n := |handoffs| - 1;
      var h := handoffs[n];
      var more := if h.task in seen then seen else seen + {h.task};
      ScanIsExact(s, handoffs[..n], more);
      LookBack(s, handoffs, seen);
      assert HandoffVerified(s.verifications, handoffs, seen) <==>
             (h.task !in seen && exists b :: b in h.verifications && NamedAndReusable(s.verifications, h, b))
             || HandoffVerified(s.verifications, handoffs[..n], more);
    }
  }

  /** The last handoff, or an earlier one of another task. */
  lemma LookBack(s: State, handoffs: seq<Handoff>, seen: set<string>)
    requires handoffs != []
    ensures var n := |handoffs| - 1;
            var h := handoffs[n];
            SomeHandoffVerified(s, handoffs, seen) <==>
            || (h.task !in seen && exists b :: b in h.verifications && NamedAndReusable(s.verifications, h, b))
            || SomeHandoffVerified(s, handoffs[..n], if h.task in seen then seen else seen + {h.task})
  {
    var n := |handoffs| - 1;
    var rest := handoffs[..n];
    var more := if handoffs[n].task in seen then seen else seen + {handoffs[n].task};
    forall i | 0 <= i < n
      ensures VerifiedAt(s.verifications, rest, more, i) <==> VerifiedAt(s.verifications, handoffs, seen, i) {
      assert rest[i] == handoffs[i];
      assert forall j | i < j < n :: rest[j] == handoffs[j];
    }
    assert (handoffs[n].task !in seen
            && exists b :: b in handoffs[n].verifications && NamedAndReusable(s.verifications, handoffs[n], b))
           <==> VerifiedAt(s.verifications, handoffs, seen, n);
    if SomeHandoffVerified(s, rest, more) {
      var i :| 0 <= i < |rest| && VerifiedAt(s.verifications, rest, more, i);
      assert VerifiedAt(s.verifications, handoffs, seen, i);
    }
  }

  /** A verified state has a verified handoff, after every command. */
  lemma VerifiedIsEarned(s: State, c: Command)
    requires s.authorization == Verified ==> SomeHandoffVerified(s, s.handoffs, {})
    ensures var t := Execute(s, c); t.authorization == Verified ==> SomeHandoffVerified(t, t.handoffs, {})
  {
    var t := Execute(s, c);
    ScanIsExact(s, s.handoffs, {});
    ScanIsExact(t, t.handoffs, {});
    if Apply(s, c).Ok? && c.Advance? {
      AdvanceHasEffect(s, c);
    }
  }

  function Start(tasks: map<string, bool>): State {
    State(Reconcile, Proposed, tasks, [], [], [], 0)
  }

  /** In every reachable state: numbers rise, integration has its evidence in order, CLOSE is not reached. */
  lemma {:induction false} EveryStateIsSafe(s: State, cs: seq<Command>)
    requires Safe(s)
    ensures Safe(ExecuteAll(s, cs))
    decreases |cs|
  {
    if cs != [] {
      ExecuteIsSafe(s, cs[0]);
      EveryStateIsSafe(Execute(s, cs[0]), cs[1..]);
    }
  }

  lemma ReachableStatesAreSafe(tasks: map<string, bool>, cs: seq<Command>)
    ensures Safe(ExecuteAll(Start(tasks), cs))
    ensures var t := ExecuteAll(Start(tasks), cs);
            t.authorization == Verified ==> SomeHandoffVerified(t, t.handoffs, {})
  {
    EveryStateIsSafe(Start(tasks), cs);
    EveryVerifiedIsEarned(Start(tasks), cs);
  }

  lemma {:induction false} EveryVerifiedIsEarned(s: State, cs: seq<Command>)
    requires s.authorization == Verified ==> SomeHandoffVerified(s, s.handoffs, {})
    ensures var t := ExecuteAll(s, cs); t.authorization == Verified ==> SomeHandoffVerified(t, t.handoffs, {})
    decreases |cs|
  {
    if cs != [] {
      VerifiedIsEarned(s, cs[0]);
      EveryVerifiedIsEarned(Execute(s, cs[0]), cs[1..]);
    }
  }

  /** From integration on, the evidence is frozen for good. */
  lemma {:induction false} EvidenceIsFrozen(s: State, cs: seq<Command>)
    requires Safe(s) && s.phase == Integrate
    ensures var t := ExecuteAll(s, cs);
            t.phase == Integrate && t.handoffs == s.handoffs && t.reviews == s.reviews
            && t.verifications == s.verifications
    decreases |cs|
  {
    if cs != [] {
      IntegrationIsFinal(s, cs[0]);
      ExecuteIsSafe(s, cs[0]);
      EvidenceIsFrozen(Execute(s, cs[0]), cs[1..]);
    }
  }

  // ---------------------------------------------------------------- the stored state

  /** The coordinator's record: loaded, worked on, validated and written back, or left alone. */
  class Coordinator {
    var stored: State

    constructor (tasks: map<string, bool>)
      ensures stored == Start(tasks) && Safe(stored)
    {
      stored := Start(tasks);
    }

    method Run(c: Command) returns (r: Result<State>)
      requires Safe(stored)
      modifies this
      ensures Safe(stored) && stored == Execute(old(stored), c)
      ensures r.Err? ==> stored == old(stored)
      ensures r.Ok? ==> stored == r.value && Validates(r.value)
      ensures old(stored.phase) == Integrate ==> stored == old(stored).(sequence := stored.sequence)
    {
      ExecuteIsSafe(stored, c);
      if stored.phase == Integrate {
        IntegrationIsFinal(stored, c);
      }
      r := Apply(stored, c);
      if r.Ok? {
        if !Validates(r.value) {
          return Err(REFUSED);
        }
        stored := r.value;
      }
    }
  }
}
