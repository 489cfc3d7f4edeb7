/** The suite operations of the evaluation service: each compares a caller's revision with the
    stored chain and appends at most one revision. Any write may be lost, or may commit and still
    raise, and callers may retry or hold stale revisions. */
module SuiteService {
  import opened Outcomes
  import opened SuiteLineage

  datatype Operation = Seal | Inspect | Modify(cases: seq<(string, nat)>) | Contaminate | Retire

  /** What goes wrong after the checks have passed. */
  datatype Fault = NoFault | WriteLost | WriteCommittedThenRaised | EventLost

  const STALE := "evaluation_suite_revision_stale"
  const EVENT_FAILED := "event_append_failed"

  datatype EvidenceStatus = Passed | Failed | Inconclusive | SubjectiveOnly | Unevaluated | EvidenceContaminated

  datatype Evaluation = Evaluation(suite: Suite, loop: bool, claimedState: SuiteState, evidence: EvidenceStatus)

  // ---------------------------------------------------------------- the effect of one operation

  /** Cases a suite can have: at least one, and no two of the same content. */
  ghost predicate Listable(cases: Cases) {
    cases != map[] && forall k, l | k in cases && l in cases && k != l :: cases[k] != cases[l]
  }

  /** Case ids and case contents must be unique, and there must be a case. */
  function CasesFrom(cases: seq<(string, nat)>): Option<Cases> {
    if cases == [] then None
    else if exists i, j | 0 <= i < j < |cases| :: cases[i].0 == cases[j].0 || cases[i].1 == cases[j].1 then None
    else Some(map c | c in cases :: c.0 := c.1)
  }

  /** Cases are accepted exactly when there is one and no id or content comes twice, and are then those given. */
  lemma CasesAreGiven(cases: seq<(string, nat)>)
    ensures CasesFrom(cases).Some? <==>
              cases != [] && forall i, j | 0 <= i < j < |cases| :: cases[i].0 != cases[j].0 && cases[i].1 != cases[j].1
    ensures var r := CasesFrom(cases);
            r.Some? ==>
              && Listable(r.value)
              && (forall c | c in cases :: c.0 in r.value && r.value[c.0] == c.1)
              && (forall k | k in r.value :: (k, r.value[k]) in cases)
  {
    if CasesFrom(cases).Some? {
      var m := CasesFrom(cases).value;
      forall c | c in cases ensures c.0 in m && m[c.0] == c.1 {
        var i :| 0 <= i < |cases| && cases[i] == c;
        var d :| d in cases && d.0 == c.0 && m[c.0] == d.1;
        var j :| 0 <= j < |cases| && cases[j] == d;
      }
      assert cases[0] in cases;
      forall k, l | k in m && l in m && k != l ensures m[k] != m[l] {
        var i :| 0 <= i < |cases| && cases[i] == (k, m[k]);
        var j :| 0 <= j < |cases| && cases[j] == (l, m[l]);
      }
    }
  }

  datatype Plan = Reject(code: string) | Keep | Write(revised: Suite)

  function Revise(current: Suite, refOf: Suite -> Ref, state: SuiteState): Plan {
    Write(current.(state := state, prior := Some(refOf(current))))
  }

  /** What the operation asks of a stored revision, before the chain is consulted. */
  function PlanOf(op: Operation, current: Suite, refOf: Suite -> Ref): Plan {
    match op
    case Seal =>
      if current.state != Unsealed || current.prior != None then Reject("evaluation_suite_cannot_seal")
      else Revise(current, refOf, Sealed)
    case Inspect =>
      if current.kind != Confirmation || current.state != Sealed then Reject("confirmation_suite_not_sealed")
      else Revise(current, refOf, Unsealed)
    case Modify(cases) =>
      if current.state == Contaminated then Reject("evaluation_suite_contaminated")
      else if current.state == Retired then Reject("evaluation_suite_retired")
      else if CasesFrom(cases) == None then Reject("evaluation_suite_cases_invalid")
      else if CasesFrom(cases).value == current.cases then Reject("evaluation_suite_modification_empty")
      else Write(current.(state := Modified, cases := CasesFrom(cases).value, prior := Some(refOf(current))))
    case Contaminate =>
      if current.state == Retired then Reject("evaluation_suite_retired")
      else if current.state == Contaminated then Keep
      else Revise(current, refOf, Contaminated)
    case Retire => if current.state == Retired then Keep else Revise(current, refOf, Retired)
  }

  // ---------------------------------------------------------------- histories

  function Revisions(store: seq<Suite>, id: string): seq<Suite> {
    if store == [] then []
    else Revisions(store[..|store| - 1], id) + (if store[|store| - 1].suiteId == id then [store[|store| - 1]] else [])
  }

  /** A lawful step from one revision to the next. */
  ghost predicate LawfulStep(a: Suite, b: Suite) {
    && b.suiteId == a.suiteId && b.kind == a.kind && b.evaluators == a.evaluators
    && match b.state
       case Sealed => a.state == Unsealed && a.prior == None && b.cases == a.cases
       case Unsealed => a.kind == Confirmation && a.state == Sealed && b.cases == a.cases
       case Modified => a.state != Contaminated && a.state != Retired && b.cases != a.cases && Listable(b.cases)
       case Contaminated => a.state != Contaminated && a.state != Retired && b.cases == a.cases
       case Retired => a.state != Retired && b.cases == a.cases
  }

  /** A chain that starts unsealed and takes only lawful steps. */
  ghost predicate History(c: seq<Suite>, refOf: Suite -> Ref) {
    && Chain(c, refOf)
    && c[0].state == Unsealed
    && forall i, j | 0 <= i < |c| && 0 <= j < |c| && j == i + 1 :: LawfulStep(c[i], c[j])
  }

  ghost predicate TellsApart(refOf: Suite -> Ref, a: Suite, b: Suite) {
    refOf(a) == refOf(b) ==> a == b
  }

  /** Content identity: different revisions have different references. */
  ghost predicate Injective(refOf: Suite -> Ref) {
    forall a, b :: TellsApart(refOf, a, b)
  }

  ghost predicate HistoryOf(store: seq<Suite>, id: string, refOf: Suite -> Ref) {
    Revisions(store, id) == [] || History(Revisions(store, id), refOf)
  }

  ghost predicate StoreOk(store: seq<Suite>, refOf: Suite -> Ref) {
    forall id :: HistoryOf(store, id, refOf)
  }

  lemma {:induction false} RevisionsAre(store: seq<Suite>, id: string)
    ensures forall s :: s in Revisions(store, id) <==> s in store && s.suiteId == id
  {
    if store != [] {
      RevisionsAre(store[..|store| - 1], id);
      assert store == store[..|store| - 1] + [store[|store| - 1]];
    }
  }

  lemma RevisionsAppend(store: seq<Suite>, s: Suite, id: string)
    ensures Revisions(store + [s], id) == Revisions(store, id) + (if s.suiteId == id then [s] else [])
  {
    assert (store + [s])[..|store|] == store;
  }

  // ---------------------------------------------------------------- what every history satisfies

  /** SEALED appears only as the second revision, so at most once. */
  lemma SealedOnlySecond(c: seq<Suite>, refOf: Suite -> Ref, i: nat)
    requires History(c, refOf) && i < |c| && c[i].state == Sealed
    ensures i == 1 && c[1].cases == c[0].cases
  {
    if i > 0 {
      assert LawfulStep(c[i - 1], c[i]);
      LaterHasPrior(c, refOf, i - 1);
    }
  }

  /** CONTAMINATED is followed by RETIRED or nothing; nothing follows RETIRED. */
  lemma ContaminationIsFinal(c: seq<Suite>, refOf: Suite -> Ref, i: nat, j: nat)
    requires History(c, refOf) && i < j < |c|
    ensures c[i].state != Retired
    ensures c[i].state == Contaminated ==> j == i + 1 && j == |c| - 1 && c[j].state == Retired
  {
    assert LawfulStep(c[i], c[i + 1]);
    if i + 2 < |c| {
      assert LawfulStep(c[i + 1], c[i + 2]);
    }
  }

  /** Case membership changes exactly on the steps into MODIFIED, and everything else about the suite never does. */
  lemma {:induction false} MembershipChangesOnlyOnModified(c: seq<Suite>, refOf: Suite -> Ref, i: nat, j: nat)
    requires History(c, refOf) && i <= j < |c|
    ensures c[j].suiteId == c[i].suiteId && c[j].kind == c[i].kind && c[j].evaluators == c[i].evaluators
    ensures (forall k | i < k <= j :: c[k].state != Modified) ==> c[j].cases == c[i].cases
    ensures j == i + 1 ==> (c[j].state == Modified <==> c[j].cases != c[i].cases)
  {
    if i < j {
      MembershipChangesOnlyOnModified(c, refOf, i, j - 1);
      assert LawfulStep(c[j - 1], c[j]);
    }
  }

  /** A confirmation suite whose head is sealed has exactly two revisions: registered, then sealed unchanged. */
  lemma SealedHeadIsPristine(c: seq<Suite>, refOf: Suite -> Ref)
    requires History(c, refOf) && c[|c| - 1].state == Sealed
    ensures |c| == 2 && c[0].state == Unsealed && c[0].cases == c[1].cases
  {
    SealedOnlySecond(c, refOf, |c| - 1);
  }

  // ---------------------------------------------------------------- appending to a history

  lemma AppendRevision(c: seq<Suite>, refOf: Suite -> Ref, op: Operation)
    requires History(c, refOf) && Injective(refOf)
    requires PlanOf(op, c[|c| - 1], refOf).Write?
    ensures History(c + [PlanOf(op, c[|c| - 1], refOf).revised], refOf)
  {
    var last := c[|c| - 1];
    var revised := PlanOf(op, last, refOf).revised;
    if op.Modify? { CasesAreGiven(op.cases); }
    assert LawfulStep(last, revised);
    RevisedIsNew(c, refOf, revised);
    var d := c + [revised];
    assert forall i | 0 <= i < |c| :: d[i] == c[i];
  }

  /** A revision naming the end of the chain is in it nowhere. */
  lemma RevisedIsNew(c: seq<Suite>, refOf: Suite -> Ref, revised: Suite)
    requires Chain(c, refOf) && Injective(refOf) && revised.prior == Some(refOf(c[|c| - 1]))
    ensures forall i | 0 <= i < |c| :: refOf(c[i]) != refOf(revised)
  {
    forall i | 0 <= i < |c| ensures c[i] != revised {
      if i > 0 {
        assert c[i].prior == Some(refOf(c[i - 1])) && refOf(c[i - 1]) != refOf(c[|c| - 1]);
      }
    }
    assert forall i | 0 <= i < |c| :: TellsApart(refOf, c[i], revised);
  }

  lemma StoreGrows(store: seq<Suite>, refOf: Suite -> Ref, s: Suite)
    requires StoreOk(store, refOf) && History(Revisions(store, s.suiteId) + [s], refOf)
    ensures StoreOk(store + [s], refOf)
  {
    forall id ensures HistoryOf(store + [s], id, refOf) {
      assert HistoryOf(store, id, refOf);
      RevisionsAppend(store, s, id);
    }
  }

  // ---------------------------------------------------------------- the outcome of one call

  /** What a call on revision `s` may do to the store and answer, by its place in the stored chain. */
  ghost predicate Performed(store: seq<Suite>, store': seq<Suite>, refOf: Suite -> Ref, op: Operation, s: Suite,
                            fault: Fault, r: Result<Suite>)
  {
    var c := Revisions(store, s.suiteId);
    if s !in store then r == Err(STORE_MISMATCH) && store' == store
    else match PlanOf(op, s, refOf)
      case Reject(code) => r == Err(code) && store' == store
      case Keep => store' == store && r == if IsHead(c, s) then Ok(s) else Err(STALE)
      case Write(revised) =>
        if IsHead(c, s) then
          && store' == (if fault == WriteLost then store else store + [revised])
          && r == (match fault case NoFault => Ok(revised) case EventLost => Err(EVENT_FAILED) case _ => Err(CONFLICT))
        else
          && store' == store
          && exists next :: FollowedBy(c, s, next) && Retried(next, revised, fault, r)
  }

  /** A call whose revision already has a successor: the same request is answered with it, another one is refused. */
  ghost predicate Retried(next: Suite, revised: Suite, fault: Fault, r: Result<Suite>) {
    r == if next != revised then Err(CONFLICT) else if fault == EventLost then Err(EVENT_FAILED) else Ok(next)
  }

  /** One linear chain per suite is kept by every call, with any fault. */
  lemma CallKeepsHistories(store: seq<Suite>, store': seq<Suite>, refOf: Suite -> Ref, op: Operation, s: Suite,
                           fault: Fault, r: Result<Suite>)
    requires StoreOk(store, refOf) && Injective(refOf) && Performed(store, store', refOf, op, s, fault, r)
    ensures StoreOk(store', refOf) && store <= store' && |store'| <= |store| + 1
  {
    var c := Revisions(store, s.suiteId);
    RevisionsAre(store, s.suiteId);
    assert HistoryOf(store, s.suiteId, refOf);
    if s in store && PlanOf(op, s, refOf).Write? && c != [] && s == c[|c| - 1] {
      AppendRevision(c, refOf, op);
      StoreGrows(store, refOf, PlanOf(op, s, refOf).revised);
    }
  }

  /** A call that changed the store was made on the head and wrote the planned revision. */
  lemma CallWrote(store: seq<Suite>, store': seq<Suite>, refOf: Suite -> Ref, op: Operation, s: Suite, fault: Fault,
                  r: Result<Suite>)
    requires Performed(store, store', refOf, op, s, fault, r) && store' != store
    ensures s in store && PlanOf(op, s, refOf).Write?
    ensures Revisions(store, s.suiteId) != [] && s == Revisions(store, s.suiteId)[|Revisions(store, s.suiteId)| - 1]
    ensures store' == store + [PlanOf(op, s, refOf).revised]
  {
  }

  /** Asked again on a revision whose successor is the one it would write, the call answers that successor. */
  lemma SecondCall(c: seq<Suite>, store: seq<Suite>, store': seq<Suite>, refOf: Suite -> Ref, op: Operation, s: Suite,
                   r: Result<Suite>)
    requires c == Revisions(store, s.suiteId) && Chain(c, refOf) && |c| >= 2 && s in store
    requires PlanOf(op, s, refOf).Write? && s == c[|c| - 2] && c[|c| - 1] == PlanOf(op, s, refOf).revised
    requires Performed(store, store', refOf, op, s, NoFault, r)
    ensures store' == store && r == Ok(c[|c| - 1])
  {
    OneIndex(c, refOf, |c| - 2);
  }

  /** A caller that retries a call whose write committed gets that revision, and the store does not grow again. */
  lemma RetryIsIdempotent(store: seq<Suite>, once: seq<Suite>, twice: seq<Suite>, refOf: Suite -> Ref,
                          op: Operation, s: Suite, fault: Fault, r: Result<Suite>, again: Result<Suite>)
    requires StoreOk(store, refOf) && Injective(refOf)
    requires Performed(store, once, refOf, op, s, fault, r) && once != store
    requires Performed(once, twice, refOf, op, s, NoFault, again)
    ensures twice == once && again == Ok(once[|once| - 1])
  {
    CallWrote(store, once, refOf, op, s, fault, r);
    assert HistoryOf(store, s.suiteId, refOf);
    var c := Revisions(store, s.suiteId);
    var revised := PlanOf(op, s, refOf).revised;
    RevisionsAppend(store, revised, s.suiteId);
    AppendRevision(c, refOf, op);
    SecondCall(c + [revised], once, twice, refOf, op, s, again);
  }

  lemma OneIndex(c: seq<Suite>, refOf: Suite -> Ref, k: nat)
    requires Chain(c, refOf) && k < |c|
    ensures forall i | 0 <= i < |c| && c[i] == c[k] :: i == k
  {
    OnceEach(c, refOf);
  }

  // ---------------------------------------------------------------- the service

  ghost predicate IsHead(c: seq<Suite>, s: Suite) { c != [] && s == c[|c| - 1] }

  ghost predicate FollowedBy(c: seq<Suite>, s: Suite, next: Suite) {
    exists i, j :: 0 <= i < |c| && 0 <= j < |c| && j == i + 1 && c[i] == s && c[j] == next
  }

  lemma PlaceAt(c: seq<Suite>, refOf: Suite -> Ref, successors: map<Ref, Suite>, i: nat)
    requires Chain(c, refOf) && SuccessorsOf(successors, c) && i < |c|
    ensures i == |c| - 1 ==> refOf(c[i]) !in successors
    ensures i < |c| - 1 ==> refOf(c[i]) in successors && FollowedBy(c, c[i], successors[refOf(c[i])])
  {
    ChainSuccessors(c, refOf, successors);
    if i < |c| - 1 {
      assert successors[refOf(c[i])] == c[i + 1];
      assert FollowedBy(c, c[i], c[i + 1]);
    }
  }

  lemma PlaceInChain(c: seq<Suite>, refOf: Suite -> Ref, successors: map<Ref, Suite>, s: Suite)
    requires Chain(c, refOf) && SuccessorsOf(successors, c) && s in c
    ensures refOf(s) !in successors ==> IsHead(c, s)
    ensures refOf(s) in successors ==> FollowedBy(c, s, successors[refOf(s)])
  {
    var i :| 0 <= i < |c| && c[i] == s;
    PlaceAt(c, refOf, successors, i);
  }

  lemma AnswersSuccessor(store: seq<Suite>, refOf: Suite -> Ref, op: Operation, s: Suite, next: Suite, fault: Fault)
    requires StoreOk(store, refOf) && s in store && PlanOf(op, s, refOf).Write?
    requires FollowedBy(Revisions(store, s.suiteId), s, next)
    ensures forall r | Retried(next, PlanOf(op, s, refOf).revised, fault, r) ::
              Performed(store, store, refOf, op, s, fault, r)
  {
    var c := Revisions(store, s.suiteId);
    assert HistoryOf(store, s.suiteId, refOf);
    OneIndex(c, refOf, |c| - 1);
  }

  lemma WritesAtHead(store: seq<Suite>, refOf: Suite -> Ref, op: Operation, s: Suite, fault: Fault)
    requires s in store && PlanOf(op, s, refOf).Write? && IsHead(Revisions(store, s.suiteId), s)
    ensures var written := store + [PlanOf(op, s, refOf).revised];
            Performed(store, if fault == WriteLost then store else written, refOf, op, s, fault,
                      match fault case NoFault => Ok(PlanOf(op, s, refOf).revised)
                                  case EventLost => Err(EVENT_FAILED) case _ => Err(CONFLICT))
  {
  }

  /** A chain all of whose references equal that of a root is that root alone. */
  lemma OnlySuite(c: seq<Suite>, refOf: Suite -> Ref, s: Suite)
    requires Injective(refOf) && (c != [] ==> Chain(c, refOf))
    ensures c != [] ==> (c == [s] <==> forall t | t in c :: refOf(t) == refOf(s))
  {
    assert forall t | t in c :: TellsApart(refOf, t, s);
    if |c| > 1 {
      assert c[0] in c && c[1] in c && refOf(c[0]) != refOf(c[1]);
    }
  }

  /** Recorded suite-backed evidence that stays sound: it names a stored, unretired revision by its true
      state, and clean confirmation evidence names a suite sealed as registered. */
  ghost predicate SoundEvidence(e: Evaluation, store: seq<Suite>, refOf: Suite -> Ref) {
    && e.suite in store && e.claimedState == e.suite.state != Retired
    && (e.suite.state == Contaminated ==> e.evidence == EvidenceContaminated)
    && (e.suite.kind == Confirmation ==> !e.loop)
    && (e.suite.kind == Confirmation && e.evidence != EvidenceContaminated ==>
          && e.suite.state == Sealed
          && exists root :: root in store && SealedFrom(root, e.suite, refOf))
  }

  ghost predicate SealedFrom(root: Suite, sealed: Suite, refOf: Suite -> Ref) {
    && root.prior == None && root.state == Unsealed && root.cases == sealed.cases
    && sealed.prior == Some(refOf(root)) && sealed.state == Sealed
  }

  // ---------------------------------------------------------------- whole runs of calls

  datatype Call =
    | Register(suite: Suite, fault: Fault)
    | Perform(op: Operation, on: Suite, fault: Fault)
    | Record(evidence: Evaluation)

  datatype Stored = Stored(suites: seq<Suite>, results: seq<Evaluation>)

  /** The store after registering a suite. */
  function AfterRegister(store: seq<Suite>, suite: Suite, fault: Fault): seq<Suite> {
    if suite.state == Unsealed && suite.prior == None && Revisions(store, suite.suiteId) == []
       && fault != WriteLost
    then store + [suite]
    else store
  }

  /** The store after an operation on any revision, current, stale or unknown. */
  ghost function AfterPerform(store: seq<Suite>, refOf: Suite -> Ref, op: Operation, s: Suite,
                              fault: Fault): seq<Suite> {
    if s in store && PlanOf(op, s, refOf).Write? && IsHead(Revisions(store, s.suiteId), s) && fault != WriteLost then
      store + [PlanOf(op, s, refOf).revised]
    else store
  }

  /** Why the suite gate refuses evidence. */
  ghost predicate GateRefuses(store: seq<Suite>, e: Evaluation) {
    || (e.claimedState == Contaminated && e.evidence != EvidenceContaminated)
    || !IsHead(Revisions(store, e.suite.suiteId), e.suite)
    || e.claimedState != e.suite.state || e.suite.state == Retired
    || (e.suite.kind == Confirmation && (e.loop || (e.suite.state != Sealed && e.evidence != EvidenceContaminated)))
  }

  ghost function AfterCall(now: Stored, refOf: Suite -> Ref, call: Call): Stored {
    match call
    case Register(suite, fault) => now.(suites := AfterRegister(now.suites, suite, fault))
    case Perform(op, s, fault) => now.(suites := AfterPerform(now.suites, refOf, op, s, fault))
    case Record(e) => if GateRefuses(now.suites, e) then now else now.(results := now.results + [e])
  }

  ghost function AfterCalls(now: Stored, refOf: Suite -> Ref, calls: seq<Call>): Stored
    decreases |calls|
  {
    if calls == [] then now else AfterCalls(AfterCall(now, refOf, calls[0]), refOf, calls[1..])
  }

  /** One lawful chain per suite, and every recorded result still sound. */
  ghost predicate Lawful(now: Stored, refOf: Suite -> Ref) {
    StoreOk(now.suites, refOf) && forall e | e in now.results :: SoundEvidence(e, now.suites, refOf)
  }

  /** What an operation may do to the store leaves no choice. */
  lemma PerformedIsAfter(store: seq<Suite>, store': seq<Suite>, refOf: Suite -> Ref, op: Operation, s: Suite,
                         fault: Fault, r: Result<Suite>)
    requires Performed(store, store', refOf, op, s, fault, r)
    ensures store' == AfterPerform(store, refOf, op, s, fault)
  {
  }

  lemma RegisterKeepsHistories(store: seq<Suite>, refOf: Suite -> Ref, suite: Suite, fault: Fault)
    requires StoreOk(store, refOf)
    ensures StoreOk(AfterRegister(store, suite, fault), refOf)
  {
    if AfterRegister(store, suite, fault) != store {
      assert [] + [suite] == [suite];
      StoreGrows(store, refOf, suite);
    }
  }

  lemma PerformKeepsHistories(store: seq<Suite>, refOf: Suite -> Ref, op: Operation, s: Suite, fault: Fault)
    requires StoreOk(store, refOf) && Injective(refOf)
    ensures StoreOk(AfterPerform(store, refOf, op, s, fault), refOf)
  {
    if AfterPerform(store, refOf, op, s, fault) != store {
      assert HistoryOf(store, s.suiteId, refOf);
      AppendRevision(Revisions(store, s.suiteId), refOf, op);
      StoreGrows(store, refOf, PlanOf(op, s, refOf).revised);
    }
  }

  /** Evidence stays sound while the store grows. */
  lemma SoundStays(e: Evaluation, store: seq<Suite>, store': seq<Suite>, refOf: Suite -> Ref)
    requires SoundEvidence(e, store, refOf) && store <= store'
    ensures SoundEvidence(e, store', refOf)
  {
    forall s | s in store ensures s in store' {
      var i :| 0 <= i < |store| && store[i] == s;
      assert store'[i] == s;
    }
    if e.suite.kind == Confirmation && e.evidence != EvidenceContaminated {
      var root :| root in store && SealedFrom(root, e.suite, refOf);
      assert root in store' && SealedFrom(root, e.suite, refOf);
    }
  }

  lemma AcceptedIsSound(e: Evaluation, store: seq<Suite>, refOf: Suite -> Ref)
    requires StoreOk(store, refOf) && !GateRefuses(store, e)
    ensures SoundEvidence(e, store, refOf)
  {
    var c := Revisions(store, e.suite.suiteId);
    RevisionsAre(store, e.suite.suiteId);
    assert HistoryOf(store, e.suite.suiteId, refOf);
    assert c[|c| - 1] in c;
    if e.suite.state == Sealed {
      SealedHeadIsPristine(c, refOf);
      assert c[0] in c && SealedFrom(c[0], e.suite, refOf);
    }
  }

  lemma CallKeepsLawful(now: Stored, refOf: Suite -> Ref, call: Call)
    requires Lawful(now, refOf) && Injective(refOf)
    ensures var next := AfterCall(now, refOf, call);
            Lawful(next, refOf) && now.suites <= next.suites && now.results <= next.results
  {
    var next := AfterCall(now, refOf, call);
    match call {
      case Register(suite, fault) => RegisterKeepsHistories(now.suites, refOf, suite, fault);
      case Perform(op, s, fault) => PerformKeepsHistories(now.suites, refOf, op, s, fault);
      case Record(e) => if !GateRefuses(now.suites, e) { AcceptedIsSound(e, now.suites, refOf); }
    }
    forall e | e in now.results ensures SoundEvidence(e, next.suites, refOf) {
      SoundStays(e, now.suites, next.suites, refOf);
    }
  }

  /** Over any calls, with any revisions and any faults: every suite is one lawful chain, the store and the
      results only grow, and all evidence ever recorded is still sound. */
  lemma {:induction false} EveryRunIsLawful(now: Stored, refOf: Suite -> Ref, calls: seq<Call>)
    requires Lawful(now, refOf) && Injective(refOf)
    ensures var end := AfterCalls(now, refOf, calls);
            Lawful(end, refOf) && now.suites <= end.suites && now.results <= end.results
    decreases |calls|
  {
    if calls != [] {
      CallKeepsLawful(now, refOf, calls[0]);
      EveryRunIsLawful(AfterCall(now, refOf, calls[0]), refOf, calls[1..]);
    }
  }

  /** From the empty store: what the chain of any suite looks like after any calls at all. */
  lemma ChainsOfEveryRun(refOf: Suite -> Ref, calls: seq<Call>, id: string, i: nat, j: nat)
    requires Injective(refOf)
    requires i < j < |Revisions(AfterCalls(Stored([], []), refOf, calls).suites, id)|
    ensures var c := Revisions(AfterCalls(Stored([], []), refOf, calls).suites, id);
            && History(c, refOf)
            && (c[j].state == Sealed ==> j == 1) && c[i].state != Retired
            && (c[i].state == Contaminated ==> c[j].state == Retired)
            && ((forall k | i < k <= j :: c[k].state != Modified) ==> c[j].cases == c[i].cases)
  {
    var end := AfterCalls(Stored([], []), refOf, calls);
    EmptyIsLawful(refOf);
    EveryRunIsLawful(Stored([], []), refOf, calls);
    assert HistoryOf(end.suites, id, refOf);
    var c := Revisions(end.suites, id);
    if c[j].state == Sealed { SealedOnlySecond(c, refOf, j); }
    ContaminationIsFinal(c, refOf, i, j);
    if forall k | i < k <= j :: c[k].state != Modified { MembershipChangesOnlyOnModified(c, refOf, i, j); }
  }

  lemma EmptyIsLawful(refOf: Suite -> Ref)
    ensures Lawful(Stored([], []), refOf)
  {
    assert forall id :: Revisions([], id) == [];
  }

  class EvaluationService {
    const refOf: Suite -> Ref
    var suites: seq<Suite>
    var results: seq<Evaluation>

    ghost predicate Valid()
      reads this
    {
      && Injective(refOf)
      && StoreOk(suites, refOf)
      && forall e | e in results :: SoundEvidence(e, suites, refOf)
    }

    constructor (refOf: Suite -> Ref)
      requires Injective(refOf)
      ensures Valid() && suites == [] && results == [] && this.refOf == refOf
    {
      this.refOf := refOf;
      suites, results := [], [];
    }

    /** The stored revisions of one suite, validated. */
    method StoredLineage(id: string) returns (r: Result<Lineage>)
      requires Valid()
      ensures r.Ok? <==> Revisions(suites, id) != []
      ensures r.Err? ==> r.code == STORE_MISMATCH
      ensures r.Ok? ==>
                var c := Revisions(suites, id);
                History(c, refOf) && SuccessorsOf(r.value.successors, c) && r.value.head == c[|c| - 1]
    {
      ghost var c := Revisions(suites, id);
      assert HistoryOf(suites, id, refOf);
      assert c != [] ==> ChainOf(c, c, refOf);
      r := ValidatedLineage(Revisions(suites, id), refOf);
    }

    /** The stored successor of a revision. A validated revision without one is the head. */
    method Successor(current: Suite) returns (next: Option<Suite>)
      requires Valid() && current in suites
      ensures next.Some? ==> FollowedBy(Revisions(suites, current.suiteId), current, next.value)
      ensures next == None ==> IsHead(Revisions(suites, current.suiteId), current)
    {
      RevisionsAre(suites, current.suiteId);
      var lineage := StoredLineage(current.suiteId);
      var successors := lineage.value.successors;
      PlaceInChain(Revisions(suites, current.suiteId), refOf, successors, current);
      next := if refOf(current) in successors then Some(successors[refOf(current)]) else None;
    }

    /** Compare with the stored chain and append, or answer the successor a retry would write. */
    method PersistRevision(current: Suite, revised: Suite, ghost op: Operation, fault: Fault) returns (r: Result<Suite>)
      requires Valid() && current in suites && PlanOf(op, current, refOf) == Write(revised)
      modifies `suites
      ensures Valid() && Performed(old(suites), suites, refOf, op, current, fault, r)
    {
      var successor := Successor(current);
      if successor.Some? {
        AnswersSuccessor(suites, refOf, op, current, successor.value, fault);
        return if successor.value != revised then Err(CONFLICT)
          else if fault == EventLost then Err(EVENT_FAILED)
          else Ok(successor.value);
      }
      WritesAtHead(suites, refOf, op, current, fault);
      if fault != WriteLost {
        Append(current, revised, op);
      }
      return match fault case NoFault => Ok(revised) case EventLost => Err(EVENT_FAILED) case _ => Err(CONFLICT);
    }

    /** One durable write of a revision that continues its suite's chain. */
    method Append(ghost current: Suite, revised: Suite, ghost op: Operation)
      requires Valid() && IsHead(Revisions(suites, revised.suiteId), current)
               && PlanOf(op, current, refOf) == Write(revised)
      modifies `suites
      ensures Valid() && suites == old(suites) + [revised]
    {
      assert HistoryOf(suites, revised.suiteId, refOf);
      AppendRevision(Revisions(suites, revised.suiteId), refOf, op);
      StoreGrows(suites, refOf, revised);
      suites := suites + [revised];
    }

    method SealSuite(suite: Suite, fault: Fault) returns (r: Result<Suite>)
      requires Valid()
      modifies `suites
      ensures Valid() && Performed(old(suites), suites, refOf, Seal, suite, fault, r)
      ensures r.Ok? ==> r.value.state == Sealed
    {
      if suite !in suites {
        return Err(STORE_MISMATCH);
      }
      if suite.state != Unsealed || suite.prior != None {
        return Err("evaluation_suite_cannot_seal");
      }
      r := WriteRevision(suite, Sealed, Seal, fault);
    }

    method InspectConfirmationSuite(suite: Suite, fault: Fault) returns (r: Result<Suite>)
      requires Valid()
      modifies `suites
      ensures Valid() && Performed(old(suites), suites, refOf, Inspect, suite, fault, r)
      ensures r.Ok? ==> r.value.state == Unsealed
    {
      if suite !in suites {
        return Err(STORE_MISMATCH);
      }
      if suite.kind != Confirmation || suite.state != Sealed {
        return Err("confirmation_suite_not_sealed");
      }
      r := WriteRevision(suite, Unsealed, Inspect, fault);
    }

    method ModifySuite(suite: Suite, cases: seq<(string, nat)>, fault: Fault) returns (r: Result<Suite>)
      requires Valid()
      modifies `suites
      ensures Valid() && Performed(old(suites), suites, refOf, Modify(cases), suite, fault, r)
      ensures r.Ok? ==> r.value.state == Modified && Some(r.value.cases) == CasesFrom(cases)
    {
      if suite !in suites {
        return Err(STORE_MISMATCH);
      }
      if suite.state == Contaminated {
        return Err("evaluation_suite_contaminated");
      }
      if suite.state == Retired {
        return Err("evaluation_suite_retired");
      }
      var membership := CasesFrom(cases);
      if membership == None {
        return Err("evaluation_suite_cases_invalid");
      }
      var revised := suite.(state := Modified, cases := membership.value, prior := Some(refOf(suite)));
      if revised.cases == suite.cases {
        return Err("evaluation_suite_modification_empty");
      }
      r := PersistRevision(suite, revised, Modify(cases), fault);
    }

    method MarkSuiteContaminated(suite: Suite, fault: Fault) returns (r: Result<Suite>)
      requires Valid()
      modifies `suites
      ensures Valid() && Performed(old(suites), suites, refOf, Contaminate, suite, fault, r)
      ensures r.Ok? ==> r.value.state == Contaminated
    {
      if suite !in suites {
        return Err(STORE_MISMATCH);
      }
      if suite.state == Retired {
        return Err("evaluation_suite_retired");
      }
      if suite.state == Contaminated {
        r := RequireCurrent(suite);
        return r;
      }
      r := WriteRevision(suite, Contaminated, Contaminate, fault);
    }

    method RetireSuite(suite: Suite, fault: Fault) returns (r: Result<Suite>)
      requires Valid()
      modifies `suites
      ensures Valid() && Performed(old(suites), suites, refOf, Retire, suite, fault, r)
      ensures r.Ok? ==> r.value.state == Retired
    {
      if suite !in suites {
        return Err(STORE_MISMATCH);
      }
      if suite.state == Retired {
        r := RequireCurrent(suite);
        return r;
      }
      r := WriteRevision(suite, Retired, Retire, fault);
    }

    method WriteRevision(current: Suite, state: SuiteState, ghost op: Operation, fault: Fault)
      returns (r: Result<Suite>)
      requires Valid() && current in suites && PlanOf(op, current, refOf) == Revise(current, refOf, state)
      modifies `suites
      ensures Valid() && Performed(old(suites), suites, refOf, op, current, fault, r)
    {
      var revised := current.(state := state, prior := Some(refOf(current)));
      r := PersistRevision(current, revised, op, fault);
    }

    /** The revision itself when it is the head of its chain, an error when it is stale. */
    method RequireCurrent(suite: Suite) returns (r: Result<Suite>)
      requires Valid() && suite in suites
      ensures r == if IsHead(Revisions(suites, suite.suiteId), suite) then Ok(suite) else Err(STALE)
    {
      RevisionsAre(suites, suite.suiteId);
      assert HistoryOf(suites, suite.suiteId, refOf);
      var lineage := StoredLineage(suite.suiteId);
      var head := lineage.value.head;
      assert TellsApart(refOf, head, suite);
      r := if refOf(head) != refOf(suite) then Err(STALE) else Ok(suite);
    }

    /** The first revision of a suite. Registering it again changes nothing while it is still the only one. */
    method RegisterSuite(suite: Suite, fault: Fault) returns (r: Result<Suite>)
      requires Valid()
      modifies `suites
      ensures Valid() && suites == AfterRegister(old(suites), suite, fault)
      ensures suite.state != Unsealed || suite.prior != None ==>
                r == Err("evaluation_suite_initial_state_invalid") && suites == old(suites)
      ensures suite.state == Unsealed && suite.prior == None ==>
                var c := Revisions(old(suites), suite.suiteId);
                if c == [] then
                  && suites == (if fault == WriteLost then old(suites) else old(suites) + [suite])
                  && (r.Ok? <==> fault == NoFault) && (r.Ok? ==> r.value == suite)
                else
                  && suites == old(suites)
                  && (c == [suite] ==> (r.Ok? <==> fault != EventLost) && (r.Ok? ==> r.value == suite))
                  && (c != [suite] ==> r == Err(CONFLICT))
    {
      if suite.state != Unsealed || suite.prior != None {
        return Err("evaluation_suite_initial_state_invalid");
      }
      assert HistoryOf(suites, suite.suiteId, refOf);
      RevisionsAre(suites, suite.suiteId);
      var stored := Revisions(suites, suite.suiteId);
      OnlySuite(stored, refOf, suite);
      if exists s | s in stored :: refOf(s) != refOf(suite) {
        return Err(CONFLICT);
      }
      if stored != [] {
        return if fault == EventLost then Err(EVENT_FAILED) else Ok(suite);
      }
      if fault == WriteLost {
        return Err(CONFLICT);
      }
      StoreGrows(suites, refOf, suite);
      suites := suites + [suite];
      r := match fault case NoFault => Ok(suite) case EventLost => Err(EVENT_FAILED) case _ => Err(CONFLICT);
    }

    /** The suite gate of recording a result. Clean evidence on a confirmation suite is accepted only while
        the suite's chain is exactly its registration followed by its seal. */
    method RecordResult(e: Evaluation) returns (failure: Option<string>)
      requires Valid()
      modifies `results
      ensures Valid()
      ensures failure.Some? ==> results == old(results)
      ensures failure.None? ==> results == old(results) + [e]
      ensures failure.None? ==>
                var c := Revisions(suites, e.suite.suiteId);
                IsHead(c, e.suite) && e.claimedState == e.suite.state != Retired
      ensures failure.None? && e.suite.kind == Confirmation && e.evidence != EvidenceContaminated ==>
                var c := Revisions(suites, e.suite.suiteId);
                |c| == 2 && c[1] == e.suite && c[0].state == Unsealed && c[1].state == Sealed
                && c[0].cases == c[1].cases
      ensures failure.Some? <==> GateRefuses(suites, e)
    {
      ghost var c := Revisions(suites, e.suite.suiteId);
      RevisionsAre(suites, e.suite.suiteId);
      assert HistoryOf(suites, e.suite.suiteId, refOf);
      if e.claimedState == Contaminated && e.evidence != EvidenceContaminated {
        return Some("a contaminated suite must produce contaminated evidence");
      }
      if e.suite !in suites {
        return Some("record_reference_not_found");
      }
      var current := RequireCurrent(e.suite);
      if current.Err? {
        return Some(current.code);
      }
      if e.claimedState != e.suite.state {
        return Some("evaluation_suite_state_mismatch");
      }
      if e.suite.state == Retired {
        return Some("evaluation_suite_retired");
      }
      if e.loop && e.suite.kind == Confirmation {
        return Some("experiment_loop_confirmation_suite_invalid");
      }
      if e.suite.kind == Confirmation
         && (e.suite.state == Unsealed || e.suite.state == Modified || e.suite.state == Contaminated)
         && e.evidence != EvidenceContaminated
      {
        return Some("confirmation_evidence_contaminated");
      }
      if e.suite.state == Sealed {
        SealedHeadIsPristine(c, refOf);
        assert c[0] in suites && SealedFrom(c[0], e.suite, refOf);
      }
      results := results + [e];
      return None;
    }
  }
}
