/** What each suite operation does to a chain and which chains there can be: an operation brings about the
    state it is named for wherever a lawful step leads there, is refused wherever none does, and every chain
    of lawful steps comes about. */
module SuiteOperations {
  import opened Outcomes
  import opened SuiteLineage
  import opened SuiteService

  /** The state an operation is asked to bring about. */
  function Asked(op: Operation): SuiteState {
    match op
    case Seal => Sealed
    case Inspect => Unsealed
    case Modify(_) => Modified
    case Contaminate => Contaminated
    case Retire => Retired
  }

  /** The revision asked for: a lawful step into that state, with the cases given if any are. */
  ghost predicate Requested(op: Operation, s: Suite, b: Suite, refOf: Suite -> Ref) {
    && LawfulStep(s, b) && b.prior == Some(refOf(s)) && b.state == Asked(op)
    && (op.Modify? ==> CasesFrom(op.cases) == Some(b.cases))
  }

  /** Contaminating and retiring may be asked again. */
  ghost predicate Already(op: Operation, s: Suite) {
    (op == Contaminate && s.state == Contaminated) || (op == Retire && s.state == Retired)
  }

  lemma RequestedIsPlanned(op: Operation, s: Suite, b: Suite, refOf: Suite -> Ref)
    ensures Requested(op, s, b, refOf) <==> PlanOf(op, s, refOf) == Write(b)
  {
    if op.Modify? { CasesAreGiven(op.cases); }
  }

  lemma SomethingIsRequested(op: Operation, s: Suite, refOf: Suite -> Ref)
    ensures (exists b :: Requested(op, s, b, refOf)) <==> PlanOf(op, s, refOf).Write?
    ensures Already(op, s) <==> PlanOf(op, s, refOf) == Keep
  {
    if PlanOf(op, s, refOf).Write? { RequestedIsPlanned(op, s, PlanOf(op, s, refOf).revised, refOf); }
    if exists b :: Requested(op, s, b, refOf) {
      var b :| Requested(op, s, b, refOf);
      RequestedIsPlanned(op, s, b, refOf);
    }
  }

  /** An undisturbed call on the head of its chain: it writes and answers the revision asked for if a lawful
      step leads there, answers a head that is already what is asked, and is refused otherwise. */
  lemma OperationIsExact(store: seq<Suite>, store': seq<Suite>, refOf: Suite -> Ref, op: Operation, s: Suite,
                         r: Result<Suite>)
    requires s in store && IsHead(Revisions(store, s.suiteId), s)
    requires Performed(store, store', refOf, op, s, NoFault, r)
    ensures r.Ok? <==> (exists b :: Requested(op, s, b, refOf)) || Already(op, s)
    ensures (exists b :: Requested(op, s, b, refOf)) ==> Requested(op, s, r.value, refOf) && store' == store + [r.value]
    ensures Already(op, s) ==> r == Ok(s)
    ensures !(exists b :: Requested(op, s, b, refOf)) ==> store' == store
  {
    SomethingIsRequested(op, s, refOf);
    if PlanOf(op, s, refOf).Write? { RequestedIsPlanned(op, s, PlanOf(op, s, refOf).revised, refOf); }
  }

  /** Afterwards the head of the chain is in the state asked for. */
  lemma OperationBringsAbout(store: seq<Suite>, store': seq<Suite>, refOf: Suite -> Ref, op: Operation, s: Suite,
                             r: Result<Suite>)
    requires s in store && IsHead(Revisions(store, s.suiteId), s)
    requires Performed(store, store', refOf, op, s, NoFault, r) && r.Ok?
    ensures IsHead(Revisions(store', s.suiteId), r.value) && r.value.state == Asked(op)
    ensures op.Modify? ==> CasesFrom(op.cases) == Some(r.value.cases)
    ensures !op.Modify? ==> r.value.cases == s.cases
  {
    OperationIsExact(store, store', refOf, op, s, r);
    if exists b :: Requested(op, s, b, refOf) { RevisionsAppend(store, r.value, s.suiteId); }
  }

  /** Disturbed, stale or repeated, a call that answers answers what was asked, and it is stored. */
  lemma AnswersAreAsked(store: seq<Suite>, store': seq<Suite>, refOf: Suite -> Ref, op: Operation, s: Suite,
                        fault: Fault, r: Result<Suite>)
    requires Performed(store, store', refOf, op, s, fault, r) && r.Ok?
    ensures r.value in store' && r.value.state == Asked(op)
    ensures Requested(op, s, r.value, refOf) || (Already(op, s) && r.value == s)
  {
    SomethingIsRequested(op, s, refOf);
    RevisionsAre(store, s.suiteId);
    if PlanOf(op, s, refOf).Write? {
      RequestedIsPlanned(op, s, PlanOf(op, s, refOf).revised, refOf);
    }
  }

  /** Why an operation on a stored revision is refused whatever its chain looks like. */
  lemma RefusalsAre(s: Suite, refOf: Suite -> Ref, cases: seq<(string, nat)>, code: string)
    ensures PlanOf(Seal, s, refOf) == Reject(code) <==>
              code == "evaluation_suite_cannot_seal" && !(s.state == Unsealed && s.prior == None)
    ensures PlanOf(Inspect, s, refOf) == Reject(code) <==>
              code == "confirmation_suite_not_sealed" && !(s.kind == Confirmation && s.state == Sealed)
    ensures PlanOf(Contaminate, s, refOf) == Reject(code) <==> code == "evaluation_suite_retired" && s.state == Retired
    ensures PlanOf(Retire, s, refOf) != Reject(code)
    ensures PlanOf(Modify(cases), s, refOf) == Reject(code) <==>
              || (code == "evaluation_suite_contaminated" && s.state == Contaminated)
              || (code == "evaluation_suite_retired" && s.state == Retired)
              || (s.state != Contaminated && s.state != Retired
                  && ((code == "evaluation_suite_cases_invalid" && CasesFrom(cases) == None)
                      || (code == "evaluation_suite_modification_empty" && CasesFrom(cases) == Some(s.cases))))
  {
  }

  // ---------------------------------------------------------------- which chains there can be

  /** Listing the cases of a suite one by one. */
  lemma {:induction false} ListOf(cases: Cases) returns (given: seq<(string, nat)>)
    requires forall k, l | k in cases && l in cases && k != l :: cases[k] != cases[l]
    ensures forall c :: c in given <==> c.0 in cases && cases[c.0] == c.1
    ensures forall i, j | 0 <= i < j < |given| :: given[i].0 != given[j].0 && given[i].1 != given[j].1
    decreases |cases|
  {
    if cases == map[] {
      return [];
    }
    var k :| k in cases;
    var rest := cases - {k};
    assert |rest| == |cases| - 1 by { assert rest.Keys == cases.Keys - {k}; }
    var others := ListOf(rest);
    given := [(k, cases[k])] + others;
    forall i, j | 0 <= i < j < |given| ensures given[i].0 != given[j].0 && given[i].1 != given[j].1 {
      assert given[j] in others;
      if i > 0 { assert given[i] == others[i - 1] && given[j] == others[j - 1]; }
    }
  }

  lemma ListGivesCases(cases: Cases) returns (given: seq<(string, nat)>)
    requires Listable(cases)
    ensures CasesFrom(given) == Some(cases)
  {
    given := ListOf(cases);
    var k :| k in cases;
    assert (k, cases[k]) in given;
    CasesAreGiven(given);
    var m := CasesFrom(given).value;
    forall l ensures (l in m <==> l in cases) && (l in m ==> m[l] == cases[l]) {
      if l in cases { assert (l, cases[l]) in given; }
      if l in m { assert (l, m[l]) in given; }
    }
    assert m == cases;
  }

  /** Every lawful step is what some operation asks for. */
  lemma EveryLawfulStepIsRequested(s: Suite, b: Suite, refOf: Suite -> Ref) returns (op: Operation)
    requires LawfulStep(s, b) && b.prior == Some(refOf(s))
    ensures Requested(op, s, b, refOf)
  {
    match b.state {
      case Sealed => op := Seal;
      case Unsealed => op := Inspect;
      case Contaminated => op := Contaminate;
      case Retired => op := Retire;
      case Modified =>
        var given := ListGivesCases(b.cases);
        op := Modify(given);
    }
  }

  lemma {:induction false} AfterCallsConcat(now: Stored, refOf: Suite -> Ref, a: seq<Call>, b: seq<Call>)
    ensures AfterCalls(now, refOf, a + b) == AfterCalls(AfterCalls(now, refOf, a), refOf, b)
    decreases |a|
  {
    if a == [] {
      assert a + b == b;
    } else {
      assert (a + b)[0] == a[0] && (a + b)[1..] == a[1..] + b;
      AfterCallsConcat(AfterCall(now, refOf, a[0]), refOf, a[1..], b);
    }
  }

  lemma {:induction false} AllOfOneSuite(c: seq<Suite>, id: string)
    requires forall s | s in c :: s.suiteId == id
    ensures Revisions(c, id) == c
  {
    if c != [] {
      var n := |c| - 1;
      assert c[n] in c && c == c[..n] + [c[n]];
      forall s | s in c[..n] ensures s.suiteId == id { assert s in c; }
      AllOfOneSuite(c[..n], id);
    }
  }

  lemma {:induction false} OneSuiteThroughout(c: seq<Suite>, refOf: Suite -> Ref, i: nat)
    requires History(c, refOf) && i < |c|
    ensures c[i].suiteId == c[0].suiteId
  {
    if i > 0 {
      OneSuiteThroughout(c, refOf, i - 1);
      assert LawfulStep(c[i - 1], c[i]);
    }
  }

  lemma ShorterHistory(c: seq<Suite>, refOf: Suite -> Ref)
    requires History(c, refOf) && |c| > 1
    ensures History(c[..|c| - 1], refOf)
  {
  }

  /** Every chain of lawful steps comes about, from the empty store, by undisturbed calls. */
  lemma {:induction false} HistoryHappens(c: seq<Suite>, refOf: Suite -> Ref) returns (calls: seq<Call>)
    requires History(c, refOf)
    ensures AfterCalls(Stored([], []), refOf, calls) == Stored(c, [])
    decreases |c|
  {
    if |c| == 1 {
      calls := [Register(c[0], NoFault)];
      assert calls[1..] == [] && [] + [c[0]] == c;
      return;
    }
    var before := c[..|c| - 1];
    ShorterHistory(c, refOf);
    var earlier := HistoryHappens(before, refOf);
    var last := LastStepHappens(c, refOf);
    AfterCallsConcat(Stored([], []), refOf, earlier, [last]);
    assert [last][1..] == [];
    calls := earlier + [last];
  }

  lemma LastStepHappens(c: seq<Suite>, refOf: Suite -> Ref) returns (call: Call)
    requires History(c, refOf) && |c| > 1
    ensures AfterCall(Stored(c[..|c| - 1], []), refOf, call) == Stored(c, [])
  {
    var before, s, b := c[..|c| - 1], c[|c| - 2], c[|c| - 1];
    assert LawfulStep(s, b);
    var op := EveryLawfulStepIsRequested(s, b, refOf);
    RequestedIsPlanned(op, s, b, refOf);
    forall t | t in before ensures t.suiteId == s.suiteId {
      var i :| 0 <= i < |before| && before[i] == t;
      OneSuiteThroughout(c, refOf, i);
      OneSuiteThroughout(c, refOf, |c| - 2);
    }
    AllOfOneSuite(before, s.suiteId);
    assert IsHead(Revisions(before, s.suiteId), s) && before + [b] == c;
    call := Perform(op, s, NoFault);
  }

  ghost predicate ComesAbout(c: seq<Suite>, id: string, refOf: Suite -> Ref) {
    exists calls :: Revisions(AfterCalls(Stored([], []), refOf, calls).suites, id) == c
  }

  /** The chains of a suite that can come about, whatever is called and whatever fails, are exactly the chains
      of lawful steps: nothing else happens, and nothing lawful is out of reach. */
  lemma ChainsAreExactlyHistories(c: seq<Suite>, id: string, refOf: Suite -> Ref)
    requires Injective(refOf) && c != []
    ensures ComesAbout(c, id, refOf) <==> History(c, refOf) && c[0].suiteId == id
  {
    if ComesAbout(c, id, refOf) {
      var calls :| Revisions(AfterCalls(Stored([], []), refOf, calls).suites, id) == c;
      var end := AfterCalls(Stored([], []), refOf, calls);
      EmptyIsLawful(refOf);
      EveryRunIsLawful(Stored([], []), refOf, calls);
      assert HistoryOf(end.suites, id, refOf);
      RevisionsAre(end.suites, id);
      assert c[0] in c;
    }
    if History(c, refOf) && c[0].suiteId == id {
      var calls := HistoryHappens(c, refOf);
      forall s | s in c ensures s.suiteId == id {
        var i :| 0 <= i < |c| && c[i] == s;
        OneSuiteThroughout(c, refOf, i);
      }
      AllOfOneSuite(c, id);
    }
  }

  // ---------------------------------------------------------------- the suite gate

  /** Evidence is accepted exactly for the head of its chain by its true state, if that is not retired,
      contaminated evidence for a contaminated suite, and for a confirmation suite neither inside an
      experiment loop nor, unless marked contaminated, once its chain is more than registration and seal. */
  lemma EvidenceIsAcceptedExactly(store: seq<Suite>, e: Evaluation, refOf: Suite -> Ref)
    requires StoreOk(store, refOf)
    ensures !GateRefuses(store, e) <==>
              var c := Revisions(store, e.suite.suiteId);
              && c != [] && c[|c| - 1] == e.suite && e.claimedState == e.suite.state != Retired
              && (e.suite.state == Contaminated ==> e.evidence == EvidenceContaminated)
              && !(e.suite.kind == Confirmation && e.loop)
              && (e.suite.kind == Confirmation && e.evidence != EvidenceContaminated ==>
                    |c| == 2 && c[1].state == Sealed && c[1].cases == c[0].cases)
  {
    var c := Revisions(store, e.suite.suiteId);
    assert HistoryOf(store, e.suite.suiteId, refOf);
    if c != [] && c[|c| - 1].state == Sealed { SealedHeadIsPristine(c, refOf); }
  }

  /** In particular a confirmation suite that was contaminated, inspected or modified gives no clean evidence
      ever again, and any other suite does until it is contaminated or retired. */
  lemma CleanEvidence(store: seq<Suite>, e: Evaluation, refOf: Suite -> Ref)
    requires StoreOk(store, refOf) && e.evidence != EvidenceContaminated && !e.loop
    requires IsHead(Revisions(store, e.suite.suiteId), e.suite) && e.claimedState == e.suite.state
    ensures !GateRefuses(store, e) <==>
              if e.suite.kind == Confirmation then e.suite.state == Sealed
              else e.suite.state != Contaminated && e.suite.state != Retired
  {
  }
}
