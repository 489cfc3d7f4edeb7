/** What a recommendation says, read off the policy and the metrics alone: who qualifies and why not, who
    ranks first, which conflicts are reported and how confident it is. */
module Qualification {
  import opened Outcomes
  import opened Sorting
  import opened Keys
  import opened Cohorts
  import opened SuiteLineage
  import opened SuiteService
  import opened Ranking
  import opened Recommendation
  import opened BuildRecommendation
  import opened RecommendationTheorems

  // ---------------------------------------------------------------- comparing with a threshold

  /** The comparison an operator is named for. */
  predicate Compares(operator: Operator, value: real, threshold: real) {
    match operator
    case GreaterOrEqual => value >= threshold
    case LessOrEqual => value <= threshold
    case Greater => value > threshold
    case Less => value < threshold
    case Equals => value == threshold
  }

  /** A value within the tolerance of another that compares. */
  ghost predicate SomeNearCompares(q: Qualifier, value: real) {
    exists u :: Near(u, value, q.tolerance) && Compares(q.operator, u, q.threshold)
  }

  ghost predicate AllNearCompare(q: Qualifier, value: real) {
    forall u :: Near(u, value, q.tolerance) ==> Compares(q.operator, u, q.threshold)
  }

  /** The tolerance gives the benefit of the doubt to an inclusive comparison and takes it from a strict one:
      a value passes >=, <= or = when some value within the tolerance compares, and > or < when all do. */
  lemma ToleranceMeans(q: Qualifier, value: real)
    requires q.tolerance >= 0.0
    ensures Accepts(q, value) <==>
              if q.operator == Greater || q.operator == Less then AllNearCompare(q, value)
              else SomeNearCompares(q, value)
  {
    var up, down := value + q.tolerance, value - q.tolerance;
    assert Near(up, value, q.tolerance) && Near(down, value, q.tolerance);
    match q.operator {
      case GreaterOrEqual => assert Accepts(q, value) ==> Compares(q.operator, up, q.threshold);
      case LessOrEqual => assert Accepts(q, value) ==> Compares(q.operator, down, q.threshold);
      case Equals => assert Accepts(q, value) ==> Near(q.threshold, value, q.tolerance);
      case Greater => assert Compares(q.operator, down, q.threshold) <==> Accepts(q, value);
      case Less => assert Compares(q.operator, up, q.threshold) <==> Accepts(q, value);
    }
  }

  function By(operator: Operator, q: Qualifier): Qualifier { q.(operator := operator) }

  /** The five comparisons at one threshold: what each accepts relative to the others, and that a better value
      never does worse. */
  lemma ComparisonLaws(q: Qualifier, value: real, more: real)
    requires q.tolerance >= 0.0 && value <= more
    ensures Accepts(By(GreaterOrEqual, q), q.threshold)
    ensures Accepts(By(LessOrEqual, q), q.threshold)
    ensures Accepts(By(GreaterOrEqual, q), value) ==>
              Accepts(By(GreaterOrEqual, q), more)
    ensures Accepts(By(Greater, q), value) ==> Accepts(By(Greater, q), more)
    ensures Accepts(By(LessOrEqual, q), more) ==>
              Accepts(By(LessOrEqual, q), value)
    ensures Accepts(By(Less, q), more) ==> Accepts(By(Less, q), value)
    ensures Accepts(By(Greater, q), value) <==>
              !Accepts(By(LessOrEqual, q), value)
    ensures Accepts(By(Less, q), value) <==>
              !Accepts(By(GreaterOrEqual, q), value)
    ensures Accepts(By(Equals, q), value) <==>
              Accepts(By(GreaterOrEqual, q), value)
              && Accepts(By(LessOrEqual, q), value)
  {
  }

  // ---------------------------------------------------------------- who qualifies

  /** The result reports this value under the name; where a name is given twice the later one stands. */
  ghost predicate Reports(metrics: seq<Metric>, name: string, value: real) {
    exists i :: LastOf(metrics, name, i) && metrics[i].value == value
  }

  ghost predicate LastOf(metrics: seq<Metric>, name: string, i: int) {
    0 <= i < |metrics| && metrics[i].name == name && forall j | i < j < |metrics| :: metrics[j].name != name
  }

  ghost predicate Named(metrics: seq<Metric>, name: string) {
    exists m :: m in metrics && m.name == name
  }

  lemma {:induction false} ObservedIs(metrics: seq<Metric>, name: string) returns (i: int)
    ensures Observed(metrics, name) == None <==> !Named(metrics, name)
    ensures Observed(metrics, name).Some? ==>
              LastOf(metrics, name, i) && metrics[i] == Observed(metrics, name).value
  {
    i := |metrics| - 1;
    if metrics != [] {
      assert metrics[i] in metrics;
      if metrics[i].name != name {
        var before := metrics[..i];
        assert metrics == before + [metrics[i]];
        i := ObservedIs(before, name);
      }
    }
  }

  /** The value read for a name is the value reported under it. */
  lemma ReadingIs(metrics: seq<Metric>, name: string, value: real)
    ensures Observed(metrics, name).Some? && Observed(metrics, name).value.value == value <==>
              Reports(metrics, name, value)
    ensures Observed(metrics, name) == None <==> !Named(metrics, name)
  {
    var i := ObservedIs(metrics, name);
    if Reports(metrics, name, value) {
      var j :| LastOf(metrics, name, j) && metrics[j].value == value;
      assert metrics[j] in metrics;
    }
  }

  /** What is wrong with a result, each failure by itself. */
  ghost predicate IsFailure(p: Policy, r: EvalResult, f: Failure) {
    match f
    case ArtifactIntegrity => !r.integrityPassed
    case Evidence(status) => status == r.evidence && status != EvidenceStatus.Passed && status != SubjectiveOnly
    case MissingQualifier(metric) => !Named(r.metrics, metric) && exists q :: q in p.qualifiers && q.metric == metric
    case FailedQualifier(metric) =>
      exists q, value :: q in p.qualifiers && q.metric == metric && Reports(r.metrics, metric, value)
                         && !Accepts(q, value)
    case MissingBaseline(id) => id in p.baselines && forall c | c in r.comparisons :: c.id != id
    case MissingObjective(metric) => !Named(r.metrics, metric) && exists o :: o in p.objectives && o.metric == metric
  }

  lemma QualifierFailureIs(q: Qualifier, r: EvalResult, f: Failure)
    ensures f in QualifierFailure(q, r) <==>
              || (f == MissingQualifier(q.metric) && !Named(r.metrics, q.metric))
              || (f == FailedQualifier(q.metric)
                  && exists value :: Reports(r.metrics, q.metric, value) && !Accepts(q, value))
  {
    ReadingIs(r.metrics, q.metric, 0.0);
    if Observed(r.metrics, q.metric).Some? {
      ReadingIs(r.metrics, q.metric, Observed(r.metrics, q.metric).value.value);
    }
    if exists value :: Reports(r.metrics, q.metric, value) && !Accepts(q, value) {
      var value :| Reports(r.metrics, q.metric, value) && !Accepts(q, value);
      ReadingIs(r.metrics, q.metric, value);
    }
  }

  /** The failures recorded for a candidate are exactly what is wrong with its result. */
  lemma FailuresAre(p: Policy, r: EvalResult, f: Failure)
    ensures f in Failures(p, r) <==> IsFailure(p, r, f)
  {
    forall q | q in p.qualifiers ensures f in QualifierFailure(q, r) <==>
        || (f == MissingQualifier(q.metric) && !Named(r.metrics, q.metric))
        || (f == FailedQualifier(q.metric)
            && exists value :: Reports(r.metrics, q.metric, value) && !Accepts(q, value))
    {
      QualifierFailureIs(q, r, f);
    }
    forall o | o in p.objectives ensures Observed(r.metrics, o.metric) == None <==> !Named(r.metrics, o.metric) {
      ReadingIs(r.metrics, o.metric, 0.0);
    }
  }

  /** A result that meets the policy: integrity and evidence in order, every qualifier's metric reported with a
      value it accepts, every baseline compared and every objective reported. */
  ghost predicate Meets(p: Policy, r: EvalResult) {
    && r.integrityPassed && (r.evidence == EvidenceStatus.Passed || r.evidence == SubjectiveOnly)
    && (forall q | q in p.qualifiers :: MeetsQualifier(q, r))
    && (forall id | id in p.baselines :: exists c :: c in r.comparisons && c.id == id)
    && (forall o | o in p.objectives :: Named(r.metrics, o.metric))
  }

  ghost predicate MeetsQualifier(q: Qualifier, r: EvalResult) {
    exists value :: Reports(r.metrics, q.metric, value) && Accepts(q, value)
  }

  lemma QualifierMet(q: Qualifier, r: EvalResult)
    ensures QualifierFailure(q, r) == {} <==> MeetsQualifier(q, r)
  {
    ReadingIs(r.metrics, q.metric, 0.0);
    if Observed(r.metrics, q.metric).Some? {
      ReadingIs(r.metrics, q.metric, Observed(r.metrics, q.metric).value.value);
    }
    if MeetsQualifier(q, r) {
      var value :| Reports(r.metrics, q.metric, value) && Accepts(q, value);
      ReadingIs(r.metrics, q.metric, value);
    }
  }

  lemma QualifiesExactly(p: Policy, r: EvalResult)
    ensures Failures(p, r) == {} <==> Meets(p, r)
  {
    forall q | q in p.qualifiers ensures QualifierFailure(q, r) == {} <==> MeetsQualifier(q, r) { QualifierMet(q, r); }
    forall o | o in p.objectives ensures Observed(r.metrics, o.metric) == None <==> !Named(r.metrics, o.metric) {
      ReadingIs(r.metrics, o.metric, 0.0);
    }
    QualifierFailuresPass(p, r);
  }

  lemma QualifierFailuresPass(p: Policy, r: EvalResult)
    ensures Failures(p, r) == {} <==>
              && r.integrityPassed && (r.evidence == EvidenceStatus.Passed || r.evidence == SubjectiveOnly)
              && (forall q | q in p.qualifiers :: QualifierFailure(q, r) == {})
              && (forall id | id in p.baselines :: exists c :: c in r.comparisons && c.id == id)
              && (forall o | o in p.objectives :: Observed(r.metrics, o.metric) != None)
  {
    if Failures(p, r) == {} {
      assert forall f :: f !in Failures(p, r);
      forall q | q in p.qualifiers ensures QualifierFailure(q, r) == {} {
        assert forall f | f in QualifierFailure(q, r) :: f in Failures(p, r);
      }
      forall id | id in p.baselines ensures exists c :: c in r.comparisons && c.id == id {
        assert MissingBaseline(id) !in Failures(p, r);
      }
      forall o | o in p.objectives ensures Observed(r.metrics, o.metric) != None {
        assert MissingObjective(o.metric) !in Failures(p, r);
      }
      assert ArtifactIntegrity !in Failures(p, r) && Evidence(r.evidence) !in Failures(p, r);
    }
  }

  // ---------------------------------------------------------------- the record as a whole

  /** The qualified results are those that meet the policy. */
  lemma QualifiedMeet(p: Policy, results: seq<EvalResult>)
    ensures forall r :: r in QualifiedOf(p, results) <==> r in results && Meets(p, r)
  {
    InputPrepared(p, results);
    forall r ensures Failures(p, r) == {} <==> Meets(p, r) { QualifiesExactly(p, r); }
  }

  lemma {:induction false} ObjectiveValuesAre(objectives: seq<Objective>, r: EvalResult)
    ensures forall name, value :: (name, value) in ObjectiveValues(objectives, r) <==>
              Reports(r.metrics, name, value) && exists o :: o in objectives && o.metric == name
  {
    if objectives != [] {
      var first, rest := objectives[0], objectives[1..];
      assert objectives == [first] + rest;
      ObjectiveValuesAre(rest, r);
      forall value ensures Reports(r.metrics, first.metric, value) <==>
          Observed(r.metrics, first.metric).Some? && Observed(r.metrics, first.metric).value.value == value {
        ReadingIs(r.metrics, first.metric, value);
      }
    }
  }

  /** The conflicts a record must report, each by itself. */
  ghost predicate IsConflict(p: Policy, results: seq<EvalResult>, c: Conflict) {
    match c
    case AdvisoryMissing(name) => name in p.advisory && exists r :: r in results && !Named(r.metrics, name)
    case BaselineWorse(id) => exists r :: r in results && Compared(r, id, Worse)
    case BaselineInconclusive(id) => exists r :: r in results && Compared(r, id, NoBaselineVerdict)
    case Reported(text) => exists r :: r in results && text in r.conflicts
    case ObjectiveTradeoff => Tradeoff(QualifiedOf(p, results), p.objectives)
    case NoQualifiedCandidate => forall r | r in results :: !Meets(p, r)
  }

  ghost predicate Compared(r: EvalResult, id: string, outcome: BaselineOutcome) {
    exists c :: c in r.comparisons && c.id == id && c.outcome == outcome
  }

  ghost predicate Undominated(rs: seq<EvalResult>, objectives: seq<Objective>, r: EvalResult) {
    r in rs && OnFront(rs, objectives, r)
  }

  /** More than one candidate is undominated. */
  ghost predicate Tradeoff(rs: seq<EvalResult>, objectives: seq<Objective>) {
    exists x, y :: x != y && Undominated(rs, objectives, x) && Undominated(rs, objectives, y)
  }

  /** A conflict that one result brings with it. */
  ghost predicate BringsConflict(p: Policy, r: EvalResult, c: Conflict) {
    match c
    case AdvisoryMissing(name) => name in p.advisory && !Named(r.metrics, name)
    case BaselineWorse(id) => Compared(r, id, Worse)
    case BaselineInconclusive(id) => Compared(r, id, NoBaselineVerdict)
    case Reported(text) => text in r.conflicts
    case ObjectiveTradeoff => false
    case NoQualifiedCandidate => false
  }

  lemma ConflictsOfOne(p: Policy, r: EvalResult, c: Conflict)
    ensures c in ConflictsOf(p, r) <==> BringsConflict(p, r, c)
  {
    if c.AdvisoryMissing? { ReadingIs(r.metrics, c.metric, 0.0); }
  }

  lemma {:induction false} ConflictsOfAll(p: Policy, rs: seq<EvalResult>, c: Conflict)
    ensures c in AllConflicts(p, rs) <==> exists r :: r in rs && BringsConflict(p, r, c)
  {
    if rs != [] {
      var n := |rs| - 1;
      assert rs == rs[..n] + [rs[n]];
      ConflictsOfAll(p, rs[..n], c);
      ConflictsOfOne(p, rs[n], c);
    }
  }

  /** What a rule asks of a result: one of its evidence statuses, enough metrics, and one of its suite states
      unless it lists none. */
  ghost predicate Deserves(rule: ConfidenceRule, r: EvalResult) {
    && (exists status :: status in rule.statuses && r.evidence == status)
    && rule.minimumMetrics <= |r.metrics|
    && (rule.suiteStates != {} ==> exists state :: state in rule.suiteStates && r.context.suiteState == Some(state))
  }

  lemma MatchingIs(rule: ConfidenceRule, r: EvalResult)
    ensures Matches(rule, r) <==> Deserves(rule, r)
  {
  }

  /** The first rule the result matches gives the confidence; none does where no rule matches. */
  lemma {:induction false} ConfidenceIs(rules: seq<ConfidenceRule>, r: EvalResult)
    ensures (forall i | 0 <= i < |rules| :: !Deserves(rules[i], r)) ==> ConfidenceFor(rules, r) == NoConfidence
    ensures forall i | 0 <= i < |rules| && FirstMatch(rules, r, i) :: ConfidenceFor(rules, r) == rules[i].rating
    decreases |rules|
  {
    if rules != [] { MatchingIs(rules[0], r); }
    if rules != [] && !Matches(rules[0], r) {
      ConfidenceIs(rules[1..], r);
      forall i | 0 <= i < |rules| && FirstMatch(rules, r, i) ensures ConfidenceFor(rules, r) == rules[i].rating {
        assert FirstMatch(rules[1..], r, i - 1);
      }
    } else if rules != [] {
      forall i | 0 <= i < |rules| && FirstMatch(rules, r, i) ensures i == 0 { }
    }
  }

  ghost predicate FirstMatch(rules: seq<ConfidenceRule>, r: EvalResult, i: nat)
    requires i < |rules|
  {
    Deserves(rules[i], r) && forall j | 0 <= j < i :: !Deserves(rules[j], r)
  }

  /** What the record says of one candidate: qualified when its result meets the policy, with exactly the
      failures that are there and exactly the objective values reported. */
  lemma AssessmentMeans(p: Policy, results: seq<EvalResult>, r: EvalResult, a: Assessment)
    requires ValidPolicy(p) && InputOk(p, results) && r in results && Build(p, results).Ok?
    requires AssessedAs(Build(p, results).value, r, a)
    ensures a.qualified <==> Meets(p, r)
    ensures forall f :: f in a.failures <==> IsFailure(p, r, f)
    ensures forall name, value :: (name, value) in a.objectives <==>
              Reports(r.metrics, name, value) && exists o :: o in p.objectives && o.metric == name
  {
    var ordered, qualified := OrderedInput(results), QualifiedOf(p, results);
    InputPrepared(p, results);
    BuildAccepts(p, results);
    assert r in ordered;
    SummaryAccepted(p, ordered, qualified);
    AssessmentOf(p, ordered, qualified, r, a);
    QualifiesExactly(p, r);
    ObjectiveValuesAre(p.objectives, r);
    forall f ensures f in a.failures <==> IsFailure(p, r, f) { FailuresAre(p, r, f); }
  }

  /** The candidate selected is the qualified one that comes before every other qualified one; the conflicts
      reported are exactly those there are; the confidence is that of the first rule the selected matches. */
  lemma RecommendationByMetrics(p: Policy, results: seq<EvalResult>, best: EvalResult, c: Conflict)
    requires ValidPolicy(p) && InputOk(p, results) && Build(p, results).Ok?
    ensures var rec, qualified := Build(p, results).value, QualifiedOf(p, results);
            && (best in results && rec.selected == Some(best.candidate) <==>
                  && best in qualified
                  && forall y | y in qualified && y != best :: Precedes(qualified, p.objectives, best, y))
            && (best in results && rec.selected == Some(best.candidate) ==>
                  && ((forall i | 0 <= i < |p.confidence| :: !Deserves(p.confidence[i], best)) ==>
                        rec.confidence == NoConfidence)
                  && forall i | 0 <= i < |p.confidence| && FirstMatch(p.confidence, best, i) ::
                       rec.confidence == p.confidence[i].rating)
            && (rec.selected == None ==> rec.confidence == NoConfidence)
            && (c in rec.conflicts <==> IsConflict(p, results, c))
  {
    BuildAccepts(p, results);
    InputPrepared(p, results);
    assert results[0] in OrderedInput(results);
    SummaryAccepted(p, OrderedInput(results), QualifiedOf(p, results));
    SelectedComesFirst(p, results, best);
    ConfidenceIs(p.confidence, best);
    SummaryConflicts(p, OrderedInput(results), QualifiedOf(p, results));
    ConflictsAre(p, results, c);
  }

  lemma SelectedComesFirst(p: Policy, results: seq<EvalResult>, best: EvalResult)
    requires UniqueCandidates(results)
    ensures var qualified := QualifiedOf(p, results);
            var ranked := Ranked(qualified, p.objectives);
            && (best in results && Winner(ranked) == Some(best.candidate) <==> ranked != [] && ranked[0] == best)
            && (ranked != [] && ranked[0] == best <==>
                  && best in qualified
                  && forall y | y in qualified && y != best :: Precedes(qualified, p.objectives, best, y))
  {
    var qualified := QualifiedOf(p, results);
    var ranked := Ranked(qualified, p.objectives);
    InputPrepared(p, results);
    RankedFacts(p, OrderedInput(results), qualified);
    if ranked != [] {
      assert ranked[0] in ranked;
      if best in results && ranked[0].candidate == best.candidate { SameWinner(results, ranked[0], best); }
    }
    if best in qualified { FirstPrecedesAll(qualified, p.objectives, best); }
  }

  lemma FirstPrecedesAll(rs: seq<EvalResult>, objectives: seq<Objective>, best: EvalResult)
    requires UniqueCandidates(rs) && best in rs
    ensures (forall y | y in rs && y != best :: Precedes(rs, objectives, best, y)) <==>
              Ranked(rs, objectives) != [] && Ranked(rs, objectives)[0] == best
  {
    forall y | y in rs && y != best
      ensures Precedes(rs, objectives, best, y) <==> RankOf(rs, objectives, best) < RankOf(rs, objectives, y)
    {
      RankedByFirstDifference(rs, objectives, best, y);
    }
    FirstIsBeforeAll(rs, objectives, best);
  }

  lemma SameWinner(results: seq<EvalResult>, x: EvalResult, y: EvalResult)
    requires UniqueCandidates(results) && x in results && y in results && x.candidate == y.candidate
    ensures x == y
  {
    SameCandidateSameResult(results, x, y);
  }

  lemma FirstIsBeforeAll(rs: seq<EvalResult>, objectives: seq<Objective>, best: EvalResult)
    requires UniqueCandidates(rs) && best in rs
    ensures Ranked(rs, objectives)[RankOf(rs, objectives, best)] == best
    ensures (forall y | y in rs && y != best :: RankOf(rs, objectives, best) < RankOf(rs, objectives, y)) <==>
              Ranked(rs, objectives) != [] && Ranked(rs, objectives)[0] == best
  {
    var ranked := Ranked(rs, objectives);
    SortPermutes(rs, ByRank(rs, objectives));
    MemberOfPermutation(rs, ranked);
    UniqueStays(rs, ranked);
    assert ranked[0] in ranked;
    PlacesDiffer(rs, objectives, ranked[0], 0);
    forall y | y in rs && y != best && ranked[0] == best ensures RankOf(rs, objectives, y) > 0 {
      PlacesDiffer(rs, objectives, y, RankOf(rs, objectives, y));
    }
  }

  lemma PlacesDiffer(rs: seq<EvalResult>, objectives: seq<Objective>, r: EvalResult, i: nat)
    requires UniqueCandidates(Ranked(rs, objectives)) && r in rs
    requires i < |Ranked(rs, objectives)| && Ranked(rs, objectives)[i] == r
    ensures RankOf(rs, objectives, r) == i
  {
    var j := RankOf(rs, objectives, r);
    assert Ranked(rs, objectives)[i] == Ranked(rs, objectives)[j];
  }

  lemma ConflictsKept(assessments: seq<Assessment>, selected: Option<Key>, alternatives: seq<Key>,
                      conflicts: set<Conflict>, confidence: Confidence)
    ensures var r := MakeRecommendation(assessments, selected, alternatives, conflicts, confidence);
            r.Ok? ==> r.value.conflicts == conflicts
  {
  }

  /** All the conflicts a record is built with. */
  ghost function ConflictsFound(p: Policy, ordered: seq<EvalResult>, qualified: seq<EvalResult>): set<Conflict> {
    AllConflicts(p, ordered)
    + (if |Sort(Front(qualified, p.objectives), ByCandidate())| > 1 then {ObjectiveTradeoff} else {})
    + (if Ranked(qualified, p.objectives) == [] then {NoQualifiedCandidate} else {})
  }

  lemma SummaryConflicts(p: Policy, ordered: seq<EvalResult>, qualified: seq<EvalResult>)
    requires Summarise(p, ordered, qualified).Ok?
    ensures Summarise(p, ordered, qualified).value.conflicts == ConflictsFound(p, ordered, qualified)
  {
    var ranked := Ranked(qualified, p.objectives);
    var front := Sort(Front(qualified, p.objectives), ByCandidate());
    var selected := Winner(ranked);
    ConflictsKept(AssessAll(p, ranked, ordered), selected, CandidatesExcept(front, selected),
                  ConflictsFound(p, ordered, qualified),
                  if ranked == [] then NoConfidence else ConfidenceFor(p.confidence, ranked[0]));
  }

  lemma ConflictsAre(p: Policy, results: seq<EvalResult>, c: Conflict)
    requires UniqueCandidates(results)
    ensures c in ConflictsFound(p, OrderedInput(results), QualifiedOf(p, results)) <==> IsConflict(p, results, c)
  {
    ConflictsOfAll(p, OrderedInput(results), c);
    match c {
      case ObjectiveTradeoff => TradeoffReported(p, results);
      case NoQualifiedCandidate => NobodyReported(p, results);
      case _ => BroughtConflicts(p, results, c);
    }
  }

  lemma BroughtConflicts(p: Policy, results: seq<EvalResult>, c: Conflict)
    requires c != ObjectiveTradeoff && c != NoQualifiedCandidate
    ensures (exists r :: r in OrderedInput(results) && BringsConflict(p, r, c)) <==> IsConflict(p, results, c)
  {
    InputPrepared(p, results);
  }

  lemma TradeoffReported(p: Policy, results: seq<EvalResult>)
    requires UniqueCandidates(results)
    ensures var qualified := QualifiedOf(p, results);
            |Sort(Front(qualified, p.objectives), ByCandidate())| > 1 <==> IsConflict(p, results, ObjectiveTradeoff)
  {
    QualifiedUnique(p, results);
    TradeoffIs(QualifiedOf(p, results), p.objectives);
  }

  lemma QualifiedUnique(p: Policy, results: seq<EvalResult>)
    requires UniqueCandidates(results)
    ensures UniqueCandidates(QualifiedOf(p, results))
  {
    InputPrepared(p, results);
    RankedFacts(p, OrderedInput(results), QualifiedOf(p, results));
  }

  lemma NobodyReported(p: Policy, results: seq<EvalResult>)
    requires UniqueCandidates(results)
    ensures Ranked(QualifiedOf(p, results), p.objectives) == [] <==> IsConflict(p, results, NoQualifiedCandidate)
  {
    var qualified := QualifiedOf(p, results);
    InputPrepared(p, results);
    RankedFacts(p, OrderedInput(results), qualified);
    QualifiedMeet(p, results);
    if Ranked(qualified, p.objectives) != [] {
      assert Ranked(qualified, p.objectives)[0] in Ranked(qualified, p.objectives);
    }
  }

  lemma TradeoffIs(rs: seq<EvalResult>, objectives: seq<Objective>)
    requires UniqueCandidates(rs)
    ensures |Sort(Front(rs, objectives), ByCandidate())| > 1 <==> Tradeoff(rs, objectives)
  {
    var front := Front(rs, objectives);
    SortPermutes(front, ByCandidate());
    MemberOfPermutation(front, Sort(front, ByCandidate()));
    FilterIs(rs, FrontTest(rs, objectives));
    FilterUnique(rs, FrontTest(rs, objectives));
    assert forall x :: x in front <==> Undominated(rs, objectives, x);
    if |front| > 1 {
      assert front[0].candidate != front[1].candidate && front[0] in front && front[1] in front;
    }
    if Tradeoff(rs, objectives) {
      var x, y :| x != y && Undominated(rs, objectives, x) && Undominated(rs, objectives, y);
      assert x in front && y in front;
    }
  }

  /** Among the qualified, rank numbers follow the first objective that tells two candidates apart. */
  lemma RanksFollowFirstDifference(p: Policy, results: seq<EvalResult>, x: EvalResult, y: EvalResult, a: Assessment,
                                   b: Assessment)
    requires ValidPolicy(p) && InputOk(p, results) && x in QualifiedOf(p, results) && y in QualifiedOf(p, results)
    requires x != y && Build(p, results).Ok?
    requires AssessedAs(Build(p, results).value, x, a) && AssessedAs(Build(p, results).value, y, b)
    ensures a.rank.Some? && b.rank.Some?
    ensures a.rank.value < b.rank.value <==> Precedes(QualifiedOf(p, results), p.objectives, x, y)
  {
    var ordered, qualified := OrderedInput(results), QualifiedOf(p, results);
    var ranked := Ranked(qualified, p.objectives);
    InputPrepared(p, results);
    BuildAccepts(p, results);
    assert x in ordered;
    SummaryAccepted(p, ordered, qualified);
    AssessmentOf(p, ordered, qualified, x, a);
    AssessmentOf(p, ordered, qualified, y, b);
    RankedFacts(p, ordered, qualified);
    RankIsPlace(ranked, RankOf(qualified, p.objectives, x));
    RankIsPlace(ranked, RankOf(qualified, p.objectives, y));
    RankedByFirstDifference(qualified, p.objectives, x, y);
  }
}
