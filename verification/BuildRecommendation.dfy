/** `build_recommendation`: apply one policy to a set of evaluation results, and the checks the
    recommendation record makes on what it is given. */
module BuildRecommendation {
  import opened Outcomes
  import opened Sorting
  import opened Keys
  import opened Cohorts
  import opened SuiteLineage
  import opened SuiteService
  import opened Ranking
  import opened Recommendation

  // ---------------------------------------------------------------- policy

  datatype Operator = GreaterOrEqual | LessOrEqual | Greater | Less | Equals

  datatype Qualifier = Qualifier(metric: string, operator: Operator, threshold: real, tolerance: real)

  function Accepts(q: Qualifier, value: real): bool {
    match q.operator
    case GreaterOrEqual => value >= q.threshold - q.tolerance
    case LessOrEqual => value <= q.threshold + q.tolerance
    case Greater => value > q.threshold + q.tolerance
    case Less => value < q.threshold - q.tolerance
    case Equals => Abs(value - q.threshold) <= q.tolerance
  }

  datatype Confidence = High | Medium | Low | NoConfidence

  datatype ConfidenceRule = ConfidenceRule(
    rating: Confidence, statuses: set<EvidenceStatus>, suiteStates: set<SuiteState>, minimumMetrics: nat)

  predicate Matches(rule: ConfidenceRule, r: EvalResult) {
    && r.evidence in rule.statuses
    && |r.metrics| >= rule.minimumMetrics
    && (rule.suiteStates == {} || (r.context.suiteState.Some? && r.context.suiteState.value in rule.suiteStates))
  }

  datatype Policy = Policy(
    qualifiers: seq<Qualifier>,
    advisory: seq<string>,
    objectives: seq<Objective>,
    baselines: seq<string>,
    confidence: seq<ConfidenceRule>)

  /** What the policy constructor guarantees about objectives. */
  ghost predicate ValidPolicy(p: Policy) {
    && p.objectives != []
    && ObjectivesOk(p.objectives)
    && forall i, j | 0 <= i < j < |p.objectives| :: p.objectives[i].metric != p.objectives[j].metric
  }

  // ---------------------------------------------------------------- the recommendation record

  datatype Failure =
    | ArtifactIntegrity
    | Evidence(status: EvidenceStatus)
    | MissingQualifier(metric: string)
    | FailedQualifier(metric: string)
    | MissingBaseline(id: string)
    | MissingObjective(metric: string)

  datatype Conflict =
    | AdvisoryMissing(metric: string)
    | BaselineWorse(id: string)
    | BaselineInconclusive(id: string)
    | Reported(text: string)
    | ObjectiveTradeoff
    | NoQualifiedCandidate

  datatype Assessment = Assessment(
    candidate: Key, qualified: bool, rank: Option<nat>, failures: set<Failure>, objectives: seq<(string, real)>)

  datatype RecommendationRecord = RecommendationRecord(
    assessments: seq<Assessment>,
    selected: Option<Key>,
    alternatives: seq<Key>,
    conflicts: set<Conflict>,
    confidence: Confidence)

  function AssessmentError(a: Assessment): Option<string> {
    if a.rank == Some(0) then Some("assessment rank must be a positive integer")
    else if a.qualified != a.rank.Some? then Some("only qualified candidates may have a rank")
    else if a.qualified && a.failures != {} then Some("qualified candidate cannot have failures")
    else if exists i, j | 0 <= i < j < |a.objectives| :: a.objectives[i].0 == a.objectives[j].0 then
      Some("assessment objective values must be unique")
    else None
  }

  function ByAssessment(): (Assessment, Assessment) -> bool {
    (a: Assessment, b: Assessment) => KeyLe(a.candidate, b.candidate)
  }

  function RankNumber(a: Assessment): nat { if a.rank.Some? then a.rank.value else 0 }

  function ByRankNumber(): (Assessment, Assessment) -> bool {
    (a: Assessment, b: Assessment) => RankNumber(a) <= RankNumber(b)
  }

  function KeysOrdered(): (Key, Key) -> bool { (a: Key, b: Key) => KeyLe(a, b) }

  predicate DistinctKeys(ks: seq<Key>) { forall i, j | 0 <= i < j < |ks| :: ks[i] != ks[j] }

  predicate Contiguous(ranked: seq<Assessment>) {
    forall i | 0 <= i < |ranked| :: ranked[i].rank == Some(i + 1)
  }

  function QualifiedTest(): Assessment -> bool { (a: Assessment) => a.qualified }

  /** The recommendation constructor: it re-checks ranks, selection and alternatives. */
  function MakeRecommendation(assessments: seq<Assessment>, selected: Option<Key>, alternatives: seq<Key>,
                              conflicts: set<Conflict>, confidence: Confidence): Result<RecommendationRecord> {
    if assessments == [] || exists a | a in assessments :: AssessmentError(a).Some? then
      Err("recommendation assessments are invalid")
    else
      var ordered := Sort(assessments, ByAssessment());
      var ranked := Sort(Filter(ordered, QualifiedTest()), ByRankNumber());
      var sortedAlternatives := Sort(alternatives, KeysOrdered());
      if exists i, j | 0 <= i < j < |ordered| :: ordered[i].candidate == ordered[j].candidate then
        Err("recommendation candidates must be unique")
      else if !Contiguous(ranked) then Err("qualified ranks must be contiguous")
      else if selected != (if ranked == [] then None else Some(ranked[0].candidate)) then
        Err("selected candidate must be rank one")
      else if !DistinctKeys(sortedAlternatives) then Err("pareto alternatives must be unique")
      else if exists k | k in sortedAlternatives :: forall a | a in ranked :: a.candidate != k then
        Err("pareto alternatives must be qualified")
      else if selected.Some? && selected.value in sortedAlternatives then
        Err("selected candidate is not an alternative")
      else if selected == None && confidence != NoConfidence then Err("no selection must have no confidence")
      else Ok(RecommendationRecord(ordered, selected, sortedAlternatives, conflicts, confidence))
  }

  // ---------------------------------------------------------------- assessing one result

  function QualifierFailure(q: Qualifier, r: EvalResult): set<Failure> {
    match Observed(r.metrics, q.metric)
    case None => {MissingQualifier(q.metric)}
    case Some(m) => if Accepts(q, m.value) then {} else {FailedQualifier(q.metric)}
  }

  function Failures(p: Policy, r: EvalResult): set<Failure> {
    (if r.integrityPassed then {} else {ArtifactIntegrity})
    + (if r.evidence == EvidenceStatus.Passed || r.evidence == SubjectiveOnly then {} else {Evidence(r.evidence)})
    + (set q, f | q in p.qualifiers && f in QualifierFailure(q, r) :: f)
    + (set id | id in p.baselines && (forall c | c in r.comparisons :: c.id != id) :: MissingBaseline(id))
    + (set o | o in p.objectives && Observed(r.metrics, o.metric) == None :: MissingObjective(o.metric))
  }

  function ObjectiveValues(objectives: seq<Objective>, r: EvalResult): seq<(string, real)> {
    if objectives == [] then []
    else
      (match Observed(r.metrics, objectives[0].metric)
       case Some(m) => [(objectives[0].metric, m.value)]
       case None => [])
      + ObjectiveValues(objectives[1..], r)
  }

  function ConflictsOf(p: Policy, r: EvalResult): set<Conflict> {
    (set name | name in p.advisory && Observed(r.metrics, name) == None :: AdvisoryMissing(name))
    + (set c | c in r.comparisons && c.outcome == Worse :: BaselineWorse(c.id))
    + (set c | c in r.comparisons && c.outcome == NoBaselineVerdict :: BaselineInconclusive(c.id))
    + (set t | t in r.conflicts :: Reported(t))
  }

  function AllConflicts(p: Policy, rs: seq<EvalResult>): set<Conflict> {
    if rs == [] then {} else AllConflicts(p, rs[..|rs| - 1]) + ConflictsOf(p, rs[|rs| - 1])
  }

  // ---------------------------------------------------------------- consistency of the metrics

  type Semantics = map<string, (nat, Direction)>

  const SEMANTICS_CONFLICT := "metric semantics conflict"
  const DIRECTION_CONFLICT := "objective direction conflicts"

  /** Fold one result's metrics into the table of metric semantics. */
  function Learn(known: Semantics, metrics: seq<Metric>): Option<Semantics>
    decreases |metrics|
  {
    if metrics == [] then Some(known)
    else
      var m := metrics[0];
      if m.name in known && known[m.name] != (m.evaluator, m.direction) then None
      else Learn(known[m.name := (m.evaluator, m.direction)], metrics[1..])
  }

  predicate DirectionsFit(p: Policy, r: EvalResult) {
    forall o | o in p.objectives ::
      Observed(r.metrics, o.metric).Some? ==> Observed(r.metrics, o.metric).value.direction == o.direction
  }

  /** The first error the scan over the ordered results raises. */
  function ScanError(p: Policy, rs: seq<EvalResult>, known: Semantics): Option<string>
    decreases |rs|
  {
    if rs == [] then None
    else match Learn(known, rs[0].metrics)
      case None => Some(SEMANTICS_CONFLICT)
      case Some(next) => if !DirectionsFit(p, rs[0]) then Some(DIRECTION_CONFLICT) else ScanError(p, rs[1..], next)
  }

  // ---------------------------------------------------------------- the whole computation

  function IsQualified(p: Policy): EvalResult -> bool { (r: EvalResult) => Failures(p, r) == {} }

  predicate OneContext(rs: seq<EvalResult>) {
    forall r | r in rs :: r.context == rs[0].context
  }

  function RankIn(ranked: seq<EvalResult>, candidate: Key): (n: Option<nat>)
    ensures n.Some? ==> 0 < n.value <= |ranked| && ranked[n.value - 1].candidate == candidate
    ensures n == None ==> forall r | r in ranked :: r.candidate != candidate
  {
    if ranked == [] then None
    else
      var last := |ranked| - 1;
      if ranked[last].candidate == candidate then Some(last + 1) else RankIn(ranked[..last], candidate)
  }

  function Assess(p: Policy, ranked: seq<EvalResult>, r: EvalResult): Assessment {
    var rank := RankIn(ranked, r.candidate);
    Assessment(r.candidate, rank.Some?, rank, Failures(p, r), ObjectiveValues(p.objectives, r))
  }

  function AssessAll(p: Policy, ranked: seq<EvalResult>, rs: seq<EvalResult>): (s: seq<Assessment>)
    ensures |s| == |rs|
    ensures forall i | 0 <= i < |rs| :: s[i] == Assess(p, ranked, rs[i])
  {
    if rs == [] then [] else [Assess(p, ranked, rs[0])] + AssessAll(p, ranked, rs[1..])
  }

  function CandidatesExcept(rs: seq<EvalResult>, selected: Option<Key>): seq<Key> {
    if rs == [] then []
    else (if selected == Some(rs[0].candidate) then [] else [rs[0].candidate]) + CandidatesExcept(rs[1..], selected)
  }

  function ConfidenceFor(rules: seq<ConfidenceRule>, selected: EvalResult): Confidence {
    if rules == [] then NoConfidence
    else if Matches(rules[0], selected) then rules[0].rating
    else ConfidenceFor(rules[1..], selected)
  }

  function Summarise(p: Policy, ordered: seq<EvalResult>, qualified: seq<EvalResult>): Result<RecommendationRecord> {
    var ranked := Ranked(qualified, p.objectives);
    var front := Sort(Front(qualified, p.objectives), ByCandidate());
    var selected := if ranked == [] then None else Some(ranked[0].candidate);
    var conflicts := AllConflicts(p, ordered)
      + (if |front| > 1 then {ObjectiveTradeoff} else {})
      + (if selected == None then {NoQualifiedCandidate} else {});
    MakeRecommendation(
      AssessAll(p, ranked, ordered), selected, CandidatesExcept(front, selected), conflicts,
      if ranked == [] then NoConfidence else ConfidenceFor(p.confidence, ranked[0]))
  }

  function Build(p: Policy, results: seq<EvalResult>): Result<RecommendationRecord> {
    if results == [] then Err("recommendation results must be non-empty")
    else
      var ordered := Sort(results, ByCandidate());
      if !UniqueCandidates(ordered) then Err("one result is allowed per candidate")
      else if ScanError(p, ordered, map[]).Some? then Err(ScanError(p, ordered, map[]).value)
      else
        var qualified := Filter(ordered, IsQualified(p));
        if !OneContext(qualified) then Err("recommendation results must share one evaluation cohort")
        else Summarise(p, ordered, qualified)
  }

  // ---------------------------------------------------------------- as the program runs it

  method LearnMetrics(known: Semantics, metrics: seq<Metric>) returns (r: Option<Semantics>)
    ensures r == Learn(known, metrics)
  {
    var table := known;
    assert metrics[0..] == metrics && metrics[|metrics|..] == [];
    for n := 0 to |metrics|
      invariant Learn(known, metrics) == Learn(table, metrics[n..])
    {
      var m := metrics[n];
      assert metrics[n..][0] == m && metrics[n..][1..] == metrics[n + 1..];
      if m.name in table && table[m.name] != (m.evaluator, m.direction) {
        return None;
      }
      table := table[m.name := (m.evaluator, m.direction)];
    }
    return Some(table);
  }

  /** What one pass over the ordered results collects. */
  datatype Scan = Scan(
    failures: map<Key, set<Failure>>,
    values: map<Key, seq<(string, real)>>,
    conflicts: set<Conflict>,
    qualified: seq<EvalResult>)

  ghost predicate Tabled(p: Policy, r: EvalResult, s: Scan) {
    && r.candidate in s.failures && s.failures[r.candidate] == Failures(p, r)
    && r.candidate in s.values && s.values[r.candidate] == ObjectiveValues(p.objectives, r)
  }

  ghost predicate Scanned(p: Policy, rs: seq<EvalResult>, n: nat, s: Scan) {
    && n <= |rs|
    && (forall i | 0 <= i < n :: Tabled(p, rs[i], s))
    && s.conflicts == AllConflicts(p, rs[..n])
    && s.qualified + Filter(rs[n..], IsQualified(p)) == Filter(rs, IsQualified(p))
  }

  /** The tables after one more result. */
  function NextScan(p: Policy, r: EvalResult, s: Scan): Scan {
    var found := Failures(p, r);
    Scan(
      s.failures[r.candidate := found],
      s.values[r.candidate := ObjectiveValues(p.objectives, r)],
      s.conflicts + ConflictsOf(p, r),
      if found == {} then s.qualified + [r] else s.qualified)
  }

  lemma ScanStep(p: Policy, rs: seq<EvalResult>, n: nat, s: Scan)
    requires UniqueCandidates(rs) && n < |rs| && Scanned(p, rs, n, s)
    ensures Scanned(p, rs, n + 1, NextScan(p, rs[n], s))
  {
    FilterStep(rs, IsQualified(p), n, s.qualified);
    ConflictsStep(p, rs, n);
    forall i | 0 <= i < n ensures Tabled(p, rs[i], NextScan(p, rs[n], s)) {
      TabledStays(p, rs[i], rs[n], s);
    }
  }

  lemma ConflictsStep(p: Policy, rs: seq<EvalResult>, n: nat)
    requires n < |rs|
    ensures AllConflicts(p, rs[..n + 1]) == AllConflicts(p, rs[..n]) + ConflictsOf(p, rs[n])
  {
    assert rs[..n + 1][..n] == rs[..n];
  }

  lemma TabledStays(p: Policy, other: EvalResult, r: EvalResult, s: Scan)
    requires Tabled(p, other, s) && other.candidate != r.candidate
    ensures Tabled(p, other, NextScan(p, r, s))
  {
  }

  method ScanResults(p: Policy, rs: seq<EvalResult>) returns (failure: Option<string>, scan: Scan)
    requires UniqueCandidates(rs)
    ensures failure == ScanError(p, rs, map[])
    ensures failure == None ==> Scanned(p, rs, |rs|, scan)
  {
    scan := Scan(map[], map[], {}, []);
    var known: Semantics := map[];
    assert rs[0..] == rs && rs[|rs|..] == [] && rs[..0] == [];
    for n := 0 to |rs|
      invariant Scanned(p, rs, n, scan)
      invariant ScanError(p, rs, map[]) == ScanError(p, rs[n..], known)
    {
      var r := rs[n];
      assert rs[n..][0] == r && rs[n..][1..] == rs[n + 1..];
      var learned := LearnMetrics(known, r.metrics);
      if learned == None {
        return Some(SEMANTICS_CONFLICT), scan;
      }
      if !DirectionsFit(p, r) {
        return Some(DIRECTION_CONFLICT), scan;
      }
      known := learned.value;
      ScanStep(p, rs, n, scan);
      scan := NextScan(p, r, scan);
    }
    return None, scan;
  }

  method AssessResults(p: Policy, ranked: seq<EvalResult>, rs: seq<EvalResult>, scan: Scan) returns (r: seq<Assessment>)
    requires forall i | 0 <= i < |rs| :: Tabled(p, rs[i], scan)
    ensures r == AssessAll(p, ranked, rs)
  {
    r := [];
    for n := 0 to |rs|
      invariant |r| == n && forall i | 0 <= i < n :: r[i] == Assess(p, ranked, rs[i])
    {
      assert Tabled(p, rs[n], scan);
      var assessment := AssessResult(p, ranked, rs[n], scan);
      r := r + [assessment];
    }
  }

  method AssessResult(p: Policy, ranked: seq<EvalResult>, result: EvalResult, scan: Scan) returns (a: Assessment)
    requires Tabled(p, result, scan)
    ensures a == Assess(p, ranked, result)
  {
    var key := result.candidate;
    var rank := RankIn(ranked, key);
    return Assessment(key, rank.Some?, rank, scan.failures[key], scan.values[key]);
  }

  function ByKeys(keys: map<Key, seq<nat>>): (EvalResult, EvalResult) -> bool {
    (a: EvalResult, b: EvalResult) =>
      if a.candidate !in keys || b.candidate !in keys then false
      else if keys[a.candidate] != keys[b.candidate] then VectorLe(keys[a.candidate], keys[b.candidate])
      else KeyLe(a.candidate, b.candidate)
  }

  method RankResults(rs: seq<EvalResult>, objectives: seq<Objective>, keys: map<Key, seq<nat>>)
    returns (ranked: seq<EvalResult>)
    requires forall r | r in rs :: r.candidate in keys && keys[r.candidate] == CohortKey(rs, objectives, r.candidate)
    ensures ranked == Ranked(rs, objectives)
  {
    SortAgrees(rs, ByKeys(keys), ByRank(rs, objectives));
    ranked := Sort(rs, ByKeys(keys));
  }

  method Recommend(p: Policy, results: seq<EvalResult>) returns (r: Result<RecommendationRecord>)
    requires ValidPolicy(p)
    ensures r == Build(p, results)
  {
    if results == [] {
      return Err("recommendation results must be non-empty");
    }
    var ordered := Sort(results, ByCandidate());
    if !UniqueCandidates(ordered) {
      return Err("one result is allowed per candidate");
    }
    var failure, scan := ScanResults(p, ordered);
    if failure.Some? {
      return Err(failure.value);
    }
    var qualified := scan.qualified;
    assert ordered[|ordered|..] == [] && qualified + [] == qualified && ordered[..|ordered|] == ordered;
    if !OneContext(qualified) {
      return Err("recommendation results must share one evaluation cohort");
    }
    r := SummariseResults(p, ordered, scan);
  }

  method RankAndFront(p: Policy, qualified: seq<EvalResult>) returns (ranked: seq<EvalResult>, front: seq<EvalResult>)
    requires ValidPolicy(p) && UniqueCandidates(qualified)
    ensures ranked == Ranked(qualified, p.objectives)
    ensures front == Sort(Front(qualified, p.objectives), ByCandidate())
  {
    var keys := GlobalToleranceCohortKeys(qualified, p.objectives);
    ranked := RankResults(qualified, p.objectives, keys);
    front := ParetoResults(qualified, p.objectives, keys);
  }

  method SummariseResults(p: Policy, ordered: seq<EvalResult>, scan: Scan) returns (r: Result<RecommendationRecord>)
    requires ValidPolicy(p) && UniqueCandidates(ordered) && Scanned(p, ordered, |ordered|, scan)
    requires scan.qualified == Filter(ordered, IsQualified(p))
    ensures r == Summarise(p, ordered, scan.qualified)
  {
    var qualified := scan.qualified;
    FilterUnique(ordered, IsQualified(p));
    var ranked, front := RankAndFront(p, qualified);
    var selected := if ranked == [] then None else Some(ranked[0].candidate);
    assert ordered[..|ordered|] == ordered;
    var conflicts := scan.conflicts + (if |front| > 1 then {ObjectiveTradeoff} else {});
    conflicts := conflicts + (if selected == None then {NoQualifiedCandidate} else {});
    var assessments := AssessResults(p, ranked, ordered, scan);
    var confidence := if ranked == [] then NoConfidence else ConfidenceFor(p.confidence, ranked[0]);
    r := MakeRecommendation(assessments, selected, CandidatesExcept(front, selected), conflicts, confidence);
  }
}
