/** What the recommendation promises: its own constructor never rejects it, it does not depend on the
    order of the results, and its ranks, selection and alternatives mean what they say. */
module RecommendationTheorems {
  import opened Outcomes
  import opened Sorting
  import opened Keys
  import opened Cohorts
  import opened SuiteLineage
  import opened SuiteService
  import opened Ranking
  import opened Recommendation
  import opened BuildRecommendation

  // ---------------------------------------------------------------- consistency

  /** Equal metric names mean equal evaluators and directions, in one result and across results. */
  ghost predicate Agree(a: seq<Metric>, b: seq<Metric>) {
    forall i, j | 0 <= i < |a| && 0 <= j < |b| && a[i].name == b[j].name ::
      a[i].evaluator == b[j].evaluator && a[i].direction == b[j].direction
  }

  ghost predicate Fits(known: Semantics, metrics: seq<Metric>) {
    forall m | m in metrics && m.name in known :: known[m.name] == (m.evaluator, m.direction)
  }

  ghost predicate SelfConsistent(rs: seq<EvalResult>) {
    forall i, j | 0 <= i < |rs| && 0 <= j < |rs| :: Agree(rs[i].metrics, rs[j].metrics)
  }

  /** Learning a result's metrics succeeds exactly when they fit the table and each other, and then
      extends the table by exactly those metrics. */
  lemma {:induction false} LearnIs(known: Semantics, metrics: seq<Metric>)
    ensures Learn(known, metrics).Some? <==> Fits(known, metrics) && Agree(metrics, metrics)
    ensures Learn(known, metrics).Some? ==>
              && (forall k | k in known ::
                    k in Learn(known, metrics).value && Learn(known, metrics).value[k] == known[k])
              && (forall k :: k in Learn(known, metrics).value <==>
                                k in known || exists m :: m in metrics && m.name == k)
              && Fits(Learn(known, metrics).value, metrics)
    decreases |metrics|
  {
    if metrics != [] {
      var m, rest := metrics[0], metrics[1..];
      assert metrics == [m] + rest;
      var next := known[m.name := (m.evaluator, m.direction)];
      if m.name in known && known[m.name] != (m.evaluator, m.direction) {
        assert m in metrics;
      } else {
        LearnIs(next, rest);
        LearnStep(known, m, rest);
      }
    }
  }

  lemma LearnStep(known: Semantics, m: Metric, rest: seq<Metric>)
    requires m.name in known ==> known[m.name] == (m.evaluator, m.direction)
    ensures var next := known[m.name := (m.evaluator, m.direction)];
            Fits(known, [m] + rest) && Agree([m] + rest, [m] + rest) <==> Fits(next, rest) && Agree(rest, rest)
  {
    var next := known[m.name := (m.evaluator, m.direction)];
    var all := [m] + rest;
    if Fits(next, rest) && Agree(rest, rest) {
      forall i, j | 0 <= i < |all| && 0 <= j < |all| && all[i].name == all[j].name
        ensures all[i].evaluator == all[j].evaluator && all[i].direction == all[j].direction
      {
        assert i > 0 ==> all[i] == rest[i - 1] && rest[i - 1] in rest;
        assert j > 0 ==> all[j] == rest[j - 1] && rest[j - 1] in rest;
      }
    }
    if Agree(all, all) {
      forall i, j | 0 <= i < |rest| && 0 <= j < |rest| && rest[i].name == rest[j].name
        ensures rest[i].evaluator == rest[j].evaluator && rest[i].direction == rest[j].direction
      {
        assert all[i + 1] == rest[i] && all[j + 1] == rest[j];
      }
      forall x | x in rest && x.name == m.name ensures x.evaluator == m.evaluator && x.direction == m.direction {
        var i :| 0 <= i < |rest| && rest[i] == x;
        assert all[i + 1] == x && all[0] == m;
      }
    }
  }

  /** The scan finds no error exactly when all the metrics agree with the table and each other, and
      every objective is observed in its own direction. */
  lemma {:induction false} ScanIs(p: Policy, rs: seq<EvalResult>, known: Semantics)
    ensures ScanError(p, rs, known) == None <==>
              && (forall r | r in rs :: Fits(known, r.metrics) && DirectionsFit(p, r))
              && SelfConsistent(rs)
    decreases |rs|
  {
    if rs != [] {
      var first, rest := rs[0], rs[1..];
      assert rs == [first] + rest;
      LearnIs(known, first.metrics);
      assert SelfConsistent(rs) ==> Agree(rs[0].metrics, rs[0].metrics);
      if Learn(known, first.metrics).Some? {
        var next := Learn(known, first.metrics).value;
        ScanIs(p, rest, next);
        forall i | 0 <= i < |rest|
          ensures Fits(next, rest[i].metrics) <==> Fits(known, rest[i].metrics) && Agree(first.metrics, rest[i].metrics)
        {
          FitsLearned(known, first.metrics, rest[i].metrics);
        }
        ConsistentStep(first, rest);
        assert forall r | r in rest :: exists i :: 0 <= i < |rest| && rest[i] == r;
      }
    }
  }

  lemma FitsLearned(known: Semantics, learned: seq<Metric>, metrics: seq<Metric>)
    requires Learn(known, learned).Some?
    ensures Fits(Learn(known, learned).value, metrics) <==> Fits(known, metrics) && Agree(learned, metrics)
  {
    LearnIs(known, learned);
    var next := Learn(known, learned).value;
    if Fits(next, metrics) {
      forall i, j | 0 <= i < |learned| && 0 <= j < |metrics| && learned[i].name == metrics[j].name
        ensures learned[i].evaluator == metrics[j].evaluator && learned[i].direction == metrics[j].direction
      {
        assert learned[i] in learned && metrics[j] in metrics;
      }
    }
    if Fits(known, metrics) && Agree(learned, metrics) {
      forall m | m in metrics && m.name in next ensures next[m.name] == (m.evaluator, m.direction) {
        var j :| 0 <= j < |metrics| && metrics[j] == m;
        if m.name !in known {
          var l :| l in learned && l.name == m.name;
          var i :| 0 <= i < |learned| && learned[i] == l;
          assert learned[i].evaluator == metrics[j].evaluator && learned[i].direction == metrics[j].direction;
        }
      }
    }
  }

  lemma AgreeSymmetric(a: seq<Metric>, b: seq<Metric>)
    requires Agree(a, b)
    ensures Agree(b, a)
  {
  }

  lemma ConsistentStep(first: EvalResult, rest: seq<EvalResult>)
    ensures SelfConsistent([first] + rest) <==>
              && SelfConsistent(rest) && Agree(first.metrics, first.metrics)
              && forall i | 0 <= i < |rest| :: Agree(first.metrics, rest[i].metrics)
  {
    var all := [first] + rest;
    if SelfConsistent(all) {
      forall i, j | 0 <= i < |rest| && 0 <= j < |rest| ensures Agree(rest[i].metrics, rest[j].metrics) {
        assert Agree(all[i + 1].metrics, all[j + 1].metrics);
      }
      forall i | 0 <= i < |rest| ensures Agree(first.metrics, rest[i].metrics) {
        assert Agree(all[0].metrics, all[i + 1].metrics);
      }
      assert Agree(all[0].metrics, all[0].metrics);
    }
    if SelfConsistent(rest) && Agree(first.metrics, first.metrics)
       && forall i | 0 <= i < |rest| :: Agree(first.metrics, rest[i].metrics) {
      forall i, j | 0 <= i < |all| && 0 <= j < |all| ensures Agree(all[i].metrics, all[j].metrics) {
        assert i > 0 ==> all[i] == rest[i - 1];
        assert j > 0 ==> all[j] == rest[j - 1];
        if i > 0 && j == 0 {
          AgreeSymmetric(first.metrics, rest[i - 1].metrics);
        }
      }
    }
  }

  // ---------------------------------------------------------------- the constructor accepts

  lemma {:induction false} UniqueStays(a: seq<EvalResult>, b: seq<EvalResult>)
    requires multiset(a) == multiset(b) && UniqueCandidates(a)
    ensures UniqueCandidates(b)
  {
    if a == [] {
      assert |multiset(b)| == 0;
    } else {
      var i := FirstIn(a, b);
      var rest := b[..i] + b[i + 1..];
      UniqueStays(a[1..], rest);
      MemberOfPermutation(a[1..], rest);
      forall r | r in rest ensures r.candidate != a[0].candidate {
        var k :| 0 <= k < |a[1..]| && a[1..][k] == r;
        assert a[k + 1] == r;
      }
      forall j, k | 0 <= j < k < |b| ensures b[j].candidate != b[k].candidate {
        assert j < i ==> rest[j] == b[j];
        assert j > i ==> rest[j - 1] == b[j];
        assert k < i ==> rest[k] == b[k];
        assert k > i ==> rest[k - 1] == b[k];
        assert j != i ==> b[j] in rest;
        assert k != i ==> b[k] in rest;
      }
    }
  }

  lemma SameCandidateSameResult(rs: seq<EvalResult>, a: EvalResult, b: EvalResult)
    requires UniqueCandidates(rs) && a in rs && b in rs && a.candidate == b.candidate
    ensures a == b
  {
    var i :| 0 <= i < |rs| && rs[i] == a;
    var j :| 0 <= j < |rs| && rs[j] == b;
    assert i == j;
  }

  /** The results `build_recommendation` ranks: sorted, one per candidate, and those of them that qualify. */
  ghost predicate Prepared(p: Policy, ordered: seq<EvalResult>, qualified: seq<EvalResult>) {
    && UniqueCandidates(ordered) && Sorted(ordered, ByCandidate())
    && qualified == Filter(ordered, IsQualified(p))
  }

  lemma RankedFacts(p: Policy, ordered: seq<EvalResult>, qualified: seq<EvalResult>)
    requires Prepared(p, ordered, qualified)
    ensures var ranked := Ranked(qualified, p.objectives);
            && multiset(ranked) == multiset(qualified) && UniqueCandidates(ranked) && UniqueCandidates(qualified)
            && (forall r :: r in ranked <==> r in qualified)
            && (forall r :: r in qualified <==> r in ordered && Failures(p, r) == {})
  {
    SortPermutes(qualified, ByRank(qualified, p.objectives));
    MemberOfPermutation(qualified, Ranked(qualified, p.objectives));
    FilterUnique(ordered, IsQualified(p));
    FilterIs(ordered, IsQualified(p));
    UniqueStays(qualified, Ranked(qualified, p.objectives));
  }

  /** A candidate's rank is its place in the ranking, and only ranked candidates have one. */
  lemma RankIsPlace(ranked: seq<EvalResult>, i: nat)
    requires UniqueCandidates(ranked) && i < |ranked|
    ensures RankIn(ranked, ranked[i].candidate) == Some(i + 1)
  {
    var n := RankIn(ranked, ranked[i].candidate);
    assert ranked[i] in ranked;
    assert n.value - 1 == i;
  }

  lemma {:induction false} AssessAllPermutes(p: Policy, ranked: seq<EvalResult>, a: seq<EvalResult>, b: seq<EvalResult>)
    requires multiset(a) == multiset(b)
    ensures multiset(AssessAll(p, ranked, a)) == multiset(AssessAll(p, ranked, b))
  {
    if a == [] {
      assert |multiset(b)| == 0;
    } else {
      var i := FirstIn(a, b);
      var pre, post := b[..i], b[i + 1..];
      assert a == [a[0]] + a[1..];
      AssessAllPermutes(p, ranked, a[1..], pre + post);
      AssessConcat(p, ranked, [a[0]], a[1..]);
      AssessConcat(p, ranked, pre, [b[i]] + post);
      AssessConcat(p, ranked, [b[i]], post);
      AssessConcat(p, ranked, pre, post);
    }
  }

  lemma AssessConcat(p: Policy, ranked: seq<EvalResult>, a: seq<EvalResult>, b: seq<EvalResult>)
    ensures AssessAll(p, ranked, a + b) == AssessAll(p, ranked, a) + AssessAll(p, ranked, b)
  {
  }

  lemma {:induction false} QualifiedAssessments(p: Policy, ranked: seq<EvalResult>, rs: seq<EvalResult>)
    requires forall r | r in rs :: RankIn(ranked, r.candidate).Some? <==> Failures(p, r) == {}
    ensures Filter(AssessAll(p, ranked, rs), QualifiedTest()) == AssessAll(p, ranked, Filter(rs, IsQualified(p)))
  {
    if rs != [] {
      QualifiedAssessments(p, ranked, rs[1..]);
      assert rs[0] in rs;
      assert AssessAll(p, ranked, rs)[1..] == AssessAll(p, ranked, rs[1..]);
      var head := if IsQualified(p)(rs[0]) then [rs[0]] else [];
      AssessConcat(p, ranked, head, Filter(rs[1..], IsQualified(p)));
      assert AssessAll(p, ranked, head) == if IsQualified(p)(rs[0]) then [Assess(p, ranked, rs[0])] else [];
    }
  }

  /** Exactly the qualified results have a rank. */
  lemma RankedAreQualified(p: Policy, ordered: seq<EvalResult>, qualified: seq<EvalResult>, r: EvalResult)
    requires Prepared(p, ordered, qualified) && r in ordered
    ensures RankIn(Ranked(qualified, p.objectives), r.candidate).Some? <==> Failures(p, r) == {}
  {
    RankedFacts(p, ordered, qualified);
    var ranked := Ranked(qualified, p.objectives);
    var n := RankIn(ranked, r.candidate);
    if n.Some? {
      assert ranked[n.value - 1] in ranked;
      SameCandidateSameResult(ordered, r, ranked[n.value - 1]);
    }
  }

  lemma {:induction false} ObjectiveNames(objectives: seq<Objective>, r: EvalResult)
    requires forall i, j | 0 <= i < j < |objectives| :: objectives[i].metric != objectives[j].metric
    ensures forall v | v in ObjectiveValues(objectives, r) :: exists o :: o in objectives && o.metric == v.0
    ensures forall i, j | 0 <= i < j < |ObjectiveValues(objectives, r)| ::
              ObjectiveValues(objectives, r)[i].0 != ObjectiveValues(objectives, r)[j].0
  {
    if objectives != [] {
      var rest := ObjectiveValues(objectives[1..], r);
      assert objectives == [objectives[0]] + objectives[1..];
      ObjectiveNames(objectives[1..], r);
      forall i | 0 <= i < |rest| ensures rest[i].0 != objectives[0].metric {
        assert rest[i] in rest;
        var o :| o in objectives[1..] && o.metric == rest[i].0;
        var k :| 0 <= k < |objectives[1..]| && objectives[1..][k] == o;
        assert objectives[k + 1] == o;
      }
      forall v | v in ObjectiveValues(objectives, r) ensures exists o :: o in objectives && o.metric == v.0 {
        if v in rest {
          var o :| o in objectives[1..] && o.metric == v.0;
        } else {
          assert objectives[0] in objectives;
        }
      }
    }
  }

  lemma AssessmentsValid(p: Policy, ordered: seq<EvalResult>, qualified: seq<EvalResult>)
    requires ValidPolicy(p) && Prepared(p, ordered, qualified)
    ensures forall a | a in AssessAll(p, Ranked(qualified, p.objectives), ordered) :: AssessmentError(a) == None
  {
    var all := AssessAll(p, Ranked(qualified, p.objectives), ordered);
    forall a | a in all ensures AssessmentError(a) == None {
      var i :| 0 <= i < |all| && all[i] == a;
      assert ordered[i] in ordered;
      RankedAreQualified(p, ordered, qualified, ordered[i]);
      ObjectiveNames(p.objectives, ordered[i]);
    }
  }

  /** The constructor's own ranking of the qualified assessments is the engine's ranking. */
  lemma ConstructorSeesRanking(p: Policy, ordered: seq<EvalResult>, qualified: seq<EvalResult>)
    requires Prepared(p, ordered, qualified)
    ensures var ranked := Ranked(qualified, p.objectives);
            Sort(Filter(AssessAll(p, ranked, ordered), QualifiedTest()), ByRankNumber()) == AssessAll(p, ranked, ranked)
  {
    var ranked := Ranked(qualified, p.objectives);
    var mine := AssessAll(p, ranked, ranked);
    RankedFacts(p, ordered, qualified);
    forall r | r in ordered ensures RankIn(ranked, r.candidate).Some? <==> Failures(p, r) == {} {
      RankedAreQualified(p, ordered, qualified, r);
    }
    QualifiedAssessments(p, ranked, ordered);
    AssessAllPermutes(p, ranked, ranked, qualified);
    RankedInOrder(p, ranked);
    ContiguousOrder(mine);
    SortOfPermutation(mine, AssessAll(p, ranked, qualified), ByRankNumber());
    SortKeepsSorted(mine, ByRankNumber());
  }

  lemma RankedInOrder(p: Policy, ranked: seq<EvalResult>)
    requires UniqueCandidates(ranked)
    ensures Contiguous(AssessAll(p, ranked, ranked))
  {
    forall i | 0 <= i < |ranked| ensures RankIn(ranked, ranked[i].candidate) == Some(i + 1) { RankIsPlace(ranked, i); }
  }

  lemma ContiguousOrder(mine: seq<Assessment>)
    requires Contiguous(mine)
    ensures Sorted(mine, ByRankNumber()) && Separates(mine, ByRankNumber()) && TotalOrder(ByRankNumber())
  {
    forall x, y | x in mine && y in mine && ByRankNumber()(x, y) && ByRankNumber()(y, x) ensures x == y {
      var i :| 0 <= i < |mine| && mine[i] == x;
      var j :| 0 <= j < |mine| && mine[j] == y;
      assert RankNumber(mine[i]) == i + 1 && RankNumber(mine[j]) == j + 1;
    }
  }

  lemma {:induction false} ExceptIs(rs: seq<EvalResult>, selected: Option<Key>)
    requires UniqueCandidates(rs)
    ensures forall k :: k in CandidatesExcept(rs, selected) <==>
              selected != Some(k) && exists r :: r in rs && r.candidate == k
    ensures DistinctKeys(CandidatesExcept(rs, selected))
  {
    if rs != [] {
      var rest := CandidatesExcept(rs[1..], selected);
      assert rs == [rs[0]] + rs[1..];
      forall i, j | 0 <= i < j < |rs[1..]| ensures rs[1..][i].candidate != rs[1..][j].candidate {
        assert rs[1..][i] == rs[i + 1] && rs[1..][j] == rs[j + 1];
      }
      ExceptIs(rs[1..], selected);
      forall i | 0 <= i < |rest| ensures rest[i] != rs[0].candidate {
        assert rest[i] in rest;
        var r :| r in rs[1..] && r.candidate == rest[i];
        var j :| 0 <= j < |rs[1..]| && rs[1..][j] == r;
        assert rs[j + 1] == r;
      }
      forall k ensures k in CandidatesExcept(rs, selected) <==>
                       selected != Some(k) && exists r :: r in rs && r.candidate == k {
        if selected != Some(k) && exists r :: r in rs && r.candidate == k {
          var r :| r in rs && r.candidate == k;
          assert r == rs[0] || r in rs[1..];
        }
        if k in CandidatesExcept(rs, selected) {
          assert rs[0] in rs;
        }
      }
    }
  }

  lemma {:induction false} DistinctKeysPermute(a: seq<Key>, b: seq<Key>)
    requires multiset(a) == multiset(b) && DistinctKeys(a)
    ensures DistinctKeys(b)
  {
    if a == [] {
      assert |multiset(b)| == 0;
    } else {
      var i := FirstIn(a, b);
      var rest := b[..i] + b[i + 1..];
      DistinctKeysPermute(a[1..], rest);
      MemberOfPermutation(a[1..], rest);
      assert a[0] !in a[1..];
      forall j, k | 0 <= j < k < |b| ensures b[j] != b[k] {
        assert j < i ==> rest[j] == b[j];
        assert j > i ==> rest[j - 1] == b[j];
        assert k < i ==> rest[k] == b[k];
        assert k > i ==> rest[k - 1] == b[k];
        assert j != i ==> b[j] in rest;
        assert k != i ==> b[k] in rest;
      }
    }
  }

  lemma SortedFrontIs(qualified: seq<EvalResult>, objectives: seq<Objective>)
    requires UniqueCandidates(qualified)
    ensures var front := Sort(Front(qualified, objectives), ByCandidate());
            && UniqueCandidates(front)
            && forall r :: r in front <==> r in qualified && OnFront(qualified, objectives, r)
  {
    var unsorted, keep := Front(qualified, objectives), FrontTest(qualified, objectives);
    FilterUnique(qualified, keep);
    FilterIs(qualified, keep);
    SortPermutes(unsorted, ByCandidate());
    MemberOfPermutation(unsorted, Sort(unsorted, ByCandidate()));
    UniqueStays(unsorted, Sort(unsorted, ByCandidate()));
  }

  lemma SortedExceptIs(front: seq<EvalResult>, selected: Option<Key>)
    requires UniqueCandidates(front)
    ensures var alternatives := Sort(CandidatesExcept(front, selected), KeysOrdered());
            && DistinctKeys(alternatives)
            && forall k :: k in alternatives <==> selected != Some(k) && exists r :: r in front && r.candidate == k
  {
    var alternatives := CandidatesExcept(front, selected);
    ExceptIs(front, selected);
    SortPermutes(alternatives, KeysOrdered());
    MemberOfPermutation(alternatives, Sort(alternatives, KeysOrdered()));
    DistinctKeysPermute(alternatives, Sort(alternatives, KeysOrdered()));
  }

  lemma AssessmentsStaySorted(p: Policy, ranked: seq<EvalResult>, ordered: seq<EvalResult>)
    requires UniqueCandidates(ordered) && Sorted(ordered, ByCandidate())
    ensures Sort(AssessAll(p, ranked, ordered), ByAssessment()) == AssessAll(p, ranked, ordered)
  {
    KeyOrder();
    var all := AssessAll(p, ranked, ordered);
    forall i, j | 0 <= i < j < |all| ensures ByAssessment()(all[i], all[j]) {
      assert ByCandidate()(ordered[i], ordered[j]);
    }
    forall x, y | x in all && y in all && ByAssessment()(x, y) && ByAssessment()(y, x) ensures x == y {
      var i :| 0 <= i < |all| && all[i] == x;
      var j :| 0 <= j < |all| && all[j] == y;
      assert ordered[i].candidate == ordered[j].candidate;
    }
    SortKeepsSorted(all, ByAssessment());
  }

  // ---------------------------------------------------------------- main results

  /** What a caller must supply; each condition is one of the documented input checks. */
  ghost predicate InputOk(p: Policy, results: seq<EvalResult>) {
    && results != []
    && UniqueCandidates(results)
    && SelfConsistent(results)
    && AllDirectionsFit(p, results)
    && SharedContext(p, results)
  }

  ghost predicate AllDirectionsFit(p: Policy, rs: seq<EvalResult>) { forall r | r in rs :: DirectionsFit(p, r) }

  /** The qualified results share one evaluation mode, suite and suite state. */
  ghost predicate SharedContext(p: Policy, rs: seq<EvalResult>) {
    forall r, s | r in rs && s in rs && Failures(p, r) == {} && Failures(p, s) == {} :: r.context == s.context
  }

  /** The constructor's checks, on values whose sorts are already known. */
  lemma ConstructorAccepts(all: seq<Assessment>, selected: Option<Key>, alternatives: seq<Key>,
                           conflicts: set<Conflict>, confidence: Confidence, ranked: seq<Assessment>, sorted: seq<Key>)
    requires all != [] && forall a | a in all :: AssessmentError(a) == None
    requires Sort(all, ByAssessment()) == all && Sort(Filter(all, QualifiedTest()), ByRankNumber()) == ranked
    requires Sort(alternatives, KeysOrdered()) == sorted
    requires forall i, j | 0 <= i < j < |all| :: all[i].candidate != all[j].candidate
    requires Contiguous(ranked) && selected == (if ranked == [] then None else Some(ranked[0].candidate))
    requires DistinctKeys(sorted) && (selected.Some? ==> selected.value !in sorted)
    requires forall k | k in sorted :: exists a :: a in ranked && a.candidate == k
    requires selected == None ==> confidence == NoConfidence
    ensures MakeRecommendation(all, selected, alternatives, conflicts, confidence) ==
            Ok(RecommendationRecord(all, selected, sorted, conflicts, confidence))
  {
  }

  lemma RankedHave(p: Policy, ranked: seq<EvalResult>, front: seq<EvalResult>, alternatives: seq<Key>)
    requires forall r | r in front :: r in ranked
    requires forall k | k in alternatives :: exists r :: r in front && r.candidate == k
    ensures forall k | k in alternatives :: exists a :: a in AssessAll(p, ranked, ranked) && a.candidate == k
  {
    forall k | k in alternatives ensures exists a :: a in AssessAll(p, ranked, ranked) && a.candidate == k {
      var r :| r in front && r.candidate == k;
      var i :| 0 <= i < |ranked| && ranked[i] == r;
      assert AssessAll(p, ranked, ranked)[i].candidate == k;
    }
  }

  lemma DistinctAssessments(p: Policy, ranked: seq<EvalResult>, ordered: seq<EvalResult>)
    requires UniqueCandidates(ordered)
    ensures var all := AssessAll(p, ranked, ordered);
            forall i, j | 0 <= i < j < |all| :: all[i].candidate != all[j].candidate
  {
  }

  /** The candidate ranked first, if any qualified. */
  function Winner(ranked: seq<EvalResult>): Option<Key> { if ranked == [] then None else Some(ranked[0].candidate) }

  /** The record `Summarise` builds always passes its own constructor. */
  lemma SummaryAccepted(p: Policy, ordered: seq<EvalResult>, qualified: seq<EvalResult>)
    requires ValidPolicy(p) && Prepared(p, ordered, qualified) && ordered != []
    ensures var ranked := Ranked(qualified, p.objectives);
            var front := Sort(Front(qualified, p.objectives), ByCandidate());
            && Summarise(p, ordered, qualified).Ok?
            && var rec := Summarise(p, ordered, qualified).value;
            && rec.assessments == AssessAll(p, ranked, ordered)
            && rec.selected == Winner(ranked)
            && rec.alternatives == Sort(CandidatesExcept(front, Winner(ranked)), KeysOrdered())
            && rec.confidence == (if ranked == [] then NoConfidence else ConfidenceFor(p.confidence, ranked[0]))
  {
    var ranked := Ranked(qualified, p.objectives);
    var front := Sort(Front(qualified, p.objectives), ByCandidate());
    var conflicts := AllConflicts(p, ordered)
      + (if |front| > 1 then {ObjectiveTradeoff} else {})
      + (if Winner(ranked) == None then {NoQualifiedCandidate} else {});
    var confidence := if ranked == [] then NoConfidence else ConfidenceFor(p.confidence, ranked[0]);
    var alternatives := CandidatesExcept(front, Winner(ranked));
    RankedFacts(p, ordered, qualified);
    AssessmentsValid(p, ordered, qualified);
    AssessmentsStaySorted(p, ranked, ordered);
    ConstructorSeesRanking(p, ordered, qualified);
    RankedInOrder(p, ranked);
    SortedFrontIs(qualified, p.objectives);
    SortedExceptIs(front, Winner(ranked));
    DistinctAssessments(p, ranked, ordered);
    RankedHave(p, ranked, front, Sort(alternatives, KeysOrdered()));
    ConstructorAccepts(AssessAll(p, ranked, ordered), Winner(ranked), alternatives, conflicts, confidence,
                       AssessAll(p, ranked, ranked), Sort(alternatives, KeysOrdered()));
  }

  lemma SelfConsistentMembers(rs: seq<EvalResult>)
    ensures SelfConsistent(rs) <==> forall r, s | r in rs && s in rs :: Agree(r.metrics, s.metrics)
  {
    if SelfConsistent(rs) {
      forall r, s | r in rs && s in rs ensures Agree(r.metrics, s.metrics) {
        var i :| 0 <= i < |rs| && rs[i] == r;
        var j :| 0 <= j < |rs| && rs[j] == s;
        assert Agree(rs[i].metrics, rs[j].metrics);
      }
    }
  }

  /** The prepared form of the input: sorted, with the qualified ones picked out. */
  ghost function OrderedInput(results: seq<EvalResult>): seq<EvalResult> { Sort(results, ByCandidate()) }

  ghost function QualifiedOf(p: Policy, results: seq<EvalResult>): seq<EvalResult> {
    Filter(OrderedInput(results), IsQualified(p))
  }

  lemma InputPrepared(p: Policy, results: seq<EvalResult>)
    ensures multiset(OrderedInput(results)) == multiset(results)
    ensures forall r :: r in OrderedInput(results) <==> r in results
    ensures UniqueCandidates(OrderedInput(results)) <==> UniqueCandidates(results)
    ensures UniqueCandidates(results) ==> Prepared(p, OrderedInput(results), QualifiedOf(p, results))
    ensures forall r :: r in QualifiedOf(p, results) <==> r in results && Failures(p, r) == {}
  {
    var ordered := OrderedInput(results);
    KeyOrder();
    SortPermutes(results, ByCandidate());
    SortSorted(results, ByCandidate());
    MemberOfPermutation(results, ordered);
    FilterIs(ordered, IsQualified(p));
    if UniqueCandidates(results) {
      UniqueStays(results, ordered);
    }
    if UniqueCandidates(ordered) {
      UniqueStays(ordered, results);
    }
  }

  lemma ScanOfInput(p: Policy, results: seq<EvalResult>)
    ensures ScanError(p, OrderedInput(results), map[]) == None <==>
              SelfConsistent(results) && AllDirectionsFit(p, results)
  {
    InputPrepared(p, results);
    ScanIs(p, OrderedInput(results), map[]);
    SelfConsistentMembers(OrderedInput(results));
    SelfConsistentMembers(results);
  }

  lemma ContextOfInput(p: Policy, results: seq<EvalResult>)
    ensures OneContext(QualifiedOf(p, results)) <==> SharedContext(p, results)
  {
    InputPrepared(p, results);
    var qualified := QualifiedOf(p, results);
    assert qualified != [] ==> qualified[0] in qualified;
  }

  lemma SummaryOfInput(p: Policy, results: seq<EvalResult>)
    requires ValidPolicy(p) && results != [] && UniqueCandidates(results)
    ensures Summarise(p, OrderedInput(results), QualifiedOf(p, results)).Ok?
  {
    InputPrepared(p, results);
    assert results[0] in OrderedInput(results);
    SummaryAccepted(p, OrderedInput(results), QualifiedOf(p, results));
  }

  /** A recommendation is produced exactly for acceptable input: no later check can fail. */
  lemma BuildAccepts(p: Policy, results: seq<EvalResult>)
    requires ValidPolicy(p)
    ensures Build(p, results).Ok? <==> InputOk(p, results)
    ensures Build(p, results).Ok? ==> Build(p, results) == Summarise(p, OrderedInput(results), QualifiedOf(p, results))
  {
    if results != [] && UniqueCandidates(results) {
      SummaryOfInput(p, results);
    }
    assert UniqueCandidates(OrderedInput(results)) <==> UniqueCandidates(results) by { InputPrepared(p, results); }
    ScanOfInput(p, results);
    ContextOfInput(p, results);
  }

  /** The assessment a recommendation gives a candidate. */
  ghost predicate AssessedAs(rec: RecommendationRecord, r: EvalResult, a: Assessment) {
    a in rec.assessments && a.candidate == r.candidate
  }

  /** What the recommendation says about the results, by what their metrics say:
      who qualifies, who is selected, and who is offered as an alternative. */
  lemma RecommendationMeaning(p: Policy, results: seq<EvalResult>)
    requires ValidPolicy(p) && InputOk(p, results)
    ensures Build(p, results).Ok?
    ensures var rec, qualified := Build(p, results).value, QualifiedOf(p, results);
            && (forall r, a | r in results && AssessedAs(rec, r, a) ::
                  a.failures == Failures(p, r) && (a.qualified <==> r in qualified))
            && (rec.selected == None <==> qualified == [])
            && (rec.selected.Some? ==>
                  exists r :: r in qualified && r.candidate == rec.selected.value
                              && OnFront(qualified, p.objectives, r))
            && (forall k :: k in rec.alternatives <==>
                  rec.selected != Some(k)
                  && exists r :: r in qualified && r.candidate == k && OnFront(qualified, p.objectives, r))
  {
    var ordered, qualified := OrderedInput(results), QualifiedOf(p, results);
    var ranked, front := Ranked(qualified, p.objectives), Sort(Front(qualified, p.objectives), ByCandidate());
    InputPrepared(p, results);
    BuildAccepts(p, results);
    assert results[0] in ordered;
    SummaryAccepted(p, ordered, qualified);
    RankedFacts(p, ordered, qualified);
    SortedFrontIs(qualified, p.objectives);
    SortedExceptIs(front, Winner(ranked));
    if qualified != [] {
      RankOneOnFront(qualified, p.objectives);
    }
    assert |multiset(ranked)| == |multiset(qualified)|;
    var rec := Build(p, results).value;
    forall r, a | r in results && AssessedAs(rec, r, a)
      ensures a.failures == Failures(p, r) && (a.qualified <==> r in qualified)
    {
      AssessmentOf(p, ordered, qualified, r, a);
    }
  }

  lemma AssessmentOf(p: Policy, ordered: seq<EvalResult>, qualified: seq<EvalResult>, r: EvalResult, a: Assessment)
    requires Prepared(p, ordered, qualified) && r in ordered && a.candidate == r.candidate
    requires a in AssessAll(p, Ranked(qualified, p.objectives), ordered)
    ensures a == Assess(p, Ranked(qualified, p.objectives), r)
    ensures a.qualified <==> Failures(p, r) == {}
  {
    var all := AssessAll(p, Ranked(qualified, p.objectives), ordered);
    var i :| 0 <= i < |all| && all[i] == a;
    assert ordered[i] in ordered;
    SameCandidateSameResult(ordered, ordered[i], r);
    RankedAreQualified(p, ordered, qualified, r);
  }

  /** Ranks respect dominance: if `x` dominates `y` among the qualified results, `x` has the smaller rank number. */
  lemma RanksRespectDominance(p: Policy, results: seq<EvalResult>, x: EvalResult, y: EvalResult, a: Assessment,
                              b: Assessment)
    requires ValidPolicy(p) && InputOk(p, results) && x in QualifiedOf(p, results) && y in QualifiedOf(p, results)
    requires Beats(QualifiedOf(p, results), p.objectives, x, y)
    requires Build(p, results).Ok? && AssessedAs(Build(p, results).value, x, a)
             && AssessedAs(Build(p, results).value, y, b)
    ensures a.rank.Some? && b.rank.Some? && a.rank.value < b.rank.value
  {
    var ordered, qualified := OrderedInput(results), QualifiedOf(p, results);
    var ranked := Ranked(qualified, p.objectives);
    InputPrepared(p, results);
    BuildAccepts(p, results);
    assert x in ordered;
    SummaryAccepted(p, ordered, qualified);
    AssessmentOf(p, ordered, qualified, x, a);
    AssessmentOf(p, ordered, qualified, y, b);
    RankedFacts(p, ordered, qualified);
    var i, j := RankOf(qualified, p.objectives, x), RankOf(qualified, p.objectives, y);
    RankIsPlace(ranked, i);
    RankIsPlace(ranked, j);
    RankRefinesDominance(qualified, p.objectives, i, j);
  }

  /** The order in which results are supplied is irrelevant, errors included. */
  lemma BuildIgnoresOrder(p: Policy, a: seq<EvalResult>, b: seq<EvalResult>)
    requires multiset(a) == multiset(b)
    ensures Build(p, a) == Build(p, b)
  {
    assert |multiset(a)| == |a| && |multiset(b)| == |b|;
    if a != [] {
      KeyOrder();
      InputPrepared(p, a);
      InputPrepared(p, b);
      if UniqueCandidates(a) {
        UniqueStays(a, b);
        forall x, y | x in a && y in a && ByCandidate()(x, y) && ByCandidate()(y, x) ensures x == y {
          SameCandidateSameResult(a, x, y);
        }
        SortOfPermutation(a, b, ByCandidate());
      } else if UniqueCandidates(b) {
        UniqueStays(b, a);
      }
    }
  }
}
