/** The recommendation engine: qualification, lexicographic ranking over cohort keys, the Pareto
    front, and the record whose constructor re-checks all of it. */
module Recommendation {
  import opened Outcomes
  import opened Sorting
  import opened Keys
  import opened Cohorts
  import opened SuiteLineage
  import opened SuiteService
  import opened Ranking

  // ---------------------------------------------------------------- rank and front

  predicate RankLe(rs: seq<EvalResult>, objectives: seq<Objective>, a: EvalResult, b: EvalResult) {
    var k, l := CohortKey(rs, objectives, a.candidate), CohortKey(rs, objectives, b.candidate);
    if k != l then VectorLe(k, l) else KeyLe(a.candidate, b.candidate)
  }

  function ByRank(rs: seq<EvalResult>, objectives: seq<Objective>): (EvalResult, EvalResult) -> bool {
    (a, b) => RankLe(rs, objectives, a, b)
  }

  function ByCandidate(): (EvalResult, EvalResult) -> bool {
    (a: EvalResult, b: EvalResult) => KeyLe(a.candidate, b.candidate)
  }

  function Ranked(rs: seq<EvalResult>, objectives: seq<Objective>): seq<EvalResult> {
    Sort(rs, ByRank(rs, objectives))
  }

  predicate Beats(rs: seq<EvalResult>, objectives: seq<Objective>, a: EvalResult, b: EvalResult) {
    Dominates(CohortKey(rs, objectives, a.candidate), CohortKey(rs, objectives, b.candidate))
  }

  predicate OnFront(rs: seq<EvalResult>, objectives: seq<Objective>, r: EvalResult) {
    forall other | other in rs :: !Beats(rs, objectives, other, r)
  }

  function FrontTest(rs: seq<EvalResult>, objectives: seq<Objective>): EvalResult -> bool {
    r => OnFront(rs, objectives, r)
  }

  function Front(rs: seq<EvalResult>, objectives: seq<Objective>): seq<EvalResult> {
    Filter(rs, FrontTest(rs, objectives))
  }

  lemma {:induction false} FilterUnique(rs: seq<EvalResult>, keep: EvalResult -> bool)
    requires UniqueCandidates(rs)
    ensures UniqueCandidates(Filter(rs, keep))
  {
    if rs != [] {
      var rest := Filter(rs[1..], keep);
      forall i, j | 0 <= i < j < |rs[1..]| ensures rs[1..][i].candidate != rs[1..][j].candidate {
        assert rs[1..][i] == rs[i + 1] && rs[1..][j] == rs[j + 1];
      }
      FilterUnique(rs[1..], keep);
      FilterIs(rs[1..], keep);
      forall i | 0 <= i < |rest| ensures rest[i].candidate != rs[0].candidate {
        assert rest[i] in rs[1..];
        var j :| 0 <= j < |rs[1..]| && rs[1..][j] == rest[i];
        assert rs[j + 1] == rest[i];
      }
    }
  }

  /** One of the first `n` results dominates the candidate. */
  ghost predicate BeatenBy(rs: seq<EvalResult>, objectives: seq<Objective>, n: nat, candidate: EvalResult)
    requires n <= |rs|
  {
    n > 0 && (BeatenBy(rs, objectives, n - 1, candidate) || Beats(rs, objectives, rs[n - 1], candidate))
  }

  lemma {:induction false} BeatenByIs(rs: seq<EvalResult>, objectives: seq<Objective>, n: nat, candidate: EvalResult)
    requires n <= |rs|
    ensures BeatenBy(rs, objectives, n, candidate) <==> exists r :: r in rs[..n] && Beats(rs, objectives, r, candidate)
  {
    if n > 0 {
      BeatenByIs(rs, objectives, n - 1, candidate);
      assert rs[..n] == rs[..n - 1] + [rs[n - 1]];
    }
  }

  /** The inner scan: does any result dominate the candidate? */
  method IsDominated(rs: seq<EvalResult>, objectives: seq<Objective>, keys: map<Key, seq<nat>>, candidate: EvalResult)
    returns (dominated: bool)
    requires candidate in rs
    requires forall r | r in rs :: r.candidate in keys && keys[r.candidate] == CohortKey(rs, objectives, r.candidate)
    ensures dominated <==> !OnFront(rs, objectives, candidate)
  {
    dominated := false;
    for m := 0 to |rs|
      invariant dominated <==> BeatenBy(rs, objectives, m, candidate)
    {
      if Dominates(keys[rs[m].candidate], keys[candidate.candidate]) {
        dominated := true;
      }
    }
    BeatenByIs(rs, objectives, |rs|, candidate);
    assert rs[..|rs|] == rs;
  }

  /** The candidates no other dominates, sorted by key: two nested scans. */
  method ParetoResults(rs: seq<EvalResult>, objectives: seq<Objective>, keys: map<Key, seq<nat>>)
    returns (front: seq<EvalResult>)
    requires forall r | r in rs :: r.candidate in keys && keys[r.candidate] == CohortKey(rs, objectives, r.candidate)
    ensures front == Sort(Front(rs, objectives), ByCandidate())
  {
    var nondominated := [];
    ghost var keep := FrontTest(rs, objectives);
    assert rs[|rs|..] == [] && rs[0..] == rs;
    for n := 0 to |rs|
      invariant nondominated + Filter(rs[n..], keep) == Front(rs, objectives)
    {
      var dominated := IsDominated(rs, objectives, keys, rs[n]);
      FilterStep(rs, keep, n, nondominated);
      if !dominated {
        nondominated := nondominated + [rs[n]];
      }
    }
    assert nondominated + [] == nondominated;
    front := Sort(nondominated, ByCandidate());
  }

  lemma RankOrder(rs: seq<EvalResult>, objectives: seq<Objective>)
    ensures TotalOrder(ByRank(rs, objectives))
  {
    KeyOrder();
    var le := ByRank(rs, objectives);
    forall a, b ensures le(a, b) || le(b, a) {
      VectorTotal(CohortKey(rs, objectives, a.candidate), CohortKey(rs, objectives, b.candidate));
      assert KeyLe(a.candidate, b.candidate) || KeyLe(b.candidate, a.candidate);
    }
    forall a, b, c | le(a, b) && le(b, c) ensures le(a, c) { RankTransitive(rs, objectives, a, b, c); }
  }

  lemma RankTransitive(rs: seq<EvalResult>, objectives: seq<Objective>, a: EvalResult, b: EvalResult, c: EvalResult)
    requires RankLe(rs, objectives, a, b) && RankLe(rs, objectives, b, c)
    ensures RankLe(rs, objectives, a, c)
  {
    KeyOrder();
    var k, l, m := CohortKey(rs, objectives, a.candidate), CohortKey(rs, objectives, b.candidate),
                   CohortKey(rs, objectives, c.candidate);
    if k == l == m {
      assert KeyLe(a.candidate, b.candidate) && KeyLe(b.candidate, c.candidate);
    } else if k != l && l != m {
      VectorTransitive(k, l, m);
      if k == m {
        VectorAntisymmetric(k, l);
      }
    }
  }

  /** The position of a result in the ranking. */
  ghost function RankOf(rs: seq<EvalResult>, objectives: seq<Objective>, r: EvalResult): (p: nat)
    requires r in rs
    ensures p < |Ranked(rs, objectives)| && Ranked(rs, objectives)[p] == r
  {
    SortPermutes(rs, ByRank(rs, objectives));
    MemberOfPermutation(rs, Ranked(rs, objectives));
    var p :| 0 <= p < |Ranked(rs, objectives)| && Ranked(rs, objectives)[p] == r;
    p
  }

  /** A dominating candidate always ranks ahead: rank is a linear extension of dominance. */
  lemma RankRefinesDominance(rs: seq<EvalResult>, objectives: seq<Objective>, i: nat, j: nat)
    requires i < |Ranked(rs, objectives)| && j < |Ranked(rs, objectives)|
    requires Beats(rs, objectives, Ranked(rs, objectives)[i], Ranked(rs, objectives)[j])
    ensures i < j
  {
    var ranked := Ranked(rs, objectives);
    RankOrder(rs, objectives);
    SortSorted(rs, ByRank(rs, objectives));
    var k, l := CohortKey(rs, objectives, ranked[i].candidate), CohortKey(rs, objectives, ranked[j].candidate);
    DominanceIsLexicographic(k, l);
    assert !ByRank(rs, objectives)(ranked[j], ranked[i]);
  }

  /** On the first objective that puts them into different cohorts `x` is in the better one; if there is none,
      its candidate's key comes first. */
  ghost predicate Precedes(rs: seq<EvalResult>, objectives: seq<Objective>, x: EvalResult, y: EvalResult) {
    || (exists k :: FirstBetter(rs, objectives, x, y, k))
    || ((forall o | o in objectives :: CohortIndex(rs, o, x.candidate) == CohortIndex(rs, o, y.candidate))
        && KeyLe(x.candidate, y.candidate))
  }

  ghost predicate FirstBetter(rs: seq<EvalResult>, objectives: seq<Objective>, x: EvalResult, y: EvalResult, k: int) {
    && 0 <= k < |objectives|
    && CohortIndex(rs, objectives[k], x.candidate) < CohortIndex(rs, objectives[k], y.candidate)
    && forall i | 0 <= i < k ::
         CohortIndex(rs, objectives[i], x.candidate) == CohortIndex(rs, objectives[i], y.candidate)
  }

  lemma KeysFirstDiffer(rs: seq<EvalResult>, objectives: seq<Objective>, x: EvalResult, y: EvalResult)
    ensures var a, b := CohortKey(rs, objectives, x.candidate), CohortKey(rs, objectives, y.candidate);
            && (forall k :: SmallerFirstAt(a, b, k) <==> FirstBetter(rs, objectives, x, y, k))
            && (a == b <==> forall o | o in objectives ::
                              CohortIndex(rs, o, x.candidate) == CohortIndex(rs, o, y.candidate))
  {
    var a, b := CohortKey(rs, objectives, x.candidate), CohortKey(rs, objectives, y.candidate);
    forall i | 0 <= i < |objectives|
      ensures a[i] == CohortIndex(rs, objectives[i], x.candidate)
      ensures b[i] == CohortIndex(rs, objectives[i], y.candidate)
    {
      CohortKeyAt(rs, objectives, x.candidate, i);
      CohortKeyAt(rs, objectives, y.candidate, i);
    }
  }

  /** The ranking order is decided by the first objective that tells two candidates apart. */
  lemma RankLeIsPrecedes(rs: seq<EvalResult>, objectives: seq<Objective>, x: EvalResult, y: EvalResult)
    ensures RankLe(rs, objectives, x, y) <==> Precedes(rs, objectives, x, y)
  {
    KeysFirstDiffer(rs, objectives, x, y);
    FirstDifferenceDecides(CohortKey(rs, objectives, x.candidate), CohortKey(rs, objectives, y.candidate));
  }

  /** And so is who is ranked before whom. */
  lemma RankedByFirstDifference(rs: seq<EvalResult>, objectives: seq<Objective>, x: EvalResult, y: EvalResult)
    requires UniqueCandidates(rs) && x in rs && y in rs && x != y
    ensures RankOf(rs, objectives, x) < RankOf(rs, objectives, y) <==> Precedes(rs, objectives, x, y)
  {
    var ranked, i, j := Ranked(rs, objectives), RankOf(rs, objectives, x), RankOf(rs, objectives, y);
    RankOrder(rs, objectives);
    SortSorted(rs, ByRank(rs, objectives));
    RankLeIsPrecedes(rs, objectives, x, y);
    if i < j {
      assert ByRank(rs, objectives)(ranked[i], ranked[j]);
    } else {
      assert ByRank(rs, objectives)(ranked[j], ranked[i]);
      if RankLe(rs, objectives, x, y) { SameRankSameResult(rs, objectives, x, y); }
    }
  }

  lemma SameRankSameResult(rs: seq<EvalResult>, objectives: seq<Objective>, x: EvalResult, y: EvalResult)
    requires UniqueCandidates(rs) && x in rs && y in rs
    requires RankLe(rs, objectives, x, y) && RankLe(rs, objectives, y, x)
    ensures x == y
  {
    var a, b := CohortKey(rs, objectives, x.candidate), CohortKey(rs, objectives, y.candidate);
    KeyOrder();
    if a != b { VectorAntisymmetric(a, b); }
    var i :| 0 <= i < |rs| && rs[i] == x;
    var j :| 0 <= j < |rs| && rs[j] == y;
  }

  /** The first ranked candidate is never dominated. */
  lemma RankOneOnFront(rs: seq<EvalResult>, objectives: seq<Objective>)
    requires rs != []
    ensures Ranked(rs, objectives) != [] && Ranked(rs, objectives)[0] in rs
    ensures OnFront(rs, objectives, Ranked(rs, objectives)[0])
  {
    SortPermutes(rs, ByRank(rs, objectives));
    MemberOfPermutation(rs, Ranked(rs, objectives));
    var first := Ranked(rs, objectives)[0];
    assert first in Ranked(rs, objectives);
    forall other | other in rs ensures !Beats(rs, objectives, other, first) {
      if Beats(rs, objectives, other, first) {
        RankRefinesDominance(rs, objectives, RankOf(rs, objectives, other), 0);
      }
    }
  }

  /** Whatever is off the front is dominated by something on it. */
  lemma {:induction false} FrontCovers(rs: seq<EvalResult>, objectives: seq<Objective>, r: EvalResult)
    returns (f: EvalResult)
    requires r in rs && !OnFront(rs, objectives, r)
    ensures f in rs && OnFront(rs, objectives, f) && Beats(rs, objectives, f, r)
    decreases RankOf(rs, objectives, r)
  {
    var other :| other in rs && Beats(rs, objectives, other, r);
    if OnFront(rs, objectives, other) {
      f := other;
    } else {
      RankRefinesDominance(rs, objectives, RankOf(rs, objectives, other), RankOf(rs, objectives, r));
      f := FrontCovers(rs, objectives, other);
      DominanceIsStrictOrder(CohortKey(rs, objectives, f.candidate), CohortKey(rs, objectives, other.candidate),
                             CohortKey(rs, objectives, r.candidate));
    }
  }

  /** How much better `x` is than `y` on an objective, in the direction that matters. */
  function Lead(o: Objective, x: EvalResult, y: EvalResult): real {
    Score(o.direction, EntryOf(y, o)) - Score(o.direction, EntryOf(x, o))
  }

  /** A candidate no worse on every objective and better by more than the tie tolerance on one
      dominates the other and ranks ahead of it. */
  lemma ClearlyBetterWins(rs: seq<EvalResult>, objectives: seq<Objective>, x: EvalResult, y: EvalResult, k: nat)
    requires UniqueCandidates(rs) && ObjectivesOk(objectives) && x in rs && y in rs && k < |objectives|
    requires forall i | 0 <= i < |objectives| :: Lead(objectives[i], x, y) >= 0.0
    requires Lead(objectives[k], x, y) > objectives[k].tolerance
    ensures Beats(rs, objectives, x, y) && RankOf(rs, objectives, x) < RankOf(rs, objectives, y)
  {
    var a, b := CohortKey(rs, objectives, x.candidate), CohortKey(rs, objectives, y.candidate);
    forall i | 0 <= i < |objectives|
      ensures a[i] <= b[i] && (i == k ==> a[i] < b[i])
    {
      LeadInCohorts(rs, objectives, x, y, i);
    }
    MakeDominance(a, b, k);
    RankRefinesDominance(rs, objectives, RankOf(rs, objectives, x), RankOf(rs, objectives, y));
  }

  lemma LeadInCohorts(rs: seq<EvalResult>, objectives: seq<Objective>, x: EvalResult, y: EvalResult, i: nat)
    requires UniqueCandidates(rs) && ObjectivesOk(objectives) && x in rs && y in rs && i < |objectives|
    ensures Lead(objectives[i], x, y) >= 0.0 ==>
              CohortKey(rs, objectives, x.candidate)[i] <= CohortKey(rs, objectives, y.candidate)[i]
    ensures Lead(objectives[i], x, y) > objectives[i].tolerance ==>
              CohortKey(rs, objectives, x.candidate)[i] < CohortKey(rs, objectives, y.candidate)[i]
  {
    assert objectives[i] in objectives;
    CohortKeyAt(rs, objectives, x.candidate, i);
    CohortKeyAt(rs, objectives, y.candidate, i);
    CohortAgreesWithScore(rs, objectives[i], x, y);
  }

  lemma MakeDominance(a: seq<nat>, b: seq<nat>, k: nat)
    requires |a| == |b| && k < |a| && a[k] < b[k] && forall i | 0 <= i < |a| :: a[i] <= b[i]
    ensures Dominates(a, b)
  {
  }

  lemma ZeroLead(rs: seq<EvalResult>, o: Objective, x: EvalResult, y: EvalResult)
    requires UniqueCandidates(rs) && x in rs && y in rs && o.tolerance == 0.0
    ensures CohortIndex(rs, o, x.candidate) <= CohortIndex(rs, o, y.candidate) <==> Lead(o, x, y) >= 0.0
    ensures CohortIndex(rs, o, x.candidate) < CohortIndex(rs, o, y.candidate) <==> Lead(o, x, y) > 0.0
  {
    CohortAgreesWithScore(rs, o, x, y);
    CohortAgreesWithScore(rs, o, y, x);
  }

  /** Classical Pareto dominance on the metric values: nowhere worse, somewhere better. */
  ghost predicate ParetoBetter(objectives: seq<Objective>, x: EvalResult, y: EvalResult) {
    && (forall i | 0 <= i < |objectives| :: Lead(objectives[i], x, y) >= 0.0)
    && (exists i | 0 <= i < |objectives| :: Lead(objectives[i], x, y) > 0.0)
  }

  /** With no tolerances, dominance is classical Pareto dominance. */
  lemma ZeroToleranceIsPareto(rs: seq<EvalResult>, objectives: seq<Objective>, x: EvalResult, y: EvalResult)
    requires UniqueCandidates(rs) && x in rs && y in rs
    requires forall i | 0 <= i < |objectives| :: objectives[i].tolerance == 0.0
    ensures Beats(rs, objectives, x, y) <==> ParetoBetter(objectives, x, y)
  {
    var k, l := CohortKey(rs, objectives, x.candidate), CohortKey(rs, objectives, y.candidate);
    forall i | 0 <= i < |objectives|
      ensures k[i] <= l[i] <==> Lead(objectives[i], x, y) >= 0.0
      ensures k[i] < l[i] <==> Lead(objectives[i], x, y) > 0.0
    {
      ZeroLead(rs, objectives[i], x, y);
      CohortKeyAt(rs, objectives, x.candidate, i);
      CohortKeyAt(rs, objectives, y.candidate, i);
    }
    PointwiseDominance(objectives, x, y, k, l);
  }

  lemma PointwiseDominance(objectives: seq<Objective>, x: EvalResult, y: EvalResult, k: seq<nat>, l: seq<nat>)
    requires |k| == |l| == |objectives|
    requires forall i | 0 <= i < |k| :: (k[i] <= l[i] <==> Lead(objectives[i], x, y) >= 0.0)
    requires forall i | 0 <= i < |k| :: (k[i] < l[i] <==> Lead(objectives[i], x, y) > 0.0)
    ensures Dominates(k, l) <==> ParetoBetter(objectives, x, y)
  {
  }
}
