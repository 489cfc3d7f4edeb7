/** Cohort keys over all objectives, the lexicographic rank, dominance and the Pareto front. */
module Ranking {
  import opened Outcomes
  import opened Sorting
  import opened Keys
  import opened Cohorts
  import opened SuiteLineage
  import opened SuiteService

  datatype Metric = Metric(name: string, evaluator: nat, direction: Direction, value: real)

  datatype BaselineOutcome = Better | Equivalent | Worse | NoBaselineVerdict

  datatype Comparison = Comparison(id: string, outcome: BaselineOutcome)

  /** Results are comparable only within one evaluation mode, suite and suite state. */
  datatype Context = Context(mode: nat, suite: Option<Key>, suiteState: Option<SuiteState>)

  datatype EvalResult = EvalResult(
    candidate: Key,
    integrityPassed: bool,
    evidence: EvidenceStatus,
    context: Context,
    metrics: seq<Metric>,
    comparisons: seq<Comparison>,
    conflicts: set<string>)

  datatype Objective = Objective(metric: string, direction: Direction, tolerance: real)

  // ---------------------------------------------------------------- observations

  /** The metric of that name; names are unique within a result. */
  function Observed(metrics: seq<Metric>, name: string): Option<Metric> {
    if metrics == [] then None
    else if metrics[|metrics| - 1].name == name then Some(metrics[|metrics| - 1])
    else Observed(metrics[..|metrics| - 1], name)
  }

  function Value(r: EvalResult, o: Objective): real {
    match Observed(r.metrics, o.metric) case Some(m) => m.value case None => 0.0
  }

  function EntryOf(r: EvalResult, o: Objective): Entry { Entry(r.candidate, Value(r, o)) }

  function Entries(rs: seq<EvalResult>, o: Objective): (es: seq<Entry>)
    ensures |es| == |rs|
    ensures forall i | 0 <= i < |rs| :: es[i] == EntryOf(rs[i], o)
  {
    seq(|rs|, i requires 0 <= i < |rs| => EntryOf(rs[i], o))
  }

  predicate UniqueCandidates(rs: seq<EvalResult>) {
    forall i, j | 0 <= i < j < |rs| :: rs[i].candidate != rs[j].candidate
  }

  ghost predicate ObjectivesOk(objectives: seq<Objective>) {
    forall o | o in objectives :: o.tolerance >= 0.0
  }

  // ---------------------------------------------------------------- cohort keys

  function ByScore(d: Direction): (Entry, Entry) -> bool { (a, b) => ScoreLe(d, a, b) }

  function Ordered(rs: seq<EvalResult>, o: Objective): seq<Entry> {
    Sort(Entries(rs, o), ByScore(o.direction))
  }

  function PositionOf(es: seq<Entry>, candidate: Key): (p: nat)
    ensures p <= |es|
    ensures p < |es| ==> es[p].candidate == candidate
    ensures forall i | 0 <= i < p :: es[i].candidate != candidate
  {
    if es == [] || es[0].candidate == candidate then 0 else 1 + PositionOf(es[1..], candidate)
  }

  /** The index of the candidate's cohort for one objective, among all the results. */
  function CohortIndex(rs: seq<EvalResult>, o: Objective, candidate: Key): nat {
    var ordered := Ordered(rs, o);
    var p := PositionOf(ordered, candidate);
    if p < |ordered| then Indexes(o.direction, o.tolerance, ordered)[p] else 0
  }

  function CohortKey(rs: seq<EvalResult>, objectives: seq<Objective>, candidate: Key): (k: seq<nat>)
    ensures |k| == |objectives|
  {
    if objectives == [] then []
    else
      var last := |objectives| - 1;
      CohortKey(rs, objectives[..last], candidate) + [CohortIndex(rs, objectives[last], candidate)]
  }

  lemma {:induction false} CohortKeyAt(rs: seq<EvalResult>, objectives: seq<Objective>, candidate: Key, i: nat)
    requires i < |objectives|
    ensures CohortKey(rs, objectives, candidate)[i] == CohortIndex(rs, objectives[i], candidate)
  {
    if i < |objectives| - 1 {
      CohortKeyAt(rs, objectives[..|objectives| - 1], candidate, i);
    }
  }

  lemma ScoreOrder(d: Direction)
    ensures TotalOrder(ByScore(d))
  {
    KeyOrder();
    var le := ByScore(d);
    forall a, b ensures le(a, b) || le(b, a) {
      assert KeyLe(a.candidate, b.candidate) || KeyLe(b.candidate, a.candidate);
    }
    forall a, b, c | le(a, b) && le(b, c) ensures le(a, c) {
      if Score(d, a) == Score(d, b) == Score(d, c) {
        assert KeyLe(a.candidate, b.candidate) && KeyLe(b.candidate, c.candidate);
      }
    }
  }

  lemma SortedIsBestFirst(d: Direction, s: seq<Entry>)
    requires Sorted(s, ByScore(d))
    ensures BestFirst(d, s)
  {
    forall i, j | 0 <= i < j < |s| ensures Score(d, s[i]) <= Score(d, s[j]) {
      assert ByScore(d)(s[i], s[j]);
    }
  }

  lemma OrderedIsSorted(rs: seq<EvalResult>, o: Objective)
    ensures BestFirst(o.direction, Ordered(rs, o))
    ensures multiset(Ordered(rs, o)) == multiset(Entries(rs, o))
  {
    ScoreOrder(o.direction);
    SortSorted(Entries(rs, o), ByScore(o.direction));
    SortPermutes(Entries(rs, o), ByScore(o.direction));
    SortedIsBestFirst(o.direction, Ordered(rs, o));
  }

  /** The sorted entries are best first and hold each result's entry at its candidate's position. */
  lemma OrderedFacts(rs: seq<EvalResult>, o: Objective, r: EvalResult)
    requires UniqueCandidates(rs) && r in rs
    ensures BestFirst(o.direction, Ordered(rs, o))
    ensures var p := PositionOf(Ordered(rs, o), r.candidate);
            p < |Ordered(rs, o)| && Ordered(rs, o)[p] == EntryOf(r, o)
  {
    var es, ordered := Entries(rs, o), Ordered(rs, o);
    OrderedIsSorted(rs, o);
    MemberOfPermutation(es, ordered);
    var i :| 0 <= i < |rs| && rs[i] == r;
    assert es[i] in es && es[i] in ordered;
    var p := PositionOf(ordered, r.candidate);
    assert ordered[p] in ordered && ordered[p] in es;
    var j :| 0 <= j < |rs| && es[j] == ordered[p];
    assert rs[j].candidate == rs[i].candidate;
  }

  /** Across the whole result set the cohort index agrees with the scores: it never contradicts a
      comparison, separates values further apart than the tolerance, and joins only values within it. */
  lemma CohortAgreesWithScore(rs: seq<EvalResult>, o: Objective, x: EvalResult, y: EvalResult)
    requires UniqueCandidates(rs) && x in rs && y in rs && o.tolerance >= 0.0
    ensures var s, t := Score(o.direction, EntryOf(x, o)), Score(o.direction, EntryOf(y, o));
            var a, b := CohortIndex(rs, o, x.candidate), CohortIndex(rs, o, y.candidate);
            && (s <= t ==> a <= b)
            && (a < b ==> s < t)
            && (t - s > o.tolerance ==> a < b)
            && (a == b ==> t - s <= o.tolerance)
  {
    var ordered := Ordered(rs, o);
    OrderedFacts(rs, o, x);
    OrderedFacts(rs, o, y);
    IndexFacts(o.direction, o.tolerance, ordered);
    var p, q := PositionOf(ordered, x.candidate), PositionOf(ordered, y.candidate);
    if p == q {
    } else if p < q {
      assert Score(o.direction, ordered[p]) <= Score(o.direction, ordered[q]);
    } else {
      assert Score(o.direction, ordered[q]) <= Score(o.direction, ordered[p]);
    }
  }

  /** In plain values: when maximizing, the higher value is in the earlier cohort, or in the same one while it
      is higher by no more than the tolerance; when minimizing, the lower value is. */
  lemma CohortFollowsDirection(rs: seq<EvalResult>, o: Objective, x: EvalResult, y: EvalResult)
    requires UniqueCandidates(rs) && x in rs && y in rs && o.tolerance >= 0.0
    ensures var a, b := CohortIndex(rs, o, x.candidate), CohortIndex(rs, o, y.candidate);
            var gain := if o.direction == Maximize then Value(x, o) - Value(y, o) else Value(y, o) - Value(x, o);
            && (gain >= 0.0 ==> a <= b)
            && (gain > o.tolerance ==> a < b)
            && (a < b ==> gain > 0.0)
  {
    CohortAgreesWithScore(rs, o, x, y);
  }

  /** The cohort index is a function of the set of results, not of their order. */
  lemma CohortIgnoresOrder(a: seq<EvalResult>, b: seq<EvalResult>, o: Objective)
    requires UniqueCandidates(a) && multiset(a) == multiset(b)
    ensures Ordered(a, o) == Ordered(b, o)
  {
    ScoreOrder(o.direction);
    KeyOrder();
    EntriesPermute(a, b, o);
    forall x, y | x in Entries(a, o) && y in Entries(a, o) && ByScore(o.direction)(x, y) && ByScore(o.direction)(y, x)
      ensures x == y
    {
    }
    SortOfPermutation(Entries(a, o), Entries(b, o), ByScore(o.direction));
  }

  lemma {:induction false} EntriesPermute(a: seq<EvalResult>, b: seq<EvalResult>, o: Objective)
    requires multiset(a) == multiset(b)
    ensures multiset(Entries(a, o)) == multiset(Entries(b, o))
  {
    if a == [] {
      assert |multiset(b)| == 0;
    } else {
      var i := FirstIn(a, b);
      var pre, post := b[..i], b[i + 1..];
      assert a == [a[0]] + a[1..];
      EntriesPermute(a[1..], pre + post, o);
      EntriesConcat([a[0]], a[1..], o);
      EntriesConcat(pre, [b[i]] + post, o);
      EntriesConcat([b[i]], post, o);
      EntriesConcat(pre, post, o);
    }
  }

  lemma EntriesConcat(a: seq<EvalResult>, b: seq<EvalResult>, o: Objective)
    ensures Entries(a + b, o) == Entries(a, o) + Entries(b, o)
  {
  }

  // ---------------------------------------------------------------- the keys as the program fills them

  /** The body of the pass for one objective: sort, cut, append each candidate's cohort index to its key. */
  method ExtendKeys(rs: seq<EvalResult>, o: Objective, keys: map<Key, seq<nat>>) returns (r: map<Key, seq<nat>>)
    requires UniqueCandidates(rs) && o.tolerance >= 0.0 && keys.Keys == set x | x in rs :: x.candidate
    ensures r.Keys == keys.Keys
    ensures forall x | x in rs :: r[x.candidate] == keys[x.candidate] + [CohortIndex(rs, o, x.candidate)]
  {
    var ordered := Ordered(rs, o);
    OrderedForCut(rs, o);
    var indexes := CutCohorts(o.direction, o.tolerance, ordered);
    r := AppendIndexes(keys, ordered, indexes);
  }

  method GlobalToleranceCohortKeys(rs: seq<EvalResult>, objectives: seq<Objective>) returns (keys: map<Key, seq<nat>>)
    requires UniqueCandidates(rs) && ObjectivesOk(objectives)
    ensures keys.Keys == set r | r in rs :: r.candidate
    ensures forall r | r in rs :: keys[r.candidate] == CohortKey(rs, objectives, r.candidate)
  {
    keys := map r | r in rs :: r.candidate := [];
    for n := 0 to |objectives|
      invariant keys.Keys == set r | r in rs :: r.candidate
      invariant forall r | r in rs :: keys[r.candidate] == CohortKey(rs, objectives[..n], r.candidate)
    {
      keys := ExtendKeys(rs, objectives[n], keys);
      KeysExtend(rs, objectives, n);
    }
    assert objectives[..|objectives|] == objectives;
  }

  /** The key over one more objective is the key so far followed by that objective's index. */
  lemma KeysExtend(rs: seq<EvalResult>, objectives: seq<Objective>, n: nat)
    requires n < |objectives|
    ensures forall candidate :: CohortKey(rs, objectives[..n + 1], candidate) ==
              CohortKey(rs, objectives[..n], candidate) + [CohortIndex(rs, objectives[n], candidate)]
  {
    assert objectives[..n + 1][..n] == objectives[..n];
  }

  lemma OrderedForCut(rs: seq<EvalResult>, o: Objective)
    requires UniqueCandidates(rs)
    ensures BestFirst(o.direction, Ordered(rs, o))
    ensures forall i, j | 0 <= i < j < |Ordered(rs, o)| :: Ordered(rs, o)[i].candidate != Ordered(rs, o)[j].candidate
    ensures (set e | e in Ordered(rs, o) :: e.candidate) == (set r | r in rs :: r.candidate)
  {
    var es, ordered := Entries(rs, o), Ordered(rs, o);
    OrderedIsSorted(rs, o);
    MemberOfPermutation(es, ordered);
    DistinctStay(es, ordered);
    forall r | r in rs ensures r.candidate in (set e | e in ordered :: e.candidate) {
      var i :| 0 <= i < |rs| && rs[i] == r;
      assert es[i] in es && es[i].candidate == r.candidate;
    }
    forall e | e in ordered ensures e.candidate in (set r | r in rs :: r.candidate) {
      assert e in es;
      var i :| 0 <= i < |es| && es[i] == e;
      assert rs[i].candidate == e.candidate;
    }
  }

  /** A permutation of entries with distinct candidates has distinct candidates. */
  lemma {:induction false} DistinctStay(a: seq<Entry>, b: seq<Entry>)
    requires multiset(a) == multiset(b)
    requires forall i, j | 0 <= i < j < |a| :: a[i].candidate != a[j].candidate
    ensures forall i, j | 0 <= i < j < |b| :: b[i].candidate != b[j].candidate
  {
    if a == [] {
      assert |multiset(b)| == 0;
    } else {
      var i := FirstIn(a, b);
      var pre, post := b[..i], b[i + 1..];
      DistinctStay(a[1..], pre + post);
      MemberOfPermutation(a[1..], pre + post);
      forall j, k | 0 <= j < k < |b| ensures b[j].candidate != b[k].candidate {
        var rest := pre + post;
        assert j < i ==> rest[j] == b[j];
        assert j > i ==> rest[j - 1] == b[j];
        assert k < i ==> rest[k] == b[k];
        assert k > i ==> rest[k - 1] == b[k];
        assert forall e | e in rest :: e in a[1..] && e.candidate != a[0].candidate;
      }
    }
  }

  method AppendIndexes(keys: map<Key, seq<nat>>, ordered: seq<Entry>, indexes: seq<nat>) returns (r: map<Key, seq<nat>>)
    requires |indexes| == |ordered|
    requires forall i, j | 0 <= i < j < |ordered| :: ordered[i].candidate != ordered[j].candidate
    requires keys.Keys == set e | e in ordered :: e.candidate
    ensures r.Keys == keys.Keys
    ensures forall k | k in keys ::
              PositionOf(ordered, k) < |ordered| && r[k] == keys[k] + [indexes[PositionOf(ordered, k)]]
  {
    r := keys;
    for n := 0 to |ordered|
      invariant r.Keys == keys.Keys
      invariant forall i | 0 <= i < n :: r[ordered[i].candidate] == keys[ordered[i].candidate] + [indexes[i]]
      invariant forall i | n <= i < |ordered| :: r[ordered[i].candidate] == keys[ordered[i].candidate]
    {
      assert ordered[n] in ordered;
      r := r[ordered[n].candidate := r[ordered[n].candidate] + [indexes[n]]];
    }
    forall k | k in keys ensures PositionOf(ordered, k) < |ordered| {
      var e :| e in ordered && e.candidate == k;
    }
  }

  // ---------------------------------------------------------------- vectors of cohort indexes

  /** Python's comparison of tuples of integers. */
  predicate VectorLe(a: seq<nat>, b: seq<nat>) {
    a == [] || (b != [] && (a[0] < b[0] || (a[0] == b[0] && VectorLe(a[1..], b[1..]))))
  }

  lemma {:induction false} VectorTotal(a: seq<nat>, b: seq<nat>)
    ensures VectorLe(a, b) || VectorLe(b, a)
  {
    if a != [] && b != [] && a[0] == b[0] {
      VectorTotal(a[1..], b[1..]);
    }
  }

  lemma {:induction false} VectorAntisymmetric(a: seq<nat>, b: seq<nat>)
    requires VectorLe(a, b) && VectorLe(b, a)
    ensures a == b
  {
    if a != [] {
      VectorAntisymmetric(a[1..], b[1..]);
      assert a == [a[0]] + a[1..] && b == [b[0]] + b[1..];
    }
  }

  lemma {:induction false} VectorTransitive(a: seq<nat>, b: seq<nat>, c: seq<nat>)
    requires VectorLe(a, b) && VectorLe(b, c)
    ensures VectorLe(a, c)
  {
    if a != [] && a[0] == b[0] == c[0] {
      VectorTransitive(a[1..], b[1..], c[1..]);
    }
  }

  /** The two vectors agree before this place, and the first is smaller there. */
  ghost predicate SmallerFirstAt(a: seq<nat>, b: seq<nat>, k: int) {
    0 <= k < |a| && k < |b| && a[k] < b[k] && forall i | 0 <= i < k :: a[i] == b[i]
  }

  /** The first place at which two vectors differ decides. */
  lemma {:induction false} FirstDifferenceDecides(a: seq<nat>, b: seq<nat>)
    requires |a| == |b|
    ensures VectorLe(a, b) <==> a == b || exists k :: SmallerFirstAt(a, b, k)
  {
    if a != [] && a[0] == b[0] {
      var s, t := a[1..], b[1..];
      FirstDifferenceDecides(s, t);
      assert a == [a[0]] + s && b == [b[0]] + t;
      if exists k :: SmallerFirstAt(a, b, k) {
        var k :| SmallerFirstAt(a, b, k);
        assert SmallerFirstAt(s, t, k - 1);
      }
      if exists k :: SmallerFirstAt(s, t, k) {
        var k :| SmallerFirstAt(s, t, k);
        assert SmallerFirstAt(a, b, k + 1);
      }
    } else if a != [] && a[0] < b[0] {
      assert SmallerFirstAt(a, b, 0);
    }
  }

  predicate Dominates(a: seq<nat>, b: seq<nat>) {
    |a| == |b| && (forall i | 0 <= i < |a| :: a[i] <= b[i]) && (exists i | 0 <= i < |a| :: a[i] < b[i])
  }

  /** Dominance is a strict partial order, and the lexicographic order refines it. */
  lemma DominanceIsStrictOrder(a: seq<nat>, b: seq<nat>, c: seq<nat>)
    ensures !Dominates(a, a)
    ensures Dominates(a, b) && Dominates(b, c) ==> Dominates(a, c)
  {
    if Dominates(a, b) && Dominates(b, c) {
      var i :| 0 <= i < |a| && a[i] < b[i];
      assert a[i] < c[i];
    }
  }

  lemma {:induction false} DominanceIsLexicographic(a: seq<nat>, b: seq<nat>)
    requires Dominates(a, b)
    ensures VectorLe(a, b) && a != b && !VectorLe(b, a)
  {
    var i :| 0 <= i < |a| && a[i] < b[i];
    if a[0] == b[0] {
      assert a[1..][i - 1] < b[1..][i - 1];
      DominanceIsLexicographic(a[1..], b[1..]);
    }
  }
}
