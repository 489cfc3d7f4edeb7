/** What a recommendation record is once its constructor accepts it, whoever built it. */
module RecommendationSoundness {
  import opened Outcomes
  import opened Sorting
  import opened Keys
  import opened Ranking
  import opened BuildRecommendation
  import opened RecommendationTheorems

  /** One assessment by itself: a rank for the qualified alone, counted from one; no failure for the qualified; and
      one value an objective. */
  ghost predicate SoundAssessment(a: Assessment) {
    && (a.qualified <==> a.rank.Some?)
    && (a.rank.Some? ==> a.rank.value >= 1)
    && (a.qualified ==> forall f :: f !in a.failures)
    && forall i, j | 0 <= i < j < |a.objectives| :: a.objectives[i].0 != a.objectives[j].0
  }

  lemma AssessmentIsSoundExactly(a: Assessment)
    ensures AssessmentError(a) == None <==> SoundAssessment(a)
  {
    assert a.failures == {} <==> forall f :: f !in a.failures;
  }

  ghost predicate DistinctCandidates(s: seq<Assessment>) {
    forall i, j | 0 <= i < j < |s| :: s[i].candidate != s[j].candidate
  }

  /** The qualified are ranked 1, 2, ..., as many as there are, each rank once. */
  ghost predicate RankedThrough(s: seq<Assessment>) {
    var n := |Filter(s, QualifiedTest())|;
    && (forall a | a in s && a.qualified :: a.rank.Some? && 1 <= a.rank.value <= n)
    && (forall a, b | a in s && b in s && a.qualified && b.qualified && a.rank == b.rank :: a == b)
  }

  // ---------------------------------------------------------------- ranks

  lemma RankOrderIsTotal()
    ensures TotalOrder(ByRankNumber())
  {
  }

  /** Different ranks within 1..n, as many as n and in order, are 1, 2, ..., n. */
  lemma {:induction false} AscendingFillsUp(s: seq<nat>, i: nat)
    requires i < |s| && (forall j | 0 <= j < |s| :: 1 <= s[j] <= |s|)
    requires forall j, k | 0 <= j < k < |s| :: s[j] < s[k]
    ensures s[i] == i + 1
  {
    AtLeast(s, i);
    AtMost(s, i);
  }

  lemma {:induction false} AtLeast(s: seq<nat>, i: nat)
    requires i < |s| && (forall j | 0 <= j < |s| :: 1 <= s[j])
    requires forall j, k | 0 <= j < k < |s| :: s[j] < s[k]
    ensures s[i] >= i + 1
  {
    if i > 0 { AtLeast(s, i - 1); }
  }

  lemma {:induction false} AtMost(s: seq<nat>, i: nat)
    requires i < |s| && (forall j | 0 <= j < |s| :: s[j] <= |s|)
    requires forall j, k | 0 <= j < k < |s| :: s[j] < s[k]
    ensures s[i] <= i + 1
    decreases |s| - i
  {
    if i < |s| - 1 { AtMost(s, i + 1); }
  }

  function RankNumbers(s: seq<Assessment>): (r: seq<nat>)
    ensures |r| == |s| && forall i | 0 <= i < |r| :: r[i] == RankNumber(s[i])
  {
    seq(|s|, i requires 0 <= i < |s| => RankNumber(s[i]))
  }

  lemma {:induction false} QualifiedKeepDistinct(s: seq<Assessment>)
    requires DistinctCandidates(s)
    ensures DistinctCandidates(Filter(s, QualifiedTest()))
  {
    if s != [] {
      var rest := s[1..];
      forall i, j | 0 <= i < j < |rest| ensures rest[i].candidate != rest[j].candidate {
        assert rest[i] == s[i + 1] && rest[j] == s[j + 1];
      }
      QualifiedKeepDistinct(rest);
      FilterIs(rest, QualifiedTest());
      var kept := Filter(rest, QualifiedTest());
      forall i | 0 <= i < |kept| ensures kept[i].candidate != s[0].candidate {
        assert kept[i] in rest;
        var j :| 0 <= j < |rest| && rest[j] == kept[i];
        assert rest[j] == s[j + 1];
      }
    }
  }

  lemma {:induction false} DistinctPermute(a: seq<Assessment>, b: seq<Assessment>)
    requires multiset(a) == multiset(b) && DistinctCandidates(a)
    ensures DistinctCandidates(b)
  {
    if a == [] {
      assert |multiset(b)| == 0;
    } else {
      var i := FirstIn(a, b);
      var pre, post := b[..i], b[i + 1..];
      var rest := pre + post;
      forall j, k | 0 <= j < k < |a[1..]| ensures a[1..][j].candidate != a[1..][k].candidate {
        assert a[1..][j] == a[j + 1] && a[1..][k] == a[k + 1];
      }
      DistinctPermute(a[1..], rest);
      MemberOfPermutation(a[1..], rest);
      forall x | x in rest ensures x.candidate != b[i].candidate {
        assert x in a[1..];
        var j :| 0 <= j < |a[1..]| && a[1..][j] == x;
        assert a[j + 1] == x;
      }
      forall j, k | 0 <= j < k < |b| ensures b[j].candidate != b[k].candidate {
        assert j < i ==> rest[j] == b[j];
        assert j > i ==> rest[j - 1] == b[j];
        assert k < i ==> rest[k] == b[k];
        assert k > i ==> rest[k - 1] == b[k];
      }
    }
  }

  /** The check on the sorted ranks is that they run through. */
  lemma ContiguousIs(s: seq<Assessment>)
    requires DistinctCandidates(s) && forall a | a in s :: SoundAssessment(a)
    ensures Contiguous(Sort(Filter(s, QualifiedTest()), ByRankNumber())) <==> RankedThrough(s)
  {
    var q := Filter(s, QualifiedTest());
    var ranked := Sort(q, ByRankNumber());
    FilterIs(s, QualifiedTest());
    SortPermutes(q, ByRankNumber());
    MemberOfPermutation(q, ranked);
    QualifiedKeepDistinct(s);
    DistinctPermute(q, ranked);
    if Contiguous(ranked) { ContiguousRunsThrough(s, ranked); }
    if RankedThrough(s) { RunningThroughIsContiguous(s, ranked); }
  }

  lemma ContiguousRunsThrough(s: seq<Assessment>, ranked: seq<Assessment>)
    requires Contiguous(ranked) && |ranked| == |Filter(s, QualifiedTest())|
    requires forall a :: a in ranked <==> a in s && a.qualified
    ensures RankedThrough(s)
  {
    forall a | a in s && a.qualified ensures a.rank.Some? && 1 <= a.rank.value <= |ranked| {
      var i :| 0 <= i < |ranked| && ranked[i] == a;
    }
    forall a, b | a in s && b in s && a.qualified && b.qualified && a.rank == b.rank ensures a == b {
      var i :| 0 <= i < |ranked| && ranked[i] == a;
      var j :| 0 <= j < |ranked| && ranked[j] == b;
    }
  }

  lemma RunningThroughIsContiguous(s: seq<Assessment>, ranked: seq<Assessment>)
    requires RankedThrough(s) && DistinctCandidates(ranked) && |ranked| == |Filter(s, QualifiedTest())|
    requires ranked == Sort(Filter(s, QualifiedTest()), ByRankNumber())
    requires forall a :: a in ranked <==> a in s && a.qualified
    ensures Contiguous(ranked)
  {
    var numbers := RankNumbers(ranked);
    RankOrderIsTotal();
    SortSorted(Filter(s, QualifiedTest()), ByRankNumber());
    forall i | 0 <= i < |ranked| ensures ranked[i].rank == Some(numbers[i]) && 1 <= numbers[i] <= |ranked| {
      assert ranked[i] in ranked;
    }
    forall i, j | 0 <= i < j < |ranked| ensures numbers[i] < numbers[j] {
      assert ByRankNumber()(ranked[i], ranked[j]);
      assert ranked[i] in ranked && ranked[j] in ranked;
    }
    forall i | 0 <= i < |ranked| ensures ranked[i].rank == Some(i + 1) { AscendingFillsUp(numbers, i); }
  }

  // ---------------------------------------------------------------- selection and alternatives

  /** The candidate of rank one, if anybody qualified. */
  ghost predicate SelectsFirst(s: seq<Assessment>, selected: Option<Key>) {
    match selected
    case None => forall a | a in s :: !a.qualified
    case Some(k) => exists a :: a in s && a.candidate == k && a.rank == Some(1)
  }

  ghost predicate ProperAlternatives(s: seq<Assessment>, selected: Option<Key>, alternatives: seq<Key>) {
    && (forall i, j | 0 <= i < j < |alternatives| :: alternatives[i] != alternatives[j])
    && forall k | k in alternatives :: selected != Some(k) && OffersCandidate(s, k)
  }

  lemma SelectionIs(s: seq<Assessment>, ranked: seq<Assessment>, selected: Option<Key>)
    requires Contiguous(ranked) && forall a :: a in ranked <==> a in s && a.qualified
    requires forall a | a in s :: SoundAssessment(a)
    ensures selected == (if ranked == [] then None else Some(ranked[0].candidate)) <==> SelectsFirst(s, selected)
  {
    if ranked != [] {
      assert ranked[0] in ranked && ranked[0].rank == Some(1);
      if SelectsFirst(s, selected) {
        var a :| a in s && a.candidate == selected.value && a.rank == Some(1);
        var i :| 0 <= i < |ranked| && ranked[i] == a;
      }
    }
    assert forall a | a in s && a.rank == Some(1) :: a in ranked;
  }

  lemma {:induction false} KeysDistinct(a: seq<Key>, b: seq<Key>)
    requires multiset(a) == multiset(b)
    ensures DistinctKeys(a) <==> DistinctKeys(b)
  {
    if DistinctKeys(a) { DistinctKeysPermute(a, b); }
    if DistinctKeys(b) { DistinctKeysPermute(b, a); }
  }

  lemma AlternativesAre(s: seq<Assessment>, ranked: seq<Assessment>, selected: Option<Key>, alternatives: seq<Key>)
    requires forall a :: a in ranked <==> a in s && a.qualified
    ensures var sorted := Sort(alternatives, KeysOrdered());
            ProperAlternatives(s, selected, alternatives) <==>
              && DistinctKeys(sorted)
              && !(exists k | k in sorted :: forall a | a in ranked :: a.candidate != k)
              && !(selected.Some? && selected.value in sorted)
  {
    var sorted := Sort(alternatives, KeysOrdered());
    SortPermutes(alternatives, KeysOrdered());
    MemberOfPermutation(alternatives, sorted);
    KeysDistinct(alternatives, sorted);
    forall k ensures (forall a | a in ranked :: a.candidate != k) <==> !OffersCandidate(s, k) {
      if OffersCandidate(s, k) {
        var a :| a in s && a.qualified && a.candidate == k;
        assert a in ranked;
      }
    }
    if ProperAlternatives(s, selected, alternatives) {
      forall k | k in sorted ensures !(forall a | a in ranked :: a.candidate != k) { assert OffersCandidate(s, k); }
    }
    if !(exists k | k in sorted :: forall a | a in ranked :: a.candidate != k) {
      forall k | k in alternatives ensures OffersCandidate(s, k) { assert k in sorted; }
    }
  }

  ghost predicate OffersCandidate(s: seq<Assessment>, k: Key) { exists a :: a in s && a.qualified && a.candidate == k }

  // ---------------------------------------------------------------- the record

  /** The constructor's checks one after the other. */
  lemma ChecksAre(assessments: seq<Assessment>, selected: Option<Key>, alternatives: seq<Key>,
                  conflicts: set<Conflict>, confidence: Confidence)
    requires assessments != [] && forall a | a in assessments :: AssessmentError(a) == None
    ensures MakeRecommendation(assessments, selected, alternatives, conflicts, confidence).Ok? <==>
              && Passed(Sort(assessments, ByAssessment()), selected, Sort(alternatives, KeysOrdered()))
              && (selected == None ==> confidence == NoConfidence)
  {
    var ordered := Sort(assessments, ByAssessment());
    if DistinctCandidates(ordered) {
      LaterChecksAre(assessments, selected, alternatives, conflicts, confidence);
    } else {
      assert exists i, j | 0 <= i < j < |ordered| :: ordered[i].candidate == ordered[j].candidate;
    }
  }

  lemma LaterChecksAre(assessments: seq<Assessment>, selected: Option<Key>, alternatives: seq<Key>,
                       conflicts: set<Conflict>, confidence: Confidence)
    requires assessments != [] && forall a | a in assessments :: AssessmentError(a) == None
    requires DistinctCandidates(Sort(assessments, ByAssessment()))
    ensures MakeRecommendation(assessments, selected, alternatives, conflicts, confidence).Ok? <==>
              && Passed(Sort(assessments, ByAssessment()), selected, Sort(alternatives, KeysOrdered()))
              && (selected == None ==> confidence == NoConfidence)
  {
  }

  lemma UnsoundIsRefused(assessments: seq<Assessment>, selected: Option<Key>, alternatives: seq<Key>,
                         conflicts: set<Conflict>, confidence: Confidence)
    requires assessments == [] || exists a :: a in assessments && AssessmentError(a).Some?
    ensures MakeRecommendation(assessments, selected, alternatives, conflicts, confidence).Err?
  {
  }

  ghost predicate Passed(ordered: seq<Assessment>, selected: Option<Key>, sorted: seq<Key>) {
    var ranked := Sort(Filter(ordered, QualifiedTest()), ByRankNumber());
    && DistinctCandidates(ordered) && Contiguous(ranked)
    && selected == (if ranked == [] then None else Some(ranked[0].candidate))
    && DistinctKeys(sorted)
    && !(exists k | k in sorted :: forall a | a in ranked :: a.candidate != k)
    && !(selected.Some? && selected.value in sorted)
  }

  /** A record is accepted exactly when every assessment is sound, no candidate is assessed twice, the ranks of the
      qualified run through, the selected one is rank one, the alternatives are different other qualified
      candidates, and without a selection there is no confidence. */
  lemma RecordIsSoundExactly(assessments: seq<Assessment>, selected: Option<Key>, alternatives: seq<Key>,
                             conflicts: set<Conflict>, confidence: Confidence)
    ensures MakeRecommendation(assessments, selected, alternatives, conflicts, confidence).Ok? <==>
              && assessments != [] && (forall a | a in assessments :: SoundAssessment(a))
              && DistinctCandidates(assessments) && RankedThrough(assessments)
              && SelectsFirst(assessments, selected) && ProperAlternatives(assessments, selected, alternatives)
              && (selected == None ==> confidence == NoConfidence)
  {
    var ordered := Sort(assessments, ByAssessment());
    SortPermutes(assessments, ByAssessment());
    MemberOfPermutation(assessments, ordered);
    forall a | a in assessments ensures AssessmentError(a) == None <==> SoundAssessment(a) {
      AssessmentIsSoundExactly(a);
    }
    if assessments != [] && forall a | a in assessments :: SoundAssessment(a) {
      ChecksAre(assessments, selected, alternatives, conflicts, confidence);
    } else {
      UnsoundIsRefused(assessments, selected, alternatives, conflicts, confidence);
    }
    if DistinctCandidates(assessments) { DistinctPermute(assessments, ordered); }
    if DistinctCandidates(ordered) { DistinctPermute(ordered, assessments); }
    if DistinctCandidates(ordered) && forall a | a in assessments :: SoundAssessment(a) {
      OrderedIsSound(assessments, ordered, selected, alternatives);
    }
  }

  lemma OrderedIsSound(assessments: seq<Assessment>, ordered: seq<Assessment>, selected: Option<Key>,
                       alternatives: seq<Key>)
    requires multiset(assessments) == multiset(ordered) && DistinctCandidates(ordered)
    requires forall a | a in ordered :: SoundAssessment(a)
    ensures var ranked := Sort(Filter(ordered, QualifiedTest()), ByRankNumber());
            var sorted := Sort(alternatives, KeysOrdered());
            && (Contiguous(ranked) <==> RankedThrough(assessments))
            && (Contiguous(ranked) ==>
                  (selected == (if ranked == [] then None else Some(ranked[0].candidate)) <==>
                     SelectsFirst(assessments, selected)))
            && (ProperAlternatives(assessments, selected, alternatives) <==>
                  && DistinctKeys(sorted)
                  && !(exists k | k in sorted :: forall a | a in ranked :: a.candidate != k)
                  && !(selected.Some? && selected.value in sorted))
  {
    var q := Filter(ordered, QualifiedTest());
    var ranked := Sort(q, ByRankNumber());
    MemberOfPermutation(assessments, ordered);
    ContiguousIs(ordered);
    FilterIs(ordered, QualifiedTest());
    SortPermutes(q, ByRankNumber());
    MemberOfPermutation(q, ranked);
    SameQualified(assessments, ordered);
    if Contiguous(ranked) { SelectionIs(assessments, ranked, selected); }
    AlternativesAre(assessments, ranked, selected, alternatives);
  }

  /** As many qualify whatever the order. */
  lemma {:induction false} SameQualified(a: seq<Assessment>, b: seq<Assessment>)
    requires multiset(a) == multiset(b)
    ensures |Filter(a, QualifiedTest())| == |Filter(b, QualifiedTest())|
  {
    if a == [] {
      assert |multiset(b)| == 0;
    } else {
      var i := FirstIn(a, b);
      var pre, post := b[..i], b[i + 1..];
      SameQualified(a[1..], pre + post);
      FilterJoins(pre, [b[i]] + post);
      FilterJoins(pre, post);
    }
  }

  lemma {:induction false} FilterJoins(a: seq<Assessment>, b: seq<Assessment>)
    ensures Filter(a + b, QualifiedTest()) == Filter(a, QualifiedTest()) + Filter(b, QualifiedTest())
  {
    if a == [] {
      assert a + b == b;
    } else {
      assert (a + b)[0] == a[0] && (a + b)[1..] == a[1..] + b;
      FilterJoins(a[1..], b);
    }
  }
}
