/** Best-anchored tolerance cohorts: candidates sorted by one objective are cut greedily into groups
    that lie within the tie tolerance of the group's best value. Comparing two candidates by "within
    the tolerance" is not transitive; comparing the indexes of their cohorts is. */
module Cohorts {
  import opened Sorting
  import opened Keys

  datatype Direction = Maximize | Minimize

  /** One candidate's value for the objective at hand. */
  datatype Entry = Entry(candidate: Key, value: real)

  /** Lower scores are better. */
  function Score(d: Direction, e: Entry): real {
    if d == Maximize then -e.value else e.value
  }

  predicate ScoreLe(d: Direction, a: Entry, b: Entry) {
    if Score(d, a) != Score(d, b) then Score(d, a) < Score(d, b) else KeyLe(a.candidate, b.candidate)
  }

  function Abs(x: real): real { if x < 0.0 then -x else x }

  /** The cohort index of each entry of a list sorted best first, given the running anchor and index. */
  function Assign(d: Direction, tolerance: real, rest: seq<Entry>, anchor: real, index: nat): (r: seq<nat>)
    ensures |r| == |rest|
  {
    if rest == [] then []
    else if Score(d, rest[0]) - anchor <= tolerance then
      [index] + Assign(d, tolerance, rest[1..], anchor, index)
    else
      [index + 1] + Assign(d, tolerance, rest[1..], Score(d, rest[0]), index + 1)
  }

  function Indexes(d: Direction, tolerance: real, ordered: seq<Entry>): (r: seq<nat>)
    ensures |r| == |ordered|
  {
    if ordered == [] then [] else [0] + Assign(d, tolerance, ordered[1..], Score(d, ordered[0]), 0)
  }

  ghost predicate BestFirst(d: Direction, s: seq<Entry>) {
    forall i, j | 0 <= i < j < |s| :: Score(d, s[i]) <= Score(d, s[j])
  }

  // ---------------------------------------------------------------- properties of the cut

  /** Indexes never decrease; equal indexes lie within the tolerance of the anchor; a jump leaves it. */
  lemma {:induction false} AssignFacts(d: Direction, tolerance: real, rest: seq<Entry>, anchor: real, index: nat)
    requires BestFirst(d, rest) && tolerance >= 0.0
    requires forall i | 0 <= i < |rest| :: anchor <= Score(d, rest[i])
    ensures var r := Assign(d, tolerance, rest, anchor, index);
            && (forall i | 0 <= i < |rest| :: r[i] >= index)
            && (forall i | 0 <= i < |rest| && r[i] == index :: Score(d, rest[i]) - anchor <= tolerance)
            && (forall i | 0 <= i < |rest| && r[i] > index :: Score(d, rest[i]) - anchor > tolerance)
            && (forall i, j | 0 <= i < j < |rest| :: r[i] <= r[j])
            && (forall i, j | 0 <= i < j < |rest| && r[i] == r[j] :: Score(d, rest[j]) - Score(d, rest[i]) <= tolerance)
            && (forall i, j | 0 <= i < j < |rest| && r[i] < r[j] :: Score(d, rest[i]) < Score(d, rest[j]))
  {
    if rest != [] {
      var head, tail := rest[0], rest[1..];
      var near := Score(d, head) - anchor <= tolerance;
      var nextAnchor, nextIndex := if near then anchor else Score(d, head), if near then index else index + 1;
      AssignFacts(d, tolerance, tail, nextAnchor, nextIndex);
      var r, t := Assign(d, tolerance, rest, anchor, index), Assign(d, tolerance, tail, nextAnchor, nextIndex);
      assert r == [nextIndex] + t;
      forall i, j | 0 <= i < j < |rest|
        ensures r[i] <= r[j]
        ensures r[i] == r[j] ==> Score(d, rest[j]) - Score(d, rest[i]) <= tolerance
        ensures r[i] < r[j] ==> Score(d, rest[i]) < Score(d, rest[j])
      {
        assert r[j] == t[j - 1] && rest[j] == tail[j - 1];
        if i > 0 {
          assert r[i] == t[i - 1] && rest[i] == tail[i - 1];
        }
      }
      forall i | 0 <= i < |rest|
        ensures r[i] >= index
        ensures r[i] == index ==> Score(d, rest[i]) - anchor <= tolerance
        ensures r[i] > index ==> Score(d, rest[i]) - anchor > tolerance
      {
        if i > 0 {
          assert r[i] == t[i - 1] && rest[i] == tail[i - 1];
        }
      }
    }
  }

  /** From one entry to the next the index rises by at most one. */
  lemma {:induction false} AssignSteps(d: Direction, tolerance: real, rest: seq<Entry>, anchor: real, index: nat)
    ensures var r := Assign(d, tolerance, rest, anchor, index);
            && (rest != [] ==> r[0] <= index + 1)
            && forall i, j | 0 <= i < |rest| && 0 <= j < |rest| && j == i + 1 :: r[j] <= r[i] + 1
    decreases |rest|
  {
    if rest != [] {
      var joins := Score(d, rest[0]) - anchor <= tolerance;
      var next, from := if joins then index else index + 1, if joins then anchor else Score(d, rest[0]);
      AssignSteps(d, tolerance, rest[1..], from, next);
      var r, t := Assign(d, tolerance, rest, anchor, index), Assign(d, tolerance, rest[1..], from, next);
      assert r == [next] + t;
    }
  }

  /** For a list sorted best first: the index is monotone in the score, a cohort spans at most the
      tolerance, and values further apart than the tolerance are in different cohorts. */
  lemma IndexFacts(d: Direction, tolerance: real, ordered: seq<Entry>)
    requires BestFirst(d, ordered) && tolerance >= 0.0
    ensures var r := Indexes(d, tolerance, ordered);
            && (ordered != [] ==> r[0] == 0)
            && (forall i, j | 0 <= i < |ordered| && 0 <= j < |ordered| && j == i + 1 :: r[j] <= r[i] + 1)
            && (forall i, j | 0 <= i < j < |ordered| :: r[i] <= r[j])
            && (forall i, j | 0 <= i < j < |ordered| && r[i] == r[j] ::
                  Score(d, ordered[j]) - Score(d, ordered[i]) <= tolerance)
            && (forall i, j | 0 <= i < j < |ordered| && r[i] < r[j] :: Score(d, ordered[i]) < Score(d, ordered[j]))
  {
    if ordered != [] {
      var tail, anchor := ordered[1..], Score(d, ordered[0]);
      AssignFacts(d, tolerance, tail, anchor, 0);
      AssignSteps(d, tolerance, tail, anchor, 0);
      var r, t := Indexes(d, tolerance, ordered), Assign(d, tolerance, tail, anchor, 0);
      assert r == [0] + t;
      forall i, j | 0 <= i < j < |ordered|
        ensures r[i] <= r[j]
        ensures r[i] == r[j] ==> Score(d, ordered[j]) - Score(d, ordered[i]) <= tolerance
        ensures r[i] < r[j] ==> Score(d, ordered[i]) < Score(d, ordered[j])
      {
        assert r[j] == t[j - 1] && ordered[j] == tail[j - 1];
        if i > 0 {
          assert r[i] == t[i - 1] && ordered[i] == tail[i - 1];
        }
      }
    }
  }

  /** An entry that starts a cohort. */
  ghost predicate Anchors(r: seq<nat>, i: int) {
    0 <= i < |r| && (i == 0 || r[i - 1] != r[i])
  }

  lemma {:induction false} AssignAnchorsApart(d: Direction, tolerance: real, rest: seq<Entry>, anchor: real, index: nat)
    requires BestFirst(d, rest) && tolerance >= 0.0
    requires forall i | 0 <= i < |rest| :: anchor <= Score(d, rest[i])
    ensures var r := Assign(d, tolerance, rest, anchor, index);
            forall i, j | 0 <= i < j < |rest| && Anchors([index] + r, i + 1) && Anchors([index] + r, j + 1) ::
              Score(d, rest[j]) - Score(d, rest[i]) > tolerance
  {
    if rest != [] {
      var head, tail := rest[0], rest[1..];
      var near := Score(d, head) - anchor <= tolerance;
      var nextAnchor, nextIndex := if near then anchor else Score(d, head), if near then index else index + 1;
      AssignAnchorsApart(d, tolerance, tail, nextAnchor, nextIndex);
      AssignFacts(d, tolerance, tail, nextAnchor, nextIndex);
      var r, t := Assign(d, tolerance, rest, anchor, index), Assign(d, tolerance, tail, nextAnchor, nextIndex);
      assert r == [nextIndex] + t;
      forall i, j | 0 <= i < j < |rest| && Anchors([index] + r, i + 1) && Anchors([index] + r, j + 1)
        ensures Score(d, rest[j]) - Score(d, rest[i]) > tolerance
      {
        assert ([index] + r)[1..] == [nextIndex] + t;
        assert ([index] + r)[j + 1] == ([nextIndex] + t)[j] && ([index] + r)[j] == ([nextIndex] + t)[j - 1];
        assert Anchors([nextIndex] + t, j);
        if i > 0 {
          assert ([index] + r)[i + 1] == ([nextIndex] + t)[i] && ([index] + r)[i] == ([nextIndex] + t)[i - 1];
          assert Anchors([nextIndex] + t, i);
          assert rest[i] == tail[i - 1] && rest[j] == tail[j - 1];
        } else {
          assert t[j - 1] > nextIndex;
        }
      }
    }
  }

  /** The best values of any two cohorts differ by more than the tolerance. */
  lemma AnchorsApart(d: Direction, tolerance: real, ordered: seq<Entry>, i: nat, j: nat)
    requires BestFirst(d, ordered) && tolerance >= 0.0 && i < j < |ordered|
    requires Anchors(Indexes(d, tolerance, ordered), i) && Anchors(Indexes(d, tolerance, ordered), j)
    ensures Score(d, ordered[j]) - Score(d, ordered[i]) > tolerance
  {
    var tail, anchor := ordered[1..], Score(d, ordered[0]);
    AssignAnchorsApart(d, tolerance, tail, anchor, 0);
    AssignFacts(d, tolerance, tail, anchor, 0);
    var r, t := Indexes(d, tolerance, ordered), Assign(d, tolerance, tail, anchor, 0);
    assert ordered[j] == tail[j - 1];
    if i > 0 {
      assert ordered[i] == tail[i - 1];
    } else {
      assert t[j - 1] > 0;
    }
  }

  /** Pairwise comparison within a tolerance is not transitive: 0, 0.6 and 1.2 with tolerance 1. */
  lemma WithinToleranceIsNotTransitive()
    ensures exists a, b, c, tolerance ::
              tolerance >= 0.0 && Near(a, b, tolerance) && Near(b, c, tolerance) && !Near(a, c, tolerance)
  {
    assert Near(0.0, 0.6, 1.0) && Near(0.6, 1.2, 1.0) && !Near(0.0, 1.2, 1.0);
  }

  predicate Near(a: real, b: real, tolerance: real) { Abs(a - b) <= tolerance }

  // ---------------------------------------------------------------- the cut as the program makes it

  /** The entries before `cursor` are cut; those from `cursor` on continue the cohort of `anchorAt`. */
  ghost predicate CutTo(d: Direction, tolerance: real, ordered: seq<Entry>, anchorAt: nat, cursor: nat,
                        done: seq<nat>, index: nat) {
    && anchorAt < cursor <= |ordered|
    && |done| == cursor
    && Indexes(d, tolerance, ordered) == done + Assign(d, tolerance, ordered[cursor..], Score(d, ordered[anchorAt]),
                                                       index)
  }

  lemma CutStep(d: Direction, tolerance: real, ordered: seq<Entry>, anchorAt: nat, cursor: nat, done: seq<nat>,
                index: nat)
    requires BestFirst(d, ordered) && CutTo(d, tolerance, ordered, anchorAt, cursor, done, index)
    ensures cursor < |ordered| && Near(ordered[cursor].value, ordered[anchorAt].value, tolerance) ==>
              CutTo(d, tolerance, ordered, anchorAt, cursor + 1, done + [index], index)
    ensures cursor < |ordered| && !Near(ordered[cursor].value, ordered[anchorAt].value, tolerance) ==>
              CutTo(d, tolerance, ordered, cursor, cursor + 1, done + [index + 1], index + 1)
    ensures cursor == |ordered| ==> Indexes(d, tolerance, ordered) == done
  {
    if cursor < |ordered| {
      var near := Near(ordered[cursor].value, ordered[anchorAt].value, tolerance);
      assert ordered[cursor..][0] == ordered[cursor] && ordered[cursor..][1..] == ordered[cursor + 1..];
      assert Score(d, ordered[anchorAt]) <= Score(d, ordered[cursor]);
      var next := if near then index else index + 1;
      var rest := Assign(d, tolerance, ordered[cursor + 1..], Score(d, ordered[if near then anchorAt else cursor]),
                         next);
      assert done + ([next] + rest) == (done + [next]) + rest;
    } else {
      assert done + [] == done;
    }
  }

  lemma CutStart(d: Direction, tolerance: real, ordered: seq<Entry>)
    ensures ordered != [] ==> CutTo(d, tolerance, ordered, 0, 1, [] + [0], 0)
    ensures ordered == [] ==> Indexes(d, tolerance, ordered) == []
  {
  }

  /** Two nested loops over the sorted entries, advancing `cursor` and `end`. */
  method CutCohorts(d: Direction, tolerance: real, ordered: seq<Entry>) returns (r: seq<nat>)
    requires BestFirst(d, ordered) && tolerance >= 0.0
    ensures r == Indexes(d, tolerance, ordered)
  {
    r := [];
    var cursor, cohortIndex := 0, 0;
    CutStart(d, tolerance, ordered);
    while cursor < |ordered|
      invariant 0 <= cursor <= |ordered|
      invariant if cursor < |ordered| then
        CutTo(d, tolerance, ordered, cursor, cursor + 1, r + [cohortIndex], cohortIndex)
                else r == Indexes(d, tolerance, ordered)
    {
      var anchor := ordered[cursor].value;
      var end := cursor + 1;
      r := r + [cohortIndex];
      while end < |ordered| && Abs(ordered[end].value - anchor) <= tolerance
        invariant CutTo(d, tolerance, ordered, cursor, end, r, cohortIndex)
      {
        CutStep(d, tolerance, ordered, cursor, end, r, cohortIndex);
        r := r + [cohortIndex];
        end := end + 1;
      }
      CutStep(d, tolerance, ordered, cursor, end, r, cohortIndex);
      cursor := end;
      cohortIndex := cohortIndex + 1;
    }
  }
}
