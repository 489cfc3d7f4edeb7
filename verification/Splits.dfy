/** Weighted splits: a bucket belongs to the part whose interval of prefix sums contains it. */
module Splits {
  import opened Outcomes

  type Positive = n: nat | n >= 1 witness 1

  datatype SplitPart = SplitPart(name: string, weight: Positive)

  datatype SplitRule = SplitRule(seed: nat, parts: seq<SplitPart>)

  /** Parts are given, and no two have one name. */
  predicate WellFormed(rule: SplitRule) {
    rule.parts != [] && forall i, j | 0 <= i < j < |rule.parts| :: rule.parts[i].name != rule.parts[j].name
  }

  /** The weight of the first parts. */
  function Before(parts: seq<SplitPart>, n: nat): nat
    requires n <= |parts|
  {
    if n == 0 then 0 else Before(parts, n - 1) + parts[n - 1].weight
  }

  function Weight(parts: seq<SplitPart>): nat { Before(parts, |parts|) }

  predicate InPart(parts: seq<SplitPart>, i: nat, bucket: nat) {
    i < |parts| && Before(parts, i) <= bucket < Before(parts, i + 1)
  }

  lemma {:induction false} BeforeGrows(parts: seq<SplitPart>, i: nat, j: nat)
    requires i <= j <= |parts|
    ensures Before(parts, i) + (j - i) <= Before(parts, j)
    decreases j
  {
    if i < j { BeforeGrows(parts, i, j - 1); }
  }

  /** Intervals do not overlap. */
  lemma OnePart(parts: seq<SplitPart>, i: nat, j: nat, bucket: nat)
    requires InPart(parts, i, bucket) && InPart(parts, j, bucket)
    ensures i == j
  {
    if i < j { BeforeGrows(parts, i + 1, j); }
    if j < i { BeforeGrows(parts, j + 1, i); }
  }

  /** Every bucket below the total weight lies in some part. */
  lemma {:induction false} SomePart(parts: seq<SplitPart>, n: nat, bucket: nat) returns (i: nat)
    requires n <= |parts| && bucket < Before(parts, n)
    ensures i < n && InPart(parts, i, bucket)
    decreases n
  {
    if bucket < Before(parts, n - 1) { i := SomePart(parts, n - 1, bucket); } else { i := n - 1; }
  }

  /** The part of a bucket. */
  ghost function PartOf(parts: seq<SplitPart>, bucket: nat): (i: nat)
    requires bucket < Weight(parts)
    ensures InPart(parts, i, bucket)
  {
    assert exists i :: InPart(parts, i, bucket) by { var i := SomePart(parts, |parts|, bucket); }
    var i :| InPart(parts, i, bucket);
    i
  }

  predicate Within(low: nat, b: nat, high: nat) { low <= b < high }

  ghost function Range(low: nat, high: nat): set<nat> {
    set b | 0 <= b < high && Within(low, b, high)
  }

  /** The bucket values that are assigned to a part. */
  ghost function BucketsOf(parts: seq<SplitPart>, i: nat): set<nat> {
    set b | 0 <= b < Weight(parts) && InPart(parts, i, b)
  }

  lemma {:induction false} RangeSize(low: nat, high: nat)
    requires low <= high
    ensures |Range(low, high)| == high - low
    decreases high
  {
    if low < high {
      RangeSize(low, high - 1);
      assert Range(low, high) == Range(low, high - 1) + {high - 1};
    }
  }

  /** Exactly as many bucket values belong to a part as its weight. */
  lemma BucketsPerPart(parts: seq<SplitPart>, i: nat)
    requires i < |parts|
    ensures |BucketsOf(parts, i)| == parts[i].weight
  {
    BeforeGrows(parts, i + 1, |parts|);
    RangeSize(Before(parts, i), Before(parts, i + 1));
    forall b ensures b in BucketsOf(parts, i) <==> b in Range(Before(parts, i), Before(parts, i + 1)) {
      assert InPart(parts, i, b) <==> Within(Before(parts, i), b, Before(parts, i + 1));
    }
    assert BucketsOf(parts, i) == Range(Before(parts, i), Before(parts, i + 1));
  }

  method SumOfWeights(parts: seq<SplitPart>) returns (total: nat)
    ensures total == Weight(parts)
  {
    total := 0;
    for i := 0 to |parts|
      invariant total == Before(parts, i)
    {
      total := total + parts[i].weight;
    }
  }

  /** Walks the boundaries; the walk never runs off the end. */
  method AssignSplit(rule: SplitRule, digest: nat) returns (name: string)
    requires WellFormed(rule)
    ensures Weight(rule.parts) > 0
    ensures name == rule.parts[PartOf(rule.parts, digest % Weight(rule.parts))].name
  {
    BeforeGrows(rule.parts, 0, |rule.parts|);
    var total := SumOfWeights(rule.parts);
    var bucket := digest % total;
    var boundary := 0;
    for i := 0 to |rule.parts|
      invariant boundary == Before(rule.parts, i) <= bucket
    {
      boundary := boundary + rule.parts[i].weight;
      if bucket < boundary {
        OnePart(rule.parts, i, PartOf(rule.parts, bucket), bucket);
        return rule.parts[i].name;
      }
    }
    assert false;
  }
}
