/** What a dataset version record is once its constructor accepts it, told by what it holds. */
module DatasetSoundness {
  import opened Outcomes
  import opened Sorting
  import opened Keys
  import opened Splits
  import opened DatasetPipeline
  import opened DatasetRecords
  import opened DatasetImport

  // ---------------------------------------------------------------- order

  ghost predicate InSourceOrder(v: Version) {
    && (forall i, j | 0 <= i < j < |v.accepted| :: v.accepted[i].ordinal <= v.accepted[j].ordinal)
    && (forall i, j | 0 <= i < j < |v.exclusions| :: v.exclusions[i].ordinal <= v.exclusions[j].ordinal)
    && Sorted(v.membership, MembershipLe)
  }

  lemma OrderIs(v: Version)
    ensures InSourceOrder(v) <==>
              && Sort(v.accepted, ByAcceptedOrdinal()) == v.accepted
              && Sort(v.exclusions, ByExclusionOrdinal()) == v.exclusions
              && Sort(v.membership, MembershipLe) == v.membership
  {
    MembershipOrder();
    SortFixesSorted(v.accepted, ByAcceptedOrdinal());
    SortFixesSorted(v.exclusions, ByExclusionOrdinal());
    SortFixesSorted(v.membership, MembershipLe);
    ExclusionsInOrder(v.exclusions);
    AcceptedAreInOrder(v.accepted);
  }

  lemma ExclusionsInOrder(s: seq<Exclusion>)
    ensures Sorted(s, ByExclusionOrdinal()) <==> forall i, j | 0 <= i < j < |s| :: s[i].ordinal <= s[j].ordinal
  {
    assert forall i, j | 0 <= i < j < |s| :: ByExclusionOrdinal()(s[i], s[j]) == (s[i].ordinal <= s[j].ordinal);
  }

  lemma AcceptedAreInOrder(s: seq<Accepted>)
    ensures Sorted(s, ByAcceptedOrdinal()) <==> forall i, j | 0 <= i < j < |s| :: s[i].ordinal <= s[j].ordinal
  {
    assert forall i, j | 0 <= i < j < |s| :: ByAcceptedOrdinal()(s[i], s[j]) == (s[i].ordinal <= s[j].ordinal);
  }

  // ---------------------------------------------------------------- coverage

  ghost predicate AcceptedAs(v: Version, id: string) { exists a :: a in v.accepted && a.identity == id }

  ghost predicate MemberOf(v: Version, id: string) { exists m :: m in v.membership && m.identity == id }

  /** Every accepted example is in exactly one configured split, and nothing else is in any. */
  ghost predicate SplitOnce(v: Version) {
    && (forall i, j | 0 <= i < j < |v.accepted| :: v.accepted[i].identity != v.accepted[j].identity)
    && (forall i, j | 0 <= i < j < |v.membership| :: v.membership[i].identity != v.membership[j].identity)
    && (forall id :: AcceptedAs(v, id) <==> MemberOf(v, id))
    && (forall m | m in v.membership :: exists i :: 0 <= i < |v.rule.parts| && v.rule.parts[i].name == m.split)
  }

  lemma IdsAre(v: Version, id: string)
    ensures id in AcceptedIds(v.accepted) <==> AcceptedAs(v, id)
    ensures id in MembershipIds(v.membership) <==> MemberOf(v, id)
  {
    if id in AcceptedIds(v.accepted) {
      var i :| 0 <= i < |v.accepted| && AcceptedIds(v.accepted)[i] == id;
      assert v.accepted[i] in v.accepted;
    }
    if AcceptedAs(v, id) {
      var a :| a in v.accepted && a.identity == id;
      var i :| 0 <= i < |v.accepted| && v.accepted[i] == a;
      assert AcceptedIds(v.accepted)[i] == id;
    }
    if id in MembershipIds(v.membership) {
      var i :| 0 <= i < |v.membership| && MembershipIds(v.membership)[i] == id;
      assert v.membership[i] in v.membership;
    }
    if MemberOf(v, id) {
      var m :| m in v.membership && m.identity == id;
      var i :| 0 <= i < |v.membership| && v.membership[i] == m;
      assert MembershipIds(v.membership)[i] == id;
    }
  }

  lemma CoverageIs(v: Version)
    ensures SplitOnce(v) <==>
              && Distinct(AcceptedIds(v.accepted)) && Distinct(MembershipIds(v.membership))
              && (set x | x in AcceptedIds(v.accepted)) == (set x | x in MembershipIds(v.membership))
              && (forall m | m in v.membership :: Configured(v.rule, m.split))
  {
    var accepted, members := set x | x in AcceptedIds(v.accepted), set x | x in MembershipIds(v.membership);
    forall id ensures (id in accepted <==> AcceptedAs(v, id)) && (id in members <==> MemberOf(v, id)) { IdsAre(v, id); }
    if accepted == members {
      forall id ensures AcceptedAs(v, id) <==> MemberOf(v, id) { assert id in accepted <==> id in members; }
    }
    DistinctIds(v);
  }

  lemma DistinctIds(v: Version)
    ensures Distinct(AcceptedIds(v.accepted)) <==>
              forall i, j | 0 <= i < j < |v.accepted| :: v.accepted[i].identity != v.accepted[j].identity
    ensures Distinct(MembershipIds(v.membership)) <==>
              forall i, j | 0 <= i < j < |v.membership| :: v.membership[i].identity != v.membership[j].identity
  {
    var a, m := AcceptedIds(v.accepted), MembershipIds(v.membership);
    assert forall i, j | 0 <= i < j < |a| :: a[i] != a[j] <==> v.accepted[i].identity != v.accepted[j].identity;
    assert forall i, j | 0 <= i < j < |m| :: m[i] != m[j] <==> v.membership[i].identity != v.membership[j].identity;
  }

  // ---------------------------------------------------------------- dispositions

  /** Every source row is accepted or excluded, and no row twice. */
  ghost predicate EachRowOnce(v: Version) {
    var all := AcceptedOrdinals(v.accepted) + ExcludedOrdinals(v.exclusions);
    Distinct(all) && forall k: nat :: k in all <==> 1 <= k <= v.rowCount
  }

  lemma DispositionsAre(all: seq<nat>, n: nat)
    ensures Sort(all, ByNumber()) == Ordinals(n) <==> Distinct(all) && forall k: nat :: k in all <==> 1 <= k <= n
  {
    OrdinalsAre(n);
    SortPermutes(all, ByNumber());
    if Sort(all, ByNumber()) == Ordinals(n) {
      DistinctPermutation(Ordinals(n), all);
      MemberOfPermutation(Ordinals(n), all);
    }
    if Distinct(all) && forall k: nat :: k in all <==> 1 <= k <= n {
      DistinctSameMembers(all, Ordinals(n));
      SortOfPermutation(all, Ordinals(n), ByNumber());
      SortKeepsSorted(Ordinals(n), ByNumber());
    }
  }

  lemma OrdinalsAre(n: nat)
    ensures Distinct(Ordinals(n)) && Sorted(Ordinals(n), ByNumber())
    ensures forall k: nat :: k in Ordinals(n) <==> 1 <= k <= n
  {
    forall k: nat | 1 <= k <= n ensures k in Ordinals(n) { assert Ordinals(n)[k - 1] == k; }
  }

  // ---------------------------------------------------------------- previews

  /** The first accepted examples, up to the limit, each with the split it is in. */
  ghost predicate Previewed(v: Version) {
    && |v.previews| == Lesser(v.previewLimit, |v.accepted|)
    && forall i | 0 <= i < |v.previews| ::
         && v.previews[i] == Selection(v.accepted[i].ordinal, v.accepted[i].identity, v.previews[i].split,
                                       v.accepted[i].tokens)
         && Membership(v.accepted[i].identity, v.previews[i].split) in v.membership
  }

  lemma {:induction false} ExpectedAt(previews: seq<Selection>)
    ensures |Expected(previews)| == |previews|
    ensures forall i | 0 <= i < |previews| :: Expected(previews)[i] == Some(previews[i])
  {
    if previews != [] { ExpectedAt(previews[..|previews| - 1]); }
  }

  lemma {:induction false} ExpectedPreviewsAt(accepted: seq<Accepted>, membership: seq<Membership>, n: nat)
    requires n <= |accepted|
    ensures |ExpectedPreviews(accepted, membership, n)| == n
    ensures forall i | 0 <= i < n ::
              ExpectedPreviews(accepted, membership, n)[i] == PreviewOf(accepted[i], membership)
  {
    if n > 0 { ExpectedPreviewsAt(accepted, membership, n - 1); }
  }

  function PreviewOf(a: Accepted, membership: seq<Membership>): Option<Selection> {
    match SplitIn(membership, a.identity)
    case Some(split) => Some(Selection(a.ordinal, a.identity, split, a.tokens))
    case None => None
  }

  lemma {:induction false} SplitInIs(membership: seq<Membership>, id: string)
    ensures SplitIn(membership, id).Some? ==> Membership(id, SplitIn(membership, id).value) in membership
  {
    if membership != [] && membership[|membership| - 1].identity != id {
      SplitInIs(membership[..|membership| - 1], id);
    }
  }

  lemma PreviewIs(a: Accepted, membership: seq<Membership>, p: Selection)
    requires Distinct(MembershipIds(membership))
    ensures PreviewOf(a, membership) == Some(p) <==>
              p == Selection(a.ordinal, a.identity, p.split, a.tokens) && Membership(a.identity, p.split) in membership
  {
    SplitInIs(membership, a.identity);
    if Membership(a.identity, p.split) in membership { SplitIsFound(membership, Membership(a.identity, p.split)); }
  }

  lemma PreviewsAre(v: Version)
    requires Distinct(MembershipIds(v.membership))
    ensures Previewed(v) <==>
              Expected(v.previews) == ExpectedPreviews(v.accepted, v.membership, Lesser(v.previewLimit, |v.accepted|))
  {
    var n := Lesser(v.previewLimit, |v.accepted|);
    ExpectedAt(v.previews);
    ExpectedPreviewsAt(v.accepted, v.membership, n);
    if |v.previews| == n {
      forall i | 0 <= i < n
        ensures Expected(v.previews)[i] == ExpectedPreviews(v.accepted, v.membership, n)[i] <==>
                && v.previews[i] == Selection(v.accepted[i].ordinal, v.accepted[i].identity, v.previews[i].split,
                                              v.accepted[i].tokens)
                && Membership(v.accepted[i].identity, v.previews[i].split) in v.membership
      {
        PreviewIs(v.accepted[i], v.membership, v.previews[i]);
      }
    }
  }

  // ---------------------------------------------------------------- statistics

  function IsDuplicate(): Exclusion -> bool { (e: Exclusion) => e.phase == Deduplication }

  function InSplit(name: string): Membership -> bool { (m: Membership) => m.split == name }

  /** The tokens of each accepted example, added up from the first. */
  function Sum(tokens: seq<nat>): nat { if tokens == [] then 0 else tokens[0] + Sum(tokens[1..]) }

  function TokensOf(accepted: seq<Accepted>): (r: seq<nat>)
    ensures |r| == |accepted| && forall i | 0 <= i < |r| :: r[i] == accepted[i].tokens
  {
    seq(|accepted|, i requires 0 <= i < |accepted| => accepted[i].tokens)
  }

  /** The statistics count what is there. */
  ghost predicate Tallied(s: Statistics, rows: nat, accepted: seq<Accepted>, exclusions: seq<Exclusion>,
                          parts: seq<SplitPart>, membership: seq<Membership>)
  {
    && s.source == rows && s.accepted == |accepted| && s.excluded == |exclusions|
    && s.duplicates == |Filter(exclusions, IsDuplicate())|
    && s.total == Sum(TokensOf(accepted))
    && s.minimum in TokensOf(accepted) && (forall n | n in TokensOf(accepted) :: s.minimum <= n)
    && s.maximum in TokensOf(accepted) && (forall n | n in TokensOf(accepted) :: n <= s.maximum)
    && |s.counts| == |parts|
    && forall i | 0 <= i < |parts| :: s.counts[i] == (parts[i].name, |Filter(membership, InSplit(parts[i].name))|)
  }

  lemma {:induction false} FilterEnd<T>(s: seq<T>, x: T, keep: T -> bool)
    ensures Filter(s + [x], keep) == Filter(s, keep) + (if keep(x) then [x] else [])
  {
    if s == [] {
      assert s + [x] == [x] && [x][1..] == [];
    } else {
      assert (s + [x])[0] == s[0] && (s + [x])[1..] == s[1..] + [x];
      var head, last: seq<T> := if keep(s[0]) then [s[0]] else [], if keep(x) then [x] else [];
      FilterEnd(s[1..], x, keep);
      assert Filter(s + [x], keep) == head + (Filter(s[1..], keep) + last);
      assert Filter(s, keep) == head + Filter(s[1..], keep);
    }
  }

  lemma {:induction false} SumEnd(tokens: seq<nat>, n: nat)
    ensures Sum(tokens + [n]) == Sum(tokens) + n
  {
    if tokens == [] {
      assert tokens + [n] == [n] && [n][1..] == [];
    } else {
      assert (tokens + [n])[0] == tokens[0] && (tokens + [n])[1..] == tokens[1..] + [n];
      SumEnd(tokens[1..], n);
    }
  }

  lemma {:induction false} DuplicatesAre(exclusions: seq<Exclusion>)
    ensures Duplicates(exclusions) == |Filter(exclusions, IsDuplicate())|
  {
    if exclusions != [] {
      var n := |exclusions| - 1;
      DuplicatesAre(exclusions[..n]);
      assert exclusions == exclusions[..n] + [exclusions[n]];
      FilterEnd(exclusions[..n], exclusions[n], IsDuplicate());
    }
  }

  lemma {:induction false} CountIs(membership: seq<Membership>, name: string)
    ensures CountIn(membership, name) == |Filter(membership, InSplit(name))|
  {
    if membership != [] {
      var n := |membership| - 1;
      CountIs(membership[..n], name);
      assert membership == membership[..n] + [membership[n]];
      FilterEnd(membership[..n], membership[n], InSplit(name));
    }
  }

  lemma {:induction false} CountsAre(parts: seq<SplitPart>, membership: seq<Membership>)
    ensures |SplitCounts(parts, membership)| == |parts|
    ensures forall i | 0 <= i < |parts| ::
              SplitCounts(parts, membership)[i] ==
              (parts[i].name, |Filter(membership, InSplit(parts[i].name))|)
  {
    if parts != [] {
      var n := |parts| - 1;
      CountsAre(parts[..n], membership);
      CountIs(membership, parts[n].name);
      var before, counts := SplitCounts(parts[..n], membership), SplitCounts(parts, membership);
      assert counts == before + [(parts[n].name, CountIn(membership, parts[n].name))];
      forall i | 0 <= i < n
        ensures counts[i] == (parts[i].name, |Filter(membership, InSplit(parts[i].name))|)
      {
        assert counts[i] == before[i] && parts[..n][i] == parts[i];
      }
    }
  }

  lemma {:induction false} TotalIs(accepted: seq<Accepted>)
    ensures Total(accepted) == Sum(TokensOf(accepted))
  {
    if accepted != [] {
      var n := |accepted| - 1;
      TotalIs(accepted[..n]);
      assert TokensOf(accepted) == TokensOf(accepted[..n]) + [accepted[n].tokens];
      SumEnd(TokensOf(accepted[..n]), accepted[n].tokens);
    }
  }

  lemma {:induction false} BoundsAre(accepted: seq<Accepted>)
    requires accepted != []
    ensures Minimum(accepted) in TokensOf(accepted) && Maximum(accepted) in TokensOf(accepted)
    ensures forall n | n in TokensOf(accepted) :: Minimum(accepted) <= n <= Maximum(accepted)
  {
    var n, tokens := |accepted| - 1, TokensOf(accepted);
    assert tokens[n] in tokens;
    if n > 0 {
      BoundsAre(accepted[..n]);
      assert tokens == TokensOf(accepted[..n]) + [tokens[n]];
    }
  }

  lemma StatisticsAre(s: Statistics, rows: nat, accepted: seq<Accepted>, exclusions: seq<Exclusion>,
                      parts: seq<SplitPart>, membership: seq<Membership>)
    requires accepted != []
    ensures s == StatisticsOf(rows, accepted, exclusions, parts, membership) <==>
              Tallied(s, rows, accepted, exclusions, parts, membership)
  {
    DuplicatesAre(exclusions);
    CountsAre(parts, membership);
    TotalIs(accepted);
    BoundsAre(accepted);
    if Tallied(s, rows, accepted, exclusions, parts, membership) {
      assert s.counts == SplitCounts(parts, membership);
      assert s.minimum == Minimum(accepted) && s.maximum == Maximum(accepted);
    }
  }

  /** A receipt is accepted exactly when it names a row, and a retained row only for a duplicate and only one that
      comes before it. */
  lemma ReceiptIsSoundExactly(e: Exclusion)
    ensures ExclusionFault(e) == None <==>
              1 <= e.ordinal
              && (e.retained.Some? ==> e.phase == Deduplication && 1 <= e.retained.value < e.ordinal)
  {
  }

  /** Statistics are accepted exactly when they balance. */
  lemma StatisticsBalanceExactly(s: Statistics)
    ensures StatisticsFault(s) == None <==>
              && s.source == s.accepted + s.excluded && s.duplicates <= s.excluded
              && s.counts != [] && SumOfCounts(s.counts) == s.accepted
              && (if s.accepted == 0 then s.total == s.minimum == s.maximum == 0 else s.minimum <= s.maximum)
  {
  }

  // ---------------------------------------------------------------- bytes

  /** How many bits of a code point a UTF-8 sequence of so many bytes holds. */
  function Payload(bytes: nat): nat
    requires 1 <= bytes <= 4
  {
    if bytes == 1 then 7 else (7 - bytes) + 6 * (bytes - 1)
  }

  function TwoTo(n: nat): nat { if n == 0 then 1 else 2 * TwoTo(n - 1) }

  lemma PayloadsAre()
    ensures TwoTo(Payload(1)) == 0x80 && TwoTo(Payload(2)) == 0x800 && TwoTo(Payload(3)) == 0x1_0000
    ensures TwoTo(Payload(4)) == 0x20_0000
  {
    assert TwoTo(8) == 256;
    assert TwoTo(16) == 256 * 256 by { assert TwoTo(12) == 4096; }
    assert TwoTo(20) == 0x10_0000;
  }

  /** Every character takes the fewest bytes that hold its code point, and texts add up. */
  lemma {:induction false} BytesAre(c: char, rest: string, bytes: nat)
    requires 1 <= bytes <= 4
    ensures Utf8Length([c] + rest) == Utf8Length([c]) + Utf8Length(rest) && 1 <= Utf8Length([c]) <= 4
    ensures Utf8Length([c]) <= bytes <==> c as int < TwoTo(Payload(bytes))
  {
    PayloadsAre();
    assert ([c] + rest)[1..] == rest && [c][1..] == [];
  }

  // ---------------------------------------------------------------- the record

  /** Only accepted rows are named as retained. */
  ghost predicate RetainsAccepted(v: Version) {
    forall e | e in v.exclusions && e.retained.Some? :: exists a :: a in v.accepted && a.ordinal == e.retained.value
  }

  lemma OrderFaultIs(v: Version)
    ensures OrderFault(v) == None <==>
              InSourceOrder(v) && SplitOnce(v) && v.splitIdentity == (v.rule, v.membership)
  {
    OrderIs(v);
    CoverageIs(v);
  }

  lemma ContentFaultIs(v: Version)
    requires WellFormed(v.rule) && v.accepted != [] && SplitOnce(v)
    ensures ContentFault(v) == None <==>
              && Previewed(v) && EachRowOnce(v) && RetainsAccepted(v)
              && Tallied(v.statistics, v.rowCount, v.accepted, v.exclusions, v.rule.parts, v.membership)
  {
    DistinctIds(v);
    PreviewsAre(v);
    DispositionsAre(AcceptedOrdinals(v.accepted) + ExcludedOrdinals(v.exclusions), v.rowCount);
    RetainedIs(v);
    StatisticsAre(v.statistics, v.rowCount, v.accepted, v.exclusions, v.rule.parts, v.membership);
    if EachRowOnce(v) { TallyBalances(v); }
  }

  /** A version record is accepted exactly when it accepts some row, lists everything in order, puts each
      accepted example into one configured split, disposes of each source row once, names only accepted rows as
      retained, previews the first accepted rows and counts what is there. */
  lemma VersionIsSoundExactly(v: Version)
    requires WellFormed(v.rule)
    ensures VersionFault(v) == None <==>
              && v.accepted != [] && InSourceOrder(v) && SplitOnce(v) && v.splitIdentity == (v.rule, v.membership)
              && Previewed(v) && EachRowOnce(v) && RetainsAccepted(v)
              && Tallied(v.statistics, v.rowCount, v.accepted, v.exclusions, v.rule.parts, v.membership)
  {
    OrderFaultIs(v);
    if v.accepted != [] && SplitOnce(v) { ContentFaultIs(v); }
  }

  lemma RetainedIs(v: Version)
    ensures forall k :: k in AcceptedOrdinals(v.accepted) <==> exists a :: a in v.accepted && a.ordinal == k
  {
    forall k ensures k in AcceptedOrdinals(v.accepted) <==> exists a :: a in v.accepted && a.ordinal == k {
      if k in AcceptedOrdinals(v.accepted) {
        var i :| 0 <= i < |v.accepted| && AcceptedOrdinals(v.accepted)[i] == k;
        assert v.accepted[i] in v.accepted;
      }
      if exists a :: a in v.accepted && a.ordinal == k {
        var a :| a in v.accepted && a.ordinal == k;
        var i :| 0 <= i < |v.accepted| && v.accepted[i] == a;
        assert AcceptedOrdinals(v.accepted)[i] == k;
      }
    }
  }

  /** The counts of such a record always balance. */
  lemma TallyBalances(v: Version)
    requires WellFormed(v.rule) && v.accepted != [] && SplitOnce(v) && EachRowOnce(v)
    ensures StatisticsFault(StatisticsOf(v.rowCount, v.accepted, v.exclusions, v.rule.parts, v.membership)) == None
  {
    var all := AcceptedOrdinals(v.accepted) + ExcludedOrdinals(v.exclusions);
    OrdinalsAre(v.rowCount);
    DistinctSameMembers(all, Ordinals(v.rowCount));
    MemberOfPermutation(all, Ordinals(v.rowCount));
    CoverageIs(v);
    var a, m := AcceptedIds(v.accepted), MembershipIds(v.membership);
    forall x ensures x in a <==> x in m { IdsAre(v, x); }
    DistinctSameMembers(a, m);
    MemberOfPermutation(a, m);
    BalancedStatistics(v.rule, v.rowCount, v.accepted, v.exclusions, v.membership);
  }
}
