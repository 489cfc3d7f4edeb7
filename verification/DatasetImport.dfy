/** Assembling the dataset version from a prepared source: whatever the rows, if one is accepted the
    record passes every check of its constructor. */
module DatasetImport {
  import opened Outcomes
  import opened Sorting
  import opened Keys
  import opened Splits
  import opened DatasetPipeline
  import opened DatasetRecords

  ghost predicate Injective(identify: Identify) {
    forall a, b :: identify(a) == identify(b) ==> a == b
  }

  /** The bytes of a text in UTF-8. */
  function Utf8Length(text: string): nat {
    if text == [] then 0
    else
      var n := text[0] as int;
      (if n < 0x80 then 1 else if n < 0x800 then 2 else if n < 0x1_0000 then 3 else 4) + Utf8Length(text[1..])
  }

  function AcceptedOf(cs: seq<Candidate>): (r: seq<Accepted>)
    ensures |r| == |cs|
    ensures forall i | 0 <= i < |cs| ::
              r[i] == Accepted(cs[i].ordinal, cs[i].identity, Utf8Length(cs[i].text), cs[i].tokens)
  {
    seq(|cs|, i requires 0 <= i < |cs| => Accepted(cs[i].ordinal, cs[i].identity, Utf8Length(cs[i].text), cs[i].tokens))
  }

  function MembersOf(cs: seq<Candidate>): (r: seq<Membership>)
    ensures |r| == |cs| && forall i | 0 <= i < |cs| :: r[i] == Membership(cs[i].identity, cs[i].split)
  {
    seq(|cs|, i requires 0 <= i < |cs| => Membership(cs[i].identity, cs[i].split))
  }

  function PreviewsOf(cs: seq<Candidate>): (r: seq<Selection>)
    ensures |r| == |cs|
    ensures forall i | 0 <= i < |cs| :: r[i] == Selection(cs[i].ordinal, cs[i].identity, cs[i].split, cs[i].tokens)
  {
    seq(|cs|, i requires 0 <= i < |cs| => Selection(cs[i].ordinal, cs[i].identity, cs[i].split, cs[i].tokens))
  }

  function Assemble(q: Request, rowCount: nat, cs: seq<Candidate>, es: seq<Exclusion>): Version
    requires cs != []
  {
    var membership, accepted := Sort(MembersOf(cs), MembershipLe), AcceptedOf(cs);
    Version(rowCount, q.rule, (q.rule, membership), q.previewLimit,
            PreviewsOf(cs[..Lesser(q.previewLimit, |cs|)]), accepted,
            membership, es, StatisticsOf(rowCount, accepted, es, q.rule.parts, membership))
  }

  // ---------------------------------------------------------------- rows fall in one place each

  /** An accepted row is not excluded, and the other way round. */
  lemma NotBoth(rows: seq<Row>, q: Request, c: Candidate, e: Exclusion)
    requires WellFormed(q.rule) && IsCandidate(rows, q, c) && IsExclusion(rows, q, e)
    ensures c.ordinal != e.ordinal
  {
  }

  lemma NotExcluded(rows: seq<Row>, q: Request, e: Exclusion, i: nat, text: string)
    requires IsExclusion(rows, q, e) && FirstWith(rows, q, i, text)
    ensures e.ordinal != i + 1
  {
  }

  /** The first row with a text is among the candidates. */
  lemma FirstIsCandidate(rows: seq<Row>, q: Request, cs: seq<Candidate>, es: seq<Exclusion>, i: nat, text: string)
    requires WellFormed(q.rule) && Prepared(rows, q, |rows|, cs, es) && FirstWith(rows, q, i, text)
    ensures Has(cs, CandidateOrdinal(), i + 1)
  {
    if !Has(cs, CandidateOrdinal(), i + 1) {
      assert Has(es, ExclusionOrdinal(), i + 1);
      var e :| e in es && ExclusionOrdinal()(e) == i + 1;
      var k :| 0 <= k < |es| && es[k] == e;
      assert IsExclusion(rows, q, es[k]);
      NotExcluded(rows, q, e, i, text);
      assert false;
    }
  }

  /** Two candidates never share a text, so they never share an identity. */
  lemma IdentitiesDiffer(rows: seq<Row>, q: Request, cs: seq<Candidate>, es: seq<Exclusion>, i: nat, j: nat)
    requires WellFormed(q.rule) && Injective(q.identify) && Prepared(rows, q, |rows|, cs, es) && i < j < |cs|
    ensures cs[i].identity != cs[j].identity
  {
    assert IsCandidate(rows, q, cs[i]) && IsCandidate(rows, q, cs[j]);
    assert CandidateOrdinal()(cs[i]) < CandidateOrdinal()(cs[j]);
    assert PassesWith(rows, q, cs[i].ordinal - 1, cs[i].text);
  }

  /** Accepted and excluded ordinals together are 1, 2, ..., n, each once. */
  lemma OrdinalsPartition(rows: seq<Row>, q: Request, cs: seq<Candidate>, es: seq<Exclusion>)
    requires WellFormed(q.rule) && Prepared(rows, q, |rows|, cs, es)
    ensures var all := AcceptedOrdinals(AcceptedOf(cs)) + ExcludedOrdinals(es);
            Distinct(all) && multiset(all) == multiset(Ordinals(|rows|)) && |cs| + |es| == |rows|
  {
    var a, e := AcceptedOrdinals(AcceptedOf(cs)), ExcludedOrdinals(es);
    var all := a + e;
    AllDiffer(rows, q, cs, es);
    forall k ensures k in all <==> k in Ordinals(|rows|) {
      if k in Ordinals(|rows|) {
        EveryOrdinalIsThere(rows, q, cs, es, k);
      }
      if k in all {
        OnlyOrdinalsAreThere(rows, q, cs, es, k);
      }
    }
    DistinctSameMembers(all, Ordinals(|rows|));
    assert |multiset(all)| == |all| && |multiset(Ordinals(|rows|))| == |rows|;
  }

  lemma AllDiffer(rows: seq<Row>, q: Request, cs: seq<Candidate>, es: seq<Exclusion>)
    requires WellFormed(q.rule) && Prepared(rows, q, |rows|, cs, es)
    ensures Distinct(AcceptedOrdinals(AcceptedOf(cs)) + ExcludedOrdinals(es))
  {
    forall i, j | 0 <= i < |cs| && 0 <= j < |es| ensures cs[i].ordinal != es[j].ordinal {
      NotBoth(rows, q, cs[i], es[j]);
    }
    OrdinalsDiffer(cs, es);
  }

  lemma OrdinalsDiffer(cs: seq<Candidate>, es: seq<Exclusion>)
    requires Rising(cs, CandidateOrdinal()) && Rising(es, ExclusionOrdinal())
    requires forall i, j | 0 <= i < |cs| && 0 <= j < |es| :: cs[i].ordinal != es[j].ordinal
    ensures Distinct(AcceptedOrdinals(AcceptedOf(cs)) + ExcludedOrdinals(es))
  {
    var all := AcceptedOrdinals(AcceptedOf(cs)) + ExcludedOrdinals(es);
    forall i, j | 0 <= i < j < |all| ensures all[i] != all[j] {
      if j < |cs| {
        assert CandidateOrdinal()(cs[i]) < CandidateOrdinal()(cs[j]);
      } else if i >= |cs| {
        assert ExclusionOrdinal()(es[i - |cs|]) < ExclusionOrdinal()(es[j - |cs|]);
      }
    }
  }

  lemma EveryOrdinalIsThere(rows: seq<Row>, q: Request, cs: seq<Candidate>, es: seq<Exclusion>, k: nat)
    requires WellFormed(q.rule) && Prepared(rows, q, |rows|, cs, es) && 1 <= k <= |rows|
    ensures k in AcceptedOrdinals(AcceptedOf(cs)) + ExcludedOrdinals(es)
  {
    var a, e := AcceptedOrdinals(AcceptedOf(cs)), ExcludedOrdinals(es);
    if Has(cs, CandidateOrdinal(), k) {
      OrdinalOfCandidate(cs, k);
    } else {
      assert Has(es, ExclusionOrdinal(), k);
      var x :| x in es && ExclusionOrdinal()(x) == k;
      var i :| 0 <= i < |es| && es[i] == x;
      assert (a + e)[|a| + i] == k;
    }
  }

  lemma OnlyOrdinalsAreThere(rows: seq<Row>, q: Request, cs: seq<Candidate>, es: seq<Exclusion>, k: nat)
    requires WellFormed(q.rule) && Prepared(rows, q, |rows|, cs, es)
    requires k in AcceptedOrdinals(AcceptedOf(cs)) + ExcludedOrdinals(es)
    ensures k in Ordinals(|rows|)
  {
    var all := AcceptedOrdinals(AcceptedOf(cs)) + ExcludedOrdinals(es);
    var i :| 0 <= i < |all| && all[i] == k;
    if i < |cs| {
      assert IsCandidate(rows, q, cs[i]);
    } else {
      assert IsExclusion(rows, q, es[i - |cs|]);
    }
    assert Ordinals(|rows|)[k - 1] == k;
  }

  lemma SameCandidate(rows: seq<Row>, q: Request, cs: seq<Candidate>, es: seq<Exclusion>, cs': seq<Candidate>,
                      es': seq<Exclusion>, c: Candidate)
    requires WellFormed(q.rule) && Prepared(rows, q, |rows|, cs, es) && Prepared(rows, q, |rows|, cs', es') && c in cs
    ensures c in cs'
  {
    var i :| 0 <= i < |cs| && cs[i] == c;
    assert IsCandidate(rows, q, cs[i]);
    FirstIsCandidate(rows, q, cs', es', c.ordinal - 1, c.text);
    var d :| d in cs' && CandidateOrdinal()(d) == c.ordinal;
    var j :| 0 <= j < |cs'| && cs'[j] == d;
    OneCandidate(rows, q, c, cs'[j]);
  }

  /** A row makes one candidate. */
  lemma OneCandidate(rows: seq<Row>, q: Request, c: Candidate, d: Candidate)
    requires WellFormed(q.rule) && IsCandidate(rows, q, c) && IsCandidate(rows, q, d) && c.ordinal == d.ordinal
    ensures c == d
  {
  }

  lemma SameExclusion(rows: seq<Row>, q: Request, cs: seq<Candidate>, es: seq<Exclusion>, cs': seq<Candidate>,
                      es': seq<Exclusion>, e: Exclusion)
    requires WellFormed(q.rule) && Prepared(rows, q, |rows|, cs, es) && Prepared(rows, q, |rows|, cs', es') && e in es
    ensures e in es'
  {
    MemberIsExclusion(rows, q, cs, es, e);
    ExcludedIsNoCandidate(rows, q, cs', es', e);
    assert Has(es', ExclusionOrdinal(), e.ordinal);
    var d :| d in es' && ExclusionOrdinal()(d) == e.ordinal;
    MemberIsExclusion(rows, q, cs', es', d);
    OneReceipt(rows, q, Judge(rows[e.ordinal - 1], q), e, d);
  }

  lemma MemberIsExclusion(rows: seq<Row>, q: Request, cs: seq<Candidate>, es: seq<Exclusion>, e: Exclusion)
    requires WellFormed(q.rule) && Prepared(rows, q, |rows|, cs, es) && e in es
    ensures IsExclusion(rows, q, e)
  {
    var i :| 0 <= i < |es| && es[i] == e;
    assert IsExclusion(rows, q, es[i]);
  }

  lemma ExcludedIsNoCandidate(rows: seq<Row>, q: Request, cs: seq<Candidate>, es: seq<Exclusion>, e: Exclusion)
    requires WellFormed(q.rule) && Prepared(rows, q, |rows|, cs, es) && IsExclusion(rows, q, e)
    ensures !Has(cs, CandidateOrdinal(), e.ordinal)
  {
    forall c | c in cs ensures c.ordinal != e.ordinal {
      var k :| 0 <= k < |cs| && cs[k] == c;
      NotBoth(rows, q, cs[k], e);
    }
  }

  lemma OneFirst(rows: seq<Row>, q: Request, i: nat, j: nat, text: string)
    requires FirstWith(rows, q, i, text) && FirstWith(rows, q, j, text)
    ensures i == j
  {
    assert PassesWith(rows, q, i, text) && PassesWith(rows, q, j, text);
  }

  /** A row has one receipt: the first row with its text is unique. */
  lemma OneReceipt(rows: seq<Row>, q: Request, verdict: Verdict, e: Exclusion, d: Exclusion)
    requires ReceiptFor(rows, q, verdict, e) && ReceiptFor(rows, q, verdict, d) && e.ordinal == d.ordinal
    ensures e == d
  {
    if verdict.Passes? {
      OneFirst(rows, q, e.retained.value - 1, d.retained.value - 1, verdict.text);
    }
  }

  lemma RisingApart<T>(a: seq<T>, ordinal: T -> nat, i: nat, j: nat)
    requires Rising(a, ordinal) && i < |a| && j < |a| && ordinal(a[i]) == ordinal(a[j])
    ensures i == j
  {
  }

  lemma RisingUnique<T(!new)>(a: seq<T>, b: seq<T>, ordinal: T -> nat)
    requires Rising(a, ordinal) && Rising(b, ordinal) && forall x :: x in a <==> x in b
    ensures a == b
  {
    var le := (x: T, y: T) => ordinal(x) <= ordinal(y);
    DistinctSameMembers(a, b);
    forall x, y | x in a && y in a && le(x, y) && le(y, x) ensures x == y {
      var i :| 0 <= i < |a| && a[i] == x;
      var j :| 0 <= j < |a| && a[j] == y;
      RisingApart(a, ordinal, i, j);
    }
    SortedUnique(a, b, le);
  }

  /** The rows decide the outcome: two outcomes that meet the description are the same. */
  lemma PreparedIsUnique(rows: seq<Row>, q: Request, cs: seq<Candidate>, es: seq<Exclusion>, cs': seq<Candidate>,
                         es': seq<Exclusion>)
    requires WellFormed(q.rule) && Prepared(rows, q, |rows|, cs, es) && Prepared(rows, q, |rows|, cs', es')
    ensures cs == cs' && es == es'
  {
    forall c | c in cs ensures c in cs' { SameCandidate(rows, q, cs, es, cs', es', c); }
    forall c | c in cs' ensures c in cs { SameCandidate(rows, q, cs', es', cs, es, c); }
    forall e | e in es ensures e in es' { SameExclusion(rows, q, cs, es, cs', es', e); }
    forall e | e in es' ensures e in es { SameExclusion(rows, q, cs', es', cs, es, e); }
    RisingUnique(cs, cs', CandidateOrdinal());
    RisingUnique(es, es', ExclusionOrdinal());
  }

  // ---------------------------------------------------------------- each check of the record passes

  lemma AcceptedInOrder(rows: seq<Row>, q: Request, cs: seq<Candidate>, es: seq<Exclusion>)
    requires WellFormed(q.rule) && Prepared(rows, q, |rows|, cs, es)
    ensures Sort(AcceptedOf(cs), ByAcceptedOrdinal()) == AcceptedOf(cs)
    ensures Sort(es, ByExclusionOrdinal()) == es
  {
    var a := AcceptedOf(cs);
    forall i, j | 0 <= i < j < |a| ensures a[i].ordinal < a[j].ordinal {
      assert CandidateOrdinal()(cs[i]) < CandidateOrdinal()(cs[j]);
    }
    RisingSorts(a, (x: Accepted) => x.ordinal, ByAcceptedOrdinal());
    RisingSorts(es, ExclusionOrdinal(), ByExclusionOrdinal());
  }

  lemma RisingSorts<T(!new)>(a: seq<T>, ordinal: T -> nat, le: (T, T) -> bool)
    requires Rising(a, ordinal) && forall x, y :: le(x, y) <==> ordinal(x) <= ordinal(y)
    ensures Sort(a, le) == a
  {
    forall x, y | x in a && y in a && le(x, y) && le(y, x) ensures x == y {
      var i :| 0 <= i < |a| && a[i] == x;
      var j :| 0 <= j < |a| && a[j] == y;
      RisingApart(a, ordinal, i, j);
    }
    SortKeepsSorted(a, le);
  }

  lemma MembershipOrder()
    ensures LinearOrder(MembershipLe)
  {
    TextOrder();
  }

  /** Nothing repeats, and the split record covers exactly the accepted identities. */
  lemma MembershipCovers(rows: seq<Row>, q: Request, cs: seq<Candidate>, es: seq<Exclusion>)
    requires WellFormed(q.rule) && Injective(q.identify) && Prepared(rows, q, |rows|, cs, es)
    ensures var membership := Sort(MembersOf(cs), MembershipLe);
            && Sort(membership, MembershipLe) == membership
            && multiset(membership) == multiset(MembersOf(cs)) && |membership| == |cs|
            && Distinct(AcceptedIds(AcceptedOf(cs))) && Distinct(MembershipIds(membership))
            && (set x | x in AcceptedIds(AcceptedOf(cs))) == (set x | x in MembershipIds(membership))
  {
    var members := MembersOf(cs);
    var membership := Sort(members, MembershipLe);
    MembershipOrder();
    SortSorted(members, MembershipLe);
    SortPermutes(members, MembershipLe);
    SortKeepsSorted(membership, MembershipLe);
    forall i, j | 0 <= i < j < |cs| ensures cs[i].identity != cs[j].identity {
      IdentitiesDiffer(rows, q, cs, es, i, j);
    }
    IdsOfPermutation(members, membership);
    assert MembershipIds(members) == AcceptedIds(AcceptedOf(cs));
  }

  lemma IdsOfPermutation(a: seq<Membership>, b: seq<Membership>)
    requires multiset(a) == multiset(b) && Distinct(MembershipIds(a))
    ensures Distinct(MembershipIds(b))
    ensures (set x | x in MembershipIds(a)) == (set x | x in MembershipIds(b))
  {
    MemberOfPermutation(a, b);
    forall i, j | 0 <= i < j < |a| ensures a[i] != a[j] { assert MembershipIds(a)[i] != MembershipIds(a)[j]; }
    DistinctPermutation(a, b);
    forall i, j | 0 <= i < j < |b| ensures MembershipIds(b)[i] != MembershipIds(b)[j] {
      assert b[i] in a && b[j] in a;
      var k :| 0 <= k < |a| && a[k] == b[i];
      var l :| 0 <= l < |a| && a[l] == b[j];
      assert k != l && MembershipIds(a)[k] != MembershipIds(a)[l];
    }
    SameIds(a, b);
    SameIds(b, a);
  }

  lemma SameIds(a: seq<Membership>, b: seq<Membership>)
    requires forall x | x in a :: x in b
    ensures forall id | id in MembershipIds(a) :: id in MembershipIds(b)
  {
    forall id | id in MembershipIds(a) ensures id in MembershipIds(b) {
      var i :| 0 <= i < |a| && MembershipIds(a)[i] == id;
      assert a[i] in b;
      var j :| 0 <= j < |b| && b[j] == a[i];
      assert MembershipIds(b)[j] == id;
    }
  }

  lemma {:induction false} SplitIsFound(membership: seq<Membership>, m: Membership)
    requires Distinct(MembershipIds(membership)) && m in membership
    ensures SplitIn(membership, m.identity) == Some(m.split)
  {
    var n := |membership| - 1;
    var i :| 0 <= i < |membership| && membership[i] == m;
    if i < n {
      assert MembershipIds(membership)[i] != MembershipIds(membership)[n];
      var rest := membership[..n];
      forall j, k | 0 <= j < k < n ensures MembershipIds(rest)[j] != MembershipIds(rest)[k] {
        assert MembershipIds(membership)[j] != MembershipIds(membership)[k];
      }
      assert rest[i] == m;
      SplitIsFound(rest, m);
    }
  }

  lemma {:induction false} PreviewsMatch(cs: seq<Candidate>, membership: seq<Membership>, n: nat)
    requires n <= |cs| && Distinct(MembershipIds(membership)) && multiset(membership) == multiset(MembersOf(cs))
    ensures Expected(PreviewsOf(cs[..n])) == ExpectedPreviews(AcceptedOf(cs), membership, n)
  {
    if n > 0 {
      PreviewsMatch(cs, membership, n - 1);
      MemberOfPermutation(membership, MembersOf(cs));
      assert MembersOf(cs)[n - 1] in membership;
      SplitIsFound(membership, MembersOf(cs)[n - 1]);
      assert PreviewsOf(cs[..n])[..n - 1] == PreviewsOf(cs[..n - 1]);
    }
  }

  lemma SplitsAreConfigured(rows: seq<Row>, q: Request, cs: seq<Candidate>, es: seq<Exclusion>)
    requires WellFormed(q.rule) && Prepared(rows, q, |rows|, cs, es)
    ensures forall m | m in Sort(MembersOf(cs), MembershipLe) :: Configured(q.rule, m.split)
  {
    SortPermutes(MembersOf(cs), MembershipLe);
    MemberOfPermutation(Sort(MembersOf(cs), MembershipLe), MembersOf(cs));
    forall m | m in MembersOf(cs) ensures Configured(q.rule, m.split) {
      var i :| 0 <= i < |cs| && MembersOf(cs)[i] == m;
      assert IsCandidate(rows, q, cs[i]);
    }
  }

  lemma DispositionsComplete(rows: seq<Row>, q: Request, cs: seq<Candidate>, es: seq<Exclusion>)
    requires WellFormed(q.rule) && Prepared(rows, q, |rows|, cs, es)
    ensures Sort(AcceptedOrdinals(AcceptedOf(cs)) + ExcludedOrdinals(es), ByNumber()) == Ordinals(|rows|)
  {
    OrdinalsPartition(rows, q, cs, es);
    SortOfPermutation(AcceptedOrdinals(AcceptedOf(cs)) + ExcludedOrdinals(es), Ordinals(|rows|), ByNumber());
    SortKeepsSorted(Ordinals(|rows|), ByNumber());
  }

  lemma RetainedRowsAreAccepted(rows: seq<Row>, q: Request, cs: seq<Candidate>, es: seq<Exclusion>)
    requires WellFormed(q.rule) && Prepared(rows, q, |rows|, cs, es)
    ensures forall e | e in es ::
              ExclusionFault(e) == None
              && (e.retained.Some? ==> e.retained.value in AcceptedOrdinals(AcceptedOf(cs)))
  {
    forall e | e in es
      ensures ExclusionFault(e) == None
      ensures e.retained.Some? ==> e.retained.value in AcceptedOrdinals(AcceptedOf(cs)) {
      var i :| 0 <= i < |es| && es[i] == e;
      assert IsExclusion(rows, q, es[i]);
      RetainedRowIsAccepted(rows, q, cs, es, Judge(rows[e.ordinal - 1], q), e);
    }
  }

  lemma RetainedRowIsAccepted(rows: seq<Row>, q: Request, cs: seq<Candidate>, es: seq<Exclusion>, verdict: Verdict,
                              e: Exclusion)
    requires WellFormed(q.rule) && Prepared(rows, q, |rows|, cs, es) && e.ordinal >= 1
             && ReceiptFor(rows, q, verdict, e)
    ensures ExclusionFault(e) == None && (e.retained.Some? ==> e.retained.value in AcceptedOrdinals(AcceptedOf(cs)))
  {
    if e.retained.Some? {
      FirstIsCandidate(rows, q, cs, es, e.retained.value - 1, verdict.text);
      OrdinalOfCandidate(cs, e.retained.value);
    }
  }

  lemma OrdinalOfCandidate(cs: seq<Candidate>, n: nat)
    requires Has(cs, CandidateOrdinal(), n)
    ensures n in AcceptedOrdinals(AcceptedOf(cs))
  {
    var c :| c in cs && CandidateOrdinal()(c) == n;
    var j :| 0 <= j < |cs| && cs[j] == c;
    assert AcceptedOrdinals(AcceptedOf(cs))[j] == n;
  }

  // ---------------------------------------------------------------- statistics

  lemma {:induction false} MinimumIsBelow(accepted: seq<Accepted>)
    requires accepted != []
    ensures Minimum(accepted) <= Maximum(accepted)
    ensures forall i | 0 <= i < |accepted| :: Minimum(accepted) <= accepted[i].tokens <= Maximum(accepted)
  {
    if |accepted| > 1 { MinimumIsBelow(accepted[..|accepted| - 1]); }
  }

  lemma {:induction false} DuplicatesAreExclusions(exclusions: seq<Exclusion>)
    ensures Duplicates(exclusions) <= |exclusions|
  {
    if exclusions != [] { DuplicatesAreExclusions(exclusions[..|exclusions| - 1]); }
  }

  /** How many parts have a name. */
  function Named(parts: seq<SplitPart>, name: string): nat {
    if parts == [] then 0 else Named(parts[..|parts| - 1], name) + (if parts[|parts| - 1].name == name then 1 else 0)
  }

  lemma {:induction false} CountsAddUp(parts: seq<SplitPart>, membership: seq<Membership>, m: Membership)
    ensures SumOfCounts(SplitCounts(parts, membership + [m])) ==
              SumOfCounts(SplitCounts(parts, membership)) + Named(parts, m.split)
  {
    if parts != [] {
      CountsAddUp(parts[..|parts| - 1], membership, m);
      assert (membership + [m])[..|membership|] == membership;
    }
  }

  lemma {:induction false} NamedOnce(parts: seq<SplitPart>, name: string)
    requires forall i, j | 0 <= i < j < |parts| :: parts[i].name != parts[j].name
    ensures Named(parts, name) == if exists i :: 0 <= i < |parts| && parts[i].name == name then 1 else 0
  {
    if parts != [] {
      var n := |parts| - 1;
      NamedOnce(parts[..n], name);
      assert forall i | 0 <= i < n :: parts[..n][i] == parts[i];
    }
  }

  lemma {:induction false} NoCounts(parts: seq<SplitPart>)
    ensures SumOfCounts(SplitCounts(parts, [])) == 0 && |SplitCounts(parts, [])| == |parts|
  {
    if parts != [] { NoCounts(parts[..|parts| - 1]); }
  }

  lemma {:induction false} AsManyCounts(parts: seq<SplitPart>, membership: seq<Membership>)
    ensures |SplitCounts(parts, membership)| == |parts|
  {
    if parts != [] { AsManyCounts(parts[..|parts| - 1], membership); }
  }

  /** Each member is counted under exactly one part. */
  lemma {:induction false} CountsCoverMembers(rule: SplitRule, membership: seq<Membership>)
    requires WellFormed(rule) && forall m | m in membership :: Configured(rule, m.split)
    ensures SumOfCounts(SplitCounts(rule.parts, membership)) == |membership|
  {
    if membership == [] {
      NoCounts(rule.parts);
    } else {
      var n := |membership| - 1;
      assert membership == membership[..n] + [membership[n]];
      assert Configured(rule, membership[n].split);
      CountsCoverMembers(rule, membership[..n]);
      CountsAddUp(rule.parts, membership[..n], membership[n]);
      NamedOnce(rule.parts, membership[n].split);
    }
  }

  // ---------------------------------------------------------------- the import

  lemma NoOrderFault(v: Version)
    requires Sort(v.accepted, ByAcceptedOrdinal()) == v.accepted
    requires Sort(v.exclusions, ByExclusionOrdinal()) == v.exclusions
             && Sort(v.membership, MembershipLe) == v.membership
    requires Distinct(AcceptedIds(v.accepted)) && Distinct(MembershipIds(v.membership))
    requires (set x | x in AcceptedIds(v.accepted)) == (set x | x in MembershipIds(v.membership))
    requires (forall m | m in v.membership :: Configured(v.rule, m.split)) && v.splitIdentity == (v.rule, v.membership)
    ensures OrderFault(v) == None
  {
  }

  lemma NoContentFault(v: Version)
    requires v.accepted != []
    requires Expected(v.previews) == ExpectedPreviews(v.accepted, v.membership, Lesser(v.previewLimit, |v.accepted|))
    requires Sort(AcceptedOrdinals(v.accepted) + ExcludedOrdinals(v.exclusions), ByNumber()) == Ordinals(v.rowCount)
    requires forall e | e in v.exclusions :: e.retained.Some? ==> e.retained.value in AcceptedOrdinals(v.accepted)
    requires v.statistics == StatisticsOf(v.rowCount, v.accepted, v.exclusions, v.rule.parts, v.membership)
    requires StatisticsFault(v.statistics) == None
    ensures ContentFault(v) == None
  {
  }

  lemma StatisticsAreSound(rows: seq<Row>, q: Request, cs: seq<Candidate>, es: seq<Exclusion>)
    requires WellFormed(q.rule) && Injective(q.identify) && Prepared(rows, q, |rows|, cs, es) && cs != []
    ensures StatisticsFault(Assemble(q, |rows|, cs, es).statistics) == None
  {
    var membership := Sort(MembersOf(cs), MembershipLe);
    MembershipCovers(rows, q, cs, es);
    SplitsAreConfigured(rows, q, cs, es);
    OrdinalsPartition(rows, q, cs, es);
    BalancedStatistics(q.rule, |rows|, AcceptedOf(cs), es, membership);
  }

  lemma BalancedStatistics(rule: SplitRule, rows: nat, accepted: seq<Accepted>, es: seq<Exclusion>,
                           membership: seq<Membership>)
    requires WellFormed(rule) && accepted != [] && rows == |accepted| + |es| && |membership| == |accepted|
    requires forall m | m in membership :: Configured(rule, m.split)
    ensures StatisticsFault(StatisticsOf(rows, accepted, es, rule.parts, membership)) == None
  {
    MinimumIsBelow(accepted);
    DuplicatesAreExclusions(es);
    CountsCoverMembers(rule, membership);
    AsManyCounts(rule.parts, membership);
  }

  /** Whatever the rows, the assembled record passes every check. */
  lemma AssembledIsSound(rows: seq<Row>, q: Request, cs: seq<Candidate>, es: seq<Exclusion>)
    requires WellFormed(q.rule) && Injective(q.identify) && Prepared(rows, q, |rows|, cs, es) && cs != []
    ensures VersionFault(Assemble(q, |rows|, cs, es)) == None
    ensures StatisticsFault(Assemble(q, |rows|, cs, es).statistics) == None
    ensures forall e | e in es :: ExclusionFault(e) == None
  {
    AcceptedInOrder(rows, q, cs, es);
    MembershipCovers(rows, q, cs, es);
    SplitsAreConfigured(rows, q, cs, es);
    PreviewsMatch(cs, Sort(MembersOf(cs), MembershipLe), Lesser(q.previewLimit, |cs|));
    DispositionsComplete(rows, q, cs, es);
    RetainedRowsAreAccepted(rows, q, cs, es);
    StatisticsAreSound(rows, q, cs, es);
    NoOrderFault(Assemble(q, |rows|, cs, es));
    NoContentFault(Assemble(q, |rows|, cs, es));
  }

  ghost predicate SomeAccepted(rows: seq<Row>, q: Request) {
    exists i :: 0 <= i < |rows| && Accepts(rows, q, i)
  }

  lemma CandidatesIffAccepted(rows: seq<Row>, q: Request, cs: seq<Candidate>, es: seq<Exclusion>)
    requires WellFormed(q.rule) && Prepared(rows, q, |rows|, cs, es)
    ensures cs != [] <==> SomeAccepted(rows, q)
  {
    if cs != [] {
      assert IsCandidate(rows, q, cs[0]);
      assert Accepts(rows, q, cs[0].ordinal - 1);
    }
    if SomeAccepted(rows, q) {
      var i :| 0 <= i < |rows| && Accepts(rows, q, i);
      FirstIsCandidate(rows, q, cs, es, i, Judge(rows[i], q).text);
    }
  }

  /** The import: it yields a version exactly when the tokenizer holds up and some row is accepted, and
      the version's checks, all of them, are then known to pass. */
  method ImportSource(rows: seq<Row>, q: Request) returns (r: Result<Version>)
    requires WellFormed(q.rule) && Injective(q.identify)
    ensures r.Ok? <==> !Faulty(rows, q, |rows|) && SomeAccepted(rows, q)
    ensures r.Err? ==> FaultyAt(rows, q, r.code) || r.code == "dataset_has_no_accepted_rows"
    ensures r.Ok? ==> VersionFault(r.value) == None && r.value.rowCount == |rows|
    ensures r.Ok? ==> exists cs, es ::
              cs != [] && Prepared(rows, q, |rows|, cs, es) && r.value == Assemble(q, |rows|, cs, es)
  {
    var prepared := PrepareCandidates(rows, q);
    if prepared.Err? {
      return Err(prepared.code);
    }
    var (cs, es) := prepared.value;
    CandidatesIffAccepted(rows, q, cs, es);
    if cs == [] {
      return Err("dataset_has_no_accepted_rows");
    }
    AssembledIsSound(rows, q, cs, es);
    return Ok(Assemble(q, |rows|, cs, es));
  }
}
