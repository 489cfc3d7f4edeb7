/** The dataset version record: everything its constructor checks, in the order it checks it. */
module DatasetRecords {
  import opened Outcomes
  import opened Sorting
  import opened Keys
  import opened Splits
  import opened DatasetPipeline

  datatype Accepted = Accepted(ordinal: nat, identity: string, bytes: nat, tokens: nat)

  datatype Membership = Membership(identity: string, split: string)

  datatype Selection = Selection(ordinal: nat, identity: string, split: string, tokens: nat)

  datatype Statistics = Statistics(source: nat, accepted: nat, excluded: nat, duplicates: nat, total: nat,
                                   minimum: nat, maximum: nat, counts: seq<(string, nat)>)

  datatype Version = Version(rowCount: nat, rule: SplitRule, splitIdentity: (SplitRule, seq<Membership>),
                             previewLimit: nat,
                             previews: seq<Selection>, accepted: seq<Accepted>, membership: seq<Membership>,
                             exclusions: seq<Exclusion>, statistics: Statistics)

  // ---------------------------------------------------------------- orders

  function ByAcceptedOrdinal(): (Accepted, Accepted) -> bool { (a: Accepted, b: Accepted) => a.ordinal <= b.ordinal }

  function ByExclusionOrdinal(): (Exclusion, Exclusion) -> bool {
    (a: Exclusion, b: Exclusion) => a.ordinal <= b.ordinal
  }

  function ByNumber(): (nat, nat) -> bool { (a: nat, b: nat) => a <= b }

  predicate MembershipLe(a: Membership, b: Membership) {
    if a.identity != b.identity then TextLe(a.identity, b.identity) else TextLe(a.split, b.split)
  }

  // ---------------------------------------------------------------- projections

  function AcceptedIds(s: seq<Accepted>): (r: seq<string>)
    ensures |r| == |s| && forall i | 0 <= i < |s| :: r[i] == s[i].identity
  {
    seq(|s|, i requires 0 <= i < |s| => s[i].identity)
  }

  function MembershipIds(s: seq<Membership>): (r: seq<string>)
    ensures |r| == |s| && forall i | 0 <= i < |s| :: r[i] == s[i].identity
  {
    seq(|s|, i requires 0 <= i < |s| => s[i].identity)
  }

  function AcceptedOrdinals(s: seq<Accepted>): (r: seq<nat>)
    ensures |r| == |s| && forall i | 0 <= i < |s| :: r[i] == s[i].ordinal
  {
    seq(|s|, i requires 0 <= i < |s| => s[i].ordinal)
  }

  function ExcludedOrdinals(s: seq<Exclusion>): (r: seq<nat>)
    ensures |r| == |s| && forall i | 0 <= i < |s| :: r[i] == s[i].ordinal
  {
    seq(|s|, i requires 0 <= i < |s| => s[i].ordinal)
  }

  /** 1, 2, ..., n. */
  function Ordinals(n: nat): (r: seq<nat>)
    ensures |r| == n && forall i | 0 <= i < n :: r[i] == i + 1
  {
    seq(n, i requires 0 <= i < n => i + 1)
  }

  /** The split recorded for an identity; a later entry hides an earlier one. */
  function SplitIn(membership: seq<Membership>, identity: string): Option<string> {
    if membership == [] then None
    else if membership[|membership| - 1].identity == identity then Some(membership[|membership| - 1].split)
    else SplitIn(membership[..|membership| - 1], identity)
  }

  // ---------------------------------------------------------------- statistics

  function Total(accepted: seq<Accepted>): nat {
    if accepted == [] then 0 else Total(accepted[..|accepted| - 1]) + accepted[|accepted| - 1].tokens
  }

  function Minimum(accepted: seq<Accepted>): nat
    requires accepted != []
  {
    var last := accepted[|accepted| - 1].tokens;
    if |accepted| == 1 then last
    else
      var rest := Minimum(accepted[..|accepted| - 1]);
      if last < rest then last else rest
  }

  function Maximum(accepted: seq<Accepted>): nat
    requires accepted != []
  {
    var last := accepted[|accepted| - 1].tokens;
    if |accepted| == 1 then last
    else
      var rest := Maximum(accepted[..|accepted| - 1]);
      if last > rest then last else rest
  }

  function Duplicates(exclusions: seq<Exclusion>): nat {
    if exclusions == [] then 0
    else
      Duplicates(exclusions[..|exclusions| - 1])
      + (if exclusions[|exclusions| - 1].phase == Deduplication then 1 else 0)
  }

  function CountIn(membership: seq<Membership>, split: string): nat {
    if membership == [] then 0
    else CountIn(membership[..|membership| - 1], split) + (if membership[|membership| - 1].split == split then 1 else 0)
  }

  function SplitCounts(parts: seq<SplitPart>, membership: seq<Membership>): seq<(string, nat)> {
    if parts == [] then []
    else
      SplitCounts(parts[..|parts| - 1], membership)
      + [(parts[|parts| - 1].name, CountIn(membership, parts[|parts| - 1].name))]
  }

  function SumOfCounts(counts: seq<(string, nat)>): nat {
    if counts == [] then 0 else SumOfCounts(counts[..|counts| - 1]) + counts[|counts| - 1].1
  }

  function StatisticsOf(rows: nat, accepted: seq<Accepted>, exclusions: seq<Exclusion>, parts: seq<SplitPart>,
                        membership: seq<Membership>): Statistics
    requires accepted != []
  {
    Statistics(rows, |accepted|, |exclusions|, Duplicates(exclusions), Total(accepted), Minimum(accepted),
               Maximum(accepted), SplitCounts(parts, membership))
  }

  function StatisticsFault(s: Statistics): Option<string> {
    if s.source != s.accepted + s.excluded then Some("dataset row statistics do not balance")
    else if s.duplicates > s.excluded then Some("duplicate count exceeds exclusions")
    else if s.counts == [] then Some("split_counts must be a non-empty tuple")
    else if SumOfCounts(s.counts) != s.accepted then Some("split counts do not match accepted rows")
    else if s.accepted == 0 && (s.total != 0 || s.minimum != 0 || s.maximum != 0) then
      Some("empty token statistics must be zero")
    else if s.accepted != 0 && s.minimum > s.maximum then Some("token statistic bounds are invalid")
    else None
  }

  function ExclusionFault(e: Exclusion): Option<string> {
    if e.ordinal < 1 then Some("source_ordinal")
    else if e.retained.Some? && e.retained.value < 1 then Some("retained_source_ordinal")
    else if e.retained.Some? && e.phase != Deduplication then
      Some("only duplicate receipts may identify a retained row")
    else if e.retained.Some? && e.retained.value >= e.ordinal then
      Some("duplicate retained row must precede the excluded row")
    else None
  }

  // ---------------------------------------------------------------- the record

  /** The previews the record must hold: the first accepted examples, with their splits. */
  function ExpectedPreviews(accepted: seq<Accepted>, membership: seq<Membership>, n: nat): seq<Option<Selection>>
    requires n <= |accepted|
  {
    if n == 0 then []
    else
      var a := accepted[n - 1];
      ExpectedPreviews(accepted, membership, n - 1)
      + [match SplitIn(membership, a.identity)
         case Some(split) => Some(Selection(a.ordinal, a.identity, split, a.tokens))
         case None => None]
  }

  function Expected(previews: seq<Selection>): seq<Option<Selection>> {
    if previews == [] then [] else Expected(previews[..|previews| - 1]) + [Some(previews[|previews| - 1])]
  }

  function Lesser(a: nat, b: nat): nat { if a < b then a else b }

  predicate Configured(rule: SplitRule, split: string) {
    exists i | 0 <= i < |rule.parts| :: rule.parts[i].name == split
  }

  /** Order and coverage: sources in order, membership canonical and covering each example once. */
  function OrderFault(v: Version): Option<string> {
    if Sort(v.accepted, ByAcceptedOrdinal()) != v.accepted then Some("accepted examples must be in source order")
    else if Sort(v.exclusions, ByExclusionOrdinal()) != v.exclusions then Some("exclusions must be in source order")
    else if Sort(v.membership, MembershipLe) != v.membership then Some("split membership order is not canonical")
    else if !Distinct(AcceptedIds(v.accepted)) then Some("accepted rendered identities must be unique")
    else if !Distinct(MembershipIds(v.membership))
            || (set x | x in AcceptedIds(v.accepted)) != (set x | x in MembershipIds(v.membership)) then
      Some("split membership must cover each accepted example exactly once")
    else if exists m | m in v.membership :: !Configured(v.rule, m.split) then
      Some("split membership names are not configured")
    else if v.splitIdentity != (v.rule, v.membership) then Some("split identity mismatch")
    else None
  }

  /** Content: previews, dispositions, retained rows and statistics are those of the accepted rows. */
  function ContentFault(v: Version): Option<string>
    requires v.accepted != []
  {
    if Expected(v.previews) != ExpectedPreviews(v.accepted, v.membership, Lesser(v.previewLimit, |v.accepted|)) then
      Some("preview selections must exactly match the deterministic accepted prefix")
    else if Sort(AcceptedOrdinals(v.accepted) + ExcludedOrdinals(v.exclusions), ByNumber()) != Ordinals(v.rowCount) then
      Some("source row dispositions must be complete and unique")
    else if exists e | e in v.exclusions :: e.retained.Some? && e.retained.value !in AcceptedOrdinals(v.accepted) then
      Some("duplicate receipt retained row is not accepted")
    else
      var expected := StatisticsOf(v.rowCount, v.accepted, v.exclusions, v.rule.parts, v.membership);
      if StatisticsFault(expected).Some? then StatisticsFault(expected)
      else if v.statistics != expected then Some("dataset statistics mismatch")
      else None
  }

  /** The first check that fails, if any. */
  function VersionFault(v: Version): Option<string> {
    if v.accepted == [] then Some("dataset version must accept at least one row")
    else if OrderFault(v).Some? then OrderFault(v)
    else ContentFault(v)
  }
}
