/** Evaluation suites as immutable revisions, and the validator that accepts a set of
    stored revisions exactly when they form one linear chain. */
module SuiteLineage {
  import opened Outcomes
  import opened Sorting

  datatype SuiteKind = Development | Regression | Confirmation

  datatype SuiteState = Sealed | Unsealed | Modified | Contaminated | Retired

  /** A record reference: the logical id and the content identity. */
  datatype Ref = Ref(logicalId: string, identity: nat)

  /** Case membership: the content of each case id. */
  type Cases = map<string, nat>

  datatype Suite = Suite(
    suiteId: string,
    kind: SuiteKind,
    state: SuiteState,
    cases: Cases,
    evaluators: seq<string>,
    prior: Option<Ref>)

  const CONFLICT := "evaluation_suite_revision_conflict"
  const STORE_MISMATCH := "evaluation_suite_store_mismatch"

  datatype Lineage = Lineage(byReference: map<Ref, Suite>, successors: map<Ref, Suite>, head: Suite)

  // ---------------------------------------------------------------- what a lineage is

  ghost predicate DistinctRefs(revs: seq<Suite>, refOf: Suite -> Ref) {
    forall i, j | 0 <= i < j < |revs| :: refOf(revs[i]) != refOf(revs[j])
  }

  /** One root, each later revision naming its predecessor, one kind, no revision twice. */
  ghost predicate Chain(c: seq<Suite>, refOf: Suite -> Ref) {
    && c != []
    && c[0].prior == None
    && (forall i, j | 0 <= i < |c| && 0 <= j < |c| && j == i + 1 :: c[j].prior == Some(refOf(c[i])))
    && (forall i | 0 <= i < |c| :: c[i].kind == c[0].kind)
    && DistinctRefs(c, refOf)
  }

  ghost predicate ChainOf(c: seq<Suite>, revs: seq<Suite>, refOf: Suite -> Ref) {
    Chain(c, refOf) && multiset(c) == multiset(revs)
  }

  // ---------------------------------------------------------------- tables

  function ByReference(revs: seq<Suite>, refOf: Suite -> Ref): map<Ref, Suite> {
    if revs == [] then map[]
    else
      var last := revs[|revs| - 1];
      ByReference(revs[..|revs| - 1], refOf)[refOf(last) := last]
  }

  function Roots(revs: seq<Suite>): seq<Suite> {
    if revs == [] then []
    else (if revs[0].prior == None then [revs[0]] else []) + Roots(revs[1..])
  }

  lemma {:induction false} RootsAre(revs: seq<Suite>)
    ensures forall s :: s in Roots(revs) <==> s in revs && s.prior == None
    ensures forall s | s in Roots(revs) :: multiset(Roots(revs))[s] == multiset(revs)[s]
  {
    if revs != [] {
      RootsAre(revs[1..]);
      assert revs == [revs[0]] + revs[1..];
      var head: seq<Suite> := if revs[0].prior == None then [revs[0]] else [];
      assert Roots(revs) == head + Roots(revs[1..]);
      assert multiset(Roots(revs)) == multiset(head) + multiset(Roots(revs[1..]));
      assert multiset(revs) == multiset{revs[0]} + multiset(revs[1..]);
      forall s | s in Roots(revs) ensures multiset(Roots(revs))[s] == multiset(revs)[s] {
        if s !in Roots(revs[1..]) {
          assert s !in revs[1..];
        }
      }
    }
  }

  ghost function Refs(revs: seq<Suite>, refOf: Suite -> Ref): set<Ref> {
    set s | s in revs :: refOf(s)
  }

  lemma {:induction false} ByReferenceFacts(revs: seq<Suite>, refOf: Suite -> Ref)
    ensures ByReference(revs, refOf).Keys == Refs(revs, refOf)
    ensures forall r | r in ByReference(revs, refOf) ::
              ByReference(revs, refOf)[r] in revs && refOf(ByReference(revs, refOf)[r]) == r
  {
    if revs != [] {
      var rest, last := revs[..|revs| - 1], revs[|revs| - 1];
      ByReferenceFacts(rest, refOf);
      assert revs == rest + [last];
      assert Refs(revs, refOf) == Refs(rest, refOf) + {refOf(last)};
    }
  }

  /** There are as many references as revisions exactly when no two revisions share one. */
  lemma CountRefs(revs: seq<Suite>, refOf: Suite -> Ref)
    ensures |Refs(revs, refOf)| <= |revs|
    ensures |Refs(revs, refOf)| == |revs| <==> DistinctRefs(revs, refOf)
  {
    CountImages(revs, refOf);
    assert Refs(revs, refOf) == Images(revs, refOf);
  }

  // ---------------------------------------------------------------- facts about chains

  /** A permutation has the same references, so it repeats one exactly when the original does. */
  lemma DistinctOfPermutation(a: seq<Suite>, b: seq<Suite>, refOf: Suite -> Ref)
    requires multiset(a) == multiset(b)
    ensures Refs(a, refOf) == Refs(b, refOf)
    ensures DistinctRefs(a, refOf) <==> DistinctRefs(b, refOf)
  {
    MemberOfPermutation(a, b);
    CountRefs(a, refOf);
    CountRefs(b, refOf);
    assert Refs(a, refOf) == Refs(b, refOf);
  }

  lemma SameRefSameRevision(c: seq<Suite>, refOf: Suite -> Ref, s: Suite, t: Suite)
    requires DistinctRefs(c, refOf) && s in c && t in c && refOf(s) == refOf(t)
    ensures s == t
  {
    var i :| 0 <= i < |c| && c[i] == s;
    var j :| 0 <= j < |c| && c[j] == t;
    if i != j {
      assert refOf(c[i]) != refOf(c[j]);
    }
  }

  /** Distinct revisions drawn from `revs`, as many as there are, are all of them. */
  lemma FullWalk(walk: seq<Suite>, revs: seq<Suite>, refOf: Suite -> Ref)
    requires DistinctRefs(walk, refOf) && |walk| == |revs| && forall s | s in walk :: s in revs
    ensures multiset(walk) == multiset(revs)
  {
    OnceEach(walk, refOf);
    DistinctCover(walk, revs);
  }

  lemma OnceEach(walk: seq<Suite>, refOf: Suite -> Ref)
    requires DistinctRefs(walk, refOf)
    ensures Distinct(walk)
  {
    forall i, j | 0 <= i < j < |walk| ensures walk[i] != walk[j] {
      assert refOf(walk[i]) != refOf(walk[j]);
    }
  }

  // ---------------------------------------------------------------- the tables of a chain

  /** `successors` maps exactly the named predecessors, each to the revision that names it. */
  ghost predicate SuccessorsOf(successors: map<Ref, Suite>, revs: seq<Suite>) {
    && (forall r | r in successors :: successors[r] in revs && successors[r].prior == Some(r))
    && (forall s | s in revs && s.prior.Some? :: s.prior.value in successors)
  }

  /** In a chain the revision after `c[i]` is its successor, and the last one has none. */
  lemma ChainSuccessors(c: seq<Suite>, refOf: Suite -> Ref, successors: map<Ref, Suite>)
    requires Chain(c, refOf) && SuccessorsOf(successors, c)
    ensures forall i | 0 <= i < |c| - 1 :: refOf(c[i]) in successors && successors[refOf(c[i])] == c[i + 1]
    ensures refOf(c[|c| - 1]) !in successors
    ensures forall r | r in successors :: exists i :: 0 <= i < |c| - 1 && r == refOf(c[i])
  {
    forall i | 0 <= i < |c| - 1 ensures refOf(c[i]) in successors && successors[refOf(c[i])] == c[i + 1] {
      assert c[i + 1].prior == Some(refOf(c[i]));
      var s := successors[refOf(c[i])];
      var j :| 0 <= j < |c| && c[j] == s;
      assert j > 0 && refOf(c[j - 1]) == refOf(c[i]);
      assert j - 1 == i;
    }
    forall r | r in successors ensures exists i :: 0 <= i < |c| - 1 && r == refOf(c[i]) {
      var j :| 0 <= j < |c| && c[j] == successors[r];
      assert j > 0 && c[j].prior == Some(refOf(c[j - 1]));
    }
  }

  /** What the validator checks before it walks: distinct references, one root, every prior known,
      of the root's kind and named once. Detached cycles satisfy all of it. */
  ghost predicate Linkable(revs: seq<Suite>, refOf: Suite -> Ref) {
    && DistinctRefs(revs, refOf)
    && |Roots(revs)| == 1
    && (forall s | s in revs && s.prior.Some? :: s.prior.value in Refs(revs, refOf) && s.kind == Roots(revs)[0].kind)
    && (forall i, j | 0 <= i < j < |revs| && revs[i].prior.Some? :: revs[i].prior != revs[j].prior)
  }

  ghost function Heads(revs: seq<Suite>, refOf: Suite -> Ref): set<Ref> {
    set s | s in revs && (forall t | t in revs :: t.prior != Some(refOf(s))) :: refOf(s)
  }

  lemma PriorsNamedOnce(c: seq<Suite>, revs: seq<Suite>, refOf: Suite -> Ref)
    requires ChainOf(c, revs, refOf)
    ensures DistinctRefs(revs, refOf)
    ensures forall i, j | 0 <= i < j < |revs| && revs[i].prior.Some? :: revs[i].prior != revs[j].prior
  {
    DistinctOfPermutation(c, revs, refOf);
    MemberOfPermutation(c, revs);
    forall i, j | 0 <= i < j < |revs| && revs[i].prior.Some? ensures revs[i].prior != revs[j].prior {
      assert revs[i] in c && revs[j] in c && refOf(revs[i]) != refOf(revs[j]);
      var k :| 0 <= k < |c| && c[k] == revs[i];
      var l :| 0 <= l < |c| && c[l] == revs[j];
      assert k > 0 && revs[i].prior == Some(refOf(c[k - 1]));
      assert l > 0 ==> revs[j].prior == Some(refOf(c[l - 1]));
      assert k - 1 != l - 1;
    }
  }

  lemma ChainIsLinkable(c: seq<Suite>, revs: seq<Suite>, refOf: Suite -> Ref)
    requires ChainOf(c, revs, refOf)
    ensures Linkable(revs, refOf) && Roots(revs) == [c[0]]
  {
    MemberOfPermutation(c, revs);
    PriorsNamedOnce(c, revs, refOf);
    RootsAre(revs);
    OnceEach(revs, refOf);
    var roots := Roots(revs);
    assert c[0] in c && c[0] in roots;
    forall s | s in roots ensures s == c[0] {
      var k :| 0 <= k < |c| && c[k] == s;
      LaterHasPrior(c, refOf, k);
    }
    OneOccurrence(revs, c[0]);
    assert |roots| == multiset(roots)[c[0]] by { AllEqualCount(roots, c[0]); }
    forall s | s in revs && s.prior.Some? ensures s.prior.value in Refs(revs, refOf) && s.kind == c[0].kind {
      var k :| 0 <= k < |c| && c[k] == s;
      assert c[k - 1] in revs;
    }
  }

  lemma {:induction false} OneOccurrence(revs: seq<Suite>, s: Suite)
    requires s in revs && forall i, j | 0 <= i < j < |revs| :: revs[i] != revs[j]
    ensures multiset(revs)[s] == 1
  {
    assert revs == [revs[0]] + revs[1..];
    if s == revs[0] {
      assert s !in revs[1..];
    } else {
      OneOccurrence(revs[1..], s);
    }
  }

  lemma {:induction false} AllEqualCount(xs: seq<Suite>, s: Suite)
    requires forall i | 0 <= i < |xs| :: xs[i] == s
    ensures |xs| == multiset(xs)[s]
  {
    if xs != [] {
      assert xs == [xs[0]] + xs[1..];
      assert multiset(xs) == multiset{s} + multiset(xs[1..]);
      AllEqualCount(xs[1..], s);
    }
  }

  lemma LaterHasPrior(c: seq<Suite>, refOf: Suite -> Ref, k: nat)
    requires Chain(c, refOf) && k < |c|
    ensures c[k].prior == None <==> k == 0
  {
    if k > 0 {
      assert c[k].prior == Some(refOf(c[k - 1]));
    }
  }

  lemma EarlierIsNamed(c: seq<Suite>, refOf: Suite -> Ref, k: nat)
    requires Chain(c, refOf) && k < |c|
    ensures k < |c| - 1 ==> exists t :: t in c && t.prior == Some(refOf(c[k]))
  {
    if k < |c| - 1 {
      assert c[k + 1] in c && c[k + 1].prior == Some(refOf(c[k]));
    }
  }

  lemma ChainHead(c: seq<Suite>, revs: seq<Suite>, refOf: Suite -> Ref)
    requires ChainOf(c, revs, refOf)
    ensures Heads(revs, refOf) == {refOf(c[|c| - 1])}
  {
    MemberOfPermutation(c, revs);
    var last := c[|c| - 1];
    LastIsUnnamed(c, refOf);
    assert last in c && refOf(last) in Heads(revs, refOf);
    forall r | r in Heads(revs, refOf) ensures r == refOf(last) {
      var s :| s in revs && (forall t | t in revs :: t.prior != Some(refOf(s))) && r == refOf(s);
      OnlyLastIsUnnamed(c, refOf, s);
    }
  }

  lemma OnlyLastIsUnnamed(c: seq<Suite>, refOf: Suite -> Ref, s: Suite)
    requires Chain(c, refOf) && s in c && forall t | t in c :: t.prior != Some(refOf(s))
    ensures s == c[|c| - 1]
  {
    var k :| 0 <= k < |c| && c[k] == s;
    EarlierIsNamed(c, refOf, k);
  }

  lemma LastIsUnnamed(c: seq<Suite>, refOf: Suite -> Ref)
    requires Chain(c, refOf)
    ensures forall t | t in c :: t.prior != Some(refOf(c[|c| - 1]))
  {
    forall t | t in c ensures t.prior != Some(refOf(c[|c| - 1])) {
      var k :| 0 <= k < |c| && c[k] == t;
      if k > 0 {
        assert refOf(c[k - 1]) != refOf(c[|c| - 1]);
      }
    }
  }

  // ---------------------------------------------------------------- the validator

  ghost predicate Linked(walk: seq<Suite>, cursor: Suite, refOf: Suite -> Ref) {
    && (walk == [] ==> cursor.prior == None)
    && (walk != [] ==> walk[0].prior == None && cursor.prior == Some(refOf(walk[|walk| - 1])))
    && (forall i, j | 0 <= i < |walk| && 0 <= j < |walk| && j == i + 1 :: walk[j].prior == Some(refOf(walk[i])))
  }

  /** The successor table, unless a prior is unknown, names the wrong kind, or is named twice. */
  method LinkSuccessors(revs: seq<Suite>, known: set<Ref>, kind: SuiteKind) returns (r: Option<map<Ref, Suite>>)
    ensures r.Some? ==> SuccessorsOf(r.value, revs)
    ensures r.Some? <==>
              && (forall s | s in revs && s.prior.Some? :: s.prior.value in known && s.kind == kind)
              && (forall i, j | 0 <= i < j < |revs| && revs[i].prior.Some? :: revs[i].prior != revs[j].prior)
  {
    var successors := map[];
    for n := 0 to |revs|
      invariant SuccessorsOf(successors, revs[..n])
      invariant forall s | s in revs[..n] && s.prior.Some? :: s.prior.value in known && s.kind == kind
      invariant forall i, j | 0 <= i < j < n && revs[i].prior.Some? :: revs[i].prior != revs[j].prior
    {
      var revision := revs[n];
      assert revs[..n + 1] == revs[..n] + [revision];
      if revision.prior == None {
        continue;
      }
      var prior := revision.prior.value;
      if prior !in known || revision.kind != kind {
        assert revision in revs;
        return None;
      }
      if prior in successors {
        var i :| 0 <= i < n && revs[i] == successors[prior];
        assert revs[i].prior == revs[n].prior;
        return None;
      }
      successors := successors[prior := revision];
    }
    assert revs[..|revs|] == revs;
    return Some(successors);
  }

  /** A walk from a root: every step names the one before it, and no reference repeats. */
  ghost predicate Walk(walk: seq<Suite>, revs: seq<Suite>, refOf: Suite -> Ref) {
    && (forall i | 0 <= i < |walk| :: walk[i] in revs)
    && (walk != [] ==> walk[0].prior == None)
    && (forall i, j | 0 <= i < |walk| && 0 <= j < |walk| && j == i + 1 :: walk[j].prior == Some(refOf(walk[i])))
    && DistinctRefs(walk, refOf)
  }

  lemma ExtendWalk(walk: seq<Suite>, cursor: Suite, revs: seq<Suite>, refOf: Suite -> Ref)
    requires DistinctRefs(revs, refOf) && Walk(walk, revs, refOf) && cursor in revs
    requires cursor.prior == if walk == [] then None else Some(refOf(walk[|walk| - 1]))
    ensures refOf(cursor) !in Refs(walk, refOf)
    ensures Walk(walk + [cursor], revs, refOf)
    ensures Refs(walk + [cursor], refOf) == Refs(walk, refOf) + {refOf(cursor)}
  {
    forall j | 0 <= j < |walk| ensures refOf(walk[j]) != refOf(cursor) {
      WalkPrior(walk, revs, refOf, j);
      if refOf(walk[j]) == refOf(cursor) {
        SameRefSameRevision(revs, refOf, walk[j], cursor);
        assert false;
      }
    }
  }

  lemma WalkPrior(walk: seq<Suite>, revs: seq<Suite>, refOf: Suite -> Ref, j: nat)
    requires Walk(walk, revs, refOf) && j < |walk|
    ensures walk[j].prior == if j == 0 then None else Some(refOf(walk[j - 1]))
    ensures j > 0 ==> refOf(walk[j - 1]) != refOf(walk[|walk| - 1])
  {
  }

  /** The references reached by following successors from the root until there is none. The walk
      never meets a visited reference again, so it always ends there. */
  method WalkChain(revs: seq<Suite>, refOf: Suite -> Ref, root: Suite, successors: map<Ref, Suite>)
    returns (visited: set<Ref>, cursor: Suite, ghost walk: seq<Suite>)
    requires DistinctRefs(revs, refOf) && SuccessorsOf(successors, revs)
    requires root in revs && root.prior == None
    ensures visited == Refs(walk, refOf) && Walk(walk, revs, refOf)
    ensures walk != [] && walk[0] == root && cursor == walk[|walk| - 1]
    ensures refOf(cursor) !in successors
  {
    visited, cursor, walk := {}, root, [];
    while refOf(cursor) !in visited
      invariant visited == Refs(walk, refOf) && Walk(walk, revs, refOf)
      invariant cursor in revs && refOf(cursor) !in visited
      invariant cursor.prior == if walk == [] then None else Some(refOf(walk[|walk| - 1]))
      invariant (walk + [cursor])[0] == root
      decreases Refs(revs, refOf) - visited
    {
      var cursorReference := refOf(cursor);
      ExtendWalk(walk, cursor, revs, refOf);
      assert cursorReference in Refs(revs, refOf) - visited;
      visited := visited + {cursorReference};
      walk := walk + [cursor];
      if cursorReference !in successors {
        break;
      }
      cursor := successors[cursorReference];
      ExtendWalk(walk, cursor, revs, refOf);
    }
  }

  /** A chain and a maximal walk from its root are the same sequence. */
  lemma WalkFollowsChain(c: seq<Suite>, walk: seq<Suite>, revs: seq<Suite>, refOf: Suite -> Ref,
                         successors: map<Ref, Suite>)
    requires ChainOf(c, revs, refOf) && SuccessorsOf(successors, revs)
    requires Walk(walk, revs, refOf) && walk != [] && refOf(walk[|walk| - 1]) !in successors
    ensures walk == c
  {
    MemberOfPermutation(c, revs);
    CountRefs(walk, refOf);
    assert Refs(walk, refOf) <= Refs(c, refOf);
    WalkPrefix(c, walk, revs, refOf, |walk|);
    EarlierIsNamed(c, refOf, |walk| - 1);
  }

  lemma {:induction false} WalkPrefix(c: seq<Suite>, walk: seq<Suite>, revs: seq<Suite>, refOf: Suite -> Ref, n: nat)
    requires ChainOf(c, revs, refOf) && Walk(walk, revs, refOf) && n <= |walk|
    ensures n <= |c| && walk[..n] == c[..n]
  {
    if n > 0 {
      WalkPrefix(c, walk, revs, refOf, n - 1);
      MemberOfPermutation(c, revs);
      WalkPrior(walk, revs, refOf, n - 1);
      var k :| 0 <= k < |c| && c[k] == walk[n - 1];
      LaterHasPrior(c, refOf, k);
      if n > 1 {
        assert walk[n - 2] == walk[..n - 1][n - 2] == c[n - 2];
        assert c[k].prior == Some(refOf(c[k - 1])) && refOf(c[k - 1]) == refOf(c[n - 2]);
        assert k - 1 == n - 2;
      }
      assert walk[..n] == walk[..n - 1] + [walk[n - 1]];
      assert c[..n] == c[..n - 1] + [c[n - 1]];
    }
  }

  /** A walk that visits every revision is the chain. */
  lemma FullWalkIsChain(walk: seq<Suite>, revs: seq<Suite>, refOf: Suite -> Ref)
    requires Linkable(revs, refOf) && Walk(walk, revs, refOf) && walk != [] && |walk| == |revs|
    requires walk[0] == Roots(revs)[0]
    ensures ChainOf(walk, revs, refOf)
  {
    FullWalk(walk, revs, refOf);
    forall i | 0 <= i < |walk| ensures walk[i].kind == walk[0].kind {
      WalkPrior(walk, revs, refOf, i);
    }
  }

  lemma HeadsFromTables(revs: seq<Suite>, refOf: Suite -> Ref, successors: map<Ref, Suite>)
    requires SuccessorsOf(successors, revs)
    ensures Refs(revs, refOf) - successors.Keys == Heads(revs, refOf)
  {
    forall r | r in Refs(revs, refOf) - successors.Keys ensures r in Heads(revs, refOf) {
      var s :| s in revs && refOf(s) == r;
      forall t | t in revs ensures t.prior != Some(refOf(s)) {
        assert t.prior.Some? ==> t.prior.value in successors;
      }
    }
  }

  /** The revisions can be ordered as one chain. */
  ghost predicate IsLineage(revs: seq<Suite>, refOf: Suite -> Ref) {
    exists c :: ChainOf(c, revs, refOf)
  }

  lemma LineageIsLinkable(revs: seq<Suite>, refOf: Suite -> Ref)
    ensures IsLineage(revs, refOf) ==> Linkable(revs, refOf) && |Heads(revs, refOf)| == 1
  {
    forall c | ChainOf(c, revs, refOf) ensures Linkable(revs, refOf) && |Heads(revs, refOf)| == 1 {
      ChainIsLinkable(c, revs, refOf);
      ChainHead(c, revs, refOf);
    }
  }

  /** Once the local checks pass, the walk from the root decides. */
  lemma WalkDecides(revs: seq<Suite>, refOf: Suite -> Ref, walk: seq<Suite>, successors: map<Ref, Suite>, head: Suite)
    requires Linkable(revs, refOf) && SuccessorsOf(successors, revs)
    requires Walk(walk, revs, refOf) && walk != [] && walk[0] == Roots(revs)[0]
    requires refOf(walk[|walk| - 1]) !in successors
    requires head in revs && Heads(revs, refOf) == {refOf(head)}
    ensures IsLineage(revs, refOf) <==> |walk| == |revs| && walk[|walk| - 1] == head
    ensures forall c | ChainOf(c, revs, refOf) :: c[|c| - 1] == head
  {
    forall c | ChainOf(c, revs, refOf)
      ensures |walk| == |revs| && walk[|walk| - 1] == head && c[|c| - 1] == head
    {
      WalkFollowsChain(c, walk, revs, refOf, successors);
      MemberOfPermutation(c, revs);
      ChainHead(c, revs, refOf);
      SameRefSameRevision(revs, refOf, head, c[|c| - 1]);
    }
    if |walk| == |revs| {
      FullWalkIsChain(walk, revs, refOf);
    }
  }

  /** The checks that come before the walk. */
  method CheckLinks(revs: seq<Suite>, refOf: Suite -> Ref, byReference: map<Ref, Suite>)
    returns (root: Suite, successors: Option<map<Ref, Suite>>)
    requires revs != [] && byReference == ByReference(revs, refOf)
    ensures successors.Some? <==> Linkable(revs, refOf)
    ensures successors.Some? ==> SuccessorsOf(successors.value, revs) && root == Roots(revs)[0]
  {
    root := revs[0];
    var roots := Roots(revs);
    ByReferenceFacts(revs, refOf);
    CountRefs(revs, refOf);
    if |byReference.Keys| != |revs| || |roots| != 1 {
      return root, None;
    }
    root := roots[0];
    successors := LinkSuccessors(revs, byReference.Keys, root.kind);
  }

  /** Accepts exactly the non-empty revision sets that form one chain, whatever the order they are
      stored in, and returns that chain's tables and its end. */
  method ValidatedLineage(revs: seq<Suite>, refOf: Suite -> Ref) returns (r: Result<Lineage>)
    ensures r.Ok? <==> IsLineage(revs, refOf)
    ensures r.Ok? ==> r.value.byReference == ByReference(revs, refOf) && SuccessorsOf(r.value.successors, revs)
    ensures r.Ok? ==> forall c | ChainOf(c, revs, refOf) :: r.value.head == c[|c| - 1]
    ensures r.Err? ==> r.code == if revs == [] then STORE_MISMATCH else CONFLICT
  {
    if revs == [] {
      return Err(STORE_MISMATCH);
    }
    LineageIsLinkable(revs, refOf);
    var byReference := ByReference(revs, refOf);
    ByReferenceFacts(revs, refOf);
    var root, linked := CheckLinks(revs, refOf, byReference);
    if linked == None {
      return Err(CONFLICT);
    }
    var successors := linked.value;
    HeadsFromTables(revs, refOf, successors);
    var heads := byReference.Keys - successors.Keys;
    if |heads| != 1 {
      return Err(CONFLICT);
    }
    var headRef :| headRef in heads;
    var head := byReference[headRef];
    OnlyElement(heads, headRef);
    RootsAre(revs);
    assert root in Roots(revs);
    var visited, cursor, walk := WalkChain(revs, refOf, root, successors);
    CountRefs(walk, refOf);
    WalkDecides(revs, refOf, walk, successors, head);
    if |visited| != |revs| || cursor != head {
      return Err(CONFLICT);
    }
    return Ok(Lineage(byReference, successors, head));
  }

  lemma OnlyElement(s: set<Ref>, x: Ref)
    requires x in s && |s| == 1
    ensures s == {x}
  {
    assert |s - {x}| == 0;
  }

  // ---------------------------------------------------------------- which check does what

  /** The single-head check adds nothing: it follows from the others by counting. */
  lemma SingleHeadByCounting(revs: seq<Suite>, refOf: Suite -> Ref)
    requires Linkable(revs, refOf)
    ensures |Heads(revs, refOf)| == 1
  {
    var named := Named(revs);
    NamedCount(revs);
    CountRefs(revs, refOf);
    forall r | r in named ensures r in Refs(revs, refOf) {
      var s :| s in revs && s.prior == Some(r);
    }
    assert Heads(revs, refOf) == Refs(revs, refOf) - named by {
      forall r | r in Refs(revs, refOf) - named ensures r in Heads(revs, refOf) {
        var s :| s in revs && refOf(s) == r;
        forall t | t in revs ensures t.prior != Some(refOf(s)) {
          assert t.prior.Some? ==> t.prior.value in named;
        }
      }
    }
    assert |Refs(revs, refOf) - named| == |Refs(revs, refOf)| - |named|;
  }

  /** The references some revision names as its prior. */
  ghost function Named(revs: seq<Suite>): set<Ref> {
    set s | s in revs && s.prior.Some? :: s.prior.value
  }

  lemma {:induction false} NamedCount(revs: seq<Suite>)
    requires forall i, j | 0 <= i < j < |revs| && revs[i].prior.Some? :: revs[i].prior != revs[j].prior
    ensures |Named(revs)| == |revs| - |Roots(revs)|
  {
    if revs != [] {
      var first, rest := revs[0], revs[1..];
      assert revs == [first] + rest;
      NamedCount(rest);
      if first.prior.Some? {
        assert Named(revs) == Named(rest) + {first.prior.value};
        assert first.prior.value !in Named(rest) by {
          forall s | s in rest && s.prior.Some? ensures s.prior.value != first.prior.value {
            var k :| 0 <= k < |rest| && rest[k] == s;
            assert revs[k + 1].prior != revs[0].prior;
          }
        }
      } else {
        assert Named(revs) == Named(rest);
      }
    }
  }

  lemma ChainStart(c: seq<Suite>, revs: seq<Suite>, refOf: Suite -> Ref)
    requires ChainOf(c, revs, refOf)
    ensures |revs| >= 2 ==>
              exists s, t :: s in revs && t in revs && s.prior == None && t.prior == Some(refOf(s))
  {
    MemberOfPermutation(c, revs);
    if |c| >= 2 {
      assert c[0] in revs && c[1] in revs && c[1].prior == Some(refOf(c[0]));
    }
  }

  /** A root beside two revisions that name each other. */
  function DetachedCycle(): seq<Suite> {
    [ Suite("s", Confirmation, Unsealed, map["c" := 0], [], None),
      Suite("s", Confirmation, Modified, map["c" := 1], ["e"], Some(Ref("s", 2))),
      Suite("s", Confirmation, Modified, map["c" := 2], ["e", "f"], Some(Ref("s", 1))) ]
  }

  /** A reference function that tells the three apart. */
  function ByEvaluators(s: Suite): Ref { Ref(s.suiteId, |s.evaluators|) }

  lemma {:induction false} NoRoots(revs: seq<Suite>)
    requires forall s | s in revs :: s.prior.Some?
    ensures Roots(revs) == []
  {
    if revs != [] {
      assert revs[0] in revs && forall s | s in revs[1..] :: s in revs;
      NoRoots(revs[1..]);
    }
  }

  lemma DetachedCycleLinkable()
    ensures Linkable(DetachedCycle(), ByEvaluators)
  {
    var revs := DetachedCycle();
    NoRoots(revs[1..]);
    assert ByEvaluators(revs[0]) == Ref("s", 0);
    assert ByEvaluators(revs[1]) == Ref("s", 1);
    assert ByEvaluators(revs[2]) == Ref("s", 2);
    assert revs[1] in revs && revs[2] in revs;
  }

  /** It passes every check but the walk, yet it is no chain: only the walk rules it out. */
  lemma OnlyTheWalkRejectsCycles()
    ensures Linkable(DetachedCycle(), ByEvaluators) && |Heads(DetachedCycle(), ByEvaluators)| == 1
    ensures !IsLineage(DetachedCycle(), ByEvaluators)
  {
    var revs := DetachedCycle();
    DetachedCycleLinkable();
    SingleHeadByCounting(revs, ByEvaluators);
    assert forall s | s in revs && s.prior == None :: s == revs[0];
    forall t | t in revs ensures t.prior != Some(ByEvaluators(revs[0])) {
      assert t == revs[0] || t == revs[1] || t == revs[2];
    }
    forall c | ChainOf(c, revs, ByEvaluators) ensures false {
      ChainStart(c, revs, ByEvaluators);
    }
  }
}
