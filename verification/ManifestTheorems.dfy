/** What the manifest diff is for: the constructor's checks are exact, replay does not
    depend on the order of the changes, and a diff between two manifests replays to the second. */
module ManifestTheorems {
  import opened Outcomes
  import opened Sorting
  import opened Keys
  import opened JsonPointer
  import opened ManifestDiff

  // ---------------------------------------------------------------- replay order

  ghost predicate AllValid(cs: seq<Change>) { forall c | c in cs :: ValidChange(c) }

  lemma PathOrder()
    ensures TotalOrder(PathLe)
  {
    TextOrder();
  }

  lemma {:induction false} SwapFirstTwo(root: Json, x: Change, y: Change, rest: seq<Change>)
    requires ValidChange(x) && ValidChange(y) && Independent(x, y)
    ensures SameOutcome(ApplyChanges(root, [x] + ([y] + rest)), ApplyChanges(root, [y] + ([x] + rest)))
  {
    EditsCommute(root, TokensOf(x), x.edit, TokensOf(y), y.edit);
    assert ([x] + ([y] + rest))[1..] == [y] + rest && ([y] + rest)[1..] == rest;
    assert ([y] + ([x] + rest))[1..] == [x] + rest && ([x] + rest)[1..] == rest;
  }

  lemma {:induction false} InsertReplaysFirst(root: Json, x: Change, s: seq<Change>)
    requires ValidChange(x) && AllValid(s) && forall c | c in s :: Independent(x, c)
    ensures SameOutcome(ApplyChanges(root, Insert(x, s, PathLe)), ApplyChanges(root, [x] + s))
    decreases |s|
  {
    if s != [] && !PathLe(x, s[0]) {
      var rest := Insert(x, s[1..], PathLe);
      assert s == [s[0]] + s[1..];
      SwapFirstTwo(root, x, s[0], s[1..]);
      assert ([s[0]] + rest)[1..] == rest;
      assert ([s[0]] + ([x] + s[1..]))[1..] == [x] + s[1..];
      if ApplyChange(root, s[0]).Ok? {
        InsertReplaysFirst(ApplyChange(root, s[0]).value, x, s[1..]);
      }
    }
  }

  /** Re-sorting independent changes by path text does not change what they do. */
  lemma {:induction false} SortKeepsReplay(root: Json, cs: seq<Change>)
    requires AllValid(cs) && PairwiseIndependent(cs)
    ensures SameOutcome(ApplyChanges(root, Sort(cs, PathLe)), ApplyChanges(root, cs))
    decreases |cs|
  {
    if cs != [] {
      var rest := Sort(cs[1..], PathLe);
      SortPermutes(cs[1..], PathLe);
      MemberOfPermutation(cs[1..], rest);
      InsertReplaysFirst(root, cs[0], rest);
      assert ([cs[0]] + rest)[1..] == rest;
      if ApplyChange(root, cs[0]).Ok? {
        SortKeepsReplay(ApplyChange(root, cs[0]).value, cs[1..]);
      }
    }
  }

  lemma {:induction false} IndependentPathsDiffer(cs: seq<Change>)
    requires PairwiseIndependent(cs)
    ensures Separates(cs, PathLe)
  {
    if cs != [] {
      IndependentPathsDiffer(cs[1..]);
      forall x, y | x in cs && y in cs && PathLe(x, y) && PathLe(y, x) ensures x == y {
        TextAntisymmetric(x.path, y.path);
        assert cs == [cs[0]] + cs[1..];
      }
    }
  }

  /** Independent changes replay to one outcome in every order. */
  lemma ReplayOrderIrrelevant(root: Json, a: seq<Change>, b: seq<Change>)
    requires AllValid(a) && PairwiseIndependent(a) && multiset(a) == multiset(b)
    ensures SameOutcome(ApplyChanges(root, a), ApplyChanges(root, b))
  {
    MemberOfPermutation(a, b);
    PairwiseOfPermutation(a, b);
    PathOrder();
    IndependentPathsDiffer(a);
    SortOfPermutation(a, b, PathLe);
    SortKeepsReplay(root, a);
    SortKeepsReplay(root, b);
  }

  // ---------------------------------------------------------------- the constructor's checks

  lemma IndependentByPath(x: Change, y: Change)
    requires ValidChange(x) && ValidChange(y)
    ensures Independent(x, y) <==>
              x.path != y.path && !IsPointerAncestor(x.path, y.path) && !IsPointerAncestor(y.path, x.path)
  {
    var s, t := TokensOf(x), TokensOf(y);
    PointerRoundTrip(x.path, s);
    PointerRoundTrip(y.path, t);
    if |s| == |t| {
      assert s <= t <==> s == t;
    }
  }

  lemma {:induction false} PairwiseByIndex(cs: seq<Change>)
    ensures PairwiseIndependent(cs) <==> forall i, j | 0 <= i < j < |cs| :: Independent(cs[i], cs[j])
  {
    if cs != [] {
      PairwiseByIndex(cs[1..]);
      if PairwiseIndependent(cs) {
        forall i, j | 0 <= i < j < |cs| ensures Independent(cs[i], cs[j]) {
          assert cs[j] == cs[1..][j - 1];
          if i > 0 { assert cs[i] == cs[1..][i - 1]; }
        }
      }
      if forall i, j | 0 <= i < j < |cs| :: Independent(cs[i], cs[j]) {
        forall i, j | 0 <= i < j < |cs[1..]| ensures Independent(cs[1..][i], cs[1..][j]) {
          assert cs[1..][i] == cs[i + 1] && cs[1..][j] == cs[j + 1];
        }
        forall c | c in cs[1..] ensures Independent(cs[0], c) {
          var j :| 0 <= j < |cs[1..]| && cs[1..][j] == c;
          assert c == cs[j + 1];
        }
      }
    }
  }

  /** Independence of a list is a matter of its contents, not of their order. */
  lemma {:induction false} PairwiseByContent(cs: seq<Change>)
    ensures PairwiseIndependent(cs) <==>
              (forall c | c in cs :: multiset(cs)[c] == 1)
              && (forall x, y | x in cs && y in cs && x != y :: Independent(x, y))
  {
    if cs != [] {
      var head, rest := cs[0], cs[1..];
      PairwiseByContent(rest);
      assert cs == [head] + rest;
      assert multiset(cs) == multiset{head} + multiset(rest);
      assert forall c :: c in rest <==> multiset(rest)[c] > 0;
      if PairwiseIndependent(cs) {
        assert head !in rest;
      }
      if forall c | c in cs :: multiset(cs)[c] == 1 {
        assert multiset(cs)[head] == 1;
        assert head !in rest;
        forall c | c in rest ensures multiset(rest)[c] == 1 {
          assert multiset(cs)[c] == 1;
        }
      }
    }
  }

  lemma PairwiseOfPermutation(a: seq<Change>, b: seq<Change>)
    requires multiset(a) == multiset(b)
    ensures PairwiseIndependent(a) <==> PairwiseIndependent(b)
  {
    MemberOfPermutation(a, b);
    PairwiseByContent(a);
    PairwiseByContent(b);
  }

  /** After the sort, looking only forward finds every duplicate and every overlap. */
  lemma ForwardCheckComplete(ordered: seq<Change>)
    requires AllValid(ordered) && Sorted(ordered, PathLe)
    ensures PathsUnique(ordered) && NoForwardOverlap(ordered) <==> PairwiseIndependent(ordered)
  {
    PairwiseByIndex(ordered);
    forall i, j | 0 <= i < j < |ordered|
      ensures Independent(ordered[i], ordered[j]) <==>
                ordered[i].path != ordered[j].path && !IsPointerAncestor(ordered[i].path, ordered[j].path)
    {
      var x, y := ordered[i], ordered[j];
      IndependentByPath(x, y);
      assert PathLe(x, y);
      if IsPointerAncestor(y.path, x.path) {
        AncestorSortsEarlier(y.path, x.path);
        TextAntisymmetric(x.path, y.path);
      }
    }
  }

  /** The constructor accepts exactly the non-empty lists of valid, pairwise independent changes
      between different manifests, and stores them sorted. */
  lemma DiffAcceptance(parentIdentity: Json, derivedIdentity: Json, cs: seq<Change>)
    ensures MakeDiff(parentIdentity, derivedIdentity, cs).Ok? <==>
              parentIdentity != derivedIdentity && cs != [] && AllValid(cs) && PairwiseIndependent(cs)
    ensures MakeDiff(parentIdentity, derivedIdentity, cs).Ok? ==>
              MakeDiff(parentIdentity, derivedIdentity, cs).value ==
              Diff(parentIdentity, derivedIdentity, Sort(cs, PathLe))
  {
    if AllValid(cs) {
      var ordered := Sort(cs, PathLe);
      PathOrder();
      SortSorted(cs, PathLe);
      SortPermutes(cs, PathLe);
      MemberOfPermutation(cs, ordered);
      ForwardCheckComplete(ordered);
      PairwiseOfPermutation(cs, ordered);
    }
  }
}
