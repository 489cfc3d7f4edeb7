/** Stable insertion sort over an explicit order, the model of Python's `sorted`,
    together with the facts every caller needs: it permutes, it sorts, and on
    elements the order tells apart its result does not depend on the input order. */
module Sorting {

  ghost predicate TotalOrder<T(!new)>(le: (T, T) -> bool) {
    && (forall a, b :: le(a, b) || le(b, a))
    && (forall a, b, c :: le(a, b) && le(b, c) ==> le(a, c))
  }

  ghost predicate Sorted<T>(s: seq<T>, le: (T, T) -> bool) {
    forall i, j | 0 <= i < j < |s| :: le(s[i], s[j])
  }

  /** The order tells any two different elements of `s` apart. */
  ghost predicate Separates<T>(s: seq<T>, le: (T, T) -> bool) {
    forall x, y | x in s && y in s && le(x, y) && le(y, x) :: x == y
  }

  function Insert<T>(x: T, s: seq<T>, le: (T, T) -> bool): seq<T> {
    if s == [] || le(x, s[0]) then [x] + s else [s[0]] + Insert(x, s[1..], le)
  }

  function Sort<T>(s: seq<T>, le: (T, T) -> bool): seq<T> {
    if s == [] then [] else Insert(s[0], Sort(s[1..], le), le)
  }

  /** The elements that pass a test, in order: a comprehension with a condition. */
  function Filter<T>(s: seq<T>, keep: T -> bool): seq<T> {
    if s == [] then [] else (if keep(s[0]) then [s[0]] else []) + Filter(s[1..], keep)
  }

  lemma {:induction false} FilterIs<T>(s: seq<T>, keep: T -> bool)
    ensures forall x :: x in Filter(s, keep) <==> x in s && keep(x)
    ensures |Filter(s, keep)| <= |s|
  {
    if s != [] {
      FilterIs(s[1..], keep);
      assert s == [s[0]] + s[1..];
    }
  }

  /** Filtering what is left after one more element, with what was kept so far in front. */
  lemma FilterStep<T>(s: seq<T>, keep: T -> bool, n: nat, done: seq<T>)
    requires n < |s|
    ensures done + Filter(s[n..], keep) == (if keep(s[n]) then done + [s[n]] else done) + Filter(s[n + 1..], keep)
  {
    assert s[n..][0] == s[n] && s[n..][1..] == s[n + 1..];
  }

  lemma {:induction false} InsertPermutes<T>(x: T, s: seq<T>, le: (T, T) -> bool)
    ensures multiset(Insert(x, s, le)) == multiset{x} + multiset(s)
    ensures |Insert(x, s, le)| == |s| + 1
  {
    if s != [] && !le(x, s[0]) {
      InsertPermutes(x, s[1..], le);
      assert s == [s[0]] + s[1..];
    }
  }

  lemma {:induction false} SortPermutes<T>(s: seq<T>, le: (T, T) -> bool)
    ensures multiset(Sort(s, le)) == multiset(s)
    ensures |Sort(s, le)| == |s|
  {
    if s != [] {
      SortPermutes(s[1..], le);
      InsertPermutes(s[0], Sort(s[1..], le), le);
      assert s == [s[0]] + s[1..];
    }
  }

  lemma SortMembers<T>(s: seq<T>, le: (T, T) -> bool)
    ensures forall i | 0 <= i < |Sort(s, le)| :: Sort(s, le)[i] in s
  {
    SortPermutes(s, le);
    forall i | 0 <= i < |Sort(s, le)| ensures Sort(s, le)[i] in s {
      assert Sort(s, le)[i] in multiset(Sort(s, le));
      assert Sort(s, le)[i] in multiset(s);
    }
  }

  /** Two orders that agree on the elements sort them alike. */
  lemma {:induction false} SortAgrees<T>(s: seq<T>, le: (T, T) -> bool, other: (T, T) -> bool)
    requires forall x, y | x in s && y in s :: le(x, y) == other(x, y)
    ensures Sort(s, le) == Sort(s, other)
  {
    if s != [] {
      assert s == [s[0]] + s[1..];
      SortAgrees(s[1..], le, other);
      SortMembers(s[1..], le);
      InsertAgrees(s[0], Sort(s[1..], le), le, other);
    }
  }

  lemma {:induction false} InsertAgrees<T>(x: T, s: seq<T>, le: (T, T) -> bool, other: (T, T) -> bool)
    requires forall i | 0 <= i < |s| :: le(x, s[i]) == other(x, s[i])
    ensures Insert(x, s, le) == Insert(x, s, other)
  {
    if s != [] {
      InsertAgrees(x, s[1..], le, other);
    }
  }

  lemma MemberOfPermutation<T>(a: seq<T>, b: seq<T>)
    requires multiset(a) == multiset(b)
    ensures forall x :: x in a <==> x in b
    ensures |a| == |b|
  {
    forall x ensures x in a <==> x in b {
      assert x in a <==> x in multiset(a);
      assert x in b <==> x in multiset(b);
    }
    assert |multiset(a)| == |a| && |multiset(b)| == |b|;
  }

  /** Where the first element of a sequence sits in a permutation of it. */
  lemma FirstIn<T>(a: seq<T>, b: seq<T>) returns (i: nat)
    requires a != [] && multiset(a) == multiset(b)
    ensures i < |b| && b[i] == a[0] && b == b[..i] + ([b[i]] + b[i + 1..])
    ensures multiset(a[1..]) == multiset(b[..i] + b[i + 1..])
  {
    MemberOfPermutation(a, b);
    assert a[0] in b;
    i :| 0 <= i < |b| && b[i] == a[0];
    assert b == b[..i] + ([b[i]] + b[i + 1..]);
    assert a == [a[0]] + a[1..];
    assert multiset(a) == multiset{a[0]} + multiset(a[1..]);
    assert multiset(b) == multiset(b[..i]) + (multiset{b[i]} + multiset(b[i + 1..]));
    assert multiset(b[..i] + b[i + 1..]) == multiset(b[..i]) + multiset(b[i + 1..]);
    assert multiset(a[1..]) == multiset(a) - multiset{a[0]};
  }

  lemma {:induction false} InsertSorted<T(!new)>(x: T, s: seq<T>, le: (T, T) -> bool)
    requires TotalOrder(le) && Sorted(s, le)
    ensures Sorted(Insert(x, s, le), le)
  {
    if s != [] && !le(x, s[0]) {
      InsertSorted(x, s[1..], le);
      var rest := Insert(x, s[1..], le);
      InsertPermutes(x, s[1..], le);
      forall i | 0 <= i < |rest| ensures le(s[0], rest[i]) {
        assert rest[i] in multiset(rest);
        if rest[i] != x {
          assert rest[i] in multiset(s[1..]);
          assert rest[i] in s[1..];
        }
      }
    }
  }

  lemma {:induction false} SortSorted<T(!new)>(s: seq<T>, le: (T, T) -> bool)
    requires TotalOrder(le)
    ensures Sorted(Sort(s, le), le)
  {
    if s != [] {
      SortSorted(s[1..], le);
      InsertSorted(s[0], Sort(s[1..], le), le);
    }
  }

  /** Two sorted permutations of distinguishable elements are one sequence. */
  lemma {:induction false} SortedUnique<T(!new)>(a: seq<T>, b: seq<T>, le: (T, T) -> bool)
    requires TotalOrder(le) && Sorted(a, le) && Sorted(b, le) && Separates(a, le)
    requires multiset(a) == multiset(b)
    ensures a == b
  {
    MemberOfPermutation(a, b);
    if a != [] {
      LeastFirst(a, le, b[0]);
      LeastFirst(b, le, a[0]);
      assert a == [a[0]] + a[1..] && b == [b[0]] + b[1..];
      assert multiset(a[1..]) == multiset(a) - multiset{a[0]};
      assert multiset(b[1..]) == multiset(b) - multiset{b[0]};
      SortedUnique(a[1..], b[1..], le);
    }
  }

  lemma LeastFirst<T(!new)>(s: seq<T>, le: (T, T) -> bool, x: T)
    requires TotalOrder(le) && Sorted(s, le) && x in s
    ensures le(s[0], x)
  {
    var i :| 0 <= i < |s| && s[i] == x;
    assert i == 0 ==> le(x, x);
  }

  lemma SortOfPermutation<T(!new)>(a: seq<T>, b: seq<T>, le: (T, T) -> bool)
    requires TotalOrder(le) && Separates(a, le) && multiset(a) == multiset(b)
    ensures Sort(a, le) == Sort(b, le)
  {
    SortSorted(a, le);
    SortSorted(b, le);
    SortPermutes(a, le);
    SortPermutes(b, le);
    MemberOfPermutation(a, Sort(a, le));
    SortedUnique(Sort(a, le), Sort(b, le), le);
  }

  lemma SortKeepsSorted<T(!new)>(a: seq<T>, le: (T, T) -> bool)
    requires TotalOrder(le) && Separates(a, le) && Sorted(a, le)
    ensures Sort(a, le) == a
  {
    SortSorted(a, le);
    SortPermutes(a, le);
    SortedUnique(a, Sort(a, le), le);
  }

  /** Sorting leaves exactly the sorted lists as they are. */
  lemma {:induction false} SortFixesSorted<T(!new)>(s: seq<T>, le: (T, T) -> bool)
    requires TotalOrder(le)
    ensures Sort(s, le) == s <==> Sorted(s, le)
  {
    SortSorted(s, le);
    if s != [] && Sorted(s, le) {
      assert forall i | 0 <= i < |s[1..]| :: s[1..][i] == s[i + 1];
      SortFixesSorted(s[1..], le);
      assert s == [s[0]] + s[1..];
    }
  }

  predicate Distinct<T(==)>(s: seq<T>) {
    forall i, j | 0 <= i < j < |s| :: s[i] != s[j]
  }

  ghost function Images<T, R>(s: seq<T>, f: T -> R): set<R> {
    set x | x in s :: f(x)
  }

  ghost predicate DistinctImages<T, R>(s: seq<T>, f: T -> R) {
    forall i, j | 0 <= i < j < |s| :: f(s[i]) != f(s[j])
  }

  /** There are as many images as elements exactly when no two elements share one. */
  lemma {:induction false} CountImages<T, R>(s: seq<T>, f: T -> R)
    ensures |Images(s, f)| <= |s|
    ensures |Images(s, f)| == |s| <==> DistinctImages(s, f)
  {
    if s != [] {
      var rest, last := s[..|s| - 1], s[|s| - 1];
      CountImages(rest, f);
      assert s == rest + [last];
      assert Images(s, f) == Images(rest, f) + {f(last)};
      LastImageRepeats(s, f);
    }
  }

  lemma LastImageRepeats<T, R>(s: seq<T>, f: T -> R)
    requires s != []
    ensures DistinctImages(s, f) <==>
              DistinctImages(s[..|s| - 1], f) && f(s[|s| - 1]) !in Images(s[..|s| - 1], f)
  {
    var rest, last := s[..|s| - 1], s[|s| - 1];
    assert forall i | 0 <= i < |rest| :: rest[i] == s[i];
    if DistinctImages(rest, f) && f(last) !in Images(rest, f) {
      forall i, j | 0 <= i < j < |s| ensures f(s[i]) != f(s[j]) {
        assert s[i] == rest[i] && rest[i] in rest;
        if j < |rest| { assert s[j] == rest[j]; }
      }
    }
  }

  lemma SplitAt<T>(s: seq<T>, i: nat)
    requires i < |s|
    ensures multiset(s) == multiset(s[..i]) + multiset{s[i]} + multiset(s[i + 1..])
  {
    assert s == s[..i] + [s[i]] + s[i + 1..];
  }

  lemma DistinctIsMultiset<T>(s: seq<T>)
    ensures Distinct(s) <==> forall x | x in s :: multiset(s)[x] == 1
  {
    if Distinct(s) {
      forall x | x in s ensures multiset(s)[x] == 1 {
        var i :| 0 <= i < |s| && s[i] == x;
        SplitAt(s, i);
        assert x !in s[..i] && x !in s[i + 1..];
      }
    } else {
      var i, j :| 0 <= i < j < |s| && s[i] == s[j];
      SplitAt(s, j);
      assert s[..j][i] == s[j] && s[j] in multiset(s[..j]);
      assert multiset(s)[s[j]] >= 2;
    }
  }

  /** Without repetitions, the members are the multiset. */
  lemma DistinctSameMembers<T>(a: seq<T>, b: seq<T>)
    requires Distinct(a) && Distinct(b) && forall x :: x in a <==> x in b
    ensures multiset(a) == multiset(b)
  {
    DistinctIsMultiset(a);
    DistinctIsMultiset(b);
    forall x ensures multiset(a)[x] == multiset(b)[x] {
      assert x in a <==> x in multiset(a);
      assert x in b <==> x in multiset(b);
    }
  }

  /** Distinct members of a sequence, as many as it has, are all of it. */
  lemma DistinctCover<T>(a: seq<T>, b: seq<T>)
    requires Distinct(a) && |a| == |b| && forall x | x in a :: x in b
    ensures multiset(a) == multiset(b)
  {
    DistinctIsMultiset(a);
    forall x ensures multiset(a)[x] <= multiset(b)[x] {
      if x in multiset(a) { assert x in a; assert x in multiset(b); }
    }
    var left := multiset(b) - multiset(a);
    assert multiset(b) == multiset(a) + left;
    assert |multiset(a)| == |a| && |multiset(b)| == |b|;
    assert |left| == 0;
  }

  /** A permutation repeats nothing that the original does not. */
  lemma DistinctPermutation<T>(a: seq<T>, b: seq<T>)
    requires multiset(a) == multiset(b) && Distinct(a)
    ensures Distinct(b)
  {
    DistinctIsMultiset(a);
    DistinctIsMultiset(b);
    MemberOfPermutation(a, b);
  }

  ghost predicate LinearOrder<T(!new)>(le: (T, T) -> bool) {
    TotalOrder(le) && forall a, b :: le(a, b) && le(b, a) ==> a == b
  }

  predicate Least<T>(x: T, s: set<T>, le: (T, T) -> bool) {
    x in s && forall y :: y in s ==> le(x, y)
  }

  lemma {:induction false} LeastExists<T(!new)>(s: set<T>, le: (T, T) -> bool)
    requires s != {} && TotalOrder(le)
    ensures exists x :: Least(x, s, le)
  {
    var x :| x in s;
    assert le(x, x);
    if s == {x} {
      assert Least(x, s, le);
    } else {
      LeastExists(s - {x}, le);
      var y :| Least(y, s - {x}, le);
      var least := if le(x, y) then x else y;
      forall z | z in s ensures le(least, z) {
        assert z == x || (z in s - {x} && le(y, z));
      }
      assert Least(least, s, le);
    }
  }

  /** The set listed in order: Python's `sorted` of a set. */
  function SortedSet<T(!new)>(s: set<T>, le: (T, T) -> bool): (r: seq<T>)
    requires LinearOrder(le)
    ensures |r| == |s|
    ensures forall x :: x in r <==> x in s
    decreases |s|
  {
    if s == {} then [] else
      LeastExists(s, le);
      assert forall x, y | Least(x, s, le) && Least(y, s, le) :: x == y;
      var x :| Least(x, s, le);
      [x] + SortedSet(s - {x}, le)
  }

  lemma {:induction false} SortedSetAscends<T(!new)>(s: set<T>, le: (T, T) -> bool)
    requires LinearOrder(le)
    ensures Sorted(SortedSet(s, le), le)
    ensures forall i, j | 0 <= i < j < |s| :: SortedSet(s, le)[i] != SortedSet(s, le)[j]
    decreases |s|
  {
    if s != {} {
      LeastExists(s, le);
      var x := SortedSet(s, le)[0];
      assert Least(x, s, le);
      SortedSetAscends(s - {x}, le);
      var rest := SortedSet(s - {x}, le);
      assert SortedSet(s, le) == [x] + rest;
      forall i | 0 <= i < |rest| ensures rest[i] in s && rest[i] != x {
        assert rest[i] in rest;
      }
    }
  }
}

/** The orders the program sorts by: text by code point, and record keys,
    which are triples of text compared field by field. */
module Keys {
  import opened Sorting

  type Key = (string, string, string)

  predicate TextLe(a: string, b: string) {
    a == [] || (b != [] && (a[0] < b[0] || (a[0] == b[0] && TextLe(a[1..], b[1..]))))
  }

  predicate TextLess(a: string, b: string) {
    TextLe(a, b) && a != b
  }

  predicate KeyLe(a: Key, b: Key) {
    if a.0 != b.0 then TextLe(a.0, b.0)
    else if a.1 != b.1 then TextLe(a.1, b.1)
    else TextLe(a.2, b.2)
  }

  lemma {:induction false} TextTotal(a: string, b: string)
    ensures TextLe(a, b) || TextLe(b, a)
  {
    if a != [] && b != [] && a[0] == b[0] {
      TextTotal(a[1..], b[1..]);
    }
  }

  lemma {:induction false} TextAntisymmetric(a: string, b: string)
    requires TextLe(a, b) && TextLe(b, a)
    ensures a == b
  {
    if a != [] {
      TextAntisymmetric(a[1..], b[1..]);
      assert a == [a[0]] + a[1..] && b == [b[0]] + b[1..];
    }
  }

  lemma {:induction false} TextTransitive(a: string, b: string, c: string)
    requires TextLe(a, b) && TextLe(b, c)
    ensures TextLe(a, c)
  {
    if a != [] && a[0] == b[0] == c[0] {
      TextTransitive(a[1..], b[1..], c[1..]);
    }
  }

  /** A proper prefix sorts strictly earlier. */
  lemma {:induction false} PrefixSortsEarlier(a: string, b: string)
    requires a < b
    ensures TextLess(a, b)
  {
    if a != [] {
      PrefixSortsEarlier(a[1..], b[1..]);
    }
  }

  lemma TextOrder()
    ensures LinearOrder(TextLe)
  {
    forall a, b ensures TextLe(a, b) || TextLe(b, a) { TextTotal(a, b); }
    forall a, b, c | TextLe(a, b) && TextLe(b, c) ensures TextLe(a, c) { TextTransitive(a, b, c); }
    forall a, b | TextLe(a, b) && TextLe(b, a) ensures a == b { TextAntisymmetric(a, b); }
  }

  lemma KeyOrder()
    ensures LinearOrder(KeyLe)
  {
    TextOrder();
    forall a, b, c | KeyLe(a, b) && KeyLe(b, c) ensures KeyLe(a, c) {
      if a.0 == b.0 == c.0 {
      } else {
        assert TextLe(a.0, b.0) || a.0 == b.0;
        assert TextLe(b.0, c.0) || b.0 == c.0;
      }
    }
  }

  /** The texts of a set, in order. */
  function SortedTexts(s: set<string>): (r: seq<string>)
    ensures |r| == |s|
    ensures forall k :: k in r <==> k in s
  {
    TextOrder();
    SortedSet(s, TextLe)
  }

  lemma SortedTextsAscend(s: set<string>)
    ensures Sorted(SortedTexts(s), TextLe)
    ensures forall i, j | 0 <= i < j < |s| :: SortedTexts(s)[i] != SortedTexts(s)[j]
  {
    TextOrder();
    SortedSetAscends(s, TextLe);
  }

  /** The keys of a set, in order. */
  function SortedKeys(s: set<Key>): (r: seq<Key>)
    ensures |r| == |s|
    ensures forall k :: k in r <==> k in s
  {
    KeyOrder();
    SortedSet(s, KeyLe)
  }

  lemma SortedKeysAscend(s: set<Key>)
    ensures Sorted(SortedKeys(s), KeyLe)
    ensures forall i, j | 0 <= i < j < |s| :: SortedKeys(s)[i] != SortedKeys(s)[j]
  {
    KeyOrder();
    SortedSetAscends(s, KeyLe);
  }
}
