/** The candidate record graph: exact closure of a set of records, and a write order whose every
    prefix leaves the store closed. */
module RecordGraph {
  import opened Outcomes
  import opened Sorting
  import opened Keys

  const INVALID := "experiment_candidate_graph_invalid"

  /** What a record field can hold: a reference by key and logical id, or a whole embedded record. */
  datatype Field = Reference(key: Key, logicalId: string) | Embedded(record: Record)

  /** Two records are the same evidence exactly when they are equal. */
  datatype Record = Record(key: Key, logicalId: string, content: string, fields: seq<Field>)

  /** Every dependency of a record, those inside embedded records included. */
  function Dependencies(r: Record): seq<Field>
    decreases r, |r.fields| + 1
  {
    FieldsFrom(r, 0)
  }

  function FieldsFrom(r: Record, n: nat): seq<Field>
    requires n <= |r.fields|
    decreases r, |r.fields| - n
  {
    if n == |r.fields| then []
    else
      [r.fields[n]]
      + (match r.fields[n] case Reference(_, _) => [] case Embedded(inner) => Dependencies(inner))
      + FieldsFrom(r, n + 1)
  }

  function KeyOf(d: Field): Key {
    match d case Reference(key, _) => key case Embedded(r) => r.key
  }

  /** The dependency is in the index, exactly as it is named or embedded. */
  predicate Resolves(index: map<Key, Record>, d: Field) {
    KeyOf(d) in index &&
    match d
    case Reference(key, id) => index[key].key == key && index[key].logicalId == id
    case Embedded(r) => index[r.key] == r
  }

  function NeedsOf(r: Record): set<Key> {
    set d | d in Dependencies(r) :: KeyOf(d)
  }

  /** Every dependency of the record is in the index. */
  predicate Supported(index: map<Key, Record>, r: Record) {
    forall d | d in Dependencies(r) :: Resolves(index, d)
  }

  ghost predicate Closed(index: map<Key, Record>) {
    forall k | k in index :: Supported(index, index[k])
  }

  /** The dependency table of a closed graph. */
  function Needs(index: map<Key, Record>): map<Key, set<Key>> {
    map k | k in index :: NeedsOf(index[k])
  }

  // ---------------------------------------------------------------- layered order

  /** The keys that can be written next: all they need is satisfied. */
  function Ready(needs: map<Key, set<Key>>, pending: set<Key>, satisfied: set<Key>): set<Key>
    requires pending <= needs.Keys
  {
    set k | k in pending && needs[k] <= satisfied
  }

  /** Layer after layer, each in key order; nothing when some layer is empty before the keys are. */
  function Layers(needs: map<Key, set<Key>>, pending: set<Key>, satisfied: set<Key>): Option<seq<Key>>
    requires pending <= needs.Keys
    decreases |pending|
  {
    if pending == {} then Some([])
    else
      var ready := Ready(needs, pending, satisfied);
      if ready == {} then None
      else
        assert |pending - ready| < |pending|;
        match Layers(needs, pending - ready, satisfied + ready)
        case None => None
        case Some(rest) => Some(SortedKeys(ready) + rest)
  }

  /** What is needed is either new or already satisfied: the graph is closed. */
  ghost predicate Supplied(needs: map<Key, set<Key>>, pending: set<Key>, satisfied: set<Key>) {
    && pending <= needs.Keys && pending !! satisfied
    && forall k | k in pending :: needs[k] <= pending + satisfied
  }

  ghost function KeySet(s: seq<Key>): set<Key> { set k | k in s }

  /** Each element's needs come before it, or were satisfied from the start. */
  ghost predicate PrefixClosed(needs: map<Key, set<Key>>, order: seq<Key>, satisfied: set<Key>) {
    forall i | 0 <= i < |order| :: order[i] in needs && needs[order[i]] <= satisfied + KeySet(order[..i])
  }

  ghost predicate NoRepeats(order: seq<Key>) {
    forall i, j | 0 <= i < j < |order| :: order[i] != order[j]
  }

  /** The order lists every pending key once, each after everything it needs. */
  lemma {:induction false} LayersFacts(needs: map<Key, set<Key>>, pending: set<Key>, satisfied: set<Key>)
    requires pending <= needs.Keys && Layers(needs, pending, satisfied).Some?
    ensures var order := Layers(needs, pending, satisfied).value;
            KeySet(order) == pending && NoRepeats(order) && PrefixClosed(needs, order, satisfied)
    decreases |pending|
  {
    if pending != {} {
      var ready := Ready(needs, pending, satisfied);
      var rest := Layers(needs, pending - ready, satisfied + ready).value;
      LayersFacts(needs, pending - ready, satisfied + ready);
      SortedKeysAscend(ready);
      AppendLayer(needs, SortedKeys(ready), ready, rest, satisfied);
    }
  }

  lemma AppendLayer(needs: map<Key, set<Key>>, layer: seq<Key>, ready: set<Key>, rest: seq<Key>, satisfied: set<Key>)
    requires KeySet(layer) == ready && NoRepeats(layer) && forall k | k in ready :: k in needs && needs[k] <= satisfied
    requires NoRepeats(rest) && KeySet(rest) !! ready && PrefixClosed(needs, rest, satisfied + ready)
    ensures NoRepeats(layer + rest) && PrefixClosed(needs, layer + rest, satisfied)
    ensures KeySet(layer + rest) == ready + KeySet(rest)
  {
    var order := layer + rest;
    forall i | 0 <= i < |order| ensures order[i] in needs && needs[order[i]] <= satisfied + KeySet(order[..i]) {
      if i < |layer| {
        assert layer[i] in layer;
      } else {
        var j := i - |layer|;
        assert order[..i] == layer + rest[..j];
        assert KeySet(order[..i]) == ready + KeySet(rest[..j]) by {
          assert forall k :: k in order[..i] <==> k in layer || k in rest[..j];
        }
      }
    }
    forall i, j | 0 <= i < j < |order| ensures order[i] != order[j] {
      if i < |layer| <= j {
        assert layer[i] in layer && rest[j - |layer|] in rest;
      }
    }
  }

  // ---------------------------------------------------------------- cycles

  /** A chain of new keys, each needing the next. */
  ghost predicate NeedChain(needs: map<Key, set<Key>>, among: set<Key>, c: seq<Key>) {
    && (forall i | 0 <= i < |c| :: c[i] in among && c[i] in needs)
    && (forall i, j | 0 <= i < |c| && 0 <= j < |c| && j == i + 1 :: c[j] in needs[c[i]])
  }

  ghost predicate Cyclic(needs: map<Key, set<Key>>, among: set<Key>) {
    exists c :: |c| >= 2 && NeedChain(needs, among, c) && c[0] == c[|c| - 1]
  }

  /** When no pending key is ready, each needs another pending one. */
  lemma StuckKeysNeedEachOther(needs: map<Key, set<Key>>, pending: set<Key>, satisfied: set<Key>, k: Key)
    requires Supplied(needs, pending, satisfied) && Ready(needs, pending, satisfied) == {} && k in pending
    ensures exists d :: d in needs[k] && d in pending
  {
    assert k !in Ready(needs, pending, satisfied);
    var d :| d in needs[k] && d !in satisfied;
  }

  /** So a chain of any length can be walked among them. */
  lemma {:induction false} StuckChain(needs: map<Key, set<Key>>, pending: set<Key>, satisfied: set<Key>, n: nat)
    returns (c: seq<Key>)
    requires Supplied(needs, pending, satisfied) && Ready(needs, pending, satisfied) == {} && pending != {}
    ensures |c| == n + 1 && NeedChain(needs, pending, c)
  {
    if n == 0 {
      var k :| k in pending;
      c := [k];
    } else {
      var shorter := StuckChain(needs, pending, satisfied, n - 1);
      StuckKeysNeedEachOther(needs, pending, satisfied, shorter[n - 1]);
      var d :| d in needs[shorter[n - 1]] && d in pending;
      c := shorter + [d];
    }
  }

  /** A sequence longer than the set it draws from repeats an element. */
  lemma {:induction false} Pigeonhole(c: seq<Key>, s: set<Key>)
    requires |c| > |s| && forall i | 0 <= i < |c| :: c[i] in s
    ensures exists i, j :: 0 <= i < j < |c| && c[i] == c[j]
  {
    var last, rest := c[|c| - 1], c[..|c| - 1];
    if last in rest {
      var i :| 0 <= i < |rest| && rest[i] == last;
      assert c[i] == c[|c| - 1];
    } else {
      forall i | 0 <= i < |rest| ensures rest[i] in s - {last} { assert rest[i] == c[i] && rest[i] in rest; }
      Pigeonhole(rest, s - {last});
      var i, j :| 0 <= i < j < |rest| && rest[i] == rest[j];
      assert c[i] == c[j];
    }
  }

  lemma StuckIsCyclic(needs: map<Key, set<Key>>, pending: set<Key>, satisfied: set<Key>)
    requires Supplied(needs, pending, satisfied) && Ready(needs, pending, satisfied) == {} && pending != {}
    ensures Cyclic(needs, pending)
  {
    var c := StuckChain(needs, pending, satisfied, |pending|);
    Pigeonhole(c, pending);
    var i, j :| 0 <= i < j < |c| && c[i] == c[j];
    var cycle := c[i..j + 1];
    Subchain(needs, pending, c, i, j);
    assert cycle[0] == cycle[|cycle| - 1];
  }

  lemma Subchain(needs: map<Key, set<Key>>, among: set<Key>, c: seq<Key>, i: nat, j: nat)
    requires NeedChain(needs, among, c) && i <= j < |c|
    ensures NeedChain(needs, among, c[i..j + 1]) && |c[i..j + 1]| == j - i + 1
    ensures c[i..j + 1][0] == c[i] && c[i..j + 1][j - i] == c[j]
  {
  }

  lemma SuppliedRest(needs: map<Key, set<Key>>, pending: set<Key>, satisfied: set<Key>)
    requires Supplied(needs, pending, satisfied)
    ensures var ready := Ready(needs, pending, satisfied);
            Supplied(needs, pending - ready, satisfied + ready)
  {
  }

  /** A closed graph can be ordered exactly when its new records have no cycle. */
  lemma {:induction false} LayersIffAcyclic(needs: map<Key, set<Key>>, pending: set<Key>, satisfied: set<Key>)
    requires Supplied(needs, pending, satisfied)
    ensures Layers(needs, pending, satisfied).Some? <==> !Cyclic(needs, pending)
    decreases |pending|
  {
    if Layers(needs, pending, satisfied).Some? {
      OrderedHasNoCycle(needs, pending, satisfied);
    } else {
      NoOrderIsCyclic(needs, pending, satisfied);
    }
  }

  lemma {:induction false} NoOrderIsCyclic(needs: map<Key, set<Key>>, pending: set<Key>, satisfied: set<Key>)
    requires Supplied(needs, pending, satisfied) && Layers(needs, pending, satisfied) == None
    ensures Cyclic(needs, pending)
    decreases |pending|
  {
    var ready := Ready(needs, pending, satisfied);
    if ready == {} {
      StuckIsCyclic(needs, pending, satisfied);
    } else {
      SuppliedRest(needs, pending, satisfied);
      NoOrderIsCyclic(needs, pending - ready, satisfied + ready);
      var c :| |c| >= 2 && NeedChain(needs, pending - ready, c) && c[0] == c[|c| - 1];
      assert NeedChain(needs, pending, c);
    }
  }

  ghost function Place(order: seq<Key>, k: Key): (p: nat)
    requires k in order
    ensures p < |order| && order[p] == k
  {
    var p :| 0 <= p < |order| && order[p] == k;
    p
  }

  /** Along a chain the places in the order strictly decrease. */
  lemma {:induction false} ChainDescends(needs: map<Key, set<Key>>, order: seq<Key>, satisfied: set<Key>,
                                         among: set<Key>, c: seq<Key>)
    requires NoRepeats(order) && PrefixClosed(needs, order, satisfied) && KeySet(order) == among && among !! satisfied
    requires NeedChain(needs, among, c) && |c| >= 1
    ensures forall i | 0 <= i < |c| :: c[i] in order
    ensures |c| >= 2 ==> Place(order, c[|c| - 1]) < Place(order, c[0])
    decreases |c|
  {
    forall i | 0 <= i < |c| ensures c[i] in order { assert c[i] in KeySet(order); }
    if |c| >= 2 {
      var p := Place(order, c[0]);
      assert c[1] in needs[order[p]] && c[1] in KeySet(order[..p]);
      var q :| 0 <= q < p && order[..p][q] == c[1];
      assert Place(order, c[1]) == q;
      ChainDescends(needs, order, satisfied, among, c[1..]);
    }
  }

  lemma OrderedHasNoCycle(needs: map<Key, set<Key>>, pending: set<Key>, satisfied: set<Key>)
    requires Supplied(needs, pending, satisfied) && Layers(needs, pending, satisfied).Some?
    ensures !Cyclic(needs, pending)
  {
    var order := Layers(needs, pending, satisfied).value;
    LayersFacts(needs, pending, satisfied);
    forall c | |c| >= 2 && NeedChain(needs, pending, c) ensures c[0] != c[|c| - 1] {
      ChainDescends(needs, order, satisfied, pending, c);
    }
  }

  // ---------------------------------------------------------------- layers are longest chains

  /** The layer a key is written in. */
  ghost function LayerOf(needs: map<Key, set<Key>>, pending: set<Key>, satisfied: set<Key>, k: Key): nat
    requires pending <= needs.Keys
    decreases |pending|
  {
    var ready := Ready(needs, pending, satisfied);
    if ready == {} || k in ready then 0
    else
      assert |pending - ready| < |pending|;
      1 + LayerOf(needs, pending - ready, satisfied + ready, k)
  }

  lemma {:induction false} NeedIsLower(needs: map<Key, set<Key>>, pending: set<Key>, satisfied: set<Key>, k: Key,
                                       d: Key)
    requires Supplied(needs, pending, satisfied) && Layers(needs, pending, satisfied).Some?
    requires k in pending && d in pending && d in needs[k]
    ensures LayerOf(needs, pending, satisfied, d) < LayerOf(needs, pending, satisfied, k)
    decreases |pending|
  {
    var ready := Ready(needs, pending, satisfied);
    if d !in ready {
      SuppliedRest(needs, pending, satisfied);
      assert |pending - ready| < |pending|;
      NeedIsLower(needs, pending - ready, satisfied + ready, k, d);
    }
  }

  lemma {:induction false} NeedOneBelow(needs: map<Key, set<Key>>, pending: set<Key>, satisfied: set<Key>, k: Key)
    returns (d: Key)
    requires Supplied(needs, pending, satisfied) && Layers(needs, pending, satisfied).Some?
    requires k in pending && LayerOf(needs, pending, satisfied, k) > 0
    ensures d in pending && d in needs[k]
    ensures LayerOf(needs, pending, satisfied, d) == LayerOf(needs, pending, satisfied, k) - 1
    decreases |pending|
  {
    var ready := Ready(needs, pending, satisfied);
    SuppliedRest(needs, pending, satisfied);
    assert |pending - ready| < |pending|;
    if LayerOf(needs, pending - ready, satisfied + ready, k) == 0 {
      d :| d in needs[k] && d !in satisfied;
    } else {
      d := NeedOneBelow(needs, pending - ready, satisfied + ready, k);
    }
  }

  /** A key's layer is the length of its longest chain of new dependencies: no chain is longer. */
  lemma {:induction false} NoLongerChain(needs: map<Key, set<Key>>, pending: set<Key>, satisfied: set<Key>, c: seq<Key>)
    requires Supplied(needs, pending, satisfied) && Layers(needs, pending, satisfied).Some?
    requires c != [] && NeedChain(needs, pending, c)
    ensures |c| <= LayerOf(needs, pending, satisfied, c[0]) + 1
    decreases |c|
  {
    if |c| > 1 {
      Subchain(needs, pending, c, 1, |c| - 1);
      NeedIsLower(needs, pending, satisfied, c[0], c[1]);
      NoLongerChain(needs, pending, satisfied, c[1..|c| - 1 + 1]);
    }
  }

  lemma ExtendChain(needs: map<Key, set<Key>>, among: set<Key>, k: Key, c: seq<Key>)
    requires k in among && k in needs && c != [] && c[0] in needs[k] && NeedChain(needs, among, c)
    ensures NeedChain(needs, among, [k] + c)
  {
  }

  /** ... and one is that long. */
  lemma {:induction false} LongestChain(needs: map<Key, set<Key>>, pending: set<Key>, satisfied: set<Key>, k: Key)
    returns (c: seq<Key>)
    requires Supplied(needs, pending, satisfied) && Layers(needs, pending, satisfied).Some? && k in pending
    ensures |c| == LayerOf(needs, pending, satisfied, k) + 1 && c[0] == k && NeedChain(needs, pending, c)
    decreases LayerOf(needs, pending, satisfied, k)
  {
    if LayerOf(needs, pending, satisfied, k) == 0 {
      c := [k];
    } else {
      var d := NeedOneBelow(needs, pending, satisfied, k);
      var rest := LongestChain(needs, pending, satisfied, d);
      ExtendChain(needs, pending, k, rest);
      c := [k] + rest;
    }
  }

  /** Sorted by layer number, and by key where the numbers agree. */
  ghost predicate LayeredBy(order: seq<Key>, layerOf: Key -> nat) {
    forall i, j | 0 <= i < j < |order| ::
      layerOf(order[i]) < layerOf(order[j]) || (layerOf(order[i]) == layerOf(order[j]) && KeyLe(order[i], order[j]))
  }

  ghost function LayerNumbers(needs: map<Key, set<Key>>, pending: set<Key>, satisfied: set<Key>): Key -> nat
    requires pending <= needs.Keys
  {
    k => LayerOf(needs, pending, satisfied, k)
  }

  lemma LayerThenRest(layer: seq<Key>, rest: seq<Key>, inner: Key -> nat, outer: Key -> nat)
    requires Sorted(layer, KeyLe) && LayeredBy(rest, inner)
    requires forall i | 0 <= i < |layer| :: outer(layer[i]) == 0
    requires forall i | 0 <= i < |rest| :: outer(rest[i]) == inner(rest[i]) + 1
    ensures LayeredBy(layer + rest, outer)
  {
    var order := layer + rest;
    forall i, j | 0 <= i < j < |order|
      ensures outer(order[i]) < outer(order[j]) || (outer(order[i]) == outer(order[j]) && KeyLe(order[i], order[j]))
    {
      assert i < |layer| ==> order[i] == layer[i];
      assert j < |layer| ==> order[j] == layer[j];
      assert i >= |layer| ==> order[i] == rest[i - |layer|];
      assert j >= |layer| ==> order[j] == rest[j - |layer|];
    }
  }

  /** The order is by layer, and by key within a layer. */
  lemma {:induction false} OrderByLayer(needs: map<Key, set<Key>>, pending: set<Key>, satisfied: set<Key>)
    requires pending <= needs.Keys && Layers(needs, pending, satisfied).Some?
    ensures LayeredBy(Layers(needs, pending, satisfied).value, LayerNumbers(needs, pending, satisfied))
    decreases |pending|
  {
    if pending != {} {
      var ready := Ready(needs, pending, satisfied);
      var layer, rest := SortedKeys(ready), Layers(needs, pending - ready, satisfied + ready).value;
      assert |pending - ready| < |pending|;
      OrderByLayer(needs, pending - ready, satisfied + ready);
      LayersFacts(needs, pending - ready, satisfied + ready);
      SortedKeysAscend(ready);
      var inner := LayerNumbers(needs, pending - ready, satisfied + ready);
      var outer := LayerNumbers(needs, pending, satisfied);
      forall i | 0 <= i < |rest| ensures outer(rest[i]) == inner(rest[i]) + 1 {
        assert rest[i] in KeySet(rest);
      }
      forall i | 0 <= i < |layer| ensures outer(layer[i]) == 0 {
        assert layer[i] in layer;
      }
      LayerThenRest(layer, rest, inner, outer);
    }
  }

  // ---------------------------------------------------------------- stores

  /** The records of an index whose keys are in a set. */
  ghost function Restrict(index: map<Key, Record>, keys: set<Key>): map<Key, Record> {
    map k | k in index && k in keys :: index[k]
  }

  /** Writing the new records in order leaves a closed store after every single write. */
  lemma EveryPrefixCloses(index: map<Key, Record>, existing: set<Key>, order: seq<Key>, n: nat)
    requires Closed(index) && existing <= index.Keys && Closed(Restrict(index, existing)) && n <= |order|
    requires KeySet(order) <= index.Keys && PrefixClosed(Needs(index), order, existing)
    ensures Closed(Restrict(index, existing + KeySet(order[..n])))
  {
    var store := Restrict(index, existing + KeySet(order[..n]));
    forall k, d | k in store && d in Dependencies(store[k]) ensures Resolves(store, d) {
      assert Resolves(index, d);
      if k in existing {
        assert Resolves(Restrict(index, existing), d);
      } else {
        var i :| 0 <= i < n && order[..n][i] == k;
        assert order[i] == k && KeyOf(d) in Needs(index)[k];
        assert KeySet(order[..i]) <= KeySet(order[..n]) by {
          forall j | 0 <= j < i ensures order[..i][j] in order[..n] { assert order[..n][j] == order[j]; }
        }
      }
    }
  }

  // ---------------------------------------------------------------- the preparation as the program runs it

  /** Records that share a key are one record. */
  ghost predicate Consistent(records: seq<Record>) {
    forall r, s | r in records && s in records && r.key == s.key :: r == s
  }

  /** The index holds exactly these records under their keys. */
  ghost predicate Indexes(index: map<Key, Record>, records: seq<Record>) {
    && (forall r | r in records :: r.key in index && index[r.key] == r)
    && (forall k | k in index :: index[k] in records && index[k].key == k)
  }

  method AddRecords(index: map<Key, Record>, records: seq<Record>, ghost before: seq<Record>)
    returns (r: Option<map<Key, Record>>)
    requires Indexes(index, before)
    ensures r.Some? <==> Consistent(before + records)
    ensures r.Some? ==> Indexes(r.value, before + records)
  {
    var grown := index;
    assert before + records[..0] == before;
    for n := 0 to |records|
      invariant Indexes(grown, before + records[..n])
    {
      var record := records[n];
      assert before + records[..n + 1] == (before + records[..n]) + [record];
      if record.key in grown && grown[record.key] != record {
        assert grown[record.key] in before + records && record in before + records by {
          assert forall x | x in before + records[..n] :: x in before + records;
          assert record in records;
        }
        return None;
      }
      grown := grown[record.key := record];
    }
    assert records[..|records|] == records;
    forall x, y | x in before + records && y in before + records && x.key == y.key ensures x == y {
      assert grown[x.key] == x && grown[y.key] == y;
    }
    return Some(grown);
  }

  /** Exact closure, checked record by record in key order; the table of what each record needs. */
  method ValidateRecordGraph(index: map<Key, Record>) returns (r: Option<map<Key, set<Key>>>)
    ensures r.Some? <==> Closed(index)
    ensures r.Some? ==> r.value == Needs(index)
  {
    var keys := SortedKeys(index.Keys);
    r := None;
    var needs: map<Key, set<Key>> := map[];
    for n := 0 to |keys|
      invariant TableTo(index, keys, n, needs)
    {
      assert keys[n] in keys;
      if !Supported(index, index[keys[n]]) {
        return None;
      }
      TableStep(index, keys, n, needs);
      needs := needs[keys[n] := NeedsOf(index[keys[n]])];
    }
    TableDone(index, keys, needs);
    return Some(needs);
  }

  /** The first `n` keys are supported and tabled. */
  ghost predicate TableTo(index: map<Key, Record>, keys: seq<Key>, n: nat, needs: map<Key, set<Key>>) {
    && n <= |keys|
    && (forall i | 0 <= i < n :: keys[i] in index && Supported(index, index[keys[i]]))
    && needs.Keys == KeySet(keys[..n])
    && (forall k | k in needs :: k in index && needs[k] == NeedsOf(index[k]))
  }

  lemma TableStep(index: map<Key, Record>, keys: seq<Key>, n: nat, needs: map<Key, set<Key>>)
    requires TableTo(index, keys, n, needs) && n < |keys| && keys[n] in index && Supported(index, index[keys[n]])
    ensures TableTo(index, keys, n + 1, needs[keys[n] := NeedsOf(index[keys[n]])])
  {
    assert keys[..n + 1] == keys[..n] + [keys[n]];
  }

  lemma TableDone(index: map<Key, Record>, keys: seq<Key>, needs: map<Key, set<Key>>)
    requires TableTo(index, keys, |keys|, needs) && forall k :: k in keys <==> k in index
    ensures Closed(index) && needs == Needs(index)
  {
    assert keys[..|keys|] == keys;
    forall k | k in index ensures Supported(index, index[k]) {
      assert k in keys;
    }
    assert needs.Keys == index.Keys;
  }

  ghost function Prepend(head: seq<Key>, rest: Option<seq<Key>>): Option<seq<Key>> {
    match rest case Some(tail) => Some(head + tail) case None => None
  }

  /** One layer: each key is written, becomes satisfied and leaves the pending set. */
  method WriteLayer(layer: seq<Key>, order: seq<Key>, satisfied: set<Key>, pending: set<Key>)
    returns (order': seq<Key>, satisfied': set<Key>, pending': set<Key>)
    ensures order' == order + layer
    ensures satisfied' == satisfied + KeySet(layer) && pending' == pending - KeySet(layer)
  {
    order', satisfied', pending' := order, satisfied, pending;
    for n := 0 to |layer|
      invariant order' == order + layer[..n]
      invariant satisfied' == satisfied + KeySet(layer[..n]) && pending' == pending - KeySet(layer[..n])
    {
      order' := order' + [layer[n]];
      satisfied' := satisfied' + {layer[n]};
      pending' := pending' - {layer[n]};
      assert layer[..n + 1] == layer[..n] + [layer[n]];
    }
    assert layer[..|layer|] == layer;
  }

  /** The write loop: take all ready keys, in order, until none is left or none is ready. */
  method WriteOrder(needs: map<Key, set<Key>>, added: set<Key>, existing: set<Key>) returns (r: Option<seq<Key>>)
    requires added <= needs.Keys
    ensures r == Layers(needs, added, existing)
  {
    var pending, satisfied, order := added, existing, [];
    PrependNothing(Layers(needs, added, existing));
    while pending != {}
      invariant pending <= needs.Keys
      invariant Layers(needs, added, existing) == Prepend(order, Layers(needs, pending, satisfied))
      decreases |pending|
    {
      var ready := Ready(needs, pending, satisfied);
      NextLayer(needs, pending, satisfied, order);
      if ready == {} {
        return None;
      }
      assert |pending - ready| < |pending|;
      var layer := SortedKeys(ready);
      order, satisfied, pending := WriteLayer(layer, order, satisfied, pending);
    }
    assert order + [] == order;
    return Some(order);
  }

  lemma PrependNothing(rest: Option<seq<Key>>)
    ensures Prepend([], rest) == rest
  {
    assert rest.Some? ==> [] + rest.value == rest.value;
  }

  lemma NextLayer(needs: map<Key, set<Key>>, pending: set<Key>, satisfied: set<Key>, order: seq<Key>)
    requires pending <= needs.Keys && pending != {}
    ensures var ready := Ready(needs, pending, satisfied);
            && KeySet(SortedKeys(ready)) == ready
            && (ready == {} ==> Prepend(order, Layers(needs, pending, satisfied)) == None)
            && (ready != {} ==>
                  Prepend(order, Layers(needs, pending, satisfied)) ==
                  Prepend(order + SortedKeys(ready), Layers(needs, pending - ready, satisfied + ready)))
  {
    var ready := Ready(needs, pending, satisfied);
    var rest := Layers(needs, pending - ready, satisfied + ready);
    assert rest.Some? ==> order + (SortedKeys(ready) + rest.value) == (order + SortedKeys(ready)) + rest.value;
  }

  function Lookup(index: map<Key, Record>, order: seq<Key>): (r: seq<Record>)
    requires forall k | k in order :: k in index
    ensures |r| == |order| && forall i | 0 <= i < |order| :: r[i] == index[order[i]]
  {
    seq(|order|, i requires 0 <= i < |order| => index[order[i]])
  }

  /** What makes a proposal acceptable: no two records under one key, a closed store before and after,
      and no cycle among the records that are new. */
  ghost predicate Acceptable(existing: seq<Record>, proposed: seq<Record>) {
    && Consistent(existing + proposed)
    && Closed(IndexOf(existing))
    && Closed(IndexOf(existing + proposed))
    && !Cyclic(Needs(IndexOf(existing + proposed)), IndexOf(existing + proposed).Keys - IndexOf(existing).Keys)
  }

  /** The index of consistent records; a function of which records there are, not of their order. */
  ghost function IndexOf(records: seq<Record>): map<Key, Record> {
    map r | r in records && (forall s | s in records && s.key == r.key :: s == r) :: r.key := r
  }

  lemma IndexIsIndexOf(index: map<Key, Record>, records: seq<Record>)
    requires Indexes(index, records)
    ensures index == IndexOf(records) && Consistent(records)
  {
    forall x, y | x in records && y in records && x.key == y.key ensures x == y {
      assert index[x.key] == x && index[y.key] == y;
    }
  }

  /** A closed index supplies every new key from new and existing ones. */
  lemma ClosedSupplies(index: map<Key, Record>, existing: set<Key>)
    requires Closed(index) && existing <= index.Keys
    ensures Supplied(Needs(index), index.Keys - existing, existing)
  {
    forall k | k in index ensures Needs(index)[k] <= index.Keys {
      assert Supported(index, index[k]);
      forall d | d in Dependencies(index[k]) ensures KeyOf(d) in index { assert Resolves(index, d); }
    }
  }

  /** The record-level order: the layers of the new keys, looked up. */
  ghost predicate WrittenInLayers(order: seq<Record>, index: map<Key, Record>, existing: set<Key>) {
    existing <= index.Keys &&
    var keys := Layers(Needs(index), index.Keys - existing, existing);
    keys.Some? && |order| == |keys.value|
    && forall i | 0 <= i < |order| :: keys.value[i] in index && order[i] == index[keys.value[i]]
  }

  /** Closure of the whole graph, then the write order of the new keys. */
  method OrderNewKeys(base: map<Key, Record>, index: map<Key, Record>) returns (r: Option<seq<Key>>)
    requires base.Keys <= index.Keys
    ensures r.Some? <==> Closed(index) && !Cyclic(Needs(index), index.Keys - base.Keys)
    ensures r.Some? ==> r == Layers(Needs(index), index.Keys - base.Keys, base.Keys)
    ensures r.Some? ==> forall k | k in r.value :: k in index
  {
    var needs := ValidateRecordGraph(index);
    if needs == None {
      return None;
    }
    var added := index.Keys - base.Keys;
    ClosedSupplies(index, base.Keys);
    LayersIffAcyclic(needs.value, added, base.Keys);
    r := WriteOrder(needs.value, added, base.Keys);
    if r.Some? {
      LayersFacts(needs.value, added, base.Keys);
      assert forall k | k in r.value :: k in KeySet(r.value);
    }
  }

  /** ... as records. */
  method OrderNewRecords(base: map<Key, Record>, index: map<Key, Record>) returns (r: Option<seq<Record>>)
    requires base.Keys <= index.Keys
    ensures r.Some? <==> Closed(index) && !Cyclic(Needs(index), index.Keys - base.Keys)
    ensures r.Some? ==> WrittenInLayers(r.value, index, base.Keys)
  {
    var keys := OrderNewKeys(base, index);
    if keys == None {
      return None;
    }
    LookupFollowsLayers(index, base.Keys, keys.value);
    return Some(Lookup(index, keys.value));
  }

  /** The two indexes, unless two records under one key differ or the existing ones are not closed. */
  method IndexRecords(existing: seq<Record>, proposed: seq<Record>)
    returns (r: Option<(map<Key, Record>, map<Key, Record>)>)
    ensures r.Some? <==> Consistent(existing + proposed) && Closed(IndexOf(existing))
    ensures r.Some? ==> r.value.0 == IndexOf(existing) && r.value.1 == IndexOf(existing + proposed)
    ensures r.Some? ==> r.value.0.Keys <= r.value.1.Keys
  {
    assert [] + existing == existing;
    assert forall x | x in existing :: x in existing + proposed;
    var before := AddRecords(map[], existing, []);
    if before == None {
      return None;
    }
    IndexIsIndexOf(before.value, existing);
    var closed := ValidateRecordGraph(before.value);
    if closed == None {
      return None;
    }
    var after := AddRecords(before.value, proposed, existing);
    if after == None {
      return None;
    }
    IndexIsIndexOf(after.value, existing + proposed);
    ExistingStay(before.value, after.value, existing, proposed);
    return Some((before.value, after.value));
  }

  /** Accepts exactly the acceptable proposals and returns their index and write order. */
  method PrepareCandidateRecordGraph(existing: seq<Record>, proposed: seq<Record>)
    returns (r: Result<(map<Key, Record>, seq<Record>)>)
    ensures r.Ok? <==> Acceptable(existing, proposed)
    ensures r.Err? ==> r.code == INVALID
    ensures r.Ok? ==> r.value.0 == IndexOf(existing + proposed)
    ensures r.Ok? ==> WrittenInLayers(r.value.1, r.value.0, IndexOf(existing).Keys)
  {
    var indexes := IndexRecords(existing, proposed);
    if indexes == None {
      return Err(INVALID);
    }
    var (base, index) := indexes.value;
    var order := OrderNewRecords(base, index);
    if order == None {
      return Err(INVALID);
    }
    return Ok((index, order.value));
  }

  lemma LookupFollowsLayers(index: map<Key, Record>, existing: set<Key>, keys: seq<Key>)
    requires existing <= index.Keys && Layers(Needs(index), index.Keys - existing, existing) == Some(keys)
    requires forall k | k in keys :: k in index
    ensures WrittenInLayers(Lookup(index, keys), index, existing)
  {
  }

  lemma ExistingStay(before: map<Key, Record>, after: map<Key, Record>, existing: seq<Record>, proposed: seq<Record>)
    requires Indexes(before, existing) && Indexes(after, existing + proposed)
    ensures before.Keys <= after.Keys && Restrict(after, before.Keys) == before
  {
    forall k | k in before ensures k in after && after[k] == before[k] {
      assert before[k] in existing + proposed;
    }
  }

  // ---------------------------------------------------------------- main results

  lemma IndexOfIndexes(records: seq<Record>)
    requires Consistent(records)
    ensures Indexes(IndexOf(records), records)
  {
  }

  /** The returned order writes each new record exactly once and nothing else, and the store is
      closed after every prefix of the writes. */
  lemma WriteOrderIsSafe(existing: seq<Record>, proposed: seq<Record>, order: seq<Record>)
    requires Acceptable(existing, proposed)
    requires WrittenInLayers(order, IndexOf(existing + proposed), IndexOf(existing).Keys)
    ensures forall r :: r in order <==> r in proposed && r.key !in IndexOf(existing)
    ensures forall i, j | 0 <= i < j < |order| :: order[i].key != order[j].key
    ensures forall n | 0 <= n <= |order| :: Closed(IndexOf(existing + order[..n]))
  {
    assert forall x | x in existing :: x in existing + proposed;
    IndexOfIndexes(existing + proposed);
    IndexOfIndexes(existing);
    ExistingStay(IndexOf(existing), IndexOf(existing + proposed), existing, proposed);
    SafeInIndex(IndexOf(existing), IndexOf(existing + proposed), existing, proposed, order);
  }

  lemma SafeInIndex(base: map<Key, Record>, index: map<Key, Record>, existing: seq<Record>, proposed: seq<Record>,
                    order: seq<Record>)
    requires Indexes(base, existing) && Indexes(index, existing + proposed)
    requires base.Keys <= index.Keys && Restrict(index, base.Keys) == base && Closed(base) && Closed(index)
    requires WrittenInLayers(order, index, base.Keys)
    ensures forall r :: r in order <==> r in proposed && r.key !in base
    ensures forall i, j | 0 <= i < j < |order| :: order[i].key != order[j].key
    ensures forall n | 0 <= n <= |order| :: Closed(IndexOf(existing + order[..n]))
  {
    var added := index.Keys - base.Keys;
    var keys := Layers(Needs(index), added, base.Keys).value;
    LayersFacts(Needs(index), added, base.Keys);
    forall i | 0 <= i < |order| ensures order[i].key == keys[i] && keys[i] in added {
      assert keys[i] in KeySet(keys);
    }
    OrderHoldsNewRecords(base, index, existing, proposed, order, keys);
    forall n | 0 <= n <= |order| ensures Closed(IndexOf(existing + order[..n])) {
      EveryPrefixCloses(index, base.Keys, keys, n);
      PrefixIndex(base, index, existing, proposed, order, keys, n);
    }
  }

  lemma OrderHoldsNewRecords(base: map<Key, Record>, index: map<Key, Record>, existing: seq<Record>,
                             proposed: seq<Record>, order: seq<Record>, keys: seq<Key>)
    requires Indexes(base, existing) && Indexes(index, existing + proposed)
    requires |order| == |keys| && KeySet(keys) == index.Keys - base.Keys
    requires forall i | 0 <= i < |order| :: keys[i] in index && keys[i] !in base && order[i] == index[keys[i]]
    ensures forall r :: r in order <==> r in proposed && r.key !in base
  {
    forall r | r in order ensures r in proposed && r.key !in base {
      var i :| 0 <= i < |order| && order[i] == r;
      assert index[keys[i]] in existing + proposed;
    }
    forall r | r in proposed && r.key !in base ensures r in order {
      assert r in existing + proposed && r.key in KeySet(keys);
      var i :| 0 <= i < |keys| && keys[i] == r.key;
      assert order[i] == r;
    }
  }

  lemma PrefixIndex(base: map<Key, Record>, index: map<Key, Record>, existing: seq<Record>, proposed: seq<Record>,
                    order: seq<Record>, keys: seq<Key>, n: nat)
    requires Indexes(base, existing) && Indexes(index, existing + proposed)
    requires base.Keys <= index.Keys && Restrict(index, base.Keys) == base
    requires |order| == |keys| && n <= |order|
    requires forall i | 0 <= i < |order| :: keys[i] in index && order[i] == index[keys[i]]
    ensures IndexOf(existing + order[..n]) == Restrict(index, base.Keys + KeySet(keys[..n]))
  {
    var written, store := existing + order[..n], Restrict(index, base.Keys + KeySet(keys[..n]));
    forall r | r in written ensures r.key in store && store[r.key] == r {
      if r in existing {
        assert Restrict(index, base.Keys)[r.key] == r;
      } else {
        var i :| 0 <= i < n && order[..n][i] == r;
        assert keys[..n][i] == r.key;
      }
    }
    forall k | k in store ensures store[k] in written && store[k].key == k {
      if k in base {
        assert Restrict(index, base.Keys)[k] == base[k];
      } else {
        var i :| 0 <= i < n && keys[..n][i] == k;
        assert order[..n][i] == store[k];
      }
    }
    IndexIsIndexOf(store, written);
  }

  /** Neither the outcome nor the order depends on the order in which records are proposed or stored. */
  lemma ProposalOrderIrrelevant(existing: seq<Record>, proposed: seq<Record>, existing': seq<Record>,
                                proposed': seq<Record>, order: seq<Record>, order': seq<Record>)
    requires multiset(existing) == multiset(existing') && multiset(proposed) == multiset(proposed')
    ensures Acceptable(existing, proposed) <==> Acceptable(existing', proposed')
    ensures (&& WrittenInLayers(order, IndexOf(existing + proposed), IndexOf(existing).Keys)
             && WrittenInLayers(order', IndexOf(existing' + proposed'), IndexOf(existing').Keys)) ==> order == order'
  {
    MemberOfPermutation(existing, existing');
    MemberOfPermutation(proposed, proposed');
    SameMembersSameIndex(existing, existing');
    SameMembersSameIndex(existing + proposed, existing' + proposed');
  }

  lemma SameMembersSameIndex(a: seq<Record>, b: seq<Record>)
    requires forall r :: r in a <==> r in b
    ensures IndexOf(a) == IndexOf(b) && (Consistent(a) <==> Consistent(b))
  {
  }
}
