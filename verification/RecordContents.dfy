/** What a record holds at any depth, and what closure of an index means for it. */
module RecordContents {
  import opened Outcomes
  import opened Keys
  import opened RecordGraph

  /** The field found by going down the embedded records along a path of positions. */
  ghost function FieldAt(r: Record, path: seq<nat>): Option<Field>
    decreases |path|
  {
    if path == [] || path[0] >= |r.fields| then None
    else if |path| == 1 then Some(r.fields[path[0]])
    else
      match r.fields[path[0]]
      case Reference(_, _) => None
      case Embedded(inner) => FieldAt(inner, path[1..])
  }

  ghost predicate Holds(r: Record, d: Field) {
    exists path :: FieldAt(r, path) == Some(d)
  }

  /** The dependencies of a record are what it holds, at any depth, and nothing else. */
  lemma {:induction false} DependenciesAreHeld(r: Record, d: Field)
    ensures d in Dependencies(r) <==> Holds(r, d)
    decreases r, |r.fields| + 1
  {
    FieldsFromAreHeld(r, 0, d);
    if Holds(r, d) {
      var path :| FieldAt(r, path) == Some(d);
      assert HeldFrom(r, 0, d);
    }
  }

  ghost predicate HeldFrom(r: Record, n: nat, d: Field) {
    exists path :: path != [] && path[0] >= n && FieldAt(r, path) == Some(d)
  }

  lemma {:induction false} FieldsFromAreHeld(r: Record, n: nat, d: Field)
    requires n <= |r.fields|
    ensures d in FieldsFrom(r, n) <==> HeldFrom(r, n, d)
    decreases r, |r.fields| - n
  {
    if n < |r.fields| {
      FieldsFromAreHeld(r, n + 1, d);
      var field := r.fields[n];
      if d == field { assert FieldAt(r, [n]) == Some(d); }
      if field.Embedded? { InnerIsHeld(r, n, d); }
      if HeldFrom(r, n, d) && !HeldFrom(r, n + 1, d) {
        var path :| path != [] && path[0] >= n && FieldAt(r, path) == Some(d);
        assert path[0] == n;
        if |path| > 1 && field.Embedded? { assert FieldAt(field.record, path[1..]) == Some(d); }
      }
    }
  }

  lemma {:induction false} InnerIsHeld(r: Record, n: nat, d: Field)
    requires n < |r.fields| && r.fields[n].Embedded?
    ensures d in Dependencies(r.fields[n].record) <==> Holds(r.fields[n].record, d)
    ensures Holds(r.fields[n].record, d) ==> HeldFrom(r, n, d)
    decreases r, 0
  {
    var inner := r.fields[n].record;
    DependenciesAreHeld(inner, d);
    if Holds(inner, d) {
      var path :| FieldAt(inner, path) == Some(d);
      assert ([n] + path)[1..] == path;
      assert FieldAt(r, [n] + path) == Some(d);
    }
  }

  /** What a closed index has for everything its records hold: for a reference a record of that key and logical
      id, and for an embedded record that very record. */
  lemma ClosedMeans(index: map<Key, Record>)
    ensures Closed(index) <==>
              forall k, d | k in index && Holds(index[k], d) ::
                match d
                case Reference(key, id) => key in index && index[key].key == key && index[key].logicalId == id
                case Embedded(r) => r.key in index && index[r.key] == r
  {
    forall k, d | k in index ensures d in Dependencies(index[k]) <==> Holds(index[k], d) {
      DependenciesAreHeld(index[k], d);
    }
    if forall k, d | k in index && Holds(index[k], d) ::
        match d
        case Reference(key, id) => key in index && index[key].key == key && index[key].logicalId == id
        case Embedded(r) => r.key in index && index[r.key] == r
    {
      forall k, d | k in index && d in Dependencies(index[k]) ensures Resolves(index, d) { }
    }
  }
}
