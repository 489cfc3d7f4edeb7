/** The diff and its replay as the program runs them: one shared list of changes that the
    recursive comparison appends to, and nested dictionaries edited in place. */
module ManifestInPlace {
  import opened Outcomes
  import opened Keys
  import opened JsonPointer
  import opened ManifestDiff
  import opened ManifestTheorems
  import opened ManifestRoundTrip

  // ---------------------------------------------------------------- generation

  class ChangeList {
    var items: seq<Change>

    constructor ()
      ensures items == []
    {
      items := [];
    }
  }

  lemma ChildPathParses(path: string, key: Token)
    requires Parse(path).Ok?
    ensures Parse(path + "/" + Escape(key)).Ok?
  {
    var tokens := Parse(path).value;
    PointerRoundTrip(path, tokens);
    EncodeSnoc(tokens, key);
    PointerRoundTrip("", tokens + [key]);
  }

  lemma FirstKey(path: string, parent: Json, derived: Json, keys: seq<string>, n: nat)
    requires parent.Obj? && derived.Obj? && n < |keys|
    requires forall k | k in keys :: k in parent.members || k in derived.members
    ensures ChangesOfKeys(path, parent, derived, keys[n..]) ==
            ChangesOfKey(path, parent, derived, keys[n]) + ChangesOfKeys(path, parent, derived, keys[n + 1..])
  {
    assert keys[n..][0] == keys[n] && keys[n..][1..] == keys[n + 1..];
  }

  /** Every change appended is one the change constructor accepts, and together they are `Changes`. */
  method DiffValues(path: string, parent: Json, derived: Json, changes: ChangeList)
    requires Parse(path).Ok?
    modifies changes
    ensures changes.items == old(changes.items) + Changes(path, parent, derived)
    decreases parent, 2
  {
    if parent.Obj? && derived.Obj? {
      DiffMembers(path, parent, derived, SortedTexts(parent.members.Keys + derived.members.Keys), changes);
      return;
    }
    if parent != derived {
      var made := MakeChange(path, Replace(parent, derived));
      changes.items := changes.items + [made.value];
    }
  }

  /** The comparison loop over the sorted union of the keys. */
  method DiffMembers(path: string, parent: Json, derived: Json, keys: seq<string>, changes: ChangeList)
    requires Parse(path).Ok? && parent.Obj? && derived.Obj?
    requires forall k | k in keys :: k in parent.members || k in derived.members
    modifies changes
    ensures changes.items == old(changes.items) + ChangesOfKeys(path, parent, derived, keys)
    decreases parent, 1
  {
    ghost var before, done := changes.items, [];
    assert keys[0..] == keys && keys[|keys|..] == [];
    for n := 0 to |keys|
      invariant changes.items == before + done
      invariant ChangesOfKeys(path, parent, derived, keys) == done + ChangesOfKeys(path, parent, derived, keys[n..])
    {
      assert keys[n] in keys;
      FirstKey(path, parent, derived, keys, n);
      DiffMember(path, parent, derived, keys[n], changes);
      ghost var emitted := ChangesOfKey(path, parent, derived, keys[n]);
      ConcatAssociates(before, done, emitted);
      ConcatAssociates(done, emitted, ChangesOfKeys(path, parent, derived, keys[n + 1..]));
      done := done + emitted;
    }
    assert done + [] == done;
  }

  lemma ConcatAssociates<T>(a: seq<T>, b: seq<T>, c: seq<T>)
    ensures a + (b + c) == (a + b) + c
  {
  }

  /** The body of the comparison loop: one key of the two objects. */
  method DiffMember(path: string, parent: Json, derived: Json, key: string, changes: ChangeList)
    requires Parse(path).Ok? && parent.Obj? && derived.Obj?
    requires key in parent.members || key in derived.members
    modifies changes
    ensures changes.items == old(changes.items) + ChangesOfKey(path, parent, derived, key)
    decreases parent, 0
  {
    var childPath := path + "/" + Escape(key);
    ChildPathParses(path, key);
    if key !in parent.members {
      var made := MakeChange(childPath, Add(derived.members[key]));
      changes.items := changes.items + [made.value];
    } else if key !in derived.members {
      var made := MakeChange(childPath, Remove(parent.members[key]));
      changes.items := changes.items + [made.value];
    } else {
      DiffValues(childPath, parent.members[key], derived.members[key], changes);
    }
  }

  method MakeBetween(parent: Json, derived: Json) returns (r: Result<Diff>)
    ensures r == Between(parent, derived)
  {
    if !parent.Obj? || !derived.Obj? {
      return Err("experiment manifests must be JSON objects");
    }
    var changes := new ChangeList();
    DiffValues("", parent, derived, changes);
    assert changes.items == Changes("", parent, derived);
    if changes.items == [] {
      return Err("cannot create a no-op manifest diff");
    }
    return MakeDiff(parent, derived, changes.items);
  }

  // ---------------------------------------------------------------- dictionaries on the heap

  /** A member of a dictionary: another dictionary, or a value that is not one. */
  datatype Node = Leaf(value: Json) | Sub(dict: JsonDict)

  class JsonDict {
    var members: map<string, Node>
    ghost var Repr: set<JsonDict>

    /** A tree of dictionaries: no dictionary is reachable along two paths. */
    ghost predicate Valid()
      reads this, Repr
      decreases Repr
    {
      && this in Repr
      && (forall k | k in members && members[k].Leaf? :: !members[k].value.Obj?)
      && (forall k | k in members && members[k].Sub? ::
            var child := members[k].dict;
            child in Repr && child.Repr <= Repr && this !in child.Repr && child.Valid())
      && (forall k, l | k in members && l in members && k != l && members[k].Sub? && members[l].Sub? ::
            members[k].dict.Repr !! members[l].dict.Repr)
    }

    /** The JSON object the dictionary holds: Python's `thaw_json` copy, read for comparison. */
    function Tree(): Json
      requires Valid()
      reads this, Repr
      decreases Repr
    {
      Obj(map k | k in members :: match members[k] case Leaf(v) => v case Sub(child) => child.Tree())
    }

    constructor ()
      ensures Valid() && fresh(Repr) && Repr == {this} && members == map[]
    {
      members := map[];
      Repr := {this};
    }

    /** Python's `d[key] = node` for a node nothing else refers to. */
    method SetMember(key: string, node: Node)
      requires Valid() && ValidNode(node) && NodeRepr(node) !! Repr
      modifies this
      ensures Valid() && Repr == old(Repr) + NodeRepr(node)
      ensures members == old(members)[key := node]
      ensures Tree() == Obj(old(Tree()).members[key := old(NodeTree(node))])
    {
      members := members[key := node];
      Repr := Repr + NodeRepr(node);
      MembersSet(this, key, node);
    }

    /** Python's `del d[key]`. */
    method DeleteMember(key: string)
      requires Valid()
      modifies this
      ensures Valid() && Repr == old(Repr) && members == old(members) - {key}
      ensures Tree() == Obj(old(Tree()).members - {key})
    {
      members := members - {key};
      MemberDropped(this, key);
    }
  }

  ghost predicate ValidNode(n: Node)
    reads if n.Sub? then {n.dict} + n.dict.Repr else {}
  {
    match n case Leaf(v) => !v.Obj? case Sub(d) => d.Valid()
  }

  ghost function NodeRepr(n: Node): set<JsonDict>
    reads if n.Sub? then {n.dict} else {}
  {
    match n case Leaf(_) => {} case Sub(d) => d.Repr
  }

  function NodeTree(n: Node): Json
    requires ValidNode(n)
    reads if n.Sub? then {n.dict} + n.dict.Repr else {}
  {
    match n case Leaf(v) => v case Sub(d) => d.Tree()
  }

  /** A fresh mutable copy of a JSON value. */
  method Thaw(v: Json) returns (n: Node)
    ensures ValidNode(n) && fresh(NodeRepr(n)) && NodeTree(n) == v
    decreases v
  {
    if !v.Obj? {
      return Leaf(v);
    }
    var d := new JsonDict();
    var todo := v.members.Keys;
    while todo != {}
      invariant d.Valid() && fresh(d.Repr)
      invariant todo <= v.members.Keys
      invariant d.Tree() == Obj(Copied(v.members, todo))
      decreases |todo|
    {
      var k :| k in todo;
      var child := Thaw(v.members[k]);
      d.SetMember(k, child);
      CopiedOne(v.members, todo, k);
      todo := todo - {k};
    }
    assert Copied(v.members, todo) == v.members;
    return Sub(d);
  }

  lemma CopiedOne(m: map<string, Json>, todo: set<string>, k: string)
    requires k in m && k in todo
    ensures Copied(m, todo)[k := m[k]] == Copied(m, todo - {k})
  {
  }

  /** The members that are no longer to do. */
  ghost function Copied(m: map<string, Json>, todo: set<string>): map<string, Json> {
    map k | k in m && k !in todo :: m[k]
  }

  /** The other members are as they were. */
  twostate lemma OthersKept(d: JsonDict, new k: string, new n: Node)
    requires old(d.Valid()) && d.members == old(d.members)[k := n]
    requires forall o | o in old(d.Repr) && o != d :: unchanged(o)
    ensures forall l | l in d.members && l != k && d.members[l].Sub? ::
              && d.members[l].dict.Valid() && d.members[l].dict.Repr == old(d.members[l].dict.Repr)
              && d.members[l].dict.Tree() == old(d.members[l].dict.Tree())
  {
    forall l | l in d.members && l != k && d.members[l].Sub?
      ensures d.members[l].dict.Valid() && d.members[l].dict.Repr == old(d.members[l].dict.Repr)
      ensures d.members[l].dict.Tree() == old(d.members[l].dict.Tree())
    {
      assert l in old(d.members) && old(d.members)[l] == d.members[l];
    }
  }

  /** Storing a fresh node under a key changes that member of the tree and no other. */
  twostate lemma MembersSet(d: JsonDict, new k: string, new n: Node)
    requires old(d.Valid())
    requires ValidNode(n) && NodeRepr(n) !! old(d.Repr)
    requires d.members == old(d.members)[k := n] && d.Repr == old(d.Repr) + NodeRepr(n)
    requires forall o | o in old(d.Repr) && o != d :: unchanged(o)
    ensures d.Valid()
    ensures d.Tree() == Obj(old(d.Tree()).members[k := NodeTree(n)])
  {
    OthersKept(d, k, n);
  }

  twostate lemma MemberDropped(d: JsonDict, new k: string)
    requires old(d.Valid())
    requires d.members == old(d.members) - {k} && d.Repr == old(d.Repr)
    requires forall o | o in old(d.Repr) && o != d :: unchanged(o)
    ensures d.Valid()
    ensures d.Tree() == Obj(old(d.Tree()).members - {k})
  {
    forall l | l in d.members && d.members[l].Sub?
      ensures d.members[l].dict.Valid() && d.members[l].dict.Repr == old(d.members[l].dict.Repr)
      ensures d.members[l].dict.Tree() == old(d.members[l].dict.Tree())
    {
      assert l in old(d.members) && old(d.members)[l] == d.members[l];
    }
  }

  // ---------------------------------------------------------------- one change, in place

  /** Following the tokens from `d` ends at the dictionary `target`. */
  ghost predicate Leads(d: JsonDict, tokens: seq<Token>, target: JsonDict)
    requires d.Valid()
    reads d, d.Repr
    ensures Leads(d, tokens, target) ==> target in d.Repr
    decreases |tokens|
  {
    if tokens == [] then d == target
    else tokens[0] in d.members && d.members[tokens[0]].Sub? && Leads(d.members[tokens[0]].dict, tokens[1..], target)
  }

  /** The dictionaries from `d` to the one the tokens lead to, both included. */
  ghost function Route(d: JsonDict, tokens: seq<Token>): (r: set<JsonDict>)
    requires d.Valid()
    reads d, d.Repr
    ensures r <= d.Repr
    decreases |tokens|
  {
    if tokens == [] || tokens[0] !in d.members || d.members[tokens[0]].Leaf? then {d}
    else {d} + Route(d.members[tokens[0]].dict, tokens[1..])
  }

  /** The object with the object at `tokens` replaced by one holding `inner`. */
  ghost function Replaced(m: map<string, Json>, tokens: seq<Token>, inner: map<string, Json>): map<string, Json>
    decreases |tokens|
  {
    if tokens == [] then inner
    else if tokens[0] in m && m[tokens[0]].Obj? then
      m[tokens[0] := Obj(Replaced(m[tokens[0]].members, tokens[1..], inner))]
    else m
  }

  lemma {:induction false} LeadsFurther(d: JsonDict, tokens: seq<Token>, target: JsonDict, token: Token)
    requires d.Valid() && Leads(d, tokens, target)
    ensures target in d.Repr && target.Repr <= d.Repr && target.Valid()
    ensures target in Route(d, tokens) && (Route(d, tokens) - {target}) !! target.Repr
    ensures token in target.members && target.members[token].Sub? ==>
              Leads(d, tokens + [token], target.members[token].dict)
    decreases |tokens|
  {
    if tokens == [] {
      assert [token][1..] == [];
    } else {
      assert (tokens + [token])[1..] == tokens[1..] + [token];
      LeadsFurther(d.members[tokens[0]].dict, tokens[1..], target, token);
    }
  }

  /** Below a reached dictionary an edit acts as it does on that dictionary alone. */
  lemma {:induction false} EditReaches(d: JsonDict, tokens: seq<Token>, target: JsonDict, rest: seq<Token>, edit: Edit)
    requires d.Valid() && Leads(d, tokens, target) && rest != []
    ensures target.Valid()
    ensures ApplyAt(d.Tree(), tokens + rest, edit) ==
            match ApplyAt(target.Tree(), rest, edit)
            case Ok(t) => Ok(Obj(Replaced(d.Tree().members, tokens, t.members)))
            case Err(code) => Err(code)
    ensures ApplyAt(target.Tree(), rest, edit).Ok? ==> ApplyAt(target.Tree(), rest, edit).value.Obj?
    decreases |tokens|
  {
    if tokens == [] {
      assert [] + rest == rest;
      ApplyStaysObject(target.Tree(), rest, edit);
    } else {
      var child := d.members[tokens[0]].dict;
      assert (tokens + rest)[1..] == tokens[1..] + rest;
      EditReaches(child, tokens[1..], target, rest, edit);
      assert d.Tree().members[tokens[0]] == child.Tree();
    }
  }

  /** A dictionary whose one member was rebuilt, everything else under it being untouched. */
  twostate lemma MemberRebuilt(d: JsonDict, new k: string, new grown: set<JsonDict>)
    requires old(d.Valid()) && d.members == old(d.members) && k in d.members && d.members[k].Sub?
    requires grown !! old(d.Repr) && d.Repr == old(d.Repr) + grown
    requires d.members[k].dict.Valid() && d.members[k].dict.Repr == old(d.members[k].dict.Repr) + grown
    requires forall o | o in old(d.Repr) && o != d && o !in old(d.members[k].dict.Repr) :: unchanged(o)
    ensures d.Valid()
    ensures d.Tree() == Obj(old(d.Tree()).members[k := d.members[k].dict.Tree()])
  {
    forall l | l in d.members && l != k && d.members[l].Sub?
      ensures d.members[l].dict.Valid() && d.members[l].dict.Repr == old(d.members[l].dict.Repr)
      ensures d.members[l].dict.Tree() == old(d.members[l].dict.Tree())
    {
      var sibling := d.members[l].dict;
      assert sibling in old(d.Repr) && sibling.Repr == old(sibling.Repr) by {
        assert sibling !in old(d.members[k].dict.Repr);
      }
      forall o | o in old(sibling.Repr) ensures unchanged(o) {
        assert o !in old(d.members[k].dict.Repr) && o in old(d.Repr) && o != d;
      }
    }
  }

  /** When only the reached dictionary's members changed, the whole tree changed only there. */
  twostate lemma {:induction false} Rebuilt(d: JsonDict, new tokens: seq<Token>, new target: JsonDict,
                                            new grown: set<JsonDict>)
    requires old(d.Valid()) && old(allocated(target)) && old(Leads(d, tokens, target))
    requires grown !! old(d.Repr)
    requires forall o | o in old(d.Repr) && o != target :: o.members == old(o.members)
    requires forall o | o in old(d.Repr) && o in old(Route(d, tokens)) :: o.Repr == old(o.Repr) + grown
    requires forall o | o in old(d.Repr) && o !in old(Route(d, tokens)) :: unchanged(o)
    requires target.Valid() && target.Repr == old(target.Repr) + grown
    ensures d.Valid() && d.Repr == old(d.Repr) + grown
    ensures d.Tree() == Obj(Replaced(old(d.Tree()).members, tokens, target.Tree().members))
    decreases |tokens|
  {
    if tokens != [] {
      assert target in old(d.members[tokens[0]].dict.Repr) && target != d;
      var child := d.members[tokens[0]].dict;
      assert old(Route(d, tokens)) == {d} + old(Route(child, tokens[1..]));
      Rebuilt(child, tokens[1..], target, grown);
      MemberRebuilt(d, tokens[0], grown);
    }
  }

  /** An edit that fails in the dictionary it reaches, or that finds no dictionary there, fails. */
  lemma EditStops(d: JsonDict, tokens: seq<Token>, n: nat, target: JsonDict, edit: Edit)
    requires d.Valid() && n < |tokens| && Leads(d, tokens[..n], target)
    ensures target.Valid()
    ensures ApplyAt(target.Tree(), tokens[n..], edit).Err? ==>
              ApplyAt(d.Tree(), tokens, edit) == Err(ApplyAt(target.Tree(), tokens[n..], edit).code)
    ensures n + 1 < |tokens| && (tokens[n] !in target.members || target.members[tokens[n]].Leaf?) ==>
              ApplyAt(target.Tree(), tokens[n..], edit) == Err("manifest diff path does not exist")
  {
    EditReaches(d, tokens[..n], target, tokens[n..], edit);
    assert tokens == tokens[..n] + tokens[n..];
    assert tokens[n..][0] == tokens[n] && |tokens[n..][1..]| == |tokens| - n - 1;
  }

  /** The walk along all tokens but the last. */
  method FindParent(root: JsonDict, tokens: seq<Token>, ghost edit: Edit) returns (parent: JsonDict, found: bool)
    requires root.Valid() && tokens != []
    ensures found ==> Leads(root, tokens[..|tokens| - 1], parent) && parent.Valid()
    ensures !found ==> ApplyAt(root.Tree(), tokens, edit) == Err("manifest diff path does not exist")
  {
    parent := root;
    for n := 0 to |tokens| - 1
      invariant Leads(root, tokens[..n], parent)
    {
      var token := tokens[n];
      LeadsFurther(root, tokens[..n], parent, token);
      if token !in parent.members || parent.members[token].Leaf? {
        EditStops(root, tokens, n, parent, edit);
        return parent, false;
      }
      assert tokens[..n] + [token] == tokens[..n + 1];
      parent := parent.members[token].dict;
    }
    LeadsFurther(root, tokens[..|tokens| - 1], parent, "");
    return parent, true;
  }

  lemma LastToken(m: map<string, Json>, key: string, edit: Edit)
    ensures ApplyAt(Obj(m), [key], edit) ==
            match ApplyToMember(Member(m, key), [], edit)
            case Ok(slot) => Ok(Obj(WithMember(m, key, slot)))
            case Err(code) => Err(code)
  {
    assert [key][1..] == [];
  }

  /** Once the holder of the last key is found, the edit is settled by that one member. */
  lemma EditSettledByMember(root: JsonDict, way: seq<Token>, parent: JsonDict, key: string, edit: Edit)
    requires root.Valid() && Leads(root, way, parent)
    ensures parent.Valid() && parent in Route(root, way) && (Route(root, way) - {parent}) !! parent.Repr
    ensures parent.Repr <= root.Repr
    ensures ApplyAt(root.Tree(), way + [key], edit) ==
            match ApplyToMember(Member(parent.Tree().members, key), [], edit)
            case Ok(slot) => Ok(Obj(Replaced(root.Tree().members, way, WithMember(parent.Tree().members, key, slot))))
            case Err(code) => Err(code)
  {
    LeadsFurther(root, way, parent, key);
    EditReaches(root, way, parent, [key], edit);
    LastToken(parent.Tree().members, key, edit);
  }

  method StoreThawed(parent: JsonDict, key: string, after: Json) returns (ghost grown: set<JsonDict>)
    requires parent.Valid()
    modifies parent
    ensures parent.Valid() && parent.Repr == old(parent.Repr) + grown && fresh(grown)
    ensures parent.Tree() == Obj(WithMember(old(parent.Tree()).members, key, Some(after)))
  {
    var node := Thaw(after);
    grown := NodeRepr(node);
    parent.SetMember(key, node);
  }

  /** The edit of the last key, made on the dictionary that holds it. */
  method EditMember(parent: JsonDict, key: string, edit: Edit)
    returns (failure: Option<string>, ghost grown: set<JsonDict>)
    requires parent.Valid()
    modifies parent
    ensures parent.Valid() && parent.Repr == old(parent.Repr) + grown && fresh(grown)
    ensures match ApplyToMember(Member(old(parent.Tree()).members, key), [], edit)
            case Ok(slot) => failure == None && parent.Tree() == Obj(WithMember(old(parent.Tree()).members, key, slot))
            case Err(code) => failure == Some(code) && grown == {} && unchanged(parent)
  {
    grown := {};
    var slot := if key in parent.members then Some(NodeTree(parent.members[key])) else None;
    assert slot == Member(parent.Tree().members, key);
    match edit {
      case Add(after) =>
        if slot.Some? {
          return Some("manifest add path already exists"), {};
        }
        grown := StoreThawed(parent, key, after);
      case Remove(before) =>
        if slot != Some(before) {
          return Some("manifest diff before value mismatch"), {};
        }
        parent.DeleteMember(key);
      case Replace(before, after) =>
        if slot != Some(before) {
          return Some("manifest diff before value mismatch"), {};
        }
        grown := StoreThawed(parent, key, after);
    }
    return None, grown;
  }

  /** Ghost bookkeeping: the dictionaries above the edited one come to own its new nodes. */
  ghost method GrowRoute(above: set<JsonDict>, parent: JsonDict, grown: set<JsonDict>)
    requires parent.Valid() && above !! parent.Repr
    modifies above
    ensures forall o | o in above :: o.members == old(o.members) && o.Repr == old(o.Repr) + grown
    ensures parent.Valid() && parent.Tree() == old(parent.Tree()) && parent.Repr == old(parent.Repr)
  {
    forall o | o in above {
      o.Repr := o.Repr + grown;
    }
  }

  /** The edit of the last key, seen from the root of the tree. */
  method EditAtEnd(root: JsonDict, ghost way: seq<Token>, parent: JsonDict, key: string, edit: Edit)
    returns (failure: Option<string>)
    requires root.Valid() && Leads(root, way, parent)
    requires parent.Valid() && parent.Repr <= root.Repr
    requires parent in Route(root, way) && (Route(root, way) - {parent}) !! parent.Repr
    modifies root.Repr
    ensures root.Valid() && fresh(root.Repr - old(root.Repr))
    ensures match ApplyToMember(Member(old(parent.Tree()).members, key), [], edit)
            case Ok(slot) =>
              && failure == None
              && root.Tree() ==
                   Obj(Replaced(old(root.Tree()).members, way, WithMember(old(parent.Tree()).members, key, slot)))
            case Err(code) => failure == Some(code) && root.Tree() == old(root.Tree())
  {
    ghost var above := Route(root, way) - {parent};
    ghost var grown;
    failure, grown := EditMember(parent, key, edit);
    if failure == None {
      GrowRoute(above, parent, grown);
      Rebuilt(root, way, parent, grown);
    }
  }

  /** One change applied to a tree of dictionaries in place. A failing change leaves the tree as it was. */
  method ApplyInDict(root: JsonDict, tokens: seq<Token>, edit: Edit) returns (failure: Option<string>)
    requires root.Valid() && tokens != []
    modifies root.Repr
    ensures root.Valid() && fresh(root.Repr - old(root.Repr))
    ensures match ApplyAt(old(root.Tree()), tokens, edit)
            case Ok(t) => failure == None && root.Tree() == t
            case Err(code) => failure == Some(code) && root.Tree() == old(root.Tree())
  {
    var parent, found := FindParent(root, tokens, edit);
    if !found {
      return Some("manifest diff path does not exist");
    }
    ghost var way := tokens[..|tokens| - 1];
    var key := tokens[|tokens| - 1];
    assert tokens == way + [key];
    EditSettledByMember(root, way, parent, key, edit);
    failure := EditAtEnd(root, way, parent, key, edit);
  }

  // ---------------------------------------------------------------- replay

  /** One change applied to the running value: a replaced root is a fresh value, any other
      change edits the dictionaries in place. */
  method ApplyChangeTo(root: Node, c: Change) returns (r: Result<Node>)
    requires ValidNode(root)
    modifies NodeRepr(root)
    ensures match ApplyChange(old(NodeTree(root)), c)
            case Ok(t) => r.Ok? && ValidNode(r.value) && NodeTree(r.value) == t
            case Err(code) => r == Err(code)
    ensures r.Ok? ==> fresh(NodeRepr(r.value) - old(NodeRepr(root)))
  {
    var parsed := ParsePointer(c.path);
    if parsed.Err? {
      return Err(parsed.code);
    }
    var tokens := parsed.value;
    if tokens == [] {
      if c.edit.Add? {
        return Err("cannot add an already present root");
      }
      if NodeTree(root) != c.edit.before {
        return Err("manifest diff before value mismatch");
      }
      if c.edit.Remove? {
        return Err("cannot remove the manifest root");
      }
      var node := Thaw(c.edit.after);
      return Ok(node);
    }
    if root.Leaf? {
      return Err("manifest diff traverses a non-object");
    }
    var failure := ApplyInDict(root.dict, tokens, c.edit);
    if failure.Some? {
      return Err(failure.value);
    }
    return Ok(root);
  }

  /** `ManifestDiff.apply`, on a private copy of the parent. */
  method Apply(diff: Diff, parent: Json) returns (r: Result<Json>)
    ensures r == ApplyDiff(diff, parent)
    ensures r.Ok? ==> parent == diff.parentIdentity && r.value == diff.derivedIdentity
  {
    var result := Thaw(parent);
    if result.Leaf? {
      return Err("parent manifest must be a JSON object");
    }
    if NodeTree(result) != diff.parentIdentity {
      return Err("parent manifest identity mismatch");
    }
    assert diff.changes[0..] == diff.changes && diff.changes[|diff.changes|..] == [];
    for n := 0 to |diff.changes|
      invariant ValidNode(result) && fresh(NodeRepr(result))
      invariant ApplyChanges(NodeTree(result), diff.changes[n..]) == ApplyChanges(parent, diff.changes)
    {
      assert diff.changes[n..][0] == diff.changes[n] && diff.changes[n..][1..] == diff.changes[n + 1..];
      var next := ApplyChangeTo(result, diff.changes[n]);
      if next.Err? {
        return Err(next.code);
      }
      result := next.value;
    }
    if result.Leaf? {
      return Err("derived manifest must be a JSON object");
    }
    if NodeTree(result) != diff.derivedIdentity {
      return Err("derived manifest identity mismatch");
    }
    return Ok(NodeTree(result));
  }
}
