/** Experiment manifests as JSON trees, and the exact diff between two of them:
    generation in key order, re-sorting by path text, and replay. */
module ManifestDiff {
  import opened Outcomes
  import opened Sorting
  import opened Keys
  import opened JsonPointer

  /** Canonical JSON. Two values have the same canonical bytes exactly when they are equal here;
      a decimal is a coefficient with no trailing zero and a positive number of places. */
  datatype Json =
    | Null
    | Bool(flag: bool)
    | Int(value: int)
    | Dec(coefficient: int, places: nat)
    | Str(text: string)
    | Arr(items: seq<Json>)
    | Obj(members: map<string, Json>)

  datatype Edit = Add(after: Json) | Remove(before: Json) | Replace(before: Json, after: Json)

  datatype Change = Change(path: string, edit: Edit)

  /** The identity of a manifest is modelled by the manifest itself. */
  datatype Diff = Diff(parentIdentity: Json, derivedIdentity: Json, changes: seq<Change>)

  // ---------------------------------------------------------------- record constructors

  function ChangeError(c: Change): Option<string> {
    if Parse(c.path).Err? then Some(Parse(c.path).code)
    else if c.path == "" && !c.edit.Replace? then Some("the object manifest root can only be replaced")
    else if c.edit.Replace? && c.edit.before == c.edit.after then Some("replace change must alter the value")
    else None
  }

  /** A change its constructor accepts. */
  predicate ValidChange(c: Change) { ChangeError(c).None? }

  function MakeChange(path: string, edit: Edit): Result<Change> {
    var c := Change(path, edit);
    match ChangeError(c) case Some(code) => Err(code) case None => Ok(c)
  }

  predicate PathLe(a: Change, b: Change) { TextLe(a.path, b.path) }

  predicate PathsUnique(cs: seq<Change>) {
    forall i, j | 0 <= i < j < |cs| :: cs[i].path != cs[j].path
  }

  /** The forward-only overlap check the constructor makes on its sorted changes. */
  predicate NoForwardOverlap(cs: seq<Change>) {
    forall i, j | 0 <= i < j < |cs| :: !IsPointerAncestor(cs[i].path, cs[j].path)
  }

  function MakeDiff(parentIdentity: Json, derivedIdentity: Json, changes: seq<Change>): Result<Diff> {
    if parentIdentity == derivedIdentity then Err("manifest diff must change the manifest identity")
    else if changes == [] then Err("manifest diff must contain changes")
    else if exists c | c in changes :: !ValidChange(c) then Err("manifest diff contains an invalid change")
    else
      var ordered := Sort(changes, PathLe);
      if !PathsUnique(ordered) then Err("manifest diff paths must be unique")
      else if !NoForwardOverlap(ordered) then Err("manifest diff paths must not overlap")
      else Ok(Diff(parentIdentity, derivedIdentity, ordered))
  }

  // ---------------------------------------------------------------- generation

  /** The changes emitted below `path`, in the order they are emitted. */
  function Changes(path: string, parent: Json, derived: Json): seq<Change>
    decreases parent, 1, 0
  {
    if parent.Obj? && derived.Obj? then
      ChangesOfKeys(path, parent, derived, SortedTexts(parent.members.Keys + derived.members.Keys))
    else if parent != derived then [Change(path, Replace(parent, derived))]
    else []
  }

  function ChangesOfKeys(path: string, parent: Json, derived: Json, keys: seq<string>): seq<Change>
    requires parent.Obj? && derived.Obj?
    requires forall k | k in keys :: k in parent.members || k in derived.members
    decreases parent, 0, |keys|
  {
    if keys == [] then []
    else ChangesOfKey(path, parent, derived, keys[0]) + ChangesOfKeys(path, parent, derived, keys[1..])
  }

  function ChangesOfKey(path: string, parent: Json, derived: Json, k: string): seq<Change>
    requires parent.Obj? && derived.Obj?
    requires k in parent.members || k in derived.members
    decreases parent, 0, 0
  {
    var childPath := path + "/" + Escape(k);
    if k !in parent.members then [Change(childPath, Add(derived.members[k]))]
    else if k !in derived.members then [Change(childPath, Remove(parent.members[k]))]
    else Changes(childPath, parent.members[k], derived.members[k])
  }

  // ---------------------------------------------------------------- replay

  /** A member of an object, or its absence. */
  function Member(m: map<string, Json>, key: string): Option<Json> {
    if key in m then Some(m[key]) else None
  }

  function WithMember(m: map<string, Json>, key: string, slot: Option<Json>): map<string, Json> {
    match slot case Some(v) => m[key := v] case None => m - {key}
  }

  /** The effect of one edit on a whole value, by the tokens that address the edited place. */
  function ApplyAt(root: Json, tokens: seq<Token>, edit: Edit): Result<Json>
    decreases |tokens|, 1
  {
    if tokens == [] then
      match edit
      case Add(_) => Err("cannot add an already present root")
      case Remove(before) =>
        if root != before then Err("manifest diff before value mismatch") else Err("cannot remove the manifest root")
      case Replace(before, after) => if root != before then Err("manifest diff before value mismatch") else Ok(after)
    else if !root.Obj? then Err("manifest diff traverses a non-object")
    else
      match ApplyToMember(Member(root.members, tokens[0]), tokens[1..], edit)
      case Ok(slot) => Ok(Obj(WithMember(root.members, tokens[0], slot)))
      case Err(code) => Err(code)
  }

  /** The effect on one member, or on the place `rest` addresses inside it. */
  function ApplyToMember(slot: Option<Json>, rest: seq<Token>, edit: Edit): Result<Option<Json>>
    decreases |rest|, 2
  {
    if rest != [] then
      if slot.None? || !slot.value.Obj? then Err("manifest diff path does not exist")
      else match ApplyAt(slot.value, rest, edit)
        case Ok(child) => Ok(Some(child))
        case Err(code) => Err(code)
    else
      match edit
      case Add(after) => if slot.Some? then Err("manifest add path already exists") else Ok(Some(after))
      case Remove(before) => if slot != Some(before) then Err("manifest diff before value mismatch") else Ok(None)
      case Replace(before, after) =>
        if slot != Some(before) then Err("manifest diff before value mismatch") else Ok(Some(after))
  }

  function ApplyChange(root: Json, c: Change): Result<Json> {
    match Parse(c.path)
    case Ok(tokens) => ApplyAt(root, tokens, c.edit)
    case Err(code) => Err(code)
  }

  function ApplyChanges(root: Json, cs: seq<Change>): Result<Json>
    decreases |cs|
  {
    if cs == [] then Ok(root)
    else match ApplyChange(root, cs[0])
      case Ok(next) => ApplyChanges(next, cs[1..])
      case Err(code) => Err(code)
  }

  function ApplyDiff(diff: Diff, parent: Json): Result<Json> {
    if !parent.Obj? then Err("parent manifest must be a JSON object")
    else if parent != diff.parentIdentity then Err("parent manifest identity mismatch")
    else match ApplyChanges(parent, diff.changes)
      case Err(code) => Err(code)
      case Ok(result) =>
        if !result.Obj? then Err("derived manifest must be a JSON object")
        else if result != diff.derivedIdentity then Err("derived manifest identity mismatch")
        else Ok(result)
  }

  // ---------------------------------------------------------------- independence and commutation

  function TokensOf(c: Change): seq<Token> {
    if Parse(c.path).Ok? then Parse(c.path).value else []
  }

  /** The two changes address different places, neither inside the other. */
  ghost predicate Independent(a: Change, b: Change) {
    !(TokensOf(a) <= TokensOf(b)) && !(TokensOf(b) <= TokensOf(a))
  }

  ghost predicate PairwiseIndependent(cs: seq<Change>) {
    cs == [] || ((forall c | c in cs[1..] :: Independent(cs[0], c)) && PairwiseIndependent(cs[1..]))
  }

  /** Equal outcomes: the same value, or failure on both sides (with whatever code). */
  predicate SameOutcome<T(==)>(a: Result<T>, b: Result<T>) {
    (a.Ok? && b.Ok? && a.value == b.value) || (a.Err? && b.Err?)
  }

  function Then(first: Result<Json>, tokens: seq<Token>, edit: Edit): Result<Json> {
    match first
    case Ok(root) => ApplyAt(root, tokens, edit)
    case Err(code) => Err(code)
  }

  lemma WithMemberAlgebra(m: map<string, Json>, k: string, x: Option<Json>, l: string, y: Option<Json>)
    ensures Member(WithMember(m, k, x), l) == if k == l then x else Member(m, l)
    ensures k == l ==> WithMember(WithMember(m, k, x), l, y) == WithMember(m, l, y)
    ensures k != l ==> WithMember(WithMember(m, k, x), l, y) == WithMember(WithMember(m, l, y), k, x)
  {
  }

  /** Edits at independent places commute, failure included. */
  lemma {:induction false} EditsCommute(root: Json, s: seq<Token>, e: Edit, t: seq<Token>, f: Edit)
    requires !(s <= t) && !(t <= s)
    ensures SameOutcome(Then(ApplyAt(root, s, e), t, f), Then(ApplyAt(root, t, f), s, e))
    decreases |s|
  {
    if root.Obj? {
      var m := root.members;
      if s[0] == t[0] {
        assert s == [s[0]] + s[1..] && t == [t[0]] + t[1..];
        assert !(s[1..] <= t[1..]) && !(t[1..] <= s[1..]);
        TwiceInOneMember(m, s, e, t, f);
        TwiceInOneMember(m, t, f, s, e);
        if s[0] in m && m[s[0]].Obj? {
          EditsCommute(m[s[0]], s[1..], e, t[1..], f);
          ApplyStaysObject(m[s[0]], s[1..], e);
          ApplyStaysObject(m[s[0]], t[1..], f);
        }
      } else {
        EditsInTwoMembers(m, s, e, t, f);
      }
    }
  }

  lemma EditsInTwoMembers(m: map<string, Json>, s: seq<Token>, e: Edit, t: seq<Token>, f: Edit)
    requires s != [] && t != [] && s[0] != t[0]
    ensures SameOutcome(Then(ApplyAt(Obj(m), s, e), t, f), Then(ApplyAt(Obj(m), t, f), s, e))
  {
    var a, b := ApplyToMember(Member(m, s[0]), s[1..], e), ApplyToMember(Member(m, t[0]), t[1..], f);
    if a.Ok? { WithMemberAlgebra(m, s[0], a.value, t[0], None); }
    if b.Ok? { WithMemberAlgebra(m, t[0], b.value, s[0], None); }
    if a.Ok? && b.Ok? { WithMemberAlgebra(m, s[0], a.value, t[0], b.value); }
  }

  /** Two edits inside one member act on the object as they act on that member. */
  lemma TwiceInOneMember(m: map<string, Json>, s: seq<Token>, e: Edit, t: seq<Token>, f: Edit)
    requires s != [] && t != [] && s[0] == t[0]
    ensures Then(ApplyAt(Obj(m), s, e), t, f) ==
            match ThenMember(ApplyToMember(Member(m, s[0]), s[1..], e), t[1..], f)
            case Ok(slot) => Ok(Obj(WithMember(m, s[0], slot)))
            case Err(code) => Err(code)
  {
    var a := ApplyToMember(Member(m, s[0]), s[1..], e);
    if a.Ok? {
      var b := ApplyToMember(a.value, t[1..], f);
      WithMemberAlgebra(m, s[0], a.value, s[0], if b.Ok? then b.value else None);
    }
  }

  function ThenMember(first: Result<Option<Json>>, rest: seq<Token>, edit: Edit): Result<Option<Json>> {
    match first
    case Ok(slot) => ApplyToMember(slot, rest, edit)
    case Err(code) => Err(code)
  }

  /** An edit below an object leaves it an object. */
  lemma ApplyStaysObject(root: Json, tokens: seq<Token>, edit: Edit)
    requires tokens != []
    ensures ApplyAt(root, tokens, edit).Ok? ==> ApplyAt(root, tokens, edit).value.Obj?
  {
  }
}
