/** What edits and diffs do to a manifest, told by looking places up. */
module ManifestEdits {
  import opened Outcomes
  import opened Keys
  import opened JsonPointer
  import opened ManifestDiff
  import opened ManifestTheorems
  import opened ManifestRoundTrip

  /** What stands at a place, if anything does. */
  ghost function At(root: Json, place: seq<Token>): Option<Json>
    decreases |place|
  {
    if place == [] then Some(root)
    else if !root.Obj? || place[0] !in root.members then None
    else At(root.members[place[0]], place[1..])
  }

  ghost predicate IsObject(slot: Option<Json>) { slot.Some? && slot.value.Obj? }

  ghost predicate StrictlyAbove(a: seq<Token>, b: seq<Token>) { a <= b && a != b }

  // ---------------------------------------------------------------- one edit

  /** An addition needs an object in which nothing stands at the place; the others need the very value they
      say was there before, and a root cannot be removed. */
  ghost predicate Fits(root: Json, place: seq<Token>, edit: Edit) {
    match edit
    case Add(_) => place != [] && IsObject(At(root, place[..|place| - 1])) && At(root, place) == None
    case Remove(before) => place != [] && At(root, place) == Some(before)
    case Replace(before, _) => At(root, place) == Some(before)
  }

  /** What the edit leaves at its place. */
  function Left(edit: Edit): Option<Json> {
    match edit case Add(after) => Some(after) case Remove(_) => None case Replace(_, after) => Some(after)
  }

  lemma {:induction false} EditSucceedsExactly(root: Json, place: seq<Token>, edit: Edit)
    ensures ApplyAt(root, place, edit).Ok? <==> Fits(root, place, edit)
    decreases |place|
  {
    if |place| > 1 {
      var front := place[..|place| - 1];
      assert front[0] == place[0] && front[1..] == place[1..][..|place[1..]| - 1];
      if root.Obj? && place[0] in root.members {
        var child := root.members[place[0]];
        EditSucceedsExactly(child, place[1..], edit);
        assert Fits(root, place, edit) <==> Fits(child, place[1..], edit) by {
          assert At(root, place) == At(child, place[1..]);
          assert At(root, front) == At(child, front[1..]);
        }
        assert ApplyAt(root, place, edit).Ok? <==> ApplyToMember(Some(child), place[1..], edit).Ok?;
      }
    } else if |place| == 1 {
      assert place[..0] == [] && place[1..] == [];
      assert At(root, place) == if root.Obj? then Member(root.members, place[0]) else None;
    }
  }

  /** After an edit its place holds what the edit leaves, every unrelated place is as before, and what is
      above is still an object. */
  lemma {:induction false} EditChangesOnePlace(root: Json, place: seq<Token>, edit: Edit, at: seq<Token>)
    requires ApplyAt(root, place, edit).Ok?
    ensures var edited := ApplyAt(root, place, edit).value;
            && (place <= at ==>
                  At(edited, at) == match Left(edit) case None => None case Some(v) => At(v, at[|place|..]))
            && (!(place <= at) && !(at <= place) ==> At(edited, at) == At(root, at))
            && (StrictlyAbove(at, place) ==> IsObject(At(root, at)) && IsObject(At(edited, at)))
    decreases |place|
  {
    if place == [] {
      assert at[0..] == at;
    } else {
      ApplyStaysObject(root, place, edit);
      var slot := ApplyToMember(Member(root.members, place[0]), place[1..], edit).value;
      if at != [] {
        WithMemberAlgebra(root.members, place[0], slot, at[0], None);
        BelowFirst(place, at);
        if at[0] == place[0] && |place| > 1 {
          EditChangesOnePlace(root.members[place[0]], place[1..], edit, at[1..]);
        }
      }
    }
  }

  lemma BelowFirst(place: seq<Token>, at: seq<Token>)
    requires place != [] && at != []
    ensures at[0] == place[0] ==> (place <= at <==> place[1..] <= at[1..]) && (at <= place <==> at[1..] <= place[1..])
    ensures at[0] == place[0] ==> (at == place <==> at[1..] == place[1..])
    ensures at[0] != place[0] ==> !(place <= at) && !(at <= place)
    ensures place <= at ==> at[|place|..] == at[1..][|place[1..]|..]
  {
    assert place == [place[0]] + place[1..] && at == [at[0]] + at[1..];
  }

  /** A change that succeeds alters the manifest exactly when its constructor accepts it. */
  lemma ValidChangesAlter(root: Json, c: Change)
    requires ApplyChange(root, c).Ok?
    ensures ApplyChange(root, c).value != root <==> ValidChange(c)
  {
    var place := TokensOf(c);
    PointerRoundTrip(c.path, place);
    EditSucceedsExactly(root, place, c.edit);
    EditChangesOnePlace(root, place, c.edit, place);
    assert place[|place|..] == [];
    assert place == [] <==> c.path == "";
    if c.edit.Replace? && c.edit.before == c.edit.after { SameValueBack(root, place, c.edit.before); }
  }

  /** A manifest with just the way to a place and what stands there. */
  ghost function Around(place: seq<Token>, slot: Option<Json>): Json
    decreases |place|
  {
    if place == [] then (if slot.Some? then slot.value else Null)
    else if |place| == 1 && slot == None then Obj(map[])
    else Obj(map[place[0] := Around(place[1..], slot)])
  }

  lemma {:induction false} AroundHolds(place: seq<Token>, slot: Option<Json>)
    requires place == [] ==> slot.Some?
    ensures At(Around(place, slot), place) == slot
    ensures place != [] ==> IsObject(At(Around(place, slot), place[..|place| - 1]))
    decreases |place|
  {
    if |place| == 1 {
      assert place[..0] == [] && place[1..] == [];
    } else if place != [] {
      AroundHolds(place[1..], slot);
      assert place[..|place| - 1][0] == place[0] && place[..|place| - 1][1..] == place[1..][..|place[1..]| - 1];
    }
  }

  /** Before the edit, the place holds what the edit says. */
  function Before(edit: Edit): Option<Json> {
    match edit case Add(_) => None case Remove(before) => Some(before) case Replace(before, _) => Some(before)
  }

  ghost predicate Alters(c: Change, root: Json) {
    ApplyChange(root, c).Ok? && ApplyChange(root, c).value != root
  }

  /** The constructor of a change accepts exactly the changes that can alter some manifest. */
  lemma ValidChangesCanAlter(c: Change)
    ensures ValidChange(c) <==> exists root :: Alters(c, root)
  {
    var place := TokensOf(c);
    PointerRoundTrip(c.path, place);
    if ValidChange(c) {
      var root := Around(place, Before(c.edit));
      assert place == [] <==> c.path == "";
      AroundHolds(place, Before(c.edit));
      EditSucceedsExactly(root, place, c.edit);
      ValidChangesAlter(root, c);
      assert Alters(c, root);
    }
    if exists root :: Alters(c, root) {
      var root :| Alters(c, root);
      ValidChangesAlter(root, c);
    }
  }

  lemma {:induction false} SameValueBack(root: Json, place: seq<Token>, v: Json)
    requires ApplyAt(root, place, Replace(v, v)).Ok?
    ensures ApplyAt(root, place, Replace(v, v)) == Ok(root)
    decreases |place|
  {
    if place != [] {
      var m := root.members;
      if |place| > 1 { SameValueBack(m[place[0]], place[1..], v); }
      assert WithMember(m, place[0], Some(m[place[0]])) == m;
    }
  }

  // ---------------------------------------------------------------- what a generated diff says

  /** The two manifests hold at the place what the edit says: nothing and the added value, the removed value
      and nothing, or two different values that are not both objects. */
  ghost predicate Tells(p: Json, d: Json, place: seq<Token>, edit: Edit) {
    match edit
    case Add(after) => At(p, place) == None && At(d, place) == Some(after)
    case Remove(before) => At(p, place) == Some(before) && At(d, place) == None
    case Replace(before, after) =>
      At(p, place) == Some(before) && At(d, place) == Some(after) && before != after && !(before.Obj? && after.Obj?)
  }

  lemma {:induction false} StepsTell(p: Json, d: Json, s: Step)
    requires s in Steps(p, d)
    ensures Tells(p, d, s.tokens, s.edit)
    decreases p, 1, 0
  {
    if p.Obj? && d.Obj? {
      StepsOfKeysTell(p, d, SortedTexts(p.members.Keys + d.members.Keys), s);
    }
  }

  lemma {:induction false} StepsOfKeysTell(p: Json, d: Json, keys: seq<string>, s: Step)
    requires p.Obj? && d.Obj? && forall k | k in keys :: k in p.members || k in d.members
    requires s in StepsOfKeys(p, d, keys)
    ensures Tells(p, d, s.tokens, s.edit)
    decreases p, 0, |keys|
  {
    if s in StepsOfKey(p, d, keys[0]) {
      StepsOfKeyTell(p, d, keys[0], s);
    } else {
      StepsOfKeysTell(p, d, keys[1..], s);
    }
  }

  lemma {:induction false} StepsOfKeyTell(p: Json, d: Json, k: string, s: Step)
    requires p.Obj? && d.Obj? && (k in p.members || k in d.members) && s in StepsOfKey(p, d, k)
    ensures Tells(p, d, s.tokens, s.edit)
    decreases p, 0, 0
  {
    if k in p.members && k in d.members {
      var below := Steps(p.members[k], d.members[k]);
      UnderAt([k], below);
      var i :| 0 <= i < |below| && Under([k], below)[i] == s;
      StepsTell(p.members[k], d.members[k], below[i]);
      assert s.tokens[0] == k && s.tokens[1..] == below[i].tokens;
    } else {
      assert s.tokens == [k] && s.tokens[1..] == [];
    }
  }

  /** Replaying steps elsewhere leaves a place alone. */
  lemma {:induction false} StepsElsewhere(root: Json, ss: seq<Step>, at: seq<Token>)
    requires ApplySteps(root, ss).Ok? && forall s | s in ss :: !(s.tokens <= at) && !(at <= s.tokens)
    ensures At(ApplySteps(root, ss).value, at) == At(root, at)
    decreases |ss|
  {
    if ss != [] {
      assert ss[0] in ss && forall s | s in ss[1..] :: s in ss;
      EditChangesOnePlace(root, ss[0].tokens, ss[0].edit, at);
      StepsElsewhere(ApplyAt(root, ss[0].tokens, ss[0].edit).value, ss[1..], at);
    }
  }

  /** A place at which the values differ is at, above or below a step. */
  lemma DifferenceHasStep(p: Json, d: Json, at: seq<Token>) returns (i: nat)
    requires At(p, at) != At(d, at)
    ensures i < |Steps(p, d)| && (Steps(p, d)[i].tokens <= at || at <= Steps(p, d)[i].tokens)
  {
    var ss := Steps(p, d);
    StepsRebuild(p, d);
    if forall s | s in ss :: !(s.tokens <= at) && !(at <= s.tokens) { StepsElsewhere(p, ss, at); }
    var s :| s in ss && (s.tokens <= at || at <= s.tokens);
    i :| 0 <= i < |ss| && ss[i] == s;
  }

  /** The changes are the steps, addressed by their paths. */
  lemma ChangeOfStep(p: Json, d: Json, i: nat)
    requires i < |Steps(p, d)|
    ensures |Changes("", p, d)| == |Steps(p, d)|
    ensures TokensOf(Changes("", p, d)[i]) == Steps(p, d)[i].tokens && Changes("", p, d)[i].edit == Steps(p, d)[i].edit
  {
    ChangesAreSteps([], p, d);
    UnderNothing(Steps(p, d));
    WrittenAt(Steps(p, d));
    PointerRoundTrip("", Steps(p, d)[i].tokens);
  }

  /** Every change emitted tells the truth about both manifests, and a place at which they differ is at,
      above or below one of them: nothing superfluous is reported and nothing is missed. */
  lemma ChangesTellTheDifference(p: Json, d: Json, at: seq<Token>)
    ensures forall i | 0 <= i < |Changes("", p, d)| ::
              Tells(p, d, TokensOf(Changes("", p, d)[i]), Changes("", p, d)[i].edit)
    ensures At(p, at) != At(d, at) ==>
              exists c :: c in Changes("", p, d) && (TokensOf(c) <= at || at <= TokensOf(c))
  {
    var cs := Changes("", p, d);
    ChangesAreSteps([], p, d);
    UnderNothing(Steps(p, d));
    WrittenAt(Steps(p, d));
    forall i | 0 <= i < |cs| ensures Tells(p, d, TokensOf(cs[i]), cs[i].edit) {
      ChangeOfStep(p, d, i);
      StepsTell(p, d, Steps(p, d)[i]);
    }
    if At(p, at) != At(d, at) {
      var i := DifferenceHasStep(p, d, at);
      ChangeOfStep(p, d, i);
      assert cs[i] in cs;
    }
  }

  // ---------------------------------------------------------------- one diff

  /** A diff applies to its own parent alone, and only if replaying it gives its own derived manifest. */
  lemma AppliesToItsParentAlone(diff: Diff, q: Json)
    ensures ApplyDiff(diff, q).Ok? <==>
              && q == diff.parentIdentity && q.Obj? && diff.derivedIdentity.Obj?
              && ApplyChanges(q, diff.changes) == Ok(diff.derivedIdentity)
    ensures ApplyDiff(diff, q).Ok? ==> ApplyDiff(diff, q).value == diff.derivedIdentity
  {
  }

  /** So the diff between two manifests applies to the first of them, gives the second, and is refused by
      every other value. */
  lemma BetweenAppliesExactly(p: Json, d: Json, q: Json)
    requires p.Obj? && d.Obj? && p != d
    ensures Between(p, d).Ok?
    ensures ApplyDiff(Between(p, d).value, q) ==
            if q == p then Ok(d)
            else if q.Obj? then Err("parent manifest identity mismatch")
            else Err("parent manifest must be a JSON object")
  {
    BetweenThenApply(p, d);
    DiffAcceptance(p, d, Changes("", p, d));
  }
}
