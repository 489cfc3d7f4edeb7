/** The round trip: the changes found between two manifests rebuild the second from the first. */
module ManifestRoundTrip {
  import opened Outcomes
  import opened Sorting
  import opened Keys
  import opened JsonPointer
  import opened ManifestDiff
  import opened ManifestTheorems

  /** A change addressed by tokens relative to the value being compared. */
  datatype Step = Step(tokens: seq<Token>, edit: Edit)

  /** The structural difference of two values, without paths as text. */
  ghost function Steps(p: Json, d: Json): seq<Step>
    decreases p, 1, 0
  {
    if p.Obj? && d.Obj? then StepsOfKeys(p, d, SortedTexts(p.members.Keys + d.members.Keys))
    else if p != d then [Step([], Replace(p, d))]
    else []
  }

  ghost function StepsOfKeys(p: Json, d: Json, keys: seq<string>): seq<Step>
    requires p.Obj? && d.Obj?
    requires forall k | k in keys :: k in p.members || k in d.members
    decreases p, 0, |keys|
  {
    if keys == [] then [] else StepsOfKey(p, d, keys[0]) + StepsOfKeys(p, d, keys[1..])
  }

  ghost function StepsOfKey(p: Json, d: Json, k: string): seq<Step>
    requires p.Obj? && d.Obj? && (k in p.members || k in d.members)
    decreases p, 0, 0
  {
    if k !in p.members then [Step([k], Add(d.members[k]))]
    else if k !in d.members then [Step([k], Remove(p.members[k]))]
    else Under([k], Steps(p.members[k], d.members[k]))
  }

  ghost function Under(prefix: seq<Token>, ss: seq<Step>): seq<Step> {
    if ss == [] then [] else [Step(prefix + ss[0].tokens, ss[0].edit)] + Under(prefix, ss[1..])
  }

  ghost function Written(ss: seq<Step>): seq<Change> {
    if ss == [] then [] else [Change(Encode(ss[0].tokens), ss[0].edit)] + Written(ss[1..])
  }

  // ---------------------------------------------------------------- generation writes the steps as text

  lemma {:induction false} UnderConcat(prefix: seq<Token>, a: seq<Step>, b: seq<Step>)
    ensures Under(prefix, a + b) == Under(prefix, a) + Under(prefix, b)
  {
    if a == [] {
      assert a + b == b;
    } else {
      assert (a + b)[1..] == a[1..] + b;
      UnderConcat(prefix, a[1..], b);
    }
  }

  lemma {:induction false} WrittenConcat(a: seq<Step>, b: seq<Step>)
    ensures Written(a + b) == Written(a) + Written(b)
  {
    if a == [] {
      assert a + b == b;
    } else {
      assert (a + b)[1..] == a[1..] + b;
      WrittenConcat(a[1..], b);
    }
  }

  lemma {:induction false} UnderTwice(prefix: seq<Token>, k: Token, ss: seq<Step>)
    ensures Under(prefix, Under([k], ss)) == Under(prefix + [k], ss)
  {
    if ss != [] {
      UnderTwice(prefix, k, ss[1..]);
      assert prefix + ([k] + ss[0].tokens) == prefix + [k] + ss[0].tokens;
      assert Under([k], ss)[1..] == Under([k], ss[1..]);
    }
  }

  lemma {:induction false} UnderNothing(ss: seq<Step>)
    ensures Under([], ss) == ss
  {
    if ss != [] {
      UnderNothing(ss[1..]);
      assert [] + ss[0].tokens == ss[0].tokens;
      assert ss == [ss[0]] + ss[1..];
    }
  }

  lemma {:induction false} ChangesAreSteps(prefix: seq<Token>, p: Json, d: Json)
    ensures Changes(Encode(prefix), p, d) == Written(Under(prefix, Steps(p, d)))
    decreases p, 1, 0
  {
    if p.Obj? && d.Obj? {
      ChangesOfKeysAreSteps(prefix, p, d, SortedTexts(p.members.Keys + d.members.Keys));
    } else if p != d {
      assert prefix + [] == prefix;
      assert Under(prefix, [Step([], Replace(p, d))]) == [Step(prefix, Replace(p, d))];
    }
  }

  lemma {:induction false} ChangesOfKeysAreSteps(prefix: seq<Token>, p: Json, d: Json, keys: seq<string>)
    requires p.Obj? && d.Obj?
    requires forall k | k in keys :: k in p.members || k in d.members
    ensures ChangesOfKeys(Encode(prefix), p, d, keys) == Written(Under(prefix, StepsOfKeys(p, d, keys)))
    decreases p, 0, |keys|
  {
    if keys != [] {
      var head, tail := StepsOfKey(p, d, keys[0]), StepsOfKeys(p, d, keys[1..]);
      ChangesOfKeyAreSteps(prefix, p, d, keys[0]);
      ChangesOfKeysAreSteps(prefix, p, d, keys[1..]);
      UnderConcat(prefix, head, tail);
      WrittenConcat(Under(prefix, head), Under(prefix, tail));
    }
  }

  lemma {:induction false} ChangesOfKeyAreSteps(prefix: seq<Token>, p: Json, d: Json, k: string)
    requires p.Obj? && d.Obj? && (k in p.members || k in d.members)
    ensures ChangesOfKey(Encode(prefix), p, d, k) == Written(Under(prefix, StepsOfKey(p, d, k)))
    decreases p, 0, 0
  {
    EncodeSnoc(prefix, k);
    if k in p.members && k in d.members {
      ChangesAreSteps(prefix + [k], p.members[k], d.members[k]);
      UnderTwice(prefix, k, Steps(p.members[k], d.members[k]));
    } else {
      var s := StepsOfKey(p, d, k)[0];
      assert Under(prefix, [s]) == [Step(prefix + [k], s.edit)];
    }
  }

  // ---------------------------------------------------------------- the steps are valid and independent

  ghost predicate StepOk(s: Step) {
    (s.tokens == [] ==> s.edit.Replace?) && (s.edit.Replace? ==> s.edit.before != s.edit.after)
  }

  /** Every step is acceptable as a change, and no two address overlapping places. */
  ghost predicate Disjoint(ss: seq<Step>) {
    forall i, j | 0 <= i < j < |ss| :: !(ss[i].tokens <= ss[j].tokens) && !(ss[j].tokens <= ss[i].tokens)
  }

  ghost predicate AllBelow(ss: seq<Step>, keys: seq<string>) {
    forall s | s in ss :: s.tokens != [] && s.tokens[0] in keys
  }

  lemma {:induction false} UnderAt(prefix: seq<Token>, ss: seq<Step>)
    ensures |Under(prefix, ss)| == |ss|
    ensures forall i | 0 <= i < |ss| :: Under(prefix, ss)[i] == Step(prefix + ss[i].tokens, ss[i].edit)
  {
    if ss != [] {
      UnderAt(prefix, ss[1..]);
    }
  }

  lemma PrefixUnder(k: Token, a: seq<Token>, b: seq<Token>)
    ensures [k] + a <= [k] + b <==> a <= b
  {
    assert ([k] + a)[1..] == a && ([k] + b)[1..] == b;
  }

  lemma {:induction false} StepsDisjoint(p: Json, d: Json)
    ensures Disjoint(Steps(p, d)) && forall s | s in Steps(p, d) :: StepOk(s)
    decreases p, 1, 0
  {
    if p.Obj? && d.Obj? {
      SortedTextsAscend(p.members.Keys + d.members.Keys);
      StepsOfKeysDisjoint(p, d, SortedTexts(p.members.Keys + d.members.Keys));
    }
  }

  lemma {:induction false} StepsOfKeysDisjoint(p: Json, d: Json, keys: seq<string>)
    requires p.Obj? && d.Obj?
    requires forall k | k in keys :: k in p.members || k in d.members
    requires forall i, j | 0 <= i < j < |keys| :: keys[i] != keys[j]
    ensures Disjoint(StepsOfKeys(p, d, keys)) && AllBelow(StepsOfKeys(p, d, keys), keys)
    ensures forall s | s in StepsOfKeys(p, d, keys) :: StepOk(s)
    decreases p, 0, |keys|
  {
    if keys != [] {
      var head, tail := StepsOfKey(p, d, keys[0]), StepsOfKeys(p, d, keys[1..]);
      StepsOfKeyDisjoint(p, d, keys[0]);
      StepsOfKeysDisjoint(p, d, keys[1..]);
      assert keys[0] !in keys[1..];
      forall i, j | 0 <= i < |head| && 0 <= j < |tail|
        ensures !(head[i].tokens <= tail[j].tokens) && !(tail[j].tokens <= head[i].tokens)
      {
        assert head[i] in head && tail[j] in tail;
      }
      DisjointConcat(head, tail);
    }
  }

  lemma DisjointConcat(a: seq<Step>, b: seq<Step>)
    requires Disjoint(a) && Disjoint(b)
    requires forall i, j | 0 <= i < |a| && 0 <= j < |b| ::
               !(a[i].tokens <= b[j].tokens) && !(b[j].tokens <= a[i].tokens)
    ensures Disjoint(a + b)
  {
  }

  lemma {:induction false} StepsOfKeyDisjoint(p: Json, d: Json, k: string)
    requires p.Obj? && d.Obj? && (k in p.members || k in d.members)
    ensures Disjoint(StepsOfKey(p, d, k)) && AllBelow(StepsOfKey(p, d, k), [k])
    ensures forall s | s in StepsOfKey(p, d, k) :: StepOk(s)
    decreases p, 0, 0
  {
    if k in p.members && k in d.members {
      StepsDisjoint(p.members[k], d.members[k]);
      UnderDisjoint(k, Steps(p.members[k], d.members[k]));
    }
  }

  lemma UnderDisjoint(k: string, ss: seq<Step>)
    requires Disjoint(ss) && forall s | s in ss :: StepOk(s)
    ensures Disjoint(Under([k], ss)) && AllBelow(Under([k], ss), [k])
    ensures forall s | s in Under([k], ss) :: StepOk(s)
  {
    UnderAt([k], ss);
    forall i, j | 0 <= i < j < |ss|
      ensures !([k] + ss[i].tokens <= [k] + ss[j].tokens) && !([k] + ss[j].tokens <= [k] + ss[i].tokens)
    {
      PrefixUnder(k, ss[i].tokens, ss[j].tokens);
      PrefixUnder(k, ss[j].tokens, ss[i].tokens);
    }
    forall s | s in Under([k], ss) ensures StepOk(s) && s.tokens != [] && s.tokens[0] in [k] {
      var i :| 0 <= i < |ss| && Under([k], ss)[i] == s;
      assert StepOk(ss[i]);
    }
  }

  lemma {:induction false} WrittenAt(ss: seq<Step>)
    ensures |Written(ss)| == |ss|
    ensures forall i | 0 <= i < |ss| :: Written(ss)[i] == Change(Encode(ss[i].tokens), ss[i].edit)
  {
    if ss != [] {
      WrittenAt(ss[1..]);
    }
  }

  lemma WrittenIndependent(ss: seq<Step>)
    requires Disjoint(ss) && forall s | s in ss :: StepOk(s)
    ensures AllValid(Written(ss)) && PairwiseIndependent(Written(ss))
  {
    var cs := Written(ss);
    WrittenAt(ss);
    forall i | 0 <= i < |ss| ensures ValidChange(cs[i]) && TokensOf(cs[i]) == ss[i].tokens {
      assert StepOk(ss[i]);
      PointerRoundTrip("", ss[i].tokens);
    }
    PairwiseByIndex(cs);
  }

  // ---------------------------------------------------------------- replaying the steps

  ghost function ApplySteps(root: Json, ss: seq<Step>): Result<Json>
    decreases |ss|
  {
    if ss == [] then Ok(root)
    else match ApplyAt(root, ss[0].tokens, ss[0].edit)
      case Ok(next) => ApplySteps(next, ss[1..])
      case Err(code) => Err(code)
  }

  lemma {:induction false} ReplayWritten(root: Json, ss: seq<Step>)
    ensures ApplyChanges(root, Written(ss)) == ApplySteps(root, ss)
    decreases |ss|
  {
    if ss != [] {
      PointerRoundTrip("", ss[0].tokens);
      assert Written(ss)[1..] == Written(ss[1..]);
      var next := ApplyAt(root, ss[0].tokens, ss[0].edit);
      if next.Ok? {
        ReplayWritten(next.value, ss[1..]);
      }
    }
  }

  lemma {:induction false} ApplyStepsConcat(root: Json, a: seq<Step>, b: seq<Step>)
    requires ApplySteps(root, a).Ok?
    ensures ApplySteps(root, a + b) == ApplySteps(ApplySteps(root, a).value, b)
    decreases |a|
  {
    if a == [] {
      assert a + b == b;
    } else {
      assert (a + b)[1..] == a[1..] + b;
      ApplyStepsConcat(ApplyAt(root, a[0].tokens, a[0].edit).value, a[1..], b);
    }
  }

  /** Steps replayed under a key act on that member and nothing else. */
  lemma {:induction false} ReplayUnder(m: map<string, Json>, k: string, ss: seq<Step>)
    requires k in m && ApplySteps(m[k], ss).Ok? && forall s | s in ss :: StepOk(s)
    ensures ApplySteps(Obj(m), Under([k], ss)) == Ok(Obj(m[k := ApplySteps(m[k], ss).value]))
    decreases |ss|
  {
    if ss == [] {
      assert m[k := m[k]] == m;
    } else {
      var tokens, edit := ss[0].tokens, ss[0].edit;
      var child := ApplyAt(m[k], tokens, edit).value;
      assert ([k] + tokens)[1..] == tokens;
      assert ApplyAt(Obj(m), [k] + tokens, edit) == Ok(Obj(m[k := child])) by {
        assert StepOk(ss[0]);
      }
      assert Under([k], ss)[1..] == Under([k], ss[1..]);
      assert m[k := child][k := ApplySteps(child, ss[1..]).value] == m[k := ApplySteps(child, ss[1..]).value];
      ReplayUnder(m[k := child], k, ss[1..]);
    }
  }

  /** Take the members named in `keys` from `d`, the others from `m`. */
  ghost function Settle(m: map<string, Json>, d: map<string, Json>, keys: seq<string>): map<string, Json>
    decreases |keys|
  {
    if keys == [] then m else Settle(WithMember(m, keys[0], Member(d, keys[0])), d, keys[1..])
  }

  lemma {:induction false} SettleMember(m: map<string, Json>, d: map<string, Json>, keys: seq<string>, k: string)
    ensures Member(Settle(m, d, keys), k) == if k in keys then Member(d, k) else Member(m, k)
    decreases |keys|
  {
    if keys != [] {
      SettleMember(WithMember(m, keys[0], Member(d, keys[0])), d, keys[1..], k);
    }
  }

  lemma MembersEqual(m: map<string, Json>, n: map<string, Json>)
    requires forall k :: Member(m, k) == Member(n, k)
    ensures m == n
  {
    forall k ensures (k in m <==> k in n) && (k in m ==> m[k] == n[k]) {
      assert Member(m, k) == Member(n, k);
    }
  }

  lemma {:induction false} StepsRebuild(p: Json, d: Json)
    ensures ApplySteps(p, Steps(p, d)) == Ok(d)
    decreases p, 1, 0
  {
    if p.Obj? && d.Obj? {
      var keys := SortedTexts(p.members.Keys + d.members.Keys);
      SortedTextsAscend(p.members.Keys + d.members.Keys);
      KeysRebuild(p, d, keys, p.members);
      var final := Settle(p.members, d.members, keys);
      forall k ensures Member(final, k) == Member(d.members, k) { SettleMember(p.members, d.members, keys, k); }
      MembersEqual(final, d.members);
    } else if p != d {
      assert Steps(p, d)[1..] == [];
    }
  }

  lemma {:induction false} KeysRebuild(p: Json, d: Json, keys: seq<string>, m: map<string, Json>)
    requires p.Obj? && d.Obj?
    requires forall k | k in keys :: k in p.members || k in d.members
    requires forall i, j | 0 <= i < j < |keys| :: keys[i] != keys[j]
    requires forall k | k in keys :: Member(m, k) == Member(p.members, k)
    ensures ApplySteps(Obj(m), StepsOfKeys(p, d, keys)) == Ok(Obj(Settle(m, d.members, keys)))
    decreases p, 0, |keys|
  {
    if keys != [] {
      var k := keys[0];
      var head, tail := StepsOfKey(p, d, k), StepsOfKeys(p, d, keys[1..]);
      var next := WithMember(m, k, Member(d.members, k));
      KeyRebuilds(p, d, k, m);
      ApplyStepsConcat(Obj(m), head, tail);
      forall l | l in keys[1..] ensures Member(next, l) == Member(p.members, l) {
        WithMemberAlgebra(m, k, Member(d.members, k), l, None);
        assert l in keys;
      }
      KeysRebuild(p, d, keys[1..], next);
    }
  }

  lemma {:induction false} KeyRebuilds(p: Json, d: Json, k: string, m: map<string, Json>)
    requires p.Obj? && d.Obj? && (k in p.members || k in d.members)
    requires Member(m, k) == Member(p.members, k)
    ensures ApplySteps(Obj(m), StepsOfKey(p, d, k)) == Ok(Obj(WithMember(m, k, Member(d.members, k))))
    decreases p, 0, 0
  {
    if k in p.members && k in d.members {
      StepsRebuild(p.members[k], d.members[k]);
      StepsDisjoint(p.members[k], d.members[k]);
      ReplayUnder(m, k, Steps(p.members[k], d.members[k]));
    } else {
      var s := StepsOfKey(p, d, k)[0];
      var next := Obj(WithMember(m, k, Member(d.members, k)));
      assert StepsOfKey(p, d, k) == [s] && [s][1..] == [];
      assert s.tokens == [k] && s.tokens[1..] == [];
      assert ApplyAt(Obj(m), s.tokens, s.edit) == Ok(next);
      assert ApplySteps(next, []) == Ok(next);
    }
  }

  // ---------------------------------------------------------------- main results

  /** Every change emitted is one its constructor accepts, and no two overlap. */
  lemma ChangesIndependent(p: Json, d: Json)
    ensures AllValid(Changes("", p, d)) && PairwiseIndependent(Changes("", p, d))
    ensures ApplyChanges(p, Changes("", p, d)) == Ok(d)
  {
    ChangesAreSteps([], p, d);
    UnderNothing(Steps(p, d));
    StepsDisjoint(p, d);
    WrittenIndependent(Steps(p, d));
    ReplayWritten(p, Steps(p, d));
    StepsRebuild(p, d);
  }

  /** No changes are reported exactly when the manifests are canonically equal. */
  lemma NoChangesIffEqual(p: Json, d: Json)
    ensures Changes("", p, d) == [] <==> p == d
  {
    ChangesIndependent(p, d);
    if p == d {
      ChangesAreSteps([], p, d);
      UnderNothing(Steps(p, d));
      NoStepsBetweenEquals(p);
    }
  }

  lemma {:induction false} NoStepsBetweenEquals(p: Json)
    ensures Steps(p, p) == []
    decreases p, 1
  {
    if p.Obj? {
      NoStepsOfKeys(p, SortedTexts(p.members.Keys + p.members.Keys));
    }
  }

  lemma {:induction false} NoStepsOfKeys(p: Json, keys: seq<string>)
    requires p.Obj? && forall k | k in keys :: k in p.members
    ensures StepsOfKeys(p, p, keys) == []
    decreases p, 0, |keys|
  {
    if keys != [] {
      NoStepsBetweenEquals(p.members[keys[0]]);
      NoStepsOfKeys(p, keys[1..]);
    }
  }

  /** What `ManifestDiff.between` computes for two JSON objects. */
  function Between(p: Json, d: Json): Result<Diff> {
    if !p.Obj? || !d.Obj? then Err("experiment manifests must be JSON objects")
    else
      var changes := Changes("", p, d);
      if changes == [] then Err("cannot create a no-op manifest diff")
      else MakeDiff(p, d, changes)
  }

  /** Diff then apply: for any two JSON objects a diff exists exactly when they differ, and
      replaying its re-sorted changes on the first gives the second, with no check failing. */
  lemma BetweenThenApply(p: Json, d: Json)
    requires p.Obj? && d.Obj?
    ensures Between(p, d).Ok? <==> p != d
    ensures p != d ==> ApplyDiff(Between(p, d).value, p) == Ok(d)
  {
    NoChangesIffEqual(p, d);
    if p != d {
      var changes := Changes("", p, d);
      ChangesIndependent(p, d);
      DiffAcceptance(p, d, changes);
      SortKeepsReplay(p, changes);
    }
  }
}
