/** Blind reviews: a mapping of aliases to candidates is committed first, judgments are sealed against it,
    and only then is it revealed. The stored revisions of a review are exactly such a progression. */
module BlindReview {
  import opened Outcomes
  import opened Sorting

  datatype Ref = Ref(logicalId: string, identity: nat)

  datatype Mode = Solo | Blind

  datatype Stage = Recorded | Prepared | Sealed | Revealed

  datatype Shown = Shown(prompt: string, aliases: seq<string>, outputs: seq<string>)

  datatype Entry = Entry(shown: Shown, notes: string, ratings: string)

  datatype Mapping = Mapping(alias: string, candidate: Ref)

  /** Content identities are the values they identify: a commitment hides its mapping behind a nonce, and
      a packet's identity covers what is shown and the commitment. */
  datatype Commitment = Commitment(nonce: string, mappings: seq<Mapping>)

  datatype PacketIdentity = PacketIdentity(packetId: string, shown: seq<Shown>, commitment: Commitment)

  datatype Review = Review(id: string, mode: Mode, stage: Stage, entries: seq<Entry>, declaration: Option<string>,
                           mappings: seq<Mapping>, audited: bool, packet: Option<PacketIdentity>, prior: Option<Ref>,
                           nonce: Option<string>)

  type RefOf = Review -> Ref

  const CONFLICT := "review_revision_conflict"

  function AliasesOf(mappings: seq<Mapping>): (r: seq<string>)
    ensures |r| == |mappings| && forall i | 0 <= i < |r| :: r[i] == mappings[i].alias
  {
    seq(|mappings|, i requires 0 <= i < |mappings| => mappings[i].alias)
  }

  function ShownIn(entries: seq<Entry>): (r: seq<Shown>)
    ensures |r| == |entries| && forall i | 0 <= i < |r| :: r[i] == entries[i].shown
  {
    seq(|entries|, i requires 0 <= i < |entries| => entries[i].shown)
  }

  /** What the record itself demands of each mode and stage. */
  predicate WellShaped(r: Review) {
    var aliases := if r.entries == [] then [] else r.entries[0].shown.aliases;
    match (r.mode, r.stage)
    case (Solo, Recorded) =>
      && r.entries != [] && r.declaration.Some? && r.mappings != [] && AliasesOf(r.mappings) == aliases
      && !r.audited && r.packet == None && r.prior == None && r.nonce == None
    case (Blind, Prepared) =>
      && r.entries == [] && r.declaration == None && r.mappings != [] && r.audited && r.packet.Some?
      && r.prior == None && r.nonce.Some?
    case (Blind, Sealed) =>
      && r.entries != [] && r.declaration.Some? && r.mappings == [] && r.audited && r.packet.Some? && r.prior.Some?
      && r.nonce == None
    case (Blind, Revealed) =>
      && r.entries != [] && r.declaration.Some? && r.mappings != [] && AliasesOf(r.mappings) == aliases
      && r.audited && r.packet.Some? && r.prior.Some? && r.nonce == None
    case _ => false
  }

  /** The sealed judgments are about exactly the packet that was prepared. */
  predicate Matches(sealed: Review, preparation: Review) {
    && sealed.mode == Blind && sealed.stage == Sealed && preparation.mode == Blind && preparation.stage == Prepared
    && preparation.nonce.Some? && sealed.id == preparation.id && sealed.packet == preparation.packet
    && sealed.packet ==
         Some(PacketIdentity(sealed.id, ShownIn(sealed.entries),
                             Commitment(preparation.nonce.value, preparation.mappings)))
  }

  predicate StepAllowed(from: Stage, to: Stage) {
    (from == Prepared && to == Sealed) || (from == Sealed && to == Revealed)
  }

  predicate TransitionValid(root: Review, predecessor: Review, r: Review) {
    && root.mode == Blind && root.stage == Prepared && root.nonce.Some?
    && r.id == root.id && r.mode == root.mode && r.audited == root.audited && r.packet == root.packet
    && r.entries != [] && r.entries[0].shown.aliases == AliasesOf(root.mappings)
    && if predecessor.stage == Prepared then
         predecessor == root && r.stage == Sealed && r.mappings == [] && Matches(r, root)
       else
         && predecessor.stage == Sealed && r.stage == Revealed && r.entries == predecessor.entries
         && r.declaration == predecessor.declaration && r.mappings == root.mappings && Matches(predecessor, root)
  }

  // ---------------------------------------------------------------- progressions

  ghost predicate DistinctRefs(revs: seq<Review>, refOf: RefOf) {
    forall i, j | 0 <= i < j < |revs| :: refOf(revs[i]) != refOf(revs[j])
  }

  /** Prepared, then sealed, then revealed, each naming the one before; or one recorded solo review. */
  ghost predicate Progression(c: seq<Review>, refOf: RefOf) {
    && 1 <= |c| <= 3 && DistinctRefs(c, refOf) && c[0].prior == None
    && (c[0].mode == Blind ==> c[0].stage == Prepared)
    && (|c| >= 2 ==>
          c[1].prior == Some(refOf(c[0])) && StepAllowed(c[0].stage, c[1].stage)
          && TransitionValid(c[0], c[0], c[1]))
    && (|c| == 3 ==>
          c[2].prior == Some(refOf(c[1])) && StepAllowed(c[1].stage, c[2].stage)
          && TransitionValid(c[0], c[1], c[2]))
  }

  ghost predicate IsLineage(revs: seq<Review>, refOf: RefOf) {
    exists c :: Progression(c, refOf) && multiset(c) == multiset(revs)
  }

  /** The mapping revealed is the mapping committed before any judgment, the judgments revealed are those
      sealed while no mapping was recorded, and they are about exactly the packet that was shown. */
  lemma RevealIsHonest(c: seq<Review>, refOf: RefOf)
    requires Progression(c, refOf) && |c| == 3
    ensures c[2].mappings == c[0].mappings && c[1].mappings == []
    ensures c[2].entries == c[1].entries && c[2].declaration == c[1].declaration
    ensures c[0].nonce.Some? &&
            c[0].packet ==
              Some(PacketIdentity(c[0].id, ShownIn(c[2].entries), Commitment(c[0].nonce.value, c[2].mappings)))
  {
    assert Matches(c[1], c[0]);
  }

  // ---------------------------------------------------------------- what the loop checks

  ghost predicate Rooted(revs: seq<Review>, root: Review) {
    root in revs && root.prior == None && forall r | r in revs && r.prior == None :: r == root
  }

  /** A later revision follows a stored one by an allowed and valid step. */
  ghost predicate Follows(revs: seq<Review>, refOf: RefOf, root: Review, r: Review) {
    exists p :: p in revs && r.prior == Some(refOf(p)) && r.mode == root.mode && StepAllowed(p.stage, r.stage)
           && TransitionValid(root, p, r)
  }

  ghost predicate Linked(revs: seq<Review>, refOf: RefOf) {
    && DistinctRefs(revs, refOf)
    && (exists root :: Rooted(revs, root) && (root.mode == Blind ==> root.stage == Prepared)
                       && forall r | r in revs && r.prior.Some? :: Follows(revs, refOf, root, r))
    && (forall r, s | r in revs && s in revs && r.prior.Some? && r.prior == s.prior :: r == s)
  }

  lemma RefsTellApart(revs: seq<Review>, refOf: RefOf, r: Review, s: Review)
    requires DistinctRefs(revs, refOf) && r in revs && s in revs && refOf(r) == refOf(s)
    ensures r == s
  {
    var i :| 0 <= i < |revs| && revs[i] == r;
    var j :| 0 <= j < |revs| && revs[j] == s;
  }

  /** Each later revision is the seal of the root, or the reveal of a seal. */
  lemma LaterRevisions(revs: seq<Review>, refOf: RefOf, root: Review, r: Review)
    requires DistinctRefs(revs, refOf) && Rooted(revs, root) && r in revs && r.prior.Some?
    requires forall x | x in revs && x.prior.Some? :: Follows(revs, refOf, root, x)
    ensures r.stage == Sealed ==> r.prior == Some(refOf(root)) && TransitionValid(root, root, r)
    ensures r.stage == Revealed ==>
              exists s :: s in revs && s.stage == Sealed && s.prior == Some(refOf(root)) && r.prior == Some(refOf(s))
                     && TransitionValid(root, s, r)
    ensures r.stage == Sealed || r.stage == Revealed
  {
    assert Follows(revs, refOf, root, r);
    var p :| p in revs && r.prior == Some(refOf(p)) && StepAllowed(p.stage, r.stage) && TransitionValid(root, p, r);
    if p.stage == Sealed {
      assert p != root;
      assert Follows(revs, refOf, root, p);
    }
  }

  /** The linked revisions form a progression: at most one seal, at most one reveal, nothing else. */
  lemma LinkedIsProgression(revs: seq<Review>, refOf: RefOf) returns (c: seq<Review>)
    requires Linked(revs, refOf)
    ensures Progression(c, refOf) && multiset(c) == multiset(revs)
  {
    var root :| Rooted(revs, root) && (root.mode == Blind ==> root.stage == Prepared)
                && forall r | r in revs && r.prior.Some? :: Follows(revs, refOf, root, r);
    c := ProgressionFrom(revs, refOf, root);
    forall r | r in revs ensures r in c {
      if r.prior.Some? { LaterRevisions(revs, refOf, root, r); }
    }
    AsMany(c, revs, refOf);
    StepsAreAllowed(c, refOf);
  }

  /** The root, its seal and its reveal, as far as they are stored. */
  lemma ProgressionFrom(revs: seq<Review>, refOf: RefOf, root: Review) returns (c: seq<Review>)
    requires Linked(revs, refOf) && Rooted(revs, root)
    requires forall r | r in revs && r.prior.Some? :: Follows(revs, refOf, root, r)
    ensures 1 <= |c| <= 3 && c[0] == root && Distinct(c) && forall r | r in c :: r in revs
    ensures |c| >= 2 ==> c[1].prior == Some(refOf(root)) && c[1].stage == Sealed && TransitionValid(root, root, c[1])
    ensures |c| == 3 ==> c[2].prior == Some(refOf(c[1])) && c[2].stage == Revealed && TransitionValid(root, c[1], c[2])
    ensures forall r | r in revs && r.prior.Some? && (r.stage == Sealed || r.stage == Revealed) :: r in c
  {
    c := [root];
    RevealNeedsSeal(revs, refOf, root);
    if sealed :| sealed in revs && sealed.prior.Some? && sealed.stage == Sealed {
      LaterRevisions(revs, refOf, root, sealed);
      c := [root, sealed];
      OneSeal(revs, refOf, root, sealed);
      if revealed :| revealed in revs && revealed.prior.Some? && revealed.stage == Revealed {
        c := [root, sealed, revealed];
      }
    }
  }

  lemma RevealNeedsSeal(revs: seq<Review>, refOf: RefOf, root: Review)
    requires Linked(revs, refOf) && Rooted(revs, root)
    requires forall r | r in revs && r.prior.Some? :: Follows(revs, refOf, root, r)
    ensures forall r | r in revs && r.prior.Some? && r.stage == Revealed ::
              exists s :: s in revs && s.prior.Some? && s.stage == Sealed
  {
    forall r | r in revs && r.prior.Some? && r.stage == Revealed
      ensures exists s :: s in revs && s.prior.Some? && s.stage == Sealed
    {
      LaterRevisions(revs, refOf, root, r);
    }
  }

  lemma OneSeal(revs: seq<Review>, refOf: RefOf, root: Review, sealed: Review)
    requires Linked(revs, refOf) && Rooted(revs, root)
    requires forall r | r in revs && r.prior.Some? :: Follows(revs, refOf, root, r)
    requires sealed in revs && sealed.prior.Some? && sealed.stage == Sealed
    ensures forall r | r in revs && r.prior.Some? && r.stage == Sealed :: r == sealed
    ensures forall r | r in revs && r.prior.Some? && r.stage == Revealed ::
              r.prior == Some(refOf(sealed)) && TransitionValid(root, sealed, r)
  {
    LaterRevisions(revs, refOf, root, sealed);
    forall r | r in revs && r.prior.Some? && (r.stage == Sealed || r.stage == Revealed)
      ensures r.stage == Sealed ==> r == sealed
      ensures r.stage == Revealed ==> r.prior == Some(refOf(sealed)) && TransitionValid(root, sealed, r)
    {
      LaterRevisions(revs, refOf, root, r);
    }
  }

  lemma StepsAreAllowed(c: seq<Review>, refOf: RefOf)
    requires 1 <= |c| <= 3 && DistinctRefs(c, refOf) && c[0].prior == None
             && (c[0].mode == Blind ==> c[0].stage == Prepared)
    requires |c| >= 2 ==> c[1].prior == Some(refOf(c[0])) && c[1].stage == Sealed && TransitionValid(c[0], c[0], c[1])
    requires |c| == 3 ==> c[2].prior == Some(refOf(c[1])) && c[2].stage == Revealed && TransitionValid(c[0], c[1], c[2])
    ensures Progression(c, refOf)
  {
  }

  lemma AsMany(c: seq<Review>, revs: seq<Review>, refOf: RefOf)
    requires DistinctRefs(revs, refOf) && Distinct(c) && forall r :: r in revs <==> r in c
    ensures multiset(c) == multiset(revs) && DistinctRefs(c, refOf)
  {
    assert Distinct(revs) by {
      forall i, j | 0 <= i < j < |revs| ensures revs[i] != revs[j] { assert refOf(revs[i]) != refOf(revs[j]); }
    }
    DistinctSameMembers(c, revs);
    forall i, j | 0 <= i < j < |c| ensures refOf(c[i]) != refOf(c[j]) {
      if refOf(c[i]) == refOf(c[j]) { RefsTellApart(revs, refOf, c[i], c[j]); }
    }
  }

  lemma ProgressionIsLinked(c: seq<Review>, revs: seq<Review>, refOf: RefOf)
    requires Progression(c, refOf) && multiset(c) == multiset(revs)
    ensures Linked(revs, refOf)
  {
    MemberOfPermutation(c, revs);
    RefsOfPermutation(c, revs, refOf);
    assert forall r | r in c :: r == c[0] || (|c| >= 2 && r == c[1]) || (|c| == 3 && r == c[2]);
    assert c[0] in c && (|c| >= 2 ==> c[1] in c) && (|c| == 3 ==> c[2] in c);
    assert Rooted(revs, c[0]);
    forall r | r in revs && r.prior.Some? ensures Follows(revs, refOf, c[0], r) {
      if r == c[1] { assert c[0] in revs; } else { assert c[1] in revs; }
    }
  }

  lemma RefsOfPermutation(c: seq<Review>, revs: seq<Review>, refOf: RefOf)
    requires multiset(c) == multiset(revs) && DistinctRefs(c, refOf)
    ensures DistinctRefs(revs, refOf)
  {
    MemberOfPermutation(c, revs);
    assert Distinct(c) by {
      forall i, j | 0 <= i < j < |c| ensures c[i] != c[j] { assert refOf(c[i]) != refOf(c[j]); }
    }
    DistinctPermutation(c, revs);
    forall i, j | 0 <= i < j < |revs| ensures refOf(revs[i]) != refOf(revs[j]) {
      assert revs[i] in c && revs[j] in c;
      if refOf(revs[i]) == refOf(revs[j]) { RefsTellApart(c, refOf, revs[i], revs[j]); }
    }
  }

  /** What the successor loop has checked decides everything: the single-head check and the walk that
      follow it in the program can never fail, unlike those of suites. */
  lemma LinkedIffLineage(revs: seq<Review>, refOf: RefOf)
    ensures Linked(revs, refOf) <==> IsLineage(revs, refOf)
  {
    if Linked(revs, refOf) {
      var c := LinkedIsProgression(revs, refOf);
    }
    if IsLineage(revs, refOf) {
      var c :| Progression(c, refOf) && multiset(c) == multiset(revs);
      ProgressionIsLinked(c, revs, refOf);
    }
  }

  // ---------------------------------------------------------------- the validator

  ghost predicate ProgressionOf(c: seq<Review>, revs: seq<Review>, refOf: RefOf) {
    Progression(c, refOf) && multiset(c) == multiset(revs)
  }

  /** Accepts exactly the progressions and gives their last revision. */
  method ValidatedReviewLineage(revs: seq<Review>, refOf: RefOf) returns (r: Result<Review>)
    ensures r.Ok? <==> revs != [] && IsLineage(revs, refOf)
    ensures r.Ok? ==> exists c :: ProgressionOf(c, revs, refOf) && r.value == c[|c| - 1]
    ensures r.Err? ==> r.code == if revs == [] then "review_store_mismatch" else CONFLICT
  {
    if revs == [] {
      return Err("review_store_mismatch");
    }
    LinkedIffLineage(revs, refOf);
    CountImages(revs, refOf);
    if |set x | x in revs :: refOf(x)| != |revs| {
      assert Images(revs, refOf) == set x | x in revs :: refOf(x);
      return Err(CONFLICT);
    }
    assert Images(revs, refOf) == set x | x in revs :: refOf(x);
    var root := OnlyRoot(revs, refOf);
    if root == None || (root.value.mode == Blind && root.value.stage != Prepared) {
      return Err(CONFLICT);
    }
    LinksDecide(revs, refOf, root.value);
    var successors := LinkReviews(revs, refOf, root.value);
    if successors == None {
      return Err(CONFLICT);
    }
    var head := WalkReviews(revs, refOf, root.value, successors.value);
    return Ok(head);
  }

  /** The one revision without a predecessor. */
  method OnlyRoot(revs: seq<Review>, refOf: RefOf) returns (root: Option<Review>)
    requires DistinctRefs(revs, refOf)
    ensures root.Some? ==> Rooted(revs, root.value)
    ensures root == None ==> forall x :: !Rooted(revs, x)
  {
    root := None;
    for n := 0 to |revs|
      invariant root == None ==> forall i | 0 <= i < n :: revs[i].prior.Some?
      invariant root.Some? ==> root.value in revs[..n] && root.value.prior == None
      invariant root.Some? ==> forall i | 0 <= i < n && revs[i].prior == None :: revs[i] == root.value
    {
      if revs[n].prior == None {
        if root.Some? {
          var i :| 0 <= i < n && revs[i] == root.value;
          assert refOf(revs[i]) != refOf(revs[n]);
          return None;
        }
        root := Some(revs[n]);
      }
    }
  }

  ghost predicate OneSuccessorEach(revs: seq<Review>) {
    forall x, y | x in revs && y in revs && x.prior.Some? && x.prior == y.prior :: x == y
  }

  ghost predicate AllFollow(revs: seq<Review>, refOf: RefOf, root: Review) {
    forall x | x in revs && x.prior.Some? :: Follows(revs, refOf, root, x)
  }

  /** The first revisions follow stored ones and are the successors found so far. */
  ghost predicate LinkedTo(revs: seq<Review>, refOf: RefOf, root: Review, n: nat, successors: map<Ref, Review>) {
    && n <= |revs|
    && (forall i | 0 <= i < n :: LinkedAt(revs, refOf, root, i, successors))
    && (forall k | k in successors :: successors[k] in revs[..n] && successors[k].prior == Some(k))
  }

  ghost predicate LinkedAt(revs: seq<Review>, refOf: RefOf, root: Review, i: nat, successors: map<Ref, Review>)
    requires i < |revs|
  {
    revs[i].prior.Some? ==>
      Follows(revs, refOf, root, revs[i])
      && revs[i].prior.value in successors && successors[revs[i].prior.value] == revs[i]
  }

  /** One pass: each later revision must follow a stored one, and no two the same. */
  method LinkReviews(revs: seq<Review>, refOf: RefOf, root: Review) returns (r: Option<map<Ref, Review>>)
    requires DistinctRefs(revs, refOf)
    ensures r.Some? <==> AllFollow(revs, refOf, root) && OneSuccessorEach(revs)
    ensures r.Some? ==> SuccessorsOf(r.value, revs)
  {
    var successors: map<Ref, Review> := map[];
    for n := 0 to |revs|
      invariant LinkedTo(revs, refOf, root, n, successors)
    {
      var x := revs[n];
      if x.prior.Some? {
        var follows := HasPredecessor(revs, refOf, root, x);
        if !follows {
          assert x in revs;
          return None;
        }
        if x.prior.value in successors {
          PriorRepeats(revs, refOf, root, n, successors);
          return None;
        }
        LinkStep(revs, refOf, root, n, successors);
        successors := successors[x.prior.value := x];
      } else {
        NoLink(revs, refOf, root, n, successors);
      }
    }
    AllLinked(revs, refOf, root, successors);
    return Some(successors);
  }

  method HasPredecessor(revs: seq<Review>, refOf: RefOf, root: Review, x: Review) returns (follows: bool)
    ensures follows == Follows(revs, refOf, root, x)
  {
    follows := exists p | p in revs ::
      x.prior == Some(refOf(p)) && x.mode == root.mode && StepAllowed(p.stage, x.stage) && TransitionValid(root, p, x);
  }

  lemma PriorRepeats(revs: seq<Review>, refOf: RefOf, root: Review, n: nat, successors: map<Ref, Review>)
    requires DistinctRefs(revs, refOf) && LinkedTo(revs, refOf, root, n, successors) && n < |revs|
    requires revs[n].prior.Some? && revs[n].prior.value in successors
    ensures !OneSuccessorEach(revs)
  {
    var other := successors[revs[n].prior.value];
    var i :| 0 <= i < n && revs[..n][i] == other;
    assert refOf(revs[i]) != refOf(revs[n]);
    assert revs[i] in revs && revs[n] in revs;
  }

  lemma LinkStep(revs: seq<Review>, refOf: RefOf, root: Review, n: nat, successors: map<Ref, Review>)
    requires LinkedTo(revs, refOf, root, n, successors) && n < |revs|
    requires revs[n].prior.Some? && revs[n].prior.value !in successors && Follows(revs, refOf, root, revs[n])
    ensures LinkedTo(revs, refOf, root, n + 1, successors[revs[n].prior.value := revs[n]])
  {
    var more := successors[revs[n].prior.value := revs[n]];
    assert revs[..n + 1] == revs[..n] + [revs[n]];
    forall i | 0 <= i < n + 1 ensures LinkedAt(revs, refOf, root, i, more) {
      assert i < n ==> LinkedAt(revs, refOf, root, i, successors);
    }
  }

  lemma NoLink(revs: seq<Review>, refOf: RefOf, root: Review, n: nat, successors: map<Ref, Review>)
    requires LinkedTo(revs, refOf, root, n, successors) && n < |revs| && revs[n].prior == None
    ensures LinkedTo(revs, refOf, root, n + 1, successors)
  {
    assert revs[..n + 1] == revs[..n] + [revs[n]];
  }

  lemma AllLinked(revs: seq<Review>, refOf: RefOf, root: Review, successors: map<Ref, Review>)
    requires LinkedTo(revs, refOf, root, |revs|, successors)
    ensures AllFollow(revs, refOf, root) && OneSuccessorEach(revs) && SuccessorsOf(successors, revs)
  {
    assert revs[..|revs|] == revs;
    forall x | x in revs && x.prior.Some?
      ensures Follows(revs, refOf, root, x) && x.prior.value in successors && successors[x.prior.value] == x
    {
      var i :| 0 <= i < |revs| && revs[i] == x;
      assert LinkedAt(revs, refOf, root, i, successors);
    }
  }

  ghost predicate SuccessorsOf(successors: map<Ref, Review>, revs: seq<Review>) {
    && (forall x | x in revs && x.prior.Some? :: x.prior.value in successors && successors[x.prior.value] == x)
    && (forall k | k in successors :: successors[k] in revs && successors[k].prior == Some(k))
  }

  lemma LinksDecide(revs: seq<Review>, refOf: RefOf, root: Review)
    requires DistinctRefs(revs, refOf) && Rooted(revs, root) && (root.mode == Blind ==> root.stage == Prepared)
    ensures AllFollow(revs, refOf, root) && OneSuccessorEach(revs) <==> Linked(revs, refOf)
  {
    if Linked(revs, refOf) {
      var other :| Rooted(revs, other) && forall r | r in revs && r.prior.Some? :: Follows(revs, refOf, other, r);
      assert other == root;
    }
  }

  /** Following successors from the root reaches every revision and ends at the only head. */
  method WalkReviews(revs: seq<Review>, refOf: RefOf, root: Review, successors: map<Ref, Review>) returns (head: Review)
    requires Linked(revs, refOf) && Rooted(revs, root) && SuccessorsOf(successors, revs)
    ensures exists c :: ProgressionOf(c, revs, refOf) && head == c[|c| - 1]
  {
    ghost var c := LinkedIsProgression(revs, refOf);
    MemberOfPermutation(c, revs);
    assert c[0] in c && (|c| >= 2 ==> c[1] in c) && (|c| == 3 ==> c[2] in c);
    var cursor := root;
    ghost var n := 0;
    while refOf(cursor) in successors
      invariant n < |c| && cursor == c[n]
      decreases |c| - n
    {
      var next := successors[refOf(cursor)];
      NextInProgression(c, refOf, n, next);
      cursor, n := next, n + 1;
    }
    EndOfProgression(c, revs, refOf, n, successors);
    assert ProgressionOf(c, revs, refOf);
    return cursor;
  }

  lemma EndOfProgression(c: seq<Review>, revs: seq<Review>, refOf: RefOf, n: nat, successors: map<Ref, Review>)
    requires ProgressionOf(c, revs, refOf) && SuccessorsOf(successors, revs) && n < |c| && refOf(c[n]) !in successors
    ensures n == |c| - 1
  {
    MemberOfPermutation(c, revs);
    if n + 1 < |c| { NamesPredecessor(c, refOf, n); }
  }

  lemma NamesPredecessor(c: seq<Review>, refOf: RefOf, n: nat)
    requires Progression(c, refOf) && n + 1 < |c|
    ensures c[n + 1] in c && c[n + 1].prior == Some(refOf(c[n]))
  {
  }

  lemma NextInProgression(c: seq<Review>, refOf: RefOf, n: nat, next: Review)
    requires Progression(c, refOf) && n < |c| && next in c && next.prior == Some(refOf(c[n]))
    ensures n + 1 < |c| && c[n + 1] == next
  {
    var i :| 0 <= i < |c| && c[i] == next;
    assert i > 0 && c[i].prior == Some(refOf(c[i - 1]));
    assert refOf(c[i - 1]) == refOf(c[n]);
  }

  // ---------------------------------------------------------------- sealing and revealing

  datatype Packet = Packet(id: string, shown: seq<Shown>, commitment: Commitment, identity: PacketIdentity,
                           audited: bool)

  datatype Judgment = Judgment(prompt: string, notes: string, ratings: string)

  /** The judged entries, in packet order; nothing if the judgments are not one for each prompt. */
  function Judged(shown: seq<Shown>, judgments: seq<Judgment>): Option<seq<Entry>> {
    if judgments == [] then None
    else if !Distinct(Prompts(judgments)) || JudgedPrompts(judgments) != ShownPrompts(shown) then None
    else Some(seq(|shown|, i requires 0 <= i < |shown| =>
                    var judged := NotesFor(judgments, shown[i].prompt); Entry(shown[i], judged.0, judged.1)))
  }

  function JudgedPrompts(judgments: seq<Judgment>): set<string> { set p | p in Prompts(judgments) }

  function ShownPrompts(shown: seq<Shown>): set<string> { set s | s in shown :: s.prompt }

  function Prompts(judgments: seq<Judgment>): (r: seq<string>)
    ensures |r| == |judgments| && forall i | 0 <= i < |r| :: r[i] == judgments[i].prompt
  {
    seq(|judgments|, i requires 0 <= i < |judgments| => judgments[i].prompt)
  }

  function NotesFor(judgments: seq<Judgment>, prompt: string): (string, string) {
    if judgments == [] then ("", "")
    else if judgments[|judgments| - 1].prompt == prompt then
      (judgments[|judgments| - 1].notes, judgments[|judgments| - 1].ratings)
    else NotesFor(judgments[..|judgments| - 1], prompt)
  }

  /** The packet is the one that was prepared, opens to its mapping and shows its aliases. */
  predicate PacketFits(packet: Packet, preparation: Review) {
    && preparation.nonce.Some? && packet.id == preparation.id && preparation.packet == Some(packet.identity)
    && Commitment(preparation.nonce.value, preparation.mappings) == packet.commitment
    && packet.identity == PacketIdentity(packet.id, packet.shown, packet.commitment)
    && packet.shown != [] && packet.shown[0].aliases == AliasesOf(preparation.mappings)
  }

  function SealedFrom(preparation: Review, entries: seq<Entry>, declaration: string, refOf: RefOf): Review {
    Review(preparation.id, Blind, Sealed, entries, Some(declaration), [], true, preparation.packet,
           Some(refOf(preparation)), None)
  }

  /** The revision that sealing these judgments would store. */
  function SealOf(packet: Packet, judgments: seq<Judgment>, declaration: string, preparation: Review,
                  refOf: RefOf): Review {
    match Judged(packet.shown, judgments)
    case Some(entries) => SealedFrom(preparation, entries, declaration, refOf)
    case None => preparation
  }

  function SealRefusal(packet: Packet, judgments: seq<Judgment>, preparation: Review): string {
    if !packet.audited then "blind_review_packet_invalid"
    else if !PacketFits(packet, preparation) then "blind_review_packet_mismatch"
    else if Judged(packet.shown, judgments) == None then "blind_review_judgment_set_mismatch"
    else CONFLICT
  }

  /** Judged entries show exactly the packet, each with the one judgment given for its prompt. */
  lemma JudgedAsGiven(shown: seq<Shown>, judgments: seq<Judgment>, i: nat)
    requires Judged(shown, judgments).Some? && i < |shown|
    ensures ShownIn(Judged(shown, judgments).value) == shown
    ensures exists j :: j in judgments && j.prompt == shown[i].prompt
                        && Judged(shown, judgments).value[i] == Entry(shown[i], j.notes, j.ratings)
    ensures forall j | j in judgments && j.prompt == shown[i].prompt ::
              Judged(shown, judgments).value[i] == Entry(shown[i], j.notes, j.ratings)
  {
    assert shown[i] in shown && shown[i].prompt in ShownPrompts(shown);
    assert shown[i].prompt in JudgedPrompts(judgments);
    var k :| 0 <= k < |judgments| && Prompts(judgments)[k] == shown[i].prompt;
    forall j | j in judgments && j.prompt == shown[i].prompt ensures j == judgments[k] {
      var l :| 0 <= l < |judgments| && judgments[l] == j;
      SamePrompt(judgments, k, l);
    }
    NotesAreGiven(judgments, k);
    assert judgments[k] in judgments;
  }

  lemma SamePrompt(judgments: seq<Judgment>, k: nat, l: nat)
    requires Distinct(Prompts(judgments)) && k < |judgments| && l < |judgments|
             && judgments[k].prompt == judgments[l].prompt
    ensures k == l
  {
    assert Prompts(judgments)[k] == Prompts(judgments)[l];
  }

  lemma {:induction false} NotesAreGiven(judgments: seq<Judgment>, k: nat)
    requires Distinct(Prompts(judgments)) && k < |judgments|
    ensures NotesFor(judgments, judgments[k].prompt) == (judgments[k].notes, judgments[k].ratings)
  {
    var n := |judgments| - 1;
    if k < n {
      assert Prompts(judgments)[k] != Prompts(judgments)[n];
      var rest := judgments[..n];
      forall i, j | 0 <= i < j < n ensures Prompts(rest)[i] != Prompts(rest)[j] {
        assert Prompts(judgments)[i] != Prompts(judgments)[j];
      }
      NotesAreGiven(rest, k);
    }
  }

  function RevealedFrom(sealed: Review, preparation: Review, refOf: RefOf): Review {
    sealed.(stage := Revealed, mappings := preparation.mappings, prior := Some(refOf(sealed)))
  }

  lemma SealExtends(preparation: Review, packet: Packet, judgments: seq<Judgment>, declaration: string, refOf: RefOf)
    requires Progression([preparation], refOf) && preparation.mode == Blind && preparation.audited
             && PacketFits(packet, preparation)
    requires Judged(packet.shown, judgments).Some?
    requires var sealed := SealedFrom(preparation, Judged(packet.shown, judgments).value, declaration, refOf);
             refOf(sealed) != refOf(preparation)
    ensures var sealed := SealedFrom(preparation, Judged(packet.shown, judgments).value, declaration, refOf);
            Progression([preparation, sealed], refOf)
  {
    var entries := Judged(packet.shown, judgments).value;
    assert ShownIn(entries) == packet.shown;
  }

  lemma RevealExtends(preparation: Review, sealed: Review, refOf: RefOf)
    requires Progression([preparation, sealed], refOf)
    requires var revealed := RevealedFrom(sealed, preparation, refOf);
             refOf(revealed) != refOf(sealed) && refOf(revealed) != refOf(preparation)
    ensures Progression([preparation, sealed, RevealedFrom(sealed, preparation, refOf)], refOf)
  {
  }

  ghost predicate Injective(refOf: RefOf) {
    forall r, s :: SameOnlyIfEqual(refOf, r, s)
  }

  ghost predicate SameOnlyIfEqual(refOf: RefOf, r: Review, s: Review) { refOf(r) == refOf(s) ==> r == s }

  /** A sealed revision that validly follows a preparation seals the packet committed to, and nothing of it is
      free but entries and declaration. */
  lemma SealIsOfItsForm(p: Review, s: Review, refOf: RefOf)
    requires Progression([p, s], refOf) && WellShaped(p) && WellShaped(s) && p.mode == Blind
    ensures s.declaration.Some? && s == SealedFrom(p, s.entries, s.declaration.value, refOf)
    ensures p.nonce.Some? &&
            p.packet == Some(PacketIdentity(p.id, ShownIn(s.entries), Commitment(p.nonce.value, p.mappings)))
  {
    var c := [p, s];
    assert c[0] == p && c[1] == s;
    assert StepAllowed(c[0].stage, c[1].stage) && TransitionValid(c[0], c[0], c[1]);
  }

  /** Judgments of a packet that seal to this revision. */
  ghost predicate SealsTo(p: Review, s: Review, packet: Packet, judgments: seq<Judgment>, declaration: string,
                          refOf: RefOf) {
    && packet.audited && PacketFits(packet, p) && Judged(packet.shown, judgments).Some?
    && s == SealOf(packet, judgments, declaration, p, refOf)
  }

  function JudgmentsOf(entries: seq<Entry>): (r: seq<Judgment>)
    ensures |r| == |entries|
    ensures forall i | 0 <= i < |r| :: r[i] == Judgment(entries[i].shown.prompt, entries[i].notes, entries[i].ratings)
  {
    seq(|entries|, i requires 0 <= i < |entries| =>
          Judgment(entries[i].shown.prompt, entries[i].notes, entries[i].ratings))
  }

  ghost predicate PromptsDiffer(entries: seq<Entry>) {
    forall i, j | 0 <= i < j < |entries| :: entries[i].shown.prompt != entries[j].shown.prompt
  }

  lemma JudgedBack(entries: seq<Entry>)
    requires entries != [] && PromptsDiffer(entries)
    ensures Judged(ShownIn(entries), JudgmentsOf(entries)) == Some(entries)
  {
    var judgments, shown := JudgmentsOf(entries), ShownIn(entries);
    forall p ensures p in JudgedPrompts(judgments) <==> p in ShownPrompts(shown) {
      if p in JudgedPrompts(judgments) {
        var i :| 0 <= i < |judgments| && Prompts(judgments)[i] == p;
        assert shown[i] in shown;
      }
      if p in ShownPrompts(shown) {
        var s :| s in shown && s.prompt == p;
        var i :| 0 <= i < |shown| && shown[i] == s;
        assert Prompts(judgments)[i] == p;
      }
    }
    assert Distinct(Prompts(judgments)) && JudgedPrompts(judgments) == ShownPrompts(shown);
    var judged := Judged(shown, judgments).value;
    forall i | 0 <= i < |entries| ensures judged[i] == entries[i] {
      NotesAreGiven(judgments, i);
      assert judgments[i].prompt == shown[i].prompt;
    }
    assert judged == entries;
  }

  /** What can validly follow a preparation is exactly what sealing some judgments of its packet stores. */
  lemma SealsAreExactly(p: Review, s: Review, refOf: RefOf)
    requires Progression([p], refOf) && WellShaped(p) && p.mode == Blind && Injective(refOf) && PromptsDiffer(s.entries)
    ensures Progression([p, s], refOf) && WellShaped(s) <==>
              exists packet, judgments, declaration :: SealsTo(p, s, packet, judgments, declaration, refOf)
  {
    if Progression([p, s], refOf) && WellShaped(s) {
      SealIsOfItsForm(p, s, refOf);
      JudgedBack(s.entries);
      var commitment, shown := Commitment(p.nonce.value, p.mappings), ShownIn(s.entries);
      var packet := Packet(p.id, shown, commitment, PacketIdentity(p.id, shown, commitment), true);
      SealShowsAliases(p, s, refOf);
      assert SealsTo(p, s, packet, JudgmentsOf(s.entries), s.declaration.value, refOf);
    }
    if exists packet, judgments, declaration :: SealsTo(p, s, packet, judgments, declaration, refOf) {
      var packet, judgments, declaration :| SealsTo(p, s, packet, judgments, declaration, refOf);
      assert SameOnlyIfEqual(refOf, s, p) && [p][0] == p;
      SealExtends(p, packet, judgments, declaration, refOf);
    }
  }

  lemma SealShowsAliases(p: Review, s: Review, refOf: RefOf)
    requires Progression([p, s], refOf)
    ensures s.entries != [] && s.entries[0].shown.aliases == AliasesOf(p.mappings)
  {
    assert TransitionValid([p, s][0], [p, s][0], [p, s][1]);
  }

  predicate AllShaped(revs: seq<Review>) { forall i | 0 <= i < |revs| :: WellShaped(revs[i]) }

  /** The stored progression of one blind review. */
  class BlindReviewStore {
    const refOf: RefOf
    var revisions: seq<Review>

    ghost predicate Valid() reads this {
      Injective(refOf) && Progression(revisions, refOf) && revisions[0].mode == Blind && AllShaped(revisions)
    }

    constructor (refOf: RefOf, preparation: Review)
      requires Injective(refOf) && WellShaped(preparation) && preparation.stage == Prepared
      ensures Valid() && revisions == [preparation] && this.refOf == refOf
    {
      this.refOf, revisions := refOf, [preparation];
    }

    /** A revision is written after the last one, answered when it is already there, refused otherwise. */
    method Persist(current: nat, revised: Review) returns (r: Result<Review>)
      requires Valid() && current < |revisions| && Progression(revisions[..current + 1] + [revised], refOf)
               && WellShaped(revised)
      modifies this
      ensures Valid()
      ensures r == if current + 1 < |old(revisions)| && old(revisions)[current + 1] != revised then Err(CONFLICT)
              else Ok(revised)
      ensures revisions == if current + 1 == |old(revisions)| then old(revisions) + [revised] else old(revisions)
    {
      if current + 1 < |revisions| {
        if revisions[current + 1] != revised {
          return Err(CONFLICT);
        }
        return Ok(revisions[current + 1]);
      }
      assert revisions[..current + 1] == revisions;
      revisions := revisions + [revised];
      return Ok(revised);
    }

    /** Seals judgments of the prepared packet, each entry judged as handed in. They are accepted once: the
        same judgments are answered again, a different second set is refused and changes nothing. */
    method Seal(packet: Packet, judgments: seq<Judgment>, declaration: string) returns (r: Result<Review>)
      requires Valid()
      modifies this
      ensures Valid() && old(revisions) <= revisions
      ensures r.Ok? <==>
              && packet.audited && PacketFits(packet, old(revisions)[0]) && Judged(packet.shown, judgments).Some?
              && (|old(revisions)| == 1
                  || old(revisions)[1] == SealOf(packet, judgments, declaration, old(revisions)[0], refOf))
      ensures r.Ok? ==> r.value == SealOf(packet, judgments, declaration, old(revisions)[0], refOf)
      ensures r.Ok? ==> revisions == if |old(revisions)| == 1 then old(revisions) + [r.value] else old(revisions)
      ensures r.Err? ==> revisions == old(revisions)
      ensures r.Err? ==> r.code == SealRefusal(packet, judgments, old(revisions)[0])
    {
      if !packet.audited {
        return Err("blind_review_packet_invalid");
      }
      if !PacketFits(packet, revisions[0]) {
        return Err("blind_review_packet_mismatch");
      }
      var judged := Judged(packet.shown, judgments);
      if judged == None {
        return Err("blind_review_judgment_set_mismatch");
      }
      var sealed := SealedFrom(revisions[0], judged.value, declaration, refOf);
      assert SameOnlyIfEqual(refOf, sealed, revisions[0]);
      assert Progression([revisions[0]], refOf);
      SealExtends(revisions[0], packet, judgments, declaration, refOf);
      assert revisions[..1] + [sealed] == [revisions[0], sealed];
      r := Persist(0, sealed);
    }

    /** Reveals the committed mapping for the sealed revision, and nothing else ever. */
    method Reveal(sealed: Review, packet: Packet) returns (r: Result<Review>)
      requires Valid()
      modifies this
      ensures Valid()
      ensures r.Ok? <==> |old(revisions)| >= 2 && old(revisions)[1] == sealed && PacketFits(packet, old(revisions)[0])
      ensures r.Ok? ==> |revisions| == 3 && revisions[2] == r.value && r.value.mappings == revisions[0].mappings
                        && r.value.entries == revisions[1].entries
      ensures old(revisions) <= revisions && (r.Err? ==> revisions == old(revisions))
    {
      if |revisions| < 2 || revisions[1] != sealed {
        return Err("blind_review_not_sealed");
      }
      if !PacketFits(packet, revisions[0]) {
        return Err("blind_review_packet_mismatch");
      }
      var revealed := RevealedFrom(sealed, revisions[0], refOf);
      assert SameOnlyIfEqual(refOf, revealed, sealed) && SameOnlyIfEqual(refOf, revealed, revisions[0]);
      RevealExtends(revisions[0], sealed, refOf);
      assert revisions[..2] + [revealed] == [revisions[0], sealed, revealed];
      OneReveal(revisions, refOf);
      r := Persist(1, revealed);
    }
  }

  /** A stored reveal is the only one there can be. */
  lemma OneReveal(c: seq<Review>, refOf: RefOf)
    requires Progression(c, refOf) && AllShaped(c) && c[0].mode == Blind && |c| >= 2
    ensures |c| == 3 ==> c[2] == RevealedFrom(c[1], c[0], refOf)
  {
  }
}
