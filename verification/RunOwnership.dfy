/** Ownership of a run id: who is let in, who is kept out, and what stays for good. */
module RunOwnership {
  import opened Outcomes
  import opened Sorting
  import opened RunProtocol
  import opened RunTheorems
  import opened RunSafety

  /** Nobody has claimed the run id, or its claim is this one and was released. */
  ghost predicate Free(w: World, id: string) {
    (w.claim == None && w.resolved == None) || w.claim == w.resolved == Some(id)
  }

  /** The same durable state; only steps have been taken. */
  ghost predicate Untouched(w: World, w': World) {
    w'.claim == w.claim && w'.resolved == w.resolved && w'.place == w.place.(clock := w'.place.clock)
  }

  /** A caller is let in exactly when the run id is free for it and nothing fails, and then holds the claim. */
  lemma LetInExactly(w: World, id: string, faults: Faults)
    ensures Claim(w, id, faults).reply == None <==> Free(w, id) && faults(w.place.clock) == Fine
    ensures Claim(w, id, faults).reply == None ==>
              Claim(w, id, faults).world == w.(claim := Some(id), place := w.place.(clock := w.place.clock + 1))
  {
  }

  /** What a caller that nothing disturbed is told: the claim of another attempt, a claim nobody released,
      or a resolution that does not go with the claim. */
  lemma KeptOutFor(w: World, id: string, faults: Faults)
    requires faults(w.place.clock) == Fine && !Free(w, id)
    ensures Claim(w, id, faults).reply ==
            Some(Threw(ServiceError(
              if w.claim.Some? && w.claim != Some(id) then "run_ownership_claim_conflict"
              else if w.claim == Some(id) && w.resolved == None then "run_ownership_unresolved"
              else "run_ownership_resolution_conflict")))
  {
  }

  /** A claim is written by the first caller it can be written for, and never changed. */
  lemma ClaimIsWrittenOnce(w: World, id: string, faults: Faults)
    ensures var after := Claim(w, id, faults).world;
            && after.resolved == w.resolved && after.place == w.place.(clock := w.place.clock + 1)
            && (w.claim.Some? ==> after.claim == w.claim)
            && (w.claim == None ==> after.claim == None || after.claim == Some(id))
            && (w.claim == None && faults(w.place.clock) == Fine ==> after.claim == Some(id))
  {
  }

  /** While a claim stands unreleased, nobody gets in: no call returns a status, and none changes anything. */
  lemma StandingClaimKeepsOut(w: World, a: Attempt, faults: Faults)
    requires w.claim.Some? && w.resolved == None
    ensures !Launch(w, a, faults).1.Returned? && Untouched(w, Launch(w, a, faults).0)
  {
    LetInExactly(w, a.claim, faults);
    ClaimIsWrittenOnce(w, a.claim, faults);
  }

  /** So a run id whose owner died before releasing it is shut for good. */
  lemma {:induction false} StandingClaimIsForever(w: World, attempts: seq<Attempt>, faults: Faults)
    requires w.claim.Some? && w.resolved == None
    ensures Untouched(w, LaunchAll(w, attempts, faults))
    decreases |attempts|
  {
    if attempts != [] {
      StandingClaimKeepsOut(w, attempts[0], faults);
      StandingClaimIsForever(Launch(w, attempts[0], faults).0, attempts[1..], faults);
    }
  }

  /** An attempt with another identity never gets in and never changes anything, released or not. */
  lemma OtherAttemptsKeepOut(w: World, a: Attempt, faults: Faults)
    requires w.claim.Some? && w.claim != Some(a.claim)
    ensures !Launch(w, a, faults).1.Returned? && Untouched(w, Launch(w, a, faults).0)
  {
    LetInExactly(w, a.claim, faults);
    ClaimIsWrittenOnce(w, a.claim, faults);
  }

  // ---------------------------------------------------------------- releasing

  /** The claim is released before any launch, or once the one launch has ended with the one terminal, last. */
  lemma ReleasableMeans(s: seq<Event>)
    ensures Releasable(s) <==>
              || !HasLaunched(s)
              || ((exists i :: OnlyAt(s, Launches(), i)) && OnlyAt(s, Ends(), |s| - 1))
  {
    CountedOnce(s, Launches());
    CountedOnce(s, Ends());
    NoneCounted(s, Launches());
    if |Filter(s, Ends())| == 1 {
      var i :| OnlyAt(s, Ends(), i);
      TheOne(s, Ends(), i);
    }
  }

  /** The test holds at one place and nowhere else. */
  ghost predicate OnlyAt(s: seq<Event>, keep: Event -> bool, i: int) {
    0 <= i < |s| && keep(s[i]) && forall j | 0 <= j < |s| && j != i :: !keep(s[j])
  }

  lemma NoneCounted(s: seq<Event>, keep: Event -> bool)
    ensures Filter(s, keep) == [] <==> forall i | 0 <= i < |s| :: !keep(s[i])
  {
    FilterIs(s, keep);
    if Filter(s, keep) != [] {
      var e := Filter(s, keep)[0];
      assert e in Filter(s, keep);
    }
    if exists i :: 0 <= i < |s| && keep(s[i]) {
      var i :| 0 <= i < |s| && keep(s[i]);
      assert s[i] in Filter(s, keep);
    }
  }

  lemma {:induction false} CountedOnce(s: seq<Event>, keep: Event -> bool)
    ensures |Filter(s, keep)| == 1 <==> exists i :: OnlyAt(s, keep, i)
  {
    if s != [] {
      var rest := s[1..];
      assert forall i | 0 <= i < |rest| :: rest[i] == s[i + 1];
      NoneCounted(rest, keep);
      CountedOnce(rest, keep);
      if keep(s[0]) {
        if Filter(rest, keep) == [] { assert OnlyAt(s, keep, 0); }
        if exists i :: OnlyAt(s, keep, i) {
          var i :| OnlyAt(s, keep, i);
          assert i == 0;
          forall j | 0 <= j < |rest| ensures !keep(rest[j]) { assert rest[j] == s[j + 1]; }
        }
      } else {
        if exists i :: OnlyAt(rest, keep, i) {
          var i :| OnlyAt(rest, keep, i);
          assert OnlyAt(s, keep, i + 1);
        }
        if exists i :: OnlyAt(s, keep, i) {
          var i :| OnlyAt(s, keep, i);
          assert OnlyAt(rest, keep, i - 1);
        }
      }
    }
  }

  lemma {:induction false} TheOne(s: seq<Event>, keep: Event -> bool, i: int)
    requires OnlyAt(s, keep, i)
    ensures Filter(s, keep) == [s[i]]
  {
    var rest := s[1..];
    assert forall j | 0 <= j < |rest| :: rest[j] == s[j + 1];
    if i == 0 {
      NoneCounted(rest, keep);
    } else {
      assert OnlyAt(rest, keep, i - 1);
      TheOne(rest, keep, i - 1);
    }
  }

  /** A status is returned only by a call that released the claim, or found it not releasable or the stream not
      readable; and a call whose process died before the decision releases nothing. */
  lemma StatusNeedsRelease(w: World, id: string, reply: Reply, faults: Faults)
    ensures var (after, answer) := ResolveOwnership(w, id, reply, faults);
            && (answer.Returned? ==>
                  answer == reply
                  && (after.resolved == Some(id) || !Releasable(w.place.stream) || faults(w.place.clock) != Fine))
            && (answer != reply ==>
                  answer == Gone || answer == Threw(ServiceError("run_ownership_resolution_failed"))
                  || (answer == Threw(ServiceError("run_ownership_resolution_conflict"))
                      && w.resolved.Some? && w.resolved != Some(id)))
  {
  }

  lemma DeadCallsReleaseNothing(w: World, a: Attempt, faults: Faults)
    requires Claim(w, a.claim, faults).reply == None
    requires LaunchOwned(Claim(w, a.claim, faults).world.place, a, faults).reply == Gone
    ensures Launch(w, a, faults).0.resolved == w.resolved && Launch(w, a, faults).1 == Gone
  {
    ClaimIsWrittenOnce(w, a.claim, faults);
  }

  // ---------------------------------------------------------------- over any launches

  /** A resolution is only ever written for the claim. */
  ghost predicate Matched(w: World) {
    w.resolved.Some? ==> w.claim == w.resolved
  }

  /** One more call: claim and resolution stay once written, and what is written next carries its identity. */
  lemma LaunchKeepsMatched(w: World, a: Attempt, faults: Faults)
    requires Matched(w)
    ensures var after := Launch(w, a, faults).0;
            && Matched(after)
            && (w.claim.Some? ==> after.claim == w.claim) && (w.resolved.Some? ==> after.resolved == w.resolved)
            && (after.claim == w.claim || after.claim == Some(a.claim))
  {
    LetInExactly(w, a.claim, faults);
    ClaimIsWrittenOnce(w, a.claim, faults);
    var claimed := Claim(w, a.claim, faults);
    if claimed.reply == None {
      var outcome := LaunchOwned(claimed.world.place, a, faults);
      ResolutionIsWrittenOnce(claimed.world.(place := outcome.place), a.claim, outcome.reply, faults);
    }
  }

  lemma ResolutionIsWrittenOnce(w: World, id: string, reply: Reply, faults: Faults)
    ensures var after := ResolveOwnership(w, id, reply, faults).0;
            && after.claim == w.claim
            && (w.resolved.Some? ==> after.resolved == w.resolved)
            && (after.resolved == w.resolved || (after.resolved == Some(id) && Releasable(w.place.stream)))
  {
  }

  /** Over any launches of one run id, with any failures: claim and resolution are written once and for one
      identity, and calls with any other identity change nothing. */
  lemma {:induction false} OneOwnerEver(w: World, attempts: seq<Attempt>, faults: Faults)
    requires Matched(w)
    ensures var after := LaunchAll(w, attempts, faults);
            && Matched(after)
            && (w.claim.Some? ==> after.claim == w.claim) && (w.resolved.Some? ==> after.resolved == w.resolved)
    ensures w.claim.Some? && (forall i | 0 <= i < |attempts| :: Some(attempts[i].claim) != w.claim) ==>
              Untouched(w, LaunchAll(w, attempts, faults))
    decreases |attempts|
  {
    if attempts != [] {
      var a := attempts[0];
      LaunchKeepsMatched(w, a, faults);
      if w.claim.Some? && w.claim != Some(a.claim) { OtherAttemptsKeepOut(w, a, faults); }
      OneOwnerEver(Launch(w, a, faults).0, attempts[1..], faults);
    }
  }
}
