/** Safety of the run lifecycle over any launches of one run id: what the stream, the returned status
    and the ownership claim can be relied on for, and exactly where they cannot. */
module RunSafety {
  import opened Outcomes
  import opened Sorting
  import opened RunProtocol
  import opened RunTheorems
  import F = FixtureAdapter

  /** From the launch on. A returned status means the closing was written to its end. */
  lemma ExecuteShaped(p: Place, a: Attempt, faults: Faults) returns (t: Trace)
    requires Reliable(faults) && a.preflight.Ready? && p.stream == OpeningEvents(a)
    ensures var r := Execute(p, a, faults);
            && Fits(t, a, r.place.stream) && t.begun == |OpeningEvents(a)|
            && (r.reply.Returned? ==>
                  && t.closed == |ClosingEvents(a)| > 0 && t.tail == []
                  && a.adapter.Returns? && r.reply.status == StatusFor(a.adapter.output.core.termination))
  {
    t := Trace(|OpeningEvents(a)|, [], 0, []);
    var started := Do(p, Work(NoEffect), faults);
    OpeningAscends(a);
    AscendingIsUnique(OpeningEvents(a));
    assert ClosingEvents(a)[..0] == [] && OpeningEvents(a)[..t.begun] + [] + [] + [] == p.stream;
    assert Live(t, a, started.place.stream);
    if started.signal.Raised? {
      t := TerminalizeFits(started.place, a, t, Runtime, started.signal.error, faults);
    } else if started.signal == Done {
      match a.adapter {
        case Returns(output) => t := ReturnedShaped(started.place, a, t, output, faults);
        case Fails(error) => t := TerminalizeFits(started.place, a, t, Runtime, error, faults);
        case FailsWithEvidence(error, messages, receipts) =>
          BoundaryEvents(messages, receipts, a.run);
          t := OutputFits(started.place, a, t, Boundary(messages, receipts, a.run), faults);
          var kept := Play(started.place, Boundary(messages, receipts, a.run), faults);
          if kept.signal.Raised? {
            t := TerminalizeFits(kept.place, a, t, RuntimeOutput, kept.signal.error, faults);
          } else if kept.signal == Done {
            t := TerminalizeFits(kept.place, a, t, Runtime, error, faults);
          }
      }
    }
  }

  lemma ReturnedShaped(p: Place, a: Attempt, t: Trace, output: Output, faults: Faults) returns (t': Trace)
    requires Reliable(faults) && Live(t, a, p.stream) && t.closed == 0 && a.adapter == Returns(output)
    ensures var r := Settle(Finish(p, a, output, faults), StatusFor(output.core.termination), faults);
            && Fits(t', a, r.place.stream) && t'.begun == t.begun
            && (r.reply.Returned? ==>
                  && t'.closed == |ClosingEvents(a)| > 0 && t'.tail == []
                  && r.reply.status == StatusFor(output.core.termination))
  {
    t' := FinishFits(p, a, t, output, faults);
    var done := Finish(p, a, output, faults);
    if done.signal.Raised? {
      t' := TerminalizeFits(done.place, a, t', done.phase, done.signal.error, faults);
    }
  }

  lemma OpeningFits(a: Attempt, k: nat)
    requires k <= |OpeningEvents(a)|
    ensures UniqueKeys(OpeningEvents(a)) && Fits(Trace(k, [], 0, []), a, OpeningEvents(a)[..k])
  {
    OpeningAscends(a);
    AscendingIsUnique(OpeningEvents(a));
    var s := OpeningEvents(a)[..k];
    assert UniqueKeys(s);
    assert ClosingEvents(a)[..0] == [] && s + [] + [] + [] == s;
  }

  lemma OpeningShaped(p: Place, a: Attempt, faults: Faults) returns (k: nat)
    requires Reliable(faults) && p.stream == []
    ensures k <= |OpeningEvents(a)|
    ensures var r := Play(p, Opening(a), faults);
            && r.place.stream == OpeningEvents(a)[..k]
            && (r.signal == Done ==> k == |OpeningEvents(a)|)
    ensures Fits(Trace(k, [], 0, []), a, OpeningEvents(a)[..k])
  {
    OpeningIs(a);
    OpeningFits(a, 0);
    assert [] + OpeningEvents(a) == OpeningEvents(a);
    k := PlayNew(p, Opening(a), faults);
    assert [] + OpeningEvents(a)[..k] == OpeningEvents(a)[..k];
    OpeningFits(a, k);
  }

  /** A run id is used once: any earlier event or record refuses the launch and nothing is written. */
  lemma UsedRunIdIsRefused(p: Place, a: Attempt, faults: Faults)
    requires p.stream != [] || p.run.Some?
    ensures var r := LaunchOwned(p, a, faults);
            r.place.stream == p.stream && r.place.run == p.run && !r.reply.Returned?
  {
  }

  /** A launch on an unused run id leaves a stream of the attempt's shape, whatever fails. */
  lemma LaunchShaped(p: Place, a: Attempt, faults: Faults) returns (t: Trace)
    requires Reliable(faults) && p.stream == [] && p.run == None
    ensures var r := LaunchOwned(p, a, faults);
            && Fits(t, a, r.place.stream)
            && (r.reply.Returned? ==>
                  && a.preflight.Ready? && t.begun == |OpeningEvents(a)| && t.closed == |ClosingEvents(a)| > 0
                  && t.tail == []
                  && a.adapter.Returns? && r.reply.status == StatusFor(a.adapter.output.core.termination))
  {
    var read := Do(p, Work(NoEffect), faults);
    t := Trace(0, [], 0, []);
    assert Fits(t, a, []);
    if read.signal == Done && a.evaluates && a.refusal == None && (a.preflight.Blocked? || a.buildable) {
      var k := OpeningShaped(read.place, a, faults);
      var begun := Play(read.place, Opening(a), faults);
      t := Trace(k, [], 0, []);
      if begun.signal == Done && a.preflight.Ready? {
        assert OpeningEvents(a)[..k] == OpeningEvents(a);
        t := ExecuteShaped(begun.place, a, faults);
      }
    }
  }

  // ---------------------------------------------------------------- any launches

  function LaunchAll(w: World, attempts: seq<Attempt>, faults: Faults): World
    decreases |attempts|
  {
    if attempts == [] then w else LaunchAll(Launch(w, attempts[0], faults).0, attempts[1..], faults)
  }

  lemma OwnedKeepsLifecycle(p: Place, a: Attempt, faults: Faults)
    requires Reliable(faults) && Lifecycle(p.stream)
    ensures Lifecycle(LaunchOwned(p, a, faults).place.stream)
    ensures p.stream != [] ==> LaunchOwned(p, a, faults).place.stream == p.stream
  {
    if p.stream == [] && p.run == None {
      var t := LaunchShaped(p, a, faults);
      ShapedIsLifecycle(LaunchOwned(p, a, faults).place.stream, a);
    } else {
      UsedRunIdIsRefused(p, a, faults);
    }
  }

  /** Claiming and releasing leave the stream alone. */
  lemma LaunchStream(w: World, a: Attempt, faults: Faults)
    ensures var claimed := Claim(w, a.claim, faults);
            && claimed.world.place.stream == w.place.stream
            && Launch(w, a, faults).0.place.stream ==
               if claimed.reply.Some? then w.place.stream else LaunchOwned(claimed.world.place, a, faults).place.stream
  {
    var claimed := Claim(w, a.claim, faults);
    ClaimKeepsStream(w, a.claim, faults);
    if claimed.reply == None {
      var outcome := LaunchOwned(claimed.world.place, a, faults);
      ResolveKeepsStream(claimed.world.(place := outcome.place), a.claim, outcome.reply, faults);
    }
  }

  lemma ClaimKeepsStream(w: World, id: string, faults: Faults)
    ensures Claim(w, id, faults).world.place.stream == w.place.stream
            && Claim(w, id, faults).world.place.run == w.place.run
  {
  }

  lemma ResolveKeepsStream(w: World, id: string, reply: Reply, faults: Faults)
    ensures ResolveOwnership(w, id, reply, faults).0.place.stream == w.place.stream
  {
  }

  lemma LaunchKeepsLifecycle(w: World, a: Attempt, faults: Faults)
    requires Reliable(faults) && Lifecycle(w.place.stream)
    ensures Lifecycle(Launch(w, a, faults).0.place.stream)
    ensures w.place.stream != [] ==> Launch(w, a, faults).0.place.stream == w.place.stream
  {
    LaunchStream(w, a, faults);
    OwnedKeepsLifecycle(Claim(w, a.claim, faults).world.place, a, faults);
  }

  /** Whatever is launched under one run id, and whatever fails: the stream is lawful, and once it has
      begun and its launch is over it never changes. */
  lemma {:induction false} EveryRunIsLawful(w: World, attempts: seq<Attempt>, faults: Faults)
    requires Reliable(faults) && Lifecycle(w.place.stream)
    ensures Lifecycle(LaunchAll(w, attempts, faults).place.stream)
    ensures w.place.stream != [] ==> LaunchAll(w, attempts, faults).place.stream == w.place.stream
    decreases |attempts|
  {
    if attempts != [] {
      LaunchKeepsLifecycle(w, attempts[0], faults);
      EveryRunIsLawful(Launch(w, attempts[0], faults).0, attempts[1..], faults);
    }
  }

  // ---------------------------------------------------------------- status

  lemma {:induction false} OnlyTheLast(s: seq<Event>, keep: Event -> bool)
    requires forall i | 0 <= i < |s| && keep(s[i]) :: i == |s| - 1
    ensures Filter(s, keep) == if s != [] && keep(s[|s| - 1]) then [s[|s| - 1]] else []
  {
    if s != [] {
      forall i | 0 <= i < |s[1..]| && keep(s[1..][i]) ensures i == |s[1..]| - 1 { assert s[1..][i] == s[i + 1]; }
      OnlyTheLast(s[1..], keep);
    }
  }

  lemma {:induction false} AtMostOne(s: seq<Event>, keep: Event -> bool)
    requires forall i, j | 0 <= i < j < |s| :: !(keep(s[i]) && keep(s[j]))
    ensures |Filter(s, keep)| <= 1
    ensures Filter(s, keep) == [] <==> forall i | 0 <= i < |s| :: !keep(s[i])
  {
    if s != [] {
      assert forall i | 0 <= i < |s[1..]| :: s[1..][i] == s[i + 1];
      AtMostOne(s[1..], keep);
      if keep(s[0]) {
        forall i | 0 <= i < |s[1..]| ensures !keep(s[1..][i]) { assert s[1..][i] == s[i + 1]; }
      } else if Filter(s, keep) == [] {
        forall i | 0 <= i < |s| ensures !keep(s[i]) { assert i > 0 ==> s[i] == s[1..][i - 1]; }
      }
    }
  }

  lemma TerminalsAreLast(s: seq<Event>)
    requires Lifecycle(s)
    ensures Filter(s, Terminals()) == if s != [] && IsTerminal(s[|s| - 1]) then [s[|s| - 1]] else []
    ensures Filter(s, Ends()) == if s != [] && EndsLaunch(s[|s| - 1]) then [s[|s| - 1]] else []
  {
    forall i | 0 <= i < |s| && IsTerminal(s[i]) ensures i == |s| - 1 { assert LawfulAt(s, i); }
    OnlyTheLast(s, Terminals());
    OnlyTheLast(s, Ends());
  }

  ghost predicate HasLaunched(s: seq<Event>) {
    exists i :: 0 <= i < |s| && s[i].Launched?
  }

  /** The status of a lawful stream is its last terminal, or running once launched; the two conflict
      errors never occur. */
  lemma StatusIsExact(s: seq<Event>)
    requires Lifecycle(s)
    ensures StatusOf(s) ==
            if s == [] then Err("run_not_found")
            else if IsTerminal(s[|s| - 1]) then Ok(StatusOfEvent(s[|s| - 1]))
            else if HasLaunched(s) then Ok(RunningStatus)
            else Err("run_lifecycle_incomplete")
  {
    TerminalsAreLast(s);
  }

  lemma ClosedStatus(s: seq<Event>, a: Attempt, t: Trace)
    requires Fits(t, a, s) && t.closed == |ClosingEvents(a)| > 0 && t.tail == [] && a.adapter.Returns?
    ensures StatusOf(s) == Ok(StatusFor(a.adapter.output.core.termination))
  {
    ShapedIsLifecycle(s, a);
    StatusIsExact(s);
    var closing := ClosingEvents(a);
    assert s[|s| - 1] == closing[|closing| - 1];
  }

  /** What a launch returns is what the evidence says. */
  lemma ReturnedStatusIsDurable(p: Place, a: Attempt, faults: Faults)
    requires Reliable(faults) && LaunchOwned(p, a, faults).reply.Returned?
    ensures StatusOf(LaunchOwned(p, a, faults).place.stream) == Ok(LaunchOwned(p, a, faults).reply.status)
  {
    if p.stream != [] || p.run.Some? { UsedRunIdIsRefused(p, a, faults); }
    var t := LaunchShaped(p, a, faults);
    ClosedStatus(LaunchOwned(p, a, faults).place.stream, a, t);
  }

  /** A completed run verified its artifact in the event just before. */
  lemma CompletionIsVerified(s: seq<Event>)
    requires Lifecycle(s) && StatusOf(s) == Ok(CompletedStatus)
    ensures |s| >= 2 && s[|s| - 1].RunCompleted? && s[|s| - 2] == IngestionVerified(s[|s| - 1].artifact)
            && HasLaunched(s)
  {
    StatusIsExact(s);
    assert LawfulAt(s, |s| - 1);
  }

  // ---------------------------------------------------------------- ownership

  /** Not launched, or launched and over. */
  ghost predicate NotLeftRunning(s: seq<Event>) {
    !HasLaunched(s) || EndsLaunch(s[|s| - 1])
  }

  lemma OneLaunch(s: seq<Event>)
    requires UniqueKeys(s)
    ensures |Filter(s, Launches())| <= 1 && (Filter(s, Launches()) == [] <==> !HasLaunched(s))
  {
    forall i, j | 0 <= i < j < |s| ensures !(s[i].Launched? && s[j].Launched?) {
      assert !SameKey(s[i], s[j]);
    }
    AtMostOne(s, Launches());
  }

  lemma ReleasableIffNotLeftRunning(s: seq<Event>)
    requires Lifecycle(s)
    ensures Releasable(s) <==> NotLeftRunning(s)
  {
    TerminalsAreLast(s);
    OneLaunch(s);
  }

  /** A call that gets to decide, with the stream readable and the resolution writable, releases the
      claim exactly when the run is not left running. */
  lemma ReleaseIsExact(w: World, a: Attempt, faults: Faults)
    requires Reliable(faults) && Lifecycle(w.place.stream)
    requires Claim(w, a.claim, faults).reply == None
    requires var r := LaunchOwned(Claim(w, a.claim, faults).world.place, a, faults);
             r.reply != Gone && faults(r.place.clock) == Fine && faults(r.place.clock + 1) == Fine
    ensures var (after, reply) := Launch(w, a, faults);
            && reply == LaunchOwned(Claim(w, a.claim, faults).world.place, a, faults).reply
            && after.resolved == if NotLeftRunning(after.place.stream) then Some(a.claim) else w.resolved
  {
    LaunchKeepsLifecycle(w, a, faults);
    ReleasableIffNotLeftRunning(Launch(w, a, faults).0.place.stream);
  }

  /** Whatever fails, a claim that was held is released only when the run is not left running. */
  lemma ReleasedOnlyWhenSafe(w: World, a: Attempt, faults: Faults)
    requires Reliable(faults) && Lifecycle(w.place.stream)
    requires w.resolved == None && Launch(w, a, faults).0.resolved.Some?
    ensures NotLeftRunning(Launch(w, a, faults).0.place.stream)
  {
    LaunchKeepsLifecycle(w, a, faults);
    ReleasableIffNotLeftRunning(Launch(w, a, faults).0.place.stream);
  }

  /** The durable resolution tells the truth about the stream. */
  ghost predicate ResolutionHolds(w: World) {
    w.resolved.Some? ==> NotLeftRunning(w.place.stream)
  }

  /** A call that leaves the resolution untrue, although every stream could be read back. */
  ghost predicate GoesStale(w: World, a: Attempt, faults: Faults) {
    Reliable(faults) && !ResolutionHolds(Launch(w, a, faults).0)
  }

  /** The resolution of an earlier call lets this one in, the run id is unused and the attempt is launchable. */
  predicate MayGoStale(w: World, a: Attempt) {
    w.claim == w.resolved == Some(a.claim) && w.place.stream == [] && w.place.run == None && Launchable(a)
  }

  lemma StaleNeedsLaunch(w: World, a: Attempt, faults: Faults)
    requires Lifecycle(w.place.stream) && ResolutionHolds(w) && GoesStale(w, a, faults)
    ensures MayGoStale(w, a)
  {
    LaunchKeepsLifecycle(w, a, faults);
    LaunchStream(w, a, faults);
    if w.resolved == None { ReleasedOnlyWhenSafe(w, a, faults); }
    var claimed := Claim(w, a.claim, faults);
    ClaimLetsIn(w, a.claim, faults);
    OnlyLaunchableLaunches(claimed.world.place, a, faults);
  }

  lemma ClaimLetsIn(w: World, id: string, faults: Faults)
    requires w.resolved.Some? && Claim(w, id, faults).reply == None
    ensures w.claim == w.resolved == Some(id)
            && Claim(w, id, faults).world.place == w.place.(clock := w.place.clock + 1)
  {
  }

  lemma OnlyLaunchableLaunches(p: Place, a: Attempt, faults: Faults)
    requires Reliable(faults) && !HasLaunched(p.stream) && HasLaunched(LaunchOwned(p, a, faults).place.stream)
    ensures p.stream == [] && p.run == None && Launchable(a)
  {
    if p.stream != [] || p.run.Some? { UsedRunIdIsRefused(p, a, faults); }
    var read := Do(p, Work(NoEffect), faults);
    if a.preflight.Blocked? && read.signal == Done && a.evaluates && a.refusal == None {
      var k := OpeningShaped(read.place, a, faults);
    }
  }

  /** Dying right after the launch event is enough. */
  lemma DeathLeavesItStale(w: World, a: Attempt) returns (faults: Faults)
    requires MayGoStale(w, a)
    ensures GoesStale(w, a, faults)
  {
    var opening := Opening(a);
    var death := w.place.clock + 2 + |opening|;
    faults := t => if t == death then Dies(false) else Fine;
    var p := w.place.(clock := w.place.clock + 2);
    assert Claim(w, a.claim, faults) == Claimed(w.(place := w.place.(clock := w.place.clock + 1)), None);
    CalmOpening(p, a, faults);
    var launched := Play(p, opening, faults).place;
    assert Do(launched, Work(NoEffect), faults).signal == Died;
    LaunchStream(w, a, faults);
    assert Launch(w, a, faults).0.place.stream == OpeningEvents(a);
    OpeningAscends(a);
    assert OpeningEvents(a)[|OpeningEvents(a)| - 1].Launched?;
  }

  /** For which attempts a resolution can go stale, by what is known before the call. */
  lemma ResolutionGoesStaleExactly(w: World, a: Attempt)
    requires Lifecycle(w.place.stream) && ResolutionHolds(w)
    ensures (exists faults :: GoesStale(w, a, faults)) <==> MayGoStale(w, a)
  {
    if exists faults :: GoesStale(w, a, faults) {
      var faults :| GoesStale(w, a, faults);
      StaleNeedsLaunch(w, a, faults);
    }
    if MayGoStale(w, a) {
      var faults := DeathLeavesItStale(w, a);
    }
  }

  /** And in which worlds: those whose claim was resolved with nothing written under the run id. The
      resolution is written once and never withdrawn, so it still lets the next call in. */
  lemma ResolutionCanGoStaleExactly(w: World)
    requires Lifecycle(w.place.stream) && ResolutionHolds(w)
    ensures (exists a, faults :: GoesStale(w, a, faults)) <==>
            w.resolved.Some? && w.claim == w.resolved && w.place.stream == [] && w.place.run == None
  {
    if exists a, faults :: GoesStale(w, a, faults) {
      var a, faults :| GoesStale(w, a, faults);
      StaleNeedsLaunch(w, a, faults);
    }
    if w.resolved.Some? && w.claim == w.resolved && w.place.stream == [] && w.place.run == None {
      var a := SomeAttempt(Fails(OtherError)).(claim := w.resolved.value);
      var faults := DeathLeavesItStale(w, a);
    }
  }

  /** Even then no second launch follows: the used run id refuses it. */
  lemma NoSecondLaunch(w: World, attempts: seq<Attempt>, faults: Faults)
    requires Reliable(faults) && Lifecycle(w.place.stream) && HasLaunched(w.place.stream)
    ensures LaunchAll(w, attempts, faults).place.stream == w.place.stream
  {
    EveryRunIsLawful(w, attempts, faults);
  }

  // ---------------------------------------------------------------- without faults

  const Start := World(Place([], 0, None, None), None, None)

  /** A first attempt with nothing unusual about it. */
  function SomeAttempt(adapter: AdapterResult): Attempt {
    var runtime := F.RuntimeRequest("request", "target", 0, F.State(F.Science("e", F.Resolution("r", 1, 1), "d"), 0),
                                    None, None);
    Attempt("claim", true, None, Ready("preflight"), true, Run("run", 1, None, runtime), None, true, "artifact",
            adapter)
  }

  /** Without faults every action has its effect. */
  function CalmPlace(p: Place, script: seq<Action>): Place
    decreases |script|
  {
    if script == [] then p
    else
      var next := p.(clock := p.clock + 1);
      var q := match script[0]
               case Write(e) => next.(stream := next.stream + [e])
               case Work(effect) => Effected(next, effect)
               case Fail(_) => p;
      CalmPlace(q, script[1..])
  }

  lemma {:induction false} CalmPlay(p: Place, script: seq<Action>, faults: Faults)
    requires UniqueKeys(p.stream + EventsOf(script)) && forall i | 0 <= i < |script| :: !script[i].Fail?
    requires forall t | p.clock <= t < p.clock + |script| :: faults(t) == Fine
    ensures Play(p, script, faults) == Played(CalmPlace(p, script), Done)
    decreases |script|
  {
    if script != [] {
      var q := Do(p, script[0], faults).place;
      assert faults(p.clock) == Fine;
      if script[0].Write? {
        var e := script[0].event;
        NewKey(p.stream, e, EventsOf(script[1..]));
        assert (p.stream + [e]) + EventsOf(script[1..]) == p.stream + ([e] + EventsOf(script[1..]));
      }
      assert UniqueKeys(q.stream + EventsOf(script[1..]));
      CalmPlay(q, script[1..], faults);
    }
  }

  /** Without faults the opening is written in full. */
  lemma CalmOpening(p: Place, a: Attempt, faults: Faults)
    requires p.stream == [] && a.preflight.Ready?
    requires forall t | p.clock <= t < p.clock + |Opening(a)| :: faults(t) == Fine
    ensures Play(p, Opening(a), faults)
            == Played(Place(OpeningEvents(a), p.clock + |Opening(a)|, Some(a.run), p.artifact), Done)
  {
    var script, events := Opening(a), OpeningEvents(a);
    OpeningFits(a, 0);
    OpeningIs(a);
    assert [] + events == events;
    CalmPlay(p, script, faults);
    assert script[1..] == Writes(events);
    CalmWrites(p.(clock := p.clock + 1, run := Some(a.run)), events);
  }

  lemma {:induction false} CalmWrites(p: Place, events: seq<Event>)
    ensures CalmPlace(p, Writes(events)) == p.(stream := p.stream + events, clock := p.clock + |events|)
    decreases |events|
  {
    if events != [] {
      assert Writes(events)[1..] == Writes(events[1..]);
      CalmWrites(p.(stream := p.stream + [events[0]], clock := p.clock + 1), events[1..]);
      assert p.stream + [events[0]] + events[1..] == p.stream + events;
    } else {
      assert p.stream + [] == p.stream;
    }
  }

  /** A claim resolved by a first call that was refused stays resolved when the second call launches and
      its process ends without a terminal. */
  lemma StaleResolutionHappens() returns (refused: Attempt, a: Attempt, faults: Faults)
    ensures Reliable(faults) && refused.claim == a.claim
    ensures var w := LaunchAll(Start, [refused, a], faults);
            w.resolved == Some(a.claim) && HasLaunched(w.place.stream) && !NotLeftRunning(w.place.stream)
  {
    a := SomeAttempt(Fails(OtherError));
    refused := a.(refusal := Some("run_dependency_missing"));
    faults := t => if t == 10 then Dies(false) else Fine;
    var w := World(Place([], 4, None, None), Some(a.claim), Some(a.claim));
    assert Launch(Start, refused, faults).0 == w;
    CalmOpening(w.place.(clock := 6), a, faults);
    var launched := Place(OpeningEvents(a), 10, Some(a.run), None);
    assert Do(launched, Work(NoEffect), faults).signal == Died;
    LaunchStream(w, a, faults);
    assert Launch(w, a, faults).0.place.stream == OpeningEvents(a);
    assert [refused, a][1..] == [a] && [a][1..] == [];
    assert LaunchAll(Start, [refused, a], faults) == LaunchAll(Launch(w, a, faults).0, [], faults);
    assert OpeningEvents(a)[|OpeningEvents(a)| - 1].Launched?;
  }
}
