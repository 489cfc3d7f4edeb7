/** What the durable evidence of a run looks like after any launches of one run id, whatever fails, as
    long as a stream that was written can be read back. */
module RunTheorems {
  import opened Outcomes
  import opened Sorting
  import opened RunProtocol
  import F = FixtureAdapter
  import C = RunController

  ghost predicate Reliable(faults: Faults) {
    forall t :: Readable(faults(t))
  }

  ghost predicate UniqueKeys(s: seq<Event>) {
    forall i, j | 0 <= i < j < |s| :: !SameKey(s[i], s[j])
  }

  // ---------------------------------------------------------------- one append

  lemma {:induction false} NoneWithKey(s: seq<Event>, e: Event)
    requires !KeyTaken(s, e)
    ensures Filter(s, WithKeyOf(e)) == []
  {
    if s != [] {
      assert !SameKey(s[0], e);
      assert forall i | 0 <= i < |s[1..]| :: s[1..][i] == s[i + 1];
      NoneWithKey(s[1..], e);
    }
  }

  /** With unique keys, reconciliation finds exactly the events that are there. */
  lemma {:induction false} ReconcilesIffPresent(s: seq<Event>, e: Event)
    requires UniqueKeys(s)
    ensures Reconciles(s, e) <==> e in s
  {
    FilterIs(s, WithKeyOf(e));
    if e in s {
      assert s == [s[0]] + s[1..];
      if SameKey(s[0], e) {
        assert !KeyTaken(s[1..], e) by {
          forall i | 0 <= i < |s[1..]| ensures !SameKey(s[1..][i], e) { assert s[1..][i] == s[i + 1]; }
        }
        NoneWithKey(s[1..], e);
        assert e !in s[1..];
      } else {
        ReconcilesIffPresent(s[1..], e);
      }
    } else {
      assert Reconciles(s, e) ==> e in Filter(s, WithKeyOf(e));
    }
  }

  /** An append whose outcome can be read back is exact: done means present once, raised means absent
      and nothing written. */
  lemma AppendIsExact(s: seq<Event>, e: Event, fault: Fault)
    requires UniqueKeys(s) && Readable(fault)
    ensures var r := Append(s, e, fault);
            && UniqueKeys(r.stream)
            && (r.stream == s || (r.stream == s + [e] && !KeyTaken(s, e)))
            && (r.signal == Done ==> e in r.stream)
            && (r.signal.Raised? ==> r.stream == s && e !in s)
  {
    var stored := StoreAppend(s, e, fault);
    assert UniqueKeys(stored.stream);
    ReconcilesIffPresent(stored.stream, e);
  }

  /** An append that cannot be read back may be reported as failed although it is there. */
  lemma UnreadableAppendMisleads(s: seq<Event>, e: Event, error: Error)
    requires !KeyTaken(s, e)
    ensures var r := Append(s, e, CommitsThenRaises(error, false)); r.signal == Raised(error) && e in r.stream
  {
  }

  // ---------------------------------------------------------------- playing a script

  function EventsOf(script: seq<Action>): seq<Event> {
    if script == [] then []
    else if script[0].Write? then [script[0].event] + EventsOf(script[1..])
    else EventsOf(script[1..])
  }

  lemma {:induction false} EventsOfWrites(events: seq<Event>)
    ensures EventsOf(Writes(events)) == events
  {
    if events != [] {
      assert Writes(events)[1..] == Writes(events[1..]);
      EventsOfWrites(events[1..]);
    }
  }

  lemma {:induction false} EventsOfConcat(a: seq<Action>, b: seq<Action>)
    ensures EventsOf(a + b) == EventsOf(a) + EventsOf(b)
  {
    if a == [] {
      assert a + b == b;
    } else {
      assert (a + b)[0] == a[0] && (a + b)[1..] == a[1..] + b;
      EventsOfConcat(a[1..], b);
    }
  }

  lemma {:induction false} PlayConcat(p: Place, a: seq<Action>, b: seq<Action>, faults: Faults)
    ensures var first := Play(p, a, faults);
            Play(p, a + b, faults) == if first.signal != Done then first else Play(first.place, b, faults)
    decreases |a|
  {
    if a == [] {
      assert a + b == b;
    } else {
      assert (a + b)[0] == a[0] && (a + b)[1..] == a[1..] + b;
      var first := Do(p, a[0], faults);
      if first.signal == Done { PlayConcat(first.place, a[1..], b, faults); }
    }
  }

  lemma TwoActions(p: Place, a: Action, b: Action, faults: Faults)
    ensures Play(p, [a, b], faults) ==
              var first := Do(p, a, faults);
              if first.signal != Done then first else Do(first.place, b, faults)
  {
    var first := Do(p, a, faults);
    assert [a, b][1..] == [b] && [b][1..] == [];
    if first.signal == Done {
      assert Play(first.place, [b], faults) == Do(first.place, b, faults);
    }
  }

  lemma UniqueSplit(a: seq<Event>, b: seq<Event>, k: nat)
    requires UniqueKeys(a + b) && k <= |b|
    ensures UniqueKeys(a + b[..k])
  {
    assert forall i | 0 <= i < |a| + k :: (a + b[..k])[i] == (a + b)[i];
  }

  /** One write of a script: the stream and the signal, and nothing else that matters here. */
  lemma WriteStep(p: Place, e: Event, faults: Faults)
    requires Reliable(faults) && UniqueKeys(p.stream)
    ensures var r := Do(p, Write(e), faults);
            && UniqueKeys(r.place.stream)
            && (r.place.stream == p.stream || (r.place.stream == p.stream + [e] && !KeyTaken(p.stream, e)))
            && (r.signal == Done ==> e in r.place.stream)
            && (r.signal.Raised? ==> r.place.stream == p.stream && e !in p.stream)
            && r.place.run == p.run && r.place.artifact == p.artifact
  {
    assert Readable(faults(p.clock));
    AppendIsExact(p.stream, e, faults(p.clock));
  }

  lemma OtherStep(p: Place, action: Action, faults: Faults)
    requires !action.Write?
    ensures Do(p, action, faults).place.stream == p.stream
  {
  }

  /** A script adds only its own events. */
  lemma {:induction false} PlayAdds(p: Place, script: seq<Action>, faults: Faults)
    ensures forall e | e in Play(p, script, faults).place.stream :: e in p.stream || e in EventsOf(script)
    decreases |script|
  {
    if script != [] {
      var first := Do(p, script[0], faults);
      DoAdds(p, script[0], faults);
      if first.signal == Done { PlayAdds(first.place, script[1..], faults); }
    }
  }

  lemma DoAdds(p: Place, action: Action, faults: Faults)
    ensures forall e | e in Do(p, action, faults).place.stream :: e in p.stream || (action.Write? && e == action.event)
  {
  }

  /** A script of new events writes a prefix of them: all when done, not the last when raised. */
  lemma {:induction false} PlayNew(p: Place, script: seq<Action>, faults: Faults) returns (k: nat)
    requires Reliable(faults) && UniqueKeys(p.stream + EventsOf(script))
    ensures k <= |EventsOf(script)|
    ensures Play(p, script, faults).place.stream == p.stream + EventsOf(script)[..k]
    ensures UniqueKeys(Play(p, script, faults).place.stream)
    ensures Play(p, script, faults).signal == Done ==> k == |EventsOf(script)|
    ensures Play(p, script, faults).signal.Raised? && script != [] && script[|script| - 1].Write? ==>
              k < |EventsOf(script)|
    decreases |script|
  {
    if script == [] {
      return 0;
    }
    var first := Do(p, script[0], faults);
    var rest := EventsOf(script[1..]);
    if script[0].Write? {
      var e := script[0].event;
      assert EventsOf(script) == [e] + rest;
      NewKey(p.stream, e, rest);
      WriteStep(p, e, faults);
      if first.signal == Done {
        assert first.place.stream == p.stream + [e];
        assert (p.stream + [e]) + rest == p.stream + ([e] + rest);
        var more := PlayNew(first.place, script[1..], faults);
        assert (p.stream + [e]) + rest[..more] == p.stream + ([e] + rest)[..more + 1];
        k := more + 1;
      } else {
        k := if first.place.stream == p.stream then 0 else 1;
        assert p.stream + ([e] + rest)[..0] == p.stream && ([e] + rest)[..1] == [e];
      }
    } else {
      OtherStep(p, script[0], faults);
      if first.signal == Done {
        k := PlayNew(first.place, script[1..], faults);
      } else {
        k := 0;
        assert p.stream + rest[..0] == p.stream;
        UniqueSplit(p.stream, rest, 0);
        SomeEventIfEndsInWrite(script);
      }
    }
  }

  lemma {:induction false} SomeEventIfEndsInWrite(script: seq<Action>)
    requires script != []
    ensures script[|script| - 1].Write? ==> EventsOf(script) != []
  {
    if |script| > 1 {
      SomeEventIfEndsInWrite(script[1..]);
    }
  }

  lemma NewKey(s: seq<Event>, e: Event, rest: seq<Event>)
    requires UniqueKeys(s + ([e] + rest))
    ensures UniqueKeys(s) && !KeyTaken(s, e) && e !in s
  {
    var all := s + ([e] + rest);
    assert all[|s|] == e && forall i | 0 <= i < |s| :: all[i] == s[i];
  }

  // ---------------------------------------------------------------- ranks keep segments apart

  /** Where in a run an event belongs. */
  function Rank(e: Event): nat {
    match e
    case PreflightBlocked(_) => 0
    case PreflightSucceeded(_) => 0
    case RequestFrozen(_, _) => 1
    case Recovered(_, _) => 2
    case Launched(_, _) => 3
    case CancellationRequested => 5
    case IngestionStarted(_) => 5
    case IngestionVerified(_) => 6
    case IngestionFailed(_) => 7
    case RunCancelled => 8
    case RunInterrupted(_) => 8
    case RunCompleted(_) => 8
    case RunFailed(_, _) => 8
    case _ => 4
  }

  ghost predicate RanksWithin(s: seq<Event>, low: int, high: int) {
    forall i | 0 <= i < |s| :: low <= Rank(s[i]) <= high
  }

  ghost predicate Ascending(s: seq<Event>) {
    forall i, j | 0 <= i < j < |s| :: Rank(s[i]) < Rank(s[j])
  }

  lemma HigherRanksAreNew(s: seq<Event>, t: seq<Event>, r: int)
    requires UniqueKeys(s) && RanksWithin(s, 0, r) && UniqueKeys(t) && RanksWithin(t, r + 1, 8)
    ensures UniqueKeys(s + t)
  {
  }

  lemma AscendingIsUnique(s: seq<Event>)
    requires Ascending(s)
    ensures UniqueKeys(s)
  {
  }

  /** Events of one rank, in any number and with any repetitions, add events of that rank. */
  lemma {:induction false} PlayLevel(p: Place, script: seq<Action>, faults: Faults, r: nat) returns (added: seq<Event>)
    requires Reliable(faults) && UniqueKeys(p.stream) && RanksWithin(EventsOf(script), r, r)
    ensures Play(p, script, faults).place.stream == p.stream + added && RanksWithin(added, r, r)
    ensures UniqueKeys(Play(p, script, faults).place.stream)
    decreases |script|
  {
    if script == [] {
      return [];
    }
    var first := Do(p, script[0], faults);
    added := [];
    RestWithin(script, r);
    if script[0].Write? {
      WriteStep(p, script[0].event, faults);
      added := if first.place.stream == p.stream then [] else [script[0].event];
    } else {
      OtherStep(p, script[0], faults);
    }
    assert first.place.stream == p.stream + added;
    if first.signal == Done {
      var more := PlayLevel(first.place, script[1..], faults, r);
      assert p.stream + added + more == p.stream + (added + more);
      added := added + more;
    }
  }

  lemma RestWithin(script: seq<Action>, r: nat)
    requires script != [] && RanksWithin(EventsOf(script), r, r)
    ensures RanksWithin(EventsOf(script[1..]), r, r) && (script[0].Write? ==> Rank(script[0].event) == r)
  {
    var rest := EventsOf(script[1..]);
    if script[0].Write? {
      RanksOfTail(script[0].event, rest, r);
    }
  }

  lemma RanksOfTail(e: Event, rest: seq<Event>, r: nat)
    requires RanksWithin([e] + rest, r, r)
    ensures RanksWithin(rest, r, r) && Rank(e) == r
  {
    assert ([e] + rest)[0] == e;
    forall i | 0 <= i < |rest| ensures r <= Rank(rest[i]) <= r { assert ([e] + rest)[i + 1] == rest[i]; }
  }

  // ---------------------------------------------------------------- the shape of a stream

  function ClosingEvents(a: Attempt): seq<Event> {
    if !a.adapter.Returns? then []
    else
      match a.adapter.output.core.termination
      case Cancelled => [CancellationRequested, RunCancelled]
      case Interrupted => [RunInterrupted(|a.adapter.output.core.checkpoints|)]
      case Completed =>
        match a.adapter.output.core.members
        case None => []
        case Some(bundle) =>
          var artifact := ArtifactOf(a, bundle);
          [IngestionStarted(bundle), IngestionVerified(artifact), RunCompleted(artifact)]
  }

  /** How far the opening got, the output kept, how far the closing got, and the failure noted after. */
  datatype Trace = Trace(begun: nat, output: seq<Event>, closed: nat, tail: seq<Event>)

  ghost predicate IsTail(tail: seq<Event>) {
    || tail == []
    || (|tail| == 1 && (tail[0].IngestionFailed? || tail[0].RunFailed?))
    || (|tail| == 2 && tail[0].IngestionFailed? && tail[1].RunFailed?)
  }

  /** The opening, or part of it; once launched, some output; then part of the closing, and a failure
      only where the closing did not reach its end. */
  ghost predicate Fits(t: Trace, a: Attempt, s: seq<Event>) {
    && t.begun <= |OpeningEvents(a)| && t.closed <= |ClosingEvents(a)|
    && (t.begun < |OpeningEvents(a)| || a.preflight.Blocked? ==> t.output == [] && t.closed == 0 && t.tail == [])
    && RanksWithin(t.output, 4, 4) && IsTail(t.tail)
    && (t.tail != [] ==> t.closed == 0 || t.closed < |ClosingEvents(a)|)
    && s == OpeningEvents(a)[..t.begun] + t.output + ClosingEvents(a)[..t.closed] + t.tail
    && UniqueKeys(s)
  }

  ghost predicate Shaped(s: seq<Event>, a: Attempt) {
    exists t :: Fits(t, a, s)
  }

  // ---------------------------------------------------------------- what a shape guarantees

  ghost predicate LaunchedBefore(s: seq<Event>, i: nat) {
    exists j :: 0 <= j < i && j < |s| && s[j].Launched?
  }

  /** The lifecycle laws of one position: a terminal is last, a completion follows the verification of
      its own artifact, a cancellation its request, and all but the opening follows the launch. */
  ghost predicate LawfulAt(s: seq<Event>, i: nat)
    requires i < |s|
  {
    && (IsTerminal(s[i]) ==> i == |s| - 1)
    && (s[i].RunCompleted? ==> i > 0 && s[i - 1] == IngestionVerified(s[i].artifact))
    && (s[i].RunCancelled? ==> i > 0 && s[i - 1] == CancellationRequested)
    && (Rank(s[i]) > 3 ==> LaunchedBefore(s, i))
    && (s[i].Launched? ==>
          i >= 2 && s[0].PreflightSucceeded? && s[1].RequestFrozen? && s[1].runtime == s[i].run.runtime)
  }

  ghost predicate Lifecycle(s: seq<Event>) {
    UniqueKeys(s) && forall i | 0 <= i < |s| :: LawfulAt(s, i)
  }

  lemma OpeningAscends(a: Attempt)
    ensures Ascending(OpeningEvents(a)) && RanksWithin(OpeningEvents(a), 0, 3)
    ensures a.preflight.Ready? ==> OpeningEvents(a)[|OpeningEvents(a)| - 1].Launched? && |OpeningEvents(a)| >= 3
    ensures forall i | 0 <= i < |OpeningEvents(a)| - 1 :: !OpeningEvents(a)[i].Launched?
  {
  }

  lemma ClosingAscends(a: Attempt)
    ensures Ascending(ClosingEvents(a)) && RanksWithin(ClosingEvents(a), 5, 8)
    ensures forall i | 0 <= i < |ClosingEvents(a)| :: IsTerminal(ClosingEvents(a)[i]) <==> i == |ClosingEvents(a)| - 1
    ensures forall i | 0 <= i < |ClosingEvents(a)| && ClosingEvents(a)[i].RunCompleted? ::
              i > 0 && ClosingEvents(a)[i - 1] == IngestionVerified(ClosingEvents(a)[i].artifact)
    ensures forall i | 0 <= i < |ClosingEvents(a)| && ClosingEvents(a)[i].RunCancelled? ::
              i > 0 && ClosingEvents(a)[i - 1] == CancellationRequested
  {
    ClosingEndsLast(a);
    ClosingIsLed(a);
  }

  lemma ClosingEndsLast(a: Attempt)
    ensures forall i | 0 <= i < |ClosingEvents(a)| :: IsTerminal(ClosingEvents(a)[i]) <==> i == |ClosingEvents(a)| - 1
  {
  }

  lemma ClosingIsLed(a: Attempt)
    ensures forall i | 0 <= i < |ClosingEvents(a)| && ClosingEvents(a)[i].RunCompleted? ::
              i > 0 && ClosingEvents(a)[i - 1] == IngestionVerified(ClosingEvents(a)[i].artifact)
    ensures forall i | 0 <= i < |ClosingEvents(a)| && ClosingEvents(a)[i].RunCancelled? ::
              i > 0 && ClosingEvents(a)[i - 1] == CancellationRequested
  {
  }

  /** An index into four sequences put together. */
  lemma FourParts<T>(a: seq<T>, b: seq<T>, c: seq<T>, d: seq<T>, i: nat)
    requires i < |a + b + c + d|
    ensures i < |a| ==> (a + b + c + d)[i] == a[i]
    ensures |a| <= i < |a| + |b| ==> (a + b + c + d)[i] == b[i - |a|]
    ensures |a| + |b| <= i < |a| + |b| + |c| ==> (a + b + c + d)[i] == c[i - |a| - |b|]
    ensures |a| + |b| + |c| <= i ==> (a + b + c + d)[i] == d[i - |a| - |b| - |c|]
  {
  }

  /** Every launch leaves a lawful lifecycle. */
  lemma ShapedIsLifecycle(s: seq<Event>, a: Attempt)
    requires Shaped(s, a)
    ensures Lifecycle(s)
  {
    var t :| Fits(t, a, s);
    forall i | 0 <= i < |s| ensures LawfulAt(s, i) {
      EndingIsLawful(s, a, t, i);
      LaunchComesFirst(s, a, t, i);
    }
  }

  lemma EndingIsLawful(s: seq<Event>, a: Attempt, t: Trace, i: nat)
    requires Fits(t, a, s) && i < |s|
    ensures IsTerminal(s[i]) ==> i == |s| - 1
    ensures s[i].RunCompleted? ==> i > 0 && s[i - 1] == IngestionVerified(s[i].artifact)
    ensures s[i].RunCancelled? ==> i > 0 && s[i - 1] == CancellationRequested
  {
    OpeningAscends(a);
    var open, closing := OpeningEvents(a)[..t.begun], ClosingEvents(a)[..t.closed];
    FourParts(open, t.output, closing, t.tail, i);
    var c := |open| + |t.output|;
    if i < |open| {
      assert s[i] == OpeningEvents(a)[i];
    } else if c <= i < c + t.closed {
      ClosingAscends(a);
      if i > 0 { FourParts(open, t.output, closing, t.tail, i - 1); }
      assert s[i] == ClosingEvents(a)[i - c];
      assert i > c ==> s[i - 1] == ClosingEvents(a)[i - 1 - c];
    }
  }

  lemma LaunchComesFirst(s: seq<Event>, a: Attempt, t: Trace, i: nat)
    requires Fits(t, a, s) && i < |s|
    ensures Rank(s[i]) > 3 ==> LaunchedBefore(s, i)
    ensures s[i].Launched? ==>
              i >= 2 && s[0].PreflightSucceeded? && s[1].RequestFrozen? && s[1].runtime == s[i].run.runtime
  {
    OpeningAscends(a);
    RankOfPosition(s, a, t, i);
    if i >= t.begun {
      RankOfPosition(s, a, t, t.begun - 1);
      assert s[t.begun - 1].Launched?;
    } else if s[i].Launched? {
      RankOfPosition(s, a, t, 0);
      RankOfPosition(s, a, t, 1);
    }
  }

  lemma RankOfPosition(s: seq<Event>, a: Attempt, t: Trace, i: nat)
    requires Fits(t, a, s) && i < |s|
    ensures Rank(s[i]) > 3 <==> i >= t.begun
    ensures i < t.begun ==> s[i] == OpeningEvents(a)[i]
  {
    OpeningAscends(a);
    ClosingAscends(a);
    FourParts(OpeningEvents(a)[..t.begun], t.output, ClosingEvents(a)[..t.closed], t.tail, i);
  }

  lemma PrefixIsLifecycle(s: seq<Event>, n: nat)
    requires Lifecycle(s) && n <= |s|
    ensures Lifecycle(s[..n])
  {
    forall i | 0 <= i < n ensures LawfulAt(s[..n], i) {
      assert LawfulAt(s, i);
      if LaunchedBefore(s, i) {
        var j :| 0 <= j < i && s[j].Launched?;
        assert s[..n][j].Launched?;
      }
    }
  }

  // ---------------------------------------------------------------- every launch has that shape

  lemma {:induction false} RunEventsRank(messages: seq<C.Message>, receipts: seq<string>)
    ensures RanksWithin(MessageEvents(messages), 4, 4) && RanksWithin(ReceiptEvents(receipts), 4, 4)
    decreases |messages| + |receipts|
  {
    if messages != [] {
      RunEventsRank(messages[..|messages| - 1], receipts);
    } else if receipts != [] {
      RunEventsRank(messages, receipts[..|receipts| - 1]);
    }
  }

  lemma {:induction false} ProgressEventsRank(progress: seq<F.Progress>)
    ensures RanksWithin(ProgressEvents(progress), 4, 4)
  {
    if progress != [] { ProgressEventsRank(progress[..|progress| - 1]); }
  }

  lemma {:induction false} LogEventsRank(logs: seq<F.Log>)
    ensures RanksWithin(LogEvents(logs), 4, 4)
  {
    if logs != [] { LogEventsRank(logs[..|logs| - 1]); }
  }

  lemma {:induction false} CheckpointEventsRank(checkpoints: seq<F.Checkpoint>)
    ensures RanksWithin(CheckpointEvents(checkpoints), 4, 4)
    ensures EventsOf(CheckpointActions(checkpoints)) == CheckpointEvents(checkpoints)
  {
    if checkpoints != [] {
      var n := |checkpoints| - 1;
      CheckpointEventsRank(checkpoints[..n]);
      EventsOfConcat(CheckpointActions(checkpoints[..n]), [Work(NoEffect), Write(CheckpointSaved(checkpoints[n]))]);
      PairOfActions(Work(NoEffect), Write(CheckpointSaved(checkpoints[n])));
    }
  }

  lemma PairOfActions(a: Action, b: Action)
    ensures EventsOf([a, b]) == (if a.Write? then [a.event] else []) + (if b.Write? then [b.event] else [])
  {
    assert [a, b][1..] == [b] && [b][1..] == [];
    assert EventsOf([b]) == if b.Write? then [b.event] + EventsOf([]) else EventsOf([]);
    assert EventsOf([a, b]) == if a.Write? then [a.event] + EventsOf([b]) else EventsOf([b]);
  }

  lemma BoundaryEvents(messages: seq<C.Message>, receipts: seq<string>, run: Run)
    ensures RanksWithin(EventsOf(Boundary(messages, receipts, run)), 4, 4)
    ensures Belong(messages, run) ==>
              EventsOf(Boundary(messages, receipts, run)) == MessageEvents(messages) + ReceiptEvents(receipts)
  {
    if Belong(messages, run) {
      EventsOfConcat(Writes(MessageEvents(messages)), Writes(ReceiptEvents(receipts)));
      EventsOfWrites(MessageEvents(messages));
      EventsOfWrites(ReceiptEvents(receipts));
      RunEventsRank(messages, receipts);
    } else {
      assert Boundary(messages, receipts, run)[1..] == [];
    }
  }

  /** The events of an output, in the order they are written. */
  function OutputEvents(output: Output): seq<Event> {
    MessageEvents(output.messages) + ReceiptEvents(output.receipts) + ProgressEvents(output.core.progress)
    + CheckpointEvents(output.core.checkpoints) + LogEvents(output.core.logs)
  }

  lemma OutputIs(output: Output, run: Run)
    ensures RanksWithin(EventsOf(OutputActions(output, run)), 4, 4)
    ensures Belong(output.messages, run) ==> EventsOf(OutputActions(output, run)) == OutputEvents(output)
  {
    var b, p := Boundary(output.messages, output.receipts, run), Writes(ProgressEvents(output.core.progress));
    var c, l := CheckpointActions(output.core.checkpoints), Writes(LogEvents(output.core.logs));
    EventsOfConcat(b + p + c, l);
    EventsOfConcat(b + p, c);
    EventsOfConcat(b, p);
    BoundaryEvents(output.messages, output.receipts, run);
    EventsOfWrites(ProgressEvents(output.core.progress));
    EventsOfWrites(LogEvents(output.core.logs));
    ProgressEventsRank(output.core.progress);
    CheckpointEventsRank(output.core.checkpoints);
    LogEventsRank(output.core.logs);
    RanksTogether(EventsOf(b), EventsOf(p), EventsOf(c), EventsOf(l), 4);
  }

  lemma RanksTogether(a: seq<Event>, b: seq<Event>, c: seq<Event>, d: seq<Event>, r: int)
    requires RanksWithin(a, r, r) && RanksWithin(b, r, r) && RanksWithin(c, r, r) && RanksWithin(d, r, r)
    ensures RanksWithin(a + b + c + d, r, r)
  {
    forall i | 0 <= i < |a + b + c + d| ensures r <= Rank((a + b + c + d)[i]) <= r {
      FourParts(a, b, c, d, i);
    }
  }

  lemma OpeningIs(a: Attempt)
    ensures EventsOf(Opening(a)) == OpeningEvents(a)
  {
    EventsOfWrites(OpeningEvents(a));
    if a.preflight.Ready? {
      assert Opening(a)[1..] == Writes(OpeningEvents(a));
    }
  }

  /** A launched stream that has not been ended. */
  ghost predicate Live(t: Trace, a: Attempt, s: seq<Event>) {
    && Fits(t, a, s) && a.preflight.Ready? && t.begun == |OpeningEvents(a)| && t.tail == []
    && (t.closed == 0 || t.closed < |ClosingEvents(a)|)
  }

  lemma LiveRanks(t: Trace, a: Attempt, s: seq<Event>)
    requires Live(t, a, s)
    ensures RanksWithin(s, 0, 6)
    ensures t.closed == 0 ==> RanksWithin(s, 0, 4)
  {
    OpeningAscends(a);
    ClosingAscends(a);
    forall i | 0 <= i < |s| ensures 0 <= Rank(s[i]) <= if t.closed == 0 then 4 else 6 {
      FourParts(OpeningEvents(a)[..t.begun], t.output, ClosingEvents(a)[..t.closed], t.tail, i);
      var c := t.begun + |t.output|;
      if i >= c {
        assert s[i] == ClosingEvents(a)[i - c] && !IsTerminal(s[i]);
      }
    }
  }

  lemma RankIsNew(s: seq<Event>, e: Event)
    requires RanksWithin(s, 0, Rank(e) - 1)
    ensures !KeyTaken(s, e) && e !in s
  {
  }

  lemma TailGrows(t: Trace, a: Attempt, s: seq<Event>, e: Event)
    requires Fits(t, a, s) && !KeyTaken(s, e) && IsTail(t.tail + [e])
    requires t.begun == |OpeningEvents(a)| && a.preflight.Ready? && (t.closed == 0 || t.closed < |ClosingEvents(a)|)
    ensures Fits(t.(tail := t.tail + [e]), a, s + [e])
  {
    var before := OpeningEvents(a)[..t.begun] + t.output + ClosingEvents(a)[..t.closed];
    assert before + (t.tail + [e]) == (before + t.tail) + [e];
  }

  /** The ingestion failure, if the failure was there. */
  lemma NoteFits(p: Place, a: Attempt, t: Trace, code: string, faults: Faults) returns (t': Trace)
    requires Reliable(faults) && Live(t, a, p.stream)
    ensures var q := Do(p, Write(IngestionFailed(code)), faults).place;
            Fits(t', a, q.stream) && RanksWithin(q.stream, 0, 7) && q.run == p.run
    ensures t' == t.(tail := t'.tail) && |t'.tail| <= 1 && forall e | e in t'.tail :: e.IngestionFailed?
  {
    var e := IngestionFailed(code);
    LiveRanks(t, a, p.stream);
    RankIsNew(p.stream, e);
    WriteStep(p, e, faults);
    TailGrows(t, a, p.stream, e);
    assert [] + [e] == [e];
    t' := if Do(p, Write(e), faults).place.stream == p.stream then t else t.(tail := [e]);
  }

  /** The failure itself. */
  lemma FailureFits(p: Place, a: Attempt, t: Trace, phase: Phase, code: string, faults: Faults) returns (t': Trace)
    requires Reliable(faults) && Fits(t, a, p.stream) && RanksWithin(p.stream, 0, 7)
    requires t.begun == |OpeningEvents(a)| && a.preflight.Ready? && (t.closed == 0 || t.closed < |ClosingEvents(a)|)
    requires |t.tail| <= 1 && forall e | e in t.tail :: e.IngestionFailed?
    ensures var q := Do(p, Write(RunFailed(phase, code)), faults).place; Fits(t', a, q.stream) && q.run == p.run
    ensures t' == t.(tail := t'.tail)
    ensures Do(p, Write(RunFailed(phase, code)), faults).signal == Done ==>
              t'.tail != [] && t'.tail[|t'.tail| - 1].RunFailed?
  {
    var e := RunFailed(phase, code);
    RankIsNew(p.stream, e);
    WriteStep(p, e, faults);
    TailGrows(t, a, p.stream, e);
    t' := if Do(p, Write(e), faults).place.stream == p.stream then t else t.(tail := t.tail + [e]);
  }

  /** A failed launch ends with a failure event, unless even that cannot be written. */
  lemma TerminalizeFits(p: Place, a: Attempt, t: Trace, phase: Phase, error: Error, faults: Faults) returns (t': Trace)
    requires Reliable(faults) && Live(t, a, p.stream)
    ensures Fits(t', a, Terminalize(p, phase, error, faults).place.stream) && t' == t.(tail := t'.tail)
    ensures Terminalize(p, phase, error, faults).place.run == p.run
    ensures !Terminalize(p, phase, error, faults).reply.Returned?
  {
    var code := CodeOf(error, phase);
    var noted := Played(p, Done);
    LiveRanks(t, a, p.stream);
    t' := t;
    if phase == ArtifactIngestion {
      t' := NoteFits(p, a, t, code, faults);
      noted := Do(p, Write(IngestionFailed(code)), faults);
    }
    if noted.signal == Done || (noted.signal.Raised? && noted.signal.error.EvidenceError?) {
      t' := FailureFits(noted.place, a, t', phase, code, faults);
    }
  }

  /** A closing script played on a live stream: a prefix of its events is added. */
  lemma ClosingFits(p: Place, a: Attempt, t: Trace, script: seq<Action>, faults: Faults) returns (t': Trace)
    requires Reliable(faults) && Live(t, a, p.stream)
    requires script != [] && script[|script| - 1].Write?
    requires EventsOf(script) <= ClosingEvents(a)[t.closed..]
    ensures var r := Play(p, script, faults);
            && Fits(t', a, r.place.stream) && t' == t.(closed := t'.closed)
            && (r.signal == Done ==> t'.closed == t.closed + |EventsOf(script)|)
            && (r.signal.Raised? ==> Live(t', a, r.place.stream))
  {
    var events := EventsOf(script);
    NewClosing(p.stream, a, t, events);
    var k := PlayNew(p, script, faults);
    t' := t.(closed := t.closed + k);
    SomeEventIfEndsInWrite(script);
    ClosingGrows(p.stream, a, t, events, k);
  }

  lemma NewClosing(s: seq<Event>, a: Attempt, t: Trace, events: seq<Event>)
    requires Live(t, a, s) && events <= ClosingEvents(a)[t.closed..]
    ensures UniqueKeys(s + events)
  {
    ClosingAscends(a);
    LiveRanks(t, a, s);
    AscendingIsUnique(events);
    if t.closed == 0 {
      HigherRanksAreNew(s, events, 4);
    } else {
      LaterClosing(s, a, t, events);
    }
  }

  /** After ingestion was verified only the completion is left. */
  lemma LaterClosing(s: seq<Event>, a: Attempt, t: Trace, events: seq<Event>)
    requires Live(t, a, s) && events <= ClosingEvents(a)[t.closed..] && t.closed > 0
    ensures UniqueKeys(s + events)
  {
    ClosingAscends(a);
    var all, open, closing := s + events, OpeningEvents(a)[..t.begun], ClosingEvents(a);
    AscendingIsUnique(closing);
    forall i, j | 0 <= i < j < |all| ensures !SameKey(all[i], all[j]) {
      if i < |s| <= j {
        assert all[j] == closing[t.closed + (j - |s|)];
        FourParts(open, t.output, closing[..t.closed], t.tail, i);
        OpeningAscends(a);
        var c := t.begun + |t.output|;
        if i >= c {
          assert s[i] == closing[i - c];
        } else {
          assert Rank(s[i]) <= 4 < Rank(all[j]);
        }
      }
    }
  }

  lemma ClosingGrows(s: seq<Event>, a: Attempt, t: Trace, events: seq<Event>, k: nat)
    requires Live(t, a, s) && events <= ClosingEvents(a)[t.closed..] && k <= |events| && UniqueKeys(s + events[..k])
    ensures Fits(t.(closed := t.closed + k), a, s + events[..k])
  {
    var closing := ClosingEvents(a);
    assert closing[..t.closed] + events[..k] == closing[..t.closed + k];
    var before := OpeningEvents(a)[..t.begun] + t.output;
    assert (before + closing[..t.closed] + t.tail) + events[..k] == before + closing[..t.closed + k] + [];
  }

  /** The output adds events of its own rank. */
  lemma OutputFits(p: Place, a: Attempt, t: Trace, script: seq<Action>, faults: Faults) returns (t': Trace)
    requires Reliable(faults) && Live(t, a, p.stream) && t.closed == 0 && RanksWithin(EventsOf(script), 4, 4)
    ensures Live(t', a, Play(p, script, faults).place.stream) && t'.closed == 0
  {
    var added := PlayLevel(p, script, faults, 4);
    t' := t.(output := t.output + added);
    assert ClosingEvents(a)[..0] == [];
    assert (OpeningEvents(a)[..t.begun] + t.output + [] + []) + added ==
             OpeningEvents(a)[..t.begun] + (t.output + added) + [] + [];
  }

  lemma SmallScripts(a: Attempt, output: Output)
    ensures EventsOf(CancelActions) == [CancellationRequested, RunCancelled]
    ensures EventsOf(InterruptActions(output.core)) == [RunInterrupted(|output.core.checkpoints|)]
    ensures output.core.members.Some? ==>
              var bundle := output.core.members.value;
              && EventsOf(IngestActions(a, output.core)) ==
                   [IngestionStarted(bundle), IngestionVerified(ArtifactOf(a, bundle))]
              && EventsOf(CompleteActions(a, bundle)) == [RunCompleted(ArtifactOf(a, bundle))]
  {
    EventsOfConcat([Write(CancellationRequested), Work(NoEffect)], [Write(RunCancelled)]);
    PairOfActions(Write(CancellationRequested), Work(NoEffect));
    EventsOfWrites([RunCancelled]);
    assert [Write(RunCancelled)] == Writes([RunCancelled]);
    assert CancelActions == [Write(CancellationRequested), Work(NoEffect)] + [Write(RunCancelled)];
    PairOfActions(Work(NoEffect), Write(RunInterrupted(|output.core.checkpoints|)));
    if output.core.members.Some? {
      var bundle := output.core.members.value;
      var artifact := ArtifactOf(a, bundle);
      EventsOfConcat([Write(IngestionStarted(bundle)), Work(NoEffect)],
                     [Work(KeepArtifact(artifact)), Write(IngestionVerified(artifact))]);
      PairOfActions(Write(IngestionStarted(bundle)), Work(NoEffect));
      PairOfActions(Work(KeepArtifact(artifact)), Write(IngestionVerified(artifact)));
      PairOfActions(Work(NoEffect), Write(RunCompleted(artifact)));
      assert IngestActions(a, output.core) ==
             [Write(IngestionStarted(bundle)), Work(NoEffect)]
             + [Work(KeepArtifact(artifact)), Write(IngestionVerified(artifact))];
    }
  }

  /** Up to its ending, a returned output leaves a live stream, or one that closed completely. */
  lemma FinishFits(p: Place, a: Attempt, t: Trace, output: Output, faults: Faults) returns (t': Trace)
    requires Reliable(faults) && Live(t, a, p.stream) && t.closed == 0 && a.adapter == Returns(output)
    ensures var r := Finish(p, a, output, faults);
            && Fits(t', a, r.place.stream) && t'.begun == t.begun && t'.tail == []
            && (r.signal.Raised? ==> Live(t', a, r.place.stream))
            && (r.signal == Done ==> t'.closed == |ClosingEvents(a)| > 0)
  {
    OutputIs(output, a.run);
    SmallScripts(a, output);
    t' := OutputFits(p, a, t, OutputActions(output, a.run), faults);
    var recorded := Play(p, OutputActions(output, a.run), faults);
    if recorded.signal == Done {
      match output.core.termination {
        case Cancelled => t' := ClosingFits(recorded.place, a, t', CancelActions, faults);
        case Interrupted => t' := ClosingFits(recorded.place, a, t', InterruptActions(output.core), faults);
        case Completed =>
          if output.core.members.Some? {
            t' := ClosingFits(recorded.place, a, t', IngestActions(a, output.core), faults);
            var ingested := Play(recorded.place, IngestActions(a, output.core), faults);
            if ingested.signal == Done {
              t' := ClosingFits(ingested.place, a, t', CompleteActions(a, output.core.members.value), faults);
            }
          }
      }
    }
  }
}
