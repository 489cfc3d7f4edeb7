/** What the controller's snapshot says of the messages accepted so far. */
module RunSnapshot {
  import opened Outcomes
  import opened RunController

  /** The places of the messages that pass a test. */
  ghost function Places(log: seq<Message>, counted: Body -> bool): set<int> {
    set i | 0 <= i < |log| && counted(log[i].body)
  }

  lemma {:induction false} CountIs(log: seq<Message>, counted: Body -> bool)
    ensures Count(log, counted) == |Places(log, counted)|
  {
    if log != [] {
      var n := |log| - 1;
      CountIs(log[..n], counted);
      assert Places(log, counted) == Places(log[..n], counted) + if counted(log[n].body) then {n} else {};
    }
  }

  /** The kinds of message that are counted. */
  lemma KindsCounted(b: Body)
    ensures Heartbeats()(b) <==> b == Heartbeat
    ensures Metrics()(b) <==> b == Metric
    ensures Checkpoints()(b) <==> exists step :: b == Checkpoint(step)
  {
    if b.Checkpoint? { assert b == Checkpoint(b.checkpointStep); }
  }

  lemma {:induction false} AnnouncedIs(log: seq<Message>, subject: Subject, bundle: string)
    requires Lawful(log, subject)
    ensures Announced(log) == Some(bundle) <==> exists i :: 0 <= i < |log| && log[i].body == ArtifactReady(bundle)
  {
    if log != [] {
      var n := |log| - 1;
      LawfulPrefix(log, subject, n);
      AnnouncedIs(log[..n], subject, bundle);
      assert LawfulAt(log, subject, n);
      assert forall i | 0 <= i < n :: log[..n][i] == log[i];
      if log[n].body.ArtifactReady? { assert Unannounced(log[..n]); }
      if exists i :: 0 <= i < n && log[..n][i].body == ArtifactReady(bundle) {
        var i :| 0 <= i < n && log[..n][i].body == ArtifactReady(bundle);
        assert log[i].body == ArtifactReady(bundle);
      }
      if exists i :: 0 <= i < |log| && log[i].body == ArtifactReady(bundle) {
        var i :| 0 <= i < |log| && log[i].body == ArtifactReady(bundle);
        assert i < n ==> log[..n][i].body == ArtifactReady(bundle);
      }
    }
  }

  lemma {:induction false} LastStepIsReached(log: seq<Message>)
    ensures LastStep(log) == 0 || exists i :: 0 <= i < |log| && StepOf(log[i].body) == Some(LastStep(log))
  {
    if log != [] && StepOf(log[|log| - 1].body) == None {
      var n := |log| - 1;
      LastStepIsReached(log[..n]);
      if LastStep(log[..n]) != 0 {
        var i :| 0 <= i < n && StepOf(log[..n][i].body) == Some(LastStep(log[..n]));
        assert StepOf(log[i].body) == Some(LastStep(log));
      }
    }
  }

  lemma TerminalIs(log: seq<Message>, subject: Subject, m: Message)
    requires Lawful(log, subject)
    ensures Terminal(log) == Some(m) <==> m in log && Ends(m.body)
  {
    if log != [] {
      var n := |log| - 1;
      LatestTells(log, subject);
      if m in log && Ends(m.body) {
        var i :| 0 <= i < |log| && log[i] == m;
        assert i == n;
      }
    }
  }

  /** A snapshot tells how many messages of each kind there were, the largest step, the artifact announced and the
      message that ended the run. */
  lemma SnapshotMeans(log: seq<Message>, subject: Subject, bundle: string, m: Message)
    requires Lawful(log, subject)
    ensures var s := SnapshotOf(log, subject);
            && s.subject == subject && s.lastSequence == |log|
            && s.heartbeats == |Places(log, Heartbeats())| && s.metrics == |Places(log, Metrics())|
            && s.checkpoints == |Places(log, Checkpoints())|
            && StepsUpTo(log, s.lastStep)
            && (s.lastStep == 0 || exists i :: 0 <= i < |log| && StepOf(log[i].body) == Some(s.lastStep))
            && (s.artifact == Some(bundle) <==> exists i :: 0 <= i < |log| && log[i].body == ArtifactReady(bundle))
            && (s.terminal == Some(m) <==> m in log && Ends(m.body))
            && (s.state == Created <==> log == [])
  {
    CountIs(log, Heartbeats());
    CountIs(log, Metrics());
    CountIs(log, Checkpoints());
    LatestStepIsLargest(log, subject, LastStep(log));
    LastStepIsReached(log);
    AnnouncedIs(log, subject, bundle);
    TerminalIs(log, subject, m);
  }
}
