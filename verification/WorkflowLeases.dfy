/** Ownership leases over paths, and the heartbeat of a worker. */
module WorkflowLeases {
  import opened Outcomes
  import opened JsonPointer

  /** The program's test: equal, or one is a prefix of the other up to a separator. */
  predicate PathsOverlap(first: string, second: string) {
    first == second || second + "/" <= first || first + "/" <= second
  }

  /** The path lies in the tree of the other. */
  predicate Under(path: string, root: string) {
    Split(root) <= Split(path)
  }

  lemma {:induction false} SplitConcat(a: string, b: string)
    ensures Split(a + "/" + b) == Split(a) + Split(b)
  {
    if a == [] {
      assert a + "/" + b == "/" + b && ("/" + b)[1..] == b;
    } else {
      assert (a + "/" + b)[0] == a[0] && (a + "/" + b)[1..] == a[1..] + "/" + b;
      SplitConcat(a[1..], b);
    }
  }

  lemma {:induction false} JoinConcat(a: seq<string>, b: seq<string>)
    ensures Join(a + b) == Join(a) + Join(b)
  {
    if a == [] {
      assert a + b == b;
    } else {
      assert (a + b)[0] == a[0] && (a + b)[1..] == a[1..] + b;
      JoinConcat(a[1..], b);
    }
  }

  lemma PrefixIsUnder(path: string, root: string)
    requires path == root || root + "/" <= path
    ensures Under(path, root)
  {
    if path != root {
      assert path == root + "/" + path[|root| + 1..];
      SplitConcat(root, path[|root| + 1..]);
    }
  }

  lemma UnderHasPrefix(path: string, root: string)
    requires Under(path, root)
    ensures path == root || root + "/" <= path
  {
    var rest := Split(path)[|Split(root)|..];
    assert Split(path) == Split(root) + rest;
    JoinConcat(Split(root), rest);
    JoinSplit(path);
    JoinSplit(root);
    SlashedIsUnder(path, root, Join(rest));
    assert rest != [] ==> Join(rest)[0] == '/';
  }

  lemma SlashedIsUnder(path: string, root: string, tail: string)
    requires "/" + path == "/" + root + tail && (tail == [] || tail[0] == '/')
    ensures path == root || root + "/" <= path
  {
    assert ("/" + path)[1..] == path && ("/" + root + tail)[1..] == root + tail;
    assert tail != [] ==> tail == "/" + tail[1..];
    assert tail != [] ==> root + tail == (root + "/") + tail[1..];
  }

  lemma UnderIsPrefix(path: string, root: string)
    ensures Under(path, root) <==> path == root || root + "/" <= path
  {
    if path == root || root + "/" <= path { PrefixIsUnder(path, root); }
    if Under(path, root) { UnderHasPrefix(path, root); }
  }

  /** Two paths overlap exactly when some file can lie under both. */
  lemma OverlapMeansSharedFile(first: string, second: string)
    ensures PathsOverlap(first, second) <==> exists f: string :: Under(f, first) && Under(f, second)
  {
    UnderIsPrefix(first, second);
    UnderIsPrefix(second, first);
    if PathsOverlap(first, second) {
      if Under(first, second) { assert Under(first, first); } else { assert Under(second, second); }
    }
    if exists f: string :: Under(f, first) && Under(f, second) {
      var f: string :| Under(f, first) && Under(f, second);
      assert Split(first) == Split(f)[..|Split(first)|] && Split(second) == Split(f)[..|Split(second)|];
      assert Under(first, second) || Under(second, first);
    }
  }

  datatype Lease = Lease(task: string, paths: seq<string>, active: bool)

  predicate Collide(a: seq<string>, b: seq<string>) {
    exists p, q | p in a && q in b :: PathsOverlap(p, q)
  }

  /** Active leases have different tasks, and no path of one overlaps a path of another. */
  ghost predicate Apart(leases: seq<Lease>) {
    forall i, j | 0 <= i < j < |leases| && leases[i].active && leases[j].active ::
      leases[i].task != leases[j].task && !Collide(leases[i].paths, leases[j].paths)
  }

  /** So no file lies under two active leases. */
  lemma OneOwnerPerFile(leases: seq<Lease>, i: nat, j: nat, p: string, q: string, f: string)
    requires Apart(leases) && i < |leases| && j < |leases| && leases[i].active && leases[j].active
    requires p in leases[i].paths && q in leases[j].paths && Under(f, p) && Under(f, q)
    ensures i == j
  {
    OverlapMeansSharedFile(p, q);
    OverlapMeansSharedFile(q, p);
    if i < j { assert Collide(leases[i].paths, leases[j].paths); }
    if j < i { assert Collide(leases[j].paths, leases[i].paths); }
  }

  predicate SamePaths(a: seq<string>, b: seq<string>) {
    (set p | p in a) == (set p | p in b)
  }

  ghost predicate Holds(leases: seq<Lease>, task: string) {
    exists l :: l in leases && l.active && l.task == task
  }

  class Ownership {
    var leases: seq<Lease>

    constructor ()
      ensures leases == [] && Apart(leases)
    {
      leases := [];
    }

    /** The task's own lease again, or a new one that collides with none; a stale lease of the same task
        on other paths is refused by the state's validation. */
    method Acquire(task: string, paths: seq<string>) returns (r: Result<Lease>)
      requires Apart(leases)
      modifies this
      ensures Apart(leases)
      ensures r.Ok? ==> r.value in leases && r.value.active && r.value.task == task && SamePaths(r.value.paths, paths)
      ensures r.Ok? ==> leases == old(leases) || leases == old(leases) + [Lease(task, paths, true)]
      ensures r.Err? ==> leases == old(leases)
      ensures r.Ok? <==>
              || (exists l :: l in old(leases) && l.active && l.task == task && SamePaths(l.paths, paths))
              || (!Holds(old(leases), task) && forall l | l in old(leases) && l.active :: !Collide(l.paths, paths))
    {
      for i := 0 to |leases|
        invariant forall j | 0 <= j < i ::
                    !(leases[j].active && leases[j].task == task && SamePaths(leases[j].paths, paths))
      {
        if leases[i].active && leases[i].task == task && SamePaths(leases[i].paths, paths) {
          assert leases[i] in leases;
          return Ok(leases[i]);
        }
      }
      for i := 0 to |leases|
        invariant forall j | 0 <= j < i && leases[j].active ::
                    !Collide(leases[j].paths, paths) && leases[j].task != task
      {
        if leases[i].active && (Collide(leases[i].paths, paths) || leases[i].task == task) {
          assert leases[i] in leases;
          return Err("workflow_error");
        }
      }
      leases := leases + [Lease(task, paths, true)];
      return Ok(Lease(task, paths, true));
    }

    /** Retires the task's active lease unless one of its workers is active. */
    method Release(task: string, workerActive: bool) returns (released: bool)
      requires Apart(leases)
      modifies this
      ensures Apart(leases)
      ensures released <==> !workerActive && Holds(old(leases), task)
      ensures released ==> !Holds(leases, task) && |leases| == |old(leases)|
      ensures forall i | 0 <= i < |leases| && leases[i].task != task :: i < |old(leases)| && leases[i] == old(leases)[i]
      ensures !released ==> leases == old(leases)
    {
      if workerActive {
        return false;
      }
      for i := 0 to |leases|
        invariant leases == old(leases)
        invariant forall j | 0 <= j < i :: !(leases[j].active && leases[j].task == task)
      {
        if leases[i].active && leases[i].task == task {
          assert leases[i] in old(leases);
          leases := leases[i := leases[i].(active := false)];
          return true;
        }
      }
      return false;
    }
  }

  // ---------------------------------------------------------------- active writers

  /** A worker slot: whether it writes now, and whether it was activated with every independence guard
      and a recorded exception. */
  datatype Slot = Slot(writing: bool, guarded: bool)

  function Writing(slots: seq<Slot>): seq<Slot> {
    if slots == [] then [] else (if slots[0].writing then [slots[0]] else []) + Writing(slots[1..])
  }

  /** What the stored state must satisfy: at most two writers, the second in slot order guarded. */
  predicate WritersValid(slots: seq<Slot>) {
    |Writing(slots)| <= 2 && (|Writing(slots)| == 2 ==> Writing(slots)[1].guarded)
  }

  /** What activation asks: no third writer, and guards for a second. */
  predicate MayActivate(slots: seq<Slot>, guarded: bool) {
    |Writing(slots)| == 0 || (|Writing(slots)| == 1 && guarded)
  }

  lemma {:induction false} WritingConcat(a: seq<Slot>, b: seq<Slot>)
    ensures Writing(a + b) == Writing(a) + Writing(b)
  {
    if a == [] {
      assert a + b == b;
    } else {
      assert (a + b)[0] == a[0] && (a + b)[1..] == a[1..] + b;
      WritingConcat(a[1..], b);
    }
  }

  /** A new slot at the end always leaves a valid state. */
  lemma AppendedWriterIsValid(slots: seq<Slot>, guarded: bool)
    requires MayActivate(slots, guarded)
    ensures WritersValid(slots + [Slot(true, guarded)])
  {
    WritingConcat(slots, [Slot(true, guarded)]);
  }

  /** Activating an earlier, idle slot again does so exactly unless an unguarded writer sits behind it: the
      validation looks at slot order, not at the order of activation. */
  lemma ReactivatedWriterIsValidExactly(slots: seq<Slot>, i: nat, guarded: bool)
    requires i < |slots| && !slots[i].writing && MayActivate(slots, guarded)
    ensures WritersValid(slots[i := Slot(true, guarded)]) <==>
            forall j | i < j < |slots| && slots[j].writing :: slots[j].guarded
  {
    var before, after, again := slots[..i], slots[i + 1..], slots[i := Slot(true, guarded)];
    assert slots == before + ([slots[i]] + after) && again == before + ([Slot(true, guarded)] + after);
    WritingConcat(before, [slots[i]] + after);
    WritingConcat(before, [Slot(true, guarded)] + after);
    WritingIs(after);
    assert forall j | i < j < |slots| :: slots[j] == after[j - i - 1];
    assert forall k | 0 <= k < |after| :: after[k] == slots[i + 1 + k];
    ReactivationCases(Writing(before), Writing(after), guarded);
  }

  lemma ReactivationCases(b: seq<Slot>, a: seq<Slot>, guarded: bool)
    requires |b + a| == 0 || (|b + a| == 1 && guarded)
    ensures |b + ([Slot(true, guarded)] + a)| <= 2
    ensures |b + ([Slot(true, guarded)] + a)| == 2 ==>
              ((b + ([Slot(true, guarded)] + a))[1].guarded <==> forall x | x in a :: x.guarded)
    ensures |b + ([Slot(true, guarded)] + a)| < 2 ==> a == []
  {
  }

  lemma {:induction false} WritingIs(slots: seq<Slot>)
    ensures forall x :: x in Writing(slots) <==> x in slots && x.writing
  {
    if slots != [] {
      WritingIs(slots[1..]);
      assert slots == [slots[0]] + slots[1..];
    }
  }

  // ---------------------------------------------------------------- heartbeats

  const DEFAULT_INTERVAL := 120
  const MAX_INTERVAL := 900

  function Capped(n: nat): nat { if n < MAX_INTERVAL then n else MAX_INTERVAL }

  /** The interval after that many unchanged heartbeats: doubled each time, up to the maximum. */
  function IntervalAfter(quiet: nat): nat {
    if quiet == 0 then DEFAULT_INTERVAL else Capped(2 * IntervalAfter(quiet - 1))
  }

  lemma {:induction false} IntervalGrows(n: nat)
    ensures DEFAULT_INTERVAL <= IntervalAfter(n) <= MAX_INTERVAL
    ensures IntervalAfter(n) <= IntervalAfter(n + 1)
    ensures n >= 3 ==> IntervalAfter(n) == MAX_INTERVAL == 900
    ensures IntervalAfter(0) == 120 && IntervalAfter(1) == 240 && IntervalAfter(2) == 480
  {
    if n > 0 {
      IntervalGrows(n - 1);
    }
    if n == 3 {
      assert IntervalAfter(1) == 240 && IntervalAfter(2) == 480;
    }
  }

  datatype Observation = Observation(output: Option<string>, repository: Option<string>)

  datatype Answer = Changed(next: nat) | Wait(next: nat)

  class Monitor {
    var interval: nat
    var quiet: nat
    var seen: Observation
    var last: Option<nat>
    var next: nat

    /** The interval is a function of the unchanged heartbeats alone, and the next check is one interval
        after the last. */
    ghost predicate Valid() reads this {
      interval == IntervalAfter(quiet) && (last.Some? ==> next == last.value + interval)
      && (last == None ==> quiet == 0)
    }

    constructor ()
      ensures Valid() && last == None && quiet == 0 && seen == Observation(None, None)
    {
      interval, quiet, seen, last, next := DEFAULT_INTERVAL, 0, Observation(None, None), None, 0;
    }

    /** A poll of a worker whose status has not changed: a change starts over, an early poll changes
        nothing, a due one backs off. */
    method Poll(now: nat, observed: Observation) returns (answer: Answer)
      requires Valid()
      modifies this
      ensures Valid() && answer.next == next && seen == observed
      ensures answer.Changed? <==> observed != old(seen)
      ensures answer.Changed? ==> quiet == 0 && last == Some(now)
      ensures answer.Wait? && old(last) == None ==> quiet == 0 && last == Some(now)
      ensures answer.Wait? && old(last).Some? && now < old(next) ==> unchanged(this) && last == old(last)
      ensures answer.Wait? && old(last).Some? && now >= old(next) ==> quiet == old(quiet) + 1 && last == Some(now)
    {
      if observed != seen {
        interval, quiet, seen, last := DEFAULT_INTERVAL, 0, observed, Some(now);
        next := now + DEFAULT_INTERVAL;
        return Changed(next);
      }
      if last == None {
        last := Some(now);
        next := now + interval;
      } else if now >= next {
        interval := Capped(interval * 2);
        quiet := quiet + 1;
        last := Some(now);
        next := now + interval;
      }
      return Wait(next);
    }
  }
}
