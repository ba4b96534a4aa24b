/**
 What a scan can still deliver (native/src/scan.rs, native/src/chunks.rs). The
 backend's cancel flag is shared with the workers, and play() clears it: a worker
 that has seen it is gone for good, with the index it may have taken, while the
 coordinator of the same scan goes on (native/src/engine.rs:122-128).
 */
module ScanReach {
  import opened ScanWorkers

  /** Index i will never be completed: its worker stopped, or there is no worker left to take it. */
  ghost predicate Doomed(s: Scan, i: nat) {
    && i < s.pathCount && i < |s.completed| && !s.completed[i]
    && !Held(s.workers, i) && (i < s.nextRequest || AllFinished(s))
  }

  /** No further chunk will be delivered, and the scan cannot return on its own. */
  ghost predicate Spent(s: Scan) {
    s.phase.Failed? || (!s.phase.Delivering? && !s.phase.Returned? && Doomed(s, s.chunkStart))
  }

  /** The flag is cleared for a scan that still reads it. */
  function Uncancelled(s: Scan): Scan {
    if Running(s) then s.(cancelled := false) else s
  }

  lemma UncancelKeepsSafe(s: Scan)
    requires SafeInv(s)
    ensures SafeInv(Uncancelled(s)) && (Spent(Uncancelled(s)) <==> Spent(s))
  {
  }

  lemma HeldBefore(s: Scan, step: Step, i: nat)
    requires Enabled(s, step) && Held(Apply(s, step).workers, i) && (i < s.nextRequest || AllFinished(s))
    ensures Held(s.workers, i)
  {
    var ws := Apply(s, step).workers;
    var w :| 0 <= w < |ws| && Busy(ws[w]) && ws[w].index == i;
    if IsWorkerStep(step) && step.w == w {
      assert !step.Claim?;
      assert Busy(s.workers[w]) && s.workers[w].index == i;
    } else {
      assert ws[w] == s.workers[w];
    }
  }

  lemma DoomedStays(s: Scan, step: Step, i: nat)
    requires Enabled(s, step) && Doomed(s, i)
    ensures Doomed(Apply(s, step), i)
  {
    if Held(Apply(s, step).workers, i) {
      HeldBefore(s, step, i);
    }
    if step.Publish? {
      assert Busy(s.workers[step.w]) && s.workers[step.w].index != i;
    }
  }

  /** A spent scan stays spent, or it sees a cancellation and returns. */
  lemma SpentStays(s: Scan, step: Step)
    requires SafeInv(s) && Enabled(s, step) && Spent(s)
    ensures Spent(Apply(s, step)) || (s.cancelled && step.ReturnCancelled?)
    ensures Apply(s, step).chunkStart == s.chunkStart
  {
    DoomedStays(s, step, s.chunkStart);
    assert s.nextIndex <= s.chunkStart;
  }

  // --------------------------------------------------- driving a scan to a delivery

  /** Steps of workers that finish their work and of a coordinator that goes on. */
  predicate Plain(step: Step) {
    !step.Cancel? && !step.Stop? && !step.Accept? && !step.Fail? && !step.ReturnCancelled?
  }

  ghost predicate PlainRun(s: Scan, steps: seq<Step>) {
    ValidRun(s, steps) && forall k :: 0 <= k < |steps| ==> Plain(steps[k])
  }

  lemma PlainThen(s: Scan, step: Step, steps: seq<Step>)
    requires Enabled(s, step) && Plain(step) && PlainRun(Apply(s, step), steps)
    ensures PlainRun(s, [step] + steps) && Final(s, [step] + steps) == Final(Apply(s, step), steps)
  {
    assert ([step] + steps)[1..] == steps;
  }

  lemma {:induction false} PlainConcat(s: Scan, a: seq<Step>, b: seq<Step>)
    requires PlainRun(s, a) && PlainRun(Final(s, a), b)
    ensures PlainRun(s, a + b) && Final(s, a + b) == Final(Final(s, a), b)
    decreases |a|
  {
    if a == [] {
      assert a + b == b;
    } else {
      assert (a + b)[0] == a[0] && (a + b)[1..] == a[1..] + b;
      assert forall k :: 0 <= k < |a[1..]| ==> a[1..][k] == a[k + 1];
      PlainConcat(Apply(s, a[0]), a[1..], b);
      PlainThen(s, a[0], a[1..] + b);
    }
  }

  lemma WorkLeftBounds(s: Scan)
    requires WorkersInv(s)
    ensures WorkLeft(s) >= 0
  {
    SumBound(s.workers, IsFinished, 1);
  }

  /** What workers that finish their work leave to the coordinator. */
  ghost predicate SameCoordinator(s: Scan, t: Scan) {
    && t.pathCount == s.pathCount && t.phase == s.phase && t.chunkStart == s.chunkStart && t.cancelled == s.cancelled
    && |t.completed| == |s.completed|
    && forall i: nat :: Doomed(t, i) ==> Doomed(s, i)
  }

  lemma NoneDoomed(s: Scan, step: Step, i: nat)
    requires WorkersInv(s) && Enabled(s, step) && IsWorkerStep(step) && !step.Stop? && Doomed(Apply(s, step), i)
    ensures Doomed(s, i)
  {
    var x := Apply(s, step).workers[step.w];
    assert s.nextRequest < s.pathCount ==> !x.Finished?;
    assert step.Claim? && s.nextRequest < s.pathCount ==> Busy(x) && x.index == s.nextRequest;
    if !Doomed(s, i) && i < s.nextRequest {
      StaysHeld(s, step, i);
    }
  }

  lemma {:induction false} WorkersFinish(s: Scan) returns (steps: seq<Step>, t: Scan)
    requires SafeInv(s) && Running(s) && !s.phase.Delivering?
    ensures PlainRun(s, steps) && t == Final(s, steps)
    ensures SafeInv(t) && AllFinished(t) && SameCoordinator(s, t)
    decreases WorkLeft(s)
  {
    if AllFinished(s) {
      steps, t := [], s;
    } else {
      var w :| 0 <= w < |s.workers| && !s.workers[w].Finished?;
      var step := WorkerCanMove(s, w);
      var u := Apply(s, step);
      StepKeepsSafe(s, step);
      WorkLeftBounds(s);
      WorkerStepDecreases(s, step);
      forall i: nat | Doomed(u, i) ensures Doomed(s, i) {
        NoneDoomed(s, step, i);
      }
      var rest;
      rest, t := WorkersFinish(u);
      steps := [step] + rest;
      PlainThen(s, step, rest);
    }
  }

  /** With the workers done, the coordinator delivers the next index if it is complete, and else returns. */
  ghost predicate Onward(s: Scan, t: Scan) {
    && t.pathCount == s.pathCount && t.cancelled == s.cancelled
    && if s.chunkStart < s.pathCount then t.phase.Delivering? && t.phase.chunk.start == s.chunkStart
       else t.phase == Returned(s.pathCount) && t.chunkStart == s.pathCount
  }

  lemma OnwardStep(s: Scan) returns (step: Step)
    requires SafeInv(s) && AllFinished(s) && Running(s) && !s.cancelled && !s.phase.Delivering?
    requires s.chunkStart < s.pathCount ==> s.completed[s.chunkStart]
    ensures WindsUp(step) && Enabled(s, step) && Plain(step) && AllFinished(Apply(s, step))
    ensures var t := Apply(s, step);
            && !t.phase.Failed? && !t.cancelled && t.completed == s.completed && t.pathCount == s.pathCount
            && (if Running(t) && !t.phase.Delivering? then t.chunkStart == s.chunkStart else Onward(s, t))
  {
    step := CoordinatorCanMove(s);
  }

  lemma {:induction false} CoordinatorGoesOn(s: Scan) returns (steps: seq<Step>, t: Scan)
    requires SafeInv(s) && AllFinished(s) && Running(s) && !s.cancelled && !s.phase.Delivering?
    requires s.chunkStart < s.pathCount ==> s.completed[s.chunkStart]
    ensures PlainRun(s, steps) && t == Final(s, steps) && SafeInv(t) && Onward(s, t)
    decreases CoordinatorLeft(s)
  {
    var step := OnwardStep(s);
    var u := Apply(s, step);
    StepKeepsSafe(s, step);
    CoordinatorLeftBounds(s);
    CoordinatorStepDecreases(s, step);
    if Running(u) && !u.phase.Delivering? {
      var rest;
      rest, t := CoordinatorGoesOn(u);
      steps := [step] + rest;
      PlainThen(s, step, rest);
    } else {
      t := u;
      PlainThen(s, step, []);
      steps := [step] + [];
    }
  }

  /** A scan that is not spent and not cancelled can deliver its next chunk, or return with everything delivered. */
  lemma ReachesNext(s: Scan) returns (steps: seq<Step>, t: Scan)
    requires SafeInv(s) && Running(s) && !s.cancelled && !s.phase.Delivering? && !Spent(s)
    ensures PlainRun(s, steps) && t == Final(s, steps) && SafeInv(t) && Onward(s, t)
  {
    var first, u := WorkersFinish(s);
    assert u.chunkStart < u.pathCount ==> u.completed[u.chunkStart] || Doomed(u, u.chunkStart);
    var rest;
    rest, t := CoordinatorGoesOn(u);
    steps := first + rest;
    PlainConcat(s, first, rest);
  }
}
