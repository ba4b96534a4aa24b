/**
 When the threaded fuzzer's pause (lib/core/fuzzer.py) can be trusted.

 pause() takes one semaphore permit for every thread it finds alive. Permits left
 behind by an earlier pause, or by a thread that a failing callback made leave, can
 stand in for a thread that still scans. Both directions are over every schedule.
 */
module FuzzerPause {
  import opened Wrappers
  import opened SqliteExport

  /** A step while pause() collects permits. */
  predicate Collects(a: Action) {
    !a.TimeOut? && !a.Acknowledge?
  }

  ghost predicate IsCollection(s: Sys, actions: seq<Action>, t: Sys) {
    IsRun(s, actions, t) && forall i :: 0 <= i < |actions| ==> Collects(actions[i])
  }

  /** On every schedule, a pause from s on that is acknowledged leaves no thread able to scan. */
  ghost predicate PauseStopsScans(s: Sys)
    requires s.controller.Watching?
  {
    forall actions, t :: IsCollection(Next(s, Pause), actions, t) && Enabled(t, Acknowledge) ==> NoneCanScan(t)
  }

  /** Thread w can raise out of a callback. */
  predicate MayFail(s: Sys, w: nat)
    requires w < |s.workers|
  {
    s.workers[w].Failing? || CanScan(s, w)
  }

  /** Thread w can get to releasing the pause semaphore while the pause is on. */
  predicate MayPost(s: Sys, w: nat)
    requires w < |s.workers|
  {
    var p := s.workers[w];
    p.Scanning? || p.Idle? || p.Checking? || (p.Woken? && !p.last && !s.quit)
  }

  /** The paths thread w still has to take from the queue to scan or fail. */
  function Need(s: Sys, w: nat): nat
    requires w < |s.workers|
  {
    if s.workers[w].Scanning? || s.workers[w].Failing? then 0 else 1
  }

  /** x can scan while b fails, with the paths there are. */
  predicate Together(s: Sys, x: nat, b: nat) {
    x < |s.workers| && b < |s.workers| && x != b && CanScan(s, x) && MayFail(s, b)
        && Need(s, x) + Need(s, b) <= |s.queue|
  }

  predicate PostedBeside(s: Sys, x: nat, b: nat) {
    exists a: nat :: a < |s.workers| && a != x && a != b && MayPost(s, a)
  }

  /**
   A thread can scan on while a permit that is not its own answers for it: there are
   more permits than parked threads, or another thread can fail, which makes the
   rest leave, and some permit exists or can be posted by a third thread.
   */
  predicate Leaks(s: Sys) {
    exists x: nat :: x < |s.workers| && CanScan(s, x) && LeaksAt(s, x)
  }

  predicate LeaksAt(s: Sys, x: nat) {
    || s.permits > ParkedCount(s.workers, |s.workers|)
    || exists b: nat :: b < |s.workers| && Together(s, x, b) && (s.permits > 0 || PostedBeside(s, x, b))
  }

  // ------------------------------------------------------------ a pause that stops

  /** Pairs that could leak find neither a permit nor anybody to post one. */
  ghost predicate PairsClear(s: Sys, have: nat) {
    forall x: nat, b: nat :: Together(s, x, b) ==> have == 0 && !PostedBeside(s, x, b)
  }

  ghost predicate Guarded(s: Sys, have: nat) {
    || NoneCanScan(s)
    || (s.playing && have == 0)
    || (!s.playing && have <= ParkedCount(s.workers, |s.workers|) && PairsClear(s, have))
  }

  ghost predicate CollectInv(s: Sys) {
    && s.controller.Acquiring? && s.controller.k <= |s.workers|
    && (s.controller.looked ==> s.controller.k < |s.workers|)
    && s.controller.taken + DoneCount(s.workers, s.controller.k) >= s.controller.k
    && (s.playing ==> s.quit)
    && Guarded(s, s.permits + s.controller.taken)
  }

  /** What no worker gains, nobody gains. */
  lemma PairsStayClear(s: Sys, t: Sys, have: nat)
    requires PairsClear(s, have) && |t.workers| == |s.workers|
    requires forall x: nat, b: nat :: Together(t, x, b) ==> Together(s, x, b)
    requires forall a: nat :: a < |s.workers| && MayPost(t, a) ==> MayPost(s, a)
    ensures PairsClear(t, have)
  {
    forall x: nat, b: nat | Together(t, x, b)
      ensures have == 0 && !PostedBeside(t, x, b)
    {
      assert Together(s, x, b);
    }
  }

  /** A step of worker w alone that gives it no new ability. */
  predicate Gains(s: Sys, w: nat, phase: Phase)
    requires w < |s.workers|
  {
    var t := Move(s, w, phase);
    || (CanScan(t, w) && !CanScan(s, w))
    || (MayFail(t, w) && !MayFail(s, w))
    || (MayFail(t, w) && Need(t, w) < Need(s, w))
    || (MayPost(t, w) && !MayPost(s, w))
  }

  lemma MoveKeepsPairs(s: Sys, w: nat, phase: Phase, have: nat)
    requires PairsClear(s, have) && w < |s.workers| && !Gains(s, w, phase)
    ensures PairsClear(Move(s, w, phase), have)
  {
    var t := Move(s, w, phase);
    forall v: nat | v < |s.workers| && v != w
      ensures CanScan(t, v) == CanScan(s, v) && Need(t, v) == Need(s, v) && MayPost(t, v) == MayPost(s, v)
    {
    }
    PairsStayClear(s, t, have);
  }

  lemma ClaimKeepsPairs(s: Sys, w: nat, have: nat)
    requires PairsClear(s, have) && Enabled(s, Claim(w))
    ensures PairsClear(Next(s, Claim(w)), have)
  {
    var t := Next(s, Claim(w));
    forall v: nat | v < |s.workers|
      ensures (CanScan(t, v) ==> CanScan(s, v)) && (MayPost(t, v) ==> MayPost(s, v))
      ensures Need(t, v) == if v == w then Need(s, v) - 1 else Need(s, v)
    {
    }
    PairsStayClear(s, t, have);
  }

  /** After a post, a pair that could leak would have been one beside the poster. */
  lemma PostKeepsPairs(s: Sys, w: nat, have: nat)
    requires PairsClear(s, have) && Enabled(s, Post(w))
    ensures PairsClear(Next(s, Post(w)), have + 1)
  {
    var t := Next(s, Post(w));
    forall x: nat, b: nat | Together(t, x, b)
      ensures false
    {
      assert x != w && b != w && t.workers[x] == s.workers[x] && t.workers[b] == s.workers[b];
      assert Together(s, x, b) && MayPost(s, w);
      assert PostedBeside(s, x, b);
    }
  }

  /** A failing thread that stops the fuzzer finds no permit, or nobody able to scan. */
  lemma StopAllKeepsGuard(s: Sys, w: nat, have: nat)
    requires PairsClear(s, have) && Enabled(s, StopAll(w))
    ensures Guarded(Next(s, StopAll(w)), have)
  {
    if have != 0 {
      forall x: nat | x < |s.workers|
        ensures !CanScan(s, x)
      {
        if CanScan(s, x) {
          assert Together(s, x, w);
        }
      }
      StopAllKeepsNone(s, w);
    }
  }

  /** The counts of a worker's own step. */
  lemma CollectCounts(s: Sys, w: nat, phase: Phase)
    requires CollectInv(s) && w < |s.workers| && !s.workers[w].Done? && (Parked(s.workers[w]) ==> Parked(phase))
    ensures s.controller.taken + DoneCount(Move(s, w, phase).workers, s.controller.k) >= s.controller.k
    ensures ParkedCount(Move(s, w, phase).workers, |s.workers|) >= ParkedCount(s.workers, |s.workers|)
  {
    CountsUpdate(s.workers, |s.workers|, w, phase);
    CountsUpdate(s.workers, s.controller.k, w, phase);
  }

  lemma {:induction false} WakeKeepsDone(ws: seq<Phase>, n: nat)
    requires n <= |ws|
    ensures DoneCount(Wake(ws), n) == DoneCount(ws, n)
  {
    if n > 0 {
      WakeKeepsDone(ws, n - 1);
    }
  }

  /** A worker's step that neither posts nor stops the fuzzer. */
  predicate Ordinary(a: Action) {
    a.Claim? || a.Exhaust? || a.SaveRow? || a.Release? || a.Pass? || a.Block? || a.Resume?
  }

  lemma SavePairs(s: Sys, w: nat, status: nat, have: nat)
    requires PairsClear(s, have) && Enabled(s, SaveRow(w, status))
    ensures PairsClear(Next(s, SaveRow(w, status)), have)
  {
    var t := Next(s, SaveRow(w, status));
    forall v: nat | v < |s.workers|
      ensures CanScan(t, v) == CanScan(s, v) && Need(t, v) == Need(s, v) && MayPost(t, v) == MayPost(s, v)
    {
    }
    PairsStayClear(s, t, have);
  }

  lemma OrdinaryKeepsPairs(s: Sys, a: Action, have: nat)
    requires PairsClear(s, have) && Enabled(s, a) && Ordinary(a) && !s.playing
    ensures PairsClear(Next(s, a), have)
  {
    match a {
      case Claim(w) => ClaimKeepsPairs(s, w, have);
      case Exhaust(w) => MoveKeepsPairs(s, w, Checking(true), have);
      case SaveRow(w, status) => SavePairs(s, w, status, have);
      case Release(w, raised) =>
        var phase := if raised then Failing else Checking(false);
        var t, u := Next(s, a), Move(s, w, phase);
        MoveKeepsPairs(s, w, phase, have);
        SamePairs(u, t, have);
      case Block(w) => MoveKeepsPairs(s, w, Waiting(s.workers[w].last), have);
      case Resume(w) => MoveKeepsPairs(s, w, Onward(s, s.workers[w].last), have);
    }
  }

  lemma SamePairs(s: Sys, t: Sys, have: nat)
    requires PairsClear(s, have) && t.workers == s.workers && t.queue == s.queue && t.quit == s.quit
    ensures PairsClear(t, have)
  {
    forall v: nat | v < |s.workers|
      ensures CanScan(t, v) == CanScan(s, v) && Need(t, v) == Need(s, v) && MayPost(t, v) == MayPost(s, v)
    {
    }
    PairsStayClear(s, t, have);
  }

  lemma OrdinaryCounts(s: Sys, a: Action)
    requires CollectInv(s) && Enabled(s, a) && Ordinary(a)
    ensures var t := Next(s, a);
            && t.controller == s.controller && t.permits == s.permits && t.playing == s.playing
                && |t.workers| == |s.workers|
            && s.controller.taken + DoneCount(t.workers, s.controller.k) >= s.controller.k
            && (!s.playing ==> ParkedCount(t.workers, |t.workers|) >= ParkedCount(s.workers, |s.workers|))
  {
    match a {
      case Claim(w) => CollectCounts(s, w, Scanning(s.queue[0]));
      case Exhaust(w) => CollectCounts(s, w, Checking(true));
      case SaveRow(w, status) =>
      case Release(w, raised) => CollectCounts(s, w, if raised then Failing else Checking(false));
      case Pass(w) => CollectCounts(s, w, Onward(s, s.workers[w].last));
      case Block(w) =>
        CountsUpdate(s.workers, s.controller.k, w,
            if s.playing then Woken(s.workers[w].last) else Waiting(s.workers[w].last));
        CountsUpdate(s.workers, |s.workers|, w,
            if s.playing then Woken(s.workers[w].last) else Waiting(s.workers[w].last));
      case Resume(w) => CollectCounts(s, w, Onward(s, s.workers[w].last));
    }
  }

  lemma OrdinaryKeepsCollectInv(s: Sys, a: Action)
    requires CollectInv(s) && Enabled(s, a) && Ordinary(a)
    ensures CollectInv(Next(s, a))
  {
    OrdinaryCounts(s, a);
    if NoneCanScan(s) {
      StepKeepsNone(s, a);
    } else if !s.playing {
      OrdinaryKeepsPairs(s, a, s.permits + s.controller.taken);
    }
  }

  lemma PostKeepsCollectInv(s: Sys, w: nat)
    requires CollectInv(s) && Enabled(s, Post(w))
    ensures CollectInv(Next(s, Post(w)))
  {
    var phase := Posted(s.workers[w].last);
    CollectCounts(s, w, phase);
    if NoneCanScan(s) {
      StepKeepsNone(s, Post(w));
    } else {
      CountsUpdate(s.workers, |s.workers|, w, phase);
      PostKeepsPairs(s, w, s.permits + s.controller.taken);
    }
  }

  lemma StopAllKeepsCollectInv(s: Sys, w: nat)
    requires CollectInv(s) && Enabled(s, StopAll(w))
    ensures CollectInv(Next(s, StopAll(w)))
  {
    CollectCounts(s, w, Checking(false));
    WakeKeepsDone(s.workers[w := Checking(false)], s.controller.k);
    if NoneCanScan(s) {
      StopAllKeepsNone(s, w);
    } else if !s.playing {
      StopAllKeepsGuard(s, w, s.permits + s.controller.taken);
    }
  }

  lemma TakeOrLookKeepsCollectInv(s: Sys, a: Action)
    requires CollectInv(s) && Enabled(s, a) && (a.Look? || a.Take?)
    ensures CollectInv(Next(s, a))
  {
    var t := Next(s, a);
    if NoneCanScan(s) {
      SameScanners(s, t);
    } else if !s.playing {
      SamePairs(s, t, s.permits + s.controller.taken);
    }
  }

  lemma StepKeepsCollectInv(s: Sys, a: Action)
    requires CollectInv(s) && Enabled(s, a) && Collects(a)
    ensures CollectInv(Next(s, a))
  {
    if Ordinary(a) {
      OrdinaryKeepsCollectInv(s, a);
    } else {
      match a {
        case Post(w) => PostKeepsCollectInv(s, w);
        case StopAll(w) => StopAllKeepsCollectInv(s, w);
        case _ => TakeOrLookKeepsCollectInv(s, a);
      }
    }
  }

  lemma {:induction false} CollectionKeepsInv(s: Sys, actions: seq<Action>, t: Sys)
    requires CollectInv(s) && IsCollection(s, actions, t)
    ensures CollectInv(t)
    decreases |actions|
  {
    if actions != [] {
      assert Collects(actions[0]);
      assert forall i :: 0 <= i < |actions[1..]| ==> actions[1..][i] == actions[i + 1];
      StepKeepsCollectInv(s, actions[0]);
      CollectionKeepsInv(Next(s, actions[0]), actions[1..], t);
    }
  }

  /** At the acknowledgement, the permits taken answer for every living thread. */
  lemma AcknowledgedIsNone(t: Sys)
    requires CollectInv(t) && Enabled(t, Acknowledge)
    ensures NoneCanScan(t)
  {
    var n := |t.workers|;
    CountsBound(t.workers, n);
    if t.permits + t.controller.taken <= ParkedCount(t.workers, n) {
      assert forall i :: 0 <= i < n ==> Parked(t.workers[i]) || t.workers[i].Done?;
    }
  }

  lemma PauseStarts(s: Sys)
    requires s.controller.Watching? && !Leaks(s)
    ensures CollectInv(Next(s, Pause))
  {
    var q := Next(s, Pause);
    if !NoneCanScan(s) {
      var x: nat :| x < |s.workers| && CanScan(s, x);
      assert !LeaksAt(s, x);
      forall x: nat, b: nat | Together(q, x, b)
        ensures q.permits == 0 && !PostedBeside(q, x, b)
      {
        assert CanScan(s, x) && !LeaksAt(s, x) && Together(s, x, b);
        assert forall a: nat :: a < |s.workers| ==> MayPost(q, a) == MayPost(s, a);
      }
    } else {
      SameScanners(s, q);
    }
  }

  lemma NoLeakStops(s: Sys)
    requires s.controller.Watching? && !Leaks(s)
    ensures PauseStopsScans(s)
  {
    PauseStarts(s);
    forall actions, t | IsCollection(Next(s, Pause), actions, t) && Enabled(t, Acknowledge)
      ensures NoneCanScan(t)
    {
      CollectionKeepsInv(Next(s, Pause), actions, t);
      AcknowledgedIsNone(t);
    }
  }

  // ------------------------------------------------------------- a pause that leaks

  lemma CollectionThen(s: Sys, actions: seq<Action>, t: Sys, a: Action)
    requires IsCollection(s, actions, t) && Enabled(t, a) && Collects(a)
    ensures IsCollection(s, actions + [a], Next(t, a))
  {
    RunThen(s, actions, t, a);
  }

  lemma CollectionConcat(s: Sys, a: seq<Action>, t: Sys, b: seq<Action>, u: Sys)
    requires IsCollection(s, a, t) && IsCollection(t, b, u)
    ensures IsCollection(s, a + b, u)
  {
    RunConcat(s, a, t, b, u);
  }

  /** Worker w moved on its own, with whatever it took from the queue. */
  predicate OnlyMoved(s: Sys, t: Sys, w: nat)
    requires w < |s.workers|
  {
    && |t.workers| == |s.workers| && t.workers == s.workers[w := t.workers[w]]
    && t.controller == s.controller && t.quit == s.quit && t.playing == s.playing
  }

  /** A thread that may post does; any other living thread but a failing one parks or leaves. */
  lemma ParkOne(s: Sys, w: nat) returns (actions: seq<Action>, t: Sys)
    requires w < |s.workers| && !s.playing && !Parked(s.workers[w]) && !s.workers[w].Done? && !s.workers[w].Failing?
    ensures IsCollection(s, actions, t) && OnlyMoved(s, t, w)
    ensures t.workers[w].Posted? || t.workers[w].Done?
    ensures t.permits == s.permits + if t.workers[w].Posted? then 1 else 0
    ensures MayPost(s, w) ==> t.workers[w].Posted?
  {
    actions, t := [], s;
    assert s.workers[w := s.workers[w]] == s.workers;
    if t.workers[w].Woken? {
      CollectionThen(s, actions, t, Resume(w));
      actions, t := actions + [Resume(w)], Next(t, Resume(w));
    }
    if t.workers[w].Done? {
      return;
    }
    actions, t := ToChecking(s, w, actions, t);
    CollectionThen(s, actions, t, Post(w));
    actions, t := actions + [Post(w)], Next(t, Post(w));
  }

  /** From the top of its loop, or a scan, a thread gets to its look at the play event. */
  lemma ToChecking(s: Sys, w: nat, done: seq<Action>, u: Sys) returns (actions: seq<Action>, t: Sys)
    requires w < |s.workers| && IsCollection(s, done, u) && OnlyMoved(s, u, w)
    requires u.workers[w].Idle? || u.workers[w].Scanning? || u.workers[w].Checking?
    ensures IsCollection(s, actions, t) && OnlyMoved(s, t, w) && t.workers[w].Checking? && t.permits == u.permits
  {
    actions, t := done, u;
    if t.workers[w].Idle? {
      var a := if t.queue == [] then Exhaust(w) else Claim(w);
      CollectionThen(s, actions, t, a);
      actions, t := actions + [a], Next(t, a);
    }
    if t.workers[w].Scanning? {
      CollectionThen(s, actions, t, Release(w, false));
      actions, t := actions + [Release(w, false)], Next(t, Release(w, false));
    }
  }

  predicate ParkedBut(ws: seq<Phase>, n: nat, x: nat) {
    forall i :: 0 <= i < |ws| && i < n && i != x ==> Parked(ws[i]) || ws[i].Done?
  }

  /** Everybody but x parks or leaves; each one that parks leaves its own permit. */
  lemma {:induction false} ParkOthers(s: Sys, n: nat, x: nat) returns (actions: seq<Action>, t: Sys)
    requires n <= |s.workers| && x < |s.workers| && !s.playing
    requires forall i :: 0 <= i < |s.workers| && i != x ==> !s.workers[i].Failing?
    ensures IsCollection(s, actions, t) && |t.workers| == |s.workers| && t.workers[x] == s.workers[x]
    ensures t.controller == s.controller && t.quit == s.quit && !t.playing && ParkedBut(t.workers, n, x)
    ensures forall i :: n <= i < |s.workers| ==> t.workers[i] == s.workers[i]
    ensures t.permits - ParkedCount(t.workers, |t.workers|) == s.permits - ParkedCount(s.workers, |s.workers|)
  {
    if n == 0 {
      actions, t := [], s;
      return;
    }
    actions, t := ParkOthers(s, n - 1, x);
    var w := n - 1;
    if w == x || Parked(t.workers[w]) || t.workers[w].Done? {
      return;
    }
    var more, u := ParkOne(t, w);
    CollectionConcat(s, actions, t, more, u);
    CountsUpdate(t.workers, |t.workers|, w, u.workers[w]);
    actions, t := actions + more, u;
  }

  lemma {:induction false} DoneGrowth(ws: seq<Phase>, k: nat, n: nat)
    requires k <= n <= |ws|
    ensures DoneCount(ws, k) <= DoneCount(ws, n) <= DoneCount(ws, k) + (n - k)
    decreases n
  {
    if k < n {
      DoneGrowth(ws, k, n - 1);
    }
  }

  /** With a permit for every living thread from k on, pause() gets to its end. */
  lemma {:induction false} CollectAll(s: Sys) returns (actions: seq<Action>, t: Sys)
    requires s.controller.Acquiring? && !s.controller.looked && s.controller.k <= |s.workers|
    requires s.permits + DoneCount(s.workers, |s.workers|) >= |s.workers| - s.controller.k +
               DoneCount(s.workers, s.controller.k)
    ensures IsCollection(s, actions, t) && Enabled(t, Acknowledge)
    ensures t.workers == s.workers && t.queue == s.queue && t.quit == s.quit
    decreases |s.workers| - s.controller.k
  {
    var k, n := s.controller.k, |s.workers|;
    if k == n {
      actions, t := [], s;
      return;
    }
    DoneGrowth(s.workers, k + 1, n);
    CollectionThen(s, [], s, Look);
    var first, u := [] + [Look], Next(s, Look);
    if !s.workers[k].Done? {
      CollectionThen(s, first, u, Take);
      first, u := first + [Take], Next(u, Take);
    }
    var rest;
    rest, t := CollectAll(u);
    CollectionConcat(s, first, u, rest, t);
    actions := first + rest;
  }

  lemma {:induction false} OneLiving(ws: seq<Phase>, n: nat, x: nat)
    requires n <= |ws| && x < |ws| && !ws[x].Done? && !Parked(ws[x]) && ParkedBut(ws, n, x)
    ensures ParkedCount(ws, n) + DoneCount(ws, n) == n - if x < n then 1 else 0
  {
    if n > 0 {
      OneLiving(ws, n - 1, x);
    }
  }

  lemma ReachScanningCollects(s: Sys, w: nat) returns (actions: seq<Action>, t: Sys)
    requires w < |s.workers| && CanScan(s, w)
    ensures IsCollection(s, actions, t) && OnlyMoved(s, t, w) && t.workers[w].Scanning? && t.permits == s.permits
    ensures |t.queue| == |s.queue| - Need(s, w)
  {
    actions, t := [], s;
    assert s.workers[w := s.workers[w]] == s.workers;
    if s.workers[w].Woken? {
      CollectionThen(s, actions, t, Resume(w));
      actions, t := actions + [Resume(w)], Next(t, Resume(w));
    }
    if !s.workers[w].Scanning? {
      CollectionThen(s, actions, t, Claim(w));
      actions, t := actions + [Claim(w)], Next(t, Claim(w));
    }
  }

  /** More permits than parked threads: one can answer for a thread that scans. */
  lemma SparePermitLeaks(q: Sys, x: nat) returns (actions: seq<Action>, t: Sys)
    requires q.controller == Acquiring(0, false, 0) && !q.playing && x < |q.workers| && CanScan(q, x)
    requires q.permits > ParkedCount(q.workers, |q.workers|)
    requires forall i :: 0 <= i < |q.workers| && i != x ==> !q.workers[i].Failing?
    ensures IsCollection(q, actions, t) && Enabled(t, Acknowledge) && !NoneCanScan(t)
  {
    var n := |q.workers|;
    var scan, s := ReachScanningCollects(q, x);
    CountsUpdate(q.workers, n, x, s.workers[x]);
    var park, u := ParkOthers(s, n, x);
    CollectionConcat(q, scan, s, park, u);
    OneLiving(u.workers, n, x);
    var rest;
    rest, t := CollectAll(u);
    CollectionConcat(q, scan + park, u, rest, t);
    actions := scan + park + rest;
    assert CanScan(t, x);
  }

  // ------------------------------------- a failing thread makes the others leave

  predicate NoneWaits(ws: seq<Phase>) {
    forall i :: 0 <= i < |ws| ==> !ws[i].Waiting?
  }

  /** Once the fuzzer stops, a thread leaves in a few steps of its own. */
  lemma FinishOne(s: Sys, w: nat) returns (actions: seq<Action>, t: Sys)
    requires w < |s.workers| && s.playing && s.quit && NoneWaits(s.workers)
    ensures IsCollection(s, actions, t) && OnlyMoved(s, t, w) && t.workers[w].Done? && t.permits == s.permits
  {
    actions, t := [], s;
    assert s.workers[w := s.workers[w]] == s.workers;
    if t.workers[w].Posted? {
      CollectionThen(s, actions, t, Block(w));
      actions, t := actions + [Block(w)], Next(t, Block(w));
    }
    if t.workers[w].Woken? {
      CollectionThen(s, actions, t, Resume(w));
      actions, t := actions + [Resume(w)], Next(t, Resume(w));
    }
    if t.workers[w].Failing? {
      CollectionThen(s, actions, t, StopAll(w));
      NobodyToWake(s.workers[w := Checking(false)]);
      actions, t := actions + [StopAll(w)], Next(t, StopAll(w));
    }
    if !t.workers[w].Done? {
      actions, t := ToChecking(s, w, actions, t);
      CollectionThen(s, actions, t, Pass(w));
      actions, t := actions + [Pass(w)], Next(t, Pass(w));
    }
  }

  lemma NobodyToWake(ws: seq<Phase>)
    requires NoneWaits(ws)
    ensures Wake(ws) == ws
  {
  }

  predicate GoneBut(ws: seq<Phase>, n: nat, x: nat) {
    forall i :: 0 <= i < |ws| && i < n && i != x ==> ws[i].Done?
  }

  lemma {:induction false} FinishOthers(s: Sys, n: nat, x: nat) returns (actions: seq<Action>, t: Sys)
    requires n <= |s.workers| && x < |s.workers| && s.playing && s.quit && NoneWaits(s.workers)
    ensures IsCollection(s, actions, t) && |t.workers| == |s.workers| && t.workers[x] == s.workers[x]
    ensures t.controller == s.controller && t.quit && t.playing && t.permits == s.permits
    ensures NoneWaits(t.workers) && GoneBut(t.workers, n, x)
  {
    if n == 0 {
      actions, t := [], s;
      return;
    }
    actions, t := FinishOthers(s, n - 1, x);
    if n - 1 != x {
      var more, u := FinishOne(t, n - 1);
      CollectionConcat(s, actions, t, more, u);
      actions, t := actions + more, u;
    }
  }

  lemma {:induction false} GoneCount(ws: seq<Phase>, n: nat, x: nat)
    requires n <= |ws| && x < |ws| && GoneBut(ws, n, x)
    ensures DoneCount(ws, n) >= n - if x < n then 1 else 0
  {
    if n > 0 {
      GoneCount(ws, n - 1, x);
    }
  }

  /** While x scans, b fails and stops the fuzzer; one permit is enough to get past x. */
  lemma StopAllLeaks(s: Sys, x: nat, b: nat) returns (actions: seq<Action>, t: Sys)
    requires s.controller == Acquiring(0, false, 0) && s.permits > 0
    requires x < |s.workers| && s.workers[x].Scanning? && b < |s.workers| && s.workers[b].Failing?
    ensures IsCollection(s, actions, t) && Enabled(t, Acknowledge) && !NoneCanScan(t)
  {
    CollectionThen(s, [], s, StopAll(b));
    var first, u := [] + [StopAll(b)], Next(s, StopAll(b));
    assert NoneWaits(u.workers) && u.workers[x] == s.workers[x];
    var n := |u.workers|;
    var finish, v := FinishOthers(u, n, x);
    CollectionConcat(s, first, u, finish, v);
    GoneCount(v.workers, n, x);
    var rest;
    rest, t := CollectAll(v);
    CollectionConcat(s, first + finish, v, rest, t);
    actions := first + finish + rest;
    assert CanScan(t, x);
  }

  /** x and b get their paths and b's callback raises. */
  lemma ScanAndFail(q: Sys, x: nat, b: nat) returns (actions: seq<Action>, t: Sys)
    requires Together(q, x, b)
    ensures IsCollection(q, actions, t)
    ensures |t.workers| == |q.workers| && t.workers[x].Scanning? && t.workers[b].Failing?
    ensures forall i :: 0 <= i < |q.workers| && i != x && i != b ==> t.workers[i] == q.workers[i]
    ensures t.controller == q.controller && t.quit == q.quit && t.playing == q.playing && t.permits == q.permits
  {
    actions, t := ReachScanningCollects(q, x);
    if t.workers[b].Failing? {
      return;
    }
    assert q.workers[b] == t.workers[b] && CanScan(t, b);
    var more, u := ReachScanningCollects(t, b);
    CollectionConcat(q, actions, t, more, u);
    actions, t := actions + more, u;
    CollectionThen(q, actions, t, Release(b, true));
    actions, t := actions + [Release(b, true)], Next(t, Release(b, true));
  }

  /** One thread scans while another can fail, with a permit or somebody to post one. */
  lemma FailureLeaks(q: Sys, x: nat, b: nat) returns (actions: seq<Action>, t: Sys)
    requires q.controller == Acquiring(0, false, 0) && !q.playing && Together(q, x, b)
    requires q.permits > 0 || PostedBeside(q, x, b)
    ensures IsCollection(q, actions, t) && Enabled(t, Acknowledge) && !NoneCanScan(t)
  {
    var s;
    actions, s := ScanAndFail(q, x, b);
    if s.permits == 0 {
      var a: nat :| a < |q.workers| && a != x && a != b && MayPost(q, a);
      assert s.workers[a] == q.workers[a] && MayPost(s, a);
      var post, u := ParkOne(s, a);
      CollectionConcat(q, actions, s, post, u);
      actions, s := actions + post, u;
    }
    var rest;
    rest, t := StopAllLeaks(s, x, b);
    CollectionConcat(q, actions, s, rest, t);
    actions := actions + rest;
  }

  lemma LeakIsReached(s: Sys) returns (actions: seq<Action>, t: Sys)
    requires s.controller.Watching? && Leaks(s)
    ensures IsCollection(Next(s, Pause), actions, t) && Enabled(t, Acknowledge) && !NoneCanScan(t)
  {
    var q := Next(s, Pause);
    var x: nat :| x < |s.workers| && CanScan(s, x) && LeaksAt(s, x);
    assert CanScan(q, x);
    if b: nat :| b < |s.workers| && Together(s, x, b) && (s.permits > 0 || PostedBeside(s, x, b)) {
      assert Together(q, x, b);
      assert forall a: nat :: a < |s.workers| ==> MayPost(q, a) == MayPost(s, a);
      actions, t := FailureLeaks(q, x, b);
    } else {
      forall i: nat | i < |q.workers| && i != x
        ensures !q.workers[i].Failing?
      {
        assert q.workers[i].Failing? ==> Together(s, x, i);
      }
      actions, t := SparePermitLeaks(q, x);
    }
  }

  /**
   A pause that starts in state s and is acknowledged stops all scanning on every
   schedule exactly when s does not leak.
   */
  lemma PauseStopsExactly(s: Sys)
    requires s.controller.Watching?
    ensures PauseStopsScans(s) <==> !Leaks(s)
  {
    if Leaks(s) {
      var actions, t := LeakIsReached(s);
    } else {
      NoLeakStops(s);
    }
  }
}
