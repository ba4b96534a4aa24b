/**
 The native fuzzer (lib/core/fuzzer.py) over the dictionary and the Rust scan.

 Sys composes the Python scan loop, the dictionary and one running native scan
 into one transition system. The Rust workers and coordinator move in their own
 atomic steps, the controller may pause, play, quit and cancel at any point, and
 any callback may raise. A play first clears the cancel flag and then sets the play
 event; the event is set whenever that strands nothing, which is so after every
 acknowledged pause.
 */
module NativeFuzzer {
  import opened Wrappers
  import opened Chunks
  import opened Dictionary
  import SW = ScanWorkers
  import SR = ScanReach

  // ------------------------------------------------------------------- events

  /** Results Python drops again because only their progress matters. */
  predicate Dropped(r: ScanResult, usingProxy: bool) {
    r.filtered && !(usingProxy && r.status == PROXY_AUTHENTICATION_REQUIRED)
  }

  function Events(results: seq<ScanResult>, usingProxy: bool): seq<ScanResult> {
    if results == [] then [] else
    (if Dropped(results[0], usingProxy) then [] else [results[0]]) + Events(results[1..], usingProxy)
  }

  ghost predicate OrderedWithin(rs: seq<ScanResult>, lo: nat, hi: nat) {
    && (forall k :: 0 <= k < |rs| ==> lo <= rs[k].requestIndex < hi)
    && (forall j, k :: 0 <= j < k < |rs| ==> rs[j].requestIndex < rs[k].requestIndex)
  }

  lemma {:induction false} EventsOrdered(rs: seq<ScanResult>, usingProxy: bool, lo: nat, hi: nat)
    requires OrderedWithin(rs, lo, hi)
    ensures OrderedWithin(Events(rs, usingProxy), lo, hi)
    decreases |rs|
  {
    if rs != [] {
      EventsOrdered(rs[1..], usingProxy, rs[0].requestIndex + 1, hi);
    }
  }

  // -------------------------------------------------------------------- state

  datatype Python =
    | Top                                             // head of the scan loop
    | Paused                                          // pause acknowledged, waiting for play
    | Scanning                                        // blocked in the native scan
    | AtEvent(next: nat, k: nat)                      // first stop check for event k, or before the tail
    | AtResult(k: nat)                                // second stop check, gap before event k is done
    | Handing(from: nat, to: nat, k: nat, isEvent: bool) // callbacks hold from..to, claims not yet released
    | Raised                                          // an exception is leaving the native scan
    | Done(failed: bool)

  datatype Config = Config(maximum: nat, concurrency: nat, resultChunk: nat, basePath: string, usingProxy: bool)

  datatype Sys = Sys(
    cfg: Config,
    dict: Dict,
    paths: Claimed,
    scan: SW.Scan,
    py: Python,
    play: bool,
    quit: bool,
    cancelRequested: bool,
    // history
    released: nat,          // how much of the current claim was released
    handed: seq<string>,    // every path given to callbacks, in order
    total: multiset<string> // initially pending paths plus accepted extras
  )

  datatype Action =
    | LeaveOnQuit | AckPause | Continue | ClaimChunk | ClaimRefused
    | ScanStep(step: SW.Step) | EnterCallback
    | StopChunk | SkipGap | HandGap | HandEvent | HandTail | EndChunk | Release(raised: bool)
    | ScanReturned | ScanFailed | RequeueAndRaise
    | Pause | ResetCancel | Play | Quit | CancelBackend
    | Discover(path: string, isValid: bool)

  predicate Stop(s: Sys) {
    s.quit || !s.play
  }

  /** A scan call is in progress. */
  predicate Active(s: Sys) {
    s.py.Scanning? || InCallback(s)
  }

  predicate InCallback(s: Sys) {
    s.py.AtEvent? || s.py.AtResult? || s.py.Handing?
  }

  function Ev(s: Sys): seq<ScanResult>
    requires s.scan.phase.Delivering?
  {
    Events(s.scan.phase.chunk.results, s.cfg.usingProxy)
  }

  predicate RangeFits(d: Dict, c: Claimed) {
    c.Range? ==> c.chunk.start <= c.chunk.end <= |d.items|
  }

  function Current(s: Sys): seq<string>
    requires RangeFits(s.dict, s.paths)
  {
    PathsOf(s.dict.items, s.paths)
  }

  /** What the dictionary looks like when nothing is claimed. */
  predicate NothingClaimed(d: Dict) {
    d.claimed == [] && d.nativeClaim.None?
  }

  function Start(cfg: Config, d: Dict): Sys
    requires d.extraIndex <= |d.extra| && Resume(d) <= |d.items|
  {
    Sys(cfg, d, Paths([]), SW.Init(0, 1, 1, false), Top, true, false, false, 0, [], multiset(Pending(d)))
  }

  /** The index up to which an undisturbed scan has released its claim. */
  function Position(s: Sys): nat {
    if !s.scan.phase.Delivering? then s.scan.chunkStart else
    match s.py
    case AtEvent(next, _) => next
    case AtResult(k) => if k < |Ev(s)| then Ev(s)[k].requestIndex else 0
    case Handing(from, _, _, _) => from
    case _ => s.scan.phase.chunk.start
  }

  /**
   A play now would leave claims behind: the scan has returned without all its paths
   released, or it goes on delivering past a chunk that was cut short.
   */
  ghost predicate Strands(s: Sys) {
    && !s.quit && Active(s)
    && if s.scan.phase.Returned? then s.released < s.scan.pathCount
       else s.released < Position(s) && !SR.Spent(s.scan)
  }

  /** Nobody has asked for a cancellation since the flag was cleared. */
  predicate FlagClear(s: Sys) {
    !s.cancelRequested && (Active(s) && SW.Running(s.scan) ==> !s.scan.cancelled)
  }

  // -------------------------------------------------------------- transitions

  ghost predicate Enabled(s: Sys, a: Action) {
    && s.dict.extraIndex <= |s.dict.extra| && s.dict.index <= |s.dict.items|
    && RangeFits(s.dict, s.paths)
    && (InCallback(s) ==> s.scan.phase.Delivering?)
    && match a
       case LeaveOnQuit => s.py.Top? && s.quit
       case AckPause => s.py.Top? && !s.quit && !s.play
       case Continue => s.py.Paused? && s.play
       case ClaimChunk => s.py.Top? && !s.quit && s.play && (s.dict.nativeClaim.None? || s.cfg.maximum == 0)
       case ClaimRefused => s.py.Top? && !s.quit && s.play && s.dict.nativeClaim.Some? && s.cfg.maximum > 0
       case ScanStep(step) =>
         && Active(s) && SW.Enabled(s.scan, step)
         && !step.Accept? && (step.Fail? ==> s.scan.phase.Idle?) && (step.Cancel? ==> s.cancelRequested)
       case EnterCallback => s.py.Scanning? && s.scan.phase.Delivering?
       case StopChunk => (s.py.AtEvent? || s.py.AtResult?) && Stop(s)
       case SkipGap =>
         s.py.AtEvent? && !Stop(s) && s.py.k < |Ev(s)| && Ev(s)[s.py.k].requestIndex <= s.py.next
       case HandGap =>
         && s.py.AtEvent? && !Stop(s) && s.py.k < |Ev(s)|
         && s.py.next < Ev(s)[s.py.k].requestIndex <= |Current(s)|
       case HandEvent =>
         s.py.AtResult? && !Stop(s) && s.py.k < |Ev(s)| && Ev(s)[s.py.k].requestIndex < |Current(s)|
       case HandTail =>
         && s.py.AtEvent? && !Stop(s) && s.py.k >= |Ev(s)|
         && s.py.next < s.scan.phase.chunk.end <= |Current(s)|
       case EndChunk =>
         s.py.AtEvent? && !Stop(s) && s.py.k >= |Ev(s)| && s.scan.phase.chunk.end <= s.py.next
       case Release(raised) =>
         && s.py.Handing? && s.py.from <= s.py.to
         && (s.paths.Paths? ==> s.py.to <= |s.paths.paths|) && (s.paths.Range? ==> s.dict.nativeClaim.Some?)
       case ScanReturned => s.py.Scanning? && s.scan.phase.Returned?
       case ScanFailed => s.py.Scanning? && s.scan.phase.Failed?
       case RequeueAndRaise => s.py.Raised?
       case Pause => !s.py.Done?
       case ResetCancel => !s.py.Done?
       case Play => !s.py.Done? && FlagClear(s) && !Strands(s)
       case Quit => !s.py.Done?
       case CancelBackend => Stop(s)
       case Discover(path, isValid) => !s.py.Done?
  }

  function Hand(s: Sys, from: nat, to: nat, isEvent: bool): Sys
    requires s.py.AtEvent? || s.py.AtResult?
    requires RangeFits(s.dict, s.paths) && from <= to <= |Current(s)|
  {
    s.(py := Handing(from, to, s.py.k, isEvent), handed := s.handed + Current(s)[from..to])
  }

  function Accepted(s: Sys): Sys
    requires s.scan.phase.Delivering?
  {
    s.(py := Scanning, scan := SW.Apply(s.scan, SW.Accept))
  }

  function AfterRelease(s: Sys, raised: bool): Sys
    requires s.py.Handing? && s.scan.phase.Delivering?
  {
    var h := s.py;
    if raised then s.(py := Raised, scan := SW.Apply(s.scan, SW.Fail))
    else if h.isEvent then s.(py := AtEvent(h.to, h.k + 1))
    else if h.k < |Ev(s)| then s.(py := AtResult(h.k))
    else Accepted(s)
  }

  /** The first store of play(): the cancel flag is cleared, also for a scan that is still running. */
  function Reset(s: Sys): Sys {
    s.(cancelRequested := false, scan := SR.Uncancelled(s.scan))
  }

  /** The last store of play(): the play event is set. */
  function PlayNow(s: Sys): Sys {
    s.(play := true)
  }

  ghost function Next(s: Sys, a: Action): Sys
    requires Enabled(s, a)
  {
    match a
    case LeaveOnQuit => s.(py := Done(false))
    case AckPause => s.(dict := Requeue(s.dict), py := Paused)
    case Continue => s.(py := Top)
    case ClaimChunk =>
      var (d, c) := ClaimNative(s.dict, s.cfg.maximum, s.cfg.basePath);
      if RangeFits(d, c) && PathsOf(d.items, c) != [] then
        s.(dict := d, paths := c, py := Scanning, released := 0,
           scan := SW.Init(|PathsOf(d.items, c)|, s.cfg.concurrency, s.cfg.resultChunk, s.cancelRequested))
      else s.(dict := d, py := Done(false))
    case ClaimRefused => s.(py := Done(true))
    case ScanStep(step) => s.(scan := SW.Apply(s.scan, step))
    case EnterCallback => s.(py := AtEvent(s.scan.phase.chunk.start, 0))
    case StopChunk => Accepted(s)
    case SkipGap => s.(py := AtResult(s.py.k))
    case HandGap => Hand(s, s.py.next, Ev(s)[s.py.k].requestIndex, false)
    case HandEvent => Hand(s, Ev(s)[s.py.k].requestIndex, Ev(s)[s.py.k].requestIndex + 1, true)
    case HandTail => Hand(s, s.py.next, s.scan.phase.chunk.end, false)
    case EndChunk => Accepted(s)
    case Release(raised) =>
      AfterRelease(s.(dict := ReleaseSpan(s.dict, s.paths, s.py.from, s.py.to), released := s.py.to), raised)
    case ScanReturned => s.(py := Top, dict := if s.play then s.dict else Requeue(s.dict))
    case ScanFailed => s.(py := Raised)
    case RequeueAndRaise => s.(py := Done(true), dict := Requeue(s.dict))
    case Pause => s.(play := false)
    case ResetCancel => Reset(s)
    case Play => PlayNow(s)
    case Quit => s.(quit := true, play := true)
    case CancelBackend => s.(cancelRequested := true)
    case Discover(path, isValid) =>
      s.(dict := AddExtra(s.dict, path, isValid),
         total := s.total + if Accepts(s.dict, path, isValid) then multiset{path} else multiset{})
  }

  // --------------------------------------------------------------- invariants

  /** Paths given to callbacks whose claims are still held. */
  function InFlight(s: Sys): multiset<string>
    requires RangeFits(s.dict, s.paths)
  {
    if s.py.Handing? && s.py.from <= s.py.to <= |Current(s)| then multiset(Current(s)[s.py.from..s.py.to])
    else multiset{}
  }

  ghost predicate DictInv(s: Sys) {
    && ValidDict(s.dict) && Synchronous(s.dict)
    && RangeFits(s.dict, s.paths)
  }

  /** Handed plus pending is always exactly the whole set. */
  ghost predicate Conserved(s: Sys)
    requires DictInv(s)
  {
    multiset(s.handed) + multiset(Pending(s.dict)) == s.total + InFlight(s)
  }

  /** Where the chunk loop stands relative to the events of the chunk. */
  predicate LoopInv(s: Sys)
    requires InCallback(s) ==> s.scan.phase.Delivering?
  {
    match s.py
    case AtEvent(next, k) =>
      && k <= |Ev(s)| && next <= s.scan.phase.chunk.end
      && (k < |Ev(s)| ==> next <= Ev(s)[k].requestIndex)
    case AtResult(k) => k < |Ev(s)|
    case Handing(from, to, k, isEvent) =>
      && from < to <= s.scan.phase.chunk.end
      && (if isEvent then k < |Ev(s)| && from == Ev(s)[k].requestIndex && to == from + 1
          else k <= |Ev(s)| && to == if k < |Ev(s)| then Ev(s)[k].requestIndex else s.scan.phase.chunk.end)
    case _ => true
  }

  /** Where the released prefix of the claim ends: behind the scan only if nothing more is handed out. */
  ghost predicate ReleasedInv(s: Sys)
    requires InCallback(s) ==> s.scan.phase.Delivering?
  {
    && s.released <= Position(s)
    && (s.released == Position(s) || Stop(s) || SR.Spent(s.scan))
    && (InCallback(s) && s.released < Position(s) ==> s.py == AtEvent(s.scan.phase.chunk.start, 0))
    && (s.scan.phase.Returned? && !Stop(s) ==> s.released == s.scan.pathCount)
  }

  ghost predicate ClaimInv(s: Sys)
    requires DictInv(s)
  {
    && (Active(s) ==>
          && (InCallback(s) ==> s.scan.phase.Delivering?)
          && s.scan.pathCount == |Current(s)|
          && Outstanding(s.dict, s.paths, s.released)
          && ReleasedInv(s)
          && LoopInv(s))
    && (s.py.Top? && !s.quit ==> NothingClaimed(s.dict))
    && (s.py.Paused? ==> NothingClaimed(s.dict))
    && (s.py.Done? && s.py.failed ==> NothingClaimed(s.dict))
    && (s.py.Done? && !s.py.failed ==> s.quit || Pending(s.dict) == [])
  }

  predicate StopInv(s: Sys) {
    && s.cfg.maximum >= 1 && s.cfg.concurrency >= 1
    && (s.cancelRequested ==> Stop(s))
    && (Active(s) && SW.Running(s.scan) && s.scan.cancelled ==> Stop(s))
  }

  ghost predicate ScanInv(s: Sys) {
    Active(s) ==> SW.SafeInv(s.scan)
  }

  ghost predicate Inv(s: Sys) {
    && DictInv(s) && Conserved(s) && ClaimInv(s) && StopInv(s) && ScanInv(s)
  }

  lemma StartInv(cfg: Config, d: Dict)
    requires ValidDict(d) && NothingClaimed(d) && cfg.maximum >= 1 && cfg.concurrency >= 1
    ensures Inv(Start(cfg, d))
  {
  }

  // -------------------------------------------------- steps of the native scan

  lemma ScanStepFrame(s: SW.Scan, step: SW.Step)
    requires SW.Enabled(s, step) && !step.Accept? && (step.Fail? ==> s.phase.Idle?)
    requires s.chunkStart <= s.nextIndex
    ensures var s' := SW.Apply(s, step);
            && s'.pathCount == s.pathCount
            && (if s'.phase.Delivering? then s'.phase.chunk.start else s'.chunkStart)
               == (if s.phase.Delivering? then s.phase.chunk.start else s.chunkStart)
            && (s.phase.Delivering? ==> s'.phase == s.phase)
            && (s'.cancelled ==> s.cancelled || step.Cancel?)
            && (s'.phase.Returned? ==> s'.chunkStart == s.pathCount || s.cancelled)
  {
  }

  // Everything but the native scan's own invariant; the scan's is kept separately.
  ghost predicate LoopSideInv(s: Sys) {
    DictInv(s) && ClaimInv(s) && StopInv(s)
  }

  // A step that leaves the native scan alone.
  lemma SameScan(s: Sys, s': Sys)
    requires ScanInv(s) && s'.scan == s.scan && (Active(s') ==> Active(s))
    ensures ScanInv(s')
  {
  }

  lemma ScanStepKeepsReleased(s: Sys, a: Action)
    requires Enabled(s, a) && a.ScanStep? && ReleasedInv(s) && StopInv(s) && SW.SafeInv(s.scan)
    ensures (InCallback(s) ==> Next(s, a).scan.phase.Delivering?) && ReleasedInv(Next(s, a))
  {
    ScanStepFrame(s.scan, a.step);
    if SR.Spent(s.scan) {
      SR.SpentStays(s.scan, a.step);
    }
  }

  lemma ScanStepKeepsLoop(s: Sys, a: Action)
    requires LoopSideInv(s) && Enabled(s, a) && a.ScanStep? && SW.SafeInv(s.scan)
    ensures LoopSideInv(Next(s, a))
  {
    ScanStepFrame(s.scan, a.step);
    ScanStepKeepsReleased(s, a);
  }

  lemma ScanStepKeepsInv(s: Sys, a: Action)
    requires Inv(s) && Enabled(s, a) && a.ScanStep?
    ensures Inv(Next(s, a))
  {
    SW.StepKeepsSafe(s.scan, a.step);
    ScanStepKeepsLoop(s, a);
  }

  // -------------------------------------------------------- steps of the loop

  lemma ClaimKeepsLoop(s: Sys, a: Action)
    requires LoopSideInv(s) && Enabled(s, a) && a.ClaimChunk?
    ensures LoopSideInv(Next(s, a)) && Pending(Next(s, a).dict) == Pending(s.dict)
  {
    ClaimNativeKeepsPending(s.dict, s.cfg.maximum, s.cfg.basePath);
  }

  lemma ClaimStartsScan(s: Sys, a: Action)
    requires LoopSideInv(s) && Enabled(s, a) && a.ClaimChunk?
    ensures ScanInv(Next(s, a))
  {
    var (d, c) := ClaimNative(s.dict, s.cfg.maximum, s.cfg.basePath);
    if RangeFits(d, c) && PathsOf(d.items, c) != [] {
      SW.InitInv(|PathsOf(d.items, c)|, s.cfg.concurrency, s.cfg.resultChunk, s.cancelRequested);
    }
  }

  lemma ClaimKeepsInv(s: Sys, a: Action)
    requires LoopSideInv(s) && Conserved(s) && Enabled(s, a) && a.ClaimChunk?
    ensures Inv(Next(s, a))
  {
    ClaimKeepsLoop(s, a);
    ClaimStartsScan(s, a);
    SamePendingConserves(s, Next(s, a));
  }

  lemma SamePendingConserves(s: Sys, s': Sys)
    requires DictInv(s) && DictInv(s') && Conserved(s)
    requires s'.handed == s.handed && s'.total == s.total && Pending(s'.dict) == Pending(s.dict)
    requires !s.py.Handing? && !s'.py.Handing?
    ensures Conserved(s')
  {
  }

  lemma RequeueStepKeepsInv(s: Sys, a: Action)
    requires LoopSideInv(s) && Conserved(s) && Enabled(s, a) && (a.AckPause? || a.RequeueAndRaise?)
    ensures Inv(Next(s, a))
  {
    RequeueKeepsPending(s.dict);
  }

  // A scan that ran to its end undisturbed has released its whole claim.
  lemma FullyReleased(d: Dict, c: Claimed)
    requires RangeFits(d, c) && Outstanding(d, c, |PathsOf(d.items, c)|)
    ensures NothingClaimed(d)
  {
  }

  lemma ReturnKeepsLoop(s: Sys, a: Action)
    requires LoopSideInv(s) && Enabled(s, a) && (a.ScanReturned? || a.ScanFailed?)
    ensures LoopSideInv(Next(s, a)) && Pending(Next(s, a).dict) == Pending(s.dict)
  {
    if a.ScanReturned? {
      if s.play {
        if !s.quit {
          FullyReleased(s.dict, s.paths);
        }
      } else {
        RequeueKeepsPending(s.dict);
      }
    }
  }

  lemma ReturnKeepsInv(s: Sys, a: Action)
    requires LoopSideInv(s) && Conserved(s) && Enabled(s, a) && (a.ScanReturned? || a.ScanFailed?)
    ensures Inv(Next(s, a))
  {
    ReturnKeepsLoop(s, a);
    SamePendingConserves(s, Next(s, a));
  }

  // -------------------------------------------- steps of the chunk processing

  /** The events Python loops over are ordered and lie in the chunk. */
  ghost predicate ChunkOk(s: Sys) {
    && s.scan.phase.Delivering?
    && OrderedWithin(Ev(s), s.scan.phase.chunk.start, s.scan.phase.chunk.end)
    && s.scan.phase.chunk.start < s.scan.phase.chunk.end <= s.scan.pathCount
  }

  lemma DeliveredChunkOk(s: Sys)
    requires ScanInv(s) && Active(s) && s.scan.phase.Delivering?
    ensures ChunkOk(s)
    ensures var s' := SW.Apply(s.scan, SW.Accept);
            SW.SafeInv(s') && s'.pathCount == s.scan.pathCount && s'.chunkStart == s.scan.phase.chunk.end
  {
    var c := s.scan.phase.chunk;
    ActionableOrdered(s.scan.outcomes, c.start, c.end);
    EventsOrdered(c.results, s.cfg.usingProxy, c.start, c.end);
    SW.StepKeepsSafe(s.scan, SW.Accept);
  }

  predicate EntersOrLeaves(a: Action) {
    a.EnterCallback? || a.StopChunk? || a.EndChunk? || a.SkipGap?
  }

  lemma EnterOrLeaveKeepsLoop(s: Sys, a: Action)
    requires LoopSideInv(s) && ChunkOk(s) && Enabled(s, a)
    requires EntersOrLeaves(a)
    requires SW.Apply(s.scan, SW.Accept).chunkStart == s.scan.phase.chunk.end
    ensures LoopSideInv(Next(s, a))
  {
  }

  predicate Hands(a: Action) {
    a.HandGap? || a.HandEvent? || a.HandTail?
  }

  lemma HandKeepsLoop(s: Sys, a: Action)
    requires LoopSideInv(s) && ChunkOk(s) && Enabled(s, a) && Hands(a)
    ensures LoopSideInv(Next(s, a))
  {
  }

  lemma HandConserves(s: Sys, from: nat, to: nat, isEvent: bool)
    requires DictInv(s) && Conserved(s) && (s.py.AtEvent? || s.py.AtResult?) && from <= to <= |Current(s)|
    ensures DictInv(Hand(s, from, to, isEvent)) && Conserved(Hand(s, from, to, isEvent))
  {
    var s' := Hand(s, from, to, isEvent);
    assert multiset(s'.handed) == multiset(s.handed) + multiset(Current(s)[from..to]);
    assert InFlight(s') == multiset(Current(s)[from..to]);
    AddBoth(multiset(s.handed), multiset(Pending(s.dict)), s.total, multiset{}, InFlight(s'));
  }

  lemma AddBoth(h: multiset<string>, p: multiset<string>, t: multiset<string>, i: multiset<string>, x: multiset<string>)
    requires h + p == t + i
    ensures h + (p + x) == t + x + i && h + x + p == t + (i + x)
  {
    assert h + (p + x) == h + p + x == h + x + p;
    assert t + x + i == t + i + x == t + (i + x);
  }

  lemma CancelBoth(h: multiset<string>, p: multiset<string>, t: multiset<string>, i: multiset<string>)
    requires h + (p + i) == t + i
    ensures h + p == t
  {
    forall x ensures (h + p)[x] == t[x] {
      assert (h + (p + i))[x] == (t + i)[x];
    }
  }

  /** The state right after the claims of a handed span were released. */
  function Settled(s: Sys): Sys
    requires s.py.Handing? && s.py.from <= s.py.to
    requires (s.paths.Paths? ==> s.py.to <= |s.paths.paths|) && (s.paths.Range? ==> s.dict.nativeClaim.Some?)
  {
    s.(dict := ReleaseSpan(s.dict, s.paths, s.py.from, s.py.to), released := s.py.to)
  }

  lemma SettledFacts(s: Sys, a: Action)
    requires DictInv(s) && ClaimInv(s) && Enabled(s, a) && a.Release? && s.py.to <= |Current(s)|
    ensures DictInv(Settled(s)) && Current(Settled(s)) == Current(s)
    ensures Outstanding(Settled(s).dict, s.paths, s.py.to)
    ensures multiset(Pending(s.dict)) == multiset(Pending(Settled(s).dict)) + InFlight(s)
  {
    ReleaseSpanKeepsRest(s.dict, s.paths, s.py.from, s.py.to);
  }

  lemma AfterReleaseKeepsLoop(s: Sys, raised: bool)
    requires DictInv(s) && StopInv(s) && s.py.Handing? && ChunkOk(s) && LoopInv(s)
    requires s.scan.pathCount == |Current(s)| && s.released == s.py.to && Outstanding(s.dict, s.paths, s.released)
    requires SW.Apply(s.scan, SW.Accept).chunkStart == s.scan.phase.chunk.end
    ensures LoopSideInv(AfterRelease(s, raised))
  {
  }

  lemma SettledConserves(s: Sys, s': Sys)
    requires DictInv(s) && Conserved(s) && DictInv(s') && !s'.py.Handing?
    requires s'.handed == s.handed && s'.total == s.total
    requires multiset(Pending(s.dict)) == multiset(Pending(s'.dict)) + InFlight(s)
    ensures Conserved(s')
  {
    CancelBoth(multiset(s.handed), multiset(Pending(s'.dict)), s.total, InFlight(s));
  }

  lemma EnterOrLeaveKeepsScan(s: Sys, a: Action)
    requires ScanInv(s) && Active(s) && Enabled(s, a) && EntersOrLeaves(a)
    ensures ScanInv(Next(s, a))
  {
    if a.StopChunk? || a.EndChunk? {
      DeliveredChunkOk(s);
    }
  }

  lemma EnterOrLeaveKeepsInv(s: Sys, a: Action)
    requires Inv(s) && Enabled(s, a) && EntersOrLeaves(a)
    ensures Inv(Next(s, a))
  {
    DeliveredChunkOk(s);
    EnterOrLeaveKeepsScan(s, a);
    EnterOrLeaveKeepsLoop(s, a);
    SamePendingConserves(s, Next(s, a));
  }

  lemma HandKeepsInv(s: Sys, a: Action)
    requires Inv(s) && Enabled(s, a) && Hands(a)
    ensures Inv(Next(s, a))
  {
    DeliveredChunkOk(s);
    HandKeepsLoop(s, a);
    SameScan(s, Next(s, a));
    var h := Next(s, a).py;
    HandConserves(s, h.from, h.to, h.isEvent);
  }

  lemma AfterReleaseKeepsScan(s: Sys, raised: bool)
    requires s.py.Handing? && s.scan.phase.Delivering?
    requires SW.SafeInv(s.scan) && SW.SafeInv(SW.Apply(s.scan, SW.Accept))
    ensures ScanInv(AfterRelease(s, raised))
  {
  }

  lemma AfterReleaseFrame(s: Sys, raised: bool)
    requires s.py.Handing? && s.scan.phase.Delivering?
    ensures var t := AfterRelease(s, raised);
            t.dict == s.dict && t.paths == s.paths && t.handed == s.handed && t.total == s.total && !t.py.Handing?
  {
  }

  lemma ReleaseIsSettled(s: Sys, a: Action)
    requires Enabled(s, a) && a.Release?
    ensures Next(s, a) == AfterRelease(Settled(s), a.raised)
    ensures var t := Next(s, a);
            && t.dict == Settled(s).dict && t.paths == s.paths && t.handed == s.handed && t.total == s.total
                && !t.py.Handing?
  {
    AfterReleaseFrame(Settled(s), a.raised);
  }

  lemma ReleaseKeepsLoop(s: Sys, a: Action)
    requires LoopSideInv(s) && ChunkOk(s) && Enabled(s, a) && a.Release? && s.py.to <= |Current(s)|
    requires SW.Apply(s.scan, SW.Accept).chunkStart == s.scan.phase.chunk.end
    ensures LoopSideInv(Next(s, a))
  {
    SettledFacts(s, a);
    ReleaseIsSettled(s, a);
    AfterReleaseKeepsLoop(Settled(s), a.raised);
  }

  lemma ReleaseConserves(s: Sys, a: Action)
    requires DictInv(s) && ClaimInv(s) && Conserved(s) && Enabled(s, a) && a.Release? && s.py.to <= |Current(s)|
    requires DictInv(Next(s, a))
    ensures Conserved(Next(s, a))
  {
    SettledFacts(s, a);
    ReleaseIsSettled(s, a);
    SettledConserves(s, Next(s, a));
  }

  lemma ReleaseKeepsScan(s: Sys, a: Action)
    requires Enabled(s, a) && a.Release? && SW.SafeInv(s.scan) && SW.SafeInv(SW.Apply(s.scan, SW.Accept))
    ensures ScanInv(Next(s, a))
  {
    ReleaseIsSettled(s, a);
    AfterReleaseKeepsScan(Settled(s), a.raised);
  }

  lemma ReleaseKeepsInv(s: Sys, a: Action)
    requires Inv(s) && Enabled(s, a) && a.Release?
    ensures Inv(Next(s, a))
  {
    DeliveredChunkOk(s);
    ReleaseKeepsLoop(s, a);
    ReleaseKeepsScan(s, a);
    ReleaseConserves(s, a);
  }

  // ------------------------------------------------------ controller and world

  /** Only the flags of the controller differ, and a play is no part of it. */
  lemma SameLoop(s: Sys, t: Sys)
    requires DictInv(s) && ClaimInv(s) && (s.quit ==> t.quit) && (Stop(s) ==> Stop(t))
    requires t == s.(play := t.play, quit := t.quit, cancelRequested := t.cancelRequested)
    ensures DictInv(t) && ClaimInv(t) && InFlight(t) == InFlight(s)
  {
  }

  lemma ControllerStepKeepsLoop(s: Sys, a: Action)
    requires LoopSideInv(s) && Enabled(s, a) && (a.Pause? || a.Quit? || a.CancelBackend?)
    ensures LoopSideInv(Next(s, a)) && (Conserved(s) ==> Conserved(Next(s, a)))
  {
    SameLoop(s, Next(s, a));
  }

  /** Clearing the cancel flag changes flags only. */
  lemma ResetFrame(s: Sys)
    ensures var t := Reset(s);
            && Active(t) == Active(s) && InCallback(t) == InCallback(s)
            && t.scan.phase == s.scan.phase && t.scan.pathCount == s.scan.pathCount
            && t.scan.chunkStart == s.scan.chunkStart && Position(t) == Position(s)
            && (InCallback(s) && s.scan.phase.Delivering? ==> Ev(t) == Ev(s) && LoopInv(t) == LoopInv(s))
  {
  }

  lemma ResetKeepsInv(s: Sys)
    requires Inv(s)
    ensures Inv(Reset(s))
  {
    ResetFrame(s);
    if Active(s) {
      SR.UncancelKeepsSafe(s.scan);
    }
  }

  /** A play that strands nothing finds the released prefix where the scan is, or the scan spent. */
  lemma PlayKeepsReleased(s: Sys)
    requires DictInv(s) && ClaimInv(s) && ScanInv(s) && Active(s) && !Strands(s)
    ensures ReleasedInv(PlayNow(s))
  {
  }

  lemma PlayKeepsInv(s: Sys)
    requires Inv(s) && Enabled(s, Play)
    ensures Inv(PlayNow(s))
  {
    if Active(s) {
      PlayKeepsReleased(s);
    }
  }

  lemma HeadStepKeepsLoop(s: Sys, a: Action)
    requires LoopSideInv(s) && Enabled(s, a) && (a.LeaveOnQuit? || a.Continue?)
    ensures LoopSideInv(Next(s, a)) && (Conserved(s) ==> Conserved(Next(s, a)))
  {
  }

  lemma DiscoverFrame(s: Sys, a: Action)
    requires DictInv(s) && Enabled(s, a) && a.Discover?
    ensures var s' := Next(s, a);
            && DictInv(s') && s'.dict.items == s.dict.items && s'.dict.index == s.dict.index
            && s'.dict.claimed == s.dict.claimed && s'.dict.nativeClaim == s.dict.nativeClaim
            && s'.dict.nativeCorpus == s.dict.nativeCorpus
            && InFlight(s') == InFlight(s)
  {
    AddExtraFrame(s.dict, a.path, a.isValid);
  }

  lemma DiscoverConserves(s: Sys, a: Action)
    requires DictInv(s) && Conserved(s) && Enabled(s, a) && a.Discover?
    ensures DictInv(Next(s, a)) && Conserved(Next(s, a))
  {
    DiscoverFrame(s, a);
    AddExtraQueues(s.dict, a.path, a.isValid);
    var x := if Accepts(s.dict, a.path, a.isValid) then multiset{a.path} else multiset{};
    AddBoth(multiset(s.handed), multiset(Pending(s.dict)), s.total, InFlight(s), x);
  }

  lemma DiscoverKeepsLoop(s: Sys, a: Action)
    requires LoopSideInv(s) && Enabled(s, a) && a.Discover?
    ensures LoopSideInv(Next(s, a))
  {
    DiscoverFrame(s, a);
  }

  lemma ControllerStepKeepsInv(s: Sys, a: Action)
    requires Inv(s) && Enabled(s, a)
    requires a.LeaveOnQuit? || a.Continue? || a.Pause? || a.Quit? || a.CancelBackend?
    ensures Inv(Next(s, a))
  {
    SameScan(s, Next(s, a));
    if a.LeaveOnQuit? || a.Continue? {
      HeadStepKeepsLoop(s, a);
    } else {
      ControllerStepKeepsLoop(s, a);
    }
  }

  lemma DiscoverKeepsInv(s: Sys, a: Action)
    requires Inv(s) && Enabled(s, a) && a.Discover?
    ensures Inv(Next(s, a))
  {
    SameScan(s, Next(s, a));
    DiscoverConserves(s, a);
    DiscoverKeepsLoop(s, a);
  }

  /** At the head of the loop no range is outstanding, so that no claim is refused. */
  lemma NoClaimRefused(s: Sys)
    requires Inv(s)
    ensures !Enabled(s, ClaimRefused)
  {
  }

  /** Every step of the program, the workers or the controller keeps the invariant. */
  lemma StepKeepsInv(s: Sys, a: Action)
    requires Inv(s) && Enabled(s, a)
    ensures Inv(Next(s, a))
  {
    match a
    case ScanStep(_) => ScanStepKeepsInv(s, a);
    case ClaimChunk => ClaimKeepsInv(s, a);
    case ClaimRefused => NoClaimRefused(s);
    case AckPause => RequeueStepKeepsInv(s, a);
    case RequeueAndRaise => RequeueStepKeepsInv(s, a);
    case ScanReturned => ReturnKeepsInv(s, a);
    case ScanFailed => ReturnKeepsInv(s, a);
    case Release(_) => ReleaseKeepsInv(s, a);
    case LeaveOnQuit => ControllerStepKeepsInv(s, a);
    case Continue => ControllerStepKeepsInv(s, a);
    case Pause => ControllerStepKeepsInv(s, a);
    case ResetCancel => ResetKeepsInv(s);
    case Play => PlayKeepsInv(s);
    case Quit => ControllerStepKeepsInv(s, a);
    case CancelBackend => ControllerStepKeepsInv(s, a);
    case Discover(_, _) => DiscoverKeepsInv(s, a);
    case HandGap => HandKeepsInv(s, a);
    case HandEvent => HandKeepsInv(s, a);
    case HandTail => HandKeepsInv(s, a);
    case _ => EnterOrLeaveKeepsInv(s, a);
  }

  // -------------------------------------------------------------- whole runs

  ghost predicate ValidRun(s: Sys, run: seq<Action>)
    decreases |run|
  {
    run == [] || (Enabled(s, run[0]) && ValidRun(Next(s, run[0]), run[1..]))
  }

  ghost function Final(s: Sys, run: seq<Action>): Sys
    requires ValidRun(s, run)
    decreases |run|
  {
    if run == [] then s else Final(Next(s, run[0]), run[1..])
  }

  lemma {:induction false} RunKeepsInv(s: Sys, run: seq<Action>)
    requires Inv(s) && ValidRun(s, run)
    ensures Inv(Final(s, run))
    decreases |run|
  {
    if run != [] {
      StepKeepsInv(s, run[0]);
      RunKeepsInv(Next(s, run[0]), run[1..]);
    }
  }

  /**
   No path was handed out more often than it was queued, and what was handed out
   plus what a session saved now would resume with is the whole set, where only the
   paths in the hands of a callback count twice. At the head of the loop the rest is
   queued. A normal end leaves nothing pending; a failure leaves exactly the rest
   pending and claimable.
   */
  ghost predicate Accounted(s: Sys)
    requires ValidDict(s.dict) && RangeFits(s.dict, s.paths)
  {
    && multiset(s.handed) <= s.total
    && multiset(s.handed) + multiset(Queue(Restore(TakeSnapshot(s.dict), 0))) == s.total + InFlight(s)
    && (s.py.Top? && !s.quit ==> multiset(s.handed) + multiset(Queue(s.dict)) == s.total)
    && (s.py.Done? && !s.py.failed && !s.quit ==> multiset(s.handed) == s.total)
    && (s.py.Done? && s.py.failed ==> NothingClaimed(s.dict) && multiset(s.handed) + multiset(Queue(s.dict)) == s.total)
  }

  /** What a claim starts: a scan of the first unclaimed paths, no more than the configured maximum. */
  lemma ScanStartsBounded(s: Sys)
    requires Enabled(s, ClaimChunk) && s.cfg.maximum > 0
    ensures var t := Next(s, ClaimChunk);
            t.py.Scanning? ==>
              && RangeFits(t.dict, t.paths) && 0 < |Current(t)| <= s.cfg.maximum
              && Current(t) <= s.dict.extra[s.dict.extraIndex..] + s.dict.items[s.dict.index..]
              && t.scan.pathCount == |Current(t)| && t.scan.chunkSize == s.cfg.resultChunk
  {
    ClaimedIsFront(s.dict, s.cfg.maximum, s.cfg.basePath);
  }

  lemma ClaimedIsFront(d: Dict, maximum: nat, basePath: string)
    requires d.index <= |d.items| && d.extraIndex <= |d.extra| && maximum > 0
    ensures var (d', c) := ClaimNative(d, maximum, basePath);
            && d'.items == d.items && RangeFits(d', c) && |PathsOf(d.items, c)| <= maximum
            && PathsOf(d.items, c) <= d.extra[d.extraIndex..] + d.items[d.index..]
  {
    ClaimNativeTakesPrefix(d, maximum, basePath);
    var c := ClaimNative(d, maximum, basePath).1;
    if c.Range? {
      var rest := d.items[d.index..];
      assert d.extra[d.extraIndex..] + rest == rest;
      assert d.items[c.chunk.start..c.chunk.end] == rest[..c.chunk.end - d.index];
    }
  }

  /** The whole set grows by every discovery that is valid and new, and by nothing else. */
  lemma TotalOfStep(s: Sys, a: Action)
    requires Enabled(s, a)
    ensures Next(s, a).total ==
            if a.Discover? && a.isValid && a.path !in s.dict.items && a.path !in s.dict.extraMembership
            then s.total + multiset{a.path} else s.total
  {
  }

  /**
   Every path is handed to callbacks once, in every run, under every interleaving
   of workers, coordinator, pauses, discoveries and failing callbacks.
   */
  lemma EveryPathHandedOnce(cfg: Config, d: Dict, run: seq<Action>)
    requires ValidDict(d) && NothingClaimed(d) && cfg.maximum >= 1 && cfg.concurrency >= 1
    requires ValidRun(Start(cfg, d), run)
    ensures var s := Final(Start(cfg, d), run);
            && ValidDict(s.dict) && RangeFits(s.dict, s.paths) && Accounted(s)
            && (s.py.Handing? ==> s.py.from < s.py.to <= |Current(s)|)
  {
    StartInv(cfg, d);
    RunKeepsInv(Start(cfg, d), run);
    Checkpoint(Final(Start(cfg, d), run));
    HandedInBounds(Final(Start(cfg, d), run));
  }

  lemma HandedInBounds(s: Sys)
    requires Inv(s)
    ensures s.py.Handing? ==> s.py.from < s.py.to <= |Current(s)|
  {
    if s.py.Handing? {
      DeliveredChunkOk(s);
    }
  }

  /** What a session saved now resumes with is what is pending. */
  lemma SavedIsPending(s: Sys)
    requires DictInv(s) && Conserved(s)
    ensures multiset(s.handed) + multiset(Queue(Restore(TakeSnapshot(s.dict), 0))) == s.total + InFlight(s)
    ensures !s.py.Handing? ==> multiset(s.handed) + multiset(Pending(s.dict)) == s.total
    ensures NothingClaimed(s.dict) ==> Pending(s.dict) == Queue(s.dict)
  {
    RestoreKeepsPending(s.dict, 0);
    assert s.total + multiset{} == s.total;
  }

  lemma HandedWithin(s: Sys)
    requires DictInv(s) && Conserved(s) && ClaimInv(s)
    ensures multiset(s.handed) <= s.total
  {
    if s.py.Handing? {
      InFlightIsPending(s);
    }
    HandedWithinTotal(multiset(s.handed), multiset(Pending(s.dict)), s.total, InFlight(s));
  }

  lemma Checkpoint(s: Sys)
    requires DictInv(s) && Conserved(s) && ClaimInv(s)
    ensures Accounted(s)
  {
    SavedIsPending(s);
    HandedWithin(s);
    if s.py.Done? && !s.py.failed && !s.quit {
      assert multiset(s.handed) + multiset(Pending(s.dict)) == multiset(s.handed);
    }
  }

  /** Paths in the hands of a callback are still claimed. */
  lemma InFlightIsPending(s: Sys)
    requires DictInv(s) && ClaimInv(s) && s.py.Handing?
    ensures InFlight(s) <= multiset(Pending(s.dict))
  {
    if s.py.to <= |Current(s)| {
      ReleaseSpanKeepsRest(s.dict, s.paths, s.py.from, s.py.to);
    }
  }

  lemma HandedWithinTotal(h: multiset<string>, p: multiset<string>, t: multiset<string>, i: multiset<string>)
    requires h + p == t + i && i <= p
    ensures h <= t
  {
    forall x ensures h[x] <= t[x] {
      assert (h + p)[x] == (t + i)[x];
    }
  }
}
