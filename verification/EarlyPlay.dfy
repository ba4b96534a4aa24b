/**
 Which plays keep the promises of the native fuzzer (lib/core/fuzzer.py:709-712). The
 controller may play before a pause was acknowledged, when the pause timed out. It
 clears the cancel flag first, and what counts is the state in which it then sets the
 play event: in between, the scan goes on and Python still drops what it delivers.
 */
module EarlyPlay {
  import opened Wrappers
  import opened Chunks
  import opened Dictionary
  import opened NativeFuzzer
  import opened HandOrder
  import SW = ScanWorkers
  import SR = ScanReach

  // -------------------------------------------------------------- pieces of runs

  lemma {:induction false} RunThen(s: Sys, run: seq<Action>, a: Action)
    requires ValidRun(s, run) && Enabled(Final(s, run), a)
    ensures ValidRun(s, run + [a]) && Final(s, run + [a]) == Next(Final(s, run), a)
    decreases |run|
  {
    if run == [] {
      assert [] + [a] == [a] && [a][1..] == [];
    } else {
      assert (run + [a])[1..] == run[1..] + [a];
      RunThen(Next(s, run[0]), run[1..], a);
    }
  }

  lemma {:induction false} RunConcat(s: Sys, a: seq<Action>, b: seq<Action>)
    requires ValidRun(s, a) && ValidRun(Final(s, a), b)
    ensures ValidRun(s, a + b) && Final(s, a + b) == Final(Final(s, a), b)
    decreases |a|
  {
    if a == [] {
      assert a + b == b;
    } else {
      assert (a + b)[1..] == a[1..] + b;
      RunConcat(Next(s, a[0]), a[1..], b);
    }
  }

  /** A run without discoveries from s to t. */
  ghost predicate Leads(s: Sys, run: seq<Action>, t: Sys) {
    ValidRun(s, run) && Undisturbed(run) && t == Final(s, run)
  }

  lemma LeadsBy(s: Sys, a: Action)
    requires Enabled(s, a) && !a.Discover?
    ensures Leads(s, [a], Next(s, a))
  {
    RunThen(s, [], a);
    assert [] + [a] == [a];
  }

  lemma LeadsOn(s: Sys, a: seq<Action>, t: Sys, b: seq<Action>, u: Sys)
    requires Leads(s, a, t) && Leads(t, b, u)
    ensures Leads(s, a + b, u)
  {
    RunConcat(s, a, b);
  }

  lemma LeadsByTwo(s: Sys, a: Action, b: Action)
    requires Enabled(s, a) && !a.Discover? && Enabled(Next(s, a), b) && !b.Discover?
    ensures Leads(s, [a] + [b], Next(Next(s, a), b))
  {
    LeadsBy(s, a);
    LeadsBy(Next(s, a), b);
    LeadsOn(s, [a], Next(s, a), [b], Next(Next(s, a), b));
  }

  /** The steps of a scan as steps of the fuzzer. */
  function ScanActions(steps: seq<SW.Step>): (run: seq<Action>)
    ensures |run| == |steps| && forall k :: 0 <= k < |run| ==> run[k] == ScanStep(steps[k])
  {
    if steps == [] then [] else [ScanStep(steps[0])] + ScanActions(steps[1..])
  }

  lemma {:induction false} ScanLeads(s: Sys, steps: seq<SW.Step>)
    requires s.py.Scanning? && SR.PlainRun(s.scan, steps)
    requires s.dict.extraIndex <= |s.dict.extra| && s.dict.index <= |s.dict.items| && RangeFits(s.dict, s.paths)
    ensures Leads(s, ScanActions(steps), s.(scan := SW.Final(s.scan, steps)))
    decreases |steps|
  {
    if steps != [] {
      var t := s.(scan := SW.Apply(s.scan, steps[0]));
      assert forall k :: 0 <= k < |steps[1..]| ==> steps[1..][k] == steps[k + 1];
      LeadsBy(s, ScanStep(steps[0]));
      ScanLeads(t, steps[1..]);
      LeadsOn(s, [ScanStep(steps[0])], t, ScanActions(steps[1..]), s.(scan := SW.Final(s.scan, steps)));
    }
  }

  // ------------------------------------------------------- how a play can go wrong

  /** Handed out in order, the rest pending, and queued wherever the loop needs it. */
  ghost predicate Promise(s: Sys, initial: seq<string>) {
    ValidDict(s.dict) && SuffixPending(s, initial)
  }

  /** On every schedule after a play in state s the promise holds all along. */
  ghost predicate PlaysSafely(s: Sys, initial: seq<string>) {
    forall run :: ValidRun(PlayNow(s), run) && Undisturbed(run) ==> Promise(Final(PlayNow(s), run), initial)
  }

  /** The next unreleased path of the claim heads the pending list. */
  lemma PendingHead(s: Sys, initial: seq<string>, p: nat)
    requires DictInv(s) && InOrder(s, initial) && Active(s) && !s.py.Handing?
    requires Outstanding(s.dict, s.paths, s.released) && s.released < p < |Current(s)|
    ensures |s.handed| + p - s.released < |initial|
    ensures initial[|s.handed|] == Current(s)[s.released] && initial[|s.handed| + p - s.released] == Current(s)[p]
  {
    HandedSoFar(s, initial);
    var rest := Current(s)[s.released..];
    assert rest[0] == Current(s)[s.released] && rest[p - s.released] == Current(s)[p];
    assert rest <= Pending(s.dict) by {
      RestIsPending(s.dict, s.paths, s.released);
    }
    assert initial[|s.handed|] == Pending(s.dict)[0]
        && initial[|s.handed| + p - s.released] == Pending(s.dict)[p - s.released];
  }

  lemma RestIsPending(d: Dict, c: Claimed, released: nat)
    requires ValidDict(d) && Synchronous(d) && RangeFits(d, c) && Outstanding(d, c, released)
    requires c.Range? ==> d.extraIndex == |d.extra|
    ensures released <= |PathsOf(d.items, c)| && PathsOf(d.items, c)[released..] <= Pending(d)
  {
    if c.Range? {
      CorpusPending(d, Resume(d));
      SplitTail(d.items, c.chunk.start, c.chunk.end, released, c.chunk.end - c.chunk.start);
    }
  }

  /** While part of a claim is unreleased, the queue is shorter than the pending list. */
  lemma QueueIsShorter(d: Dict, c: Claimed, released: nat)
    requires ValidDict(d) && Synchronous(d) && RangeFits(d, c) && Outstanding(d, c, released)
    requires released < |PathsOf(d.items, c)|
    ensures |Queue(d)| < |Pending(d)|
  {
  }

  /** A scan that returned with paths unreleased takes the loop to its head with claims held. */
  lemma ReturnStrands(s: Sys, initial: seq<string>)
    requires DictInv(s) && InOrder(s, initial) && Enabled(s, ScanReturned) && s.play && !s.quit
    requires Outstanding(s.dict, s.paths, s.released) && s.released < |Current(s)|
    ensures Leads(s, [ScanReturned], Next(s, ScanReturned)) && !Promise(Next(s, ScanReturned), initial)
  {
    LeadsBy(s, ScanReturned);
    HandedSoFar(s, initial);
    QueueIsShorter(s.dict, s.paths, s.released);
  }

  /** Python is at the first event of a chunk with play set, and lags behind. */
  ghost predicate AtNextChunk(s: Sys) {
    && DictInv(s) && ChunkOk(s) && s.scan.pathCount == |Current(s)| && !Stop(s)
    && s.py == AtEvent(s.scan.phase.chunk.start, 0)
    && Outstanding(s.dict, s.paths, s.released) && s.released < s.scan.phase.chunk.start
  }

  /** Callbacks hold a span from the start of the chunk. */
  ghost predicate HandedOn(s: Sys, t: Sys)
    requires RangeFits(s.dict, s.paths) && s.scan.phase.Delivering?
  {
    && t.py.Handing? && t.dict == s.dict && t.paths == s.paths && t.scan == s.scan
    && t.py.from == s.scan.phase.chunk.start < t.py.to <= |Current(s)|
    && t.handed == s.handed + Current(s)[t.py.from..t.py.to]
  }

  lemma HandsGap(s: Sys, a: Action)
    requires AtNextChunk(s) && a == (if Ev(s) == [] then HandTail else HandGap)
    requires Ev(s) != [] ==> Ev(s)[0].requestIndex > s.py.next
    ensures Leads(s, [a], Next(s, a)) && HandedOn(s, Next(s, a))
  {
    LeadsBy(s, a);
  }

  lemma HandsFirst(s: Sys)
    requires AtNextChunk(s) && Ev(s) != [] && Ev(s)[0].requestIndex <= s.py.next
    ensures Enabled(s, SkipGap) && Enabled(Next(s, SkipGap), HandEvent)
    ensures HandedOn(s, Next(Next(s, SkipGap), HandEvent))
  {
  }

  lemma HandsOn(s: Sys) returns (run: seq<Action>, t: Sys)
    requires AtNextChunk(s)
    ensures Leads(s, run, t) && HandedOn(s, t)
  {
    if Ev(s) != [] && Ev(s)[0].requestIndex <= s.py.next {
      HandsFirst(s);
      LeadsByTwo(s, SkipGap, HandEvent);
      run, t := [SkipGap] + [HandEvent], Next(Next(s, SkipGap), HandEvent);
    } else {
      var a := if Ev(s) == [] then HandTail else HandGap;
      HandsGap(s, a);
      run, t := [a], Next(s, a);
    }
  }

  lemma DistinctDiffer(paths: seq<string>, i: nat, j: nat)
    requires NoRepeats(paths) && i < j < |paths|
    ensures paths[i] != paths[j]
  {
  }

  predicate NoRepeats(paths: seq<string>) {
    forall i, j :: 0 <= i < j < |paths| ==> paths[i] != paths[j]
  }

  lemma WrongNext(t: Sys, initial: seq<string>, n: nat)
    requires !t.py.Handing? && n < |t.handed| && n < |initial| && t.handed[n] != initial[n]
    ensures !Promise(t, initial)
  {
    assert t.handed[..|t.handed|] == t.handed;
  }

  lemma HandsAndReleases(s: Sys) returns (run: seq<Action>, t: Sys)
    requires AtNextChunk(s)
    ensures Leads(s, run, t) && !t.py.Handing? && |t.handed| > |s.handed|
    ensures s.scan.phase.chunk.start < |Current(s)| && t.handed[|s.handed|] == Current(s)[s.scan.phase.chunk.start]
  {
    var first, h := HandsOn(s);
    LeadsBy(h, Release(false));
    t := Next(h, Release(false));
    run := first + [Release(false)];
    LeadsOn(s, first, h, [Release(false)], t);
    ReleaseIsSettled(h, Release(false));
  }

  /** What is handed out next is not what is pending next. */
  lemma LaggingStrands(s: Sys, initial: seq<string>) returns (run: seq<Action>, t: Sys)
    requires AtNextChunk(s) && InOrder(s, initial) && NoRepeats(initial)
    ensures Leads(s, run, t) && !Promise(t, initial)
  {
    run, t := HandsAndReleases(s);
    var p := s.scan.phase.chunk.start;
    PendingHead(s, initial, p);
    DistinctDiffer(initial, |s.handed|, |s.handed| + p - s.released);
    WrongNext(t, initial, |s.handed|);
  }

  /** Python enters the callback of a delivered chunk. */
  function InNextChunk(s: Sys): Sys
    requires s.scan.phase.Delivering?
  {
    s.(py := AtEvent(s.scan.phase.chunk.start, 0))
  }

  lemma EnteringKeepsOrder(s: Sys, initial: seq<string>)
    requires DictInv(s) && InOrder(s, initial) && s.py.Scanning? && s.scan.phase.Delivering?
    ensures DictInv(InNextChunk(s)) && InOrder(InNextChunk(s), initial)
  {
    HandedSoFar(s, initial);
    SettledOrder(InNextChunk(s), initial);
  }

  lemma EntersChunk(s: Sys)
    requires DictInv(s) && ChunkOk(s) && s.py.Scanning? && !Stop(s) && s.scan.pathCount == |Current(s)|
    requires Outstanding(s.dict, s.paths, s.released) && s.released < s.scan.phase.chunk.start
    ensures Leads(s, [EnterCallback], InNextChunk(s)) && AtNextChunk(InNextChunk(s))
  {
    LeadsBy(s, EnterCallback);
  }

  lemma DeliveredStrands(s: Sys, initial: seq<string>) returns (run: seq<Action>, t: Sys)
    requires DictInv(s) && InOrder(s, initial) && ScanInv(s) && s.py.Scanning? && !Stop(s) && NoRepeats(initial)
    requires s.scan.phase.Delivering? && s.scan.pathCount == |Current(s)|
    requires Outstanding(s.dict, s.paths, s.released) && s.released < s.scan.phase.chunk.start
    ensures Leads(s, run, t) && !Promise(t, initial)
  {
    DeliveredChunkOk(s);
    EntersChunk(s);
    EnteringKeepsOrder(s, initial);
    var rest;
    rest, t := LaggingStrands(InNextChunk(s), initial);
    run := [EnterCallback] + rest;
    LeadsOn(s, [EnterCallback], InNextChunk(s), rest, t);
  }

  /** A lagging scan that has delivered its next chunk, or returned. */
  lemma WentOnStrands(s: Sys, initial: seq<string>) returns (run: seq<Action>, t: Sys)
    requires DictInv(s) && InOrder(s, initial) && ScanInv(s) && s.py.Scanning? && !Stop(s) && NoRepeats(initial)
    requires s.scan.pathCount == |Current(s)| && Outstanding(s.dict, s.paths, s.released)
    requires if s.scan.phase.Delivering? then s.released < s.scan.phase.chunk.start
             else s.scan.phase.Returned? && s.released < |Current(s)|
    ensures Leads(s, run, t) && !Promise(t, initial)
  {
    if s.scan.phase.Delivering? {
      run, t := DeliveredStrands(s, initial);
    } else {
      ReturnStrands(s, initial);
      run, t := [ScanReturned], Next(s, ScanReturned);
    }
  }

  lemma OnlyScanDiffers(s: Sys, u: SW.Scan, initial: seq<string>)
    requires DictInv(s) && InOrder(s, initial) && s.py.Scanning? && SW.SafeInv(u)
    ensures var v := s.(scan := u);
            DictInv(v) && InOrder(v, initial) && ScanInv(v) && Current(v) == Current(s) && !Stop(v) == !Stop(s)
  {
  }

  /** A scan that lags behind and goes on delivers its next chunk, or returns with paths unreleased. */
  lemma ScanningStrands(s: Sys, initial: seq<string>) returns (run: seq<Action>, t: Sys)
    requires DictInv(s) && InOrder(s, initial) && ScanInv(s) && s.py.Scanning? && !Stop(s) && NoRepeats(initial)
    requires SW.Running(s.scan) && !s.scan.phase.Delivering? && !s.scan.cancelled && !SR.Spent(s.scan)
    requires s.scan.pathCount == |Current(s)| && Outstanding(s.dict, s.paths, s.released)
    requires s.released < s.scan.chunkStart
    ensures Leads(s, run, t) && !Promise(t, initial)
  {
    var steps, u := SR.ReachesNext(s.scan);
    ScanLeads(s, steps);
    var v := s.(scan := u);
    OnlyScanDiffers(s, u, initial);
    var rest;
    rest, t := WentOnStrands(v, initial);
    run := ScanActions(steps) + rest;
    LeadsOn(s, ScanActions(steps), v, rest, t);
  }

  /** From every state in which a play strands claims, some schedule breaks the promise. */
  lemma StrandedPlayFails(s: Sys, initial: seq<string>) returns (run: seq<Action>, t: Sys)
    requires Inv(s) && InOrder(s, initial) && FlagClear(s) && Strands(s) && NoRepeats(initial)
    ensures Leads(PlayNow(s), run, t) && !Promise(t, initial)
  {
    var q := PlayNow(s);
    assert DictInv(q) && InOrder(q, initial) && ScanInv(q);
    if s.scan.phase.Returned? {
      ReturnStrands(q, initial);
      run, t := [ScanReturned], Next(q, ScanReturned);
    } else if InCallback(s) {
      DeliveredChunkOk(q);
      run, t := LaggingStrands(q, initial);
    } else if s.scan.phase.Delivering? {
      run, t := DeliveredStrands(q, initial);
    } else {
      run, t := ScanningStrands(q, initial);
    }
  }

  /** A play that strands nothing keeps the promise on every schedule. */
  lemma SafePlayKeeps(s: Sys, initial: seq<string>)
    requires Inv(s) && InOrder(s, initial) && !s.py.Done? && FlagClear(s) && !Strands(s)
    ensures PlaysSafely(s, initial)
  {
    KeptInOrder(s, Play, initial);
    forall run | ValidRun(PlayNow(s), run) && Undisturbed(run)
      ensures Promise(Final(PlayNow(s), run), initial)
    {
      RunKeepsOrder(PlayNow(s), run, initial);
      OrderMeansSuffix(Final(PlayNow(s), run), initial);
    }
  }

  /**
   In every state of every run in which play() has cleared the flag, the pause being
   acknowledged or not: setting the play event keeps the promise on all schedules
   from there exactly if it strands nothing.
   */
  lemma PlaysSafelyExactly(cfg: Config, d: Dict, before: seq<Action>, s: Sys)
    requires ValidDict(d) && NothingClaimed(d) && cfg.maximum >= 1 && cfg.concurrency >= 1 && NoRepeats(Queue(d))
    requires Leads(Start(cfg, d), before, s) && !s.py.Done? && FlagClear(s)
    ensures PlaysSafely(s, Queue(d)) <==> !Strands(s)
  {
    StartInv(cfg, d);
    StartsInOrder(cfg, d);
    RunKeepsOrder(Start(cfg, d), before, Queue(d));
    if Strands(s) {
      var run, t := StrandedPlayFails(s, Queue(d));
    } else {
      SafePlayKeeps(s, Queue(d));
    }
  }

  /** Between the two stores of play(), Python drops the last chunk of the scan: setting the event then strands it. */
  lemma DroppedChunkStrands(s: Sys)
    requires Enabled(s, StopChunk) && !s.quit && FlagClear(s) && s.py.AtEvent? && s.released == s.py.next
    requires s.py.next < s.scan.phase.chunk.end == s.scan.chunkStart == s.scan.pathCount
    ensures !Strands(s) && FlagClear(Next(s, StopChunk)) && Strands(Next(s, StopChunk))
  {
    assert Position(s) == s.released;
  }

  // ---------------------------------------------------------- how such runs end

  /**
   When everything is claimed and the scan of a list has returned, a play makes the
   fuzzer end normally with the rest of the list pending: it ends as it promises
   exactly if the scan had already released all of it.
   */
  lemma EarlyPlayEndsShort(s: Sys) returns (u: Sys)
    requires ValidDict(s.dict) && Enabled(s, ScanReturned) && !s.quit && s.paths.Paths?
    requires Outstanding(s.dict, s.paths, s.released) && Queue(s.dict) == []
    ensures Leads(PlayNow(s), [ScanReturned] + [ClaimChunk], u)
    ensures u.py == Done(false) && !u.quit && ValidDict(u.dict)
    ensures u.handed == s.handed && Pending(u.dict) == Current(s)[s.released..]
    ensures Pending(u.dict) == [] <==> s.released == |Current(s)|
  {
    var t := Next(PlayNow(s), ScanReturned);
    assert t.dict.extra[t.dict.extraIndex..] == [] && t.dict.items[t.dict.index..] == [];
    NothingToClaim(t.dict, s.cfg.maximum, s.cfg.basePath);
    u := Next(t, ClaimChunk);
    LeadsByTwo(PlayNow(s), ScanReturned, ClaimChunk);
    assert Pending(s.dict) == Current(s)[s.released..];
  }

  lemma NothingToClaim(d: Dict, maximum: int, basePath: string)
    requires ValidDict(d) && Queue(d) == [] && d.nativeClaim.None?
    ensures ClaimNative(d, maximum, basePath) == (d, Paths([]))
  {
    assert Queue(d)[..0] == [];
    assert |Queue(d)| == (|d.extra| - d.extraIndex) + (|d.items| - d.index);
    if maximum > 0 {
      assert ClaimEach(d, maximum) == d;
    }
  }

  /**
   When the scan of a range has returned with paths unreleased, a play makes the next
   claim raise, and the rest of the range is not queued again.
   */
  lemma EarlyPlayRefused(s: Sys) returns (u: Sys)
    requires DictInv(s) && Enabled(s, ScanReturned) && !s.quit && s.cfg.maximum >= 1
    requires s.paths.Range? && Outstanding(s.dict, s.paths, s.released) && s.released < |Current(s)|
    ensures Leads(PlayNow(s), [ScanReturned] + [ClaimRefused], u) && u.py == Done(true) && DictInv(u)
    ensures u.handed == s.handed && Pending(u.dict) == Pending(s.dict) && |Queue(u.dict)| < |Pending(u.dict)|
  {
    u := Next(Next(PlayNow(s), ScanReturned), ClaimRefused);
    LeadsByTwo(PlayNow(s), ScanReturned, ClaimRefused);
    QueueIsShorter(s.dict, s.paths, s.released);
  }

  // ------------------------------------------------------------- two runs in full

  /** A dictionary that holds just one path. */
  function OnePath(path: string): Dict {
    Dict([path], false, 0, [], 0, {}, [], None, 0)
  }

  /** The only path is claimed and its scan has just started. */
  function ScanStarted(cfg: Config, path: string): Sys {
    Start(cfg, OnePath(path)).(
      dict := OnePath(path).(index := 1, claimed := [path]), paths := Paths([path]), py := Scanning,
      scan := SW.Init(1, cfg.concurrency, cfg.resultChunk, false))
  }

  lemma ClaimTheOne(cfg: Config, path: string)
    requires cfg.maximum >= 1
    ensures Queue(OnePath(path)) == [path]
    ensures ClaimNative(OnePath(path), cfg.maximum, cfg.basePath) ==
            (OnePath(path).(index := 1, claimed := [path]), Paths([path]))
  {
    var d := OnePath(path);
    assert d.extra[d.extraIndex..] == [] && d.items[d.index..] == [path];
    assert Queue(d) == [path] && Queue(d)[..1] == [path];
    var d' := ClaimOne(d);
    assert d'.claimed == [path];
    assert Queue(d') == [];
    assert ClaimEach(d, cfg.maximum) == ClaimEach(d', cfg.maximum - 1) == d';
  }

  lemma ClaimThenPause(cfg: Config, path: string)
    requires cfg.maximum >= 1 && cfg.concurrency >= 1
    ensures Leads(Start(cfg, OnePath(path)), [ClaimChunk] + [Pause], ScanStarted(cfg, path).(play := false))
  {
    var start := Start(cfg, OnePath(path));
    ClaimTheOne(cfg, path);
    assert Next(start, ClaimChunk) == ScanStarted(cfg, path);
    LeadsByTwo(start, ClaimChunk, Pause);
  }

  /** A pause, and the scan sees its cancellation. */
  lemma PausedScan(cfg: Config, path: string) returns (run: seq<Action>, t: Sys)
    requires cfg.maximum >= 1 && cfg.concurrency >= 1
    ensures Leads(Start(cfg, OnePath(path)), run, t)
    ensures t == ScanStarted(cfg, path).(play := false, cancelRequested := true,
                                         scan := SW.Init(1, cfg.concurrency, cfg.resultChunk, true))
  {
    var u := ScanStarted(cfg, path).(play := false);
    ClaimThenPause(cfg, path);
    LeadsByTwo(u, CancelBackend, ScanStep(SW.Cancel));
    t := Next(Next(u, CancelBackend), ScanStep(SW.Cancel));
    run := [ClaimChunk] + [Pause] + ([CancelBackend] + [ScanStep(SW.Cancel)]);
    LeadsOn(Start(cfg, OnePath(path)), [ClaimChunk] + [Pause], u, [CancelBackend] + [ScanStep(SW.Cancel)], t);
  }

  /** The scan returns, and play() clears the flag before the pause is acknowledged. */
  lemma ReturnedScan(cfg: Config, path: string) returns (run: seq<Action>, s: Sys)
    requires cfg.maximum >= 1 && cfg.concurrency >= 1
    ensures Leads(Start(cfg, OnePath(path)), run, s)
    ensures s == ScanStarted(cfg, path).(play := false, scan := SW.Init(1, cfg.concurrency, cfg.resultChunk, true).(
                                                          phase := SW.Returned(0)))
  {
    var first, t := PausedScan(cfg, path);
    LeadsByTwo(t, ScanStep(SW.ReturnCancelled), ResetCancel);
    s := Next(Next(t, ScanStep(SW.ReturnCancelled)), ResetCancel);
    run := first + ([ScanStep(SW.ReturnCancelled)] + [ResetCancel]);
    LeadsOn(Start(cfg, OnePath(path)), first, t, [ScanStep(SW.ReturnCancelled)] + [ResetCancel], s);
  }

  /** The play event is set then: the fuzzer ends normally and the path was never handed out. */
  lemma EarlyPlayLosesPath(cfg: Config, path: string) returns (run: seq<Action>, s: Sys, u: Sys)
    requires cfg.maximum >= 1 && cfg.concurrency >= 1
    ensures Leads(Start(cfg, OnePath(path)), run, s) && FlagClear(s) && Strands(s)
    ensures Leads(PlayNow(s), [ScanReturned] + [ClaimChunk], u) && u.py == Done(false) && !u.quit
    ensures u.handed == [] && ValidDict(u.dict) && Pending(u.dict) == [path]
  {
    run, s := ReturnedScan(cfg, path);
    assert s.dict.extra[s.dict.extraIndex..] == [] && s.dict.items[s.dict.index..] == [];
    u := EarlyPlayEndsShort(s);
    assert Current(s)[0..] == [path];
  }

  /** The worker stops, and a play clears the flag before the coordinator reads it. */
  lemma WorkerStopped(cfg: Config, path: string) returns (run: seq<Action>, t: Sys)
    requires cfg.maximum >= 1 && cfg.concurrency >= 1
    ensures Leads(Start(cfg, OnePath(path)), run, t)
    ensures t == ScanStarted(cfg, path).(scan := SW.Init(1, cfg.concurrency, cfg.resultChunk, false).(
                                           workers := [SW.Finished], stoppedEarly := true))
  {
    var first, s := PausedScan(cfg, path);
    LeadsByTwo(s, ScanStep(SW.Stop(0)), ResetCancel);
    var u := Next(Next(s, ScanStep(SW.Stop(0))), ResetCancel);
    LeadsBy(u, Play);
    t := Next(u, Play);
    LeadsOn(s, [ScanStep(SW.Stop(0))] + [ResetCancel], u, [Play], t);
    run := first + ([ScanStep(SW.Stop(0))] + [ResetCancel] + [Play]);
    LeadsOn(Start(cfg, OnePath(path)), first, s, [ScanStep(SW.Stop(0))] + [ResetCancel] + [Play], t);
  }

  /** The scan without its only worker falls short. */
  lemma FallsShort(s: SW.Scan) returns (steps: seq<SW.Step>)
    requires SW.AtHead(s) && !s.cancelled && SW.AllFinished(s)
    requires s.pathCount == 1 && s.chunkStart == s.nextIndex == 0 && s.completed == [false]
    ensures SR.PlainRun(s, steps) && SW.Final(s, steps).phase.Failed?
  {
    var s1 := SW.Apply(s, SW.StartFlush);
    var s2 := SW.Apply(s1, SW.StartTake(true));
    var s3 := SW.Apply(s2, SW.StopReading);
    SR.PlainThen(s3, SW.Cut, []);
    SR.PlainThen(s2, SW.StopReading, [SW.Cut] + []);
    SR.PlainThen(s1, SW.StartTake(true), [SW.StopReading] + ([SW.Cut] + []));
    steps := [SW.StartFlush] + ([SW.StartTake(true)] + ([SW.StopReading] + ([SW.Cut] + [])));
    SR.PlainThen(s, SW.StartFlush, [SW.StartTake(true)] + ([SW.StopReading] + ([SW.Cut] + [])));
  }

  /** The shortfall error leaves the native scan, and the claims are requeued. */
  lemma ShortfallRaises(s: Sys) returns (run: seq<Action>, u: Sys)
    requires s.dict.extraIndex <= |s.dict.extra| && s.dict.index <= |s.dict.items| && RangeFits(s.dict, s.paths)
    requires s.py.Scanning? && SW.AtHead(s.scan) && !s.scan.cancelled && SW.AllFinished(s.scan)
    requires s.scan.pathCount == 1 && s.scan.chunkStart == s.scan.nextIndex == 0 && s.scan.completed == [false]
    ensures Leads(s, run, u) && u.py == Done(true) && u.handed == s.handed && u.dict == Requeue(s.dict)
  {
    var steps := FallsShort(s.scan);
    ScanLeads(s, steps);
    var t := s.(scan := SW.Final(s.scan, steps));
    LeadsByTwo(t, ScanFailed, RequeueAndRaise);
    u := Next(Next(t, ScanFailed), RequeueAndRaise);
    run := ScanActions(steps) + ([ScanFailed] + [RequeueAndRaise]);
    LeadsOn(s, ScanActions(steps), t, [ScanFailed] + [RequeueAndRaise], u);
  }

  /**
   A play that strands nothing can still end the fuzzer: the scan misses the path of
   the stopped worker and raises its shortfall error. The path is queued again.
   */
  lemma EarlyPlayCanFail(cfg: Config, path: string) returns (run: seq<Action>, u: Sys)
    requires cfg.maximum >= 1 && cfg.concurrency >= 1
    ensures Leads(Start(cfg, OnePath(path)), run, u) && u.py == Done(true)
    ensures u.handed == [] && ValidDict(u.dict) && Queue(u.dict) == [path]
  {
    var first, s := WorkerStopped(cfg, path);
    var rest;
    rest, u := ShortfallRaises(s);
    run := first + rest;
    LeadsOn(Start(cfg, OnePath(path)), first, s, rest, u);
    OnePathRequeued(s.dict, path);
  }

  lemma OnePathRequeued(d: Dict, path: string)
    requires d == OnePath(path).(index := 1, claimed := [path])
    ensures ValidDict(Requeue(d)) && Queue(Requeue(d)) == [path]
  {
    var r := Requeue(d);
    assert r.extra == [path];
    assert Queue(r) == [path] + [];
  }
}
