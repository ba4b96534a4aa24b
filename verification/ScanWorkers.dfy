/**
 One native scan under every interleaving (native/src/scan.rs, native/src/chunks.rs).

 Worker tasks take indexes from a shared counter, insert actionable results in a
 locked map and then raise a per-index flag. The coordinator reads one flag at a
 time, drains the map under the lock and hands out chunks. Each constructor of
 Step is one atomic action; a run is any sequence of enabled steps.
 */
module ScanWorkers {
  import opened Wrappers
  import opened Chunks

  datatype Worker = Ready | Claimed(index: nat) | Publishing(index: nat) | Finished

  datatype Phase =
    | Idle
    | Reading(force: bool)
    | Draining(force: bool)
    | Cutting(force: bool)
    | Delivering(chunk: Chunk)
    | Returned(count: nat)
    | Failed

  datatype Scan = Scan(
    pathCount: nat,
    chunkSize: nat,
    // shared with the workers
    nextRequest: nat,
    workers: seq<Worker>,
    cancelled: bool,
    completed: seq<bool>,
    pendingResults: map<nat, ScanResult>,
    // coordinator
    phase: Phase,
    chunkStart: nat,
    nextIndex: nat,
    firstNewIndex: nat,
    readyResults: seq<ScanResult>,
    taking: Option<bool>, // past the cancel flag, taking chunks until none is due, by force or not
    flushing: bool,
    // history
    outcomes: Outcomes,
    delivered: seq<Chunk>,
    stoppedEarly: bool
  )

  datatype Step =
    | Claim(w: nat)
    | Decide(w: nat, result: ScanResult)
    | Publish(w: nat)
    | Stop(w: nat)
    | Cancel
    | Look(force: bool)
    | StartTake(force: bool)
    | ReadFlag
    | StopReading
    | Drain
    | Cut
    | Accept
    | StartFlush
    | ReturnCancelled
    | Fail

  function Init(pathCount: nat, concurrency: nat, chunkSize: nat, cancelled: bool): Scan {
    Scan(pathCount, chunkSize,
         0, seq(Min(concurrency, pathCount), _ => Ready), cancelled, seq(pathCount, _ => false), map[],
         if pathCount == 0 then Returned(0) else Idle, 0, 0, 0, [], None, false,
         map[], [], false)
  }

  predicate Running(s: Scan) {
    !s.phase.Returned? && !s.phase.Failed?
  }

  predicate IsWorkerStep(step: Step) {
    step.Claim? || step.Decide? || step.Publish? || step.Stop?
  }

  predicate FlagSeen(s: Scan) {
    s.nextIndex < s.pathCount && s.nextIndex < |s.completed| && s.completed[s.nextIndex]
  }

  /** The coordinator is about to read the cancel flag, in or after its loop over tasks. */
  predicate AtHead(s: Scan) {
    s.phase.Idle? && s.taking.None? && !s.flushing
  }

  predicate Enabled(s: Scan, step: Step) {
    Running(s) &&
    match step
    case Claim(w) => w < |s.workers| && s.workers[w].Ready?
    case Decide(w, result) =>
      w < |s.workers| && s.workers[w].Claimed? && result.requestIndex == s.workers[w].index
    case Publish(w) =>
      w < |s.workers| && s.workers[w].Publishing? && s.workers[w].index < |s.completed|
    case Stop(w) => w < |s.workers| && s.cancelled && (s.workers[w].Ready? || s.workers[w].Claimed?)
    case Cancel => true
    case Look(_) => AtHead(s) && !s.cancelled
    case StartTake(force) => s.phase.Idle? && if s.flushing then force else s.taking == Some(force)
    case ReadFlag => s.phase.Reading? && FlagSeen(s)
    case StopReading => s.phase.Reading? && !FlagSeen(s)
    case Drain => s.phase.Draining?
    case Cut => s.phase.Cutting? && s.chunkStart <= s.nextIndex
    case Accept => s.phase.Delivering?
    case StartFlush =>
      && AtHead(s) && !s.cancelled
      && forall w :: 0 <= w < |s.workers| ==> s.workers[w].Finished?
    case ReturnCancelled => AtHead(s) && s.cancelled
    case Fail => (s.phase.Idle? && !s.flushing) || s.phase.Delivering?
  }

  /** The results the drain finds at lo..hi. */
  function Drained(pending: map<nat, ScanResult>, lo: nat, hi: nat): seq<ScanResult> {
    if hi <= lo then [] else
    Drained(pending, lo, hi - 1) + if hi - 1 in pending then [pending[hi - 1]] else []
  }

  /** The longest prefix of results below end. */
  function Below(results: seq<ScanResult>, end: nat): (r: seq<ScanResult>)
    ensures r <= results
  {
    if |results| > 0 && results[0].requestIndex < end then [results[0]] + Below(results[1..], end) else []
  }

  /** Whether the coordinator cuts a chunk now or ends the take. */
  predicate Due(s: Scan)
    requires s.phase.Cutting? && s.chunkStart <= s.nextIndex
  {
    var readyCount := s.nextIndex - s.chunkStart;
    readyCount != 0 && (s.phase.force || readyCount >= Max(s.chunkSize, 1))
  }

  function NextChunk(s: Scan): (c: Chunk)
    requires s.chunkStart <= s.nextIndex
    ensures c.results <= s.readyResults
  {
    var end := s.chunkStart + Min(s.nextIndex - s.chunkStart, Max(s.chunkSize, 1));
    Chunk(s.chunkStart, end, Below(s.readyResults, end))
  }

  /** Everything handed over so far, including the chunk being delivered. */
  function HandedOver(s: Scan): seq<Chunk> {
    if s.phase.Delivering? then s.delivered + [s.phase.chunk] else s.delivered
  }

  function Apply(s: Scan, step: Step): Scan
    requires Enabled(s, step)
  {
    match step
    case Claim(w) =>
      var i := s.nextRequest;
      s.(nextRequest := i + 1,
         workers := s.workers[w := if i < s.pathCount then Claimed(i) else Finished])
    case Decide(w, result) =>
      var i := s.workers[w].index;
      s.(workers := s.workers[w := Publishing(i)],
         pendingResults := match Compact(result)
                           case Some(r) => s.pendingResults[i := r]
                           case None => s.pendingResults,
         outcomes := s.outcomes[i := Compact(result)])
    case Publish(w) =>
      s.(workers := s.workers[w := Ready], completed := s.completed[s.workers[w].index := true])
    case Stop(w) =>
      s.(workers := s.workers[w := Finished], stoppedEarly := true)
    case Cancel => s.(cancelled := true)
    case Look(force) => s.(taking := Some(force))
    case StartTake(force) => s.(phase := Reading(force), firstNewIndex := s.nextIndex)
    case ReadFlag => s.(nextIndex := s.nextIndex + 1)
    case StopReading =>
      s.(phase := if s.nextIndex == s.firstNewIndex then Cutting(s.phase.force) else Draining(s.phase.force))
    case Drain =>
      s.(phase := Cutting(s.phase.force),
         readyResults := s.readyResults + Drained(s.pendingResults, s.firstNewIndex, s.nextIndex),
         pendingResults := map i | i in s.pendingResults && !(s.firstNewIndex <= i < s.nextIndex)
                             :: s.pendingResults[i])
    case Cut =>
      if !Due(s) then
        s.(taking := None,
           phase := if !s.flushing then Idle
                    else if s.chunkStart == s.pathCount then Returned(s.chunkStart) else Failed)
      else
        var chunk := NextChunk(s);
        s.(phase := Delivering(chunk), chunkStart := chunk.end, readyResults := s.readyResults[|chunk.results|..])
    case Accept => s.(phase := Idle, delivered := s.delivered + [s.phase.chunk])
    case StartFlush => s.(flushing := true)
    case ReturnCancelled => s.(phase := Returned(s.chunkStart))
    case Fail => s.(phase := Failed, delivered := HandedOver(s))
  }

  // ---------------------------------------------------------------- counting

  function Sum(ws: seq<Worker>, f: Worker -> nat): nat {
    if ws == [] then 0 else f(ws[0]) + Sum(ws[1..], f)
  }

  lemma {:induction false} SumUpdate(ws: seq<Worker>, w: nat, x: Worker, f: Worker -> nat)
    requires w < |ws|
    ensures Sum(ws[w := x], f) == Sum(ws, f) - f(ws[w]) + f(x)
  {
    if w == 0 {
      assert ws[0 := x][1..] == ws[1..];
    } else {
      assert ws[w := x][1..] == ws[1..][w - 1 := x];
      SumUpdate(ws[1..], w - 1, x, f);
    }
  }

  lemma {:induction false} SumBound(ws: seq<Worker>, f: Worker -> nat, bound: nat)
    requires forall x :: f(x) <= bound
    ensures Sum(ws, f) <= bound * |ws|
  {
    if ws != [] {
      SumBound(ws[1..], f, bound);
    }
  }

  const IsFinished: Worker -> nat := (x: Worker) => if x.Finished? then 1 else 0

  // Work a worker still has to do before its next claim.
  const Rank: Worker -> nat :=
    (x: Worker) => if x.Finished? then 0 else if x.Ready? then 1 else if x.Publishing? then 2 else 3

  /** Every worker step lowers this measure. */
  function WorkLeft(s: Scan): int {
    3 * (s.pathCount + |s.workers| - s.nextRequest) + Sum(s.workers, Rank)
  }

  // -------------------------------------------------------------- invariants

  predicate Busy(x: Worker) {
    x.Claimed? || x.Publishing?
  }

  /** Indexes below this bound have left the shared map. */
  function DrainedTo(s: Scan): nat {
    if s.phase.Reading? || s.phase.Draining? then s.firstNewIndex else s.nextIndex
  }

  ghost predicate WorkersInv(s: Scan) {
    && |s.completed| == s.pathCount
    && SelfIndexed(s.outcomes)
    && s.nextRequest <= s.pathCount + Sum(s.workers, IsFinished)
    && (forall w :: 0 <= w < |s.workers| && Busy(s.workers[w]) ==>
                      && s.workers[w].index < s.pathCount && s.workers[w].index < s.nextRequest
                      && !s.completed[s.workers[w].index]
                      && (s.workers[w].Publishing? <==> s.workers[w].index in s.outcomes))
    && (forall v, w :: 0 <= v < w < |s.workers| && Busy(s.workers[v]) && Busy(s.workers[w]) ==>
                         s.workers[v].index != s.workers[w].index)
    && (forall i :: i in s.outcomes ==> i < s.pathCount && i < s.nextRequest)
    && (forall i :: 0 <= i < s.pathCount && s.completed[i] ==> i in s.outcomes)
  }

  ghost predicate Held(workers: seq<Worker>, i: nat) {
    exists w :: 0 <= w < |workers| && Busy(workers[w]) && workers[w].index == i
  }

  /** Unless a worker was told to stop, no claimed index is ever lost. */
  ghost predicate CoverageInv(s: Scan) {
    && (s.stoppedEarly ==> s.cancelled)
    && (!s.stoppedEarly ==>
          && (forall i: nat :: i < s.pathCount && i < s.nextRequest && i < |s.completed| ==>
              s.completed[i] || Held(s.workers, i))
          && (forall w :: 0 <= w < |s.workers| && s.workers[w].Finished? ==> s.pathCount <= s.nextRequest))
    && (s.flushing ==> !s.stoppedEarly && forall w :: 0 <= w < |s.workers| ==> s.workers[w].Finished?)
  }

  ghost predicate CoordinatorInv(s: Scan) {
    && |s.completed| == s.pathCount
    && s.chunkStart <= DrainedTo(s) <= s.nextIndex <= s.pathCount
    && (forall i :: 0 <= i < s.nextIndex ==> s.completed[i])
    && s.pendingResults == PendingFrom(s.outcomes, DrainedTo(s))
    && s.readyResults == Actionable(s.outcomes, s.chunkStart, DrainedTo(s))
    && (s.phase.Returned? ==> s.phase.count == s.chunkStart && (s.cancelled || s.chunkStart == s.pathCount))
    && (s.phase.Draining? ==> s.firstNewIndex < s.nextIndex)
    && (s.phase.Delivering? ==>
          var c := s.phase.chunk;
          c.start < c.end == s.chunkStart && c.results == Actionable(s.outcomes, c.start, c.end))
  }

  /** Chunks are non-empty, at most size long, and tile 0..end without gap or overlap. */
  ghost predicate Tiles(chunks: seq<Chunk>, end: nat, size: nat) {
    if chunks == [] then end == 0 else
    var last := chunks[|chunks| - 1];
    && last.end == end
    && last.start < last.end <= last.start + size
    && Tiles(chunks[..|chunks| - 1], last.start, size)
  }

  function AllResults(chunks: seq<Chunk>): seq<ScanResult> {
    if chunks == [] then [] else AllResults(chunks[..|chunks| - 1]) + chunks[|chunks| - 1].results
  }

  ghost predicate DeliveryInv(s: Scan) {
    && Tiles(HandedOver(s), s.chunkStart, Max(s.chunkSize, 1))
    && AllResults(HandedOver(s)) == Actionable(s.outcomes, 0, s.chunkStart)
  }

  predicate AllFinished(s: Scan) {
    forall w :: 0 <= w < |s.workers| ==> s.workers[w].Finished?
  }

  /** While flushing the workers are done, every take is forced, and it reads every raised flag. */
  predicate FlushInv(s: Scan) {
    s.flushing ==>
      && AllFinished(s)
      && (s.phase.Reading? ==> s.phase.force)
      && (s.phase.Draining? || s.phase.Cutting? ==> s.phase.force && !FlagSeen(s))
  }

  /** What holds even if the cancellation a worker acted on is taken back while the scan runs. */
  ghost predicate SafeInv(s: Scan) {
    && |s.workers| >= 1
    && WorkersInv(s)
    && CoordinatorInv(s)
    && DeliveryInv(s)
    && FlushInv(s)
  }

  ghost predicate Inv(s: Scan) {
    SafeInv(s) && CoverageInv(s)
  }

  lemma InitInv(pathCount: nat, concurrency: nat, chunkSize: nat, cancelled: bool)
    requires concurrency >= 1 && pathCount >= 1
    ensures Inv(Init(pathCount, concurrency, chunkSize, cancelled))
  {
  }

  // Below the frontier of the coordinator, outcomes are settled.
  lemma OutcomesFrame(s: Scan, i: nat, r: Option<ScanResult>)
    requires CoordinatorInv(s)
    requires i !in s.outcomes && i < s.pathCount && !s.completed[i]
    ensures DrainedTo(s) <= i
    ensures Actionable(s.outcomes[i := r], s.chunkStart, DrainedTo(s)) ==
              Actionable(s.outcomes, s.chunkStart, DrainedTo(s))
    ensures Actionable(s.outcomes[i := r], 0, s.chunkStart) == Actionable(s.outcomes, 0, s.chunkStart)
    ensures s.phase.Delivering? ==>
              Actionable(s.outcomes[i := r], s.phase.chunk.start, s.chunkStart) ==
                  Actionable(s.outcomes, s.phase.chunk.start, s.chunkStart)
  {
    if s.phase.Delivering? {
      ActionableFrame(s.outcomes, s.outcomes[i := r], s.phase.chunk.start, s.chunkStart);
    }
    ActionableFrame(s.outcomes, s.outcomes[i := r], s.chunkStart, DrainedTo(s));
    ActionableFrame(s.outcomes, s.outcomes[i := r], 0, s.chunkStart);
  }

  lemma {:induction false} DrainedIsActionable(o: Outcomes, lo: nat, hi: nat)
    ensures Drained(PendingFrom(o, lo), lo, hi) == Actionable(o, lo, hi)
    decreases hi
  {
    if lo < hi {
      DrainedIsActionable(o, lo, hi - 1);
    }
  }

  lemma {:induction false} BelowConcat(front: seq<ScanResult>, back: seq<ScanResult>, end: nat)
    requires forall k :: 0 <= k < |front| ==> front[k].requestIndex < end
    requires forall k :: 0 <= k < |back| ==> end <= back[k].requestIndex
    ensures Below(front + back, end) == front
  {
    if front == [] {
      assert front + back == back;
    } else {
      assert (front + back)[1..] == front[1..] + back;
      BelowConcat(front[1..], back, end);
    }
  }

  lemma BelowIsActionable(o: Outcomes, lo: nat, mid: nat, hi: nat)
    requires SelfIndexed(o) && lo <= mid <= hi
    ensures Below(Actionable(o, lo, hi), mid) == Actionable(o, lo, mid)
    ensures Actionable(o, lo, hi)[|Actionable(o, lo, mid)|..] == Actionable(o, mid, hi)
  {
    ActionableSplit(o, lo, mid, hi);
    ActionableOrdered(o, lo, mid);
    ActionableOrdered(o, mid, hi);
    BelowConcat(Actionable(o, lo, mid), Actionable(o, mid, hi), mid);
  }

  lemma HandedOverGrows(chunks: seq<Chunk>, c: Chunk, end: nat, size: nat)
    requires Tiles(chunks, c.start, size) && c.start < c.end <= c.start + size && c.end == end
    ensures Tiles(chunks + [c], end, size)
    ensures AllResults(chunks + [c]) == AllResults(chunks) + c.results
  {
    assert (chunks + [c])[..|chunks|] == chunks;
  }

  lemma ClaimKeepsWorkers(s: Scan, step: Step)
    requires WorkersInv(s) && Enabled(s, step) && step.Claim?
    ensures WorkersInv(Apply(s, step))
  {
    SumUpdate(s.workers, step.w, Apply(s, step).workers[step.w], IsFinished);
  }

  lemma DecideKeepsWorkers(s: Scan, step: Step)
    requires WorkersInv(s) && Enabled(s, step) && step.Decide?
    ensures WorkersInv(Apply(s, step))
  {
    SumUpdate(s.workers, step.w, Apply(s, step).workers[step.w], IsFinished);
  }

  lemma PublishOrStopKeepsWorkers(s: Scan, step: Step)
    requires WorkersInv(s) && Enabled(s, step) && (step.Publish? || step.Stop?)
    ensures WorkersInv(Apply(s, step))
  {
    SumUpdate(s.workers, step.w, Apply(s, step).workers[step.w], IsFinished);
  }

  /** A claimed index that is not complete is still held after the step. */
  lemma StaysHeld(s: Scan, step: Step, i: nat)
    requires WorkersInv(s) && Enabled(s, step) && IsWorkerStep(step) && !step.Stop?
    requires i < s.pathCount && i < Apply(s, step).nextRequest && !Apply(s, step).completed[i]
    requires i < s.nextRequest ==> Held(s.workers, i)
    ensures Held(Apply(s, step).workers, i)
  {
    var ws := Apply(s, step).workers;
    if i == s.nextRequest {
      assert Busy(ws[step.w]) && ws[step.w].index == i;
    } else {
      var w :| 0 <= w < |s.workers| && Busy(s.workers[w]) && s.workers[w].index == i;
      assert Busy(ws[w]) && ws[w].index == i;
    }
  }

  lemma WorkerStepKeepsCoverage(s: Scan, step: Step)
    requires WorkersInv(s) && CoverageInv(s) && Enabled(s, step) && IsWorkerStep(step)
    ensures CoverageInv(Apply(s, step))
  {
    if !step.Stop? && !s.stoppedEarly {
      var t := Apply(s, step);
      forall i: nat | i < t.pathCount && i < t.nextRequest && i < |t.completed| && !t.completed[i]
        ensures Held(t.workers, i)
      {
        StaysHeld(s, step, i);
      }
    }
  }

  lemma DecideKeepsSafe(s: Scan, step: Step)
    requires SafeInv(s) && Enabled(s, step) && step.Decide?
    ensures SafeInv(Apply(s, step))
  {
    DecideKeepsWorkers(s, step);
    var i := s.workers[step.w].index;
    OutcomesFrame(s, i, Compact(step.result));
    PendingPush(s.outcomes, i, Compact(step.result), DrainedTo(s));
  }

  lemma WorkerStepKeepsSafe(s: Scan, step: Step)
    requires SafeInv(s) && Enabled(s, step) && IsWorkerStep(step)
    ensures SafeInv(Apply(s, step))
  {
    if step.Claim? {
      ClaimKeepsWorkers(s, step);
    } else if step.Decide? {
      DecideKeepsSafe(s, step);
    } else {
      PublishOrStopKeepsWorkers(s, step);
    }
  }

  lemma DrainKeepsDelivery(s: Scan, step: Step)
    requires SafeInv(s) && Enabled(s, step) && step.Drain?
    ensures CoordinatorInv(Apply(s, step)) && DeliveryInv(Apply(s, step))
  {
    DrainedIsActionable(s.outcomes, s.firstNewIndex, s.nextIndex);
    ActionableSplit(s.outcomes, s.chunkStart, s.firstNewIndex, s.nextIndex);
  }

  lemma NextChunkIsExact(s: Scan)
    requires SelfIndexed(s.outcomes)
    requires s.phase.Cutting? && s.chunkStart <= s.nextIndex && Due(s)
    requires s.readyResults == Actionable(s.outcomes, s.chunkStart, s.nextIndex)
    ensures var c := NextChunk(s);
            && s.chunkStart == c.start < c.end <= s.nextIndex
            && c.end <= c.start + Max(s.chunkSize, 1)
            && c.results == Actionable(s.outcomes, c.start, c.end)
            && s.readyResults[|c.results|..] == Actionable(s.outcomes, c.end, s.nextIndex)
            && Actionable(s.outcomes, 0, c.end) == Actionable(s.outcomes, 0, c.start) + c.results
  {
    var end := NextChunk(s).end;
    BelowIsActionable(s.outcomes, s.chunkStart, end, s.nextIndex);
    ActionableSplit(s.outcomes, 0, s.chunkStart, end);
  }

  /** A cut that finds a chunk due hands out exactly its results. */
  lemma CutDelivers(s: Scan, step: Step)
    requires WorkersInv(s) && CoordinatorInv(s) && DeliveryInv(s) && Enabled(s, step) && step.Cut? && Due(s)
    ensures DeliveryInv(Apply(s, step))
  {
    NextChunkIsExact(s);
    HandedOverGrows(s.delivered, NextChunk(s), NextChunk(s).end, Max(s.chunkSize, 1));
    assert HandedOver(Apply(s, step)) == s.delivered + [NextChunk(s)];
  }

  lemma CutKeepsReady(s: Scan, step: Step)
    requires WorkersInv(s) && CoordinatorInv(s) && Enabled(s, step) && step.Cut? && Due(s)
    ensures CoordinatorInv(Apply(s, step))
  {
    NextChunkIsExact(s);
  }

  lemma CutKeepsDelivery(s: Scan, step: Step)
    requires WorkersInv(s) && CoordinatorInv(s) && DeliveryInv(s) && Enabled(s, step) && step.Cut?
    ensures CoordinatorInv(Apply(s, step)) && DeliveryInv(Apply(s, step))
  {
    if Due(s) {
      CutDelivers(s, step);
      CutKeepsReady(s, step);
    }
  }

  // All workers are done and none was stopped: every index has been completed.
  lemma FlushSeesEverything(s: Scan)
    requires Inv(s) && s.flushing
    ensures forall i :: 0 <= i < s.pathCount ==> s.completed[i]
  {
    assert s.workers[0].Finished?;
    forall i: nat | i < s.pathCount
      ensures s.completed[i]
    {
      assert s.completed[i] || Held(s.workers, i);
    }
  }

  /** The cut of the final flush cannot fall short. */
  lemma FlushCutDelivers(s: Scan, step: Step)
    requires Inv(s) && Enabled(s, step) && step.Cut?
    ensures Apply(s, step).phase != Failed
  {
    if s.flushing {
      FlushSeesEverything(s);
    }
  }

  lemma OtherStepKeepsCoordinator(s: Scan, step: Step)
    requires CoordinatorInv(s) && Enabled(s, step) && !IsWorkerStep(step) && !step.Drain? && !step.Cut?
    ensures CoordinatorInv(Apply(s, step))
  {
  }

  lemma OtherStepHandsOver(s: Scan, step: Step)
    requires Enabled(s, step) && !IsWorkerStep(step) && !step.Drain? && !step.Cut?
    ensures var s' := Apply(s, step);
            && HandedOver(s') == HandedOver(s)
            && s'.chunkStart == s.chunkStart && s'.chunkSize == s.chunkSize && s'.outcomes == s.outcomes
  {
  }

  lemma OtherStepKeepsDelivery(s: Scan, step: Step)
    requires DeliveryInv(s) && Enabled(s, step) && !IsWorkerStep(step) && !step.Drain? && !step.Cut?
    ensures DeliveryInv(Apply(s, step))
  {
    OtherStepHandsOver(s, step);
  }

  lemma CoordinatorStepKeepsFlush(s: Scan, step: Step)
    requires FlushInv(s) && Enabled(s, step) && !IsWorkerStep(step)
    ensures FlushInv(Apply(s, step))
  {
  }

  lemma CoordinatorFrame(s: Scan, step: Step)
    requires Enabled(s, step) && !IsWorkerStep(step)
    ensures var s' := Apply(s, step);
            && s'.pathCount == s.pathCount && s'.workers == s.workers && s'.completed == s.completed
            && s'.nextRequest == s.nextRequest && s'.outcomes == s.outcomes && s'.stoppedEarly == s.stoppedEarly
            && (s.cancelled ==> s'.cancelled)
            && s'.flushing == (s.flushing || step.StartFlush?)
  {
  }

  lemma WorkersFrame(s: Scan, s': Scan)
    requires s'.pathCount == s.pathCount && s'.workers == s.workers && s'.completed == s.completed
    requires s'.nextRequest == s.nextRequest && s'.outcomes == s.outcomes && s'.stoppedEarly == s.stoppedEarly
    ensures WorkersInv(s) ==> WorkersInv(s')
    ensures CoverageInv(s) && (s.cancelled ==> s'.cancelled) && (s'.flushing ==> !s.stoppedEarly && AllFinished(s)) ==>
              CoverageInv(s')
  {
  }

  lemma CoordinatorStepKeepsSafe(s: Scan, step: Step)
    requires SafeInv(s) && Enabled(s, step) && !IsWorkerStep(step)
    ensures SafeInv(Apply(s, step))
  {
    CoordinatorFrame(s, step);
    WorkersFrame(s, Apply(s, step));
    CoordinatorStepKeepsFlush(s, step);
    if step.Drain? {
      DrainKeepsDelivery(s, step);
    } else if step.Cut? {
      CutKeepsDelivery(s, step);
    } else {
      OtherStepKeepsCoordinator(s, step);
      OtherStepKeepsDelivery(s, step);
    }
  }

  lemma StepKeepsSafe(s: Scan, step: Step)
    requires SafeInv(s) && Enabled(s, step)
    ensures SafeInv(Apply(s, step))
  {
    if IsWorkerStep(step) {
      WorkerStepKeepsSafe(s, step);
    } else {
      CoordinatorStepKeepsSafe(s, step);
    }
  }

  /** Every atomic action of any task keeps the invariant. */
  lemma StepKeepsInv(s: Scan, step: Step)
    requires Inv(s) && Enabled(s, step)
    ensures Inv(Apply(s, step))
  {
    StepKeepsSafe(s, step);
    if IsWorkerStep(step) {
      WorkerStepKeepsCoverage(s, step);
    } else {
      CoordinatorFrame(s, step);
      WorkersFrame(s, Apply(s, step));
    }
  }

  // -------------------------------------------------------------- whole runs

  ghost predicate ValidRun(s: Scan, steps: seq<Step>)
    decreases |steps|
  {
    steps == [] || (Enabled(s, steps[0]) && ValidRun(Apply(s, steps[0]), steps[1..]))
  }

  ghost function Final(s: Scan, steps: seq<Step>): Scan
    requires ValidRun(s, steps)
    decreases |steps|
  {
    if steps == [] then s else Final(Apply(s, steps[0]), steps[1..])
  }

  lemma {:induction false} RunKeepsInv(s: Scan, steps: seq<Step>)
    requires Inv(s) && ValidRun(s, steps)
    ensures Inv(Final(s, steps))
    decreases |steps|
  {
    if steps != [] {
      StepKeepsInv(s, steps[0]);
      RunKeepsInv(Apply(s, steps[0]), steps[1..]);
    }
  }

  /** A cut is the buffer's take: due when something is ready and it is forced or full, and then of this range. */
  lemma CutIsTake(s: Scan)
    requires WorkersInv(s) && CoordinatorInv(s) && Enabled(s, Cut)
    ensures var (ready, size) := (s.nextIndex - s.chunkStart, if s.chunkSize == 0 then 1 else s.chunkSize);
            var t := Apply(s, Cut);
            if ready > 0 && (s.phase.force || ready >= size) then
              var end := s.chunkStart + if ready < size then ready else size;
              && t.phase == Delivering(Chunk(s.chunkStart, end, Actionable(s.outcomes, s.chunkStart, end)))
              && t.chunkStart == end
            else !t.phase.Delivering? && t.chunkStart == s.chunkStart
  {
    CutIsDue(s);
    ReadyAtCut(s);
    if Due(s) {
      NextChunkIsExact(s);
    }
  }

  lemma ReadyAtCut(s: Scan)
    requires WorkersInv(s) && CoordinatorInv(s) && s.phase.Cutting?
    ensures SelfIndexed(s.outcomes) && s.readyResults == Actionable(s.outcomes, s.chunkStart, s.nextIndex)
  {
  }

  lemma CutIsDue(s: Scan)
    requires Enabled(s, Cut)
    ensures var (ready, size) := (s.nextIndex - s.chunkStart, if s.chunkSize == 0 then 1 else s.chunkSize);
            && (Due(s) <==> ready > 0 && (s.phase.force || ready >= size))
            && NextChunk(s).end == s.chunkStart + if ready < size then ready else size
    ensures var t := Apply(s, Cut);
            if Due(s) then t.phase == Delivering(NextChunk(s)) && t.chunkStart == NextChunk(s).end
            else !t.phase.Delivering? && t.chunkStart == s.chunkStart
  {
  }

  /** Deciding a result records it for its index, which had none; no other step touches what is recorded. */
  lemma OutcomesOfStep(s: Scan, step: Step)
    requires WorkersInv(s) && Enabled(s, step)
    ensures if step.Decide? then
              var r := step.result;
              && r.requestIndex !in s.outcomes
              && Apply(s, step).outcomes ==
                 s.outcomes[r.requestIndex := if r.filtered && !r.failed && r.status != 407 then None else Some(r)]
            else Apply(s, step).outcomes == s.outcomes
  {
    if step.Decide? {
      assert Busy(s.workers[step.w]);
    }
  }

  lemma {:induction false} OutcomesStay(s: Scan, steps: seq<Step>, i: nat)
    requires Inv(s) && ValidRun(s, steps) && i in s.outcomes
    ensures i in Final(s, steps).outcomes && Final(s, steps).outcomes[i] == s.outcomes[i]
    decreases |steps|
  {
    if steps != [] {
      StepKeepsInv(s, steps[0]);
      OutcomesOfStep(s, steps[0]);
      OutcomesStay(Apply(s, steps[0]), steps[1..], i);
    }
  }

  /** What is recorded at the end of a run is what was decided in it, filtered misses without their result. */
  lemma {:induction false} OutcomesAreDecided(s: Scan, steps: seq<Step>, k: nat)
    requires Inv(s) && ValidRun(s, steps) && k < |steps| && steps[k].Decide?
    ensures var r, o := steps[k].result, Final(s, steps).outcomes;
            && r.requestIndex in o
            && o[r.requestIndex] == if r.filtered && !r.failed && r.status != 407 then None else Some(r)
    decreases |steps|
  {
    StepKeepsInv(s, steps[0]);
    OutcomesOfStep(s, steps[0]);
    if k == 0 {
      OutcomesStay(Apply(s, steps[0]), steps[1..], steps[0].result.requestIndex);
    } else {
      OutcomesAreDecided(Apply(s, steps[0]), steps[1..], k - 1);
    }
  }

  lemma {:induction false} OutcomeHasDecision(s: Scan, steps: seq<Step>, i: nat) returns (k: nat)
    requires Inv(s) && ValidRun(s, steps) && i in Final(s, steps).outcomes && i !in s.outcomes
    ensures k < |steps| && steps[k].Decide? && steps[k].result.requestIndex == i
    decreases |steps|
  {
    StepKeepsInv(s, steps[0]);
    OutcomesOfStep(s, steps[0]);
    if i in Apply(s, steps[0]).outcomes {
      k := 0;
    } else {
      k := OutcomeHasDecision(Apply(s, steps[0]), steps[1..], i);
      k := k + 1;
    }
  }

  lemma RecordedIsDecided(s: Scan, steps: seq<Step>, r: ScanResult)
    requires Inv(s) && ValidRun(s, steps) && s.outcomes == map[]
    ensures r.requestIndex in Final(s, steps).outcomes && Final(s, steps).outcomes[r.requestIndex] == Some(r) <==>
            (exists k :: 0 <= k < |steps| && steps[k].Decide? && steps[k].result == r)
            && (!r.filtered || r.failed || r.status == 407)
  {
    var o := Final(s, steps).outcomes;
    if r.requestIndex in o {
      var k := OutcomeHasDecision(s, steps, r.requestIndex);
      OutcomesAreDecided(s, steps, k);
    }
    forall k | 0 <= k < |steps| && steps[k].Decide? && steps[k].result == r
      ensures r.requestIndex in o
      ensures o[r.requestIndex] == if r.filtered && !r.failed && r.status != 407 then None else Some(r)
    {
      OutcomesAreDecided(s, steps, k);
    }
  }

  lemma {:induction false} TileAt(chunks: seq<Chunk>, end: nat, size: nat, i: nat)
    requires Tiles(chunks, end, size) && i < |chunks|
    ensures chunks[i].start == if i == 0 then 0 else chunks[i - 1].end
    ensures chunks[i].start < chunks[i].end <= chunks[i].start + size
    decreases |chunks|
  {
    var last := |chunks| - 1;
    var front := chunks[..last];
    if i < last {
      TileAt(front, chunks[last].start, size, i);
      assert front[i] == chunks[i] && (i > 0 ==> front[i - 1] == chunks[i - 1]);
    } else if last > 0 {
      assert front[last - 1] == chunks[last - 1];
    }
  }

  /** The handed-over results of a state, in order and within its outcomes. */
  lemma HandedOverResults(s: Scan, r: ScanResult)
    requires Inv(s)
    ensures var all := AllResults(HandedOver(s));
            && (r in all <==>
                r.requestIndex < s.chunkStart && r.requestIndex in s.outcomes && s.outcomes[r.requestIndex] == Some(r))
            && (forall j, k :: 0 <= j < k < |all| ==> all[j].requestIndex < all[k].requestIndex)
  {
    ActionableOrdered(s.outcomes, 0, s.chunkStart);
    ActionableMembers(s.outcomes, 0, s.chunkStart, r);
  }

  /**
   At every moment of every run, the chunks handed over are contiguous non-empty
   ranges from 0 no longer than the chunk size, and everything below their end is
   completed.
   */
  lemma DeliveryIsContiguous(pathCount: nat, concurrency: nat, chunkSize: nat, cancelled: bool, steps: seq<Step>)
    requires pathCount >= 1 && concurrency >= 1
    requires ValidRun(Init(pathCount, concurrency, chunkSize, cancelled), steps)
    ensures var s := Final(Init(pathCount, concurrency, chunkSize, cancelled), steps);
            var chunks := HandedOver(s);
            && (chunks != [] ==> chunks[0].start == 0)
            && (forall i, j :: 0 <= i && j == i + 1 < |chunks| ==> chunks[j].start == chunks[i].end)
            && (forall i :: 0 <= i < |chunks| ==>
                              0 < chunks[i].end - chunks[i].start <= if chunkSize == 0 then 1 else chunkSize)
            && s.chunkStart == (if chunks == [] then 0 else chunks[|chunks| - 1].end)
            && (forall i: nat :: i < s.chunkStart ==> i < |s.completed| && s.completed[i] && i in s.outcomes)
  {
    var s0 := Init(pathCount, concurrency, chunkSize, cancelled);
    InitInv(pathCount, concurrency, chunkSize, cancelled);
    RunKeepsInv(s0, steps);
    RunKeepsSize(s0, steps);
    var s := Final(s0, steps);
    var chunks := HandedOver(s);
    forall i | 0 <= i < |chunks|
      ensures chunks[i].start < chunks[i].end <= chunks[i].start + Max(chunkSize, 1)
      ensures i == 0 ==> chunks[i].start == 0
    {
      TileAt(chunks, s.chunkStart, Max(s.chunkSize, 1), i);
    }
    forall i, j | 0 <= i && j == i + 1 < |chunks|
      ensures chunks[j].start == chunks[i].end
    {
      TileAt(chunks, s.chunkStart, Max(s.chunkSize, 1), j);
    }
  }

  lemma {:induction false} RunKeepsSize(s: Scan, steps: seq<Step>)
    requires ValidRun(s, steps)
    ensures Final(s, steps).chunkSize == s.chunkSize
    decreases |steps|
  {
    if steps != [] {
      RunKeepsSize(Apply(s, steps[0]), steps[1..]);
    }
  }

  /**
   Their results are exactly the results decided below the delivered count that are
   not filtered misses, each once and in index order.
   */
  lemma DeliveryIsOrderedPrefix(pathCount: nat, concurrency: nat, chunkSize: nat, cancelled: bool, steps: seq<Step>)
    requires pathCount >= 1 && concurrency >= 1
    requires ValidRun(Init(pathCount, concurrency, chunkSize, cancelled), steps)
    ensures var s := Final(Init(pathCount, concurrency, chunkSize, cancelled), steps);
            var all := AllResults(HandedOver(s));
            && Tiles(HandedOver(s), s.chunkStart, Max(s.chunkSize, 1))
            && (forall i: nat :: i < s.chunkStart ==> i < |s.completed| && s.completed[i] && i in s.outcomes)
            && (forall r :: r in all <==>
                            r.requestIndex < s.chunkStart && (!r.filtered || r.failed || r.status == 407)
                            && exists k :: 0 <= k < |steps| && steps[k].Decide? && steps[k].result == r)
            && (forall j, k :: 0 <= j < k < |all| ==> all[j].requestIndex < all[k].requestIndex)
  {
    var s0 := Init(pathCount, concurrency, chunkSize, cancelled);
    InitInv(pathCount, concurrency, chunkSize, cancelled);
    RunKeepsInv(s0, steps);
    var s := Final(s0, steps);
    ActionableOrdered(s.outcomes, 0, s.chunkStart);
    forall r
      ensures r in AllResults(HandedOver(s)) <==>
              r.requestIndex < s.chunkStart && (!r.filtered || r.failed || r.status == 407)
              && exists k :: 0 <= k < |steps| && steps[k].Decide? && steps[k].result == r
    {
      HandedOverResults(s, r);
      RecordedIsDecided(s0, steps, r);
    }
  }

  predicate Publishes(s: Scan, step: Step, i: nat) {
    step.Publish? && step.w < |s.workers| && s.workers[step.w] == Publishing(i)
  }

  ghost function Publications(s: Scan, steps: seq<Step>, i: nat): nat
    requires ValidRun(s, steps)
    decreases |steps|
  {
    if steps == [] then 0 else
    (if Publishes(s, steps[0], i) then 1 else 0) + Publications(Apply(s, steps[0]), steps[1..], i)
  }

  /** Over any run an index is completed by exactly one publication, or by none. */
  lemma {:induction false} CompletedOnce(s: Scan, steps: seq<Step>, i: nat)
    requires Inv(s) && ValidRun(s, steps) && i < s.pathCount
    ensures Final(s, steps).pathCount == s.pathCount && i < |Final(s, steps).completed|
    ensures Publications(s, steps, i) ==
            (if Final(s, steps).completed[i] then 1 else 0) - (if s.completed[i] then 1 else 0)
    decreases |steps|
  {
    if steps != [] {
      StepKeepsInv(s, steps[0]);
      CompletedOnce(Apply(s, steps[0]), steps[1..], i);
      CompletionOfStep(s, steps[0], i);
    }
  }

  lemma CompletionOfStep(s: Scan, step: Step, i: nat)
    requires WorkersInv(s) && Enabled(s, step) && i < s.pathCount
    ensures Apply(s, step).pathCount == s.pathCount && |Apply(s, step).completed| == |s.completed|
    ensures Apply(s, step).completed[i] == (s.completed[i] || Publishes(s, step, i))
    ensures Publishes(s, step, i) ==> !s.completed[i]
  {
    if !IsWorkerStep(step) {
      CoordinatorFrame(s, step);
    } else if step.Publish? {
      assert s.workers[step.w].index < s.pathCount;
    }
  }

  /**
   A scan that returns without having been cancelled has delivered every path,
   each completed exactly once; the shortfall error cannot be raised.
   */
  lemma UncancelledScanDeliversAll(pathCount: nat, concurrency: nat, chunkSize: nat, steps: seq<Step>)
    requires pathCount >= 1 && concurrency >= 1
    requires ValidRun(Init(pathCount, concurrency, chunkSize, false), steps)
    ensures var s0 := Init(pathCount, concurrency, chunkSize, false);
            var s := Final(s0, steps);
            && (s.phase.Returned? && !s.cancelled ==>
                  s.phase.count == pathCount && forall i: nat :: i < pathCount ==> Publications(s0, steps, i) == 1)
            && (Enabled(s, Cut) ==> Apply(s, Cut).phase != Failed)
  {
    var s0 := Init(pathCount, concurrency, chunkSize, false);
    InitInv(pathCount, concurrency, chunkSize, false);
    RunKeepsInv(s0, steps);
    var s := Final(s0, steps);
    if Enabled(s, Cut) {
      FlushCutDelivers(s, Cut);
    }
    CompletedOnce(s0, steps, 0);
    forall i: nat | i < pathCount
      ensures i < |s.completed| && Publications(s0, steps, i) == if s.completed[i] then 1 else 0
    {
      CompletedOnce(s0, steps, i);
    }
  }

  function WorkerSteps(steps: seq<Step>): nat {
    if steps == [] then 0 else (if IsWorkerStep(steps[0]) then 1 else 0) + WorkerSteps(steps[1..])
  }

  lemma WorkerStepDecreases(s: Scan, step: Step)
    requires Enabled(s, step) && IsWorkerStep(step)
    ensures WorkLeft(Apply(s, step)) < WorkLeft(s)
  {
    SumUpdate(s.workers, step.w, Apply(s, step).workers[step.w], Rank);
  }

  lemma ShapeFrame(s: Scan, step: Step)
    requires Enabled(s, step)
    ensures Apply(s, step).pathCount == s.pathCount && |Apply(s, step).workers| == |s.workers|
  {
  }

  lemma CoordinatorStepLeavesWork(s: Scan, step: Step)
    requires Enabled(s, step) && !IsWorkerStep(step)
    ensures WorkLeft(Apply(s, step)) == WorkLeft(s)
  {
    CoordinatorFrame(s, step);
  }

  lemma {:induction false} WorkerStepsBounded(s: Scan, steps: seq<Step>)
    requires Inv(s) && ValidRun(s, steps)
    ensures WorkerSteps(steps) <= WorkLeft(s) - WorkLeft(Final(s, steps))
    ensures Final(s, steps).pathCount == s.pathCount && |Final(s, steps).workers| == |s.workers|
    decreases |steps|
  {
    if steps != [] {
      StepKeepsInv(s, steps[0]);
      ShapeFrame(s, steps[0]);
      if IsWorkerStep(steps[0]) {
        WorkerStepDecreases(s, steps[0]);
      } else {
        CoordinatorStepLeavesWork(s, steps[0]);
      }
      WorkerStepsBounded(Apply(s, steps[0]), steps[1..]);
    }
  }

  /**
   The request counter overshoots the path count by at most one claim per
   worker, so the workers of one scan take a bounded number of steps however
   they are scheduled.
   */
  lemma WorkersTerminate(pathCount: nat, concurrency: nat, chunkSize: nat, cancelled: bool, steps: seq<Step>)
    requires pathCount >= 1 && concurrency >= 1
    requires ValidRun(Init(pathCount, concurrency, chunkSize, cancelled), steps)
    ensures var workers := Min(concurrency, pathCount);
            && Final(Init(pathCount, concurrency, chunkSize, cancelled), steps).nextRequest <= pathCount + workers
            && WorkerSteps(steps) <= 3 * (pathCount + workers) + 3 * workers
  {
    var s0 := Init(pathCount, concurrency, chunkSize, cancelled);
    InitInv(pathCount, concurrency, chunkSize, cancelled);
    RunKeepsInv(s0, steps);
    WorkerStepsBounded(s0, steps);
    SumBound(s0.workers, Rank, 3);
    SumBound(Final(s0, steps).workers, IsFinished, 1);
  }

  // ------------------------------------------------------------------- progress

  /** A worker that has not finished can always move. */
  lemma WorkerCanMove(s: Scan, w: nat) returns (step: Step)
    requires WorkersInv(s) && Running(s) && w < |s.workers| && !s.workers[w].Finished?
    ensures IsWorkerStep(step) && !step.Stop? && step.w == w && Enabled(s, step)
  {
    match s.workers[w] {
      case Ready => step := Claim(w);
      case Claimed(index) => step := Decide(w, ScanResult(index, 0, true, false, ""));
      case Publishing(index) =>
        assert Busy(s.workers[w]);
        step := Publish(w);
    }
  }

  /** The coordinator's own steps up to the end of the scan, without another turn of its loop over tasks. */
  predicate WindsUp(step: Step) {
    !IsWorkerStep(step) && !step.Cancel? && !step.Look?
  }

  /** Every such step lowers this measure. */
  function CoordinatorLeft(s: Scan): int {
    var rank := match s.phase
                case Idle => if s.flushing then 5 else if s.taking.Some? then 15 else 7
                case Reading(_) => if s.flushing then 4 else 14
                case Draining(_) => if s.flushing then 3 else 13
                case Cutting(_) => if s.flushing then 2 else 12
                case Delivering(_) => if s.flushing then 6 else 16
                case _ => 0;
    6 * (s.pathCount - s.chunkStart) + (s.pathCount - s.nextIndex) + rank
  }

  /** While the scan runs, the coordinator can move when no worker can. */
  lemma CoordinatorCanMove(s: Scan) returns (step: Step)
    requires CoordinatorInv(s) && Running(s) && AllFinished(s)
    ensures WindsUp(step) && !step.Fail? && Enabled(s, step)
  {
    match s.phase {
      case Idle =>
        step := if s.flushing then StartTake(true) else if s.taking.Some? then StartTake(s.taking.value)
                else if s.cancelled then ReturnCancelled else StartFlush;
      case Reading(_) => step := if FlagSeen(s) then ReadFlag else StopReading;
      case Draining(_) => step := Drain;
      case Cutting(_) => step := Cut;
      case Delivering(_) => step := Accept;
    }
  }

  lemma CoordinatorStepDecreases(s: Scan, step: Step)
    requires CoordinatorInv(s) && Enabled(s, step) && WindsUp(step)
    ensures CoordinatorLeft(Apply(s, step)) < CoordinatorLeft(s)
  {
  }

  lemma CoordinatorLeftBounds(s: Scan)
    requires CoordinatorInv(s)
    ensures 0 <= CoordinatorLeft(s) <= 7 * s.pathCount + 16
  {
  }

  /** How many steps of a run wind up, and how many turns its loop over tasks begins. */
  function WindUps(steps: seq<Step>): nat {
    if steps == [] then 0 else (if WindsUp(steps[0]) then 1 else 0) + WindUps(steps[1..])
  }

  function Turns(steps: seq<Step>): nat {
    if steps == [] then 0 else (if steps[0].Look? then 1 else 0) + Turns(steps[1..])
  }

  /** A turn of the loop over tasks raises the measure by one take, and no other step raises it. */
  lemma StepLeaves(s: Scan, step: Step)
    requires CoordinatorInv(s) && Enabled(s, step)
    ensures CoordinatorLeft(Apply(s, step)) <=
              CoordinatorLeft(s) + (if step.Look? then 8 else 0) - (if WindsUp(step) then 1 else 0)
  {
    if WindsUp(step) {
      CoordinatorStepDecreases(s, step);
    }
  }

  /**
   In every run the steps of the coordinator are bounded by the work left, at most
   7 * pathCount + 16 of them, and 8 more for each turn of its loop over tasks. Once
   the workers have finished, it can move until the scan has returned or failed.
   */
  lemma {:induction false} ScanEnds(s: Scan, steps: seq<Step>)
    requires SafeInv(s) && ValidRun(s, steps)
    ensures WindUps(steps) <= CoordinatorLeft(s) + 8 * Turns(steps)
    ensures CoordinatorLeft(s) <= 7 * s.pathCount + 16
    ensures Running(Final(s, steps)) && AllFinished(Final(s, steps)) ==>
              exists step :: WindsUp(step) && !step.Fail? && Enabled(Final(s, steps), step)
    decreases |steps|
  {
    CoordinatorLeftBounds(s);
    if steps == [] {
      if Running(s) && AllFinished(s) {
        var step := CoordinatorCanMove(s);
      }
    } else {
      StepKeepsSafe(s, steps[0]);
      StepLeaves(s, steps[0]);
      ScanEnds(Apply(s, steps[0]), steps[1..]);
    }
  }
}
