/**
 Python's processing of one compact result chunk (lib/core/fuzzer.py): filtered
 misses arrive as gaps between events, and each span is released right after its
 callbacks, whether or not they raised.

 The reference is a loop over every per-path result, one callback and one
 release at a time.
 */
module ChunkLoop {
  import opened Wrappers
  import opened Chunks
  import opened Dictionary
  import opened NativeFuzzer

  // One call into the registered callbacks.
  datatype Callback = Missed(count: nat) | Handled(result: ScanResult)

  /** What the native side sends for the first m of the given per-path results. */
  function CompactUpTo(full: seq<ScanResult>, m: nat): seq<ScanResult>
    requires m <= |full|
  {
    if m == 0 then [] else
    CompactUpTo(full, m - 1) + Sent(full[m - 1])
  }

  function Sent(r: ScanResult): seq<ScanResult> {
    match Compact(r) case Some(sent) => [sent] case None => []
  }

  /** The events the simple loop handles among the first m results, one result at a time. */
  function HandledUpTo(full: seq<ScanResult>, m: nat, usingProxy: bool): seq<ScanResult>
    requires m <= |full|
  {
    if m == 0 then [] else
    HandledUpTo(full, m - 1, usingProxy) + (if Dropped(full[m - 1], usingProxy) then [] else [full[m - 1]])
  }

  /** The misses the simple loop counts among the first m results. */
  function MissesUpTo(full: seq<ScanResult>, m: nat, usingProxy: bool): nat
    requires m <= |full|
  {
    if m == 0 then 0 else
    MissesUpTo(full, m - 1, usingProxy) + (if Dropped(full[m - 1], usingProxy) then 1 else 0)
  }

  /** What the first n callbacks handled. */
  function HandledBy(calls: seq<Callback>, n: nat): seq<ScanResult>
    requires n <= |calls|
  {
    if n == 0 then [] else HandledBy(calls, n - 1) + if calls[n - 1].Handled? then [calls[n - 1].result] else []
  }

  function MissedBy(calls: seq<Callback>, n: nat): nat
    requires n <= |calls|
  {
    if n == 0 then 0 else MissedBy(calls, n - 1) + if calls[n - 1].Missed? then calls[n - 1].count else 0
  }

  function HandledIn(calls: seq<Callback>): seq<ScanResult> {
    HandledBy(calls, |calls|)
  }

  function MissedIn(calls: seq<Callback>): nat {
    MissedBy(calls, |calls|)
  }

  lemma {:induction false} LaterCall(calls: seq<Callback>, c: Callback, n: nat)
    requires n <= |calls|
    ensures HandledBy(calls + [c], n) == HandledBy(calls, n) && MissedBy(calls + [c], n) == MissedBy(calls, n)
  {
    if n > 0 {
      LaterCall(calls, c, n - 1);
    }
  }

  lemma CallAppends(calls: seq<Callback>, c: Callback)
    ensures HandledIn(calls + [c]) == HandledIn(calls) + (match c case Handled(r) => [r] case Missed(_) => [])
    ensures MissedIn(calls + [c]) == MissedIn(calls) + (match c case Handled(_) => 0 case Missed(count) => count)
  {
    LaterCall(calls, c, |calls|);
  }

  lemma {:induction false} EventsConcat(a: seq<ScanResult>, b: seq<ScanResult>, usingProxy: bool)
    ensures Events(a + b, usingProxy) == Events(a, usingProxy) + Events(b, usingProxy)
  {
    if a == [] {
      assert a + b == b;
    } else {
      assert (a + b)[1..] == a[1..] + b;
      EventsConcat(a[1..], b, usingProxy);
    }
  }

  lemma OneMoreSent(sent: seq<ScanResult>, r: ScanResult, usingProxy: bool)
    ensures Events(sent + Sent(r), usingProxy) == Events(sent, usingProxy) + if Dropped(r, usingProxy) then [] else [r]
  {
    SingleEvent(r, usingProxy);
    EventsConcat(sent, Sent(r), usingProxy);
  }

  /** Leaving out filtered misses on the native side does not change the events. */
  lemma {:induction false} CompactingKeepsEvents(full: seq<ScanResult>, m: nat, usingProxy: bool)
    requires m <= |full|
    ensures Events(CompactUpTo(full, m), usingProxy) == HandledUpTo(full, m, usingProxy)
  {
    if m > 0 {
      CompactingKeepsEvents(full, m - 1, usingProxy);
      var sent, r := CompactUpTo(full, m - 1), full[m - 1];
      OneMoreSent(sent, r, usingProxy);
      assert CompactUpTo(full, m) == sent + Sent(r);
    }
  }

  lemma SingleEvent(r: ScanResult, usingProxy: bool)
    ensures Events(Sent(r), usingProxy) == if Dropped(r, usingProxy) then [] else [r]
  {
    assert [r][1..] == [];
  }

  /** Results numbered start, start + 1, ... */
  ghost predicate Numbered(full: seq<ScanResult>, start: nat) {
    forall i :: 0 <= i < |full| ==> full[i].requestIndex == start + i
  }

  ghost predicate AllDropped(full: seq<ScanResult>, lo: nat, hi: nat, usingProxy: bool) {
    forall i :: lo <= i < hi && i < |full| ==> Dropped(full[i], usingProxy)
  }

  lemma {:induction false} GapCounts(full: seq<ScanResult>, lo: nat, hi: nat, usingProxy: bool)
    requires lo <= hi <= |full| && AllDropped(full, lo, hi, usingProxy)
    ensures HandledUpTo(full, hi, usingProxy) == HandledUpTo(full, lo, usingProxy)
    ensures MissesUpTo(full, hi, usingProxy) == MissesUpTo(full, lo, usingProxy) + (hi - lo)
    decreases hi
  {
    if lo < hi {
      GapCounts(full, lo, hi - 1, usingProxy);
    }
  }

  lemma {:induction false} HandledGrows(full: seq<ScanResult>, lo: nat, hi: nat, usingProxy: bool)
    requires lo <= hi <= |full|
    ensures HandledUpTo(full, lo, usingProxy) <= HandledUpTo(full, hi, usingProxy)
    decreases hi
  {
    if lo < hi {
      HandledGrows(full, lo, hi - 1, usingProxy);
    }
  }

  /** The first result at or after n that is not dropped, or the end. */
  function FirstKept(full: seq<ScanResult>, n: nat, usingProxy: bool): (p: nat)
    requires n <= |full|
    ensures n <= p <= |full| && AllDropped(full, n, p, usingProxy)
    ensures p < |full| ==> !Dropped(full[p], usingProxy)
    decreases |full| - n
  {
    if n == |full| || !Dropped(full[n], usingProxy) then n else FirstKept(full, n + 1, usingProxy)
  }

  /** Event k is the first result not dropped after the k events before it. */
  lemma NextEvent(full: seq<ScanResult>, start: nat, n: nat, k: nat, usingProxy: bool)
    requires Numbered(full, start) && n <= |full|
    requires |HandledUpTo(full, n, usingProxy)| == k < |HandledUpTo(full, |full|, usingProxy)|
    ensures var event := HandledUpTo(full, |full|, usingProxy)[k];
            var p := event.requestIndex - start;
            && n <= p < |full| && full[p] == event && !Dropped(event, usingProxy)
            && AllDropped(full, n, p, usingProxy)
            && |HandledUpTo(full, p + 1, usingProxy)| == k + 1
  {
    var p := FirstKept(full, n, usingProxy);
    GapCounts(full, n, p, usingProxy);
    HandledGrows(full, p + 1, |full|, usingProxy);
    assert HandledUpTo(full, p + 1, usingProxy)[k] == full[p];
  }

  /** Up to index next, k events were handled. */
  ghost predicate Reached(full: seq<ScanResult>, start: nat, next: nat, k: nat, usingProxy: bool) {
    start <= next <= start + |full| && |HandledUpTo(full, next - start, usingProxy)| == k
  }

  lemma ReachesEvent(full: seq<ScanResult>, start: nat, next: nat, k: nat, usingProxy: bool)
    requires Numbered(full, start) && Reached(full, start, next, k, usingProxy)
    requires k < |HandledUpTo(full, |full|, usingProxy)|
    ensures var event := HandledUpTo(full, |full|, usingProxy)[k];
            && next <= event.requestIndex < start + |full| && EventAt(full, start, event, usingProxy)
            && AllDropped(full, next - start, event.requestIndex - start, usingProxy)
            && Reached(full, start, event.requestIndex + 1, k + 1, usingProxy)
  {
    NextEvent(full, start, next - start, k, usingProxy);
  }

  lemma NoEventsLeft(full: seq<ScanResult>, n: nat, usingProxy: bool)
    requires n <= |full| && |HandledUpTo(full, n, usingProxy)| == |HandledUpTo(full, |full|, usingProxy)|
    ensures AllDropped(full, n, |full|, usingProxy)
  {
    var p := FirstKept(full, n, usingProxy);
    GapCounts(full, n, p, usingProxy);
    if p < |full| {
      HandledGrows(full, p + 1, |full|, usingProxy);
    }
  }

  /** The callbacks made since before amount to the simple loop over the first m results. */
  ghost predicate Progress(before: seq<Callback>, calls: seq<Callback>, full: seq<ScanResult>, m: nat,
                           usingProxy: bool)
  {
    && m <= |full| && before <= calls
    && HandledIn(calls) == HandledIn(before) + HandledUpTo(full, m, usingProxy)
    && MissedIn(calls) == MissedIn(before) + MissesUpTo(full, m, usingProxy)
  }

  // ------------------------------------------- which results reach the callbacks

  /** What the native side sends: all but filtered results, and of those errors and status 407 still. */
  lemma {:induction false} SentMembers(full: seq<ScanResult>, m: nat, r: ScanResult)
    requires m <= |full|
    ensures r in CompactUpTo(full, m) <==> r in full[..m] && (!r.filtered || r.failed || r.status == 407)
  {
    if m > 0 {
      SentMembers(full, m - 1, r);
      assert full[..m] == full[..m - 1] + [full[m - 1]];
    }
  }

  /** The chunk buffer hands out just this: what the workers recorded is the compacted result of every index. */
  lemma {:induction false} ChunkIsCompacted(o: Outcomes, full: seq<ScanResult>, start: nat, m: nat)
    requires m <= |full| && forall i :: start <= i < start + m ==> i in o && o[i] == Compact(full[i - start])
    ensures Actionable(o, start, start + m) == CompactUpTo(full, m)
  {
    if m > 0 {
      ChunkIsCompacted(o, full, start, m - 1);
      assert At(o, start + m - 1) == Sent(full[m - 1]);
    }
  }

  /** The simple loop handles every result that is not filtered, and a filtered 407 behind a proxy, in order. */
  lemma {:induction false} HandledMembers(full: seq<ScanResult>, m: nat, usingProxy: bool, r: ScanResult)
    requires m <= |full|
    ensures r in HandledUpTo(full, m, usingProxy) <==>
            r in full[..m] && (!r.filtered || (usingProxy && r.status == 407))
  {
    if m > 0 {
      HandledMembers(full, m - 1, usingProxy, r);
      assert full[..m] == full[..m - 1] + [full[m - 1]];
    }
  }

  lemma {:induction false} HandledInOrder(full: seq<ScanResult>, m: nat, usingProxy: bool)
    requires m <= |full| && forall i :: 0 <= i < m ==> full[i].requestIndex == i
    ensures OrderedWithin(HandledUpTo(full, m, usingProxy), 0, m)
  {
    if m > 0 {
      HandledInOrder(full, m - 1, usingProxy);
    }
  }

  /** Every other result counts as one miss. */
  lemma {:induction false} MissesAreTheOthers(full: seq<ScanResult>, m: nat, usingProxy: bool)
    requires m <= |full|
    ensures MissesUpTo(full, m, usingProxy) ==
            |set i | 0 <= i < m && full[i].filtered && !(usingProxy && full[i].status == 407)|
  {
    if m > 0 {
      MissesAreTheOthers(full, m - 1, usingProxy);
      var before := set i | 0 <= i < m - 1 && full[i].filtered && !(usingProxy && full[i].status == 407);
      var all := set i | 0 <= i < m && full[i].filtered && !(usingProxy && full[i].status == 407);
      if full[m - 1].filtered && !(usingProxy && full[m - 1].status == 407) {
        assert all == before + {m - 1};
      } else {
        assert all == before;
      }
    }
  }

  /** The sum of the counts of the miss calls. */
  function Counts(calls: seq<Callback>): nat {
    if calls == [] then 0 else (match calls[0] case Missed(count) => count case Handled(_) => 0) + Counts(calls[1..])
  }

  lemma {:induction false} CallsAfter(calls: seq<Callback>, k: nat, n: nat)
    requires k <= n <= |calls|
    ensures HandledBy(calls, k) <= HandledBy(calls, n)
    ensures forall r :: r in HandledBy(calls, n)[|HandledBy(calls, k)|..] <==> Handled(r) in calls[k..n]
    decreases n
  {
    if k < n {
      CallsAfter(calls, k, n - 1);
      var last, base := calls[n - 1], |HandledBy(calls, k)|;
      var more := if last.Handled? then [last.result] else [];
      assert calls[k..n] == calls[k..n - 1] + [last];
      assert HandledBy(calls, n)[base..] == HandledBy(calls, n - 1)[base..] + more;
      forall r
        ensures r in HandledBy(calls, n)[base..] <==> Handled(r) in calls[k..n]
      {
        assert Handled(r) in calls[k..n] <==> Handled(r) in calls[k..n - 1] || last == Handled(r);
        assert r in HandledBy(calls, n)[base..] <==> r in HandledBy(calls, n - 1)[base..] || r in more;
      }
    } else {
      assert calls[k..n] == [];
    }
  }

  lemma {:induction false} CountsAppend(calls: seq<Callback>, c: Callback)
    ensures Counts(calls + [c]) == Counts(calls) + match c case Missed(count) => count case Handled(_) => 0
  {
    if calls == [] {
      assert calls + [c] == [c];
    } else {
      assert (calls + [c])[1..] == calls[1..] + [c];
      CountsAppend(calls[1..], c);
    }
  }

  lemma {:induction false} MissesAfter(calls: seq<Callback>, k: nat, n: nat)
    requires k <= n <= |calls|
    ensures MissedBy(calls, n) == MissedBy(calls, k) + Counts(calls[k..n])
    decreases n
  {
    if k < n {
      MissesAfter(calls, k, n - 1);
      assert calls[k..n] == calls[k..n - 1] + [calls[n - 1]];
      CountsAppend(calls[k..n - 1], calls[n - 1]);
    }
  }

  lemma {:induction false} SamePrefixCalls(before: seq<Callback>, calls: seq<Callback>, n: nat)
    requires before <= calls && n <= |before|
    ensures HandledBy(before, n) == HandledBy(calls, n) && MissedBy(before, n) == MissedBy(calls, n)
  {
    if n > 0 {
      SamePrefixCalls(before, calls, n - 1);
    }
  }

  lemma {:induction false} CallAt(calls: seq<Callback>, j: nat, n: nat)
    requires j < n <= |calls| && calls[j].Handled?
    ensures |HandledBy(calls, j)| < |HandledBy(calls, n)|
    ensures HandledBy(calls, n)[|HandledBy(calls, j)|] == calls[j].result
    decreases n
  {
    if j < n - 1 {
      CallAt(calls, j, n - 1);
    }
  }

  /** In the calls made since before, the results come in the order of the simple loop. */
  lemma MadeInOrder(before: seq<Callback>, calls: seq<Callback>, full: seq<ScanResult>, m: nat, usingProxy: bool,
                    j: nat, k: nat)
    requires Progress(before, calls, full, m, usingProxy) && forall i :: 0 <= i < m ==> full[i].requestIndex == i
    requires |before| <= j < k < |calls| && calls[j].Handled? && calls[k].Handled?
    ensures calls[j].result.requestIndex < calls[k].result.requestIndex
  {
    SamePrefixCalls(before, calls, |before|);
    CallsAfter(calls, |before|, j);
    CallAt(calls, j, k);
    CallAt(calls, k, |calls|);
    CallAt(calls, j, |calls|);
    HandledInOrder(full, m, usingProxy);
    var handled, base := HandledUpTo(full, m, usingProxy), |HandledIn(before)|;
    assert HandledIn(calls)[|HandledBy(calls, j)|] == handled[|HandledBy(calls, j)| - base];
    assert HandledIn(calls)[|HandledBy(calls, k)|] == handled[|HandledBy(calls, k)| - base];
  }

  /** The calls made since before, told in terms of the results alone. */
  lemma MadeMembers(before: seq<Callback>, calls: seq<Callback>, full: seq<ScanResult>, m: nat, usingProxy: bool)
    requires Progress(before, calls, full, m, usingProxy)
    ensures forall r :: Handled(r) in calls[|before|..] <==>
                        r in full[..m] && (!r.filtered || (usingProxy && r.status == 407))
    ensures Counts(calls[|before|..]) ==
            |set i | 0 <= i < m && full[i].filtered && !(usingProxy && full[i].status == 407)|
  {
    var n := |before|;
    SamePrefixCalls(before, calls, n);
    CallsAfter(calls, n, |calls|);
    MissesAfter(calls, n, |calls|);
    MissesAreTheOthers(full, m, usingProxy);
    assert calls[n..|calls|] == calls[n..];
    assert HandledBy(calls, |calls|)[|HandledBy(calls, n)|..] == HandledUpTo(full, m, usingProxy);
    forall r
      ensures Handled(r) in calls[n..] <==> r in full[..m] && (!r.filtered || (usingProxy && r.status == 407))
    {
      HandledMembers(full, m, usingProxy, r);
    }
  }

  /** Reporting a gap in one call is reporting its misses one by one. */
  lemma GapProgress(before: seq<Callback>, calls: seq<Callback>, full: seq<ScanResult>, m: nat, m': nat,
                    usingProxy: bool)
    requires Progress(before, calls, full, m, usingProxy)
    requires m <= m' <= |full| && AllDropped(full, m, m', usingProxy)
    ensures Progress(before, calls + [Missed(m' - m)], full, m', usingProxy)
  {
    CallAppends(calls, Missed(m' - m));
    GapCounts(full, m, m', usingProxy);
  }

  lemma EventProgress(before: seq<Callback>, calls: seq<Callback>, full: seq<ScanResult>, m: nat, usingProxy: bool)
    requires Progress(before, calls, full, m, usingProxy)
    requires m < |full| && !Dropped(full[m], usingProxy)
    ensures Progress(before, calls + [Handled(full[m])], full, m + 1, usingProxy)
  {
    CallAppends(calls, Handled(full[m]));
  }

  /** The event stands in full at its own index, which starts at start, and is not dropped. */
  predicate EventAt(full: seq<ScanResult>, start: nat, event: ScanResult, usingProxy: bool) {
    start <= event.requestIndex < start + |full| && full[event.requestIndex - start] == event
        && !Dropped(event, usingProxy)
  }

  function EndOf(chunks: seq<Chunk>, n: nat): nat
    requires n <= |chunks|
  {
    if n == 0 then 0 else chunks[n - 1].end
  }

  /** The chunk carries the compacted results of full, which are numbered by index. */
  ghost predicate Compacted(chunk: Chunk, full: seq<ScanResult>) {
    chunk.end == chunk.start + |full| && Numbered(full, chunk.start) && chunk.results == CompactUpTo(full, |full|)
  }

  /** The chunk carries its range of full. */
  ghost predicate IsPart(chunk: Chunk, full: seq<ScanResult>) {
    chunk.start < chunk.end <= |full| && Compacted(chunk, full[chunk.start..chunk.end])
  }

  /** The first n chunks are consecutive non-empty ranges from 0, within size. */
  predicate Consecutive(chunks: seq<Chunk>, size: nat, n: nat)
    requires n <= |chunks|
  {
    n == 0 || (Consecutive(chunks, size, n - 1)
        && EndOf(chunks, n - 1) == chunks[n - 1].start < chunks[n - 1].end <= size)
  }

  ghost predicate Splits(chunks: seq<Chunk>, full: seq<ScanResult>) {
    && Consecutive(chunks, |full|, |chunks|)
    && forall i {:trigger IsPart(chunks[i], full)} :: 0 <= i < |chunks| ==> IsPart(chunks[i], full)
  }

  lemma {:induction false} ConsecutiveAt(chunks: seq<Chunk>, size: nat, i: nat, n: nat)
    requires i < n <= |chunks| && Consecutive(chunks, size, n)
    ensures EndOf(chunks, i) == chunks[i].start && EndOf(chunks, i + 1) == chunks[i].end <= EndOf(chunks, n)
  {
    if i + 1 < n {
      ConsecutiveAt(chunks, size, i, n - 1);
    }
  }

  /** The results that consecutive chunks cover are numbered from 0. */
  lemma {:induction false} SplitsNumber(chunks: seq<Chunk>, full: seq<ScanResult>, n: nat)
    requires n <= |chunks| && Splits(chunks, full)
    ensures EndOf(chunks, n) <= |full| && forall i :: 0 <= i < EndOf(chunks, n) ==> full[i].requestIndex == i
  {
    if n > 0 {
      SplitsNumber(chunks, full, n - 1);
      ConsecutiveAt(chunks, |full|, n - 1, |chunks|);
      var c := chunks[n - 1];
      assert IsPart(c, full);
      forall i | EndOf(chunks, n - 1) <= i < EndOf(chunks, n)
        ensures full[i].requestIndex == i
      {
        assert full[c.start..c.end][i - c.start] == full[i];
      }
    }
  }

  /** The simple loop over a part of the results continues the loop before it. */
  lemma {:induction false} SliceContinues(full: seq<ScanResult>, lo: nat, hi: nat, k: nat, usingProxy: bool)
    requires lo <= hi <= |full| && k <= hi - lo
    ensures HandledUpTo(full, lo + k, usingProxy) == HandledUpTo(full, lo, usingProxy) +
              HandledUpTo(full[lo..hi], k, usingProxy)
    ensures MissesUpTo(full, lo + k, usingProxy) == MissesUpTo(full, lo, usingProxy) +
              MissesUpTo(full[lo..hi], k, usingProxy)
  {
    var part := full[lo..hi];
    if k == 0 {
      assert HandledUpTo(part, 0, usingProxy) == [];
    } else {
      SliceContinues(full, lo, hi, k - 1, usingProxy);
      assert part[k - 1] == full[lo + k - 1];
      Associate(HandledUpTo(full, lo, usingProxy), HandledUpTo(part, k - 1, usingProxy),
                if Dropped(part[k - 1], usingProxy) then [] else [part[k - 1]]);
    }
  }

  lemma Associate(a: seq<ScanResult>, b: seq<ScanResult>, c: seq<ScanResult>)
    ensures a + b + c == a + (b + c)
  {
  }

  lemma ProgressComposes(before: seq<Callback>, made: seq<Callback>, calls: seq<Callback>,
                         full: seq<ScanResult>, lo: nat, hi: nat, k: nat, usingProxy: bool)
    requires lo <= hi <= |full| && k <= hi - lo
    requires Progress(before, made, full, lo, usingProxy) && Progress(made, calls, full[lo..hi], k, usingProxy)
    ensures Progress(before, calls, full, lo + k, usingProxy)
  {
    SliceContinues(full, lo, hi, k, usingProxy);
    Associate(HandledIn(before), HandledUpTo(full, lo, usingProxy), HandledUpTo(full[lo..hi], k, usingProxy));
  }

  /** The dictionary holds exactly the claims of paths from index at on. */
  ghost predicate Holds(d: Dict, paths: Claimed, at: nat) {
    && ValidDict(d) && Synchronous(d)
    && RangeFits(d, paths)
    && Outstanding(d, paths, at)
  }

  /**
   Processing from at on is due: the claims from there on are held, and the callbacks
   made since before are those of the simple loop over full, which starts at start.
   */
  ghost predicate Due(d: Dict, calls: seq<Callback>, paths: Claimed, at: nat,
                      start: nat, full: seq<ScanResult>, before: seq<Callback>, usingProxy: bool)
  {
    start <= at && Holds(d, paths, at) && Progress(before, calls, full, at - start, usingProxy)
  }

  lemma DueAtStart(d: Dict, calls: seq<Callback>, paths: Claimed, start: nat, full: seq<ScanResult>, usingProxy: bool)
    requires Holds(d, paths, start)
    ensures Due(d, calls, paths, start, start, full, calls, usingProxy)
  {
    assert HandledIn(calls) + [] == HandledIn(calls);
  }

  class NativeLoop {
    const usingProxy: bool
    // The state of the dictionary, which is only touched through its operations.
    var dictionary: Dict
    // Every callback made so far.
    var calls: seq<Callback>
    // How many more stop checks answer no, and how many more callbacks return normally.
    var checksLeft: nat
    var callsLeft: nat

    constructor (dictionary: Dict, usingProxy: bool, checksLeft: nat, callsLeft: nat)
      ensures this.dictionary == dictionary && this.usingProxy == usingProxy && calls == []
      ensures this.checksLeft == checksLeft && this.callsLeft == callsLeft
    {
      this.dictionary, this.usingProxy := dictionary, usingProxy;
      this.checksLeft, this.callsLeft, calls := checksLeft, callsLeft, [];
    }

    method ShouldStopProcessing() returns (stop: bool)
      modifies this`checksLeft
      ensures stop <==> old(checksLeft) == 0
      ensures checksLeft == if stop then 0 else old(checksLeft) - 1
    {
      stop := checksLeft == 0;
      if !stop {
        checksLeft := checksLeft - 1;
      }
    }

    method Call(c: Callback) returns (raised: bool)
      modifies this`calls, this`callsLeft
      ensures calls == old(calls) + [c]
      ensures raised <==> old(callsLeft) == 0
      ensures callsLeft == if raised then 0 else old(callsLeft) - 1
    {
      calls := calls + [c];
      raised := callsLeft == 0;
      if !raised {
        callsLeft := callsLeft - 1;
      }
    }

    /** Release the claims of from..to, which are the oldest ones still held. */
    method ReleaseSpanOf(paths: Claimed, from: nat, to: nat)
      requires Holds(dictionary, paths, from) && from < to <= |PathsOf(dictionary.items, paths)|
      modifies this`dictionary
      ensures dictionary.items == old(dictionary.items) && Holds(dictionary, paths, to)
    {
      ReleaseSpanKeepsRest(dictionary, paths, from, to);
      dictionary := ReleaseSpan(dictionary, paths, from, to);
    }

    /** Report from..to as filtered, then release it even if a callback raised. */
    method ProcessFilteredRange(paths: Claimed, from: nat, to: nat,
                                ghost start: nat, ghost full: seq<ScanResult>, ghost before: seq<Callback>)
      returns (raised: bool)
      requires Due(dictionary, calls, paths, from, start, full, before, usingProxy)
      requires from < to <= |PathsOf(dictionary.items, paths)|
      requires to - start <= |full| && AllDropped(full, from - start, to - start, usingProxy)
      modifies this`calls, this`callsLeft, this`dictionary
      ensures |calls| + callsLeft == |old(calls)| + old(callsLeft) + if raised then 1 else 0
      ensures raised ==> callsLeft == 0
      ensures Due(dictionary, calls, paths, to, start, full, before, usingProxy)
      ensures dictionary.items == old(dictionary.items)
      ensures raised <==> old(callsLeft) == 0
      ensures calls == old(calls) + [Missed(to - from)]
      ensures callsLeft + 1 >= old(callsLeft)
    {
      GapProgress(before, calls, full, from - start, to - start, usingProxy);
      raised := Call(Missed(to - from));
      ReleaseSpanOf(paths, from, to);
    }

    /** The range from..to as filtered, unless it is empty. */
    method ProcessGap(paths: Claimed, from: nat, to: nat,
                      ghost start: nat, ghost full: seq<ScanResult>, ghost before: seq<Callback>)
      returns (raised: bool)
      requires Due(dictionary, calls, paths, from, start, full, before, usingProxy)
      requires from <= to <= |PathsOf(dictionary.items, paths)|
      requires to - start <= |full| && AllDropped(full, from - start, to - start, usingProxy)
      modifies this`calls, this`callsLeft, this`dictionary
      ensures |calls| + callsLeft == |old(calls)| + old(callsLeft) + if raised then 1 else 0
      ensures raised ==> callsLeft == 0
      ensures Due(dictionary, calls, paths, to, start, full, before, usingProxy)
      ensures dictionary.items == old(dictionary.items)
      ensures raised ==> old(callsLeft) == 0
      ensures calls == old(calls) + if to > from then [Missed(to - from)] else []
      ensures callsLeft + 1 >= old(callsLeft)
    {
      raised := false;
      if to > from {
        raised := ProcessFilteredRange(paths, from, to, start, full, before);
      }
    }

    /** Hand one event to the callbacks, then release its path even if one raised. */
    method ProcessNativeResult(paths: Claimed, event: ScanResult,
                               ghost start: nat, ghost full: seq<ScanResult>, ghost before: seq<Callback>)
      returns (raised: bool)
      requires Due(dictionary, calls, paths, event.requestIndex, start, full, before, usingProxy)
      requires event.requestIndex < |PathsOf(dictionary.items, paths)|
      requires EventAt(full, start, event, usingProxy)
      modifies this`calls, this`callsLeft, this`dictionary
      ensures |calls| + callsLeft == |old(calls)| + old(callsLeft) + if raised then 1 else 0
      ensures raised ==> callsLeft == 0
      ensures Due(dictionary, calls, paths, event.requestIndex + 1, start, full, before, usingProxy)
      ensures dictionary.items == old(dictionary.items)
      ensures raised <==> old(callsLeft) == 0
      ensures calls == old(calls) + [Handled(event)]
      ensures callsLeft + 1 >= old(callsLeft)
    {
      EventProgress(before, calls, full, event.requestIndex - start, usingProxy);
      raised := Call(Handled(event));
      ReleaseSpanOf(paths, event.requestIndex, event.requestIndex + 1);
    }

    /** The second stop check of a turn, then its event. */
    method ProcessUnlessStopped(paths: Claimed, event: ScanResult,
                                ghost start: nat, ghost full: seq<ScanResult>, ghost before: seq<Callback>)
      returns (next: nat, finished: bool, raised: bool)
      requires Due(dictionary, calls, paths, event.requestIndex, start, full, before, usingProxy)
      requires event.requestIndex < |PathsOf(dictionary.items, paths)|
      requires EventAt(full, start, event, usingProxy)
      modifies this`calls, this`checksLeft, this`callsLeft, this`dictionary
      ensures |calls| + callsLeft == |old(calls)| + old(callsLeft) + if raised then 1 else 0
      ensures raised ==> callsLeft == 0
      ensures event.requestIndex <= next <= event.requestIndex + 1 && dictionary.items == old(dictionary.items)
      ensures old(checksLeft) == 0 ==> next == event.requestIndex && calls == old(calls) && !finished && !raised
      ensures old(checksLeft) > 0 ==>
                calls == old(calls) + [Handled(event)] && checksLeft == old(checksLeft) - 1 && finished == !raised
      ensures Due(dictionary, calls, paths, next, start, full, before, usingProxy)
      ensures finished ==> next == event.requestIndex + 1 && !raised
      ensures !finished && !raised ==> checksLeft == 0 && old(checksLeft) == 0
      ensures raised ==> old(callsLeft) == 0
      ensures checksLeft + 1 >= old(checksLeft) && callsLeft + 1 >= old(callsLeft)
    {
      next, finished, raised := event.requestIndex, false, false;
      var stop := ShouldStopProcessing();
      if !stop {
        raised := ProcessNativeResult(paths, event, start, full, before);
        next, finished := event.requestIndex + 1, !raised;
      }
    }

    /**
     One turn of the event loop: the gap before the event, then the event itself.
     After a stop nothing is due any more, and nothing is done.
     */
    method ProcessEvent(paths: Claimed, nextIndex: nat, event: ScanResult,
                        ghost start: nat, ghost full: seq<ScanResult>, ghost before: seq<Callback>)
      returns (next: nat, finished: bool, raised: bool)
      requires checksLeft > 0 ==> Due(dictionary, calls, paths, nextIndex, start, full, before, usingProxy)
      requires RangeFits(dictionary, paths) && start + |full| <= |PathsOf(dictionary.items, paths)|
      requires start <= nextIndex <= event.requestIndex && EventAt(full, start, event, usingProxy)
      requires AllDropped(full, nextIndex - start, event.requestIndex - start, usingProxy)
      modifies this`calls, this`checksLeft, this`callsLeft, this`dictionary
      ensures |calls| + callsLeft == |old(calls)| + old(callsLeft) + if raised then 1 else 0
      ensures raised ==> callsLeft == 0
      ensures nextIndex <= next <= event.requestIndex + 1 && dictionary.items == old(dictionary.items)
      ensures old(checksLeft) > 0 ==> Due(dictionary, calls, paths, next, start, full, before, usingProxy)
      ensures old(checksLeft) == 0 ==> next == nextIndex && calls == old(calls) && dictionary == old(dictionary)
                                       && checksLeft == 0 && !finished && !raised
      ensures var gap := if event.requestIndex > nextIndex then [Missed(event.requestIndex - nextIndex)] else [];
              && (old(checksLeft) == 1 && !raised ==> calls == old(calls) + gap && next == event.requestIndex)
              && (finished ==> calls == old(calls) + gap + [Handled(event)] && checksLeft == old(checksLeft) - 2)
              && (old(checksLeft) > 1 && !raised ==> finished)
      ensures finished ==> next == event.requestIndex + 1 && !raised && old(checksLeft) > 0
      ensures !finished && !raised ==> checksLeft == 0 && old(checksLeft) < 2
      ensures raised ==> old(callsLeft) < 2
      ensures checksLeft + 2 >= old(checksLeft) && callsLeft + 2 >= old(callsLeft)
    {
      next, finished, raised := nextIndex, false, false;
      var stop := ShouldStopProcessing();
      if stop {
        return;
      }
      raised := ProcessGap(paths, next, event.requestIndex, start, full, before);
      next := event.requestIndex;
      if !raised {
        next, finished, raised := ProcessUnlessStopped(paths, event, start, full, before);
      }
    }

    /** After the last event: release the filtered tail of the chunk. */
    method ProcessTail(paths: Claimed, nextIndex: nat, end: nat,
                       ghost start: nat, ghost full: seq<ScanResult>, ghost before: seq<Callback>)
      returns (upTo: nat, raised: bool)
      requires checksLeft > 0 ==> Due(dictionary, calls, paths, nextIndex, start, full, before, usingProxy)
      requires RangeFits(dictionary, paths) && start <= nextIndex <= end <= |PathsOf(dictionary.items, paths)|
      requires end == start + |full| && AllDropped(full, nextIndex - start, |full|, usingProxy)
      modifies this`calls, this`checksLeft, this`callsLeft, this`dictionary
      ensures |calls| + callsLeft == |old(calls)| + old(callsLeft) + if raised then 1 else 0
      ensures raised ==> callsLeft == 0
      ensures nextIndex <= upTo <= end && dictionary.items == old(dictionary.items)
      ensures old(checksLeft) > 0 ==> upTo == end && Due(dictionary, calls, paths, end, start, full, before, usingProxy)
      ensures old(checksLeft) == 0 ==> upTo == nextIndex && !raised && checksLeft == 0
                                       && calls == old(calls) && dictionary == old(dictionary)
      ensures old(callsLeft) > 0 ==> !raised
    {
      upTo, raised := nextIndex, false;
      var stop := ShouldStopProcessing();
      if !stop && end > nextIndex {
        raised := ProcessFilteredRange(paths, nextIndex, end, start, full, before);
        upTo := end;
      }
    }

    /** Event k in its turn, which is due as long as processing was not stopped. */
    method ProcessTurn(paths: Claimed, nextIndex: nat, event: ScanResult, ghost k: nat,
                       ghost start: nat, ghost full: seq<ScanResult>, ghost before: seq<Callback>)
      returns (next: nat, finished: bool, raised: bool)
      requires checksLeft > 0 ==> Due(dictionary, calls, paths, nextIndex, start, full, before, usingProxy)
      requires RangeFits(dictionary, paths) && start + |full| <= |PathsOf(dictionary.items, paths)|
      requires Numbered(full, start) && Reached(full, start, nextIndex, k, usingProxy)
      requires k < |HandledUpTo(full, |full|, usingProxy)| && event == HandledUpTo(full, |full|, usingProxy)[k]
      modifies this`calls, this`checksLeft, this`callsLeft, this`dictionary
      ensures |calls| + callsLeft == |old(calls)| + old(callsLeft) + if raised then 1 else 0
      ensures raised ==> callsLeft == 0
      ensures start <= next <= start + |full| && dictionary.items == old(dictionary.items)
      ensures old(checksLeft) > 0 ==> Due(dictionary, calls, paths, next, start, full, before, usingProxy)
      ensures old(checksLeft) == 0 ==> next == nextIndex && calls == old(calls) && dictionary == old(dictionary)
                                       && checksLeft == 0 && !finished && !raised
      ensures finished ==> !raised && old(checksLeft) > 0 && Reached(full, start, next, k + 1, usingProxy)
      ensures !finished && !raised ==> checksLeft == 0 && old(checksLeft) < 2
      ensures raised ==> old(callsLeft) < 2
      ensures checksLeft + 2 >= old(checksLeft) && callsLeft + 2 >= old(callsLeft)
    {
      ReachesEvent(full, start, nextIndex, k, usingProxy);
      next, finished, raised := ProcessEvent(paths, nextIndex, event, start, full, before);
    }

    /** The event loop: every event in turn, with the gap before it. */
    method ProcessEvents(paths: Claimed, chunk: Chunk, events: seq<ScanResult>,
                         ghost full: seq<ScanResult>, ghost before: seq<Callback>)
      returns (next: nat, finished: bool, raised: bool)
      requires checksLeft > 0 ==> Due(dictionary, calls, paths, chunk.start, chunk.start, full, before, usingProxy)
      requires RangeFits(dictionary, paths) && chunk.end <= |PathsOf(dictionary.items, paths)|
      requires chunk.end == chunk.start + |full| && Numbered(full, chunk.start)
      requires events == HandledUpTo(full, |full|, usingProxy)
      modifies this`calls, this`checksLeft, this`callsLeft, this`dictionary
      ensures |calls| + callsLeft == |old(calls)| + old(callsLeft) + if raised then 1 else 0
      ensures raised ==> callsLeft == 0
      ensures chunk.start <= next <= chunk.end && dictionary.items == old(dictionary.items)
      ensures old(checksLeft) > 0 ==> Due(dictionary, calls, paths, next, chunk.start, full, before, usingProxy)
      ensures old(checksLeft) == 0 ==> next == chunk.start && calls == old(calls) && dictionary == old(dictionary)
                                       && checksLeft == 0 && !raised
      ensures finished ==> AllDropped(full, next - chunk.start, |full|, usingProxy) && !raised
                           && checksLeft + 2 * |events| >= old(checksLeft) && callsLeft + 2 * |events| >= old(callsLeft)
      ensures !finished && !raised ==> checksLeft == 0 && old(checksLeft) < 2 * |events|
      ensures raised ==> old(callsLeft) < 2 * |events|
    {
      next, raised := chunk.start, false;
      var k: nat := 0;
      while k < |events|
        invariant k <= |events| && chunk.start <= next <= chunk.end && !raised
        invariant Reached(full, chunk.start, next, k, usingProxy)
        invariant dictionary.items == old(dictionary.items)
        invariant k > 0 ==> old(checksLeft) > 0
        invariant k > 0 ==> Due(dictionary, calls, paths, next, chunk.start, full, before, usingProxy)
        invariant k == 0 ==> next == chunk.start && calls == old(calls)
        invariant k == 0 ==> dictionary == old(dictionary) && checksLeft == old(checksLeft)
        invariant checksLeft + 2 * k >= old(checksLeft) && callsLeft + 2 * k >= old(callsLeft)
        invariant |calls| + callsLeft == |old(calls)| + old(callsLeft)
      {
        next, finished, raised := ProcessTurn(paths, next, events[k], k, chunk.start, full, before);
        if !finished {
          return;
        }
        k := k + 1;
      }
      finished := true;
      NoEventsLeft(full, next - chunk.start, usingProxy);
    }

    /**
     Process one chunk. upTo is where processing ended: at the end of the chunk
     unless a stop check or an exception cut it short. Up to there the callbacks
     saw the events, miss counts and releases of the simple loop over the
     per-path results full. A chunk that arrives after a stop does nothing.
     */
    method ProcessNativeChunk(paths: Claimed, chunk: Chunk, ghost full: seq<ScanResult>, ghost before: seq<Callback>)
      returns (upTo: nat, raised: bool)
      requires checksLeft > 0 ==> Holds(dictionary, paths, chunk.start) && before == calls
      requires RangeFits(dictionary, paths) && chunk.end <= |PathsOf(dictionary.items, paths)|
      requires Compacted(chunk, full)
      modifies this`calls, this`checksLeft, this`callsLeft, this`dictionary
      ensures |calls| + callsLeft == |old(calls)| + old(callsLeft) + if raised then 1 else 0
      ensures raised ==> callsLeft == 0
      ensures chunk.start <= upTo <= chunk.end && dictionary.items == old(dictionary.items)
      ensures old(checksLeft) > 0 ==> Due(dictionary, calls, paths, upTo, chunk.start, full, before, usingProxy)
      ensures old(checksLeft) == 0 ==>
                upTo == chunk.start && !raised && calls == old(calls) && dictionary == old(dictionary)
      ensures !raised && upTo < chunk.end ==>
                checksLeft == 0 && old(checksLeft) <= 2 * |Events(chunk.results, usingProxy)|
      ensures raised ==> old(callsLeft) <= 2 * |Events(chunk.results, usingProxy)|
    {
      var events := Events(chunk.results, usingProxy);
      CompactingKeepsEvents(full, |full|, usingProxy);
      if checksLeft > 0 {
        DueAtStart(dictionary, calls, paths, chunk.start, full, usingProxy);
      }
      var finished;
      upTo, finished, raised := ProcessEvents(paths, chunk, events, full, before);
      if finished {
        upTo, raised := ProcessTail(paths, upTo, chunk.end, chunk.start, full, before);
      }
    }

    /** One chunk of a scan, told in terms of the results of the whole scan, which are done up to upTo. */
    method ProcessNext(paths: Claimed, chunk: Chunk, upTo: nat, ghost full: seq<ScanResult>,
                       ghost before: seq<Callback>)
      returns (done: nat, raised: bool)
      requires Due(dictionary, calls, paths, upTo, 0, full, before, usingProxy)
      requires |full| <= |PathsOf(dictionary.items, paths)| && IsPart(chunk, full)
      requires upTo <= chunk.start && (upTo < chunk.start ==> checksLeft == 0)
      modifies this`calls, this`checksLeft, this`callsLeft, this`dictionary
      ensures |calls| + callsLeft == |old(calls)| + old(callsLeft) + if raised then 1 else 0
      ensures raised ==> callsLeft == 0
      ensures Due(dictionary, calls, paths, done, 0, full, before, usingProxy)
      ensures dictionary.items == old(dictionary.items)
      ensures done <= chunk.end && (!raised && done < chunk.end ==> checksLeft == 0)
    {
      ghost var made, due := calls, checksLeft > 0;
      ghost var part := full[chunk.start..chunk.end];
      var end;
      end, raised := ProcessNativeChunk(paths, chunk, part, made);
      if due {
        ProgressComposes(before, made, calls, full, chunk.start, chunk.end, end - chunk.start, usingProxy);
      }
      done := if end > chunk.start then end else upTo;
    }

    /**
     Process the chunks of one scan as they arrive; an exception ends the scan.
     Wherever processing ends, the callbacks made are those of the simple loop over
     the results of the whole scan, whatever the chunks and the gaps in them.
     */
    method ProcessScan(paths: Claimed, chunks: seq<Chunk>, ghost full: seq<ScanResult>)
      returns (upTo: nat, raised: bool)
      requires Holds(dictionary, paths, 0) && |full| <= |PathsOf(dictionary.items, paths)|
      requires Splits(chunks, full)
      modifies this`calls, this`checksLeft, this`callsLeft, this`dictionary
      ensures |calls| + callsLeft == |old(calls)| + old(callsLeft) + if raised then 1 else 0
      ensures raised ==> callsLeft == 0
      ensures upTo <= EndOf(chunks, |chunks|) && dictionary.items == old(dictionary.items)
      ensures Progress(old(calls), calls, full, upTo, usingProxy) && Holds(dictionary, paths, upTo)
      ensures !raised && checksLeft > 0 && |chunks| > 0 ==> upTo == chunks[|chunks| - 1].end
      ensures upTo <= |full| && old(calls) <= calls
      ensures paths.Paths? ==> dictionary.claimed == paths.paths[upTo..]
      ensures paths.Range? ==>
                var chunk := paths.chunk;
                dictionary.nativeClaim == if upTo == chunk.end - chunk.start then None
                                          else Some(NativeClaim(chunk, chunk.start, upTo))
      ensures forall r :: Handled(r) in calls[|old(calls)|..] <==>
                          r in full[..upTo] && (!r.filtered || (usingProxy && r.status == 407))
      ensures forall j, k :: |old(calls)| <= j < k < |calls| && calls[j].Handled? && calls[k].Handled? ==>
                               calls[j].result.requestIndex < calls[k].result.requestIndex
      ensures Counts(calls[|old(calls)|..]) ==
              |set i | 0 <= i < upTo && full[i].filtered && !(usingProxy && full[i].status == 407)|
    {
      ghost var before := calls;
      upTo, raised := ProcessChunks(paths, chunks, full);
      SplitsNumber(chunks, full, |chunks|);
      MadeMembers(before, calls, full, upTo, usingProxy);
      forall j, k | |before| <= j < k < |calls| && calls[j].Handled? && calls[k].Handled?
        ensures calls[j].result.requestIndex < calls[k].result.requestIndex
      {
        MadeInOrder(before, calls, full, upTo, usingProxy, j, k);
      }
    }

    /** The loop over the chunks. */
    method ProcessChunks(paths: Claimed, chunks: seq<Chunk>, ghost full: seq<ScanResult>)
      returns (upTo: nat, raised: bool)
      requires Holds(dictionary, paths, 0) && |full| <= |PathsOf(dictionary.items, paths)|
      requires Splits(chunks, full)
      modifies this`calls, this`checksLeft, this`callsLeft, this`dictionary
      ensures |calls| + callsLeft == |old(calls)| + old(callsLeft) + if raised then 1 else 0
      ensures raised ==> callsLeft == 0
      ensures upTo <= EndOf(chunks, |chunks|) && dictionary.items == old(dictionary.items)
      ensures Progress(old(calls), calls, full, upTo, usingProxy) && Holds(dictionary, paths, upTo)
      ensures !raised && upTo < EndOf(chunks, |chunks|) ==> checksLeft == 0
    {
      ghost var before := calls;
      upTo, raised := 0, false;
      DueAtStart(dictionary, calls, paths, 0, full, usingProxy);
      for i := 0 to |chunks|
        invariant upTo <= EndOf(chunks, i) && !raised && dictionary.items == old(dictionary.items)
        invariant Due(dictionary, calls, paths, upTo, 0, full, before, usingProxy)
        invariant upTo < EndOf(chunks, i) ==> checksLeft == 0
        invariant |calls| + callsLeft == |old(calls)| + old(callsLeft)
      {
        ConsecutiveAt(chunks, |full|, i, |chunks|);
        upTo, raised := ProcessNext(paths, chunks[i], upTo, full, before);
        if raised {
          return;
        }
      }
    }
  }
}
