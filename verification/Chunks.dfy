/**
 Ordered result-chunk delivery (native/src/chunks.rs).

 Request workers publish completions in any order; the coordinator turns them
 into chunks that always cover a prefix of the request indexes. A completion is
 either an actionable result or a filtered miss that carries no result.
 */
module Chunks {
  import opened Wrappers

  const PROXY_AUTHENTICATION_REQUIRED: nat := 407

  datatype ScanResult = ScanResult(requestIndex: nat, status: nat, filtered: bool, failed: bool, payload: string)

  /** What a worker publishes: filtered misses travel without a result object. */
  function Compact(r: ScanResult): Option<ScanResult> {
    if r.filtered && !r.failed && r.status != PROXY_AUTHENTICATION_REQUIRED then None else Some(r)
  }

  // Everything published so far, by request index.
  type Outcomes = map<nat, Option<ScanResult>>

  datatype Chunk = Chunk(start: nat, end: nat, results: seq<ScanResult>)

  /** Every result is stored under the index it carries. */
  ghost predicate SelfIndexed(o: Outcomes) {
    forall i :: i in o && o[i].Some? ==> o[i].value.requestIndex == i
  }

  function At(o: Outcomes, i: nat): seq<ScanResult> {
    if i in o && o[i].Some? then [o[i].value] else []
  }

  /** The actionable results with an index in lo..hi, in index order. */
  function Actionable(o: Outcomes, lo: nat, hi: nat): seq<ScanResult> {
    if hi <= lo then [] else Actionable(o, lo, hi - 1) + At(o, hi - 1)
  }

  lemma {:induction false} ActionableSplit(o: Outcomes, lo: nat, mid: nat, hi: nat)
    requires lo <= mid <= hi
    ensures Actionable(o, lo, hi) == Actionable(o, lo, mid) + Actionable(o, mid, hi)
    decreases hi
  {
    if mid < hi {
      ActionableSplit(o, lo, mid, hi - 1);
    }
  }

  lemma {:induction false} ActionableFrame(o: Outcomes, o': Outcomes, lo: nat, hi: nat)
    requires forall i :: lo <= i < hi ==> At(o, i) == At(o', i)
    ensures Actionable(o, lo, hi) == Actionable(o', lo, hi)
    decreases hi
  {
    if lo < hi {
      ActionableFrame(o, o', lo, hi - 1);
    }
  }

  /** The results of a range are strictly ordered by index and lie in it. */
  lemma {:induction false} ActionableOrdered(o: Outcomes, lo: nat, hi: nat)
    requires SelfIndexed(o)
    ensures forall k :: 0 <= k < |Actionable(o, lo, hi)| ==> lo <= Actionable(o, lo, hi)[k].requestIndex < hi
    ensures forall j, k :: 0 <= j < k < |Actionable(o, lo, hi)| ==>
                             Actionable(o, lo, hi)[j].requestIndex < Actionable(o, lo, hi)[k].requestIndex
    decreases hi
  {
    if lo < hi {
      ActionableOrdered(o, lo, hi - 1);
    }
  }

  /** Exactly the actionable indexes of the range occur. */
  lemma {:induction false} ActionableMembers(o: Outcomes, lo: nat, hi: nat, r: ScanResult)
    requires SelfIndexed(o)
    ensures r in Actionable(o, lo, hi) <==>
            lo <= r.requestIndex < hi && r.requestIndex in o && o[r.requestIndex] == Some(r)
    decreases hi
  {
    if lo < hi {
      ActionableMembers(o, lo, hi - 1, r);
    }
  }

  /** The actionable results at or after lo that nobody has collected yet. */
  function PendingFrom(o: Outcomes, lo: nat): map<nat, ScanResult> {
    map i | i in o && lo <= i && o[i].Some? :: o[i].value
  }

  lemma PendingStep(o: Outcomes, i: nat)
    ensures At(o, i) == if i in PendingFrom(o, i) then [PendingFrom(o, i)[i]] else []
    ensures PendingFrom(o, i + 1) == PendingFrom(o, i) - {i}
  {
  }

  lemma PendingPush(o: Outcomes, i: nat, r: Option<ScanResult>, lo: nat)
    requires i !in o && lo <= i
    ensures PendingFrom(o[i := r], lo) == if r.Some? then PendingFrom(o, lo)[i := r.value] else PendingFrom(o, lo)
  {
  }

  /** The first index at or after i that is not yet complete. */
  function Frontier(flags: seq<bool>, i: nat): (r: nat)
    requires i <= |flags|
    ensures i <= r <= |flags|
    ensures forall k :: i <= k < r ==> flags[k]
    ensures r < |flags| ==> !flags[r]
    decreases |flags| - i
  {
    if i < |flags| && flags[i] then Frontier(flags, i + 1) else i
  }

  lemma {:induction false} FrontierFrom(flags: seq<bool>, i: nat, j: nat)
    requires i <= j <= |flags|
    requires forall k :: i <= k < j ==> flags[k]
    ensures Frontier(flags, i) == Frontier(flags, j)
    decreases j - i
  {
    if i < j {
      FrontierFrom(flags, i + 1, j);
    }
  }

  class OrderedChunkBuffer {
    // Shared with the workers.
    const completed: array<bool>
    var pendingResults: map<nat, ScanResult>
    // Coordinator-only.
    var chunkStart: nat
    var nextIndex: nat
    var readyResults: seq<ScanResult>
    // What workers have pushed so far.
    ghost var published: Outcomes

    ghost predicate Valid()
      reads this, completed
    {
      && chunkStart <= nextIndex <= completed.Length
      && SelfIndexed(published)
      && (forall i: nat :: i in published <==> i < completed.Length && completed[i])
      && (forall i :: 0 <= i < nextIndex ==> completed[i])
      && pendingResults == PendingFrom(published, nextIndex)
      && readyResults == Actionable(published, chunkStart, nextIndex)
    }

    constructor (resultCount: nat)
      ensures Valid() && fresh(completed)
      ensures completed.Length == resultCount && chunkStart == 0 && published == map[]
    {
      completed := new bool[resultCount](_ => false);
      pendingResults := map[];
      chunkStart, nextIndex := 0, 0;
      readyResults := [];
      published := map[];
    }

    /** Record one completion: the result first, then the flag. */
    method Push(requestIndex: nat, result: Option<ScanResult>)
      requires Valid()
      requires requestIndex < completed.Length && !completed[requestIndex]
      requires result.Some? ==> result.value.requestIndex == requestIndex
      modifies this`pendingResults, this`published, completed
      ensures Valid()
      ensures published == old(published)[requestIndex := result]
    {
      ActionableFrame(published, published[requestIndex := result], chunkStart, nextIndex);
      PendingPush(published, requestIndex, result, nextIndex);
      if result.Some? {
        pendingResults := pendingResults[requestIndex := result.value];
      }
      completed[requestIndex] := true;
      published := published[requestIndex := result];
    }

    /** Advance over completed flags, then collect their results under the lock. */
    method RefreshReady()
      requires Valid()
      modifies this`nextIndex, this`pendingResults, this`readyResults
      ensures Valid()
      ensures nextIndex == Frontier(completed[..], old(chunkStart))
    {
      var firstNewIndex := nextIndex;
      while nextIndex < completed.Length && completed[nextIndex]
        invariant firstNewIndex <= nextIndex <= completed.Length
        invariant forall i :: 0 <= i < nextIndex ==> completed[i]
        modifies this`nextIndex
      {
        nextIndex := nextIndex + 1;
      }
      FrontierFrom(completed[..], chunkStart, nextIndex);
      if nextIndex == firstNewIndex {
        return;
      }
      Collect(firstNewIndex);
    }

    /** The locked part of the refresh: take the results of firstNewIndex..nextIndex out of the map. */
    method Collect(firstNewIndex: nat)
      requires chunkStart <= firstNewIndex <= nextIndex
      requires pendingResults == PendingFrom(published, firstNewIndex)
      requires readyResults == Actionable(published, chunkStart, firstNewIndex)
      modifies this`pendingResults, this`readyResults
      ensures pendingResults == PendingFrom(published, nextIndex)
      ensures readyResults == Actionable(published, chunkStart, nextIndex)
    {
      for requestIndex := firstNewIndex to nextIndex
        invariant pendingResults == PendingFrom(published, requestIndex)
        invariant readyResults == Actionable(published, chunkStart, requestIndex)
      {
        PendingStep(published, requestIndex);
        if requestIndex in pendingResults {
          readyResults := readyResults + [pendingResults[requestIndex]];
        }
        pendingResults := pendingResults - {requestIndex};
      }
    }

    /** Move the ready results below endIndex, and only those, out of the queue. */
    method CutReady(endIndex: nat) returns (results: seq<ScanResult>)
      requires chunkStart <= endIndex <= nextIndex && SelfIndexed(published)
      requires readyResults == Actionable(published, chunkStart, nextIndex)
      modifies this`readyResults
      ensures results == Actionable(published, chunkStart, endIndex)
      ensures readyResults == Actionable(published, endIndex, nextIndex)
    {
      ghost var front := Actionable(published, chunkStart, endIndex);
      ghost var back := Actionable(published, endIndex, nextIndex);
      ActionableSplit(published, chunkStart, endIndex, nextIndex);
      ActionableOrdered(published, chunkStart, endIndex);
      ActionableOrdered(published, endIndex, nextIndex);
      results := [];
      while |readyResults| > 0 && readyResults[0].requestIndex < endIndex
        invariant |results| <= |front|
        invariant results == front[..|results|]
        invariant readyResults == front[|results|..] + back
        decreases |readyResults|
      {
        assert |results| < |front|;
        results := results + [readyResults[0]];
        readyResults := readyResults[1..];
      }
      assert |results| == |front|;
    }

    /** The next releasable prefix chunk, or None when it is not due yet. */
    method TakeReady(chunkSize: nat, force: bool) returns (chunk: Option<Chunk>)
      requires Valid()
      modifies this`chunkStart, this`nextIndex, this`pendingResults, this`readyResults
      ensures Valid()
      ensures nextIndex == Frontier(completed[..], old(chunkStart))
      ensures var due := nextIndex - old(chunkStart);
              if due == 0 || (!force && due < Max(chunkSize, 1)) then
                chunk == None && chunkStart == old(chunkStart)
              else
                var end := old(chunkStart) + Min(due, Max(chunkSize, 1));
                && chunk == Some(Chunk(old(chunkStart), end, Actionable(published, old(chunkStart), end)))
                && chunkStart == end
    {
      RefreshReady();
      var readyCount := nextIndex - chunkStart;
      if readyCount == 0 || (!force && readyCount < Max(chunkSize, 1)) {
        return None;
      }
      var endIndex := chunkStart + Min(readyCount, Max(chunkSize, 1));
      var results := CutReady(endIndex);
      chunk := Some(Chunk(chunkStart, endIndex, results));
      chunkStart := endIndex;
    }

    method DeliveredCount() returns (count: nat)
      requires Valid()
      ensures count == chunkStart && count <= completed.Length
      ensures forall i :: 0 <= i < count ==> i in published
    {
      count := chunkStart;
    }
  }
}
