/** The order in which the native fuzzer hands out paths (lib/core/fuzzer.py). */
module HandOrder {
  import opened Wrappers
  import opened Dictionary
  import opened NativeFuzzer

  // ---------------------------------------------------- the order of handing out

  /** How many of the handed paths a callback still holds. */
  function Held(s: Sys): nat {
    if s.py.Handing? && s.py.from <= s.py.to then s.py.to - s.py.from else 0
  }

  /** Handed out and settled, then what is pending, is the initial queue in its order. */
  ghost predicate InOrder(s: Sys, initial: seq<string>)
    requires DictInv(s)
  {
    && (Active(s) && s.paths.Range? ==> s.dict.extraIndex == |s.dict.extra|)
    && (s.py.Handing? ==> s.py.from <= s.py.to <= |Current(s)|)
    && Held(s) <= |s.handed|
    && (s.py.Handing? ==> s.handed[|s.handed| - Held(s)..] == Current(s)[s.py.from..s.py.to])
    && s.handed[..|s.handed| - Held(s)] + Pending(s.dict) == initial
  }

  lemma PathsTakeFront(d: Dict, ps: seq<string>, from: nat, to: nat)
    requires ValidDict(d) && Outstanding(d, Paths(ps), from) && from < to <= |ps|
    ensures Pending(d) == ps[from..to] + Pending(ReleaseSpan(d, Paths(ps), from, to))
  {
    assert ps[from..] == ps[from..to] + ps[to..];
    RemoveEachPrefix(ps[from..to], ps[to..]);
    var tail := d.extra[d.extraIndex..] + d.items[Resume(d)..];
    assert Pending(d) == ps[from..to] + (ps[to..] + tail);
    assert Pending(ReleaseSpan(d, Paths(ps), from, to)) == ps[to..] + tail;
  }

  lemma CorpusPending(d: Dict, a: nat)
    requires d.claimed == [] && d.extraIndex == |d.extra| && a == Resume(d) <= |d.items|
    ensures Pending(d) == d.items[a..]
  {
    assert d.extra[d.extraIndex..] == [];
  }

  lemma SplitTail(items: seq<string>, start: nat, end: nat, from: nat, to: nat)
    requires start <= end <= |items| && from <= to <= end - start
    ensures items[start + from..] == items[start..end][from..to] + items[start + to..]
  {
    SliceOfSlice(items, start, end, from, to);
    var a, b := start + from, start + to;
    assert items[a..] == items[a..b] + items[b..];
  }

  lemma RangeFront(d: Dict, d': Dict, start: nat, end: nat, from: nat, to: nat)
    requires d.claimed == d'.claimed == [] && d.extraIndex == |d.extra| && d'.extraIndex == |d'.extra|
    requires start <= end <= |d.items| && from <= to <= end - start && d'.items == d.items
    requires Resume(d) == start + from && Resume(d') == start + to
    ensures Pending(d) == d.items[start..end][from..to] + Pending(d')
  {
    CorpusPending(d, start + from);
    CorpusPending(d', start + to);
    SplitTail(d.items, start, end, from, to);
  }

  lemma RangeTakesFront(d: Dict, chunk: NativeChunk, from: nat, to: nat)
    requires ValidDict(d) && Synchronous(d) && Outstanding(d, Range(chunk), from)
    requires from < to <= chunk.end - chunk.start
    requires chunk.start <= chunk.end <= |d.items| && d.extraIndex == |d.extra|
    ensures ValidDict(ReleaseSpan(d, Range(chunk), from, to))
    ensures Pending(d) == d.items[chunk.start..chunk.end][from..to] + Pending(ReleaseSpan(d, Range(chunk), from, to))
  {
    ReleaseRangeAdvances(d, chunk, from, to);
    RangeFront(d, ReleaseSpan(d, Range(chunk), from, to), chunk.start, chunk.end, from, to);
  }

  /** A release takes the front of the pending list. */
  lemma ReleaseTakesFront(d: Dict, c: Claimed, from: nat, to: nat)
    requires ValidDict(d) && Synchronous(d) && RangeFits(d, c) && Outstanding(d, c, from)
    requires from < to <= |PathsOf(d.items, c)|
    requires c.Range? ==> d.extraIndex == |d.extra|
    ensures ValidDict(ReleaseSpan(d, c, from, to))
    ensures Pending(d) == PathsOf(d.items, c)[from..to] + Pending(ReleaseSpan(d, c, from, to))
  {
    ReleaseSpanKeepsRest(d, c, from, to);
    match c {
      case Paths(ps) => PathsTakeFront(d, ps, from, to);
      case Range(chunk) => RangeTakesFront(d, chunk, from, to);
    }
  }

  lemma HandKeepsOrder(s: Sys, from: nat, to: nat, isEvent: bool, initial: seq<string>)
    requires DictInv(s) && InOrder(s, initial) && (s.py.AtEvent? || s.py.AtResult?) && from <= to <= |Current(s)|
    ensures InOrder(Hand(s, from, to, isEvent), initial)
  {
    var t := Hand(s, from, to, isEvent);
    assert t.handed[|s.handed|..] == Current(s)[from..to];
    assert s.handed[..|s.handed|] == s.handed && t.handed[..|s.handed|] == s.handed;
  }

  lemma Regroup(handed: seq<string>, n: nat, span: seq<string>, pending: seq<string>, rest: seq<string>)
    requires n == |span| <= |handed| && handed[|handed| - n..] == span && pending == span + rest
    ensures handed[..|handed| - n] + pending == handed + rest
  {
    assert handed == handed[..|handed| - n] + span;
  }

  lemma ReleaseKeepsOrder(s: Sys, initial: seq<string>)
    requires DictInv(s) && InOrder(s, initial) && s.py.Handing? && s.py.from < s.py.to
    requires Outstanding(s.dict, s.paths, s.py.from) && (s.paths.Range? ==> s.dict.extraIndex == |s.dict.extra|)
    requires (s.paths.Paths? ==> s.py.to <= |s.paths.paths|) && (s.paths.Range? ==> s.dict.nativeClaim.Some?)
    ensures ValidDict(Settled(s).dict) && s.handed + Pending(Settled(s).dict) == initial
    ensures Settled(s).dict.extra == s.dict.extra && Settled(s).dict.extraIndex == s.dict.extraIndex
  {
    ReleaseTakesFront(s.dict, s.paths, s.py.from, s.py.to);
    Regroup(s.handed, Held(s), Current(s)[s.py.from..s.py.to], Pending(s.dict), Pending(Settled(s).dict));
  }

  /** What is outstanding while a callback holds a span starts with that span. */
  lemma HeldIsOutstanding(s: Sys)
    requires DictInv(s) && ClaimInv(s) && s.py.Handing?
    ensures Outstanding(s.dict, s.paths, s.py.from) && s.py.from < s.py.to
  {
  }

  lemma ClaimOrder(d: Dict, maximum: int, basePath: string)
    requires ValidDict(d) && NothingClaimed(d) && maximum > 0
    ensures var (d', c) := ClaimNative(d, maximum, basePath);
            ValidDict(d') && Pending(d') == Pending(d) && (c.Range? ==> d'.extraIndex == |d'.extra|)
  {
    ClaimNativeKeepsPending(d, maximum, basePath);
  }

  /** Outside a callback only the pending list and the handed paths matter. */
  lemma SettledOrder(s: Sys, initial: seq<string>)
    requires DictInv(s) && !s.py.Handing? && s.handed + Pending(s.dict) == initial
    requires Active(s) && s.paths.Range? ==> s.dict.extraIndex == |s.dict.extra|
    ensures InOrder(s, initial)
  {
    assert s.handed[..|s.handed|] == s.handed;
  }

  lemma HandedSoFar(s: Sys, initial: seq<string>)
    requires DictInv(s) && InOrder(s, initial) && !s.py.Handing?
    ensures s.handed + Pending(s.dict) == initial
  {
    assert s.handed[..|s.handed|] == s.handed;
  }

  lemma ClaimStepKeepsOrder(s: Sys, initial: seq<string>)
    requires LoopSideInv(s) && InOrder(s, initial) && Enabled(s, ClaimChunk) && DictInv(Next(s, ClaimChunk))
    ensures InOrder(Next(s, ClaimChunk), initial)
  {
    HandedSoFar(s, initial);
    ClaimOrder(s.dict, s.cfg.maximum, s.cfg.basePath);
    SettledOrder(Next(s, ClaimChunk), initial);
  }

  /** Any other step outside a callback requeues or leaves the dictionary alone. */
  lemma OtherStepFrame(s: Sys, a: Action)
    requires DictInv(s) && Enabled(s, a) && !s.py.Handing?
    requires !a.Discover? && !Hands(a) && !a.Release? && !a.ClaimChunk?
    ensures var t := Next(s, a); !t.py.Handing? && (t.dict == s.dict || t.dict == Requeue(s.dict))
    ensures var t := Next(s, a); Active(t) ==> Active(s) && t.dict == s.dict
  {
  }

  lemma NothingHanded(s: Sys, a: Action)
    requires Enabled(s, a) && !a.Discover? && !Hands(a) && !a.Release? && !a.ClaimChunk?
    ensures Next(s, a).handed == s.handed && Next(s, a).paths == s.paths
  {
  }

  lemma StepOutOfCallback(s: Sys, a: Action, initial: seq<string>)
    requires LoopSideInv(s) && InOrder(s, initial) && Enabled(s, a) && DictInv(Next(s, a))
    requires !a.Discover? && !Hands(a) && !a.Release? && !s.py.Handing?
    ensures InOrder(Next(s, a), initial)
  {
    if a.ClaimChunk? {
      ClaimStepKeepsOrder(s, initial);
    } else {
      HandedSoFar(s, initial);
      OtherStepFrame(s, a);
      NothingHanded(s, a);
      RequeueKeepsPending(s.dict);
      SettledOrder(Next(s, a), initial);
    }
  }

  lemma HandedSpan(s: Sys, a: Action) returns (h: Python)
    requires Enabled(s, a) && Hands(a)
    ensures (s.py.AtEvent? || s.py.AtResult?) && RangeFits(s.dict, s.paths)
    ensures h.Handing? && h.from <= h.to <= |Current(s)| && Next(s, a) == Hand(s, h.from, h.to, h.isEvent)
  {
    h := Next(s, a).py;
  }

  lemma HandStepKeepsOrder(s: Sys, a: Action, initial: seq<string>)
    requires DictInv(s) && InOrder(s, initial) && Enabled(s, a) && Hands(a)
    ensures DictInv(Next(s, a)) && InOrder(Next(s, a), initial)
  {
    var h := HandedSpan(s, a);
    HandKeepsOrder(s, h.from, h.to, h.isEvent, initial);
  }

  lemma ReleaseStepKeepsOrder(s: Sys, a: Action, initial: seq<string>)
    requires DictInv(s) && ClaimInv(s) && InOrder(s, initial) && Enabled(s, a) && a.Release? && DictInv(Next(s, a))
    ensures InOrder(Next(s, a), initial)
  {
    HeldIsOutstanding(s);
    ReleaseKeepsOrder(s, initial);
    ReleaseIsSettled(s, a);
    SettledOrder(Next(s, a), initial);
  }

  /** While a callback runs, the other threads change neither the claims nor what was handed out. */
  lemma BesideCallback(s: Sys, a: Action, initial: seq<string>)
    requires DictInv(s) && InOrder(s, initial) && Enabled(s, a) && s.py.Handing? && !a.Discover? && !a.Release?
    ensures DictInv(Next(s, a)) && InOrder(Next(s, a), initial)
  {
  }

  lemma StepKeepsOrder(s: Sys, a: Action, initial: seq<string>)
    requires LoopSideInv(s) && InOrder(s, initial) && Enabled(s, a) && !a.Discover? && DictInv(Next(s, a))
    ensures InOrder(Next(s, a), initial)
  {
    if Hands(a) {
      HandStepKeepsOrder(s, a, initial);
    } else if a.Release? {
      ReleaseStepKeepsOrder(s, a, initial);
    } else if s.py.Handing? {
      BesideCallback(s, a, initial);
    } else {
      StepOutOfCallback(s, a, initial);
    }
  }

  predicate Undisturbed(run: seq<Action>) {
    forall i :: 0 <= i < |run| ==> !run[i].Discover?
  }

  lemma KeptInOrder(s: Sys, a: Action, initial: seq<string>)
    requires Inv(s) && InOrder(s, initial) && Enabled(s, a) && !a.Discover?
    ensures Inv(Next(s, a)) && InOrder(Next(s, a), initial)
  {
    StepKeepsInv(s, a);
    StepKeepsOrder(s, a, initial);
  }

  lemma {:induction false} RunKeepsOrder(s: Sys, run: seq<Action>, initial: seq<string>)
    requires Inv(s) && InOrder(s, initial) && ValidRun(s, run) && Undisturbed(run)
    ensures Inv(Final(s, run)) && InOrder(Final(s, run), initial)
    decreases |run|
  {
    if run != [] {
      assert forall i :: 0 <= i < |run[1..]| ==> run[1..][i] == run[i + 1];
      KeptInOrder(s, run[0], initial);
      RunKeepsOrder(Next(s, run[0]), run[1..], initial);
    }
  }

  lemma StartsInOrder(cfg: Config, d: Dict)
    requires ValidDict(d) && NothingClaimed(d)
    ensures DictInv(Start(cfg, d)) && InOrder(Start(cfg, d), Queue(d))
  {
    assert [] + Queue(d) == Queue(d) && Pending(d) == Queue(d);
    SettledOrder(Start(cfg, d), Queue(d));
  }

  /**
   Handed out and settled, then pending, is the whole queue. At the head of the loop
   and after a failure the rest is queued, and a normal end leaves nothing.
   */
  ghost predicate SuffixPending(s: Sys, initial: seq<string>)
    requires ValidDict(s.dict)
  {
    && Held(s) <= |s.handed| && s.handed[..|s.handed| - Held(s)] + Pending(s.dict) == initial
    && ((s.py.Top? && !s.quit) || (s.py.Done? && s.py.failed) ==> s.handed + Queue(s.dict) == initial)
    && (s.py.Done? && !s.py.failed && !s.quit ==> s.handed == initial)
  }

  lemma OrderMeansSuffix(s: Sys, initial: seq<string>)
    requires DictInv(s) && ClaimInv(s) && InOrder(s, initial)
    ensures SuffixPending(s, initial)
  {
    if !s.py.Handing? {
      HandedSoFar(s, initial);
      if NothingClaimed(s.dict) {
        assert Pending(s.dict) == Queue(s.dict);
      }
    }
  }

  /**
   In every run without discoveries, paths are handed out in the order of the queue,
   and what is pending is exactly its suffix that was not handed out; while a callback
   holds some paths, those are pending still. At the head of the loop and after a
   failure that suffix is queued, and a normal end leaves none of it.
   */
  lemma UnhandledSuffixIsPending(cfg: Config, d: Dict, run: seq<Action>)
    requires ValidDict(d) && NothingClaimed(d) && cfg.maximum >= 1 && cfg.concurrency >= 1
    requires ValidRun(Start(cfg, d), run) && Undisturbed(run)
    ensures var s := Final(Start(cfg, d), run); ValidDict(s.dict) && SuffixPending(s, Queue(d))
  {
    StartInv(cfg, d);
    StartsInOrder(cfg, d);
    RunKeepsOrder(Start(cfg, d), run, Queue(d));
    OrderMeansSuffix(Final(Start(cfg, d), run), Queue(d));
  }
}
