/**
 The path dictionary (lib/core/dictionary.py): claims, releases, requeueing and
 snapshots.

 Dict is the abstract state, with every operation defined one path at a time.
 The class keeps the fields the program keeps and works in bulk; each method is
 proved to do exactly what the one-path-at-a-time operation does.
 */
module Dictionary {
  import opened Wrappers

  // A range of the Rust-owned corpus; id stands for the identity of the object.
  datatype NativeChunk = NativeChunk(id: nat, start: nat, end: nat, basePath: string)

  datatype NativeClaim = NativeClaim(chunk: NativeChunk, start: nat, released: nat)

  datatype Claimed = Paths(paths: seq<string>) | Range(chunk: NativeChunk)

  datatype Dict = Dict(
    items: seq<string>,
    nativeCorpus: bool,
    index: nat,
    extra: seq<string>,
    extraIndex: nat,
    extraMembership: set<string>,
    claimed: seq<string>,
    nativeClaim: Option<NativeClaim>,
    nextId: nat
  )

  datatype Snapshot = Snapshot(items: seq<string>, index: nat, extra: seq<string>, extraIndex: nat)

  // ------------------------------------------------------------ abstract view

  /** Where the corpus would be resumed. */
  function Resume(d: Dict): nat {
    if d.nativeClaim.Some? then d.nativeClaim.value.start + d.nativeClaim.value.released else d.index
  }

  ghost predicate ValidDict(d: Dict) {
    && d.index <= |d.items| && d.extraIndex <= |d.extra|
    && Resume(d) <= |d.items|
    && (forall p :: p in d.extra || p in d.claimed ==> Known(d, p))
    && (forall p :: p in d.extraMembership ==> p in d.extra)
    && (d.nativeClaim.Some? ==>
          var c := d.nativeClaim.value;
          d.nativeCorpus && c.start == c.chunk.start && c.start + c.released < c.chunk.end <= d.index
              && c.chunk.id < d.nextId)
  }

  /** No corpus path has been claimed since the active native claim was made. */
  predicate Synchronous(d: Dict) {
    d.nativeClaim.Some? ==> d.nativeClaim.value.chunk.end == d.index
  }

  /** A path that may not be queued again. */
  predicate Known(d: Dict, p: string) {
    p in d.items || p in d.extraMembership
  }

  /** Paths nobody has claimed, in claim order. */
  function Queue(d: Dict): seq<string>
    requires d.index <= |d.items| && d.extraIndex <= |d.extra|
  {
    d.extra[d.extraIndex..] + d.items[d.index..]
  }

  /** Every path not yet released, in the order a requeue would serve it. */
  function Pending(d: Dict): seq<string>
    requires d.extraIndex <= |d.extra| && Resume(d) <= |d.items|
  {
    d.claimed + d.extra[d.extraIndex..] + d.items[Resume(d)..]
  }

  // ------------------------------------------- operations, one path at a time

  function ClaimOne(d: Dict): Dict
    requires d.index <= |d.items| && d.extraIndex <= |d.extra| && Queue(d) != []
  {
    if d.extraIndex < |d.extra| then
      d.(claimed := d.claimed + [Queue(d)[0]], extraIndex := d.extraIndex + 1)
    else
      d.(claimed := d.claimed + [Queue(d)[0]], index := d.index + 1)
  }

  function ClaimEach(d: Dict, maximum: int): (r: Dict)
    requires d.index <= |d.items| && d.extraIndex <= |d.extra|
    ensures r.items == d.items && r.extra == d.extra
    ensures r.index <= |r.items| && r.extraIndex <= |r.extra|
    decreases maximum
  {
    if maximum <= 0 || Queue(d) == [] then d else ClaimEach(ClaimOne(d), maximum - 1)
  }

  function RemoveFirst(s: seq<string>, p: string): seq<string> {
    if s == [] then [] else if s[0] == p then s[1..] else [s[0]] + RemoveFirst(s[1..], p)
  }

  function RemoveEach(s: seq<string>, ps: seq<string>): seq<string>
    decreases |ps|
  {
    if ps == [] then s else RemoveEach(RemoveFirst(s, ps[0]), ps[1..])
  }

  /** What a native scan claims next: any extras first, then one range of a Rust-owned corpus. */
  function ClaimNative(d: Dict, maximum: int, basePath: string): (Dict, Claimed)
    requires d.index <= |d.items| && d.extraIndex <= |d.extra|
  {
    if maximum <= 0 then (d, Paths([]))
    else if !d.nativeCorpus then
      (ClaimEach(d, maximum), Paths(Queue(d)[..Min(maximum, |Queue(d)|)]))
    else if d.extraIndex < |d.extra| then
      var count := Min(maximum, |d.extra| - d.extraIndex);
      (ClaimEach(d, count), Paths(Queue(d)[..count]))
    else if d.index == |d.items| then (d, Paths([]))
    else
      var chunk := NativeChunk(d.nextId, d.index, Min(d.index + maximum, |d.items|), basePath);
      (d.(index := chunk.end, nativeClaim := Some(NativeClaim(chunk, d.index, 0)), nextId := d.nextId + 1),
       Range(chunk))
  }

  function ReleaseNative(d: Dict, count: nat): Dict
    requires d.nativeClaim.Some?
  {
    var c := d.nativeClaim.value;
    if c.start + c.released + count == c.chunk.end then d.(nativeClaim := None)
    else d.(nativeClaim := Some(c.(released := c.released + count)))
  }

  function Requeue(d: Dict): Dict
    requires d.extraIndex <= |d.extra|
  {
    d.(extra := d.extra[..d.extraIndex] + d.claimed + d.extra[d.extraIndex..],
       claimed := [], index := Resume(d), nativeClaim := None)
  }

  function TakeSnapshot(d: Dict): Snapshot
    requires d.extraIndex <= |d.extra|
  {
    Snapshot(d.items, Resume(d), d.extra[..d.extraIndex] + d.claimed + d.extra[d.extraIndex..], d.extraIndex)
  }

  function Restore(s: Snapshot, nextId: nat): Dict {
    Dict(s.items, false, s.index, s.extra, s.extraIndex, set p | p in s.extra, [], None, nextId)
  }

  predicate Accepts(d: Dict, path: string, isValid: bool) {
    isValid && !Known(d, path)
  }

  function AddExtra(d: Dict, path: string, isValid: bool): Dict {
    if Accepts(d, path, isValid) then
      d.(extra := d.extra + [path], extraMembership := d.extraMembership + {path})
    else d
  }

  // -------------------------------------------------------------- properties

  /** A claim keeps the pending list unless it takes a corpus path past an outstanding range. */
  lemma ClaimOneKeepsPending(d: Dict)
    requires d.index <= |d.items| && d.extraIndex <= |d.extra| && Resume(d) <= |d.items| && Queue(d) != []
    ensures Resume(ClaimOne(d)) <= |d.items|
    ensures Pending(ClaimOne(d)) == Pending(d) <==> d.nativeClaim.None? || d.extraIndex < |d.extra|
  {
    var c, x, e, i := d.claimed, Queue(d)[0], d.extra[d.extraIndex..], d.items[Resume(d)..];
    if d.extraIndex < |d.extra| {
      assert d.extra[d.extraIndex + 1..] == e[1..];
      assert c + [x] + e[1..] + i == c + e + i;
    } else if d.nativeClaim.None? {
      assert d.items[d.index + 1..] == i[1..];
      assert c + [x] + e + i[1..] == c + e + i;
    } else {
      assert |Pending(ClaimOne(d))| == |Pending(d)| + 1;
    }
  }

  lemma ClaimOneKeepsValid(d: Dict)
    requires ValidDict(d) && Queue(d) != []
    ensures ValidDict(ClaimOne(d))
  {
    if d.extraIndex < |d.extra| {
      assert d.extra[d.extraIndex] in d.extra;
    } else {
      assert d.items[d.index] in d.items;
    }
  }

  lemma {:induction false} ClaimEachKeepsValid(d: Dict, maximum: int)
    requires ValidDict(d)
    ensures ValidDict(ClaimEach(d, maximum))
    decreases maximum
  {
    if !(maximum <= 0 || Queue(d) == []) {
      ClaimOneKeepsValid(d);
      ClaimEachKeepsValid(ClaimOne(d), maximum - 1);
    }
  }

  /** A bulk claim loses nothing. */
  lemma {:induction false} ClaimEachKeepsPending(d: Dict, maximum: int)
    requires ValidDict(d) && d.nativeClaim.None?
    ensures ValidDict(ClaimEach(d, maximum)) && ClaimEach(d, maximum).nativeClaim.None?
    ensures Pending(ClaimEach(d, maximum)) == Pending(d)
    decreases maximum
  {
    if !(maximum <= 0 || Queue(d) == []) {
      ClaimOneKeepsValid(d);
      ClaimOneKeepsPending(d);
      ClaimEachKeepsPending(ClaimOne(d), maximum - 1);
    }
  }

  /** Claim e extras and i items at once. */
  function Advance(d: Dict, e: nat, i: nat): Dict
    requires d.extraIndex + e <= |d.extra| && d.index + i <= |d.items|
  {
    d.(claimed := d.claimed + (d.extra[d.extraIndex..d.extraIndex + e] + d.items[d.index..d.index + i]),
       extraIndex := d.extraIndex + e, index := d.index + i)
  }

  lemma AdvanceExtra(d: Dict, e: nat, i: nat)
    requires 1 <= e && d.extraIndex + e <= |d.extra| && d.index + i <= |d.items|
    ensures Advance(ClaimOne(d), e - 1, i) == Advance(d, e, i)
  {
    var x := d.extra[d.extraIndex];
    assert d.extra[d.extraIndex..d.extraIndex + e] == [x] + d.extra[d.extraIndex + 1..d.extraIndex + e];
  }

  lemma AdvanceItem(d: Dict, i: nat)
    requires d.extraIndex == |d.extra| && 1 <= i && d.index + i <= |d.items|
    ensures Advance(ClaimOne(d), 0, i - 1) == Advance(d, 0, i)
  {
    var x := d.items[d.index];
    assert d.items[d.index..d.index + i] == [x] + d.items[d.index + 1..d.index + i];
  }

  /** Claiming in bulk is repeated single claims. */
  lemma {:induction false} ClaimEachIsAdvance(d: Dict, maximum: nat, e: nat, i: nat)
    requires d.index <= |d.items| && d.extraIndex <= |d.extra|
    requires e == Min(maximum, |d.extra| - d.extraIndex) && i == Min(maximum - e, |d.items| - d.index)
    ensures ClaimEach(d, maximum) == Advance(d, e, i)
    decreases maximum
  {
    if e == 0 && i == 0 {
      assert d.claimed + ([] + []) == d.claimed;
    } else if e > 0 {
      ClaimEachIsAdvance(ClaimOne(d), maximum - 1, e - 1, i);
      AdvanceExtra(d, e, i);
    } else {
      ClaimEachIsAdvance(ClaimOne(d), maximum - 1, 0, i - 1);
      AdvanceItem(d, i);
    }
  }

  lemma BulkClaim(d: Dict, maximum: nat, e: nat, i: nat)
    requires ValidDict(d)
    requires e == Min(maximum, |d.extra| - d.extraIndex) && i == Min(maximum - e, |d.items| - d.index)
    ensures ClaimEach(d, maximum) == Advance(d, e, i) && ValidDict(Advance(d, e, i))
  {
    ClaimEachKeepsValid(d, maximum);
    ClaimEachIsAdvance(d, maximum, e, i);
  }

  lemma AdvanceTakesPrefix(d: Dict, e: nat, i: nat)
    requires d.extraIndex + e <= |d.extra| && d.index + i <= |d.items| && (i > 0 ==> d.extraIndex + e == |d.extra|)
    ensures Advance(d, e, i).claimed == d.claimed + Queue(d)[..e + i]
    ensures Queue(Advance(d, e, i)) == Queue(d)[e + i..]
  {
    var extras, corpus := d.extra[d.extraIndex..], d.items[d.index..];
    assert d.extra[d.extraIndex..d.extraIndex + e] == extras[..e];
    assert d.items[d.index..d.index + i] == corpus[..i];
    PrefixOfConcat(extras, corpus, e, i);
  }

  /** A bulk claim takes exactly the first paths of the queue. */
  lemma ClaimEachTakesPrefix(d: Dict, maximum: nat)
    requires d.index <= |d.items| && d.extraIndex <= |d.extra|
    ensures var k := Min(maximum, |Queue(d)|);
            && ClaimEach(d, maximum).claimed == d.claimed + Queue(d)[..k]
            && Queue(ClaimEach(d, maximum)) == Queue(d)[k..]
  {
    var e := Min(maximum, |d.extra| - d.extraIndex);
    var i := Min(maximum - e, |d.items| - d.index);
    ClaimEachIsAdvance(d, maximum, e, i);
    AdvanceTakesPrefix(d, e, i);
  }

  lemma PrefixOfConcat(a: seq<string>, b: seq<string>, e: nat, i: nat)
    requires e <= |a| && i <= |b| && (i > 0 ==> e == |a|)
    ensures (a + b)[..e + i] == a[..e] + b[..i]
    ensures (a + b)[e + i..] == a[e..] + b[i..]
  {
  }

  lemma {:induction false} RemoveFirstBalance(s: seq<string>, p: string)
    requires p in s
    ensures multiset(RemoveFirst(s, p)) + multiset{p} == multiset(s)
  {
    assert s == [s[0]] + s[1..];
    if s[0] != p {
      RemoveFirstBalance(s[1..], p);
    }
  }

  lemma {:induction false} RemoveEachBalance(s: seq<string>, ps: seq<string>)
    requires multiset(ps) <= multiset(s)
    ensures multiset(RemoveEach(s, ps)) + multiset(ps) == multiset(s)
    decreases |ps|
  {
    if ps == [] {
      assert multiset(s) + multiset{} == multiset(s);
    } else {
      RemoveFirstCovers(s, ps);
      RemoveEachBalance(RemoveFirst(s, ps[0]), ps[1..]);
      RemoveFirstBalance(s, ps[0]);
    }
  }

  lemma RemoveFirstCovers(s: seq<string>, ps: seq<string>)
    requires ps != [] && multiset(ps) <= multiset(s)
    ensures ps[0] in s && multiset(ps) == multiset{ps[0]} + multiset(ps[1..])
    ensures multiset(ps[1..]) <= multiset(RemoveFirst(s, ps[0]))
  {
    assert ps == [ps[0]] + ps[1..];
    assert ps[0] in multiset(ps);
    RemoveFirstBalance(s, ps[0]);
    var r := multiset(RemoveFirst(s, ps[0]));
    forall x ensures multiset(ps[1..])[x] <= r[x] {
      assert multiset(ps)[x] <= multiset(s)[x] == (r + multiset{ps[0]})[x];
    }
  }

  function PathsOf(items: seq<string>, c: Claimed): seq<string>
    requires c.Range? ==> c.chunk.start <= c.chunk.end <= |items|
  {
    match c
    case Paths(paths) => paths
    case Range(chunk) => items[chunk.start..chunk.end]
  }

  /** Exactly the part of claim c after its first released paths is outstanding. */
  ghost predicate Outstanding(d: Dict, c: Claimed, released: nat) {
    match c
    case Paths(paths) => released <= |paths| && d.claimed == paths[released..] && d.nativeClaim.None?
    case Range(chunk) =>
      && d.claimed == [] && d.nativeCorpus
      && chunk.start + released <= chunk.end == d.index
      && d.nativeClaim == if chunk.start + released == chunk.end then None
                          else Some(NativeClaim(chunk, chunk.start, released))
  }

  lemma ClaimPathsOutstanding(d: Dict, count: nat)
    requires ValidDict(d) && d.claimed == [] && d.nativeClaim.None?
    ensures var d', c := ClaimEach(d, count), Paths(Queue(d)[..Min(count, |Queue(d)|)]);
            ValidDict(d') && Pending(d') == Pending(d) && Outstanding(d', c, 0)
  {
    var taken := Queue(d)[..Min(count, |Queue(d)|)];
    ClaimEachKeepsPending(d, count);
    ClaimEachTakesPrefix(d, count);
    assert ClaimEach(d, count).claimed == [] + taken == taken[0..];
  }

  lemma ClaimRangeOutstanding(d: Dict, maximum: int, basePath: string)
    requires ValidDict(d) && d.claimed == [] && d.nativeClaim.None? && maximum > 0
    requires d.nativeCorpus && d.extraIndex == |d.extra| && d.index < |d.items|
    ensures var (d', c) := ClaimNative(d, maximum, basePath);
            && ValidDict(d') && Synchronous(d') && Pending(d') == Pending(d) && d'.items == d.items
            && c.Range? && Outstanding(d', c, 0) && PathsOf(d.items, c) != []
  {
  }

  /** A native claim takes pending paths, all of them outstanding, and nothing when the queue is empty. */
  lemma ClaimNativeKeepsPending(d: Dict, maximum: int, basePath: string)
    requires ValidDict(d) && d.claimed == [] && d.nativeClaim.None? && maximum > 0
    ensures var (d', c) := ClaimNative(d, maximum, basePath);
            && ValidDict(d') && Synchronous(d') && d'.items == d.items
            && Pending(d') == Pending(d)
            && Outstanding(d', c, 0)
            && (PathsOf(d'.items, c) == [] <==> Pending(d) == [])
            && |PathsOf(d'.items, c)| <= maximum
  {
    assert Pending(d) == Queue(d);
    if !d.nativeCorpus {
      ClaimPathsOutstanding(d, maximum);
    } else if d.extraIndex < |d.extra| {
      ClaimPathsOutstanding(d, Min(maximum, |d.extra| - d.extraIndex));
    } else if d.index < |d.items| {
      ClaimRangeOutstanding(d, maximum, basePath);
    }
  }

  /**
   Which paths a native claim takes. While a Rust-owned corpus has extras unclaimed, the
   first of those, and from its lines a range; otherwise the first of everything
   unclaimed. Never more than maximum, and fewer only when there are no more.
   */
  lemma ClaimNativeTakesPrefix(d: Dict, maximum: int, basePath: string)
    requires d.index <= |d.items| && d.extraIndex <= |d.extra|
    ensures maximum <= 0 ==> ClaimNative(d, maximum, basePath) == (d, Paths([]))
    ensures var (d', c) := ClaimNative(d, maximum, basePath);
            var unclaimed := d.extra[d.extraIndex..] + d.items[d.index..];
            var extras := |d.extra| - d.extraIndex;
            var n := if d.nativeCorpus && extras > 0 then extras else |unclaimed|;
            maximum > 0 ==>
              && (c.Range? <==> d.nativeCorpus && extras == 0 && d.index < |d.items|)
              && (c.Paths? ==> c.paths == unclaimed[..if maximum < n then maximum else n]
                               && d'.claimed == d.claimed + c.paths && d'.nativeClaim == d.nativeClaim
                               && d'.extra[d'.extraIndex..] + d'.items[d'.index..] == unclaimed[|c.paths|..])
              && (c.Range? ==> c.chunk.start == d.index && c.chunk.basePath == basePath && c.chunk.id == d.nextId
                               && c.chunk.end == d.index + (if maximum < n then maximum else n) == d'.index
                               && d'.nativeClaim == Some(NativeClaim(c.chunk, d.index, 0))
                               && d'.claimed == d.claimed && d'.extraIndex == d.extraIndex)
              && d'.items == d.items && d'.extra == d.extra && d'.extraMembership == d.extraMembership
  {
    var extras := |d.extra| - d.extraIndex;
    if maximum > 0 {
      var n := if d.nativeCorpus && extras > 0 then extras else |Queue(d)|;
      ClaimEachTakesPrefix(d, Min(maximum, n));
      ClaimEachTakesPrefix(d, maximum);
      ClaimEachFrame(d, Min(maximum, n));
      ClaimEachFrame(d, maximum);
    }
  }

  lemma {:induction false} ClaimEachFrame(d: Dict, maximum: int)
    requires d.index <= |d.items| && d.extraIndex <= |d.extra|
    ensures var r := ClaimEach(d, maximum);
            && r.extraMembership == d.extraMembership && r.nativeClaim == d.nativeClaim
            && r.nativeCorpus == d.nativeCorpus && r.nextId == d.nextId
    decreases maximum
  {
    if !(maximum <= 0 || Queue(d) == []) {
      ClaimEachFrame(ClaimOne(d), maximum - 1);
    }
  }

  function ReleaseSpan(d: Dict, c: Claimed, from: nat, to: nat): Dict
    requires from <= to && (c.Paths? ==> to <= |c.paths|) && (c.Range? ==> d.nativeClaim.Some?)
  {
    match c
    case Paths(paths) => d.(claimed := RemoveEach(d.claimed, paths[from..to]))
    case Range(_) => ReleaseNative(d, to - from)
  }

  lemma ReleasePathsKeepsRest(d: Dict, ps: seq<string>, from: nat, to: nat)
    requires ValidDict(d) && Outstanding(d, Paths(ps), from) && from < to <= |ps|
    ensures var d' := ReleaseSpan(d, Paths(ps), from, to);
            && ValidDict(d') && Outstanding(d', Paths(ps), to)
            && multiset(Pending(d)) == multiset(Pending(d')) + multiset(ps[from..to])
  {
    assert ps[from..] == ps[from..to] + ps[to..];
    RemoveEachPrefix(ps[from..to], ps[to..]);
    FewerClaims(d, ps[to..]);
    var tail := d.extra[d.extraIndex..] + d.items[Resume(d)..];
    assert Pending(d) == ps[from..to] + (ps[to..] + tail);
    assert Pending(ReleaseSpan(d, Paths(ps), from, to)) == ps[to..] + tail;
  }

  lemma DropMiddle(front: seq<string>, items: seq<string>, a: nat, b: nat)
    requires a <= b <= |items|
    ensures multiset(front + items[a..]) == multiset(front + items[b..]) + multiset(items[a..b])
  {
    assert items[a..] == items[a..b] + items[b..];
    assert multiset(items[a..]) == multiset(items[a..b]) + multiset(items[b..]);
  }

  lemma ResumeLater(d: Dict, d': Dict, a: nat, b: nat)
    requires d.extraIndex <= |d.extra| && Resume(d) == a <= b == Resume(d') <= |d.items|
    requires d'.items == d.items && d'.claimed == d.claimed && d'.extra == d.extra && d'.extraIndex == d.extraIndex
    ensures multiset(Pending(d)) == multiset(Pending(d')) + multiset(d.items[a..b])
  {
    DropMiddle(d.claimed + d.extra[d.extraIndex..], d.items, a, b);
  }

  lemma ReleaseRangeAdvances(d: Dict, chunk: NativeChunk, from: nat, to: nat)
    requires ValidDict(d) && Synchronous(d) && Outstanding(d, Range(chunk), from)
    requires from < to <= chunk.end - chunk.start
    ensures var d' := ReleaseSpan(d, Range(chunk), from, to);
            && ValidDict(d') && Synchronous(d') && d'.items == d.items && Outstanding(d', Range(chunk), to)
            && Resume(d) == chunk.start + from && Resume(d') == chunk.start + to
            && d'.claimed == [] && d'.extra == d.extra && d'.extraIndex == d.extraIndex
  {
  }

  lemma SliceOfSlice(items: seq<string>, start: nat, end: nat, from: nat, to: nat)
    requires start <= end <= |items| && from <= to <= end - start
    ensures items[start..end][from..to] == items[start + from..start + to]
  {
    var range := items[start..end];
    assert forall k :: from <= k < to ==> range[k] == items[start + k];
  }

  lemma RangeGone(d: Dict, d': Dict, start: nat, end: nat, from: nat, to: nat)
    requires d.extraIndex <= |d.extra| && start <= end <= |d.items| && from <= to <= end - start
    requires Resume(d) == start + from && Resume(d') == start + to
    requires d'.items == d.items && d'.claimed == d.claimed && d'.extra == d.extra && d'.extraIndex == d.extraIndex
    ensures multiset(Pending(d)) == multiset(Pending(d')) + multiset(d.items[start..end][from..to])
  {
    ResumeLater(d, d', start + from, start + to);
    SliceOfSlice(d.items, start, end, from, to);
  }

  /** Releasing the next part of the outstanding claim takes just those paths off the pending list. */
  lemma ReleaseSpanKeepsRest(d: Dict, c: Claimed, from: nat, to: nat)
    requires ValidDict(d) && Synchronous(d) && Outstanding(d, c, from) && from < to <= |PathsOf(d.items, c)|
    ensures var d' := ReleaseSpan(d, c, from, to);
            && ValidDict(d') && Synchronous(d') && d'.items == d.items
            && Outstanding(d', c, to)
            && multiset(Pending(d)) == multiset(Pending(d')) + multiset(PathsOf(d.items, c)[from..to])
  {
    if c.Paths? {
      ReleasePathsKeepsRest(d, c.paths, from, to);
    } else {
      ReleaseRangeAdvances(d, c.chunk, from, to);
      RangeGone(d, ReleaseSpan(d, c, from, to), c.chunk.start, c.chunk.end, from, to);
    }
  }

  /** Keep the paths of s that m does not account for, consuming m from the left. */
  function Sieve(s: seq<string>, m: multiset<string>): (seq<string>, multiset<string>) {
    if s == [] then ([], m)
    else if s[0] in m then Sieve(s[1..], m - multiset{s[0]})
    else ([s[0]] + Sieve(s[1..], m).0, Sieve(s[1..], m).1)
  }

  lemma {:induction false} SieveBalance(s: seq<string>, m: multiset<string>)
    ensures multiset(Sieve(s, m).0) + m == multiset(s) + Sieve(s, m).1
  {
    if s != [] {
      assert s == [s[0]] + s[1..];
      if s[0] in m {
        SieveBalance(s[1..], m - multiset{s[0]});
        var kept := multiset(Sieve(s, m).0);
        assert kept + m == kept + (m - multiset{s[0]}) + multiset{s[0]};
        assert multiset(s) == multiset{s[0]} + multiset(s[1..]);
      } else {
        SieveBalance(s[1..], m);
        var kept := Sieve(s[1..], m).0;
        assert Sieve(s, m).0 == [s[0]] + kept;
        assert multiset([s[0]] + kept) == multiset{s[0]} + multiset(kept);
        assert multiset(s) == multiset{s[0]} + multiset(s[1..]);
        assert multiset{s[0]} + multiset(kept) + m == multiset{s[0]} + (multiset(kept) + m);
      }
    }
  }

  lemma {:induction false} SieveRemoveFirst(s: seq<string>, p: string, m: multiset<string>)
    requires p in s
    ensures Sieve(s, m + multiset{p}) == Sieve(RemoveFirst(s, p), m)
  {
    if s[0] == p {
      assert m + multiset{p} - multiset{p} == m;
    } else {
      var r := RemoveFirst(s, p);
      assert r[0] == s[0] && r[1..] == RemoveFirst(s[1..], p);
      if s[0] in m {
        SieveRemoveFirst(s[1..], p, m - multiset{s[0]});
        assert m + multiset{p} - multiset{s[0]} == m - multiset{s[0]} + multiset{p};
      } else {
        SieveRemoveFirst(s[1..], p, m);
      }
    }
  }

  lemma {:induction false} SieveNothing(s: seq<string>)
    ensures Sieve(s, multiset{}).0 == s && Sieve(s, multiset{}).1 == multiset{}
  {
    if s != [] {
      SieveNothing(s[1..]);
      assert s == [s[0]] + s[1..];
    }
  }

  /** The counting pass removes the same occurrences as releasing path by path. */
  lemma {:induction false} SieveIsRemoveEach(s: seq<string>, ps: seq<string>)
    requires multiset(ps) <= multiset(s)
    ensures Sieve(s, multiset(ps)).0 == RemoveEach(s, ps)
    ensures Sieve(s, multiset(ps)).1 == multiset{}
    decreases |ps|
  {
    if ps == [] {
      SieveNothing(s);
    } else {
      RemoveFirstCovers(s, ps);
      assert multiset(ps) == multiset(ps[1..]) + multiset{ps[0]};
      SieveRemoveFirst(s, ps[0], multiset(ps[1..]));
      SieveIsRemoveEach(RemoveFirst(s, ps[0]), ps[1..]);
    }
  }

  /** The counter runs empty exactly when every requested path is claimed often enough. */
  lemma SieveDecides(s: seq<string>, ps: seq<string>)
    ensures Sieve(s, multiset(ps)).1 == multiset{} <==> multiset(ps) <= multiset(s)
    ensures multiset(ps) <= multiset(s) ==> Sieve(s, multiset(ps)).0 == RemoveEach(s, ps)
  {
    if multiset(ps) <= multiset(s) {
      SieveIsRemoveEach(s, ps);
    }
    if Sieve(s, multiset(ps)).1 == multiset{} {
      SieveBalance(s, multiset(ps));
      var all := multiset(Sieve(s, multiset(ps)).0) + multiset(ps);
      assert all == multiset(s);
      assert multiset(ps) <= all;
    }
  }

  /** Dropping claims never breaks the dictionary. */
  lemma FewerClaims(d: Dict, claimed: seq<string>)
    requires ValidDict(d) && forall p :: p in claimed ==> p in d.claimed
    ensures ValidDict(d.(claimed := claimed))
  {
  }

  /** Releasing the front of the claims, through either shortcut, is releasing path by path. */
  lemma {:induction false} RemoveEachPrefix(ps: seq<string>, rest: seq<string>)
    ensures RemoveEach(ps + rest, ps) == rest
    decreases |ps|
  {
    if ps == [] {
      assert ps + rest == rest;
    } else {
      assert (ps + rest)[1..] == ps[1..] + rest;
      RemoveEachPrefix(ps[1..], rest);
    }
  }

  /** Requeueing keeps the pending order and makes all of it claimable. */
  lemma RequeueKeepsPending(d: Dict)
    requires ValidDict(d)
    ensures ValidDict(Requeue(d))
    ensures Pending(Requeue(d)) == Pending(d) == Queue(Requeue(d))
    ensures TakeSnapshot(Requeue(d)) == TakeSnapshot(d)
    ensures Requeue(Requeue(d)) == Requeue(d)
    ensures forall p, v :: Accepts(Requeue(d), p, v) == Accepts(d, p, v)
  {
    var r := Requeue(d);
    assert r.extra[r.extraIndex..] == d.claimed + d.extra[d.extraIndex..];
    assert r.extra[..r.extraIndex] == d.extra[..d.extraIndex];
    assert TakeSnapshot(r).extra == r.extra;
    assert d.extra == d.extra[..d.extraIndex] + d.extra[d.extraIndex..];
    assert forall p :: p in r.extra <==> p in d.extra || p in d.claimed;
  }

  /**
   A restored snapshot serves the same unreleased paths in the same order and
   takes the same decision on every later extra.
   */
  lemma RestoreKeepsPending(d: Dict, nextId: nat)
    requires ValidDict(d)
    ensures var r := Restore(TakeSnapshot(d), nextId);
            && ValidDict(r)
            && Queue(r) == Pending(r) == Pending(d)
            && (forall p, v :: Accepts(r, p, v) == Accepts(d, p, v))
            && TakeSnapshot(r) == TakeSnapshot(d)
  {
    var s := TakeSnapshot(d);
    var r := Restore(s, nextId);
    assert s.extra[s.extraIndex..] == d.claimed + d.extra[d.extraIndex..];
    assert s.extra == s.extra[..s.extraIndex] + [] + s.extra[s.extraIndex..];
    assert d.extra == d.extra[..d.extraIndex] + d.extra[d.extraIndex..];
    forall p ensures Known(r, p) == Known(d, p) {
      assert p in s.extra <==> p in d.extra || p in d.claimed;
    }
  }

  /** An extra is queued exactly when it is new, behind the other extras. */
  lemma AddExtraQueues(d: Dict, path: string, isValid: bool)
    requires ValidDict(d)
    ensures ValidDict(AddExtra(d, path, isValid))
    ensures multiset(Pending(AddExtra(d, path, isValid))) ==
            multiset(Pending(d)) + if Accepts(d, path, isValid) then multiset{path} else multiset{}
    ensures !Accepts(AddExtra(d, path, isValid), path, isValid)
  {
    var d' := AddExtra(d, path, isValid);
    if Accepts(d, path, isValid) {
      assert d'.extra[d'.extraIndex..] == d.extra[d.extraIndex..] + [path];
    }
  }

  lemma AddExtraFrame(d: Dict, path: string, isValid: bool)
    requires ValidDict(d)
    ensures var d' := AddExtra(d, path, isValid);
            && ValidDict(d') && d'.items == d.items && d'.index == d.index && d'.claimed == d.claimed
            && d'.nativeClaim == d.nativeClaim && d'.nativeCorpus == d.nativeCorpus
  {
  }

  /** An accepted extra goes behind the other extras and before the corpus; a rejected one changes nothing. */
  lemma AddExtraGoesLast(d: Dict, path: string, isValid: bool)
    requires ValidDict(d)
    ensures var d' := AddExtra(d, path, isValid);
            && ValidDict(d')
            && Pending(d') == d.claimed + (d.extra[d.extraIndex..] + if Accepts(d, path, isValid) then [path] else [])
                              + d.items[Resume(d)..]
            && Queue(d') == (d.extra[d.extraIndex..] + if Accepts(d, path, isValid) then [path] else []) +
                d.items[d.index..]
  {
    AddExtraFrame(d, path, isValid);
    if Accepts(d, path, isValid) {
      assert (d.extra + [path])[d.extraIndex..] == d.extra[d.extraIndex..] + [path];
    } else {
      assert d.extra[d.extraIndex..] + [] == d.extra[d.extraIndex..];
    }
  }

  /**
   Why a corpus path must not be claimed while a native range is outstanding: the
   requeue rewinds the corpus, so that path is served once more than it should be.
   */
  lemma OrdinaryClaimDuringNativeClaimRepeats(d: Dict)
    requires ValidDict(d) && Synchronous(d) && d.nativeClaim.Some?
    requires d.extraIndex == |d.extra| && d.index < |d.items|
    ensures multiset(Queue(Requeue(ClaimOne(d)))) == multiset(Pending(d)) + multiset{d.items[d.index]}
  {
    var r := Requeue(ClaimOne(d));
    assert r.extra[r.extraIndex..] == d.claimed + [d.items[d.index]];
    assert Pending(d) == d.claimed + d.items[Resume(d)..];
  }

  // ---------------------------------------------------------------- the class

  class PathDictionary {
    const items: seq<string>
    const nativeCorpus: bool
    var index: nat
    var itemMembership: Option<set<string>>
    var extraIndex: nat
    var extra: seq<string>
    var extraMembership: set<string>
    var claimed: seq<string>
    var nativeClaim: Option<NativeClaim>
    var nextId: nat // the identity of the next native chunk object

    ghost function View(): Dict
      reads this
    {
      Dict(items, nativeCorpus, index, extra, extraIndex, extraMembership, claimed, nativeClaim, nextId)
    }

    ghost predicate Valid()
      reads this
    {
      && ValidDict(View())
      && (itemMembership.Some? ==> itemMembership.value == set p | p in items)
    }

    constructor (items: seq<string>, nativeCorpus: bool)
      ensures Valid()
      ensures View() == Dict(items, nativeCorpus, 0, [], 0, {}, [], None, 0)
    {
      this.items, this.nativeCorpus := items, nativeCorpus;
      index, extraIndex, extra := 0, 0, [];
      itemMembership, extraMembership, claimed, nativeClaim := None, {}, [], None;
      nextId := 0;
    }

    /** Restore a saved session; the corpus becomes a plain list. */
    constructor Restored(state: Snapshot)
      requires state.index <= |state.items| && state.extraIndex <= |state.extra|
      ensures Valid() && View() == Restore(state, 0)
      ensures items == state.items && index == state.index && extra == state.extra && extraIndex == state.extraIndex
      ensures !nativeCorpus && claimed == [] && nativeClaim == None
      ensures forall p :: p in extraMembership <==> p in state.extra
    {
      items, nativeCorpus := state.items, false;
      index, extra, extraIndex := state.index, state.extra, state.extraIndex;
      itemMembership, extraMembership := None, set p | p in state.extra;
      claimed, nativeClaim, nextId := [], None, 0;
    }

    /** None stands for StopIteration. */
    method ClaimNext() returns (path: Option<string>)
      requires Valid()
      modifies this`index, this`extraIndex, this`claimed
      ensures Valid()
      ensures Queue(old(View())) == [] ==> path == None && View() == old(View())
      ensures Queue(old(View())) != [] ==> path == Some(Queue(old(View()))[0]) && View() == ClaimOne(old(View()))
      ensures old(extraIndex < |extra|) ==>
                path == Some(extra[old(extraIndex)]) && extraIndex == old(extraIndex) + 1 && index == old(index)
      ensures old(extraIndex == |extra| && index < |items|) ==>
                path == Some(items[old(index)]) && index == old(index) + 1 && extraIndex == old(extraIndex)
      ensures old(extraIndex == |extra| && index == |items|) ==>
                path == None && index == old(index) && extraIndex == old(extraIndex)
      ensures claimed == old(claimed) + if path.Some? then [path.value] else []
    {
      if Queue(View()) != [] {
        ClaimOneKeepsValid(View());
      }
      if |extra| > extraIndex {
        path := Some(extra[extraIndex]);
        claimed := claimed + [extra[extraIndex]];
        extraIndex := extraIndex + 1;
      } else if |items| > index {
        path := Some(items[index]);
        claimed := claimed + [items[index]];
        index := index + 1;
      } else {
        path := None;
      }
    }

    /** Moves both cursors and records the slices they pass as claims. */
    method TakeFront(extraCount: nat, itemCount: nat) returns (paths: seq<string>)
      requires extraIndex + extraCount <= |extra| && index + itemCount <= |items|
      modifies this`index, this`extraIndex, this`claimed
      ensures View() == Advance(old(View()), extraCount, itemCount)
      ensures claimed == old(claimed) + paths
    {
      paths := extra[extraIndex..extraIndex + extraCount] + items[index..index + itemCount];
      extraIndex, index := extraIndex + extraCount, index + itemCount;
      claimed := claimed + paths;
    }

    /** Claims in bulk what repeated single claims would. */
    method ClaimMany(maximum: int) returns (paths: seq<string>)
      requires Valid()
      modifies this`index, this`extraIndex, this`claimed
      ensures Valid()
      ensures View() == ClaimEach(old(View()), maximum)
      ensures claimed == old(claimed) + paths
      ensures var unclaimed := old(extra[extraIndex..] + items[index..]);
              var k := if maximum < 0 then 0 else if maximum < |unclaimed| then maximum else |unclaimed|;
              paths == unclaimed[..k] && extra[extraIndex..] + items[index..] == unclaimed[k..]
    {
      if maximum <= 0 {
        return [];
      }
      ClaimEachTakesPrefix(View(), maximum);
      ghost var before := claimed;
      var extraCount := Min(maximum, |extra| - extraIndex);
      var itemCount := Min(maximum - extraCount, |items| - index);
      BulkClaim(View(), maximum, extraCount, itemCount);
      paths := TakeFront(extraCount, itemCount);
      assert paths == claimed[|before|..];
    }

    /** Claim the next count extras. */
    method ClaimExtras(count: nat) returns (paths: seq<string>)
      requires Valid() && 1 <= count <= |extra| - extraIndex
      modifies this`extraIndex, this`claimed
      ensures Valid()
      ensures View() == ClaimEach(old(View()), count)
      ensures paths == Queue(old(View()))[..count]
    {
      ClaimEachKeepsValid(View(), count);
      ClaimEachIsAdvance(View(), count, count, 0);
      AdvanceTakesPrefix(View(), count, 0);
      PrefixOfConcat(extra[extraIndex..], items[index..], count, 0);
      ghost var after := Advance(View(), count, 0);
      paths := extra[extraIndex..extraIndex + count];
      extraIndex := extraIndex + count;
      claimed := claimed + paths;
      assert claimed == after.claimed;
    }

    /**
     Claim for the native scanner. Err stands for the RuntimeError raised while
     a range is still outstanding.
     */
    method ClaimNativeMany(maximum: int, basePath: string) returns (r: Result<Claimed, string>)
      requires Valid()
      modifies this`index, this`extraIndex, this`claimed, this`nativeClaim, this`nextId
      ensures Valid()
      ensures r.Err? <==> maximum > 0 && old(nativeClaim).Some?
      ensures r.Err? ==> View() == old(View())
      ensures r.Ok? ==> (View(), r.value) == ClaimNative(old(View()), maximum, basePath)
      ensures maximum <= 0 ==> r == Ok(Paths([])) && View() == old(View())
      ensures var unclaimed, extras := old(extra[extraIndex..] + items[index..]), old(|extra| - extraIndex);
              var n := if nativeCorpus && extras > 0 then extras else |unclaimed|;
              var k := if maximum < n then maximum else n;
              r.Ok? && maximum > 0 ==>
                && (r.value.Range? <==> nativeCorpus && extras == 0 && old(index) < |items|)
                && (r.value.Paths? ==> r.value.paths == unclaimed[..k] && nativeClaim == old(nativeClaim)
                                       && claimed == old(claimed) + unclaimed[..k]
                                       && extra[extraIndex..] + items[index..] == unclaimed[k..])
                && (r.value.Range? ==> r.value.chunk == NativeChunk(old(nextId), old(index), old(index) + k, basePath)
                                       && nativeClaim == Some(NativeClaim(r.value.chunk, old(index), 0))
                                       && index == old(index) + k
                                       && claimed == old(claimed) && extraIndex == old(extraIndex))
    {
      ClaimNativeTakesPrefix(View(), maximum, basePath);
      if maximum <= 0 {
        return Ok(Paths([]));
      }
      if nativeClaim.Some? {
        return Err("native dictionary claim is still active");
      }
      if !nativeCorpus {
        ClaimEachTakesPrefix(View(), maximum);
        ghost var before := claimed;
        var paths := ClaimMany(maximum);
        assert paths == claimed[|before|..];
        return Ok(Paths(paths));
      }
      var extraCount := Min(maximum, |extra| - extraIndex);
      if extraCount != 0 {
        var paths := ClaimExtras(extraCount);
        return Ok(Paths(paths));
      }
      var itemCount := Min(maximum, |items| - index);
      if itemCount == 0 {
        return Ok(Paths([]));
      }
      var chunk := NativeChunk(nextId, index, index + itemCount, basePath);
      nativeClaim := Some(NativeClaim(chunk, index, 0));
      index := index + itemCount;
      nextId := nextId + 1;
      r := Ok(Range(chunk));
    }

    /** Release an ordered prefix of the outstanding range; false stands for ValueError. */
    method ReleaseNativeClaims(chunk: NativeChunk, count: int) returns (ok: bool)
      requires Valid()
      modifies this`nativeClaim
      ensures Valid()
      ensures ok <==> count <= 0
                      || (old(nativeClaim).Some? && old(nativeClaim).value.chunk == chunk
                          && old(nativeClaim).value.released + count <= chunk.end - chunk.start)
      ensures View() == if ok && count > 0 then ReleaseNative(old(View()), count) else old(View())
      ensures !ok || count <= 0 ==> nativeClaim == old(nativeClaim)
      ensures ok && count > 0 ==>
                var released := old(nativeClaim).value.released + count;
                nativeClaim == if released == chunk.end - chunk.start then None
                               else Some(NativeClaim(chunk, chunk.start, released))
    {
      if count <= 0 {
        return true;
      }
      if nativeClaim.None? || nativeClaim.value.chunk != chunk {
        return false;
      }
      var claim := nativeClaim.value;
      if claim.released + count > chunk.end - chunk.start {
        return false;
      }
      claim := claim.(released := claim.released + count);
      nativeClaim := if claim.released == chunk.end - chunk.start then None else Some(claim);
      return true;
    }

    /** list.remove: take out the first occurrence; false stands for ValueError. */
    method ReleaseClaim(path: string) returns (ok: bool)
      requires Valid()
      modifies this`claimed
      ensures Valid()
      ensures ok <==> path in old(claimed)
      ensures View() == if ok then old(View()).(claimed := RemoveFirst(old(claimed), path)) else old(View())
      ensures ok ==> exists i :: 0 <= i < |old(claimed)| && old(claimed)[i] == path && path !in old(claimed)[..i]
                                 && claimed == old(claimed)[..i] + old(claimed)[i + 1..]
    {
      var i := 0;
      while i < |claimed| && claimed[i] != path
        invariant i <= |claimed| && path !in claimed[..i]
      {
        i := i + 1;
      }
      if i == |claimed| {
        assert claimed[..i] == claimed;
        return false;
      }
      RemoveFirstAt(claimed, path, i);
      RemoveFirstMembers(claimed, path);
      claimed := claimed[..i] + claimed[i + 1..];
      return true;
    }

    /** Match claims against a counter of the requested paths, keeping the rest. */
    static method CountingPass(claims: seq<string>, paths: seq<string>)
      returns (kept: seq<string>, pending: multiset<string>)
      ensures kept == Sieve(claims, multiset(paths)).0 && pending == Sieve(claims, multiset(paths)).1
    {
      pending, kept := multiset(paths), [];
      var i := 0;
      assert claims[0..] == claims;
      while i < |claims|
        invariant i <= |claims|
        invariant Sieve(claims, multiset(paths)).0 == kept + Sieve(claims[i..], pending).0
        invariant Sieve(claims, multiset(paths)).1 == Sieve(claims[i..], pending).1
      {
        assert claims[i..][1..] == claims[i + 1..];
        if claims[i] in pending {
          pending := pending - multiset{claims[i]};
        } else {
          kept := kept + [claims[i]];
        }
        i := i + 1;
      }
    }

    /** The claims left after releasing paths: by prefix when possible, else by counting. */
    static method Without(claims: seq<string>, paths: seq<string>) returns (ok: bool, rest: seq<string>)
      ensures ok <==> multiset(paths) <= multiset(claims)
      ensures ok ==> rest == RemoveEach(claims, paths)
      ensures forall p :: p in rest ==> p in claims
    {
      if paths == [] {
        return true, claims;
      }
      var count := |paths|;
      if count == |claims| && claims == paths {
        RemoveEachPrefix(paths, []);
        assert paths + [] == paths;
        return true, [];
      }
      if claims[..Min(count, |claims|)] == paths {
        assert claims == paths + claims[count..];
        assert multiset(claims) == multiset(paths) + multiset(claims[count..]);
        RemoveEachPrefix(paths, claims[count..]);
        return true, claims[count..];
      }
      var kept, pending := CountingPass(claims, paths);
      SieveDecides(claims, paths);
      SieveMembers(claims, multiset(paths));
      ok, rest := pending == multiset{}, kept;
    }

    /** Release several claims; the outcome is that of releasing them one at a time, or no change at all. */
    method ReleaseClaims(paths: seq<string>) returns (ok: bool)
      requires Valid()
      modifies this`claimed
      ensures Valid()
      ensures ok <==> multiset(paths) <= multiset(old(claimed))
      ensures View() == if ok then old(View()).(claimed := RemoveEach(old(claimed), paths)) else old(View())
      ensures ok ==> multiset(claimed) + multiset(paths) == multiset(old(claimed))
      ensures paths <= old(claimed) ==> ok && claimed == old(claimed)[|paths|..]
    {
      if multiset(paths) <= multiset(claimed) {
        RemoveEachBalance(claimed, paths);
      }
      if paths <= claimed {
        assert claimed == paths + claimed[|paths|..];
        RemoveEachPrefix(paths, claimed[|paths|..]);
      }
      var rest;
      ok, rest := Without(claimed, paths);
      if ok {
        FewerClaims(View(), rest);
        claimed := rest;
      }
    }

    /** The claims go back before the unclaimed extras, which keeps the pending order. */
    method RequeueClaims()
      requires Valid()
      modifies this`extra, this`claimed, this`index, this`nativeClaim
      ensures Valid()
      ensures View() == Requeue(old(View()))
      ensures Queue(View()) == Pending(old(View())) && TakeSnapshot(View()) == TakeSnapshot(old(View()))
      ensures extra == old(extra[..extraIndex] + claimed + extra[extraIndex..])
      ensures claimed == [] && nativeClaim == None
      ensures index == match old(nativeClaim) case Some(c) => c.start + c.released case None => old(index)
    {
      RequeueKeepsPending(View());
      assert extra == extra[..extraIndex] + [] + extra[extraIndex..];
      if claimed == [] && nativeClaim.None? {
        return;
      }
      if claimed != [] {
        extra := extra[..extraIndex] + claimed + extra[extraIndex..];
        claimed := [];
      }
      if nativeClaim.Some? {
        index := nativeClaim.value.start + nativeClaim.value.released;
        nativeClaim := None;
      }
    }

    method GetState() returns (state: Snapshot)
      requires Valid()
      ensures state == TakeSnapshot(View())
      ensures Queue(Restore(state, 0)) == Pending(View())
      ensures forall p, v :: Accepts(Restore(state, 0), p, v) == Accepts(View(), p, v)
      ensures state.items == items && state.extraIndex == extraIndex
      ensures state.extra == extra[..extraIndex] + claimed + extra[extraIndex..]
      ensures state.index == match nativeClaim case Some(c) => c.start + c.released case None => index
    {
      RestoreKeepsPending(View(), 0);
      var saved := extra[..extraIndex] + claimed + extra[extraIndex..];
      var resume := index;
      if nativeClaim.Some? {
        resume := nativeClaim.value.start + nativeClaim.value.released;
      }
      state := Snapshot(items, resume, saved, extraIndex);
    }

    /** Queue a discovered path once; isValid is the answer of the path filter. */
    method AddExtraPath(path: string, isValid: bool)
      requires Valid()
      modifies this`itemMembership, this`extra, this`extraMembership
      ensures Valid()
      ensures View() == AddExtra(old(View()), path, isValid)
      ensures var queues := isValid && path !in items && path !in old(extraMembership);
              && extra == old(extra) + (if queues then [path] else [])
              && extraMembership == old(extraMembership) + if queues then {path} else {}
    {
      AddExtraQueues(View(), path, isValid);
      if !isValid {
        return;
      }
      if itemMembership.None? && !nativeCorpus {
        itemMembership := Some(set p | p in items);
      }
      var inItems := if nativeCorpus then path in items else path in itemMembership.value;
      if inItems || path in extraMembership {
        return;
      }
      extra := extra + [path];
      extraMembership := extraMembership + {path};
    }

    method Reset()
      requires Valid()
      modifies this
      ensures Valid()
      ensures Pending(View()) == items && claimed == [] && extra == [] && nativeClaim == None
      ensures index == 0 && extraIndex == 0 && extraMembership == {}
      ensures forall p, v :: Accepts(View(), p, v) <==> v && p !in items
    {
      index, extraIndex := 0, 0;
      extra, extraMembership, claimed, nativeClaim := [], {}, [], None;
      assert items[0..] == items;
    }
  }

  /** list.remove at the first position of p. */
  lemma {:induction false} RemoveFirstAt(s: seq<string>, p: string, i: nat)
    requires i < |s| && s[i] == p && p !in s[..i]
    ensures RemoveFirst(s, p) == s[..i] + s[i + 1..]
  {
    if i > 0 {
      assert s[1..][..i - 1] == s[..i][1..];
      assert s[0] == s[..i][0];
      RemoveFirstAt(s[1..], p, i - 1);
    }
  }

  lemma {:induction false} SieveMembers(s: seq<string>, m: multiset<string>)
    ensures forall x :: x in Sieve(s, m).0 ==> x in s
  {
    if s != [] {
      if s[0] in m {
        SieveMembers(s[1..], m - multiset{s[0]});
      } else {
        SieveMembers(s[1..], m);
      }
    }
  }

  lemma {:induction false} RemoveFirstMembers(s: seq<string>, p: string)
    requires p in s
    ensures forall x :: x in RemoveFirst(s, p) ==> x in s
  {
    if s[0] != p {
      RemoveFirstMembers(s[1..], p);
    }
  }
}
