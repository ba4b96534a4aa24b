/**
 The sliding-window rate limiter, in Python (lib/connection/rate_limiter.py) and
 in Rust (native/src/pacing.rs).

 Timestamps are reals. The clock reading is an argument of each operation, as
 both versions read it once, under the lock.
 */
module RateLimiter {
  import opened Wrappers

  const WINDOW: real := 1.0

  // ------------------------------------------------------------- the operations

  /** The timestamps left once the expired ones at the front are discarded. */
  function Live(times: seq<real>, now: real): seq<real> {
    if times != [] && times[0] <= now - WINDOW then Live(times[1..], now) else times
  }

  /** A discard drops a prefix of expired timestamps, and as long a one as there is. */
  lemma {:induction false} LiveIs(times: seq<real>, now: real)
    ensures var live := Live(times, now);
            |live| <= |times| && live == times[|times| - |live|..] && (live != [] ==> live[0] > now - WINDOW)
    ensures forall i :: 0 <= i < |times| - |Live(times, now)| ==> times[i] <= now - WINDOW
  {
    if times != [] && times[0] <= now - WINDOW {
      LiveIs(times[1..], now);
    }
  }

  predicate Grants(times: seq<real>, limit: int, now: real) {
    limit <= 0 || |Live(times, now)| < limit
  }

  function Delay(front: real, now: real): real {
    var d := front + WINDOW - now;
    if d < 0.0 then 0.0 else d
  }

  function PythonReserve(times: seq<real>, limit: int, now: real): (seq<real>, Option<real>) {
    var live := Live(times, now);
    if Grants(times, limit, now) then (live + [now], None) else (live, Some(Delay(live[0], now)))
  }

  class RequestRateLimiter {
    var times: seq<real>

    constructor ()
      ensures times == []
    {
      times := [];
    }

    method DiscardExpired(now: real)
      modifies this
      ensures times == Live(old(times), now)
      ensures |times| <= |old(times)| && times == old(times)[|old(times)| - |times|..]
      ensures forall i :: 0 <= i < |old(times)| - |times| ==> old(times)[i] <= now - 1.0
      ensures times != [] ==> times[0] > now - 1.0
    {
      LiveIs(times, now);
      var cutoff := now - WINDOW;
      while times != [] && times[0] <= cutoff
        invariant Live(times, now) == Live(old(times), now)
        decreases |times|
      {
        times := times[1..];
      }
    }

    /** Reserve a request now, or say how long to wait. */
    method Reserve(limit: int, now: real) returns (delay: Option<real>)
      modifies this
      ensures (times, delay) == PythonReserve(old(times), limit, now)
      ensures delay.None? <==> Grants(old(times), limit, now)
      ensures delay.None? ==> times == Live(old(times), now) + [now]
      ensures delay.Some? ==> times == Live(old(times), now) && |times| >= limit > 0
                              && delay.value == Delay(times[0], now) >= 0.0
      ensures exists k :: 0 <= k <= |old(times)| && times == old(times)[k..] + (if delay.None? then [now] else [])
                          && (forall i :: 0 <= i < k ==> old(times)[i] <= now - 1.0)
                          && (k < |old(times)| ==> old(times)[k] > now - 1.0)
                          && (delay.None? <==> limit <= 0 || |old(times)| - k < limit)
                          && (delay.Some? ==> delay.value == (if old(times)[k] + 1.0 < now then 0.0
                                                              else old(times)[k] + 1.0 - now))
    {
      ghost var k := |times| - |Live(times, now)|;
      LiveIs(times, now);
      DiscardExpired(now);
      if limit <= 0 || |times| < limit {
        times := times + [now];
        assert times == old(times)[k..] + [now];
        return None;
      }
      assert times == old(times)[k..] + [];
      return Some(Delay(times[0], now));
    }

    method Rate(now: real) returns (n: nat)
      modifies this
      ensures times == Live(old(times), now) && n == |times|
    {
      DiscardExpired(now);
      n := |times|;
    }
  }

  // ------------------------------------------------------------------ whole runs

  datatype Op = Attempt(now: real, limit: int) | Observe(now: real)

  predicate Clocked(ops: seq<Op>) {
    forall i, j :: 0 <= i < j < |ops| ==> ops[i].now <= ops[j].now
  }

  /** The limiter's timestamps after a run. */
  function Times(ops: seq<Op>): seq<real> {
    if ops == [] then [] else
    var before, op := Times(ops[..|ops| - 1]), ops[|ops| - 1];
    if op.Attempt? && Grants(before, op.limit, op.now) then Live(before, op.now) + [op.now] else Live(before, op.now)
  }

  /** Every reservation a run granted, oldest first, none forgotten. */
  function Granted(ops: seq<Op>): seq<real> {
    if ops == [] then [] else
    var before, op := ops[..|ops| - 1], ops[|ops| - 1];
    if op.Attempt? && Grants(Times(before), op.limit, op.now) then Granted(before) + [op.now] else Granted(before)
  }

  /** A run of the limiter itself keeps these timestamps and grants these reservations. */
  method RunLimiter(ops: seq<Op>) returns (limiter: RequestRateLimiter, granted: seq<real>)
    ensures limiter.times == Times(ops) && granted == Granted(ops)
  {
    limiter := new RequestRateLimiter();
    granted := [];
    for i := 0 to |ops|
      invariant fresh(limiter) && limiter.times == Times(ops[..i]) && granted == Granted(ops[..i])
    {
      assert ops[..i + 1][..i] == ops[..i] && ops[..i + 1][i] == ops[i];
      match ops[i] {
        case Attempt(now, limit) =>
          var delay := limiter.Reserve(limit, now);
          if delay.None? {
            granted := granted + [now];
          }
        case Observe(now) =>
          var _ := limiter.Rate(now);
      }
    }
    assert ops[..|ops|] == ops;
  }

  predicate Ascending(times: seq<real>) {
    forall i, j :: 0 <= i < j < |times| ==> times[i] <= times[j]
  }

  /** A later discard undoes nothing and subsumes an earlier one. */
  lemma {:induction false} LiveTwice(times: seq<real>, now: real, later: real)
    requires now <= later
    ensures Live(Live(times, now), later) == Live(times, later)
  {
    if times != [] && times[0] <= now - WINDOW {
      LiveTwice(times[1..], now, later);
    }
  }

  lemma {:induction false} LiveAppend(times: seq<real>, t: real, now: real)
    requires now - WINDOW < t
    ensures Live(times + [t], now) == Live(times, now) + [t]
  {
    if times == [] {
      assert times + [t] == [t];
    } else if times[0] <= now - WINDOW {
      assert (times + [t])[1..] == times[1..] + [t];
      LiveAppend(times[1..], t, now);
    }
  }

  lemma {:induction false} RunIsAscending(ops: seq<Op>)
    requires Clocked(ops)
    ensures Ascending(Granted(ops))
    ensures forall i :: 0 <= i < |Granted(ops)| ==> Granted(ops)[i] <= ops[|ops| - 1].now
    ensures ops == [] ==> Granted(ops) == []
  {
    if ops != [] {
      RunIsAscending(ops[..|ops| - 1]);
    }
  }

  /**
   Forgetting is safe: what a discard keeps of the limiter's timestamps is what it
   would keep of every reservation ever granted.
   */
  lemma {:induction false} ForgettingIsSafe(ops: seq<Op>, now: real)
    requires Clocked(ops) && (ops != [] ==> ops[|ops| - 1].now <= now)
    ensures Live(Times(ops), now) == Live(Granted(ops), now)
  {
    if ops != [] {
      var before, op := ops[..|ops| - 1], ops[|ops| - 1];
      ForgettingIsSafe(before, op.now);
      var kept := Live(Times(before), op.now);
      LiveTwice(Granted(before), op.now, now);
      if op.Attempt? && Grants(Times(before), op.limit, op.now) {
        LiveAppend(Granted(before), op.now, op.now);
        LiveTwice(Granted(before) + [op.now], op.now, now);
      }
    }
  }

  /** How many of the given reservations fall in the window that ends now. */
  function InWindow(granted: seq<real>, now: real): nat {
    if granted == [] then 0
    else InWindow(granted[..|granted| - 1], now) + if granted[|granted| - 1] > now - WINDOW then 1 else 0
  }

  lemma {:induction false} AllExpired(times: seq<real>, now: real)
    requires forall i :: 0 <= i < |times| ==> times[i] <= now - WINDOW
    ensures Live(times, now) == []
  {
    if times != [] {
      AllExpired(times[1..], now);
    }
  }

  lemma {:induction false} LiveCounts(granted: seq<real>, now: real)
    requires Ascending(granted)
    ensures InWindow(granted, now) == |Live(granted, now)|
  {
    if granted != [] {
      var before, last := granted[..|granted| - 1], granted[|granted| - 1];
      LiveCounts(before, now);
      if last > now - WINDOW {
        assert before + [last] == granted;
        LiveAppend(before, last, now);
      } else {
        assert forall i :: 0 <= i < |granted| ==> granted[i] <= last;
        assert forall i :: 0 <= i < |before| ==> before[i] == granted[i];
        AllExpired(granted, now);
        AllExpired(before, now);
      }
    }
  }

  /**
   The limiter decides, and reports, exactly by counting the reservations of the
   whole run that fall in the window ending now.
   */
  lemma RateIsWindowCount(ops: seq<Op>, now: real, limit: int)
    requires Clocked(ops) && (ops != [] ==> ops[|ops| - 1].now <= now)
    ensures |Live(Times(ops), now)| == InWindow(Granted(ops), now)
    ensures InWindow(Granted(ops), now) == |set i | 0 <= i < |Granted(ops)| && Granted(ops)[i] > now - 1.0|
    ensures Grants(Times(ops), limit, now) <==> limit <= 0 || InWindow(Granted(ops), now) < limit
  {
    RunIsAscending(ops);
    ForgettingIsSafe(ops, now);
    LiveCounts(Granted(ops), now);
    WindowMembers(Granted(ops), now);
  }

  lemma {:induction false} WindowMembers(granted: seq<real>, now: real)
    ensures InWindow(granted, now) == |set i | 0 <= i < |granted| && granted[i] > now - 1.0|
  {
    if granted != [] {
      var last := |granted| - 1;
      var before := granted[..last];
      WindowMembers(before, now);
      var some := set i | 0 <= i < last && before[i] > now - 1.0;
      var all := set i | 0 <= i < |granted| && granted[i] > now - 1.0;
      if granted[last] > now - 1.0 {
        assert all == some + {last};
      } else {
        assert all == some;
      }
    }
  }

  predicate LimitedBy(ops: seq<Op>, r: nat) {
    forall i :: 0 <= i < |ops| && ops[i].Attempt? ==> 0 < ops[i].limit <= r
  }

  /**
   Any r + 1 consecutive granted reservations span at least a whole window, for
   any positive limits no greater than r, constant or not.
   */
  lemma {:induction false} GrantsAreSpaced(ops: seq<Op>, r: nat, i: nat)
    requires Clocked(ops) && LimitedBy(ops, r) && i + r < |Granted(ops)|
    ensures Granted(ops)[i + r] - Granted(ops)[i] >= 1.0
  {
    if ops != [] {
      var before, op := ops[..|ops| - 1], ops[|ops| - 1];
      if i + r < |Granted(before)| {
        GrantsAreSpaced(before, r, i);
      } else {
        ForgettingIsSafe(before, op.now);
        var live := Live(Granted(before), op.now);
        LiveIs(Granted(before), op.now);
        assert |live| < r && Granted(ops)[i + r] == op.now;
        assert Granted(before)[i] <= op.now - WINDOW;
      }
    }
  }

  /** The reported rate never exceeds the limit. */
  lemma {:induction false} RateIsLimited(ops: seq<Op>, r: nat, now: real)
    requires Clocked(ops) && LimitedBy(ops, r) && (ops != [] ==> ops[|ops| - 1].now <= now)
    ensures |Live(Times(ops), now)| <= r
  {
    if ops != [] {
      RateIsLimited(ops[..|ops| - 1], r, ops[|ops| - 1].now);
      LiveIs(Times(ops), now);
    }
  }

  lemma FewerLive(kept: seq<real>, limit: nat, later: real)
    requires Ascending(kept) && 0 < limit <= |kept|
    ensures |Live(kept, later)| < limit <==> kept[|kept| - limit] <= later - WINDOW
  {
    LiveIs(kept, later);
    var live := Live(kept, later);
    if |live| >= limit {
      assert live[0] == kept[|kept| - |live|] <= kept[|kept| - limit];
    }
  }

  /**
   When a refused caller may succeed if nobody reserves in between: exactly when
   the reservation that is limit places from the newest has expired.
   */
  lemma RetryGranted(times: seq<real>, limit: int, now: real, later: real)
    requires Ascending(times) && now <= later && !Grants(times, limit, now)
    ensures var kept := Live(times, now);
            Grants(kept, limit, later) <==> kept[|kept| - limit] <= later - 1.0
  {
    LiveIs(times, now);
    FewerLive(Live(times, now), limit, later);
  }

  lemma RetryFullWindow(kept: seq<real>, now: real, later: real)
    requires Ascending(kept) && kept != [] && kept[0] > now - WINDOW && now <= later
    ensures Grants(kept, |kept|, later) <==> later >= now + Delay(kept[0], now)
  {
    if kept[0] <= later - WINDOW {
      LiveIs(kept[1..], later);
    }
  }

  /**
   With a constant limit the returned delay is exact: a retry succeeds once it has
   passed and not before.
   */
  lemma RetryAfterDelay(ops: seq<Op>, limit: int, now: real, later: real)
    requires Clocked(ops) && limit > 0 && LimitedBy(ops, limit)
    requires (ops != [] ==> ops[|ops| - 1].now <= now) && now <= later
    requires !Grants(Times(ops), limit, now)
    ensures var kept := Live(Times(ops), now);
            |kept| == limit && (Grants(kept, limit, later) <==> later >= now + Delay(kept[0], now))
  {
    RateIsLimited(ops, limit, now);
    var kept := Live(Times(ops), now);
    LiveIs(Times(ops), now);
    assert Ascending(kept) by {
      RunIsAscending(ops);
      ForgettingIsSafe(ops, now);
      LiveIs(Granted(ops), now);
    }
    RetryFullWindow(kept, now, later);
  }

  lemma TwoAttempts()
    ensures Times([Attempt(0.0, 2), Attempt(0.5, 2)]) == [0.0, 0.5]
  {
    var first, second := Attempt(0.0, 2), Attempt(0.5, 2);
    assert Times([]) == [];
    assert [first][..0] == [];
    assert Times([first]) == [0.0];
    assert [first, second][..1] == [first];
  }

  /** After the limit was lowered, the returned delay can be too short. */
  lemma DelayCanBeTooShort()
    ensures var ops := [Attempt(0.0, 2), Attempt(0.5, 2)];
            Clocked(ops) && !Grants(Times(ops), 1, 0.5)
            && var kept := Live(Times(ops), 0.5);
               Delay(kept[0], 0.5) == 0.5 && !Grants(kept, 1, 1.0)
  {
    TwoAttempts();
    var kept := [0.0, 0.5];
    assert Live(kept, 0.5) == kept;
    assert kept[1..] == [0.5];
    assert Live([0.5], 1.0) == [0.5];
  }

  // ------------------------------------------------------------ the Rust limiter

  /** Instant differences saturate at zero in Rust. */
  function SaturatingSub(a: real, b: real): real {
    if a < b then 0.0 else a - b
  }

  function RustLive(times: seq<real>, now: real): seq<real> {
    if times != [] && SaturatingSub(now, times[0]) >= WINDOW then RustLive(times[1..], now) else times
  }

  function RustReserve(times: seq<real>, limit: nat, now: real): (seq<real>, Option<real>) {
    var live := RustLive(times, now);
    if limit == 0 || |live| < limit then (live + [now], None)
    else (live, Some(SaturatingSub(WINDOW, SaturatingSub(now, live[0]))))
  }

  lemma {:induction false} RustDiscardsTheSame(times: seq<real>, now: real)
    ensures RustLive(times, now) == Live(times, now)
  {
    if times != [] && times[0] <= now - WINDOW {
      RustDiscardsTheSame(times[1..], now);
    }
  }

  lemma DelaysAgree(front: real, now: real)
    ensures SaturatingSub(WINDOW, SaturatingSub(now, front)) == Delay(front, now) <==> front <= now
  {
  }

  /**
   The two limiters take the same decision and keep the same timestamps on any
   input; a refused caller gets the same delay exactly when the clock has not gone
   back behind the oldest timestamp kept.
   */
  lemma RustAgrees(times: seq<real>, limit: nat, now: real)
    ensures var (rust, python) := (RustReserve(times, limit, now), PythonReserve(times, limit, now));
            rust.0 == python.0 && (rust.1.None? <==> python.1.None?)
            && (rust == python <==> python.1.None? || python.0[0] <= now)
  {
    RustDiscardsTheSame(times, now);
    var live := Live(times, now);
    if !Grants(times, limit, now) {
      DelaysAgree(live[0], now);
    }
  }
}
