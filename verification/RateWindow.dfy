/**
 The sliding-window dial limiter (crates/discovery/src/book.rs, `RateWindow`).

 The limiter keeps a pruned deque.  The results relate it to the full history of attempts.
 */
module RateWindow {
  import opened Bytes

  /** An attempt at `at` still counts at `now`. */
  predicate Live(at: nat, now: nat, window: nat) {
    SatAdd(at, window) > now
  }

  function LiveCount(attempts: seq<nat>, now: nat, window: nat): nat {
    if attempts == [] then 0
    else LiveCount(attempts[..|attempts| - 1], now, window) + (if Live(attempts[|attempts| - 1], now, window) then 1 else 0)
  }

  /** `RateWindow::allows`. */
  predicate Allows(attempts: seq<nat>, now: nat, window: nat, limit: nat) {
    LiveCount(attempts, now, window) < limit
  }

  function Prune(attempts: seq<nat>, now: nat, window: nat): seq<nat> {
    if attempts == [] || Live(attempts[0], now, window) then attempts else Prune(attempts[1..], now, window)
  }

  /** `RateWindow::charge`. */
  function Charge(attempts: seq<nat>, now: nat, window: nat): seq<nat> {
    Prune(attempts, now, window) + [now]
  }

  method CountLive(attempts: seq<nat>, now: nat, window: nat, limit: nat) returns (allowed: bool)
    ensures allowed == Allows(attempts, now, window, limit)
  {
    var count := 0;
    for i := 0 to |attempts|
      invariant count == LiveCount(attempts[..i], now, window)
    {
      assert attempts[..i + 1][..i] == attempts[..i];
      if SatAdd(attempts[i], window) > now {
        count := count + 1;
      }
    }
    assert attempts[..|attempts|] == attempts;
    return count < limit;
  }

  method ChargeLoop(attempts: seq<nat>, now: nat, window: nat) returns (r: seq<nat>)
    ensures r == Charge(attempts, now, window)
  {
    r := attempts;
    while r != [] && SatAdd(r[0], window) <= now
      invariant Prune(r, now, window) == Prune(attempts, now, window)
      decreases |r|
    {
      r := r[1..];
    }
    r := r + [now];
  }

  // ---- histories ----

  predicate Ascending(h: seq<nat>) {
    forall i, j | 0 <= i < j < |h| :: h[i] <= h[j]
  }

  /** How many attempts fall in the half-open interval. */
  function CountIn(h: seq<nat>, lo: nat, hi: nat): nat {
    if h == [] then 0 else CountIn(h[..|h| - 1], lo, hi) + (if lo <= h[|h| - 1] < hi then 1 else 0)
  }

  /** The deque is the history without a prefix that has expired by `now`. */
  predicate Refines(attempts: seq<nat>, h: seq<nat>, now: nat, window: nat) {
    |attempts| <= |h| && attempts == h[|h| - |attempts|..] && Expired(h[..|h| - |attempts|], now, window)
  }

  predicate Expired(h: seq<nat>, now: nat, window: nat) {
    forall i | 0 <= i < |h| :: !Live(h[i], now, window)
  }

  lemma {:induction false} PruneSplits(attempts: seq<nat>, now: nat, window: nat)
    ensures var r := Prune(attempts, now, window);
            |r| <= |attempts| && attempts[|attempts| - |r|..] == r && Expired(attempts[..|attempts| - |r|], now, window)
  {
    hide Live;
    if attempts != [] && !Live(attempts[0], now, window) {
      var tail := attempts[1..];
      PruneSplits(tail, now, window);
      var r := Prune(tail, now, window);
      var k := |tail| - |r|;
      assert tail[k..] == attempts[k + 1..];
      assert attempts[..k + 1] == [attempts[0]] + tail[..k];
    }
  }

  lemma {:induction false} CountSplit(a: seq<nat>, b: seq<nat>, now: nat, window: nat)
    requires Expired(a, now, window)
    ensures LiveCount(a + b, now, window) == LiveCount(b, now, window)
    decreases |a| + |b|
  {
    if b != [] {
      assert (a + b)[..|a + b| - 1] == a + b[..|b| - 1];
      CountSplit(a, b[..|b| - 1], now, window);
    } else if a != [] {
      assert a + b == a && a[..|a| - 1] + [] == a[..|a| - 1];
      CountSplit(a[..|a| - 1], [], now, window);
    }
  }

  /** The pruned deque answers as the whole history would, at this and any later time. */
  lemma AllowsAsHistory(attempts: seq<nat>, h: seq<nat>, then_: nat, now: nat, window: nat, limit: nat)
    requires Refines(attempts, h, then_, window) && then_ <= now
    ensures Allows(attempts, now, window, limit) == Allows(h, now, window, limit)
  {
    var k := |h| - |attempts|;
    CountSplit(h[..k], attempts, now, window);
    assert h == h[..k] + attempts;
  }

  /** Charging keeps the deque a pruned form of the history. */
  lemma ChargeRefines(attempts: seq<nat>, h: seq<nat>, then_: nat, now: nat, window: nat)
    requires Refines(attempts, h, then_, window) && then_ <= now
    ensures Refines(Charge(attempts, now, window), h + [now], now, window)
  {
    var r := Prune(attempts, now, window);
    PruneSplits(attempts, now, window);
    hide Prune;
    var k, m := |h| - |attempts|, |attempts| - |r|;
    var h', c := h + [now], r + [now];
    assert |h'| - |c| == k + m;
    assert h'[..k + m] == h[..k] + attempts[..m];
    assert h'[k + m..] == c;
  }

  lemma {:induction false} CountBound(h: seq<nat>, lo: nat, hi: nat, now: nat, window: nat)
    requires now < U64_MAX && now < lo + window
    ensures CountIn(h, lo, hi) <= LiveCount(h, now, window)
  {
    if h != [] {
      CountBound(h[..|h| - 1], lo, hi, now, window);
    }
  }

  lemma {:induction false} CountPast(h: seq<nat>, lo: nat, hi: nat, now: nat)
    requires now < hi && forall i | 0 <= i < |h| :: h[i] <= now
    ensures CountIn(h + [now], lo, hi) == CountIn(h, lo, hi) + if lo <= now then 1 else 0
  {
    assert (h + [now])[..|h|] == h;
  }

  /** The attempts in the interval of the window's length that starts at `lo`. */
  function InWindow(h: seq<nat>, lo: nat, window: nat): nat {
    CountIn(h, lo, lo + window)
  }

  /** Every interval of the window's length holds at most `limit` attempts. */
  ghost predicate Limited(h: seq<nat>, window: nat, limit: nat) {
    forall lo: nat :: InWindow(h, lo, window) <= limit
  }

  /** An allowed attempt on a clock that has not run backwards keeps every interval within the limit. */
  lemma ChargeLimited(h: seq<nat>, now: nat, window: nat, limit: nat)
    requires Limited(h, window, limit) && now < U64_MAX && Allows(h, now, window, limit)
    requires forall i | 0 <= i < |h| :: h[i] <= now
    ensures Limited(h + [now], window, limit)
  {
    forall lo: nat
      ensures InWindow(h + [now], lo, window) <= limit
    {
      assert InWindow(h, lo, window) <= limit;
      assert (h + [now])[..|h|] == h;
      if lo <= now < lo + window {
        CountBound(h, lo, lo + window, now, window);
      }
    }
  }

  // ---- whole runs ----

  /** The limiter and every attempt it ever let through. */
  datatype Limiter = Limiter(attempts: seq<nat>, history: seq<nat>, last: nat)

  function Request(l: Limiter, now: nat, window: nat, limit: nat): Limiter {
    if Allows(l.attempts, now, window, limit)
    then Limiter(Charge(l.attempts, now, window), l.history + [now], now)
    else l.(last := now)
  }

  function Run(l: Limiter, clock: seq<nat>, window: nat, limit: nat): Limiter
    decreases |clock|
  {
    if clock == [] then l else Run(Request(l, clock[0], window, limit), clock[1..], window, limit)
  }

  ghost predicate Inv(l: Limiter, window: nat, limit: nat) {
    && Refines(l.attempts, l.history, l.last, window)
    && (forall i | 0 <= i < |l.history| :: l.history[i] <= l.last)
    && Limited(l.history, window, limit)
  }

  lemma InvLater(l: Limiter, now: nat, window: nat, limit: nat)
    requires Inv(l, window, limit) && l.last <= now
    ensures Inv(l.(last := now), window, limit)
  {
    hide Limited;
  }

  lemma InvFresh(now: nat, window: nat, limit: nat)
    ensures Inv(Limiter([], [], now), window, limit)
  {
    assert forall lo: nat :: InWindow([], lo, window) == 0;
  }

  lemma RequestInv(l: Limiter, now: nat, window: nat, limit: nat)
    requires Inv(l, window, limit) && l.last <= now < U64_MAX
    ensures Inv(Request(l, now, window, limit), window, limit)
  {
    AllowsAsHistory(l.attempts, l.history, l.last, now, window, limit);
    if Allows(l.attempts, now, window, limit) {
      ChargeRefines(l.attempts, l.history, l.last, now, window);
      ChargeLimited(l.history, now, window, limit);
    }
  }

  lemma {:induction false} RunInv(l: Limiter, clock: seq<nat>, window: nat, limit: nat)
    requires Inv(l, window, limit) && Ascending([l.last] + clock) && forall i | 0 <= i < |clock| :: clock[i] < U64_MAX
    ensures Inv(Run(l, clock, window, limit), window, limit)
    decreases |clock|
  {
    hide Request, Inv;
    if clock != [] {
      assert ([l.last] + clock)[0] == l.last && ([l.last] + clock)[1] == clock[0];
      RequestInv(l, clock[0], window, limit);
      RequestLast(l, clock[0], window, limit);
      assert [clock[0]] + clock[1..] == ([l.last] + clock)[1..];
      RunInv(Request(l, clock[0], window, limit), clock[1..], window, limit);
    }
  }

  lemma RequestLast(l: Limiter, now: nat, window: nat, limit: nat)
    ensures Request(l, now, window, limit).last == now
  {
  }

  /** Over every run with a non-decreasing clock below the last value, no window is overfull. */
  lemma WindowIsLimited(clock: seq<nat>, window: nat, limit: nat, lo: nat)
    requires Ascending(clock) && forall i | 0 <= i < |clock| :: clock[i] < U64_MAX
    ensures CountIn(Run(Limiter([], [], 0), clock, window, limit).history, lo, lo + window) <= limit
  {
    var r := Run(Limiter([], [], 0), clock, window, limit);
    assert forall a: nat :: InWindow([], a, window) == 0;
    RunInv(Limiter([], [], 0), clock, window, limit);
    assert InWindow(r.history, lo, window) <= limit;
  }

  /** On the last clock value the limiter lets everything through. */
  lemma {:induction false} SaturationForgets(attempts: seq<nat>, window: nat, limit: nat)
    ensures Allows(attempts, U64_MAX, window, limit) <==> limit > 0
  {
    NothingLive(attempts, window);
  }

  lemma {:induction false} NothingLive(attempts: seq<nat>, window: nat)
    ensures LiveCount(attempts, U64_MAX, window) == 0
  {
    if attempts != [] {
      NothingLive(attempts[..|attempts| - 1], window);
    }
  }

  /** Two dials on the last clock value pass a limit of one. */
  lemma LastTickOverfull(window: nat)
    requires window > 0
    ensures var h := Run(Limiter([], [], 0), [U64_MAX, U64_MAX], window, 1).history;
            CountIn(h, U64_MAX, U64_MAX + window) == 2
  {
    var l := Request(Limiter([], [], 0), U64_MAX, window, 1);
    SaturationForgets([], window, 1);
    SaturationForgets(l.attempts, window, 1);
    assert l.history == [U64_MAX];
    var m := Request(l, U64_MAX, window, 1);
    assert m.history == [U64_MAX, U64_MAX];
    assert [U64_MAX, U64_MAX][1..] == [U64_MAX] && [U64_MAX][1..] == [];
    assert Run(l, [U64_MAX], window, 1) == Run(m, [], window, 1);
    assert Run(Limiter([], [], 0), [U64_MAX, U64_MAX], window, 1) == m;
    CountPast([], U64_MAX, U64_MAX + window, U64_MAX);
    CountPast([U64_MAX], U64_MAX, U64_MAX + window, U64_MAX);
    assert [] + [U64_MAX] == [U64_MAX] && [U64_MAX] + [U64_MAX] == [U64_MAX, U64_MAX];
  }

  /** So there the limit fails exactly when the true window was already full. */
  lemma LastTickBreaksLimitIff(h: seq<nat>, window: nat, limit: nat)
    requires 0 < window && 0 < limit && Limited(h, window, limit)
    requires forall i | 0 <= i < |h| :: h[i] <= U64_MAX
    ensures Allows(h, U64_MAX, window, limit)
    ensures Limited(h + [U64_MAX], window, limit)
            <==> CountIn(h, if window > U64_MAX then 0 else U64_MAX - window + 1, U64_MAX + 1) < limit
  {
    SaturationForgets(h, window, limit);
    var lo: nat := if window > U64_MAX then 0 else U64_MAX - window + 1;
    WholeTail(h, lo, lo + window);
    CountPast(h, lo, lo + window, U64_MAX);
    if CountIn(h, lo, U64_MAX + 1) < limit {
      forall a: nat
        ensures InWindow(h + [U64_MAX], a, window) <= limit
      {
        assert InWindow(h, a, window) <= limit;
        assert (h + [U64_MAX])[..|h|] == h;
        if a <= U64_MAX < a + window {
          WholeTail(h, a, a + window);
          CountShrinks(h, a, lo);
        }
      }
    } else {
      assert InWindow(h + [U64_MAX], lo, window) > limit;
    }
  }

  lemma {:induction false} WholeTail(h: seq<nat>, lo: nat, hi: nat)
    requires U64_MAX < hi && forall i | 0 <= i < |h| :: h[i] <= U64_MAX
    ensures CountIn(h, lo, hi) == CountIn(h, lo, U64_MAX + 1)
  {
    if h != [] {
      WholeTail(h[..|h| - 1], lo, hi);
    }
  }

  lemma {:induction false} CountShrinks(h: seq<nat>, a: nat, lo: nat)
    requires lo <= a
    ensures CountIn(h, a, U64_MAX + 1) <= CountIn(h, lo, U64_MAX + 1)
  {
    if h != [] {
      CountShrinks(h[..|h| - 1], a, lo);
    }
  }
}
