/** backend/app/api/deps.py, `rate_limit`: a counter key that the first request
    of a window creates with a time to live. INCR and EXPIRE are one step. */
module RateLimiter {
  import opened Wrappers

  /** A key with its count and the time at which Redis drops it. */
  datatype Window = Window(count: nat, expiresAt: int)

  /** The key as a request at time `now` finds it. */
  function Present(key: Option<Window>, now: int): Option<Window> {
    if key.Some? && now < key.value.expiresAt then key else None
  }

  function Incr(key: Option<Window>, now: int, window: nat): Window {
    match Present(key, now)
    case None => Window(1, now + window)
    case Some(w) => w.(count := w.count + 1)
  }

  class Limiter {
    const limit: nat
    const window: nat
    var key: Option<Window>

    constructor (limit: nat, window: nat)
      ensures this.limit == limit && this.window == window && key == None
    {
      this.limit, this.window, key := limit, window, None;
    }

    ghost predicate Valid() reads this { key.Some? ==> key.value.count > 0 }

    /** One request; false is the 429 answer. */
    method Check(now: int) returns (admitted: bool)
      requires Valid()
      modifies this`key
      ensures Valid() && key == Some(Incr(old(key), now, window))
      ensures key == Some(if old(key).Some? && now < old(key).value.expiresAt
                          then Window(old(key).value.count + 1, old(key).value.expiresAt) else Window(1, now + window))
      ensures admitted <==> key.value.count <= limit
    {
      var found := Present(key, now);
      var count := if found.Some? then found.value.count + 1 else 1;
      key := Some(Window(count, if found.Some? then found.value.expiresAt else now));
      if count == 1 {
        key := Some(Window(count, now + window));
      }
      admitted := count <= limit;
    }
  }

  // ----- whole request sequences -----

  predicate Ordered(times: seq<int>) {
    forall i, j :: 0 <= i < j < |times| ==> times[i] <= times[j]
  }

  /** The key after all the requests. */
  function KeyAfter(times: seq<int>, window: nat): Option<Window> {
    if times == [] then None
    else Some(Incr(KeyAfter(times[..|times| - 1], window), times[|times| - 1], window))
  }

  /** How many of the requests are admitted at a time in [a, b]. */
  function AdmittedIn(times: seq<int>, limit: nat, window: nat, a: int, b: int): nat {
    if times == [] then 0 else
      var init := times[..|times| - 1];
      AdmittedIn(init, limit, window, a, b)
      + (if KeyAfter(times, window).value.count <= limit && a <= times[|times| - 1] <= b then 1 else 0)
  }

  /** What the requests so far leave for an interval of one window's length that
      begins at `a`: the window that began before `a` and the one that begins
      inside can both fill it, and no third one can. */
  predicate Bounded(times: seq<int>, limit: nat, window: nat, a: int) {
    var n := AdmittedIn(times, limit, window, a, a + window);
    && n <= 2 * limit
    && match KeyAfter(times, window)
       case None => n == 0
       case Some(w) =>
         var start := w.expiresAt - window;
         && times != [] && start <= times[|times| - 1] && 1 <= w.count
         && (w.expiresAt <= a ==> n == 0)
         && (start <= a ==> n <= Min(w.count, limit))
         && (start <= a + window ==> n <= limit + Min(w.count, limit))
  }

  lemma {:induction false} AlwaysBounded(times: seq<int>, limit: nat, window: nat, a: int)
    requires Ordered(times) && window > 0
    ensures Bounded(times, limit, window, a)
  {
    if times != [] {
      AlwaysBounded(times[..|times| - 1], limit, window, a);
    }
  }

  /** Any interval one window long admits at most twice the limit. */
  lemma AtMostTwiceTheLimit(times: seq<int>, limit: nat, window: nat, a: int, b: int)
    requires Ordered(times) && window > 0 && b - a <= window
    ensures AdmittedIn(times, limit, window, a, b) <= 2 * limit
  {
    AlwaysBounded(times, limit, window, a);
    AdmittedMonotone(times, limit, window, a, b, a + window);
  }

  lemma {:induction false} AdmittedMonotone(times: seq<int>, limit: nat, window: nat, a: int, b: int, b': int)
    requires b <= b'
    ensures AdmittedIn(times, limit, window, a, b) <= AdmittedIn(times, limit, window, a, b')
  {
    if times != [] { AdmittedMonotone(times[..|times| - 1], limit, window, a, b, b'); }
  }

  lemma {:induction false} NoneAdmittedBefore(times: seq<int>, limit: nat, window: nat, a: int, b: int)
    requires forall i :: 0 <= i < |times| ==> times[i] < a
    ensures AdmittedIn(times, limit, window, a, b) == 0
  {
    if times != [] { NoneAdmittedBefore(times[..|times| - 1], limit, window, a, b); }
  }

  /** The requests admitted since the current window began are its first
      `limit`: they are as many as the counter says, up to the limit. */
  lemma {:induction false} CurrentWindow(times: seq<int>, limit: nat, window: nat, b: int)
    requires Ordered(times) && window > 0 && times != [] && times[|times| - 1] <= b
    ensures var w := KeyAfter(times, window).value;
      && w.expiresAt - window <= times[|times| - 1] < w.expiresAt && 1 <= w.count
      && AdmittedIn(times, limit, window, w.expiresAt - window, b) == Min(w.count, limit)
  {
    var init, now := times[..|times| - 1], times[|times| - 1];
    if init != [] {
      CurrentWindow(init, limit, window, b);
      if KeyAfter(init, window).value.expiresAt <= now {
        NoneAdmittedBefore(init, limit, window, now, b);
      }
    }
  }

  /** A request is refused exactly when `limit` requests were already admitted
      since the window that holds it began. */
  lemma RefusedIffWindowIsFull(times: seq<int>, limit: nat, window: nat)
    requires Ordered(times) && window > 0 && times != []
    ensures var w, init, now := KeyAfter(times, window).value, times[..|times| - 1], times[|times| - 1];
      w.count > limit <==> AdmittedIn(init, limit, window, w.expiresAt - window, now) >= limit
  {
    CurrentWindow(times, limit, window, times[|times| - 1]);
  }

  /** Requests at one time, `n` of them. */
  function Burst(t: int, n: nat): seq<int> { seq(n, _ => t) }

  lemma OneRequest(limit: nat, window: nat)
    requires limit > 0
    ensures KeyAfter([0], window) == Some(Window(1, window)) && AdmittedIn([0], limit, window, 0, window) == 1
  {
    var none: seq<int> := [];
    assert [0][..0] == none;
    assert KeyAfter(none, window) == None && AdmittedIn(none, limit, window, 0, window) == 0;
  }

  lemma FirstBurst(limit: nat, window: nat)
    requires limit > 0 && window > 1
    ensures var first := [0] + Burst(window - 1, limit - 1);
      KeyAfter(first, window) == Some(Window(limit, window)) && AdmittedIn(first, limit, window, 0, window) == limit
  {
    OneRequest(limit, window);
    SameWindowBurst([0], window - 1, limit - 1, limit, window);
  }

  lemma NewWindow(first: seq<int>, limit: nat, window: nat)
    requires limit > 0 && window > 1 && KeyAfter(first, window) == Some(Window(limit, window))
    ensures var second := first + [window];
      && KeyAfter(second, window) == Some(Window(1, 2 * window))
      && AdmittedIn(second, limit, window, 0, window) == AdmittedIn(first, limit, window, 0, window) + 1
  {
    var second := first + [window];
    assert second[..|second| - 1] == first;
  }

  /** The bound is met: one request opens the window, the rest of the limit comes
      at its end, and a full second window follows at once. */
  lemma BoundIsMet(limit: nat, window: nat)
    requires limit > 0 && window > 1
    ensures var times := [0] + Burst(window - 1, limit - 1) + Burst(window, limit);
      Ordered(times) && AdmittedIn(times, limit, window, 0, window) == 2 * limit
  {
    var first := [0] + Burst(window - 1, limit - 1);
    FirstBurst(limit, window);
    NewWindow(first, limit, window);
    SameWindowBurst(first + [window], window, limit - 1, limit, window);
    assert first + [window] + Burst(window, limit - 1) == first + Burst(window, limit);
  }

  /** `n` more requests at a time inside the current window are all admitted
      while the counter stays within the limit. */
  lemma {:induction false} SameWindowBurst(times: seq<int>, t: int, n: nat, limit: nat, window: nat)
    requires times != [] && KeyAfter(times, window).value.expiresAt > t && 0 <= t <= window
    requires KeyAfter(times, window).value.count + n <= limit
    ensures KeyAfter(times + Burst(t, n), window) ==
      Some(Window(KeyAfter(times, window).value.count + n, KeyAfter(times, window).value.expiresAt))
    ensures AdmittedIn(times + Burst(t, n), limit, window, 0, window) == AdmittedIn(times, limit, window, 0, window) + n
  {
    var all := times + Burst(t, n);
    if n == 0 {
      assert all == times;
    } else {
      SameWindowBurst(times, t, n - 1, limit, window);
      assert all[..|all| - 1] == times + Burst(t, n - 1);
    }
  }
}
