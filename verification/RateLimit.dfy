/** The fixed-window rate limiter (`pkg/server/ratelimit`). Times are nanoseconds since the zero time, so
    `IsZero` is equality with 0. */
module RateLimit {
  import opened GoTime

  datatype Counter = Counter(count: int, reset: Time)

  /** A fresh counter for an unknown key or an expired window. */
  function Renewed(window: int, c: Counter, now: Time): Counter {
    if c.reset == 0 || now > c.reset then Counter(0, now + window) else c
  }

  predicate Admits(limit: int, window: int, c: Counter, now: Time) {
    Renewed(window, c, now).count < limit
  }

  function After(limit: int, window: int, c: Counter, now: Time): Counter {
    var d := Renewed(window, c, now);
    if d.count < limit then d.(count := d.count + 1) else d
  }

  const NEW_COUNTER := Counter(0, 0)

  type Counters = map<string, Counter>

  function CounterOf(counters: Counters, key: string): Counter {
    if key in counters then counters[key] else NEW_COUNTER
  }

  class Limiter {
    const limit: int
    const window: int
    var counters: Counters

    constructor (limit: int, window: int)
      ensures this.limit == limit && this.window == window && counters == map[]
    {
      this.limit, this.window, counters := limit, window, map[];
    }

    method Allow(key: string, now: Time) returns (ok: bool)
      modifies this`counters
      ensures ok <==> Admits(limit, window, CounterOf(old(counters), key), now)
      ensures counters == old(counters)[key := After(limit, window, CounterOf(old(counters), key), now)]
    {
      var c := if key in counters then counters[key] else NEW_COUNTER;
      if c.reset == 0 || now > c.reset {
        c := Counter(0, now + window);
      }
      if c.count >= limit {
        counters := counters[key := c];
        return false;
      }
      c := c.(count := c.count + 1);
      counters := counters[key := c];
      return true;
    }
  }

  // ----- runs -----

  datatype Request = Request(key: string, now: Time)

  /** The times at which requests of one key are allowed in a run over all keys. */
  function AllowedOf(limit: int, window: int, counters: Counters, run: seq<Request>, key: string): seq<Time>
    decreases |run|
  {
    if run == [] then []
    else
      var c := CounterOf(counters, run[0].key);
      var rest := AllowedOf(limit, window, counters[run[0].key := After(limit, window, c, run[0].now)], run[1..], key);
      if run[0].key == key && Admits(limit, window, c, run[0].now) then [run[0].now] + rest else rest
  }

  /** The same for a run over a single key. */
  function Allowed(limit: int, window: int, c: Counter, times: seq<Time>): seq<Time>
    decreases |times|
  {
    if times == [] then []
    else
      var rest := Allowed(limit, window, After(limit, window, c, times[0]), times[1..]);
      if Admits(limit, window, c, times[0]) then [times[0]] + rest else rest
  }

  function TimesOf(run: seq<Request>, key: string): seq<Time> {
    if run == [] then []
    else if run[0].key == key then [run[0].now] + TimesOf(run[1..], key)
    else TimesOf(run[1..], key)
  }

  /** Keys do not affect each other: what one key is allowed depends only on its own requests. */
  lemma {:induction false} KeysIndependent(limit: int, window: int, counters: Counters, run: seq<Request>, key: string)
    ensures AllowedOf(limit, window, counters, run, key)
         == Allowed(limit, window, CounterOf(counters, key), TimesOf(run, key))
    decreases |run|
  {
    if run != [] {
      var c := CounterOf(counters, run[0].key);
      KeysIndependent(limit, window, counters[run[0].key := After(limit, window, c, run[0].now)], run[1..], key);
      if run[0].key == key {
        assert TimesOf(run, key)[1..] == TimesOf(run[1..], key);
      }
    }
  }

  // ----- how many requests are allowed -----

  function CountIn(times: seq<Time>, lo: Time, hi: Time): nat {
    if times == [] then 0
    else (if lo <= times[0] <= hi then 1 else 0) + CountIn(times[1..], lo, hi)
  }

  ghost predicate NonDecreasing(times: seq<Time>) {
    forall i, j | 0 <= i < j < |times| :: times[i] <= times[j]
  }

  /** No window ends at the zero time, which would make the counter look unset. */
  ghost predicate NeverResetsToZero(window: int, times: seq<Time>) {
    forall i | 0 <= i < |times| :: times[i] + window != 0
  }

  lemma CountSplit(t: Time, times: seq<Time>, lo: Time, hi: Time)
    ensures CountIn([t] + times, lo, hi) == (if lo <= t <= hi then 1 else 0) + CountIn(times, lo, hi)
  {
    assert ([t] + times)[1..] == times;
  }

  /** `n * x` by repeated addition. */
  function Times(n: nat, x: nat): nat {
    if n == 0 then 0 else Times(n - 1, x) + x
  }

  lemma {:induction false} TimesIsProduct(n: nat, x: nat)
    ensures Times(n, x) == n * x
  {
    if n > 0 {
      TimesIsProduct(n - 1, x);
      assert n * x == (n - 1) * x + x;
    }
  }

  /** From a counter that has `count` left over, at most the rest of its window and `n` further windows can
      still be allowed up to `n` windows after its end. */
  lemma {:induction false} AllowedFrom(
    limit: nat, window: nat, c: Counter, times: seq<Time>, lo: Time, hi: Time, n: nat)
    requires NonDecreasing(times) && NeverResetsToZero(window, times)
    requires c.reset != 0 && 0 <= c.count <= limit && hi <= c.reset + Times(n, window)
    ensures CountIn(Allowed(limit, window, c, times), lo, hi) <= limit - c.count + Times(n, limit)
    decreases |times|
  {
    if times != [] {
      var t := times[0];
      var d := After(limit, window, c, t);
      var rest := Allowed(limit, window, d, times[1..]);
      CountSplit(t, rest, lo, hi);
      if t <= c.reset {
        AllowedFrom(limit, window, d, times[1..], lo, hi, n);
      } else if t <= hi {
        AllowedFrom(limit, window, d, times[1..], lo, hi, n - 1);
      } else {
        LateCount(limit, window, d, times[1..], lo, hi);
      }
    }
  }

  /** Nothing after `hi` counts. */
  lemma {:induction false} LateCount(limit: nat, window: nat, c: Counter, times: seq<Time>, lo: Time, hi: Time)
    requires forall i | 0 <= i < |times| :: times[i] > hi
    ensures CountIn(Allowed(limit, window, c, times), lo, hi) == 0
    decreases |times|
  {
    if times != [] {
      var rest := Allowed(limit, window, After(limit, window, c, times[0]), times[1..]);
      CountSplit(times[0], rest, lo, hi);
      LateCount(limit, window, After(limit, window, c, times[0]), times[1..], lo, hi);
    }
  }

  /** A counter as it can be met in a run: unset, or in a window that at least one request started. */
  ghost predicate Met(limit: nat, c: Counter) {
    c == NEW_COUNTER || (c.reset != 0 && 1 <= c.count <= limit)
  }

  lemma {:induction false} AllowedWithin(limit: nat, window: nat, c: Counter, times: seq<Time>, lo: Time, n: nat)
    requires limit >= 1 && n >= 1 && Met(limit, c)
    requires NonDecreasing(times) && NeverResetsToZero(window, times)
    ensures CountIn(Allowed(limit, window, c, times), lo, lo + Times(n, window)) <= Times(n, limit) + limit - 1
    decreases |times|
  {
    var hi := lo + Times(n, window);
    if times != [] {
      var t := times[0];
      var d := After(limit, window, c, t);
      CountSplit(t, Allowed(limit, window, d, times[1..]), lo, hi);
      if t < lo {
        AllowedWithin(limit, window, d, times[1..], lo, n);
      } else if c.reset != 0 && t <= c.reset {
        AllowedFrom(limit, window, c, times, lo, hi, n);
      } else {
        AllowedFrom(limit, window, d, times[1..], lo, hi, n - 1);
      }
    }
  }

  /** In every run with a clock that does not go back, every closed interval of `n` windows holds at most
      `(n + 1) * limit - 1` allowed requests of one key, so one window holds fewer than twice the limit,
      whatever the other keys do. */
  lemma SlidingBound(limit: nat, window: nat, run: seq<Request>, key: string, lo: Time, n: nat)
    requires limit >= 1 && n >= 1
    requires NonDecreasing(TimesOf(run, key)) && NeverResetsToZero(window, TimesOf(run, key))
    ensures CountIn(AllowedOf(limit, window, map[], run, key), lo, lo + n * window) <= (n + 1) * limit - 1
  {
    KeysIndependent(limit, window, map[], run, key);
    AllowedWithin(limit, window, NEW_COUNTER, TimesOf(run, key), lo, n);
    TimesIsProduct(n, window);
    TimesIsProduct(n + 1, limit);
  }

  /** Within the window that a request opens, that request included, at most `limit` are allowed. */
  lemma WindowBound(limit: nat, window: nat, c: Counter, times: seq<Time>)
    requires times != [] && NonDecreasing(times) && NeverResetsToZero(window, times)
    requires c.reset == 0 || times[0] > c.reset
    ensures CountIn(Allowed(limit, window, c, times), times[0], times[0] + window) <= limit
  {
    var d := After(limit, window, c, times[0]);
    CountSplit(times[0], Allowed(limit, window, d, times[1..]), times[0], times[0] + window);
    AllowedFrom(limit, window, d, times[1..], times[0], times[0] + window, 0);
  }

  // ----- the bound is sharp, and its two conditions are needed -----

  function Repeat(t: Time, k: nat): (s: seq<Time>)
    ensures |s| == k && forall i | 0 <= i < k :: s[i] == t
  {
    seq(k, _ => t)
  }

  /** Requests at one instant inside an open window use up what is left of it. */
  lemma {:induction false} Burst(limit: nat, window: nat, c: Counter, t: Time, k: nat, more: seq<Time>)
    requires c.reset != 0 && t <= c.reset && 0 <= c.count && c.count + k <= limit
    ensures Allowed(limit, window, c, Repeat(t, k) + more)
         == Repeat(t, k) + Allowed(limit, window, c.(count := c.count + k), more)
    decreases k
  {
    var all := Repeat(t, k) + more;
    if k == 0 {
      assert all == more;
    } else {
      assert all[1..] == Repeat(t, k - 1) + more;
      Burst(limit, window, c.(count := c.count + 1), t, k - 1, more);
      assert Repeat(t, k) == [t] + Repeat(t, k - 1);
    }
  }

  lemma {:induction false} CountRepeat(t: Time, k: nat, more: seq<Time>, lo: Time, hi: Time)
    requires lo <= t <= hi
    ensures CountIn(Repeat(t, k) + more, lo, hi) == k + CountIn(more, lo, hi)
  {
    if k == 0 {
      assert Repeat(t, k) + more == more;
    } else {
      assert (Repeat(t, k) + more)[1..] == Repeat(t, k - 1) + more;
      CountRepeat(t, k - 1, more, lo, hi);
    }
  }

  /** One request, a burst at the last instant of its window, and a burst right after: two windows' worth
      less one in a single window's length. */
  function WorstCase(limit: nat, window: nat): seq<Time>
    requires limit >= 1
  {
    [1] + (Repeat(1 + window, limit - 1) + Repeat(2 + window, limit))
  }

  lemma WorstCaseAllowed(limit: nat, window: nat)
    requires limit >= 1
    ensures Allowed(limit, window, NEW_COUNTER, WorstCase(limit, window)) == WorstCase(limit, window)
  {
    var late := Repeat(2 + window, limit);
    var times := WorstCase(limit, window);
    assert times[1..] == Repeat(1 + window, limit - 1) + late;
    assert After(limit, window, NEW_COUNTER, 1) == Counter(1, 1 + window);
    Burst(limit, window, Counter(1, 1 + window), 1 + window, limit - 1, late);
    LateBurst(limit, window, Counter(limit, 1 + window), 2 + window);
  }

  /** The bound for one window is reached, for every limit and window. */
  lemma SlidingBoundSharp(limit: nat, window: nat)
    requires limit >= 1 && window >= 1
    ensures NonDecreasing(WorstCase(limit, window)) && NeverResetsToZero(window, WorstCase(limit, window))
    ensures CountIn(Allowed(limit, window, NEW_COUNTER, WorstCase(limit, window)), 1 + window, 1 + window + window)
         == 2 * limit - 1
  {
    WorstCaseAllowed(limit, window);
    var lo, hi := 1 + window, 1 + window + window;
    var late := Repeat(2 + window, limit);
    CountSplit(1, Repeat(1 + window, limit - 1) + late, lo, hi);
    CountRepeat(1 + window, limit - 1, late, lo, hi);
    assert late + [] == late;
    CountRepeat(2 + window, limit, [], lo, hi);
  }

  /** A burst of `limit` requests right after a window's end is allowed in full. */
  lemma LateBurst(limit: nat, window: nat, c: Counter, t: Time)
    requires limit >= 1 && c.reset != 0 && t > c.reset && t + window != 0
    ensures Allowed(limit, window, c, Repeat(t, limit)) == Repeat(t, limit)
  {
    var d := Counter(1, t + window);
    assert Repeat(t, limit) == [t] + Repeat(t, limit - 1);
    assert Repeat(t, limit)[1..] == Repeat(t, limit - 1) + [];
    Burst(limit, window, d, t, limit - 1, []);
  }

  /** A window that ends at the zero time never fills: every request at that instant is allowed. */
  lemma {:induction false} ZeroResetUnbounded(limit: nat, window: nat, c: Counter, t: Time, k: nat)
    requires limit >= 1 && c.reset == 0 && t + window == 0
    ensures Allowed(limit, window, c, Repeat(t, k)) == Repeat(t, k)
    decreases k
  {
    if k > 0 {
      assert Repeat(t, k) == [t] + Repeat(t, k - 1);
      assert Repeat(t, k)[1..] == Repeat(t, k - 1);
      ZeroResetUnbounded(limit, window, After(limit, window, c, t), t, k - 1);
    }
  }

  /** A run with a clock that does not go back, over these instants. */
  ghost predicate Over(times: seq<Time>, instants: iset<Time>) {
    NonDecreasing(times) && forall i | 0 <= i < |times| :: times[i] in instants
  }

  ghost function AllowedInWindow(limit: nat, window: nat, times: seq<Time>, lo: Time): nat {
    CountIn(Allowed(limit, window, NEW_COUNTER, times), lo, lo + window)
  }

  /** Fewer than twice the limit in every closed interval of one window, for every such run. */
  ghost predicate BoundedOver(limit: nat, window: nat, instants: iset<Time>) {
    forall times: seq<Time>, lo: Time | Over(times, instants) :: AllowedInWindow(limit, window, times, lo) <= 2 * limit - 1
  }

  /** The bound holds over a set of instants exactly when no window opened at one of them ends at the zero
      time. */
  lemma BoundedIff(limit: nat, window: nat, instants: iset<Time>)
    requires limit >= 1
    ensures BoundedOver(limit, window, instants) <==> 0 - window !in instants
  {
    var t := 0 - window;
    if t in instants {
      var times := Repeat(t, 2 * limit);
      ZeroResetUnbounded(limit, window, NEW_COUNTER, t, 2 * limit);
      assert times + [] == times;
      CountRepeat(t, 2 * limit, [], t, t + window);
      assert Over(times, instants) && AllowedInWindow(limit, window, times, t) == 2 * limit;
    } else {
      assert Times(1, window) == window && Times(1, limit) == limit;
      forall times: seq<Time>, lo: Time | Over(times, instants)
        ensures AllowedInWindow(limit, window, times, lo) <= 2 * limit - 1
      {
        AllowedWithin(limit, window, NEW_COUNTER, times, lo, 1);
      }
    }
  }
}
