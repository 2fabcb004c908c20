/**
 * The fixed-window rate limiter: one counter per client address, created
 * by the first increment with the window as its expiry, and compared with
 * the limit after every increment.
 */
module RateLimiter {

  const DefaultLimit := 100
  const DefaultWindow := 3600
  const KeyPrefix := "rate_limit:"

  function CounterKey(ip: string): string
  {
    KeyPrefix + ip
  }

  class Limiter {
    /** The counters, as INCR leaves them; an absent key reads as 0. */
    var counters: map<string, int>
    /** The expiry, in seconds, set on each counter. */
    var expiries: map<string, int>

    constructor (counters0: map<string, int>, expiries0: map<string, int>)
      ensures counters == counters0 && expiries == expiries0
    {
      counters, expiries := counters0, expiries0;
    }

    /**
     * `checkLimit`: increments the counter by one whatever the outcome, sets
     * the expiry only on the increment that creates the counter (count 1),
     * and allows the request iff the new count is within the limit.
     */
    method CheckLimit(ip: string, limit: int, window: int) returns (allowed: bool)
      modifies this
      ensures var key := CounterKey(ip);
        var current := (if key in old(counters) then old(counters)[key] else 0) + 1;
        && counters == old(counters)[key := current]
        && (current == 1 ==> expiries == old(expiries)[key := window])
        && (current != 1 ==> expiries == old(expiries))
        && (allowed <==> current <= limit)
    {
      var key := CounterKey(ip);
      var current := (if key in counters then counters[key] else 0) + 1;
      counters := counters[key := current];
      if current == 1 {
        expiries := expiries[key := window];
      }
      allowed := current <= limit;
    }

    /** `checkLimit($ip)` with the default limit of 100 per 3600-second window. */
    method CheckDefault(ip: string) returns (allowed: bool)
      modifies this
      ensures var key := CounterKey(ip);
        var current := (if key in old(counters) then old(counters)[key] else 0) + 1;
        && counters == old(counters)[key := current]
        && (current == 1 ==> expiries == old(expiries)[key := DefaultWindow])
        && (current != 1 ==> expiries == old(expiries))
        && (allowed <==> current <= DefaultLimit)
    {
      allowed := CheckLimit(ip, DefaultLimit, DefaultWindow);
    }

    /** The window ends: the counter expires and the next request starts a new one. */
    method Expire(ip: string)
      modifies this
      ensures counters == old(counters) - {CounterKey(ip)}
      ensures expiries == old(expiries) - {CounterKey(ip)}
    {
      counters := counters - {CounterKey(ip)};
      expiries := expiries - {CounterKey(ip)};
    }
  }

  /**
   * `n` requests from one address inside one window, starting with no
   * counter: exactly the first `limit` are allowed, and the expiry is the
   * window set by the first.
   */
  method Burst(ip: string, limit: int, window: int, n: nat) returns (results: seq<bool>, count: int, expiry: int)
    requires n > 0
    ensures |results| == n
    ensures forall i | 0 <= i < n :: results[i] <==> i < limit
    ensures count == n && expiry == window
  {
    var l := new Limiter(map[], map[]);
    var key := CounterKey(ip);
    results := [];
    var i := 0;
    while i < n
      invariant 0 <= i <= n
      invariant |results| == i
      invariant forall j | 0 <= j < i :: results[j] <==> j < limit
      invariant i == 0 ==> key !in l.counters && key !in l.expiries
      invariant i > 0 ==> key in l.counters && l.counters[key] == i && key in l.expiries && l.expiries[key] == window
    {
      var ok := l.CheckLimit(ip, limit, window);
      results := results + [ok];
      i := i + 1;
    }
    count := l.counters[key];
    expiry := l.expiries[key];
  }
}
