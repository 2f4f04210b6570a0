/**
 The limiter objects of src/core/request_router.cpp and the table that holds one per route.
 */
module RateLimiter {
  import opened Common
  import opened RateSpec

  class Limiter {
    var tokens: int
    var maxTokens: int
    var lastRefill: int

    ghost function View(): Bucket
      reads this
    {
      Bucket(tokens, maxTokens, lastRefill)
    }

    constructor (rate: int, now: int)
      ensures View() == Full(rate, now)
    {
      tokens, maxTokens, lastRefill := rate, rate, now;
    }

    method RefillTokens(now: int)
      modifies this`tokens, this`lastRefill
      ensures View() == Refill(old(View()), now)
    {
      var elapsed := Trunc(now - lastRefill, 1_000_000);
      if elapsed > 0 {
        var toAdd := I32(Trunc(I64(maxTokens * elapsed), 1000));
        tokens := Min(maxTokens, I32(tokens + toAdd));
        lastRefill := now;
      }
    }

    method Take(now: int) returns (ok: bool)
      modifies this`tokens, this`lastRefill
      ensures (View(), ok) == Check(old(View()), now)
    {
      RefillTokens(now);
      ok := tokens > 0;
      if ok {
        tokens := tokens - 1;
      }
    }
  }

  class RequestRouter {
    var limiters: map<string, Limiter>

    ghost predicate Valid()
      reads this
    {
      forall r, s :: r in limiters && s in limiters && r != s ==> limiters[r] != limiters[s]
    }

    ghost function View(): Table
      reads this, limiters.Values
    {
      map r | r in limiters :: limiters[r].View()
    }

    constructor ()
      ensures Valid() && View() == map[]
    {
      limiters := map[];
    }

    method EnableRateLimiting(route: string, rate: int, now: int)
      requires Valid()
      modifies this
      ensures Valid() && View() == Handle(old(View()), Enable(route, rate, now)).0
    {
      var limiter := new Limiter(rate, now);
      limiters := limiters[route := limiter];
    }

    method CheckRateLimit(route: string, now: int) returns (ok: bool)
      requires Valid()
      modifies limiters.Values
      ensures Valid() && (View(), ok) == Handle(old(View()), Ask(route, now))
    {
      if route !in limiters {
        return true;
      }
      ghost var before := View();
      ok := limiters[route].Take(now);
      assert View() == before[route := Check(before[route], now).0];
    }
  }
}
