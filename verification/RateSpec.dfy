/**
 The token buckets of src/core/request_router.cpp, one per route, on a nanosecond clock. Counts
 are 32-bit signed integers and the product of rate and time a 64-bit one; all wrap around.
 */
module RateSpec {
  import opened Common

  /** `rate` stands for `max_tokens`, which is the refill rate as well. */
  datatype Bucket = Bucket(tokens: int, rate: int, last: int)

  /** Division that rounds towards zero, for a positive divisor. */
  function Trunc(a: int, b: int): int
    requires b > 0
  {
    if a >= 0 then a / b else 0 - (0 - a) / b
  }

  function Elapsed(b: Bucket, now: int): int {
    Trunc(now - b.last, 1_000_000)
  }

  /** Tokens earned since the last refill, before they are stored in 32 bits. */
  function Earned(b: Bucket, now: int): int {
    Trunc(I64(b.rate * Elapsed(b, now)), 1000)
  }

  /** What they would be in unbounded arithmetic. */
  function Due(b: Bucket, now: int): int {
    Trunc(b.rate * Elapsed(b, now), 1000)
  }

  function Refill(b: Bucket, now: int): Bucket {
    if Elapsed(b, now) <= 0 then b
    else b.(tokens := Min(b.rate, I32(b.tokens + I32(Earned(b, now)))), last := now)
  }

  /** One check of the limit: the bucket afterwards and whether the request is admitted. */
  function Check(b: Bucket, now: int): (Bucket, bool) {
    var r := Refill(b, now);
    if r.tokens > 0 then (r.(tokens := r.tokens - 1), true) else (r, false)
  }

  function Full(rate: int, now: int): Bucket {
    Bucket(rate, rate, now)
  }

  /** A reachable bucket: in 32 bits, never above its maximum. */
  ghost predicate Sound(b: Bucket) {
    -0x8000_0000 <= b.tokens <= b.rate < 0x8000_0000
  }

  lemma CheckKeeps(b: Bucket, now: int)
    requires Sound(b)
    ensures Sound(Check(b, now).0) && Check(b, now).0.rate == b.rate
  {
  }

  // ---------------------------------------------------------------- range

  lemma WrapTwice(x: int, y: int)
    ensures I32(x + I32(y)) == I32(x + y)
  {
    var q := y / 0x1_0000_0000;
    assert y == q * 0x1_0000_0000 + U32(y);
  }

  /** Tokens stay within 0..max exactly when the sum, taken in 32 bits, is not negative. */
  lemma RangeExactly(b: Bucket, now: int)
    requires Sound(b) && b.tokens >= 0 && Elapsed(b, now) > 0
    ensures 0 <= Refill(b, now).tokens <= b.rate <==> U32(b.tokens + Earned(b, now)) < 0x8000_0000
  {
    WrapTwice(b.tokens, Earned(b, now));
  }

  /** A route left alone for 2^31 milliseconds turns a request away with a full bucket. */
  lemma LongIdleDenies()
    ensures var b := Full(1000, 0); var now := 0x8000_0000 * 1_000_000;
      Check(b, now).1 == false && Refill(b, now).tokens < 0
  {
    var b, now := Full(1000, 0), 0x8000_0000 * 1_000_000;
    assert Elapsed(b, now) == 0x8000_0000;
    assert Earned(b, now) == 0x8000_0000;
  }

  // ---------------------------------------------------------------- admissions over a run

  function Run(b: Bucket, times: seq<int>): Bucket
    decreases |times|
  {
    if times == [] then b else Run(Check(b, times[0]).0, times[1..])
  }

  function Admitted(b: Bucket, times: seq<int>): nat
    decreases |times|
  {
    if times == [] then 0
    else (if Check(b, times[0]).1 then 1 else 0) + Admitted(Check(b, times[0]).0, times[1..])
  }

  ghost predicate Ordered(times: seq<int>) {
    forall i, j :: 0 <= i < j < |times| ==> times[i] <= times[j]
  }

  lemma {:induction false} RunKeeps(b: Bucket, times: seq<int>)
    requires Sound(b)
    ensures Sound(Run(b, times)) && Run(b, times).rate == b.rate
    decreases |times|
  {
    if times != [] {
      CheckKeeps(b, times[0]);
      RunKeeps(Check(b, times[0]).0, times[1..]);
    }
  }

  const SECOND: nat := 1_000_000_000

  /** Tokens in hand, in billionths, with those accruing since the last refill. */
  function Credit(b: Bucket, now: int): int {
    b.tokens * SECOND + b.rate * (now - b.last)
  }

  lemma EarnedBound(rate: int, d: int)
    requires rate >= 0 && d >= 0
    ensures 0 <= Trunc(rate * Trunc(d, 1_000_000), 1000) * SECOND <= rate * d
  {
    var e := d / 1_000_000;
    assert 0 <= rate * e;
    assert (rate * e / 1000) * 1000 <= rate * e;
    assert rate * (e * 1_000_000) <= rate * d by {
      assert e * 1_000_000 <= d;
      Scale(rate, e * 1_000_000, d);
    }
  }

  lemma Scale(k: int, a: int, b: int)
    requires k >= 0 && a <= b
    ensures k * a <= k * b
  {
  }

  /** Storing a sum in 32 bits, its second part already stored so, never makes it larger. */
  lemma StoredSum(x: int, y: int)
    requires -0x8000_0000 <= x && 0 <= y
    ensures I32(x + I32(y)) <= x + y
  {
    WrapTwice(x, y);
    StoredDown(x + y);
  }

  lemma StoredDown(z: int)
    requires -0x8000_0000 <= z
    ensures I32(z) <= z
  {
  }

  /** A product that does not fit 64 bits is worth more tokens than a bucket can lack. */
  lemma EarnedOrPlenty(product: int)
    requires 0 <= product
    ensures I64(product) == product || Trunc(product, 1000) >= TWO32
  {
  }

  /** A refill never adds more than was due, wrapped around or not. */
  lemma RefillTokens(b: Bucket, now: int)
    requires Sound(b) && Elapsed(b, now) > 0 && b.rate * Elapsed(b, now) >= 0
    ensures Refill(b, now).tokens <= b.tokens + Due(b, now)
  {
    EarnedOrPlenty(b.rate * Elapsed(b, now));
    if Earned(b, now) == Due(b, now) {
      StoredSum(b.tokens, Due(b, now));
    }
  }

  lemma CreditSpent(tokens: int, earned: int, after: int, accrued: int)
    requires after <= tokens + earned && earned * SECOND <= accrued
    ensures after * SECOND <= tokens * SECOND + accrued
  {
  }

  lemma RefillBound(b: Bucket, now: int)
    requires Sound(b) && b.rate >= 0 && b.last <= now
    ensures Credit(Refill(b, now), now) <= Credit(b, now)
  {
    if Elapsed(b, now) > 0 {
      EarnedBound(b.rate, now - b.last);
      Scale(b.rate, 0, Elapsed(b, now));
      RefillTokens(b, now);
      CreditSpent(b.tokens, Due(b, now), Refill(b, now).tokens, b.rate * (now - b.last));
    }
  }

  lemma RefillLast(b: Bucket, now: int)
    requires b.last <= now
    ensures var last := Refill(b, now).last; last <= now < last + 1_000_000
  {
  }

  /** Each admission costs a token's worth of credit. */
  lemma CheckBound(b: Bucket, now: int)
    requires Sound(b) && b.rate >= 0 && b.last <= now
    ensures var r := Check(b, now);
      Credit(r.0, now) + (if r.1 then SECOND else 0) <= Credit(b, now) && r.0.last <= now
  {
    RefillBound(b, now);
    RefillLast(b, now);
  }

  lemma CreditAccrues(b: Bucket, now: int, end: int)
    ensures Credit(b, end) == Credit(b, now) + b.rate * (end - now)
  {
  }

  lemma CreditIsPositive(b: Bucket, end: int)
    requires b.rate >= 0 && b.tokens >= 0 && b.last <= end
    ensures Credit(b, end) >= 0
  {
    Scale(b.rate, 0, end - b.last);
  }

  /** What a check leaves, seen from a later moment. */
  lemma CheckBoundLater(b: Bucket, now: int, end: int)
    requires Sound(b) && b.rate >= 0 && b.last <= now <= end
    ensures var r := Check(b, now);
      && Credit(r.0, end) + (if r.1 then SECOND else 0) <= Credit(b, end)
      && r.0.last <= now && (r.1 ==> Credit(r.0, end) >= 0)
  {
    var r := Check(b, now);
    CheckKeeps(b, now);
    CheckBound(b, now);
    CreditAccrues(b, now, end);
    CreditAccrues(r.0, now, end);
    if r.1 {
      CreditIsPositive(r.0, end);
    }
  }

  ghost predicate Within(times: seq<int>, start: int, end: int) {
    Ordered(times) && forall i :: 0 <= i < |times| ==> start <= times[i] <= end
  }

  lemma WithinRest(times: seq<int>, start: int, end: int, later: int)
    requires Within(times, start, end) && times != [] && later <= times[0]
    ensures Within(times[1..], later, end)
  {
    assert forall i :: 0 <= i < |times[1..]| ==> times[1..][i] == times[i + 1];
  }

  lemma {:induction false} AdmittedBound(b: Bucket, times: seq<int>, end: int)
    requires Sound(b) && b.rate >= 0 && Within(times, b.last, end)
    ensures Admitted(b, times) * SECOND <= Credit(b, end) || Admitted(b, times) == 0
    decreases |times|
  {
    if times != [] {
      var c := Check(b, times[0]).0;
      CheckKeeps(b, times[0]);
      CheckBoundLater(b, times[0], end);
      WithinRest(times, b.last, end, c.last);
      AdmittedBound(c, times[1..], end);
    }
  }

  /** The bucket after the refill at the first check of a window holds at most its maximum. */
  lemma AfterFirstRefill(b: Bucket, times: seq<int>)
    requires times != [] && Sound(b) && b.last <= times[0]
    ensures var r := Refill(b, times[0]);
      Sound(r) && r.rate == b.rate && Admitted(r, times) == Admitted(b, times)
  {
    RefillLast(b, times[0]);
    var r := Refill(b, times[0]);
    assert Refill(r, times[0]) == r;
    assert Check(r, times[0]) == Check(b, times[0]);
  }

  /** A bucket that never holds a token admits nothing. */
  lemma {:induction false} NothingForNothing(b: Bucket, times: seq<int>)
    requires Sound(b) && b.rate <= 0
    ensures Admitted(b, times) == 0
    decreases |times|
  {
    if times != [] {
      CheckKeeps(b, times[0]);
      NothingForNothing(Check(b, times[0]).0, times[1..]);
    }
  }

  lemma {:induction false} RunLast(b: Bucket, times: seq<int>, end: int)
    requires b.last <= end && forall i :: 0 <= i < |times| ==> times[i] <= end
    ensures Run(b, times).last <= end
    decreases |times|
  {
    if times != [] {
      RunLast(Check(b, times[0]).0, times[1..], end);
    }
  }

  lemma CreditCap(b: Bucket, end: int)
    requires Sound(b) && b.rate >= 0 && b.last <= end
    ensures 0 <= b.rate * SECOND + b.rate * (end - b.last)
    ensures Credit(b, end) <= b.rate * SECOND + b.rate * (end - b.last)
  {
    Scale(b.rate, 0, end - b.last);
  }

  /** The most requests, in billionths, that `rate` allows over `d` nanoseconds. */
  function Allowance(rate: int, d: int): int {
    if rate > 0 then rate * SECOND + rate * d else 0
  }

  /** `start` is the last refill that the first check of the window leaves standing. */
  lemma OneWindow(b: Bucket, rate: int, times: seq<int>, end: int) returns (start: int)
    requires Sound(b) && b.rate == rate && times != [] && Within(times, b.last, end)
    ensures start <= times[0] < start + 1_000_000 && (start == b.last || start == times[0])
    ensures Admitted(b, times) * SECOND <= Allowance(rate, end - start)
  {
    var r := Refill(b, times[0]);
    start := r.last;
    RefillLast(b, times[0]);
    if b.rate <= 0 {
      NothingForNothing(b, times);
    } else {
      AfterFirstRefill(b, times);
      assert Within(times, start, end);
      AdmittedBound(r, times, end);
      CreditCap(r, end);
    }
  }

  lemma WindowWithin(times: seq<int>, i: nat, j: nat, start: int)
    requires Ordered(times) && i < j <= |times| && start <= times[i]
    ensures Within(times[i..j], start, times[j - 1])
  {
    assert forall k :: 0 <= k < |times[i..j]| ==> times[i..j][k] == times[i + k];
  }

  /**
   In every run of a route's limiter and every window of it, from the `i`-th check to before the
   `j`-th, the number of requests let through is at most the maximum plus what the rate yields over
   the time from `start` to the last check, where `start` is less than a millisecond before the
   first. Sums that leave the 32-bit range are taken to wrap around.
   */
  lemma WindowBound(b: Bucket, times: seq<int>, i: nat, j: nat) returns (start: int)
    requires Sound(b) && i < j <= |times| && Within(times, b.last, times[|times| - 1])
    ensures start <= times[i] < start + 1_000_000 && (start == Run(b, times[..i]).last || start == times[i])
    ensures Admitted(Run(b, times[..i]), times[i..j]) * SECOND <= Allowance(b.rate, times[j - 1] - start)
  {
    RunKeeps(b, times[..i]);
    RunLast(b, times[..i], times[i]);
    WindowWithin(times, i, j, Run(b, times[..i]).last);
    start := OneWindow(Run(b, times[..i]), b.rate, times[i..j], times[j - 1]);
  }

  /** A moment at a whole number of milliseconds. */
  predicate Ticks(t: int) {
    t % 1_000_000 == 0
  }

  lemma {:induction false} RunTicks(b: Bucket, times: seq<int>)
    requires Ticks(b.last) && forall i :: 0 <= i < |times| ==> Ticks(times[i])
    ensures Ticks(Run(b, times).last)
    decreases |times|
  {
    if times != [] {
      RunTicks(Check(b, times[0]).0, times[1..]);
    }
  }

  lemma TicksApart(s: int, t: int, start: int)
    requires Ticks(s) && Ticks(t) && (start == s || start == t) && start <= t < start + 1_000_000
    ensures start == t
  {
  }

  lemma OneWindowInTicks(b: Bucket, rate: int, times: seq<int>, first: int, end: int)
    requires Sound(b) && b.rate == rate && times != [] && times[0] == first && Within(times, b.last, end)
    requires Ticks(b.last) && Ticks(first)
    ensures Admitted(b, times) * SECOND <= Allowance(rate, end - first)
  {
    var start := OneWindow(b, rate, times, end);
    TicksApart(b.last, first, start);
  }

  /** On a clock that ticks in milliseconds the window is the time between its checks. */
  lemma WindowBoundInTicks(b: Bucket, times: seq<int>, i: nat, j: nat)
    requires Sound(b) && i < j <= |times| && Within(times, b.last, times[|times| - 1])
    requires Ticks(b.last) && forall k :: 0 <= k < |times| ==> Ticks(times[k])
    ensures Admitted(Run(b, times[..i]), times[i..j]) * SECOND <= Allowance(b.rate, times[j - 1] - times[i])
  {
    RunTicks(b, times[..i]);
    RunKeeps(b, times[..i]);
    RunLast(b, times[..i], times[i]);
    WindowWithin(times, i, j, Run(b, times[..i]).last);
    OneWindowInTicks(Run(b, times[..i]), b.rate, times[i..j], times[i], times[j - 1]);
  }

  /** Between ticks one request more may pass: two within a second at one per second and a maximum
      of one, where the window between them would allow less than two. */
  lemma TicksAreNeeded()
    ensures var b := Full(1, 0);
      Admitted(b, [999_999, SECOND]) * SECOND > Allowance(1, SECOND - 999_999)
  {
    var b, c := Full(1, 0), Bucket(0, 1, 0);
    assert Check(b, 999_999) == (c, true);
    assert Elapsed(c, SECOND) == 1000 && Earned(c, SECOND) == 1;
    assert Check(c, SECOND) == (Bucket(0, 1, SECOND), true);
    assert [999_999, SECOND][1..] == [SECOND];
    assert Admitted(c, [SECOND]) == 1;
  }

  /** Up to `end`, no refill can overflow. */
  ghost predicate Roomy(b: Bucket, end: int) {
    b.rate * (end - b.last) < (0x8000_0000 - b.rate) * SECOND
  }

  lemma EarnedFits(b: Bucket, now: int, end: int)
    requires b.rate >= 0 && b.last <= now <= end && Roomy(b, end)
    ensures 0 <= Earned(b, now) < 0x8000_0000 - b.rate && Earned(b, now) == Due(b, now)
  {
    Scale(b.rate, now - b.last, end - b.last);
    EarnedBound(b.rate, now - b.last);
    Scale(b.rate, 0, Elapsed(b, now));
    EarnedOrPlenty(b.rate * Elapsed(b, now));
  }

  lemma SumFits(tokens: int, earned: int, rate: int)
    requires 0 <= tokens <= rate && 0 <= earned < 0x8000_0000 - rate
    ensures 0 <= Min(rate, I32(tokens + I32(earned))) <= rate
  {
  }

  lemma RefillInRange(b: Bucket, now: int, end: int)
    requires Sound(b) && b.tokens >= 0 && b.last <= now <= end && Roomy(b, end)
    ensures 0 <= Refill(b, now).tokens <= b.rate
  {
    if Elapsed(b, now) > 0 {
      EarnedFits(b, now, end);
      SumFits(b.tokens, Earned(b, now), b.rate);
    }
  }

  lemma CheckInRange(b: Bucket, now: int, end: int)
    requires Sound(b) && b.tokens >= 0 && b.last <= now <= end && Roomy(b, end)
    ensures var c := Check(b, now).0; 0 <= c.tokens <= c.rate && Roomy(c, end) && c.last <= now
  {
    RefillInRange(b, now, end);
    RefillLast(b, now);
    Scale(b.rate, end - now, end - b.last);
  }

  /** Without overflow the tokens stay within 0..max through the whole run. */
  lemma {:induction false} RunInRange(b: Bucket, times: seq<int>, end: int)
    requires Sound(b) && b.tokens >= 0 && Within(times, b.last, end) && Roomy(b, end)
    ensures 0 <= Run(b, times).tokens <= b.rate
    decreases |times|
  {
    if times != [] {
      var c := Check(b, times[0]).0;
      CheckKeeps(b, times[0]);
      CheckInRange(b, times[0], end);
      WithinRest(times, b.last, end, c.last);
      RunInRange(c, times[1..], end);
    }
  }

  // ---------------------------------------------------------------- all routes

  datatype Event = Enable(route: string, rate: int, at: int) | Ask(route: string, at: int)

  type Table = map<string, Bucket>

  /** A route without a limiter is never limited. */
  function Handle(t: Table, e: Event): (Table, bool) {
    match e
    case Enable(route, rate, at) => (t[route := Full(rate, at)], true)
    case Ask(route, at) =>
      if route !in t then (t, true)
      else
        var r := Check(t[route], at);
        (t[route := r.0], r.1)
  }

  function HandleAll(t: Table, es: seq<Event>): Table
    decreases |es|
  {
    if es == [] then t else HandleAll(Handle(t, es[0]).0, es[1..])
  }

  /** Requests of a route let through. */
  function Passed(t: Table, es: seq<Event>, route: string): nat
    decreases |es|
  {
    if es == [] then 0
    else
      var r := Handle(t, es[0]);
      (if es[0].Ask? && es[0].route == route && r.1 then 1 else 0) + Passed(r.0, es[1..], route)
  }

  /** The moments at which a route is asked for. */
  function TimesOf(es: seq<Event>, route: string): seq<int> {
    if es == [] then []
    else (if es[0].Ask? && es[0].route == route then [es[0].at] else []) + TimesOf(es[1..], route)
  }

  ghost predicate NotSetAnew(es: seq<Event>, route: string) {
    forall i :: 0 <= i < |es| ==> !(es[i].Enable? && es[i].route == route)
  }

  /** Routes do not interfere: what a route lets through is what its own bucket lets through at
      the moments it is asked, whatever happens on the others. */
  lemma {:induction false} RoutesAreIndependent(t: Table, es: seq<Event>, route: string)
    requires route in t && NotSetAnew(es, route)
    ensures Passed(t, es, route) == Admitted(t[route], TimesOf(es, route))
    ensures route in HandleAll(t, es) && HandleAll(t, es)[route] == Run(t[route], TimesOf(es, route))
    decreases |es|
  {
    if es != [] {
      var t' := Handle(t, es[0]).0;
      RoutesAreIndependent(t', es[1..], route);
      if es[0].Ask? && es[0].route == route {
        assert TimesOf(es, route)[1..] == TimesOf(es[1..], route);
      } else {
        assert TimesOf(es, route) == TimesOf(es[1..], route);
      }
    }
  }

  // ---------------------------------------------------------------- what is let through

  /** Checks within a millisecond of the last refill. */
  ghost predicate Together(last: int, times: seq<int>) {
    forall i :: 0 <= i < |times| ==> last <= times[i] < last + 1_000_000
  }

  lemma CheckTogether(b: Bucket, now: int)
    requires b.last <= now < b.last + 1_000_000
    ensures Check(b, now) == if b.tokens > 0 then (b.(tokens := b.tokens - 1), true) else (b, false)
  {
  }

  /** They use up the tokens there are, one each. */
  lemma {:induction false} RunTogether(b: Bucket, times: seq<int>)
    requires b.tokens >= 0 && Together(b.last, times)
    ensures Run(b, times) == b.(tokens := b.tokens - Min(b.tokens, |times|))
    ensures Admitted(b, times) == Min(b.tokens, |times|)
    decreases |times|
  {
    if times != [] {
      CheckTogether(b, times[0]);
      assert forall i :: 0 <= i < |times[1..]| ==> times[1..][i] == times[i + 1];
      RunTogether(Check(b, times[0]).0, times[1..]);
    }
  }

  /** Of any number of checks within one millisecond a full bucket admits exactly the first `rate`. */
  lemma FullBurst(rate: nat, at: int, times: seq<int>, i: nat)
    requires Together(at, times) && i < |times|
    ensures Check(Run(Full(rate, at), times[..i]), times[i]).1 <==> i < rate
    ensures Admitted(Full(rate, at), times) == Min(rate, |times|)
  {
    RunTogether(Full(rate, at), times);
    assert forall k :: 0 <= k < |times[..i]| ==> times[..i][k] == times[k];
    RunTogether(Full(rate, at), times[..i]);
    CheckTogether(Run(Full(rate, at), times[..i]), times[i]);
  }

  lemma SecondEarns(rate: nat, ms: nat)
    requires ms >= 1000
    ensures Trunc(rate * ms, 1000) >= rate
  {
    Scale(rate, 1000, ms);
  }

  lemma SecondElapses(b: Bucket, now: int)
    requires now >= b.last + SECOND
    ensures Elapsed(b, now) >= 1000
  {
  }

  /** A second without checks fills any bucket, while nothing overflows. */
  lemma FullAgain(b: Bucket, now: int)
    requires Sound(b) && b.tokens >= 0 && now >= b.last + SECOND && Roomy(b, now)
    ensures Refill(b, now).tokens == b.rate
  {
    SecondElapses(b, now);
    SecondEarns(b.rate, Elapsed(b, now));
    EarnedFits(b, now, now);
    FillsUp(b.tokens, Earned(b, now), b.rate);
  }

  lemma FillsUp(tokens: int, earned: int, rate: int)
    requires 0 <= tokens <= rate && rate <= earned < 0x8000_0000 - rate
    ensures Min(rate, I32(tokens + I32(earned))) == rate
  {
  }

  /** A route without a limiter lets every request through. */
  lemma {:induction false} UnlimitedRoutes(t: Table, es: seq<Event>, route: string)
    requires route !in t && NotSetAnew(es, route)
    ensures Passed(t, es, route) == |TimesOf(es, route)|
    decreases |es|
  {
    if es != [] {
      UnlimitedRoutes(Handle(t, es[0]).0, es[1..], route);
    }
  }

  /** A limiter just set lets exactly its rate through within a millisecond, whatever other routes do. */
  lemma LimitedBurst(t: Table, es: seq<Event>, route: string, rate: nat, at: int)
    requires NotSetAnew(es, route) && Together(at, TimesOf(es, route))
    ensures Passed(Handle(t, Enable(route, rate, at)).0, es, route) == Min(rate, |TimesOf(es, route)|)
  {
    RoutesAreIndependent(Handle(t, Enable(route, rate, at)).0, es, route);
    RunTogether(Full(rate, at), TimesOf(es, route));
  }
}
