/**
 The round robin of src/core/lb_core.c on a counter of 32 bits.
 */
module RoundRobinSpec {
  import opened Common

  // ---------------------------------------------------------------- remainders

  /** The remainder of `x` by `n`, by repeated subtraction. */
  function Mod(x: nat, n: nat): (r: nat)
    requires n > 0
    ensures r < n
  {
    if x < n then x else Mod(x - n, n)
  }

  lemma {:induction false} ProductsApart(p: nat, q: nat, n: nat)
    requires p < q
    ensures p * n + n <= q * n
    decreases q
  {
    if p + 1 < q {
      ProductsApart(p, q - 1, n);
    }
    assert q * n == (q - 1) * n + n;
  }

  lemma RemainderIsUnique(x: nat, n: nat, p: nat, r: nat, q: nat, s: nat)
    requires x == p * n + r && r < n && x == q * n + s && s < n
    ensures r == s
  {
    if p < q {
      ProductsApart(p, q, n);
    } else if q < p {
      ProductsApart(q, p, n);
    }
  }

  lemma NextMultiple(q: nat, n: nat)
    ensures (q + 1) * n == q * n + n
  {
  }

  lemma {:induction false} ModDivides(x: nat, n: nat) returns (q: nat)
    requires n > 0
    ensures x == q * n + Mod(x, n)
    decreases x
  {
    if x < n {
      q := 0;
    } else {
      q := ModDivides(x - n, n);
      NextMultiple(q, n);
      q := q + 1;
    }
  }

  lemma Divides(x: nat, n: nat)
    requires n > 0
    ensures x == (x / n) * n + x % n
  {
  }

  /** It is the remainder the operator `%` gives. */
  lemma ModIsRemainder(x: nat, n: nat)
    requires n > 0
    ensures Mod(x, n) == x % n
  {
    var q := ModDivides(x, n);
    Divides(x, n);
    RemainderIsUnique(x, n, q, Mod(x, n), x / n, x % n);
  }

  lemma {:induction false} ModAdd(x: nat, k: nat, n: nat)
    requires n > 0 && k <= n
    ensures Mod(x + k, n) == if Mod(x, n) + k < n then Mod(x, n) + k else Mod(x, n) + k - n
    decreases x
  {
    if x >= n {
      ModAdd(x - n, k, n);
    }
  }

  lemma {:induction false} ModAddZero(x: nat, y: nat, n: nat)
    requires n > 0 && Mod(x, n) == 0
    ensures Mod(x + y, n) == Mod(y, n)
    decreases x
  {
    if x >= n {
      ModAddZero(x - n, y, n);
    }
  }

  // ---------------------------------------------------------------- picks

  /** The backend that one pick returns, and the counter afterwards, with `left` attempts to go. */
  function Attempt(up: seq<bool>, c: nat, left: nat): (r: (Option<nat>, nat))
    requires left <= |up|
    ensures r.0.Some? ==> r.0.value < |up| && up[r.0.value]
    decreases left
  {
    if left == 0 then (None, c)
    else
      var i := Mod(c, |up|);
      if up[i] then (Some(i), U32(c + 1)) else Attempt(up, U32(c + 1), left - 1)
  }

  function Pick(up: seq<bool>, c: nat): (Option<nat>, nat) {
    Attempt(up, c, |up|)
  }

  /** The backend looked at by the `k`-th attempt. */
  function Probe(n: nat, c: nat, k: nat): nat
    requires n > 0
  {
    Mod(U32(c + k), n)
  }

  lemma ProbeNext(n: nat, c: nat, k: nat)
    requires n > 0
    ensures Probe(n, U32(c + 1), k) == Probe(n, c, k + 1)
  {
    assert U32(U32(c + 1) + k) == U32(c + 1 + k);
  }

  /** A pick finds a backend when one of its attempts looks at one that is up. */
  lemma {:induction false} FindsProbed(up: seq<bool>, c: nat, left: nat, k: nat)
    requires c < TWO32 && k < left <= |up| && up[Probe(|up|, c, k)]
    ensures Attempt(up, c, left).0.Some?
    decreases left
  {
    if !up[Mod(c, |up|)] {
      ProbeNext(|up|, c, k - 1);
      FindsProbed(up, U32(c + 1), left - 1, k - 1);
    }
  }

  ghost predicate Unprobed(up: seq<bool>, c: nat, left: nat)
    requires left <= |up|
  {
    forall k :: 0 <= k < left ==> !up[Probe(|up|, c, k)]
  }

  lemma UnprobedNext(up: seq<bool>, c: nat, left: nat)
    requires 0 < left <= |up| && Unprobed(up, c, left)
    ensures Unprobed(up, U32(c + 1), left - 1)
  {
    var d := U32(c + 1);
    forall k: nat | k < left - 1
      ensures !up[Probe(|up|, d, k)]
    {
      ProbeNext(|up|, c, k);
    }
  }

  /** It finds none when all of them look at backends that are down. */
  lemma {:induction false} MissesUnprobed(up: seq<bool>, c: nat, left: nat)
    requires c < TWO32 && left <= |up| && Unprobed(up, c, left)
    ensures Attempt(up, c, left).0.None?
    decreases left
  {
    if left > 0 {
      assert !up[Probe(|up|, c, 0)];
      UnprobedNext(up, c, left);
      MissesUnprobed(up, U32(c + 1), left - 1);
    }
  }

  // ---------------------------------------------------------------- coverage

  /** A counter that passes 2^32 in step with the backends. */
  predicate InStep(n: nat)
    requires n > 0
  {
    Mod(TWO32, n) == 0
  }

  lemma ProbeInStep(n: nat, c: nat, k: nat)
    requires n > 0 && c < TWO32 && k < n <= TWO32 && InStep(n)
    ensures Probe(n, c, k) == Mod(c + k, n)
  {
    if c + k >= TWO32 {
      ModAddZero(TWO32, c + k - TWO32, n);
    }
  }

  /** Which of `n` consecutive numbers from `c` on has remainder `i`. */
  lemma Hit(c: nat, n: nat, i: nat) returns (k: nat)
    requires i < n
    ensures k < n && Mod(c + k, n) == i
  {
    var r := Mod(c, n);
    k := if r <= i then i - r else n - r + i;
    ModAdd(c, k, n);
  }

  /** The backend that no attempt looks at when the counter passes 2^32 out of step, `a` attempts
      after the start. */
  function Missed(n: nat, a: nat): nat
    requires 0 < a < n
  {
    var r := Mod(TWO32, n);
    if a <= r then n - 1 else n - a + r - 1
  }

  lemma MissedIsMissed(n: nat, a: nat, k: nat)
    requires 0 < a < n <= TWO32 && k < n && !InStep(n)
    ensures Missed(n, a) < n && Probe(n, TWO32 - a, k) != Missed(n, a)
  {
    if k >= a {
      assert U32(TWO32 - a + k) == k - a;
    } else {
      ModAdd(TWO32 - a + k, a - k, n);
    }
  }

  ghost predicate AlwaysFinds(n: nat, c: nat) {
    forall up: seq<bool> :: |up| == n && true in up ==> Pick(up, c).0.Some?
  }

  lemma FindsAny(up: seq<bool>, c: nat)
    requires c < TWO32 && |up| <= TWO32 && true in up && (c + |up| <= TWO32 || InStep(|up|))
    ensures Pick(up, c).0.Some?
  {
    var n := |up|;
    var i :| 0 <= i < n && up[i];
    var k := Hit(c, n, i);
    if InStep(n) {
      ProbeInStep(n, c, k);
    }
    FindsProbed(up, c, n, k);
  }

  /** The backends of which only the one that is never looked at is up. */
  lemma MissesOne(n: nat, c: nat) returns (up: seq<bool>)
    requires 0 < n <= TWO32 && c < TWO32 && c + n > TWO32 && !InStep(n)
    ensures |up| == n && true in up && Pick(up, c).0.None?
  {
    var a := TWO32 - c;
    MissedIsMissed(n, a, 0);
    var m := Missed(n, a);
    up := seq(n, i => i == m);
    assert up[m];
    forall k: nat | k < n
      ensures !up[Probe(n, c, k)]
    {
      MissedIsMissed(n, a, k);
    }
    MissesUnprobed(up, c, n);
  }

  /** A pick finds a backend that is up whichever those are, exactly when its attempts do not take
      the counter past 2^32 or the number of backends divides 2^32. */
  lemma CoverageExactly(n: nat, c: nat)
    requires 0 < n <= TWO32 && c < TWO32
    ensures AlwaysFinds(n, c) <==> c + n <= TWO32 || InStep(n)
  {
    if c + n <= TWO32 || InStep(n) {
      forall up: seq<bool> | |up| == n && true in up
        ensures Pick(up, c).0.Some?
      {
        FindsAny(up, c);
      }
    } else {
      var up := MissesOne(n, c);
    }
  }

  // ---------------------------------------------------------------- fairness

  /** Of the first `c` counter values, how many fall to backend `i`. */
  function Below(n: nat, c: nat, i: nat): nat
    requires n > 0
  {
    if c == 0 then 0 else Below(n, c - 1, i) + if Mod(c - 1, n) == i then 1 else 0
  }

  lemma {:induction false} BelowFirst(n: nat, c: nat, i: nat)
    requires i < n && c <= n
    ensures Below(n, c, i) == if i < c then 1 else 0
    decreases c
  {
    if c > 0 {
      BelowFirst(n, c - 1, i);
    }
  }

  lemma {:induction false} BelowRound(n: nat, c: nat, i: nat)
    requires i < n
    ensures Below(n, c + n, i) == Below(n, c, i) + 1
    decreases c
  {
    if c == 0 {
      BelowFirst(n, n, i);
    } else {
      BelowRound(n, c - 1, i);
    }
  }

  /** `k` rounds of `n`. */
  function Rounds(k: nat, n: nat): nat {
    if k == 0 then 0 else Rounds(k - 1, n) + n
  }

  lemma {:induction false} BelowRounds(n: nat, c: nat, k: nat, i: nat)
    requires i < n
    ensures Below(n, c + Rounds(k, n), i) == Below(n, c, i) + k
    decreases k
  {
    if k > 0 {
      BelowRounds(n, c, k - 1, i);
      BelowRound(n, c + Rounds(k - 1, n), i);
    }
  }

  /** How many of `m` picks from the counter `c` on return backend `i`. */
  function Returned(up: seq<bool>, c: nat, m: nat, i: nat): nat
    decreases m
  {
    if m == 0 then 0
    else
      var r := Pick(up, c);
      (if r.0 == Some(i) then 1 else 0) + Returned(up, r.1, m - 1, i)
  }

  ghost predicate AllUp(up: seq<bool>) {
    |up| > 0 && forall i :: 0 <= i < |up| ==> up[i]
  }

  lemma PickAllUp(up: seq<bool>, c: nat)
    requires AllUp(up)
    ensures Pick(up, c) == (Some(Mod(c, |up|)), U32(c + 1))
  {
  }

  lemma {:induction false} ReturnedIs(up: seq<bool>, c: nat, m: nat, i: nat)
    requires AllUp(up) && c + m <= TWO32
    ensures Below(|up|, c, i) + Returned(up, c, m, i) == Below(|up|, c + m, i)
    decreases m
  {
    if m > 0 {
      PickAllUp(up, c);
      if m > 1 {
        ReturnedIs(up, c + 1, m - 1, i);
      }
    }
  }

  lemma {:induction false} RoundsMultiply(k: nat, n: nat)
    ensures Rounds(k, n) == k * n
    decreases k
  {
    if k > 0 {
      RoundsMultiply(k - 1, n);
      assert k * n == (k - 1) * n + n;
    }
  }

  /** With every backend up, any k·n picks in a row return each backend exactly k times. */
  lemma Fairness(up: seq<bool>, c: nat, k: nat, i: nat)
    requires AllUp(up) && i < |up| && c + k * |up| <= TWO32
    ensures Returned(up, c, k * |up|, i) == k
  {
    RoundsMultiply(k, |up|);
    ReturnedIs(up, c, Rounds(k, |up|), i);
    BelowRounds(|up|, c, k, i);
  }

  // ---------------------------------------------------------------- which backend

  lemma Fits(c: nat)
    requires c < TWO32
    ensures U32(c) == c
  {
  }

  lemma FirstProbe(n: nat, c: nat)
    requires n > 0 && c < TWO32
    ensures Probe(n, c, 0) == Mod(c, n)
  {
    Fits(c);
    assert c + 0 == c;
  }

  lemma CountOn(c: nat, k: nat)
    ensures U32(U32(c + 1) + k) == U32(c + 1 + k)
  {
  }

  lemma AttemptNext(up: seq<bool>, c: nat, left: nat)
    requires c < TWO32 && 0 < left <= |up| && !up[Probe(|up|, c, 0)]
    ensures Attempt(up, c, left) == Attempt(up, U32(c + 1), left - 1)
  {
    FirstProbe(|up|, c);
  }

  lemma {:induction false} AttemptExactly(up: seq<bool>, c: nat, left: nat, k: nat)
    requires c < TWO32 && k < left <= |up| && up[Probe(|up|, c, k)] && Unprobed(up, c, k)
    ensures Attempt(up, c, left) == (Some(Probe(|up|, c, k)), U32(c + k + 1))
    decreases left
  {
    if k == 0 {
      FirstProbe(|up|, c);
    } else {
      AttemptNext(up, c, left);
      UnprobedNext(up, c, k);
      ProbeNext(|up|, c, k - 1);
      AttemptExactly(up, U32(c + 1), left - 1, k - 1);
      CountOn(c, k);
    }
  }

  lemma {:induction false} AttemptNone(up: seq<bool>, c: nat, left: nat)
    requires c < TWO32 && left <= |up| && Unprobed(up, c, left)
    ensures Attempt(up, c, left) == (None, U32(c + left))
    decreases left
  {
    if left > 0 {
      AttemptNext(up, c, left);
      UnprobedNext(up, c, left);
      AttemptNone(up, U32(c + 1), left - 1);
      CountOn(c, left - 1);
    }
  }

  /**
   A pick looks at the backends the counter goes through, one after the other; it returns the first
   that is up and moves the counter just past it, or finds none and moves it by all of them.
   */
  lemma PickExactly(up: seq<bool>, c: nat, k: nat)
    requires c < TWO32 && k <= |up| && Unprobed(up, c, k) && (k < |up| ==> up[U32(c + k) % |up|])
    ensures Pick(up, c) == if k < |up| then (Some(U32(c + k) % |up|), U32(c + k + 1)) else (None, U32(c + |up|))
  {
    if k < |up| {
      ModIsRemainder(U32(c + k), |up|);
      AttemptExactly(up, c, |up|, k);
    } else {
      AttemptNone(up, c, |up|);
    }
  }
}
