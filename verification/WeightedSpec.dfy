/**
 Choosing one of several weighted targets by a random draw, as src/core/request_router.cpp does
 for the targets of a route and src/core/lb_core.c for its backends.
 */
module WeightedSpec {
  import opened Common

  /** The sum of the first `i` weights. */
  function Cum(ws: seq<int>, i: nat): int
    requires i <= |ws|
  {
    if i == 0 then 0 else Cum(ws, i - 1) + ws[i - 1]
  }

  function Sum(ws: seq<int>): int {
    Cum(ws, |ws|)
  }

  ghost predicate NonNegative(ws: seq<int>) {
    forall i :: 0 <= i < |ws| ==> ws[i] >= 0
  }

  /** The first target from `i` on whose running total exceeds the draw, or none. */
  function PickFrom(ws: seq<int>, d: int, i: nat): (j: nat)
    requires i <= |ws|
    ensures i <= j <= |ws|
    decreases |ws| - i
  {
    if i == |ws| || d < I32(Cum(ws, i + 1)) then i else PickFrom(ws, d, i + 1)
  }

  /** The target chosen; the last one when the search finds none. */
  function Choice(ws: seq<int>, d: int): (i: nat)
    requires ws != []
    ensures i < |ws|
  {
    var j := PickFrom(ws, d, 0);
    if j == |ws| then |ws| - 1 else j
  }

  /** How many of the draws 0..n-1 choose target `i`. */
  function Count(ws: seq<int>, n: nat, i: nat): nat
    requires ws != []
  {
    if n == 0 then 0 else Count(ws, n - 1, i) + if Choice(ws, n - 1) == i then 1 else 0
  }

  lemma {:induction false} CumGrows(ws: seq<int>, i: nat, j: nat)
    requires NonNegative(ws) && i <= j <= |ws|
    ensures 0 <= Cum(ws, i) <= Cum(ws, j)
    decreases j
  {
    if i < j {
      CumGrows(ws, i, j - 1);
    } else if 0 < i {
      CumGrows(ws, 0, i - 1);
    }
  }

  /** Below the sum the search ends where the running total first exceeds the draw. */
  lemma {:induction false} PickIs(ws: seq<int>, d: int, i: nat, k: nat)
    requires NonNegative(ws) && Sum(ws) < 0x8000_0000
    requires k <= i < |ws| && Cum(ws, i) <= d < Cum(ws, i + 1)
    ensures PickFrom(ws, d, k) == i
    decreases i - k
  {
    CumGrows(ws, i + 1, |ws|);
    CumGrows(ws, k + 1, i + 1);
    if k < i {
      CumGrows(ws, k + 1, i);
      PickIs(ws, d, i, k + 1);
    }
  }

  /** Every draw below the sum falls to some target. */
  lemma {:induction false} Falls(ws: seq<int>, d: int, k: nat) returns (i: nat)
    requires NonNegative(ws) && k <= |ws| && 0 <= d < Cum(ws, k)
    ensures i < k && Cum(ws, i) <= d < Cum(ws, i + 1)
    decreases k
  {
    if d < Cum(ws, k - 1) {
      i := Falls(ws, d, k - 1);
    } else {
      i := k - 1;
    }
  }

  /** The final fallback is never reached: the search itself finds the target. */
  lemma NoFallback(ws: seq<int>, d: int)
    requires NonNegative(ws) && Sum(ws) < 0x8000_0000 && 0 <= d < Sum(ws)
    ensures PickFrom(ws, d, 0) < |ws|
  {
    var i := Falls(ws, d, |ws|);
    PickIs(ws, d, i, 0);
  }

  lemma ChoiceIs(ws: seq<int>, d: int, i: nat)
    requires NonNegative(ws) && Sum(ws) < 0x8000_0000 && 0 <= d < Sum(ws) && i < |ws|
    ensures Choice(ws, d) == i <==> Cum(ws, i) <= d < Cum(ws, i + 1)
  {
    var k := Falls(ws, d, |ws|);
    PickIs(ws, d, k, 0);
    if Cum(ws, i) <= d < Cum(ws, i + 1) {
      PickIs(ws, d, i, 0);
    }
  }

  lemma {:induction false} CountIs(ws: seq<int>, n: nat, i: nat)
    requires NonNegative(ws) && Sum(ws) < 0x8000_0000 && n <= Sum(ws) && i < |ws|
    ensures Count(ws, n, i) == if n <= Cum(ws, i) then 0 else Min(n, Cum(ws, i + 1)) - Cum(ws, i)
    decreases n
  {
    CumGrows(ws, i, i + 1);
    if n > 0 {
      CountIs(ws, n - 1, i);
      ChoiceIs(ws, n - 1, i);
    }
  }

  /** Draws of the first `k` targets together. */
  function AllCounts(ws: seq<int>, n: nat, k: nat): nat
    requires ws != []
  {
    if k == 0 then 0 else AllCounts(ws, n, k - 1) + Count(ws, n, k - 1)
  }

  lemma {:induction false} AllCountsAdd(ws: seq<int>, n: nat, k: nat)
    requires ws != [] && n > 0
    ensures AllCounts(ws, n, k) == AllCounts(ws, n - 1, k) + if Choice(ws, n - 1) < k then 1 else 0
    decreases k
  {
    if k > 0 {
      AllCountsAdd(ws, n, k - 1);
    }
  }

  /** Each draw chooses at most one of them. */
  lemma {:induction false} AllCountsBound(ws: seq<int>, n: nat, k: nat)
    requires ws != []
    ensures AllCounts(ws, n, k) <= n
    decreases n, k
  {
    if n > 0 {
      AllCountsAdd(ws, n, k);
      AllCountsBound(ws, n - 1, k);
    } else if k > 0 {
      AllCountsBound(ws, 0, k - 1);
    }
  }

  lemma {:induction false} AllCountsSum(ws: seq<int>, n: nat, k: nat)
    requires ws != [] && k <= |ws| && forall i :: 0 <= i < |ws| ==> Count(ws, n, i) == ws[i]
    ensures AllCounts(ws, n, k) == Cum(ws, k)
    decreases k
  {
    if k > 0 {
      AllCountsSum(ws, n, k - 1);
    }
  }

  /** The sum of the weights as the code keeps it. */
  function Total(ws: seq<int>): int {
    I32(Sum(ws))
  }

  /** Of the draws 0..total-1, each target gets exactly as many as it has weight, if and only if no
      weight is negative and their sum fits 31 bits. */
  lemma ExactChoice(ws: seq<int>)
    requires ws != [] && Total(ws) > 0
    ensures (forall i :: 0 <= i < |ws| ==> Count(ws, Total(ws), i) == ws[i])
       <==> NonNegative(ws) && Sum(ws) < 0x8000_0000
  {
    if NonNegative(ws) && Sum(ws) < 0x8000_0000 {
      CumGrows(ws, 0, |ws|);
      forall i | 0 <= i < |ws|
        ensures Count(ws, Total(ws), i) == ws[i]
      {
        CountIs(ws, Total(ws), i);
        CumGrows(ws, i + 1, |ws|);
        CumGrows(ws, i, i + 1);
      }
    } else if forall i :: 0 <= i < |ws| ==> Count(ws, Total(ws), i) == ws[i] {
      AllCountsSum(ws, Total(ws), |ws|);
      AllCountsBound(ws, Total(ws), |ws|);
    }
  }

  // ---------------------------------------------------------------- a route with a cached total

  /** `cached` is the stored total, to be trusted while `current` is set. */
  datatype Route = Route(weights: seq<int>, cached: int, current: bool)

  datatype Step = Add(weight: int) | Select(open: bool, draw: int)

  /** The choice of a route that adds up its weights each time. */
  function Plain(ws: seq<int>, s: Step): Option<nat> {
    if s.Add? || ws == [] || s.open || Total(ws) == 0 then None else Some(Choice(ws, s.draw))
  }

  function Refresh(r: Route): Route {
    if r.current then r else r.(cached := Total(r.weights), current := true)
  }

  /** One call on a route: the route afterwards and the target selected. */
  function Do(r: Route, s: Step): (Route, Option<nat>) {
    match s
    case Add(w) => (r.(weights := r.weights + [w], current := false), None)
    case Select(open, draw) =>
      if r.weights == [] || open then (r, None)
      else
        var f := Refresh(r);
        (f, if f.cached == 0 then None else Some(Choice(f.weights, draw)))
  }

  ghost predicate Honest(r: Route) {
    r.current ==> r.cached == Total(r.weights)
  }

  function Chosen(r: Route, steps: seq<Step>): seq<Option<nat>>
    decreases |steps|
  {
    if steps == [] then [] else [Do(r, steps[0]).1] + Chosen(Do(r, steps[0]).0, steps[1..])
  }

  function PlainlyChosen(ws: seq<int>, steps: seq<Step>): seq<Option<nat>>
    decreases |steps|
  {
    if steps == [] then []
    else [Plain(ws, steps[0])] + PlainlyChosen(if steps[0].Add? then ws + [steps[0].weight] else ws, steps[1..])
  }

  /** In any order of additions and selections a current total is the sum of the weights, so every
      selection is the one a route without a cache would make. */
  lemma {:induction false} CacheIsTransparent(r: Route, steps: seq<Step>)
    requires Honest(r)
    ensures Chosen(r, steps) == PlainlyChosen(r.weights, steps)
    decreases |steps|
  {
    if steps != [] {
      CacheIsTransparent(Do(r, steps[0]).0, steps[1..]);
    }
  }

  /** A selection yields a target if and only if there is one, the breaker is closed and the weights
      do not add up to zero in 32 bits; it leaves the weights alone. */
  lemma SelectsExactly(r: Route, open: bool, draw: int)
    requires Honest(r)
    ensures var (f, t) := Do(r, Select(open, draw));
      && (t.Some? <==> r.weights != [] && !open && U32(Sum(r.weights)) != 0)
      && (t.Some? ==> t.value == Choice(r.weights, draw)) && f.weights == r.weights && Honest(f)
  {
  }

  // ---------------------------------------------------------------- backends

  datatype Backend = Backend(up: bool, weight: nat)

  /** A backend that is not up counts for nothing. */
  function Weights(bs: seq<Backend>): (ws: seq<int>)
    ensures |ws| == |bs| && forall i :: 0 <= i < |bs| ==> ws[i] == if bs[i].up then bs[i].weight else 0
  {
    seq(|bs|, i requires 0 <= i < |bs| => if bs[i].up then bs[i].weight else 0)
  }

  /** The first backend from `i` on that is up and whose running 32-bit total reaches `r`. */
  function Reach(bs: seq<Backend>, r: int, i: nat): (j: nat)
    requires i <= |bs|
    ensures i <= j <= |bs|
    decreases |bs| - i
  {
    if i == |bs| || (bs[i].up && r <= U32(Cum(Weights(bs), i + 1))) then i else Reach(bs, r, i + 1)
  }

  /** The backend chosen by the draw `d` in 0..total-1, where the total is kept in 32 bits. */
  function Weighted(bs: seq<Backend>, d: int): Option<nat> {
    if U32(Sum(Weights(bs))) == 0 then None
    else
      var j := Reach(bs, d + 1, 0);
      if j == |bs| then None else Some(j)
  }

  function Hits(bs: seq<Backend>, n: nat, i: nat): nat {
    if n == 0 then 0 else Hits(bs, n - 1, i) + if Weighted(bs, n - 1) == Some(i) then 1 else 0
  }

  lemma {:induction false} ReachIs(bs: seq<Backend>, d: int, i: nat, k: nat)
    requires Sum(Weights(bs)) < TWO32 && k <= i < |bs|
    requires Cum(Weights(bs), i) <= d < Cum(Weights(bs), i + 1)
    ensures Reach(bs, d + 1, k) == i
    decreases i - k
  {
    var ws := Weights(bs);
    CumGrows(ws, i + 1, |ws|);
    CumGrows(ws, k + 1, i + 1);
    if k < i {
      CumGrows(ws, k + 1, i);
      ReachIs(bs, d, i, k + 1);
    }
  }

  lemma WeightedIs(bs: seq<Backend>, d: int, i: nat)
    requires 0 <= d < Sum(Weights(bs)) < TWO32 && i < |bs|
    ensures Weighted(bs, d) == Some(i) <==> Cum(Weights(bs), i) <= d < Cum(Weights(bs), i + 1)
  {
    var ws := Weights(bs);
    var k := Falls(ws, d, |ws|);
    ReachIs(bs, d, k, 0);
    if Cum(ws, i) <= d < Cum(ws, i + 1) {
      ReachIs(bs, d, i, 0);
    }
  }

  lemma {:induction false} HitsAre(bs: seq<Backend>, n: nat, i: nat)
    requires n <= Sum(Weights(bs)) < TWO32 && i < |bs|
    ensures var ws := Weights(bs);
      Hits(bs, n, i) == if n <= Cum(ws, i) then 0 else Min(n, Cum(ws, i + 1)) - Cum(ws, i)
    decreases n
  {
    CumGrows(Weights(bs), i, i + 1);
    if n > 0 {
      HitsAre(bs, n - 1, i);
      WeightedIs(bs, n - 1, i);
    }
  }

  /** Hits of the first `k` backends together. */
  function AllHits(bs: seq<Backend>, n: nat, k: nat): nat {
    if k == 0 then 0 else AllHits(bs, n, k - 1) + Hits(bs, n, k - 1)
  }

  lemma {:induction false} AllHitsAdd(bs: seq<Backend>, n: nat, k: nat)
    requires n > 0
    ensures AllHits(bs, n, k) == AllHits(bs, n - 1, k) +
      if Weighted(bs, n - 1).Some? && Weighted(bs, n - 1).value < k then 1 else 0
    decreases k
  {
    if k > 0 {
      AllHitsAdd(bs, n, k - 1);
    }
  }

  /** Each draw hits at most one backend. */
  lemma {:induction false} AllHitsBound(bs: seq<Backend>, n: nat, k: nat)
    ensures AllHits(bs, n, k) <= n
    decreases n, k
  {
    if n > 0 {
      AllHitsAdd(bs, n, k);
      AllHitsBound(bs, n - 1, k);
    } else if k > 0 {
      AllHitsBound(bs, 0, k - 1);
    }
  }

  lemma {:induction false} AllHitsSum(bs: seq<Backend>, n: nat, k: nat)
    requires k <= |bs| && forall i :: 0 <= i < |bs| ==> Hits(bs, n, i) == Weights(bs)[i]
    ensures AllHits(bs, n, k) == Cum(Weights(bs), k)
    decreases k
  {
    if k > 0 {
      AllHitsSum(bs, n, k - 1);
    }
  }

  /** Each backend that is up gets exactly its weight in draws, and the others none, if and only if
      the sum of the weights fits in 32 bits. */
  lemma ExactWeighted(bs: seq<Backend>)
    ensures var total := U32(Sum(Weights(bs)));
      (forall i :: 0 <= i < |bs| ==> Hits(bs, total, i) == Weights(bs)[i]) <==> Sum(Weights(bs)) < TWO32
  {
    var ws := Weights(bs);
    var total := U32(Sum(ws));
    CumGrows(ws, 0, |ws|);
    if Sum(ws) < TWO32 {
      forall i | 0 <= i < |bs|
        ensures Hits(bs, total, i) == ws[i]
      {
        HitsAre(bs, total, i);
        CumGrows(ws, i + 1, |ws|);
        CumGrows(ws, i, i + 1);
      }
    } else if forall i :: 0 <= i < |bs| ==> Hits(bs, total, i) == ws[i] {
      AllHitsSum(bs, total, |bs|);
      AllHitsBound(bs, total, |bs|);
    }
  }
}
