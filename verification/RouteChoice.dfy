/**
 The route of src/core/request_router.cpp: its targets and the total weight it remembers.
 */
module RouteChoice {
  import opened Common
  import opened WeightedSpec

  class RouteTargets {
    var weights: seq<int>
    var cachedTotal: int
    var cacheValid: bool

    ghost function View(): Route
      reads this
    {
      Route(weights, cachedTotal, cacheValid)
    }

    /** A total that counts as valid is the sum of the weights. */
    ghost predicate Valid()
      reads this
    {
      Honest(View())
    }

    constructor ()
      ensures Valid() && View() == Route([], 0, false)
    {
      weights, cachedTotal, cacheValid := [], 0, false;
    }

    method AddTarget(weight: int)
      requires Valid()
      modifies this`weights, this`cacheValid
      ensures Valid() && View() == Do(old(View()), Add(weight)).0
    {
      weights := weights + [weight];
      cacheValid := false;
    }

    method AddUp() returns (total: int)
      ensures total == Total(weights)
    {
      total := 0;
      for i := 0 to |weights|
        invariant total == I32(Cum(weights, i))
      {
        total := I32(total + weights[i]);
      }
    }

    /** The loop over running totals. */
    method Search(draw: int) returns (j: nat)
      requires weights != []
      ensures j == Choice(weights, draw)
    {
      var cumulative := 0;
      for i := 0 to |weights|
        invariant cumulative == I32(Cum(weights, i))
        invariant PickFrom(weights, draw, 0) == PickFrom(weights, draw, i)
      {
        cumulative := I32(cumulative + weights[i]);
        if draw < cumulative {
          return i;
        }
      }
      return |weights| - 1;
    }

    /** `open` tells whether the circuit is open; the draw is made in 0..total-1, and is anything
        for a negative total, where the distribution is undefined. */
    method SelectTarget(open: bool, draw: int) returns (target: Option<nat>)
      requires Valid()
      modifies this`cachedTotal, this`cacheValid
      ensures Valid() && (View(), target) == Do(old(View()), Select(open, draw))
      ensures target == Plain(old(weights), Select(open, draw))
    {
      if weights == [] || open {
        return None;
      }
      if !cacheValid {
        cachedTotal := AddUp();
        cacheValid := true;
      }
      if cachedTotal == 0 {
        return None;
      }
      var j := Search(draw);
      return Some(j);
    }
  }
}
