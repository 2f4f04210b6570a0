/**
 Choosing a backend in src/core/lb_core.c: round robin and the weighted draw.
 */
module Balancer {
  import opened Common
  import opened RoundRobinSpec
  import opened WeightedSpec

  function UpFlags(bs: seq<Backend>): (up: seq<bool>)
    ensures |up| == |bs| && forall i :: 0 <= i < |bs| ==> up[i] == bs[i].up
  {
    seq(|bs|, i requires 0 <= i < |bs| => bs[i].up)
  }

  class LoadBalancer {
    var backends: seq<Backend>
    var roundRobinIdx: nat

    method RoundRobin() returns (chosen: Option<nat>)
      modifies this`roundRobinIdx
      ensures (chosen, roundRobinIdx) == Pick(UpFlags(backends), old(roundRobinIdx))
    {
      var attempts, n := 0, |backends|;
      ghost var up := UpFlags(backends);
      while attempts < n
        invariant attempts <= n
        invariant Attempt(up, roundRobinIdx, n - attempts) == Pick(up, old(roundRobinIdx))
      {
        ModIsRemainder(roundRobinIdx, n);
        var i := roundRobinIdx % n;
        roundRobinIdx := U32(roundRobinIdx + 1);
        if backends[i].up {
          return Some(i);
        }
        attempts := attempts + 1;
      }
      return None;
    }

    method TotalWeight() returns (total: nat)
      ensures total == U32(Sum(Weights(backends)))
    {
      total := 0;
      for i := 0 to |backends|
        invariant total == U32(Cum(Weights(backends), i))
      {
        if backends[i].up {
          total := U32(total + backends[i].weight);
        }
      }
    }

    /** `draw` stands for the remainder of the random number by the total. */
    method WeightedRandom(draw: nat) returns (chosen: Option<nat>)
      ensures chosen == Weighted(backends, draw)
    {
      var total := TotalWeight();
      if total == 0 {
        return None;
      }
      var current := 0;
      for i := 0 to |backends|
        invariant current == U32(Cum(Weights(backends), i))
        invariant Reach(backends, draw + 1, 0) == Reach(backends, draw + 1, i)
      {
        if backends[i].up {
          current := U32(current + backends[i].weight);
          if draw + 1 <= current {
            return Some(i);
          }
        }
      }
      return None;
    }
  }
}
