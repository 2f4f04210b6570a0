/**
 How src/health/checks.c turns check reports into server states. A history is the sequence of
 reports in order, true for a pass.
 */
module HealthSpec {
  import opened Common

  datatype Status =
    | Unknown | Ini | Up | L4Ok | L4Tout | L4Con | L6Ok | L6Tout | L6Rsp | L7Ok | L7Tout | L7Rsp | L7Okc | L7Sts
    | ProcErr | ProcTout | ProcOk | Hana

  predicate Passes(s: Status) {
    s.L4Ok? || s.L6Ok? || s.L7Ok? || s.L7Okc?
  }

  /** The two counters, kept in 32 bits, and whether the server is running. */
  datatype Health = Health(successes: nat, errors: nat, running: bool)

  datatype Limits = Limits(rise: nat, fall: nat)

  predicate Fit(l: Limits) {
    l.rise < TWO32 && l.fall < TWO32
  }

  function Report(l: Limits, h: Health, pass: bool): Health {
    if pass then
      var n := U32(h.successes + 1);
      Health(n, 0, h.running || n >= l.rise)
    else
      var n := U32(h.errors + 1);
      Health(0, n, h.running && n < l.fall)
  }

  function After(l: Limits, start: bool, history: seq<bool>): Health {
    if history == [] then Health(0, 0, start)
    else Report(l, After(l, start, history[..|history| - 1]), history[|history| - 1])
  }

  lemma AfterOneMore(l: Limits, start: bool, history: seq<bool>, v: bool)
    ensures After(l, start, history + [v]) == Report(l, After(l, start, history), v)
  {
    assert (history + [v])[..|history|] == history;
  }

  // ---------------------------------------------------------------- looking back

  /** How many reports at the end of the history are all `v`. */
  function Trailing(history: seq<bool>, v: bool): (n: nat)
    ensures n <= |history|
  {
    if history == [] || history[|history| - 1] != v then 0 else 1 + Trailing(history[..|history| - 1], v)
  }

  /** A threshold of zero acts like one of one. */
  function Needed(l: Limits, v: bool): nat {
    var n := if v then l.rise else l.fall;
    if n == 0 then 1 else n
  }

  /** The state read off the history alone: the last run of equal reports decides when it is long
      enough; otherwise what came before it does. */
  function LookBack(l: Limits, start: bool, history: seq<bool>): bool
    decreases |history|
  {
    if history == [] then start
    else
      var v := history[|history| - 1];
      var n := Trailing(history, v);
      if n >= Needed(l, v) then v else LookBack(l, start, history[..|history| - n])
  }

  lemma CountsOn(n: nat)
    ensures U32(U32(n) + 1) == U32(1 + n)
  {
  }

  /** The counters are the lengths of the last runs, in 32 bits. */
  lemma {:induction false} CountersAreRuns(l: Limits, start: bool, history: seq<bool>)
    ensures var h := After(l, start, history);
      h.successes == U32(Trailing(history, true)) && h.errors == U32(Trailing(history, false))
    decreases |history|
  {
    if history != [] {
      var before := history[..|history| - 1];
      CountersAreRuns(l, start, before);
      CountsOn(Trailing(before, true));
      CountsOn(Trailing(before, false));
    }
  }

  /** What the `n`-th report in a row does to the state. */
  ghost predicate Moved(l: Limits, v: bool, n: nat, before: bool, after: bool) {
    && (n < Needed(l, v) ==> after == before)
    && (n == Needed(l, v) ==> after == v)
    && (n > Needed(l, v) ==> after == v || after == before)
  }

  lemma ReportMoves(l: Limits, h: Health, v: bool, k: nat)
    requires Fit(l) && (if v then h.successes else h.errors) == U32(k)
    ensures Moved(l, v, k + 1, h.running, Report(l, h, v).running)
  {
    CountsOn(k);
    assert Needed(l, v) < TWO32;
    assert k + 1 < TWO32 ==> U32(1 + k) == k + 1;
  }

  lemma OneMore(l: Limits, start: bool, history: seq<bool>, v: bool)
    requires Fit(l)
    ensures Moved(l, v, Trailing(history + [v], v), After(l, start, history).running, After(l, start, history + [v]).running)
  {
    CountersAreRuns(l, start, history);
    ReportMoves(l, After(l, start, history), v, Trailing(history, v));
    assert (history + [v])[..|history|] == history;
  }

  /** A run that has been long enough has settled the state. */
  lemma {:induction false} LongRunSettles(l: Limits, start: bool, history: seq<bool>, v: bool)
    requires Fit(l) && Trailing(history, v) >= Needed(l, v)
    ensures After(l, start, history).running == v
    decreases |history|
  {
    var before := history[..|history| - 1];
    assert before + [v] == history;
    OneMore(l, start, before, v);
    if Trailing(history, v) > Needed(l, v) {
      LongRunSettles(l, start, before, v);
    }
  }

  /** A run that is too short has changed nothing. */
  lemma {:induction false} ShortRunChangesNothing(l: Limits, start: bool, history: seq<bool>, v: bool, n: nat)
    requires Fit(l) && n <= Trailing(history, v) < Needed(l, v)
    ensures After(l, start, history).running == After(l, start, history[..|history| - n]).running
    decreases |history|
  {
    if n > 0 {
      var before := history[..|history| - 1];
      assert before + [v] == history;
      OneMore(l, start, before, v);
      ShortRunChangesNothing(l, start, before, v, n - 1);
      assert before[..|before| - (n - 1)] == history[..|history| - n];
    } else {
      assert history[..|history| - n] == history;
    }
  }

  /** The state kept by counting is the state read off the history, for every history; the counters
      wrapping around never shows. */
  lemma {:induction false} StateIsLookBack(l: Limits, start: bool, history: seq<bool>)
    requires Fit(l)
    ensures After(l, start, history).running == LookBack(l, start, history)
    decreases |history|
  {
    if history != [] {
      var v := history[|history| - 1];
      var n := Trailing(history, v);
      if n >= Needed(l, v) {
        LongRunSettles(l, start, history, v);
      } else {
        ShortRunChangesNothing(l, start, history, v, n);
        StateIsLookBack(l, start, history[..|history| - n]);
      }
    }
  }

  // ---------------------------------------------------------------- changes of state

  predicate Flips(l: Limits, start: bool, history: seq<bool>)
    requires history != []
  {
    After(l, start, history).running != After(l, start, history[..|history| - 1]).running
  }

  /** The state changes only with the report that completes a run of exactly the needed length, and
      then to that report's. */
  lemma FlipExactly(l: Limits, start: bool, history: seq<bool>)
    requires Fit(l) && history != []
    ensures var v := history[|history| - 1];
      Flips(l, start, history) <==>
      Trailing(history, v) == Needed(l, v) && After(l, start, history[..|history| - 1]).running != v
  {
    var v := history[|history| - 1];
    var before := history[..|history| - 1];
    assert before + [v] == history;
    OneMore(l, start, before, v);
    if Trailing(history, v) > Needed(l, v) {
      LongRunSettles(l, start, before, v);
    }
  }

  /** Changes of state to `v` along the history. */
  function FlipsTo(l: Limits, start: bool, history: seq<bool>, v: bool): nat {
    if history == [] then 0
    else
      FlipsTo(l, start, history[..|history| - 1], v) +
      if Flips(l, start, history) && history[|history| - 1] == v then 1 else 0
  }

  /** Reports spent so far on the next change of state. */
  function Progress(l: Limits, start: bool, history: seq<bool>): nat {
    Trailing(history, !After(l, start, history).running)
  }

  lemma Spent(a: nat, n: nat, k: nat)
    ensures (n + 1) * a + k == n * a + a + k
  {
  }

  /** Each change to running takes `rise` reports of its own and each change away from it `fall`,
      so the number of changes is bounded by the length of the history. */
  lemma {:induction false} FlipsArePaidFor(l: Limits, start: bool, history: seq<bool>)
    requires Fit(l)
    ensures FlipsTo(l, start, history, true) * Needed(l, true) + FlipsTo(l, start, history, false) * Needed(l, false)
      + Progress(l, start, history) <= |history|
    decreases |history|
  {
    if history != [] {
      var before := history[..|history| - 1];
      var v := history[|history| - 1];
      FlipsArePaidFor(l, start, before);
      FlipExactly(l, start, history);
      assert before + [v] == history;
      OneMore(l, start, before, v);
      if v {
        Spent(Needed(l, true), FlipsTo(l, start, before, true), 0);
      } else {
        Spent(Needed(l, false), FlipsTo(l, start, before, false), 0);
      }
    }
  }

  /** Changes alternate. */
  lemma {:induction false} FlipsAlternate(l: Limits, start: bool, history: seq<bool>)
    requires Fit(l)
    ensures FlipsTo(l, start, history, true) - FlipsTo(l, start, history, false) ==
      (if After(l, start, history).running then 1 else 0) - (if start then 1 else 0)
    decreases |history|
  {
    if history != [] {
      FlipsAlternate(l, start, history[..|history| - 1]);
      FlipExactly(l, start, history);
    }
  }

  /** Two changes are at least the second one's needed length apart. */
  lemma FlipsAreSpaced(l: Limits, start: bool, history: seq<bool>, i: nat)
    requires Fit(l) && 0 < i < |history| && Flips(l, start, history[..i]) && Flips(l, start, history)
    requires forall j :: i < j < |history| ==> !Flips(l, start, history[..j])
    ensures |history| - i >= Needed(l, history[|history| - 1])
  {
    FlipExactly(l, start, history[..i]);
    FlipExactly(l, start, history);
    SameUntil(l, start, history, i, |history| - 1);
    LastDiffers(history, i);
  }

  lemma {:induction false} SameUntil(l: Limits, start: bool, history: seq<bool>, i: nat, k: nat)
    requires 0 < i <= k < |history|
    requires forall j :: i < j < |history| ==> !Flips(l, start, history[..j])
    ensures After(l, start, history[..k]).running == After(l, start, history[..i]).running
    decreases k
  {
    if i < k {
      SameUntil(l, start, history, i, k - 1);
      assert history[..k][..k - 1] == history[..k - 1];
      assert !Flips(l, start, history[..k]);
    }
  }

  lemma {:induction false} LastDiffers(history: seq<bool>, i: nat)
    requires 0 < i < |history| && history[i - 1] != history[|history| - 1]
    ensures Trailing(history, history[|history| - 1]) <= |history| - i
    decreases |history|
  {
    var v := history[|history| - 1];
    var before := history[..|history| - 1];
    if i < |before| && before[|before| - 1] == v {
      LastDiffers(before, i);
    }
  }

  // ---------------------------------------------------------------- statuses

  /** The reports of checks with these results. */
  function Reports(results: seq<Status>): (history: seq<bool>)
    ensures |history| == |results| && forall i :: 0 <= i < |results| ==> history[i] == Passes(results[i])
  {
    seq(|results|, i requires 0 <= i < |results| => Passes(results[i]))
  }

  /** The last `n` results are among these. */
  ghost predicate LastAre(results: seq<Status>, n: nat, among: set<Status>) {
    n <= |results| && forall i :: |results| - n <= i < |results| ==> results[i] in among
  }

  lemma {:induction false} TrailingAtLeast(history: seq<bool>, v: bool, n: nat)
    requires n <= |history| && forall i :: |history| - n <= i < |history| ==> history[i] == v
    ensures Trailing(history, v) >= n
    decreases n
  {
    if n > 0 {
      TrailingAtLeast(history[..|history| - 1], v, n - 1);
    }
  }

  lemma RunDecides(l: Limits, start: bool, history: seq<bool>, v: bool)
    requires Fit(l) && Needed(l, v) <= |history|
    requires forall i :: |history| - Needed(l, v) <= i < |history| ==> history[i] == v
    ensures LookBack(l, start, history) == v
  {
    TrailingAtLeast(history, v, Needed(l, v));
  }

  const GOOD: set<Status> := {L4Ok, L6Ok, L7Ok, L7Okc}

  const BAD: set<Status> := {Unknown, Ini, Up, L4Tout, L4Con, L6Tout, L6Rsp, L7Tout, L7Rsp, L7Sts, ProcErr, ProcTout, ProcOk, Hana}

  /** After enough good results in a row the server runs, after enough bad ones it does not, whatever
      came before; every status is one or the other. */
  lemma ResultsDecide(l: Limits, start: bool, results: seq<Status>)
    requires Fit(l)
    ensures LastAre(results, Needed(l, true), GOOD) ==> After(l, start, Reports(results)).running
    ensures LastAre(results, Needed(l, false), BAD) ==> !After(l, start, Reports(results)).running
  {
    StateIsLookBack(l, start, Reports(results));
    if LastAre(results, Needed(l, true), GOOD) {
      RunDecides(l, start, Reports(results), true);
    }
    if LastAre(results, Needed(l, false), BAD) {
      RunDecides(l, start, Reports(results), false);
    }
  }
}
