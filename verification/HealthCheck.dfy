/**
 The check object of src/health/checks.c and the server it reports on.
 */
module HealthCheck {
  import opened Common
  import opened HealthSpec

  class ServerCheck {
    const limits: Limits
    var status: Status
    var consecutiveSuccess: nat
    var consecutiveErrors: nat
    var running: bool
    ghost var history: seq<bool>
    ghost const start: bool

    ghost function View(): Health
      reads this
    {
      Health(consecutiveSuccess, consecutiveErrors, running)
    }

    ghost predicate Valid()
      reads this
    {
      Fit(limits) && View() == After(limits, start, history)
    }

    constructor (limits: Limits, running: bool)
      requires Fit(limits)
      ensures Valid() && history == [] && start == running && this.limits == limits
    {
      this.limits := limits;
      status := Unknown;
      consecutiveSuccess, consecutiveErrors := 0, 0;
      this.running := running;
      start, history := running, [];
    }

    method Tally(pass: bool)
      modifies this`consecutiveSuccess, this`consecutiveErrors, this`running
      ensures View() == Report(limits, old(View()), pass)
    {
      if pass {
        consecutiveSuccess := U32(consecutiveSuccess + 1);
        consecutiveErrors := 0;
        if consecutiveSuccess >= limits.rise {
          if !running {
            running := true;
          }
        }
      } else {
        consecutiveErrors := U32(consecutiveErrors + 1);
        consecutiveSuccess := 0;
        if consecutiveErrors >= limits.fall {
          if running {
            running := false;
          }
        }
      }
    }

    method SetStatus(s: Status)
      requires Valid()
      modifies this
      ensures Valid() && status == s && history == old(history) + [Passes(s)]
      ensures running == LookBack(limits, start, history)
    {
      status := s;
      Tally(Passes(s));
      AfterOneMore(limits, start, history, Passes(s));
      history := history + [Passes(s)];
      StateIsLookBack(limits, start, history);
    }
  }
}
