/** Run cadence of a perception module (`src/v1/module.py`): a module is due once the clock
    reaches its next due time, and running it moves that time one period past the run. */
module Cadence {

  /** `1 / max(hz, 1e-6)`: the period between runs. A rate at or below `1e-6`, zero and negative
      rates included, gives the finite period of a million seconds instead of a division by zero. */
  function Period(hz: real): (r: real)
    ensures 0.0 < r <= 1000000.0
    ensures hz >= 0.000001 ==> r * hz == 1.0
    ensures hz <= 0.000001 ==> r == 1000000.0
  {
    1.0 / (if hz >= 0.000001 then hz else 0.000001)
  }

  /** The base class `Module`; `hz` is the class attribute each concrete module overrides. */
  class Module {
    const hz: real
    var nextT: real

    /** A fresh module is due at time `0.0`. */
    constructor (hz: real)
      ensures this.hz == hz && nextT == 0.0
    {
      this.hz := hz;
      nextT := 0.0;
    }

    /** `should_run(now)`: a query on the due time that changes nothing. */
    function ShouldRun(now: real): bool
      reads this
    {
      now >= nextT
    }

    /** `mark_ran(now)`: the next due time depends on this run alone; earlier runs and the
        previous due time play no part, so lateness never accumulates into a backlog. */
    method MarkRan(now: real)
      modifies this
      ensures nextT == now + Period(hz)
      ensures nextT > now
      ensures forall s :: ShouldRun(s) <==> s >= now + Period(hz)
    {
      nextT := now + Period(hz);
    }
  }

  /** Once due, a module stays due at every later time until it is marked as run. */
  lemma DueStaysDue(m: Module, now: real, later: real)
    requires m.ShouldRun(now)
    requires now <= later
    ensures m.ShouldRun(later)
  {
  }

  /** A fresh module is due at every non-negative time. */
  lemma FreshModuleDue(m: Module, now: real)
    requires m.nextT == 0.0
    requires now >= 0.0
    ensures m.ShouldRun(now)
  {
  }
}
