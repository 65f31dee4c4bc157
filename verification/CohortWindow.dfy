/** The cohort window and its observations as objects whose calls update both in place. */
module CohortWindowObject {
  import opened Options
  import opened Coverage

  class CohortWindow {
    const bounds: Bounds
    var counts: multiset<Counter>
    var pending: int
    var complete: bool
    var closed: bool

    function State(): Cohort
      reads this
    {
      Cohort(counts, pending, complete, closed)
    }

    constructor (b: Bounds)
      ensures bounds == b && State() == Open(b).cohort
    {
      bounds, counts, pending, complete, closed := b, multiset{}, 0, true, false;
    }

    /** Registers a request; null stands for the exception of a request outside the cohort. */
    method Begin(route: string, epoch: string, startedAt: real) returns (observation: PipelineObservation?)
      modifies this`pending
      ensures (observation == null) <==>
                (closed || route != bounds.route || epoch != bounds.epoch || !(bounds.start <= startedAt < bounds.end))
      ensures observation == null ==> pending == old(pending)
      ensures observation != null ==>
                && pending == old(pending) + 1 && fresh(observation)
                && observation.cohort == this && observation.State() == FRESH
    {
      if closed || route != bounds.route || epoch != bounds.epoch || !(bounds.start <= startedAt < bounds.end) {
        return null;
      }
      pending := pending + 1;
      observation := new PipelineObservation(this);
    }

    method MarkUnknown()
      modifies this`complete
      ensures State() == old(State()).(complete := false)
    {
      complete := false;
    }

    /** Closes the window; false stands for the exception of an open interval or unsettled requests. */
    method Close(now: real) returns (done: bool)
      modifies this`closed
      ensures done <==> now >= bounds.end && pending == 0
      ensures State() == if done then old(State()).(closed := true) else old(State())
    {
      if now < bounds.end || pending != 0 {
        return false;
      }
      closed := true;
      return true;
    }
  }

  class PipelineObservation {
    const cohort: CohortWindow
    var seen: set<Symbol>
    var result: Option<Verdict>
    var finished: bool

    function State(): Observation
      reads this
    {
      Observation(seen, result, finished)
    }

    constructor (c: CohortWindow)
      ensures cohort == c && State() == FRESH
    {
      cohort, seen, result, finished := c, {}, None, false;
    }

    method Advance(symbol: Symbol, prerequisite: Option<Symbol>) returns (reply: Reply)
      modifies this`seen, cohort`counts
      ensures Result(State(), cohort.State(), reply) ==
                Coverage.Advance(old(State()), old(cohort.State()), symbol, prerequisite)
    {
      if symbol in seen {
        return Replied(false);
      }
      if symbol == D && result.Some? {
        return Raised;
      }
      if finished || (prerequisite.Some? && prerequisite.value !in seen) {
        return Raised;
      }
      seen := seen + {symbol};
      cohort.counts := cohort.counts + multiset{Stage(symbol)};
      return Replied(true);
    }

    /** Finalises the verdict once; the nested stage can no longer be refused at that point. */
    method Compared(v: Verdict, labelled: bool) returns (reply: Reply)
      modifies this`seen, this`result, cohort`counts
      ensures Result(State(), cohort.State(), reply) ==
                Compare(old(State()), old(cohort.State()), v, labelled)
      ensures Staged(old(State())) && old(result).None? && reply == Replied(true) ==> (C in seen <==> Comparable(v))
    {
      if result.Some? {
        return if result.value != v then Raised else Replied(false);
      }
      if finished || S !in seen {
        return Raised;
      }
      if v.result.NotExecuted? {
        if D in seen {
          return Raised;
        }
      } else if T !in seen {
        return Raised;
      }
      if Comparable(v) == v.comparisonClass.Unavailable? || (v.result.IsMatched? && v.comparisonClass.Mixed?) {
        return Raised;
      }
      if !labelled {
        return Raised;
      }
      result := Some(v);
      if Comparable(v) {
        var nested := Advance(C, Some(T));
        assert !nested.Raised?;
        cohort.counts := cohort.counts + multiset{if v.result.IsMatched? then Matched else Different};
      }
      return Replied(true);
    }

    method Stored() returns (reply: Reply)
      modifies this`seen, cohort`counts
      ensures Result(State(), cohort.State(), reply) == Store(old(State()), old(cohort.State()))
    {
      if result.None? {
        return Raised;
      }
      reply := Advance(W, Some(S));
    }

    method Finish(dropped: bool, unknown: bool) returns (reply: Reply)
      modifies this`finished, cohort`pending, cohort`complete
      ensures Result(State(), cohort.State(), reply) ==
                Coverage.Finish(old(State()), old(cohort.State()), dropped, unknown)
    {
      if finished {
        return Replied(false);
      }
      if D in seen && T !in seen && !unknown {
        return Raised;
      }
      if S in seen && W !in seen && !dropped && !unknown {
        return Raised;
      }
      finished := true;
      cohort.pending := cohort.pending - 1;
      if unknown {
        cohort.complete := false;
      }
      return Replied(true);
    }
  }
}
