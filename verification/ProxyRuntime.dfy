/** The runtime's side of a selected request: the reservation of a shadow slot and the pair's finalize task. */
module ProxyRuntimeObject {
  import opened Options
  import opened WorkModel
  import WorkInvariant
  import WorkSteps
  import C = CollectorModel
  import opened ComparisonPipelineObject

  /** What the pair of responses is charged, if it is handed over at all. */
  function Charge(pair: Option<Pair>): Option<nat>
  {
    if pair.Some? then Some(SizeOf(pair.value)) else None
  }

  class ProxyRuntime {
    const comparison: ComparisonPipeline
    var shadowSlots: int

    ghost function State(): WorkModel.State
      reads this, comparison, comparison.collector
    {
      comparison.State(shadowSlots)
    }

    ghost predicate Valid()
      reads this, comparison, comparison.collector
    {
      comparison.Valid(shadowSlots)
    }

    constructor (pipeline: ComparisonPipeline)
      requires pipeline.Valid(0)
      ensures comparison == pipeline && State() == pipeline.State(0) && Valid()
    {
      comparison, shadowSlots := pipeline, 0;
    }

    /** Reserves a slot before any of the body is captured, or records that none was free. */
    method Select(id: Id) returns (reserved: bool)
      requires Valid() && id !in comparison.places
      modifies this`shadowSlots, comparison`places
      ensures State() == WorkModel.Select(comparison.limits, old(State()), id) && Valid()
      ensures reserved <==> old(shadowSlots) < comparison.limits.shadowSlots
      ensures reserved <==> HasSlot(comparison.places[id])
    {
      hide WorkInvariant.Inv;
      WorkSteps.SelectKeepsInv(comparison.limits, comparison.collector.limits, State(), id);
      if shadowSlots >= comparison.limits.shadowSlots {
        comparison.places := comparison.places[id := Serving(NoSlot)];
        return false;
      }
      shadowSlots := shadowSlots + 1;
      comparison.places := comparison.places[id := Serving(Busy)];
      return true;
    }

    /** The body of `finalize` once the shadow has ended; None stands for an exception before the hand-over. */
    method Finalize(id: Id, pair: Option<Pair>, now: real)
      requires Valid() && Enabled(comparison.collector.limits, State(), DoFinalize(id, Charge(pair), now))
      modifies this`shadowSlots, comparison`open, comparison`queue, comparison`jobs, comparison`jobBytes,
        comparison`dropped, comparison`places
      ensures State() == WorkModel.Finalize(comparison.limits, old(State()), id, Charge(pair), now) && Valid()
    {
      hide WorkInvariant.Inv, SubmitJob, SizeOf;
      WorkSteps.FinalizeKeepsInv(comparison.limits, comparison.collector.limits, State(), id, Charge(pair), now);
      var reserved := HasSlotNow(id);
      if pair.None? {
        comparison.Drop(id, ComparisonDropped);
      } else {
        comparison.Submit(id, pair.value, now, shadowSlots);
      }
      if reserved {
        shadowSlots := shadowSlots - 1;
      }
    }

    /** The closure variable `reserved` of the request, kept here in its history. */
    method HasSlotNow(id: Id) returns (reserved: bool)
      requires id in comparison.places
      ensures reserved == HasSlot(comparison.places[id])
    {
      reserved := HasSlot(comparison.places[id]);
    }

    /**
     The callback installed on the collector, for one settled event. It runs within a step of the
     collector: counts that were exact for the notices so far are exact with this one.
     */
    method OnOutcome(outcome: C.Outcome)
      modifies comparison`reported
      ensures comparison.reported == Call(old(comparison.reported), outcome)
      ensures forall notices :: old(comparison.reported) == WorkInvariant.Noticed(notices) ==>
                comparison.reported == WorkInvariant.Noticed(notices + multiset{outcome})
    {
      hide WorkInvariant.Noticed;
      forall notices
        ensures WorkInvariant.Noticed(notices + multiset{outcome}) == Call(WorkInvariant.Noticed(notices), outcome)
      {
        WorkInvariant.OneNotice(notices, outcome);
      }
      if outcome.DroppedExpired? || outcome.DroppedRetryExhausted? || outcome.DroppedShutdown? {
        var table := map[C.DroppedExpired := QueueExpired, C.DroppedRetryExhausted := RetryExhausted,
                         C.DroppedShutdown := Shutdown];
        comparison.reported := comparison.reported + multiset{table[outcome]};
      }
    }
  }
}
