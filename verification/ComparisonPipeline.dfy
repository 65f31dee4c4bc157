/**
 The comparison pipeline as an object that is updated in place. Each method is the code between two
 awaits of `submit`, of a worker, or of `close`; its contract says that the fields move as the
 transition system does, whatever number of shadow slots the runtime has given out.
 */
module ComparisonPipelineObject {
  import opened Options
  import opened WorkModel
  import WorkInvariant
  import WorkSteps
  import C = CollectorModel
  import CI = CollectorInvariant
  import opened BoundedCollectorObject

  /** A response as it is handed over: its body, and its headers in UTF-8. */
  datatype Response = Response(body: Option<Bytes>, headers: seq<(Bytes, Bytes)>)

  /** What a job keeps in memory: the summary as JSON, and both responses. */
  datatype Pair = Pair(summary: Bytes, v1: Response, v2: Response)

  function BodySize(r: Response): nat
  {
    if r.body.Some? then |r.body.value| else 0
  }

  function HeaderSize(headers: seq<(Bytes, Bytes)>): nat
  {
    if headers == [] then 0
    else
      var n := |headers| - 1;
      HeaderSize(headers[..n]) + |headers[n].0| + |headers[n].1| + 128
  }

  /** The bytes that a job is charged, with an allowance for the job and for each header. */
  function SizeOf(pair: Pair): nat
  {
    BodySize(pair.v1) + BodySize(pair.v2) + 4096 + |pair.summary| + HeaderSize(pair.v1.headers) + HeaderSize(pair.v2.headers)
  }

  lemma {:induction false} HeadersAdd(a: seq<(Bytes, Bytes)>, b: seq<(Bytes, Bytes)>)
    ensures HeaderSize(a + b) == HeaderSize(a) + HeaderSize(b)
  {
    if b == [] {
      assert a + b == a;
    } else {
      assert (a + b)[..|a + b| - 1] == a + b[..|b| - 1];
      HeadersAdd(a, b[..|b| - 1]);
    }
  }

  function BodyOf(r: Response): Bytes
  {
    if r.body.Some? then r.body.value else []
  }

  /** The bytes of all headers, one after another. */
  function HeaderBytes(headers: seq<(Bytes, Bytes)>): Bytes
  {
    if headers == [] then [] else headers[0].0 + headers[0].1 + HeaderBytes(headers[1..])
  }

  /** Every byte that a job keeps in memory: both bodies, the summary, and the headers of both responses. */
  function KeptBytes(pair: Pair): Bytes
  {
    BodyOf(pair.v1) + BodyOf(pair.v2) + pair.summary + HeaderBytes(pair.v1.headers) + HeaderBytes(pair.v2.headers)
  }

  lemma {:induction false} HeadersAreCharged(headers: seq<(Bytes, Bytes)>)
    ensures HeaderSize(headers) == |HeaderBytes(headers)| + 128 * |headers|
  {
    if headers == [] {
      assert HeaderSize(headers) == 0;
    } else {
      HeadersAreCharged(headers[1..]);
      HeadersAdd([headers[0]], headers[1..]);
      assert headers == [headers[0]] + headers[1..];
      OneHeader(headers[0]);
    }
  }

  lemma OneHeader(h: (Bytes, Bytes))
    ensures HeaderSize([h]) == |h.0| + |h.1| + 128
  {
    assert [h][..0] == [];
    assert HeaderSize([h][..0]) == 0;
  }

  /** A job is charged every byte that it keeps, 128 bytes more for each header and 4096 more for itself. */
  lemma JobsAreCharged(pair: Pair)
    ensures SizeOf(pair) == |KeptBytes(pair)| + 128 * (|pair.v1.headers| + |pair.v2.headers|) + 4096
  {
    HeadersAreCharged(pair.v1.headers);
    HeadersAreCharged(pair.v2.headers);
  }

  /** Adds up the bytes of a job in one pass over the headers of both responses. */
  method Measure(pair: Pair) returns (size: nat)
    ensures size == SizeOf(pair)
  {
    size := BodySize(pair.v1) + BodySize(pair.v2) + 4096;
    size := size + |pair.summary|;
    var headers := pair.v1.headers + pair.v2.headers;
    HeadersAdd(pair.v1.headers, pair.v2.headers);
    var n := 0;
    while n < |headers|
      invariant 0 <= n <= |headers|
      invariant size == BodySize(pair.v1) + BodySize(pair.v2) + 4096 + |pair.summary| + HeaderSize(headers[..n])
    {
      assert headers[..n + 1][..n] == headers[..n];
      size := size + |headers[n].0| + |headers[n].1| + 128;
      n := n + 1;
    }
    assert headers[..n] == headers;
  }

  class ComparisonPipeline {
    const limits: WorkLimits
    const collector: BoundedCollector

    var open: bool
    var queue: seq<Job>
    var jobs: int
    var jobBytes: int
    // the suspended frames of the worker tasks, and the thread pool
    var workers: seq<Worker>
    var cpus: map<FutureId, Cpu>
    // increments of collection_dropped_total by the pipeline and the pairs, and by the runtime's callback
    var dropped: multiset<Reason>
    var reported: multiset<Reason>
    // the histories of the selected requests
    var places: map<Id, Place>

    ghost function State(slots: int): WorkModel.State
      reads this, collector
    {
      WorkModel.State.State(slots, open, queue, jobs, jobBytes, workers, cpus, dropped, reported, places,
                            collector.State())
    }

    /** The worker is suspended on a computation that is still running, or has ended. */
    predicate Waits(w: nat, running: bool)
      reads this`workers, this`cpus
    {
      w < |workers| && Holds(workers[w]) && workers[w].future in cpus && cpus[workers[w].future].Computing? == running
    }

    ghost predicate Valid(slots: int)
      reads this, collector
    {
      C.ValidLimits(collector.limits) && WorkInvariant.Inv(limits, collector.limits, State(slots))
    }

    constructor (l: WorkLimits, c: BoundedCollector)
      requires c.Valid() && c.State() == C.INITIAL
      ensures limits == l && collector == c && State(0) == Started(l) && Valid(0)
    {
      limits, collector := l, c;
      open, queue, jobs, jobBytes := true, [], 0, 0;
      workers, cpus := seq(l.workers, _ => Idle), map[];
      dropped, reported, places := multiset{}, multiset{}, map[];
      new;
      WorkInvariant.InitiallyInv(l, c.limits);
    }

    method Drop(id: Id, r: Reason)
      modifies this`dropped, this`places
      ensures dropped == old(dropped) + multiset{r} && places == old(places)[id := Lost(r)]
    {
      dropped := dropped + multiset{r};
      places := places[id := Lost(r)];
    }

    /** Accounts for the job before it is queued; the bounded queue is never full when it gets there. */
    method Submit(id: Id, pair: Pair, now: real, ghost slots: int)
      requires Valid(slots) && id in places && (places[id].Serving? || places[id].Closing?)
      modifies this`open, this`queue, this`jobs, this`jobBytes, this`dropped, this`places
      ensures State(slots) == SubmitJob(limits, old(State(slots)), id, SizeOf(pair), now)
      ensures |queue| <= limits.maxJobs
    {
      hide WorkInvariant.Inv, SizeOf;
      RoomInQueue(slots, SizeOf(pair));
      if !open {
        Drop(id, Shutdown);
        return;
      }
      var size := Measure(pair);
      if jobs >= limits.maxJobs || jobBytes + size > limits.maxBytes {
        Drop(id, QueueFull);
        return;
      }
      jobs := jobs + 1;
      jobBytes := jobBytes + size;
      Put(Job(id, size, now));
    }

    /** `put_nowait`, which raises when the queue is full; its precondition says that it does not. */
    method Put(job: Job)
      requires |queue| < limits.maxJobs
      modifies this`queue, this`places
      ensures queue == old(queue) + [job] && |queue| <= limits.maxJobs && places == old(places)[job.id := Queued]
    {
      queue := queue + [job];
      places := places[job.id := Queued];
    }

    /** The worker's `finally`. */
    method Release(w: nat, next: Worker)
      requires w < |workers| && Holds(workers[w])
      modifies this`jobs, this`jobBytes, this`workers
      ensures jobs == old(jobs) - 1 && jobBytes == old(jobBytes) - old(workers)[w].job.size
      ensures workers == old(workers)[w := next]
    {
      jobs := jobs - 1;
      jobBytes := jobBytes - workers[w].job.size;
      workers := workers[w := next];
    }

    /** The job is lost before the collector, and the worker gives it back. */
    method GiveUp(w: nat, r: Reason, next: Worker, ghost slots: int)
      requires w < |workers| && Holds(workers[w])
      modifies this`jobs, this`jobBytes, this`workers, this`dropped, this`places
      ensures State(slots) ==
                WorkModel.Release(Lose(old(State(slots)), old(workers)[w].job.id, r), w, next)
    {
      Drop(workers[w].job.id, r);
      Release(w, next);
    }

    /** The event is offered, and the worker gives the job back. */
    method OfferAndRelease(w: nat, payload: Option<nat>, now: real, next: Worker, ghost slots: int)
      requires collector.Valid() && w < |workers| && Holds(workers[w])
      modifies this`jobs, this`jobBytes, this`workers, this`dropped, this`places, collector
      ensures
        var s := old(State(slots));
        State(slots) == WorkModel.Release(Offer(collector.limits, s, s.workers[w].job, payload, now), w, next)
    {
      hide Offer, CI.Inv;
      OfferIgnoresSlots(collector.limits, State(0), State(slots), workers[w].job, payload, now);
      OfferEvent(workers[w].job, payload, now);
      Release(w, next);
    }

    /** The worker's frame receives the oldest job. */
    method Pop(w: nat, f: FutureId, ghost slots: int) returns (job: Job)
      requires w < |workers| && queue != []
      modifies this`queue, this`workers, this`places
      ensures job == old(queue)[0] && w < |workers| && workers[w] == Comparing(job, f)
      ensures State(slots) == Popped(old(State(slots)), w, f)
    {
      job := queue[0];
      queue := queue[1..];
      workers := workers[w := Comparing(job, f)];
      places := places[job.id := Held];
    }

    method Take(w: nat, now: real, f: FutureId, started: bool, ghost slots: int)
      requires w < |workers| && workers[w].Idle? && queue != [] && f !in cpus && Valid(slots)
      modifies this`queue, this`jobs, this`jobBytes, this`workers, this`cpus, this`dropped, this`places
      ensures State(slots) == WorkModel.Take(limits, old(State(slots)), w, now, f, started) && Valid(slots)
    {
      hide WorkInvariant.Inv, WorkModel.Take;
      WorkSteps.TakeKeepsInv(limits, collector.limits, State(slots), w, now, f, started);
      StartJob(w, now, f, started, slots);
    }

    /** Starts the comparison of the oldest job, or gives it up when it is too old or the pool refuses. */
    method StartJob(w: nat, now: real, f: FutureId, started: bool, ghost slots: int)
      requires w < |workers| && queue != []
      modifies this`queue, this`jobs, this`jobBytes, this`workers, this`cpus, this`dropped, this`places
      ensures State(slots) == WorkModel.Take(limits, old(State(slots)), w, now, f, started)
    {
      hide Popped, Lose, WorkModel.Release;
      var job := Pop(w, f, slots);
      var age := now - job.submitted;
      if age > limits.maxAge {
        GiveUp(w, QueueExpired, Idle, slots);
      } else if !started {
        GiveUp(w, ComparisonDropped, Idle, slots);
      } else {
        cpus := cpus[f := Computing];
      }
    }

    method CompareTimesOut(w: nat, ghost slots: int)
      requires Waits(w, true) && workers[w].Comparing?
      requires Valid(slots)
      modifies this`workers, this`dropped, this`places
      ensures State(slots) == WorkModel.CompareTimesOut(old(State(slots)), w) && Valid(slots)
    {
      hide WorkInvariant.Inv;
      var frame := workers[w];
      WorkSteps.StepKeepsInv(limits, collector.limits, State(slots), DoCompareTimesOut(w));
      Drop(frame.job.id, Timeout);
      workers := workers[w := TimedOut(frame.job, frame.future)];
    }

    /** Offers the event and, when it is refused, reports the reason that the collector's counters show. */
    method OfferEvent(job: Job, payload: Option<nat>, now: real)
      requires collector.Valid()
      modifies this`dropped, this`places, collector
      ensures collector.Valid()
      ensures
        var s := old(State(0));
        var s' := Offer(collector.limits, s, job, payload, now);
        collector.State() == s'.collector && dropped == s'.dropped && places == s'.places
    {
      hide CI.Inv, C.Accepts, C.Submit;
      var before := collector.counters;
      var accepted := collector.Submit(C.Event(job.id, job.submitted), payload, now);
      if !accepted {
        var reason := FindReason(before, collector.counters);
        Drop(job.id, reason);
      } else {
        places := places[job.id := Accepted];
      }
    }

    method StartDetail(w: nat, f: FutureId)
      requires w < |workers| && Holds(workers[w])
      modifies this`workers, this`cpus
      ensures workers == old(workers)[w := Detailing(old(workers)[w].job, f)] && cpus == old(cpus)[f := Computing]
    {
      workers := workers[w := Detailing(workers[w].job, f)];
      cpus := cpus[f := Computing];
    }

    method CompareEnds(w: nat, next: Next, ghost slots: int)
      requires Waits(w, false) && workers[w].Comparing? && (next.Details? ==> next.future !in cpus)
      requires Valid(slots)
      modifies this`jobs, this`jobBytes, this`workers, this`cpus, this`dropped, this`places, collector
      ensures State(slots) == WorkModel.CompareEnds(collector.limits, old(State(slots)), w, next) && Valid(slots)
    {
      hide WorkInvariant.Inv, WorkModel.CompareEnds, CI.Inv, C.ValidLimits;
      CompareEndsUnfolds(collector.limits, State(slots), w, next);
      WorkSteps.CompareEndsKeepsInv(limits, collector.limits, State(slots), w, next);
      CollectorIsValid(slots);
      match cpus[workers[w].future] {
        case Failed =>
          GiveUp(w, ComparisonDropped, Idle, slots);
        case Abandoned =>
          GiveUp(w, Shutdown, Gone, slots);
        case Succeeded => CompareSucceeds(w, next, slots);
      }
    }

    method CompareSucceeds(w: nat, next: Next, ghost slots: int)
      requires Waits(w, false) && cpus[workers[w].future].Succeeded? && workers[w].Comparing? && collector.Valid()
      modifies this`jobs, this`jobBytes, this`workers, this`cpus, this`dropped, this`places, collector
      ensures State(slots) == WorkModel.CompareEnds(collector.limits, old(State(slots)), w, next)
    {
      hide Offer, CI.Inv, C.ValidLimits;
      match next {
        case Raises => GiveUp(w, ComparisonDropped, Idle, slots);
        case Summarises(payload, now) => OfferAndRelease(w, payload, now, Idle, slots);
        case Details(f) => StartDetail(w, f);
      }
    }

    method DetailTimesOut(w: nat, payload: Option<nat>, now: real, ghost slots: int)
      requires Waits(w, true) && workers[w].Detailing?
      requires Valid(slots)
      modifies this`workers, this`dropped, this`places, collector
      ensures State(slots) == WorkModel.DetailTimesOut(collector.limits, old(State(slots)), w, payload, now)
      ensures Valid(slots)
    {
      hide WorkInvariant.Inv, Offer, CI.Inv;
      var frame := workers[w];
      WorkSteps.StepKeepsInv(limits, collector.limits, State(slots), DoDetailTimesOut(w, payload, now));
      CollectorIsValid(slots);
      OfferIgnoresSlots(collector.limits, State(0), State(slots), frame.job, payload, now);
      OfferEvent(frame.job, payload, now);
      workers := workers[w := Delivered(frame.job, frame.future)];
    }

    method DetailEnds(w: nat, payload: Option<nat>, now: real, ghost slots: int)
      requires Waits(w, false) && workers[w].Detailing?
      requires Valid(slots)
      modifies this`jobs, this`jobBytes, this`workers, this`dropped, this`places, collector
      ensures State(slots) == WorkModel.DetailEnds(collector.limits, old(State(slots)), w, payload, now) && Valid(slots)
    {
      hide WorkInvariant.Inv, Offer, CI.Inv;
      WorkSteps.DetailEndsKeepsInv(limits, collector.limits, State(slots), w, payload, now);
      CollectorIsValid(slots);
      if cpus[workers[w].future].Abandoned? {
        GiveUp(w, Shutdown, Gone, slots);
      } else {
        OfferAndRelease(w, payload, now, Idle, slots);
      }
    }

    /** The computation of a settled job has ended: its slot is given back at last. */
    method WaitEnds(w: nat, ghost slots: int)
      requires Waits(w, false) && !Unsettled(workers[w])
      requires Valid(slots)
      modifies this`jobs, this`jobBytes, this`workers
      ensures State(slots) == WorkModel.WaitEnds(old(State(slots)), w) && Valid(slots)
    {
      hide WorkInvariant.Inv;
      WorkSteps.StepKeepsInv(limits, collector.limits, State(slots), DoWaitEnds(w));
      var left := workers[w].Leaving? || cpus[workers[w].future].Abandoned?;
      Release(w, if left then Gone else Idle);
    }

    /** A cancelled worker settles its job, and waits for its computation before it gives the slot back. */
    method Cancel(w: nat, ghost slots: int)
      requires w < |workers| && !workers[w].Gone? && (Holds(workers[w]) ==> workers[w].future in cpus)
      requires Valid(slots)
      modifies this`jobs, this`jobBytes, this`workers, this`dropped, this`places
      ensures State(slots) == WorkModel.Cancel(old(State(slots)), w) && Valid(slots)
    {
      hide WorkInvariant.Inv;
      WorkSteps.CancelKeepsInv(limits, collector.limits, State(slots), w);
      var frame := workers[w];
      if !Holds(frame) {
        workers := workers[w := Gone];
        return;
      }
      var settled := !Unsettled(frame);
      if !settled {
        Drop(frame.job.id, Shutdown);
      }
      if cpus[frame.future].Computing? {
        workers := workers[w := Leaving(frame.job, frame.future)];
      } else {
        Release(w, Gone);
      }
    }

    method Close(ghost slots: int)
      requires Valid(slots)
      modifies this`open
      ensures State(slots) == old(State(slots)).(open := false) && Valid(slots)
    {
      hide WorkInvariant.QueuePlaced, WorkInvariant.WorkersPlaced, WorkInvariant.CpusFit, WorkInvariant.LossesFit,
        WorkInvariant.SlotsFit, WorkInvariant.Accounted, CI.Inv;
      open := false;
    }

    method DropOldest(ghost slots: int)
      requires queue != []
      modifies this`queue, this`jobs, this`jobBytes, this`dropped, this`places
      ensures State(slots) == DropHead(old(State(slots)), Shutdown) && |queue| == |old(queue)| - 1
    {
      var job := queue[0];
      queue := queue[1..];
      jobs := jobs - 1;
      jobBytes := jobBytes - job.size;
      Drop(job.id, Shutdown);
    }

    /** Empties the queue at the end of `close`; jobs still held by a computation stay counted. */
    method DrainQueue(ghost slots: int)
      requires Valid(slots) && !open
      modifies this`queue, this`jobs, this`jobBytes, this`dropped, this`places
      ensures State(slots) == Drain(old(State(slots))) && queue == [] && Valid(slots)
    {
      hide WorkInvariant.Inv, DropHead;
      WorkSteps.DrainKeepsInv(limits, collector.limits, State(slots));
      while queue != []
        invariant Drain(State(slots)) == Drain(old(State(slots)))
        decreases |queue|
      {
        DropOldest(slots);
      }
    }

    lemma RoomInQueue(slots: int, size: nat)
      requires Valid(slots)
      ensures |queue| <= limits.maxJobs && (HasRoom(limits, State(slots), size) ==> |queue| < limits.maxJobs)
    {
      hide CI.Inv, WorkInvariant.QueuePlaced, WorkInvariant.WorkersPlaced, WorkInvariant.CpusFit,
        WorkInvariant.LossesFit, WorkInvariant.SlotsFit;
    }

    lemma CollectorIsValid(slots: int)
      requires Valid(slots)
      ensures collector.Valid()
    {
      hide WorkInvariant.QueuePlaced, WorkInvariant.WorkersPlaced, WorkInvariant.CpusFit, WorkInvariant.LossesFit,
        WorkInvariant.SlotsFit, WorkInvariant.Accounted, CI.Inv;
    }
  }

  /** The first rejection counter that moved, in the order of the source's table. */
  method FindReason(before: multiset<C.Counter>, after: multiset<C.Counter>) returns (reason: Reason)
    ensures reason == RefusalReason(before, after)
  {
    var table := [(C.Settled(C.DroppedExpired), QueueExpired), (C.DroppedInvalid, MaskingFailed),
                  (C.Settled(C.DroppedShutdown), Shutdown), (C.DroppedCapacity, QueueFull)];
    var i := 0;
    while i < |table|
      invariant 0 <= i <= |table|
      invariant forall j :: 0 <= j < i ==> after[table[j].0] <= before[table[j].0]
    {
      if after[table[i].0] > before[table[i].0] {
        reason := table[i].1;
        assert i == 0 || i == 1 || i == 2 || i == 3;
        assert i > 0 ==> after[table[0].0] <= before[table[0].0];
        assert i > 1 ==> after[table[1].0] <= before[table[1].0];
        assert i > 2 ==> after[table[2].0] <= before[table[2].0];
        return;
      }
      i := i + 1;
    }
    assert after[table[0].0] <= before[table[0].0] && after[table[1].0] <= before[table[1].0];
    assert after[table[2].0] <= before[table[2].0];
    reason := QueueFull;
  }

  /** A computation that did not succeed loses its job. */
  lemma CompareEndsUnfolds(cl: C.Limits, s: WorkModel.State, w: nat, next: Next)
    requires w < |s.workers| && s.workers[w].Comparing? && s.workers[w].future in s.cpus
    ensures
      var job := s.workers[w].job;
      && (s.cpus[s.workers[w].future].Failed? ==>
            WorkModel.CompareEnds(cl, s, w, next) == WorkModel.Release(Lose(s, job.id, ComparisonDropped), w, Idle))
      && (s.cpus[s.workers[w].future].Abandoned? ==>
            WorkModel.CompareEnds(cl, s, w, next) == WorkModel.Release(Lose(s, job.id, Shutdown), w, Gone))
  {
    hide Lose, WorkModel.Release;
  }

  /** Offering an event does not depend on the number of slots. */
  lemma OfferIgnoresSlots(
    cl: C.Limits, s: WorkModel.State, t: WorkModel.State, job: Job, payload: Option<nat>, now: real)
    requires t == s.(slots := t.slots)
    ensures
      var o := Offer(cl, s, job, payload, now);
      Offer(cl, t, job, payload, now) == t.(dropped := o.dropped, places := o.places, collector := o.collector)
  {
    hide C.Submit, C.Accepts, RefusalReason;
  }
}
