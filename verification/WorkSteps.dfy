/** Every action of the request pipeline keeps its invariant. */
module WorkSteps {
  import opened Options
  import opened Totals
  import opened WorkModel
  import opened WorkInvariant
  import C = CollectorModel
  import CI = CollectorInvariant
  import CS = CollectorSteps
  import CT = CollectorTheorems

  // ----- the request -----

  lemma SelectKeepsInv(l: WorkLimits, cl: C.Limits, s: State, id: Id)
    requires Inv(l, cl, s) && id !in s.places
    ensures Inv(l, cl, Select(l, s, id))
  {
    hide CI.Inv, Noticed, QueuePlaced, WorkersPlaced, CpusFit, LossesFit, SlotHolders, Accounted;
    var p := Select(l, s, id).places[id];
    MoveOutside(s.places, s.queue, s.workers, id, p);
    MovingKeepsLosses(s.places, s.dropped, id, p);
    SlotsAfter(s.places, id, p);
  }

  lemma RequestMoves(l: WorkLimits, cl: C.Limits, s: State, id: Id, p: Place)
    requires Inv(l, cl, s) && id in s.places && (s.places[id].Serving? || s.places[id].Closing?)
    requires (p.Serving? || p.Closing?) && HasSlot(p) == HasSlot(s.places[id])
    ensures Inv(l, cl, s.(places := s.places[id := p]))
  {
    hide CI.Inv, Noticed, QueuePlaced, WorkersPlaced, CpusFit, LossesFit, SlotHolders, Accounted;
    MoveOutside(s.places, s.queue, s.workers, id, p);
    MovingKeepsLosses(s.places, s.dropped, id, p);
    SlotsAfter(s.places, id, p);
  }

  lemma PairLost(l: WorkLimits, cl: C.Limits, s: State, id: Id, r: Reason)
    requires Inv(l, cl, s) && id in s.places && (s.places[id].Serving? || s.places[id].Closing?)
    ensures Inv(l, cl, FreeSlot(Lose(s, id, r), s.places[id]))
  {
    hide CI.Inv, Noticed, QueuePlaced, WorkersPlaced, CpusFit, LossesFit, SlotHolders, Accounted;
    SlotsAfter(s.places, id, Lost(r));
    MoveOutside(s.places, s.queue, s.workers, id, Lost(r));
    LosingKeepsLosses(s.places, s.dropped, id, r);
  }

  lemma PairQueued(l: WorkLimits, cl: C.Limits, s: State, id: Id, size: nat, now: real)
    requires Inv(l, cl, s) && id in s.places && (s.places[id].Serving? || s.places[id].Closing?)
    requires s.open && HasRoom(l, s, size)
    ensures Inv(l, cl, FreeSlot(SubmitJob(l, s, id, size, now), s.places[id]))
  {
    hide CI.Inv, Noticed, QueuePlaced, WorkersPlaced, CpusFit, LossesFit, SlotHolders, HeldJobs, HeldBytes, QueueBytes;
    var job := Job(id, size, now);
    SlotsAfter(s.places, id, Queued);
    OutsideWorkers(s.places, s.workers, id, Queued);
    Enqueued(s.places, s.queue, job);
    QueueSnoc(s.queue, job);
    MovingKeepsLosses(s.places, s.dropped, id, Queued);
  }

  /** A request that ends its pair is offered to the pipeline and gives its slot back. */
  lemma FinalizeKeepsInv(l: WorkLimits, cl: C.Limits, s: State, id: Id, size: Option<nat>, now: real)
    requires Inv(l, cl, s) && id in s.places && (s.places[id].Serving? || s.places[id].Closing?)
    ensures Inv(l, cl, Finalize(l, s, id, size, now))
  {
    hide Inv, FreeSlot, Lose;
    if size.None? {
      PairLost(l, cl, s, id, ComparisonDropped);
    } else if !s.open {
      PairLost(l, cl, s, id, Shutdown);
    } else if !HasRoom(l, s, size.value) {
      PairLost(l, cl, s, id, QueueFull);
    } else {
      PairQueued(l, cl, s, id, size.value, now);
    }
  }

  // ----- the comparison workers -----

  lemma TakenJobStarts(l: WorkLimits, cl: C.Limits, s: State, w: nat, f: FutureId)
    requires Inv(l, cl, s) && w < |s.workers| && s.workers[w].Idle? && s.queue != [] && f !in s.cpus
    ensures Inv(l, cl, s.(queue := s.queue[1..], workers := s.workers[w := Comparing(s.queue[0], f)],
                          places := s.places[s.queue[0].id := Held], cpus := s.cpus[f := Computing]))
  {
    hide CI.Inv, Noticed, WorkersPlaced, CpusFit, LossesFit, SlotHolders, HeldJobs, HeldBytes;
    var job := s.queue[0];
    HeldUpdate(s.workers, w, Comparing(job, f));
    SlotsAfter(s.places, job.id, Held);
    Dequeued(s.places, s.queue, Held);
    WorkerTakes(s.places, s.workers, w, Comparing(job, f));
    MovingKeepsLosses(s.places, s.dropped, job.id, Held);
    CpuStarts(s.workers, s.cpus, w, Comparing(job, f));
  }

  /** The head of the queue is given up, and no worker keeps it. */
  lemma HeadLost(l: WorkLimits, cl: C.Limits, s: State, r: Reason)
    requires Inv(l, cl, s) && s.queue != []
    ensures Inv(l, cl, DropHead(s, r))
  {
    hide CI.Inv, Noticed, WorkersPlaced, CpusFit, LossesFit, SlotHolders, HeldJobs, HeldBytes;
    var job := s.queue[0];
    Dequeued(s.places, s.queue, Lost(r));
    OutsideWorkers(s.places, s.workers, job.id, Lost(r));
    LosingKeepsLosses(s.places, s.dropped, job.id, r);
    SlotsAfter(s.places, job.id, Lost(r));
  }

  lemma TakeKeepsInv(l: WorkLimits, cl: C.Limits, s: State, w: nat, now: real, f: FutureId, started: bool)
    requires w < |s.workers| && s.workers[w].Idle? && s.queue != [] && f !in s.cpus
    requires Inv(l, cl, s)
    ensures Inv(l, cl, Take(l, s, w, now, f, started))
  {
    hide Inv;
    var job := s.queue[0];
    var late := now - job.submitted > l.maxAge;
    if late || !started {
      var r := if late then QueueExpired else ComparisonDropped;
      HeadLost(l, cl, s, r);
      assert s.workers[w := Comparing(job, f)][w := Idle] == s.workers;
      assert s.places[job.id := Held][job.id := Lost(r)] == s.places[job.id := Lost(r)];
    } else {
      TakenJobStarts(l, cl, s, w, f);
    }
  }

  /** The worker settles its job as lost; `s'` differs in the worker's frame and in the account only. */
  lemma SettlingKeepsPlaces(s: State, w: nat, r: Reason, frame: Worker, l: WorkLimits)
    requires w < |s.workers| && Unsettled(s.workers[w])
    requires QueuePlaced(s.places, s.queue) && WorkersPlaced(s.places, s.workers)
    requires LossesFit(s.places, s.dropped) && SlotsFit(l, s.places, s.slots)
    requires AcceptedFit(s.places, s.collector.submitted)
    requires Holds(frame) ==> frame.job == s.workers[w].job && !Unsettled(frame)
    ensures
      var s' := Lose(s, s.workers[w].job.id, r);
      && QueuePlaced(s'.places, s'.queue) && WorkersPlaced(s'.places, s'.workers[w := frame])
      && LossesFit(s'.places, s'.dropped) && SlotsFit(l, s'.places, s'.slots)
      && AcceptedFit(s'.places, s'.collector.submitted)
  {
    hide QueuePlaced, WorkersPlaced, LossesFit, SlotHolders;
    var id := s.workers[w].job.id;
    FrameIsHeld(s.places, s.workers, w);
    WorkerSettles(s.places, s.workers, w, Lost(r), frame);
    LosingKeepsLosses(s.places, s.dropped, id, r);
    SlotsAfter(s.places, id, Lost(r));
    QueueUnmoved(s.places, s.queue, id, Lost(r));
  }

  lemma FrameIsHeld(places: map<Id, Place>, workers: seq<Worker>, w: nat)
    requires WorkersPlaced(places, workers) && w < |workers| && Unsettled(workers[w])
    ensures workers[w].job.id in places && places[workers[w].job.id] == Held
  {
    assert FramePlaced(places, workers[w]);
  }

  /** The job a worker holds unsettled is where the history says, and its event is new to the collector. */
  lemma HeldIsNew(l: WorkLimits, cl: C.Limits, s: State, w: nat)
    requires Inv(l, cl, s) && w < |s.workers| && Unsettled(s.workers[w])
    ensures
      var id := s.workers[w].job.id;
      id in s.places && s.places[id] == Held && id !in s.collector.submitted && id !in s.collector.pending
  {
    hide CI.Placed, CI.Reserved, CI.Truthful, CI.Bounded, QueuePlaced, CpusFit, LossesFit, SlotHolders, Accounted;
    assert FramePlaced(s.places, s.workers[w]);
  }

  /** A refused new event moves exactly one counter, and the reason reported is the one it names. */
  lemma RefusalIsNamed(cl: C.Limits, c: C.State, e: C.Event, payload: Option<nat>, now: real)
    requires e.id !in c.submitted && e.id !in c.pending && !C.Accepts(cl, c, e, payload, now)
    ensures
      var after := C.Submit(cl, c, e, payload, now);
      RefusalReason(c.counters, after.counters) ==
        if c.closed then Shutdown
        else if payload.None? then MaskingFailed
        else if |c.pending| >= cl.maxEvents || c.bytes + payload.value > cl.maxBytes then QueueFull
        else QueueExpired
  {
  }

  lemma AcceptingKeepsPlaces(l: WorkLimits, s: State, w: nat, submitted: set<Id>, frame: Worker)
    requires w < |s.workers| && Unsettled(s.workers[w])
    requires QueuePlaced(s.places, s.queue) && WorkersPlaced(s.places, s.workers)
    requires LossesFit(s.places, s.dropped) && SlotsFit(l, s.places, s.slots) && AcceptedFit(s.places, submitted)
    requires Holds(frame) ==> frame.job == s.workers[w].job && !Unsettled(frame)
    ensures
      var id := s.workers[w].job.id;
      var places := s.places[id := Accepted];
      && QueuePlaced(places, s.queue) && WorkersPlaced(places, s.workers[w := frame])
      && LossesFit(places, s.dropped) && SlotsFit(l, places, s.slots) && AcceptedFit(places, submitted + {id})
  {
    hide LossesFit, SlotHolders;
    var id := s.workers[w].job.id;
    assert FramePlaced(s.places, s.workers[w]);
    WorkerSettles(s.places, s.workers, w, Accepted, frame);
    MovingKeepsLosses(s.places, s.dropped, id, Accepted);
    SlotsAfter(s.places, id, Accepted);
    QueueUnmoved(s.places, s.queue, id, Accepted);
  }

  /** The summary is offered: the event is accepted by the collector or the loss is counted. */
  lemma OfferSettles(l: WorkLimits, cl: C.Limits, s: State, w: nat, payload: Option<nat>, now: real, frame: Worker)
    requires w < |s.workers| && Unsettled(s.workers[w])
    requires Holds(frame) ==> frame.job == s.workers[w].job && !Unsettled(frame)
    requires C.ValidLimits(cl) && Inv(l, cl, s)
    ensures
      var s' := Offer(cl, s, s.workers[w].job, payload, now);
      && s' == s.(dropped := s'.dropped, places := s'.places, collector := s'.collector)
      && QueuePlaced(s'.places, s'.queue) && WorkersPlaced(s'.places, s'.workers[w := frame])
      && LossesFit(s'.places, s'.dropped) && SlotsFit(l, s'.places, s'.slots)
      && AcceptedFit(s'.places, s'.collector.submitted) && CI.Inv(cl, s'.collector)
      && s'.collector.notices == s.collector.notices
  {
    hide CI.Inv, Noticed, C.Submit, C.Accepts, QueuePlaced, WorkersPlaced, LossesFit, SlotsFit, AcceptedFit, CpusFit,
      Accounted, RefusalReason;
    var job := s.workers[w].job;
    var event := C.Event(job.id, job.submitted);
    var c := C.Submit(cl, s.collector, event, payload, now);
    CS.SubmitKeepsInv(cl, s.collector, event, payload, now);
    SubmittedAfter(cl, s.collector, event, payload, now);
    if C.Accepts(cl, s.collector, event, payload, now) {
      AcceptingKeepsPlaces(l, s, w, s.collector.submitted, frame);
    } else {
      SettlingKeepsPlaces(s.(collector := c), w, RefusalReason(s.collector.counters, c.counters), frame, l);
    }
  }

  lemma AcceptedIsNew(cl: C.Limits, c: C.State, e: C.Event, payload: Option<nat>, now: real)
    ensures C.Accepts(cl, c, e, payload, now) ==> payload.Some? && C.Refusal(cl, c, e, payload, now).None?
  {
  }

  lemma SubmittedAfter(cl: C.Limits, c: C.State, e: C.Event, payload: Option<nat>, now: real)
    ensures C.Submit(cl, c, e, payload, now).submitted ==
              if C.Accepts(cl, c, e, payload, now) then c.submitted + {e.id} else c.submitted
    ensures C.Submit(cl, c, e, payload, now).notices == c.notices
  {
    hide C.Refusal;
    AcceptedIsNew(cl, c, e, payload, now);
  }

  /** What remains to be kept when only a worker's frame, its computation and the account move. */
  lemma FrameKeepsAccount(l: WorkLimits, s: State, w: nat, frame: Worker)
    requires Accounted(l, s.queue, s.workers, s.jobs, s.jobBytes) && CpusFit(s.workers, s.cpus)
    requires w < |s.workers| && Holds(s.workers[w])
    requires Holds(frame) ==> frame.job == s.workers[w].job && frame.future == s.workers[w].future
    requires !Holds(frame) ==> Awaits(s, w, false)
    ensures CpusFit(s.workers[w := frame], s.cpus)
    ensures Holds(frame) ==> Accounted(l, s.queue, s.workers[w := frame], s.jobs, s.jobBytes)
    ensures !Holds(frame) ==>
              Accounted(l, s.queue, s.workers[w := frame], s.jobs - 1, s.jobBytes - s.workers[w].job.size)
  {
    HeldUpdate(s.workers, w, frame);
    CpuStays(s.workers, s.cpus, w, frame);
  }

  lemma LosingKeepsInv(l: WorkLimits, cl: C.Limits, s: State, w: nat, r: Reason, frame: Worker)
    requires w < |s.workers| && Unsettled(s.workers[w])
    requires Holds(frame) ==> frame.job == s.workers[w].job && frame.future == s.workers[w].future && !Unsettled(frame)
    requires !Holds(frame) ==> Awaits(s, w, false)
    requires Inv(l, cl, s)
    ensures
      var s1 := Lose(s, s.workers[w].job.id, r);
      Inv(l, cl, if Holds(frame) then s1.(workers := s.workers[w := frame]) else Release(s1, w, frame))
  {
    hide CI.Inv, Noticed, QueuePlaced, WorkersPlaced, LossesFit, SlotHolders, HeldJobs, HeldBytes, QueueBytes, SlotsFit;
    FrameKeepsAccount(l, s, w, frame);
    SettlingKeepsPlaces(s, w, r, frame, l);
  }

  lemma OfferingKeepsInv(
    l: WorkLimits, cl: C.Limits, s: State, w: nat, payload: Option<nat>, now: real, frame: Worker)
    requires w < |s.workers| && Unsettled(s.workers[w])
    requires Holds(frame) ==> frame.job == s.workers[w].job && frame.future == s.workers[w].future && !Unsettled(frame)
    requires !Holds(frame) ==> Awaits(s, w, false)
    requires C.ValidLimits(cl) && Inv(l, cl, s)
    ensures
      var s1 := Offer(cl, s, s.workers[w].job, payload, now);
      Inv(l, cl, if Holds(frame) then s1.(workers := s.workers[w := frame]) else Release(s1, w, frame))
  {
    hide CI.Inv, Noticed, QueuePlaced, WorkersPlaced, LossesFit, SlotHolders, HeldJobs, HeldBytes, QueueBytes, SlotsFit, Offer;
    FrameKeepsAccount(l, s, w, frame);
    OfferSettles(l, cl, s, w, payload, now, frame);
  }

  /** A settled worker gives its job back, or waits on; an unsettled one moves to its second computation. */
  lemma MovingKeepsInv(l: WorkLimits, cl: C.Limits, s: State, w: nat, frame: Worker)
    requires w < |s.workers| && Holds(s.workers[w]) && !Unsettled(s.workers[w]) && !Unsettled(frame)
    requires Holds(frame) ==> frame.job == s.workers[w].job && frame.future == s.workers[w].future
    requires !Holds(frame) ==> Awaits(s, w, false)
    requires Inv(l, cl, s)
    ensures Inv(l, cl, if Holds(frame) then s.(workers := s.workers[w := frame]) else Release(s, w, frame))
  {
    hide CI.Inv, Noticed, QueuePlaced, WorkersPlaced, LossesFit, SlotHolders, HeldJobs, HeldBytes, QueueBytes;
    FrameKeepsAccount(l, s, w, frame);
    WorkerMoves(s.places, s.workers, w, frame);
  }

  lemma DetailStartKeepsInv(l: WorkLimits, cl: C.Limits, s: State, w: nat, f: FutureId)
    requires Awaits(s, w, false) && s.workers[w].Comparing? && f !in s.cpus
    requires Inv(l, cl, s)
    ensures Inv(l, cl, s.(workers := s.workers[w := Detailing(s.workers[w].job, f)], cpus := s.cpus[f := Computing]))
  {
    hide CI.Inv, Noticed, QueuePlaced, WorkersPlaced, CpusFit, LossesFit, SlotHolders;
    var frame := Detailing(s.workers[w].job, f);
    HeldUpdate(s.workers, w, frame);
    CpuStarts(s.workers, s.cpus, w, frame);
    WorkerMoves(s.places, s.workers, w, frame);
  }

  lemma CompareEndsKeepsInv(l: WorkLimits, cl: C.Limits, s: State, w: nat, next: Next)
    requires Awaits(s, w, false) && s.workers[w].Comparing? && (next.Details? ==> next.future !in s.cpus)
    requires C.ValidLimits(cl) && Inv(l, cl, s)
    ensures Inv(l, cl, CompareEnds(cl, s, w, next))
  {
    hide Inv, Lose, Offer, Release;
    match s.cpus[s.workers[w].future]
    case Failed => LosingKeepsInv(l, cl, s, w, ComparisonDropped, Idle);
    case Abandoned => LosingKeepsInv(l, cl, s, w, Shutdown, Gone);
    case Succeeded =>
      match next {
        case Raises => LosingKeepsInv(l, cl, s, w, ComparisonDropped, Idle);
        case Summarises(payload, now) => OfferingKeepsInv(l, cl, s, w, payload, now, Idle);
        case Details(f) => DetailStartKeepsInv(l, cl, s, w, f);
      }
  }

  lemma DetailEndsKeepsInv(l: WorkLimits, cl: C.Limits, s: State, w: nat, payload: Option<nat>, now: real)
    requires Awaits(s, w, false) && s.workers[w].Detailing?
    requires C.ValidLimits(cl) && Inv(l, cl, s)
    ensures Inv(l, cl, DetailEnds(cl, s, w, payload, now))
  {
    hide Inv, Lose, Offer, Release;
    if s.cpus[s.workers[w].future].Abandoned? {
      LosingKeepsInv(l, cl, s, w, Shutdown, Gone);
    } else {
      OfferingKeepsInv(l, cl, s, w, payload, now, Idle);
    }
  }

  lemma CancelKeepsInv(l: WorkLimits, cl: C.Limits, s: State, w: nat)
    requires CanCancel(s, w)
    requires Inv(l, cl, s)
    ensures Inv(l, cl, Cancel(s, w))
  {
    hide CI.Inv, Noticed, QueuePlaced, WorkersPlaced, CpusFit, LossesFit, SlotHolders, HeldJobs, HeldBytes, QueueBytes,
      SlotsFit;
    var frame := s.workers[w];
    if !Holds(frame) {
      HeldUpdate(s.workers, w, Gone);
      CpuStays(s.workers, s.cpus, w, Gone);
      WorkerMoves(s.places, s.workers, w, Gone);
    } else {
      var next := if s.cpus[frame.future].Computing? then Leaving(frame.job, frame.future) else Gone;
      if Unsettled(frame) {
        LosingKeepsInv(l, cl, s, w, Shutdown, next);
      } else {
        MovingKeepsInv(l, cl, s, w, next);
      }
    }
  }

  lemma {:induction false} DrainKeepsInv(l: WorkLimits, cl: C.Limits, s: State)
    requires Inv(l, cl, s)
    ensures Inv(l, cl, Drain(s)) && Drain(s).queue == []
    decreases |s.queue|
  {
    hide Inv;
    if s.queue != [] {
      HeadLost(l, cl, s, Shutdown);
      DrainKeepsInv(l, cl, DropHead(s, Shutdown));
    }
  }

  lemma CollectKeepsSubmitted(cl: C.Limits, c: C.State, a: C.Action)
    requires CI.Inv(cl, c) && C.Enabled(cl, c, a) && !a.DoSubmit?
    ensures C.Apply(cl, c, a).submitted == c.submitted
  {
    hide CI.Placed, CI.Reserved, CI.Truthful, CI.Bounded, CI.Budgeted, CI.Counted, CI.Settles, C.Honest, C.Enumerates;
    match a
    case DoAttempt(now, t) =>
      CS.FinishAllKeepsFrame(c, C.Keep(c.worker.batch, C.Aged(cl, c.worker.batch, now)), c.worker.uncertain,
                             C.DroppedExpired);
    case DoExit(values) => CS.FinishAllKeepsFrame(c, values, {}, C.DroppedShutdown);
    case DoTimeOut =>
      var c1 := c.(counters := c.counters + C.Copies(C.WriteFailures, 1)
                               + C.Copies(C.AckUnknownAttempts, |c.worker.batch|));
      CS.FinishAllKeepsFrame(c1, c.worker.batch, C.IdSet(c.worker.batch), C.AckUnknown);
    case DoRead => ReadKeepsSubmitted(cl, c, c.tasks[c.worker.task].status);
    case DoCancel(values) => CancelKeepsSubmitted(c, values);
    case DoWriteDone(t) => CS.ReleaseAllKeepsFrame(c, c.tasks[t].ids);
    case _ =>
  }

  lemma ReadKeepsSubmitted(cl: C.Limits, c: C.State, status: C.Status)
    requires c.worker.Waiting?
    ensures C.Read(cl, c, status).submitted == c.submitted
  {
    hide C.FinishAll, C.Keep, C.Drop;
    var w := c.worker;
    var r := C.ResultOf(status, w.batch);
    var c1 := C.CountRead(c, status, w.batch);
    CS.FinishAllKeepsFrame(c1, C.Keep(w.batch, C.Acked(w.batch, r)), {}, C.Stored);
    var c2 := C.FinishAll(c1, C.Keep(w.batch, C.Acked(w.batch, r)), {}, C.Stored);
    CS.FinishAllKeepsFrame(c2, C.Drop(w.batch, C.Acked(w.batch, r)), w.uncertain + C.Doubtful(w.batch, r),
                           C.DroppedRetryExhausted);
  }

  lemma CancelKeepsSubmitted(c: C.State, values: seq<C.Event>)
    requires c.worker.Waiting? || c.worker.Sleeping?
    ensures C.Exit(C.CancelBatch(c), values).submitted == c.submitted
  {
    hide C.FinishAll;
    var uncertain := if c.worker.Waiting? then C.IdSet(c.worker.batch) else c.worker.uncertain;
    CS.FinishAllKeepsFrame(c, c.worker.batch, uncertain, C.DroppedShutdown);
    CS.FinishAllKeepsFrame(C.CancelBatch(c), values, {}, C.DroppedShutdown);
  }

  lemma NoticesAreExact(cl: C.Limits, c: C.State)
    requires CI.Inv(cl, c)
    ensures forall o :: c.notices[o] == Count(c.outcomes, o)
  {
    hide CI.Placed, CI.Reserved, CI.Truthful, CI.Bounded, CI.Budgeted, CI.Tracked, Count;
  }

  /** The collector never takes a notice back. */
  lemma NoticesGrow(cl: C.Limits, c: C.State, b: C.Action)
    requires C.ValidLimits(cl) && CI.Inv(cl, c) && C.Enabled(cl, c, b)
    ensures c.notices <= C.Apply(cl, c, b).notices
  {
    hide CI.Inv, Noticed, C.Enabled, C.Apply, C.ValidLimits;
    var c' := C.Apply(cl, c, b);
    CS.StepKeepsInv(cl, c, b);
    CT.StepExtends(cl, c, b);
    NoticesAreExact(cl, c);
    NoticesAreExact(cl, c');
    forall o ensures c.notices[o] <= c'.notices[o] {
      NoLarger(KeysOf(c.outcomes, o), KeysOf(c'.outcomes, o));
    }
  }

  lemma CollectKeepsInv(l: WorkLimits, cl: C.Limits, s: State, b: C.Action)
    requires C.ValidLimits(cl) && Inv(l, cl, s) && C.Enabled(cl, s.collector, b) && !b.DoSubmit?
    ensures Inv(l, cl, Collect(s, C.Apply(cl, s.collector, b)))
  {
    hide CI.Inv, Noticed, Accounted, QueuePlaced, WorkersPlaced, CpusFit, SlotsFit, LossesFit, AcceptedFit, CallAll,
      C.Enabled, C.Apply, C.ValidLimits;
    CS.StepKeepsInv(cl, s.collector, b);
    CollectKeepsSubmitted(cl, s.collector, b);
    NoticesGrow(cl, s.collector, b);
    CallingKeepsReports(s.collector.notices, C.Apply(cl, s.collector, b).notices);
  }

  lemma StepKeepsInv(l: WorkLimits, cl: C.Limits, s: State, a: Action)
    requires C.ValidLimits(cl) && Inv(l, cl, s) && Enabled(cl, s, a)
    ensures Inv(l, cl, Apply(l, cl, s, a))
  {
    hide CI.Inv, Noticed, Accounted, QueuePlaced, WorkersPlaced, CpusFit, SlotsFit, LossesFit, Collect, C.Enabled, C.Apply,
      C.ValidLimits, Drain;
    match a
    case DoSelect(id) => SelectKeepsInv(l, cl, s, id);
    case DoShadowEnds(id) => RequestMoves(l, cl, s, id, WithShadow(s.places[id], Ended));
    case DoRespond(id) => RequestMoves(l, cl, s, id, Closing(s.places[id].shadow));
    case DoFinalize(id, size, now) => FinalizeKeepsInv(l, cl, s, id, size, now);
    case DoTake(w, now, f, started) => TakeKeepsInv(l, cl, s, w, now, f, started);
    case DoCompareTimesOut(w) =>
      LosingKeepsInv(l, cl, s, w, Timeout, TimedOut(s.workers[w].job, s.workers[w].future));
    case DoCompareEnds(w, next) => CompareEndsKeepsInv(l, cl, s, w, next);
    case DoDetailTimesOut(w, payload, now) =>
      OfferingKeepsInv(l, cl, s, w, payload, now, Delivered(s.workers[w].job, s.workers[w].future));
    case DoDetailEnds(w, payload, now) => DetailEndsKeepsInv(l, cl, s, w, payload, now);
    case DoWaitEnds(w) =>
      MovingKeepsInv(l, cl, s, w,
                     if s.workers[w].Leaving? || s.cpus[s.workers[w].future].Abandoned? then Gone else Idle);
    case DoCancel(w) => CancelKeepsInv(l, cl, s, w);
    case DoCpuEnds(f, how) => CpuEnds(s.workers, s.cpus, f, how);
    case DoClose =>
    case DoDrain => DrainKeepsInv(l, cl, s);
    case DoCollect(b) => CollectKeepsInv(l, cl, s, b);
  }
}
