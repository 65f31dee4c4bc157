/**
 The life of a request that was selected for comparison, as a labelled transition system: its shadow
 slot, the finalize task, the comparison queue, the comparison workers with their computations on a
 thread pool, and the collector. Each `Action` is the code between two awaits, or one move of the
 environment. Event ids are request ids: a request makes at most one event.
 */
module WorkModel {
  import opened Options
  import C = CollectorModel

  type Id = C.Id
  type FutureId = nat

  datatype WorkLimits = WorkLimits(maxJobs: nat, maxBytes: nat, maxAge: real, workers: nat, shadowSlots: nat)

  /** The reasons of the `collection_dropped_total` metric. */
  datatype Reason =
    | Shutdown | QueueFull | QueueExpired | Timeout | ComparisonDropped | MaskingFailed
    | RetryExhausted

  datatype Job = Job(id: Id, size: nat, submitted: real)

  /** A computation on the thread pool; `Abandoned` was cancelled by the pool's shutdown. */
  datatype Cpu = Computing | Succeeded | Failed | Abandoned

  /** Where a comparison worker is suspended, with the job and the future of its frame. */
  datatype Worker =
    | Idle
    | Comparing(job: Job, future: FutureId)
    | TimedOut(job: Job, future: FutureId)
    | Detailing(job: Job, future: FutureId)
    | Delivered(job: Job, future: FutureId)
    | Leaving(job: Job, future: FutureId)
    | Gone

  predicate Holds(w: Worker) { !w.Idle? && !w.Gone? }

  /** The frame's `settled` flag is still false. */
  predicate Unsettled(w: Worker) { w.Comparing? || w.Detailing? }

  datatype Shadow = NoSlot | Busy | Ended

  /** The history of one selected request. */
  datatype Place =
    | Serving(shadow: Shadow)
    | Closing(shadow: Shadow)
    | Queued
    | Held
    | Lost(reason: Reason)
    | Accepted

  predicate HasSlot(p: Place)
  {
    (p.Serving? || p.Closing?) && p.shadow != NoSlot
  }

  predicate Final(p: Place) { p.Lost? || p.Accepted? }

  datatype State = State(
    slots: int,
    open: bool,
    queue: seq<Job>,
    jobs: int,
    jobBytes: int,
    workers: seq<Worker>,
    cpus: map<FutureId, Cpu>,
    // increments of collection_dropped_total: on the way, and by the collector's callback
    dropped: multiset<Reason>,
    reported: multiset<Reason>,
    places: map<Id, Place>,
    collector: C.State)

  function Started(l: WorkLimits): State
  {
    State(0, true, [], 0, 0, seq(l.workers, _ => Idle), map[], multiset{}, multiset{}, map[], C.INITIAL)
  }

  // ----- the request -----

  /** A selected request takes a shadow slot, or goes on without its shadow. */
  function Select(l: WorkLimits, s: State, id: Id): State
  {
    if s.slots >= l.shadowSlots then s.(places := s.places[id := Serving(NoSlot)])
    else s.(slots := s.slots + 1, places := s.places[id := Serving(Busy)])
  }

  function WithShadow(p: Place, shadow: Shadow): Place
    requires p.Serving? || p.Closing?
  {
    if p.Serving? then Serving(shadow) else Closing(shadow)
  }

  /** The pair is complete: offer it for comparison unless something raised, then free the slot. */
  function Finalize(l: WorkLimits, s: State, id: Id, size: Option<nat>, now: real): State
    requires id in s.places
  {
    var s1 := if size.None? then Lose(s, id, ComparisonDropped) else SubmitJob(l, s, id, size.value, now);
    FreeSlot(s1, s.places[id])
  }

  function FreeSlot(s: State, was: Place): State
  {
    if HasSlot(was) then s.(slots := s.slots - 1) else s
  }

  // ----- the pipeline -----

  function Lose(s: State, id: Id, r: Reason): State
  {
    s.(dropped := s.dropped + multiset{r}, places := s.places[id := Lost(r)])
  }

  predicate HasRoom(l: WorkLimits, s: State, size: nat)
  {
    s.jobs < l.maxJobs && s.jobBytes + size <= l.maxBytes
  }

  function SubmitJob(l: WorkLimits, s: State, id: Id, size: nat, now: real): State
  {
    if !s.open then Lose(s, id, Shutdown)
    else if !HasRoom(l, s, size) then Lose(s, id, QueueFull)
    else s.(jobs := s.jobs + 1, jobBytes := s.jobBytes + size,
            queue := s.queue + [Job(id, size, now)], places := s.places[id := Queued])
  }

  /** The worker's `finally`: the job's slot and bytes are given back. */
  function Release(s: State, w: nat, next: Worker): State
    requires w < |s.workers| && Holds(s.workers[w])
  {
    s.(jobs := s.jobs - 1, jobBytes := s.jobBytes - s.workers[w].job.size, workers := s.workers[w := next])
  }

  /** The oldest job moves from the queue to a worker's frame. */
  function Popped(s: State, w: nat, f: FutureId): State
    requires w < |s.workers| && s.queue != []
  {
    var job := s.queue[0];
    s.(queue := s.queue[1..], workers := s.workers[w := Comparing(job, f)], places := s.places[job.id := Held])
  }

  /** The worker gives the oldest job up as soon as it has it. */
  function TakenInVain(s: State, w: nat, f: FutureId, r: Reason): State
    requires w < |s.workers| && s.queue != []
  {
    Release(Lose(Popped(s, w, f), s.queue[0].id, r), w, Idle)
  }

  /** A worker takes the oldest job and, unless it is too old or the pool refuses, starts to compute. */
  function Take(l: WorkLimits, s: State, w: nat, now: real, f: FutureId, started: bool): State
    requires w < |s.workers| && s.queue != []
  {
    if now - s.queue[0].submitted > l.maxAge then TakenInVain(s, w, f, QueueExpired)
    else if !started then TakenInVain(s, w, f, ComparisonDropped)
    else Popped(s, w, f).(cpus := s.cpus[f := Computing])
  }

  /** The reason for a refused event, found by comparing the collector's counters. */
  function RefusalReason(before: multiset<C.Counter>, after: multiset<C.Counter>): Reason
  {
    if after[C.Settled(C.DroppedExpired)] > before[C.Settled(C.DroppedExpired)] then QueueExpired
    else if after[C.DroppedInvalid] > before[C.DroppedInvalid] then MaskingFailed
    else if after[C.Settled(C.DroppedShutdown)] > before[C.Settled(C.DroppedShutdown)] then Shutdown
    else QueueFull
  }

  /** The finished summary is offered to the collector; queue, workers and account are not touched. */
  function Offer(cl: C.Limits, s: State, job: Job, payload: Option<nat>, now: real): (r: State)
    ensures r == s.(dropped := r.dropped, places := r.places, collector := r.collector)
  {
    var event := C.Event(job.id, job.submitted);
    var c := C.Submit(cl, s.collector, event, payload, now);
    var s1 := s.(collector := c);
    if C.Accepts(cl, s.collector, event, payload, now) then s1.(places := s.places[job.id := Accepted])
    else Lose(s1, job.id, RefusalReason(s.collector.counters, c.counters))
  }

  /** What a worker does with a comparison that returned. */
  datatype Next =
    | Raises
    | Summarises(payload: Option<nat>, now: real)
    | Details(future: FutureId)

  function CompareEnds(cl: C.Limits, s: State, w: nat, next: Next): State
    requires w < |s.workers| && s.workers[w].Comparing? && s.workers[w].future in s.cpus
  {
    var job := s.workers[w].job;
    match s.cpus[s.workers[w].future]
    case Failed => Release(Lose(s, job.id, ComparisonDropped), w, Idle)
    case Abandoned => Release(Lose(s, job.id, Shutdown), w, Gone)
    case _ =>
      match next
      case Raises => Release(Lose(s, job.id, ComparisonDropped), w, Idle)
      case Summarises(payload, now) => Release(Offer(cl, s, job, payload, now), w, Idle)
      case Details(f) => s.(workers := s.workers[w := Detailing(job, f)], cpus := s.cpus[f := Computing])
  }

  function DetailEnds(cl: C.Limits, s: State, w: nat, payload: Option<nat>, now: real): State
    requires w < |s.workers| && s.workers[w].Detailing? && s.workers[w].future in s.cpus
  {
    var job := s.workers[w].job;
    if s.cpus[s.workers[w].future].Abandoned? then Release(Lose(s, job.id, Shutdown), w, Gone)
    else Release(Offer(cl, s, job, payload, now), w, Idle)
  }

  /** The comparison takes too long: the job is lost, and held until the computation ends. */
  function CompareTimesOut(s: State, w: nat): State
    requires w < |s.workers| && Holds(s.workers[w])
  {
    var frame := s.workers[w];
    Lose(s, frame.job.id, Timeout).(workers := s.workers[w := TimedOut(frame.job, frame.future)])
  }

  /** The details take too long: the summary is offered without them, and the job held until they end. */
  function DetailTimesOut(cl: C.Limits, s: State, w: nat, payload: Option<nat>, now: real): State
    requires w < |s.workers| && Holds(s.workers[w])
  {
    var frame := s.workers[w];
    Offer(cl, s, frame.job, payload, now).(workers := s.workers[w := Delivered(frame.job, frame.future)])
  }

  /** The computation of a settled job has ended. */
  function WaitEnds(s: State, w: nat): State
    requires w < |s.workers| && Holds(s.workers[w]) && s.workers[w].future in s.cpus
  {
    var left := s.workers[w].Leaving? || s.cpus[s.workers[w].future].Abandoned?;
    Release(s, w, if left then Gone else Idle)
  }

  /** A worker is cancelled at an await: it settles its job, but leaves only when the computation is done. */
  function Cancel(s: State, w: nat): State
    requires w < |s.workers| && (Holds(s.workers[w]) ==> s.workers[w].future in s.cpus)
  {
    var frame := s.workers[w];
    if !Holds(frame) then s.(workers := s.workers[w := Gone])
    else
      var s1 := if Unsettled(frame) then Lose(s, frame.job.id, Shutdown) else s;
      if s.cpus[frame.future].Computing? then s1.(workers := s.workers[w := Leaving(frame.job, frame.future)])
      else Release(s1, w, Gone)
  }

  function DropHead(s: State, r: Reason): State
    requires s.queue != []
  {
    var job := s.queue[0];
    Lose(s.(queue := s.queue[1..], jobs := s.jobs - 1, jobBytes := s.jobBytes - job.size), job.id, r)
  }

  /** The end of close: every job still queued is dropped. */
  function Drain(s: State): State
    decreases |s.queue|
  {
    if s.queue == [] then s else Drain(DropHead(s, Shutdown))
  }

  // ----- the callback that the runtime installs on the collector -----

  /** Which loss a final outcome is counted as. */
  function NoticeReason(o: C.Outcome): Option<Reason>
  {
    match o
    case DroppedExpired => Some(QueueExpired)
    case DroppedRetryExhausted => Some(RetryExhausted)
    case DroppedShutdown => Some(Shutdown)
    case _ => None
  }

  /** The collector moves on and calls back for every event that it settles. */
  ghost function Collect(s: State, c: C.State): State
  {
    s.(collector := c, reported := CallAll(s.reported, c.notices - s.collector.notices))
  }

  /** One call of the callback. */
  function Call(reported: multiset<Reason>, o: C.Outcome): multiset<Reason>
  {
    match NoticeReason(o) case Some(r) => reported + multiset{r} case None => reported
  }

  function Calls(reported: multiset<Reason>, o: C.Outcome, n: nat): multiset<Reason>
  {
    if n == 0 then reported else Call(Calls(reported, o, n - 1), o)
  }

  /** A call for each new notice of the collector; their order is of no consequence. */
  function CallAll(reported: multiset<Reason>, news: multiset<C.Outcome>): multiset<Reason>
  {
    var r1 := Calls(reported, C.Stored, news[C.Stored]);
    var r2 := Calls(r1, C.AckUnknown, news[C.AckUnknown]);
    var r3 := Calls(r2, C.DroppedExpired, news[C.DroppedExpired]);
    var r4 := Calls(r3, C.DroppedShutdown, news[C.DroppedShutdown]);
    Calls(r4, C.DroppedRetryExhausted, news[C.DroppedRetryExhausted])
  }

  datatype Action =
    | DoSelect(id: Id)
    | DoShadowEnds(id: Id)
    | DoRespond(id: Id)
    | DoFinalize(id: Id, size: Option<nat>, now: real)
    | DoTake(w: nat, now: real, f: FutureId, started: bool)
    | DoCompareTimesOut(w: nat)
    | DoCompareEnds(w: nat, next: Next)
    | DoDetailTimesOut(w: nat, payload: Option<nat>, now: real)
    | DoDetailEnds(w: nat, payload: Option<nat>, now: real)
    | DoWaitEnds(w: nat)
    | DoCancel(w: nat)
    | DoCpuEnds(f: FutureId, how: Cpu)
    | DoClose
    | DoDrain
    | DoCollect(action: C.Action)

  /** The worker is suspended on a computation in the given phase of it. */
  predicate Awaits(s: State, w: nat, running: bool)
  {
    w < |s.workers| && Holds(s.workers[w]) && s.workers[w].future in s.cpus
    && s.cpus[s.workers[w].future].Computing? == running
  }

  /** The worker is there to be cancelled. */
  predicate CanCancel(s: State, w: nat)
  {
    w < |s.workers| && !s.workers[w].Gone? && (Holds(s.workers[w]) ==> s.workers[w].future in s.cpus)
  }

  ghost predicate Enabled(cl: C.Limits, s: State, a: Action)
  {
    match a
    case DoSelect(id) => id !in s.places
    case DoShadowEnds(id) => id in s.places && HasSlot(s.places[id]) && s.places[id].shadow.Busy?
    case DoRespond(id) => id in s.places && s.places[id].Serving?
    case DoFinalize(id, _, _) => id in s.places && s.places[id].Closing? && !s.places[id].shadow.Busy?
    case DoTake(w, _, f, _) => w < |s.workers| && s.workers[w].Idle? && s.queue != [] && f !in s.cpus
    case DoCompareTimesOut(w) => Awaits(s, w, true) && s.workers[w].Comparing?
    case DoCompareEnds(w, next) =>
      Awaits(s, w, false) && s.workers[w].Comparing? && (next.Details? ==> next.future !in s.cpus)
    case DoDetailTimesOut(w, _, _) => Awaits(s, w, true) && s.workers[w].Detailing?
    case DoDetailEnds(w, _, _) => Awaits(s, w, false) && s.workers[w].Detailing?
    case DoWaitEnds(w) => Awaits(s, w, false) && !Unsettled(s.workers[w])
    case DoCancel(w) => CanCancel(s, w)
    case DoCpuEnds(f, how) => f in s.cpus && s.cpus[f].Computing? && !how.Computing?
    case DoClose => true
    case DoDrain => !s.open
    case DoCollect(b) => !b.DoSubmit? && C.Enabled(cl, s.collector, b)
  }

  ghost function Apply(l: WorkLimits, cl: C.Limits, s: State, a: Action): State
    requires Enabled(cl, s, a)
  {
    match a
    case DoSelect(id) => Select(l, s, id)
    case DoShadowEnds(id) => s.(places := s.places[id := WithShadow(s.places[id], Ended)])
    case DoRespond(id) => s.(places := s.places[id := Closing(s.places[id].shadow)])
    case DoFinalize(id, size, now) => Finalize(l, s, id, size, now)
    case DoTake(w, now, f, started) => Take(l, s, w, now, f, started)
    case DoCompareTimesOut(w) => CompareTimesOut(s, w)
    case DoCompareEnds(w, next) => CompareEnds(cl, s, w, next)
    case DoDetailTimesOut(w, payload, now) => DetailTimesOut(cl, s, w, payload, now)
    case DoDetailEnds(w, payload, now) => DetailEnds(cl, s, w, payload, now)
    case DoWaitEnds(w) => WaitEnds(s, w)
    case DoCancel(w) => Cancel(s, w)
    case DoCpuEnds(f, how) => s.(cpus := s.cpus[f := how])
    case DoClose => s.(open := false)
    case DoDrain => Drain(s)
    case DoCollect(b) => Collect(s, C.Apply(cl, s.collector, b))
  }
}
