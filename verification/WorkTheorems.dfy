/** What the request pipeline promises over all of its runs, composed with the collector. */
module WorkTheorems {
  import opened Options
  import opened Totals
  import opened WorkModel
  import opened WorkInvariant
  import opened WorkSteps
  import C = CollectorModel
  import CI = CollectorInvariant
  import CS = CollectorSteps
  import CT = CollectorTheorems

  ghost predicate Run(l: WorkLimits, cl: C.Limits, ss: seq<State>, actions: seq<Action>)
  {
    && |ss| == |actions| + 1
    && ss[0] == Started(l)
    && forall i :: 0 <= i < |actions| ==>
         Enabled(cl, ss[i], actions[i]) && ss[i + 1] == Apply(l, cl, ss[i], actions[i])
  }

  lemma {:induction false} RunKeepsInv(l: WorkLimits, cl: C.Limits, ss: seq<State>, actions: seq<Action>, i: nat)
    requires C.ValidLimits(cl) && Run(l, cl, ss, actions) && i < |ss|
    ensures Inv(l, cl, ss[i])
  {
    hide Inv, Enabled, Apply, C.ValidLimits;
    if i == 0 {
      InitiallyInv(l, cl);
    } else {
      RunKeepsInv(l, cl, ss, actions, i - 1);
      StepKeepsInv(l, cl, ss[i - 1], actions[i - 1]);
    }
  }

  /** The states that end a run. */
  ghost predicate Reachable(l: WorkLimits, cl: C.Limits, s: State)
  {
    exists ss, actions :: Run(l, cl, ss, actions) && ss[|ss| - 1] == s
  }

  lemma ReachableInv(l: WorkLimits, cl: C.Limits, s: State)
    requires C.ValidLimits(cl) && Reachable(l, cl, s)
    ensures Inv(l, cl, s)
  {
    hide Inv, Enabled, Apply, C.ValidLimits;
    var ss, actions :| Run(l, cl, ss, actions) && ss[|ss| - 1] == s;
    RunKeepsInv(l, cl, ss, actions, |ss| - 1);
  }

  // ----- limits -----

  lemma {:induction false} HeldIsBounded(ws: seq<Worker>)
    ensures HeldJobs(ws) <= |ws|
  {
    if ws != [] {
      HeldIsBounded(ws[..|ws| - 1]);
    }
  }

  /** Jobs and bytes are what is queued or held, within their limits; the queue is never full when a job is put. */
  lemma WorkFitsItsLimits(l: WorkLimits, cl: C.Limits, s: State, size: nat)
    requires C.ValidLimits(cl) && Reachable(l, cl, s)
    ensures s.jobs == |s.queue| + HeldJobs(s.workers) && 0 <= s.jobs <= l.maxJobs
    ensures s.jobBytes == QueueBytes(s.queue) + HeldBytes(s.workers) && 0 <= s.jobBytes <= l.maxBytes
    ensures HasRoom(l, s, size) ==> |s.queue| < l.maxJobs
  {
    hide Reachable, C.ValidLimits, CI.Inv, QueuePlaced, WorkersPlaced, CpusFit, SlotsFit, LossesFit;
    ReachableInv(l, cl, s);
  }

  ghost function RunningCpus(cpus: map<FutureId, Cpu>): set<FutureId>
  {
    set f | f in cpus && cpus[f].Computing?
  }

  lemma {:induction false} FuturesAreFewer(ws: seq<Worker>, fs: set<FutureId>)
    requires forall f :: f in fs ==> exists i :: 0 <= i < |ws| && Holds(ws[i]) && ws[i].future == f
    ensures |fs| <= HeldJobs(ws)
    decreases |ws|
  {
    if ws == [] {
      assert fs == {};
    } else {
      var n := |ws| - 1;
      var rest := if Holds(ws[n]) then fs - {ws[n].future} else fs;
      forall f | f in rest ensures exists i :: 0 <= i < n && Holds(ws[..n][i]) && ws[..n][i].future == f {
        var i :| 0 <= i < |ws| && Holds(ws[i]) && ws[i].future == f;
        assert ws[..n][i] == ws[i];
      }
      FuturesAreFewer(ws[..n], rest);
    }
  }

  /** A computation that still runs keeps its job, its slot and its bytes counted, even after cancellation. */
  lemma RunningComputationsAreCounted(l: WorkLimits, cl: C.Limits, s: State)
    requires C.ValidLimits(cl) && Reachable(l, cl, s)
    ensures |RunningCpus(s.cpus)| <= HeldJobs(s.workers) <= s.jobs <= l.maxJobs
    ensures |RunningCpus(s.cpus)| <= l.workers
    ensures forall f :: f in RunningCpus(s.cpus) ==>
              exists i :: 0 <= i < |s.workers| && Holds(s.workers[i]) && s.workers[i].future == f
                          && s.workers[i].job.size <= s.jobBytes
  {
    hide Reachable, C.ValidLimits, CI.Inv, QueuePlaced, WorkersPlaced, SlotsFit, LossesFit;
    ReachableInv(l, cl, s);
    FuturesAreFewer(s.workers, RunningCpus(s.cpus));
    HeldIsBounded(s.workers);
    forall f | f in RunningCpus(s.cpus)
      ensures exists i :: 0 <= i < |s.workers| && Holds(s.workers[i]) && s.workers[i].future == f
                          && s.workers[i].job.size <= s.jobBytes
    {
      var i :| 0 <= i < |s.workers| && Holds(s.workers[i]) && s.workers[i].future == f;
      HeldUpdate(s.workers, i, Idle);
    }
  }

  /** A shadow slot is given back only by the pair that reserved it, and only after its shadow has ended. */
  lemma SlotsAreFreedAfterTheShadow(l: WorkLimits, cl: C.Limits, s: State, a: Action)
    requires Enabled(cl, s, a) && Apply(l, cl, s, a).slots < s.slots
    ensures a.DoFinalize? && s.places[a.id] == Closing(Ended) && Apply(l, cl, s, a).slots == s.slots - 1
    ensures Final(Apply(l, cl, s, a).places[a.id]) || Apply(l, cl, s, a).places[a.id] == Queued
  {
    hide C.Submit, C.Accepts, C.Enabled, C.Apply, Drain, RefusalReason, HasRoom;
    if a.DoDrain? {
      DrainKeepsSlots(s);
    }
  }

  lemma {:induction false} DrainKeepsSlots(s: State)
    ensures Drain(s).slots == s.slots
    decreases |s.queue|
  {
    if s.queue != [] {
      DrainKeepsSlots(DropHead(s, Shutdown));
    }
  }

  lemma SlotsHold(l: WorkLimits, cl: C.Limits, ss: seq<State>, actions: seq<Action>, i: nat)
    requires C.ValidLimits(cl) && Run(l, cl, ss, actions) && i < |ss|
    ensures ss[i].slots == |SlotHolders(ss[i].places)| && 0 <= ss[i].slots <= l.shadowSlots
  {
    RunKeepsInv(l, cl, ss, actions, i);
    hide Run, CI.Inv, QueuePlaced, WorkersPlaced, CpusFit, LossesFit, Accounted;
  }

  // ----- nothing is lost -----

  /** The requests whose fate is still open before the collector. */
  ghost function InFlight(places: map<Id, Place>): set<Id>
  {
    set id | id in places && !Final(places[id])
  }

  /** An open request is in its own task, in the queue, or held by exactly one worker. */
  lemma InFlightAreHere(l: WorkLimits, cl: C.Limits, s: State, id: Id)
    requires C.ValidLimits(cl) && Reachable(l, cl, s) && id in InFlight(s.places)
    ensures s.places[id].Serving? || s.places[id].Closing?
            || (exists i :: 0 <= i < |s.queue| && s.queue[i].id == id)
            || (exists i :: 0 <= i < |s.workers| && Unsettled(s.workers[i]) && s.workers[i].job.id == id)
  {
    hide Reachable, C.ValidLimits, CI.Inv, CpusFit, SlotsFit, LossesFit, Accounted;
    ReachableInv(l, cl, s);
  }

  /** Every increment of `collection_dropped_total`: losses on the way, and calls of the collector's callback. */
  function Drops(s: State): multiset<Reason>
  {
    s.dropped + s.reported
  }

  lemma DropsAdd(s: State)
    requires s.reported == Noticed(s.collector.notices)
    ensures |Drops(s)| == |s.dropped| + s.collector.notices[C.DroppedExpired]
                          + s.collector.notices[C.DroppedShutdown] + s.collector.notices[C.DroppedRetryExhausted]
  {
  }

  /** The accepted events whose final outcome is one of the drops. */
  ghost function DroppedEvents(outcomes: map<Id, C.Outcome>): set<Id>
  {
    set id | id in outcomes && CS.Dropped(outcomes[id])
  }

  lemma DroppedEventsAdd(outcomes: map<Id, C.Outcome>)
    ensures |DroppedEvents(outcomes)| == Count(outcomes, C.DroppedExpired) + Count(outcomes, C.DroppedShutdown)
                                         + Count(outcomes, C.DroppedRetryExhausted)
  {
    var a, b := KeysOf(outcomes, C.DroppedExpired), KeysOf(outcomes, C.DroppedShutdown);
    var c := KeysOf(outcomes, C.DroppedRetryExhausted);
    forall id | id in DroppedEvents(outcomes) ensures id in a + b + c {
      var o := outcomes[id];
      assert o.Stored? || o.AckUnknown? || o.DroppedExpired? || o.DroppedShutdown? || o.DroppedRetryExhausted?;
    }
    assert DroppedEvents(outcomes) == a + b + c;
    assert |a + b| == |a| + |b|;
  }

  /**
   The callback, called as the collector settles events, has counted every event that ended as
   dropped and no other one: each under the reason of its own outcome, and once.
   */
  lemma CallbackCountsEveryDrop(l: WorkLimits, cl: C.Limits, s: State, o: C.Outcome, r: Reason)
    requires C.ValidLimits(cl) && Reachable(l, cl, s)
    ensures NoticeReason(o) == Some(r) ==> s.reported[r] == Count(s.collector.outcomes, o)
    ensures |s.reported| == |DroppedEvents(s.collector.outcomes)|
  {
    hide Reachable, C.ValidLimits, QueuePlaced, WorkersPlaced, CpusFit, SlotsFit, LossesFit, Accounted, AcceptedFit,
      Count, CI.Inv, DroppedEvents;
    ReachableInv(l, cl, s);
    NoticesAreExact(cl, s.collector);
    DroppedEventsAdd(s.collector.outcomes);
  }

  /** For every reason, the metric is the number of requests with that fate. */
  lemma EveryReasonIsExact(l: WorkLimits, cl: C.Limits, s: State, r: Reason)
    requires C.ValidLimits(cl) && Reachable(l, cl, s)
    ensures
      var outcomes := s.collector.outcomes;
      Drops(s)[r] ==
        Count(s.places, Lost(r))
        + (if r == QueueExpired then Count(outcomes, C.DroppedExpired) else 0)
        + (if r == Shutdown then Count(outcomes, C.DroppedShutdown) else 0)
        + (if r == RetryExhausted then Count(outcomes, C.DroppedRetryExhausted) else 0)
  {
    hide Reachable, C.ValidLimits, QueuePlaced, WorkersPlaced, CpusFit, SlotsFit, Accounted, AcceptedFit, Count,
      LostIds, CI.Inv;
    ReachableInv(l, cl, s);
    NoticesAreExact(cl, s.collector);
  }

  lemma PlacesPartition(places: map<Id, Place>, submitted: set<Id>)
    requires AcceptedFit(places, submitted)
    ensures |places| == |InFlight(places)| + |LostIds(places)| + |submitted|
  {
    var a, b := InFlight(places), LostIds(places);
    assert places.Keys == a + b + submitted;
    assert |a + b| == |a| + |b|;
  }

  /** The selected requests without a fate: still before the collector, or inside it without an outcome. */
  ghost function Waiting(s: State): set<Id>
  {
    set id | id in s.places && (!Final(s.places[id]) || (s.places[id].Accepted? && id !in s.collector.outcomes))
  }

  lemma WaitingSplits(s: State)
    requires AcceptedFit(s.places, s.collector.submitted)
    ensures |Waiting(s)| == |InFlight(s.places)| + |CT.Unsettled(s.collector)|
  {
    assert Waiting(s) == InFlight(s.places) + CT.Unsettled(s.collector);
    assert InFlight(s.places) !! CT.Unsettled(s.collector);
  }

  /**
   End-to-end conservation: every selected request is stored, of unknown acknowledgement, counted
   under one dropped reason, or still on its way; none is lost and none is counted twice.
   */
  lemma EveryRequestIsAccountedFor(l: WorkLimits, cl: C.Limits, s: State)
    requires C.ValidLimits(cl) && Reachable(l, cl, s)
    ensures |s.places| ==
              s.collector.notices[C.Stored] + s.collector.notices[C.AckUnknown] + |Drops(s)| + |Waiting(s)|
  {
    hide Reachable, C.ValidLimits, CI.Inv, QueuePlaced, WorkersPlaced, CpusFit, SlotsFit, Accounted, AcceptedFit,
      InFlight, LostIds, Count, CT.Unsettled, Drops, Waiting;
    ReachableInv(l, cl, s);
    PlacesPartition(s.places, s.collector.submitted);
    DropsAdd(s);
    CT.SubmittedAreCounted(cl, s.collector);
    WaitingSplits(s);
  }

  /** Nothing is left to do before the collector. */
  ghost predicate Quiet(s: State)
  {
    && s.queue == [] && (forall i :: 0 <= i < |s.workers| ==> !Holds(s.workers[i]))
    && (forall id :: id in s.places ==> !s.places[id].Serving? && !s.places[id].Closing?)
  }

  lemma {:induction false} NobodyHolds(ws: seq<Worker>)
    requires forall i :: 0 <= i < |ws| ==> !Holds(ws[i])
    ensures HeldJobs(ws) == 0 && HeldBytes(ws) == 0
  {
    if ws != [] {
      assert forall i :: 0 <= i < |ws| - 1 ==> ws[..|ws| - 1][i] == ws[i];
      NobodyHolds(ws[..|ws| - 1]);
    }
  }

  /** A quiet pipeline has given back every job, byte and shadow slot, and settled every request. */
  lemma QuietMeansReleased(l: WorkLimits, cl: C.Limits, s: State)
    requires C.ValidLimits(cl) && Reachable(l, cl, s) && Quiet(s)
    ensures s.jobs == 0 && s.jobBytes == 0 && s.slots == 0 && InFlight(s.places) == {}
  {
    hide Reachable, C.ValidLimits, CI.Inv, CpusFit, LossesFit;
    ReachableInv(l, cl, s);
    NobodyHolds(s.workers);
    assert SlotHolders(s.places) == {};
    forall id | id in s.places ensures Final(s.places[id]) {
      var p := s.places[id];
      assert p.Queued? || p.Held? || Final(p);
    }
  }

  /** After a quiet shutdown that still claims completeness, selected requests are the stored rows and the losses. */
  lemma CompleteShutdownIsExact(l: WorkLimits, cl: C.Limits, s: State)
    requires C.ValidLimits(cl) && Reachable(l, cl, s) && Quiet(s) && s.collector.worker.Absent? && s.collector.complete
    ensures |s.places| == |s.collector.store| + |Drops(s)|
  {
    hide Reachable, C.ValidLimits;
    ReachableInv(l, cl, s);
    EveryRequestIsAccountedFor(l, cl, s);
    QuietMeansReleased(l, cl, s);
    CT.IdleStoreIsExact(cl, s.collector);
    WaitingSplits(s);
  }

  // ----- a fate is final and true -----

  /** Places only move forward, and a final one never changes. */
  ghost predicate Forward(places: map<Id, Place>, places': map<Id, Place>)
  {
    forall id :: id in places ==> id in places' && (Final(places[id]) ==> places'[id] == places[id])
  }

  lemma OneMoves(places: map<Id, Place>, id: Id, p: Place)
    requires id in places ==> !Final(places[id])
    ensures Forward(places, places[id := p])
  {
  }

  lemma ForwardItself(places: map<Id, Place>)
    ensures Forward(places, places)
  {
  }

  lemma OfferMovesOne(cl: C.Limits, s: State, job: Job, payload: Option<nat>, now: real)
    ensures
      var s' := Offer(cl, s, job, payload, now);
      job.id in s'.places && s'.places == s.places[job.id := s'.places[job.id]]
  {
    hide C.Submit, C.Accepts, RefusalReason;
  }

  /** Whatever a worker does to its unsettled job touches that job's place only. */
  lemma WorkerIsForward(l: WorkLimits, cl: C.Limits, s: State, w: nat, s': State)
    requires Inv(l, cl, s) && w < |s.workers| && Unsettled(s.workers[w])
    requires
      s'.places == s.places
      || (s.workers[w].job.id in s'.places
          && s'.places == s.places[s.workers[w].job.id := s'.places[s.workers[w].job.id]])
    ensures Forward(s.places, s'.places)
  {
    hide Inv;
    HeldIsNew(l, cl, s, w);
    OneMoves(s.places, s.workers[w].job.id, if s'.places == s.places then Held else s'.places[s.workers[w].job.id]);
  }

  lemma CompareEndsIsForward(l: WorkLimits, cl: C.Limits, s: State, w: nat, next: Next)
    requires Awaits(s, w, false) && s.workers[w].Comparing? && (next.Details? ==> next.future !in s.cpus)
    requires Inv(l, cl, s)
    ensures Forward(s.places, CompareEnds(cl, s, w, next).places)
  {
    hide Inv, Offer, Forward;
    var job := s.workers[w].job;
    if next.Summarises? {
      OfferMovesOne(cl, s, job, next.payload, next.now);
    }
    WorkerIsForward(l, cl, s, w, CompareEnds(cl, s, w, next));
  }

  lemma DetailIsForward(l: WorkLimits, cl: C.Limits, s: State, w: nat, payload: Option<nat>, now: real)
    requires w < |s.workers| && s.workers[w].Detailing? && s.workers[w].future in s.cpus
    requires Inv(l, cl, s)
    ensures Forward(s.places, DetailEnds(cl, s, w, payload, now).places)
    ensures Forward(s.places, Offer(cl, s, s.workers[w].job, payload, now).places)
  {
    hide Inv, Offer, Forward;
    OfferMovesOne(cl, s, s.workers[w].job, payload, now);
    WorkerIsForward(l, cl, s, w, DetailEnds(cl, s, w, payload, now));
    WorkerIsForward(l, cl, s, w, Offer(cl, s, s.workers[w].job, payload, now));
  }

  lemma CancelIsForward(l: WorkLimits, cl: C.Limits, s: State, w: nat)
    requires CanCancel(s, w)
    requires Inv(l, cl, s)
    ensures Forward(s.places, Cancel(s, w).places)
  {
    hide Inv;
    if Unsettled(s.workers[w]) {
      WorkerIsForward(l, cl, s, w, Cancel(s, w));
    }
  }

  lemma TakeIsForward(l: WorkLimits, cl: C.Limits, s: State, w: nat, now: real, f: FutureId, started: bool)
    requires w < |s.workers| && s.workers[w].Idle? && s.queue != [] && f !in s.cpus
    requires Inv(l, cl, s)
    ensures Forward(s.places, Take(l, s, w, now, f, started).places)
  {
    hide Inv, Forward;
    var id := s.queue[0].id;
    HeadIsQueued(l, cl, s);
    var places' := Take(l, s, w, now, f, started).places;
    assert places' == s.places[id := places'[id]];
    OneMoves(s.places, id, places'[id]);
  }

  lemma TimeOutIsForward(l: WorkLimits, cl: C.Limits, s: State, w: nat)
    requires Inv(l, cl, s) && w < |s.workers| && Unsettled(s.workers[w])
    ensures Forward(s.places, CompareTimesOut(s, w).places)
  {
    hide Inv, Forward;
    WorkerIsForward(l, cl, s, w, CompareTimesOut(s, w));
  }

  lemma SelectIsForward(l: WorkLimits, s: State, id: Id)
    requires id !in s.places
    ensures Forward(s.places, Select(l, s, id).places)
  {
    hide Forward;
    OneMoves(s.places, id, Select(l, s, id).places[id]);
  }

  lemma FinalizeIsForward(l: WorkLimits, s: State, id: Id, size: Option<nat>, now: real)
    requires id in s.places && !Final(s.places[id])
    ensures Forward(s.places, Finalize(l, s, id, size, now).places)
  {
    hide Forward, HasRoom;
    OneMoves(s.places, id, Finalize(l, s, id, size, now).places[id]);
  }

  lemma StepIsForward(l: WorkLimits, cl: C.Limits, s: State, a: Action)
    requires Inv(l, cl, s) && Enabled(cl, s, a)
    ensures Forward(s.places, Apply(l, cl, s, a).places)
  {
    hide Inv, Forward, C.Enabled, C.Apply, Drain, Take, CompareEnds, DetailEnds, Cancel, Offer, CompareTimesOut, Finalize,
      Select;
    match a
    case DoTake(w, now, f, started) => TakeIsForward(l, cl, s, w, now, f, started);
    case DoCompareTimesOut(w) => TimeOutIsForward(l, cl, s, w);
    case DoCompareEnds(w, next) => CompareEndsIsForward(l, cl, s, w, next);
    case DoDetailTimesOut(w, payload, now) => DetailIsForward(l, cl, s, w, payload, now);
    case DoDetailEnds(w, payload, now) => DetailIsForward(l, cl, s, w, payload, now);
    case DoCancel(w) => CancelIsForward(l, cl, s, w);
    case DoDrain => DrainIsForward(l, cl, s);
    case DoWaitEnds(w) => ForwardItself(s.places);
    case DoCpuEnds(f, how) => ForwardItself(s.places);
    case DoClose => ForwardItself(s.places);
    case DoCollect(b) => ForwardItself(s.places);
    case DoSelect(id) => SelectIsForward(l, s, id);
    case DoShadowEnds(id) => OneMoves(s.places, id, WithShadow(s.places[id], Ended));
    case DoRespond(id) => OneMoves(s.places, id, Closing(s.places[id].shadow));
    case DoFinalize(id, size, now) => FinalizeIsForward(l, s, id, size, now);
  }

  lemma HeadIsQueued(l: WorkLimits, cl: C.Limits, s: State)
    requires Inv(l, cl, s) && s.queue != []
    ensures s.queue[0].id in s.places && s.places[s.queue[0].id] == Queued
  {
    hide CI.Inv, CpusFit, SlotsFit, LossesFit, Accounted, WorkersPlaced;
  }

  lemma {:induction false} DrainIsForward(l: WorkLimits, cl: C.Limits, s: State)
    requires Inv(l, cl, s)
    ensures Forward(s.places, Drain(s).places)
    decreases |s.queue|
  {
    hide Inv;
    if s.queue != [] {
      HeadIsQueued(l, cl, s);
      HeadLost(l, cl, s, Shutdown);
      DrainIsForward(l, cl, DropHead(s, Shutdown));
    }
  }

  /** Whatever the pipeline does, the collector only moves on: no verdict, no event and no row is forgotten. */
  lemma CollectorMovesOn(l: WorkLimits, cl: C.Limits, s: State, a: Action)
    requires C.ValidLimits(cl) && Inv(l, cl, s) && Enabled(cl, s, a)
    ensures CT.Extends(s.collector, Apply(l, cl, s, a).collector)
  {
    hide Inv, C.Enabled, C.Apply, C.ValidLimits, CT.Extends, Drain, Offer, HasRoom;
    ExtendsItself(s.collector);
    match a
    case DoCompareEnds(w, next) =>
      if next.Summarises? {
        OfferExtends(cl, s, s.workers[w].job, next.payload, next.now);
      }
    case DoDetailTimesOut(w, payload, now) => OfferExtends(cl, s, s.workers[w].job, payload, now);
    case DoDetailEnds(w, payload, now) => OfferExtends(cl, s, s.workers[w].job, payload, now);
    case DoDrain => DrainKeepsCollector(s);
    case DoCollect(b) => CollectExtends(l, cl, s, b);
    case _ =>
  }

  lemma CollectExtends(l: WorkLimits, cl: C.Limits, s: State, b: C.Action)
    requires C.ValidLimits(cl) && Inv(l, cl, s) && C.Enabled(cl, s.collector, b)
    ensures CT.Extends(s.collector, C.Apply(cl, s.collector, b))
  {
    hide CI.Inv, C.Enabled, C.Apply, CT.Extends;
    CT.StepExtends(cl, s.collector, b);
  }

  lemma ExtendsItself(c: C.State)
    ensures CT.Extends(c, c)
  {
  }

  lemma OfferExtends(cl: C.Limits, s: State, job: Job, payload: Option<nat>, now: real)
    ensures CT.Extends(s.collector, Offer(cl, s, job, payload, now).collector)
  {
    hide C.Submit, C.Accepts, RefusalReason, CT.Extends;
    SubmitExtends(cl, s.collector, C.Event(job.id, job.submitted), payload, now);
  }

  lemma SubmitExtends(cl: C.Limits, c: C.State, e: C.Event, payload: Option<nat>, now: real)
    ensures CT.Extends(c, C.Submit(cl, c, e, payload, now))
  {
  }

  lemma {:induction false} DrainKeepsCollector(s: State)
    ensures Drain(s).collector == s.collector
    decreases |s.queue|
  {
    if s.queue != [] {
      DrainKeepsCollector(DropHead(s, Shutdown));
    }
  }

  lemma {:induction false} RunIsForward(
    l: WorkLimits, cl: C.Limits, ss: seq<State>, actions: seq<Action>, i: nat, j: nat)
    requires C.ValidLimits(cl) && Run(l, cl, ss, actions) && i <= j < |ss|
    ensures Forward(ss[i].places, ss[j].places) && CT.Extends(ss[i].collector, ss[j].collector)
    decreases j
  {
    hide Inv, Enabled, Apply;
    if i < j {
      RunIsForward(l, cl, ss, actions, i, j - 1);
      RunKeepsInv(l, cl, ss, actions, j - 1);
      StepIsForward(l, cl, ss[j - 1], actions[j - 1]);
      CollectorMovesOn(l, cl, ss[j - 1], actions[j - 1]);
    }
  }

  /**
   A request is settled once: a loss counted under a reason stays that loss, and its event never
   reaches the store; an accepted event keeps its verdict, which stays true of the store.
   */
  lemma FatesAreFinalAndTrue(
    l: WorkLimits, cl: C.Limits, ss: seq<State>, actions: seq<Action>, i: nat, j: nat, id: Id)
    requires C.ValidLimits(cl) && Run(l, cl, ss, actions) && i <= j < |ss| && id in ss[i].places
    ensures id in ss[j].places
    ensures Final(ss[i].places[id]) ==> ss[j].places[id] == ss[i].places[id]
    ensures ss[i].places[id].Lost? ==> id !in ss[j].collector.store
    ensures id in ss[i].collector.outcomes ==>
              && ss[j].places[id] == Accepted
              && id in ss[j].collector.outcomes && ss[j].collector.outcomes[id] == ss[i].collector.outcomes[id]
              && (ss[i].collector.outcomes[id] == C.Stored ==> id in ss[j].collector.store)
              && (CS.Dropped(ss[i].collector.outcomes[id]) ==> id !in ss[j].collector.store)
  {
    RunIsForward(l, cl, ss, actions, i, j);
    RunKeepsInv(l, cl, ss, actions, j);
    hide Run, QueuePlaced, WorkersPlaced, CpusFit, SlotsFit, LossesFit, Accounted, CI.Inv;
    CT.StoreIsSubmitted(cl, ss[j].collector);
    if id in ss[i].collector.outcomes {
      VerdictHolds(cl, ss[j].collector, id);
    }
  }

  lemma VerdictHolds(cl: C.Limits, c: C.State, id: Id)
    requires CI.Inv(cl, c) && id in c.outcomes
    ensures id in c.submitted
    ensures c.outcomes[id] == C.Stored ==> id in c.store
    ensures CS.Dropped(c.outcomes[id]) ==> id !in c.store
  {
    hide CI.Placed, CI.Reserved, CI.Bounded, CI.StoreFits, CI.Refused, CI.Budgeted, CI.Counted;
    assert CI.Means(c.outcomes[id], c.tasks, c.store, id);
    if CS.Dropped(c.outcomes[id]) {
      CT.RefusedIsNotStored(c, id);
    }
  }

  /** The reason reported for a refused summary is never the default of an event that was offered twice. */
  lemma OffersAreNew(l: WorkLimits, cl: C.Limits, s: State, w: nat, payload: Option<nat>, now: real)
    requires C.ValidLimits(cl) && Reachable(l, cl, s) && w < |s.workers| && Unsettled(s.workers[w])
    ensures
      var job := s.workers[w].job;
      var event := C.Event(job.id, job.submitted);
      C.Accepts(cl, s.collector, event, payload, now)
      || C.Refusal(cl, s.collector, event, payload, now).Some?
  {
    hide Reachable, C.ValidLimits, CI.Inv;
    ReachableInv(l, cl, s);
    HeldIsNew(l, cl, s, w);
  }
}
