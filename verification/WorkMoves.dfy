/** What each step makes of each request: every move has its cause, and every cause its move. */
module WorkMoves {
  import opened Options
  import opened WorkModel
  import opened WorkInvariant
  import opened WorkSteps
  import opened WorkTheorems
  import C = CollectorModel
  import CI = CollectorInvariant

  // ----- causes -----

  /** The worker holds the request's job, unsettled. */
  predicate HeldBy(s: State, w: nat, id: Id)
  {
    w < |s.workers| && Unsettled(s.workers[w]) && s.workers[w].job.id == id
  }

  predicate Heads(s: State, id: Id)
  {
    s.queue != [] && s.queue[0].id == id
  }

  predicate TooOld(l: WorkLimits, s: State, now: real)
  {
    s.queue != [] && now - s.queue[0].submitted > l.maxAge
  }

  ghost predicate ComputationIs(s: State, w: nat, how: Cpu)
  {
    w < |s.workers| && Holds(s.workers[w]) && s.workers[w].future in s.cpus && s.cpus[s.workers[w].future] == how
  }

  /** There is no room for one more job of this size. */
  predicate Overflows(l: WorkLimits, s: State, size: nat)
  {
    s.jobs >= l.maxJobs || s.jobBytes + size > l.maxBytes
  }

  /** The step offers the request's summary to the collector. */
  ghost predicate Offers(s: State, a: Action, id: Id)
  {
    || (a.DoCompareEnds? && HeldBy(s, a.w, id) && ComputationIs(s, a.w, Succeeded) && a.next.Summarises?)
    || (a.DoDetailTimesOut? && HeldBy(s, a.w, id))
    || (a.DoDetailEnds? && HeldBy(s, a.w, id) && !ComputationIs(s, a.w, Abandoned))
  }

  /** The collector refuses the offered summary for a reason: the first test that fails. */
  ghost predicate OfferFails(cl: C.Limits, c: C.State, job: Job, payload: Option<nat>, now: real, r: Reason)
  {
    match r
    case Shutdown => c.closed
    case MaskingFailed => !c.closed && payload.None?
    case QueueFull => !c.closed && payload.Some? && Full(cl, c, payload.value)
    case QueueExpired => !c.closed && payload.Some? && !Full(cl, c, payload.value) && now - job.submitted >= cl.maxAge
    case _ => false
  }

  ghost predicate Full(cl: C.Limits, c: C.State, size: nat)
  {
    |c.pending| >= cl.maxEvents || c.bytes + size > cl.maxBytes
  }

  ghost predicate IsRefused(cl: C.Limits, s: State, a: Action, id: Id, r: Reason)
  {
    && Offers(s, a, id)
    && (var (payload, now) := if a.DoCompareEnds? then (a.next.payload, a.next.now) else (a.payload, a.now);
        OfferFails(cl, s.collector, s.workers[a.w].job, payload, now, r))
  }

  /** What each reason says of the request that is lost under it. */
  ghost predicate Explains(l: WorkLimits, cl: C.Limits, s: State, a: Action, id: Id, r: Reason)
  {
    || IsRefused(cl, s, a, id, r)
    || match r
       case Timeout => a.DoCompareTimesOut? && HeldBy(s, a.w, id)
       case QueueExpired => a.DoTake? && Heads(s, id) && TooOld(l, s, a.now)
       case QueueFull => a.DoFinalize? && a.id == id && a.size.Some? && s.open && Overflows(l, s, a.size.value)
       case Shutdown =>
         || (a.DoFinalize? && a.id == id && a.size.Some? && !s.open)
         || (a.DoDrain? && id in s.places && s.places[id] == Queued)
         || (a.DoCancel? && HeldBy(s, a.w, id))
         || ((a.DoCompareEnds? || a.DoDetailEnds?) && HeldBy(s, a.w, id) && ComputationIs(s, a.w, Abandoned))
       case ComparisonDropped =>
         || (a.DoFinalize? && a.id == id && a.size.None?)
         || (a.DoTake? && Heads(s, id) && !TooOld(l, s, a.now) && !a.started)
         || (a.DoCompareEnds? && HeldBy(s, a.w, id)
             && (ComputationIs(s, a.w, Failed) || (ComputationIs(s, a.w, Succeeded) && a.next.Raises?)))
       case _ => false
  }

  /** What the step makes of the request. */
  ghost predicate Becomes(l: WorkLimits, cl: C.Limits, s: State, a: Action, id: Id, p: Place)
  {
    match p
    case Lost(r) => Explains(l, cl, s, a, id, r)
    case Accepted => Offers(s, a, id) && forall r :: !IsRefused(cl, s, a, id, r)
    case Held => a.DoTake? && Heads(s, id) && !TooOld(l, s, a.now) && a.started
    case Queued => a.DoFinalize? && a.id == id && a.size.Some? && s.open && !Overflows(l, s, a.size.value)
    case Closing(shadow) =>
      || (a.DoRespond? && a.id == id && id in s.places && s.places[id] == Serving(shadow))
      || (a.DoShadowEnds? && a.id == id && id in s.places && s.places[id].Closing? && shadow == Ended)
    case Serving(shadow) =>
      || (a.DoSelect? && a.id == id && shadow == if s.slots < l.shadowSlots then Busy else NoSlot)
      || (a.DoShadowEnds? && a.id == id && id in s.places && s.places[id].Serving? && shadow == Ended)
  }

  /** The request was elsewhere before the step. */
  predicate Moves(places: map<Id, Place>, places': map<Id, Place>, id: Id, p: Place)
  {
    id in places' && places'[id] == p && !(id in places && places[id] == p)
  }

  // ----- one request at a time -----

  /** The step moves this one request there, and its causes say so. */
  ghost predicate MovesOne(l: WorkLimits, cl: C.Limits, s: State, a: Action, s': State, at: Id, to: Place)
  {
    && s'.places == s.places[at := to] && !(at in s.places && s.places[at] == to)
    && forall id, p :: Becomes(l, cl, s, a, id, p) <==> id == at && p == to
  }

  lemma OneIsExact(l: WorkLimits, cl: C.Limits, s: State, a: Action, s': State, at: Id, to: Place)
    requires MovesOne(l, cl, s, a, s', at, to)
    ensures forall id, p :: Moves(s.places, s'.places, id, p) <==> Becomes(l, cl, s, a, id, p)
  {
    hide Becomes;
  }

  lemma NoneIsExact(l: WorkLimits, cl: C.Limits, s: State, a: Action, s': State)
    requires s'.places == s.places && forall id, p :: !Becomes(l, cl, s, a, id, p)
    ensures forall id, p :: Moves(s.places, s'.places, id, p) <==> Becomes(l, cl, s, a, id, p)
  {
    hide Becomes;
  }

  lemma FinalizeMoves(l: WorkLimits, cl: C.Limits, s: State, a: Action) returns (to: Place)
    requires a.DoFinalize? && a.id in s.places && s.places[a.id].Closing?
    ensures MovesOne(l, cl, s, a, Finalize(l, s, a.id, a.size, a.now), a.id, to)
  {
    hide Becomes, Finalize, Overflows;
    to := if a.size.None? then Lost(ComparisonDropped)
          else if !s.open then Lost(Shutdown)
          else if Overflows(l, s, a.size.value) then Lost(QueueFull) else Queued;
    FinalizeBecomes(l, cl, s, a, to);
    FinalizePlaces(l, s, a, to);
  }

  lemma FinalizePlaces(l: WorkLimits, s: State, a: Action, to: Place)
    requires a.DoFinalize? && a.id in s.places
    requires to == if a.size.None? then Lost(ComparisonDropped)
                   else if !s.open then Lost(Shutdown)
                   else if Overflows(l, s, a.size.value) then Lost(QueueFull) else Queued
    ensures Finalize(l, s, a.id, a.size, a.now).places == s.places[a.id := to]
  {
  }

  lemma FinalizeBecomes(l: WorkLimits, cl: C.Limits, s: State, a: Action, to: Place)
    requires a.DoFinalize?
    requires to == if a.size.None? then Lost(ComparisonDropped)
                   else if !s.open then Lost(Shutdown)
                   else if Overflows(l, s, a.size.value) then Lost(QueueFull) else Queued
    ensures forall id, p :: Becomes(l, cl, s, a, id, p) <==> id == a.id && p == to
  {
    hide Overflows;
    forall id, p ensures Becomes(l, cl, s, a, id, p) <==> id == a.id && p == to {
      match p
      case Lost(r) => assert !IsRefused(cl, s, a, id, r);
      case _ =>
    }
  }

  lemma TakeMoves(l: WorkLimits, cl: C.Limits, s: State, a: Action) returns (to: Place)
    requires a.DoTake? && a.w < |s.workers| && s.queue != []
    requires s.queue[0].id in s.places && s.places[s.queue[0].id] == Queued
    ensures MovesOne(l, cl, s, a, Take(l, s, a.w, a.now, a.f, a.started), s.queue[0].id, to)
  {
    hide Becomes, Take;
    to := if TooOld(l, s, a.now) then Lost(QueueExpired) else if !a.started then Lost(ComparisonDropped) else Held;
    TakeBecomes(l, cl, s, a, to);
    TakePlaces(l, s, a, to);
  }

  lemma TakePlaces(l: WorkLimits, s: State, a: Action, to: Place)
    requires a.DoTake? && a.w < |s.workers| && s.queue != []
    requires to == if TooOld(l, s, a.now) then Lost(QueueExpired)
                   else if !a.started then Lost(ComparisonDropped) else Held
    ensures Take(l, s, a.w, a.now, a.f, a.started).places == s.places[s.queue[0].id := to]
  {
    var id := s.queue[0].id;
    assert s.places[id := Held][id := to] == s.places[id := to];
  }

  lemma TakeBecomes(l: WorkLimits, cl: C.Limits, s: State, a: Action, to: Place)
    requires a.DoTake? && s.queue != []
    requires to == if TooOld(l, s, a.now) then Lost(QueueExpired)
                   else if !a.started then Lost(ComparisonDropped) else Held
    ensures forall id, p :: Becomes(l, cl, s, a, id, p) <==> id == s.queue[0].id && p == to
  {
    hide TooOld;
    forall id, p ensures Becomes(l, cl, s, a, id, p) <==> id == s.queue[0].id && p == to {
      match p
      case Lost(r) => assert !IsRefused(cl, s, a, id, r);
      case _ =>
    }
  }

  /** Where an offered request goes. */
  lemma OfferMoves(cl: C.Limits, s: State, w: nat, payload: Option<nat>, now: real) returns (to: Place)
    requires w < |s.workers| && Holds(s.workers[w])
    requires
      var id := s.workers[w].job.id;
      id in s.places && s.places[id] == Held && id !in s.collector.submitted && id !in s.collector.pending
    ensures
      var job := s.workers[w].job;
      && Offer(cl, s, job, payload, now).places == s.places[job.id := to]
      && (to.Accepted? || to.Lost?)
      && (to.Accepted? <==> forall r :: !OfferFails(cl, s.collector, job, payload, now, r))
      && forall r :: to == Lost(r) <==> OfferFails(cl, s.collector, job, payload, now, r)
  {
    hide RefusalReason, C.Submit;
    var job := s.workers[w].job;
    var event := C.Event(job.id, job.submitted);
    to := Offer(cl, s, job, payload, now).places[job.id];
    if !C.Accepts(cl, s.collector, event, payload, now) {
      RefusalIsNamed(cl, s.collector, event, payload, now);
      assert OfferFails(cl, s.collector, job, payload, now, to.reason);
    }
  }

  lemma CompareMoves(l: WorkLimits, cl: C.Limits, s: State, a: Action)
    requires a.DoCompareEnds? && Awaits(s, a.w, false) && s.workers[a.w].Comparing? && Inv(l, cl, s)
    ensures forall id, p ::
              Moves(s.places, CompareEnds(cl, s, a.w, a.next).places, id, p) <==> Becomes(l, cl, s, a, id, p)
  {
    hide Inv, Offer, OfferFails, MovesOne, Becomes, Moves;
    var job, s' := s.workers[a.w].job, CompareEnds(cl, s, a.w, a.next);
    HeldIsNew(l, cl, s, a.w);
    match s.cpus[s.workers[a.w].future]
    case Failed =>
      CompareLoses(l, cl, s, a, ComparisonDropped);
      OneIsExact(l, cl, s, a, s', job.id, Lost(ComparisonDropped));
    case Abandoned =>
      CompareLoses(l, cl, s, a, Shutdown);
      OneIsExact(l, cl, s, a, s', job.id, Lost(Shutdown));
    case Succeeded =>
      match a.next {
        case Raises =>
          CompareLoses(l, cl, s, a, ComparisonDropped);
          OneIsExact(l, cl, s, a, s', job.id, Lost(ComparisonDropped));
        case Summarises(payload, now) =>
          var to := OfferMoves(cl, s, a.w, payload, now);
          OfferedMoves(l, cl, s, a, s', payload, now, to);
        case Details(f) =>
          DetailsMoveNothing(l, cl, s, a);
          NoneIsExact(l, cl, s, a, s');
      }
  }

  /** A comparison that fails, is abandoned or raises loses its request, and no other. */
  lemma CompareLoses(l: WorkLimits, cl: C.Limits, s: State, a: Action, r: Reason)
    requires a.DoCompareEnds? && Awaits(s, a.w, false) && s.workers[a.w].Comparing?
    requires s.workers[a.w].job.id in s.places && s.places[s.workers[a.w].job.id] == Held
    requires
      var how := s.cpus[s.workers[a.w].future];
      if how.Abandoned? then r == Shutdown
      else r == ComparisonDropped && (how.Failed? || (how.Succeeded? && a.next.Raises?))
    ensures MovesOne(l, cl, s, a, CompareEnds(cl, s, a.w, a.next), s.workers[a.w].job.id, Lost(r))
  {
    hide OfferFails, Offer;
    forall id, p ensures Becomes(l, cl, s, a, id, p) <==> id == s.workers[a.w].job.id && p == Lost(r) {
      assert !Offers(s, a, id);
    }
  }

  lemma DetailsMoveNothing(l: WorkLimits, cl: C.Limits, s: State, a: Action)
    requires a.DoCompareEnds? && Awaits(s, a.w, false) && s.workers[a.w].Comparing? && a.next.Details?
    requires s.cpus[s.workers[a.w].future].Succeeded?
    ensures CompareEnds(cl, s, a.w, a.next).places == s.places && forall id, p :: !Becomes(l, cl, s, a, id, p)
  {
    hide OfferFails, Offer;
  }

  /** An offered request is accepted, or lost under the one reason that the collector refuses it for. */
  lemma OfferedMoves(
    l: WorkLimits, cl: C.Limits, s: State, a: Action, s': State, payload: Option<nat>, now: real, to: Place)
    requires a.DoCompareEnds? || a.DoDetailTimesOut? || a.DoDetailEnds?
    requires a.w < |s.workers| && Unsettled(s.workers[a.w]) && Offers(s, a, s.workers[a.w].job.id)
    requires s.workers[a.w].job.id in s.places && s.places[s.workers[a.w].job.id] == Held
    requires if a.DoCompareEnds? then a.next == Summarises(payload, now) else a.payload == payload && a.now == now
    requires
      var job := s.workers[a.w].job;
      && s'.places == s.places[job.id := to]
      && (to.Accepted? || to.Lost?)
      && (to.Accepted? <==> forall r :: !OfferFails(cl, s.collector, job, payload, now, r))
      && forall r :: to == Lost(r) <==> OfferFails(cl, s.collector, job, payload, now, r)
    ensures forall id, p :: Moves(s.places, s'.places, id, p) <==> Becomes(l, cl, s, a, id, p)
  {
    hide OfferFails;
    var at := s.workers[a.w].job.id;
    forall id, r ensures IsRefused(cl, s, a, id, r) <==> id == at && to == Lost(r) {
    }
    forall id, r ensures Explains(l, cl, s, a, id, r) <==> IsRefused(cl, s, a, id, r) {
    }
    hide IsRefused, Explains;
    forall id, p ensures Becomes(l, cl, s, a, id, p) <==> id == at && p == to {
      if p.Accepted? && id == at && to.Lost? {
        assert IsRefused(cl, s, a, id, to.reason);
      }
    }
    OneIsExact(l, cl, s, a, s', at, to);
  }

  lemma DetailEndsMoves(l: WorkLimits, cl: C.Limits, s: State, a: Action)
    requires a.DoDetailEnds? && Awaits(s, a.w, false) && s.workers[a.w].Detailing? && Inv(l, cl, s)
    ensures forall id, p ::
              Moves(s.places, DetailEnds(cl, s, a.w, a.payload, a.now).places, id, p) <==> Becomes(l, cl, s, a, id, p)
  {
    hide Inv, Offer, OfferFails, MovesOne, Becomes, Moves;
    var job, s' := s.workers[a.w].job, DetailEnds(cl, s, a.w, a.payload, a.now);
    HeldIsNew(l, cl, s, a.w);
    if s.cpus[s.workers[a.w].future].Abandoned? {
      DetailLoses(l, cl, s, a);
      OneIsExact(l, cl, s, a, s', job.id, Lost(Shutdown));
    } else {
      var to := OfferMoves(cl, s, a.w, a.payload, a.now);
      OfferedMoves(l, cl, s, a, s', a.payload, a.now, to);
    }
  }

  lemma DetailLoses(l: WorkLimits, cl: C.Limits, s: State, a: Action)
    requires a.DoDetailEnds? && Awaits(s, a.w, false) && s.workers[a.w].Detailing?
    requires s.cpus[s.workers[a.w].future].Abandoned?
    requires s.workers[a.w].job.id in s.places && s.places[s.workers[a.w].job.id] == Held
    ensures MovesOne(l, cl, s, a, DetailEnds(cl, s, a.w, a.payload, a.now), s.workers[a.w].job.id, Lost(Shutdown))
  {
    hide OfferFails, Offer;
    forall id, p ensures Becomes(l, cl, s, a, id, p) <==> id == s.workers[a.w].job.id && p == Lost(Shutdown) {
      assert !Offers(s, a, id);
    }
  }

  lemma DetailTimesOutMoves(l: WorkLimits, cl: C.Limits, s: State, a: Action)
    requires a.DoDetailTimesOut? && Awaits(s, a.w, true) && s.workers[a.w].Detailing? && Inv(l, cl, s)
    ensures forall id, p ::
              Moves(s.places, DetailTimesOut(cl, s, a.w, a.payload, a.now).places, id, p) <==> Becomes(l, cl, s, a, id, p)
  {
    hide Inv, Offer, OfferFails, Becomes, Moves;
    HeldIsNew(l, cl, s, a.w);
    var to := OfferMoves(cl, s, a.w, a.payload, a.now);
    OfferedMoves(l, cl, s, a, DetailTimesOut(cl, s, a.w, a.payload, a.now), a.payload, a.now, to);
  }

  lemma TimeOutMoves(l: WorkLimits, cl: C.Limits, s: State, a: Action)
    requires a.DoCompareTimesOut? && Awaits(s, a.w, true) && s.workers[a.w].Comparing?
    requires s.workers[a.w].job.id in s.places && s.places[s.workers[a.w].job.id] == Held
    ensures MovesOne(l, cl, s, a, CompareTimesOut(s, a.w), s.workers[a.w].job.id, Lost(Timeout))
  {
    hide OfferFails;
    forall id, p ensures Becomes(l, cl, s, a, id, p) <==> id == s.workers[a.w].job.id && p == Lost(Timeout) {
      assert !Offers(s, a, id);
    }
  }

  /** Cancelling a worker loses the request that it holds unsettled, if there is one. */
  lemma CancelMoves(l: WorkLimits, cl: C.Limits, s: State, a: Action)
    requires a.DoCancel? && CanCancel(s, a.w) && Inv(l, cl, s)
    ensures forall id, p :: Moves(s.places, Cancel(s, a.w).places, id, p) <==> Becomes(l, cl, s, a, id, p)
  {
    hide Inv, OfferFails;
    if Unsettled(s.workers[a.w]) {
      HeldIsNew(l, cl, s, a.w);
    }
  }

  lemma {:induction false} DrainMoves(l: WorkLimits, cl: C.Limits, s: State)
    requires Inv(l, cl, s)
    ensures forall id :: id in Drain(s).places <==> id in s.places
    ensures forall id :: id in s.places ==>
              Drain(s).places[id] == if s.places[id] == Queued then Lost(Shutdown) else s.places[id]
    decreases |s.queue|
  {
    hide Inv;
    if s.queue != [] {
      HeadIsQueued(l, cl, s);
      HeadLost(l, cl, s, Shutdown);
      DrainMoves(l, cl, DropHead(s, Shutdown));
      HeadMoves(s);
      hide DropHead;
    } else {
      NothingQueued(l, cl, s);
    }
  }

  lemma HeadMoves(s: State)
    requires s.queue != []
    ensures DropHead(s, Shutdown).places == s.places[s.queue[0].id := Lost(Shutdown)]
  {
  }

  lemma NothingQueued(l: WorkLimits, cl: C.Limits, s: State)
    requires Inv(l, cl, s) && s.queue == []
    ensures forall id :: id in s.places ==> s.places[id] != Queued
  {
    hide CI.Inv, CpusFit, SlotsFit, LossesFit, Accounted, WorkersPlaced, AcceptedFit, Noticed;
  }

  lemma DrainBecomes(l: WorkLimits, cl: C.Limits, s: State)
    requires Inv(l, cl, s)
    ensures forall id, p :: Moves(s.places, Drain(s).places, id, p) <==> Becomes(l, cl, s, DoDrain, id, p)
  {
    hide Inv, Drain, OfferFails;
    DrainMoves(l, cl, s);
  }

  lemma PairMoves(l: WorkLimits, cl: C.Limits, s: State, a: Action)
    requires (a.DoSelect? || a.DoShadowEnds? || a.DoRespond?) && Enabled(cl, s, a)
    ensures forall id, p :: Moves(s.places, Apply(l, cl, s, a).places, id, p) <==> Becomes(l, cl, s, a, id, p)
  {
    hide OfferFails;
  }

  lemma OthersMoveNothing(l: WorkLimits, cl: C.Limits, s: State, a: Action)
    requires (a.DoWaitEnds? || a.DoCpuEnds? || a.DoClose? || a.DoCollect?) && Enabled(cl, s, a)
    ensures Apply(l, cl, s, a).places == s.places && forall id, p :: !Becomes(l, cl, s, a, id, p)
  {
    hide OfferFails, C.Enabled, C.Apply, CallAll;
  }

  /**
   In every reachable state, each step moves a request to a place exactly when that place's cause holds of
   that very request: a loss under each reason, acceptance by the collector, the queue, a worker's hands.
   */
  lemma StepMovesExactly(l: WorkLimits, cl: C.Limits, s: State, a: Action, id: Id, p: Place)
    requires C.ValidLimits(cl) && Reachable(l, cl, s) && Enabled(cl, s, a)
    ensures Moves(s.places, Apply(l, cl, s, a).places, id, p) <==> Becomes(l, cl, s, a, id, p)
  {
    hide Reachable, C.ValidLimits, Inv, Offer, Drain, C.Enabled, C.Apply, HasRoom, Take, Finalize, CompareEnds,
      DetailTimesOut, DetailEnds, Cancel, Collect, CompareTimesOut, Becomes, Moves;
    ReachableInv(l, cl, s);
    match a
    case DoFinalize(at, size, now) =>
      var to := FinalizeMoves(l, cl, s, a);
      OneIsExact(l, cl, s, a, Apply(l, cl, s, a), at, to);
    case DoTake(w, now, f, started) =>
      HeadIsQueued(l, cl, s);
      var to := TakeMoves(l, cl, s, a);
      OneIsExact(l, cl, s, a, Apply(l, cl, s, a), s.queue[0].id, to);
    case DoCompareEnds(_, _) => CompareMoves(l, cl, s, a);
    case DoDetailTimesOut(_, _, _) => DetailTimesOutMoves(l, cl, s, a);
    case DoDetailEnds(_, _, _) => DetailEndsMoves(l, cl, s, a);
    case DoCompareTimesOut(w) =>
      HeldIsNew(l, cl, s, w);
      TimeOutMoves(l, cl, s, a);
      OneIsExact(l, cl, s, a, Apply(l, cl, s, a), s.workers[w].job.id, Lost(Timeout));
    case DoCancel(_) => CancelMoves(l, cl, s, a);
    case DoDrain => DrainBecomes(l, cl, s);
    case DoSelect(_) => PairMoves(l, cl, s, a);
    case DoShadowEnds(_) => PairMoves(l, cl, s, a);
    case DoRespond(_) => PairMoves(l, cl, s, a);
    case _ =>
      OthersMoveNothing(l, cl, s, a);
      NoneIsExact(l, cl, s, a, Apply(l, cl, s, a));
  }

  // ----- the queue -----

  /** Jobs join at the back when their pair is handed over and leave at the front when a worker takes them. */
  ghost predicate FirstInFirstOut(s: State, a: Action, s': State)
  {
    match a
    case DoFinalize(id, size, now) =>
      s'.queue ==
        if id in s'.places && s'.places[id] == Queued && size.Some? then s.queue + [Job(id, size.value, now)]
        else s.queue
    case DoTake(w, _, f, _) =>
      && s.queue != [] && s'.queue == s.queue[1..] && w < |s'.workers|
      && (Unsettled(s'.workers[w]) ==> s'.workers[w] == Comparing(s.queue[0], f))
    case DoDrain => s'.queue == []
    case _ => s'.queue == s.queue
  }

  lemma {:induction false} DrainEmpties(s: State)
    ensures Drain(s).queue == []
    decreases |s.queue|
  {
    if s.queue != [] {
      DrainEmpties(DropHead(s, Shutdown));
    }
  }

  lemma FinalizeQueues(l: WorkLimits, s: State, a: Action)
    requires a.DoFinalize? && a.id in s.places && s.places[a.id].Closing?
    ensures FirstInFirstOut(s, a, Finalize(l, s, a.id, a.size, a.now))
  {
  }

  lemma TakeDequeues(l: WorkLimits, s: State, a: Action)
    requires a.DoTake? && a.w < |s.workers| && s.workers[a.w].Idle? && s.queue != []
    ensures FirstInFirstOut(s, a, Take(l, s, a.w, a.now, a.f, a.started))
  {
  }

  lemma CancelKeepsQueue(s: State, w: nat)
    requires CanCancel(s, w)
    ensures Cancel(s, w).queue == s.queue
  {
  }

  lemma WorkerKeepsQueue(cl: C.Limits, s: State, a: Action)
    requires a.DoCompareEnds? || a.DoDetailEnds? || a.DoDetailTimesOut? || a.DoCompareTimesOut? || a.DoWaitEnds?
    requires Enabled(cl, s, a)
    ensures a.DoCompareEnds? ==> CompareEnds(cl, s, a.w, a.next).queue == s.queue
    ensures a.DoDetailEnds? ==> DetailEnds(cl, s, a.w, a.payload, a.now).queue == s.queue
    ensures a.DoDetailTimesOut? ==> DetailTimesOut(cl, s, a.w, a.payload, a.now).queue == s.queue
    ensures a.DoCompareTimesOut? ==> CompareTimesOut(s, a.w).queue == s.queue
    ensures a.DoWaitEnds? ==> WaitEnds(s, a.w).queue == s.queue
  {
    hide Offer;
  }

  /** The queue is first in, first out. */
  lemma QueueIsFair(l: WorkLimits, cl: C.Limits, s: State, a: Action)
    requires Enabled(cl, s, a)
    ensures FirstInFirstOut(s, a, Apply(l, cl, s, a))
  {
    hide C.Enabled, C.Apply, CallAll, HasRoom, Offer, Take, CompareEnds, DetailEnds, DetailTimesOut, CompareTimesOut,
      WaitEnds, Cancel, Drain, Finalize;
    match a
    case DoFinalize(_, _, _) => FinalizeQueues(l, s, a);
    case DoTake(_, _, _, _) => TakeDequeues(l, s, a);
    case DoCancel(w) => CancelKeepsQueue(s, w);
    case DoDrain => DrainEmpties(s);
    case DoCompareEnds(_, _) => WorkerKeepsQueue(cl, s, a);
    case DoDetailEnds(_, _, _) => WorkerKeepsQueue(cl, s, a);
    case DoDetailTimesOut(_, _, _) => WorkerKeepsQueue(cl, s, a);
    case DoCompareTimesOut(_) => WorkerKeepsQueue(cl, s, a);
    case DoWaitEnds(_) => WorkerKeepsQueue(cl, s, a);
    case _ =>
  }

  // ----- who leaves -----

  /** Every worker is at work and every computation runs its course. */
  predicate AllAtWork(s: State)
  {
    && (forall w :: 0 <= w < |s.workers| ==> !s.workers[w].Gone? && !s.workers[w].Leaving?)
    && (forall f :: f in s.cpus ==> !s.cpus[f].Abandoned?)
  }

  /** A step that sends nobody away: no worker is cancelled, and the pool is not shut down. */
  predicate SendsNobodyAway(a: Action)
  {
    !a.DoCancel? && (a.DoCpuEnds? ==> !a.how.Abandoned?)
  }

  lemma OneAtWork(s: State, s': State, w: nat, frame: Worker)
    requires AllAtWork(s) && w < |s.workers| && s'.workers == s.workers[w := frame] && !frame.Gone? && !frame.Leaving?
    requires forall f :: f in s'.cpus ==> !s'.cpus[f].Abandoned?
    ensures AllAtWork(s')
  {
  }

  lemma TakeAtWork(l: WorkLimits, s: State, a: Action)
    requires AllAtWork(s) && a.DoTake? && a.w < |s.workers| && s.queue != []
    ensures AllAtWork(Take(l, s, a.w, a.now, a.f, a.started))
  {
    hide AllAtWork;
    var s' := Take(l, s, a.w, a.now, a.f, a.started);
    assert s'.workers == s.workers[a.w := s'.workers[a.w]];
    CpusAtWork(s);
    OneAtWork(s, s', a.w, s'.workers[a.w]);
  }

  lemma CpusAtWork(s: State)
    requires AllAtWork(s)
    ensures forall f :: f in s.cpus ==> !s.cpus[f].Abandoned?
    ensures forall w :: 0 <= w < |s.workers| ==> !s.workers[w].Gone? && !s.workers[w].Leaving?
  {
  }

  lemma CompareAtWork(cl: C.Limits, s: State, a: Action)
    requires AllAtWork(s) && a.DoCompareEnds? && Awaits(s, a.w, false) && s.workers[a.w].Comparing?
    ensures AllAtWork(CompareEnds(cl, s, a.w, a.next))
  {
    hide AllAtWork, Offer;
    var s' := CompareEnds(cl, s, a.w, a.next);
    CpusAtWork(s);
    OneAtWork(s, s', a.w, s'.workers[a.w]);
  }

  lemma DetailAtWork(cl: C.Limits, s: State, a: Action)
    requires a.DoDetailEnds? || a.DoDetailTimesOut?
    requires AllAtWork(s) && a.w < |s.workers| && s.workers[a.w].Detailing? && s.workers[a.w].future in s.cpus
    ensures a.DoDetailEnds? ==> AllAtWork(DetailEnds(cl, s, a.w, a.payload, a.now))
    ensures a.DoDetailTimesOut? ==> AllAtWork(DetailTimesOut(cl, s, a.w, a.payload, a.now))
  {
    hide AllAtWork, Offer;
    CpusAtWork(s);
    if a.DoDetailEnds? {
      var s' := DetailEnds(cl, s, a.w, a.payload, a.now);
      OneAtWork(s, s', a.w, s'.workers[a.w]);
    } else {
      var s' := DetailTimesOut(cl, s, a.w, a.payload, a.now);
      OneAtWork(s, s', a.w, s'.workers[a.w]);
    }
  }

  lemma HeldAtWork(s: State, w: nat)
    requires AllAtWork(s) && w < |s.workers| && Holds(s.workers[w]) && s.workers[w].future in s.cpus
    ensures AllAtWork(CompareTimesOut(s, w)) && AllAtWork(WaitEnds(s, w))
  {
    hide AllAtWork;
    CpusAtWork(s);
    OneAtWork(s, CompareTimesOut(s, w), w, CompareTimesOut(s, w).workers[w]);
    OneAtWork(s, WaitEnds(s, w), w, WaitEnds(s, w).workers[w]);
  }

  lemma SameAtWork(s: State, s': State)
    requires AllAtWork(s) && s'.workers == s.workers && s'.cpus == s.cpus
    ensures AllAtWork(s')
  {
  }

  predicate NoWorkersStep(a: Action)
  {
    a.DoSelect? || a.DoShadowEnds? || a.DoRespond? || a.DoFinalize? || a.DoClose? || a.DoCollect?
  }

  lemma LeavesWorkers(l: WorkLimits, cl: C.Limits, s: State, a: Action)
    requires NoWorkersStep(a) && Enabled(cl, s, a)
    ensures Apply(l, cl, s, a).workers == s.workers && Apply(l, cl, s, a).cpus == s.cpus
  {
    hide C.Enabled, C.Apply, CallAll, HasRoom, Finalize, Take, CompareEnds, DetailEnds, DetailTimesOut, CompareTimesOut,
      WaitEnds, Cancel, Drain;
    match a
    case DoFinalize(id, size, now) => FinalizeLeavesWorkers(l, s, id, size, now);
    case _ =>
  }

  lemma FinalizeLeavesWorkers(l: WorkLimits, s: State, id: Id, size: Option<nat>, now: real)
    requires id in s.places
    ensures
      var s' := Finalize(l, s, id, size, now);
      s'.workers == s.workers && s'.cpus == s.cpus
  {
    hide HasRoom;
  }

  lemma WorkerStaysAtWork(l: WorkLimits, cl: C.Limits, s: State, a: Action)
    requires AllAtWork(s) && SendsNobodyAway(a) && !NoWorkersStep(a) && !a.DoDrain? && !a.DoCpuEnds?
    requires Enabled(cl, s, a)
    ensures AllAtWork(Apply(l, cl, s, a))
  {
    hide AllAtWork, Offer, C.Enabled, C.Apply, Take, CompareEnds, DetailEnds, DetailTimesOut, CompareTimesOut, WaitEnds,
      Cancel, Drain, Finalize, Select, Collect;
    match a
    case DoTake(_, _, _, _) => TakeAtWork(l, s, a);
    case DoCompareEnds(_, _) => CompareAtWork(cl, s, a);
    case DoDetailEnds(_, _, _) => DetailAtWork(cl, s, a);
    case DoDetailTimesOut(_, _, _) => DetailAtWork(cl, s, a);
    case DoCompareTimesOut(w) => HeldAtWork(s, w);
    case DoWaitEnds(w) => HeldAtWork(s, w);
  }

  lemma StaysAtWork(l: WorkLimits, cl: C.Limits, s: State, a: Action)
    requires AllAtWork(s) && SendsNobodyAway(a) && Enabled(cl, s, a)
    ensures AllAtWork(Apply(l, cl, s, a))
  {
    hide AllAtWork, Drain, Enabled;
    if NoWorkersStep(a) {
      LeavesWorkers(l, cl, s, a);
      hide Apply;
      SameAtWork(s, Apply(l, cl, s, a));
    } else if a.DoDrain? {
      DrainKeepsWorkers(s);
      SameAtWork(s, Drain(s));
    } else if a.DoCpuEnds? {
      CpuAtWork(s, a.f, a.how);
    } else {
      hide Apply;
      WorkerStaysAtWork(l, cl, s, a);
    }
  }

  lemma CpuAtWork(s: State, f: FutureId, how: Cpu)
    requires AllAtWork(s) && !how.Abandoned?
    ensures AllAtWork(s.(cpus := s.cpus[f := how]))
  {
  }

  lemma {:induction false} DrainKeepsWorkers(s: State)
    ensures Drain(s).workers == s.workers && Drain(s).cpus == s.cpus
    decreases |s.queue|
  {
    if s.queue != [] {
      DrainKeepsWorkers(DropHead(s, Shutdown));
    }
  }

  /** No worker is ever lost to a failure, a timeout or a late answer: only cancellation sends one away. */
  lemma {:induction false} WorkersStayAtWork(
    l: WorkLimits, cl: C.Limits, ss: seq<State>, actions: seq<Action>, i: nat)
    requires Run(l, cl, ss, actions) && i < |ss| && forall k :: 0 <= k < i ==> SendsNobodyAway(actions[k])
    ensures AllAtWork(ss[i])
  {
    hide Enabled, Apply;
    if i > 0 {
      WorkersStayAtWork(l, cl, ss, actions, i - 1);
      StaysAtWork(l, cl, ss[i - 1], actions[i - 1]);
    }
  }
}
