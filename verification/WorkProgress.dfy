/** The whole pipeline makes progress: its workers' steps are bounded, no job is stuck, and close can always come to rest. */
module WorkProgress {
  import opened Options
  import opened Totals
  import opened WorkModel
  import opened WorkInvariant
  import opened WorkSteps
  import opened WorkTheorems
  import C = CollectorModel
  import CT = CollectorTheorems
  import CP = CollectorProgress
  import CI = CollectorInvariant

  /** The steps of the workers; cancelling one that is leaving already is no step. */
  predicate WorkerStep(s: State, a: Action)
  {
    || a.DoTake? || a.DoCompareTimesOut? || a.DoCompareEnds? || a.DoDetailTimesOut? || a.DoDetailEnds? || a.DoWaitEnds?
    || (a.DoCancel? && a.w < |s.workers| && !s.workers[a.w].Leaving?)
  }

  /** How many steps a worker has before it at most, as it stands. */
  function StepsLeft(w: Worker): nat
  {
    match w
    case Gone => 0
    case Idle => 1
    case Leaving(_, _) => 2
    case TimedOut(_, _) => 3
    case Delivered(_, _) => 3
    case Detailing(_, _) => 4
    case Comparing(_, _) => 5
  }

  function AllStepsLeft(ws: seq<Worker>): nat
  {
    if ws == [] then 0 else AllStepsLeft(ws[..|ws| - 1]) + StepsLeft(ws[|ws| - 1])
  }

  /** The jobs still queued and the steps that the workers have before them. */
  function Rank(s: State): nat
  {
    6 * |s.queue| + AllStepsLeft(s.workers)
  }

  lemma {:induction false} OneWorker(ws: seq<Worker>, i: nat, w: Worker)
    requires i < |ws|
    ensures AllStepsLeft(ws[i := w]) == AllStepsLeft(ws) - StepsLeft(ws[i]) + StepsLeft(w)
    decreases |ws|
  {
    var n := |ws| - 1;
    if i < n {
      assert ws[i := w][..n] == ws[..n][i := w];
      OneWorker(ws[..n], i, w);
    } else {
      assert ws[i := w][..n] == ws[..n];
    }
  }

  lemma TakeRank(l: WorkLimits, s: State, w: nat, now: real, f: FutureId, started: bool)
    requires w < |s.workers| && s.workers[w].Idle? && s.queue != []
    ensures Rank(Take(l, s, w, now, f, started)) < Rank(s)
  {
    hide AllStepsLeft;
    var s' := Take(l, s, w, now, f, started);
    assert s'.workers == s.workers[w := s'.workers[w]];
    OneWorker(s.workers, w, s'.workers[w]);
  }

  lemma CompareEndsRank(cl: C.Limits, s: State, w: nat, next: Next)
    requires w < |s.workers| && s.workers[w].Comparing? && s.workers[w].future in s.cpus
    ensures Rank(CompareEnds(cl, s, w, next)) < Rank(s)
  {
    hide AllStepsLeft, Offer;
    var s' := CompareEnds(cl, s, w, next);
    assert s'.workers == s.workers[w := s'.workers[w]] && s'.queue == s.queue;
    OneWorker(s.workers, w, s'.workers[w]);
  }

  lemma DetailRank(cl: C.Limits, s: State, w: nat, payload: Option<nat>, now: real)
    requires w < |s.workers| && s.workers[w].Detailing? && s.workers[w].future in s.cpus
    ensures Rank(DetailEnds(cl, s, w, payload, now)) < Rank(s)
    ensures Rank(DetailTimesOut(cl, s, w, payload, now)) < Rank(s)
  {
    hide AllStepsLeft, Offer;
    var s' := DetailEnds(cl, s, w, payload, now);
    assert s'.workers == s.workers[w := s'.workers[w]];
    OneWorker(s.workers, w, s'.workers[w]);
    OneWorker(s.workers, w, Delivered(s.workers[w].job, s.workers[w].future));
  }

  lemma TimeOutAndWaitRank(s: State, w: nat)
    requires w < |s.workers| && Holds(s.workers[w]) && s.workers[w].future in s.cpus
    ensures s.workers[w].Comparing? ==> Rank(CompareTimesOut(s, w)) < Rank(s)
    ensures !Unsettled(s.workers[w]) ==> Rank(WaitEnds(s, w)) < Rank(s)
  {
    hide AllStepsLeft;
    var s' := WaitEnds(s, w);
    OneWorker(s.workers, w, TimedOut(s.workers[w].job, s.workers[w].future));
    OneWorker(s.workers, w, s'.workers[w]);
  }

  lemma CancelRank(s: State, w: nat)
    requires CanCancel(s, w)
    ensures Rank(Cancel(s, w)) <= Rank(s) && (!s.workers[w].Leaving? ==> Rank(Cancel(s, w)) < Rank(s))
  {
    hide AllStepsLeft, Cancel;
    var frame := Cancelled(s, w);
    OneWorker(s.workers, w, frame);
  }

  /** Cancelling changes the worker's own frame only, to that of a worker that is leaving or gone. */
  lemma Cancelled(s: State, w: nat) returns (frame: Worker)
    requires CanCancel(s, w)
    ensures Cancel(s, w).workers == s.workers[w := frame] && Cancel(s, w).queue == s.queue
    ensures frame.Gone? || (frame.Leaving? && Holds(s.workers[w]))
  {
    frame := Cancel(s, w).workers[w];
  }

  lemma {:induction false} DrainRank(s: State)
    ensures Rank(Drain(s)) <= Rank(s) && (s.queue != [] ==> Rank(Drain(s)) < Rank(s))
    decreases |s.queue|
  {
    if s.queue != [] {
      DrainRank(DropHead(s, Shutdown));
    }
  }

  /** A worker's step lowers the rank; only the end of a pair raises it, by what one job is worth. */
  lemma StepMovesRank(l: WorkLimits, cl: C.Limits, s: State, a: Action)
    requires Enabled(cl, s, a)
    ensures Rank(Apply(l, cl, s, a)) + (if WorkerStep(s, a) then 1 else 0) <= Rank(s) + (if a.DoFinalize? then 6 else 0)
  {
    hide AllStepsLeft, Offer, Take, CompareEnds, DetailEnds, DetailTimesOut, CompareTimesOut, WaitEnds, Cancel, Drain,
      C.Enabled, C.Apply, CallAll, HasRoom;
    match a
    case DoTake(w, now, f, started) => TakeRank(l, s, w, now, f, started);
    case DoCompareTimesOut(w) => TimeOutAndWaitRank(s, w);
    case DoCompareEnds(w, next) => CompareEndsRank(cl, s, w, next);
    case DoDetailTimesOut(w, payload, now) => DetailRank(cl, s, w, payload, now);
    case DoDetailEnds(w, payload, now) => DetailRank(cl, s, w, payload, now);
    case DoWaitEnds(w) => TimeOutAndWaitRank(s, w);
    case DoCancel(w) => CancelRank(s, w);
    case DoDrain => DrainRank(s);
    case _ =>
  }

  function WorkerSteps(ss: seq<State>, actions: seq<Action>): nat
    requires |ss| >= |actions|
  {
    if actions == [] then 0
    else
      var n := |actions| - 1;
      WorkerSteps(ss[..n], actions[..n]) + (if WorkerStep(ss[n], actions[n]) then 1 else 0)
  }

  function Finalized(actions: seq<Action>): nat
  {
    if actions == [] then 0
    else Finalized(actions[..|actions| - 1]) + (if actions[|actions| - 1].DoFinalize? then 1 else 0)
  }

  /** In every run the workers make at most six steps for each finalized pair, and one more each to leave. */
  lemma {:induction false} WorkerStepsAreBounded(
    l: WorkLimits, cl: C.Limits, ss: seq<State>, actions: seq<Action>, i: nat)
    requires Run(l, cl, ss, actions) && i < |ss|
    ensures WorkerSteps(ss[..i], actions[..i]) + Rank(ss[i]) <= l.workers + 6 * Finalized(actions[..i])
  {
    hide Enabled, Apply, Rank, WorkerStep;
    if i == 0 {
      AtTheStart(l);
    } else {
      WorkerStepsAreBounded(l, cl, ss, actions, i - 1);
      StepMovesRank(l, cl, ss[i - 1], actions[i - 1]);
      assert actions[..i][..i - 1] == actions[..i - 1] && ss[..i][..i - 1] == ss[..i - 1];
    }
  }

  lemma {:induction false} IdleSteps(n: nat)
    ensures AllStepsLeft(seq(n, _ => Idle)) == n
  {
    if n > 0 {
      IdleSteps(n - 1);
      assert seq(n, _ => Idle)[..n - 1] == seq(n - 1, _ => Idle);
    }
  }

  lemma AtTheStart(l: WorkLimits)
    ensures Rank(Started(l)) == l.workers
  {
    IdleSteps(l.workers);
  }

  /** Nothing raises: neither the end of a pair, nor a computation, nor what a worker makes of it. */
  predicate Ordinary(a: Action)
  {
    && (a.DoFinalize? ==> a.size.Some?) && (a.DoTake? ==> a.started)
    && (a.DoCpuEnds? ==> a.how.Succeeded?) && (a.DoCompareEnds? ==> !a.next.Raises?)
  }

  /** No job is stuck: a worker can move, its computation can end, or a closed pipeline can drop what is queued. */
  lemma JobsAreNeverStuck(l: WorkLimits, cl: C.Limits, s: State)
    requires C.ValidLimits(cl) && Reachable(l, cl, s)
    requires s.queue != [] || exists w :: 0 <= w < |s.workers| && Holds(s.workers[w])
    requires s.open ==> exists w :: 0 <= w < |s.workers| && !s.workers[w].Gone?
    ensures exists a :: Enabled(cl, s, a) && Ordinary(a)
                        && ((WorkerStep(s, a) && !a.DoCancel?) || a.DoCpuEnds? || (a.DoDrain? && s.queue != []))
  {
    hide Reachable, C.ValidLimits, Inv, C.Enabled;
    ReachableInv(l, cl, s);
    if w :| 0 <= w < |s.workers| && Holds(s.workers[w]) {
      HolderCanMove(l, cl, s, w);
    } else if !s.open {
      assert Enabled(cl, s, DoDrain);
    } else {
      var w :| 0 <= w < |s.workers| && !s.workers[w].Gone?;
      var f := CT.FreshTask(s.cpus.Keys);
      assert Enabled(cl, s, DoTake(w, 0.0, f, true));
    }
  }

  lemma HolderCanMove(l: WorkLimits, cl: C.Limits, s: State, w: nat)
    requires w < |s.workers| && Holds(s.workers[w]) && Inv(l, cl, s)
    ensures exists a :: Enabled(cl, s, a) && Ordinary(a) && ((WorkerStep(s, a) && !a.DoCancel?) || a.DoCpuEnds?)
  {
    hide C.Enabled, Inv;
    HolderHasItsFuture(l, cl, s, w);
    if s.cpus[s.workers[w].future].Computing? {
      assert Enabled(cl, s, DoCpuEnds(s.workers[w].future, Succeeded));
    } else if s.workers[w].Comparing? {
      assert Enabled(cl, s, DoCompareEnds(w, Summarises(Some(0), 0.0)));
    } else if s.workers[w].Detailing? {
      assert Enabled(cl, s, DoDetailEnds(w, Some(0), 0.0));
    } else {
      assert Enabled(cl, s, DoWaitEnds(w));
    }
  }

  lemma HolderHasItsFuture(l: WorkLimits, cl: C.Limits, s: State, w: nat)
    requires w < |s.workers| && Holds(s.workers[w]) && Inv(l, cl, s)
    ensures s.workers[w].future in s.cpus
  {
    hide Accounted, QueuePlaced, WorkersPlaced, SlotsFit, LossesFit, AcceptedFit, Noticed;
  }

  // ----- close can always come to rest -----

  /** The pairs that have not been finalized, those still serving, and those whose shadow is under way. */
  ghost function OpenPairs(places: map<Id, Place>): set<Id>
  {
    set id | id in places && (places[id].Serving? || places[id].Closing?)
  }

  ghost function ServingPairs(places: map<Id, Place>): set<Id>
  {
    set id | id in places && places[id].Serving?
  }

  ghost function BusyPairs(places: map<Id, Place>): set<Id>
  {
    set id | id in places && HasSlot(places[id]) && places[id].shadow.Busy?
  }

  /**
   A step that brings a closing pipeline forward by itself: no new request, no exception, and no
   cancellation except where the store has cancelled the write that the collector's worker waits for.
   */
  ghost predicate Unforced(s: State, a: Action)
  {
    Ordinary(a) && Onward(s, a)
  }

  ghost predicate Onward(s: State, a: Action)
  {
    || a.DoShadowEnds? || a.DoRespond? || a.DoFinalize?
    || (WorkerStep(s, a) && !a.DoCancel?) || a.DoCpuEnds? || a.DoClose? || a.DoDrain?
    || (a.DoCollect? && (CP.WorkerStep(a.action) || a.action.DoWriteDone?)
        && (a.action.DoCancel? ==> CT.WriteWasCancelled(s.collector)))
  }

  ghost predicate AtRest(s: State)
  {
    Quiet(s) && s.collector.worker.Absent?
  }

  /** Everything before the collector that is left to do, gravest first. */
  ghost predicate Nearer(s: State, s': State)
  {
    var (a, a') := (|OpenPairs(s.places)|, |OpenPairs(s'.places)|);
    var (b, b') := (|ServingPairs(s.places)|, |ServingPairs(s'.places)|);
    var (c, c') := (|BusyPairs(s.places)|, |BusyPairs(s'.places)|);
    var (d, d') := (Rank(s), Rank(s'));
    var (e, e') := (|RunningCpus(s.cpus)|, |RunningCpus(s'.cpus)|);
    a' < a || (a' == a && (b' < b || (b' == b && (c' < c || (c' == c && (d' < d || (d' == d && e' < e)))))))
  }

  lemma Fewer(a: set<Id>, b: set<Id>, id: Id)
    requires a <= b - {id} && id in b
    ensures |a| < |b|
  {
    NoLarger(a, b - {id});
  }

  lemma ShadowsEnd(places: map<Id, Place>, id: Id)
    requires id in BusyPairs(places)
    ensures
      var places' := places[id := WithShadow(places[id], Ended)];
      && OpenPairs(places') == OpenPairs(places) && ServingPairs(places') == ServingPairs(places)
      && |BusyPairs(places')| < |BusyPairs(places)|
  {
    Fewer(BusyPairs(places[id := WithShadow(places[id], Ended)]), BusyPairs(places), id);
  }

  lemma ResponsesEnd(places: map<Id, Place>, id: Id)
    requires id in ServingPairs(places)
    ensures
      var places' := places[id := Closing(places[id].shadow)];
      OpenPairs(places') == OpenPairs(places) && |ServingPairs(places')| < |ServingPairs(places)|
  {
    Fewer(ServingPairs(places[id := Closing(places[id].shadow)]), ServingPairs(places), id);
  }

  lemma PairsEnd(places: map<Id, Place>, id: Id, r: Reason)
    requires id in OpenPairs(places)
    ensures |OpenPairs(places[id := Lost(r)])| < |OpenPairs(places)|
  {
    Fewer(OpenPairs(places[id := Lost(r)]), OpenPairs(places), id);
  }

  /** An open pair has a step that brings it to its end. */
  lemma PairCanEnd(l: WorkLimits, cl: C.Limits, s: State, id: Id) returns (a: Action)
    requires id in OpenPairs(s.places) && !s.open
    ensures Enabled(cl, s, a) && Unforced(s, a) && Nearer(s, Apply(l, cl, s, a)) && !Apply(l, cl, s, a).open
  {
    hide Rank, RunningCpus, OpenPairs, ServingPairs, BusyPairs;
    var p := PlaceOf(s.places, id);
    if HasSlot(p) && p.shadow.Busy? {
      a := DoShadowEnds(id);
      ShadowsEnd(s.places, id);
    } else if p.Serving? {
      a := DoRespond(id);
      ResponsesEnd(s.places, id);
    } else {
      a := DoFinalize(id, Some(0), 0.0);
      PairsEnd(s.places, id, Shutdown);
    }
  }

  lemma PlaceOf(places: map<Id, Place>, id: Id) returns (p: Place)
    requires id in OpenPairs(places)
    ensures id in places && p == places[id] && (p.Serving? || p.Closing?)
    ensures p.Serving? ==> id in ServingPairs(places)
    ensures HasSlot(p) && p.shadow.Busy? ==> id in BusyPairs(places)
  {
    p := places[id];
  }

  /** No pair is open in the second map that was not, the same, in the first. */
  ghost predicate NoNewPairs(places: map<Id, Place>, places': map<Id, Place>)
  {
    forall id :: id in places' && (places'[id].Serving? || places'[id].Closing?) ==>
                   id in places && places[id] == places'[id]
  }

  lemma NoNewPairsCount(places: map<Id, Place>, places': map<Id, Place>)
    requires NoNewPairs(places, places')
    ensures |OpenPairs(places')| <= |OpenPairs(places)|
    ensures |ServingPairs(places')| <= |ServingPairs(places)|
    ensures |BusyPairs(places')| <= |BusyPairs(places)|
  {
    NoLarger(OpenPairs(places'), OpenPairs(places));
    NoLarger(ServingPairs(places'), ServingPairs(places));
    NoLarger(BusyPairs(places'), BusyPairs(places));
  }

  lemma {:induction false} DrainOpensNone(s: State)
    ensures NoNewPairs(s.places, Drain(s).places) && Drain(s).open == s.open
    decreases |s.queue|
  {
    if s.queue != [] {
      DrainOpensNone(DropHead(s, Shutdown));
    }
  }

  lemma MovesOn(places: map<Id, Place>, id: Id, p: Place)
    requires !p.Serving? && !p.Closing?
    ensures NoNewPairs(places, places[id := p])
  {
  }

  lemma OfferOpensNone(cl: C.Limits, s: State, job: Job, payload: Option<nat>, now: real)
    ensures NoNewPairs(s.places, Offer(cl, s, job, payload, now).places)
  {
    hide C.Submit, C.Accepts, RefusalReason, NoNewPairs;
    MovesOn(s.places, job.id, Accepted);
    var event := C.Event(job.id, job.submitted);
    MovesOn(s.places, job.id, Lost(RefusalReason(
      s.collector.counters, C.Submit(cl, s.collector, event, payload, now).counters)));
  }

  lemma CompareOpensNone(cl: C.Limits, s: State, w: nat, next: Next)
    requires w < |s.workers| && s.workers[w].Comparing? && s.workers[w].future in s.cpus
    ensures NoNewPairs(s.places, CompareEnds(cl, s, w, next).places) && CompareEnds(cl, s, w, next).open == s.open
  {
    hide Offer, NoNewPairs;
    var job := s.workers[w].job;
    NothingOpens(s.places);
    MovesOn(s.places, job.id, Lost(ComparisonDropped));
    MovesOn(s.places, job.id, Lost(Shutdown));
    if next.Summarises? {
      OfferOpensNone(cl, s, job, next.payload, next.now);
    }
  }

  lemma DetailOpensNone(cl: C.Limits, s: State, w: nat, payload: Option<nat>, now: real)
    requires w < |s.workers| && s.workers[w].Detailing? && s.workers[w].future in s.cpus
    ensures NoNewPairs(s.places, DetailEnds(cl, s, w, payload, now).places)
    ensures DetailEnds(cl, s, w, payload, now).open == s.open
    ensures NoNewPairs(s.places, DetailTimesOut(cl, s, w, payload, now).places)
    ensures DetailTimesOut(cl, s, w, payload, now).open == s.open
  {
    hide Offer, NoNewPairs;
    MovesOn(s.places, s.workers[w].job.id, Lost(Shutdown));
    OfferOpensNone(cl, s, s.workers[w].job, payload, now);
  }

  lemma OthersOpenNone(l: WorkLimits, cl: C.Limits, s: State, a: Action)
    requires Enabled(cl, s, a) && (WorkerStep(s, a) || a.DoCpuEnds? || a.DoDrain?)
    ensures NoNewPairs(s.places, Apply(l, cl, s, a).places) && Apply(l, cl, s, a).open == s.open
  {
    hide Drain, CompareEnds, DetailEnds, DetailTimesOut, Offer, NoNewPairs, C.Enabled, C.Apply, HasRoom;
    match a
    case DoTake(w, now, f, started) => TakeOpensNone(l, s, w, now, f, started);
    case DoCompareTimesOut(w) => MovesOn(s.places, s.workers[w].job.id, Lost(Timeout));
    case DoCompareEnds(w, next) => CompareOpensNone(cl, s, w, next);
    case DoDetailTimesOut(w, payload, now) => DetailOpensNone(cl, s, w, payload, now);
    case DoDetailEnds(w, payload, now) => DetailOpensNone(cl, s, w, payload, now);
    case DoCancel(w) => CancelOpensNone(s, w);
    case DoDrain => DrainOpensNone(s);
    case _ => NothingOpens(s.places);
  }

  lemma NothingOpens(places: map<Id, Place>)
    ensures NoNewPairs(places, places)
  {
  }

  lemma CancelOpensNone(s: State, w: nat)
    requires CanCancel(s, w)
    ensures NoNewPairs(s.places, Cancel(s, w).places)
  {
  }

  lemma TakenInVainOpensNone(s: State, w: nat, f: FutureId, r: Reason)
    requires w < |s.workers| && s.queue != []
    ensures NoNewPairs(s.places, TakenInVain(s, w, f, r).places)
  {
    hide NoNewPairs;
    var id := s.queue[0].id;
    assert s.places[id := Held][id := Lost(r)] == s.places[id := Lost(r)];
    MovesOn(s.places, id, Lost(r));
  }

  lemma TakeOpensNone(l: WorkLimits, s: State, w: nat, now: real, f: FutureId, started: bool)
    requires w < |s.workers| && s.queue != []
    ensures NoNewPairs(s.places, Take(l, s, w, now, f, started).places)
  {
    hide NoNewPairs, TakenInVain;
    MovesOn(s.places, s.queue[0].id, Held);
    TakenInVainOpensNone(s, w, f, QueueExpired);
    TakenInVainOpensNone(s, w, f, ComparisonDropped);
  }

  /** A step of a worker, the pool or the drain that lowers the rank or ends a computation. */
  lemma OtherIsNearer(l: WorkLimits, cl: C.Limits, s: State, a: Action)
    requires Enabled(cl, s, a) && ((WorkerStep(s, a) && !a.DoCancel?) || a.DoCpuEnds? || (a.DoDrain? && s.queue != []))
    ensures Nearer(s, Apply(l, cl, s, a)) && Apply(l, cl, s, a).open == s.open
  {
    hide Enabled, Apply, Rank, OpenPairs, ServingPairs, BusyPairs, RunningCpus, Drain;
    OthersOpenNone(l, cl, s, a);
    NoNewPairsCount(s.places, Apply(l, cl, s, a).places);
    StepMovesRank(l, cl, s, a);
    if a.DoDrain? {
      DrainLowers(l, cl, s);
    } else if a.DoCpuEnds? {
      OneRunsFewer(l, cl, s, a.f, a.how);
    }
  }

  lemma DrainLowers(l: WorkLimits, cl: C.Limits, s: State)
    requires Enabled(cl, s, DoDrain) && s.queue != []
    ensures Rank(Apply(l, cl, s, DoDrain)) < Rank(s)
  {
    hide Drain, Rank;
    DrainRank(s);
  }

  lemma OneRunsFewer(l: WorkLimits, cl: C.Limits, s: State, f: FutureId, how: Cpu)
    requires Enabled(cl, s, DoCpuEnds(f, how))
    ensures |RunningCpus(Apply(l, cl, s, DoCpuEnds(f, how)).cpus)| < |RunningCpus(s.cpus)|
    ensures Rank(Apply(l, cl, s, DoCpuEnds(f, how))) == Rank(s)
  {
    hide AllStepsLeft;
    var cpus' := s.cpus[f := how];
    assert RunningCpus(cpus') == RunningCpus(s.cpus) - {f};
  }

  /** A closed pipeline that is not quiet comes nearer to it by itself. */
  lemma CanComeNearer(l: WorkLimits, cl: C.Limits, s: State) returns (a: Action)
    requires !s.open && !Quiet(s) && Inv(l, cl, s)
    ensures Enabled(cl, s, a) && Unforced(s, a)
    ensures Nearer(s, Apply(l, cl, s, a)) && !Apply(l, cl, s, a).open
  {
    hide Inv, Nearer, Enabled, Apply, WorkerStep;
    if id :| id in OpenPairs(s.places) {
      a := PairCanEnd(l, cl, s, id);
    } else if w :| 0 <= w < |s.workers| && Holds(s.workers[w]) {
      HolderCanMove(l, cl, s, w);
      a :| Enabled(cl, s, a) && Ordinary(a) && ((WorkerStep(s, a) && !a.DoCancel?) || a.DoCpuEnds?);
      OtherIsNearer(l, cl, s, a);
    } else {
      QueueIsLeft(s);
      a := DoDrain;
      DrainIsEnabled(cl, s);
      OtherIsNearer(l, cl, s, a);
    }
  }

  lemma QueueIsLeft(s: State)
    requires !Quiet(s) && OpenPairs(s.places) == {} && forall w :: 0 <= w < |s.workers| ==> !Holds(s.workers[w])
    ensures s.queue != []
  {
    assert forall id :: id in s.places && (s.places[id].Serving? || s.places[id].Closing?) ==> id in OpenPairs(s.places);
  }

  lemma DrainIsEnabled(cl: C.Limits, s: State)
    requires !s.open
    ensures Enabled(cl, s, DoDrain)
  {
  }

  /** A step of the collector's worker, or a callback due to it, leaves everything before the collector alone. */
  lemma CollectorCanMove(l: WorkLimits, cl: C.Limits, s: State) returns (a: Action)
    requires C.ValidLimits(cl) && !s.collector.worker.Absent? && CI.Inv(cl, s.collector)
    ensures Enabled(cl, s, a) && Unforced(s, a)
    ensures
      var s' := Apply(l, cl, s, a);
      && s' == s.(collector := s'.collector, reported := s'.reported) && Rank(s') == Rank(s)
      && (CP.Rank(cl, s'.collector) < CP.Rank(cl, s.collector)
          || (CP.Rank(cl, s'.collector) == CP.Rank(cl, s.collector)
              && |CP.Uncalled(s'.collector.tasks)| < |CP.Uncalled(s.collector.tasks)|))
  {
    hide C.ValidLimits, CI.Inv, C.Enabled, C.Apply, CP.Rank, CP.Uncalled, CallAll;
    CT.WorkerIsNeverStuck(cl, s.collector);
    var b :| C.Enabled(cl, s.collector, b) && !b.DoSubmit? && !b.DoClose? && !b.DoCloseTimedOut? && !b.DoPersist?
             && !b.DoComplete? && (b.DoCancel? ==> CT.WriteWasCancelled(s.collector));
    a := DoCollect(b);
    CP.StepMovesRank(cl, s.collector, b);
    if b.DoWriteDone? {
      CP.OneCallBackFewer(cl, s.collector, b.task);
    }
  }

  ghost predicate Path(l: WorkLimits, cl: C.Limits, ss: seq<State>, actions: seq<Action>)
  {
    && |ss| == |actions| + 1
    && forall i :: 0 <= i < |actions| ==>
         Enabled(cl, ss[i], actions[i]) && Unforced(ss[i], actions[i]) && ss[i + 1] == Apply(l, cl, ss[i], actions[i])
  }

  lemma Prepend(l: WorkLimits, cl: C.Limits, s: State, a: Action, ss: seq<State>, actions: seq<Action>)
    requires Path(l, cl, ss, actions) && Enabled(cl, s, a) && Unforced(s, a) && ss[0] == Apply(l, cl, s, a)
    ensures Path(l, cl, [s] + ss, [a] + actions)
  {
    hide Enabled, Apply, Unforced;
    var all, steps := [s] + ss, [a] + actions;
    forall i | 0 <= i < |steps|
      ensures Enabled(cl, all[i], steps[i]) && Unforced(all[i], steps[i]) && all[i + 1] == Apply(l, cl, all[i], steps[i])
    {
      if i > 0 {
        assert all[i] == ss[i - 1] && all[i + 1] == ss[i] && steps[i] == actions[i - 1];
      }
    }
  }

  lemma StepIsReachable(l: WorkLimits, cl: C.Limits, s: State, a: Action)
    requires Reachable(l, cl, s) && Enabled(cl, s, a)
    ensures Reachable(l, cl, Apply(l, cl, s, a))
  {
    hide Enabled, Apply, Started;
    var ss, actions :| Run(l, cl, ss, actions) && ss[|ss| - 1] == s;
    var all, steps := ss + [Apply(l, cl, s, a)], actions + [a];
    forall i | 0 <= i < |steps| ensures Enabled(cl, all[i], steps[i]) && all[i + 1] == Apply(l, cl, all[i], steps[i]) {
      if i < |actions| {
        assert all[i] == ss[i] && all[i + 1] == ss[i + 1] && steps[i] == actions[i];
      }
    }
    assert Run(l, cl, all, steps);
  }

  /** A closed pipeline comes to rest by such steps. */
  lemma {:induction false} ComeToRest(l: WorkLimits, cl: C.Limits, s: State)
    returns (ss: seq<State>, actions: seq<Action>)
    requires C.ValidLimits(cl) && !s.open && Reachable(l, cl, s)
    ensures Path(l, cl, ss, actions) && ss[0] == s
    ensures AtRest(ss[|ss| - 1]) && !ss[|ss| - 1].open && Reachable(l, cl, ss[|ss| - 1])
    decreases |OpenPairs(s.places)|, |ServingPairs(s.places)|, |BusyPairs(s.places)|, Rank(s), |RunningCpus(s.cpus)|,
              CP.Rank(cl, s.collector), |CP.Uncalled(s.collector.tasks)|
  {
    hide C.ValidLimits, Reachable, Inv, Enabled, Apply, Unforced, Rank, OpenPairs, ServingPairs, BusyPairs,
      RunningCpus, CP.Rank, CP.Uncalled, Quiet, Path;
    ReachableInv(l, cl, s);
    if AtRest(s) {
      ss, actions := [s], [];
      StandingStill(l, cl, s);
    } else {
      var a;
      if Quiet(s) {
        CollectorFits(l, cl, s);
        a := CollectorCanMove(l, cl, s);
      } else {
        a := CanComeNearer(l, cl, s);
      }
      StepIsReachable(l, cl, s, a);
      var rest, steps := ComeToRest(l, cl, Apply(l, cl, s, a));
      ss, actions := [s] + rest, [a] + steps;
      Prepend(l, cl, s, a, rest, steps);
      NotEmpty(l, cl, rest, steps);
    }
  }

  lemma StandingStill(l: WorkLimits, cl: C.Limits, s: State)
    ensures Path(l, cl, [s], [])
  {
  }

  lemma NotEmpty(l: WorkLimits, cl: C.Limits, ss: seq<State>, actions: seq<Action>)
    requires Path(l, cl, ss, actions)
    ensures |ss| == |actions| + 1
  {
  }

  lemma CollectorFits(l: WorkLimits, cl: C.Limits, s: State)
    requires Inv(l, cl, s)
    ensures CI.Inv(cl, s.collector)
  {
  }

  /**
   From every state of every run, closing the pipeline can bring it to rest without a new request, an
   exception, or any cancellation but the store's own: every job, byte and slot is given back, and every
   selected request is stored, of unknown acknowledgement, or counted under one dropped reason.
   */
  lemma EveryShutdownCanFinish(l: WorkLimits, cl: C.Limits, s: State) returns (ss: seq<State>, actions: seq<Action>)
    requires C.ValidLimits(cl) && Reachable(l, cl, s)
    ensures Path(l, cl, ss, actions) && ss[0] == s
    ensures
      var last := ss[|ss| - 1];
      && Reachable(l, cl, last) && AtRest(last) && !last.open
      && last.jobs == 0 && last.jobBytes == 0 && last.slots == 0
      && |last.places| == last.collector.notices[C.Stored] + last.collector.notices[C.AckUnknown] + |Drops(last)|
  {
    hide C.ValidLimits, Reachable, Inv, Enabled, Apply, Unforced, Quiet, Path, Waiting, Drops;
    CloseIsUnforced(l, cl, s);
    StepIsReachable(l, cl, s, DoClose);
    var rest, steps := ComeToRest(l, cl, Apply(l, cl, s, DoClose));
    ss, actions := [s] + rest, [DoClose] + steps;
    Prepend(l, cl, s, DoClose, rest, steps);
    NotEmpty(l, cl, rest, steps);
    var last := rest[|rest| - 1];
    QuietMeansReleased(l, cl, last);
    NobodyWaits(l, cl, last);
    EveryRequestIsAccountedFor(l, cl, last);
  }

  lemma CloseIsUnforced(l: WorkLimits, cl: C.Limits, s: State)
    ensures Enabled(cl, s, DoClose) && Unforced(s, DoClose) && !Apply(l, cl, s, DoClose).open
  {
  }

  lemma NobodyWaits(l: WorkLimits, cl: C.Limits, s: State)
    requires C.ValidLimits(cl) && Reachable(l, cl, s) && AtRest(s)
    ensures |Waiting(s)| == 0
  {
    hide C.ValidLimits, Reachable, Quiet, Waiting, CI.Inv, InFlight;
    ReachableInv(l, cl, s);
    QuietMeansReleased(l, cl, s);
    WaitingSplits(s);
    CT.IdleMeansSettled(cl, s.collector);
  }
}
