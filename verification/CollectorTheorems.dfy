/** What the collector promises over all of its runs, against any store and any schedule. */
module CollectorTheorems {
  import opened Options
  import opened CollectorModel
  import opened Totals
  import opened CollectorInvariant
  import opened CollectorSteps

  /** A run: states joined by enabled actions, from the empty collector. */
  ghost predicate Run(l: Limits, ss: seq<State>, actions: seq<Action>)
  {
    && |ss| == |actions| + 1
    && ss[0] == INITIAL
    && forall i :: 0 <= i < |actions| ==> Enabled(l, ss[i], actions[i]) && ss[i + 1] == Apply(l, ss[i], actions[i])
  }

  lemma {:induction false} RunKeepsInv(l: Limits, ss: seq<State>, actions: seq<Action>, i: nat)
    requires ValidLimits(l) && Run(l, ss, actions) && i < |ss|
    ensures Inv(l, ss[i])
  {
    hide Inv, Enabled, Apply, ValidLimits;
    if i == 0 {
      InitiallyInv(l);
    } else {
      RunKeepsInv(l, ss, actions, i - 1);
      StepKeepsInv(l, ss[i - 1], actions[i - 1]);
    }
  }

  /** The states that end a run. */
  ghost predicate Reachable(l: Limits, s: State)
  {
    exists ss, actions :: Run(l, ss, actions) && ss[|ss| - 1] == s
  }

  lemma ReachableInv(l: Limits, s: State)
    requires ValidLimits(l) && Reachable(l, s)
    ensures Inv(l, s)
  {
    hide Inv, Enabled, Apply, ValidLimits;
    var ss, actions :| Run(l, ss, actions) && ss[|ss| - 1] == s;
    RunKeepsInv(l, ss, actions, |ss| - 1);
  }

  lemma StepIsReachable(l: Limits, s: State, a: Action)
    requires Reachable(l, s) && Enabled(l, s, a)
    ensures Reachable(l, Apply(l, s, a))
  {
    hide Enabled, Apply;
    var ss, actions :| Run(l, ss, actions) && ss[|ss| - 1] == s;
    var all, steps := ss + [Apply(l, s, a)], actions + [a];
    forall i | 0 <= i < |steps| ensures Enabled(l, all[i], steps[i]) && all[i + 1] == Apply(l, all[i], steps[i]) {
      if i < |actions| {
        assert all[i] == ss[i] && all[i + 1] == ss[i + 1] && steps[i] == actions[i];
      }
    }
    assert Run(l, all, steps);
  }

  // ----- verdicts are final -----

  /** The later state forgets no verdict, no event and nothing that is stored. */
  ghost predicate Extends(s: State, s': State)
  {
    && (forall id :: id in s.outcomes ==> id in s'.outcomes && s'.outcomes[id] == s.outcomes[id])
    && s.store <= s'.store && s.submitted <= s'.submitted
  }

  lemma {:induction false} FinishAllExtends(
    l: Limits, s: State, es: seq<Event>, uncertain: set<Id>, otherwise: Outcome)
    requires Core(l, s)
    ensures Extends(s, FinishAll(s, es, uncertain, otherwise)) && Core(l, FinishAll(s, es, uncertain, otherwise))
    decreases |es|
  {
    hide Tracked, Budgeted, Counted;
    if es != [] {
      var s1 := FinishAll(s, es[..|es| - 1], uncertain, otherwise);
      FinishAllExtends(l, s, es[..|es| - 1], uncertain, otherwise);
      FinishExtends(s1, es[|es| - 1], Verdict(es[|es| - 1].id, uncertain, otherwise));
      FinishKeepsCore(l, s1, es[|es| - 1], Verdict(es[|es| - 1].id, uncertain, otherwise));
    }
  }

  lemma FinishExtends(s: State, e: Event, o: Outcome)
    requires Tracked(s.pending, s.writes, s.finished, s.submitted, s.outcomes.Keys)
    ensures Extends(s, Finish(s, e, o))
  {
  }

  lemma ReadExtends(l: Limits, s: State, status: Status)
    requires Core(l, s) && s.worker.Waiting?
    ensures Extends(s, Read(l, s, status))
  {
    hide Tracked, Budgeted, Counted, Keep, Drop, Acked, Doubtful, ResultOf, CountRead, Copies;
    var w := s.worker;
    var r := ResultOf(status, w.batch);
    var s1 := CountRead(s, status, w.batch);
    CountReadKeepsCore(l, s, status, w.batch);
    FinishAllExtends(l, s1, Keep(w.batch, Acked(w.batch, r)), {}, Stored);
    var s2 := FinishAll(s1, Keep(w.batch, Acked(w.batch, r)), {}, Stored);
    FinishAllExtends(l, s2, Drop(w.batch, Acked(w.batch, r)), w.uncertain + Doubtful(w.batch, r), DroppedRetryExhausted);
  }

  lemma CancelExtends(l: Limits, s: State, values: seq<Event>)
    requires Core(l, s) && (s.worker.Waiting? || s.worker.Sleeping?)
    ensures Extends(s, Exit(CancelBatch(s), values))
  {
    hide Tracked, Budgeted, Count, Enumerates;
    var uncertain := if s.worker.Waiting? then IdSet(s.worker.batch) else s.worker.uncertain;
    FinishAllExtends(l, s, s.worker.batch, uncertain, DroppedShutdown);
    FinishAllExtends(l, CancelBatch(s), values, {}, DroppedShutdown);
  }

  lemma WriteDoneExtends(l: Limits, s: State, t: TaskId)
    requires Inv(l, s) && Enabled(l, s, DoWriteDone(t))
    ensures Extends(s, Apply(l, s, DoWriteDone(t)))
  {
    hide Core, Placed, Truthful, Bounded;
    assert TaskFits(t, s.tasks[t], s.writes, s.submitted);
    ReleaseAllReleases(l, s, s.tasks[t].ids);
  }

  lemma TimeOutExtends(l: Limits, s: State)
    requires Core(l, s) && s.worker.Waiting?
    ensures Extends(s, TimeOut(s))
  {
    hide Core, Copies, IdSet;
    var b := s.worker.batch;
    var s0 := s.(counters := s.counters + Copies(WriteFailures, 1));
    BumpKeepsCore(l, s, WriteFailures, 1);
    BumpKeepsCore(l, s0, AckUnknownAttempts, |b|);
    FinishAllExtends(l, s0.(counters := s0.counters + Copies(AckUnknownAttempts, |b|)), b, IdSet(b), AckUnknown);
  }

  lemma StepExtends(l: Limits, s: State, a: Action)
    requires Inv(l, s) && Enabled(l, s, a)
    ensures Extends(s, Apply(l, s, a))
  {
    hide Core, Placed, Reserved, Truthful, Bounded, Enumerates, Honest;
    match a
    case DoAttempt(now, t) =>
      var w := s.worker;
      FinishAllExtends(l, s, Keep(w.batch, Aged(l, w.batch, now)), w.uncertain, DroppedExpired);
    case DoExit(values) => FinishAllExtends(l, s, values, {}, DroppedShutdown);
    case DoTimeOut => TimeOutExtends(l, s);
    case DoRead => ReadExtends(l, s, s.tasks[s.worker.task].status);
    case DoCancel(values) => CancelExtends(l, s, values);
    case DoWriteDone(t) => WriteDoneExtends(l, s, t);
    case _ =>
  }

  lemma {:induction false} RunExtends(l: Limits, ss: seq<State>, actions: seq<Action>, i: nat, j: nat)
    requires ValidLimits(l) && Run(l, ss, actions) && i <= j < |ss|
    ensures Extends(ss[i], ss[j])
    decreases j
  {
    hide Inv, Enabled, Apply;
    if i < j {
      RunExtends(l, ss, actions, i, j - 1);
      RunKeepsInv(l, ss, actions, j - 1);
      StepExtends(l, ss[j - 1], actions[j - 1]);
    }
  }

  /** A refused event is not in the store: no attempt that names it persisted anything of it. */
  lemma RefusedIsNotStored(s: State, id: Id)
    requires StoreFits(s.tasks, s.store) && Refused(s.tasks, id, None)
    ensures id !in s.store
  {
    forall t | t in s.tasks ensures id !in s.tasks[t].persisted {
      assert AnswerFits(s.tasks[t], s.store);
    }
  }

  /**
   A verdict is final, and true at every later moment of the run: an event settled as stored is in
   the store, an event settled as dropped is not and never will be, whatever late writes land.
   */
  lemma VerdictsAreFinalAndTrue(l: Limits, ss: seq<State>, actions: seq<Action>, i: nat, j: nat, id: Id)
    requires ValidLimits(l) && Run(l, ss, actions) && i <= j < |ss| && id in ss[i].outcomes
    ensures id in ss[j].outcomes && ss[j].outcomes[id] == ss[i].outcomes[id]
    ensures ss[i].outcomes[id] == Stored ==> id in ss[j].store
    ensures Dropped(ss[i].outcomes[id]) ==> id !in ss[j].store
  {
    RunExtends(l, ss, actions, i, j);
    RunKeepsInv(l, ss, actions, j);
    hide Run, Core, Placed, Reserved, Bounded, StoreFits, Refused;
    assert Means(ss[j].outcomes[id], ss[j].tasks, ss[j].store, id);
    if Dropped(ss[i].outcomes[id]) {
      RefusedIsNotStored(ss[j], id);
    }
  }

  // ----- nothing is lost or counted twice -----

  /** The accepted events that still await a verdict. */
  ghost function Unsettled(s: State): set<Id>
  {
    s.submitted - s.outcomes.Keys
  }

  lemma CountsPartition(m: map<Id, Outcome>)
    ensures |m| == Count(m, Stored) + Count(m, AckUnknown) + Count(m, DroppedExpired)
                   + Count(m, DroppedShutdown) + Count(m, DroppedRetryExhausted)
  {
    var a, b, c := KeysOf(m, Stored), KeysOf(m, AckUnknown), KeysOf(m, DroppedExpired);
    var d, e := KeysOf(m, DroppedShutdown), KeysOf(m, DroppedRetryExhausted);
    forall k | k in m ensures k in a || k in b || k in c || k in d || k in e {
      var o := m[k];
      assert o.Stored? || o.AckUnknown? || o.DroppedExpired? || o.DroppedShutdown? || o.DroppedRetryExhausted?;
    }
    assert m.Keys == a + b + c + d + e;
    assert |a + b| == |a| + |b|;
    assert |a + b + c| == |a + b| + |c|;
    assert |a + b + c + d| == |a + b + c| + |d|;
  }

  /** The events without a verdict are those of the queue and of the worker's batch. */
  lemma UnsettledAreHere(l: Limits, s: State)
    requires Inv(l, s)
    ensures forall id :: id in Unsettled(s) <==> id in s.pending && id !in s.finished
    ensures forall id :: id in Unsettled(s) <==> id in QueueIds(s.queue) || id in IdSet(BatchOf(s.worker))
  {
    hide Reserved, Truthful, Bounded, Budgeted, Counted, FrameFits, Distinct, Events;
  }

  lemma SubmittedAreCounted(l: Limits, s: State)
    requires Inv(l, s)
    ensures |s.submitted| == s.notices[Stored] + s.notices[AckUnknown] + s.notices[DroppedExpired]
                             + s.notices[DroppedShutdown] + s.notices[DroppedRetryExhausted] + |Unsettled(s)|
    ensures s.counters[Submitted] == |s.submitted|
  {
    hide Placed, Reserved, Truthful, Bounded, Budgeted, Count;
    CountsPartition(s.outcomes);
    assert s.submitted == s.outcomes.Keys + Unsettled(s);
  }

  /** Accepted events are exactly the notified outcomes plus the events still in the collector. */
  lemma EveryEventIsAccountedFor(l: Limits, s: State)
    requires ValidLimits(l) && Reachable(l, s)
    ensures s.counters[Submitted] ==
              s.notices[Stored] + s.notices[AckUnknown] + s.notices[DroppedExpired]
              + s.notices[DroppedShutdown] + s.notices[DroppedRetryExhausted] + |Unsettled(s)|
  {
    hide Reachable, ValidLimits, Inv, Unsettled;
    ReachableInv(l, s);
    SubmittedAreCounted(l, s);
  }

  /** When the worker is gone every accepted event has its verdict. */
  lemma IdleMeansSettled(l: Limits, s: State)
    requires Inv(l, s) && s.worker.Absent?
    ensures s.outcomes.Keys == s.submitted
    ensures s.pending.Keys == s.finished
  {
    hide Reserved, Truthful, Bounded, Budgeted, Counted, Distinct;
    UnsettledAreHere(l, s);
  }

  lemma IdleStoreIsExact(l: Limits, s: State)
    requires Inv(l, s) && s.worker.Absent? && s.complete
    ensures s.store == KeysOf(s.outcomes, Stored)
    ensures s.notices[Stored] == |s.store| && s.notices[AckUnknown] == 0 && Unsettled(s) == {}
    ensures s.counters[Settled(Stored)] == |s.store|
  {
    hide Placed, Reserved, Bounded, Budgeted, QueueUntouched, StoreFits, Refused;
    IdleMeansSettled(l, s);
    StoreIsSubmitted(l, s);
    assert s.rejections[Settled(Stored)] == 0 by { assert !Rejects(Settled(Stored)); }
    assert KeysOf(s.outcomes, AckUnknown) == {};
    forall id | id in s.outcomes ensures id in s.store <==> s.outcomes[id] == Stored {
      assert Means(s.outcomes[id], s.tasks, s.store, id);
      if s.outcomes[id] != Stored {
        RefusedIsNotStored(s, id);
      }
    }
  }

  /**
   If completeness is still claimed when the collector is idle, the store holds exactly the events
   counted as stored, and the counter of stored events is the number of rows.
   */
  lemma CompleteWhenIdleIsExact(l: Limits, s: State)
    requires ValidLimits(l) && Reachable(l, s) && s.worker.Absent? && s.complete
    ensures forall id :: id in s.store <==> id in s.outcomes && s.outcomes[id] == Stored
    ensures s.counters[Settled(Stored)] == |s.store|
  {
    hide Reachable, ValidLimits, Inv, Unsettled;
    ReachableInv(l, s);
    IdleStoreIsExact(l, s);
  }

  lemma StoreIsSubmitted(l: Limits, s: State)
    requires Inv(l, s)
    ensures s.store <= s.submitted
  {
    hide Core, Placed, Bounded;
    forall id | id in s.store ensures id in s.submitted {
      var t :| t in s.tasks && id in s.tasks[t].persisted;
      assert AnswerFits(s.tasks[t], s.store) && TaskFits(t, s.tasks[t], s.writes, s.submitted);
    }
  }

  /** A worker that runs out of events leaves nothing to drop: its `finally` changes no verdict and no counter. */
  lemma NormalExitDropsNothing(l: Limits, s: State, values: seq<Event>)
    requires ValidLimits(l) && Reachable(l, s) && Enabled(l, s, DoExit(values))
    ensures Apply(l, s, DoExit(values)) == s.(worker := Absent)
  {
    hide Reachable, ValidLimits, Reserved, Truthful, Bounded, Core;
    ReachableInv(l, s);
    UnsettledAreHere(l, s);
    NothingOpen(s, values, {}, DroppedShutdown);
  }

  lemma {:induction false} NothingOpen(s: State, es: seq<Event>, uncertain: set<Id>, otherwise: Outcome)
    requires forall id :: id in s.pending ==> id in s.finished
    ensures FinishAll(s, es, uncertain, otherwise) == s
    decreases |es|
  {
    if es != [] {
      NothingOpen(s, es[..|es| - 1], uncertain, otherwise);
    }
  }

  // ----- memory and writes -----

  /** Both capacity limits always hold, and the byte count is the sum of the sizes still held. */
  lemma CapacityHolds(l: Limits, ss: seq<State>, actions: seq<Action>, i: nat)
    requires ValidLimits(l) && Run(l, ss, actions) && i < |ss|
    ensures ss[i].bytes == Sum(Sizes(ss[i].pending)) && 0 <= ss[i].bytes <= l.maxBytes && |ss[i].pending| <= l.maxEvents
  {
    RunKeepsInv(l, ss, actions, i);
    hide Run, Placed, Reserved, Truthful, Bounded, Tracked, Counted;
  }

  /** A write that is still running holds the memory of every event it was given, settled or not. */
  lemma RunningWritesAreReserved(l: Limits, s: State, t: TaskId, id: Id)
    requires Inv(l, s) && t in s.tasks && s.tasks[t].status.Running? && id in s.tasks[t].ids
    ensures id in s.pending && id in s.writes && s.writes[id] == t
  {
    hide Placed, Truthful, Bounded, Budgeted, Counted;
    assert TaskFits(t, s.tasks[t], s.writes, s.submitted);
  }

  /** An event's memory is released only when no write that names it is still running. */
  lemma ReleasedOnlyAfterTheWriteEnds(l: Limits, s: State, a: Action, t: TaskId, id: Id)
    requires ValidLimits(l) && Reachable(l, s) && Enabled(l, s, a)
    requires id in s.pending && id !in Apply(l, s, a).pending
    requires t in Apply(l, s, a).tasks && id in Apply(l, s, a).tasks[t].ids
    ensures !Apply(l, s, a).tasks[t].status.Running?
  {
    hide Reachable, ValidLimits, Inv, Enabled, Apply;
    ReachableInv(l, s);
    StepKeepsInv(l, s, a);
    if Apply(l, s, a).tasks[t].status.Running? {
      RunningWritesAreReserved(l, Apply(l, s, a), t, id);
    }
  }

  /** Two writes that are both outstanding have no event in common. */
  lemma OutstandingWritesAreDisjoint(l: Limits, s: State, t: TaskId, u: TaskId, id: Id)
    requires ValidLimits(l) && Reachable(l, s) && t in s.tasks && u in s.tasks && id in s.tasks[t].ids && id in s.tasks[u].ids
    requires !s.tasks[t].calledBack && !s.tasks[u].calledBack
    ensures t == u
  {
    hide Reachable, ValidLimits, Core, Placed, Truthful, Bounded;
    ReachableInv(l, s);
    assert TaskFits(t, s.tasks[t], s.writes, s.submitted);
    assert TaskFits(u, s.tasks[u], s.writes, s.submitted);
  }

  /** The callback of a finished write finds every event it looks up, each of them once. */
  lemma PopsNeverMiss(l: Limits, s: State, t: TaskId)
    requires ValidLimits(l) && Reachable(l, s) && Enabled(l, s, DoWriteDone(t))
    ensures DistinctIds(s.tasks[t].ids)
    ensures forall id :: id in s.tasks[t].ids ==> id in s.writes && (id in s.finished ==> id in s.pending)
  {
    hide Reachable, ValidLimits, Placed, Truthful, Bounded, Budgeted, Counted;
    ReachableInv(l, s);
    assert TaskFits(t, s.tasks[t], s.writes, s.submitted);
  }

  /** No event is handed to the store more often than the attempt limit, in any run. */
  lemma RetriesAreBounded(l: Limits, ss: seq<State>, actions: seq<Action>, i: nat, id: Id)
    requires ValidLimits(l) && Run(l, ss, actions) && i < |ss| && id in ss[i].submitted
    ensures |AttemptsOf(ss[i].tasks, id)| <= l.maxAttempts
  {
    RunKeepsInv(l, ss, actions, i);
    hide Run, Core, Placed, Reserved, Truthful, AttemptsOf;
  }

  /** The store itself cancelled the write that the worker waits for, which raises in the worker. */
  ghost predicate WriteWasCancelled(s: State)
  {
    s.worker.Waiting? && s.worker.task in s.tasks && s.tasks[s.worker.task].status.TaskCancelled?
  }

  /**
   The worker is never stuck: it can move, or the callback it waits for can run. Nobody has to cancel
   it, and the store has to do nothing more.
   */
  lemma WorkerIsNeverStuck(l: Limits, s: State)
    requires Inv(l, s) && !s.worker.Absent?
    ensures exists a :: Enabled(l, s, a) && !a.DoSubmit? && !a.DoClose? && !a.DoCloseTimedOut?
                        && !a.DoPersist? && !a.DoComplete? && (a.DoCancel? ==> WriteWasCancelled(s))
  {
    hide Core, Placed, Truthful, Bounded, TaskFits, Enumerates, Honest, CancelBatch;
    match s.worker
    case Created => assert Enabled(l, s, DoBegin);
    case Looping =>
      if s.queue != [] {
        assert Enabled(l, s, DoTakeBatch);
      } else {
        var values := PendingInOrder(l, s);
        assert Enabled(l, s, DoExit(values));
      }
    case Trying(_, _, _) =>
      var t := FreshTask(s.tasks.Keys);
      assert Enabled(l, s, DoAttempt(0.0, t));
    case Waiting(_, _, _, t) =>
      var status := s.tasks[t].status;
      if status.Running? {
        assert Enabled(l, s, DoTimeOut);
      } else if status.TaskCancelled? {
        var values := PendingAfterCancel(l, s);
        assert Enabled(l, s, DoCancel(values));
      } else {
        assert Enabled(l, s, DoRead);
      }
    case Sleeping(batch, _, _) =>
      if e :| e in batch && e.id in s.writes {
        assert Enabled(l, s, DoWriteDone(s.writes[e.id]));
      } else {
        assert Enabled(l, s, DoWake);
      }
  }

  lemma {:induction false} FreshTask(used: set<TaskId>) returns (t: TaskId)
    ensures t !in used && forall u :: u in used ==> u < t
  {
    if used == {} {
      t := 0;
    } else {
      var u :| u in used;
      var v := FreshTask(used - {u});
      t := if v <= u then u + 1 else v;
      assert forall w :: w in used ==> w == u || w in used - {u};
    }
  }

  lemma {:induction false} InOrder(m: map<Id, Entry>) returns (values: seq<Event>)
    requires forall id :: id in m ==> m[id].event.id == id
    ensures Enumerates(values, m)
    decreases |m|
  {
    hide IdSet, Distinct;
    if m == map[] {
      values := [];
      NothingToEnumerate(m);
    } else {
      var id := Pick(m);
      RemoveShrinks(m, id);
      var rest := InOrder(m - {id});
      values := rest + [m[id].event];
      OrderSnoc(m, id, rest);
    }
  }

  lemma NothingToEnumerate(m: map<Id, Entry>)
    requires m == map[]
    ensures Enumerates([], m)
  {
  }

  lemma OrderSnoc(m: map<Id, Entry>, id: Id, rest: seq<Event>)
    requires id in m && m[id].event.id == id && Enumerates(rest, m - {id})
    ensures Enumerates(rest + [m[id].event], m)
  {
    var values := rest + [m[id].event];
    assert forall e :: e in values <==> e in rest || e == m[id].event;
    assert IdSet(values) == IdSet(rest) + {id};
    assert forall i :: 0 <= i < |rest| ==> rest[i] in rest;
  }

  lemma PendingInOrder(l: Limits, s: State) returns (values: seq<Event>)
    requires Inv(l, s)
    ensures Enumerates(values, s.pending)
  {
    hide Enumerates, Placed, Reserved, Truthful, Bounded, Budgeted, Counted;
    values := InOrder(s.pending);
  }

  lemma PendingAfterCancel(l: Limits, s: State) returns (values: seq<Event>)
    requires Inv(l, s) && s.worker.Waiting?
    ensures Enumerates(values, CancelBatch(s).pending)
  {
    hide Enumerates, Placed, Reserved, Truthful, Bounded, Budgeted, Counted;
    FinishAllKeepsCore(l, s, s.worker.batch, IdSet(s.worker.batch), DroppedShutdown);
    values := InOrder(CancelBatch(s).pending);
  }
}
