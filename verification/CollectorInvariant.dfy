/** The collector's invariant: the memory account, the shape of the protocol, and the truth of its verdicts. */
module CollectorInvariant {
  import opened Options
  import opened CollectorModel
  import opened Totals

  ghost function Sizes(p: map<Id, Entry>): map<Id, nat>
  {
    map id | id in p :: p[id].size
  }

  /** What holds between any two field updates: the reservation account and the outcome counts. */
  ghost predicate Core(l: Limits, s: State)
  {
    && Tracked(s.pending, s.writes, s.finished, s.submitted, s.outcomes.Keys)
    && Budgeted(l, s.pending, s.bytes)
    && Counted(s.outcomes, s.notices, s.counters, s.rejections, s.submitted, s.complete)
  }

  /** A settled event keeps its reservation exactly while it is in `finished`, that is, while it is being written. */
  ghost predicate Tracked(
    pending: map<Id, Entry>, writes: map<Id, TaskId>, finished: set<Id>, submitted: set<Id>, settled: set<Id>)
  {
    && (forall id :: id in finished ==> id in writes)
    && (forall id :: id in writes ==> id in pending)
    && (forall id :: id in submitted <==> id in pending || id in settled)
    && (forall id :: id in finished <==> id in pending && id in settled)
    && (forall id :: id in pending ==> pending[id].event.id == id)
  }

  ghost predicate Budgeted(l: Limits, pending: map<Id, Entry>, bytes: int)
  {
    bytes == Sum(Sizes(pending)) && |pending| <= l.maxEvents && bytes <= l.maxBytes
  }

  /** Every counter of outcomes is exact, and completeness is given up with the first ack_unknown. */
  ghost predicate Counted(
    outcomes: map<Id, Outcome>, notices: multiset<Outcome>, counters: multiset<Counter>,
    rejections: multiset<Counter>, submitted: set<Id>, complete: bool)
  {
    && (forall o :: notices[o] == Count(outcomes, o))
    && (forall o :: counters[Settled(o)] == Count(outcomes, o) + rejections[Settled(o)])
    && counters[Submitted] == |submitted|
    && (forall c :: c in rejections ==> Rejects(c))
    && (complete ==> forall id :: id in outcomes ==> outcomes[id] != AckUnknown)
  }

  /** The counters a refused submit can use. */
  ghost predicate Rejects(c: Counter)
  {
    c == Settled(DroppedShutdown) || c == Settled(DroppedExpired) || c == DroppedInvalid || c == DroppedCapacity
  }

  ghost predicate Tallied(s: State)
  {
    Counted(s.outcomes, s.notices, s.counters, s.rejections, s.submitted, s.complete)
  }

  /** The queue, the batch and the settled events still being written make up `pending`. */
  ghost predicate Partition(
    queue: seq<Entry>, batch: seq<Event>, pending: map<Id, Entry>, finished: set<Id>, writes: map<Id, TaskId>)
  {
    && Distinct(Events(queue)) && Distinct(batch)
    && (forall x :: x in queue ==> Waits(x.event, pending, finished) && pending[x.event.id] == x && x.event.id !in writes)
    && (forall e :: e in batch ==> Waits(e, pending, finished) && e.id !in QueueIds(queue))
    && (forall id :: id in pending ==> id in QueueIds(queue) || id in IdSet(batch) || id in finished)
  }

  ghost predicate Waits(e: Event, pending: map<Id, Entry>, finished: set<Id>)
  {
    e.id in pending && pending[e.id].event == e && e.id !in finished
  }

  ghost predicate Placed(l: Limits, s: State)
  {
    && Partition(s.queue, BatchOf(s.worker), s.pending, s.finished, s.writes)
    && FrameFits(l, s.worker, s.queue)
  }

  ghost predicate FrameFits(l: Limits, w: Worker, queue: seq<Entry>)
  {
    && (w.Absent? ==> queue == [])
    && (w.Trying? || w.Waiting? || w.Sleeping? ==> w.batch != [] && w.attempt < l.maxAttempts)
  }

  /** `writes` is exactly the reservation table of the tasks whose callback has not run. */
  ghost predicate TasksFit(tasks: map<TaskId, Task>, writes: map<Id, TaskId>, submitted: set<Id>)
  {
    && (forall t :: t in tasks ==> TaskFits(t, tasks[t], writes, submitted))
    && (forall id :: id in writes ==>
          writes[id] in tasks && id in tasks[writes[id]].ids && !tasks[writes[id]].calledBack)
  }

  ghost predicate TaskFits(t: TaskId, task: Task, writes: map<Id, TaskId>, submitted: set<Id>)
  {
    && (forall i, j :: 0 <= i < j < |task.ids| ==> task.ids[i] != task.ids[j])
    && (forall id :: id in task.ids ==> id in submitted)
    && (task.status.Running? ==> !task.calledBack)
    && (!task.calledBack ==> forall id :: id in task.ids ==> id in writes && writes[id] == t)
  }

  ghost predicate Reserved(s: State)
  {
    TasksFit(s.tasks, s.writes, s.submitted) && WriteFits(s.worker, s.tasks, s.writes)
  }

  ghost predicate WriteFits(w: Worker, tasks: map<TaskId, Task>, writes: map<Id, TaskId>)
  {
    && (w.Waiting? ==>
          && w.task in tasks && tasks[w.task].ids == Ids(w.batch)
          && forall e :: e in w.batch && e.id in writes ==> writes[e.id] == w.task)
    && (w.Trying? ==> forall e :: e in w.batch ==> e.id !in writes)
    && (w.Sleeping? ==> forall e :: e in w.batch && e.id in writes ==>
          writes[e.id] in tasks && !tasks[writes[e.id]].status.Running?)
  }

  /** Every attempt but `except` has ended with a clean refusal of the event. */
  ghost predicate Refused(tasks: map<TaskId, Task>, id: Id, except: Option<TaskId>)
  {
    forall t :: t in tasks && id in tasks[t].ids && Some(t) != except ==> RefusedBy(tasks[t], id)
  }

  ghost predicate RefusedBy(task: Task, id: Id)
  {
    task.status.Returned? && CleanFailure(task.status.result, id)
  }

  /** The store holds what its attempts persisted, and its clean answers are honest. */
  ghost predicate StoreFits(tasks: map<TaskId, Task>, store: set<Id>)
  {
    && (forall id :: id in store ==> exists t :: t in tasks && id in tasks[t].persisted)
    && (forall t :: t in tasks ==> AnswerFits(tasks[t], store))
  }

  ghost predicate AnswerFits(task: Task, store: set<Id>)
  {
    && (forall id :: id in task.persisted ==> id in task.ids && id in store)
    && (task.status.Returned? ==> forall id :: id in task.ids ==>
          && (CleanAck(task.status.result, id) ==> id in store)
          && (CleanFailure(task.status.result, id) ==> id !in task.persisted))
  }

  ghost predicate QueueUntouched(tasks: map<TaskId, Task>, queue: seq<Entry>)
  {
    forall t, x :: t in tasks && x in queue ==> x.event.id !in tasks[t].ids
  }

  /** The events of the batch that are not marked uncertain have been refused by every finished attempt. */
  ghost predicate Believed(tasks: map<TaskId, Task>, batch: seq<Event>, uncertain: set<Id>, except: Option<TaskId>)
  {
    forall e :: e in batch && e.id !in uncertain ==> Refused(tasks, e.id, except)
  }

  /** What an outcome says about the store, now and in every continuation. */
  ghost predicate Means(o: Outcome, tasks: map<TaskId, Task>, store: set<Id>, id: Id)
  {
    match o
    case Stored => id in store
    case AckUnknown => true
    case _ => Refused(tasks, id, None)
  }

  ghost predicate Verdicts(outcomes: map<Id, Outcome>, tasks: map<TaskId, Task>, store: set<Id>)
  {
    forall id :: id in outcomes ==> Means(outcomes[id], tasks, store, id)
  }

  ghost function Current(w: Worker): Option<TaskId>
  {
    if w.Waiting? then Some(w.task) else None
  }

  ghost function Uncertain(w: Worker): set<Id>
  {
    if w.Trying? || w.Waiting? || w.Sleeping? then w.uncertain else {}
  }

  ghost predicate Truthful(s: State)
  {
    && StoreFits(s.tasks, s.store) && QueueUntouched(s.tasks, s.queue) && Verdicts(s.outcomes, s.tasks, s.store)
    && Believed(s.tasks, BatchOf(s.worker), Uncertain(s.worker), Current(s.worker))
  }

  ghost function AttemptsOf(tasks: map<TaskId, Task>, id: Id): set<TaskId>
  {
    set t | t in tasks && id in tasks[t].ids
  }

  ghost predicate Tried(tasks: map<TaskId, Task>, batch: seq<Event>, n: nat)
  {
    forall e :: e in batch ==> |AttemptsOf(tasks, e.id)| <= n
  }

  ghost function AttemptBound(w: Worker): nat
  {
    if w.Trying? || w.Sleeping? then w.attempt else if w.Waiting? then w.attempt + 1 else 0
  }

  /** No event is handed to the store more often than the attempt limit. */
  ghost predicate Bounded(l: Limits, s: State)
  {
    && TriedAtMost(s.tasks, s.submitted, l.maxAttempts)
    && Tried(s.tasks, BatchOf(s.worker), AttemptBound(s.worker))
  }

  ghost predicate TriedAtMost(tasks: map<TaskId, Task>, ids: set<Id>, n: nat)
  {
    forall id :: id in ids ==> |AttemptsOf(tasks, id)| <= n
  }

  ghost predicate Inv(l: Limits, s: State)
  {
    Core(l, s) && Placed(l, s) && Reserved(s) && Truthful(s) && Bounded(l, s)
  }

  lemma InitiallyInv(l: Limits)
    ensures Inv(l, INITIAL)
  {
    assert Sizes(INITIAL.pending) == map[];
    forall o ensures Count(INITIAL.outcomes, o) == 0 {
      assert KeysOf(INITIAL.outcomes, o) == {};
    }
  }

  // ----- one field update at a time -----

  lemma DropSize(p: map<Id, Entry>, id: Id)
    requires id in p
    ensures Sum(Sizes(p)) == p[id].size + Sum(Sizes(p - {id}))
    ensures |p - {id}| == |p| - 1
  {
    SumRemove(Sizes(p), id);
    assert Sizes(p - {id}) == Sizes(p) - {id};
    RemoveShrinks(p, id);
  }

  lemma FinishCounts(s: State, e: Event, o: Outcome)
    requires Tallied(s) && e.id !in s.outcomes
    ensures Tallied(Finish(s, e, o))
  {
    hide Count;
    CountInsert(s.outcomes, e.id, o);
    assert forall p :: Finish(s, e, o).counters[Settled(p)] >= s.counters[Settled(p)];
  }

  lemma FinishKeepsTracked(s: State, e: Event, o: Outcome)
    requires Tracked(s.pending, s.writes, s.finished, s.submitted, s.outcomes.Keys)
    ensures
      var s' := Finish(s, e, o);
      Tracked(s'.pending, s'.writes, s'.finished, s'.submitted, s'.outcomes.Keys)
  {
  }

  lemma FinishKeepsCore(l: Limits, s: State, e: Event, o: Outcome)
    requires Core(l, s)
    ensures Core(l, Finish(s, e, o))
  {
    FinishKeepsTracked(s, e, o);
    if e.id in s.pending && e.id !in s.finished {
      assert e.id !in s.outcomes;
      DropSize(s.pending, e.id);
      FinishCounts(s, e, o);
    }
  }

  lemma ReleaseKeepsCore(l: Limits, s: State, id: Id)
    requires Core(l, s)
    ensures Core(l, Release(s, id))
  {
    if id in s.pending {
      DropSize(s.pending, id);
    }
  }

  // ----- settling a list of events -----

  /** The event still awaits a verdict. */
  ghost predicate Open(s: State, id: Id)
  {
    id in s.pending && id !in s.finished
  }

  ghost predicate SameWorld(s: State, s': State)
  {
    && s'.queue == s.queue && s'.writes == s.writes && s'.closed == s.closed && s'.worker == s.worker
    && s'.submitted == s.submitted && s'.rejections == s.rejections
    && s'.tasks == s.tasks && s'.store == s.store
  }

  /** What settling a set of events does, as one update of the fields. */
  ghost predicate Settles(s: State, s': State, ids: set<Id>, uncertain: set<Id>, otherwise: Outcome)
  {
    SettlesMemory(s, s', ids) && SettlesVerdicts(s, s', ids, uncertain, otherwise)
  }

  ghost predicate SettlesMemory(s: State, s': State, ids: set<Id>)
  {
    && (forall id :: id in s'.finished <==> id in s.finished || (id in ids && Open(s, id) && id in s.writes))
    && (forall id :: id in s'.pending <==> id in s.pending && (id in ids && Open(s, id) ==> id in s.writes))
    && (forall id :: id in s'.pending ==> s'.pending[id] == s.pending[id])
  }

  ghost predicate SettlesVerdicts(s: State, s': State, ids: set<Id>, uncertain: set<Id>, otherwise: Outcome)
  {
    && (forall id :: id in s'.outcomes <==> id in s.outcomes || (id in ids && Open(s, id)))
    && (forall id :: id in s'.outcomes ==>
          s'.outcomes[id] == if id in ids && Open(s, id) then Verdict(id, uncertain, otherwise) else s.outcomes[id])
  }

  lemma IdSetSnoc(es: seq<Event>)
    requires es != [] && Distinct(es)
    ensures IdSet(es) == IdSet(es[..|es| - 1]) + {es[|es| - 1].id}
    ensures es[|es| - 1].id !in IdSet(es[..|es| - 1])
  {
    var n := |es| - 1;
    assert es == es[..n] + [es[n]];
  }

  /** An event outside the settled ones is as open as it was. */
  lemma StillOpen(s: State, s1: State, ids: set<Id>, id: Id)
    requires id !in ids && SettlesMemory(s, s1, ids)
    ensures Open(s1, id) <==> Open(s, id)
  {
  }

  lemma FinishSettlesMemory(s: State, s1: State, ids: set<Id>, e: Event, o: Outcome)
    requires s1.writes == s.writes && e.id !in ids && SettlesMemory(s, s1, ids) && (Open(s1, e.id) <==> Open(s, e.id))
    ensures SettlesMemory(s, Finish(s1, e, o), ids + {e.id})
  {
    if Open(s, e.id) {
      SettledOneMore(s, s1, ids, e, o);
    }
  }

  lemma SettledOneMore(s: State, s1: State, ids: set<Id>, e: Event, o: Outcome)
    requires s1.writes == s.writes && e.id !in ids && SettlesMemory(s, s1, ids) && Open(s, e.id) && Open(s1, e.id)
    ensures SettlesMemory(s, Finish(s1, e, o), ids + {e.id})
  {
    var s2 := Finish(s1, e, o);
    assert s2.finished == if e.id in s.writes then s1.finished + {e.id} else s1.finished;
    assert s2.pending == if e.id in s.writes then s1.pending else s1.pending - {e.id};
    hide Finish;
  }

  lemma FinishSettlesVerdicts(s: State, s1: State, ids: set<Id>, e: Event, uncertain: set<Id>, otherwise: Outcome)
    requires e.id !in ids && (Open(s1, e.id) <==> Open(s, e.id))
    requires SettlesVerdicts(s, s1, ids, uncertain, otherwise)
    ensures SettlesVerdicts(s, Finish(s1, e, Verdict(e.id, uncertain, otherwise)), ids + {e.id}, uncertain, otherwise)
  {
  }

  lemma FinishSettles(s: State, s1: State, ids: set<Id>, e: Event, uncertain: set<Id>, otherwise: Outcome)
    requires Tracked(s.pending, s.writes, s.finished, s.submitted, s.outcomes.Keys)
    requires s1.writes == s.writes && e.id !in ids
    requires Settles(s, s1, ids, uncertain, otherwise)
    ensures Settles(s, Finish(s1, e, Verdict(e.id, uncertain, otherwise)), ids + {e.id}, uncertain, otherwise)
  {
    hide SettlesMemory, SettlesVerdicts, Tracked, Finish, Open;
    StillOpen(s, s1, ids, e.id);
    FinishSettlesMemory(s, s1, ids, e, Verdict(e.id, uncertain, otherwise));
    FinishSettlesVerdicts(s, s1, ids, e, uncertain, otherwise);
  }

  lemma {:induction false} FinishAllSettles(s: State, es: seq<Event>, uncertain: set<Id>, otherwise: Outcome)
    requires Tracked(s.pending, s.writes, s.finished, s.submitted, s.outcomes.Keys) && Distinct(es)
    ensures SameWorld(s, FinishAll(s, es, uncertain, otherwise))
    ensures Settles(s, FinishAll(s, es, uncertain, otherwise), IdSet(es), uncertain, otherwise)
    decreases |es|
  {
    if es != [] {
      hide Settles, Tracked, IdSet, Verdict;
      FinishAllSettles(s, es[..|es| - 1], uncertain, otherwise);
      IdSetSnoc(es);
      FinishSettles(s, FinishAll(s, es[..|es| - 1], uncertain, otherwise), IdSet(es[..|es| - 1]),
                    es[|es| - 1], uncertain, otherwise);
    }
  }

  lemma {:induction false} FinishAllKeepsCore(
    l: Limits, s: State, es: seq<Event>, uncertain: set<Id>, otherwise: Outcome)
    requires Core(l, s)
    ensures Core(l, FinishAll(s, es, uncertain, otherwise))
    decreases |es|
  {
    hide Core;
    if es != [] {
      var n := |es| - 1;
      FinishAllKeepsCore(l, s, es[..n], uncertain, otherwise);
      FinishKeepsCore(l, FinishAll(s, es[..n], uncertain, otherwise), es[n], Verdict(es[n].id, uncertain, otherwise));
    }
  }
}
