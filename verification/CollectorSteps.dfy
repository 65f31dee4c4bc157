/** Every action of the collector, of its store and of the event loop keeps the invariant. */
module CollectorSteps {
  import opened Options
  import opened CollectorModel
  import opened Totals
  import opened CollectorInvariant

  // ----- submit -----

  ghost predicate Acceptable(l: Limits, s: State, x: Entry)
  {
    && x.event.id !in s.submitted && x.event.id !in s.pending
    && |s.pending| < l.maxEvents && s.bytes + x.size <= l.maxBytes
  }

  lemma AcceptKeepsBudget(l: Limits, s: State, x: Entry)
    requires Budgeted(l, s.pending, s.bytes) && Acceptable(l, s, x)
    ensures Budgeted(l, Accept(s, x).pending, Accept(s, x).bytes)
  {
    hide Sum;
    SumInsert(Sizes(s.pending), x.event.id, x.size);
    assert Sizes(Accept(s, x).pending) == Sizes(s.pending)[x.event.id := x.size];
  }

  lemma AcceptKeepsCounted(s: State, x: Entry)
    requires Tallied(s) && x.event.id !in s.submitted
    ensures Tallied(Accept(s, x))
  {
    assert |Accept(s, x).submitted| == |s.submitted| + 1;
    assert forall o :: Accept(s, x).counters[Settled(o)] == s.counters[Settled(o)];
  }

  lemma AcceptKeepsTracked(l: Limits, s: State, x: Entry)
    requires Tracked(s.pending, s.writes, s.finished, s.submitted, s.outcomes.Keys) && Acceptable(l, s, x)
    ensures
      var s' := Accept(s, x);
      Tracked(s'.pending, s'.writes, s'.finished, s'.submitted, s'.outcomes.Keys)
  {
  }

  lemma AcceptKeepsCore(l: Limits, s: State, x: Entry)
    requires Core(l, s) && Acceptable(l, s, x)
    ensures Core(l, Accept(s, x))
  {
    hide Tracked, Budgeted, Counted;
    AcceptKeepsTracked(l, s, x);
    AcceptKeepsBudget(l, s, x);
    AcceptKeepsCounted(s, x);
  }

  lemma QueueIdsSnoc(queue: seq<Entry>, x: Entry)
    ensures QueueIds(queue + [x]) == QueueIds(queue) + {x.event.id}
    ensures Events(queue + [x]) == Events(queue) + [x.event]
    ensures forall i :: 0 <= i < |queue| ==> Events(queue)[i].id in QueueIds(queue)
  {
    assert forall y :: y in queue + [x] <==> y in queue || y == x;
    assert forall i :: 0 <= i < |queue| ==> queue[i] in queue;
  }

  lemma AcceptKeepsPartition(l: Limits, s: State, x: Entry, batch: seq<Event>)
    requires Tracked(s.pending, s.writes, s.finished, s.submitted, s.outcomes.Keys) && Acceptable(l, s, x)
    requires Partition(s.queue, batch, s.pending, s.finished, s.writes)
    ensures var s' := Accept(s, x); Partition(s'.queue, batch, s'.pending, s'.finished, s'.writes)
  {
    hide QueueIds, IdSet, Events;
    QueueIdsSnoc(s.queue, x);
  }

  lemma NeverTried(tasks: map<TaskId, Task>, writes: map<Id, TaskId>, submitted: set<Id>, id: Id)
    requires TasksFit(tasks, writes, submitted) && id !in submitted
    ensures forall t :: t in tasks ==> id !in tasks[t].ids
    ensures AttemptsOf(tasks, id) == {}
    ensures TasksFit(tasks, writes, submitted + {id})
  {
    forall t | t in tasks ensures id !in tasks[t].ids && TaskFits(t, tasks[t], writes, submitted + {id}) {
      assert TaskFits(t, tasks[t], writes, submitted);
    }
  }

  lemma AcceptKeepsInv(l: Limits, s: State, x: Entry)
    requires Inv(l, s) && Acceptable(l, s, x)
    ensures Inv(l, Accept(s, x))
  {
    hide Tracked, Budgeted, Counted, Partition, TasksFit, StoreFits, Verdicts, Believed, Tried, AttemptsOf;
    AcceptKeepsCore(l, s, x);
    AcceptKeepsPartition(l, s, x, BatchOf(s.worker));
    NeverTried(s.tasks, s.writes, s.submitted, x.event.id);
  }

  lemma RejectKeepsInv(l: Limits, s: State, c: Counter)
    requires Inv(l, s) && Rejects(c)
    ensures Inv(l, Reject(s, c))
  {
    hide Tracked, Budgeted, Counted, Partition, TasksFit, StoreFits, QueueUntouched, Verdicts, Believed, Tried,
      TriedAtMost;
    RejectKeepsTally(s, c);
  }

  lemma RejectKeepsTally(s: State, c: Counter)
    requires Tallied(s) && Rejects(c)
    ensures Tallied(Reject(s, c))
  {
    hide Count;
  }

  // ----- settling and releasing leave the queue and the worker alone -----

  lemma {:induction false} FinishAllKeepsFrame(s: State, es: seq<Event>, uncertain: set<Id>, otherwise: Outcome)
    ensures
      var s' := FinishAll(s, es, uncertain, otherwise);
      s'.queue == s.queue && s'.worker == s.worker && s'.submitted == s.submitted && s'.store == s.store
    decreases |es|
  {
    if es != [] {
      FinishAllKeepsFrame(s, es[..|es| - 1], uncertain, otherwise);
    }
  }

  lemma {:induction false} ReleaseAllKeepsFrame(s: State, ids: seq<Id>)
    ensures
      var s' := ReleaseAll(s, ids);
      s'.queue == s.queue && s'.worker == s.worker && s'.submitted == s.submitted && s'.store == s.store
    decreases |ids|
  {
    if ids != [] {
      ReleaseAllKeepsFrame(s, ids[..|ids| - 1]);
    }
  }

  // ----- taking a batch -----

  lemma TakeBatchKeepsPartition(l: Limits, s: State)
    requires ValidLimits(l) && s.worker.Looping? && s.queue != []
    requires Partition(s.queue, [], s.pending, s.finished, s.writes)
    ensures
      var s' := TakeBatch(l, s);
      Partition(s'.queue, s'.worker.batch, s'.pending, s'.finished, s'.writes) && s'.worker.batch != []
    ensures forall e :: e in TakeBatch(l, s).worker.batch ==> e.id !in s.writes
  {
    hide IdSet, QueueIds, Events;
    var n := Min(|s.queue|, l.batchSize);
    QueueSplit(s.queue, n);
  }

  lemma QueueSplit(queue: seq<Entry>, n: nat)
    requires n <= |queue| && Distinct(Events(queue))
    ensures QueueIds(queue) == IdSet(Events(queue[..n])) + QueueIds(queue[n..])
    ensures IdSet(Events(queue[..n])) !! QueueIds(queue[n..])
    ensures Events(queue[n..]) == Events(queue)[n..]
    ensures Events(queue[..n]) == Events(queue)[..n]
    ensures IdSet([]) == {}
    ensures forall e :: e in Events(queue[..n]) ==> e.id in IdSet(Events(queue[..n]))
    ensures forall e :: e in Events(queue[..n]) ==> exists x :: x in queue && x.event == e
  {
    assert Events(queue[n..]) == Events(queue)[n..];
    assert Events(queue[..n]) == Events(queue)[..n];
    assert queue == queue[..n] + queue[n..];
    forall id | id in QueueIds(queue) ensures id in IdSet(Events(queue[..n])) + QueueIds(queue[n..]) {
      var i :| 0 <= i < |queue| && queue[i].event.id == id;
      if i < n {
        assert Events(queue[..n])[i].id == id;
      } else {
        assert queue[n..][i - n].event.id == id;
      }
    }
    forall id | id in IdSet(Events(queue[..n])) ensures id in QueueIds(queue) && id !in QueueIds(queue[n..]) {
      var i :| 0 <= i < n && Events(queue[..n])[i].id == id;
      assert queue[i] in queue;
      forall j | n <= j < |queue| ensures queue[j].event.id != id {
        assert Events(queue)[i].id == id && Events(queue)[j].id == queue[j].event.id;
      }
    }
    forall id | id in QueueIds(queue[n..]) ensures id in QueueIds(queue) {
    }
    forall e | e in Events(queue[..n]) ensures exists x :: x in queue && x.event == e {
      var i :| 0 <= i < n && Events(queue[..n])[i] == e;
      assert queue[i] in queue;
    }
  }

  // ----- settling a part of the batch -----

  /** A list of distinct events cut in two. */
  ghost predicate Splits(batch: seq<Event>, es: seq<Event>, rest: seq<Event>)
  {
    && Distinct(es) && Distinct(rest)
    && IdSet(batch) == IdSet(es) + IdSet(rest)
    && IdSet(es) !! IdSet(rest)
    && (forall e :: e in rest ==> e in batch && e.id in IdSet(rest))
  }

  lemma DistinctSnoc(es: seq<Event>, e: Event)
    requires Distinct(es) && forall x :: x in es ==> x.id != e.id
    ensures Distinct(es + [e])
  {
    assert forall i :: 0 <= i < |es| ==> (es + [e])[i] == es[i] && es[i] in es;
  }

  lemma DistinctInit(es: seq<Event>)
    requires Distinct(es) && es != []
    ensures Distinct(es[..|es| - 1]) && forall x :: x in es[..|es| - 1] ==> x.id != es[|es| - 1].id
  {
  }

  lemma {:induction false} KeepDrop(es: seq<Event>, ids: set<Id>)
    requires Distinct(es)
    ensures forall e :: e in Keep(es, ids) <==> e in es && e.id in ids
    ensures forall e :: e in Drop(es, ids) <==> e in es && e.id !in ids
    ensures Distinct(Keep(es, ids)) && Distinct(Drop(es, ids))
  {
    if es == [] {
      assert Distinct([]);
    } else {
      hide Distinct;
      var n := |es| - 1;
      DistinctInit(es);
      KeepDrop(es[..n], ids);
      assert es == es[..n] + [es[n]];
      if es[n].id in ids {
        DistinctSnoc(Keep(es[..n], ids), es[n]);
        assert Drop(es, ids) == Drop(es[..n], ids);
      } else {
        DistinctSnoc(Drop(es[..n], ids), es[n]);
        assert Keep(es, ids) == Keep(es[..n], ids);
      }
    }
  }

  lemma KeepDropSplits(es: seq<Event>, ids: set<Id>)
    requires Distinct(es)
    ensures Splits(es, Keep(es, ids), Drop(es, ids))
    ensures forall id :: id in IdSet(Keep(es, ids)) ==> id in ids
  {
    hide Keep, Drop, Distinct;
    KeepDrop(es, ids);
  }

  lemma SettlePartition(
    s: State, s': State, batch: seq<Event>, es: seq<Event>, rest: seq<Event>)
    requires Tracked(s.pending, s.writes, s.finished, s.submitted, s.outcomes.Keys)
    requires Partition(s.queue, batch, s.pending, s.finished, s.writes)
    requires s'.queue == s.queue && s'.writes == s.writes && SettlesMemory(s, s', IdSet(es))
    requires Splits(batch, es, rest)
    ensures Partition(s'.queue, rest, s'.pending, s'.finished, s'.writes)
  {
    hide IdSet, QueueIds, Distinct;
    IdsCover(batch, es, rest, s.queue);
  }

  lemma IdsCover(batch: seq<Event>, es: seq<Event>, rest: seq<Event>, queue: seq<Entry>)
    requires Splits(batch, es, rest)
    ensures forall x :: x in queue ==> x.event.id in QueueIds(queue)
    ensures forall id :: id in IdSet(es) ==> exists e :: e in batch && e.id == id
  {
    forall id | id in IdSet(es) ensures exists e :: e in batch && e.id == id {
      assert id in IdSet(batch);
    }
  }

  lemma SettleVerdicts(s: State, s': State, ids: set<Id>, uncertain: set<Id>, otherwise: Outcome)
    requires Verdicts(s.outcomes, s.tasks, s.store)
    requires SettlesVerdicts(s, s', ids, uncertain, otherwise)
    requires forall id :: id in ids && Open(s, id) ==> Means(Verdict(id, uncertain, otherwise), s.tasks, s.store, id)
    ensures Verdicts(s'.outcomes, s.tasks, s.store)
  {
    hide Means;
  }

  /** Settling a part of the batch truthfully leaves the rest of the batch in hand. */
  lemma SettlePart(
    l: Limits, s: State, batch: seq<Event>, es: seq<Event>, rest: seq<Event>,
    uncertain: set<Id>, otherwise: Outcome)
    requires Core(l, s) && Partition(s.queue, batch, s.pending, s.finished, s.writes)
    requires Verdicts(s.outcomes, s.tasks, s.store)
    requires Splits(batch, es, rest)
    requires forall id :: id in IdSet(es) ==> Means(Verdict(id, uncertain, otherwise), s.tasks, s.store, id)
    ensures
      var s' := FinishAll(s, es, uncertain, otherwise);
      && Core(l, s') && SameWorld(s, s')
      && Partition(s'.queue, rest, s'.pending, s'.finished, s'.writes)
      && Verdicts(s'.outcomes, s'.tasks, s'.store)
  {
    hide Tracked, Budgeted, Counted, Partition, SettlesMemory, SettlesVerdicts, IdSet, Distinct, Means, Verdicts;
    var s' := FinishAll(s, es, uncertain, otherwise);
    FinishAllKeepsCore(l, s, es, uncertain, otherwise);
    FinishAllSettles(s, es, uncertain, otherwise);
    SettlePartition(s, s', batch, es, rest);
    SettleVerdicts(s, s', IdSet(es), uncertain, otherwise);
  }

  ghost predicate Dropped(o: Outcome)
  {
    o != Stored && o != AckUnknown
  }

  lemma BelievedMeans(
    tasks: map<TaskId, Task>, store: set<Id>, batch: seq<Event>, uncertain: set<Id>, otherwise: Outcome)
    requires Believed(tasks, batch, uncertain, None) && Dropped(otherwise)
    ensures forall id :: id in IdSet(batch) ==> Means(Verdict(id, uncertain, otherwise), tasks, store, id)
  {
    hide Refused;
  }

  lemma DistinctBatch(s: State, batch: seq<Event>)
    requires Partition(s.queue, batch, s.pending, s.finished, s.writes)
    ensures Distinct(batch)
  {
  }

  /** What every step of the worker leaves in place outside the batch. */
  ghost predicate Ground(l: Limits, s: State)
  {
    && TasksFit(s.tasks, s.writes, s.submitted) && StoreFits(s.tasks, s.store)
    && QueueUntouched(s.tasks, s.queue) && TriedAtMost(s.tasks, s.submitted, l.maxAttempts)
  }

  lemma LoopingInv(l: Limits, s: State)
    requires Core(l, s) && Partition(s.queue, [], s.pending, s.finished, s.writes)
    requires Ground(l, s) && Verdicts(s.outcomes, s.tasks, s.store)
    ensures Inv(l, s.(worker := Looping))
  {
    hide Tracked, Budgeted, Counted, Partition, TasksFit, StoreFits, QueueUntouched, Verdicts, TriedAtMost;
  }

  lemma WholeBatchSplits(batch: seq<Event>)
    requires Distinct(batch)
    ensures Splits(batch, batch, [])
  {
  }

  // ----- starting a write -----

  lemma IdsAreIdSet(es: seq<Event>)
    ensures forall id :: id in Ids(es) <==> id in IdSet(es)
    ensures forall e :: e in es ==> e.id in IdSet(es)
    ensures forall id :: id in IdSet(es) ==> exists e :: e in es && e.id == id
  {
    forall id | id in IdSet(es) ensures id in Ids(es) {
      var i :| 0 <= i < |es| && es[i].id == id;
      assert Ids(es)[i] == id;
    }
  }

  lemma StartKeepsTasksFit(
    tasks: map<TaskId, Task>, writes: map<Id, TaskId>, submitted: set<Id>, t: TaskId, live: seq<Event>)
    requires TasksFit(tasks, writes, submitted) && t !in tasks && Distinct(live)
    requires forall e :: e in live ==> e.id in submitted && e.id !in writes
    ensures TasksFit(Started(tasks, t, live), writes + Claims(live, t), submitted)
  {
    hide IdSet;
    IdsAreIdSet(live);
    var tasks', writes' := Started(tasks, t, live), writes + Claims(live, t);
    forall u | u in tasks' ensures TaskFits(u, tasks'[u], writes', submitted) {
      if u != t {
        assert TaskFits(u, tasks[u], writes, submitted);
      }
    }
  }

  lemma StartKeepsStoreFits(tasks: map<TaskId, Task>, store: set<Id>, t: TaskId, live: seq<Event>)
    requires StoreFits(tasks, store) && t !in tasks
    ensures StoreFits(Started(tasks, t, live), store)
  {
    var tasks' := Started(tasks, t, live);
    forall id | id in store ensures exists u :: u in tasks' && id in tasks'[u].persisted {
      var u :| u in tasks && id in tasks[u].persisted;
      assert tasks'[u] == tasks[u];
    }
  }

  lemma StartKeepsTruth(
    s: State, t: TaskId, live: seq<Event>, uncertain: set<Id>)
    requires StoreFits(s.tasks, s.store) && QueueUntouched(s.tasks, s.queue)
    requires Verdicts(s.outcomes, s.tasks, s.store) && Believed(s.tasks, live, uncertain, None)
    requires t !in s.tasks
    requires forall e :: e in live ==> e.id !in s.outcomes && e.id !in QueueIds(s.queue)
    ensures
      var tasks' := Started(s.tasks, t, live);
      && StoreFits(tasks', s.store) && QueueUntouched(tasks', s.queue)
      && Verdicts(s.outcomes, tasks', s.store) && Believed(tasks', live, uncertain, Some(t))
  {
    hide IdSet, StoreFits;
    StartKeepsStoreFits(s.tasks, s.store, t, live);
    IdsAreIdSet(live);
  }

  lemma StartCounts(tasks: map<TaskId, Task>, t: TaskId, live: seq<Event>, id: Id)
    requires t !in tasks
    ensures |AttemptsOf(Started(tasks, t, live), id)| <= |AttemptsOf(tasks, id)| + 1
    ensures |AttemptsOf(Started(tasks, t, live), id)| == |AttemptsOf(tasks, id)| + (if id in IdSet(live) then 1 else 0)
  {
    IdsAreIdSet(live);
    var tasks' := Started(tasks, t, live);
    if id in Ids(live) {
      assert AttemptsOf(tasks', id) == AttemptsOf(tasks, id) + {t};
    } else {
      assert AttemptsOf(tasks', id) == AttemptsOf(tasks, id);
    }
  }

  lemma StartKeepsBounded(
    tasks: map<TaskId, Task>, t: TaskId, live: seq<Event>, ids: set<Id>, k: nat, n: nat)
    requires t !in tasks && k < n
    requires TriedAtMost(tasks, ids, n) && Tried(tasks, live, k)
    ensures TriedAtMost(Started(tasks, t, live), ids, n) && Tried(Started(tasks, t, live), live, k + 1)
  {
    hide AttemptsOf, IdSet;
    IdsAreIdSet(live);
    forall id ensures |AttemptsOf(Started(tasks, t, live), id)| <= |AttemptsOf(tasks, id)| + 1 {
      StartCounts(tasks, t, live, id);
    }
    forall id | id in ids ensures |AttemptsOf(Started(tasks, t, live), id)| <= n {
      StartCounts(tasks, t, live, id);
      if id in IdSet(live) {
        var e :| e in live && e.id == id;
      }
    }
  }

  lemma StartKeepsTracked(s: State, live: seq<Event>, t: TaskId)
    requires Tracked(s.pending, s.writes, s.finished, s.submitted, s.outcomes.Keys)
    requires forall e :: e in live ==> Waits(e, s.pending, s.finished)
    ensures Tracked(s.pending, s.writes + Claims(live, t), s.finished, s.submitted, s.outcomes.Keys)
  {
  }

  lemma StartKeepsPartition(s: State, live: seq<Event>, t: TaskId)
    requires Partition(s.queue, live, s.pending, s.finished, s.writes)
    ensures Partition(s.queue, live, s.pending, s.finished, s.writes + Claims(live, t))
  {
    hide Distinct;
    assert forall x :: x in s.queue ==> x.event.id in QueueIds(s.queue);
  }

  lemma StartWriteKeepsInv(l: Limits, s: State, live: seq<Event>, uncertain: set<Id>, k: nat, t: TaskId)
    requires Core(l, s) && Partition(s.queue, live, s.pending, s.finished, s.writes)
    requires TasksFit(s.tasks, s.writes, s.submitted)
    requires StoreFits(s.tasks, s.store) && QueueUntouched(s.tasks, s.queue)
    requires Verdicts(s.outcomes, s.tasks, s.store) && Believed(s.tasks, live, uncertain, None)
    requires TriedAtMost(s.tasks, s.submitted, l.maxAttempts) && Tried(s.tasks, live, k)
    requires t !in s.tasks && live != [] && k < l.maxAttempts
    requires forall e :: e in live ==> e.id !in s.writes
    ensures Inv(l, StartWrite(s, live, uncertain, k, t))
  {
    hide Budgeted, Counted, TasksFit, StoreFits, QueueUntouched, Verdicts, Believed, Tried, TriedAtMost;
    hide Tracked, Partition, IdSet, QueueIds, Distinct, Claims;
    StartFacts(l, s, live);
    StartKeepsTracked(s, live, t);
    StartKeepsPartition(s, live, t);
    StartKeepsTasksFit(s.tasks, s.writes, s.submitted, t, live);
    StartKeepsTruth(s, t, live, uncertain);
    StartKeepsBounded(s.tasks, t, live, s.submitted, k, l.maxAttempts);
  }

  lemma StartFacts(l: Limits, s: State, live: seq<Event>)
    requires Core(l, s) && Partition(s.queue, live, s.pending, s.finished, s.writes)
    ensures Distinct(live)
    ensures forall e :: e in live ==>
      && Waits(e, s.pending, s.finished) && e.id in s.submitted
      && e.id !in s.outcomes && e.id !in QueueIds(s.queue)
  {
  }

  lemma AttemptKeepsInv(l: Limits, s: State, now: real, t: TaskId)
    requires Inv(l, s) && s.worker.Trying? && t !in s.tasks
    ensures Inv(l, Attempt(l, s, now, t))
  {
    hide Tracked, Budgeted, Counted, Partition, TasksFit, StoreFits, QueueUntouched, Verdicts, Believed, Tried,
      TriedAtMost;
    hide IdSet, Distinct, Means, Splits, Aged, Keep, Drop;
    var w := s.worker;
    var aged := Aged(l, w.batch, now);
    var es, live := Keep(w.batch, aged), Drop(w.batch, aged);
    DistinctBatch(s, w.batch);
    KeepDropSplits(w.batch, aged);
    SubBatch(w.batch, es, live, s.tasks, w.uncertain, w.attempt);
    BelievedMeans(s.tasks, s.store, w.batch, w.uncertain, DroppedExpired);
    SettlePart(l, s, w.batch, es, live, w.uncertain, DroppedExpired);
    var s1 := FinishAll(s, es, w.uncertain, DroppedExpired);
    if live == [] {
      LoopingInv(l, s1);
    } else {
      StartWriteKeepsInv(l, s1, live, w.uncertain, w.attempt, t);
    }
  }

  lemma SubBatch(
    batch: seq<Event>, es: seq<Event>, rest: seq<Event>, tasks: map<TaskId, Task>, uncertain: set<Id>, n: nat)
    requires Splits(batch, es, rest)
    ensures IdSet(es) <= IdSet(batch)
    ensures forall e :: e in rest ==> e in batch
    ensures Believed(tasks, batch, uncertain, None) ==> Believed(tasks, rest, uncertain, None)
    ensures Tried(tasks, batch, n) ==> Tried(tasks, rest, n)
  {
    hide Refused, AttemptsOf;
  }

  // ----- the end of a wait -----

  lemma BumpKeepsCore(l: Limits, s: State, c: Counter, n: nat)
    requires Core(l, s) && !c.Settled? && c != Submitted
    ensures Core(l, s.(counters := s.counters + Copies(c, n)))
  {
    hide Tracked, Budgeted, Count;
    var counters := s.counters + Copies(c, n);
    assert forall o :: counters[Settled(o)] == s.counters[Settled(o)];
    assert counters[Submitted] == s.counters[Submitted];
  }

  lemma TimeOutKeepsInv(l: Limits, s: State)
    requires Inv(l, s) && s.worker.Waiting?
    ensures Inv(l, TimeOut(s))
  {
    hide Tracked, Budgeted, Counted, Partition, TasksFit, StoreFits, QueueUntouched, Verdicts, Believed, Tried,
      TriedAtMost;
    hide IdSet, Distinct, Splits, Copies;
    var b := s.worker.batch;
    var s0 := s.(counters := s.counters + Copies(WriteFailures, 1));
    BumpKeepsCore(l, s, WriteFailures, 1);
    BumpKeepsCore(l, s0, AckUnknownAttempts, |b|);
    var s1 := s0.(counters := s0.counters + Copies(AckUnknownAttempts, |b|));
    DistinctBatch(s, b);
    WholeBatchSplits(b);
    SettlePart(l, s1, b, b, [], IdSet(b), AckUnknown);
    LoopingInv(l, FinishAll(s1, b, IdSet(b), AckUnknown));
  }

  /** After a write has been read, whoever is neither acknowledged nor in doubt has been refused by it too. */
  lemma ReadBelief(
    tasks: map<TaskId, Task>, store: set<Id>, t: TaskId, batch: seq<Event>, uncertain: set<Id>)
    requires StoreFits(tasks, store) && Believed(tasks, batch, uncertain, Some(t))
    requires t in tasks && tasks[t].ids == Ids(batch) && !tasks[t].status.Running?
    ensures
      var r := ResultOf(tasks[t].status, batch);
      && Believed(tasks, Drop(batch, Acked(batch, r)), uncertain + Doubtful(batch, r), None)
      && forall id :: id in Acked(batch, r) ==> id in store
  {
    hide Drop;
    var r := ResultOf(tasks[t].status, batch);
    IdsAreIdSet(batch);
    assert AnswerFits(tasks[t], store);
    DropSubset(batch, Acked(batch, r));
    forall e | e in Drop(batch, Acked(batch, r)) && e.id !in uncertain + Doubtful(batch, r)
      ensures Refused(tasks, e.id, None)
    {
      assert RefusedBy(tasks[t], e.id);
      assert Refused(tasks, e.id, Some(t));
    }
  }

  lemma {:induction false} DropSubset(es: seq<Event>, ids: set<Id>)
    ensures forall e :: e in Drop(es, ids) ==> e in es && e.id !in ids
  {
    if es != [] {
      DropSubset(es[..|es| - 1], ids);
    }
  }

  lemma CountReadKeepsCore(l: Limits, s: State, status: Status, b: seq<Event>)
    requires Core(l, s)
    ensures Core(l, CountRead(s, status, b))
    ensures CountRead(s, status, b) == s.(counters := CountRead(s, status, b).counters)
  {
    hide Core, Copies, Doubtful, ResultOf;
    var r := ResultOf(status, b);
    var failures := (if status.Returned? then 0 else 1) + (if r.failed != {} then 1 else 0);
    BumpKeepsCore(l, s, WriteFailures, failures);
    BumpKeepsCore(l, s.(counters := s.counters + Copies(WriteFailures, failures)), AckUnknownAttempts, |Doubtful(b, r)|);
  }

  lemma ReadKeepsInv(l: Limits, s: State, status: Status)
    requires Inv(l, s) && s.worker.Waiting? && s.worker.task in s.tasks
    requires status == s.tasks[s.worker.task].status && (status.Returned? || status.Raised?)
    ensures Inv(l, Read(l, s, status))
  {
    hide Tracked, Budgeted, Counted, Partition, TasksFit, StoreFits, QueueUntouched, Verdicts, Believed, Tried,
      TriedAtMost;
    hide IdSet, Distinct, Splits, Copies, Keep, Drop, Acked, Doubtful, ResultOf, CountRead;
    var w := s.worker;
    var r := ResultOf(status, w.batch);
    var s1 := CountRead(s, status, w.batch);
    CountReadKeepsCore(l, s, status, w.batch);
    var es, rest := Keep(w.batch, Acked(w.batch, r)), Drop(w.batch, Acked(w.batch, r));
    DistinctBatch(s, w.batch);
    KeepDropSplits(w.batch, Acked(w.batch, r));
    SubBatch(w.batch, es, rest, s.tasks, w.uncertain, w.attempt + 1);
    ReadBelief(s.tasks, s.store, w.task, w.batch, w.uncertain);
    SettlePart(l, s1, w.batch, es, rest, {}, Stored);
    var s2 := FinishAll(s1, es, {}, Stored);
    var uncertain := w.uncertain + Doubtful(w.batch, r);
    if rest == [] {
      LoopingInv(l, s2);
    } else if w.attempt + 1 < l.maxAttempts {
      BumpKeepsCore(l, s2, Retries, |rest|);
    } else {
      GiveUp(l, s2, rest, uncertain);
    }
  }

  lemma GiveUp(l: Limits, s: State, rest: seq<Event>, uncertain: set<Id>)
    requires Core(l, s) && Partition(s.queue, rest, s.pending, s.finished, s.writes)
    requires Ground(l, s) && Verdicts(s.outcomes, s.tasks, s.store) && Believed(s.tasks, rest, uncertain, None)
    ensures Inv(l, FinishAll(s, rest, uncertain, DroppedRetryExhausted).(worker := Looping))
  {
    hide Tracked, Budgeted, Counted, Partition, TasksFit, StoreFits, QueueUntouched, Verdicts, Believed, TriedAtMost;
    hide IdSet, Distinct, Splits, Means;
    DistinctBatch(s, rest);
    WholeBatchSplits(rest);
    BelievedMeans(s.tasks, s.store, rest, uncertain, DroppedRetryExhausted);
    SettlePart(l, s, rest, rest, [], uncertain, DroppedRetryExhausted);
    LoopingInv(l, FinishAll(s, rest, uncertain, DroppedRetryExhausted));
  }

  // ----- cancellation and exit -----

  lemma AllInHand(s: State, values: seq<Event>)
    requires Enumerates(values, s.pending)
    ensures forall id :: id in s.pending <==> id in IdSet(values)
    ensures Distinct(values)
  {
  }

  lemma ExitKeepsPlaces(s: State, s': State, values: seq<Event>)
    requires Partition(s.queue, [], s.pending, s.finished, s.writes)
    requires Enumerates(values, s.pending) && s'.writes == s.writes && SettlesMemory(s, s', IdSet(values))
    ensures Partition([], [], s'.pending, s'.finished, s'.writes)
  {
    hide IdSet;
    AllInHand(s, values);
  }

  lemma QueueMeans(s: State)
    requires Partition(s.queue, [], s.pending, s.finished, s.writes) && QueueUntouched(s.tasks, s.queue)
    ensures forall id :: Open(s, id) ==> Means(DroppedShutdown, s.tasks, s.store, id)
  {
  }

  lemma ExitInv(l: Limits, s: State, values: seq<Event>)
    requires Core(l, s) && Partition(s.queue, [], s.pending, s.finished, s.writes)
    requires Ground(l, s) && Verdicts(s.outcomes, s.tasks, s.store) && Enumerates(values, s.pending)
    ensures Inv(l, Exit(s, values))
  {
    hide Tracked, Budgeted, Counted, Partition, TasksFit, StoreFits, Verdicts, TriedAtMost;
    hide IdSet, Distinct, Means, Open, SettlesMemory, SettlesVerdicts, Enumerates;
    var s1 := FinishAll(s, values, {}, DroppedShutdown);
    AllInHand(s, values);
    FinishAllKeepsCore(l, s, values, {}, DroppedShutdown);
    FinishAllSettles(s, values, {}, DroppedShutdown);
    ExitKeepsPlaces(s, s1, values);
    QueueMeans(s);
    SettleVerdicts(s, s1, IdSet(values), {}, DroppedShutdown);
  }

  lemma CancelKeepsInv(l: Limits, s: State, values: seq<Event>)
    requires Inv(l, s) && (s.worker.Waiting? || s.worker.Sleeping?)
    requires Enumerates(values, CancelBatch(s).pending)
    ensures Inv(l, Exit(CancelBatch(s), values))
  {
    hide Tracked, Budgeted, Partition, TasksFit, StoreFits, QueueUntouched, Verdicts, Believed, Tried, TriedAtMost;
    hide IdSet, Distinct, Splits, Means, Enumerates, Count;
    var w := s.worker;
    var uncertain := if w.Waiting? then IdSet(w.batch) else w.uncertain;
    DistinctBatch(s, w.batch);
    WholeBatchSplits(w.batch);
    CancelMeans(s);
    SettlePart(l, s, w.batch, w.batch, [], uncertain, DroppedShutdown);
    ExitInv(l, CancelBatch(s), values);
  }

  lemma CancelMeans(s: State)
    requires s.worker.Waiting? || s.worker.Sleeping?
    requires s.worker.Sleeping? ==> Believed(s.tasks, s.worker.batch, s.worker.uncertain, None)
    ensures
      var uncertain := if s.worker.Waiting? then IdSet(s.worker.batch) else s.worker.uncertain;
      forall id :: id in IdSet(s.worker.batch) ==>
        Means(Verdict(id, uncertain, DroppedShutdown), s.tasks, s.store, id)
  {
    if s.worker.Sleeping? {
      BelievedMeans(s.tasks, s.store, s.worker.batch, s.worker.uncertain, DroppedShutdown);
    }
  }

  // ----- the event loop and the store -----

  ghost predicate Releases(s: State, s': State, ids: seq<Id>)
  {
    && (forall id :: id in s'.writes <==> id in s.writes && id !in ids)
    && (forall id :: id in s'.writes ==> s'.writes[id] == s.writes[id])
    && (forall id :: id in s'.finished <==> id in s.finished && id !in ids)
    && (forall id :: id in s'.pending <==> id in s.pending && !(id in ids && id in s.finished))
    && (forall id :: id in s'.pending ==> s'.pending[id] == s.pending[id])
  }

  lemma ReleaseOne(s: State, s1: State, ids: seq<Id>, id: Id)
    requires Releases(s, s1, ids) && id !in ids
    ensures Releases(s, Release(s1, id), ids + [id])
  {
  }

  lemma ReleaseNone(s: State)
    ensures Releases(s, s, [])
  {
  }

  lemma {:induction false} ReleaseAllKeepsWorld(s: State, ids: seq<Id>)
    ensures
      var s' := ReleaseAll(s, ids);
      SameWorld(s.(writes := s'.writes), s') && s'.outcomes == s.outcomes && s'.complete == s.complete
    decreases |ids|
  {
    if ids != [] {
      ReleaseAllKeepsWorld(s, ids[..|ids| - 1]);
    }
  }

  lemma {:induction false} ReleaseAllReleases(l: Limits, s: State, ids: seq<Id>)
    requires Core(l, s) && DistinctIds(ids)
    ensures
      var s' := ReleaseAll(s, ids);
      && Core(l, s') && Releases(s, s', ids)
      && SameWorld(s.(writes := s'.writes), s') && s'.outcomes == s.outcomes && s'.complete == s.complete
    decreases |ids|
  {
    hide Releases, Core, Release, SameWorld;
    ReleaseAllKeepsWorld(s, ids);
    if ids == [] {
      ReleaseNone(s);
    } else {
      var init, id := ids[..|ids| - 1], ids[|ids| - 1];
      ReleaseAllReleases(l, s, init);
      ReleaseKeepsCore(l, ReleaseAll(s, init), id);
      ReleaseOne(s, ReleaseAll(s, init), init, id);
      assert init + [id] == ids;
    }
  }

  ghost predicate DistinctIds(ids: seq<Id>)
  {
    forall i, j :: 0 <= i < j < |ids| ==> ids[i] != ids[j]
  }

  lemma ReleaseKeepsPartition(s: State, s': State, batch: seq<Event>, ids: seq<Id>)
    requires Partition(s.queue, batch, s.pending, s.finished, s.writes)
    requires Releases(s, s', ids) && s'.queue == s.queue
    ensures Partition(s'.queue, batch, s'.pending, s'.finished, s'.writes)
  {
    hide IdSet, QueueIds, Distinct;
  }

  lemma CallBackKeepsTasksFit(s: State, s': State, t: TaskId)
    requires TasksFit(s.tasks, s.writes, s.submitted)
    requires t in s.tasks && !s.tasks[t].status.Running? && !s.tasks[t].calledBack
    requires Releases(s, s', s.tasks[t].ids)
    ensures TasksFit(s.tasks[t := s.tasks[t].(calledBack := true)], s'.writes, s.submitted)
  {
    hide TaskFits;
    var tasks' := s.tasks[t := s.tasks[t].(calledBack := true)];
    assert TaskFits(t, s.tasks[t], s.writes, s.submitted);
    forall u | u in tasks' ensures TaskFits(u, tasks'[u], s'.writes, s.submitted) {
      assert TaskFits(u, s.tasks[u], s.writes, s.submitted);
      if u == t {
        CalledBackFits(t, s.tasks[t], s.writes, s'.writes, s.submitted);
      } else {
        OtherTaskFits(u, s.tasks[u], t, s.tasks[t], s, s');
      }
    }
  }

  lemma CalledBackFits(t: TaskId, task: Task, writes: map<Id, TaskId>, writes': map<Id, TaskId>, submitted: set<Id>)
    requires TaskFits(t, task, writes, submitted) && !task.status.Running?
    ensures TaskFits(t, task.(calledBack := true), writes', submitted)
  {
  }

  lemma OtherTaskFits(u: TaskId, other: Task, t: TaskId, task: Task, s: State, s': State)
    requires TaskFits(u, other, s.writes, s.submitted) && TaskFits(t, task, s.writes, s.submitted)
    requires u != t && !task.calledBack && Releases(s, s', task.ids)
    ensures TaskFits(u, other, s'.writes, s.submitted)
  {
  }

  /** An update of a task that keeps its events and its refusals. */
  ghost predicate Continues(task: Task, task': Task)
  {
    && task'.ids == task.ids && task'.calledBack == task.calledBack
    && (forall id :: RefusedBy(task, id) ==> RefusedBy(task', id))
  }

  lemma UpdateKeepsTruth(
    tasks: map<TaskId, Task>, t: TaskId, task': Task, s: State, batch: seq<Event>,
    uncertain: set<Id>, except: Option<TaskId>, store': set<Id>)
    requires t in tasks && tasks == s.tasks && s.store <= store'
    requires task'.ids == tasks[t].ids && forall id :: RefusedBy(tasks[t], id) ==> RefusedBy(task', id)
    requires QueueUntouched(tasks, s.queue) && Verdicts(s.outcomes, tasks, s.store)
    requires Believed(tasks, batch, uncertain, except)
    ensures
      var tasks' := tasks[t := task'];
      && QueueUntouched(tasks', s.queue) && Verdicts(s.outcomes, tasks', store')
      && Believed(tasks', batch, uncertain, except)
  {
    hide RefusedBy;
    var tasks' := tasks[t := task'];
    forall id, except | Refused(tasks, id, except) ensures Refused(tasks', id, except) {
    }
    hide Refused;
  }

  lemma UpdateKeepsBounds(tasks: map<TaskId, Task>, t: TaskId, task': Task, ids: set<Id>, batch: seq<Event>, n: nat, k: nat)
    requires t in tasks && task'.ids == tasks[t].ids
    requires TriedAtMost(tasks, ids, n) && Tried(tasks, batch, k)
    ensures TriedAtMost(tasks[t := task'], ids, n) && Tried(tasks[t := task'], batch, k)
  {
    forall id ensures AttemptsOf(tasks[t := task'], id) == AttemptsOf(tasks, id) {
    }
    hide AttemptsOf;
  }

  lemma UpdateKeepsStoreFits(tasks: map<TaskId, Task>, t: TaskId, task': Task, store: set<Id>, store': set<Id>)
    requires t in tasks && StoreFits(tasks, store) && store <= store'
    requires forall id :: id in store' ==> id in store || id in task'.persisted
    requires tasks[t].persisted <= task'.persisted && AnswerFits(task', store')
    ensures StoreFits(tasks[t := task'], store')
  {
    var tasks' := tasks[t := task'];
    forall id | id in store' ensures exists u :: u in tasks' && id in tasks'[u].persisted {
      if id in store {
        var u :| u in tasks && id in tasks[u].persisted;
        assert u in tasks' && id in tasks'[u].persisted;
      } else {
        assert id in tasks'[t].persisted;
      }
    }
    forall u | u in tasks' ensures AnswerFits(tasks'[u], store') {
      assert u != t ==> AnswerFits(tasks[u], store);
    }
  }

  lemma UpdateKeepsTasksFit(tasks: map<TaskId, Task>, t: TaskId, task': Task, writes: map<Id, TaskId>, submitted: set<Id>)
    requires t in tasks && TasksFit(tasks, writes, submitted)
    requires task'.ids == tasks[t].ids && task'.calledBack == tasks[t].calledBack
    requires task'.status.Running? ==> tasks[t].status.Running?
    ensures TasksFit(tasks[t := task'], writes, submitted)
  {
    forall u | u in tasks ensures TaskFits(u, tasks[t := task'][u], writes, submitted) {
      assert TaskFits(u, tasks[u], writes, submitted);
    }
  }

  lemma WriteDoneKeepsInv(l: Limits, s: State, t: TaskId)
    requires Inv(l, s) && Enabled(l, s, DoWriteDone(t))
    ensures Inv(l, Apply(l, s, DoWriteDone(t)))
  {
    hide Tracked, Budgeted, Counted, Partition, StoreFits, QueueUntouched, Verdicts, Believed, Tried, TriedAtMost;
    hide Releases, Count;
    var ids, task' := s.tasks[t].ids, s.tasks[t].(calledBack := true);
    assert DistinctIds(ids) by { assert TaskFits(t, s.tasks[t], s.writes, s.submitted); }
    hide TasksFit;
    var s1 := ReleaseAll(s, ids);
    ReleaseAllReleases(l, s, ids);
    ReleaseKeepsPartition(s, s1, BatchOf(s.worker), ids);
    CallBackKeepsTasksFit(s, s1, t);
    TaskAnswers(s.tasks, t, s.store);
    UpdateKeepsTruth(s.tasks, t, task', s, BatchOf(s.worker), Uncertain(s.worker), Current(s.worker), s.store);
    UpdateKeepsBounds(s.tasks, t, task', s.submitted, BatchOf(s.worker), l.maxAttempts, AttemptBound(s.worker));
    UpdateKeepsStoreFits(s.tasks, t, task', s.store, s.store);
    ReleaseKeepsWriteFits(s, s1, ids, s.worker, t);
  }

  lemma ReleaseKeepsWriteFits(s: State, s': State, ids: seq<Id>, w: Worker, t: TaskId)
    requires WriteFits(w, s.tasks, s.writes) && Releases(s, s', ids) && t in s.tasks
    ensures WriteFits(w, s.tasks[t := s.tasks[t].(calledBack := true)], s'.writes)
  {
  }

  lemma TaskAnswers(tasks: map<TaskId, Task>, t: TaskId, store: set<Id>)
    requires StoreFits(tasks, store) && t in tasks
    ensures AnswerFits(tasks[t], store)
  {
  }

  lemma UpdateKeepsInv(l: Limits, s: State, t: TaskId, task': Task, store': set<Id>)
    requires Inv(l, s) && t in s.tasks && s.store <= store'
    requires Continues(s.tasks[t], task') && (task'.status.Running? ==> s.tasks[t].status.Running?)
    requires forall id :: id in store' ==> id in s.store || id in task'.persisted
    requires s.tasks[t].persisted <= task'.persisted && AnswerFits(task', store')
    ensures Inv(l, s.(store := store', tasks := s.tasks[t := task']))
  {
    hide Tracked, Budgeted, Counted, Partition, TasksFit, StoreFits, QueueUntouched, Verdicts, Believed, Tried,
      TriedAtMost;
    hide AnswerFits, RefusedBy;
    UpdateKeepsTasksFit(s.tasks, t, task', s.writes, s.submitted);
    UpdateKeepsStoreFits(s.tasks, t, task', s.store, store');
    UpdateKeepsTruth(s.tasks, t, task', s, BatchOf(s.worker), Uncertain(s.worker), Current(s.worker), store');
    UpdateKeepsBounds(s.tasks, t, task', s.submitted, BatchOf(s.worker), l.maxAttempts, AttemptBound(s.worker));
  }

  lemma PersistKeepsInv(l: Limits, s: State, t: TaskId, id: Id)
    requires Inv(l, s) && Enabled(l, s, DoPersist(t, id))
    ensures Inv(l, Apply(l, s, DoPersist(t, id)))
  {
    hide Core, Placed, Reserved, Bounded, QueueUntouched, Verdicts, Believed;
    var task' := s.tasks[t].(persisted := s.tasks[t].persisted + {id});
    assert AnswerFits(s.tasks[t], s.store);
    UpdateKeepsInv(l, s, t, task', s.store + {id});
  }

  lemma CompleteKeepsInv(l: Limits, s: State, t: TaskId, status: Status)
    requires Inv(l, s) && Enabled(l, s, DoComplete(t, status))
    ensures Inv(l, Apply(l, s, DoComplete(t, status)))
  {
    hide Core, Placed, Reserved, Bounded, QueueUntouched, Verdicts, Believed;
    assert AnswerFits(s.tasks[t], s.store);
    UpdateKeepsInv(l, s, t, s.tasks[t].(status := status), s.store);
  }

  // ----- every step -----

  lemma TakeBatchKeepsInv(l: Limits, s: State)
    requires Inv(l, s) && ValidLimits(l) && s.worker.Looping? && s.queue != []
    ensures Inv(l, TakeBatch(l, s))
  {
    hide Tracked, Budgeted, Counted, Partition, TasksFit, StoreFits, Verdicts, TriedAtMost, Tried, Believed, Events;
    TakeBatchKeepsPartition(l, s);
    BatchUntried(l, s);
  }

  lemma BatchUntried(l: Limits, s: State)
    requires QueueUntouched(s.tasks, s.queue) && s.queue != [] && ValidLimits(l)
    requires s.worker.Looping?
    ensures
      var s' := TakeBatch(l, s);
      && QueueUntouched(s.tasks, s'.queue)
      && Believed(s.tasks, s'.worker.batch, {}, None) && Tried(s.tasks, s'.worker.batch, 0)
  {
    var s' := TakeBatch(l, s);
    forall e | e in s'.worker.batch ensures Refused(s.tasks, e.id, None) && AttemptsOf(s.tasks, e.id) == {} {
      var i :| 0 <= i < |s'.worker.batch| && s'.worker.batch[i] == e;
      assert s.queue[i] in s.queue && s.queue[i].event == e;
    }
  }

  lemma SubmitKeepsInv(l: Limits, s: State, e: Event, payload: Option<nat>, now: real)
    requires Inv(l, s)
    ensures Inv(l, Submit(l, s, e, payload, now))
  {
    hide Inv;
    match Refusal(l, s, e, payload, now)
    case Some(c) => RejectKeepsInv(l, s, c);
    case None =>
      if Accepts(l, s, e, payload, now) {
        AcceptKeepsInv(l, s, Entry(e, payload.value));
      }
  }

  lemma BeginKeepsInv(l: Limits, s: State)
    requires Inv(l, s) && s.worker.Created?
    ensures Inv(l, s.(worker := Looping))
  {
    hide Tracked, Budgeted, Counted, Partition, TasksFit, StoreFits, QueueUntouched, Verdicts, Believed, Tried,
      TriedAtMost;
    NothingTried(s.tasks);
  }

  lemma NothingTried(tasks: map<TaskId, Task>)
    ensures Believed(tasks, [], {}, None) && Tried(tasks, [], 0)
  {
  }

  lemma WakeKeepsInv(l: Limits, s: State)
    requires Inv(l, s) && s.worker.Sleeping? && IdSet(s.worker.batch) !! s.writes.Keys
    ensures Inv(l, s.(worker := Trying(s.worker.batch, s.worker.uncertain, s.worker.attempt)))
  {
    hide Tracked, Budgeted, Counted, Partition, TasksFit, StoreFits, QueueUntouched, Verdicts, Believed, Tried,
      TriedAtMost;
    assert forall e :: e in s.worker.batch ==> e.id in IdSet(s.worker.batch);
  }

  lemma CloseKeepsInv(l: Limits, s: State)
    requires Inv(l, s)
    ensures Inv(l, s.(closed := true))
  {
    hide Tracked, Budgeted, Counted, Partition, FrameFits, TasksFit, WriteFits, StoreFits, QueueUntouched, Verdicts,
      Believed, Tried, TriedAtMost;
  }

  lemma CloseTimedOutKeepsInv(l: Limits, s: State)
    requires Inv(l, s)
    ensures Inv(l, s.(complete := false))
  {
    hide Tracked, Budgeted, Partition, FrameFits, TasksFit, WriteFits, StoreFits, QueueUntouched, Verdicts,
      Believed, Tried, TriedAtMost, Count;
  }

  lemma StepKeepsInv(l: Limits, s: State, a: Action)
    requires ValidLimits(l) && Inv(l, s) && Enabled(l, s, a)
    ensures Inv(l, Apply(l, s, a))
  {
    hide Tracked, Budgeted, Counted, Partition, TasksFit, StoreFits, QueueUntouched, Verdicts, Believed, Tried,
      TriedAtMost;
    hide Enumerates, ValidLimits;
    match a
    case DoSubmit(e, payload, now) => SubmitKeepsInv(l, s, e, payload, now);
    case DoBegin => BeginKeepsInv(l, s);
    case DoTakeBatch => TakeBatchKeepsInv(l, s);
    case DoExit(values) => ExitInv(l, s, values);
    case DoAttempt(now, t) => AttemptKeepsInv(l, s, now, t);
    case DoTimeOut => TimeOutKeepsInv(l, s);
    case DoRead => ReadKeepsInv(l, s, s.tasks[s.worker.task].status);
    case DoWake => WakeKeepsInv(l, s);
    case DoCancel(values) => CancelKeepsInv(l, s, values);
    case DoClose => CloseKeepsInv(l, s);
    case DoCloseTimedOut => CloseTimedOutKeepsInv(l, s);
    case DoWriteDone(t) => WriteDoneKeepsInv(l, s, t);
    case DoPersist(t, id) => PersistKeepsInv(l, s, t, id);
    case DoComplete(t, status) => CompleteKeepsInv(l, s, t, status);
  }
}
