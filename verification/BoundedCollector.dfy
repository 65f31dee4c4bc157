/**
 The collector as an object that is updated in place. Each method is the code between two awaits,
 with the loops the source has; its contract says that the fields move as the transition system does.
 */
module BoundedCollectorObject {
  import opened Options
  import opened CollectorModel
  import opened Totals
  import opened CollectorInvariant
  import opened CollectorSteps

  class BoundedCollector {
    const limits: Limits

    var queue: seq<Entry>
    var pending: map<Id, Entry>
    var writes: map<Id, TaskId>
    var finished: set<Id>
    var bytes: int
    var counters: multiset<Counter>
    var closed: bool
    var completenessKnown: bool
    // the suspended frame of the worker coroutine
    var worker: Worker
    // the delivery flags carried by the events, and the on_outcome calls made so far
    var submitted: set<Id>
    var notices: multiset<Outcome>
    // the write tasks of the event loop
    var tasks: map<TaskId, Task>
    ghost var outcomes: map<Id, Outcome>
    ghost var rejections: multiset<Counter>
    ghost var store: set<Id>

    ghost function State(): CollectorModel.State
      reads this
    {
      CollectorModel.State.State(queue, pending, writes, finished, bytes, counters, closed, completenessKnown, worker,
                  submitted, outcomes, notices, rejections, tasks, store)
    }

    ghost predicate Valid()
      reads this
    {
      ValidLimits(limits) && Inv(limits, State())
    }

    constructor (l: Limits)
      requires ValidLimits(l)
      ensures limits == l && State() == INITIAL && Valid()
    {
      limits := l;
      queue, pending, writes, finished, bytes := [], map[], map[], {}, 0;
      counters, closed, completenessKnown, worker := multiset{}, false, true, Absent;
      submitted, notices, tasks := {}, multiset{}, map[];
      outcomes, rejections, store := map[], multiset{}, {};
      new;
      InitiallyInv(l);
    }

    method Submit(event: Event, payload: Option<nat>, now: real) returns (accepted: bool)
      requires Valid()
      modifies this
      ensures Valid()
      ensures State() == CollectorModel.Submit(limits, old(State()), event, payload, now)
      ensures accepted == Accepts(limits, old(State()), event, payload, now)
    {
      hide Inv;
      SubmitKeepsInv(limits, State(), event, payload, now);
      if event.id in submitted || event.id in pending {
        return false;
      }
      if closed {
        Refuse(Settled(DroppedShutdown));
        return false;
      }
      if payload.None? {
        Refuse(DroppedInvalid);
        return false;
      }
      var size := payload.value;
      if |pending| >= limits.maxEvents || bytes + size > limits.maxBytes {
        Refuse(DroppedCapacity);
        return false;
      }
      if now - event.created >= limits.maxAge {
        Refuse(Settled(DroppedExpired));
        return false;
      }
      Enqueue(Entry(event, size));
      return true;
    }

    method Enqueue(entry: Entry)
      modifies this`submitted, this`queue, this`pending, this`bytes, this`counters, this`worker
      ensures submitted == old(submitted) + {entry.event.id} && queue == old(queue) + [entry]
      ensures pending == old(pending)[entry.event.id := entry] && bytes == old(bytes) + entry.size
      ensures counters == old(counters) + multiset{Submitted}
      ensures worker == if old(worker).Absent? then Created else old(worker)
    {
      submitted, queue := submitted + {entry.event.id}, queue + [entry];
      pending, bytes := pending[entry.event.id := entry], bytes + entry.size;
      counters := counters + multiset{Submitted};
      worker := if worker.Absent? then Created else worker;
    }

    method Refuse(c: Counter)
      modifies this`counters, this`rejections
      ensures State() == Reject(old(State()), c)
    {
      counters := counters + multiset{c};
      rejections := rejections + multiset{c};
    }

    method Finish(event: Event, outcome: Outcome)
      modifies this`finished, this`pending, this`bytes, this`counters, this`completenessKnown, this`notices, this`outcomes
      ensures State() == CollectorModel.Finish(old(State()), event, outcome)
    {
      if event.id !in pending || event.id in finished {
        return;
      }
      Settle(event, outcome);
    }

    method Settle(event: Event, outcome: Outcome)
      requires event.id in pending && event.id !in finished
      modifies this`finished, this`pending, this`bytes, this`counters, this`completenessKnown, this`notices, this`outcomes
      ensures finished == if event.id in writes then old(finished) + {event.id} else old(finished)
      ensures pending == if event.id in writes then old(pending) else old(pending) - {event.id}
      ensures bytes == if event.id in writes then old(bytes) else old(bytes) - old(pending)[event.id].size
      ensures counters == old(counters) + multiset{Settled(outcome)}
      ensures completenessKnown == (old(completenessKnown) && outcome != AckUnknown)
      ensures notices == old(notices) + multiset{outcome}
      ensures outcomes == old(outcomes)[event.id := outcome]
    {
      if event.id in writes {
        finished := finished + {event.id};
      } else {
        bytes := bytes - pending[event.id].size;
        pending := pending - {event.id};
      }
      counters := counters + multiset{Settled(outcome)};
      if outcome == AckUnknown {
        completenessKnown := false;
      }
      notices := notices + multiset{outcome};
      outcomes := outcomes[event.id := outcome];
    }

    method FinishEach(events: seq<Event>, uncertain: set<Id>, otherwise: Outcome)
      modifies this`finished, this`pending, this`bytes, this`counters, this`completenessKnown, this`notices, this`outcomes
      ensures State() == FinishAll(old(State()), events, uncertain, otherwise)
    {
      hide CollectorModel.Finish;
      for i := 0 to |events|
        invariant State() == FinishAll(old(State()), events[..i], uncertain, otherwise)
      {
        assert events[..i + 1][..i] == events[..i];
        Finish(events[i], if events[i].id in uncertain then AckUnknown else otherwise);
      }
      assert events[..|events|] == events;
    }

    /** The done-callback of a write: drop its claims, and free the memory of events already settled. */
    method WriteDone(t: TaskId)
      requires Valid() && Enabled(limits, State(), DoWriteDone(t))
      modifies this
      ensures Valid() && State() == Apply(limits, old(State()), DoWriteDone(t))
    {
      hide Inv, Release, CollectorModel.Finish;
      WriteDoneKeepsInv(limits, State(), t);
      var ids := tasks[t].ids;
      for i := 0 to |ids|
        invariant tasks == old(tasks)
        invariant State() == ReleaseAll(old(State()), ids[..i])
      {
        assert ids[..i + 1][..i] == ids[..i];
        EndWrite(ids[i]);
      }
      assert ids[..|ids|] == ids;
      tasks := tasks[t := tasks[t].(calledBack := true)];
    }

    method EndWrite(id: Id)
      modifies this`writes, this`finished, this`pending, this`bytes
      ensures State() == Release(old(State()), id)
    {
      if id in finished && id in pending {
        pending, bytes := pending - {id}, bytes - pending[id].size;
      }
      writes, finished := writes - {id}, finished - {id};
    }

    // ----- the worker coroutine -----

    /** One turn of the `while` in `_run`: pop a batch off the queue. */
    method TakeBatch()
      requires Valid() && worker.Looping? && queue != []
      modifies this`queue, this`worker
      ensures Valid() && State() == CollectorModel.TakeBatch(limits, old(State()))
    {
      hide Inv, Core;
      TakeBatchKeepsInv(limits, State());
      var n := Min(|queue|, limits.batchSize);
      var batch: seq<Event> := [];
      for i := 0 to n
        invariant queue == old(queue)[i..] && worker == old(worker)
        invariant batch == Events(old(queue)[..n])[..i]
      {
        batch := batch + [queue[0].event];
        queue := queue[1..];
      }
      assert batch == Events(old(queue)[..n]);
      worker := Trying(batch, {}, 0);
    }

    /** The expiry loop: settle every aged event and remove it from the batch. */
    method DropAged(events: seq<Event>, uncertain: set<Id>, now: real) returns (batch: seq<Event>)
      requires Distinct(events)
      modifies this`finished, this`pending, this`bytes, this`counters, this`completenessKnown, this`notices, this`outcomes
      ensures batch == Drop(events, Aged(limits, events, now))
      ensures State() == FinishAll(old(State()), Keep(events, Aged(limits, events, now)), uncertain, DroppedExpired)
    {
      hide CollectorModel.Finish, Aged, Keep, Drop, FinishAll, Remove;
      batch := events;
      ghost var aged := Aged(limits, events, now);
      KeepDropNone(events, aged, State(), uncertain, DroppedExpired);
      for i := 0 to |events|
        invariant batch == Drop(events[..i], aged) + events[i..]
        invariant State() == FinishAll(old(State()), Keep(events[..i], aged), uncertain, DroppedExpired)
      {
        var event := events[i];
        AgedIff(limits, events, now, i);
        KeepSnoc(events, i, aged);
        NextBatch(events, i, aged);
        if now - event.created >= limits.maxAge {
          FinishSnoc(old(State()), Keep(events[..i], aged), event, uncertain, DroppedExpired);
          Finish(event, if event.id in uncertain then AckUnknown else DroppedExpired);
          batch := Remove(batch, event);
        }
      }
      assert events[..|events|] == events;
    }

    /** The top of the attempt loop: settle aged events, then start a write for the rest. */
    method BeginAttempt(now: real, t: TaskId)
      requires Valid() && worker.Trying? && t !in tasks
      modifies this
      ensures Valid() && State() == Attempt(limits, old(State()), now, t)
    {
      hide Inv, Aged, Keep, Drop, FinishAll, Distinct, StartWrite;
      AttemptKeepsInv(limits, State(), now, t);
      BatchIsDistinct(limits, State());
      var w := worker;
      var batch := DropAged(w.batch, w.uncertain, now);
      if batch == [] {
        worker := Looping;
      } else {
        LaunchWrite(batch, w.uncertain, w.attempt, t);
      }
    }

    /** Creates the write task, reserves its events, and waits for it. */
    method LaunchWrite(batch: seq<Event>, uncertain: set<Id>, attempt: nat, t: TaskId)
      modifies this`tasks, this`writes, this`worker
      ensures State() == StartWrite(old(State()), batch, uncertain, attempt, t)
    {
      hide Started, Claims;
      tasks, writes := Started(tasks, t, batch), writes + Claims(batch, t);
      worker := Waiting(batch, uncertain, attempt, t);
    }

    /** The wait ended before the write did. */
    method TimeOut()
      requires Valid() && Enabled(limits, State(), DoTimeOut)
      modifies this
      ensures Valid() && State() == CollectorModel.TimeOut(old(State()))
    {
      hide Inv, IdSet, FinishAll, Copies;
      TimeOutKeepsInv(limits, State());
      var batch := worker.batch;
      counters := counters + Copies(WriteFailures, 1) + Copies(AckUnknownAttempts, |batch|);
      FinishEach(batch, IdSet(batch), AckUnknown);
      worker := Looping;
    }

    /** The result loop: settle what is acknowledged and note what is in doubt. */
    method ReadAnswers(events: seq<Event>, result: BatchResult, doubts: set<Id>)
      returns (batch: seq<Event>, uncertain: set<Id>)
      requires Distinct(events)
      modifies this`finished, this`pending, this`bytes, this`counters, this`completenessKnown, this`notices, this`outcomes
      ensures batch == Drop(events, Acked(events, result))
      ensures uncertain == doubts + Doubtful(events, result)
      ensures State() == FinishAll(CountDoubts(old(State()), |Doubtful(events, result)|),
                                   Keep(events, Acked(events, result)), {}, Stored)
    {
      hide CollectorModel.Finish, Acked, Doubtful, Keep, Drop, FinishAll, Remove, CountDoubts, CleanAck, CleanFailure,
        Answered, LeftOver, Distinct;
      batch, uncertain := events, doubts;
      NothingRead(events, result, State(), doubts);
      for i := 0 to |events|
        invariant batch == LeftOver(events, i, result)
        invariant uncertain == doubts + Doubtful(events[..i], result)
        invariant State() == Answered(old(State()), events, i, result)
      {
        var event := events[i];
        AnswerRead(old(State()), events, i, result);
        if CleanAck(result, event.id) {
          Finish(event, Stored);
          batch := Remove(batch, event);
        } else if event.id !in result.failed || event.id in result.unknown || event.id in result.acknowledged {
          uncertain := uncertain + {event.id};
          NoteDoubt(State());
        }
      }
      AllRead(old(State()), events, result);
    }

    method NoteDoubt(ghost s: CollectorModel.State)
      requires State() == s
      modifies this`counters
      ensures State() == CountDoubts(s, 1)
    {
      counters := counters + multiset{AckUnknownAttempts};
    }

    /** The wait ended with the write: settle, and retry later or give up. */
    method ReadResult()
      requires Valid() && Enabled(limits, State(), DoRead)
      modifies this
      ensures Valid() && State() == Read(limits, old(State()), old(tasks[worker.task].status))
    {
      hide Inv, Acked, Doubtful, Keep, Drop, FinishAll, IdSet, Distinct, ResultOf, Copies, CountDoubts, CountRead,
        AfterRead;
      ReadKeepsInv(limits, State(), tasks[worker.task].status);
      BatchIsDistinct(limits, State());
      var w, status := worker, tasks[worker.task].status;
      var result := CountFailures(status, w.batch);
      CountedRead(old(State()), State(), status, w.batch);
      var batch, uncertain := ReadAnswers(w.batch, result, w.uncertain);
      FinishReading(w, batch, uncertain);
    }

    method CountFailures(status: Status, batch: seq<Event>) returns (result: BatchResult)
      modifies this`counters
      ensures result == ResultOf(status, batch)
      ensures counters == old(counters) + Copies(WriteFailures,
                            (if status.Returned? then 0 else 1) + (if result.failed != {} then 1 else 0))
    {
      result := BatchResult({}, {}, IdSet(batch));
      if status.Returned? {
        result := status.result;
      } else {
        counters := counters + multiset{WriteFailures};
      }
      if result.failed != {} {
        counters := counters + multiset{WriteFailures};
      }
    }

    method FinishReading(w: Worker, batch: seq<Event>, uncertain: set<Id>)
      requires w.Waiting?
      modifies this
      ensures State() == AfterRead(limits, old(State()), w, batch, uncertain)
    {
      hide FinishAll;
      if batch == [] {
        worker := Looping;
      } else if w.attempt + 1 < limits.maxAttempts {
        counters := counters + Copies(Retries, |batch|);
        worker := Sleeping(batch, uncertain, w.attempt + 1);
      } else {
        FinishEach(batch, uncertain, DroppedRetryExhausted);
        worker := Looping;
      }
    }

    /** The `finally` of `_run`, over the dictionary's values in the order they are stored. */
    method Leave(values: seq<Event>)
      modifies this
      ensures State() == Exit(old(State()), values)
    {
      FinishEach(values, {}, DroppedShutdown);
      queue := [];
      worker := Absent;
    }

    /** The `while` of `_run` finds the queue empty. */
    method EndRun(values: seq<Event>)
      requires Valid() && Enabled(limits, State(), DoExit(values))
      modifies this
      ensures Valid() && State() == Apply(limits, old(State()), DoExit(values))
    {
      hide Inv, Enumerates, Exit;
      StepKeepsInv(limits, State(), DoExit(values));
      Leave(values);
    }

    /** The worker is cancelled at an await of `_write`; `values` are the entries still pending after the batch is settled. */
    method Cancel(values: seq<Event>)
      requires Valid() && Enabled(limits, State(), DoCancel(values))
      modifies this
      ensures Valid() && State() == Apply(limits, old(State()), DoCancel(values))
    {
      hide Inv, Enumerates, Exit, FinishAll, IdSet;
      CancelKeepsInv(limits, State(), values);
      var w := worker;
      FinishEach(w.batch, if w.Waiting? then IdSet(w.batch) else w.uncertain, DroppedShutdown);
      completenessKnown := false;
      Leave(values);
    }
  }

  /** `list.remove`: the list without the first occurrence of an element. */
  function Remove(es: seq<Event>, e: Event): seq<Event>
    requires e in es
  {
    if es[0] == e then es[1..] else [es[0]] + Remove(es[1..], e)
  }

  lemma {:induction false} RemoveMiddle(a: seq<Event>, e: Event, b: seq<Event>)
    requires e !in a
    ensures Remove(a + [e] + b, e) == a + b
  {
    if a == [] {
      assert a + [e] + b == [e] + b;
    } else {
      RemoveMiddle(a[1..], e, b);
      assert (a + [e] + b)[1..] == a[1..] + [e] + b;
    }
  }

  lemma KeepSnoc(es: seq<Event>, i: nat, ids: set<Id>)
    requires i < |es|
    ensures Keep(es[..i + 1], ids) == if es[i].id in ids then Keep(es[..i], ids) + [es[i]] else Keep(es[..i], ids)
  {
    assert es[..i + 1][..i] == es[..i];
    assert Keep(es[..i], ids) + [] == Keep(es[..i], ids);
  }

  lemma DropSnoc(es: seq<Event>, i: nat, ids: set<Id>)
    requires i < |es|
    ensures Drop(es[..i + 1], ids) == if es[i].id in ids then Drop(es[..i], ids) else Drop(es[..i], ids) + [es[i]]
  {
    assert es[..i + 1][..i] == es[..i];
    assert Drop(es[..i], ids) + [] == Drop(es[..i], ids);
  }

  /** The partly filtered batch before and after one turn of a loop that removes the listed ids. */
  lemma NextBatch(es: seq<Event>, i: nat, ids: set<Id>)
    requires i < |es| && Distinct(es)
    ensures es[i] in Drop(es[..i], ids) + es[i..]
    ensures Drop(es[..i + 1], ids) + es[i + 1..]
            == if es[i].id in ids then Remove(Drop(es[..i], ids) + es[i..], es[i]) else Drop(es[..i], ids) + es[i..]
  {
    hide Drop;
    DropSnoc(es, i, ids);
    DropSubset(es[..i], ids);
    assert forall e :: e in es[..i] ==> e.id != es[i].id;
    RemoveMiddle(Drop(es[..i], ids), es[i], es[i + 1..]);
    assert Drop(es[..i], ids) + es[i..] == Drop(es[..i], ids) + [es[i]] + es[i + 1..];
  }

  lemma KeepDropNone(es: seq<Event>, ids: set<Id>, s: CollectorModel.State, uncertain: set<Id>, otherwise: Outcome)
    ensures Drop(es[..0], ids) + es[0..] == es
    ensures FinishAll(s, Keep(es[..0], ids), uncertain, otherwise) == s
  {
  }

  lemma FinishSnoc(s: CollectorModel.State, es: seq<Event>, e: Event, uncertain: set<Id>, otherwise: Outcome)
    ensures FinishAll(s, es + [e], uncertain, otherwise)
            == Finish(FinishAll(s, es, uncertain, otherwise), e, Verdict(e.id, uncertain, otherwise))
  {
    assert (es + [e])[..|es|] == es;
  }

  lemma AgedIff(l: Limits, es: seq<Event>, now: real, i: nat)
    requires i < |es| && Distinct(es)
    ensures es[i].id in Aged(l, es, now) <==> now - es[i].created >= l.maxAge
  {
  }

  lemma BatchIsDistinct(l: Limits, s: CollectorModel.State)
    requires Inv(l, s)
    ensures Distinct(BatchOf(s.worker))
  {
  }

  ghost function CountDoubts(s: CollectorModel.State, n: nat): CollectorModel.State
  {
    s.(counters := s.counters + Copies(AckUnknownAttempts, n))
  }

  lemma FinishCommutes(s: CollectorModel.State, e: Event, o: Outcome, n: nat)
    ensures Finish(CountDoubts(s, n), e, o) == CountDoubts(Finish(s, e, o), n)
  {
  }

  lemma {:induction false} FinishAllCommutes(
    s: CollectorModel.State, es: seq<Event>, uncertain: set<Id>, otherwise: Outcome, n: nat)
    ensures FinishAll(CountDoubts(s, n), es, uncertain, otherwise) == CountDoubts(FinishAll(s, es, uncertain, otherwise), n)
    decreases |es|
  {
    hide CountDoubts, Finish;
    if es != [] {
      var init, e := es[..|es| - 1], es[|es| - 1];
      FinishAllCommutes(s, init, uncertain, otherwise, n);
      FinishCommutes(FinishAll(s, init, uncertain, otherwise), e, Verdict(e.id, uncertain, otherwise), n);
    }
  }

  /** The state after the first answers have been read. */
  ghost function Answered(s: CollectorModel.State, es: seq<Event>, i: nat, r: BatchResult): CollectorModel.State
    requires i <= |es|
  {
    CountDoubts(FinishAll(s, Keep(es[..i], Acked(es, r)), {}, Stored), |Doubtful(es[..i], r)|)
  }

  /** The batch after the first answers have been read. */
  ghost function LeftOver(es: seq<Event>, i: nat, r: BatchResult): seq<Event>
    requires i <= |es|
  {
    Drop(es[..i], Acked(es, r)) + es[i..]
  }

  lemma NothingRead(es: seq<Event>, r: BatchResult, s: CollectorModel.State, doubts: set<Id>)
    ensures LeftOver(es, 0, r) == es && doubts + Doubtful(es[..0], r) == doubts && Answered(s, es, 0, r) == s
  {
  }

  lemma AllRead(s: CollectorModel.State, es: seq<Event>, r: BatchResult)
    ensures LeftOver(es, |es|, r) == Drop(es, Acked(es, r)) && Doubtful(es[..|es|], r) == Doubtful(es, r)
    ensures Answered(s, es, |es|, r) == FinishAll(CountDoubts(s, |Doubtful(es, r)|), Keep(es, Acked(es, r)), {}, Stored)
  {
    hide FinishAll, Keep, Drop, Acked, Doubtful, CountDoubts;
    assert es[..|es|] == es;
    FinishAllCommutes(s, Keep(es, Acked(es, r)), {}, Stored, |Doubtful(es, r)|);
  }

  /** One turn of the result loop: a clean acknowledgement settles, a doubt is counted, a clean failure stays. */
  lemma AnswerRead(s: CollectorModel.State, es: seq<Event>, i: nat, r: BatchResult)
    requires i < |es| && Distinct(es)
    ensures
      var (e, before) := (es[i], Answered(s, es, i, r));
      var doubtful := !CleanAck(r, e.id) && (e.id !in r.failed || e.id in r.unknown || e.id in r.acknowledged);
      && e in LeftOver(es, i, r)
      && LeftOver(es, i + 1, r) == (if CleanAck(r, e.id) then Remove(LeftOver(es, i, r), e) else LeftOver(es, i, r))
      && Doubtful(es[..i + 1], r) == Doubtful(es[..i], r) + (if doubtful then {e.id} else {})
      && Answered(s, es, i + 1, r) ==
           (if CleanAck(r, e.id) then Finish(before, e, Stored) else if doubtful then CountDoubts(before, 1) else before)
  {
    hide Distinct, FinishAll, Keep, Drop, Acked, Doubtful, CleanAck, Remove, Finish, CountDoubts;
    var acked := Acked(es, r);
    AckedIff(es, r, i);
    KeepSnoc(es, i, acked);
    NextBatch(es, i, acked);
    DoubtfulSnoc(es, r, i);
    var settled := FinishAll(s, Keep(es[..i], acked), {}, Stored);
    FinishSnoc(s, Keep(es[..i], acked), es[i], {}, Stored);
    FinishCommutes(settled, es[i], Stored, |Doubtful(es[..i], r)|);
    DoubtsAdd(settled, |Doubtful(es[..i], r)|);
  }

  lemma DoubtsAdd(s: CollectorModel.State, n: nat)
    ensures CountDoubts(s, n + 1) == CountDoubts(CountDoubts(s, n), 1)
  {
  }

  lemma AckedIff(es: seq<Event>, r: BatchResult, i: nat)
    requires i < |es|
    ensures es[i].id in Acked(es, r) <==> CleanAck(r, es[i].id)
  {
  }

  lemma DoubtfulSnoc(es: seq<Event>, r: BatchResult, i: nat)
    requires i < |es| && Distinct(es)
    ensures
      var id := es[i].id;
      var doubtful := !CleanAck(r, id) && (id !in r.failed || id in r.unknown || id in r.acknowledged);
      && Doubtful(es[..i + 1], r) == Doubtful(es[..i], r) + (if doubtful then {es[i].id} else {})
      && |Doubtful(es[..i + 1], r)| == |Doubtful(es[..i], r)| + (if doubtful then 1 else 0)
  {
    assert es[..i + 1] == es[..i] + [es[i]];
    assert es[i].id !in Doubtful(es[..i], r);
  }

  lemma CountedRead(s: CollectorModel.State, s': CollectorModel.State, status: Status, batch: seq<Event>)
    requires s' == s.(counters := s'.counters)
    requires s'.counters == s.counters + Copies(WriteFailures,
               (if status.Returned? then 0 else 1) + (if ResultOf(status, batch).failed != {} then 1 else 0))
    ensures CountDoubts(s', |Doubtful(batch, ResultOf(status, batch))|) == CountRead(s, status, batch)
  {
  }
}
