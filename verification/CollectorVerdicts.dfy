/** Which outcome each step settles an event with, and which events it leaves to be tried again. */
module CollectorVerdicts {
  import opened Options
  import opened CollectorModel
  import opened Totals
  import opened CollectorInvariant
  import opened CollectorSteps
  import opened CollectorTheorems

  // ----- the history of an event decides its outcome -----

  ghost predicate InBatch(s: State, id: Id)
  {
    exists e :: e in BatchOf(s.worker) && e.id == id
  }

  /** At this reading an event of the batch has outlived its budget. */
  ghost predicate Outlived(l: Limits, s: State, id: Id, now: real)
  {
    exists e :: e in BatchOf(s.worker) && e.id == id && now - e.created >= l.maxAge
  }

  /** The store never failed to refuse the event cleanly, however often it was asked. */
  ghost function IfRefused(tasks: map<TaskId, Task>, id: Id, dropped: Outcome): Outcome
  {
    if Refused(tasks, id, None) then dropped else AckUnknown
  }

  /** The write that the worker reads acknowledges the event, and does not contradict itself. */
  ghost predicate Acknowledged(s: State, id: Id)
  {
    && s.worker.Waiting? && s.worker.task in s.tasks && s.tasks[s.worker.task].status.Returned?
    && CleanAck(s.tasks[s.worker.task].status.result, id)
  }

  /**
   The outcome that a step owes to an event that has none yet: decided by the step, by the attempts
   the event has had, by how the store ended them, and by its age.
   */
  ghost function Due(l: Limits, s: State, a: Action, id: Id): Option<Outcome>
  {
    match a
    case DoAttempt(now, _) =>
      if Outlived(l, s, id, now) then Some(IfRefused(s.tasks, id, DroppedExpired)) else None
    case DoTimeOut => if InBatch(s, id) then Some(AckUnknown) else None
    case DoRead =>
      if !InBatch(s, id) then None
      else if Acknowledged(s, id) then Some(Stored)
      else if |AttemptsOf(s.tasks, id)| < l.maxAttempts then None
      else Some(IfRefused(s.tasks, id, DroppedRetryExhausted))
    case DoCancel(_) =>
      if InBatch(s, id) then Some(if s.worker.Waiting? then AckUnknown else IfRefused(s.tasks, id, DroppedShutdown))
      else if id in s.pending then Some(DroppedShutdown) else None
    case DoExit(_) => if id in s.pending then Some(DroppedShutdown) else None
    case _ => None
  }

  /** The events that have no outcome yet, in their order. */
  ghost function Without(es: seq<Event>, settled: set<Id>): seq<Event>
  {
    if es == [] then []
    else (if es[0].id in settled then [] else [es[0]]) + Without(es[1..], settled)
  }

  /** Where a step leaves the events of the batch that it does not settle. */
  ghost predicate GoesOn(l: Limits, s: State, a: Action, s': State)
  {
    var rest := Without(BatchOf(s.worker), s'.outcomes.Keys);
    match a
    case DoAttempt(_, t) =>
      if rest == [] then s'.worker == Looping && s'.tasks == s.tasks
      else
        && s'.worker.Waiting? && s'.worker.batch == rest && s'.worker.task == t
        && s'.worker.attempt == s.worker.attempt && s'.worker.uncertain == s.worker.uncertain
        && s'.tasks == s.tasks[t := Task(Ids(rest), Running, {}, false)]
    case DoRead =>
      if rest == [] then s'.worker == Looping
      else s'.worker.Sleeping? && s'.worker.batch == rest && s'.worker.attempt == s.worker.attempt + 1
    case DoTimeOut => s'.worker == Looping
    case DoCancel(_) => s'.worker == Absent && s'.queue == []
    case DoExit(_) => s'.worker == Absent && s'.queue == []
    case _ => true
  }

  // ----- attempts and doubts are exact -----

  ghost predicate TriedExactly(tasks: map<TaskId, Task>, batch: seq<Event>, n: nat)
  {
    forall e :: e in batch ==> |AttemptsOf(tasks, e.id)| == n
  }

  /** An event that is marked uncertain has had an attempt that ended otherwise than in a clean refusal. */
  ghost predicate Doubted(tasks: map<TaskId, Task>, batch: seq<Event>, uncertain: set<Id>, except: Option<TaskId>)
  {
    forall e :: e in batch && e.id in uncertain ==>
                  exists t :: t in tasks && Some(t) != except && e.id in tasks[t].ids && Unclear(tasks[t], e.id)
  }

  /** The attempt has ended, and not in a clean refusal. */
  ghost predicate Unclear(task: Task, id: Id)
  {
    !task.status.Running? && !RefusedBy(task, id)
  }

  ghost predicate ExhaustedExactly(tasks: map<TaskId, Task>, outcomes: map<Id, Outcome>, n: nat)
  {
    forall id :: id in outcomes && outcomes[id] == DroppedRetryExhausted ==> |AttemptsOf(tasks, id)| == n
  }

  ghost predicate Exact(l: Limits, s: State)
  {
    && TriedExactly(s.tasks, BatchOf(s.worker), AttemptBound(s.worker))
    && Doubted(s.tasks, BatchOf(s.worker), Uncertain(s.worker), Current(s.worker))
    && ExhaustedExactly(s.tasks, s.outcomes, l.maxAttempts)
  }

  lemma InitiallyExact(l: Limits)
    ensures Exact(l, INITIAL)
  {
  }

  // ----- settling a list, as one update of the outcomes -----

  /** The outcomes of a list of open events are added, and nothing else. */
  ghost predicate Adds(s: State, s': State, es: seq<Event>, uncertain: set<Id>, otherwise: Outcome)
  {
    && s'.outcomes.Keys == s.outcomes.Keys + IdSet(es)
    && (forall id :: id in s.outcomes ==> s'.outcomes[id] == s.outcomes[id])
    && (forall id :: id in IdSet(es) ==> s'.outcomes[id] == Verdict(id, uncertain, otherwise))
  }

  ghost predicate AllOpen(s: State, es: seq<Event>)
  {
    Distinct(es) && forall e :: e in es ==> Open(s, e.id)
  }

  lemma FinishAllAdds(l: Limits, s: State, es: seq<Event>, uncertain: set<Id>, otherwise: Outcome)
    requires Core(l, s) && AllOpen(s, es)
    ensures Adds(s, FinishAll(s, es, uncertain, otherwise), es, uncertain, otherwise)
    ensures SameWorld(s, FinishAll(s, es, uncertain, otherwise)) && Core(l, FinishAll(s, es, uncertain, otherwise))
  {
    hide Budgeted, Counted, SettlesMemory, SettlesVerdicts, Verdict, SameWorld, FinishAll;
    FinishAllSettles(s, es, uncertain, otherwise);
    FinishAllKeepsCore(l, s, es, uncertain, otherwise);
    SettlingAdds(s, FinishAll(s, es, uncertain, otherwise), es, uncertain, otherwise);
  }

  lemma SettlingAdds(s: State, s': State, es: seq<Event>, uncertain: set<Id>, otherwise: Outcome)
    requires Tracked(s.pending, s.writes, s.finished, s.submitted, s.outcomes.Keys) && AllOpen(s, es)
    requires SettlesVerdicts(s, s', IdSet(es), uncertain, otherwise)
    ensures Adds(s, s', es, uncertain, otherwise)
  {
    hide Verdict;
  }

  // ----- lists -----

  lemma {:induction false} WithoutSnoc(es: seq<Event>, e: Event, settled: set<Id>)
    ensures Without(es + [e], settled) == Without(es, settled) + (if e.id in settled then [] else [e])
    decreases |es|
  {
    if es == [] {
      assert [] + [e] == [e];
      assert [e][1..] == [];
    } else {
      var more := es + [e];
      assert more[0] == es[0] && more[1..] == es[1..] + [e];
      WithoutSnoc(es[1..], e, settled);
      assert Without(more, settled) == (if es[0].id in settled then [] else [es[0]]) + Without(more[1..], settled);
    }
  }

  lemma {:induction false} DropIsWithout(es: seq<Event>, ids: set<Id>, settled: set<Id>)
    requires forall e :: e in es ==> (e.id in ids <==> e.id in settled)
    ensures Drop(es, ids) == Without(es, settled)
  {
    if es != [] {
      var n := |es| - 1;
      assert es == es[..n] + [es[n]];
      DropIsWithout(es[..n], ids, settled);
      WithoutSnoc(es[..n], es[n], settled);
    }
  }

  lemma {:induction false} NoneWithout(es: seq<Event>, settled: set<Id>)
    requires forall e :: e in es ==> e.id in settled
    ensures Without(es, settled) == []
  {
    if es != [] {
      NoneWithout(es[1..], settled);
    }
  }

  lemma BatchIsOpen(l: Limits, s: State)
    requires Inv(l, s)
    ensures AllOpen(s, BatchOf(s.worker))
    ensures forall e :: e in BatchOf(s.worker) ==> e.id !in s.outcomes && e.id in s.submitted && s.pending[e.id].event == e
  {
    hide Reserved, Truthful, Bounded, Budgeted, Counted;
  }

  /** Between writes, the events marked uncertain are those that some attempt did not cleanly refuse. */
  lemma UncertainIsDoubt(l: Limits, s: State)
    requires (s.worker.Trying? || s.worker.Sleeping?) && Exact(l, s) && Inv(l, s)
    ensures forall e :: e in s.worker.batch ==> (e.id in s.worker.uncertain <==> !Refused(s.tasks, e.id, None))
  {
    hide Core, Placed, Reserved, Bounded, StoreFits, QueueUntouched, Verdicts, TriedExactly, ExhaustedExactly, RefusedBy;
    forall e | e in s.worker.batch && e.id in s.worker.uncertain ensures !Refused(s.tasks, e.id, None) {
      var t :| t in s.tasks && e.id in s.tasks[t].ids && Unclear(s.tasks[t], e.id);
      assert !RefusedBy(s.tasks[t], e.id);
    }
  }

  // ----- the start of an attempt -----

  lemma AgedAre(l: Limits, s: State, now: real)
    requires s.worker.Trying? && Distinct(s.worker.batch)
    ensures
      var aged := Aged(l, s.worker.batch, now);
      && (forall id :: id in IdSet(Keep(s.worker.batch, aged)) <==> Outlived(l, s, id, now))
      && (forall e :: e in Keep(s.worker.batch, aged) ==> e in s.worker.batch)
      && Distinct(Keep(s.worker.batch, aged))
      && (forall e :: e in s.worker.batch ==> (e.id in aged <==> e.id in IdSet(Keep(s.worker.batch, aged))))
  {
    hide Keep, Drop;
    KeepDrop(s.worker.batch, Aged(l, s.worker.batch, now));
  }

  /** After the aged events are settled a write is started for the others, if there are any. */
  lemma WriteGoesOn(l: Limits, s: State, s1: State, now: real, t: TaskId, live: seq<Event>)
    requires s.worker.Trying? && s1.tasks == s.tasks && live == Without(s.worker.batch, s1.outcomes.Keys)
    ensures
      var s' := if live == [] then s1.(worker := Looping) else StartWrite(s1, live, s.worker.uncertain, s.worker.attempt, t);
      s'.outcomes == s1.outcomes && GoesOn(l, s, DoAttempt(now, t), s')
  {
    hide Claims, Without;
  }

  lemma AttemptUnfolds(l: Limits, s: State, now: real, t: TaskId)
    requires s.worker.Trying?
    ensures
      var w := s.worker;
      var (es, live) := (Keep(w.batch, Aged(l, w.batch, now)), Drop(w.batch, Aged(l, w.batch, now)));
      var s1 := FinishAll(s, es, w.uncertain, DroppedExpired);
      Attempt(l, s, now, t) == if live == [] then s1.(worker := Looping) else StartWrite(s1, live, w.uncertain, w.attempt, t)
  {
    hide Keep, Drop, Aged, FinishAll, StartWrite;
  }

  lemma AttemptParts(l: Limits, s: State, now: real, t: TaskId)
    requires s.worker.Trying? && Inv(l, s)
    ensures
      var w := s.worker;
      var (s', es) := (Attempt(l, s, now, t), Keep(w.batch, Aged(l, w.batch, now)));
      Adds(s, s', es, w.uncertain, DroppedExpired) && GoesOn(l, s, DoAttempt(now, t), s')
  {
    hide Keep, Drop, Aged, Distinct, IdSet, Inv, Adds, Claims, FinishAll, Attempt, StartWrite, GoesOn, Core, AllOpen,
      Open;
    var w := s.worker;
    var es, live := Keep(w.batch, Aged(l, w.batch, now)), Drop(w.batch, Aged(l, w.batch, now));
    BatchIsOpen(l, s);
    BatchIsDistinct(s);
    AgedAre(l, s, now);
    InvCore(l, s);
    KeptAreOpen(s, w.batch, es);
    FinishAllAdds(l, s, es, w.uncertain, DroppedExpired);
    var s1 := FinishAll(s, es, w.uncertain, DroppedExpired);
    AddedAre(s, s1, w.batch, es, w.uncertain, DroppedExpired);
    DropIsWithout(w.batch, Aged(l, w.batch, now), s1.outcomes.Keys);
    AttemptUnfolds(l, s, now, t);
    WriteGoesOn(l, s, s1, now, t, live);
    SameOutcomes(s, s1, Attempt(l, s, now, t), es, w.uncertain, DroppedExpired);
  }

  lemma BatchIsDistinct(s: State)
    requires AllOpen(s, BatchOf(s.worker))
    ensures Distinct(BatchOf(s.worker))
  {
  }

  lemma KeptAreOpen(s: State, batch: seq<Event>, es: seq<Event>)
    requires AllOpen(s, batch) && Distinct(es) && forall e :: e in es ==> e in batch
    ensures AllOpen(s, es)
  {
  }

  lemma SameOutcomes(s: State, s1: State, s2: State, es: seq<Event>, uncertain: set<Id>, otherwise: Outcome)
    requires Adds(s, s1, es, uncertain, otherwise) && s2.outcomes == s1.outcomes
    ensures Adds(s, s2, es, uncertain, otherwise)
  {
  }

  /** Of the events that had no outcome, exactly the settled ones have one now. */
  lemma AddedAre(s: State, s': State, batch: seq<Event>, es: seq<Event>, uncertain: set<Id>, otherwise: Outcome)
    requires Adds(s, s', es, uncertain, otherwise)
    ensures forall e :: e in batch && e.id !in s.outcomes ==> (e.id in s'.outcomes <==> e.id in IdSet(es))
  {
  }

  lemma AttemptSettles(l: Limits, s: State, now: real, t: TaskId, id: Id)
    requires s.worker.Trying? && t !in s.tasks && id !in s.outcomes && Exact(l, s) && Inv(l, s)
    ensures
      var s' := Attempt(l, s, now, t);
      && (id in s'.outcomes <==> Due(l, s, DoAttempt(now, t), id).Some?)
      && (id in s'.outcomes ==> Due(l, s, DoAttempt(now, t), id) == Some(s'.outcomes[id]))
  {
    hide Keep, Aged, Distinct, IdSet, Exact, Inv, Refused, Attempt, GoesOn;
    BatchIsOpen(l, s);
    AttemptParts(l, s, now, t);
    AgedAre(l, s, now);
    UncertainIsDoubt(l, s);
  }

  lemma InvCore(l: Limits, s: State)
    requires Inv(l, s)
    ensures Core(l, s)
  {
  }

  // ----- reading an answer -----

  ghost function Answer(s: State): BatchResult
    requires s.worker.Waiting? && s.worker.task in s.tasks
  {
    ResultOf(s.tasks[s.worker.task].status, s.worker.batch)
  }

  ghost predicate Reads(s: State)
  {
    && s.worker.Waiting? && s.worker.task in s.tasks
    && (s.tasks[s.worker.task].status.Returned? || s.tasks[s.worker.task].status.Raised?)
  }

  lemma AcknowledgedAre(s: State, es: seq<Event>, rest: seq<Event>)
    requires Reads(s) && Distinct(s.worker.batch)
    requires es == Keep(s.worker.batch, Acked(s.worker.batch, Answer(s)))
    requires rest == Drop(s.worker.batch, Acked(s.worker.batch, Answer(s)))
    ensures forall id :: id in IdSet(es) <==> InBatch(s, id) && Acknowledged(s, id)
    ensures forall id :: id in IdSet(rest) <==> InBatch(s, id) && !Acknowledged(s, id)
    ensures forall e :: e in es || e in rest ==> e in s.worker.batch
    ensures forall e :: e in s.worker.batch ==> (e.id in Acked(s.worker.batch, Answer(s)) <==> e.id in IdSet(es))
    ensures Distinct(es) && Distinct(rest)
  {
    hide Keep, Drop, Distinct;
    KeepDrop(s.worker.batch, Acked(s.worker.batch, Answer(s)));
    assert forall e :: e in s.worker.batch ==> (CleanAck(Answer(s), e.id) <==> Acknowledged(s, e.id));
  }

  /** After a write has been read, the events marked uncertain are those that some attempt did not cleanly refuse. */
  lemma ReadIsDoubt(l: Limits, s: State)
    requires Reads(s) && Exact(l, s) && Inv(l, s)
    ensures
      var w := s.worker;
      var uncertain := w.uncertain + Doubtful(w.batch, Answer(s));
      forall e :: e in w.batch && !Acknowledged(s, e.id) ==>
        && (e.id in uncertain <==> !Refused(s.tasks, e.id, None))
        && (e.id in uncertain ==> exists t :: t in s.tasks && e.id in s.tasks[t].ids && Unclear(s.tasks[t], e.id))
  {
    hide Core, Placed, Bounded, StoreFits, QueueUntouched, Verdicts, TriedExactly, ExhaustedExactly;
    var w := s.worker;
    IdsAreIdSet(w.batch);
    forall e | e in w.batch && !Acknowledged(s, e.id)
      ensures e.id in w.uncertain + Doubtful(w.batch, Answer(s)) <==> !Refused(s.tasks, e.id, None)
      ensures e.id in w.uncertain + Doubtful(w.batch, Answer(s)) ==>
                exists t :: t in s.tasks && e.id in s.tasks[t].ids && Unclear(s.tasks[t], e.id)
    {
      ReadOne(s, e);
    }
  }

  lemma ReadOne(s: State, e: Event)
    requires Reads(s) && e in s.worker.batch && !Acknowledged(s, e.id) && e.id in s.tasks[s.worker.task].ids
    requires Believed(s.tasks, s.worker.batch, s.worker.uncertain, Some(s.worker.task))
    requires Doubted(s.tasks, s.worker.batch, s.worker.uncertain, Some(s.worker.task))
    ensures
      var uncertain := s.worker.uncertain + Doubtful(s.worker.batch, Answer(s));
      && (e.id in uncertain <==> !Refused(s.tasks, e.id, None))
      && (e.id in uncertain ==> exists t :: t in s.tasks && e.id in s.tasks[t].ids && Unclear(s.tasks[t], e.id))
  {
    var t := s.worker.task;
    assert e.id in Doubtful(s.worker.batch, Answer(s)) <==> !RefusedBy(s.tasks[t], e.id);
    if e.id in s.worker.uncertain {
      var u :| u in s.tasks && e.id in s.tasks[u].ids && Unclear(s.tasks[u], e.id);
    } else {
      assert Refused(s.tasks, e.id, Some(t));
    }
  }

  /** The attempts of a batch whose write is over: one more than when the write was started. */
  lemma AttemptsSoFar(l: Limits, s: State, id: Id)
    requires s.worker.Waiting? && InBatch(s, id) && Exact(l, s) && Inv(l, s)
    ensures |AttemptsOf(s.tasks, id)| == s.worker.attempt + 1 <= l.maxAttempts
  {
    hide Core, Reserved, Truthful, Bounded, Partition, Doubted, ExhaustedExactly, AttemptsOf;
  }

  lemma OpenIsUnsettled(l: Limits, s: State)
    requires Core(l, s)
    ensures forall id :: Open(s, id) <==> id in s.submitted && id !in s.outcomes
  {
    hide Budgeted, Counted;
  }

  /** An event of the batch with no clean acknowledgement and an attempt to spare is kept. */
  lemma KeptForRetry(l: Limits, s: State, s2: State, rest: seq<Event>, uncertain: set<Id>)
    requires s.worker.Waiting? && rest == Without(s.worker.batch, s2.outcomes.Keys)
    requires rest == [] || s.worker.attempt + 1 < l.maxAttempts
    ensures
      var s' := AfterRead(l, s2, s.worker, rest, uncertain);
      s'.outcomes == s2.outcomes && s'.tasks == s2.tasks && GoesOn(l, s, DoRead, s')
  {
    hide Without, FinishAll, Copies;
  }

  lemma GivenUp(l: Limits, s: State, s2: State, rest: seq<Event>, uncertain: set<Id>)
    requires s.worker.Waiting? && rest != [] && s.worker.attempt + 1 >= l.maxAttempts && Core(l, s2) && AllOpen(s2, rest)
    ensures
      var s' := AfterRead(l, s2, s.worker, rest, uncertain);
      Adds(s2, s', rest, uncertain, DroppedRetryExhausted) && s'.worker == Looping && s'.tasks == s2.tasks
  {
    hide Adds, FinishAll, Core, AllOpen, Copies;
    FinishAllAdds(l, s2, rest, uncertain, DroppedRetryExhausted);
    SameOutcomes(s2, FinishAll(s2, rest, uncertain, DroppedRetryExhausted), AfterRead(l, s2, s.worker, rest, uncertain),
                 rest, uncertain, DroppedRetryExhausted);
  }

  /** The state after the acknowledged events are settled, and before it is decided about the rest. */
  ghost function AfterAcks(s: State): State
    requires Reads(s)
  {
    var w := s.worker;
    FinishAll(CountRead(s, s.tasks[w.task].status, w.batch), Keep(w.batch, Acked(w.batch, Answer(s))), {}, Stored)
  }

  lemma AcksSettled(l: Limits, s: State)
    requires Reads(s) && Inv(l, s)
    ensures
      var w := s.worker;
      var (es, rest) := (Keep(w.batch, Acked(w.batch, Answer(s))), Drop(w.batch, Acked(w.batch, Answer(s))));
      && Adds(s, AfterAcks(s), es, {}, Stored) && AfterAcks(s).tasks == s.tasks
      && Core(l, AfterAcks(s)) && AllOpen(AfterAcks(s), rest)
      && rest == Without(w.batch, AfterAcks(s).outcomes.Keys)
  {
    hide Keep, Drop, Acked, Distinct, IdSet, Inv, Adds, FinishAll, Core, CountRead, Open, AllOpen, SameWorld;
    var w := s.worker;
    var es, rest := Keep(w.batch, Acked(w.batch, Answer(s))), Drop(w.batch, Acked(w.batch, Answer(s)));
    BatchIsOpen(l, s);
    BatchIsDistinct(s);
    AcknowledgedAre(s, es, rest);
    InvCore(l, s);
    var s1 := CountRead(s, s.tasks[w.task].status, w.batch);
    CountReadKeepsCore(l, s, s.tasks[w.task].status, w.batch);
    SameOpen(s, s1, w.batch);
    KeptAreOpen(s1, w.batch, es);
    FinishAllAdds(l, s1, es, {}, Stored);
    var s2 := AfterAcks(s);
    SameTasks(s1, s2);
    AddedAre(s1, s2, w.batch, es, {}, Stored);
    DropIsWithout(w.batch, Acked(w.batch, Answer(s)), s2.outcomes.Keys);
    AddsFrom(s, s1, s2, es, {}, Stored);
    KeptAreOpen(s1, w.batch, rest);
    RestStaysOpen(l, s1, s2, es, rest, {}, Stored);
  }

  lemma SameOpen(s: State, s1: State, es: seq<Event>)
    requires AllOpen(s, es) && s1.pending == s.pending && s1.finished == s.finished
    ensures AllOpen(s1, es)
  {
  }

  lemma SameTasks(s: State, s': State)
    requires SameWorld(s, s')
    ensures s'.tasks == s.tasks && s'.submitted == s.submitted && s'.worker == s.worker
  {
  }

  lemma RestStaysOpen(
    l: Limits, s: State, s': State, es: seq<Event>, rest: seq<Event>, uncertain: set<Id>, otherwise: Outcome)
    requires Core(l, s) && Core(l, s') && AllOpen(s, rest) && SameWorld(s, s') && Adds(s, s', es, uncertain, otherwise)
    requires IdSet(rest) !! IdSet(es)
    ensures AllOpen(s', rest)
  {
    hide IdSet, Core, Distinct;
    OpenIsUnsettled(l, s);
    OpenIsUnsettled(l, s');
    IdsAreIdSet(rest);
  }

  lemma AddsFrom(s: State, s1: State, s2: State, es: seq<Event>, uncertain: set<Id>, otherwise: Outcome)
    requires Adds(s1, s2, es, uncertain, otherwise) && s1.outcomes == s.outcomes
    ensures Adds(s, s2, es, uncertain, otherwise)
  {
  }

  lemma ReadUnfolds(l: Limits, s: State)
    requires Reads(s)
    ensures
      var w := s.worker;
      Read(l, s, s.tasks[w.task].status) ==
        AfterRead(l, AfterAcks(s), w, Drop(w.batch, Acked(w.batch, Answer(s))), w.uncertain + Doubtful(w.batch, Answer(s)))
  {
    hide Keep, Drop, Acked, Doubtful, FinishAll, CountRead, AfterRead;
  }

  lemma ReadSettles(l: Limits, s: State, id: Id)
    requires Reads(s) && id !in s.outcomes && Exact(l, s) && Inv(l, s)
    ensures
      var s' := Read(l, s, s.tasks[s.worker.task].status);
      && (id in s'.outcomes <==> Due(l, s, DoRead, id).Some?)
      && (id in s'.outcomes ==> Due(l, s, DoRead, id) == Some(s'.outcomes[id]))
      && GoesOn(l, s, DoRead, s')
  {
    hide Keep, Drop, Acked, Doubtful, Distinct, IdSet, Inv, FinishAll, Core, AllOpen, Open, CountRead, AfterRead, Read,
      AfterAcks, Exact, Refused, AttemptsOf, Without;
    var w := s.worker;
    var es, rest := Keep(w.batch, Acked(w.batch, Answer(s))), Drop(w.batch, Acked(w.batch, Answer(s)));
    var uncertain := w.uncertain + Doubtful(w.batch, Answer(s));
    BatchIsOpen(l, s);
    BatchIsDistinct(s);
    AcknowledgedAre(s, es, rest);
    AcksSettled(l, s);
    ReadUnfolds(l, s);
    ReadIsDoubt(l, s);
    if InBatch(s, id) {
      AttemptsSoFar(l, s, id);
    }
    if rest == [] || w.attempt + 1 < l.maxAttempts {
      KeptForRetry(l, s, AfterAcks(s), rest, uncertain);
      NoIds();
    } else {
      GivenUp(l, s, AfterAcks(s), rest, uncertain);
      AllGivenUp(l, s, AfterAcks(s), Read(l, s, s.tasks[w.task].status), rest, uncertain);
    }
  }

  lemma NoIds()
    ensures IdSet([]) == {}
  {
  }

  /** When all of the batch has its outcome the worker goes back to its queue. */
  lemma AllGivenUp(l: Limits, s: State, s2: State, s': State, rest: seq<Event>, uncertain: set<Id>)
    requires s.worker.Waiting? && rest == Without(s.worker.batch, s2.outcomes.Keys)
    requires Adds(s2, s', rest, uncertain, DroppedRetryExhausted) && s'.worker == Looping
    ensures GoesOn(l, s, DoRead, s')
  {
    hide IdSet;
    WithoutIs(s.worker.batch, s2.outcomes.Keys);
    assert forall e :: e in rest ==> e.id in IdSet(rest) by { IdsAreIdSet(rest); }
    NoneWithout(s.worker.batch, s'.outcomes.Keys);
  }

  lemma {:induction false} WithoutIs(es: seq<Event>, settled: set<Id>)
    ensures forall e :: e in Without(es, settled) <==> e in es && e.id !in settled
  {
    if es != [] {
      WithoutIs(es[1..], settled);
      assert es == [es[0]] + es[1..];
    }
  }

  // ----- the other ends of a batch -----

  lemma InBatchIs(s: State)
    requires s.worker.Trying? || s.worker.Waiting? || s.worker.Sleeping?
    ensures forall id :: id in IdSet(s.worker.batch) <==> InBatch(s, id)
  {
  }

  lemma TimeOutSettles(l: Limits, s: State, id: Id)
    requires s.worker.Waiting? && id !in s.outcomes && Inv(l, s)
    ensures
      var s' := TimeOut(s);
      && (id in s'.outcomes <==> Due(l, s, DoTimeOut, id).Some?)
      && (id in s'.outcomes ==> Due(l, s, DoTimeOut, id) == Some(s'.outcomes[id]))
      && GoesOn(l, s, DoTimeOut, s')
  {
    hide IdSet, Inv, FinishAll, Core, AllOpen, Open, Copies, Distinct, Without;
    var b := s.worker.batch;
    BatchIsOpen(l, s);
    InvCore(l, s);
    InBatchIs(s);
    var s0 := s.(counters := s.counters + Copies(WriteFailures, 1));
    BumpKeepsCore(l, s, WriteFailures, 1);
    BumpKeepsCore(l, s0, AckUnknownAttempts, |b|);
    var s1 := s.(counters := s.counters + Copies(WriteFailures, 1) + Copies(AckUnknownAttempts, |b|));
    SameOpen(s, s1, b);
    FinishAllAdds(l, s1, b, IdSet(b), AckUnknown);
  }

  /** Whatever is still open when the worker leaves is dropped. */
  lemma ExitSettles(l: Limits, s: State, values: seq<Event>, id: Id)
    requires Core(l, s) && Enumerates(values, s.pending) && id !in s.outcomes
    ensures
      var s' := Exit(s, values);
      && (id in s'.outcomes <==> id in s.pending)
      && (id in s'.outcomes ==> s'.outcomes[id] == DroppedShutdown)
      && s'.worker == Absent && s'.queue == []
      && forall x :: x in s.outcomes ==> x in s'.outcomes && s'.outcomes[x] == s.outcomes[x]
  {
    hide Budgeted, Counted, SettlesMemory, FinishAll;
    FinishAllSettles(s, values, {}, DroppedShutdown);
  }

  lemma CancelSettles(l: Limits, s: State, values: seq<Event>, id: Id)
    requires (s.worker.Waiting? || s.worker.Sleeping?) && id !in s.outcomes
    requires Enumerates(values, CancelBatch(s).pending) && Exact(l, s) && Inv(l, s)
    ensures
      var s' := Exit(CancelBatch(s), values);
      && (id in s'.outcomes <==> Due(l, s, DoCancel(values), id).Some?)
      && (id in s'.outcomes ==> Due(l, s, DoCancel(values), id) == Some(s'.outcomes[id]))
      && GoesOn(l, s, DoCancel(values), s')
  {
    hide IdSet, Inv, FinishAll, Core, AllOpen, Distinct, Without, Exact, Refused, Exit, CancelBatch, Enumerates, Adds,
      InBatch;
    BatchIsOpen(l, s);
    InvCore(l, s);
    CancelledBatch(l, s);
    CancelSettlesBatch(l, s, id);
    if id in CancelBatch(s).outcomes {
      ExitKeeps(l, CancelBatch(s), values, id);
    } else {
      PendingIsOpen(l, s, id);
      PendingIsOpen(l, CancelBatch(s), id);
      ExitSettles(l, CancelBatch(s), values, id);
    }
  }

  /** Cancelling settles the batch by what its attempts leave open, before the queue is given up. */
  lemma CancelSettlesBatch(l: Limits, s: State, id: Id)
    requires (s.worker.Waiting? || s.worker.Sleeping?) && id !in s.outcomes && Exact(l, s) && Inv(l, s)
    ensures id in CancelBatch(s).outcomes <==> InBatch(s, id)
    ensures InBatch(s, id) ==> CancelBatch(s).outcomes[id] ==
                                 if s.worker.Waiting? then AckUnknown else IfRefused(s.tasks, id, DroppedShutdown)
  {
    hide IdSet, Inv, FinishAll, Core, AllOpen, Distinct, Exact, Refused, CancelBatch;
    CancelledBatch(l, s);
    InBatchIs(s);
    if s.worker.Sleeping? {
      UncertainIsDoubt(l, s);
    }
  }

  lemma PendingIsOpen(l: Limits, s: State, id: Id)
    requires Core(l, s) && id !in s.outcomes
    ensures id in s.pending <==> id in s.submitted
  {
    hide Budgeted, Counted;
  }

  lemma ExitKeeps(l: Limits, s: State, values: seq<Event>, id: Id)
    requires Core(l, s) && Enumerates(values, s.pending) && id in s.outcomes
    ensures
      var s' := Exit(s, values);
      id in s'.outcomes && s'.outcomes[id] == s.outcomes[id] && s'.worker == Absent && s'.queue == []
  {
    hide Budgeted, Counted, SettlesMemory, FinishAll;
    FinishAllSettles(s, values, {}, DroppedShutdown);
  }

  lemma CancelledBatch(l: Limits, s: State)
    requires (s.worker.Waiting? || s.worker.Sleeping?) && Inv(l, s)
    ensures
      var uncertain := if s.worker.Waiting? then IdSet(s.worker.batch) else s.worker.uncertain;
      && Adds(s, CancelBatch(s), s.worker.batch, uncertain, DroppedShutdown)
      && Core(l, CancelBatch(s)) && CancelBatch(s).submitted == s.submitted
  {
    hide IdSet, Inv, FinishAll, AllOpen, Distinct, Budgeted, Tracked, Count;
    BatchIsOpen(l, s);
    InvCore(l, s);
    var uncertain := if s.worker.Waiting? then IdSet(s.worker.batch) else s.worker.uncertain;
    FinishAllAdds(l, s, s.worker.batch, uncertain, DroppedShutdown);
    SameOutcomes(s, FinishAll(s, s.worker.batch, uncertain, DroppedShutdown), CancelBatch(s), s.worker.batch, uncertain,
                 DroppedShutdown);
  }

  lemma SubmitSettlesNothing(l: Limits, s: State, e: Event, payload: Option<nat>, now: real)
    ensures Submit(l, s, e, payload, now).outcomes == s.outcomes && Submit(l, s, e, payload, now).tasks == s.tasks
  {
    hide Accept, Reject;
    AcceptSettlesNothing(s, e, payload);
    RejectSettlesNothing(s, Refusal(l, s, e, payload, now));
  }

  lemma AcceptSettlesNothing(s: State, e: Event, payload: Option<nat>)
    ensures payload.Some? ==>
              var s' := Accept(s, Entry(e, payload.value));
              s'.outcomes == s.outcomes && s'.tasks == s.tasks
  {
  }

  lemma RejectSettlesNothing(s: State, refusal: Option<Counter>)
    ensures refusal.Some? ==> Reject(s, refusal.value).outcomes == s.outcomes && Reject(s, refusal.value).tasks == s.tasks
  {
  }

  lemma CallBackSettlesNothing(l: Limits, s: State, t: TaskId)
    requires Enabled(l, s, DoWriteDone(t))
    ensures Apply(l, s, DoWriteDone(t)).outcomes == s.outcomes
  {
    hide ReleaseAll;
    ReleaseAllKeepsWorld(s, s.tasks[t].ids);
  }

  /** No other step settles anything. */
  lemma OthersSettleNothing(l: Limits, s: State, a: Action)
    requires Enabled(l, s, a) && !a.DoAttempt? && !a.DoTimeOut? && !a.DoRead? && !a.DoCancel? && !a.DoExit?
    ensures Apply(l, s, a).outcomes == s.outcomes
  {
    hide Enumerates, Honest, ReleaseAll, Submit, Read, Attempt, TimeOut, Exit, CancelBatch, IdSet;
    match a
    case DoSubmit(e, payload, now) => SubmitSettlesNothing(l, s, e, payload, now);
    case DoWriteDone(t) => CallBackSettlesNothing(l, s, t);
    case _ =>
  }

  /**
   Every step settles exactly the events that are owed an outcome, with that outcome, and goes on with
   the others: those of the batch are written, or kept for another attempt, in their order.
   */
  lemma StepSettlesExactly(l: Limits, s: State, a: Action, id: Id)
    requires Enabled(l, s, a) && id !in s.outcomes && Exact(l, s) && Inv(l, s)
    ensures
      var s' := Apply(l, s, a);
      && (id in s'.outcomes <==> Due(l, s, a, id).Some?)
      && (id in s'.outcomes ==> Due(l, s, a, id) == Some(s'.outcomes[id]))
      && GoesOn(l, s, a, s')
  {
    hide Exact, Inv, Attempt, TimeOut, Read, Exit, CancelBatch, Enumerates, Honest, ReleaseAll, Refusal, Without;
    match a
    case DoAttempt(now, t) =>
      AttemptSettles(l, s, now, t, id);
      AttemptParts(l, s, now, t);
    case DoTimeOut => TimeOutSettles(l, s, id);
    case DoRead => ReadSettles(l, s, id);
    case DoCancel(values) => CancelSettles(l, s, values, id);
    case DoExit(values) =>
      InvCore(l, s);
      ExitSettles(l, s, values, id);
    case _ => OthersSettleNothing(l, s, a);
  }

  // ----- the counts stay exact -----

  /** Old outcomes stay, and only a read write can make an event count as given up. */
  lemma ExhaustedStays(l: Limits, s: State, a: Action)
    requires Enabled(l, s, a) && Exact(l, s) && Inv(l, s)
    requires forall id :: id in s.outcomes && s.outcomes[id] == DroppedRetryExhausted ==>
               AttemptsOf(Apply(l, s, a).tasks, id) == AttemptsOf(s.tasks, id)
    requires a.DoRead? ==> Apply(l, s, a).tasks == s.tasks
    ensures ExhaustedExactly(Apply(l, s, a).tasks, Apply(l, s, a).outcomes, l.maxAttempts)
  {
    hide Inv, Apply, Enabled, Exact, GoesOn, AttemptsOf, Refused, TriedExactly;
    var s' := Apply(l, s, a);
    StepExtends(l, s, a);
    assert ExhaustedExactly(s.tasks, s.outcomes, l.maxAttempts) by { ExactParts(l, s); }
    forall id | id in s'.outcomes && s'.outcomes[id] == DroppedRetryExhausted
      ensures |AttemptsOf(s'.tasks, id)| == l.maxAttempts
    {
      if id !in s.outcomes {
        StepSettlesExactly(l, s, a, id);
        OnlyReadsGiveUp(l, s, a, id);
        ReadIsWaiting(l, s, a);
        AttemptsSoFar(l, s, id);
      }
    }
  }

  lemma ReadIsWaiting(l: Limits, s: State, a: Action)
    requires Enabled(l, s, a) && a.DoRead?
    ensures Reads(s)
  {
  }

  lemma ExactParts(l: Limits, s: State)
    requires Exact(l, s)
    ensures TriedExactly(s.tasks, BatchOf(s.worker), AttemptBound(s.worker))
    ensures Doubted(s.tasks, BatchOf(s.worker), Uncertain(s.worker), Current(s.worker))
    ensures ExhaustedExactly(s.tasks, s.outcomes, l.maxAttempts)
  {
  }

  lemma OnlyReadsGiveUp(l: Limits, s: State, a: Action, id: Id)
    requires Due(l, s, a, id) == Some(DroppedRetryExhausted)
    ensures a.DoRead? && InBatch(s, id) && |AttemptsOf(s.tasks, id)| >= l.maxAttempts
  {
  }

  lemma AttemptKeepsExact(l: Limits, s: State, now: real, t: TaskId)
    requires Enabled(l, s, DoAttempt(now, t)) && Exact(l, s) && Inv(l, s)
    ensures
      var s' := Attempt(l, s, now, t);
      && TriedExactly(s'.tasks, BatchOf(s'.worker), AttemptBound(s'.worker))
      && Doubted(s'.tasks, BatchOf(s'.worker), Uncertain(s'.worker), Current(s'.worker))
      && forall id :: id in s.outcomes ==> AttemptsOf(s'.tasks, id) == AttemptsOf(s.tasks, id)
  {
    hide Inv, Attempt, Without, IdSet, AttemptsOf, Adds, Keep, Aged;
    AttemptParts(l, s, now, t);
    var s' := Attempt(l, s, now, t);
    var rest := Without(s.worker.batch, s'.outcomes.Keys);
    WithoutIs(s.worker.batch, s'.outcomes.Keys);
    IdsAreIdSet(rest);
    OldStay(l, s, now, t);
    if rest != [] {
      assert s'.tasks == Started(s.tasks, t, rest);
      forall e | e in rest ensures |AttemptsOf(s'.tasks, e.id)| == s.worker.attempt + 1 {
        StartCounts(s.tasks, t, rest, e.id);
      }
      forall id | id in s.outcomes ensures AttemptsOf(s'.tasks, id) == AttemptsOf(s.tasks, id) {
        NotStarted(s.tasks, t, rest, id);
      }
      StartKeepsDoubt(s.tasks, t, s.worker.batch, rest, s.worker.uncertain);
    }
  }

  lemma OldStay(l: Limits, s: State, now: real, t: TaskId)
    requires Enabled(l, s, DoAttempt(now, t)) && Inv(l, s)
    ensures s.outcomes.Keys <= Attempt(l, s, now, t).outcomes.Keys
  {
    hide Inv, Attempt;
    StepExtends(l, s, DoAttempt(now, t));
  }

  lemma NotStarted(tasks: map<TaskId, Task>, t: TaskId, live: seq<Event>, id: Id)
    requires t !in tasks && id !in IdSet(live)
    ensures AttemptsOf(Started(tasks, t, live), id) == AttemptsOf(tasks, id)
  {
    IdsAreIdSet(live);
  }

  lemma StartKeepsDoubt(
    tasks: map<TaskId, Task>, t: TaskId, batch: seq<Event>, live: seq<Event>, uncertain: set<Id>)
    requires t !in tasks && Doubted(tasks, batch, uncertain, None) && forall e :: e in live ==> e in batch
    ensures Doubted(Started(tasks, t, live), live, uncertain, Some(t))
  {
    hide Unclear;
    var tasks' := Started(tasks, t, live);
    forall e | e in live && e.id in uncertain
      ensures exists u :: u in tasks' && Some(u) != Some(t) && e.id in tasks'[u].ids && Unclear(tasks'[u], e.id)
    {
      var u :| u in tasks && e.id in tasks[u].ids && Unclear(tasks[u], e.id);
      assert tasks'[u] == tasks[u];
    }
  }

  lemma ReadKeepsExact(l: Limits, s: State)
    requires Reads(s) && Exact(l, s) && Inv(l, s)
    ensures
      var s' := Read(l, s, s.tasks[s.worker.task].status);
      && s'.tasks == s.tasks
      && TriedExactly(s'.tasks, BatchOf(s'.worker), AttemptBound(s'.worker))
      && Doubted(s'.tasks, BatchOf(s'.worker), Uncertain(s'.worker), Current(s'.worker))
  {
    hide Inv, Read, AfterRead, AfterAcks, Keep, Drop, Acked, Doubtful, Unclear, AttemptsOf, IdSet, Adds, Core, AllOpen;
    var w := s.worker;
    var rest := Drop(w.batch, Acked(w.batch, Answer(s)));
    BatchIsOpen(l, s);
    BatchIsDistinct(s);
    ReadUnfolds(l, s);
    AcksSettled(l, s);
    AcknowledgedAre(s, Keep(w.batch, Acked(w.batch, Answer(s))), rest);
    ReadIsDoubt(l, s);
    AfterReadIs(l, AfterAcks(s), w, rest, w.uncertain + Doubtful(w.batch, Answer(s)));
    IdsAreIdSet(rest);
  }

  lemma AfterReadIs(l: Limits, s: State, w: Worker, rest: seq<Event>, uncertain: set<Id>)
    requires w.Waiting?
    requires Core(l, s) && AllOpen(s, rest)
    ensures
      var s' := AfterRead(l, s, w, rest, uncertain);
      s'.tasks == s.tasks && (s'.worker == Looping || s'.worker == Sleeping(rest, uncertain, w.attempt + 1))
  {
    hide Core, AllOpen, FinishAll, Copies, Adds;
    if rest != [] && w.attempt + 1 >= l.maxAttempts {
      FinishAllAdds(l, s, rest, uncertain, DroppedRetryExhausted);
    }
  }

  lemma UpdateKeepsExact(s: State, t: TaskId, task': Task)
    requires t in s.tasks && task'.ids == s.tasks[t].ids
    requires forall id :: Unclear(s.tasks[t], id) ==> Unclear(task', id)
    requires TriedExactly(s.tasks, BatchOf(s.worker), AttemptBound(s.worker))
    requires Doubted(s.tasks, BatchOf(s.worker), Uncertain(s.worker), Current(s.worker))
    ensures
      var tasks' := s.tasks[t := task'];
      && TriedExactly(tasks', BatchOf(s.worker), AttemptBound(s.worker))
      && Doubted(tasks', BatchOf(s.worker), Uncertain(s.worker), Current(s.worker))
      && forall id :: AttemptsOf(tasks', id) == AttemptsOf(s.tasks, id)
  {
    hide Unclear;
    var tasks' := s.tasks[t := task'];
    forall id ensures AttemptsOf(tasks', id) == AttemptsOf(s.tasks, id) {
    }
    hide AttemptsOf;
    forall e | e in BatchOf(s.worker) && e.id in Uncertain(s.worker)
      ensures exists u :: u in tasks' && Some(u) != Current(s.worker) && e.id in tasks'[u].ids && Unclear(tasks'[u], e.id)
    {
      var u :| u in s.tasks && Some(u) != Current(s.worker) && e.id in s.tasks[u].ids && Unclear(s.tasks[u], e.id);
      assert u in tasks' && Unclear(tasks'[u], e.id);
    }
  }

  /** The attempts of the batch and the doubts about it, as two of the three parts of `Exact`. */
  ghost predicate Tallies(s: State)
  {
    && TriedExactly(s.tasks, BatchOf(s.worker), AttemptBound(s.worker))
    && Doubted(s.tasks, BatchOf(s.worker), Uncertain(s.worker), Current(s.worker))
  }

  lemma NoBatchTallies(s: State)
    requires BatchOf(s.worker) == []
    ensures Tallies(s)
  {
  }

  lemma TakenTallies(l: Limits, s: State)
    requires ValidLimits(l) && s.worker.Looping? && s.queue != [] && Inv(l, s)
    ensures Tallies(TakeBatch(l, s))
  {
    hide Core, Placed, Reserved, Bounded, Verdicts, Believed, StoreFits, ValidLimits;
    var s' := TakeBatch(l, s);
    forall e | e in s'.worker.batch ensures AttemptsOf(s.tasks, e.id) == {} {
      var i :| 0 <= i < |s'.worker.batch| && s'.worker.batch[i] == e;
      assert s.queue[i] in s.queue && s.queue[i].event == e;
    }
  }

  lemma TaskMoves(l: Limits, s: State, a: Action)
    requires Enabled(l, s, a) && (a.DoWriteDone? || a.DoPersist? || a.DoComplete?) && Tallies(s)
    ensures Tallies(Apply(l, s, a))
    ensures forall id :: AttemptsOf(Apply(l, s, a).tasks, id) == AttemptsOf(s.tasks, id)
  {
    hide ReleaseAll, Honest, AttemptsOf, TriedExactly, Doubted;
    var s' := Apply(l, s, a);
    UpdateKeepsExact(s, a.task, s'.tasks[a.task]);
    if a.DoWriteDone? {
      ReleaseAllKeepsFrame(s, s.tasks[a.task].ids);
    }
  }

  lemma SubmitTallies(l: Limits, s: State, e: Event, payload: Option<nat>, now: real)
    requires Tallies(s)
    ensures Tallies(Submit(l, s, e, payload, now))
  {
    hide TriedExactly, Doubted;
    SubmitSettlesNothing(l, s, e, payload, now);
  }

  lemma ExitTallies(s: State, values: seq<Event>)
    ensures Tallies(Exit(s, values)) && Exit(s, values).tasks == FinishAll(s, values, {}, DroppedShutdown).tasks
  {
    hide FinishAll;
  }

  lemma {:induction false} FinishAllKeepsTasks(s: State, es: seq<Event>, uncertain: set<Id>, otherwise: Outcome)
    ensures FinishAll(s, es, uncertain, otherwise).tasks == s.tasks
    decreases |es|
  {
    if es != [] {
      FinishAllKeepsTasks(s, es[..|es| - 1], uncertain, otherwise);
    }
  }

  lemma EndsTally(l: Limits, s: State, a: Action)
    requires Enabled(l, s, a) && (a.DoTimeOut? || a.DoExit? || a.DoCancel?)
    ensures Tallies(Apply(l, s, a)) && Apply(l, s, a).tasks == s.tasks
  {
    hide FinishAll, Enumerates, Tallies, Copies, IdSet;
    match a
    case DoTimeOut =>
      var b := s.worker.batch;
      var s1 := s.(counters := s.counters + Copies(WriteFailures, 1) + Copies(AckUnknownAttempts, |b|));
      FinishAllKeepsTasks(s1, b, IdSet(b), AckUnknown);
      NoBatchTallies(Apply(l, s, a));
    case DoExit(values) =>
      ExitTallies(s, values);
      FinishAllKeepsTasks(s, values, {}, DroppedShutdown);
    case DoCancel(values) =>
      var uncertain := if s.worker.Waiting? then IdSet(s.worker.batch) else s.worker.uncertain;
      FinishAllKeepsTasks(s, s.worker.batch, uncertain, DroppedShutdown);
      ExitTallies(CancelBatch(s), values);
      FinishAllKeepsTasks(CancelBatch(s), values, {}, DroppedShutdown);
  }

  lemma StepTallies(l: Limits, s: State, a: Action)
    requires ValidLimits(l) && Enabled(l, s, a) && Exact(l, s) && Inv(l, s)
    ensures Tallies(Apply(l, s, a))
    ensures forall id :: id in s.outcomes ==> AttemptsOf(Apply(l, s, a).tasks, id) == AttemptsOf(s.tasks, id)
    ensures a.DoRead? ==> Apply(l, s, a).tasks == s.tasks
  {
    hide ValidLimits, Inv, TriedExactly, Doubted, ExhaustedExactly, Attempt, TimeOut, Read, Exit, CancelBatch, Submit,
      TakeBatch, Enumerates, Honest, ReleaseAll, AttemptsOf, IdSet;
    match a
    case DoSubmit(e, payload, now) =>
      SubmitTallies(l, s, e, payload, now);
      SubmitSettlesNothing(l, s, e, payload, now);
    case DoTakeBatch => TakenTallies(l, s); TakeKeepsTasks(l, s);
    case DoAttempt(now, t) => AttemptKeepsExact(l, s, now, t);
    case DoRead => ReadKeepsExact(l, s);
    case DoTimeOut => EndsTally(l, s, a);
    case DoExit(_) => EndsTally(l, s, a);
    case DoCancel(_) => EndsTally(l, s, a);
    case DoWriteDone(_) => TaskMoves(l, s, a);
    case DoPersist(_, _) => TaskMoves(l, s, a);
    case DoComplete(_, _) => TaskMoves(l, s, a);
    case _ =>
  }

  lemma TakeKeepsTasks(l: Limits, s: State)
    ensures TakeBatch(l, s).tasks == s.tasks
  {
  }

  lemma StepKeepsExact(l: Limits, s: State, a: Action)
    requires ValidLimits(l) && Enabled(l, s, a) && Exact(l, s) && Inv(l, s)
    ensures Exact(l, Apply(l, s, a))
  {
    hide ValidLimits, Inv, Enabled, Apply, TriedExactly, Doubted, ExhaustedExactly, AttemptsOf;
    StepTallies(l, s, a);
    ExhaustedStays(l, s, a);
  }

  // ----- over whole runs -----

  lemma {:induction false} RunKeepsExact(l: Limits, ss: seq<State>, actions: seq<Action>, i: nat)
    requires ValidLimits(l) && Run(l, ss, actions) && i < |ss|
    ensures Inv(l, ss[i]) && Exact(l, ss[i])
  {
    hide Inv, Exact, Enabled, Apply, ValidLimits;
    RunKeepsInv(l, ss, actions, i);
    if i == 0 {
      InitiallyExact(l);
    } else {
      RunKeepsExact(l, ss, actions, i - 1);
      StepKeepsExact(l, ss[i - 1], actions[i - 1]);
    }
  }

  /** In every run an event is given up only after as many attempts as there may be, each of them cleanly refused. */
  lemma GivenUpAfterAllAttempts(l: Limits, ss: seq<State>, actions: seq<Action>, i: nat, id: Id)
    requires ValidLimits(l) && Run(l, ss, actions) && i < |ss|
    requires id in ss[i].outcomes && ss[i].outcomes[id] == DroppedRetryExhausted
    ensures |AttemptsOf(ss[i].tasks, id)| == l.maxAttempts
    ensures forall t :: t in AttemptsOf(ss[i].tasks, id) ==> RefusedBy(ss[i].tasks[t], id)
  {
    RunKeepsExact(l, ss, actions, i);
    hide Run, ValidLimits, Core, Placed, Reserved, Bounded, TriedExactly, Doubted, RefusedBy, Believed, StoreFits,
      QueueUntouched;
    assert Means(ss[i].outcomes[id], ss[i].tasks, ss[i].store, id);
  }

  /**
   In every run, each step gives exactly the events that are owed an outcome exactly that outcome. In
   particular an event whose write is over without a clean acknowledgement, and which may be tried
   again, gets none, and waits in the batch of a sleeping worker.
   */
  lemma RunSettlesExactly(l: Limits, ss: seq<State>, actions: seq<Action>, i: nat, id: Id)
    requires ValidLimits(l) && Run(l, ss, actions) && i < |actions| && id !in ss[i].outcomes
    ensures id in ss[i + 1].outcomes <==> Due(l, ss[i], actions[i], id).Some?
    ensures id in ss[i + 1].outcomes ==> Due(l, ss[i], actions[i], id) == Some(ss[i + 1].outcomes[id])
    ensures GoesOn(l, ss[i], actions[i], ss[i + 1])
    ensures
      actions[i].DoRead? && InBatch(ss[i], id) && !Acknowledged(ss[i], id)
      && |AttemptsOf(ss[i].tasks, id)| < l.maxAttempts ==>
        ss[i + 1].worker.Sleeping? && InBatch(ss[i + 1], id)
  {
    hide Inv, Exact, Enabled, Apply, ValidLimits, GoesOn, Due;
    RunKeepsExact(l, ss, actions, i);
    StepSettlesExactly(l, ss[i], actions[i], id);
    if actions[i].DoRead? && InBatch(ss[i], id) && !Acknowledged(ss[i], id)
       && |AttemptsOf(ss[i].tasks, id)| < l.maxAttempts {
      StaysInBatch(l, ss[i], ss[i + 1], id);
    }
  }

  lemma StaysInBatch(l: Limits, s: State, s': State, id: Id)
    requires GoesOn(l, s, DoRead, s') && InBatch(s, id) && (id in s'.outcomes <==> Due(l, s, DoRead, id).Some?)
    requires !Acknowledged(s, id) && |AttemptsOf(s.tasks, id)| < l.maxAttempts
    ensures s'.worker.Sleeping? && InBatch(s', id)
  {
    hide AttemptsOf, Refused;
    WithoutIs(BatchOf(s.worker), s'.outcomes.Keys);
    var e :| e in BatchOf(s.worker) && e.id == id;
  }
}
