/** The collector's other counters, its claim of completeness, its admission of events and the order of its batches. */
module CollectorCounts {
  import opened Options
  import opened CollectorModel
  import opened Totals
  import opened CollectorInvariant
  import opened CollectorSteps
  import opened CollectorTheorems
  import opened CollectorVerdicts

  // ----- admission -----

  /** An event that was offered before is refused without a trace. */
  lemma OfferedOnce(l: Limits, s: State, e: Event, payload: Option<nat>, now: real)
    requires e.id in s.submitted || e.id in s.pending
    ensures Submit(l, s, e, payload, now) == s
  {
  }

  /** The tests of a new event, in the order in which a refusal is counted. */
  ghost predicate Refusable(l: Limits, s: State, e: Event, payload: Option<nat>, now: real, c: Counter)
  {
    match c
    case Settled(DroppedShutdown) => s.closed
    case DroppedInvalid => payload.None?
    case DroppedCapacity => payload.Some? && (|s.pending| >= l.maxEvents || s.bytes + payload.value > l.maxBytes)
    case Settled(DroppedExpired) => now - e.created >= l.maxAge
    case _ => false
  }

  function Rank(c: Counter): nat
  {
    match c
    case Settled(DroppedShutdown) => 0
    case DroppedInvalid => 1
    case DroppedCapacity => 2
    case _ => 3
  }

  /**
   A new event is accepted exactly when the collector is open, the event can be serialised, fits, and is
   young enough; a refusal counts the first test that fails, and changes nothing else.
   */
  lemma AdmissionIsExact(l: Limits, s: State, e: Event, payload: Option<nat>, now: real)
    requires e.id !in s.submitted && e.id !in s.pending
    ensures
      var s' := Submit(l, s, e, payload, now);
      && (e.id in s'.submitted <==> forall c :: !Refusable(l, s, e, payload, now, c))
      && (e.id in s'.submitted ==>
            && payload.Some? && s'.queue == s.queue + [Entry(e, payload.value)]
            && s'.bytes == s.bytes + payload.value && s'.rejections == s.rejections)
      && (e.id !in s'.submitted ==> exists c ::
            && Refusable(l, s, e, payload, now, c)
            && (forall d :: Refusable(l, s, e, payload, now, d) ==> Rank(c) <= Rank(d))
            && s' == s.(counters := s.counters + multiset{c}, rejections := s.rejections + multiset{c}))
  {
    var s' := Submit(l, s, e, payload, now);
    match Refusal(l, s, e, payload, now)
    case Some(c) =>
      assert Refusable(l, s, e, payload, now, c);
      assert forall d :: Refusable(l, s, e, payload, now, d) ==> Rank(c) <= Rank(d);
    case None =>
      assert forall c :: !Refusable(l, s, e, payload, now, c);
  }

  // ----- batches -----

  /** A batch is the oldest events of the queue, as many as a batch may hold. */
  lemma BatchIsOldest(l: Limits, s: State)
    requires ValidLimits(l) && Enabled(l, s, DoTakeBatch)
    ensures
      var s' := Apply(l, s, DoTakeBatch);
      && s'.worker.Trying? && s'.worker.attempt == 0 && s'.worker.uncertain == {}
      && Events(s.queue) == s'.worker.batch + Events(s'.queue)
      && 0 < |s'.worker.batch| <= l.batchSize
      && (|s'.worker.batch| == l.batchSize || s'.queue == [])
  {
  }

  // ----- completeness -----

  lemma {:induction false} FinishAllCompletes(l: Limits, s: State, es: seq<Event>, uncertain: set<Id>, otherwise: Outcome)
    requires Core(l, s)
    ensures
      var s' := FinishAll(s, es, uncertain, otherwise);
      && (forall id :: id in s.outcomes ==> id in s'.outcomes && s'.outcomes[id] == s.outcomes[id])
      && (s'.complete <==> s.complete && NoNewDoubt(s.outcomes, s'.outcomes))
    decreases |es|
  {
    hide Core;
    if es != [] {
      var n := |es| - 1;
      var s1 := FinishAll(s, es[..n], uncertain, otherwise);
      FinishAllCompletes(l, s, es[..n], uncertain, otherwise);
      FinishAllKeepsCore(l, s, es[..n], uncertain, otherwise);
      FinishCompletes(l, s1, es[n], Verdict(es[n].id, uncertain, otherwise));
      NoDoubtChains(s.outcomes, s1.outcomes, Finish(s1, es[n], Verdict(es[n].id, uncertain, otherwise)).outcomes);
    }
  }

  /** No event has become one of unknown acknowledgement. */
  ghost predicate NoNewDoubt(before: map<Id, Outcome>, after: map<Id, Outcome>)
  {
    forall id :: id in after && id !in before ==> after[id] != AckUnknown
  }

  lemma NoDoubtChains(a: map<Id, Outcome>, b: map<Id, Outcome>, c: map<Id, Outcome>)
    requires forall id :: id in a ==> id in b
    requires forall id :: id in b ==> id in c && c[id] == b[id]
    ensures NoNewDoubt(a, c) <==> NoNewDoubt(a, b) && NoNewDoubt(b, c)
  {
  }

  lemma FinishCompletes(l: Limits, s: State, e: Event, o: Outcome)
    requires Core(l, s)
    ensures
      var s' := Finish(s, e, o);
      && (forall id :: id in s.outcomes ==> id in s'.outcomes && s'.outcomes[id] == s.outcomes[id])
      && (s'.complete <==> s.complete && NoNewDoubt(s.outcomes, s'.outcomes))
  {
    hide Budgeted, Counted;
    if Open(s, e.id) {
      assert Finish(s, e, o).outcomes[e.id] == o;
    }
  }

  // ----- failures, doubts and retries -----

  /** The events of a batch that an answer leaves in doubt. */
  ghost function InDoubt(s: State): set<Id>
    requires s.worker.Waiting? && s.worker.task in s.tasks
  {
    var status := s.tasks[s.worker.task].status;
    set e | e in s.worker.batch && (status.Returned? ==>
              !CleanAck(status.result, e.id) && !CleanFailure(status.result, e.id)) :: e.id
  }

  /** What a step adds to the counters of failed writes, of doubtful answers and of retries. */
  ghost function Increment(l: Limits, s: State, a: Action, s': State, c: Counter): nat
    requires (a.DoTimeOut? ==> s.worker.Waiting?) && (a.DoRead? ==> Reads(s))
  {
    match c
    case WriteFailures =>
      if a.DoTimeOut? then 1
      else if a.DoRead? then
        var status := s.tasks[s.worker.task].status;
        if status.Raised? || status.result.failed != {} then 1 else 0
      else 0
    case AckUnknownAttempts =>
      if a.DoTimeOut? then |s.worker.batch| else if a.DoRead? then |InDoubt(s)| else 0
    case Retries => if a.DoRead? then |BatchOf(s'.worker)| else 0
    case _ => 0
  }

  predicate Plain(c: Counter) { c.WriteFailures? || c.AckUnknownAttempts? || c.Retries? }

  lemma {:induction false} FinishAllKeepsPlain(s: State, es: seq<Event>, uncertain: set<Id>, otherwise: Outcome, c: Counter)
    requires Plain(c)
    ensures FinishAll(s, es, uncertain, otherwise).counters[c] == s.counters[c]
    decreases |es|
  {
    if es != [] {
      var n := |es| - 1;
      FinishAllKeepsPlain(s, es[..n], uncertain, otherwise, c);
      FinishKeepsPlain(FinishAll(s, es[..n], uncertain, otherwise), es[n], Verdict(es[n].id, uncertain, otherwise), c);
    }
  }

  lemma FinishKeepsPlain(s: State, e: Event, o: Outcome, c: Counter)
    requires Plain(c)
    ensures Finish(s, e, o).counters[c] == s.counters[c]
  {
  }

  lemma {:induction false} ReleaseAllKeepsCounts(s: State, ids: seq<Id>)
    ensures ReleaseAll(s, ids).counters == s.counters && ReleaseAll(s, ids).complete == s.complete
    decreases |ids|
  {
    if ids != [] {
      ReleaseAllKeepsCounts(s, ids[..|ids| - 1]);
    }
  }

  lemma ReadCounts(l: Limits, s: State, c: Counter)
    requires Reads(s) && Plain(c) && Inv(l, s)
    ensures
      var s' := Read(l, s, s.tasks[s.worker.task].status);
      s'.counters[c] == s.counters[c] + Increment(l, s, DoRead, s', c)
  {
    hide Inv, Keep, Drop, Acked, FinishAll, Core, Copies, AfterRead;
    var w := s.worker;
    var es, rest := Keep(w.batch, Acked(w.batch, Answer(s))), Drop(w.batch, Acked(w.batch, Answer(s)));
    var uncertain := w.uncertain + Doubtful(w.batch, Answer(s));
    var s1 := CountRead(s, s.tasks[w.task].status, w.batch);
    ReadUnfolds(l, s);
    FinishAllKeepsPlain(s1, es, {}, Stored, c);
    CountedFirst(s, c);
    var s2 := FinishAll(s1, es, {}, Stored);
    CountedAfter(l, s2, w, rest, uncertain, c);
  }

  /** What is counted before anything is settled. */
  lemma CountedFirst(s: State, c: Counter)
    requires Reads(s) && Plain(c)
    ensures
      var status := s.tasks[s.worker.task].status;
      var s1 := CountRead(s, status, s.worker.batch);
      s1.counters[c] == s.counters[c]
        + if c.WriteFailures? then (if status.Raised? || status.result.failed != {} then 1 else 0)
          else if c.AckUnknownAttempts? then |InDoubt(s)| else 0
  {
    var status := s.tasks[s.worker.task].status;
    assert Doubtful(s.worker.batch, ResultOf(status, s.worker.batch)) == InDoubt(s);
  }

  lemma CountedAfter(l: Limits, s: State, w: Worker, rest: seq<Event>, uncertain: set<Id>, c: Counter)
    requires w.Waiting? && Plain(c)
    ensures
      var s' := AfterRead(l, s, w, rest, uncertain);
      s'.counters[c] == s.counters[c] + if c.Retries? then |BatchOf(s'.worker)| else 0
  {
    hide FinishAll;
    FinishAllKeepsPlain(s, rest, uncertain, DroppedRetryExhausted, c);
  }

  lemma OthersCount(l: Limits, s: State, a: Action, c: Counter)
    requires !a.DoRead? && !a.DoSubmit? && Plain(c) && Enabled(l, s, a)
    ensures Apply(l, s, a).counters[c] == s.counters[c] + Increment(l, s, a, Apply(l, s, a), c)
  {
    hide FinishAll, ReleaseAll, Enumerates, Honest, Keep, Drop, Aged, IdSet, Started, Claims;
    match a
    case DoAttempt(now, t) =>
      var w := s.worker;
      FinishAllKeepsPlain(s, Keep(w.batch, Aged(l, w.batch, now)), w.uncertain, DroppedExpired, c);
    case DoTimeOut =>
      var b := s.worker.batch;
      var s1 := s.(counters := s.counters + Copies(WriteFailures, 1) + Copies(AckUnknownAttempts, |b|));
      FinishAllKeepsPlain(s1, b, IdSet(b), AckUnknown, c);
    case DoExit(values) => FinishAllKeepsPlain(s, values, {}, DroppedShutdown, c);
    case DoCancel(values) =>
      var uncertain := if s.worker.Waiting? then IdSet(s.worker.batch) else s.worker.uncertain;
      FinishAllKeepsPlain(s, s.worker.batch, uncertain, DroppedShutdown, c);
      FinishAllKeepsPlain(CancelBatch(s), values, {}, DroppedShutdown, c);
    case DoWriteDone(t) => ReleaseAllKeepsCounts(s, s.tasks[t].ids);
    case _ =>
  }

  lemma SubmitKeepsPlain(l: Limits, s: State, e: Event, payload: Option<nat>, now: real, c: Counter)
    requires Plain(c)
    ensures Submit(l, s, e, payload, now).counters[c] == s.counters[c]
    ensures Submit(l, s, e, payload, now).complete == s.complete && Submit(l, s, e, payload, now).outcomes == s.outcomes
  {
    hide Accept, Reject;
    if payload.Some? {
      AcceptKeepsPlain(s, Entry(e, payload.value), c);
    }
    if Refusal(l, s, e, payload, now).Some? {
      RejectKeepsPlain(s, Refusal(l, s, e, payload, now).value, c);
    }
  }

  lemma AcceptKeepsPlain(s: State, x: Entry, c: Counter)
    requires Plain(c)
    ensures Accept(s, x).counters[c] == s.counters[c]
    ensures Accept(s, x).complete == s.complete && Accept(s, x).outcomes == s.outcomes
  {
  }

  lemma RejectKeepsPlain(s: State, d: Counter, c: Counter)
    requires Plain(c) && !Plain(d)
    ensures Reject(s, d).counters[c] == s.counters[c]
    ensures Reject(s, d).complete == s.complete && Reject(s, d).outcomes == s.outcomes
  {
  }

  /** Failed writes, answers in doubt and retries are counted exactly when they happen. */
  lemma StepCountsExactly(l: Limits, s: State, a: Action, c: Counter)
    requires Enabled(l, s, a) && Plain(c) && Inv(l, s)
    ensures Apply(l, s, a).counters[c] == s.counters[c] + Increment(l, s, a, Apply(l, s, a), c)
  {
    hide Inv, Enumerates, Honest, Submit, Read, TakeBatch, Attempt, TimeOut, Exit, CancelBatch, ReleaseAll, InDoubt;
    match a
    case DoSubmit(e, payload, now) => SubmitKeepsPlain(l, s, e, payload, now, c);
    case DoRead => ReadCounts(l, s, c);
    case _ => OthersCount(l, s, a, c);
  }

  // ----- when completeness is given up -----

  lemma ReadCompletes(l: Limits, s: State)
    requires Reads(s) && Inv(l, s)
    ensures
      var s' := Read(l, s, s.tasks[s.worker.task].status);
      s'.complete <==> s.complete && NoNewDoubt(s.outcomes, s'.outcomes)
  {
    hide Inv, Keep, Drop, Acked, Doubtful, FinishAll, Core, Copies, NoNewDoubt, CountRead, Distinct, Adds, AllOpen;
    var w := s.worker;
    var es, rest := Keep(w.batch, Acked(w.batch, Answer(s))), Drop(w.batch, Acked(w.batch, Answer(s)));
    var uncertain := w.uncertain + Doubtful(w.batch, Answer(s));
    InvCore(l, s);
    var s1 := CountRead(s, s.tasks[w.task].status, w.batch);
    CountReadKeepsCore(l, s, s.tasks[w.task].status, w.batch);
    FinishAllCompletes(l, s1, es, {}, Stored);
    var s2 := FinishAll(s1, es, {}, Stored);
    FinishAllKeepsCore(l, s1, es, {}, Stored);
    FinishAllCompletes(l, s2, rest, uncertain, DroppedRetryExhausted);
    NoDoubtChains(s.outcomes, s2.outcomes, FinishAll(s2, rest, uncertain, DroppedRetryExhausted).outcomes);
  }

  lemma EndsComplete(l: Limits, s: State, a: Action)
    requires Enabled(l, s, a) && (a.DoAttempt? || a.DoTimeOut? || a.DoExit?) && Inv(l, s)
    ensures Apply(l, s, a).complete <==> s.complete && NoNewDoubt(s.outcomes, Apply(l, s, a).outcomes)
  {
    hide Inv, FinishAll, Core, NoNewDoubt, Keep, Drop, Aged, IdSet, Started, Claims, Copies, Enumerates;
    InvCore(l, s);
    match a
    case DoAttempt(now, t) =>
      var w := s.worker;
      FinishAllCompletes(l, s, Keep(w.batch, Aged(l, w.batch, now)), w.uncertain, DroppedExpired);
    case DoTimeOut =>
      var b := s.worker.batch;
      BumpKeepsCore(l, s, WriteFailures, 1);
      var s0 := s.(counters := s.counters + Copies(WriteFailures, 1));
      BumpKeepsCore(l, s0, AckUnknownAttempts, |b|);
      FinishAllCompletes(l, s0.(counters := s0.counters + Copies(AckUnknownAttempts, |b|)), b, IdSet(b), AckUnknown);
    case DoExit(values) => FinishAllCompletes(l, s, values, {}, DroppedShutdown);
  }

  /**
   The claim of completeness is given up exactly when an event's acknowledgement becomes unknown, the
   worker is cancelled at work, or close runs out of time.
   */
  lemma CompletenessIsExact(l: Limits, s: State, a: Action)
    requires Enabled(l, s, a) && Inv(l, s)
    ensures
      var s' := Apply(l, s, a);
      s'.complete <==> s.complete && !a.DoCancel? && !a.DoCloseTimedOut? && NoNewDoubt(s.outcomes, s'.outcomes)
  {
    hide Inv, Enumerates, Honest, Submit, Read, TakeBatch, Attempt, TimeOut, Exit, ReleaseAll, Refusal;
    match a
    case DoSubmit(e, payload, now) => SubmitKeepsPlain(l, s, e, payload, now, Retries);
    case DoTakeBatch => TakeKeepsCompleteness(l, s);
    case DoRead => ReadCompletes(l, s);
    case DoAttempt(_, _) => EndsComplete(l, s, a);
    case DoTimeOut => EndsComplete(l, s, a);
    case DoExit(_) => EndsComplete(l, s, a);
    case DoCancel(values) => CancelGivesUp(s, values);
    case DoWriteDone(t) =>
      ReleaseAllKeepsCounts(s, s.tasks[t].ids);
      ReleaseAllKeepsWorld(s, s.tasks[t].ids);
    case _ =>
  }

  lemma TakeKeepsCompleteness(l: Limits, s: State)
    ensures TakeBatch(l, s).complete == s.complete && TakeBatch(l, s).outcomes == s.outcomes
  {
  }

  lemma {:induction false} FinishAllStaysIncomplete(s: State, es: seq<Event>, uncertain: set<Id>, otherwise: Outcome)
    requires !s.complete
    ensures !FinishAll(s, es, uncertain, otherwise).complete
    decreases |es|
  {
    if es != [] {
      FinishAllStaysIncomplete(s, es[..|es| - 1], uncertain, otherwise);
    }
  }

  lemma CancelGivesUp(s: State, values: seq<Event>)
    requires s.worker.Waiting? || s.worker.Sleeping?
    ensures !Exit(CancelBatch(s), values).complete
  {
    hide FinishAll;
    FinishAllStaysIncomplete(CancelBatch(s), values, {}, DroppedShutdown);
  }
}
