/** The collector's worker makes progress: its steps are bounded, and it can always come to an end. */
module CollectorProgress {
  import opened Options
  import opened CollectorModel
  import opened CollectorInvariant
  import opened CollectorSteps
  import opened CollectorTheorems
  import opened Totals

  /** The steps of the worker, as opposed to those of its callers, the store and the event loop. */
  predicate WorkerStep(a: Action)
  {
    a.DoBegin? || a.DoTakeBatch? || a.DoExit? || a.DoAttempt? || a.DoTimeOut? || a.DoRead? || a.DoWake? || a.DoCancel?
  }

  /** What one queued event is worth: all the attempts of a batch of its own. */
  function Worth(l: Limits): nat { 3 * l.maxAttempts + 1 }

  function AttemptsLeft(l: Limits, attempt: nat): nat
  {
    if attempt <= l.maxAttempts then l.maxAttempts - attempt else 0
  }

  function Phase(l: Limits, w: Worker): nat
  {
    match w
    case Absent => 0
    case Looping => 1
    case Created => 2
    case Waiting(_, _, attempt, _) => 3 * AttemptsLeft(l, attempt)
    case Trying(_, _, attempt) => 3 * AttemptsLeft(l, attempt) + 1
    case Sleeping(_, _, attempt) => 3 * AttemptsLeft(l, attempt) + 2
  }

  /** The events still to be taken and the attempts still to be made. */
  function Rank(l: Limits, s: State): nat
  {
    |s.queue| * Worth(l) + Phase(l, s.worker)
  }

  lemma FewerQueued(a: nat, b: nat, worth: nat)
    requires a < b
    ensures a * worth + worth <= b * worth
  {
    assert (a + 1) * worth <= b * worth by { Monotone(a + 1, b, worth); }
  }

  lemma Monotone(a: nat, b: nat, worth: nat)
    requires a <= b
    ensures a * worth <= b * worth
  {
  }

  lemma ReadRank(l: Limits, s: State, status: Status)
    requires s.worker.Waiting? && s.worker.attempt < l.maxAttempts
    ensures Rank(l, Read(l, s, status)) < Rank(l, s) && Read(l, s, status).submitted == s.submitted
  {
    hide FinishAll, Keep, Drop, Acked, Doubtful, ResultOf, Copies, Worth;
    var w := s.worker;
    var r := ResultOf(status, w.batch);
    var s1 := CountRead(s, status, w.batch);
    FinishAllKeepsFrame(s1, Keep(w.batch, Acked(w.batch, r)), {}, Stored);
    var s2 := FinishAll(s1, Keep(w.batch, Acked(w.batch, r)), {}, Stored);
    FinishAllKeepsFrame(s2, Drop(w.batch, Acked(w.batch, r)), w.uncertain + Doubtful(w.batch, r), DroppedRetryExhausted);
  }

  lemma AttemptRank(l: Limits, s: State, now: real, t: TaskId)
    requires s.worker.Trying? && s.worker.attempt < l.maxAttempts
    ensures Rank(l, Attempt(l, s, now, t)) < Rank(l, s) && Attempt(l, s, now, t).submitted == s.submitted
  {
    hide FinishAll, Keep, Drop, Aged, Worth, Started, Claims;
    FinishAllKeepsFrame(s, Keep(s.worker.batch, Aged(l, s.worker.batch, now)), s.worker.uncertain, DroppedExpired);
  }

  lemma TimeOutRank(l: Limits, s: State)
    requires s.worker.Waiting? && s.worker.attempt < l.maxAttempts
    ensures Rank(l, TimeOut(s)) < Rank(l, s) && TimeOut(s).submitted == s.submitted
  {
    hide FinishAll, Copies, Worth, IdSet;
    var b := s.worker.batch;
    FinishAllKeepsFrame(
      s.(counters := s.counters + Copies(WriteFailures, 1) + Copies(AckUnknownAttempts, |b|)), b, IdSet(b), AckUnknown);
  }

  lemma TakeBatchRank(l: Limits, s: State)
    requires ValidLimits(l) && s.worker.Looping? && s.queue != []
    ensures Rank(l, TakeBatch(l, s)) < Rank(l, s) && TakeBatch(l, s).submitted == s.submitted
  {
    FewerQueued(|TakeBatch(l, s).queue|, |s.queue|, Worth(l));
  }

  lemma ExitRank(l: Limits, s: State, values: seq<Event>)
    ensures Rank(l, Exit(s, values)) == 0 && Exit(s, values).submitted == s.submitted
  {
    hide FinishAll;
    FinishAllKeepsFrame(s, values, {}, DroppedShutdown);
  }

  lemma CancelRank(l: Limits, s: State, values: seq<Event>)
    requires (s.worker.Waiting? || s.worker.Sleeping?) && s.worker.attempt < l.maxAttempts
    ensures Rank(l, Exit(CancelBatch(s), values)) < Rank(l, s) && Exit(CancelBatch(s), values).submitted == s.submitted
  {
    hide FinishAll, Exit, Worth;
    var uncertain := if s.worker.Waiting? then IdSet(s.worker.batch) else s.worker.uncertain;
    FinishAllKeepsFrame(s, s.worker.batch, uncertain, DroppedShutdown);
    ExitRank(l, CancelBatch(s), values);
  }

  lemma AcceptRank(l: Limits, s: State, entry: Entry)
    requires entry.event.id !in s.submitted
    ensures Rank(l, Accept(s, entry)) <= Rank(l, s) + Worth(l) + 2
    ensures |Accept(s, entry).submitted| == |s.submitted| + 1
  {
    hide Worth;
    OneMore(|s.queue|, Worth(l));
  }

  lemma OneMore(n: nat, worth: nat)
    ensures (n + 1) * worth == n * worth + worth
  {
  }

  lemma SubmitRank(l: Limits, s: State, e: Event, payload: Option<nat>, now: real)
    ensures
      var s' := Submit(l, s, e, payload, now);
      && |s.submitted| <= |s'.submitted|
      && Rank(l, s') <= Rank(l, s) + (Worth(l) + 2) * (|s'.submitted| - |s.submitted|)
  {
    hide Worth, Accept, Rank;
    if Accepts(l, s, e, payload, now) {
      AcceptRank(l, s, Entry(e, payload.value));
    } else {
      RefusedRank(l, s, e, payload, now);
    }
  }

  lemma RefusedRank(l: Limits, s: State, e: Event, payload: Option<nat>, now: real)
    requires !Accepts(l, s, e, payload, now)
    ensures
      var s' := Submit(l, s, e, payload, now);
      s'.submitted == s.submitted && Rank(l, s') == Rank(l, s)
  {
    hide Refusal, Worth;
  }

  lemma CallBackRank(l: Limits, s: State, t: TaskId)
    requires t in s.tasks && !s.tasks[t].status.Running? && !s.tasks[t].calledBack
    ensures
      var s' := Apply(l, s, DoWriteDone(t));
      Rank(l, s') == Rank(l, s) && s'.submitted == s.submitted
      && s'.tasks == s.tasks[t := s.tasks[t].(calledBack := true)]
  {
    hide ReleaseAll, Worth;
    ReleaseAllKeepsFrame(s, s.tasks[t].ids);
  }

  lemma WorkerLowersRank(l: Limits, s: State, a: Action)
    requires ValidLimits(l) && Inv(l, s) && Enabled(l, s, a) && WorkerStep(a)
    ensures Rank(l, Apply(l, s, a)) < Rank(l, s) && Apply(l, s, a).submitted == s.submitted
  {
    hide Core, Partition, Reserved, Truthful, Bounded, Enumerates, Worth, ValidLimits, TakeBatch, Attempt, TimeOut, Read,
      Exit, CancelBatch;
    match a
    case DoBegin =>
    case DoTakeBatch => TakeBatchRank(l, s);
    case DoAttempt(now, t) => AttemptRank(l, s, now, t);
    case DoTimeOut => TimeOutRank(l, s);
    case DoRead => ReadRank(l, s, s.tasks[s.worker.task].status);
    case DoWake =>
    case DoExit(values) => ExitRank(l, s, values);
    case DoCancel(values) => CancelRank(l, s, values);
  }

  lemma OthersKeepRank(l: Limits, s: State, a: Action)
    requires Enabled(l, s, a) && !WorkerStep(a) && !a.DoSubmit?
    ensures Rank(l, Apply(l, s, a)) == Rank(l, s) && Apply(l, s, a).submitted == s.submitted
  {
    hide Enumerates, Honest, Worth, ReleaseAll;
    if a.DoWriteDone? {
      CallBackRank(l, s, a.task);
    }
  }

  /** A step of the worker lowers its rank, an accepted event raises it by what it is worth, nothing else moves it. */
  lemma StepMovesRank(l: Limits, s: State, a: Action)
    requires ValidLimits(l) && Inv(l, s) && Enabled(l, s, a)
    ensures
      var s' := Apply(l, s, a);
      && |s.submitted| <= |s'.submitted|
      && Rank(l, s') + (if WorkerStep(a) then 1 else 0)
           <= Rank(l, s) + (Worth(l) + 2) * (|s'.submitted| - |s.submitted|)
      && (!a.DoSubmit? ==> s'.submitted == s.submitted)
  {
    hide Inv, ValidLimits, Enabled, Rank, Worth, Submit;
    if a.DoSubmit? {
      SubmitRank(l, s, a.event, a.payload, a.now);
    } else if WorkerStep(a) {
      WorkerLowersRank(l, s, a);
    } else {
      OthersKeepRank(l, s, a);
    }
  }

  /** The number of the worker's steps. */
  function WorkerSteps(actions: seq<Action>): nat
  {
    if actions == [] then 0
    else WorkerSteps(actions[..|actions| - 1]) + (if WorkerStep(actions[|actions| - 1]) then 1 else 0)
  }

  /** In every run the worker makes at most a fixed number of steps for each event it accepted. */
  lemma {:induction false} WorkerStepsAreBounded(l: Limits, ss: seq<State>, actions: seq<Action>, i: nat)
    requires ValidLimits(l) && Run(l, ss, actions) && i < |ss|
    ensures WorkerSteps(actions[..i]) + Rank(l, ss[i]) <= (3 * l.maxAttempts + 3) * |ss[i].submitted|
  {
    hide Inv, Enabled, Apply, Rank, ValidLimits;
    if i == 0 {
      NothingToDo(l);
    } else {
      WorkerStepsAreBounded(l, ss, actions, i - 1);
      RunKeepsInv(l, ss, actions, i - 1);
      StepMovesRank(l, ss[i - 1], actions[i - 1]);
      assert actions[..i][..i - 1] == actions[..i - 1];
      Distribute(3 * l.maxAttempts + 3, |ss[i - 1].submitted|, |ss[i].submitted|);
    }
  }

  lemma NothingToDo(l: Limits)
    ensures Rank(l, INITIAL) == 0
  {
  }

  lemma Distribute(k: nat, a: nat, b: nat)
    requires a <= b
    ensures k * b == k * a + k * (b - a)
  {
  }

  // ----- the worker can always come to an end -----

  ghost function Uncalled(tasks: map<TaskId, Task>): set<TaskId>
  {
    set t | t in tasks && !tasks[t].calledBack
  }

  ghost predicate Path(l: Limits, ss: seq<State>, actions: seq<Action>)
  {
    && |ss| == |actions| + 1
    && forall i :: 0 <= i < |actions| ==> Enabled(l, ss[i], actions[i]) && ss[i + 1] == Apply(l, ss[i], actions[i])
  }

  /** Steps of the worker, which nobody cancels, and callbacks of finished writes. */
  ghost predicate Finishing(ss: seq<State>, actions: seq<Action>)
    requires |ss| >= |actions|
  {
    forall i :: 0 <= i < |actions| ==>
                  && (WorkerStep(actions[i]) || actions[i].DoWriteDone?)
                  && (actions[i].DoCancel? ==> WriteWasCancelled(ss[i]))
  }

  lemma Prepend(l: Limits, s: State, a: Action, ss: seq<State>, actions: seq<Action>)
    requires Path(l, ss, actions) && Enabled(l, s, a) && ss[0] == Apply(l, s, a)
    ensures Path(l, [s] + ss, [a] + actions)
  {
    hide Enabled, Apply;
    var all, steps := [s] + ss, [a] + actions;
    forall i | 0 <= i < |steps| ensures Enabled(l, all[i], steps[i]) && all[i + 1] == Apply(l, all[i], steps[i]) {
      if i > 0 {
        assert all[i] == ss[i - 1] && all[i + 1] == ss[i] && steps[i] == actions[i - 1];
      }
    }
  }

  /** Without new events or cancellation, the worker's own steps and the callbacks due to it bring it to an end. */
  lemma {:induction false} FinishFrom(l: Limits, s: State) returns (ss: seq<State>, actions: seq<Action>)
    requires ValidLimits(l) && Inv(l, s)
    ensures Path(l, ss, actions) && ss[0] == s && Finishing(ss, actions)
    ensures Inv(l, ss[|ss| - 1]) && ss[|ss| - 1].worker.Absent? && ss[|ss| - 1].submitted == s.submitted
    decreases Rank(l, s), |Uncalled(s.tasks)|
  {
    hide Inv, Apply, Enabled, Rank, Uncalled, ValidLimits;
    if s.worker.Absent? {
      ss, actions := [s], [];
    } else {
      WorkerIsNeverStuck(l, s);
      var a :| Enabled(l, s, a) && !a.DoSubmit? && !a.DoClose? && !a.DoCloseTimedOut? && !a.DoPersist? && !a.DoComplete?
               && (a.DoCancel? ==> WriteWasCancelled(s));
      StepKeepsInv(l, s, a);
      StepMovesRank(l, s, a);
      if a.DoWriteDone? {
        OneCallBackFewer(l, s, a.task);
      }
      var rest, steps := FinishFrom(l, Apply(l, s, a));
      ss, actions := [s] + rest, [a] + steps;
      Prepend(l, s, a, rest, steps);
      forall i | 0 < i < |actions| ensures actions[i] == steps[i - 1] && ss[i] == rest[i - 1] {}
    }
  }

  lemma OneCallBackFewer(l: Limits, s: State, t: TaskId)
    requires Enabled(l, s, DoWriteDone(t))
    ensures |Uncalled(Apply(l, s, DoWriteDone(t)).tasks)| < |Uncalled(s.tasks)|
    ensures Rank(l, Apply(l, s, DoWriteDone(t))) == Rank(l, s)
  {
    CallBackRank(l, s, t);
    hide Apply, Rank;
    assert Uncalled(Apply(l, s, DoWriteDone(t)).tasks) == Uncalled(s.tasks) - {t};
  }

  /**
   From every state of every run the collector can come to rest with an outcome for every accepted event,
   without a cancellation of its worker and whatever the store has left unanswered.
   */
  lemma EveryEventCanBeSettled(l: Limits, s: State) returns (ss: seq<State>, actions: seq<Action>)
    requires ValidLimits(l) && Reachable(l, s)
    ensures Path(l, ss, actions) && ss[0] == s && Finishing(ss, actions)
    ensures ss[|ss| - 1].worker.Absent? && ss[|ss| - 1].outcomes.Keys == s.submitted
  {
    hide Reachable, ValidLimits, Inv, Enabled, Apply, Finishing;
    ReachableInv(l, s);
    ss, actions := FinishFrom(l, s);
    IdleMeansSettled(l, ss[|ss| - 1]);
  }
}
