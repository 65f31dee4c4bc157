/** Cohort coverage: the stages that each observed request has passed, and the aggregate counts of its cohort. */
module Coverage {
  import opened Options
  import opened Totals

  type ObservationId = nat

  /** Eligible, selected, dispatched, terminal, comparable and stored. */
  datatype Symbol = E | S | D | T | C | W

  datatype Counter = Stage(symbol: Symbol) | Matched | Different

  /** The comparison results that the stages depend on; the others are errors of execution or comparison. */
  datatype Judgement = IsMatched | IsDifferent | NotExecuted | OtherJudgement(name: string)

  datatype ComparisonClass = Unavailable | Mixed | OtherClass(name: string)

  datatype Verdict = Verdict(result: Judgement, comparisonClass: ComparisonClass, reason: string)

  datatype Observation = Observation(seen: set<Symbol>, result: Option<Verdict>, finished: bool)

  datatype Cohort = Cohort(counts: multiset<Counter>, pending: int, complete: bool, closed: bool)

  datatype Reply = Raised | Replied(changed: bool)

  datatype Result = Result(observation: Observation, cohort: Cohort, reply: Reply)

  // ----- one observation -----

  function Advance(o: Observation, c: Cohort, symbol: Symbol, prerequisite: Option<Symbol>): Result
  {
    if symbol in o.seen then Result(o, c, Replied(false))
    else if symbol == D && o.result.Some? then Result(o, c, Raised)
    else if o.finished || (prerequisite.Some? && prerequisite.value !in o.seen) then Result(o, c, Raised)
    else Result(o.(seen := o.seen + {symbol}), c.(counts := c.counts + multiset{Stage(symbol)}), Replied(true))
  }

  predicate Comparable(v: Verdict) { v.result.IsMatched? || v.result.IsDifferent? }

  /** Whether the verdict fits what has been seen; `labelled` says that the metric accepts its labels. */
  predicate Admissible(o: Observation, v: Verdict, labelled: bool)
  {
    && !o.finished && S in o.seen
    && (if v.result.NotExecuted? then D !in o.seen else T in o.seen)
    && Comparable(v) == (!v.comparisonClass.Unavailable?)
    && !(v.result.IsMatched? && v.comparisonClass.Mixed?)
    && labelled
  }

  function Compare(o: Observation, c: Cohort, v: Verdict, labelled: bool): Result
  {
    if o.result.Some? then Result(o, c, if o.result.value != v then Raised else Replied(false))
    else if !Admissible(o, v, labelled) then Result(o, c, Raised)
    else if !Comparable(v) then Result(o.(result := Some(v)), c, Replied(true))
    else
      var r := Advance(o.(result := Some(v)), c, C, Some(T));
      var kind := if v.result.IsMatched? then Matched else Different;
      Result(r.observation, r.cohort.(counts := r.cohort.counts + multiset{kind}), Replied(true))
  }

  function Store(o: Observation, c: Cohort): Result
  {
    if o.result.None? then Result(o, c, Raised) else Advance(o, c, W, Some(S))
  }

  function Finish(o: Observation, c: Cohort, dropped: bool, unknown: bool): Result
  {
    if o.finished then Result(o, c, Replied(false))
    else if D in o.seen && T !in o.seen && !unknown then Result(o, c, Raised)
    else if S in o.seen && W !in o.seen && !dropped && !unknown then Result(o, c, Raised)
    else Result(o.(finished := true),
                c.(pending := c.pending - 1, complete := c.complete && !unknown), Replied(true))
  }

  datatype Call =
    | Eligible | Selected | Dispatched | Terminal
    | Compared(verdict: Verdict, labelled: bool)
    | Stored
    | Finished(dropped: bool, unknown: bool)

  function Do(o: Observation, c: Cohort, call: Call): Result
  {
    match call
    case Eligible => Advance(o, c, E, None)
    case Selected => Advance(o, c, S, Some(E))
    case Dispatched => Advance(o, c, D, Some(S))
    case Terminal => Advance(o, c, T, Some(D))
    case Compared(v, labelled) => Compare(o, c, v, labelled)
    case Stored => Store(o, c)
    case Finished(dropped, unknown) => Finish(o, c, dropped, unknown)
  }

  // ----- the cohort with all of its observations -----

  datatype Bounds = Bounds(route: string, epoch: string, start: real, end: real)

  datatype Window = Window(bounds: Bounds, cohort: Cohort, observations: map<ObservationId, Observation>)

  datatype Move =
    | Begin(id: ObservationId, route: string, epoch: string, startedAt: real)
    | Observe(id: ObservationId, call: Call)
    | MarkUnknown
    | Close(now: real)

  const FRESH := Observation({}, None, false)

  function Open(b: Bounds): Window
  {
    Window(b, Cohort(multiset{}, 0, true, false), map[])
  }

  predicate Belongs(w: Window, m: Move)
    requires m.Begin?
  {
    && !w.cohort.closed && m.route == w.bounds.route && m.epoch == w.bounds.epoch
    && w.bounds.start <= m.startedAt < w.bounds.end
  }

  /** Observation handles are new at `Begin`, and only known ones are called. */
  predicate Possible(w: Window, m: Move)
  {
    match m
    case Begin(id, _, _, _) => id !in w.observations
    case Observe(id, _) => id in w.observations
    case _ => true
  }

  /** The window after a call, and whether the call raised. */
  function Step(w: Window, m: Move): (r: (Window, bool))
    requires Possible(w, m)
  {
    match m
    case Begin(id, _, _, _) =>
      if !Belongs(w, m) then (w, true)
      else (w.(cohort := w.cohort.(pending := w.cohort.pending + 1), observations := w.observations[id := FRESH]), false)
    case Observe(id, call) =>
      var r := Do(w.observations[id], w.cohort, call);
      (w.(cohort := r.cohort, observations := w.observations[id := r.observation]), r.reply.Raised?)
    case MarkUnknown => (w.(cohort := w.cohort.(complete := false)), false)
    case Close(now) =>
      if now < w.bounds.end || w.cohort.pending != 0 then (w, true)
      else (w.(cohort := w.cohort.(closed := true)), false)
  }

  // ----- the invariant -----

  /** A stage is reached only through the stages before it. */
  ghost predicate Staged(o: Observation)
  {
    && (S in o.seen ==> E in o.seen) && (D in o.seen ==> S in o.seen) && (T in o.seen ==> D in o.seen)
    && (C in o.seen ==> T in o.seen) && (W in o.seen ==> S in o.seen)
    && (C in o.seen <==> o.result.Some? && Comparable(o.result.value)) && (W in o.seen ==> o.result.Some?)
  }

  ghost function With(os: map<ObservationId, Observation>, symbol: Symbol): set<ObservationId>
  {
    set id | id in os && symbol in os[id].seen
  }

  ghost function Judged(os: map<ObservationId, Observation>, result: Judgement): set<ObservationId>
  {
    set id | id in os && HasVerdict(os[id], result)
  }

  ghost function Unfinished(os: map<ObservationId, Observation>): set<ObservationId>
  {
    set id | id in os && !os[id].finished
  }

  ghost predicate Counted(os: map<ObservationId, Observation>, counts: multiset<Counter>)
  {
    && (forall symbol :: counts[Stage(symbol)] == |With(os, symbol)|)
    && counts[Matched] == |Judged(os, IsMatched)| && counts[Different] == |Judged(os, IsDifferent)|
  }

  ghost predicate Inv(w: Window)
  {
    && (forall id :: id in w.observations ==> Staged(w.observations[id]))
    && Counted(w.observations, w.cohort.counts)
    && w.cohort.pending == |Unfinished(w.observations)|
    && (w.cohort.closed ==> w.cohort.pending == 0)
    && (w.cohort.complete ==> Concluded(w.observations))
  }

  /** Every finished observation that was dispatched has reached its end. */
  ghost predicate Concluded(os: map<ObservationId, Observation>)
  {
    forall id :: id in os && os[id].finished && D in os[id].seen ==> T in os[id].seen
  }

  lemma OpenInv(b: Bounds)
    ensures Inv(Open(b))
  {
    var w := Open(b);
    assert forall symbol :: With(w.observations, symbol) == {};
    assert Judged(w.observations, IsMatched) == {} && Judged(w.observations, IsDifferent) == {};
    assert Unfinished(w.observations) == {};
  }

  function Bit(b: bool): int { if b then 1 else 0 }

  predicate HasVerdict(o: Observation, result: Judgement)
  {
    o.result.Some? && o.result.value.result == result
  }

  /** How the counts move when one observation is replaced. */
  lemma ReplaceStage(os: map<ObservationId, Observation>, id: ObservationId, o: Observation, symbol: Symbol)
    requires id in os
    ensures |With(os[id := o], symbol)| == |With(os, symbol)| - Bit(symbol in os[id].seen) + Bit(symbol in o.seen)
  {
    var rest := With(os, symbol) - {id};
    assert With(os[id := o], symbol) == if symbol in o.seen then rest + {id} else rest;
  }

  lemma ReplaceUnfinished(os: map<ObservationId, Observation>, id: ObservationId, o: Observation)
    requires id in os
    ensures |Unfinished(os[id := o])| == |Unfinished(os)| - Bit(!os[id].finished) + Bit(!o.finished)
  {
    var rest := Unfinished(os) - {id};
    assert Unfinished(os[id := o]) == if o.finished then rest else rest + {id};
  }

  lemma ReplaceVerdict(os: map<ObservationId, Observation>, id: ObservationId, o: Observation, result: Judgement)
    requires id in os
    ensures |Judged(os[id := o], result)| ==
              |Judged(os, result)| - Bit(HasVerdict(os[id], result)) + Bit(HasVerdict(o, result))
  {
    var rest := Judged(os, result) - {id};
    assert Judged(os[id := o], result) == if HasVerdict(o, result) then rest + {id} else rest;
  }

  lemma DoKeepsStaged(o: Observation, c: Cohort, call: Call)
    requires Staged(o)
    ensures Staged(Do(o, c, call).observation)
  {
  }

  /** The cohort's counters have moved exactly as the observation has. */
  ghost predicate MovedAlike(o: Observation, c: Cohort, r: Result)
  {
    && (forall symbol :: r.cohort.counts[Stage(symbol)] ==
          c.counts[Stage(symbol)] - Bit(symbol in o.seen) + Bit(symbol in r.observation.seen))
    && r.cohort.counts[Matched] ==
         c.counts[Matched] - Bit(HasVerdict(o, IsMatched)) + Bit(HasVerdict(r.observation, IsMatched))
    && r.cohort.counts[Different] ==
         c.counts[Different] - Bit(HasVerdict(o, IsDifferent)) + Bit(HasVerdict(r.observation, IsDifferent))
  }

  lemma AdvanceMovesCounts(o: Observation, c: Cohort, symbol: Symbol, prerequisite: Option<Symbol>)
    ensures MovedAlike(o, c, Advance(o, c, symbol, prerequisite))
  {
  }

  lemma CompareMovesCounts(o: Observation, c: Cohort, v: Verdict, labelled: bool)
    requires Staged(o)
    ensures MovedAlike(o, c, Compare(o, c, v, labelled))
  {
  }

  lemma DoMovesCounts(o: Observation, c: Cohort, call: Call)
    requires Staged(o)
    ensures MovedAlike(o, c, Do(o, c, call))
  {
    hide Advance, Compare, Bit, HasVerdict;
    match call
    case Eligible => AdvanceMovesCounts(o, c, E, None);
    case Selected => AdvanceMovesCounts(o, c, S, Some(E));
    case Dispatched => AdvanceMovesCounts(o, c, D, Some(S));
    case Terminal => AdvanceMovesCounts(o, c, T, Some(D));
    case Compared(v, labelled) => CompareMovesCounts(o, c, v, labelled);
    case Stored => AdvanceMovesCounts(o, c, W, Some(S));
    case Finished(dropped, unknown) => FinishMovesNoCount(o, c, dropped, unknown);
  }

  lemma FinishMovesNoCount(o: Observation, c: Cohort, dropped: bool, unknown: bool)
    ensures MovedAlike(o, c, Finish(o, c, dropped, unknown))
  {
  }

  lemma DoCounts(os: map<ObservationId, Observation>, id: ObservationId, c: Cohort, call: Call)
    requires id in os && Staged(os[id]) && Counted(os, c.counts)
    ensures
      var r := Do(os[id], c, call);
      Counted(os[id := r.observation], r.cohort.counts)
  {
    hide With, Judged, Unfinished, Do, Bit, HasVerdict, Staged;
    var r := Do(os[id], c, call);
    DoMovesCounts(os[id], c, call);
    forall symbol ensures r.cohort.counts[Stage(symbol)] == |With(os[id := r.observation], symbol)| {
      ReplaceStage(os, id, r.observation, symbol);
    }
    ReplaceVerdict(os, id, r.observation, IsMatched);
    ReplaceVerdict(os, id, r.observation, IsDifferent);
  }

  lemma DoKeepsPending(os: map<ObservationId, Observation>, id: ObservationId, c: Cohort, call: Call)
    requires id in os && c.pending == |Unfinished(os)| && (c.closed ==> c.pending == 0)
    ensures
      var r := Do(os[id], c, call);
      && r.cohort.pending == |Unfinished(os[id := r.observation])| && r.cohort.closed == c.closed
      && (c.closed ==> r.cohort.pending == 0)
  {
    ReplaceUnfinished(os, id, Do(os[id], c, call).observation);
    if c.closed {
      assert id !in Unfinished(os);
    }
  }

  lemma DoKeepsConcluded(os: map<ObservationId, Observation>, id: ObservationId, c: Cohort, call: Call)
    requires id in os && Staged(os[id]) && (c.complete ==> Concluded(os))
    ensures
      var r := Do(os[id], c, call);
      r.cohort.complete ==> Concluded(os[id := r.observation])
  {
  }

  lemma StepKeepsInv(w: Window, m: Move)
    requires Inv(w) && Possible(w, m)
    ensures Inv(Step(w, m).0)
  {
    hide Counted, Concluded, Unfinished, Staged, Do;
    match m
    case Begin(id, _, _, _) => BeginKeepsInv(w, m);
    case Observe(id, call) =>
      DoKeepsStaged(w.observations[id], w.cohort, call);
      DoCounts(w.observations, id, w.cohort, call);
      DoKeepsPending(w.observations, id, w.cohort, call);
      DoKeepsConcluded(w.observations, id, w.cohort, call);
    case MarkUnknown =>
    case Close(now) =>
  }

  lemma BeginKeepsInv(w: Window, m: Move)
    requires Inv(w) && m.Begin? && Possible(w, m)
    ensures Inv(Step(w, m).0)
  {
    var os := w.observations;
    var os' := os[m.id := FRESH];
    assert forall symbol :: With(os', symbol) == With(os, symbol);
    assert Judged(os', IsMatched) == Judged(os, IsMatched) && Judged(os', IsDifferent) == Judged(os, IsDifferent);
    assert Unfinished(os') == Unfinished(os) + {m.id};
  }

  // ----- what the counts promise -----

  ghost predicate Run(b: Bounds, ws: seq<Window>, moves: seq<Move>)
  {
    && |ws| == |moves| + 1 && ws[0] == Open(b)
    && forall i :: 0 <= i < |moves| ==> Possible(ws[i], moves[i]) && ws[i + 1] == Step(ws[i], moves[i]).0
  }

  lemma {:induction false} RunKeepsInv(b: Bounds, ws: seq<Window>, moves: seq<Move>, i: nat)
    requires Run(b, ws, moves) && i < |ws|
    ensures Inv(ws[i])
  {
    hide Inv, Step, Possible;
    if i == 0 {
      OpenInv(b);
    } else {
      RunKeepsInv(b, ws, moves, i - 1);
      StepKeepsInv(ws[i - 1], moves[i - 1]);
    }
  }

  /** A call that raises changes nothing. */
  lemma RaisedChangesNothing(w: Window, m: Move)
    requires Possible(w, m) && Step(w, m).1
    ensures Step(w, m).0 == w
  {
    if m.Observe? {
      assert Do(w.observations[m.id], w.cohort, m.call).observation == w.observations[m.id];
    }
  }

  /** E >= S >= D >= T >= C, C = M + X and W <= S, after any sequence of calls, rejected ones included. */
  lemma CountsAreChained(w: Window)
    requires Inv(w)
    ensures
      var n := w.cohort.counts;
      && n[Stage(E)] >= n[Stage(S)] >= n[Stage(D)] >= n[Stage(T)] >= n[Stage(C)]
      && n[Stage(C)] == n[Matched] + n[Different] && n[Stage(W)] <= n[Stage(S)]
  {
    var os := w.observations;
    assert forall id :: id in os ==> Staged(os[id]);
    NoLarger(With(os, S), With(os, E));
    NoLarger(With(os, D), With(os, S));
    NoLarger(With(os, T), With(os, D));
    NoLarger(With(os, C), With(os, T));
    NoLarger(With(os, W), With(os, S));
    var m, x := Judged(os, IsMatched), Judged(os, IsDifferent);
    assert With(os, C) == m + x;
    assert |m + x| == |m| + |x|;
  }

  datatype RatioState = Known(numerator: nat, denominator: nat) | Unknown | NoData | Ended

  /** None stands for the exception of inconsistent counts. */
  function Ratio(numerator: Option<int>, denominator: Option<int>, complete: bool, plannedEnd: bool): Option<RatioState>
  {
    if !complete || numerator.None? || denominator.None? then Some(Unknown)
    else if numerator.value < 0 || denominator.value < 0 || numerator.value > denominator.value then None
    else if denominator.value == 0 then Some(if plannedEnd then Ended else NoData)
    else Some(Known(numerator.value, denominator.value))
  }

  /** The ratios of a report: selection, dispatch, completion, coverage, difference and storage. */
  function Report(c: Cohort, plannedEnd: bool): seq<Option<RatioState>>
  {
    var n := (counter: Counter) => Some(c.counts[counter] as int);
    [Ratio(n(Stage(S)), n(Stage(E)), c.complete, plannedEnd), Ratio(n(Stage(D)), n(Stage(S)), c.complete, plannedEnd),
     Ratio(n(Stage(C)), n(Stage(S)), c.complete, plannedEnd), Ratio(n(Stage(C)), n(Stage(E)), c.complete, plannedEnd),
     Ratio(n(Different), n(Stage(C)), c.complete, plannedEnd), Ratio(n(Stage(W)), n(Stage(S)), c.complete, plannedEnd)]
  }

  /** A report never raises, and every known ratio lies between nought and one. */
  lemma ReportNeverRaises(w: Window, plannedEnd: bool)
    requires Inv(w)
    ensures forall i :: 0 <= i < 6 ==>
              var r := Report(w.cohort, plannedEnd)[i];
              r.Some? && (r.value.Known? ==> r.value.numerator <= r.value.denominator && r.value.denominator > 0)
  {
    CountsAreChained(w);
  }

  /** Once a window is closed its counts never change, and it stays closed. */
  lemma ClosedIsFixed(w: Window, m: Move)
    requires Inv(w) && w.cohort.closed && Possible(w, m)
    ensures
      var w' := Step(w, m).0;
      w'.cohort.closed && w'.cohort.counts == w.cohort.counts && w'.cohort.pending == 0
      && w'.observations == w.observations
  {
    if m.Observe? {
      assert m.id !in Unfinished(w.observations);
      var o := w.observations[m.id];
      assert Do(o, w.cohort, m.call).observation == o;
    }
  }

  lemma {:induction false} ClosedStaysFixed(b: Bounds, ws: seq<Window>, moves: seq<Move>, i: nat, j: nat)
    requires Run(b, ws, moves) && i <= j < |ws| && ws[i].cohort.closed
    ensures ws[j].cohort.closed && ws[j].cohort.counts == ws[i].cohort.counts
    decreases j
  {
    hide Inv, Step, Possible;
    if i < j {
      ClosedStaysFixed(b, ws, moves, i, j - 1);
      RunKeepsInv(b, ws, moves, j - 1);
      ClosedIsFixed(ws[j - 1], moves[j - 1]);
    }
  }

  /** In a window that is closed and complete every dispatched request has ended. */
  lemma ClosedAndCompleteIsTerminal(w: Window)
    requires Inv(w) && w.cohort.closed && w.cohort.complete
    ensures w.cohort.counts[Stage(D)] == w.cohort.counts[Stage(T)]
  {
    var os := w.observations;
    assert Unfinished(os) == {};
    forall id | id in os ensures D in os[id].seen <==> T in os[id].seen {
      assert Staged(os[id]) && id !in Unfinished(os);
    }
    assert With(os, D) == With(os, T);
  }

  // ----- which calls raise, and what the others do -----

  /** The stage that a call reports. */
  function StageOf(call: Call): Option<Symbol>
  {
    match call
    case Eligible => Some(E)
    case Selected => Some(S)
    case Dispatched => Some(D)
    case Terminal => Some(T)
    case Stored => Some(W)
    case _ => None
  }

  /** What must have happened before the stage is reached, and what must not. */
  ghost predicate Ready(o: Observation, stage: Symbol)
  {
    match stage
    case E => true
    case S => E in o.seen
    case D => S in o.seen && o.result.None?
    case T => D in o.seen
    case W => S in o.seen && o.result.Some?
    case C => T in o.seen
  }

  /**
   A stage is reported once: a second time nothing happens, and the first time the call raises exactly
   when the observation is finished or not ready for the stage.
   */
  lemma StagesAreExact(o: Observation, c: Cohort, call: Call)
    requires Staged(o) && StageOf(call).Some?
    ensures
      var r := Do(o, c, call);
      var stage := StageOf(call).value;
      if stage in o.seen then r == Result(o, c, Replied(false))
      else if o.finished || !Ready(o, stage) then r == Result(o, c, Raised)
      else
        && r.reply == Replied(true) && r.observation == o.(seen := o.seen + {stage})
        && r.cohort == c.(counts := r.cohort.counts)
  {
  }

  /** What is against a verdict: each of these makes the call raise. */
  ghost predicate Against(o: Observation, v: Verdict, labelled: bool)
  {
    || o.finished || S !in o.seen || !labelled
    || (v.result == NotExecuted && D in o.seen)
    || (v.result != NotExecuted && T !in o.seen)
    || ((v.result == IsMatched || v.result == IsDifferent) && v.comparisonClass == Unavailable)
    || (v.result != IsMatched && v.result != IsDifferent && v.comparisonClass != Unavailable)
    || (v.result == IsMatched && v.comparisonClass == Mixed)
  }

  /** A verdict is fixed once: the same verdict again changes nothing, another one raises. */
  lemma VerdictsAreExact(o: Observation, c: Cohort, v: Verdict, labelled: bool)
    requires Staged(o)
    ensures
      var r := Do(o, c, Compared(v, labelled));
      if o.result == Some(v) then r == Result(o, c, Replied(false))
      else if o.result.Some? || Against(o, v, labelled) then r == Result(o, c, Raised)
      else
        && r.reply == Replied(true) && r.observation.result == Some(v) && !r.observation.finished
        && r.observation.seen == o.seen + (if v.result == IsMatched || v.result == IsDifferent then {C} else {})
        && r.cohort == c.(counts := r.cohort.counts)
  {
  }

  /** What keeps an observation from being finished, unless its end is declared unknown. */
  ghost predicate Unsettled(o: Observation, dropped: bool)
  {
    (D in o.seen && T !in o.seen) || (S in o.seen && W !in o.seen && !dropped)
  }

  /** An observation is finished once, and its cohort is complete no longer exactly when the end is declared unknown. */
  lemma FinishIsExact(o: Observation, c: Cohort, dropped: bool, unknown: bool)
    ensures
      var r := Do(o, c, Finished(dropped, unknown));
      if o.finished then r == Result(o, c, Replied(false))
      else if Unsettled(o, dropped) && !unknown then r == Result(o, c, Raised)
      else
        r == Result(o.(finished := true), c.(pending := c.pending - 1, complete := c.complete && !unknown), Replied(true))
  {
  }

  /** A request belongs to the open window of its route and epoch whose half-open interval holds its start. */
  lemma BeginIsExact(w: Window, id: ObservationId, route: string, epoch: string, startedAt: real)
    requires id !in w.observations
    ensures
      var (w', raised) := Step(w, Begin(id, route, epoch, startedAt));
      && (raised <==> w.cohort.closed || route != w.bounds.route || epoch != w.bounds.epoch
                      || startedAt < w.bounds.start || startedAt >= w.bounds.end)
      && (!raised ==> w'.observations == w.observations[id := Observation({}, None, false)]
                      && w'.cohort == w.cohort.(pending := w.cohort.pending + 1))
  {
  }

  /** Of two adjoining windows exactly one takes a request that starts in either. */
  lemma WindowsAdjoin(w: Window, v: Window, id: ObservationId, startedAt: real)
    requires id !in w.observations && id !in v.observations && !w.cohort.closed && !v.cohort.closed
    requires v.bounds.route == w.bounds.route && v.bounds.epoch == w.bounds.epoch && v.bounds.start == w.bounds.end
    requires w.bounds.start <= w.bounds.end <= v.bounds.end && w.bounds.start <= startedAt < v.bounds.end
    ensures
      var m := Begin(id, w.bounds.route, w.bounds.epoch, startedAt);
      Step(w, m).1 != Step(v, m).1
  {
  }

  /** A window closes exactly when its interval is over and every observation is finished. */
  lemma CloseIsExact(w: Window, now: real)
    requires Inv(w)
    ensures
      var (w', raised) := Step(w, Close(now));
      && (raised <==> now < w.bounds.end || exists id :: id in w.observations && !w.observations[id].finished)
      && (!raised ==> w' == w.(cohort := w.cohort.(closed := true)))
  {
    hide Counted, Staged, Concluded;
    if w.cohort.pending == 0 {
      assert forall id :: id in w.observations ==> id !in Unfinished(w.observations);
    } else {
      var id :| id in Unfinished(w.observations);
      assert !w.observations[id].finished;
    }
  }

  /** A window is complete until it is marked unknown, or an observation is finished with its end unknown. */
  lemma CompletenessIsExact(w: Window, m: Move)
    requires Possible(w, m)
    ensures Step(w, m).0.cohort.complete <==>
              && w.cohort.complete && m != MarkUnknown
              && !(m.Observe? && m.call.Finished? && m.call.unknown && !w.observations[m.id].finished)
  {
  }

  /** The numerators and denominators of a report, as observations. */
  ghost function Fractions(os: map<ObservationId, Observation>): seq<(set<ObservationId>, set<ObservationId>)>
  {
    [(With(os, S), With(os, E)), (With(os, D), With(os, S)), (With(os, C), With(os, S)),
     (With(os, C), With(os, E)), (Judged(os, IsDifferent), With(os, C)), (With(os, W), With(os, S))]
  }

  /** Every ratio of a report is that of the observations it names, unless the window is incomplete or has none. */
  lemma ReportIsExact(w: Window, plannedEnd: bool, i: nat)
    requires Inv(w) && i < 6
    ensures
      var (some, all) := Fractions(w.observations)[i];
      Report(w.cohort, plannedEnd)[i] ==
        Some(if !w.cohort.complete then Unknown
             else if all == {} then (if plannedEnd then Ended else NoData)
             else Known(|some|, |all|))
  {
    hide Staged, Unfinished, Concluded, With, Judged;
    CountsAreChained(w);
    EmptyIffNone(Fractions(w.observations)[i].1);
  }

  lemma EmptyIffNone(s: set<ObservationId>)
    ensures s == {} <==> |s| == 0
  {
  }
}
