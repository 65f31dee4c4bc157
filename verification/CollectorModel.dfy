/**
 The event collector as a labelled transition system.

 A `State` holds the collector's fields, the suspended frame of its worker, and the world the
 collector cannot see: the delivery flags, the store and the write tasks. Each `Action` is the
 code that runs between two awaits, or one move of the store or of the event loop. Clock readings,
 timeouts, the store's answers and the order of a dictionary's values are chosen by the adversary.
 */
module CollectorModel {
  import opened Options

  type Id = nat
  type TaskId = nat

  datatype Limits = Limits(maxEvents: nat, maxBytes: nat, maxAge: real, batchSize: nat, maxAttempts: nat)

  ghost predicate ValidLimits(l: Limits)
  {
    l.maxEvents > 0 && l.maxBytes > 0 && l.maxAge > 0.0 && l.batchSize > 0 && l.maxAttempts > 0
  }

  datatype Event = Event(id: Id, created: real)

  /** An event with the size of its serialised payload, which is what the memory budget counts. */
  datatype Entry = Entry(event: Event, size: nat)

  datatype Outcome = Stored | AckUnknown | DroppedExpired | DroppedShutdown | DroppedRetryExhausted

  /** The keys of the collector's counters; a rejected submit and a settled event can share a key. */
  datatype Counter =
    | Submitted | Settled(outcome: Outcome) | DroppedInvalid | DroppedCapacity
    | WriteFailures | AckUnknownAttempts | Retries

  datatype BatchResult = BatchResult(acknowledged: set<Id>, failed: set<Id>, unknown: set<Id>)

  /** The store reports the event as persisted and does not contradict itself. */
  predicate CleanAck(r: BatchResult, id: Id)
  {
    id in r.acknowledged - r.failed - r.unknown
  }

  /** The store reports that this attempt persisted nothing of the event and does not contradict itself. */
  predicate CleanFailure(r: BatchResult, id: Id)
  {
    id in r.failed && id !in r.unknown && id !in r.acknowledged
  }

  /** A write task: running, returned, raised, or cancelled by the store itself. */
  datatype Status = Running | Returned(result: BatchResult) | Raised | TaskCancelled

  /** `persisted` is what this attempt really wrote; `calledBack` says its done-callback has run. */
  datatype Task = Task(ids: seq<Id>, status: Status, persisted: set<Id>, calledBack: bool)

  /** Where the worker coroutine is. It can be cancelled only at its awaits, `Waiting` and `Sleeping`. */
  datatype Worker =
    | Absent
    | Created
    | Looping
    | Trying(batch: seq<Event>, uncertain: set<Id>, attempt: nat)
    | Waiting(batch: seq<Event>, uncertain: set<Id>, attempt: nat, task: TaskId)
    | Sleeping(batch: seq<Event>, uncertain: set<Id>, attempt: nat)

  function BatchOf(w: Worker): seq<Event>
  {
    if w.Trying? || w.Waiting? || w.Sleeping? then w.batch else []
  }

  datatype State = State(
    // the collector's fields
    queue: seq<Entry>,
    pending: map<Id, Entry>,
    writes: map<Id, TaskId>,
    finished: set<Id>,
    bytes: int,
    counters: multiset<Counter>,
    closed: bool,
    complete: bool,
    worker: Worker,
    // delivery flags, and the history of on_outcome calls and of rejected submits
    submitted: set<Id>,
    outcomes: map<Id, Outcome>,
    notices: multiset<Outcome>,
    rejections: multiset<Counter>,
    // the store
    tasks: map<TaskId, Task>,
    store: set<Id>)

  const INITIAL := State([], map[], map[], {}, 0, multiset{}, false, true, Absent,
                         {}, map[], multiset{}, multiset{}, map[], {})

  function Ids(es: seq<Event>): (ids: seq<Id>)
    ensures |ids| == |es| && forall i :: 0 <= i < |es| ==> ids[i] == es[i].id
  {
    seq(|es|, i requires 0 <= i < |es| => es[i].id)
  }

  function IdSet(es: seq<Event>): set<Id>
  {
    set e | e in es :: e.id
  }

  function QueueIds(q: seq<Entry>): set<Id>
  {
    set x | x in q :: x.event.id
  }

  function Events(q: seq<Entry>): (es: seq<Event>)
    ensures |es| == |q| && forall i :: 0 <= i < |q| ==> es[i] == q[i].event
  {
    seq(|q|, i requires 0 <= i < |q| => q[i].event)
  }

  // ----- submit -----

  /** The counter of a refused submit; None when the event was already submitted, or is accepted. */
  function Refusal(l: Limits, s: State, e: Event, payload: Option<nat>, now: real): Option<Counter>
  {
    if e.id in s.submitted || e.id in s.pending then None
    else if s.closed then Some(Settled(DroppedShutdown))
    else if payload.None? then Some(DroppedInvalid)
    else if |s.pending| >= l.maxEvents || s.bytes + payload.value > l.maxBytes then Some(DroppedCapacity)
    else if now - e.created >= l.maxAge then Some(Settled(DroppedExpired))
    else None
  }

  predicate Accepts(l: Limits, s: State, e: Event, payload: Option<nat>, now: real)
  {
    e.id !in s.submitted && e.id !in s.pending && Refusal(l, s, e, payload, now).None?
  }

  function Submit(l: Limits, s: State, e: Event, payload: Option<nat>, now: real): State
  {
    match Refusal(l, s, e, payload, now)
    case Some(c) => Reject(s, c)
    case None => if Accepts(l, s, e, payload, now) then Accept(s, Entry(e, payload.value)) else s
  }

  function Reject(s: State, c: Counter): State
  {
    s.(counters := s.counters + multiset{c}, rejections := s.rejections + multiset{c})
  }

  function Accept(s: State, entry: Entry): State
  {
    s.(queue := s.queue + [entry],
       pending := s.pending[entry.event.id := entry],
       bytes := s.bytes + entry.size,
       counters := s.counters + multiset{Submitted},
       worker := if s.worker.Absent? then Created else s.worker,
       submitted := s.submitted + {entry.event.id})
  }

  // ----- settling and releasing events -----

  /** Settles one event: at most once, and keeping its memory reserved while a write is outstanding. */
  function Finish(s: State, e: Event, o: Outcome): State
  {
    if e.id !in s.pending || e.id in s.finished then s
    else
      var held := e.id in s.writes;
      s.(finished := if held then s.finished + {e.id} else s.finished,
         pending := if held then s.pending else s.pending - {e.id},
         bytes := if held then s.bytes else s.bytes - s.pending[e.id].size,
         counters := s.counters + multiset{Settled(o)},
         complete := s.complete && o != AckUnknown,
         notices := s.notices + multiset{o},
         outcomes := s.outcomes[e.id := o])
  }

  function Verdict(id: Id, uncertain: set<Id>, otherwise: Outcome): Outcome
  {
    if id in uncertain then AckUnknown else otherwise
  }

  /** Settles each event in turn: doubtful ones as ack_unknown, the rest with the given outcome. */
  function FinishAll(s: State, es: seq<Event>, uncertain: set<Id>, otherwise: Outcome): State
    decreases |es|
  {
    if es == [] then s
    else
      var n := |es| - 1;
      Finish(FinishAll(s, es[..n], uncertain, otherwise), es[n], Verdict(es[n].id, uncertain, otherwise))
  }

  /** Ends one event's outstanding write and frees its memory if the event is already settled. */
  function Release(s: State, id: Id): State
  {
    var freed := id in s.finished && id in s.pending;
    s.(writes := s.writes - {id},
       finished := s.finished - {id},
       pending := if freed then s.pending - {id} else s.pending,
       bytes := if freed then s.bytes - s.pending[id].size else s.bytes)
  }

  function ReleaseAll(s: State, ids: seq<Id>): State
    decreases |ids|
  {
    if ids == [] then s
    else Release(ReleaseAll(s, ids[..|ids| - 1]), ids[|ids| - 1])
  }

  // ----- the worker -----

  /** The events that have outlived their budget at a clock reading. */
  function Aged(l: Limits, es: seq<Event>, now: real): set<Id>
  {
    set e | e in es && now - e.created >= l.maxAge :: e.id
  }

  /** The listed events whose id is in a set, in order. */
  function Keep(es: seq<Event>, ids: set<Id>): seq<Event>
  {
    if es == [] then []
    else Keep(es[..|es| - 1], ids) + (if es[|es| - 1].id in ids then [es[|es| - 1]] else [])
  }

  /** The listed events whose id is not in a set, in order. */
  function Drop(es: seq<Event>, ids: set<Id>): seq<Event>
  {
    if es == [] then []
    else Drop(es[..|es| - 1], ids) + (if es[|es| - 1].id in ids then [] else [es[|es| - 1]])
  }

  function TakeBatch(l: Limits, s: State): State
  {
    var n := Min(|s.queue|, l.batchSize);
    s.(queue := s.queue[n..], worker := Trying(Events(s.queue[..n]), {}, 0))
  }

  /** The top of the attempt loop: settle aged events, then start a write for the rest. */
  function Attempt(l: Limits, s: State, now: real, t: TaskId): State
    requires s.worker.Trying?
  {
    var w := s.worker;
    var s1 := FinishAll(s, Keep(w.batch, Aged(l, w.batch, now)), w.uncertain, DroppedExpired);
    var live := Drop(w.batch, Aged(l, w.batch, now));
    if live == [] then s1.(worker := Looping) else StartWrite(s1, live, w.uncertain, w.attempt, t)
  }

  function StartWrite(s: State, live: seq<Event>, uncertain: set<Id>, attempt: nat, t: TaskId): State
  {
    s.(tasks := Started(s.tasks, t, live),
       writes := s.writes + Claims(live, t),
       worker := Waiting(live, uncertain, attempt, t))
  }

  function Started(tasks: map<TaskId, Task>, t: TaskId, live: seq<Event>): map<TaskId, Task>
  {
    tasks[t := Task(Ids(live), Running, {}, false)]
  }

  function Claims(live: seq<Event>, t: TaskId): (m: map<Id, TaskId>)
    ensures forall e :: e in live ==> e.id in m && m[e.id] == t
  {
    map id | id in IdSet(live) :: t
  }

  /** The wait ended and the write has not: every event of the batch is settled as ack_unknown. */
  function TimeOut(s: State): State
    requires s.worker.Waiting?
  {
    var b := s.worker.batch;
    var s1 := s.(counters := s.counters + Copies(WriteFailures, 1) + Copies(AckUnknownAttempts, |b|));
    FinishAll(s1, b, IdSet(b), AckUnknown).(worker := Looping)
  }

  function Copies<T>(x: T, n: nat): multiset<T>
  {
    multiset{}[x := n]
  }

  /** What the worker makes of a finished write: a raised error leaves the whole batch unknown. */
  function ResultOf(status: Status, b: seq<Event>): BatchResult
  {
    if status.Returned? then status.result else BatchResult({}, {}, IdSet(b))
  }

  function Acked(b: seq<Event>, r: BatchResult): set<Id>
  {
    set e | e in b && CleanAck(r, e.id) :: e.id
  }

  function Doubtful(b: seq<Event>, r: BatchResult): set<Id>
  {
    set e | e in b && !CleanAck(r, e.id) && !CleanFailure(r, e.id) :: e.id
  }

  function CountRead(s: State, status: Status, b: seq<Event>): State
  {
    var r := ResultOf(status, b);
    var failures := (if status.Returned? then 0 else 1) + (if r.failed != {} then 1 else 0);
    s.(counters := s.counters + Copies(WriteFailures, failures) + Copies(AckUnknownAttempts, |Doubtful(b, r)|))
  }

  /** The write is done: settle what is acknowledged, then retry later or give up on the rest. */
  function Read(l: Limits, s: State, status: Status): State
    requires s.worker.Waiting?
  {
    var w := s.worker;
    var r := ResultOf(status, w.batch);
    var s1 := CountRead(s, status, w.batch);
    var s2 := FinishAll(s1, Keep(w.batch, Acked(w.batch, r)), {}, Stored);
    var rest := Drop(w.batch, Acked(w.batch, r));
    var uncertain := w.uncertain + Doubtful(w.batch, r);
    AfterRead(l, s2, w, rest, uncertain)
  }

  function AfterRead(l: Limits, s: State, w: Worker, rest: seq<Event>, uncertain: set<Id>): State
    requires w.Waiting?
  {
    if rest == [] then s.(worker := Looping)
    else if w.attempt + 1 < l.maxAttempts then
      s.(counters := s.counters + Copies(Retries, |rest|),
         worker := Sleeping(rest, uncertain, w.attempt + 1))
    else FinishAll(s, rest, uncertain, DroppedRetryExhausted).(worker := Looping)
  }

  /** `values` is the dictionary's values in some order. */
  ghost predicate Enumerates(values: seq<Event>, pending: map<Id, Entry>)
  {
    && (forall e :: e in values ==> e.id in pending && pending[e.id].event == e)
    && IdSet(values) == pending.Keys
    && Distinct(values)
  }

  ghost predicate Distinct(es: seq<Event>)
  {
    forall i, j :: 0 <= i < j < |es| ==> es[i].id != es[j].id
  }

  /** The worker's `finally`: settle whatever is left and forget the queue. */
  function Exit(s: State, values: seq<Event>): State
  {
    FinishAll(s, values, {}, DroppedShutdown).(queue := [], worker := Absent)
  }

  /** What the batch becomes when the worker is cancelled inside `_write`. */
  function CancelBatch(s: State): State
    requires s.worker.Waiting? || s.worker.Sleeping?
  {
    var w := s.worker;
    var uncertain := if w.Waiting? then IdSet(w.batch) else w.uncertain;
    FinishAll(s, w.batch, uncertain, DroppedShutdown).(complete := false)
  }

  // ----- actions -----

  datatype Action =
    | DoSubmit(event: Event, payload: Option<nat>, now: real)
    | DoBegin
    | DoTakeBatch
    | DoExit(values: seq<Event>)
    | DoAttempt(now: real, task: TaskId)
    | DoTimeOut
    | DoRead
    | DoWake
    | DoCancel(values: seq<Event>)
    | DoClose
    | DoCloseTimedOut
    // the event loop runs a finished task's callback
    | DoWriteDone(task: TaskId)
    // the store persists an event, or ends a write
    | DoPersist(task: TaskId, id: Id)
    | DoComplete(task: TaskId, status: Status)

  /** The store ends a write honestly where its answer is clean; any other answer promises nothing. */
  ghost predicate Honest(s: State, t: TaskId, status: Status)
    requires t in s.tasks
  {
    status.Returned? ==>
      forall id :: id in s.tasks[t].ids ==>
                     && (CleanAck(status.result, id) ==> id in s.store)
                     && (CleanFailure(status.result, id) ==> id !in s.tasks[t].persisted)
  }

  ghost predicate Enabled(l: Limits, s: State, a: Action)
  {
    match a
    case DoSubmit(_, _, _) => true
    case DoBegin => s.worker.Created?
    case DoTakeBatch => s.worker.Looping? && s.queue != []
    case DoExit(values) => s.worker.Looping? && s.queue == [] && Enumerates(values, s.pending)
    case DoAttempt(_, t) => s.worker.Trying? && t !in s.tasks
    case DoTimeOut => s.worker.Waiting? && s.worker.task in s.tasks && s.tasks[s.worker.task].status.Running?
    case DoRead =>
      && s.worker.Waiting? && s.worker.task in s.tasks
      && (var status := s.tasks[s.worker.task].status; status.Returned? || status.Raised?)
    case DoWake => s.worker.Sleeping? && IdSet(s.worker.batch) !! s.writes.Keys
    case DoCancel(values) =>
      (s.worker.Waiting? || s.worker.Sleeping?) && Enumerates(values, CancelBatch(s).pending)
    case DoClose => true
    case DoCloseTimedOut => s.closed
    case DoWriteDone(t) => t in s.tasks && !s.tasks[t].status.Running? && !s.tasks[t].calledBack
    case DoPersist(t, id) =>
      && t in s.tasks && id in s.tasks[t].ids
      && !(s.tasks[t].status.Returned? && CleanFailure(s.tasks[t].status.result, id))
    case DoComplete(t, status) =>
      t in s.tasks && s.tasks[t].status.Running? && !status.Running? && Honest(s, t, status)
  }

  ghost function Apply(l: Limits, s: State, a: Action): State
    requires Enabled(l, s, a)
  {
    match a
    case DoSubmit(e, payload, now) => Submit(l, s, e, payload, now)
    case DoBegin => s.(worker := Looping)
    case DoTakeBatch => TakeBatch(l, s)
    case DoExit(values) => Exit(s, values)
    case DoAttempt(now, t) => Attempt(l, s, now, t)
    case DoTimeOut => TimeOut(s)
    case DoRead => Read(l, s, s.tasks[s.worker.task].status)
    case DoWake => s.(worker := Trying(s.worker.batch, s.worker.uncertain, s.worker.attempt))
    case DoCancel(values) => Exit(CancelBatch(s), values)
    case DoClose => s.(closed := true)
    case DoCloseTimedOut => s.(complete := false)
    case DoWriteDone(t) =>
      var s1 := ReleaseAll(s, s.tasks[t].ids);
      s1.(tasks := s.tasks[t := s.tasks[t].(calledBack := true)])
    case DoPersist(t, id) =>
      s.(store := s.store + {id}, tasks := s.tasks[t := s.tasks[t].(persisted := s.tasks[t].persisted + {id})])
    case DoComplete(t, status) =>
      s.(tasks := s.tasks[t := s.tasks[t].(status := status)])
  }
}
