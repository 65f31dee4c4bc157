/**
 The collector with its event store: the collector's own steps interleaved with transactions that
 commit, answers, failures, and purges. The collector's assumptions about a store are proved of this
 one, and what the collector promises about "the store" becomes a promise about the rows of the table.
 */
module StoreContract {
  import opened Options
  import opened Totals
  import C = CollectorModel
  import CI = CollectorInvariant
  import CS = CollectorSteps
  import CT = CollectorTheorems
  import R = Retention

  datatype State = State(collector: C.State, table: R.Table)

  /** What the collector hands over under an id: an event is made once and never changed. */
  type Contents = C.Id -> R.Event

  datatype Action =
    // a step of the collector, its callers or the event loop
    | Collect(action: C.Action)
    // the transaction of a write commits; it may still do so when nobody waits for it any more
    | Commit(task: C.TaskId, now: seq<real>)
    // the write returns after its commit; or it raises, or is cancelled
    | Answer(task: C.TaskId)
    | Fail(task: C.TaskId, status: C.Status)
    | Purge(at: real, batch: nat, details: set<R.Id>, summaries: set<R.Id>)

  function IdsIn(ids: seq<C.Id>): set<C.Id>
  {
    set id | id in ids
  }

  function Batch(contents: Contents, ids: seq<C.Id>): (es: seq<R.Event>)
    ensures |es| == |ids| && forall i :: 0 <= i < |ids| ==> es[i] == contents(ids[i])
  {
    seq(|ids|, i requires 0 <= i < |ids| => contents(ids[i]))
  }

  /** What `write_batch` returns. */
  function Acknowledges(ids: seq<C.Id>): C.Status
  {
    C.Returned(C.BatchResult(IdsIn(ids), {}, {}))
  }

  /** The first events of a write are in the table. */
  function Landed(c: C.State, t: C.TaskId, n: nat): C.State
    requires t in c.tasks && n <= |c.tasks[t].ids|
  {
    var ids := IdsIn(c.tasks[t].ids[..n]);
    c.(store := c.store + ids, tasks := c.tasks[t := c.tasks[t].(persisted := c.tasks[t].persisted + ids)])
  }

  ghost predicate Enabled(l: C.Limits, s: State, a: Action)
  {
    match a
    case Collect(b) => !b.DoPersist? && !b.DoComplete? && C.Enabled(l, s.collector, b)
    case Commit(t, now) =>
      t in s.collector.tasks && !s.collector.tasks[t].status.Returned? && |now| == |s.collector.tasks[t].ids|
    case Answer(t) =>
      && t in s.collector.tasks && s.collector.tasks[t].status.Running?
      && IdsIn(s.collector.tasks[t].ids) <= s.collector.tasks[t].persisted
    case Fail(t, status) =>
      t in s.collector.tasks && s.collector.tasks[t].status.Running? && (status.Raised? || status.TaskCancelled?)
    case Purge(at, batch, details, summaries) => R.Purges(s.table, at, batch, details, summaries)
  }

  function Completed(c: C.State, t: C.TaskId, status: C.Status): C.State
    requires t in c.tasks
  {
    c.(tasks := c.tasks[t := c.tasks[t].(status := status)])
  }

  ghost function Apply(l: C.Limits, contents: Contents, s: State, a: Action): State
    requires Enabled(l, s, a)
  {
    match a
    case Collect(b) => s.(collector := C.Apply(l, s.collector, b))
    case Commit(t, now) =>
      var ids := s.collector.tasks[t].ids;
      State(Landed(s.collector, t, |ids|), R.WriteAll(s.table, Batch(contents, ids), now))
    case Answer(t) => s.(collector := Completed(s.collector, t, Acknowledges(s.collector.tasks[t].ids)))
    case Fail(t, status) => s.(collector := Completed(s.collector, t, status))
    case Purge(_, _, details, summaries) => s.(table := R.Purged(s.table, details, summaries))
  }

  ghost predicate Run(l: C.Limits, contents: Contents, ss: seq<State>, actions: seq<Action>)
  {
    && |ss| == |actions| + 1
    && ss[0] == State(C.INITIAL, map[])
    && forall i :: 0 <= i < |actions| ==>
         Enabled(l, ss[i], actions[i]) && ss[i + 1] == Apply(l, contents, ss[i], actions[i])
  }

  // ----- this store keeps what the collector assumes of any store -----

  lemma {:induction false} LandingIsAllowed(l: C.Limits, c: C.State, t: C.TaskId, n: nat)
    requires t in c.tasks && n <= |c.tasks[t].ids| && !c.tasks[t].status.Returned? && CT.Reachable(l, c)
    ensures CT.Reachable(l, Landed(c, t, n))
  {
    hide CT.Reachable;
    if n == 0 {
      NothingLanded(c, t);
    } else {
      LandingIsAllowed(l, c, t, n - 1);
      var before, id := Landed(c, t, n - 1), c.tasks[t].ids[n - 1];
      CT.StepIsReachable(l, before, C.DoPersist(t, id));
      OneMoreLanded(l, c, t, n);
    }
  }

  lemma NothingLanded(c: C.State, t: C.TaskId)
    requires t in c.tasks
    ensures Landed(c, t, 0) == c
  {
    assert IdsIn(c.tasks[t].ids[..0]) == {};
    assert c.tasks[t].persisted + {} == c.tasks[t].persisted;
    assert c.tasks[t := c.tasks[t]] == c.tasks;
  }

  lemma OneMoreLanded(l: C.Limits, c: C.State, t: C.TaskId, n: nat)
    requires t in c.tasks && 0 < n <= |c.tasks[t].ids| && !c.tasks[t].status.Returned?
    ensures Landed(c, t, n) == C.Apply(l, Landed(c, t, n - 1), C.DoPersist(t, c.tasks[t].ids[n - 1]))
  {
    hide C.Honest;
    var ids := c.tasks[t].ids;
    assert ids[..n] == ids[..n - 1] + [ids[n - 1]];
    assert IdsIn(ids[..n]) == IdsIn(ids[..n - 1]) + {ids[n - 1]};
    var before, after := Landed(c, t, n - 1), C.Apply(l, Landed(c, t, n - 1), C.DoPersist(t, ids[n - 1]));
    assert after.store == Landed(c, t, n).store;
    assert after.tasks[t].persisted == Landed(c, t, n).tasks[t].persisted;
    assert after.tasks == Landed(c, t, n).tasks;
  }

  /** An answer after the commit is an honest one: what it acknowledges has been stored. */
  lemma AnswerIsHonest(l: C.Limits, c: C.State, t: C.TaskId)
    requires t in c.tasks && c.tasks[t].status.Running? && IdsIn(c.tasks[t].ids) <= c.tasks[t].persisted
    requires CI.StoreFits(c.tasks, c.store)
    ensures C.Enabled(l, c, C.DoComplete(t, Acknowledges(c.tasks[t].ids)))
  {
    forall id | id in c.tasks[t].ids ensures id in c.store {
      assert id in IdsIn(c.tasks[t].ids);
    }
  }

  lemma StoreFitsIn(l: C.Limits, c: C.State)
    requires CI.Inv(l, c)
    ensures CI.StoreFits(c.tasks, c.store)
  {
  }

  /** Whatever this store does, the collector sees only moves that its own theorems allow a store. */
  lemma MovesAreAllowed(l: C.Limits, contents: Contents, s: State, a: Action)
    requires C.ValidLimits(l) && Enabled(l, s, a) && CT.Reachable(l, s.collector)
    ensures CT.Reachable(l, Apply(l, contents, s, a).collector)
  {
    hide C.ValidLimits, CT.Reachable, C.Enabled, C.Apply, CI.Inv, CI.StoreFits, Landed, R.WriteAll, R.Purges;
    match a
    case Collect(b) => CT.StepIsReachable(l, s.collector, b);
    case Commit(t, _) => LandingIsAllowed(l, s.collector, t, |s.collector.tasks[t].ids|);
    case Answer(t) =>
      CT.ReachableInv(l, s.collector);
      StoreFitsIn(l, s.collector);
      AnswerIsHonest(l, s.collector, t);
      CompletionIsReachable(l, s.collector, t, Acknowledges(s.collector.tasks[t].ids));
    case Fail(t, status) =>
      FailureIsHonest(l, s.collector, t, status);
      CompletionIsReachable(l, s.collector, t, status);
    case Purge(_, _, _, _) =>
  }

  lemma FailureIsHonest(l: C.Limits, c: C.State, t: C.TaskId, status: C.Status)
    requires t in c.tasks && c.tasks[t].status.Running? && (status.Raised? || status.TaskCancelled?)
    ensures C.Enabled(l, c, C.DoComplete(t, status))
  {
  }

  lemma CompletionIsReachable(l: C.Limits, c: C.State, t: C.TaskId, status: C.Status)
    requires CT.Reachable(l, c) && t in c.tasks && C.Enabled(l, c, C.DoComplete(t, status))
    ensures CT.Reachable(l, Completed(c, t, status))
  {
    hide CT.Reachable;
    CT.StepIsReachable(l, c, C.DoComplete(t, status));
  }

  /** Every theorem about the collector holds of a collector with this store. */
  lemma {:induction false} CollectorStaysReachable(
    l: C.Limits, contents: Contents, ss: seq<State>, actions: seq<Action>, i: nat)
    requires C.ValidLimits(l) && Run(l, contents, ss, actions) && i < |ss|
    ensures CT.Reachable(l, ss[i].collector)
  {
    hide C.ValidLimits, Enabled, Apply, CT.Reachable;
    if i == 0 {
      StartIsReachable(l);
    } else {
      CollectorStaysReachable(l, contents, ss, actions, i - 1);
      MovesAreAllowed(l, contents, ss[i - 1], actions[i - 1]);
    }
  }

  lemma StartIsReachable(l: C.Limits)
    ensures CT.Reachable(l, C.INITIAL)
  {
    assert CT.Run(l, [C.INITIAL], []);
  }

  // ----- what is in the table -----

  /** The row is that of the event, its detail apart. */
  ghost predicate RowFits(row: R.Row, e: R.Event)
  {
    row.created == e.created && row.summaryExpires == e.summaryExpires && row.detailExpires == e.detailExpires
    && row.facts == e.facts && (row.detail.Some? ==> row.detail == e.detail)
  }

  /** The detail is there, or there never was one, and the row says which. */
  ghost predicate DetailIs(row: R.Row, e: R.Event)
  {
    row.detail == e.detail && row.detailState == if e.detail.Some? then "stored" else e.detailState
  }

  ghost predicate RowsFit(contents: Contents, table: R.Table, store: set<C.Id>)
  {
    forall id :: id in table ==> id in store && RowFits(table[id], contents(id))
  }

  /** A purge at this time or later is among the actions. */
  ghost predicate PurgedSince(actions: seq<Action>, expiry: real)
  {
    exists k :: 0 <= k < |actions| && actions[k].Purge? && actions[k].at >= expiry
  }

  /** The row is there until a purge reaches its expiry, and its detail until one reaches the detail's. */
  ghost predicate Kept(e: R.Event, table: R.Table, actions: seq<Action>)
  {
    || PurgedSince(actions, e.summaryExpires)
    || (e.id in table
        && (DetailIs(table[e.id], e)
            || (e.detailExpires.Some? && PurgedSince(actions, e.detailExpires.value))))
  }

  /** Each id is that of its contents. */
  ghost predicate Named(contents: Contents)
  {
    forall id :: contents(id).id == id
  }

  lemma {:induction false} WritesFit(contents: Contents, table: R.Table, ids: seq<C.Id>, now: seq<real>)
    requires Named(contents) && |now| == |ids|
    ensures
      var t' := R.WriteAll(table, Batch(contents, ids), now);
      && (forall id :: id in table ==> id in t' && t'[id] == table[id])
      && (forall id :: id in ids ==> id in t')
      && (forall id :: id in t' && id !in table ==>
            id in ids && RowFits(t'[id], contents(id)) && DetailIs(t'[id], contents(id)))
    decreases |ids|
  {
    hide RowFits;
    if ids != [] {
      var n := |ids| - 1;
      WritesFit(contents, table, ids[..n], now[..n]);
      assert Batch(contents, ids)[..n] == Batch(contents, ids[..n]);
      assert ids == ids[..n] + [ids[n]];
      FreshRowFits(contents(ids[n]), now[n]);
    }
  }

  lemma FreshRowFits(e: R.Event, now: real)
    ensures RowFits(R.RowOf(e, now), e) && DetailIs(R.RowOf(e, now), e)
  {
  }

  /** A step keeps the rows of the table those of stored events. */
  lemma StepKeepsRows(l: C.Limits, contents: Contents, s: State, a: Action)
    requires Named(contents) && Enabled(l, s, a) && RowsFit(contents, s.table, s.collector.store)
    requires CI.Inv(l, s.collector)
    ensures
      var s' := Apply(l, contents, s, a);
      RowsFit(contents, s'.table, s'.collector.store) && s.collector.store <= s'.collector.store
  {
    hide CI.Inv, C.Enabled, C.Apply, R.Purges, R.WriteAll, RowFits, Batch;
    match a
    case Collect(b) => CT.StepExtends(l, s.collector, b);
    case Commit(t, now) =>
      var ids := s.collector.tasks[t].ids;
      WritesFit(contents, s.table, ids, now);
      assert ids[..|ids|] == ids;
    case Purge(_, _, details, summaries) => PurgedRowsFit(contents, s.table, s.collector.store, details, summaries);
    case _ =>
  }

  lemma PurgedRowsFit(
    contents: Contents, table: R.Table, store: set<C.Id>, details: set<R.Id>, summaries: set<R.Id>)
    requires RowsFit(contents, table, store)
    ensures RowsFit(contents, R.Purged(table, details, summaries), store)
  {
  }

  lemma CancelStoresNothing(s: C.State, values: seq<C.Event>)
    requires s.worker.Waiting? || s.worker.Sleeping?
    ensures C.Exit(C.CancelBatch(s), values).store == s.store
  {
    hide C.FinishAll;
    var uncertain := if s.worker.Waiting? then C.IdSet(s.worker.batch) else s.worker.uncertain;
    CS.FinishAllKeepsFrame(s, s.worker.batch, uncertain, C.DroppedShutdown);
    CS.FinishAllKeepsFrame(C.CancelBatch(s), values, {}, C.DroppedShutdown);
  }

  lemma ReadStoresNothing(l: C.Limits, s: C.State, status: C.Status)
    requires s.worker.Waiting?
    ensures C.Read(l, s, status).store == s.store
  {
    hide C.FinishAll, C.Keep, C.Drop, C.Acked, C.Doubtful, C.ResultOf, C.Copies;
    var w := s.worker;
    var r := C.ResultOf(status, w.batch);
    var s1 := C.CountRead(s, status, w.batch);
    CS.FinishAllKeepsFrame(s1, C.Keep(w.batch, C.Acked(w.batch, r)), {}, C.Stored);
    var s2 := C.FinishAll(s1, C.Keep(w.batch, C.Acked(w.batch, r)), {}, C.Stored);
    CS.FinishAllKeepsFrame(
      s2, C.Drop(w.batch, C.Acked(w.batch, r)), w.uncertain + C.Doubtful(w.batch, r), C.DroppedRetryExhausted);
  }

  lemma TimeOutStoresNothing(s: C.State)
    requires s.worker.Waiting?
    ensures C.TimeOut(s).store == s.store
  {
    hide C.FinishAll, C.Copies, C.IdSet;
    var b := s.worker.batch;
    CS.FinishAllKeepsFrame(
      s.(counters := s.counters + C.Copies(C.WriteFailures, 1) + C.Copies(C.AckUnknownAttempts, |b|)),
      b, C.IdSet(b), C.AckUnknown);
  }

  /** The collector's own steps store nothing. */
  lemma OnlyLandingStores(l: C.Limits, s: C.State, b: C.Action)
    requires C.Enabled(l, s, b) && !b.DoPersist?
    ensures C.Apply(l, s, b).store == s.store
  {
    hide C.FinishAll, C.ReleaseAll, C.Enumerates, C.Honest, C.Keep, C.Drop, C.Aged, C.Read, C.TimeOut, C.CancelBatch,
      C.Refusal;
    match b
    case DoAttempt(now, t) =>
      var w := s.worker;
      CS.FinishAllKeepsFrame(s, C.Keep(w.batch, C.Aged(l, w.batch, now)), w.uncertain, C.DroppedExpired);
    case DoExit(values) => CS.FinishAllKeepsFrame(s, values, {}, C.DroppedShutdown);
    case DoTimeOut => TimeOutStoresNothing(s);
    case DoRead => ReadStoresNothing(l, s, s.tasks[s.worker.task].status);
    case DoCancel(values) => CancelStoresNothing(s, values);
    case DoWriteDone(t) => CS.ReleaseAllKeepsFrame(s, s.tasks[t].ids);
    case _ =>
  }

  lemma PurgedStays(actions: seq<Action>, a: Action, expiry: real)
    ensures PurgedSince(actions + [a], expiry) <==> PurgedSince(actions, expiry) || (a.Purge? && a.at >= expiry)
  {
    var all := actions + [a];
    if k :| 0 <= k < |actions| && actions[k].Purge? && actions[k].at >= expiry {
      assert all[k] == actions[k];
    }
    assert all[|actions|] == a;
  }

  /** Every stored event is kept, as far as the actions so far allow. */
  ghost predicate AllKept(contents: Contents, s: State, actions: seq<Action>)
  {
    forall id :: id in s.collector.store ==> Kept(contents(id), s.table, actions)
  }

  /** A table that holds the same rows, or more, keeps no less. */
  lemma KeptByMore(e: R.Event, table: R.Table, table': R.Table, actions: seq<Action>, a: Action)
    requires Kept(e, table, actions) && (e.id in table ==> e.id in table' && table'[e.id] == table[e.id])
    ensures Kept(e, table', actions + [a])
  {
    PurgedStays(actions, a, e.summaryExpires);
    if e.detailExpires.Some? {
      PurgedStays(actions, a, e.detailExpires.value);
    }
  }

  /** A purge takes away only what it has reached. */
  lemma KeptByPurge(e: R.Event, table: R.Table, actions: seq<Action>, a: Action)
    requires a.Purge? && R.Purges(table, a.at, a.batch, a.details, a.summaries)
    requires Kept(e, table, actions) && (e.id in table ==> RowFits(table[e.id], e))
    ensures Kept(e, R.Purged(table, a.details, a.summaries), actions + [a])
  {
    PurgedStays(actions, a, e.summaryExpires);
    if e.detailExpires.Some? {
      PurgedStays(actions, a, e.detailExpires.value);
    }
    if e.id in table {
      assert e.id in a.summaries ==> e.id in R.ExpiredSummaries(table, a.at);
      assert e.id in a.details ==> e.id in R.ExpiredDetails(table, a.at);
    }
  }

  lemma KeptByCommit(contents: Contents, s: State, actions: seq<Action>, a: Action, c: C.State, t: C.TaskId)
    requires Named(contents) && AllKept(contents, s, actions) && t in s.collector.tasks
    requires a.Commit? && a.task == t && |a.now| == |s.collector.tasks[t].ids|
    requires c == Landed(s.collector, t, |s.collector.tasks[t].ids|) && RowsFit(contents, s.table, s.collector.store)
    ensures
      var table' := R.WriteAll(s.table, Batch(contents, s.collector.tasks[t].ids), a.now);
      AllKept(contents, State(c, table'), actions + [a])
  {
    hide R.WriteAll, Batch, Kept, RowFits;
    var ids := s.collector.tasks[t].ids;
    var table' := R.WriteAll(s.table, Batch(contents, ids), a.now);
    WritesFit(contents, s.table, ids, a.now);
    assert ids[..|ids|] == ids;
    forall id | id in c.store ensures Kept(contents(id), table', actions + [a]) {
      if id in s.collector.store {
        KeptByMore(contents(id), s.table, table', actions, a);
      } else {
        assert id in ids;
        KeptByWriting(contents, s, actions, a, id, table');
      }
    }
  }

  /** An event that is written is kept from then on: its row is new, or that of an earlier write. */
  lemma KeptByWriting(contents: Contents, s: State, actions: seq<Action>, a: Action, id: C.Id, table': R.Table)
    requires Named(contents) && AllKept(contents, s, actions) && id in table' && id !in s.collector.store
    requires id !in s.table ==> DetailIs(table'[id], contents(id))
    requires RowsFit(contents, s.table, s.collector.store)
    ensures Kept(contents(id), table', actions + [a])
  {
    hide RowFits;
  }

  lemma StepKeepsAll(l: C.Limits, contents: Contents, s: State, a: Action, actions: seq<Action>)
    requires Named(contents) && Enabled(l, s, a) && AllKept(contents, s, actions)
    requires RowsFit(contents, s.table, s.collector.store)
    ensures AllKept(contents, Apply(l, contents, s, a), actions + [a])
  {
    hide C.Enabled, C.Apply, R.Purges, R.Purged, R.WriteAll, RowFits, Batch, Kept, Landed;
    match a
    case Collect(b) =>
      OnlyLandingStores(l, s.collector, b);
      AllKeptBySame(contents, s, Apply(l, contents, s, a), actions, a);
    case Commit(t, now) =>
      KeptByCommit(contents, s, actions, a, Landed(s.collector, t, |s.collector.tasks[t].ids|), t);
    case Purge(at, batch, details, summaries) =>
      forall id | id in s.collector.store ensures Kept(contents(id), R.Purged(s.table, details, summaries), actions + [a]) {
        KeptByPurge(contents(id), s.table, actions, a);
      }
    case _ => AllKeptBySame(contents, s, Apply(l, contents, s, a), actions, a);
  }

  lemma AllKeptBySame(contents: Contents, s: State, s': State, actions: seq<Action>, a: Action)
    requires AllKept(contents, s, actions) && s'.table == s.table && s'.collector.store == s.collector.store
    ensures AllKept(contents, s', actions + [a])
  {
    hide Kept;
    forall id | id in s'.collector.store ensures Kept(contents(id), s'.table, actions + [a]) {
      KeptByMore(contents(id), s.table, s'.table, actions, a);
    }
  }

  /** In every run, every row is that of a persisted event, and a persisted event is kept until it expires. */
  lemma {:induction false} TableIsKept(
    l: C.Limits, contents: Contents, ss: seq<State>, actions: seq<Action>, i: nat)
    requires C.ValidLimits(l) && Named(contents) && Run(l, contents, ss, actions) && i < |ss|
    ensures RowsFit(contents, ss[i].table, ss[i].collector.store) && AllKept(contents, ss[i], actions[..i])
  {
    hide C.ValidLimits, Enabled, Apply, CT.Reachable, CI.Inv, AllKept, RowsFit;
    if i == 0 {
      NothingKept(contents);
    } else {
      TableIsKept(l, contents, ss, actions, i - 1);
      CollectorStaysReachable(l, contents, ss, actions, i - 1);
      CT.ReachableInv(l, ss[i - 1].collector);
      StepKeepsRows(l, contents, ss[i - 1], actions[i - 1]);
      StepKeepsAll(l, contents, ss[i - 1], actions[i - 1], actions[..i - 1]);
      assert actions[..i] == actions[..i - 1] + [actions[i - 1]];
    }
  }

  lemma NothingKept(contents: Contents)
    ensures RowsFit(contents, map[], {}) && AllKept(contents, State(C.INITIAL, map[]), [])
  {
  }

  // ----- what an outcome says about the table -----

  lemma OutcomeIsTrue(l: C.Limits, c: C.State, id: C.Id)
    requires id in c.outcomes && CI.Inv(l, c)
    ensures c.outcomes[id] == C.Stored ==> id in c.store
    ensures CS.Dropped(c.outcomes[id]) ==> id !in c.store
  {
    hide CI.Core, CI.Placed, CI.Reserved, CI.Bounded, CI.StoreFits, CI.Refused;
    assert CI.Means(c.outcomes[id], c.tasks, c.store, id);
    if CS.Dropped(c.outcomes[id]) {
      CT.RefusedIsNotStored(c, id);
    }
  }

  lemma {:induction false} OutcomesAreFinal(
    l: C.Limits, contents: Contents, ss: seq<State>, actions: seq<Action>, i: nat, j: nat)
    requires C.ValidLimits(l) && Run(l, contents, ss, actions) && i <= j < |ss|
    ensures CT.Extends(ss[i].collector, ss[j].collector)
    decreases j
  {
    hide C.ValidLimits, Enabled, Apply, CT.Reachable, CI.Inv;
    if i < j {
      OutcomesAreFinal(l, contents, ss, actions, i, j - 1);
      CollectorStaysReachable(l, contents, ss, actions, j - 1);
      CT.ReachableInv(l, ss[j - 1].collector);
      StepExtendsCollector(l, contents, ss[j - 1], actions[j - 1]);
    }
  }

  lemma StepExtendsCollector(l: C.Limits, contents: Contents, s: State, a: Action)
    requires Enabled(l, s, a) && CI.Inv(l, s.collector)
    ensures CT.Extends(s.collector, Apply(l, contents, s, a).collector)
  {
    hide CI.Inv, C.Enabled, C.Apply, R.Purges, R.WriteAll;
    if a.Collect? {
      CT.StepExtends(l, s.collector, a.action);
    }
  }

  /**
   From the moment an event is settled as stored, whatever the collector, late writes and purges do
   next, the table holds its row until a purge reaches its expiry; an event settled as dropped has no
   row then and never will.
   */
  lemma StoredUntilItExpires(
    l: C.Limits, contents: Contents, ss: seq<State>, actions: seq<Action>, i: nat, j: nat, id: C.Id)
    requires C.ValidLimits(l) && Named(contents) && Run(l, contents, ss, actions) && i <= j < |ss|
    requires id in ss[i].collector.outcomes
    ensures ss[i].collector.outcomes[id] == C.Stored ==> Kept(contents(id), ss[j].table, actions[..j])
    ensures CS.Dropped(ss[i].collector.outcomes[id]) ==> id !in ss[j].table
    ensures id in ss[j].table ==> RowFits(ss[j].table[id], contents(id))
  {
    hide C.ValidLimits, Run, CT.Reachable, CI.Inv, Kept, RowFits;
    OutcomesAreFinal(l, contents, ss, actions, i, j);
    CollectorStaysReachable(l, contents, ss, actions, j);
    CT.ReachableInv(l, ss[j].collector);
    OutcomeIsTrue(l, ss[j].collector, id);
    TableIsKept(l, contents, ss, actions, j);
  }

  /**
   An event settled as stored is found by every query that matches it, made before it expires, if no
   purge ran ahead of the query's clock.
   */
  lemma StoredIsFound(
    l: C.Limits, contents: Contents, ss: seq<State>, actions: seq<Action>, i: nat, id: C.Id, q: R.Query, now: real)
    requires C.ValidLimits(l) && Named(contents) && Run(l, contents, ss, actions) && i < |ss|
    requires id in ss[i].collector.outcomes && ss[i].collector.outcomes[id] == C.Stored
    requires now < contents(id).summaryExpires && forall k :: 0 <= k < i && actions[k].Purge? ==> actions[k].at <= now
    ensures id in R.Selected(ss[i].table, q, now) <==> R.Matches(q, id, contents(id).created, contents(id).facts)
  {
    hide C.ValidLimits, Enabled, Apply, R.Matches;
    StoredUntilItExpires(l, contents, ss, actions, i, i, id);
    NotPurgedYet(actions[..i], now, contents(id).summaryExpires);
  }

  lemma NotPurgedYet(actions: seq<Action>, now: real, expiry: real)
    requires now < expiry && forall k :: 0 <= k < |actions| && actions[k].Purge? ==> actions[k].at <= now
    ensures !PurgedSince(actions, expiry)
  {
  }

  /**
   After a shutdown that still claims completeness the table holds the events counted as stored and no
   other, except for those that a purge has reached.
   */
  lemma CompleteTableIsExact(l: C.Limits, contents: Contents, ss: seq<State>, actions: seq<Action>, i: nat)
    requires C.ValidLimits(l) && Named(contents) && Run(l, contents, ss, actions) && i < |ss|
    requires ss[i].collector.worker.Absent? && ss[i].collector.complete
    ensures
      var c := ss[i].collector;
      && (forall id :: id in ss[i].table ==> id in c.outcomes && c.outcomes[id] == C.Stored)
      && (forall id :: id in c.outcomes && c.outcomes[id] == C.Stored ==>
            id in ss[i].table || PurgedSince(actions[..i], contents(id).summaryExpires))
      && c.counters[C.Settled(C.Stored)] == |c.store| && ss[i].table.Keys <= c.store
  {
    hide C.ValidLimits, Run, CT.Reachable, CI.Inv, RowFits, PurgedSince;
    CollectorStaysReachable(l, contents, ss, actions, i);
    CT.CompleteWhenIdleIsExact(l, ss[i].collector);
    TableIsKept(l, contents, ss, actions, i);
  }
}
