/** The event table: writes that ignore duplicates, queries that hide what has expired, and purging. */
module Retention {
  import opened Options
  import opened Totals

  type Id = nat

  datatype Backend = Backend(role: string, deployment: string)

  /** The columns and summary fields that a query can filter on. */
  datatype Facts = Facts(
    route: string, result: string, reason: string, configuration: string, policy: string,
    backends: map<string, Backend>)

  datatype Row = Row(
    created: real, summaryExpires: real, detailExpires: Option<real>, facts: Facts,
    detailState: string, detail: Option<string>, storedAt: real)

  type Table = map<Id, Row>

  // ----- writing -----

  datatype Event = Event(
    id: Id, created: real, summaryExpires: real, detailExpires: Option<real>, facts: Facts,
    detailState: string, detail: Option<string>)

  function RowOf(e: Event, now: real): Row
  {
    Row(e.created, e.summaryExpires, e.detailExpires, e.facts,
        if e.detail.Some? then "stored" else e.detailState, e.detail, now)
  }

  /** ON CONFLICT DO NOTHING. */
  function Insert(t: Table, e: Event, now: real): Table
  {
    if e.id in t then t else t[e.id := RowOf(e, now)]
  }

  function WriteAll(t: Table, es: seq<Event>, now: seq<real>): Table
    requires |now| == |es|
    decreases |es|
  {
    if es == [] then t
    else Insert(WriteAll(t, es[..|es| - 1], now[..|es| - 1]), es[|es| - 1], now[|es| - 1])
  }

  /** What an event carries when it was made: a detail always comes with an expiry. */
  predicate WellMade(e: Event)
  {
    e.detail.Some? ==> e.detailExpires.Some?
  }

  /** Of every row with a detail, the expiry is known and the state says stored. */
  ghost predicate Sound(t: Table)
  {
    forall id :: id in t && t[id].detail.Some? ==> t[id].detailState == "stored" && t[id].detailExpires.Some?
  }

  lemma {:induction false} WritesAreSound(t: Table, es: seq<Event>, now: seq<real>)
    requires Sound(t) && |now| == |es| && forall e :: e in es ==> WellMade(e)
    ensures Sound(WriteAll(t, es, now))
    decreases |es|
  {
    if es != [] {
      assert es[|es| - 1] in es && WellMade(es[|es| - 1]);
      WritesAreSound(t, es[..|es| - 1], now[..|es| - 1]);
    }
  }

  /** A committed batch holds every event it acknowledges, and changes no row that was there. */
  lemma {:induction false} WritesArePersistent(t: Table, es: seq<Event>, now: seq<real>)
    requires |now| == |es|
    ensures forall e :: e in es ==> e.id in WriteAll(t, es, now)
    ensures forall id :: id in t ==> id in WriteAll(t, es, now) && WriteAll(t, es, now)[id] == t[id]
    ensures forall id :: id in WriteAll(t, es, now) ==> id in t || exists e :: e in es && e.id == id
    decreases |es|
  {
    if es != [] {
      var n := |es| - 1;
      WritesArePersistent(t, es[..n], now[..n]);
      assert es == es[..n] + [es[n]];
    }
  }

  lemma {:induction false} NothingToInsert(t: Table, es: seq<Event>, now: seq<real>)
    requires |now| == |es| && forall e :: e in es ==> e.id in t
    ensures WriteAll(t, es, now) == t
    decreases |es|
  {
    if es != [] {
      NothingToInsert(t, es[..|es| - 1], now[..|es| - 1]);
    }
  }

  /** A batch that is written again changes nothing, whatever the clock says the second time. */
  lemma RetriesAreIdempotent(t: Table, es: seq<Event>, now: seq<real>, again: seq<real>)
    requires |now| == |es| == |again|
    ensures WriteAll(WriteAll(t, es, now), es, again) == WriteAll(t, es, now)
  {
    WritesArePersistent(t, es, now);
    NothingToInsert(WriteAll(t, es, now), es, again);
  }

  // ----- querying -----

  datatype Query = Query(
    start: real, end: real, routes: set<string>, limit: int,
    result: Option<string>, reason: Option<string>, configuration: Option<string>, policy: Option<string>,
    event: Option<Id>, backend: Option<string>, role: Option<string>, deployment: Option<string>)

  datatype Access = Access(routes: set<string>, maxPeriod: real, maxRows: int, allowDetails: bool)

  datatype Shown = Shown(
    id: Id, created: real, summaryExpires: real, storedAt: real, facts: Facts, detailState: string, detail: Option<string>)

  datatype Answer = RouteDenied | LimitExceeded | InvalidBackend | Rows(rows: seq<Shown>)

  predicate Equals<T(==)>(wanted: Option<T>, actual: T)
  {
    wanted.Some? ==> wanted.value == actual
  }

  predicate BackendMatches(q: Query, f: Facts, backend: string)
  {
    && (q.role.Some? ==> backend in f.backends && f.backends[backend].role == q.role.value)
    && (q.deployment.Some? ==> backend in f.backends && f.backends[backend].deployment == q.deployment.value)
  }

  predicate Matches(q: Query, id: Id, created: real, f: Facts)
  {
    && q.start <= created < q.end && f.route in q.routes
    && Equals(q.result, f.result) && Equals(q.reason, f.reason) && Equals(q.configuration, f.configuration)
    && Equals(q.policy, f.policy) && Equals(q.event, id)
    && (q.backend.Some? || q.role.Some? || q.deployment.Some? ==>
          if q.backend.Some? then BackendMatches(q, f, q.backend.value)
          else BackendMatches(q, f, "v1") || BackendMatches(q, f, "v2"))
  }

  /** The creation times of the rows that a query selects at time `now`. */
  ghost function Selected(t: Table, q: Query, now: real): map<Id, real>
  {
    map id | id in t && t[id].summaryExpires > now && Matches(q, id, t[id].created, t[id].facts) :: t[id].created
  }

  predicate Before(created: map<Id, real>, a: Id, b: Id)
    requires a in created && b in created
  {
    created[a] < created[b] || (created[a] == created[b] && a <= b)
  }

  ghost predicate IsFirst(created: map<Id, real>, id: Id)
  {
    id in created && forall other :: other in created ==> Before(created, id, other)
  }

  lemma {:induction false} FirstExists(created: map<Id, real>)
    requires created != map[]
    ensures exists id :: IsFirst(created, id)
    decreases |created|
  {
    var id :| id in created;
    var rest := created - {id};
    Shrinks(created, id);
    assert forall x :: x in created && x != id ==> x in rest && rest[x] == created[x];
    if rest == map[] {
      assert IsFirst(created, id);
    } else {
      FirstExists(rest);
      var other :| IsFirst(rest, other);
      assert other in rest && Before(created, id, other) ==> IsFirst(created, id);
      assert other in rest && !Before(created, id, other) ==> IsFirst(created, other);
    }
  }

  ghost function First(created: map<Id, real>): (id: Id)
    requires created != map[]
    ensures IsFirst(created, id)
  {
    FirstExists(created);
    var id :| IsFirst(created, id);
    id
  }

  /** ORDER BY created_at, event_id. */
  ghost function Ordered(created: map<Id, real>): seq<Id>
    decreases |created|
  {
    if created == map[] then []
    else
      var id := First(created);
      Shrinks(created, id);
      [id] + Ordered(created - {id})
  }

  lemma Shrinks(created: map<Id, real>, id: Id)
    requires id in created
    ensures |created - {id}| == |created| - 1
  {
    assert (created - {id}).Keys == created.Keys - {id};
    assert |(created - {id}).Keys| == |created - {id}| && |created.Keys| == |created|;
  }

  ghost predicate SortedBy(created: map<Id, real>, ids: seq<Id>)
  {
    && (forall i :: 0 <= i < |ids| ==> ids[i] in created)
    && (forall i, j :: 0 <= i < j < |ids| ==> ids[i] != ids[j] && Before(created, ids[i], ids[j]))
  }

  lemma SortedCons(created: map<Id, real>, id: Id, rest: seq<Id>)
    requires IsFirst(created, id) && SortedBy(created - {id}, rest)
    ensures SortedBy(created, [id] + rest)
  {
    var ids := [id] + rest;
    assert forall i :: 0 < i < |ids| ==> ids[i] == rest[i - 1];
  }

  /** The listing holds every selected row once, in order. */
  lemma {:induction false} OrderedIsSorted(created: map<Id, real>)
    ensures |Ordered(created)| == |created| && SortedBy(created, Ordered(created))
    ensures forall id :: id in Ordered(created) <==> id in created
    decreases |created|
  {
    hide SortedBy, Before;
    if created != map[] {
      var id := First(created);
      Shrinks(created, id);
      OrderedIsSorted(created - {id});
      SortedCons(created, id, Ordered(created - {id}));
    } else {
      NothingToSort(created);
    }
  }

  lemma NothingToSort(created: map<Id, real>)
    ensures SortedBy(created, [])
  {
  }

  /** A row as the query shows it: an expired detail is withheld and its state says so. */
  function Show(id: Id, row: Row, now: real, allowDetails: bool): Shown
  {
    var expired := row.detailExpires.Some? && row.detailExpires.value <= now;
    Shown(id, row.created, row.summaryExpires, row.storedAt, row.facts,
          if expired && row.detailState == "stored" then "expired" else row.detailState,
          if allowDetails && !expired then row.detail else None)
  }

  /** The rows still unexpired when the clock is read again, in order. */
  ghost function ShowAll(t: Table, ids: seq<Id>, now: real, allowDetails: bool): seq<Shown>
    requires forall id :: id in ids ==> id in t
    decreases |ids|
  {
    if ids == [] then []
    else
      var id := ids[|ids| - 1];
      ShowAll(t, ids[..|ids| - 1], now, allowDetails)
      + (if t[id].summaryExpires <= now then [] else [Show(id, t[id], now, allowDetails)])
  }

  function Limited(ids: seq<Id>, limit: int): seq<Id>
  {
    if 0 <= limit < |ids| then ids[..limit] else ids
  }

  function Refuses(q: Query, a: Access): Option<Answer>
  {
    if q.routes == {} || !(q.routes <= a.routes) then Some(RouteDenied)
    else if !(0.0 < q.end - q.start <= a.maxPeriod) || !(0 < q.limit <= a.maxRows) then Some(LimitExceeded)
    else if (q.backend.Some? && q.backend.value != "v1" && q.backend.value != "v2")
            || (q.role.Some? && q.role.value != "serving" && q.role.value != "shadow") then Some(InvalidBackend)
    else None
  }

  lemma ListedRowsExist(t: Table, q: Query, now: real)
    ensures forall id :: id in Limited(Ordered(Selected(t, q, now)), q.limit) ==>
              id in t && id in Selected(t, q, now)
  {
    OrderedIsSorted(Selected(t, q, now));
  }

  /** The whole query; the clock is read once for the rows and once, not earlier, for what is shown. */
  ghost function Ask(t: Table, q: Query, a: Access, now: real, later: real): Answer
  {
    if Refuses(q, a).Some? then Refuses(q, a).value
    else
      ListedRowsExist(t, q, now);
      Rows(ShowAll(t, Limited(Ordered(Selected(t, q, now)), q.limit), later, a.allowDetails))
  }

  lemma {:induction false} ShownRows(t: Table, ids: seq<Id>, now: real, allowDetails: bool)
    requires forall id :: id in ids ==> id in t
    ensures |ShowAll(t, ids, now, allowDetails)| <= |ids|
    ensures forall x :: x in ShowAll(t, ids, now, allowDetails) <==>
              x.id in ids && t[x.id].summaryExpires > now && x == Show(x.id, t[x.id], now, allowDetails)
    decreases |ids|
  {
    hide Show;
    if ids != [] {
      var n := |ids| - 1;
      ShownRows(t, ids[..n], now, allowDetails);
      assert ids == ids[..n] + [ids[n]];
      ShowsItsId(ids[n], t[ids[n]], now, allowDetails);
    }
  }

  lemma ShowsItsId(id: Id, row: Row, now: real, allowDetails: bool)
    ensures Show(id, row, now, allowDetails).id == id
  {
  }

  /** The row may be shown to this query: selected at the first clock reading and unexpired at the second. */
  ghost predicate Visible(t: Table, q: Query, now: real, later: real, id: Id)
  {
    id in t && Matches(q, id, t[id].created, t[id].facts) && t[id].summaryExpires > now && t[id].summaryExpires > later
  }

  /**
   An answer holds only visible rows, at most as many as asked for, and all of them when the limit
   leaves room; a detail is in it only where details are allowed and the detail has not expired.
   */
  lemma AnswerIsExact(t: Table, q: Query, a: Access, now: real, later: real)
    requires Refuses(q, a).None?
    ensures
      var rows := Ask(t, q, a, now, later).rows;
      && |rows| <= q.limit
      && (forall x :: x in rows ==> Visible(t, q, now, later, x.id) && x == Show(x.id, t[x.id], later, a.allowDetails))
      && (forall x :: x in rows && x.detail.Some? ==>
            a.allowDetails && (t[x.id].detailExpires.Some? ==> t[x.id].detailExpires.value > later))
      && (|Selected(t, q, now)| <= q.limit ==>
            forall id :: Visible(t, q, now, later, id) ==> Show(id, t[id], later, a.allowDetails) in rows)
  {
    hide Matches, Ordered;
    var ids := Limited(Ordered(Selected(t, q, now)), q.limit);
    OrderedIsSorted(Selected(t, q, now));
    ListedRowsExist(t, q, now);
    ShownRows(t, ids, later, a.allowDetails);
    if |Selected(t, q, now)| <= q.limit {
      forall id | Visible(t, q, now, later, id) ensures id in ids {
        assert id in Selected(t, q, now);
      }
    }
  }

  // ----- purging -----

  ghost function ExpiredDetails(t: Table, now: real): set<Id>
  {
    set id | id in t && t[id].detail.Some? && t[id].detailExpires.Some? && t[id].detailExpires.value <= now
  }

  ghost function ExpiredSummaries(t: Table, now: real): set<Id>
  {
    set id | id in t && t[id].summaryExpires <= now
  }

  /** LIMIT without an order: any subset of the right size. */
  ghost predicate Picks(chosen: set<Id>, all: set<Id>, batch: nat)
  {
    chosen <= all && |chosen| == Min(batch, |all|)
  }

  function WithoutDetail(row: Row): Row
  {
    row.(detail := None, detailState := "expired")
  }

  function Purged(t: Table, details: set<Id>, summaries: set<Id>): Table
  {
    map id | id in t && id !in summaries :: if id in details then WithoutDetail(t[id]) else t[id]
  }

  ghost predicate Purges(t: Table, now: real, batch: nat, details: set<Id>, summaries: set<Id>)
  {
    batch > 0 && Picks(details, ExpiredDetails(t, now), batch) && Picks(summaries, ExpiredSummaries(t, now), batch)
  }

  ghost function Pending(t: Table, now: real): set<Id>
  {
    ExpiredSummaries(t, now) + ExpiredDetails(t, now)
  }

  lemma PurgedIsSound(t: Table, details: set<Id>, summaries: set<Id>)
    requires Sound(t)
    ensures Sound(Purged(t, details, summaries))
  {
  }

  lemma SelectionSurvives(t: Table, at: real, batch: nat, details: set<Id>, summaries: set<Id>, q: Query, now: real)
    requires Purges(t, at, batch, details, summaries) && at <= now
    ensures Selected(Purged(t, details, summaries), q, now) == Selected(t, q, now)
  {
    var t' := Purged(t, details, summaries);
    forall id | id in t && t[id].summaryExpires > now ensures id in t' && t'[id].created == t[id].created {
      assert id !in ExpiredSummaries(t, at);
    }
  }

  lemma {:induction false} ShownAlike(
    t: Table, t': Table, ids: seq<Id>, now: real, allowDetails: bool)
    requires forall id :: id in ids ==> id in t && id in t' && t'[id].summaryExpires == t[id].summaryExpires
    requires forall id :: id in ids ==> Show(id, t'[id], now, allowDetails) == Show(id, t[id], now, allowDetails)
    ensures ShowAll(t', ids, now, allowDetails) == ShowAll(t, ids, now, allowDetails)
    decreases |ids|
  {
    if ids != [] {
      ShownAlike(t, t', ids[..|ids| - 1], now, allowDetails);
    }
  }

  /**
   Purging is invisible: a query at a time not earlier than the purge returns the same rows, details
   and detail states before and after it.
   */
  lemma PurgeIsInvisible(
    t: Table, at: real, batch: nat, details: set<Id>, summaries: set<Id>, q: Query, a: Access, now: real, later: real)
    requires Sound(t) && Purges(t, at, batch, details, summaries) && at <= now <= later
    ensures Ask(Purged(t, details, summaries), q, a, now, later) == Ask(t, q, a, now, later)
  {
    if Refuses(q, a).None? {
      var t' := Purged(t, details, summaries);
      SelectionSurvives(t, at, batch, details, summaries, q, now);
      ListedRowsExist(t, q, now);
      ListedRowsExist(t', q, now);
      var ids := Limited(Ordered(Selected(t, q, now)), q.limit);
      forall id | id in ids ensures Show(id, t'[id], later, a.allowDetails) == Show(id, t[id], later, a.allowDetails) {
        if id in details {
          assert id in ExpiredDetails(t, at);
        }
      }
      ShownAlike(t, t', ids, later, a.allowDetails);
    }
  }

  /** A purge takes no unexpired row and no unexpired detail. */
  lemma PurgeSparesTheUnexpired(t: Table, at: real, batch: nat, details: set<Id>, summaries: set<Id>, id: Id)
    requires Purges(t, at, batch, details, summaries) && id in t && t[id].summaryExpires > at
    ensures
      var t' := Purged(t, details, summaries);
      && id in t'
      && (t[id].detailExpires.None? || t[id].detailExpires.value > at ==> t'[id] == t[id])
      && t'[id] == t[id].(detail := t'[id].detail, detailState := t'[id].detailState)
  {
    assert id !in ExpiredSummaries(t, at);
    if id in details {
      assert id in ExpiredDetails(t, at);
    }
  }

  lemma ExpiredAfterPurge(t: Table, at: real, batch: nat, details: set<Id>, summaries: set<Id>)
    requires Purges(t, at, batch, details, summaries)
    ensures ExpiredDetails(Purged(t, details, summaries), at) == ExpiredDetails(t, at) - details - summaries
    ensures ExpiredSummaries(Purged(t, details, summaries), at) == ExpiredSummaries(t, at) - summaries
  {
    var t' := Purged(t, details, summaries);
    forall id | id in ExpiredDetails(t', at) ensures id in ExpiredDetails(t, at) - details - summaries {
      assert id !in details;
    }
  }

  /** Each purge at one fixed time settles at least one expired event, until none is left. */
  lemma PurgeMakesProgress(t: Table, at: real, batch: nat, details: set<Id>, summaries: set<Id>)
    requires Purges(t, at, batch, details, summaries)
    ensures
      var t' := Purged(t, details, summaries);
      && Pending(t', at) <= Pending(t, at)
      && (Pending(t, at) != {} ==> |Pending(t', at)| < |Pending(t, at)|)
  {
    ExpiredAfterPurge(t, at, batch, details, summaries);
    var t' := Purged(t, details, summaries);
    if Pending(t, at) != {} {
      var gone: Id;
      if ExpiredSummaries(t, at) != {} {
        assert |summaries| > 0;
        gone :| gone in summaries;
      } else {
        assert ExpiredDetails(t, at) != {};
        assert |details| > 0;
        gone :| gone in details;
      }
      assert gone in Pending(t, at) && gone !in Pending(t', at);
      Smaller(Pending(t', at), Pending(t, at), gone);
    }
  }

  lemma Smaller(a: set<Id>, b: set<Id>, x: Id)
    requires a <= b && x in b && x !in a
    ensures |a| < |b|
  {
    assert a <= b - {x};
    NoLarger(a, b - {x});
  }

  /** The rows that one purge picks. */
  datatype Choice = Choice(details: set<Id>, summaries: set<Id>)

  /** The table after a run of purges at one time. */
  function AfterPurges(t: Table, run: seq<Choice>): Table
    decreases |run|
  {
    if run == [] then t
    else
      var c := run[|run| - 1];
      Purged(AfterPurges(t, run[..|run| - 1]), c.details, c.summaries)
  }

  ghost predicate PurgeRun(t: Table, at: real, batch: nat, run: seq<Choice>)
  {
    forall i :: 0 <= i < |run| ==> Purges(AfterPurges(t, run[..i]), at, batch, run[i].details, run[i].summaries)
  }

  /** As many purges as there are expired events leave none, whatever rows each of them picks. */
  lemma {:induction false} PurgesFinish(t: Table, at: real, batch: nat, run: seq<Choice>)
    requires PurgeRun(t, at, batch, run)
    ensures |Pending(AfterPurges(t, run), at)| <= if |run| <= |Pending(t, at)| then |Pending(t, at)| - |run| else 0
    decreases |run|
  {
    hide Pending, Purges, Purged;
    if run != [] {
      var n := |run| - 1;
      assert forall i :: 0 <= i < n ==> run[..n][..i] == run[..i] && run[..n][i] == run[i];
      PurgesFinish(t, at, batch, run[..n]);
      PurgeMakesProgress(AfterPurges(t, run[..n]), at, batch, run[n].details, run[n].summaries);
      NoLarger(Pending(AfterPurges(t, run), at), Pending(AfterPurges(t, run[..n]), at));
    }
  }

  /** A run of purges is as invisible as one. */
  lemma {:induction false} PurgeRunIsInvisible(
    t: Table, at: real, batch: nat, run: seq<Choice>, q: Query, a: Access, now: real, later: real)
    requires Sound(t) && PurgeRun(t, at, batch, run) && at <= now <= later
    ensures Sound(AfterPurges(t, run)) && Ask(AfterPurges(t, run), q, a, now, later) == Ask(t, q, a, now, later)
    decreases |run|
  {
    hide Purges, Purged, Ask, Sound;
    if run != [] {
      var n := |run| - 1;
      assert forall i :: 0 <= i < n ==> run[..n][..i] == run[..i] && run[..n][i] == run[i];
      PurgeRunIsInvisible(t, at, batch, run[..n], q, a, now, later);
      PurgedIsSound(AfterPurges(t, run[..n]), run[n].details, run[n].summaries);
      PurgeIsInvisible(AfterPurges(t, run[..n]), at, batch, run[n].details, run[n].summaries, q, a, now, later);
    }
  }
}
