/** What a query of the event table means: its filters, its refusals, its access, and the order of its answer. */
module Queries {
  import opened Options
  import opened Retention

  // ----- the filters -----

  /** A query with its interval and routes only. */
  function Unfiltered(q: Query): Query
  {
    q.(result := None, reason := None, configuration := None, policy := None, event := None,
       backend := None, role := None, deployment := None)
  }

  /** Without filters a query selects the events of its routes in its half-open interval. */
  lemma UnfilteredIs(q: Query, id: Id, created: real, f: Facts)
    ensures Matches(Unfiltered(q), id, created, f) <==> q.start <= created && created < q.end && f.route in q.routes
  {
  }

  /** The backend of the event has the role and the deployment that are asked for. */
  ghost predicate BackendHas(q: Query, f: Facts, name: string)
  {
    && (forall role :: q.role == Some(role) ==> name in f.backends && f.backends[name].role == role)
    && (forall d :: q.deployment == Some(d) ==> name in f.backends && f.backends[name].deployment == d)
  }

  /**
   Each filter narrows the query by exactly its own fact; the filters on backends ask that one backend,
   the named one or either, has both the role and the deployment.
   */
  lemma FiltersAreExact(q: Query, id: Id, created: real, f: Facts)
    requires q.backend == None || q.backend == Some("v1") || q.backend == Some("v2")
    ensures Matches(q, id, created, f) <==>
              && Matches(Unfiltered(q), id, created, f)
              && (forall v :: q.result == Some(v) ==> f.result == v)
              && (forall v :: q.reason == Some(v) ==> f.reason == v)
              && (forall v :: q.configuration == Some(v) ==> f.configuration == v)
              && (forall v :: q.policy == Some(v) ==> f.policy == v)
              && (forall v :: q.event == Some(v) ==> id == v)
              && (exists name :: name in ["v1", "v2"] && (q.backend == None || q.backend == Some(name))
                                 && BackendHas(q, f, name))
  {
    BackendIs(q, f, "v1");
    BackendIs(q, f, "v2");
    assert "v1" in ["v1", "v2"] && "v2" in ["v1", "v2"];
  }

  lemma BackendIs(q: Query, f: Facts, name: string)
    ensures BackendMatches(q, f, name) <==> BackendHas(q, f, name)
  {
  }

  /** Two adjoining intervals select, between them and once each, what the whole interval selects. */
  lemma IntervalsAdjoin(t: Table, q: Query, middle: real, now: real)
    requires q.start <= middle <= q.end
    ensures
      var (early, late) := (Selected(t, q.(end := middle), now), Selected(t, q.(start := middle), now));
      Selected(t, q, now) == early + late && early.Keys !! late.Keys
  {
  }

  // ----- refusals and access -----

  /** A query is answered exactly when it keeps to its access, and refused for the first thing that does not. */
  lemma RefusalsAreExact(t: Table, q: Query, a: Access, now: real, later: real)
    ensures
      var denied := q.routes == {} || exists route :: route in q.routes && route !in a.routes;
      var exceeds := q.end <= q.start || q.end - q.start > a.maxPeriod || q.limit <= 0 || q.limit > a.maxRows;
      var unknown := (q.backend != None && q.backend != Some("v1") && q.backend != Some("v2"))
                     || (q.role != None && q.role != Some("serving") && q.role != Some("shadow"));
      && (Ask(t, q, a, now, later).RouteDenied? <==> denied)
      && (Ask(t, q, a, now, later).LimitExceeded? <==> !denied && exceeds)
      && (Ask(t, q, a, now, later).InvalidBackend? <==> !denied && !exceeds && unknown)
      && (Ask(t, q, a, now, later).Rows? <==> !denied && !exceeds && !unknown)
  {
    hide Selected, Ordered, ShowAll, Limited;
  }

  /** What a shown row says of a stored one. */
  ghost predicate Shows(x: Shown, row: Row, later: real, allowDetails: bool)
  {
    var expired := row.detailExpires.Some? && row.detailExpires.value <= later;
    && x.created == row.created && x.summaryExpires == row.summaryExpires && x.storedAt == row.storedAt
    && x.facts == row.facts
    && x.detail == (if allowDetails && !expired then row.detail else None)
    && x.detailState == (if row.detailState == "stored" && expired then "expired" else row.detailState)
  }

  lemma ShowIs(id: Id, row: Row, later: real, allowDetails: bool)
    ensures Show(id, row, later, allowDetails).id == id
    ensures Shows(Show(id, row, later, allowDetails), row, later, allowDetails)
  {
  }

  /** Whatever is asked, an answer keeps to the access: its routes, its longest period, its most rows, its details. */
  lemma AnswersKeepToAccess(t: Table, q: Query, a: Access, now: real, later: real)
    ensures
      var answer := Ask(t, q, a, now, later);
      answer.Rows? ==>
        && |answer.rows| <= a.maxRows
        && forall x :: x in answer.rows ==>
             && x.id in t && Shows(x, t[x.id], later, a.allowDetails)
             && x.facts.route in a.routes && q.start <= x.created < q.end && q.end - q.start <= a.maxPeriod
             && x.summaryExpires > now && x.summaryExpires > later
             && (x.detail.Some? ==> a.allowDetails)
  {
    hide Selected, Ordered, ShowAll, Limited, Show, Shows;
    var answer := Ask(t, q, a, now, later);
    if answer.Rows? {
      AnswerIsExact(t, q, a, now, later);
      forall x | x in answer.rows
        ensures x.id in t && Shows(x, t[x.id], later, a.allowDetails) && (x.detail.Some? ==> a.allowDetails)
        ensures x.created == t[x.id].created && x.summaryExpires == t[x.id].summaryExpires && x.facts == t[x.id].facts
      {
        ShowIs(x.id, t[x.id], later, a.allowDetails);
        ShownParts(x, t[x.id], later, a.allowDetails);
      }
    }
  }

  lemma ShownParts(x: Shown, row: Row, later: real, allowDetails: bool)
    requires Shows(x, row, later, allowDetails)
    ensures x.created == row.created && x.summaryExpires == row.summaryExpires && x.facts == row.facts
    ensures x.detail.Some? ==> allowDetails
  {
  }

  // ----- the order of an answer -----

  /** A row that comes earlier than a shown one, by time and then by id, is shown too if it is visible. */
  ghost predicate Earlier(t: Table, a: Id, b: Id)
    requires a in t && b in t
  {
    t[a].created < t[b].created || (t[a].created == t[b].created && a < b)
  }

  /** The rows are in order of time and then of id, each once. */
  ghost predicate InOrder(t: Table, ids: seq<Id>)
  {
    (forall id :: id in ids ==> id in t) && forall i, j :: 0 <= i < j < |ids| ==> Earlier(t, ids[i], ids[j])
  }

  lemma {:induction false} ShowKeepsOrder(t: Table, ids: seq<Id>, now: real, allowDetails: bool)
    requires InOrder(t, ids)
    ensures
      var rows := ShowAll(t, ids, now, allowDetails);
      && (forall x :: x in rows ==> x.id in ids)
      && forall i, j :: 0 <= i < j < |rows| ==> rows[i].id in t && rows[j].id in t && Earlier(t, rows[i].id, rows[j].id)
    decreases |ids|
  {
    hide Show, Earlier;
    if ids != [] {
      var n := |ids| - 1;
      assert forall i :: 0 <= i < n ==> ids[..n][i] == ids[i];
      ShowKeepsOrder(t, ids[..n], now, allowDetails);
      ShowsItsId(ids[n], t[ids[n]], now, allowDetails);
      var before, rows := ShowAll(t, ids[..n], now, allowDetails), ShowAll(t, ids, now, allowDetails);
      forall i, j | 0 <= i < j < |rows| ensures Earlier(t, rows[i].id, rows[j].id) {
        if j == |before| {
          assert before[i] in before && before[i].id in ids[..n];
          var k :| 0 <= k < n && ids[..n][k] == before[i].id;
          assert ids[k] == rows[i].id && rows[j].id == ids[n];
        }
      }
    }
  }

  lemma OrderedIsEarlier(t: Table, q: Query, now: real)
    ensures InOrder(t, Ordered(Selected(t, q, now)))
  {
    hide Matches;
    var created := Selected(t, q, now);
    OrderedIsSorted(created);
    var ids := Ordered(created);
    forall i, j | 0 <= i < j < |ids| ensures Earlier(t, ids[i], ids[j]) {
      assert ids[i] in ids && ids[j] in ids && Before(created, ids[i], ids[j]);
    }
  }

  /**
   An answer is in order of time and then of id, without repetition; and the limit cuts it off at its end:
   a visible row that comes earlier than a shown one is shown.
   */
  lemma AnswerIsFirstRows(t: Table, q: Query, a: Access, now: real, later: real)
    requires Refuses(q, a).None?
    ensures
      var rows := Ask(t, q, a, now, later).rows;
      && (forall i, j :: 0 <= i < j < |rows| ==> rows[i].id in t && rows[j].id in t && Earlier(t, rows[i].id, rows[j].id))
      && (forall x, id :: x in rows && x.id in t && Visible(t, q, now, later, id) && Earlier(t, id, x.id) ==>
            exists y :: y in rows && y.id == id)
      && (now == later ==> |rows| == if |Selected(t, q, now)| <= q.limit then |Selected(t, q, now)| else q.limit)
  {
    hide Matches, Ordered, Earlier, Show, ShowAll, Selected, Refuses, Before;
    var all := Ordered(Selected(t, q, now));
    var ids := Limited(all, q.limit);
    var rows := Ask(t, q, a, now, later).rows;
    AskIs(t, q, a, now, later);
    OrderedIsSorted(Selected(t, q, now));
    OrderedIsEarlier(t, q, now);
    ListedRowsExist(t, q, now);
    PrefixIsOrdered(t, all, ids);
    ShowKeepsOrder(t, ids, later, a.allowDetails);
    ShownRows(t, ids, later, a.allowDetails);
    forall x, id | x in rows && x.id in t && Visible(t, q, now, later, id) && Earlier(t, id, x.id)
      ensures exists y :: y in rows && y.id == id
    {
      SelectedIs(t, q, now, id);
      EarlierIsListed(t, all, ids, id, x.id);
      ShowsItsId(id, t[id], later, a.allowDetails);
      assert Show(id, t[id], later, a.allowDetails) in rows;
    }
    if now == later {
      forall id | id in ids ensures t[id].summaryExpires > now {
        SelectedIs(t, q, now, id);
      }
      AllAreShown(t, ids, now, a.allowDetails);
    }
  }

  lemma AskIs(t: Table, q: Query, a: Access, now: real, later: real)
    requires Refuses(q, a).None?
    ensures
      var ids := Limited(Ordered(Selected(t, q, now)), q.limit);
      && (forall id :: id in ids ==> id in t)
      && Ask(t, q, a, now, later) == Rows(ShowAll(t, ids, later, a.allowDetails)) && 0 < q.limit
  {
    hide Ordered, Selected, ShowAll;
    ListedRowsExist(t, q, now);
  }

  lemma SelectedIs(t: Table, q: Query, now: real, id: Id)
    ensures id in Selected(t, q, now) <==>
              id in t && t[id].summaryExpires > now && Matches(q, id, t[id].created, t[id].facts)
  {
  }

  lemma PrefixIsOrdered(t: Table, all: seq<Id>, ids: seq<Id>)
    requires ids <= all && InOrder(t, all)
    ensures InOrder(t, ids)
  {
    hide Earlier;
    forall id | id in ids ensures id in t {
      assert id in all;
    }
    forall i, j | 0 <= i < j < |ids| ensures Earlier(t, ids[i], ids[j]) {
      assert ids[i] == all[i] && ids[j] == all[j];
    }
  }

  lemma EarlierIsListed(t: Table, all: seq<Id>, ids: seq<Id>, id: Id, other: Id)
    requires ids <= all && id in all && other in ids && id in t && other in t && InOrder(t, all)
    requires Earlier(t, id, other)
    ensures id in ids
  {
    var i :| 0 <= i < |all| && all[i] == id;
    var j :| 0 <= j < |ids| && ids[j] == other;
    assert all[j] == other;
    assert !(j < i);
    assert ids[i] == id;
  }

  lemma {:induction false} AllAreShown(t: Table, ids: seq<Id>, now: real, allowDetails: bool)
    requires forall id :: id in ids ==> id in t && t[id].summaryExpires > now
    ensures |ShowAll(t, ids, now, allowDetails)| == |ids|
    decreases |ids|
  {
    hide Show;
    if ids != [] {
      AllAreShown(t, ids[..|ids| - 1], now, allowDetails);
    }
  }
}
