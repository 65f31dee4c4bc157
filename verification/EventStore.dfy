/** The event store as an object: its table and its counters, updated in place by each operation. */
module EventStoreObject {
  import opened Options
  import opened Totals
  import opened Retention

  datatype PurgeReport = PurgeReport(detailsDeleted: nat, summariesDeleted: nat, expiredPending: nat)

  class EventStore {
    var table: Table
    var expiredPending: nat

    ghost predicate Valid()
      reads this
    {
      Sound(table)
    }

    constructor ()
      ensures Valid() && table == map[] && expiredPending == 0
    {
      table, expiredPending := map[], 0;
    }

    /** One transaction; `now` holds the clock reading of each insert. */
    method WriteBatch(events: seq<Event>, now: seq<real>) returns (acknowledged: set<Id>)
      requires Valid() && |now| == |events| && forall e :: e in events ==> WellMade(e)
      modifies this`table
      ensures Valid() && table == WriteAll(old(table), events, now)
      ensures acknowledged == set e | e in events :: e.id
      ensures forall id :: id in acknowledged ==> id in table
    {
      WritesAreSound(table, events, now);
      WritesArePersistent(table, events, now);
      var n := 0;
      while n < |events|
        invariant 0 <= n <= |events| && table == WriteAll(old(table), events[..n], now[..n])
      {
        assert events[..n + 1][..n] == events[..n] && now[..n + 1][..n] == now[..n];
        if events[n].id !in table {
          table := table[events[n].id := RowOf(events[n], now[n])];
        }
        n := n + 1;
      }
      assert events[..n] == events && now[..n] == now;
      acknowledged := set e | e in events :: e.id;
    }

    /** `fetched` is what the database returns: the first selected rows in order, up to the limit. */
    method AskQuery(q: Query, a: Access, now: real, later: real, fetched: seq<Id>) returns (answer: Answer)
      requires fetched == Limited(Ordered(Selected(table, q, now)), q.limit)
      ensures answer == Ask(table, q, a, now, later)
    {
      ListedRowsExist(table, q, now);
      var refused := Refuses(q, a);
      if refused.Some? {
        return refused.value;
      }
      var results: seq<Shown> := [];
      var n := 0;
      while n < |fetched|
        invariant 0 <= n <= |fetched|
        invariant results == ShowAll(table, fetched[..n], later, a.allowDetails)
      {
        assert fetched[..n + 1][..n] == fetched[..n];
        var id := fetched[n];
        if table[id].summaryExpires > later {
          results := results + [Show(id, table[id], later, a.allowDetails)];
        }
        n := n + 1;
      }
      assert fetched[..n] == fetched;
      answer := Rows(results);
    }

    /** `details` and `summaries` are the rows that the database picks within the batch size. */
    method PurgeExpired(now: real, batch: nat, details: set<Id>, summaries: set<Id>) returns (report: PurgeReport)
      requires Valid() && Purges(table, now, batch, details, summaries)
      modifies this
      ensures Valid() && table == Purged(old(table), details, summaries)
      ensures expiredPending == |Pending(table, now)|
      ensures report == PurgeReport(|details|, |summaries|, |Pending(table, now)|)
      ensures report.expiredPending == 0 || report.expiredPending < |Pending(old(table), now)|
    {
      PurgedIsSound(table, details, summaries);
      PurgeMakesProgress(table, now, batch, details, summaries);
      NoLarger(Pending(Purged(table, details, summaries), now), Pending(table, now));
      table := Purged(table, details, summaries);
      var pending := set id | id in table
        && (table[id].summaryExpires <= now
            || (table[id].detail.Some? && table[id].detailExpires.Some? && table[id].detailExpires.value <= now));
      assert pending == Pending(table, now);
      expiredPending := |pending|;
      report := PurgeReport(|details|, |summaries|, expiredPending);
    }
  }
}
