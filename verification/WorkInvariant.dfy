/** The invariant of the request pipeline: slots, jobs and bytes, computations, and where every request is. */
module WorkInvariant {
  import opened Options
  import opened Totals
  import opened WorkModel
  import C = CollectorModel
  import CI = CollectorInvariant

  // ----- the account of jobs and bytes -----

  ghost function HeldJobs(ws: seq<Worker>): nat
  {
    if ws == [] then 0 else HeldJobs(ws[..|ws| - 1]) + (if Holds(ws[|ws| - 1]) then 1 else 0)
  }

  ghost function Weight(w: Worker): nat
  {
    if Holds(w) then w.job.size else 0
  }

  ghost function HeldBytes(ws: seq<Worker>): nat
  {
    if ws == [] then 0 else HeldBytes(ws[..|ws| - 1]) + Weight(ws[|ws| - 1])
  }

  ghost function QueueBytes(q: seq<Job>): nat
  {
    if q == [] then 0 else q[0].size + QueueBytes(q[1..])
  }

  /** `_jobs` and `_job_bytes` are what is queued or held by the workers there are, and never exceed their limits. */
  ghost predicate Accounted(l: WorkLimits, queue: seq<Job>, workers: seq<Worker>, jobs: int, jobBytes: int)
  {
    && |workers| == l.workers && jobs == |queue| + HeldJobs(workers) && jobs <= l.maxJobs
    && jobBytes == QueueBytes(queue) + HeldBytes(workers) && jobBytes <= l.maxBytes
  }

  // ----- where requests are -----

  ghost predicate QueuePlaced(places: map<Id, Place>, queue: seq<Job>)
  {
    && (forall i :: 0 <= i < |queue| ==> queue[i].id in places && places[queue[i].id] == Queued)
    && (forall i, j :: 0 <= i < j < |queue| ==> queue[i].id != queue[j].id)
    && (forall id :: id in places && places[id] == Queued ==> exists i :: 0 <= i < |queue| && queue[i].id == id)
  }

  ghost predicate FramePlaced(places: map<Id, Place>, w: Worker)
  {
    Holds(w) ==> w.job.id in places && if Unsettled(w) then places[w.job.id] == Held else Final(places[w.job.id])
  }

  ghost predicate WorkersPlaced(places: map<Id, Place>, workers: seq<Worker>)
  {
    && (forall i :: 0 <= i < |workers| ==> FramePlaced(places, workers[i]))
    && (forall i, j :: 0 <= i < j < |workers| && Unsettled(workers[i]) && Unsettled(workers[j]) ==>
          workers[i].job.id != workers[j].job.id)
    && (forall id :: id in places && places[id] == Held ==>
          exists i :: 0 <= i < |workers| && Unsettled(workers[i]) && workers[i].job.id == id)
  }

  /** Every running computation is the current one of exactly one worker that still holds its job. */
  ghost predicate CpusFit(workers: seq<Worker>, cpus: map<FutureId, Cpu>)
  {
    && (forall i :: 0 <= i < |workers| && Holds(workers[i]) ==> workers[i].future in cpus)
    && (forall i, j :: 0 <= i < j < |workers| && Holds(workers[i]) && Holds(workers[j]) ==>
          workers[i].future != workers[j].future)
    && (forall f :: f in cpus && cpus[f].Computing? ==>
          exists i :: 0 <= i < |workers| && Holds(workers[i]) && workers[i].future == f)
  }

  // ----- counts -----

  ghost function SlotHolders(places: map<Id, Place>): set<Id>
  {
    set id | id in places && HasSlot(places[id])
  }

  ghost predicate SlotsFit(l: WorkLimits, places: map<Id, Place>, slots: int)
  {
    slots == |SlotHolders(places)| && slots <= l.shadowSlots
  }

  ghost predicate LossesFit(places: map<Id, Place>, dropped: multiset<Reason>)
  {
    (forall r :: dropped[r] == Count(places, Lost(r))) && |dropped| == |LostIds(places)|
  }

  ghost function LostIds(places: map<Id, Place>): set<Id>
  {
    set id | id in places && places[id].Lost?
  }

  ghost predicate AcceptedFit(places: map<Id, Place>, submitted: set<Id>)
  {
    forall id :: id in submitted <==> id in places && places[id] == Accepted
  }

  /** The losses that the callback should have counted, by the notices of the collector. */
  function Noticed(notices: multiset<C.Outcome>): multiset<Reason>
  {
    multiset{}[QueueExpired := notices[C.DroppedExpired]]
      [RetryExhausted := notices[C.DroppedRetryExhausted]][Shutdown := notices[C.DroppedShutdown]]
  }

  ghost predicate Inv(l: WorkLimits, cl: C.Limits, s: State)
  {
    && Accounted(l, s.queue, s.workers, s.jobs, s.jobBytes)
    && QueuePlaced(s.places, s.queue) && WorkersPlaced(s.places, s.workers) && CpusFit(s.workers, s.cpus)
    && SlotsFit(l, s.places, s.slots) && LossesFit(s.places, s.dropped)
    && AcceptedFit(s.places, s.collector.submitted) && CI.Inv(cl, s.collector)
    && s.reported == Noticed(s.collector.notices)
  }

  lemma {:induction false} NothingHeld(n: nat)
    ensures HeldJobs(seq(n, _ => Idle)) == 0 && HeldBytes(seq(n, _ => Idle)) == 0
  {
    if n > 0 {
      NothingHeld(n - 1);
      assert seq(n, _ => Idle)[..n - 1] == seq(n - 1, _ => Idle);
    }
  }

  lemma InitiallyInv(l: WorkLimits, cl: C.Limits)
    ensures Inv(l, cl, Started(l))
  {
    hide CI.Core, CI.Placed, CI.Reserved, CI.Truthful, CI.Bounded;
    NothingHeld(l.workers);
    CI.InitiallyInv(cl);
    forall r ensures Count(Started(l).places, Lost(r)) == 0 {
      assert KeysOf(Started(l).places, Lost(r)) == {};
    }
    assert SlotHolders(Started(l).places) == {} && LostIds(Started(l).places) == {};
  }

  // ----- one update at a time -----

  lemma {:induction false} HeldUpdate(ws: seq<Worker>, i: nat, w: Worker)
    requires i < |ws|
    ensures HeldJobs(ws[i := w]) == HeldJobs(ws) - (if Holds(ws[i]) then 1 else 0) + (if Holds(w) then 1 else 0)
    ensures HeldBytes(ws[i := w]) == HeldBytes(ws) - Weight(ws[i]) + Weight(w)
    decreases |ws|
  {
    var n := |ws| - 1;
    if i < n {
      assert ws[i := w][..n] == ws[..n][i := w];
      HeldUpdate(ws[..n], i, w);
    } else {
      assert ws[i := w][..n] == ws[..n];
    }
  }

  lemma {:induction false} QueueSnoc(q: seq<Job>, job: Job)
    ensures QueueBytes(q + [job]) == QueueBytes(q) + job.size
  {
    if q != [] {
      QueueSnoc(q[1..], job);
      assert (q + [job])[1..] == q[1..] + [job];
    } else {
      assert q + [job] == [job];
    }
  }

  lemma LosingKeepsLosses(places: map<Id, Place>, dropped: multiset<Reason>, id: Id, r: Reason)
    requires LossesFit(places, dropped) && (id in places ==> !places[id].Lost?)
    ensures LossesFit(places[id := Lost(r)], dropped + multiset{r})
  {
    hide Count;
    assert LostIds(places[id := Lost(r)]) == LostIds(places) + {id};
    if id in places {
      CountReplace(places, id, Lost(r));
    } else {
      CountInsert(places, id, Lost(r));
    }
  }

  lemma MovingKeepsLosses(places: map<Id, Place>, dropped: multiset<Reason>, id: Id, p: Place)
    requires LossesFit(places, dropped) && !p.Lost? && (id in places ==> !places[id].Lost?)
    ensures LossesFit(places[id := p], dropped)
  {
    assert LostIds(places[id := p]) == LostIds(places);
    forall r ensures Count(places[id := p], Lost(r)) == Count(places, Lost(r)) {
      assert KeysOf(places[id := p], Lost(r)) == KeysOf(places, Lost(r));
    }
  }

  lemma SlotsAfter(places: map<Id, Place>, id: Id, p: Place)
    ensures
      var had := id in places && HasSlot(places[id]);
      |SlotHolders(places[id := p])| == |SlotHolders(places)| - (if had then 1 else 0) + (if HasSlot(p) then 1 else 0)
  {
    hide HasSlot;
    var rest := SlotHolders(places) - {id};
    assert SlotHolders(places[id := p]) == if HasSlot(p) then rest + {id} else rest;
  }

  lemma {:induction false} CallsCount(reported: multiset<Reason>, o: C.Outcome, n: nat)
    ensures Calls(reported, o, n) ==
              reported + (if NoticeReason(o).Some? then C.Copies(NoticeReason(o).value, n) else multiset{})
  {
    if n > 0 {
      CallsCount(reported, o, n - 1);
    }
  }

  lemma CallAllCounts(reported: multiset<Reason>, news: multiset<C.Outcome>)
    ensures CallAll(reported, news) == reported + Noticed(news)
  {
    hide Calls;
    var r1 := Calls(reported, C.Stored, news[C.Stored]);
    var r2 := Calls(r1, C.AckUnknown, news[C.AckUnknown]);
    var r3 := Calls(r2, C.DroppedExpired, news[C.DroppedExpired]);
    var r4 := Calls(r3, C.DroppedShutdown, news[C.DroppedShutdown]);
    CallsCount(reported, C.Stored, news[C.Stored]);
    CallsCount(r1, C.AckUnknown, news[C.AckUnknown]);
    CallsCount(r2, C.DroppedExpired, news[C.DroppedExpired]);
    CallsCount(r3, C.DroppedShutdown, news[C.DroppedShutdown]);
    CallsCount(r4, C.DroppedRetryExhausted, news[C.DroppedRetryExhausted]);
    assert r2 == reported;
  }

  lemma OneNotice(notices: multiset<C.Outcome>, o: C.Outcome)
    ensures Noticed(notices + multiset{o}) == Call(Noticed(notices), o)
  {
    hide Noticed;
    forall r: Reason ensures Noticed(notices + multiset{o})[r] == Call(Noticed(notices), o)[r] {
      NoticedAt(notices, r);
      NoticedAt(notices + multiset{o}, r);
    }
  }

  lemma NoticedAt(notices: multiset<C.Outcome>, r: Reason)
    ensures Noticed(notices)[r] == match r
                                   case QueueExpired => notices[C.DroppedExpired]
                                   case RetryExhausted => notices[C.DroppedRetryExhausted]
                                   case Shutdown => notices[C.DroppedShutdown]
                                   case _ => 0
  {
  }

  lemma NoticedAdds(before: multiset<C.Outcome>, after: multiset<C.Outcome>)
    requires before <= after
    ensures Noticed(before) + Noticed(after - before) == Noticed(after)
  {
  }

  /** Calling back for the new notices brings the metric up to date. */
  lemma CallingKeepsReports(before: multiset<C.Outcome>, after: multiset<C.Outcome>)
    requires before <= after
    ensures CallAll(Noticed(before), after - before) == Noticed(after)
  {
    hide CallAll, Noticed;
    CallAllCounts(Noticed(before), after - before);
    NoticedAdds(before, after);
  }

  /** A request moves between places outside the queue and the workers. */
  lemma MoveOutside(places: map<Id, Place>, queue: seq<Job>, workers: seq<Worker>, id: Id, p: Place)
    requires QueuePlaced(places, queue) && WorkersPlaced(places, workers)
    requires id in places ==> places[id].Serving? || places[id].Closing?
    requires p != Queued && p != Held
    ensures QueuePlaced(places[id := p], queue) && WorkersPlaced(places[id := p], workers)
  {
  }

  lemma Enqueued(places: map<Id, Place>, queue: seq<Job>, job: Job)
    requires QueuePlaced(places, queue) && (job.id in places ==> places[job.id] != Queued)
    ensures QueuePlaced(places[job.id := Queued], queue + [job])
  {
    var q := queue + [job];
    assert forall i :: 0 <= i < |queue| ==> q[i] == queue[i];
    assert q[|queue|] == job;
  }

  lemma Dequeued(places: map<Id, Place>, queue: seq<Job>, p: Place)
    requires QueuePlaced(places, queue) && queue != [] && p != Queued
    ensures QueuePlaced(places[queue[0].id := p], queue[1..])
  {
    var rest := queue[1..];
    assert forall i :: 0 <= i < |rest| ==> rest[i] == queue[i + 1];
    forall id | id in places && id != queue[0].id && places[id] == Queued
      ensures exists i :: 0 <= i < |rest| && rest[i].id == id
    {
      var i :| 0 <= i < |queue| && queue[i].id == id;
      assert rest[i - 1] == queue[i];
    }
  }

  /** A queued or serving request changes place without any worker being concerned. */
  lemma OutsideWorkers(places: map<Id, Place>, workers: seq<Worker>, id: Id, p: Place)
    requires WorkersPlaced(places, workers) && p != Held
    requires id in places ==> places[id] != Held && !Final(places[id])
    ensures WorkersPlaced(places[id := p], workers)
  {
  }

  /** An idle worker takes a job. */
  lemma WorkerTakes(places: map<Id, Place>, workers: seq<Worker>, w: nat, frame: Worker)
    requires WorkersPlaced(places, workers) && w < |workers| && workers[w].Idle? && Unsettled(frame)
    requires frame.job.id in places && places[frame.job.id] == Queued
    ensures WorkersPlaced(places[frame.job.id := Held], workers[w := frame])
  {
    var places', workers' := places[frame.job.id := Held], workers[w := frame];
    assert workers'[w] == frame;
    forall i | 0 <= i < |workers'| ensures FramePlaced(places', workers'[i]) {
      assert i != w ==> FramePlaced(places, workers[i]);
    }
    forall id | id in places' && places'[id] == Held
      ensures exists i :: 0 <= i < |workers'| && Unsettled(workers'[i]) && workers'[i].job.id == id
    {
      if id != frame.job.id {
        var i :| 0 <= i < |workers| && Unsettled(workers[i]) && workers[i].job.id == id;
        assert workers'[i] == workers[i];
      }
    }
  }

  /** A worker settles its job, and keeps it, gives it back, or leaves. */
  lemma WorkerSettles(places: map<Id, Place>, workers: seq<Worker>, w: nat, p: Place, frame: Worker)
    requires WorkersPlaced(places, workers) && w < |workers| && Unsettled(workers[w]) && Final(p)
    requires Holds(frame) ==> frame.job == workers[w].job && !Unsettled(frame)
    ensures WorkersPlaced(places[workers[w].job.id := p], workers[w := frame])
  {
    var id0 := workers[w].job.id;
    var places', workers' := places[id0 := p], workers[w := frame];
    assert workers'[w] == frame;
    assert FramePlaced(places, workers[w]);
    forall i | 0 <= i < |workers'| ensures FramePlaced(places', workers'[i]) {
      assert i != w ==> FramePlaced(places, workers[i]) && workers'[i] == workers[i];
    }
    forall id | id in places' && places'[id] == Held
      ensures exists i :: 0 <= i < |workers'| && Unsettled(workers'[i]) && workers'[i].job.id == id
    {
      var i :| 0 <= i < |workers| && Unsettled(workers[i]) && workers[i].job.id == id;
      assert workers'[i] == workers[i];
    }
  }

  /** A worker changes its frame without settling anything. */
  lemma WorkerMoves(places: map<Id, Place>, workers: seq<Worker>, w: nat, frame: Worker)
    requires WorkersPlaced(places, workers) && w < |workers|
    requires Unsettled(workers[w]) <==> Unsettled(frame)
    requires Holds(frame) ==> Holds(workers[w]) && frame.job == workers[w].job
    ensures WorkersPlaced(places, workers[w := frame])
  {
    var workers' := workers[w := frame];
    assert workers'[w] == frame && FramePlaced(places, workers[w]);
    forall id | id in places && places[id] == Held
      ensures exists i :: 0 <= i < |workers'| && Unsettled(workers'[i]) && workers'[i].job.id == id
    {
      var i :| 0 <= i < |workers| && Unsettled(workers[i]) && workers[i].job.id == id;
      assert i != w ==> workers'[i] == workers[i];
      assert Unsettled(workers'[i]) && workers'[i].job.id == id;
    }
  }

  /** A queued job changes place, workers being unconcerned. */
  lemma QueueUnmoved(places: map<Id, Place>, queue: seq<Job>, id: Id, p: Place)
    requires QueuePlaced(places, queue) && p != Queued && (id in places ==> places[id] != Queued)
    ensures QueuePlaced(places[id := p], queue)
  {
  }

  // ----- computations -----

  lemma CpuStarts(workers: seq<Worker>, cpus: map<FutureId, Cpu>, w: nat, frame: Worker)
    requires CpusFit(workers, cpus) && w < |workers| && Holds(frame) && frame.future !in cpus
    requires Holds(workers[w]) ==> !cpus[workers[w].future].Computing?
    ensures CpusFit(workers[w := frame], cpus[frame.future := Computing])
  {
    var workers', cpus' := workers[w := frame], cpus[frame.future := Computing];
    assert workers'[w] == frame;
    forall f | f in cpus' && cpus'[f].Computing?
      ensures exists i :: 0 <= i < |workers'| && Holds(workers'[i]) && workers'[i].future == f
    {
      if f != frame.future {
        var i :| 0 <= i < |workers| && Holds(workers[i]) && workers[i].future == f;
        assert i != w && workers'[i] == workers[i];
      }
    }
  }

  /** A worker keeps its computation, or gives up one that is not running. */
  lemma CpuStays(workers: seq<Worker>, cpus: map<FutureId, Cpu>, w: nat, frame: Worker)
    requires CpusFit(workers, cpus) && w < |workers|
    requires Holds(frame) ==> Holds(workers[w]) && frame.future == workers[w].future
    requires Holds(workers[w]) && !Holds(frame) ==> !cpus[workers[w].future].Computing?
    ensures CpusFit(workers[w := frame], cpus)
  {
    var workers' := workers[w := frame];
    assert workers'[w] == frame;
    forall f | f in cpus && cpus[f].Computing?
      ensures exists i :: 0 <= i < |workers'| && Holds(workers'[i]) && workers'[i].future == f
    {
      var i :| 0 <= i < |workers| && Holds(workers[i]) && workers[i].future == f;
      assert i != w ==> workers'[i] == workers[i];
      assert Holds(workers'[i]) && workers'[i].future == f;
    }
  }

  lemma CpuEnds(workers: seq<Worker>, cpus: map<FutureId, Cpu>, f: FutureId, how: Cpu)
    requires CpusFit(workers, cpus) && f in cpus && !how.Computing?
    ensures CpusFit(workers, cpus[f := how])
  {
  }
}
