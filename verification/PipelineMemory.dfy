/** The memory that the comparison pipeline really keeps, against the account by which it admits jobs. */
module PipelineMemory {
  import opened Options
  import opened WorkModel
  import opened WorkInvariant
  import opened WorkSteps
  import opened WorkTheorems
  import C = CollectorModel
  import P = ComparisonPipelineObject

  /** What the request's pair of responses hands over, if it comes to that. */
  type Pairs = Id -> P.Pair

  predicate InPipeline(s: State, job: Job)
  {
    job in s.queue || exists w :: 0 <= w < |s.workers| && Holds(s.workers[w]) && s.workers[w].job == job
  }

  /** The step hands the job over. */
  predicate HandsOver(a: Action, job: Job)
  {
    a.DoFinalize? && a.id == job.id && a.size == Some(job.size) && a.now == job.submitted
  }

  /** Jobs enter the pipeline only from a finalized pair, and are not altered in it. */
  ghost predicate JobsFrom(s: State, a: Action, s': State)
  {
    forall job :: InPipeline(s', job) ==> InPipeline(s, job) || HandsOver(a, job)
  }

  lemma SameWorkers(s: State, a: Action, s': State)
    requires s'.workers == s.workers && forall job :: job in s'.queue ==> job in s.queue || HandsOver(a, job)
    ensures JobsFrom(s, a, s')
  {
  }

  lemma OneWorkerMoves(s: State, a: Action, s': State, w: nat, frame: Worker)
    requires w < |s.workers| && s'.workers == s.workers[w := frame]
    requires forall job :: job in s'.queue ==> job in s.queue
    requires Holds(frame) ==> InPipeline(s, frame.job)
    ensures JobsFrom(s, a, s')
  {
    forall job | InPipeline(s', job) ensures InPipeline(s, job) {
      if job !in s'.queue {
        var v :| 0 <= v < |s'.workers| && Holds(s'.workers[v]) && s'.workers[v].job == job;
        assert v != w ==> s'.workers[v] == s.workers[v];
      }
    }
  }

  lemma TakeFrom(l: WorkLimits, s: State, a: Action)
    requires a.DoTake? && a.w < |s.workers| && s.queue != []
    ensures JobsFrom(s, a, Take(l, s, a.w, a.now, a.f, a.started))
  {
    var s' := Take(l, s, a.w, a.now, a.f, a.started);
    assert s.queue[0] in s.queue;
    assert s'.workers == s.workers[a.w := s'.workers[a.w]];
    OneWorkerMoves(s, a, s', a.w, s'.workers[a.w]);
  }

  lemma HeldFrom(s: State, a: Action, s': State, w: nat)
    requires w < |s.workers| && Holds(s.workers[w]) && |s'.workers| == |s.workers| && s'.queue == s.queue
    requires s'.workers == s.workers[w := s'.workers[w]]
    requires Holds(s'.workers[w]) ==> s'.workers[w].job == s.workers[w].job
    ensures JobsFrom(s, a, s')
  {
    OneWorkerMoves(s, a, s', w, s'.workers[w]);
  }

  lemma CancelFrom(s: State, a: Action)
    requires a.DoCancel? && CanCancel(s, a.w)
    ensures JobsFrom(s, a, Cancel(s, a.w))
  {
    var s' := Cancel(s, a.w);
    OneWorkerMoves(s, a, s', a.w, s'.workers[a.w]);
  }

  lemma CompareFrom(cl: C.Limits, s: State, a: Action)
    requires a.DoCompareEnds? && a.w < |s.workers| && s.workers[a.w].Comparing? && s.workers[a.w].future in s.cpus
    ensures JobsFrom(s, a, CompareEnds(cl, s, a.w, a.next))
  {
    hide Offer, JobsFrom;
    HeldFrom(s, a, CompareEnds(cl, s, a.w, a.next), a.w);
  }

  lemma DetailFrom(cl: C.Limits, s: State, a: Action)
    requires (a.DoDetailEnds? || a.DoDetailTimesOut?) && a.w < |s.workers| && s.workers[a.w].Detailing?
    requires s.workers[a.w].future in s.cpus
    ensures a.DoDetailEnds? ==> JobsFrom(s, a, DetailEnds(cl, s, a.w, a.payload, a.now))
    ensures a.DoDetailTimesOut? ==> JobsFrom(s, a, DetailTimesOut(cl, s, a.w, a.payload, a.now))
  {
    hide Offer, JobsFrom;
    if a.DoDetailEnds? {
      HeldFrom(s, a, DetailEnds(cl, s, a.w, a.payload, a.now), a.w);
    } else {
      HeldFrom(s, a, DetailTimesOut(cl, s, a.w, a.payload, a.now), a.w);
    }
  }

  lemma {:induction false} DrainFrom(s: State)
    ensures Drain(s).workers == s.workers && Drain(s).queue == []
    decreases |s.queue|
  {
    if s.queue != [] {
      DrainFrom(DropHead(s, Shutdown));
    }
  }

  lemma FinalizeFrom(l: WorkLimits, s: State, a: Action)
    requires a.DoFinalize? && a.id in s.places
    ensures JobsFrom(s, a, Finalize(l, s, a.id, a.size, a.now))
  {
    hide HasRoom, JobsFrom;
    SameWorkers(s, a, Finalize(l, s, a.id, a.size, a.now));
  }

  lemma StepFrom(l: WorkLimits, cl: C.Limits, s: State, a: Action)
    requires Enabled(cl, s, a)
    ensures JobsFrom(s, a, Apply(l, cl, s, a))
  {
    hide JobsFrom, Take, CompareEnds, DetailEnds, DetailTimesOut, Cancel, Drain, Finalize, C.Enabled, C.Apply, Offer,
      InPipeline;
    match a
    case DoFinalize(_, _, _) => FinalizeFrom(l, s, a);
    case DoTake(_, _, _, _) => TakeFrom(l, s, a);
    case DoCompareEnds(_, _) => CompareFrom(cl, s, a);
    case DoDetailTimesOut(_, _, _) => DetailFrom(cl, s, a);
    case DoDetailEnds(_, _, _) => DetailFrom(cl, s, a);
    case DoCompareTimesOut(w) => HeldFrom(s, a, CompareTimesOut(s, w), w);
    case DoWaitEnds(w) => HeldFrom(s, a, WaitEnds(s, w), w);
    case DoCancel(_) => CancelFrom(s, a);
    case DoDrain =>
      DrainFrom(s);
      SameWorkers(s, a, Drain(s));
    case _ => SameWorkers(s, a, Apply(l, cl, s, a));
  }

  // ----- what is charged is what is kept -----

  /** Every job in the pipeline has been charged what its pair costs. */
  ghost predicate Charged(pairs: Pairs, s: State)
  {
    forall job :: InPipeline(s, job) ==> job.size == P.SizeOf(pairs(job.id))
  }

  /** Each pair is handed over with its own cost. */
  ghost predicate Honest(pairs: Pairs, a: Action)
  {
    a.DoFinalize? && a.size.Some? ==> a.size.value == P.SizeOf(pairs(a.id))
  }

  lemma {:induction false} RunCharges(
    l: WorkLimits, cl: C.Limits, pairs: Pairs, ss: seq<State>, actions: seq<Action>, i: nat)
    requires Run(l, cl, ss, actions) && i < |ss| && forall k :: 0 <= k < i ==> Honest(pairs, actions[k])
    ensures Charged(pairs, ss[i])
  {
    hide Enabled, Apply, P.SizeOf, InPipeline;
    if i == 0 {
      NothingInPipeline(l);
    } else {
      RunCharges(l, cl, pairs, ss, actions, i - 1);
      StepFrom(l, cl, ss[i - 1], actions[i - 1]);
    }
  }

  lemma NothingInPipeline(l: WorkLimits)
    ensures forall job :: !InPipeline(Started(l), job)
  {
  }

  /** The bytes that the jobs of a queue keep, and those of the jobs in the workers' frames. */
  ghost function QueueKept(pairs: Pairs, queue: seq<Job>): nat
  {
    if queue == [] then 0 else |P.KeptBytes(pairs(queue[0].id))| + QueueKept(pairs, queue[1..])
  }

  ghost function HeldKept(pairs: Pairs, ws: seq<Worker>): nat
  {
    if ws == [] then 0
    else
      var last := ws[|ws| - 1];
      HeldKept(pairs, ws[..|ws| - 1]) + if Holds(last) then |P.KeptBytes(pairs(last.job.id))| else 0
  }

  lemma {:induction false} QueueIsCharged(pairs: Pairs, queue: seq<Job>)
    requires forall job :: job in queue ==> job.size == P.SizeOf(pairs(job.id))
    ensures QueueKept(pairs, queue) + 4096 * |queue| <= QueueBytes(queue)
  {
    hide P.SizeOf, P.KeptBytes;
    if queue != [] {
      P.JobsAreCharged(pairs(queue[0].id));
      QueueIsCharged(pairs, queue[1..]);
    }
  }

  lemma {:induction false} HeldAreCharged(pairs: Pairs, ws: seq<Worker>)
    requires forall w :: 0 <= w < |ws| && Holds(ws[w]) ==> ws[w].job.size == P.SizeOf(pairs(ws[w].job.id))
    ensures HeldKept(pairs, ws) + 4096 * HeldJobs(ws) <= HeldBytes(ws)
  {
    hide P.SizeOf, P.KeptBytes;
    if ws != [] {
      var n := |ws| - 1;
      assert forall w :: 0 <= w < n ==> ws[..n][w] == ws[w];
      HeldAreCharged(pairs, ws[..n]);
      if Holds(ws[n]) {
        P.JobsAreCharged(pairs(ws[n].job.id));
      }
    }
  }

  /**
   In every run in which pairs are handed over with their own cost, the bodies, summaries and headers
   kept by all queued and held jobs, and 4096 bytes for each job, fit the account and so its limit.
   */
  lemma KeptFitsTheLimit(
    l: WorkLimits, cl: C.Limits, pairs: Pairs, ss: seq<State>, actions: seq<Action>, i: nat)
    requires C.ValidLimits(cl) && Run(l, cl, ss, actions) && i < |ss|
    requires forall k :: 0 <= k < i ==> Honest(pairs, actions[k])
    ensures
      var s := ss[i];
      QueueKept(pairs, s.queue) + HeldKept(pairs, s.workers) + 4096 * s.jobs <= s.jobBytes <= l.maxBytes
  {
    hide C.ValidLimits, Run, P.SizeOf, P.KeptBytes, QueuePlaced, WorkersPlaced, CpusFit, SlotsFit, LossesFit, AcceptedFit,
      Noticed;
    RunKeepsInv(l, cl, ss, actions, i);
    RunCharges(l, cl, pairs, ss, actions, i);
    var s := ss[i];
    assert forall job :: job in s.queue ==> InPipeline(s, job);
    assert forall w :: 0 <= w < |s.workers| && Holds(s.workers[w]) ==> InPipeline(s, s.workers[w].job);
    QueueIsCharged(pairs, s.queue);
    HeldAreCharged(pairs, s.workers);
    AccountIs(l, cl, s);
  }

  lemma AccountIs(l: WorkLimits, cl: C.Limits, s: State)
    requires Inv(l, cl, s)
    ensures s.jobs == |s.queue| + HeldJobs(s.workers)
    ensures s.jobBytes == QueueBytes(s.queue) + HeldBytes(s.workers) <= l.maxBytes
  {
    hide QueuePlaced, WorkersPlaced, CpusFit, SlotsFit, LossesFit, AcceptedFit, Noticed;
  }
}
