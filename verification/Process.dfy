/** One process: hot replacement of the configuration interleaved with the requests that it governs. */
module Process {
  import opened Options
  import Cfg = Configuration
  import W = WorkModel
  import WI = WorkInvariant
  import WS = WorkSteps
  import C = CollectorModel

  /** The configuration and the requests, after the runtime has started with its validator registered. */
  datatype State = State(manager: Cfg.Manager, work: W.State)

  datatype Move = Configure(change: Cfg.Move) | Serve(action: W.Action)

  /** A request takes its shadow slots from the snapshot that is current when it arrives. */
  function LimitsNow(l: W.WorkLimits, m: Cfg.Manager): W.WorkLimits
  {
    if m.current.Some? then l.(shadowSlots := m.current.value.budgets.shadowMaxInflight) else l
  }

  ghost predicate Possible(cl: C.Limits, s: State, a: Move)
  {
    match a
    case Configure(change) => Cfg.Possible(s.manager, change)
    case Serve(action) => W.Enabled(cl, s.work, action)
  }

  ghost function Step(l: W.WorkLimits, cl: C.Limits, s: State, a: Move): State
    requires Possible(cl, s, a)
  {
    match a
    case Configure(change) => s.(manager := Cfg.Step(s.manager, change))
    case Serve(action) => s.(work := W.Apply(LimitsNow(l, s.manager), cl, s.work, action))
  }

  /** The runtime's validator is the given one, and holds the process to the budgets of the current snapshot. */
  ghost predicate HeldToBudgets(m: Cfg.Manager, v: nat)
  {
    && Cfg.Inv(m) && v < |m.validators| && m.current.Some?
    && m.validators[v].initial == Some(m.current.value.budgets)
  }

  ghost predicate Run(l: W.WorkLimits, cl: C.Limits, v: nat, ss: seq<State>, moves: seq<Move>)
  {
    && |ss| == |moves| + 1
    && HeldToBudgets(ss[0].manager, v) && ss[0].work == W.Started(LimitsNow(l, ss[0].manager))
    && forall i :: 0 <= i < |moves| ==> Possible(cl, ss[i], moves[i]) && ss[i + 1] == Step(l, cl, ss[i], moves[i])
  }

  /** Starting the runtime is what holds the process to its budgets. */
  lemma StartHoldsToBudgets(m: Cfg.Manager, v: nat)
    requires Cfg.Inv(m) && v < |m.validators| && m.current.Some? && m.validators[v].initial.None?
    ensures HeldToBudgets(Cfg.Fix(m, v), v)
  {
    hide Cfg.Chained, Cfg.EndsAt, Cfg.Revisions, Cfg.SnapshotOk;
    Cfg.StepKeepsInv(m, Cfg.DoFix(v));
  }

  lemma ChangesKeepBudgets(m: Cfg.Manager, v: nat, change: Cfg.Move)
    requires HeldToBudgets(m, v) && Cfg.Possible(m, change)
    ensures HeldToBudgets(Cfg.Step(m, change), v)
    ensures Cfg.Step(m, change).current.value.budgets == m.current.value.budgets
  {
    hide Cfg.Chained, Cfg.EndsAt, Cfg.Revisions, Cfg.SnapshotOk, Cfg.Step;
    var m' := Cfg.Step(m, change);
    Cfg.StepKeepsInv(m, change);
    Cfg.StepGrows(m, change);
    StillConfigured(m, change);
    assert Cfg.Stricter(m.validators[v], m'.validators[v]);
    assert Cfg.Passes(m'.validators[v], m'.current.value);
  }

  lemma StillConfigured(m: Cfg.Manager, change: Cfg.Move)
    requires m.current.Some? && Cfg.Possible(m, change)
    ensures Cfg.Step(m, change).current.Some?
  {
    hide Cfg.SnapshotOk, Cfg.Passes;
  }

  lemma {:induction false} RunKeepsInv(
    l: W.WorkLimits, cl: C.Limits, v: nat, ss: seq<State>, moves: seq<Move>, i: nat)
    requires C.ValidLimits(cl) && Run(l, cl, v, ss, moves) && i < |ss|
    ensures HeldToBudgets(ss[i].manager, v)
    ensures ss[i].manager.current.value.budgets == ss[0].manager.current.value.budgets
    ensures WI.Inv(LimitsNow(l, ss[i].manager), cl, ss[i].work)
  {
    hide C.ValidLimits, WI.Inv, HeldToBudgets, W.Enabled, W.Apply, Cfg.Possible, Cfg.Step;
    if i == 0 {
      WI.InitiallyInv(LimitsNow(l, ss[0].manager), cl);
    } else {
      RunKeepsInv(l, cl, v, ss, moves, i - 1);
      assert ss[i] == Step(l, cl, ss[i - 1], moves[i - 1]);
      StillConfiguredBy(ss[i - 1].manager, v);
      match moves[i - 1]
      case Configure(change) =>
        ChangesKeepBudgets(ss[i - 1].manager, v, change);
        StillConfiguredBy(ss[i].manager, v);
        assert LimitsNow(l, ss[i].manager) == LimitsNow(l, ss[i - 1].manager);
      case Serve(action) => WS.StepKeepsInv(LimitsNow(l, ss[i - 1].manager), cl, ss[i - 1].work, action);
    }
  }

  lemma StillConfiguredBy(m: Cfg.Manager, v: nat)
    requires HeldToBudgets(m, v)
    ensures m.current.Some?
  {
  }

  /**
   However replacements of the configuration and steps of requests interleave, the shadow slots given
   out are the pairs that hold one, and never more than the current snapshot allows.
   */
  lemma SlotsFollowTheConfiguration(
    l: W.WorkLimits, cl: C.Limits, v: nat, ss: seq<State>, moves: seq<Move>, i: nat)
    requires C.ValidLimits(cl) && Run(l, cl, v, ss, moves) && i < |ss|
    ensures ss[i].manager.current.Some?
    ensures ss[i].work.slots == |WI.SlotHolders(ss[i].work.places)|
    ensures 0 <= ss[i].work.slots <= ss[i].manager.current.value.budgets.shadowMaxInflight
  {
    hide C.ValidLimits, Run, WI.CI.Inv, WI.Accounted, WI.QueuePlaced, WI.WorkersPlaced, WI.CpusFit, WI.LossesFit,
      WI.SlotHolders, Cfg.Inv;
    RunKeepsInv(l, cl, v, ss, moves, i);
  }
}
