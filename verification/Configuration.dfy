/** Replacing the routing snapshot: the revision check, the validators, and the history of changes. */
module Configuration {
  import opened Options
  import opened Routing

  datatype Budgets = Budgets(
    servingTimeout: real, shadowTimeout: real, sendTimeout: real, shutdownGrace: real,
    servingMaxInflight: nat, shadowMaxInflight: nat, requestCaptureLimit: nat, responseCaptureLimit: nat)

  datatype Snapshot = Snapshot(
    revision: string, previous: Option<string>, reason: string, routes: seq<Route>, allowed: set<string>, budgets: Budgets)

  /** What the constructors of the snapshot and of its routes have checked. */
  ghost predicate SnapshotOk(s: Snapshot)
  {
    && s.previous != Some(s.revision) && RoutesOk(s.routes, s.allowed) && forall r :: r in s.routes ==> RouteOk(r)
  }

  /** The runtime's validator, with what its closure captures. */
  datatype Validator = Validator(initial: Option<Budgets>, metered: set<string>, policies: set<string>)

  predicate RoutePasses(v: Validator, r: Route)
  {
    r.id in v.metered && (r.policy.Some? && r.policy.value != "" ==> r.policy.value in v.policies)
  }

  predicate Passes(v: Validator, s: Snapshot)
  {
    (v.initial.Some? ==> s.budgets == v.initial.value) && forall i :: 0 <= i < |s.routes| ==> RoutePasses(v, s.routes[i])
  }

  datatype Record = Record(revision: string, previous: Option<string>, actor: string, reason: string)

  datatype Manager = Manager(
    current: Option<Snapshot>, history: seq<Record>, used: set<string>, validators: seq<Validator>, limit: nat)

  function New(limit: nat): Manager
  {
    Manager(None, [], {}, [], limit)
  }

  function RevisionOf(current: Option<Snapshot>): Option<string>
  {
    if current.Some? then Some(current.value.revision) else None
  }

  datatype Refusal = BlankActor | StaleRevision | UsedRevision | HistoryFull | ValidatorRefuses

  function Refuses(m: Manager, s: Snapshot, actor: string, expected: Option<string>): Option<Refusal>
  {
    var previous := RevisionOf(m.current);
    if Blank(actor) then Some(BlankActor)
    else if previous != expected || (previous.Some? && s.previous != previous) then Some(StaleRevision)
    else if s.revision in m.used then Some(UsedRevision)
    else if |m.used| >= m.limit then Some(HistoryFull)
    else if exists i :: 0 <= i < |m.validators| && !Passes(m.validators[i], s) then Some(ValidatorRefuses)
    else None
  }

  /** `deque(maxlen=limit).append`: the oldest record goes when there is no room. */
  function Append(history: seq<Record>, r: Record, limit: nat): seq<Record>
  {
    if |history| >= limit && history != [] then history[1..] + [r] else history + [r]
  }

  function Replace(m: Manager, s: Snapshot, actor: string, expected: Option<string>): Manager
  {
    if Refuses(m, s, actor, expected).Some? then m
    else
      var r := Record(s.revision, RevisionOf(m.current), actor, s.reason);
      m.(current := Some(s), used := m.used + {s.revision}, history := Append(m.history, r, m.limit))
  }

  function Register(m: Manager, v: Validator): Manager
  {
    if m.current.Some? && !Passes(v, m.current.value) then m else m.(validators := m.validators + [v])
  }

  /** The runtime starts: from now on its validator holds the process to the budgets it started with. */
  function Fix(m: Manager, i: nat): Manager
    requires i < |m.validators|
  {
    if m.current.None? || !Passes(m.validators[i], m.current.value) then m
    else m.(validators := m.validators[i := m.validators[i].(initial := Some(m.current.value.budgets))])
  }

  datatype Move =
    | DoReplace(snapshot: Snapshot, actor: string, expected: Option<string>)
    | DoRegister(validator: Validator)
    | DoFix(index: nat)

  ghost predicate Possible(m: Manager, a: Move)
  {
    (a.DoReplace? ==> SnapshotOk(a.snapshot))
    && (a.DoFix? ==> a.index < |m.validators| && m.validators[a.index].initial.None?)
  }

  function Step(m: Manager, a: Move): Manager
    requires a.DoFix? ==> a.index < |m.validators|
  {
    match a
    case DoReplace(s, actor, expected) => Replace(m, s, actor, expected)
    case DoRegister(v) => Register(m, v)
    case DoFix(i) => Fix(m, i)
  }

  // ----- when a change is refused -----

  /** What each refusal says of the manager and the change. */
  ghost predicate Cause(m: Manager, s: Snapshot, actor: string, expected: Option<string>, x: Refusal)
  {
    match x
    case BlankActor => forall c :: c in actor ==> WhiteSpace(c)
    case StaleRevision =>
      if m.current.None? then expected != None
      else expected != Some(m.current.value.revision) || s.previous != Some(m.current.value.revision)
    case UsedRevision => s.revision in m.used
    case HistoryFull => |m.used| >= m.limit
    case ValidatorRefuses => exists v :: v in m.validators && !Passes(v, s)
  }

  function Order(x: Refusal): nat
  {
    match x
    case BlankActor => 0
    case StaleRevision => 1
    case UsedRevision => 2
    case HistoryFull => 3
    case ValidatorRefuses => 4
  }

  /** A change is refused exactly when something is against it, and for the first of the tests that fails. */
  lemma RefusalIsExact(m: Manager, s: Snapshot, actor: string, expected: Option<string>, x: Refusal)
    ensures Refuses(m, s, actor, expected) == Some(x) <==>
              Cause(m, s, actor, expected, x) && forall y :: Cause(m, s, actor, expected, y) ==> Order(x) <= Order(y)
  {
    hide Passes;
    RefusalHasCause(m, s, actor, expected);
  }

  lemma RefusalHasCause(m: Manager, s: Snapshot, actor: string, expected: Option<string>)
    ensures
      var refusal := Refuses(m, s, actor, expected);
      if refusal.None? then forall y :: !Cause(m, s, actor, expected, y)
      else
        Cause(m, s, actor, expected, refusal.value)
        && forall y :: Cause(m, s, actor, expected, y) ==> Order(refusal.value) <= Order(y)
  {
    hide Passes;
    BlankIs(actor);
    forall v | v in m.validators && !Passes(v, s)
      ensures exists i :: 0 <= i < |m.validators| && !Passes(m.validators[i], s)
    {
      var i :| 0 <= i < |m.validators| && m.validators[i] == v;
    }
  }

  lemma BlankIs(text: string)
    ensures Blank(text) <==> forall c :: c in text ==> WhiteSpace(c)
  {
    if forall c :: c in text ==> WhiteSpace(c) {
      assert forall i :: 0 <= i < |text| ==> text[i] in text;
    }
  }

  /** The runtime's validator passes exactly the snapshots with its budgets whose routes it can meter and compare. */
  lemma PassingIsExact(v: Validator, s: Snapshot)
    ensures Passes(v, s) <==>
              && (forall budgets :: v.initial == Some(budgets) ==> s.budgets == budgets)
              && (forall r :: r in s.routes ==> r.id in v.metered)
              && (forall r, policy :: r in s.routes && r.policy == Some(policy) && policy != "" ==> policy in v.policies)
  {
    if Passes(v, s) {
      forall r | r in s.routes ensures RoutePasses(v, r) {
        var i :| 0 <= i < |s.routes| && s.routes[i] == r;
      }
    } else if v.initial.Some? ==> s.budgets == v.initial.value {
      var i :| 0 <= i < |s.routes| && !RoutePasses(v, s.routes[i]);
      assert s.routes[i] in s.routes;
    }
  }

  // ----- the invariant -----

  ghost function Revisions(history: seq<Record>): set<string>
  {
    set r | r in history :: r.revision
  }

  /** Each change starts from the revision that the one before it made, and no revision comes back. */
  ghost predicate Chained(history: seq<Record>)
  {
    && (history != [] ==> history[0].previous == None)
    && (forall i :: 0 < i < |history| ==> history[i].previous == Some(history[i - 1].revision))
    && (forall i, j :: 0 <= i < j < |history| ==> history[i].revision != history[j].revision)
  }

  ghost predicate EndsAt(history: seq<Record>, current: Option<Snapshot>)
  {
    if current.None? then history == []
    else
      && history != [] && history[|history| - 1].revision == current.value.revision
      && history[|history| - 1].reason == current.value.reason
  }

  ghost predicate Inv(m: Manager)
  {
    && Chained(m.history) && EndsAt(m.history, m.current)
    && m.used == Revisions(m.history) && |m.used| == |m.history| && |m.history| <= m.limit
    && (m.current.Some? ==> SnapshotOk(m.current.value))
    && (m.current.Some? ==> forall i :: 0 <= i < |m.validators| ==> Passes(m.validators[i], m.current.value))
  }

  lemma NewInv(limit: nat)
    ensures Inv(New(limit))
  {
    assert Revisions([]) == {};
  }

  /** A change that is applied appends its record; the bounded history never evicts one. */
  lemma ReplaceExtends(m: Manager, s: Snapshot, actor: string, expected: Option<string>)
    requires Inv(m) && Refuses(m, s, actor, expected).None?
    ensures Replace(m, s, actor, expected).history ==
              m.history + [Record(s.revision, RevisionOf(m.current), actor, s.reason)]
  {
    hide Chained, EndsAt, Revisions, SnapshotOk, Passes;
  }

  lemma RevisionsExtend(history: seq<Record>, r: Record)
    ensures Revisions(history + [r]) == Revisions(history) + {r.revision}
  {
    var more := history + [r];
    assert forall x :: x in more <==> x in history || x == r;
  }

  lemma ChainExtends(history: seq<Record>, r: Record)
    requires Chained(history) && r.revision !in Revisions(history)
    requires r.previous == if history == [] then None else Some(history[|history| - 1].revision)
    ensures Chained(history + [r])
  {
    var more := history + [r];
    forall i | 0 <= i < |history| ensures history[i].revision != r.revision {
      assert history[i] in history;
    }
  }

  lemma ReplaceKeepsInv(m: Manager, s: Snapshot, actor: string, expected: Option<string>)
    requires Inv(m) && SnapshotOk(s)
    ensures Inv(Replace(m, s, actor, expected))
  {
    hide SnapshotOk, Passes, Chained, Revisions, Blank;
    if Refuses(m, s, actor, expected).None? {
      ReplaceExtends(m, s, actor, expected);
      ChainExtends(m.history, Record(s.revision, RevisionOf(m.current), actor, s.reason));
      RevisionsExtend(m.history, Record(s.revision, RevisionOf(m.current), actor, s.reason));
    }
  }

  lemma StepKeepsInv(m: Manager, a: Move)
    requires Inv(m) && Possible(m, a)
    ensures Inv(Step(m, a))
  {
    hide Chained, EndsAt, Revisions, SnapshotOk;
    match a
    case DoReplace(s, actor, expected) => ReplaceKeepsInv(m, s, actor, expected);
    case DoRegister(v) =>
    case DoFix(i) =>
  }

  // ----- what every run keeps -----

  ghost predicate Run(limit: nat, ms: seq<Manager>, moves: seq<Move>)
  {
    && |ms| == |moves| + 1 && ms[0] == New(limit)
    && forall i :: 0 <= i < |moves| ==> Possible(ms[i], moves[i]) && ms[i + 1] == Step(ms[i], moves[i])
  }

  lemma {:induction false} RunKeepsInv(limit: nat, ms: seq<Manager>, moves: seq<Move>, i: nat)
    requires Run(limit, ms, moves) && i < |ms|
    ensures Inv(ms[i])
  {
    hide Inv, Step;
    if i == 0 {
      NewInv(limit);
    } else {
      RunKeepsInv(limit, ms, moves, i - 1);
      StepKeepsInv(ms[i - 1], moves[i - 1]);
    }
  }

  /** A refused change leaves the snapshot, the history and the revisions as they were. */
  lemma RefusedChangesNothing(m: Manager, s: Snapshot, actor: string, expected: Option<string>)
    requires Inv(m)
    ensures Refuses(m, s, actor, expected).Some? <==> Replace(m, s, actor, expected) == m
    ensures Refuses(m, s, actor, expected).None? ==>
              Replace(m, s, actor, expected).current == Some(s) && s.revision !in m.used && RevisionOf(m.current) == expected
  {
    hide Chained, EndsAt, SnapshotOk, Passes;
  }

  /** The history only grows, and a validator only gets stricter. */
  ghost predicate Grows(m: Manager, m': Manager)
  {
    && m.history <= m'.history && m.used <= m'.used && |m.validators| <= |m'.validators|
    && forall i :: 0 <= i < |m.validators| ==> Stricter(m.validators[i], m'.validators[i])
  }

  ghost predicate Stricter(v: Validator, w: Validator)
  {
    w.metered == v.metered && w.policies == v.policies && (v.initial.Some? ==> w.initial == v.initial)
  }

  lemma StepGrows(m: Manager, a: Move)
    requires Inv(m) && Possible(m, a)
    ensures Grows(m, Step(m, a))
  {
    hide Inv, SnapshotOk, Passes;
    if a.DoReplace? && Refuses(m, a.snapshot, a.actor, a.expected).None? {
      ReplaceExtends(m, a.snapshot, a.actor, a.expected);
    }
  }

  lemma {:induction false} RunGrows(limit: nat, ms: seq<Manager>, moves: seq<Move>, i: nat, j: nat)
    requires Run(limit, ms, moves) && i <= j < |ms|
    ensures Grows(ms[i], ms[j])
    decreases j
  {
    hide Inv, Step, Possible;
    if i < j {
      RunGrows(limit, ms, moves, i, j - 1);
      RunKeepsInv(limit, ms, moves, j - 1);
      StepGrows(ms[j - 1], moves[j - 1]);
    }
  }

  /** Over any run the history is an unbroken chain of distinct revisions that ends at the current snapshot. */
  lemma HistoryIsAChain(limit: nat, ms: seq<Manager>, moves: seq<Move>, i: nat, j: nat)
    requires Run(limit, ms, moves) && i <= j < |ms|
    ensures ms[i].history <= ms[j].history && |ms[j].history| <= limit
    ensures Chained(ms[j].history) && EndsAt(ms[j].history, ms[j].current)
  {
    hide Step, Possible, Chained, EndsAt, SnapshotOk, Passes;
    RunGrows(limit, ms, moves, i, j);
    RunKeepsInv(limit, ms, moves, j);
    LimitStays(limit, ms, moves, j);
  }

  lemma {:induction false} LimitStays(limit: nat, ms: seq<Manager>, moves: seq<Move>, j: nat)
    requires Run(limit, ms, moves) && j < |ms|
    ensures ms[j].limit == limit
  {
    hide Refuses, Passes, Possible;
    if j > 0 {
      LimitStays(limit, ms, moves, j - 1);
      assert Possible(ms[j - 1], moves[j - 1]);
    }
  }

  /** Once the runtime has started, hot replacement never changes the budgets, the shadow slots among them. */
  lemma BudgetsAreFixed(limit: nat, ms: seq<Manager>, moves: seq<Move>, i: nat, j: nat, v: nat)
    requires Run(limit, ms, moves) && i <= j < |ms| && v < |ms[i].validators| && ms[i].validators[v].initial.Some?
    requires ms[i].current.Some? && ms[j].current.Some?
    ensures ms[j].current.value.budgets == ms[i].current.value.budgets
  {
    hide Step, Possible, Chained, EndsAt, SnapshotOk;
    RunGrows(limit, ms, moves, i, j);
    RunKeepsInv(limit, ms, moves, i);
    RunKeepsInv(limit, ms, moves, j);
    assert Stricter(ms[i].validators[v], ms[j].validators[v]);
    assert Passes(ms[i].validators[v], ms[i].current.value) && Passes(ms[j].validators[v], ms[j].current.value);
  }

  /** The test a request must pass to be selected for its shadow; `draw` is the sampled fraction. */
  predicate Selects(r: Route, draw: real)
  {
    r.rolloutEnabled && r.shadow.eligible && !r.shadow.stopped && draw < r.shadow.sampleRatio
  }

  /** The comparison policy of a selected request is always there to be looked up. */
  lemma SelectedHasPolicy(m: Manager, v: nat, r: Route, draw: real)
    requires Inv(m) && v < |m.validators| && m.current.Some? && r in m.current.value.routes
    requires 0.0 <= draw && Selects(r, draw)
    ensures r.policy.Some? && r.policy.value in m.validators[v].policies
  {
    hide Chained, EndsAt, RoutesOk;
    assert Blank("");
    var k :| 0 <= k < |m.current.value.routes| && m.current.value.routes[k] == r;
    assert Passes(m.validators[v], m.current.value) && RouteOk(r);
    assert RoutePasses(m.validators[v], m.current.value.routes[k]);
  }

  // ----- the manager as an object -----

  class ConfigManager {
    var current: Option<Snapshot>
    var history: seq<Record>
    var used: set<string>
    var validators: seq<Validator>
    const limit: nat

    function State(): Manager
      reads this
    {
      Manager(current, history, used, validators, limit)
    }

    ghost predicate Valid()
      reads this
    {
      Inv(State())
    }

    constructor (historyLimit: nat)
      requires historyLimit > 0
      ensures State() == New(historyLimit) && Valid()
    {
      current, history, used, validators, limit := None, [], {}, [], historyLimit;
      new;
      NewInv(historyLimit);
    }

    /** Replaces the snapshot if every test passes, and returns the refusal otherwise. */
    method Apply(s: Snapshot, actor: string, expected: Option<string>) returns (refusal: Option<Refusal>)
      requires Valid() && SnapshotOk(s)
      modifies this`current, this`history, this`used
      ensures Valid() && State() == Replace(old(State()), s, actor, expected)
      ensures refusal == Refuses(old(State()), s, actor, expected)
      ensures refusal.None? ==> |history| == |old(history)| + 1 && old(history) <= history
    {
      hide Inv, SnapshotOk, Passes;
      ReplaceKeepsInv(State(), s, actor, expected);
      if Refuses(State(), s, actor, expected).None? {
        ReplaceExtends(State(), s, actor, expected);
      }
      if Blank(actor) {
        return Some(BlankActor);
      }
      var previous := RevisionOf(current);
      if previous != expected || (previous.Some? && s.previous != previous) {
        return Some(StaleRevision);
      }
      if s.revision in used {
        return Some(UsedRevision);
      }
      if |used| >= limit {
        return Some(HistoryFull);
      }
      var n := 0;
      while n < |validators|
        invariant 0 <= n <= |validators| && forall i :: 0 <= i < n ==> Passes(validators[i], s)
      {
        if !Passes(validators[n], s) {
          return Some(ValidatorRefuses);
        }
        n := n + 1;
      }
      current := Some(s);
      used := used + {s.revision};
      history := Append(history, Record(s.revision, previous, actor, s.reason), limit);
      return None;
    }

    /** Checks the current snapshot first; false stands for the validator's exception. */
    method AddValidator(v: Validator) returns (added: bool)
      requires Valid()
      modifies this`validators
      ensures Valid() && State() == Register(old(State()), v)
      ensures added <==> old(current).None? || Passes(v, old(current).value)
    {
      hide Chained, EndsAt, SnapshotOk, Revisions;
      if current.Some? && !Passes(v, current.value) {
        return false;
      }
      validators := validators + [v];
      return true;
    }
  }
}
