/** The structural comparison: the explicit-stack walk, the recursive difference, and what they decide. */
module Walk {
  import opened Options
  import opened Decimals
  import opened Json
  import opened Differences
  import P = Pointer
  import opened Indices

  datatype Side = Missing | There(json: Json)

  datatype Item = Item(path: string, left: Side, right: Side)

  /** What one visited pair contributes: a difference, or a rule that suppresses one. */
  datatype Event = Differs(difference: Difference) | Applies(rule: Rule)

  // ----- the policy's lookups -----

  function IndexOf(paths: seq<string>, path: string): (r: Option<nat>)
    ensures r.Some? ==> r.value < |paths| && paths[r.value] == path
    ensures r.None? ==> path !in paths
  {
    if paths == [] then None
    else if paths[|paths| - 1] == path then Some(|paths| - 1)
    else IndexOf(paths[..|paths| - 1], path)
  }

  function TolerancePaths(ts: seq<Tolerance>): (paths: seq<string>)
    ensures |paths| == |ts| && forall i :: 0 <= i < |ts| ==> paths[i] == ts[i].path
  {
    seq(|ts|, i requires 0 <= i < |ts| => ts[i].path)
  }

  /** The index of the ignore rule for a path; the raw comparison applies none. */
  function IgnoreAt(p: Policy, rules: bool, path: string): Option<nat>
  {
    if rules then IndexOf(p.ignorePaths, path) else None
  }

  function ToleranceAt(p: Policy, rules: bool, path: string): (r: Option<nat>)
    ensures r.Some? ==> r.value < |p.tolerances|
  {
    if rules then IndexOf(TolerancePaths(p.tolerances), path) else None
  }

  // ----- one visited pair -----

  predicate SameType(a: Side, b: Side)
  {
    match (a, b)
    case (Missing, Missing) => true
    case (There(x), There(y)) =>
      && x.Null? == y.Null? && x.Bool? == y.Bool? && x.Num? == y.Num?
      && x.Str? == y.Str? && x.Arr? == y.Arr? && x.Obj? == y.Obj?
    case _ => false
  }

  /** `a != b` is false: equality of the leaf values. */
  predicate LeafEqual(a: Json, b: Json)
  {
    match (a, b)
    case (Num(x), Num(y)) => NumEq(x, y)
    case (Bool(x), Bool(y)) => x == y
    case (Str(x), Str(y)) => x == y
    case (Null, Null) => true
    case _ => false
  }

  predicate WithinTolerance(p: Policy, index: nat, a: Dec, b: Dec)
    requires index < |p.tolerances|
  {
    match ContextDistance(a, b, ToleranceContext(p.limits))
    case Some(delta) => LessEq(delta, p.tolerances[index].absolute)
    case None => false
  }

  function Here(p: Policy, rules: bool, x: Item): seq<Event>
  {
    match IgnoreAt(p, rules, x.path)
    case Some(i) => [Applies(Ignore(i))]
    case None =>
      if !SameType(x.left, x.right) then
        var reason := if x.left.There? && x.right.There? then TypeMismatch else FieldMismatch;
        [Differs(Difference(x.path, reason))]
      else if x.left.Missing? then []
      else HereBoth(p, rules, x.path, x.left.json, x.right.json)
  }

  /** Two values of the same type: a list reports its length, a leaf its value. */
  function HereBoth(p: Policy, rules: bool, path: string, a: Json, b: Json): seq<Event>
  {
    if a.Obj? then []
    else if a.Arr? && b.Arr? then
      if |a.items| != |b.items| then [Differs(Difference(path, ArrayLengthMismatch))] else []
    else if LeafEqual(a, b) then []
    else
      var t := ToleranceAt(p, rules, path);
      if a.Num? && b.Num? && t.Some? && WithinTolerance(p, t.value, a.dec, b.dec) then [Applies(Tolerated(t.value))]
      else [Differs(Difference(path, ValueMismatch))]
  }

  function ExtraKeys(order: seq<string>, fields: map<string, Json>): seq<string>
  {
    if order == [] then []
    else ExtraKeys(order[..|order| - 1], fields)
         + (if order[|order| - 1] in fields then [] else [order[|order| - 1]])
  }

  /** The left object's keys, then the right object's other keys, each in insertion order. */
  function KeyOrder(a: Json, b: Json): seq<string>
    requires a.Obj? && b.Obj?
  {
    a.order + ExtraKeys(b.order, a.fields)
  }

  function Field(j: Json, key: string): Side
    requires j.Obj?
  {
    if key in j.fields then There(j.fields[key]) else Missing
  }

  /** The pairs pushed for a visited pair, in the order in which they will be visited. */
  function Children(p: Policy, rules: bool, x: Item): seq<Item>
  {
    if IgnoreAt(p, rules, x.path).Some? || !SameType(x.left, x.right) || x.left.Missing? then []
    else
      var a, b := x.left.json, x.right.json;
      if a.Obj? then
        var keys := KeyOrder(a, b);
        seq(|keys|, i requires 0 <= i < |keys| => Item(P.Child(x.path, keys[i]), Field(a, keys[i]), Field(b, keys[i])))
      else if a.Arr? then
        var n := if |a.items| <= |b.items| then |a.items| else |b.items|;
        seq(n, i requires 0 <= i < n => Item(P.Child(x.path, NatText(i)), There(a.items[i]), There(b.items[i])))
      else []
  }

  lemma ChildrenDescend(p: Policy, rules: bool, x: Item)
    ensures forall c :: c in Children(p, rules, x) && c.left.There? ==> x.left.There? && c.left.json < x.left.json
  {
    forall c | c in Children(p, rules, x) && c.left.There? ensures x.left.There? && c.left.json < x.left.json {
      if x.left.json.Arr? {
        assert c.left.json in x.left.json.items;
      } else {
        assert exists k :: k in x.left.json.fields && c.left.json == x.left.json.fields[k];
      }
    }
  }

  // ----- the recursive difference -----

  function Depth(s: Side): nat { if s.Missing? then 0 else 1 }

  function Value(s: Side): Json { if s.Missing? then Null else s.json }

  /** Everything the comparison of a pair contributes, in preorder. */
  ghost function Events(p: Policy, rules: bool, x: Item): seq<Event>
    decreases Depth(x.left), Value(x.left), 1, 0
  {
    if x.left.Missing? then Here(p, rules, x)
    else
      ChildrenDescend(p, rules, x);
      Here(p, rules, x) + EventsAll(p, rules, Children(p, rules, x), x.left.json)
  }

  ghost function EventsAll(p: Policy, rules: bool, xs: seq<Item>, above: Json): seq<Event>
    requires forall c :: c in xs && c.left.There? ==> c.left.json < above
    decreases 1, above, 0, |xs|
  {
    if xs == [] then [] else Events(p, rules, xs[0]) + EventsAll(p, rules, xs[1..], above)
  }

  /** The number of pairs the walk visits below and including a pair. */
  ghost function Visits(p: Policy, rules: bool, x: Item): nat
    decreases Depth(x.left), Value(x.left), 1, 0
  {
    if x.left.Missing? then 1
    else
      ChildrenDescend(p, rules, x);
      1 + VisitsAll(p, rules, Children(p, rules, x), x.left.json)
  }

  ghost function VisitsAll(p: Policy, rules: bool, xs: seq<Item>, above: Json): nat
    requires forall c :: c in xs && c.left.There? ==> c.left.json < above
    decreases 1, above, 0, |xs|
  {
    if xs == [] then 0 else Visits(p, rules, xs[0]) + VisitsAll(p, rules, xs[1..], above)
  }

  // ----- playing events into the record -----

  /** Records events one after another until the record reports that its limit was exceeded. */
  function Play(p: Policy, s: Summary, applied: set<Rule>, es: seq<Event>): (Summary, set<Rule>)
    decreases |es|
  {
    if es == [] || s.limited then (s, applied)
    else
      match es[0]
      case Differs(d) => Play(p, AddTo(p, s, d.path, d.reason), applied, es[1..])
      case Applies(r) => Play(p, s, applied + {r}, es[1..])
  }

  lemma {:induction false} PlayAppend(p: Policy, s: Summary, applied: set<Rule>, es: seq<Event>, more: seq<Event>)
    ensures
      var (s1, applied1) := Play(p, s, applied, es);
      Play(p, s, applied, es + more) == Play(p, s1, applied1, more)
    decreases |es|
  {
    if es == [] {
      assert es + more == more;
    } else if s.limited {
    } else {
      assert (es + more)[1..] == es[1..] + more;
      match es[0]
      case Differs(d) => PlayAppend(p, AddTo(p, s, d.path, d.reason), applied, es[1..], more);
      case Applies(r) => PlayAppend(p, s, applied + {r}, es[1..], more);
    }
  }

  // ----- the stack -----

  function Reversed(xs: seq<Item>): seq<Item>
  {
    if xs == [] then [] else Reversed(xs[1..]) + [xs[0]]
  }

  ghost function StackEvents(p: Policy, rules: bool, pending: seq<Item>): seq<Event>
  {
    if pending == [] then []
    else
      Events(p, rules, pending[|pending| - 1]) + StackEvents(p, rules, pending[..|pending| - 1])
  }

  ghost function StackVisits(p: Policy, rules: bool, pending: seq<Item>): nat
  {
    if pending == [] then 0
    else Visits(p, rules, pending[|pending| - 1]) + StackVisits(p, rules, pending[..|pending| - 1])
  }

  lemma {:induction false} PushReversed(p: Policy, rules: bool, pending: seq<Item>, xs: seq<Item>, above: Json)
    requires forall c :: c in xs && c.left.There? ==> c.left.json < above
    ensures StackEvents(p, rules, pending + Reversed(xs))
            == EventsAll(p, rules, xs, above) + StackEvents(p, rules, pending)
    ensures StackVisits(p, rules, pending + Reversed(xs))
            == VisitsAll(p, rules, xs, above) + StackVisits(p, rules, pending)
    decreases |xs|
  {
    hide Events, Visits;
    if xs == [] {
      assert pending + Reversed(xs) == pending;
    } else {
      PushReversed(p, rules, pending, xs[1..], above);
      StackSnoc(p, rules, pending + Reversed(xs[1..]), xs[0]);
      assert pending + Reversed(xs) == (pending + Reversed(xs[1..])) + [xs[0]];
    }
  }

  lemma StackSnoc(p: Policy, rules: bool, pending: seq<Item>, x: Item)
    ensures StackEvents(p, rules, pending + [x]) == Events(p, rules, x) + StackEvents(p, rules, pending)
    ensures StackVisits(p, rules, pending + [x]) == Visits(p, rules, x) + StackVisits(p, rules, pending)
  {
    assert (pending + [x])[..|pending|] == pending;
  }

  /** Popping a pair and pushing its children leaves the events still to come in order. */
  lemma PopPush(p: Policy, rules: bool, pending: seq<Item>, x: Item)
    ensures
      var next := pending + Reversed(Children(p, rules, x));
      && StackEvents(p, rules, pending + [x]) == Here(p, rules, x) + StackEvents(p, rules, next)
      && StackVisits(p, rules, next) < StackVisits(p, rules, pending + [x])
  {
    hide Here, Children;
    ChildrenDescend(p, rules, x);
    StackSnoc(p, rules, pending, x);
    if x.left.There? {
      PushReversed(p, rules, pending, Children(p, rules, x), x.left.json);
    } else {
      NoChildren(p, rules, x);
      assert pending + Reversed([]) == pending;
    }
  }

  lemma NoChildren(p: Policy, rules: bool, x: Item)
    requires x.left.Missing?
    ensures Children(p, rules, x) == []
  {
  }

  // ----- the walk -----

  /** The body of the loop for one popped pair, up to pushing its children. */
  method Visit(record: DifferenceRecord, rules: bool, x: Item, applied: set<Rule>)
    returns (applied': set<Rule>, children: seq<Item>)
    requires !record.limited
    modifies record
    ensures children == Children(record.policy, rules, x)
    ensures (record.Content(), applied')
            == Play(record.policy, old(record.Content()), applied, Here(record.policy, rules, x))
  {
    applied', children := applied, [];
    var p := record.policy;
    var ignored := IgnoreAt(p, rules, x.path);
    if ignored.Some? {
      applied' := applied + {Ignore(ignored.value)};
    } else if !SameType(x.left, x.right) {
      record.Add(x.path, if x.left.There? && x.right.There? then TypeMismatch else FieldMismatch);
    } else if x.left.There? {
      children := Children(p, rules, x);
      applied' := VisitBoth(record, rules, x.path, x.left.json, x.right.json, applied);
    }
  }

  method VisitBoth(record: DifferenceRecord, rules: bool, path: string, a: Json, b: Json, applied: set<Rule>)
    returns (applied': set<Rule>)
    requires !record.limited
    modifies record
    ensures (record.Content(), applied')
            == Play(record.policy, old(record.Content()), applied, HereBoth(record.policy, rules, path, a, b))
  {
    var p := record.policy;
    applied' := applied;
    if a.Obj? {
    } else if a.Arr? && b.Arr? {
      if |a.items| != |b.items| {
        record.Add(path, ArrayLengthMismatch);
      }
    } else if !LeafEqual(a, b) {
      var t := ToleranceAt(p, rules, path);
      if a.Num? && b.Num? && t.Some? && WithinTolerance(p, t.value, a.dec, b.dec) {
        applied' := applied + {Tolerated(t.value)};
      } else {
        record.Add(path, ValueMismatch);
      }
    }
  }

  /**
   The explicit-stack walk terminates, and records exactly what playing the recursive preorder
   difference into the record would, including the early stop at the difference limit.
   */
  method WalkPair(left: Json, right: Json, record: DifferenceRecord, rules: bool, applied: set<Rule>)
    returns (applied': set<Rule>)
    modifies record
    ensures (record.Content(), applied')
            == Play(record.policy, old(record.Content()), applied,
                    Events(record.policy, rules, Item("", There(left), There(right))))
  {
    hide Here, Children, Play, Events, Visits;
    var p := record.policy;
    var root := Item("", There(left), There(right));
    var pending := [root];
    applied' := applied;
    StackOfOne(p, rules, root);
    while pending != []
      invariant Play(p, record.Content(), applied', StackEvents(p, rules, pending))
                == Play(p, old(record.Content()), applied, Events(p, rules, root))
      decreases StackVisits(p, rules, pending)
    {
      var x := pending[|pending| - 1];
      ghost var before := pending;
      pending := pending[..|pending| - 1];
      assert before == pending + [x];
      if record.limited {
        PlayStopped(p, record.Content(), applied', StackEvents(p, rules, before));
        return;
      }
      PopPush(p, rules, pending, x);
      PlayAppend(p, record.Content(), applied', Here(p, rules, x),
                 StackEvents(p, rules, pending + Reversed(Children(p, rules, x))));
      var children;
      applied', children := Visit(record, rules, x, applied');
      pending := pending + Reversed(children);
    }
    PlayNothing(p, record.Content(), applied');
  }

  lemma StackOfOne(p: Policy, rules: bool, x: Item)
    ensures StackEvents(p, rules, [x]) == Events(p, rules, x)
  {
    assert StackEvents(p, rules, [x][..0]) == [];
  }

  lemma PlayStopped(p: Policy, s: Summary, applied: set<Rule>, es: seq<Event>)
    requires s.limited
    ensures Play(p, s, applied, es) == (s, applied)
  {
  }

  lemma PlayNothing(p: Policy, s: Summary, applied: set<Rule>)
    ensures Play(p, s, applied, []) == (s, applied)
  {
  }
}
