/** What the walk's record means: how many differences there are, and when two documents agree. */
module Agreement {
  import opened Options
  import opened Decimals
  import opened Json
  import opened Differences
  import opened Walk
  import opened Indices
  import P = Pointer

  // ----- the record of a whole walk -----

  function DifferencesOf(es: seq<Event>): seq<Difference>
  {
    if es == [] then []
    else
      var last := es[|es| - 1];
      DifferencesOf(es[..|es| - 1]) + (if last.Differs? then [last.difference] else [])
  }

  function RulesOf(es: seq<Event>): set<Rule>
  {
    set e | e in es && e.Applies? :: e.rule
  }

  /** The events met before the difference that exceeds the limit. */
  function Met(es: seq<Event>, room: nat): seq<Event>
    decreases |es|
  {
    if es == [] then []
    else if es[0].Applies? then [es[0]] + Met(es[1..], room)
    else if room == 0 then []
    else [es[0]] + Met(es[1..], room - 1)
  }

  ghost predicate Reached(p: Policy, s: Summary)
  {
    s.count <= p.maxDifferences && (s.limited ==> s.count == p.maxDifferences)
  }

  lemma {:induction false} PlayRecords(p: Policy, s: Summary, applied: set<Rule>, es: seq<Event>)
    requires Reached(p, s)
    ensures Play(p, s, applied, es).0 == AddAll(p, s, DifferencesOf(es))
    ensures Reached(p, Play(p, s, applied, es).0)
    decreases |es|
  {
    if es != [] {
      var n := |es| - 1;
      PlayRecords(p, s, applied, es[..n]);
      PlayAppend(p, s, applied, es[..n], [es[n]]);
      assert es == es[..n] + [es[n]];
      PlayOne(p, Play(p, s, applied, es[..n]).0, Play(p, s, applied, es[..n]).1, es[n]);
      if es[n].Differs? {
        AddAllSnoc(p, s, DifferencesOf(es[..n]), es[n].difference);
      } else {
        assert DifferencesOf(es) == DifferencesOf(es[..n]);
      }
    }
  }

  lemma PlayOne(p: Policy, s: Summary, applied: set<Rule>, e: Event)
    requires Reached(p, s)
    ensures Play(p, s, applied, [e]).0 == if e.Differs? then AddTo(p, s, e.difference.path, e.difference.reason) else s
    ensures Reached(p, Play(p, s, applied, [e]).0)
  {
  }

  lemma AddAllSnoc(p: Policy, s: Summary, ds: seq<Difference>, d: Difference)
    ensures AddAll(p, s, ds + [d]) == AddTo(p, AddAll(p, s, ds), d.path, d.reason)
  {
    assert (ds + [d])[..|ds|] == ds;
  }

  lemma {:induction false} PlayApplies(p: Policy, s: Summary, applied: set<Rule>, es: seq<Event>)
    requires Reached(p, s) && !s.limited
    ensures Play(p, s, applied, es).1 == applied + RulesOf(Met(es, p.maxDifferences - s.count))
    decreases |es|
  {
    if es != [] {
      var room := p.maxDifferences - s.count;
      match es[0]
      case Applies(r) =>
        PlayApplies(p, s, applied + {r}, es[1..]);
        RulesCons(es[0], Met(es[1..], room));
      case Differs(d) =>
        var s1 := AddTo(p, s, d.path, d.reason);
        if room == 0 {
          PlayStopped(p, s1, applied, es[1..]);
        } else {
          PlayApplies(p, s1, applied, es[1..]);
          RulesCons(es[0], Met(es[1..], room - 1));
        }
    }
  }

  lemma RulesCons(e: Event, es: seq<Event>)
    ensures RulesOf([e] + es) == (if e.Applies? then {e.rule} else {}) + RulesOf(es)
  {
    var all := [e] + es;
    assert forall x :: x in all <==> x == e || x in es;
  }

  /** The events of comparing two documents. */
  ghost function AllEvents(p: Policy, rules: bool, left: Json, right: Json): seq<Event>
  {
    Events(p, rules, Item("", There(left), There(right)))
  }

  /**
   A whole walk: the record describes the list of all differences in preorder, and the applied
   rules are those met before the limit was exceeded, which is all of them when it was not.
   */
  lemma WalkDescribes(p: Policy, rules: bool, left: Json, right: Json, applied: set<Rule>)
    requires p.maxDifferences > 0
    ensures
      var es := AllEvents(p, rules, left, right);
      var (s, applied') := Play(p, EMPTY, applied, es);
      && Describes(p, s, DifferencesOf(es))
      && applied' == applied + RulesOf(Met(es, p.maxDifferences))
      && (!s.limited ==> applied' == applied + RulesOf(es))
  {
    hide AllEvents, Describes, Play, AddAll, DifferencesOf, RulesOf, Met;
    var es := AllEvents(p, rules, left, right);
    PlayRecords(p, EMPTY, applied, es);
    RecordDescribes(p, DifferencesOf(es));
    PlayApplies(p, EMPTY, applied, es);
    if |DifferencesOf(es)| <= p.maxDifferences {
      MetAll(es, p.maxDifferences);
    }
  }

  lemma {:induction false} MetAll(es: seq<Event>, room: nat)
    requires |DifferencesOf(es)| <= room
    ensures Met(es, room) == es
    decreases |es|
  {
    if es != [] {
      DifferencesCons(es[0], es[1..]);
      assert es == [es[0]] + es[1..];
      MetAll(es[1..], if es[0].Applies? then room else room - 1);
    }
  }

  lemma {:induction false} DifferencesCons(e: Event, es: seq<Event>)
    ensures DifferencesOf([e] + es) == (if e.Differs? then [e.difference] else []) + DifferencesOf(es)
    decreases |es|
  {
    var all := [e] + es;
    if es == [] {
      assert all[..0] == [];
    } else {
      DifferencesCons(e, es[..|es| - 1]);
      assert all[..|all| - 1] == [e] + es[..|es| - 1];
    }
  }

  // ----- when two documents agree -----

  /** The numbers are equal, or within the tolerance registered for the path, over the rationals. */
  ghost predicate NumbersAgree(p: Policy, rules: bool, path: string, a: Dec, b: Dec)
  {
    || Decimals.Value(a) == Decimals.Value(b)
    || var t := ToleranceAt(p, rules, path);
       t.Some? && RealAbs(Decimals.Value(a) - Decimals.Value(b)) <= Decimals.Value(p.tolerances[t.value].absolute)
  }

  ghost predicate Ignored(p: Policy, rules: bool, path: string)
  {
    rules && path in p.ignorePaths
  }

  /** The policy's relation on values at a path: equality, up to ignored paths and tolerances. */
  ghost predicate Agree(p: Policy, rules: bool, path: string, a: Json, b: Json)
    decreases a
  {
    || Ignored(p, rules, path)
    || match (a, b)
       case (Null, Null) => true
       case (Bool(x), Bool(y)) => x == y
       case (Str(x), Str(y)) => x == y
       case (Num(x), Num(y)) => NumbersAgree(p, rules, path, x, y)
       case (Arr(x), Arr(y)) =>
         |x| == |y| && forall i :: 0 <= i < |x| ==> Agree(p, rules, P.Child(path, NatText(i)), x[i], y[i])
       case (Obj(_, x), Obj(_, y)) =>
         forall k :: k in x.Keys + y.Keys ==>
                       || Ignored(p, rules, P.Child(path, k))
                       || (k in x && k in y && Agree(p, rules, P.Child(path, k), x[k], y[k]))
       case _ => false
  }

  ghost predicate Clean(es: seq<Event>)
  {
    forall e :: e in es ==> e.Applies?
  }

  ghost predicate Comparable(p: Policy, j: Json)
  {
    p.limits.digits >= 1 && WellFormed(j) && NumbersWithin(j, p.limits)
  }

  lemma NumberAgrees(p: Policy, rules: bool, path: string, a: Dec, b: Dec)
    requires p.limits.digits >= 1 && WithinLimits(a, p.limits) && WithinLimits(b, p.limits)
    ensures
      var t := ToleranceAt(p, rules, path);
      NumEq(a, b) || (t.Some? && WithinTolerance(p, t.value, a, b)) <==> NumbersAgree(p, rules, path, a, b)
  {
    hide Decimals.Value, LessEq, NumEq, Exact, WithinLimits, Distance, RealAbs;
    NumEqIsRational(a, b);
    ToleranceIsExact(a, b, p.limits);
    var t := ToleranceAt(p, rules, path);
    if t.Some? {
      TolerateIsRational(a, b, p.tolerances[t.value].absolute);
    }
  }

  lemma LeafAgrees(p: Policy, rules: bool, path: string, a: Json, b: Json)
    requires Comparable(p, a) && Comparable(p, b) && SameType(There(a), There(b))
    requires !a.Obj? && !a.Arr? && !Ignored(p, rules, path)
    ensures Clean(HereBoth(p, rules, path, a, b)) <==> Agree(p, rules, path, a, b)
  {
    hide NumbersAgree, NumEq, WithinTolerance, WithinLimits, ToleranceAt;
    if a.Num? {
      NumberAgrees(p, rules, path, a.dec, b.dec);
    }
    assert HereBoth(p, rules, path, a, b) != [] ==> HereBoth(p, rules, path, a, b)[0] in HereBoth(p, rules, path, a, b);
  }

  // ----- the walk finds no difference exactly when the documents agree -----

  lemma CleanAppend(es: seq<Event>, more: seq<Event>)
    ensures Clean(es + more) <==> Clean(es) && Clean(more)
  {
    assert forall e :: e in es + more <==> e in es || e in more;
  }

  lemma {:induction false} CleanAll(p: Policy, rules: bool, xs: seq<Item>, above: Json)
    requires forall c :: c in xs && c.left.There? ==> c.left.json < above
    ensures Clean(EventsAll(p, rules, xs, above)) <==> forall i :: 0 <= i < |xs| ==> Clean(Events(p, rules, xs[i]))
    decreases |xs|
  {
    hide Events, Clean;
    if xs == [] {
      NothingIsClean();
    } else {
      CleanAll(p, rules, xs[1..], above);
      CleanAppend(Events(p, rules, xs[0]), EventsAll(p, rules, xs[1..], above));
      assert forall i :: 1 <= i < |xs| ==> xs[i] == xs[1..][i - 1];
    }
  }

  lemma NothingIsClean()
    ensures Clean([])
  {
  }

  /** One level of the walk: the pair agrees here and every child is clean. */
  lemma CleanPair(p: Policy, rules: bool, x: Item)
    ensures Clean(Events(p, rules, x)) <==>
              Clean(Here(p, rules, x)) && forall i :: 0 <= i < |Children(p, rules, x)| ==>
                                                    Clean(Events(p, rules, Children(p, rules, x)[i]))
  {
    hide Here, Children, Clean;
    if x.left.There? {
      ChildrenDescend(p, rules, x);
      CleanAll(p, rules, Children(p, rules, x), x.left.json);
      CleanAppend(Here(p, rules, x), EventsAll(p, rules, Children(p, rules, x), x.left.json));
    } else {
      NoChildren(p, rules, x);
    }
  }

  lemma CleanMissing(p: Policy, rules: bool, x: Item)
    requires x.left.Missing? != x.right.Missing?
    ensures Clean(Events(p, rules, x)) <==> Ignored(p, rules, x.path)
  {
    CleanPair(p, rules, x);
    assert Here(p, rules, x) != [];
    assert Here(p, rules, x)[0] in Here(p, rules, x);
  }

  lemma CleanIgnored(p: Policy, rules: bool, x: Item)
    requires Ignored(p, rules, x.path)
    ensures Clean(Events(p, rules, x))
  {
    CleanPair(p, rules, x);
  }

  lemma {:induction false} ExtraKeysAre(order: seq<string>, fields: map<string, Json>)
    ensures forall k :: k in ExtraKeys(order, fields) <==> k in order && k !in fields
  {
    if order != [] {
      ExtraKeysAre(order[..|order| - 1], fields);
    }
  }

  lemma KeyOrderCovers(a: Json, b: Json)
    requires a.Obj? && b.Obj? && WellFormed(a) && WellFormed(b)
    ensures forall k :: k in KeyOrder(a, b) <==> k in a.fields.Keys + b.fields.Keys
  {
    ExtraKeysAre(b.order, a.fields);
  }

  /**
   The comparison reports no difference exactly when the documents agree under the policy: the
   walk's local tests, its key order and its decimal arithmetic add up to the declared relation.
   */
  lemma {:induction false} CleanIffAgree(p: Policy, rules: bool, path: string, a: Json, b: Json)
    requires Comparable(p, a) && Comparable(p, b)
    ensures Clean(Events(p, rules, Item(path, There(a), There(b)))) <==> Agree(p, rules, path, a, b)
    decreases a, 2
  {
    hide Events, NumbersAgree, WellFormed, NumbersWithin;
    var x := Item(path, There(a), There(b));
    if Ignored(p, rules, path) {
      CleanIgnored(p, rules, x);
    } else if a.Obj? && b.Obj? {
      CleanObjects(p, rules, path, a, b);
    } else if a.Arr? && b.Arr? {
      CleanArrays(p, rules, path, a, b);
    } else {
      CleanPair(p, rules, x);
      CleanScalars(p, rules, path, a, b);
    }
  }

  lemma CleanScalars(p: Policy, rules: bool, path: string, a: Json, b: Json)
    requires Comparable(p, a) && Comparable(p, b) && !Ignored(p, rules, path)
    requires !(a.Obj? && b.Obj?) && !(a.Arr? && b.Arr?)
    ensures
      var x := Item(path, There(a), There(b));
      && (Clean(Here(p, rules, x)) <==> Agree(p, rules, path, a, b))
      && Children(p, rules, x) == []
  {
    var x := Item(path, There(a), There(b));
    if SameType(There(a), There(b)) {
      LeafAgrees(p, rules, path, a, b);
    } else {
      assert Here(p, rules, x)[0] in Here(p, rules, x);
    }
  }

  /** The two objects agree on one key. */
  ghost predicate FieldAgrees(p: Policy, rules: bool, path: string, a: Json, b: Json, k: string)
    requires a.Obj? && b.Obj?
  {
    || Ignored(p, rules, P.Child(path, k))
    || (k in a.fields && k in b.fields && Agree(p, rules, P.Child(path, k), a.fields[k], b.fields[k]))
  }

  lemma AgreeFields(p: Policy, rules: bool, path: string, a: Json, b: Json)
    requires a.Obj? && b.Obj? && !Ignored(p, rules, path)
    ensures Agree(p, rules, path, a, b) <==>
              forall k :: k in a.fields.Keys + b.fields.Keys ==> FieldAgrees(p, rules, path, a, b, k)
  {
  }

  lemma CleanField(p: Policy, rules: bool, path: string, a: Json, b: Json, k: string)
    requires Comparable(p, a) && Comparable(p, b) && a.Obj? && b.Obj? && k in a.fields.Keys + b.fields.Keys
    ensures Clean(Events(p, rules, Item(P.Child(path, k), Field(a, k), Field(b, k))))
            <==> FieldAgrees(p, rules, path, a, b, k)
    decreases a, 0
  {
    hide Events, Clean;
    if k in a.fields && k in b.fields {
      CleanIffAgree(p, rules, P.Child(path, k), a.fields[k], b.fields[k]);
      if Ignored(p, rules, P.Child(path, k)) {
        CleanIgnored(p, rules, Item(P.Child(path, k), Field(a, k), Field(b, k)));
      }
    } else {
      CleanMissing(p, rules, Item(P.Child(path, k), Field(a, k), Field(b, k)));
    }
  }

  lemma ObjectChildren(p: Policy, rules: bool, path: string, a: Json, b: Json)
    requires a.Obj? && b.Obj? && !Ignored(p, rules, path)
    ensures
      var x := Item(path, There(a), There(b));
      && |Children(p, rules, x)| == |KeyOrder(a, b)|
      && (forall i :: 0 <= i < |KeyOrder(a, b)| ==>
            var k := KeyOrder(a, b)[i];
            Children(p, rules, x)[i] == Item(P.Child(path, k), Field(a, k), Field(b, k)))
      && Clean(Here(p, rules, x))
  {
  }

  lemma CleanObjects(p: Policy, rules: bool, path: string, a: Json, b: Json)
    requires Comparable(p, a) && Comparable(p, b) && !Ignored(p, rules, path) && a.Obj? && b.Obj?
    ensures Clean(Events(p, rules, Item(path, There(a), There(b)))) <==> Agree(p, rules, path, a, b)
    decreases a, 1
  {
    hide Events, Clean, Here, Children, KeyOrder, Agree, FieldAgrees, Field;
    var x := Item(path, There(a), There(b));
    var keys := KeyOrder(a, b);
    CleanPair(p, rules, x);
    KeyOrderCovers(a, b);
    ObjectChildren(p, rules, path, a, b);
    AgreeFields(p, rules, path, a, b);
    forall k | k in a.fields.Keys + b.fields.Keys
      ensures Clean(Events(p, rules, Item(P.Child(path, k), Field(a, k), Field(b, k))))
            <==> FieldAgrees(p, rules, path, a, b, k)
    {
      CleanField(p, rules, path, a, b, k);
    }
  }

  lemma CleanArrays(p: Policy, rules: bool, path: string, a: Json, b: Json)
    requires Comparable(p, a) && Comparable(p, b) && !Ignored(p, rules, path) && a.Arr? && b.Arr?
    ensures Clean(Events(p, rules, Item(path, There(a), There(b)))) <==> Agree(p, rules, path, a, b)
    decreases a, 1
  {
    var x := Item(path, There(a), There(b));
    CleanPair(p, rules, x);
    if |a.items| != |b.items| {
      assert Here(p, rules, x)[0] in Here(p, rules, x);
    } else {
      var cs := Children(p, rules, x);
      forall i | 0 <= i < |cs|
        ensures Clean(Events(p, rules, cs[i])) <==> Agree(p, rules, P.Child(path, NatText(i)), a.items[i], b.items[i])
      {
        CleanIffAgree(p, rules, P.Child(path, NatText(i)), a.items[i], b.items[i]);
      }
    }
  }

  /** The record of a walk counts nothing exactly when the documents agree. */
  lemma CountsNothingIffAgree(p: Policy, rules: bool, left: Json, right: Json, applied: set<Rule>)
    requires p.maxDifferences > 0 && Comparable(p, left) && Comparable(p, right)
    ensures Play(p, EMPTY, applied, AllEvents(p, rules, left, right)).0.count == 0 <==> Agree(p, rules, "", left, right)
  {
    hide Agree, Events, Comparable;
    var es := AllEvents(p, rules, left, right);
    WalkDescribes(p, rules, left, right, applied);
    CleanIffAgree(p, rules, "", left, right);
    NoDifferencesIffClean(es);
  }

  lemma {:induction false} NoDifferencesIffClean(es: seq<Event>)
    ensures DifferencesOf(es) == [] <==> Clean(es)
  {
    if es != [] {
      NoDifferencesIffClean(es[..|es| - 1]);
      assert es == es[..|es| - 1] + [es[|es| - 1]];
      CleanAppend(es[..|es| - 1], [es[|es| - 1]]);
      assert es[|es| - 1] in [es[|es| - 1]];
    }
  }

  /** Without rules the relation is equality of JSON values: keys in any order, numbers by value. */
  lemma {:induction false} RawAgreementIsSame(p: Policy, path: string, a: Json, b: Json)
    ensures Agree(p, false, path, a, b) <==> Same(a, b)
    decreases a
  {
    if a.Num? && b.Num? {
      NumEqIsRational(a.dec, b.dec);
    } else if a.Arr? && b.Arr? && |a.items| == |b.items| {
      forall i | 0 <= i < |a.items|
        ensures Agree(p, false, P.Child(path, NatText(i)), a.items[i], b.items[i]) <==> Same(a.items[i], b.items[i])
      {
        RawAgreementIsSame(p, P.Child(path, NatText(i)), a.items[i], b.items[i]);
      }
    } else if a.Obj? && b.Obj? {
      forall k | k in a.fields && k in b.fields
        ensures Agree(p, false, P.Child(path, k), a.fields[k], b.fields[k]) <==> Same(a.fields[k], b.fields[k])
      {
        RawAgreementIsSame(p, P.Child(path, k), a.fields[k], b.fields[k]);
      }
    }
  }

  /** The relation does not depend on which document is v1. */
  lemma {:induction false} AgreementIsSymmetric(p: Policy, rules: bool, path: string, a: Json, b: Json)
    ensures Agree(p, rules, path, a, b) <==> Agree(p, rules, path, b, a)
    decreases a
  {
    hide Decimals.Value;
    if a.Arr? && b.Arr? && |a.items| == |b.items| {
      forall i | 0 <= i < |a.items|
        ensures Agree(p, rules, P.Child(path, NatText(i)), a.items[i], b.items[i])
                <==> Agree(p, rules, P.Child(path, NatText(i)), b.items[i], a.items[i])
      {
        AgreementIsSymmetric(p, rules, P.Child(path, NatText(i)), a.items[i], b.items[i]);
      }
    } else if a.Obj? && b.Obj? {
      forall k | k in a.fields && k in b.fields
        ensures Agree(p, rules, P.Child(path, k), a.fields[k], b.fields[k])
                <==> Agree(p, rules, P.Child(path, k), b.fields[k], a.fields[k])
      {
        AgreementIsSymmetric(p, rules, P.Child(path, k), a.fields[k], b.fields[k]);
      }
    }
  }

  /** The relation does not depend on key order or on how numbers are written. */
  lemma {:induction false} AgreementRespectsSame(p: Policy, rules: bool, path: string, a: Json, b: Json, b': Json)
    requires Same(b, b')
    ensures Agree(p, rules, path, a, b) <==> Agree(p, rules, path, a, b')
    decreases a
  {
    hide Decimals.Value, NumEq;
    if b.Num? {
      NumEqIsRational(b.dec, b'.dec);
    } else if a.Arr? && b.Arr? && |a.items| == |b.items| {
      forall i | 0 <= i < |a.items|
        ensures Agree(p, rules, P.Child(path, NatText(i)), a.items[i], b.items[i])
                <==> Agree(p, rules, P.Child(path, NatText(i)), a.items[i], b'.items[i])
      {
        AgreementRespectsSame(p, rules, P.Child(path, NatText(i)), a.items[i], b.items[i], b'.items[i]);
      }
    } else if a.Obj? && b.Obj? {
      forall k | k in a.fields && k in b.fields
        ensures Agree(p, rules, P.Child(path, k), a.fields[k], b.fields[k])
                <==> Agree(p, rules, P.Child(path, k), a.fields[k], b'.fields[k])
      {
        AgreementRespectsSame(p, rules, P.Child(path, k), a.fields[k], b.fields[k], b'.fields[k]);
      }
    }
  }
}
