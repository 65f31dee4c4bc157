/**
 Which differences a comparison reports, and in which order, said of the two documents themselves:
 a position is a list of keys, followed from the root of both.
 */
module Positions {
  import opened Options
  import opened Decimals
  import opened Json
  import opened Differences
  import opened Walk
  import opened Agreement
  import opened Indices
  import P = Pointer

  type Keys = seq<string>

  // ----- following keys -----

  /** The element with this index as its text. */
  ghost predicate IsElement(items: seq<Json>, key: string, i: nat)
  {
    i < |items| && NatText(i) == key
  }

  /** The value under a key of an object, or under the text of an index of an array. */
  ghost function Below(s: Side, key: string): Side
  {
    if s.Missing? then Missing
    else
      match s.json
      case Obj(_, fields) => if key in fields then There(fields[key]) else Missing
      case Arr(items) => if i: nat :| IsElement(items, key, i) then There(items[i]) else Missing
      case _ => Missing
  }

  ghost function At(s: Side, q: Keys): Side
    decreases |q|
  {
    if q == [] then s else At(Below(s, q[0]), q[1..])
  }

  function PathTo(path: string, q: Keys): string
    decreases |q|
  {
    if q == [] then path else PathTo(P.Child(path, q[0]), q[1..])
  }

  // ----- what is visited -----

  /** From this pair the comparison goes on to the values under the key. */
  ghost predicate Enters(p: Policy, rules: bool, path: string, a: Side, b: Side, key: string)
  {
    && !Ignored(p, rules, path) && a.There? && b.There?
    && ((a.json.Obj? && b.json.Obj? && (Below(a, key).There? || Below(b, key).There?))
        || (a.json.Arr? && b.json.Arr? && Below(a, key).There? && Below(b, key).There?))
  }

  /** No path above the position is ignored, and on the way both sides are objects, or both arrays with the index. */
  ghost predicate Visited(p: Policy, rules: bool, path: string, a: Side, b: Side, q: Keys)
    decreases |q|
  {
    q != [] ==>
      && Enters(p, rules, path, a, b, q[0])
      && Visited(p, rules, P.Child(path, q[0]), Below(a, q[0]), Below(b, q[0]), q[1..])
  }

  // ----- what is reported -----

  predicate SameKind(a: Json, b: Json)
  {
    match a
    case Null => b.Null?
    case Bool(_) => b.Bool?
    case Num(_) => b.Num?
    case Str(_) => b.Str?
    case Arr(_) => b.Arr?
    case Obj(_, _) => b.Obj?
  }

  /** The rule of a list that counts for a path: the last one with that path. */
  predicate LastAt(paths: seq<string>, path: string, i: nat)
  {
    i < |paths| && paths[i] == path && forall j :: i < j < |paths| ==> paths[j] != path
  }

  /** The rule that tolerates the difference between two numbers, over the rationals. */
  ghost predicate TolerancedBy(p: Policy, rules: bool, path: string, a: Json, b: Json, i: nat)
  {
    && rules && a.Num? && b.Num?
    && i < |p.tolerances| && p.tolerances[i].path == path
    && (forall j :: i < j < |p.tolerances| ==> p.tolerances[j].path != path)
    && RealAbs(Decimals.Value(a.dec) - Decimals.Value(b.dec)) <= Decimals.Value(p.tolerances[i].absolute)
  }

  /** Two values of one kind, neither objects nor arrays, that are not the same value. */
  ghost predicate LeavesDiffer(a: Json, b: Json)
  {
    match (a, b)
    case (Num(x), Num(y)) => Decimals.Value(x) != Decimals.Value(y)
    case (Str(x), Str(y)) => x != y
    case (Bool(x), Bool(y)) => x != y
    case _ => false
  }

  ghost predicate Differing(p: Policy, rules: bool, path: string, a: Side, b: Side, reason: Reason)
  {
    match reason
    case FieldMismatch => a.There? != b.There?
    case TypeMismatch => a.There? && b.There? && !SameKind(a.json, b.json)
    case ArrayLengthMismatch => a.There? && b.There? && a.json.Arr? && b.json.Arr? && |a.json.items| != |b.json.items|
    case ValueMismatch =>
      && a.There? && b.There? && LeavesDiffer(a.json, b.json)
      && forall i: nat :: !TolerancedBy(p, rules, path, a.json, b.json, i)
    case _ => false
  }

  /** What is reported of a pair that is visited: a difference, or the rule that suppresses one. */
  ghost predicate Reports(p: Policy, rules: bool, path: string, a: Side, b: Side, e: Event)
  {
    match e
    case Differs(d) => d.path == path && !Ignored(p, rules, path) && Differing(p, rules, path, a, b, d.reason)
    case Applies(Ignore(i)) => rules && LastAt(p.ignorePaths, path, i)
    case Applies(Tolerated(i)) =>
      && !Ignored(p, rules, path) && a.There? && b.There? && LeavesDiffer(a.json, b.json)
      && TolerancedBy(p, rules, path, a.json, b.json, i)
    case _ => false
  }

  /** The event is reported at the position. */
  ghost predicate ReportedAt(p: Policy, rules: bool, path: string, a: Side, b: Side, q: Keys, e: Event)
  {
    Visited(p, rules, path, a, b, q) && Reports(p, rules, PathTo(path, q), At(a, q), At(b, q), e)
  }

  // ----- the order -----

  predicate ComesBefore(keys: seq<string>, k: string, m: string)
  {
    exists i, j :: 0 <= i < j < |keys| && keys[i] == k && keys[j] == m
  }

  /** The keys of v1's object in their order, then those of v2's object only; indices by number. */
  ghost predicate KeyBefore(a: Side, b: Side, k: string, m: string)
  {
    && a.There? && b.There?
    && ((a.json.Obj? && b.json.Obj?
         && (ComesBefore(a.json.order, k, m) || (k in a.json.fields && m !in a.json.fields)
             || (k !in a.json.fields && m !in a.json.fields && ComesBefore(b.json.order, k, m))))
        || (a.json.Arr? && b.json.Arr? && exists i: nat, j: nat :: i < j && NatText(i) == k && NatText(j) == m))
  }

  /** Preorder: a value before what is inside it, and everything under one key before everything under a later one. */
  ghost predicate Precedes(a: Side, b: Side, q: Keys, r: Keys)
    decreases |q|
  {
    if r == [] then false
    else if q == [] then true
    else if q[0] == r[0] then Precedes(Below(a, q[0]), Below(b, q[0]), q[1..], r[1..])
    else KeyBefore(a, b, q[0], r[0])
  }

  // ----- one pair -----

  ghost predicate Fit(p: Policy, s: Side)
  {
    s.There? ==> Comparable(p, s.json)
  }

  lemma {:induction false} IndexOfIsLast(paths: seq<string>, path: string)
    ensures forall i: nat :: LastAt(paths, path, i) <==> IndexOf(paths, path) == Some(i)
  {
    if paths != [] {
      var n := |paths| - 1;
      IndexOfIsLast(paths[..n], path);
      forall i: nat ensures LastAt(paths, path, i) <==> if paths[n] == path then i == n else LastAt(paths[..n], path, i) {
        assert forall j :: 0 <= j < n ==> paths[..n][j] == paths[j];
      }
    }
  }

  lemma TolerancesAre(p: Policy, rules: bool, path: string, a: Json, b: Json)
    requires a.Num? && b.Num? && Comparable(p, a) && Comparable(p, b)
    ensures
      var t := ToleranceAt(p, rules, path);
      forall i: nat :: TolerancedBy(p, rules, path, a, b, i) <==>
                    t == Some(i) && WithinTolerance(p, i, a.dec, b.dec)
  {
    hide Decimals.Value, LessEq, NumEq, Exact, WithinLimits, Distance, RealAbs;
    IndexOfIsLast(TolerancePaths(p.tolerances), path);
    ToleranceIsExact(a.dec, b.dec, p.limits) by { Limits(p, a); Limits(p, b); }
    forall i: nat ensures TolerancedBy(p, rules, path, a, b, i) <==>
                            ToleranceAt(p, rules, path) == Some(i) && WithinTolerance(p, i, a.dec, b.dec) {
      assert LastAt(TolerancePaths(p.tolerances), path, i) <==> IndexOf(TolerancePaths(p.tolerances), path) == Some(i);
      if i < |p.tolerances| {
        TolerateIsRational(a.dec, b.dec, p.tolerances[i].absolute);
      }
    }
  }

  lemma Limits(p: Policy, a: Json)
    requires a.Num? && Comparable(p, a)
    ensures WithinLimits(a.dec, p.limits) && p.limits.digits >= 1
  {
  }

  lemma LeavesAre(a: Json, b: Json)
    requires SameKind(a, b) && !a.Arr? && !a.Obj?
    ensures LeavesDiffer(a, b) <==> !LeafEqual(a, b)
  {
    if a.Num? {
      NumEqIsRational(a.dec, b.dec);
    }
  }

  /** One visited pair reports at most one event, and it is the one that the walk records there. */
  lemma HereIs(p: Policy, rules: bool, path: string, a: Side, b: Side)
    requires Fit(p, a) && Fit(p, b)
    ensures
      var es := Here(p, rules, Item(path, a, b));
      |es| <= 1 && forall e :: Reports(p, rules, path, a, b, e) <==> e in es
  {
    hide Comparable, Decimals.Value, WithinTolerance, RealAbs, NumEq, IndexOf, TolerancedBy, LastAt, ToleranceAt;
    IndexOfIsLast(p.ignorePaths, path);
    if a.There? && b.There? && SameType(a, b) && !a.json.Obj? && !a.json.Arr? {
      LeavesAre(a.json, b.json);
      NumbersTolerated(p, rules, path, a.json, b.json);
    }
  }

  lemma NumbersTolerated(p: Policy, rules: bool, path: string, a: Json, b: Json)
    requires Comparable(p, a) && Comparable(p, b)
    ensures forall i: nat :: TolerancedBy(p, rules, path, a, b, i) <==>
              a.Num? && b.Num? && ToleranceAt(p, rules, path) == Some(i) && WithinTolerance(p, i, a.dec, b.dec)
  {
    if a.Num? && b.Num? {
      TolerancesAre(p, rules, path, a, b);
    }
  }

  // ----- what is inside a pair -----

  lemma ElementIs(items: seq<Json>, i: nat)
    requires i < |items|
    ensures Below(There(Arr(items)), NatText(i)) == There(items[i])
  {
    assert IsElement(items, NatText(i), i);
    var j: nat :| IsElement(items, NatText(i), j);
    forall j: nat | IsElement(items, NatText(i), j) ensures j == i {
      NatTextIsIndex(i);
      NatTextIsIndex(j);
    }
  }

  lemma {:induction false} ExtraKeysOrdered(order: seq<string>, fields: map<string, Json>)
    requires NoDuplicates(order)
    ensures NoDuplicates(ExtraKeys(order, fields))
    ensures forall i, j :: 0 <= i < j < |ExtraKeys(order, fields)| ==>
              ComesBefore(order, ExtraKeys(order, fields)[i], ExtraKeys(order, fields)[j])
  {
    if order != [] {
      var n := |order| - 1;
      assert forall k :: 0 <= k < n ==> order[..n][k] == order[k];
      ExtraKeysOrdered(order[..n], fields);
      ExtraKeysAre(order[..n], fields);
      var before, all := ExtraKeys(order[..n], fields), ExtraKeys(order, fields);
      forall i, j | 0 <= i < j < |all| ensures ComesBefore(order, all[i], all[j]) && all[i] != all[j] {
        if j < |before| {
          assert ComesBefore(order[..n], before[i], before[j]);
          var x, y :| 0 <= x < y < n && order[..n][x] == before[i] && order[..n][y] == before[j];
          assert order[x] == all[i] && order[y] == all[j];
        } else {
          assert before[i] in order[..n];
          var x :| 0 <= x < n && order[..n][x] == before[i];
          assert order[x] == all[i] && order[n] == all[j];
        }
      }
    }
  }

  /** The keys under which the walk goes on, in order. */
  ghost predicate Lists(p: Policy, rules: bool, path: string, a: Side, b: Side, keys: seq<string>)
  {
    && (forall k :: Enters(p, rules, path, a, b, k) <==> k in keys)
    && (forall i, j :: 0 <= i < j < |keys| ==> keys[i] != keys[j] && KeyBefore(a, b, keys[i], keys[j]))
  }

  ghost predicate ItemsAt(path: string, a: Side, b: Side, keys: seq<string>, xs: seq<Item>)
  {
    |xs| == |keys|
    && forall i :: 0 <= i < |keys| ==> xs[i] == Item(P.Child(path, keys[i]), Below(a, keys[i]), Below(b, keys[i]))
  }

  lemma ObjectKeys(p: Policy, rules: bool, path: string, a: Json, b: Json)
    requires a.Obj? && b.Obj? && WellFormed(a) && WellFormed(b) && !Ignored(p, rules, path)
    ensures Lists(p, rules, path, There(a), There(b), KeyOrder(a, b))
    ensures ItemsAt(path, There(a), There(b), KeyOrder(a, b), Children(p, rules, Item(path, There(a), There(b))))
  {
    ObjectChildren(p, rules, path, a, b);
    KeyOrderCovers(a, b);
    KeyOrderIsOrdered(a, b);
  }

  lemma KeyOrderIsOrdered(a: Json, b: Json)
    requires a.Obj? && b.Obj? && WellFormed(a) && WellFormed(b)
    ensures
      var keys := KeyOrder(a, b);
      forall i, j :: 0 <= i < j < |keys| ==> keys[i] != keys[j] && KeyBefore(There(a), There(b), keys[i], keys[j])
  {
    hide WellFormed;
    KeysOf(a);
    KeysOf(b);
    var extra, keys := ExtraKeys(b.order, a.fields), KeyOrder(a, b);
    ExtraKeysOrdered(b.order, a.fields);
    ExtraKeysAre(b.order, a.fields);
    forall i, j | 0 <= i < j < |keys|
      ensures keys[i] != keys[j] && KeyBefore(There(a), There(b), keys[i], keys[j])
    {
      var n := |a.order|;
      if j < n {
        assert a.order[i] == keys[i] && a.order[j] == keys[j];
        assert ComesBefore(a.order, keys[i], keys[j]);
      } else if i < n {
        assert keys[i] == a.order[i] && keys[j] == extra[j - n] && extra[j - n] in extra;
      } else {
        assert keys[i] == extra[i - n] && keys[j] == extra[j - n] && extra[i - n] in extra && extra[j - n] in extra;
      }
    }
  }

  lemma KeysOf(a: Json)
    requires a.Obj? && WellFormed(a)
    ensures NoDuplicates(a.order) && forall k :: k in a.order <==> k in a.fields
  {
  }

  function Indexes(n: nat): (keys: seq<string>)
    ensures |keys| == n && forall i :: 0 <= i < n ==> keys[i] == NatText(i)
  {
    seq(n, i requires 0 <= i < n => NatText(i))
  }

  function Shorter(a: Json, b: Json): nat
    requires a.Arr? && b.Arr?
  {
    if |a.items| <= |b.items| then |a.items| else |b.items|
  }

  lemma ArrayKeys(p: Policy, rules: bool, path: string, a: Json, b: Json)
    requires a.Arr? && b.Arr? && !Ignored(p, rules, path)
    ensures Lists(p, rules, path, There(a), There(b), Indexes(Shorter(a, b)))
    ensures ItemsAt(path, There(a), There(b), Indexes(Shorter(a, b)), Children(p, rules, Item(path, There(a), There(b))))
  {
    hide NatText, Children, Below, Enters, KeyBefore;
    var keys := Indexes(Shorter(a, b));
    ArrayItems(p, rules, path, a, b);
    forall k ensures Enters(p, rules, path, There(a), There(b), k) <==> k in keys {
      EntersIndex(p, rules, path, a, b, k);
    }
    forall i, j | 0 <= i < j < |keys| ensures keys[i] != keys[j] && KeyBefore(There(a), There(b), keys[i], keys[j]) {
      IndexBefore(a, b, i, j);
    }
  }

  lemma IndexBefore(a: Json, b: Json, i: nat, j: nat)
    requires a.Arr? && b.Arr? && i < j
    ensures NatText(i) != NatText(j) && KeyBefore(There(a), There(b), NatText(i), NatText(j))
  {
    hide NatText;
    NatTextIsIndex(i);
    NatTextIsIndex(j);
  }

  lemma EntersIndex(p: Policy, rules: bool, path: string, a: Json, b: Json, k: string)
    requires a.Arr? && b.Arr? && !Ignored(p, rules, path)
    ensures Enters(p, rules, path, There(a), There(b), k) <==> k in Indexes(Shorter(a, b))
  {
    hide NatText, Below;
    var keys := Indexes(Shorter(a, b));
    CommonIndex(a, b, k);
    if k in keys {
      var i :| 0 <= i < |keys| && keys[i] == k;
      ElementIs(a.items, i);
      ElementIs(b.items, i);
    }
    if Enters(p, rules, path, There(a), There(b), k) {
      var i :| 0 <= i < |a.items| && i < |b.items| && NatText(i) == k;
      assert keys[i] == k;
    }
  }

  lemma ArrayItems(p: Policy, rules: bool, path: string, a: Json, b: Json)
    requires a.Arr? && b.Arr? && !Ignored(p, rules, path)
    ensures ItemsAt(path, There(a), There(b), Indexes(Shorter(a, b)), Children(p, rules, Item(path, There(a), There(b))))
  {
    hide NatText, Below;
    forall i | 0 <= i < Shorter(a, b)
      ensures Below(There(a), NatText(i)) == There(a.items[i]) && Below(There(b), NatText(i)) == There(b.items[i])
    {
      ElementIs(a.items, i);
      ElementIs(b.items, i);
    }
  }

  /** A key names an element of both arrays exactly when it is the text of an index below both lengths. */
  lemma CommonIndex(a: Json, b: Json, k: string)
    requires a.Arr? && b.Arr?
    ensures Below(There(a), k).There? && Below(There(b), k).There? ==>
              exists i :: 0 <= i < |a.items| && i < |b.items| && NatText(i) == k
  {
    hide NatText;
    if Below(There(a), k).There? && Below(There(b), k).There? {
      var i: nat :| IsElement(a.items, k, i);
      var j: nat :| IsElement(b.items, k, j);
      NatTextIsIndex(i);
      NatTextIsIndex(j);
    }
  }

  /** What the walk pushes is what is inside the pair, in order. */
  lemma ChildrenAre(p: Policy, rules: bool, path: string, a: Side, b: Side) returns (keys: seq<string>)
    requires Fit(p, a) && Fit(p, b)
    ensures Lists(p, rules, path, a, b, keys) && ItemsAt(path, a, b, keys, Children(p, rules, Item(path, a, b)))
  {
    hide WellFormed, NumbersWithin, Lists, ItemsAt;
    if !Ignored(p, rules, path) && a.There? && b.There? && a.json.Obj? && b.json.Obj? {
      ObjectKeys(p, rules, path, a.json, b.json);
      keys := KeyOrder(a.json, b.json);
    } else if !Ignored(p, rules, path) && a.There? && b.There? && a.json.Arr? && b.json.Arr? {
      ArrayKeys(p, rules, path, a.json, b.json);
      keys := Indexes(Shorter(a.json, b.json));
    } else {
      keys := [];
      NothingInside(p, rules, path, a, b);
    }
  }

  lemma NothingInside(p: Policy, rules: bool, path: string, a: Side, b: Side)
    requires Ignored(p, rules, path) || a.Missing? || b.Missing?
             || !((a.json.Obj? && b.json.Obj?) || (a.json.Arr? && b.json.Arr?))
    ensures Lists(p, rules, path, a, b, []) && ItemsAt(path, a, b, [], Children(p, rules, Item(path, a, b)))
  {
  }

  // ----- the listing -----

  /** The events are those at these positions, position by position, in strict order, and there are no others. */
  ghost predicate Listing(p: Policy, rules: bool, path: string, a: Side, b: Side, es: seq<Event>, qs: seq<Keys>)
  {
    && |qs| == |es|
    && (forall i :: 0 <= i < |qs| ==> ReportedAt(p, rules, path, a, b, qs[i], es[i]))
    && (forall q, e :: ReportedAt(p, rules, path, a, b, q, e) ==> q in qs)
    && (forall i, j :: 0 <= i < j < |qs| ==> Precedes(a, b, qs[i], qs[j]))
  }

  /** The part of a listing that lies under some of the keys. */
  ghost predicate Under(
    p: Policy, rules: bool, path: string, a: Side, b: Side, keys: seq<string>, es: seq<Event>, qs: seq<Keys>)
  {
    && |qs| == |es|
    && (forall i :: 0 <= i < |qs| ==> qs[i] != [] && qs[i][0] in keys && ReportedAt(p, rules, path, a, b, qs[i], es[i]))
    && (forall q, e :: q != [] && q[0] in keys && ReportedAt(p, rules, path, a, b, q, e) ==> q in qs)
    && (forall i, j :: 0 <= i < j < |qs| ==> Precedes(a, b, qs[i], qs[j]))
  }

  function Prefixed(key: string, qs: seq<Keys>): (rs: seq<Keys>)
    ensures |rs| == |qs| && forall i :: 0 <= i < |qs| ==> rs[i] == [key] + qs[i]
  {
    seq(|qs|, i requires 0 <= i < |qs| => [key] + qs[i])
  }

  /** Going down one key. */
  lemma DownOne(p: Policy, rules: bool, path: string, a: Side, b: Side, key: string, q: Keys, e: Event)
    requires Enters(p, rules, path, a, b, key)
    ensures ReportedAt(p, rules, path, a, b, [key] + q, e) <==>
              ReportedAt(p, rules, P.Child(path, key), Below(a, key), Below(b, key), q, e)
  {
    hide Reports, Below, Enters;
    assert ([key] + q)[1..] == q;
  }

  lemma DownBoth(a: Side, b: Side, key: string, q: Keys, r: Keys)
    ensures Precedes(a, b, [key] + q, [key] + r) <==> Precedes(Below(a, key), Below(b, key), q, r)
  {
    hide Below, KeyBefore;
    assert ([key] + q)[1..] == q && ([key] + r)[1..] == r;
  }

  /** A listing of what is under one key. */
  lemma UnderOne(
    p: Policy, rules: bool, path: string, a: Side, b: Side, key: string, es: seq<Event>, qs: seq<Keys>)
    requires Enters(p, rules, path, a, b, key)
    requires Listing(p, rules, P.Child(path, key), Below(a, key), Below(b, key), es, qs)
    ensures Under(p, rules, path, a, b, [key], es, Prefixed(key, qs))
  {
    hide ReportedAt, Below, Enters, Precedes;
    var rs := Prefixed(key, qs);
    forall i | 0 <= i < |qs| ensures ReportedAt(p, rules, path, a, b, rs[i], es[i]) {
      DownOne(p, rules, path, a, b, key, qs[i], es[i]);
    }
    forall q, e | q != [] && q[0] in [key] && ReportedAt(p, rules, path, a, b, q, e) ensures q in rs {
      assert q == [key] + q[1..];
      DownOne(p, rules, path, a, b, key, q[1..], e);
      var i :| 0 <= i < |qs| && qs[i] == q[1..];
      assert rs[i] == q;
    }
    forall i, j | 0 <= i < j < |qs| ensures Precedes(a, b, rs[i], rs[j]) {
      DownBoth(a, b, key, qs[i], qs[j]);
    }
  }

  /** What is under one key, and then what is under later ones. */
  lemma UnderMore(
    p: Policy, rules: bool, path: string, a: Side, b: Side, key: string, keys: seq<string>,
    es: seq<Event>, qs: seq<Keys>, more: seq<Event>, rs: seq<Keys>)
    requires Under(p, rules, path, a, b, [key], es, qs) && Under(p, rules, path, a, b, keys, more, rs)
    requires forall k :: k in keys ==> k != key && KeyBefore(a, b, key, k)
    ensures Under(p, rules, path, a, b, [key] + keys, es + more, qs + rs)
  {
    hide ReportedAt, KeyBefore, Precedes;
    var all, events := qs + rs, es + more;
    forall i | 0 <= i < |all|
      ensures all[i] != [] && all[i][0] in [key] + keys && ReportedAt(p, rules, path, a, b, all[i], events[i])
    {
      if i < |qs| {
        assert all[i] == qs[i] && events[i] == es[i];
      } else {
        assert all[i] == rs[i - |qs|] && events[i] == more[i - |es|];
      }
    }
    forall i, j | 0 <= i < j < |all| ensures Precedes(a, b, all[i], all[j]) {
      if i < |qs| && j >= |qs| {
        assert all[i] == qs[i] && all[j] == rs[j - |qs|];
        Across(a, b, all[i], all[j]);
      } else if i >= |qs| {
        assert all[i] == rs[i - |qs|] && all[j] == rs[j - |qs|];
      }
    }
  }

  lemma Across(a: Side, b: Side, q: Keys, r: Keys)
    requires q != [] && r != [] && q[0] != r[0] && KeyBefore(a, b, q[0], r[0])
    ensures Precedes(a, b, q, r)
  {
    hide KeyBefore;
  }

  lemma AtRoot(p: Policy, rules: bool, path: string, a: Side, b: Side, q: Keys, e: Event)
    ensures q == [] ==> (ReportedAt(p, rules, path, a, b, q, e) <==> Reports(p, rules, path, a, b, e))
    ensures q != [] && ReportedAt(p, rules, path, a, b, q, e) ==> Enters(p, rules, path, a, b, q[0])
  {
    hide Reports, Enters, Below;
  }

  lemma RootFirst(a: Side, b: Side, q: Keys)
    requires q != []
    ensures Precedes(a, b, [], q)
  {
  }

  lemma RootAdded(qs: seq<Keys>)
    ensures var all := [[]] + qs; |all| == |qs| + 1 && all[0] == [] && forall i :: 0 <= i < |qs| ==> all[i + 1] == qs[i]
    ensures forall q :: q in qs ==> q in [[]] + qs
  {
  }

  lemma OneCompletes(
    p: Policy, rules: bool, path: string, a: Side, b: Side, keys: seq<string>, es: seq<Event>, qs: seq<Keys>,
    q: Keys, e: Event)
    requires Under(p, rules, path, a, b, keys, es, qs) && ReportedAt(p, rules, path, a, b, q, e)
    requires forall k :: Enters(p, rules, path, a, b, k) ==> k in keys
    ensures q == [] || q in qs
  {
    hide Reports, Enters, ReportedAt, Precedes;
    AtRoot(p, rules, path, a, b, q, e);
  }

  lemma OneOrders(p: Policy, rules: bool, path: string, a: Side, b: Side, keys: seq<string>, es: seq<Event>, qs: seq<Keys>)
    requires Under(p, rules, path, a, b, keys, es, qs)
    ensures var all := [[]] + qs; forall i, j :: 0 <= i < j < |all| ==> Precedes(a, b, all[i], all[j])
  {
    hide ReportedAt, Precedes;
    var all := [[]] + qs;
    forall i, j | 0 <= i < j < |all| ensures Precedes(a, b, all[i], all[j]) {
      assert all[j] == qs[j - 1];
      if i == 0 {
        RootFirst(a, b, all[j]);
      } else {
        assert all[i] == qs[i - 1];
      }
    }
  }

  /** What is reported of the pair itself comes before everything inside it. */
  lemma WithOne(
    p: Policy, rules: bool, path: string, a: Side, b: Side, keys: seq<string>, here: Event, es: seq<Event>, qs: seq<Keys>)
    requires Under(p, rules, path, a, b, keys, es, qs)
    requires forall e :: Reports(p, rules, path, a, b, e) <==> e == here
    requires forall k :: Enters(p, rules, path, a, b, k) ==> k in keys
    ensures Listing(p, rules, path, a, b, [here] + es, [[]] + qs)
  {
    hide Reports, Enters, ReportedAt, Precedes, Under;
    var all, events := [[]] + qs, [here] + es;
    RootAdded(qs);
    AtRoot(p, rules, path, a, b, [], here);
    UnderIs(p, rules, path, a, b, keys, es, qs);
    forall i | 0 <= i < |all| ensures ReportedAt(p, rules, path, a, b, all[i], events[i]) {
      assert i > 0 ==> events[i] == es[i - 1] && all[i] == qs[i - 1];
    }
    forall q, e | ReportedAt(p, rules, path, a, b, q, e) ensures q in all {
      OneCompletes(p, rules, path, a, b, keys, es, qs, q, e);
      assert q == [] ==> all[0] == q;
    }
    OneOrders(p, rules, path, a, b, keys, es, qs);
  }

  lemma UnderIs(p: Policy, rules: bool, path: string, a: Side, b: Side, keys: seq<string>, es: seq<Event>, qs: seq<Keys>)
    requires Under(p, rules, path, a, b, keys, es, qs)
    ensures |qs| == |es| && forall i :: 0 <= i < |qs| ==> ReportedAt(p, rules, path, a, b, qs[i], es[i])
  {
    hide ReportedAt, Precedes;
  }

  lemma WithNone(
    p: Policy, rules: bool, path: string, a: Side, b: Side, keys: seq<string>, es: seq<Event>, qs: seq<Keys>)
    requires Under(p, rules, path, a, b, keys, es, qs)
    requires forall e :: !Reports(p, rules, path, a, b, e)
    requires forall k :: Enters(p, rules, path, a, b, k) ==> k in keys
    ensures Listing(p, rules, path, a, b, es, qs)
  {
    hide Reports, Enters, ReportedAt, Precedes;
    forall q, e | ReportedAt(p, rules, path, a, b, q, e) ensures q in qs {
      AtRoot(p, rules, path, a, b, q, e);
    }
  }

  lemma WithHere(
    p: Policy, rules: bool, path: string, a: Side, b: Side, keys: seq<string>, here: seq<Event>,
    es: seq<Event>, qs: seq<Keys>) returns (all: seq<Keys>)
    requires Under(p, rules, path, a, b, keys, es, qs)
    requires |here| <= 1 && forall e :: Reports(p, rules, path, a, b, e) <==> e in here
    requires forall k :: Enters(p, rules, path, a, b, k) ==> k in keys
    ensures Listing(p, rules, path, a, b, here + es, all)
  {
    hide Reports, Enters, Under, Listing;
    if here == [] {
      all := qs;
      assert here + es == es;
      WithNone(p, rules, path, a, b, keys, es, qs);
    } else {
      all := [[]] + qs;
      assert here == [here[0]];
      WithOne(p, rules, path, a, b, keys, here[0], es, qs);
    }
  }

  lemma BelowFits(p: Policy, s: Side, key: string)
    requires Fit(p, s)
    ensures Fit(p, Below(s, key))
  {
  }

  lemma NothingUnder(p: Policy, rules: bool, path: string, a: Side, b: Side)
    ensures Under(p, rules, path, a, b, [], [], [])
  {
  }

  /** The events of a comparison are listed. */
  lemma {:induction false} ListEvents(p: Policy, rules: bool, path: string, a: Side, b: Side) returns (qs: seq<Keys>)
    requires Fit(p, a) && Fit(p, b)
    ensures Listing(p, rules, path, a, b, Events(p, rules, Item(path, a, b)), qs)
    decreases Depth(a), Walk.Value(a), 1, 0
  {
    hide Here, Children, Listing, Under, ItemsAt, Comparable, Enters, Reports, KeyBefore;
    var x := Item(path, a, b);
    var keys := ChildrenAre(p, rules, path, a, b);
    HereIs(p, rules, path, a, b);
    if a.Missing? {
      NoChildren(p, rules, x);
      NothingListed(p, rules, path, a, b, keys, Children(p, rules, x));
      NothingUnder(p, rules, path, a, b);
      qs := WithHere(p, rules, path, a, b, [], Here(p, rules, x), [], []);
      assert Here(p, rules, x) + [] == Here(p, rules, x);
    } else {
      ChildrenDescend(p, rules, x);
      var rs := ListAll(p, rules, path, a, b, keys, Children(p, rules, x));
      qs := WithHere(p, rules, path, a, b, keys, Here(p, rules, x), EventsAll(p, rules, Children(p, rules, x), a.json), rs);
    }
  }

  lemma NothingListed(p: Policy, rules: bool, path: string, a: Side, b: Side, keys: seq<string>, xs: seq<Item>)
    requires ItemsAt(path, a, b, keys, xs) && xs == []
    ensures keys == []
  {
  }

  lemma {:induction false} ListAll(
    p: Policy, rules: bool, path: string, a: Side, b: Side, keys: seq<string>, xs: seq<Item>) returns (qs: seq<Keys>)
    requires Fit(p, a) && Fit(p, b) && a.There? && ItemsAt(path, a, b, keys, xs)
    requires forall c :: c in xs && c.left.There? ==> c.left.json < a.json
    requires forall k :: k in keys ==> Enters(p, rules, path, a, b, k)
    requires forall i, j :: 0 <= i < j < |keys| ==> keys[i] != keys[j] && KeyBefore(a, b, keys[i], keys[j])
    ensures Under(p, rules, path, a, b, keys, EventsAll(p, rules, xs, a.json), qs)
    decreases 1, a.json, 0, |xs|
  {
    hide Events, Listing, Under, Fit, Enters, KeyBefore, Below;
    if xs == [] {
      NothingUnder(p, rules, path, a, b);
      qs := [];
    } else {
      var key, rest := keys[0], keys[1..];
      BelowFits(p, a, key);
      BelowFits(p, b, key);
      assert xs[0] == Item(P.Child(path, key), Below(a, key), Below(b, key)) && xs[0] in xs;
      var first := ListEvents(p, rules, P.Child(path, key), Below(a, key), Below(b, key));
      var later := ListAll(p, rules, path, a, b, rest, xs[1..]);
      UnderOne(p, rules, path, a, b, key, Events(p, rules, xs[0]), first);
      UnderMore(p, rules, path, a, b, key, rest, Events(p, rules, xs[0]), Prefixed(key, first),
                EventsAll(p, rules, xs[1..], a.json), later);
      assert [key] + rest == keys;
      qs := Prefixed(key, first) + later;
    }
  }

  // ----- the order is strict -----

  lemma KeyBeforeIsStrict(p: Policy, a: Side, b: Side, k: string, m: string)
    requires Fit(p, a) && Fit(p, b) && KeyBefore(a, b, k, m)
    ensures !KeyBefore(a, b, m, k)
  {
    hide NatText, NumbersWithin;
    if a.json.Obj? {
      KeysOf(a.json);
      KeysOf(b.json);
      OnceBefore(a.json.order, k, m);
      OnceBefore(b.json.order, k, m);
    } else {
      forall i: nat, j: nat | i < j && NatText(i) == m && NatText(j) == k ensures false {
        var x: nat, y: nat :| x < y && NatText(x) == k && NatText(y) == m;
        NatTextIsIndex(i);
        NatTextIsIndex(j);
        NatTextIsIndex(x);
        NatTextIsIndex(y);
      }
    }
  }

  lemma OnceBefore(keys: seq<string>, k: string, m: string)
    requires NoDuplicates(keys)
    ensures ComesBefore(keys, k, m) ==> k in keys && m in keys && !ComesBefore(keys, m, k)
  {
  }

  /** No position comes both before and after another, so there is one order in which a listing can be. */
  lemma {:induction false} PrecedesIsStrict(p: Policy, a: Side, b: Side, q: Keys, r: Keys)
    requires Fit(p, a) && Fit(p, b) && Precedes(a, b, q, r)
    ensures !Precedes(a, b, r, q)
    decreases |q|
  {
    hide Fit, KeyBefore, Below;
    if q != [] {
      if q[0] == r[0] {
        BelowFits(p, a, q[0]);
        BelowFits(p, b, q[0]);
        PrecedesIsStrict(p, Below(a, q[0]), Below(b, q[0]), q[1..], r[1..]);
      } else {
        KeyBeforeIsStrict(p, a, b, q[0], r[0]);
      }
    }
  }

  // ----- the differences of two documents -----

  lemma {:induction false} PathToIsEncode(q: Keys, r: Keys)
    ensures PathTo(P.Encode(q), r) == P.Encode(q + r)
    decreases |r|
  {
    if r == [] {
      assert q + r == q;
    } else {
      assert q + r == (q + [r[0]]) + r[1..];
      assert (q + [r[0]])[..|q|] == q;
      PathToIsEncode(q + [r[0]], r[1..]);
    }
  }

  /** The positions of the differences among the positions of all events. */
  function Picked(es: seq<Event>, qs: seq<Keys>): seq<Keys>
    requires |qs| == |es|
    decreases |es|
  {
    if es == [] then []
    else
      var n := |es| - 1;
      Picked(es[..n], qs[..n]) + (if es[n].Differs? then [qs[n]] else [])
  }

  lemma {:induction false} PickedAre(es: seq<Event>, qs: seq<Keys>)
    requires |qs| == |es|
    ensures |Picked(es, qs)| == |DifferencesOf(es)|
    ensures forall i :: 0 <= i < |Picked(es, qs)| ==>
              exists k :: 0 <= k < |es| && es[k] == Differs(DifferencesOf(es)[i]) && qs[k] == Picked(es, qs)[i]
    ensures forall k :: 0 <= k < |es| && es[k].Differs? ==> qs[k] in Picked(es, qs)
    decreases |es|
  {
    if es != [] {
      var n := |es| - 1;
      PickedAre(es[..n], qs[..n]);
      var before, all := Picked(es[..n], qs[..n]), Picked(es, qs);
      forall i | 0 <= i < |all|
        ensures exists k :: 0 <= k < |es| && es[k] == Differs(DifferencesOf(es)[i]) && qs[k] == all[i]
      {
        if i < |before| {
          var k :| 0 <= k < n && es[..n][k] == Differs(DifferencesOf(es[..n])[i]) && qs[..n][k] == before[i];
          assert es[k] == Differs(DifferencesOf(es)[i]) && qs[k] == all[i];
        } else {
          assert es[n] == Differs(DifferencesOf(es)[i]) && qs[n] == all[i];
        }
      }
      forall k | 0 <= k < |es| && es[k].Differs? ensures qs[k] in all {
        if k < n {
          assert es[..n][k] == es[k] && qs[..n][k] in before;
        } else {
          assert all[|before|] == qs[n];
        }
      }
    }
  }

  lemma {:induction false} PickedInOrder(a: Side, b: Side, es: seq<Event>, qs: seq<Keys>)
    requires |qs| == |es| && forall i, j :: 0 <= i < j < |qs| ==> Precedes(a, b, qs[i], qs[j])
    ensures forall r :: r in Picked(es, qs) ==> r in qs
    ensures forall i, j :: 0 <= i < j < |Picked(es, qs)| ==> Precedes(a, b, Picked(es, qs)[i], Picked(es, qs)[j])
    decreases |es|
  {
    hide Precedes;
    if es != [] {
      var n := |es| - 1;
      PickedInOrder(a, b, es[..n], qs[..n]);
      var before, all := Picked(es[..n], qs[..n]), Picked(es, qs);
      forall r | r in all ensures r in qs {
        assert r in before || r == qs[n];
      }
      forall i, j | 0 <= i < j < |all| ensures Precedes(a, b, all[i], all[j]) {
        if j == |before| {
          assert before[i] in qs[..n];
          var k :| 0 <= k < n && qs[..n][k] == before[i];
          assert qs[k] == all[i] && qs[n] == all[j];
        }
      }
    }
  }

  /** The two documents differ at this position, for this reason. */
  ghost predicate DifferAt(p: Policy, rules: bool, left: Json, right: Json, q: Keys, reason: Reason)
  {
    && Visited(p, rules, "", There(left), There(right), q) && !Ignored(p, rules, P.Encode(q))
    && Differing(p, rules, P.Encode(q), At(There(left), q), At(There(right), q), reason)
  }

  lemma DifferAtIs(p: Policy, rules: bool, left: Json, right: Json, q: Keys, d: Difference)
    ensures ReportedAt(p, rules, "", There(left), There(right), q, Differs(d)) <==>
              DifferAt(p, rules, left, right, q, d.reason) && d.path == P.Encode(q)
  {
    hide Visited, Differing, P.Encode, At;
    assert P.Encode([]) == "" by { P.EncodeNone(); }
    PathToIsEncode([], q);
    assert [] + q == q;
  }

  /**
   The list of all differences, in terms of the documents alone: there is a difference with a path and a
   reason exactly where the values that the path's keys lead to in both documents differ for that reason;
   each is listed once, in preorder.
   */
  lemma DifferencesAreExact(p: Policy, rules: bool, left: Json, right: Json) returns (qs: seq<Keys>)
    requires Comparable(p, left) && Comparable(p, right)
    ensures
      var ds := DifferencesOf(AllEvents(p, rules, left, right));
      && |qs| == |ds|
      && (forall i :: 0 <= i < |ds| ==>
            ds[i].path == P.Encode(qs[i]) && DifferAt(p, rules, left, right, qs[i], ds[i].reason))
      && (forall q, reason :: DifferAt(p, rules, left, right, q, reason) ==> q in qs)
      && (forall i, j :: 0 <= i < j < |qs| ==> Precedes(There(left), There(right), qs[i], qs[j]) && qs[i] != qs[j])
  {
    hide Events, ReportedAt, DifferAt, Precedes, Comparable, P.Encode;
    var a, b := There(left), There(right);
    var es := AllEvents(p, rules, left, right);
    var all := ListEvents(p, rules, "", a, b);
    PickedAre(es, all);
    PickedInOrder(a, b, es, all);
    qs := Picked(es, all);
    var ds := DifferencesOf(es);
    forall i | 0 <= i < |ds|
      ensures ds[i].path == P.Encode(qs[i]) && DifferAt(p, rules, left, right, qs[i], ds[i].reason)
    {
      DifferAtIs(p, rules, left, right, qs[i], ds[i]);
    }
    forall q, reason | DifferAt(p, rules, left, right, q, reason) ensures q in qs {
      var d := Difference(P.Encode(q), reason);
      DifferAtIs(p, rules, left, right, q, d);
      var k :| 0 <= k < |all| && all[k] == q;
      ReportsOnce(p, rules, left, right, q, es[k], Differs(d));
    }
    forall i, j | 0 <= i < j < |qs| ensures qs[i] != qs[j] {
      PrecedesIsStrict(p, a, b, qs[i], qs[j]);
    }
  }

  /** Only one thing is reported at a position. */
  lemma ReportsOnce(p: Policy, rules: bool, left: Json, right: Json, q: Keys, e: Event, e': Event)
    requires ReportedAt(p, rules, "", There(left), There(right), q, e)
    requires ReportedAt(p, rules, "", There(left), There(right), q, e')
    ensures e == e'
  {
    hide Visited, At, PathTo, RealAbs, Decimals.Value;
  }

  /** The rules that are applied: those that suppress a difference, or a whole subtree, somewhere. */
  lemma RulesAreExact(p: Policy, rules: bool, left: Json, right: Json, rule: Rule)
    requires Comparable(p, left) && Comparable(p, right)
    ensures rule in RulesOf(AllEvents(p, rules, left, right)) <==>
              exists q :: ReportedAt(p, rules, "", There(left), There(right), q, Applies(rule))
  {
    hide Events, ReportedAt, Precedes, Comparable;
    var es := AllEvents(p, rules, left, right);
    var qs := ListEvents(p, rules, "", There(left), There(right));
    if q :| ReportedAt(p, rules, "", There(left), There(right), q, Applies(rule)) {
      var k :| 0 <= k < |qs| && qs[k] == q;
      ReportsOnce(p, rules, left, right, q, es[k], Applies(rule));
      assert es[k] in es;
    }
    if rule in RulesOf(es) {
      var e :| e in es && e == Applies(rule);
      var k :| 0 <= k < |es| && es[k] == e;
      assert ReportedAt(p, rules, "", There(left), There(right), qs[k], Applies(rule));
    }
  }
}
