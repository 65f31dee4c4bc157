/** Moving fields keeps every leaf value of a document: none is lost, none is made, none is changed. */
module Leaves {
  import opened Options
  import opened Json
  import opened Totals
  import opened Trees
  import opened FieldMoves
  import Indices
  import D = Differences
  import F = FieldMappings

  // ----- sums of multisets -----

  ghost function SeqSum(ms: seq<multiset<Json>>): multiset<Json>
  {
    if ms == [] then multiset{} else ms[0] + SeqSum(ms[1..])
  }

  ghost function MapSum(m: map<string, multiset<Json>>): multiset<Json>
    decreases |m|
  {
    if m == map[] then multiset{}
    else
      var k := Pick(m);
      RemoveShrinks(m, k);
      m[k] + MapSum(m - {k})
  }

  /** Adding the same leaves to both sides of an exchange. */
  lemma Beside(head: multiset<Json>, after: multiset<Json>, before: multiset<Json>, was: multiset<Json>, now: multiset<Json>)
    requires after + was == before + now
    ensures (head + after) + was == (head + before) + now
  {
    forall j ensures ((head + after) + was)[j] == ((head + before) + now)[j] {
      assert (after + was)[j] == (before + now)[j];
    }
  }

  /** The exchanged child lost exactly x, so the whole did. */
  lemma Lost(after: multiset<Json>, before: multiset<Json>, was: multiset<Json>, now: multiset<Json>, x: multiset<Json>)
    requires after + was == before + now && was == now + x
    ensures before == after + x
  {
    forall j ensures before[j] == (after + x)[j] {
      assert (after + was)[j] == (before + now)[j] && was[j] == (now + x)[j];
    }
  }

  lemma {:induction false} SeqSumAt(ms: seq<multiset<Json>>, i: nat, x: multiset<Json>)
    requires i < |ms|
    ensures SeqSum(ms[i := x]) + ms[i] == SeqSum(ms) + x
    decreases |ms|
  {
    if i == 0 {
      assert ms[0 := x][1..] == ms[1..];
      assert (x + SeqSum(ms[1..])) + ms[0] == (ms[0] + SeqSum(ms[1..])) + x;
    } else {
      SeqSumAt(ms[1..], i - 1, x);
      assert ms[i := x][1..] == ms[1..][i - 1 := x];
      Beside(ms[0], SeqSum(ms[1..][i - 1 := x]), SeqSum(ms[1..]), ms[i], x);
    }
  }

  lemma {:induction false} MapSumRemove(m: map<string, multiset<Json>>, k: string)
    requires k in m
    ensures MapSum(m) == m[k] + MapSum(m - {k})
    decreases |m|
  {
    var j := Pick(m);
    RemoveShrinks(m, j);
    RemoveShrinks(m, k);
    if j != k {
      MapSumRemove(m - {j}, k);
      MapSumRemove(m - {k}, j);
      assert (m - {j}) - {k} == (m - {k}) - {j};
    }
  }

  // ----- the leaves of a tree -----

  ghost function LeavesOf(v: Tree): multiset<Json>
  {
    match v
    case Leaf(value) => multiset{value}
    case List(items) => SeqSum(seq(|items|, i requires 0 <= i < |items| => LeavesOf(items[i])))
    case Dict(fields) => MapSum(map k | k in fields :: LeavesOf(fields[k]))
  }

  ghost function ItemLeaves(items: seq<Tree>): (ms: seq<multiset<Json>>)
    ensures |ms| == |items| && forall i :: 0 <= i < |items| ==> ms[i] == LeavesOf(items[i])
  {
    seq(|items|, i requires 0 <= i < |items| => LeavesOf(items[i]))
  }

  ghost function FieldLeaves(fields: map<string, Tree>): (m: map<string, multiset<Json>>)
    ensures m.Keys == fields.Keys && forall k :: k in fields ==> m[k] == LeavesOf(fields[k])
  {
    map k | k in fields :: LeavesOf(fields[k])
  }

  lemma ListLeaves(items: seq<Tree>)
    ensures LeavesOf(List(items)) == SeqSum(ItemLeaves(items))
  {
    assert seq(|items|, i requires 0 <= i < |items| => LeavesOf(items[i])) == ItemLeaves(items);
  }

  lemma DictLeaves(fields: map<string, Tree>)
    ensures LeavesOf(Dict(fields)) == MapSum(FieldLeaves(fields))
  {
    assert (map k | k in fields :: LeavesOf(fields[k])) == FieldLeaves(fields);
  }

  lemma FieldRemoved(fields: map<string, Tree>, k: string)
    requires k in fields
    ensures LeavesOf(Dict(fields)) == LeavesOf(fields[k]) + LeavesOf(Dict(fields - {k}))
  {
    hide LeavesOf, MapSum;
    DictLeaves(fields);
    DictLeaves(fields - {k});
    MapSumRemove(FieldLeaves(fields), k);
    assert FieldLeaves(fields) - {k} == FieldLeaves(fields - {k});
  }

  lemma FieldAdded(fields: map<string, Tree>, k: string, x: Tree)
    requires k !in fields
    ensures LeavesOf(Dict(fields[k := x])) == LeavesOf(x) + LeavesOf(Dict(fields))
  {
    hide LeavesOf;
    FieldRemoved(fields[k := x], k);
    assert fields[k := x] - {k} == fields;
  }

  /** Replacing a child exchanges its leaves. */
  lemma ChildReplaced(v: Tree, part: string, c: Tree)
    requires Step(v, part).Some?
    ensures LeavesOf(WithStep(v, part, c)) + LeavesOf(Step(v, part).value) == LeavesOf(v) + LeavesOf(c)
  {
    hide LeavesOf;
    match v
    case List(items) =>
      var i := Indices.Select(part, |items|).value;
      ListLeaves(items);
      ListLeaves(items[i := c]);
      SeqSumAt(ItemLeaves(items), i, LeavesOf(c));
      assert ItemLeaves(items[i := c]) == ItemLeaves(items)[i := LeavesOf(c)];
    case Dict(fields) =>
      FieldRemoved(fields, part);
      FieldAdded(fields - {part}, part, c);
      assert (fields - {part})[part := c] == fields[part := c];
      var rest, was, now := LeavesOf(Dict(fields - {part})), LeavesOf(fields[part]), LeavesOf(c);
      assert (now + rest) + was == (was + rest) + now;
  }

  lemma {:induction false} TakingTakesLeaves(v: Tree, p: Path)
    requires Get(v, p).Some?
    ensures LeavesOf(v) == LeavesOf(Write(v, p, None)) + LeavesOf(Get(v, p).value)
    decreases |p|
  {
    hide LeavesOf;
    if |p| == 1 {
      FieldRemoved(v.fields, p[0]);
    } else {
      var c := Step(v, p[0]).value;
      TakingTakesLeaves(c, p[1..]);
      var c' := Write(c, p[1..], None);
      ChildReplaced(v, p[0], c');
      Lost(LeavesOf(WithStep(v, p[0], c')), LeavesOf(v), LeavesOf(c), LeavesOf(c'), LeavesOf(Get(v, p).value));
    }
  }

  lemma {:induction false} PuttingPutsLeaves(v: Tree, p: Path, x: Tree)
    requires HasDict(v, p) && Get(v, p).None?
    ensures LeavesOf(Write(v, p, Some(x))) == LeavesOf(v) + LeavesOf(x)
    decreases |p|
  {
    hide LeavesOf;
    if |p| == 1 {
      FieldAdded(v.fields, p[0], x);
    } else {
      var c := Step(v, p[0]).value;
      PuttingPutsLeaves(c, p[1..], x);
      var c' := Write(c, p[1..], Some(x));
      ChildReplaced(v, p[0], c');
      Lost(LeavesOf(v), LeavesOf(WithStep(v, p[0], c')), LeavesOf(c'), LeavesOf(c), LeavesOf(x));
    }
  }

  lemma MoveKeepsLeaves(v: Tree, m: Move)
    requires Apart(m.source, m.target) && MoveOne(v, m).Some?
    ensures LeavesOf(MoveOne(v, m).value) == LeavesOf(v)
  {
    hide LeavesOf, Get, HasDict, Write, Apart;
    var x := Get(v, m.source);
    if x.Some? {
      TakingTakesLeaves(v, m.source);
      ReadElsewhere(v, m.source, None, m.target);
      PuttingPutsLeaves(Write(v, m.source, None), m.target, x.value);
    }
  }

  /** Mappings that do not conflict conserve every leaf of the document. */
  lemma {:induction false} MovesKeepLeaves(v: Tree, ms: seq<Move>)
    requires PrefixFree(ms) && MoveAll(v, ms).Some?
    ensures LeavesOf(MoveAll(v, ms).value) == LeavesOf(v)
    decreases |ms|
  {
    hide LeavesOf, MoveOne, MoveApart;
    if ms != [] {
      MoveKeepsLeaves(v, ms[0]);
      assert PrefixFree(ms[1..]);
      MovesKeepLeaves(MoveOne(v, ms[0]).value, ms[1..]);
    }
  }

  /** The same for documents: whatever the mappings did to key order, the leaves are those that were there. */
  lemma MappingKeepsLeaves(v: Json, ms: seq<Move>, applied: set<D.Rule>)
    requires PrefixFree(ms) && F.MapFrom(v, ms, 0, applied).Some?
    ensures LeavesOf(Erase(F.MapFrom(v, ms, 0, applied).value.0)) == LeavesOf(Erase(v))
  {
    hide LeavesOf, MoveAll, Erase, PrefixFree, F.MapFrom;
    F.MapFromIsMoveAll(v, ms, 0, applied);
    assert ms[0..] == ms;
    MovesKeepLeaves(Erase(v), ms);
  }
}
